/** Key agreement between two identities, and the per-peer sessions built on it. */
module KeyAgreement {
  import opened Basics
  import opened Bytes
  import opened SymbolicCrypto
  import opened Ratchet
  import opened RatchetRuns
  import opened RatchetObject

  /** The order on encoded Diffie-Hellman outputs: any total, antisymmetric one. */
  ghost predicate IsOrder(atMost: (Dh, Dh) -> bool) {
    && (forall a, b :: atMost(a, b) || atMost(b, a))
    && (forall a, b :: atMost(a, b) && atMost(b, a) ==> a == b)
  }

  /** The secret halves of an identity: its long-term key and its signed pre-key. */
  datatype Keys = Keys(identity: nat, preKey: nat)

  function X3dhInitiator(ours: nat, ephemeral: nat, theirIdentity: PublicKey, theirPreKey: PublicKey): Key {
    Agreed(DiffieHellman(ours, theirPreKey), DiffieHellman(ephemeral, theirIdentity),
           DiffieHellman(ephemeral, theirPreKey))
  }

  function X3dhResponder(ours: Keys, theirIdentity: PublicKey, theirEphemeral: PublicKey): Key {
    Agreed(DiffieHellman(ours.preKey, theirIdentity), DiffieHellman(ours.identity, theirEphemeral),
           DiffieHellman(ours.preKey, theirEphemeral))
  }

  function X3dhMutual(atMost: (Dh, Dh) -> bool, ours: Keys, theirIdentity: PublicKey, theirPreKey: PublicKey): Key {
    var crossA := DiffieHellman(ours.identity, theirPreKey);
    var crossB := DiffieHellman(ours.preKey, theirIdentity);
    var (first, second) := if atMost(crossA, crossB) then (crossA, crossB) else (crossB, crossA);
    Agreed(DiffieHellman(ours.identity, theirIdentity), first, second)
  }

  /** Both handshakes give the two sides the same secret. */
  lemma HandshakesAgree(atMost: (Dh, Dh) -> bool, a: Keys, b: Keys, ephemeral: nat)
    requires IsOrder(atMost)
    ensures X3dhMutual(atMost, a, Pub(b.identity), Pub(b.preKey))
         == X3dhMutual(atMost, b, Pub(a.identity), Pub(a.preKey))
    ensures X3dhInitiator(a.identity, ephemeral, Pub(b.identity), Pub(b.preKey))
         == X3dhResponder(b, Pub(a.identity), Pub(ephemeral))
  {
  }

  /** Equal mutual secrets come from equal exchanges: the two identities, and both crossings of identity and pre-key. */
  lemma MutualSecretBinds(atMost: (Dh, Dh) -> bool, a: Keys, b: Keys, c: Keys, d: Keys)
    requires X3dhMutual(atMost, a, Pub(b.identity), Pub(b.preKey))
          == X3dhMutual(atMost, c, Pub(d.identity), Pub(d.preKey))
    ensures DiffieHellman(a.identity, Pub(b.identity)) == DiffieHellman(c.identity, Pub(d.identity))
    ensures Crossings(a, b) == Crossings(c, d)
  {
    var a1, a2 := DiffieHellman(a.identity, Pub(b.preKey)), DiffieHellman(a.preKey, Pub(b.identity));
    var c1, c2 := DiffieHellman(c.identity, Pub(d.preKey)), DiffieHellman(c.preKey, Pub(d.identity));
    assert (a1 == c1 && a2 == c2) || (a1 == c2 && a2 == c1);
  }

  /** The two crossings enter the mutual secret in ascending order. */
  lemma MutualSorted(atMost: (Dh, Dh) -> bool, a: Keys, b: Keys)
    requires IsOrder(atMost)
    ensures var key := X3dhMutual(atMost, a, Pub(b.identity), Pub(b.preKey));
      key.Agreed? && atMost(key.dh2, key.dh3) && multiset{key.dh2, key.dh3} == Crossings(a, b)
  {
  }

  /** Two pairs of exponents are the same pair. */
  predicate SamePair(a: nat, b: nat, c: nat, d: nat) {
    (a == c && b == d) || (a == d && b == c)
  }

  /** Initiators have one secret exactly if three pairs agree: identity with pre-key, ephemeral with identity,
      ephemeral with pre-key. */
  lemma InitiatorSecretBinds(ours: nat, e: nat, theirs: Keys, ours': nat, e': nat, theirs': Keys)
    ensures X3dhInitiator(ours, e, Pub(theirs.identity), Pub(theirs.preKey))
         == X3dhInitiator(ours', e', Pub(theirs'.identity), Pub(theirs'.preKey))
      <==> && SamePair(ours, theirs.preKey, ours', theirs'.preKey)
           && SamePair(e, theirs.identity, e', theirs'.identity)
           && SamePair(e, theirs.preKey, e', theirs'.preKey)
  {
  }

  function Crossings(a: Keys, b: Keys): multiset<Dh> {
    multiset{DiffieHellman(a.identity, Pub(b.preKey)), DiffieHellman(a.preKey, Pub(b.identity))}
  }

  type PeerId = seq<byte>

  /** Lexicographic order on identifiers. */
  predicate Less(a: PeerId, b: PeerId) {
    if b == [] then false
    else if a == [] then true
    else a[0] < b[0] || (a[0] == b[0] && Less(a[1..], b[1..]))
  }

  lemma {:induction false} LessTotal(a: PeerId, b: PeerId)
    requires a != b
    ensures Less(a, b) <==> !Less(b, a)
  {
    if a != [] && b != [] && a[0] == b[0] {
      assert a == [a[0]] + a[1..] && b == [b[0]] + b[1..];
      LessTotal(a[1..], b[1..]);
    }
  }

  /** The first difference decides, and a proper prefix comes first. */
  lemma {:induction false} LessIff(a: PeerId, b: PeerId)
    ensures Less(a, b) <==> exists k :: 0 <= k < |b| && k <= |a| && a[..k] == b[..k] && (k == |a| || a[k] < b[k])
    decreases |a|
  {
    if b != [] && a != [] && a[0] == b[0] {
      LessIff(a[1..], b[1..]);
      if Less(a, b) {
        var k :| 0 <= k < |b[1..]| && k <= |a[1..]| && a[1..][..k] == b[1..][..k]
                 && (k == |a[1..]| || a[1..][k] < b[1..][k]);
        HeadTail(a[..k + 1]);
        HeadTail(b[..k + 1]);
        assert a[..k + 1][1..] == a[1..][..k] && b[..k + 1][1..] == b[1..][..k];
      }
      if k :| 0 <= k < |b| && k <= |a| && a[..k] == b[..k] && (k == |a| || a[k] < b[k]) {
        assert a[1..][..k - 1] == a[..k][1..] && b[1..][..k - 1] == b[..k][1..];
      }
    } else if b != [] {
      assert a[..0] == b[..0];
    }
  }

  /** The session a client sets up with `theirId`: the smaller identifier sends first. */
  function InitiatedSession(atMost: (Dh, Dh) -> bool, ourId: PeerId, ours: Keys,
                            theirId: PeerId, theirIdentity: PublicKey, theirPreKey: PublicKey, drawn: nat): Session
  {
    var shared := X3dhMutual(atMost, ours, theirIdentity, theirPreKey);
    if Less(ourId, theirId) then InitSender(shared, theirPreKey, drawn) else InitReceiver(shared, ours.preKey)
  }

  /** Two clients that initiate with each other's keys take complementary roles on one secret: together they are
      the initial world of a run, so every run between them agrees. */
  lemma InitiateAgrees(atMost: (Dh, Dh) -> bool, idA: PeerId, a: Keys, idB: PeerId, b: Keys, drawnA: nat, drawnB: nat)
    requires IsOrder(atMost) && idA != idB
    requires a.preKey != drawnB && b.preKey != drawnA
    ensures var shared := X3dhMutual(atMost, a, Pub(b.identity), Pub(b.preKey));
      var sessionA := InitiatedSession(atMost, idA, a, idB, Pub(b.identity), Pub(b.preKey), drawnA);
      var sessionB := InitiatedSession(atMost, idB, b, idA, Pub(a.identity), Pub(a.preKey), drawnB);
      var w := if Less(idA, idB) then InitialWorld(shared, b.preKey, drawnA)
               else InitialWorld(shared, a.preKey, drawnB);
      && Inv(w)
      && sessionA == w.End(Less(idA, idB)).session
      && sessionB == w.End(Less(idB, idA)).session
  {
    HandshakesAgree(atMost, a, b, 0);
    LessTotal(idA, idB);
    var shared := X3dhMutual(atMost, a, Pub(b.identity), Pub(b.preKey));
    if Less(idA, idB) {
      InitialInv(shared, b.preKey, drawnA);
    } else {
      InitialInv(shared, a.preKey, drawnB);
    }
  }

  datatype SessionError = NoSession | BadRatchetKey | Crypto(error: Ratchet.Error)

  /** One local identity and its session with each peer. */
  class KeyManager {
    const keys: Keys
    var peerSessions: map<PeerId, RatchetState>

    ghost predicate Valid()
      reads this, peerSessions.Values
    {
      && (forall p :: p in peerSessions ==> peerSessions[p].Valid())
      && (forall p, q :: p in peerSessions && q in peerSessions && p != q ==> peerSessions[p] != peerSessions[q])
    }

    ghost function View(): map<PeerId, Session>
      reads this, peerSessions.Values
    {
      map p | p in peerSessions :: peerSessions[p].Value()
    }

    constructor (keys: Keys)
      ensures Valid() && View() == map[] && this.keys == keys
    {
      this.keys := keys;
      peerSessions := map[];
    }

    method InitiateSession(atMost: (Dh, Dh) -> bool, ourId: PeerId, peer: PeerId,
                           theirIdentity: PublicKey, theirPreKey: PublicKey, drawn: nat)
      requires Valid()
      modifies this
      ensures Valid()
      ensures View() == if peer in old(View()) then old(View()) else
        old(View())[peer := InitiatedSession(atMost, ourId, keys, peer, theirIdentity, theirPreKey, drawn)]
    {
      if peer in peerSessions {
        return;
      }
      var state := NewSession(atMost, ourId, peer, theirIdentity, theirPreKey, drawn);
      peerSessions := peerSessions[peer := state];
    }

    method NewSession(atMost: (Dh, Dh) -> bool, ourId: PeerId, peer: PeerId,
                      theirIdentity: PublicKey, theirPreKey: PublicKey, drawn: nat) returns (state: RatchetState)
      ensures fresh(state) && state.Valid()
      ensures state.Value() == InitiatedSession(atMost, ourId, keys, peer, theirIdentity, theirPreKey, drawn)
    {
      var shared := X3dhMutual(atMost, keys, theirIdentity, theirPreKey);
      if Less(ourId, peer) {
        state := new RatchetState.InitSender(shared, theirPreKey, drawn);
      } else {
        state := new RatchetState.InitReceiver(shared, keys.preKey);
      }
    }

    method EncryptForPeer(peer: PeerId, plaintext: seq<byte>) returns (r: Result<Packet, SessionError>)
      requires Valid()
      modifies peerSessions.Values
      ensures Valid()
      ensures peer !in old(View()) ==> r == Err(NoSession) && View() == old(View())
      ensures peer in old(View()) ==>
        var (s, sealed) := Encrypt(old(View()[peer]), plaintext);
        && View() == old(View())[peer := s]
        && r == if sealed.Ok? then Ok(sealed.value) else Err(Crypto(sealed.error))
    {
      if peer !in peerSessions {
        return Err(NoSession);
      }
      var sealed := peerSessions[peer].Encrypt(plaintext);
      return if sealed.Ok? then Ok(sealed.value) else Err(Crypto(sealed.error));
    }

    /** A ratchet key that is not 32 bytes is refused before anything else. */
    method DecryptFromPeer(peer: PeerId, ciphertext: Ciphertext, ratchetKey: seq<byte>, number: nat,
                           encoding: Encoding, drawn: nat)
      returns (r: Result<seq<byte>, SessionError>)
      requires Valid()
      modifies peerSessions.Values
      ensures Valid()
      ensures |ratchetKey| != 32 ==> r == Err(BadRatchetKey) && View() == old(View())
      ensures |ratchetKey| == 32 && peer !in old(View()) ==> r == Err(NoSession) && View() == old(View())
      ensures |ratchetKey| == 32 && peer in old(View()) ==>
        var (s, plain) := Decrypt(old(View()[peer]), Packet(ciphertext, ReadKey(encoding, ratchetKey), number), drawn);
        && View() == old(View())[peer := s]
        && r == if plain.Ok? then Ok(plain.value) else Err(Crypto(plain.error))
    {
      if |ratchetKey| != 32 {
        return Err(BadRatchetKey);
      }
      if peer !in peerSessions {
        return Err(NoSession);
      }
      var plain := peerSessions[peer].Decrypt(Packet(ciphertext, ReadKey(encoding, ratchetKey), number), drawn);
      return if plain.Ok? then Ok(plain.value) else Err(Crypto(plain.error));
    }
  }
}
