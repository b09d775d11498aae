/** The Double Ratchet operations on session values, and the bound on the keys a session stores. */
module Ratchet {
  import opened Basics
  import opened Bytes
  import opened SymbolicCrypto

  const MAX_SKIP := 256
  const MAX_TOTAL_SKIPPED := 2048

  datatype Error =
    | NoSendChain
    | NoRecvChain
    | TooManySkipped
    | SkippedLimit
    | OpenFailed

  type SkippedKeys = map<(PublicKey, nat), Key>

  datatype Session = Session(
    rootKey: Key,
    sendChain: Option<Key>,
    recvChain: Option<Key>,
    secret: nat,
    recvKey: Option<PublicKey>,
    sendCount: nat,
    recvCount: nat,
    prevSendCount: nat,
    skipped: SkippedKeys)

  datatype Packet = Packet(ciphertext: Ciphertext, ratchetKey: PublicKey, number: nat)

  function KdfChain(chain: Key): (Key, Key) {
    (NextChain(chain), MessageKey(chain))
  }

  function DhRatchet(root: Key, dh: Dh): (Key, Key) {
    (RootKey(root, dh), ChainKey(root, dh))
  }

  function Increment(count: nat): nat {
    (count + 1) % U32_LIMIT
  }

  function InitSender(shared: Key, peer: PublicKey, drawn: nat): Session {
    var (root, chain) := DhRatchet(shared, DiffieHellman(drawn, peer));
    Session(root, Some(chain), None, drawn, Some(peer), 0, 0, 0, map[])
  }

  function InitReceiver(shared: Key, secret: nat): Session {
    Session(shared, None, None, secret, None, 0, 0, 0, map[])
  }

  function Encrypt(s: Session, plaintext: seq<byte>): (Session, Result<Packet, Error>) {
    match s.sendChain
    case None => (s, Err(NoSendChain))
    case Some(chain) =>
      var (next, key) := KdfChain(chain);
      var ciphertext := AeadEncrypt(key, Nonce(key, s.sendCount), plaintext, Pub(s.secret));
      (s.(sendChain := Some(next), sendCount := Increment(s.sendCount)),
       Ok(Packet(ciphertext, Pub(s.secret), s.sendCount)))
  }

  /** The chain key and the stored keys after stepping a receiving chain from `from` up to `until`. */
  function SkipKeys(chain: Key, peer: PublicKey, from: nat, until: nat, skipped: SkippedKeys): (Key, SkippedKeys)
    decreases until - from
  {
    if from >= until then (chain, skipped)
    else SkipKeys(NextChain(chain), peer, from + 1, until, skipped[(peer, from) := MessageKey(chain)])
  }

  function ToSkip(s: Session, until: nat): nat {
    if until > s.recvCount then until - s.recvCount else 0
  }

  /** The limits on stepping the receiving chain of `s` up to `until`. */
  function SkipError(s: Session, until: nat): Option<Error> {
    if ToSkip(s, until) > MAX_SKIP then Some(TooManySkipped)
    else if |s.skipped| + ToSkip(s, until) > MAX_TOTAL_SKIPPED then Some(SkippedLimit)
    else None
  }

  function SkipMessages(s: Session, until: nat): Result<Session, Error> {
    if s.recvChain.None? || s.recvKey.None? then Ok(s)
    else
      match SkipError(s, until)
      case Some(error) => Err(error)
      case None =>
        var (chain, skipped) := SkipKeys(s.recvChain.value, s.recvKey.value, s.recvCount, until, s.skipped);
        Ok(s.(recvChain := Some(chain), recvCount := until, skipped := skipped))
  }

  /** The state after a Diffie-Hellman ratchet step on the peer key `peer`, drawing the secret `drawn`. */
  function DhStep(s: Session, peer: PublicKey, drawn: nat): Session {
    var (root1, recvChain) := DhRatchet(s.rootKey, DiffieHellman(s.secret, peer));
    var (root2, sendChain) := DhRatchet(root1, DiffieHellman(drawn, peer));
    Session(root2, Some(sendChain), Some(recvChain), drawn, Some(peer), 0, 0, s.sendCount, s.skipped)
  }

  function Open(key: Key, p: Packet): Result<seq<byte>, Error> {
    match AeadDecrypt(key, Nonce(key, p.number), p.ciphertext, p.ratchetKey)
    case None => Err(OpenFailed)
    case Some(plaintext) => Ok(plaintext)
  }

  /** Opens `p` with the current receiving chain key and advances the chain. */
  function OpenNext(s: Session, p: Packet): (Session, Result<seq<byte>, Error>) {
    match s.recvChain
    case None => (s, Err(NoRecvChain))
    case Some(chain) =>
      var (next, key) := KdfChain(chain);
      (s.(recvChain := Some(next), recvCount := Increment(s.recvCount)), Open(key, p))
  }

  function SkipAndOpen(s: Session, p: Packet): (Session, Result<seq<byte>, Error>) {
    match SkipMessages(s, p.number)
    case Err(error) => (s, Err(error))
    case Ok(s') => OpenNext(s', p)
  }

  function Decrypt(s: Session, p: Packet, drawn: nat): (Session, Result<seq<byte>, Error>) {
    if (p.ratchetKey, p.number) in s.skipped then
      (s.(skipped := s.skipped - {(p.ratchetKey, p.number)}), Open(s.skipped[(p.ratchetKey, p.number)], p))
    else if s.recvKey != Some(p.ratchetKey) then
      SkipAndOpen(DhStep(s, p.ratchetKey, drawn), p)
    else
      SkipAndOpen(s, p)
  }

  lemma {:induction false} SkipKeysChain(base: Key, peer: PublicKey, from: nat, until: nat, skipped: SkippedKeys)
    requires from <= until
    ensures SkipKeys(Iterate(base, from), peer, from, until, skipped).0 == Iterate(base, until)
    decreases until - from
  {
    if from < until {
      SkipKeysChain(base, peer, from + 1, until, skipped[(peer, from) := MessageKey(Iterate(base, from))]);
    }
  }

  /** Skipping stores exactly the keys of the numbers it passes over, and keeps what was stored. */
  lemma {:induction false} SkipKeysStored(base: Key, peer: PublicKey, from: nat, until: nat, skipped: SkippedKeys,
                                          k: (PublicKey, nat))
    requires from <= until
    ensures var stored := SkipKeys(Iterate(base, from), peer, from, until, skipped).1;
      if k.0 == peer && from <= k.1 < until
      then k in stored && stored[k] == MessageKey(Iterate(base, k.1))
      else (k in stored <==> k in skipped) && (k in stored ==> stored[k] == skipped[k])
    decreases until - from
  {
    if from < until {
      SkipKeysStored(base, peer, from + 1, until, skipped[(peer, from) := MessageKey(Iterate(base, from))], k);
    }
  }

  lemma {:induction false} SkipKeysSize(chain: Key, peer: PublicKey, from: nat, until: nat, skipped: SkippedKeys)
    ensures |SkipKeys(chain, peer, from, until, skipped).1| <= |skipped| + if from < until then until - from else 0
    decreases until - from
  {
    if from < until {
      SkipKeysSize(NextChain(chain), peer, from + 1, until, skipped[(peer, from) := MessageKey(chain)]);
    }
  }

  // ---- Bound on the stored keys, whatever arrives ----

  datatype Call = DoEncrypt(plaintext: seq<byte>) | DoDecrypt(packet: Packet, drawn: nat)

  function Perform(s: Session, call: Call): Session {
    match call
    case DoEncrypt(plaintext) => Encrypt(s, plaintext).0
    case DoDecrypt(packet, drawn) => Decrypt(s, packet, drawn).0
  }

  function PerformAll(s: Session, calls: seq<Call>): Session
    decreases |calls|
  {
    if calls == [] then s else PerformAll(Perform(s, calls[0]), calls[1..])
  }

  lemma SkipMessagesBound(s: Session, until: nat)
    requires |s.skipped| <= MAX_TOTAL_SKIPPED
    ensures SkipMessages(s, until).Ok? ==>
      var t := SkipMessages(s, until).value;
      |t.skipped| <= MAX_TOTAL_SKIPPED && |t.skipped| <= |s.skipped| + MAX_SKIP
  {
    if s.recvChain.Some? && s.recvKey.Some? {
      SkipKeysSize(s.recvChain.value, s.recvKey.value, s.recvCount, until, s.skipped);
    }
  }

  /** One call adds at most 256 stored keys and never passes 2048, failing calls included. */
  lemma PerformBound(s: Session, call: Call)
    requires |s.skipped| <= MAX_TOTAL_SKIPPED
    ensures |Perform(s, call).skipped| <= MAX_TOTAL_SKIPPED
    ensures |Perform(s, call).skipped| <= |s.skipped| + MAX_SKIP
  {
    if call.DoDecrypt? {
      var p := call.packet;
      if (p.ratchetKey, p.number) in s.skipped {
        assert Perform(s, call).skipped.Keys <= s.skipped.Keys;
        SubsetSize(Perform(s, call).skipped.Keys, s.skipped.Keys);
      } else if s.recvKey != Some(p.ratchetKey) {
        SkipMessagesBound(DhStep(s, p.ratchetKey, call.drawn), p.number);
      } else {
        SkipMessagesBound(s, p.number);
      }
    }
  }

  lemma {:induction false} PerformAllBound(s: Session, calls: seq<Call>)
    requires |s.skipped| <= MAX_TOTAL_SKIPPED
    ensures |PerformAll(s, calls).skipped| <= MAX_TOTAL_SKIPPED
    decreases |calls|
  {
    if calls != [] {
      PerformBound(s, calls[0]);
      PerformAllBound(Perform(s, calls[0]), calls[1..]);
    }
  }

  /** From either initial state no sequence of calls ever stores more than 2048 keys. */
  lemma SkippedKeysBounded(shared: Key, peer: PublicKey, secret: nat, calls: seq<Call>)
    ensures |PerformAll(InitSender(shared, peer, secret), calls).skipped| <= MAX_TOTAL_SKIPPED
    ensures |PerformAll(InitReceiver(shared, secret), calls).skipped| <= MAX_TOTAL_SKIPPED
  {
    PerformAllBound(InitSender(shared, peer, secret), calls);
    PerformAllBound(InitReceiver(shared, secret), calls);
  }
}
