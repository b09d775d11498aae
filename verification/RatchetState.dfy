/** The mutable Double Ratchet session object, each of whose operations runs the value-level operation. */
module RatchetObject {
  import opened Basics
  import opened Bytes
  import opened SymbolicCrypto
  import opened Ratchet

  class RatchetState {
    var rootKey: Key
    var sendChainKey: Option<Key>
    var recvChainKey: Option<Key>
    var sendRatchetSecret: nat
    var sendRatchetKey: PublicKey
    var recvRatchetKey: Option<PublicKey>
    var sendCount: nat
    var recvCount: nat
    var prevSendCount: nat
    var skippedKeys: SkippedKeys

    ghost predicate Valid()
      reads this
    {
      sendRatchetKey == Pub(sendRatchetSecret)
    }

    ghost function Value(): Session
      reads this
    {
      Session(rootKey, sendChainKey, recvChainKey, sendRatchetSecret, recvRatchetKey,
              sendCount, recvCount, prevSendCount, skippedKeys)
    }

    constructor InitSender(shared: Key, peer: PublicKey, drawn: nat)
      ensures Valid()
      ensures Value() == Ratchet.InitSender(shared, peer, drawn)
    {
      var (root, chain) := DhRatchet(shared, DiffieHellman(drawn, peer));
      rootKey := root;
      sendChainKey := Some(chain);
      recvChainKey := None;
      sendRatchetSecret := drawn;
      sendRatchetKey := Pub(drawn);
      recvRatchetKey := Some(peer);
      sendCount, recvCount, prevSendCount := 0, 0, 0;
      skippedKeys := map[];
    }

    constructor InitReceiver(shared: Key, secret: nat)
      ensures Valid()
      ensures Value() == Ratchet.InitReceiver(shared, secret)
    {
      rootKey := shared;
      sendChainKey := None;
      recvChainKey := None;
      sendRatchetSecret := secret;
      sendRatchetKey := Pub(secret);
      recvRatchetKey := None;
      sendCount, recvCount, prevSendCount := 0, 0, 0;
      skippedKeys := map[];
    }

    method Encrypt(plaintext: seq<byte>) returns (r: Result<Packet, Error>)
      requires Valid()
      modifies this
      ensures Valid()
      ensures (Value(), r) == Ratchet.Encrypt(old(Value()), plaintext)
    {
      if sendChainKey.None? {
        return Err(NoSendChain);
      }
      var (newChainKey, messageKey) := KdfChain(sendChainKey.value);
      sendChainKey := Some(newChainKey);
      var number := sendCount;
      sendCount := Increment(sendCount);
      var ciphertext := AeadEncrypt(messageKey, Nonce(messageKey, number), plaintext, sendRatchetKey);
      return Ok(Packet(ciphertext, sendRatchetKey, number));
    }

    method SkipMessages(until: nat) returns (r: Result<(), Error>)
      requires Valid()
      modifies this
      ensures Valid()
      ensures r.Ok? ==> Ratchet.SkipMessages(old(Value()), until) == Ok(Value())
      ensures r.Err? ==> Ratchet.SkipMessages(old(Value()), until) == Err(r.error) && Value() == old(Value())
      ensures var chained, from, kept :=
          old(recvChainKey.Some? && recvRatchetKey.Some?), old(Value()).recvCount, |old(skippedKeys)|;
        && (r == Err(TooManySkipped) <==> chained && until > from + 256)
        && (r == Err(SkippedLimit) <==>
              chained && until <= from + 256 && kept + (if until > from then until - from else 0) > 2048)
    {
      if recvChainKey.Some? && recvRatchetKey.Some? {
        var toSkip := if until > recvCount then until - recvCount else 0;
        if toSkip > MAX_SKIP {
          return Err(TooManySkipped);
        }
        if |skippedKeys| + toSkip > MAX_TOTAL_SKIPPED {
          return Err(SkippedLimit);
        }
        var chainKey := recvChainKey.value;
        var peer := recvRatchetKey.value;
        var i := recvCount as int;
        while i < until
          invariant SkipKeys(chainKey, peer, i, until, skippedKeys)
                 == old(SkipKeys(recvChainKey.value, recvRatchetKey.value, recvCount, until, skippedKeys))
          invariant Value() == old(Value()).(skipped := skippedKeys)
          invariant 0 <= i && Valid()
          modifies this`skippedKeys
        {
          var (newChainKey, messageKey) := KdfChain(chainKey);
          skippedKeys := skippedKeys[(peer, i) := messageKey];
          chainKey := newChainKey;
          i := i + 1;
        }
        recvChainKey := Some(chainKey);
        recvCount := until;
      }
      return Ok(());
    }

    method Decrypt(p: Packet, drawn: nat) returns (r: Result<seq<byte>, Error>)
      requires Valid()
      modifies this
      ensures Valid()
      ensures (Value(), r) == Ratchet.Decrypt(old(Value()), p, drawn)
    {
      var skipKey := (p.ratchetKey, p.number);
      if skipKey in skippedKeys {
        var storedKey := skippedKeys[skipKey];
        skippedKeys := skippedKeys - {skipKey};
        return Open(storedKey, p);
      }
      if recvRatchetKey != Some(p.ratchetKey) {
        prevSendCount := sendCount;
        sendCount := 0;
        recvCount := 0;
        recvRatchetKey := Some(p.ratchetKey);
        var (root1, recvChain) := DhRatchet(rootKey, DiffieHellman(sendRatchetSecret, p.ratchetKey));
        rootKey := root1;
        recvChainKey := Some(recvChain);
        sendRatchetSecret := drawn;
        sendRatchetKey := Pub(drawn);
        var (root2, sendChain) := DhRatchet(rootKey, DiffieHellman(sendRatchetSecret, p.ratchetKey));
        rootKey := root2;
        sendChainKey := Some(sendChain);
        assert Value() == DhStep(old(Value()), p.ratchetKey, drawn);
      }
      var skip := SkipMessages(p.number);
      if skip.Err? {
        return Err(skip.error);
      }
      if recvChainKey.None? {
        return Err(NoRecvChain);
      }
      var (newChainKey, messageKey) := KdfChain(recvChainKey.value);
      recvChainKey := Some(newChainKey);
      recvCount := Increment(recvCount);
      return Open(messageKey, p);
    }
  }
}
