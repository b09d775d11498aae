/** Cryptography as a free term algebra: every primitive is a constructor, so two results are equal
    exactly when they were computed by the same primitive from the same inputs. */
module SymbolicCrypto {
  import opened Basics
  import opened Bytes

  /** The bytes of an X25519 public key: the point they name, and which of its encodings they are. Keys are compared,
      stored and authenticated as bytes; only the Diffie-Hellman exchange sees the point. */
  datatype PublicKey = PublicKey(exponent: nat, alias: nat)

  /** The encoding the owner of the secret `exponent` publishes. */
  function Pub(exponent: nat): PublicKey {
    PublicKey(exponent, 0)
  }

  /** Which point 32 bytes name, and which bytes the owner of a point publishes. */
  datatype Encoding = Encoding(point: seq<byte> -> nat, publish: nat -> seq<byte>)

  /** The key that some bytes are. */
  function ReadKey(e: Encoding, bytes: seq<byte>): PublicKey {
    var exponent := e.point(bytes);
    if e.publish(exponent) == bytes then Pub(exponent) else PublicKey(exponent, 1 + FromLe(bytes))
  }

  /** Different bytes are different keys, whether or not they name different points. */
  lemma ReadKeyInjective(e: Encoding, a: seq<byte>, b: seq<byte>)
    requires |a| == |b|
    ensures ReadKey(e, a) == ReadKey(e, b) <==> a == b
  {
    LeFromLe(a);
    LeFromLe(b);
  }

  lemma PublishedRead(e: Encoding, exponent: nat)
    requires e.point(e.publish(exponent)) == exponent
    ensures ReadKey(e, e.publish(exponent)) == Pub(exponent)
  {
  }

  /** A Diffie-Hellman output: the unordered pair of the two exponents. */
  datatype Dh = Dh(low: nat, high: nat)

  function DiffieHellman(secret: nat, peer: PublicKey): (dh: Dh)
  {
    if secret <= peer.exponent then Dh(secret, peer.exponent) else Dh(peer.exponent, secret)
  }

  datatype Key =
    | Agreed(dh1: Dh, dh2: Dh, dh3: Dh)
    | RootKey(root: Key, dh: Dh)
    | ChainKey(root: Key, dh: Dh)
    | NextChain(chain: Key)
    | MessageKey(chain: Key)

  /** The n-th chain key after `chain`. */
  function Iterate(chain: Key, n: nat): Key {
    if n == 0 then chain else NextChain(Iterate(chain, n - 1))
  }

  lemma {:induction false} IterateAdd(chain: Key, m: nat, n: nat)
    ensures Iterate(Iterate(chain, m), n) == Iterate(chain, m + n)
  {
    if n > 0 {
      IterateAdd(chain, m, n - 1);
    }
  }

  /** Steps of a chain never repeat a key. */
  lemma {:induction false} IterateInjective(chain: Key, m: nat, n: nat)
    requires !chain.NextChain?
    requires Iterate(chain, m) == Iterate(chain, n)
    ensures m == n
  {
    if m > 0 && n > 0 {
      IterateInjective(chain, m - 1, n - 1);
    }
  }

  /** Nonce material of the ratchet: the message key followed by the message number. */
  datatype Nonce = Nonce(key: Key, number: nat)

  datatype Ciphertext =
    | Sealed(key: Key, nonce: Nonce, aad: PublicKey, plaintext: seq<byte>)
    | Garbage(raw: seq<byte>)

  function AeadEncrypt(key: Key, nonce: Nonce, plaintext: seq<byte>, aad: PublicKey): Ciphertext {
    Sealed(key, nonce, aad, plaintext)
  }

  /** Opens a ciphertext only under the key, nonce and associated data it was sealed with. */
  function AeadDecrypt(key: Key, nonce: Nonce, ciphertext: Ciphertext, aad: PublicKey): Option<seq<byte>> {
    if ciphertext.Sealed? && ciphertext.key == key && ciphertext.nonce == nonce && ciphertext.aad == aad
    then Some(ciphertext.plaintext)
    else None
  }
}
