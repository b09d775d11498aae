/** Bytes, and fixed-width integers as little-endian and big-endian byte strings. */
module Bytes {

  type byte = x: int | 0 <= x < 0x100

  function Pow256(width: nat): nat {
    if width == 0 then 1 else 0x100 * Pow256(width - 1)
  }

  lemma Pow256Values()
    ensures Pow256(2) == 0x1_0000
    ensures Pow256(4) == 0x1_0000_0000
    ensures Pow256(8) == 0x1_0000_0000_0000_0000
  {
  }

  /** The low `width` bytes of `n`, least significant first. */
  function Le(n: nat, width: nat): (s: seq<byte>)
    ensures |s| == width
  {
    if width == 0 then [] else [n % 0x100] + Le(n / 0x100, width - 1)
  }

  function FromLe(s: seq<byte>): (n: nat)
    ensures n < Pow256(|s|)
  {
    if s == [] then 0 else s[0] + 0x100 * FromLe(s[1..])
  }

  /** The low `width` bytes of `n`, most significant first. */
  function Be(n: nat, width: nat): (s: seq<byte>)
    ensures |s| == width
  {
    if width == 0 then [] else Be(n / 0x100, width - 1) + [n % 0x100]
  }

  function FromBe(s: seq<byte>): (n: nat)
    ensures n < Pow256(|s|)
  {
    if s == [] then 0 else 0x100 * FromBe(s[..|s| - 1]) + s[|s| - 1]
  }

  lemma {:induction false} LeRoundTrip(n: nat, width: nat)
    requires n < Pow256(width)
    ensures FromLe(Le(n, width)) == n
  {
    if width > 0 {
      LeRoundTrip(n / 0x100, width - 1);
      assert Le(n, width)[1..] == Le(n / 0x100, width - 1);
    }
  }

  lemma {:induction false} LeFromLe(s: seq<byte>)
    ensures Le(FromLe(s), |s|) == s
  {
    if s != [] {
      LeFromLe(s[1..]);
      HeadTail(s);
    }
  }

  lemma {:induction false} BeRoundTrip(n: nat, width: nat)
    requires n < Pow256(width)
    ensures FromBe(Be(n, width)) == n
  {
    if width > 0 {
      BeRoundTrip(n / 0x100, width - 1);
      assert Be(n, width)[..width - 1] == Be(n / 0x100, width - 1);
    }
  }

  lemma {:induction false} BeFromBe(s: seq<byte>)
    ensures Be(FromBe(s), |s|) == s
  {
    if s != [] {
      var head, last := s[..|s| - 1], s[|s| - 1];
      BeFromBe(head);
      var n := 0x100 * FromBe(head) + last;
      assert n / 0x100 == FromBe(head) && n % 0x100 == last;
      assert s == head + [last];
    }
  }

  lemma TwoBytes(n: nat)
    ensures Le(n, 2) == [n % 0x100, n / 0x100 % 0x100] && Be(n, 2) == [n / 0x100 % 0x100, n % 0x100]
  {
    assert Be(n / 0x100, 1) == Be(n / 0x100 / 0x100, 0) + [n / 0x100 % 0x100];
  }

  /** Which byte comes first. */
  lemma ByteOrder(n: nat)
    ensures var n1 := n / 0x100; var n2 := n1 / 0x100; var n3 := n2 / 0x100;
      && Le(n, 2) == [n % 0x100, n1 % 0x100] && Be(n, 2) == [n1 % 0x100, n % 0x100]
      && Le(n, 4) == [n % 0x100, n1 % 0x100, n2 % 0x100, n3 % 0x100]
      && Be(n, 4) == [n3 % 0x100, n2 % 0x100, n1 % 0x100, n % 0x100]
  {
    TwoBytes(n);
    TwoBytes(n / 0x100 / 0x100);
    assert Le(n / 0x100, 3) == [n / 0x100 % 0x100] + Le(n / 0x100 / 0x100, 2);
    assert Be(n / 0x100, 3) == Be(n / 0x100 / 0x100, 2) + [n / 0x100 % 0x100];
  }

  // ---- Bitwise operations ----

  function Pow2(bits: nat): (n: nat)
    ensures n > 0
  {
    if bits == 0 then 1 else 2 * Pow2(bits - 1)
  }

  /** Exclusive-or of the low `bits` bits. */
  function BitXor(a: nat, b: nat, bits: nat): (r: nat)
    ensures r < Pow2(bits)
  {
    if bits == 0 then 0 else (if a % 2 == b % 2 then 0 else 1) + 2 * BitXor(a / 2, b / 2, bits - 1)
  }

  /** Inclusive-or of the low `bits` bits. */
  function BitOr(a: nat, b: nat, bits: nat): (r: nat)
    ensures r < Pow2(bits)
  {
    if bits == 0 then 0 else (if a % 2 == 1 || b % 2 == 1 then 1 else 0) + 2 * BitOr(a / 2, b / 2, bits - 1)
  }

  lemma LowHigh(low: nat, high: nat)
    requires low < 2
    ensures (low + 2 * high) % 2 == low && (low + 2 * high) / 2 == high
  {
  }

  lemma {:induction false} BitXorTwice(a: nat, b: nat, bits: nat)
    requires a < Pow2(bits)
    ensures BitXor(BitXor(a, b, bits), b, bits) == a
  {
    if bits > 0 {
      var low, high := if a % 2 == b % 2 then 0 else 1, BitXor(a / 2, b / 2, bits - 1);
      LowHigh(low, high);
      assert BitXor(a, b, bits) == low + 2 * high;
      BitXorTwice(a / 2, b / 2, bits - 1);
    }
  }

  lemma {:induction false} BitXorZero(a: nat, b: nat, bits: nat)
    requires a < Pow2(bits) && b < Pow2(bits)
    ensures BitXor(a, b, bits) == 0 <==> a == b
  {
    if bits > 0 {
      BitXorZero(a / 2, b / 2, bits - 1);
    }
  }

  lemma {:induction false} BitOrZero(a: nat, b: nat, bits: nat)
    requires a < Pow2(bits) && b < Pow2(bits)
    ensures BitOr(a, b, bits) == 0 <==> a == 0 && b == 0
  {
    if bits > 0 {
      BitOrZero(a / 2, b / 2, bits - 1);
    }
  }

  function Bit(x: nat, k: nat): nat {
    if k == 0 then x % 2 else Bit(x / 2, k - 1)
  }

  /** Both operations act bit by bit. */
  lemma {:induction false} BitByBit(a: nat, b: nat, bits: nat, k: nat)
    requires k < bits
    ensures Bit(BitXor(a, b, bits), k) == 1 <==> Bit(a, k) != Bit(b, k)
    ensures Bit(BitOr(a, b, bits), k) == 1 <==> Bit(a, k) == 1 || Bit(b, k) == 1
    decreases bits
  {
    if k > 0 {
      BitByBit(a / 2, b / 2, bits - 1, k - 1);
    }
  }

  lemma Pow2Eight()
    ensures Pow2(8) == 0x100
  {
  }

  function XorByte(a: byte, b: byte): byte {
    Pow2Eight();
    BitXor(a, b, 8)
  }

  function OrByte(a: byte, b: byte): byte {
    Pow2Eight();
    BitOr(a, b, 8)
  }

  lemma XorByteTwice(a: byte, b: byte)
    ensures XorByte(XorByte(a, b), b) == a
  {
    Pow2Eight();
    BitXorTwice(a, b, 8);
  }

  /** Accumulating a difference leaves zero exactly when there was none before and the bytes agree. */
  lemma OrXorZero(diff: byte, a: byte, b: byte)
    ensures OrByte(diff, XorByte(a, b)) == 0 <==> diff == 0 && a == b
  {
    Pow2Eight();
    BitXorZero(a, b, 8);
    BitOrZero(diff, XorByte(a, b), 8);
  }

  // ---- Sequences ----

  function Zeros(n: nat): (s: seq<byte>)
    ensures |s| == n && forall q :: 0 <= q < n ==> s[q] == 0
  {
    seq(n, _ => 0)
  }

  lemma Assoc<T>(a: seq<T>, b: seq<T>, c: seq<T>)
    ensures a + b + c == a + (b + c)
  {
  }

  lemma ThreeParts<T>(s: seq<T>, i: nat, j: nat)
    requires i <= j <= |s|
    ensures s[..i] + s[i..j] + s[j..] == s
  {
  }

  lemma HeadTail<T>(s: seq<T>)
    requires s != []
    ensures [s[0]] + s[1..] == s
  {
  }

  /** `s` stands at `offset` in `buf`. */
  predicate At<T(==)>(buf: seq<T>, offset: nat, s: seq<T>) {
    offset + |s| <= |buf| && buf[offset..offset + |s|] == s
  }

  lemma AtSplit<T>(buf: seq<T>, offset: nat, a: seq<T>, b: seq<T>)
    requires At(buf, offset, a + b)
    ensures At(buf, offset, a) && At(buf, offset + |a|, b)
  {
    var whole := buf[offset..offset + |a + b|];
    assert buf[offset..offset + |a|] == whole[..|a|] == a;
    assert buf[offset + |a|..offset + |a| + |b|] == whole[|a|..] == b;
  }

  lemma AtParts<T>(buf: seq<T>, offset: nat, a: seq<T>, b: seq<T>, c: seq<T>, d: seq<T>)
    requires At(buf, offset, a + b + (c + d))
    ensures At(buf, offset, a) && At(buf, offset + |a|, b) && At(buf, offset + |a| + |b|, c)
  {
    AtSplit(buf, offset, a + b, c + d);
    AtSplit(buf, offset, a, b);
    AtSplit(buf, offset + |a| + |b|, c, d);
  }

  /** A block of two 2-byte words, a body and its padding, read by slices. */
  lemma AtBlock<T>(buf: seq<T>, offset: nat, a: seq<T>, b: seq<T>, c: seq<T>, d: seq<T>)
    requires |a| == 2 && |b| == 2 && At(buf, offset, a + b + (c + d))
    ensures offset + 4 + |c| <= |buf|
    ensures buf[offset..offset + 2] == a && buf[offset + 2..offset + 4] == b
    ensures buf[offset + 4..offset + 4 + |c|] == c
  {
    AtParts(buf, offset, a, b, c, d);
  }

  lemma AtPrefix<T>(s: seq<T>, tail: seq<T>)
    ensures At(s + tail, 0, s)
  {
  }
}
