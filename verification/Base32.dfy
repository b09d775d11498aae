/** Unpadded lower-case base32 (section 6 of RFC 4648) by a 32-bit shifting accumulator that is never masked. */
module Base32 {
  import opened Basics
  import opened Bytes

  // ---- Bit strings ----

  /** The low `k` bits of `x`, most significant first. */
  function LowBits(x: nat, k: nat): (s: seq<bool>)
    ensures |s| == k
  {
    if k == 0 then [] else LowBits(x / 2, k - 1) + [x % 2 == 1]
  }

  function Value(bits: seq<bool>): nat {
    if bits == [] then 0 else 2 * Value(bits[..|bits| - 1]) + if bits[|bits| - 1] then 1 else 0
  }

  lemma {:induction false} ValueOfLowBits(x: nat, k: nat)
    requires x < Pow2(k)
    ensures Value(LowBits(x, k)) == x
  {
    if k > 0 {
      ValueOfLowBits(x / 2, k - 1);
      assert LowBits(x, k)[..k - 1] == LowBits(x / 2, k - 1);
    }
  }

  /** `x << n` before it is cut to the word size. */
  function ShiftLeft(x: nat, n: nat): nat {
    if n == 0 then x else 2 * ShiftLeft(x, n - 1)
  }

  function ShiftRight(x: nat, n: nat): nat {
    if n == 0 then x else ShiftRight(x / 2, n - 1)
  }

  /** Bits above the low `k` do not matter. */
  lemma {:induction false} LowBitsIgnore(x: nat, high: nat, k: nat)
    ensures LowBits(x + ShiftLeft(high, k), k) == LowBits(x, k)
  {
    if k > 0 {
      var p := ShiftLeft(high, k - 1);
      assert (x + 2 * p) / 2 == x / 2 + p && (x + 2 * p) % 2 == x % 2;
      LowBitsIgnore(x / 2, high, k - 1);
    }
  }

  /** Appending `b` zero bits, and filling them with those of `low`. */
  lemma {:induction false} LowBitsConcat(high: nat, low: nat, a: nat, b: nat)
    requires low < Pow2(b)
    ensures LowBits(ShiftLeft(high, b) + low, a + b) == LowBits(high, a) + LowBits(low, b)
  {
    if b == 0 {
      assert LowBits(high, a) + [] == LowBits(high, a);
    } else {
      var p := ShiftLeft(high, b - 1);
      assert (2 * p + low) / 2 == p + low / 2 && (2 * p + low) % 2 == low % 2;
      LowBitsConcat(high, low / 2, a, b - 1);
      Assoc(LowBits(high, a), LowBits(low / 2, b - 1), [low % 2 == 1]);
    }
  }

  /** Splitting the low bits of `x` at position `b`. */
  lemma {:induction false} LowBitsSplit(x: nat, a: nat, b: nat)
    ensures LowBits(x, a + b) == LowBits(ShiftRight(x, b), a) + LowBits(x, b)
  {
    if b == 0 {
      assert LowBits(x, a) + [] == LowBits(x, a);
    } else {
      LowBitsSplit(x / 2, a, b - 1);
      Assoc(LowBits(ShiftRight(x, b), a), LowBits(x / 2, b - 1), [x % 2 == 1]);
    }
  }

  lemma {:induction false} ShiftLeftAdd(x: nat, a: nat, b: nat)
    ensures ShiftLeft(x, a + b) == ShiftLeft(ShiftLeft(x, a), b)
  {
    if b > 0 {
      ShiftLeftAdd(x, a, b - 1);
    }
  }

  lemma ShiftLeftTwo(x: nat)
    ensures ShiftLeft(x, 2) == 4 * x
  {
    assert ShiftLeft(x, 1) == 2 * ShiftLeft(x, 0);
  }

  lemma ShiftLeftFour(x: nat)
    ensures ShiftLeft(x, 4) == 16 * x
  {
    ShiftLeftTwo(x);
    ShiftLeftTwo(ShiftLeft(x, 2));
    ShiftLeftAdd(x, 2, 2);
  }

  lemma ShiftLeftEight(x: nat)
    ensures ShiftLeft(x, 8) == 0x100 * x
  {
    ShiftLeftFour(x);
    ShiftLeftFour(ShiftLeft(x, 4));
    ShiftLeftAdd(x, 4, 4);
  }

  lemma ShiftLeftWord(x: nat)
    ensures ShiftLeft(x, 32) == U32_LIMIT * x
  {
    var y := ShiftLeft(x, 8);
    var z := ShiftLeft(y, 8);
    ShiftLeftEight(x);
    ShiftLeftEight(y);
    ShiftLeftEight(z);
    ShiftLeftEight(ShiftLeft(z, 8));
    ShiftLeftAdd(x, 8, 8);
    ShiftLeftAdd(x, 16, 8);
    ShiftLeftAdd(x, 24, 8);
  }

  lemma Pow2Five()
    ensures Pow2(5) == 32
  {
  }

  /** Masking with 0x1f keeps the low five bits. */
  lemma LowBitsMask(x: nat)
    ensures LowBits(x % 32, 5) == LowBits(x, 5)
  {
    var q := x / 32;
    ShiftLeftFour(q);
    assert ShiftLeft(q, 5) == 2 * ShiftLeft(q, 4);
    LowBitsIgnore(x % 32, q, 5);
  }

  /** Wrapping to 32 bits keeps the low bits. */
  lemma LowBitsWrap(x: nat, k: nat)
    requires k <= 32
    ensures LowBits(x % U32_LIMIT, k) == LowBits(x, k)
  {
    var q := x / U32_LIMIT;
    ShiftLeftWord(q);
    ShiftLeftAdd(q, 32 - k, k);
    LowBitsIgnore(x % U32_LIMIT, ShiftLeft(q, 32 - k), k);
  }

  // ---- The specification ----

  /** The alphabet: the 26 lower-case letters, then the digits 2 to 7. */
  function Letter(x: nat): char
    requires x < 32
  {
    if x < 26 then 'a' + x as char else '2' + (x - 26) as char
  }

  predicate IsLetter(c: char) {
    'a' <= c <= 'z' || '2' <= c <= '7'
  }

  function Digit(c: char): nat
    requires IsLetter(c)
  {
    if c <= '7' then c as int - '2' as int + 26 else c as int - 'a' as int
  }

  predicate AllLetters(text: string) {
    forall i :: 0 <= i < |text| ==> IsLetter(text[i])
  }

  function Bits(data: seq<byte>): (s: seq<bool>)
    ensures |s| == 8 * |data|
  {
    if data == [] then [] else Bits(data[..|data| - 1]) + LowBits(data[|data| - 1], 8)
  }

  function TextBits(text: string): (s: seq<bool>)
    requires AllLetters(text)
    ensures |s| == 5 * |text|
  {
    if text == "" then [] else TextBits(text[..|text| - 1]) + LowBits(Digit(text[|text| - 1]), 5)
  }

  /** `text` spells, five bits a letter, `bits` followed by fewer than five zero bits. */
  ghost predicate Spells(text: string, bits: seq<bool>) {
    && AllLetters(text)
    && 0 <= 5 * |text| - |bits| < 5
    && TextBits(text) == bits + LowBits(0, 5 * |text| - |bits|)
  }

  /** `text` spells the bits of `data`. */
  ghost predicate Encodes(text: string, data: seq<byte>) {
    Spells(text, Bits(data))
  }

  // ---- The accumulator ----

  method Base32Encode(data: seq<byte>) returns (result: string)
    ensures Encodes(result, data)
  {
    result := "";
    var bits, numBits := 0, 0;
    for i := 0 to |data|
      invariant 0 <= bits < U32_LIMIT && 0 <= numBits < 5
      invariant Pending(Bits(data[..i]), bits, numBits, result)
    {
      BitsSnoc(data, i);
      bits, numBits := Absorb(Bits(data[..i]), bits, numBits, result, data[i]);
      result, numBits := EmitGroups(Bits(data[..i + 1]), bits, numBits, result);
    }
    assert data[..|data|] == data;
    result := EmitRest(Bits(data), bits, numBits, result);
  }

  /** Writes what is left, if anything, filled with zeros to a whole group. */
  method EmitRest(ghost all: seq<bool>, bits: nat, numBits: nat, text: string) returns (result: string)
    requires Pending(all, bits, numBits, text) && numBits < 5
    ensures Spells(result, all)
  {
    result := text;
    if numBits > 0 {
      var pad := 5 - numBits;
      var index := ShiftLeft(bits, pad) % U32_LIMIT % 32;
      FillLast(bits, numBits, pad);
      EmitLast(all, LowBits(bits, numBits), LowBits(0, pad), result, index);
      result := result + [Letter(index)];
    } else {
      assert all == TextBits(text) && all + LowBits(0, 0) == all;
    }
  }

  /** Shifts one byte into the accumulator. */
  method Absorb(ghost all: seq<bool>, bits: nat, numBits: nat, ghost text: string, b: byte)
    returns (after: nat, count: nat)
    requires Pending(all, bits, numBits, text) && numBits < 5
    ensures after < U32_LIMIT && Pending(all + LowBits(b, 8), after, count, text)
  {
    TakeByte(all, bits, numBits, text, b);
    after := ShiftLeft(bits, 8) % U32_LIMIT + b;
    count := numBits + 8;
  }

  /** Writes whole groups until fewer than five bits are left. */
  method EmitGroups(ghost all: seq<bool>, bits: nat, count: nat, text: string) returns (result: string, numBits: nat)
    requires Pending(all, bits, count, text)
    ensures numBits < 5 && Pending(all, bits, numBits, result)
  {
    result, numBits := text, count;
    while numBits >= 5
      invariant Pending(all, bits, numBits, result)
    {
      numBits := numBits - 5;
      var index := ShiftRight(bits, numBits) % 32;
      EmitGroup(all, bits, numBits, result);
      result := result + [Letter(index)];
    }
  }

  /** The letters written so far spell `all` up to the accumulator's low bits. */
  ghost predicate Pending(all: seq<bool>, bits: nat, numBits: nat, result: string) {
    && AllLetters(result)
    && all == TextBits(result) + LowBits(bits, numBits)
  }

  lemma BitsSnoc(data: seq<byte>, i: nat)
    requires i < |data|
    ensures Bits(data[..i + 1]) == Bits(data[..i]) + LowBits(data[i], 8)
  {
    assert data[..i + 1][..i] == data[..i];
  }

  lemma TextBitsSnoc(text: string, x: nat)
    requires AllLetters(text) && x < 32
    ensures AllLetters(text + [Letter(x)])
    ensures TextBits(text + [Letter(x)]) == TextBits(text) + LowBits(x, 5)
  {
  }

  lemma ByteFits(x: nat, b: byte)
    ensures 0x100 * x % U32_LIMIT + b == (0x100 * x + b) % U32_LIMIT
  {
  }

  lemma WrapByte(bits: nat, b: byte)
    ensures ShiftLeft(bits, 8) % U32_LIMIT + b == (ShiftLeft(bits, 8) + b) % U32_LIMIT
  {
    ShiftLeftEight(bits);
    ByteFits(bits, b);
  }

  lemma ShiftIn(bits: nat, b: byte, numBits: nat)
    requires numBits < 5
    ensures LowBits(ShiftLeft(bits, 8) % U32_LIMIT + b, numBits + 8) == LowBits(bits, numBits) + LowBits(b, 8)
    ensures ShiftLeft(bits, 8) % U32_LIMIT + b < U32_LIMIT
  {
    WrapByte(bits, b);
    LowBitsWrap(ShiftLeft(bits, 8) + b, numBits + 8);
    Pow2Eight();
    LowBitsConcat(bits, b, numBits, 8);
  }

  lemma TakeByte(all: seq<bool>, bits: nat, numBits: nat, result: string, b: byte)
    requires Pending(all, bits, numBits, result) && numBits < 5
    ensures Pending(all + LowBits(b, 8), ShiftLeft(bits, 8) % U32_LIMIT + b, numBits + 8, result)
    ensures ShiftLeft(bits, 8) % U32_LIMIT + b < U32_LIMIT
  {
    ShiftIn(bits, b, numBits);
    Assoc(TextBits(result), LowBits(bits, numBits), LowBits(b, 8));
  }

  lemma EmitGroup(all: seq<bool>, bits: nat, numBits: nat, result: string)
    requires Pending(all, bits, numBits + 5, result)
    ensures Pending(all, bits, numBits, result + [Letter(ShiftRight(bits, numBits) % 32)])
  {
    var high := ShiftRight(bits, numBits);
    LowBitsSplit(bits, 5, numBits);
    LowBitsMask(high);
    TextBitsSnoc(result, high % 32);
    Assoc(TextBits(result), LowBits(high, 5), LowBits(bits, numBits));
  }

  lemma FillLast(bits: nat, numBits: nat, pad: nat)
    requires numBits + pad == 5
    ensures LowBits(ShiftLeft(bits, pad) % U32_LIMIT % 32, 5) == LowBits(bits, numBits) + LowBits(0, pad)
  {
    var shifted := ShiftLeft(bits, pad);
    LowBitsConcat(bits, 0, numBits, pad);
    LowBitsWrap(shifted, 5);
    LowBitsMask(shifted % U32_LIMIT);
  }

  /** The last letter: the accumulator's remaining bits, and zeros for the rest. */
  lemma EmitLast(all: seq<bool>, emitted: seq<bool>, rest: seq<bool>, result: string, index: nat)
    requires AllLetters(result) && index < 32 && LowBits(index, 5) == emitted + rest
    requires all == TextBits(result) + emitted
    ensures AllLetters(result + [Letter(index)])
    ensures TextBits(result + [Letter(index)]) == all + rest
  {
    TextBitsSnoc(result, index);
    Assoc(TextBits(result), emitted, rest);
  }

  // ---- Injectivity ----

  lemma Parts<T>(a: seq<T>, b: seq<T>, c: seq<T>, d: seq<T>)
    requires |a| == |c| && a + b == c + d
    ensures a == c && b == d
  {
    assert (a + b)[..|a|] == a && (c + d)[..|c|] == c;
    assert (a + b)[|a|..] == b && (c + d)[|c|..] == d;
  }

  lemma LowBitsInjective(x: nat, y: nat, k: nat)
    requires x < Pow2(k) && y < Pow2(k) && LowBits(x, k) == LowBits(y, k)
    ensures x == y
  {
    ValueOfLowBits(x, k);
    ValueOfLowBits(y, k);
  }

  lemma {:induction false} BitsInjective(a: seq<byte>, b: seq<byte>)
    requires |a| == |b| && Bits(a) == Bits(b)
    ensures a == b
  {
    if a != [] {
      var n := |a| - 1;
      Parts(Bits(a[..n]), LowBits(a[n], 8), Bits(b[..n]), LowBits(b[n], 8));
      BitsInjective(a[..n], b[..n]);
      Pow2Eight();
      LowBitsInjective(a[n], b[n], 8);
      assert a == a[..n] + [a[n]] && b == b[..n] + [b[n]];
    }
  }

  lemma DigitInjective(c: char, d: char)
    requires IsLetter(c) && IsLetter(d)
    ensures Digit(c) < 32 && (Digit(c) == Digit(d) ==> c == d)
  {
  }

  lemma {:induction false} TextBitsInjective(t: string, u: string)
    requires AllLetters(t) && AllLetters(u) && |t| == |u| && TextBits(t) == TextBits(u)
    ensures t == u
  {
    if t != "" {
      var n := |t| - 1;
      Parts(TextBits(t[..n]), LowBits(Digit(t[n]), 5), TextBits(u[..n]), LowBits(Digit(u[n]), 5));
      TextBitsInjective(t[..n], u[..n]);
      Pow2Five();
      DigitInjective(t[n], u[n]);
      DigitInjective(u[n], t[n]);
      LowBitsInjective(Digit(t[n]), Digit(u[n]), 5);
      assert t == t[..n] + [t[n]] && u == u[..n] + [u[n]];
    }
  }

  /** A byte string has one encoding, and two byte strings, of whatever lengths, never share one. */
  lemma EncodesIff(t: string, a: seq<byte>, u: string, b: seq<byte>)
    requires Encodes(t, a) && Encodes(u, b)
    ensures t == u <==> a == b
  {
    if t == u {
      assert |a| == |b|;
      assert TextBits(t)[..8 * |a|] == Bits(a) && TextBits(u)[..8 * |b|] == Bits(b);
      BitsInjective(a, b);
    }
    if a == b {
      assert |t| == |u|;
      TextBitsInjective(t, u);
    }
  }
}
