/** UTF-8 (section 3 of RFC 3629): the byte strings a string field accepts are the encodings of texts. */
module Utf8 {
  import opened Bytes
  import opened SchemaCodec

  predicate Scalar(c: nat) {
    c < 0xD800 || 0xE000 <= c < 0x11_0000
  }

  function EncodeScalar(c: nat): (s: seq<byte>)
    requires Scalar(c)
    ensures s != []
  {
    if c < 0x80 then [c]
    else if c < 0x800 then [0xC0 + c / 0x40, 0x80 + c % 0x40]
    else if c < 0x1_0000 then [0xE0 + c / 0x40 / 0x40, 0x80 + c / 0x40 % 0x40, 0x80 + c % 0x40]
    else [0xF0 + c / 0x40 / 0x40 / 0x40, 0x80 + c / 0x40 / 0x40 % 0x40, 0x80 + c / 0x40 % 0x40, 0x80 + c % 0x40]
  }

  predicate Text(scalars: seq<nat>) {
    forall i :: 0 <= i < |scalars| ==> Scalar(scalars[i])
  }

  function EncodeText(scalars: seq<nat>): seq<byte>
    requires Text(scalars)
  {
    if scalars == [] then [] else EncodeScalar(scalars[0]) + EncodeText(scalars[1..])
  }

  /** What the reader takes off the front of an encoding is its first scalar value. */
  lemma ScalarIsHead(c: nat, rest: seq<byte>)
    requires Scalar(c)
    ensures Utf8Head(EncodeScalar(c) + rest) == |EncodeScalar(c)|
  {
  }

  /** Six more bits. */
  function More(high: nat, b: byte): (c: nat)
    requires Continuation(b)
    ensures c / 0x40 == high && 0x80 + c % 0x40 == b && high * 0x40 <= c < (high + 1) * 0x40
  {
    high * 0x40 + (b as int - 0x80)
  }

  lemma TwoBytesEncode(a: byte, b: byte) returns (c: nat)
    requires Utf8Head([a, b]) == 2
    ensures Scalar(c) && EncodeScalar(c) == [a, b]
  {
    c := More(a as int - 0xC0, b);
  }

  lemma ThreeBytesEncode(a: byte, b: byte, d: byte) returns (c: nat)
    requires Utf8Head([a, b, d]) == 3
    ensures Scalar(c) && EncodeScalar(c) == [a, b, d]
  {
    var high := More(a as int - 0xE0, b);
    c := More(high, d);
  }

  lemma FourBytesEncode(a: byte, b: byte, d: byte, e: byte) returns (c: nat)
    requires Utf8Head([a, b, d, e]) == 4
    ensures Scalar(c) && EncodeScalar(c) == [a, b, d, e]
  {
    var high := More(a as int - 0xF0, b);
    var middle := More(high, d);
    c := More(middle, e);
  }

  /** What the reader takes off the front of any bytes is the encoding of a scalar value. */
  lemma HeadIsScalar(s: seq<byte>) returns (c: nat)
    requires Utf8Head(s) > 0
    ensures Utf8Head(s) <= |s| && Scalar(c) && EncodeScalar(c) == s[..Utf8Head(s)]
  {
    var n := Utf8Head(s);
    var head := s[..n];
    match n {
      case 1 =>
        c := s[0];
        assert head == [s[0]];
      case 2 =>
        assert head == [s[0], s[1]];
        c := TwoBytesEncode(s[0], s[1]);
      case 3 =>
        assert head == [s[0], s[1], s[2]];
        c := ThreeBytesEncode(s[0], s[1], s[2]);
      case _ =>
        assert n == 4 && head == [s[0], s[1], s[2], s[3]];
        c := FourBytesEncode(s[0], s[1], s[2], s[3]);
    }
  }

  lemma {:induction false} TextIsUtf8(scalars: seq<nat>)
    requires Text(scalars)
    ensures IsUtf8(EncodeText(scalars))
  {
    if scalars != [] {
      var head, rest := EncodeScalar(scalars[0]), EncodeText(scalars[1..]);
      ScalarIsHead(scalars[0], rest);
      assert (head + rest)[|head|..] == rest;
      TextIsUtf8(scalars[1..]);
    }
  }

  lemma {:induction false} Utf8IsText(s: seq<byte>) returns (scalars: seq<nat>)
    requires IsUtf8(s)
    ensures Text(scalars) && EncodeText(scalars) == s
    decreases |s|
  {
    if s == [] {
      scalars := [];
    } else {
      var n := Utf8Head(s);
      var c := HeadIsScalar(s);
      var rest := Utf8IsText(s[n..]);
      scalars := [c] + rest;
      assert scalars[1..] == rest && s[..n] + s[n..] == s;
    }
  }

  /** A byte string is accepted exactly if it is the encoding of a sequence of scalar values. */
  lemma Utf8Iff(s: seq<byte>)
    ensures IsUtf8(s) <==> exists scalars :: Text(scalars) && EncodeText(scalars) == s
  {
    if IsUtf8(s) {
      var scalars := Utf8IsText(s);
    }
    if scalars :| Text(scalars) && EncodeText(scalars) == s {
      TextIsUtf8(scalars);
    }
  }
}
