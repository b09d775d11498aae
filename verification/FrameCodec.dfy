/** The transport frame codec: a length-prefixed frame decoded from a growing receive buffer. */
module FrameCodec {
  import opened Basics
  import opened Bytes

  const MAX_FRAME_SIZE := 1_048_576
  const HEADER_SIZE := 9

  datatype Frame = Frame(seqNo: nat, ack: nat, flags: byte, payload: seq<byte>)

  predicate Encodable(f: Frame) {
    f.seqNo < U32_LIMIT && f.ack < U32_LIMIT && HEADER_SIZE + |f.payload| <= MAX_FRAME_SIZE
  }

  datatype Outcome = NeedMore | Got(frame: Frame) | TooSmall | TooLarge {
    predicate Failed() {
      TooSmall? || TooLarge?
    }
  }

  function Encoded(f: Frame): seq<byte> {
    Be(HEADER_SIZE + |f.payload|, 4) + Be(f.seqNo, 4) + Be(f.ack, 4) + [f.flags] + f.payload
  }

  /** What one decode of `src` yields, and what it leaves in the buffer. */
  function Decoded(src: seq<byte>): (Outcome, seq<byte>) {
    if |src| < 4 then (NeedMore, src)
    else
      var length := FromBe(src[..4]);
      if length < HEADER_SIZE then (TooSmall, src)
      else if length > MAX_FRAME_SIZE then (TooLarge, src)
      else if |src| < 4 + length then (NeedMore, src)
      else (Got(Frame(FromBe(src[4..8]), FromBe(src[8..12]), src[12], src[13..4 + length])), src[4 + length..])
  }

  class ReceiveBuffer {
    var data: seq<byte>

    constructor ()
      ensures data == []
    {
      data := [];
    }

    method Encode(f: Frame) returns (ok: bool)
      requires f.seqNo < U32_LIMIT && f.ack < U32_LIMIT
      modifies this
      ensures ok <==> Encodable(f)
      ensures data == old(data) + if ok then Encoded(f) else []
    {
      var bodyLength := HEADER_SIZE + |f.payload|;
      if bodyLength > MAX_FRAME_SIZE {
        return false;
      }
      data := data + Be(bodyLength, 4);
      data := data + Be(f.seqNo, 4);
      data := data + Be(f.ack, 4);
      data := data + [f.flags];
      data := data + f.payload;
      return true;
    }

    method Decode() returns (r: Outcome)
      modifies this
      ensures (r, data) == Decoded(old(data))
    {
      if |data| < 4 {
        return NeedMore;
      }
      var length := FromBe(data[..4]);
      if length < HEADER_SIZE {
        return TooSmall;
      }
      if length > MAX_FRAME_SIZE {
        return TooLarge;
      }
      if |data| < 4 + length {
        return NeedMore;
      }
      data := data[4..];
      var seqNo := FromBe(data[..4]);
      data := data[4..];
      var ack := FromBe(data[..4]);
      data := data[4..];
      var flags := data[0];
      data := data[1..];
      var payload := data[..length - HEADER_SIZE];
      data := data[length - HEADER_SIZE..];
      ghost var src := old(data);
      assert src[4..][..4] == src[4..8] && src[4..][4..] == src[8..] && src[8..][..4] == src[8..12];
      assert src[8..][4..] == src[12..] && src[12..][1..] == src[13..];
      assert payload == src[13..4 + length] && data == src[4 + length..];
      return Got(Frame(seqNo, ack, flags, payload));
    }

    /** Decodes until the buffer holds no further frame or is malformed. */
    method DecodeAll() returns (frames: seq<Frame>, failed: bool)
      modifies this
      ensures Drained(frames, data, failed) == Drain(old(data))
    {
      frames := [];
      while true
        invariant Drain(old(data)) == Drain(data).After(frames)
        decreases |data|
      {
        ghost var before := data;
        var r := Decode();
        match r
        case NeedMore =>
          DrainStops(before, frames);
          return frames, false;
        case Got(frame) =>
          DrainGot(before);
          AfterAfter(Drain(data), [frame], frames);
          frames := frames + [frame];
        case _ =>
          DrainStops(before, frames);
          return frames, true;
      }
    }

    /** Feeds the reads one by one, decoding as far as possible after each. */
    method Receive(chunks: seq<seq<byte>>) returns (frames: seq<Frame>, failed: bool)
      requires data == []
      modifies this
      ensures frames == Drain(Flatten(chunks)).frames && failed == Drain(Flatten(chunks)).failed
    {
      frames, failed := [], false;
      for i := 0 to |chunks|
        invariant !failed && Drained(frames, data, false) == Drain(Flatten(chunks[..i]))
      {
        FlattenStep(chunks, i);
        DrainAppend(Flatten(chunks[..i]), chunks[i]);
        data := data + chunks[i];
        var more;
        more, failed := DecodeAll();
        frames := frames + more;
        if failed {
          FlattenSplit(chunks, i + 1);
          DrainAppend(Flatten(chunks[..i + 1]), Flatten(chunks[i + 1..]));
          return;
        }
      }
      assert chunks[..|chunks|] == chunks;
    }
  }

  // ---- Decoding a whole buffer ----

  datatype Drained = Drained(frames: seq<Frame>, rest: seq<byte>, failed: bool) {
    function After(earlier: seq<Frame>): Drained {
      this.(frames := earlier + frames)
    }
  }

  function Drain(src: seq<byte>): Drained
    decreases |src|
  {
    var (r, rest) := Decoded(src);
    if r.Got? then Drain(rest).After([r.frame]) else Drained([], src, r.Failed())
  }

  function Flatten(chunks: seq<seq<byte>>): seq<byte> {
    if chunks == [] then [] else chunks[0] + Flatten(chunks[1..])
  }

  lemma {:induction false} FlattenSplit(chunks: seq<seq<byte>>, i: nat)
    requires i <= |chunks|
    ensures Flatten(chunks) == Flatten(chunks[..i]) + Flatten(chunks[i..])
  {
    if i > 0 {
      FlattenSplit(chunks[1..], i - 1);
      assert chunks[1..][..i - 1] == chunks[..i][1..] && chunks[1..][i - 1..] == chunks[i..];
    }
  }

  lemma FlattenStep(chunks: seq<seq<byte>>, i: nat)
    requires i < |chunks|
    ensures Flatten(chunks[..i + 1]) == Flatten(chunks[..i]) + chunks[i]
  {
    FlattenSplit(chunks[..i + 1], i);
    assert chunks[..i + 1][..i] == chunks[..i] && chunks[..i + 1][i..] == [chunks[i]];
  }

  /** Later bytes never change what earlier ones decode to. */
  lemma DecodedAppend(a: seq<byte>, b: seq<byte>)
    ensures var (r, rest) := Decoded(a);
      r != NeedMore ==> Decoded(a + b) == (r, rest + b)
  {
    if |a| >= 4 {
      assert (a + b)[..4] == a[..4];
      var length := FromBe(a[..4]);
      if HEADER_SIZE <= length <= MAX_FRAME_SIZE && |a| >= 4 + length {
        assert (a + b)[4..8] == a[4..8] && (a + b)[8..12] == a[8..12];
        assert (a + b)[13..4 + length] == a[13..4 + length];
        assert (a + b)[4 + length..] == a[4 + length..] + b;
      }
    }
  }

  lemma DrainGot(src: seq<byte>)
    requires Decoded(src).0.Got?
    ensures |Decoded(src).1| < |src| && Drain(src) == Drain(Decoded(src).1).After([Decoded(src).0.frame])
  {
  }

  lemma DrainStops(src: seq<byte>, earlier: seq<Frame>)
    requires !Decoded(src).0.Got?
    ensures Drain(src).After(earlier) == Drained(earlier, src, Decoded(src).0.Failed())
  {
    assert earlier + [] == earlier;
  }

  lemma AfterAfter(d: Drained, a: seq<Frame>, b: seq<Frame>)
    ensures d.After(a).After(b) == d.After(b + a)
  {
    Assoc(b, a, d.frames);
  }

  lemma {:induction false} DrainAppend(a: seq<byte>, b: seq<byte>)
    ensures var d := Drain(a);
      Drain(a + b) == if d.failed then d.(rest := d.rest + b) else Drain(d.rest + b).After(d.frames)
    decreases |a|
  {
    var (r, rest) := Decoded(a);
    DecodedAppend(a, b);
    if r.Got? {
      DrainGot(a);
      DrainGot(a + b);
      DrainAppend(rest, b);
      var d := Drain(rest);
      AfterAfter(Drain(d.rest + b), d.frames, [r.frame]);
    } else if r.NeedMore? {
      assert Drain(a) == Drained([], a, false);
      assert [] + Drain(a + b).frames == Drain(a + b).frames;
    }
  }

  // ---- Round trip ----

  /** The parts of a frame by position: three words, a flag byte, a body, and what follows. */
  lemma FrameParts<T>(a: seq<T>, b: seq<T>, c: seq<T>, d: seq<T>, e: seq<T>, tail: seq<T>)
    requires |a| == 4 && |b| == 4 && |c| == 4 && |d| == 1
    ensures var s := a + b + c + d + e + tail;
      && s[..4] == a && s[4..8] == b && s[8..12] == c && s[12] == d[0]
      && s[13..13 + |e|] == e && s[13 + |e|..] == tail
  {
    var s := a + b + c + d + e + tail;
    AtPrefix(a + b + c + d + e, tail);
    AtSplit(s, 0, a + b + c + d, e);
    AtSplit(s, 0, a + b + c, d);
    AtSplit(s, 0, a + b, c);
    AtSplit(s, 0, a, b);
    assert s[..4] == s[0..4];
    assert s[12..13][0] == d[0];
  }

  lemma WordsBack(f: Frame)
    requires Encodable(f)
    ensures FromBe(Be(HEADER_SIZE + |f.payload|, 4)) == HEADER_SIZE + |f.payload|
    ensures FromBe(Be(f.seqNo, 4)) == f.seqNo && FromBe(Be(f.ack, 4)) == f.ack
  {
    Pow256Values();
    BeRoundTrip(HEADER_SIZE + |f.payload|, 4);
    BeRoundTrip(f.seqNo, 4);
    BeRoundTrip(f.ack, 4);
  }

  /** A frame laid out as words, flags and payload decodes to its parts. */
  lemma PartsDecode(a: seq<byte>, b: seq<byte>, c: seq<byte>, flags: byte, payload: seq<byte>, tail: seq<byte>)
    requires |a| == 4 && |b| == 4 && |c| == 4
    requires FromBe(a) == HEADER_SIZE + |payload| <= MAX_FRAME_SIZE
    ensures Decoded(a + b + c + [flags] + payload + tail) == (Got(Frame(FromBe(b), FromBe(c), flags, payload)), tail)
  {
    FrameParts(a, b, c, [flags], payload, tail);
  }

  lemma EncodedDecodes(f: Frame, tail: seq<byte>)
    requires Encodable(f)
    ensures Decoded(Encoded(f) + tail) == (Got(f), tail)
  {
    WordsBack(f);
    PartsDecode(Be(HEADER_SIZE + |f.payload|, 4), Be(f.seqNo, 4), Be(f.ack, 4), f.flags, f.payload, tail);
  }

  /** No proper prefix of a frame yields a frame or an error, or consumes a byte. */
  lemma PrefixWaits(f: Frame, k: nat)
    requires Encodable(f) && k < |Encoded(f)|
    ensures Decoded(Encoded(f)[..k]) == (NeedMore, Encoded(f)[..k])
  {
    if k >= 4 {
      WordsBack(f);
      PrefixWord(Encoded(f), k, Be(HEADER_SIZE + |f.payload|, 4));
    }
  }

  lemma PrefixWord(s: seq<byte>, k: nat, word: seq<byte>)
    requires |word| == 4 <= k <= |s| && s[..4] == word
    ensures s[..k][..4] == word
  {
  }

  function EncodedAll(frames: seq<Frame>): seq<byte> {
    if frames == [] then [] else Encoded(frames[0]) + EncodedAll(frames[1..])
  }

  lemma {:induction false} DrainEncoded(frames: seq<Frame>)
    requires forall i :: 0 <= i < |frames| ==> Encodable(frames[i])
    ensures Drain(EncodedAll(frames)) == Drained(frames, [], false)
  {
    if frames != [] {
      EncodedDecodes(frames[0], EncodedAll(frames[1..]));
      DrainEncoded(frames[1..]);
      assert [frames[0]] + frames[1..] == frames;
    }
  }

  /** However the bytes of a list of frames are cut into reads, decoding yields exactly those frames. */
  lemma AnyFragmentation(frames: seq<Frame>, chunks: seq<seq<byte>>, i: nat)
    requires forall j :: 0 <= j < |frames| ==> Encodable(frames[j])
    requires Flatten(chunks) == EncodedAll(frames) && i <= |chunks|
    ensures var d := Drain(Flatten(chunks[..i]));
      && !d.failed && d.frames <= frames
      && (i == |chunks| ==> d.frames == frames && d.rest == [])
  {
    DrainEncoded(frames);
    FlattenSplit(chunks, i);
    DrainAppend(Flatten(chunks[..i]), Flatten(chunks[i..]));
    assert i == |chunks| ==> chunks[..i] == chunks;
  }

  // ---- The format ----

  /** Exactly when a buffer yields what: the length word decides, between 9 and 1048576. */
  lemma DecodedIff(src: seq<byte>)
    ensures var (r, rest) := Decoded(src);
      && (r == TooSmall <==> |src| >= 4 && FromBe(src[..4]) < 9)
      && (r == TooLarge <==> |src| >= 4 && FromBe(src[..4]) > 1_048_576)
      && (r == NeedMore <==> |src| < 4 || (9 <= FromBe(src[..4]) <= 1_048_576 && |src| < 4 + FromBe(src[..4])))
      && (!r.Got? ==> rest == src)
      && (r.Got? ==> |src| == 4 + FromBe(src[..4]) + |rest|)
  {
  }

  /** A frame's bytes decode to it, whatever follows, exactly if length word and payload together fit the limit. */
  lemma FitsIff(f: Frame, tail: seq<byte>)
    requires f.seqNo < U32_LIMIT && f.ack < U32_LIMIT && 9 + |f.payload| < U32_LIMIT
    ensures Encodable(f) <==> 9 + |f.payload| <= 1_048_576
    ensures Decoded(Encoded(f) + tail) == (Got(f), tail) <==> 9 + |f.payload| <= 1_048_576
  {
    if Encodable(f) {
      EncodedDecodes(f, tail);
    } else {
      var word := Be(9 + |f.payload|, 4);
      Pow256Values();
      BeRoundTrip(9 + |f.payload|, 4);
      FrameParts(word, Be(f.seqNo, 4), Be(f.ack, 4), [f.flags], f.payload, tail);
    }
  }

  /** Whatever is decoded from any bytes, encoded again, is those bytes. */
  lemma DecodedEncodes(src: seq<byte>)
    requires Decoded(src).0.Got?
    ensures var (r, rest) := Decoded(src); Encodable(r.frame) && Encoded(r.frame) + rest == src
  {
    var (r, rest) := Decoded(src);
    Pow256Values();
    BeFromBe(src[..4]);
    BeFromBe(src[4..8]);
    BeFromBe(src[8..12]);
    SixParts(src, |src| - |rest|);
  }

  lemma SixParts<T>(s: seq<T>, n: nat)
    requires 13 <= n <= |s|
    ensures s[..4] + s[4..8] + s[8..12] + [s[12]] + s[13..n] + s[n..] == s
  {
    ThreeParts(s, 4, 8);
    assert s[..8] == s[..4] + s[4..8];
    assert s[..12] == s[..8] + s[8..12];
    assert s[..13] == s[..12] + [s[12]];
    assert s[..n] == s[..13] + s[13..n];
    assert s == s[..n] + s[n..];
  }
}
