/** The server's answer to an inbox fetch and its reading by the client: a message list packed into one field,
    followed by an untagged claim token and signature. */
module InboxResponse {
  import opened Basics
  import opened Bytes
  import opened SchemaCodec

  const CLAIM_TOKEN_LEN := 40
  const SERVER_SIG_LEN := 64
  const TRAILER_LEN := 104

  const INBOX_MESSAGES := Constructor(0xC200_0003, [BytesField, IntField])

  /** The schema the client is built with, and the position of the inbox answer in it. */
  datatype Protocol = Protocol(schema: Schema, inbox: nat) {
    predicate Valid() {
      inbox < |schema| && schema[inbox] == INBOX_MESSAGES && Lookup(schema, INBOX_MESSAGES.id) == inbox
    }

    predicate IsInbox(data: seq<byte>) {
      var r := Dispatch(schema, data);
      r.Ok? && r.value.index == inbox
    }
  }

  datatype Response =
    | Signed(proto: seq<byte>, claimToken: seq<byte>, signature: seq<byte>)
    | Unsigned(proto: seq<byte>)
    | Invalid

  function Parse(p: Protocol, raw: seq<byte>): Response {
    if |raw| > TRAILER_LEN && p.IsInbox(raw[..|raw| - TRAILER_LEN]) then
      var n := |raw| - TRAILER_LEN;
      Signed(raw[..n], raw[n..n + CLAIM_TOKEN_LEN], raw[n + CLAIM_TOKEN_LEN..])
    else if p.IsInbox(raw) then Unsigned(raw)
    else Invalid
  }

  function InboxBytes(messages: seq<byte>, count: nat): seq<byte> {
    Serialize(INBOX_MESSAGES, [BytesValue(messages), IntValue(count)])
  }

  // ---- Parsing ----

  lemma InboxBytesParts(messages: seq<byte>, count: nat)
    ensures InboxBytes(messages, count) == Le(INBOX_MESSAGES.id, 4) + (EncodeBytes(messages) + Le(count, 4))
  {
    var values := [BytesValue(messages), IntValue(count)];
    assert values[1..] == [IntValue(count)] && values[1..][1..] == [];
    assert EncodeFields(values[1..]) == Le(count, 4) + [];
  }

  lemma WholeIsInbox(p: Protocol, messages: seq<byte>, count: nat)
    requires p.Valid() && |messages| < U32_LIMIT && count < U32_LIMIT
    ensures Dispatch(p.schema, InboxBytes(messages, count))
         == Ok(Message(p.inbox, [BytesValue(messages), IntValue(count)]))
  {
    var m := Message(p.inbox, [BytesValue(messages), IntValue(count)]);
    DispatchRoundTrip(p.schema, m, []);
    assert InboxBytes(messages, count) + [] == InboxBytes(messages, count);
  }

  /** No proper prefix of an inbox answer is read as an inbox answer. */
  lemma PrefixIsNotInbox(p: Protocol, messages: seq<byte>, count: nat, n: nat)
    requires p.Valid() && |messages| < U32_LIMIT && n < |InboxBytes(messages, count)|
    ensures !p.IsInbox(InboxBytes(messages, count)[..n])
  {
    var whole := InboxBytes(messages, count);
    var cut := whole[..n];
    InboxBytesParts(messages, count);
    if p.IsInbox(cut) {
      PrefixId(p, cut);
      assert cut[4..8] == whole[4..8] == Le(|messages|, 4);
      Pow256Values();
      LeRoundTrip(|messages|, 4);
    }
  }

  lemma PrefixId(p: Protocol, data: seq<byte>)
    requires p.Valid() && p.IsInbox(data)
    ensures |data| >= 8 && DecodeFields(INBOX_MESSAGES.fields, data, 4).Ok?
  {
    assert DecodeField(BytesField, data, 4).Ok?;
  }

  /** An inbox answer alone parses as unsigned; followed by any token and signature it parses into exactly its parts. */
  lemma ParseUnambiguous(p: Protocol, messages: seq<byte>, count: nat, token: seq<byte>, signature: seq<byte>)
    requires p.Valid() && |messages| < U32_LIMIT && count < U32_LIMIT
    requires |token| == CLAIM_TOKEN_LEN && |signature| == SERVER_SIG_LEN
    ensures var bytes := InboxBytes(messages, count);
      && Parse(p, bytes) == Unsigned(bytes)
      && Parse(p, bytes + token + signature) == Signed(bytes, token, signature)
  {
    var bytes := InboxBytes(messages, count);
    WholeIsInbox(p, messages, count);
    if |bytes| > TRAILER_LEN {
      PrefixIsNotInbox(p, messages, count, |bytes| - TRAILER_LEN);
    }
    InboxBytesParts(messages, count);
    CutBeforeTrailer(p, bytes, token, signature);
  }

  lemma TrailerParts(bytes: seq<byte>, token: seq<byte>, signature: seq<byte>)
    requires |token| == CLAIM_TOKEN_LEN && |signature| == SERVER_SIG_LEN
    ensures var raw := bytes + token + signature;
      && raw[..|raw| - TRAILER_LEN] == bytes
      && raw[|bytes|..|bytes| + CLAIM_TOKEN_LEN] == token
      && raw[|bytes| + CLAIM_TOKEN_LEN..] == signature
  {
  }

  /** Every answer: signed exactly if all but its last 104 bytes are an inbox answer, and then cut after those and
      after 40 more; unsigned exactly if it is not signed and is an inbox answer whole. */
  lemma ParseExact(p: Protocol, raw: seq<byte>)
    ensures match Parse(p, raw)
      case Signed(proto, token, signature) =>
        proto != [] && |token| == 40 && |signature| == 64 && proto + token + signature == raw && p.IsInbox(proto)
      case Unsigned(proto) =>
        proto == raw && p.IsInbox(raw) && (|raw| > 104 ==> !p.IsInbox(raw[..|raw| - 104]))
      case Invalid => !p.IsInbox(raw) && (|raw| > 104 ==> !p.IsInbox(raw[..|raw| - 104]))
  {
    if Parse(p, raw).Signed? {
      ThreeParts(raw, |raw| - 104, |raw| - 64);
    }
  }

  lemma CutBeforeTrailer(p: Protocol, bytes: seq<byte>, token: seq<byte>, signature: seq<byte>)
    requires bytes != [] && p.IsInbox(bytes) && |token| == CLAIM_TOKEN_LEN && |signature| == SERVER_SIG_LEN
    ensures Parse(p, bytes + token + signature) == Signed(bytes, token, signature)
  {
    TrailerParts(bytes, token, signature);
  }

  // ---- The message list ----

  /** The non-empty messages, each after its length. */
  function Blob(messages: seq<seq<byte>>): seq<byte> {
    if messages == [] then []
    else if messages[0] == [] then Blob(messages[1..])
    else Le(|messages[0]|, 4) + messages[0] + Blob(messages[1..])
  }

  function NonEmpty(messages: seq<seq<byte>>): seq<seq<byte>> {
    if messages == [] then []
    else if messages[0] == [] then NonEmpty(messages[1..])
    else [messages[0]] + NonEmpty(messages[1..])
  }

  /** The messages a reader finds from `offset` on, stopping at the first one that runs past the end. */
  function Walk(blob: seq<byte>, offset: nat): seq<seq<byte>>
    decreases |blob| - offset
  {
    if offset + 4 > |blob| then []
    else
      var length := FromLe(blob[offset..offset + 4]);
      if offset + 4 + length > |blob| then []
      else [blob[offset + 4..offset + 4 + length]] + Walk(blob, offset + 4 + length)
  }

  lemma BlobStep(messages: seq<seq<byte>>, i: nat)
    requires i < |messages|
    ensures Blob(messages[i..]) ==
      (if messages[i] == [] then [] else Le(|messages[i]|, 4) + messages[i]) + Blob(messages[i + 1..])
  {
  }

  method BuildBlob(messages: seq<seq<byte>>) returns (blob: seq<byte>)
    ensures blob == Blob(messages)
  {
    blob := [];
    assert messages[0..] == messages;
    for i := 0 to |messages|
      invariant blob + Blob(messages[i..]) == Blob(messages)
    {
      BlobStep(messages, i);
      if messages[i] != [] {
        Assoc(blob, Le(|messages[i]|, 4) + messages[i], Blob(messages[i + 1..]));
        Assoc(blob, Le(|messages[i]|, 4), messages[i]);
        blob := blob + Le(|messages[i]|, 4);
        blob := blob + messages[i];
      } else {
        assert [] + Blob(messages[i + 1..]) == Blob(messages[i + 1..]);
      }
    }
  }

  method WalkBlob(blob: seq<byte>) returns (found: seq<seq<byte>>)
    ensures found == Walk(blob, 0)
  {
    var offset := 0;
    found := [];
    while offset + 4 <= |blob|
      invariant found + Walk(blob, offset) == Walk(blob, 0)
      decreases |blob| - offset
    {
      var length := FromLe(blob[offset..offset + 4]);
      offset := offset + 4;
      if offset + length > |blob| {
        break;
      }
      var message := blob[offset..offset + length];
      Assoc(found, [message], Walk(blob, offset + length));
      found := found + [message];
      offset := offset + length;
    }
  }

  lemma WalkStep(blob: seq<byte>, offset: nat, header: seq<byte>, first: seq<byte>, rest: seq<byte>)
    requires |header| == 4 && FromLe(header) == |first| && At(blob, offset, header + first + rest)
    ensures Walk(blob, offset) == [first] + Walk(blob, offset + 4 + |first|)
    ensures At(blob, offset + 4 + |first|, rest)
  {
    AtSplit(blob, offset, header + first, rest);
    AtSplit(blob, offset, header, first);
  }

  lemma BlobFirst(messages: seq<seq<byte>>) returns (header: seq<byte>)
    requires messages != [] && messages[0] != [] && |messages[0]| < U32_LIMIT
    ensures |header| == 4 && FromLe(header) == |messages[0]|
    ensures Blob(messages) == header + messages[0] + Blob(messages[1..])
  {
    header := Le(|messages[0]|, 4);
    Pow256Values();
    LeRoundTrip(|messages[0]|, 4);
  }

  /** Reading a built list gives back its non-empty messages, in order. */
  lemma {:induction false} WalkOfBlob(messages: seq<seq<byte>>, blob: seq<byte>, offset: nat)
    requires forall i :: 0 <= i < |messages| ==> |messages[i]| < U32_LIMIT
    requires At(blob, offset, Blob(messages)) && offset + |Blob(messages)| == |blob|
    ensures Walk(blob, offset) == NonEmpty(messages)
    decreases |messages|
  {
    if messages != [] {
      if messages[0] == [] {
        WalkOfBlob(messages[1..], blob, offset);
      } else {
        var header := BlobFirst(messages);
        WalkStep(blob, offset, header, messages[0], Blob(messages[1..]));
        WalkOfBlob(messages[1..], blob, offset + 4 + |messages[0]|);
      }
    }
  }

  /** Messages, each after its length. */
  function Packed(messages: seq<seq<byte>>): seq<byte> {
    if messages == [] then [] else Le(|messages[0]|, 4) + messages[0] + Packed(messages[1..])
  }

  lemma PackedFirst(message: seq<byte>, messages: seq<seq<byte>>, rest: seq<byte>)
    ensures Packed([message] + messages) + rest == Le(|message|, 4) + message + (Packed(messages) + rest)
  {
    Assoc(Le(|message|, 4) + message, Packed(messages), rest);
    assert ([message] + messages)[1..] == messages;
  }

  /** A length and as many bytes. */
  predicate HoldsOne(bytes: seq<byte>) {
    |bytes| >= 4 && |bytes| >= 4 + FromLe(bytes[..4])
  }

  lemma WalkHead(blob: seq<byte>, offset: nat) returns (message: seq<byte>)
    requires offset <= |blob| && HoldsOne(blob[offset..])
    ensures offset + 4 + |message| <= |blob|
    ensures Walk(blob, offset) == [message] + Walk(blob, offset + 4 + |message|)
    ensures blob[offset..] == Le(|message|, 4) + message + blob[offset + 4 + |message|..]
  {
    var header, tail := blob[offset..offset + 4], blob[offset..];
    assert tail[..4] == header;
    var length := FromLe(header);
    message := blob[offset + 4..offset + 4 + length];
    LeFromLe(header);
    ThreeParts(tail, 4, 4 + length);
    assert tail[4..4 + length] == message && tail[4 + length..] == blob[offset + 4 + length..];
  }

  lemma WalkEnds(blob: seq<byte>, offset: nat)
    requires offset <= |blob| && !HoldsOne(blob[offset..])
    ensures Walk(blob, offset) == []
  {
    if offset + 4 <= |blob| {
      assert blob[offset..][..4] == blob[offset..offset + 4];
    }
  }

  /** Any bytes: what is read, packed again, is what stands there, and what is left over does not hold one more. */
  lemma {:induction false} WalkExact(blob: seq<byte>, offset: nat) returns (rest: seq<byte>)
    requires offset <= |blob|
    ensures blob[offset..] == Packed(Walk(blob, offset)) + rest && !HoldsOne(rest)
    decreases |blob| - offset
  {
    rest := blob[offset..];
    if HoldsOne(rest) {
      var message := WalkHead(blob, offset);
      rest := WalkExact(blob, offset + 4 + |message|);
      PackedFirst(message, Walk(blob, offset + 4 + |message|), rest);
    } else {
      WalkEnds(blob, offset);
      assert [] + rest == rest;
    }
  }

  // ---- Signing ----

  /** What is signed: the list, the count, the inbox and the time. */
  function SignedData(blob: seq<byte>, count: nat, inboxId: seq<byte>, timestamp: nat): seq<byte> {
    blob + Le(count, 4) + inboxId + Le(timestamp, 8)
  }

  /** The signature scheme, as any function and check that accepts what it signed. */
  datatype Signer = Signer(sign: seq<byte> -> seq<byte>, check: (seq<byte>, seq<byte>) -> bool) {
    ghost predicate Correct() {
      forall data :: |sign(data)| == SERVER_SIG_LEN && check(data, sign(data))
    }
  }

  function Respond(signer: Signer, messages: seq<seq<byte>>, inboxId: seq<byte>, timestamp: nat, mac: seq<byte>)
    : seq<byte>
  {
    var blob := Blob(messages);
    InboxBytes(blob, |messages|) + (Le(timestamp, 8) + mac)
      + signer.sign(SignedData(blob, |messages|, inboxId, timestamp))
  }

  /** The client's check: rebuild the signed bytes from the answer and the time in the token. */
  predicate Verifies(p: Protocol, signer: Signer, r: Response, inboxId: seq<byte>) {
    match r
    case Unsigned(_) => true
    case Invalid => false
    case Signed(proto, token, signature) =>
      && |token| == CLAIM_TOKEN_LEN
      && p.IsInbox(proto)
      && var values := Dispatch(p.schema, proto).value.values;
         && |values| == 2 && values[0].BytesValue? && values[1].IntValue?
         && signer.check(SignedData(values[0].data, values[1].n, inboxId, FromLe(token[..8])), signature)
  }

  /** The client accepts a genuine answer and finds exactly the non-empty stored messages in it, in order. */
  lemma FetchedMessagesArrive(p: Protocol, signer: Signer, messages: seq<seq<byte>>, inboxId: seq<byte>,
                              timestamp: nat, mac: seq<byte>)
    requires p.Valid() && signer.Correct()
    requires |messages| < U32_LIMIT && |Blob(messages)| < U32_LIMIT
    requires forall i :: 0 <= i < |messages| ==> |messages[i]| < U32_LIMIT
    requires timestamp < U64_LIMIT && |mac| == 32
    ensures var r := Parse(p, Respond(signer, messages, inboxId, timestamp, mac));
      && r.Signed? && Verifies(p, signer, r, inboxId)
      && FromLe(r.claimToken[..8]) == timestamp
      && Dispatch(p.schema, r.proto) == Ok(Message(p.inbox, [BytesValue(Blob(messages)), IntValue(|messages|)]))
      && Walk(Blob(messages), 0) == NonEmpty(messages)
  {
    var blob := Blob(messages);
    var token := Le(timestamp, 8) + mac;
    var signature := signer.sign(SignedData(blob, |messages|, inboxId, timestamp));
    ParseUnambiguous(p, blob, |messages|, token, signature);
    WholeIsInbox(p, blob, |messages|);
    Pow256Values();
    LeRoundTrip(timestamp, 8);
    assert token[..8] == Le(timestamp, 8);
    WalkOfBlob(messages, blob, 0);
  }

  // ---- What a signature vouches for ----

  /** One answer of the server, as its signature states it. */
  datatype Answer = Answer(blob: seq<byte>, count: nat, inboxId: seq<byte>, timestamp: nat) {
    function Data(): seq<byte> {
      SignedData(blob, count, inboxId, timestamp)
    }

    predicate Fits(length: nat) {
      count < U32_LIMIT && timestamp < U64_LIMIT && |inboxId| == length
    }
  }

  lemma SignedParts(a: Answer)
    ensures var data, n := a.Data(), |a.blob|;
      && |data| == n + 4 + |a.inboxId| + 8
      && data[..n] == a.blob && data[n..n + 4] == Le(a.count, 4)
      && data[n + 4..|data| - 8] == a.inboxId && data[|data| - 8..] == Le(a.timestamp, 8)
  {
  }

  /** For inbox ids of one length the signed bytes determine the list, the count, the inbox and the time. */
  lemma SignedDataInjective(a: Answer, b: Answer, length: nat)
    requires a.Fits(length) && b.Fits(length) && a.Data() == b.Data()
    ensures a == b
  {
    SignedParts(a);
    SignedParts(b);
    Pow256Values();
    LeRoundTrip(a.count, 4);
    LeRoundTrip(b.count, 4);
    LeRoundTrip(a.timestamp, 8);
    LeRoundTrip(b.timestamp, 8);
  }

  /** With ids of different lengths they do not: a byte can belong to the list or to the inbox. */
  lemma SignedDataShifts(inboxId: seq<byte>, timestamp: nat)
    ensures Answer([0], 0, inboxId, timestamp).Data() == Answer([], 0, [0] + inboxId, timestamp).Data()
  {
    assert Le(0, 4) == [0, 0, 0, 0];
  }

  /** The check accepts exactly the server's own signatures on the answers it has given. */
  ghost predicate AcceptsOnly(signer: Signer, given: set<Answer>) {
    forall data, signature ::
      signer.check(data, signature) <==> exists a :: a in given && a.Data() == data && signature == signer.sign(data)
  }

  /** A signed answer, whatever its parts, is accepted for an inbox exactly if the server gave this list and count for
      this inbox at the time in the token, and this is its signature. */
  lemma AcceptedIffGiven(p: Protocol, signer: Signer, given: set<Answer>, answer: Answer, token: seq<byte>,
                         signature: seq<byte>)
    requires p.Valid() && AcceptsOnly(signer, given)
    requires forall a :: a in given ==> a.Fits(|answer.inboxId|)
    requires |answer.blob| < U32_LIMIT && answer.count < U32_LIMIT
    requires |token| == 40 && |signature| == 64 && answer.timestamp == FromLe(token[..8])
    ensures Verifies(p, signer, Parse(p, InboxBytes(answer.blob, answer.count) + token + signature), answer.inboxId)
      <==> answer in given && signature == signer.sign(answer.Data())
  {
    ParseUnambiguous(p, answer.blob, answer.count, token, signature);
    WholeIsInbox(p, answer.blob, answer.count);
    Pow256Values();
    if signer.check(answer.Data(), signature) {
      var a :| a in given && a.Data() == answer.Data() && signature == signer.sign(answer.Data());
      SignedDataInjective(a, answer, |answer.inboxId|);
    }
  }

  /** An unsigned inbox answer is accepted, anything that is no inbox answer refused. */
  lemma UnsignedAccepted(p: Protocol, signer: Signer, raw: seq<byte>, inboxId: seq<byte>)
    requires !Parse(p, raw).Signed?
    ensures Verifies(p, signer, Parse(p, raw), inboxId) <==> p.IsInbox(raw)
  {
  }
}
