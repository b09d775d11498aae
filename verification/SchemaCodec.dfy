/** The wire codec a schema denotes: constructors with a 32-bit id and typed fields. */
module SchemaCodec {
  import opened Basics
  import opened Bytes

  datatype FieldType = IntField | LongField | BytesField | StringField

  datatype Constructor = Constructor(id: nat, fields: seq<FieldType>)

  type Schema = seq<Constructor>

  datatype Value = IntValue(n: nat) | LongValue(n: nat) | BytesValue(data: seq<byte>) | StringValue(utf8: seq<byte>)

  /** A value of the constructor at position `index` of the schema. */
  datatype Message = Message(index: nat, values: seq<Value>)

  datatype Error = TooShort | UnknownConstructor | Truncated | InvalidUtf8

  // ---- UTF-8 ----

  predicate Continuation(b: byte) {
    0x80 <= b < 0xC0
  }

  /** Length of the well-formed UTF-8 sequence at the head of `s`, or 0. */
  function Utf8Head(s: seq<byte>): nat {
    if |s| >= 1 && s[0] < 0x80 then 1
    else if |s| >= 2 && 0xC2 <= s[0] < 0xE0 && Continuation(s[1]) then 2
    else if |s| >= 3 && 0xE0 <= s[0] < 0xF0 && Continuation(s[1]) && Continuation(s[2])
         && (s[0] == 0xE0 ==> s[1] >= 0xA0) && (s[0] == 0xED ==> s[1] < 0xA0) then 3
    else if |s| >= 4 && 0xF0 <= s[0] < 0xF5 && Continuation(s[1]) && Continuation(s[2]) && Continuation(s[3])
         && (s[0] == 0xF0 ==> s[1] >= 0x90) && (s[0] == 0xF4 ==> s[1] < 0x90) then 4
    else 0
  }

  predicate IsUtf8(s: seq<byte>) {
    s == [] || (0 < Utf8Head(s) <= |s| && IsUtf8(s[Utf8Head(s)..]))
  }

  // ---- Fields ----

  predicate WellTyped(t: FieldType, v: Value) {
    match v
    case IntValue(n) => t.IntField? && n < U32_LIMIT
    case LongValue(n) => t.LongField? && n < U64_LIMIT
    case BytesValue(data) => t.BytesField? && |data| < U32_LIMIT
    case StringValue(utf8) => t.StringField? && |utf8| < U32_LIMIT && IsUtf8(utf8)
  }

  function Padding(length: nat): nat {
    (4 - length % 4) % 4
  }

  function EncodeBytes(data: seq<byte>): seq<byte> {
    Le(|data|, 4) + data + Zeros(Padding(|data|))
  }

  /** The bytes at `offset` and the offset after them and their padding, which may lie past the end. */
  function DecodeBytes(buf: seq<byte>, offset: nat): (r: Result<(seq<byte>, nat), Error>)
    ensures r.Ok? ==> offset + 4 + |r.value.0| <= |buf| && |r.value.0| < U32_LIMIT
  {
    if offset + 4 > |buf| then Err(Truncated)
    else
      var length := FromLe(buf[offset..offset + 4]);
      if offset + 4 + length > |buf| then Err(Truncated)
      else
        Pow256Values();
        Ok((buf[offset + 4..offset + 4 + length], offset + 4 + length + Padding(length)))
  }

  function EncodeField(v: Value): seq<byte> {
    match v
    case IntValue(n) => Le(n, 4)
    case LongValue(n) => Le(n, 8)
    case BytesValue(data) => EncodeBytes(data)
    case StringValue(utf8) => EncodeBytes(utf8)
  }

  /** Any field decoded from any bytes is well typed. */
  function DecodeField(t: FieldType, buf: seq<byte>, offset: nat): (r: Result<(Value, nat), Error>)
    ensures r.Ok? ==> WellTyped(t, r.value.0)
  {
    match t
    case IntField =>
      if offset + 4 > |buf| then Err(Truncated)
      else Pow256Values(); Ok((IntValue(FromLe(buf[offset..offset + 4])), offset + 4))
    case LongField =>
      if offset + 8 > |buf| then Err(Truncated)
      else Pow256Values(); Ok((LongValue(FromLe(buf[offset..offset + 8])), offset + 8))
    case BytesField =>
      var decoded :- DecodeBytes(buf, offset);
      Ok((BytesValue(decoded.0), decoded.1))
    case StringField =>
      var decoded :- DecodeBytes(buf, offset);
      if IsUtf8(decoded.0) then Ok((StringValue(decoded.0), decoded.1)) else Err(InvalidUtf8)
  }

  // ---- Messages ----

  predicate AllWellTyped(types: seq<FieldType>, values: seq<Value>) {
    |types| == |values| && forall i :: 0 <= i < |types| ==> WellTyped(types[i], values[i])
  }

  function EncodeFields(values: seq<Value>): seq<byte> {
    if values == [] then [] else EncodeField(values[0]) + EncodeFields(values[1..])
  }

  function DecodeFields(types: seq<FieldType>, buf: seq<byte>, offset: nat): (r: Result<seq<Value>, Error>)
    ensures r.Ok? ==> AllWellTyped(types, r.value)
  {
    if types == [] then Ok([])
    else
      var first :- DecodeField(types[0], buf, offset);
      var rest :- DecodeFields(types[1..], buf, first.1);
      Ok([first.0] + rest)
  }

  function Serialize(c: Constructor, values: seq<Value>): seq<byte> {
    Le(c.id, 4) + EncodeFields(values)
  }

  /** The first constructor with this id: earlier arms of a match win. */
  function Lookup(schema: Schema, id: nat): (k: nat)
    ensures k <= |schema|
    ensures k < |schema| ==> schema[k].id == id
    ensures forall j :: 0 <= j < k ==> schema[j].id != id
  {
    if schema == [] || schema[0].id == id then 0 else 1 + Lookup(schema[1..], id)
  }

  function Dispatch(schema: Schema, data: seq<byte>): Result<Message, Error> {
    if |data| < 4 then Err(TooShort)
    else
      var k := Lookup(schema, FromLe(data[..4]));
      if k == |schema| then Err(UnknownConstructor)
      else
        var values :- DecodeFields(schema[k].fields, data, 4);
        Ok(Message(k, values))
  }

  // ---- The generated code ----

  lemma EncodeFieldsStep(values: seq<Value>, i: nat)
    requires i < |values|
    ensures EncodeFields(values[i..]) == EncodeField(values[i]) + EncodeFields(values[i + 1..])
  {
  }

  method SerializeMessage(c: Constructor, values: seq<Value>) returns (buf: seq<byte>)
    ensures buf == Serialize(c, values)
  {
    buf := Le(c.id, 4);
    assert values[0..] == values;
    for i := 0 to |values|
      invariant buf + EncodeFields(values[i..]) == Serialize(c, values)
    {
      EncodeFieldsStep(values, i);
      Assoc(buf, EncodeField(values[i]), EncodeFields(values[i + 1..]));
      buf := AppendField(buf, values[i]);
    }
  }

  method AppendField(buf: seq<byte>, v: Value) returns (out: seq<byte>)
    ensures out == buf + EncodeField(v)
  {
    match v {
      case IntValue(n) => out := buf + Le(n, 4);
      case LongValue(n) => out := buf + Le(n, 8);
      case BytesValue(data) => out := AppendBytes(buf, data);
      case StringValue(utf8) => out := AppendBytes(buf, utf8);
    }
  }

  method AppendBytes(buf: seq<byte>, data: seq<byte>) returns (out: seq<byte>)
    ensures out == buf + EncodeBytes(data)
  {
    out := buf + Le(|data|, 4);
    out := out + data;
    out := out + Zeros((4 - |data| % 4) % 4);
  }

  method DeserializeMessage(c: Constructor, data: seq<byte>) returns (r: Result<seq<Value>, Error>)
    ensures r == if |data| < 4 then Err(TooShort)
                 else if FromLe(data[..4]) != c.id then Err(UnknownConstructor)
                 else DecodeFields(c.fields, data, 4)
  {
    if |data| < 4 {
      return Err(TooShort);
    }
    if FromLe(data[..4]) != c.id {
      return Err(UnknownConstructor);
    }
    var offset := 4;
    var values := [];
    assert c.fields[0..] == c.fields;
    ExtendNone(DecodeFields(c.fields, data, 4));
    for i := 0 to |c.fields|
      invariant DecodeFields(c.fields, data, 4) == Extend(values, DecodeFields(c.fields[i..], data, offset))
    {
      assert c.fields[i..][1..] == c.fields[i + 1..];
      var field := DecodeField(c.fields[i], data, offset);
      if field.Err? {
        return Err(field.error);
      }
      ExtendMore(values, field.value.0, DecodeFields(c.fields[i + 1..], data, field.value.1));
      values := values + [field.value.0];
      offset := field.value.1;
    }
    assert c.fields[|c.fields|..] == [] && values + [] == values;
    return Ok(values);
  }

  function Extend(values: seq<Value>, r: Result<seq<Value>, Error>): Result<seq<Value>, Error> {
    if r.Ok? then Ok(values + r.value) else r
  }

  lemma ExtendNone(r: Result<seq<Value>, Error>)
    ensures Extend([], r) == r
  {
    if r.Ok? {
      assert [] + r.value == r.value;
    }
  }

  lemma ExtendMore(values: seq<Value>, v: Value, r: Result<seq<Value>, Error>)
    ensures Extend(values, Extend([v], r)) == Extend(values + [v], r)
  {
    if r.Ok? {
      assert values + ([v] + r.value) == values + [v] + r.value;
    }
  }

  // ---- Round trip ----

  lemma BytesRoundTrip(data: seq<byte>, buf: seq<byte>, offset: nat)
    requires |data| < U32_LIMIT && At(buf, offset, EncodeBytes(data))
    ensures DecodeBytes(buf, offset) == Ok((data, offset + |EncodeBytes(data)|))
  {
    AtSplit(buf, offset, Le(|data|, 4) + data, Zeros(Padding(|data|)));
    AtSplit(buf, offset, Le(|data|, 4), data);
    Pow256Values();
    LeRoundTrip(|data|, 4);
  }

  lemma FieldRoundTrip(t: FieldType, v: Value, buf: seq<byte>, offset: nat)
    requires WellTyped(t, v) && At(buf, offset, EncodeField(v))
    ensures DecodeField(t, buf, offset) == Ok((v, offset + |EncodeField(v)|))
  {
    Pow256Values();
    match v
    case IntValue(n) => LeRoundTrip(n, 4);
    case LongValue(n) => LeRoundTrip(n, 8);
    case BytesValue(data) => BytesRoundTrip(data, buf, offset);
    case StringValue(utf8) => BytesRoundTrip(utf8, buf, offset);
  }

  /** Field by field from `offset` on, `buf` decodes to `values`. */
  ghost predicate FieldsRead(types: seq<FieldType>, values: seq<Value>, buf: seq<byte>, offset: nat)
    decreases |types|
  {
    |types| == |values| && (types != [] ==>
      var r := DecodeField(types[0], buf, offset);
      r.Ok? && r.value.0 == values[0] && FieldsRead(types[1..], values[1..], buf, r.value.1))
  }

  lemma FirstReads(types: seq<FieldType>, values: seq<Value>, buf: seq<byte>, offset: nat) returns (next: nat)
    requires types != [] && AllWellTyped(types, values) && At(buf, offset, EncodeFields(values))
    ensures DecodeField(types[0], buf, offset) == Ok((values[0], next))
    ensures At(buf, next, EncodeFields(values[1..]))
  {
    AtSplit(buf, offset, EncodeField(values[0]), EncodeFields(values[1..]));
    FieldRoundTrip(types[0], values[0], buf, offset);
    next := offset + |EncodeField(values[0])|;
  }

  lemma FieldsReadStep(types: seq<FieldType>, values: seq<Value>, buf: seq<byte>, offset: nat, next: nat)
    requires types != [] && |types| == |values|
    requires DecodeField(types[0], buf, offset) == Ok((values[0], next))
    requires FieldsRead(types[1..], values[1..], buf, next)
    ensures FieldsRead(types, values, buf, offset)
  {
  }

  lemma {:induction false} EncodedReads(types: seq<FieldType>, values: seq<Value>, buf: seq<byte>, offset: nat)
    requires AllWellTyped(types, values) && At(buf, offset, EncodeFields(values))
    ensures FieldsRead(types, values, buf, offset)
    decreases |types|
  {
    if types != [] {
      var next := FirstReads(types, values, buf, offset);
      EncodedReads(types[1..], values[1..], buf, next);
      FieldsReadStep(types, values, buf, offset, next);
    }
  }

  lemma {:induction false} ReadDecodes(types: seq<FieldType>, values: seq<Value>, buf: seq<byte>, offset: nat)
    requires FieldsRead(types, values, buf, offset)
    ensures DecodeFields(types, buf, offset) == Ok(values)
    decreases |types|
  {
    if types != [] {
      ReadDecodes(types[1..], values[1..], buf, DecodeField(types[0], buf, offset).value.1);
      HeadTail(values);
    }
  }

  lemma FieldsRoundTrip(types: seq<FieldType>, values: seq<Value>, buf: seq<byte>, offset: nat)
    requires AllWellTyped(types, values) && At(buf, offset, EncodeFields(values))
    ensures DecodeFields(types, buf, offset) == Ok(values)
  {
    EncodedReads(types, values, buf, offset);
    ReadDecodes(types, values, buf, offset);
  }

  lemma SerializedReads(c: Constructor, values: seq<Value>, data: seq<byte>)
    requires c.id < U32_LIMIT && AllWellTyped(c.fields, values) && At(data, 0, Serialize(c, values))
    ensures |data| >= 4 && FromLe(data[..4]) == c.id && DecodeFields(c.fields, data, 4) == Ok(values)
  {
    AtSplit(data, 0, Le(c.id, 4), EncodeFields(values));
    assert data[..4] == data[0..4];
    Pow256Values();
    LeRoundTrip(c.id, 4);
    FieldsRoundTrip(c.fields, values, data, 4);
  }

  /** For every schema and well-typed message, dispatching its bytes, whatever follows them, gives it back exactly
      when no earlier constructor has its id. */
  lemma DispatchRoundTrip(schema: Schema, m: Message, tail: seq<byte>)
    requires m.index < |schema| && schema[m.index].id < U32_LIMIT
    requires AllWellTyped(schema[m.index].fields, m.values)
    ensures Dispatch(schema, Serialize(schema[m.index], m.values) + tail) == Ok(m) <==>
      (forall j :: 0 <= j < m.index ==> schema[j].id != schema[m.index].id)
  {
    var c := schema[m.index];
    AtPrefix(Serialize(c, m.values), tail);
    SerializedReads(c, m.values, Serialize(c, m.values) + tail);
    assert Lookup(schema, c.id) <= m.index;
  }

  // ---- Length ----

  /** The 4-byte words a field takes: padding rounds its bytes up. */
  function Words(v: Value): nat {
    match v
    case IntValue(_) => 1
    case LongValue(_) => 2
    case BytesValue(data) => 1 + (|data| + 3) / 4
    case StringValue(utf8) => 1 + (|utf8| + 3) / 4
  }

  function AllWords(values: seq<Value>): nat {
    if values == [] then 0 else Words(values[0]) + AllWords(values[1..])
  }

  lemma PaddingRounds(length: nat)
    ensures length + Padding(length) == 4 * ((length + 3) / 4)
  {
    var q, r := length / 4, length % 4;
    assert length == 4 * q + r;
    assert r == 0 ==> (length + 3) / 4 == q;
    assert r > 0 ==> (length + 3) / 4 == q + 1;
  }

  lemma BytesLength(data: seq<byte>)
    ensures |EncodeBytes(data)| == 4 * (1 + (|data| + 3) / 4)
  {
    PaddingRounds(|data|);
  }

  lemma {:induction false} FieldsLength(values: seq<Value>)
    ensures |EncodeFields(values)| == 4 * AllWords(values)
  {
    if values != [] {
      FieldsLength(values[1..]);
      match values[0]
      case BytesValue(data) => BytesLength(data);
      case StringValue(utf8) => BytesLength(utf8);
      case _ =>
    }
  }

  /** A serialized message is a whole number of words: one for the id, then those of its fields. */
  lemma SerializedLength(c: Constructor, values: seq<Value>)
    ensures |Serialize(c, values)| == 4 * (1 + AllWords(values))
  {
    FieldsLength(values);
  }

  /** Whatever bytes dispatch accepts, the message it returns re-serializes to bytes it reads the same way. */
  lemma DispatchStable(schema: Schema, data: seq<byte>)
    requires Dispatch(schema, data).Ok?
    ensures var m := Dispatch(schema, data).value;
      && m.index < |schema| && AllWellTyped(schema[m.index].fields, m.values)
      && Dispatch(schema, Serialize(schema[m.index], m.values)) == Ok(m)
  {
    var m := Dispatch(schema, data).value;
    Pow256Values();
    DispatchRoundTrip(schema, m, []);
    assert Serialize(schema[m.index], m.values) + [] == Serialize(schema[m.index], m.values);
  }
}
