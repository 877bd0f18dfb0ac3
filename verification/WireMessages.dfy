/** Descriptor-driven message codec (src/common/serial_struct_define.h) and the six wire messages
    (src/common/serial_struct.h). A message is the sequence of its field values in descriptor order. */
module WireMessages {
  import opened Bytes
  import opened Varint

  datatype Kind = U64 | U32 | U8 | Bool | Text

  datatype Value = Num(n: nat) | Str(s: seq<byte>)

  datatype Field = Field(tag: nat, kind: Kind)

  type Descriptor = seq<Field>

  const MAX_STRING_SIZE: nat := 10 * 1024 * 1024

  const WIRE_VARINT: nat := 0
  const WIRE_LENGTH_DELIMITED: nat := 2

  function WireType(k: Kind): nat
  {
    if k.Text? then WIRE_LENGTH_DELIMITED else WIRE_VARINT
  }

  /** The C++ type of the member holds the value, and a string is one the parser accepts. */
  predicate Fits(v: Value, k: Kind)
  {
    match k
    case U64 => v.Num? && v.n < TWO64
    case U32 => v.Num? && v.n < TWO32
    case U8 => v.Num? && v.n < 256
    case Bool => v.Num? && v.n < 2
    case Text => v.Str? && |v.s| <= MAX_STRING_SIZE
  }

  /** Field tags are positive, distinct, and leave room for the wire type in a uint32_t key. */
  ghost predicate ValidDescriptor(desc: Descriptor)
  {
    && (forall i :: 0 <= i < |desc| ==> 0 < desc[i].tag < 0x1000_0000)
    && (forall i, j :: 0 <= i < j < |desc| ==> desc[i].tag != desc[j].tag)
  }

  /** A target struct of the descriptor's type, with whatever it held before. */
  predicate Shaped(desc: Descriptor, vals: seq<Value>)
  {
    |vals| == |desc| && forall i :: 0 <= i < |desc| ==> vals[i].Str? == desc[i].kind.Text?
  }

  predicate AllFit(desc: Descriptor, vals: seq<Value>)
  {
    |vals| == |desc| && forall i :: 0 <= i < |desc| ==> Fits(vals[i], desc[i].kind)
  }

  // ------------------------------------------------------------ writing

  function Body(v: Value): seq<byte>
  {
    match v
    case Num(n) => Encode(n)
    case Str(s) => Encode(|s|) + s
  }

  function EncodeField(f: Field, v: Value): seq<byte>
  {
    Encode(8 * f.tag + WireType(f.kind)) + Body(v)
  }

  /** What WriteMessage appends for the fields from index i on. */
  function SerializeFrom(desc: Descriptor, vals: seq<Value>, i: nat): seq<byte>
    requires |vals| == |desc| && i <= |desc|
    decreases |desc| - i
  {
    if i == |desc| then [] else EncodeField(desc[i], vals[i]) + SerializeFrom(desc, vals, i + 1)
  }

  function Serialize(desc: Descriptor, vals: seq<Value>): seq<byte>
    requires |vals| == |desc|
  {
    SerializeFrom(desc, vals, 0)
  }

  method WriteField(f: Field, v: Value, out: seq<byte>) returns (out': seq<byte>)
    requires Fits(v, f.kind) && f.tag < 0x1000_0000
    ensures out' == out + EncodeField(f, v)
  {
    var key := WriteVarint(8 * f.tag + WireType(f.kind), W32);
    out' := out + key;
    if f.kind.Text? {
      var size := WriteVarint(|v.s|, W64);
      out' := out' + size + v.s;
    } else {
      var body := WriteVarint(v.n, if f.kind.U64? then W64 else W32);
      out' := out' + body;
    }
  }

  /** `out` and what the fields from index i on add make up the serialization. */
  ghost predicate WrittenTo(desc: Descriptor, vals: seq<Value>, i: nat, out: seq<byte>)
    requires |vals| == |desc|
  {
    i <= |desc| && out + SerializeFrom(desc, vals, i) == Serialize(desc, vals)
  }

  lemma WrittenNext(desc: Descriptor, vals: seq<Value>, i: nat, out: seq<byte>, out': seq<byte>)
    requires |vals| == |desc| && i < |desc| && WrittenTo(desc, vals, i, out)
    requires out' == out + EncodeField(desc[i], vals[i])
    ensures WrittenTo(desc, vals, i + 1, out')
  {
    Associative(out, EncodeField(desc[i], vals[i]), SerializeFrom(desc, vals, i + 1));
  }

  lemma WrittenEnds(desc: Descriptor, vals: seq<Value>)
    requires |vals| == |desc|
    ensures WrittenTo(desc, vals, 0, [])
    ensures forall out :: WrittenTo(desc, vals, |desc|, out) ==> out == Serialize(desc, vals)
  {
    assert [] + SerializeFrom(desc, vals, 0) == Serialize(desc, vals);
    forall out | WrittenTo(desc, vals, |desc|, out) ensures out == Serialize(desc, vals) {
      assert out + [] == out;
    }
  }

  /** The visitor loop of WriteMessage over a StringWriter. */
  method WriteMessage(desc: Descriptor, vals: seq<Value>) returns (out: seq<byte>)
    requires ValidDescriptor(desc) && AllFit(desc, vals)
    ensures out == Serialize(desc, vals)
  {
    out := [];
    var i := 0;
    WrittenEnds(desc, vals);
    while i < |desc|
      invariant 0 <= i <= |desc| && WrittenTo(desc, vals, i, out)
    {
      var out' := WriteField(desc[i], vals[i], out);
      WrittenNext(desc, vals, i, out, out');
      out, i := out', i + 1;
    }
  }

  // Writing the same message through WriterSizeCollector only adds up sizes.

  function VarintSize(v: nat): nat
  {
    if v < 128 then 1 else 1 + VarintSize(v / 128)
  }

  function CollectedFrom(desc: Descriptor, vals: seq<Value>, i: nat): nat
    requires |vals| == |desc| && i <= |desc|
    decreases |desc| - i
  {
    if i == |desc| then 0
    else
      VarintSize(8 * desc[i].tag + WireType(desc[i].kind))
      + (match vals[i] case Num(n) => VarintSize(n) case Str(s) => VarintSize(|s|) + |s|)
      + CollectedFrom(desc, vals, i + 1)
  }

  lemma {:induction false} VarintSizeIsLength(v: nat)
    ensures VarintSize(v) == |Encode(v)|
  {
    if v >= 128 {
      VarintSizeIsLength(v / 128);
    }
  }

  /** The size collector predicts exactly the number of bytes the string writer produces. */
  lemma {:induction false} CollectedSizeIsLength(desc: Descriptor, vals: seq<Value>, i: nat)
    requires |vals| == |desc| && i <= |desc|
    ensures CollectedFrom(desc, vals, i) == |SerializeFrom(desc, vals, i)|
    decreases |desc| - i
  {
    if i < |desc| {
      VarintSizeIsLength(8 * desc[i].tag + WireType(desc[i].kind));
      match vals[i] {
        case Num(n) => VarintSizeIsLength(n);
        case Str(s) => VarintSizeIsLength(|s|);
      }
      CollectedSizeIsLength(desc, vals, i + 1);
    }
  }

  // ------------------------------------------------------------ parsing

  datatype FieldRead = FieldRead(value: Value, rest: seq<byte>)

  /** `value.resize(size)` followed by a read that may come up short. */
  function Overlay(prior: seq<byte>, size: nat, read: seq<byte>): (r: seq<byte>)
    requires |read| <= size
    ensures |r| == size
    ensures |read| == size ==> r == read
  {
    var kept := prior[Min(|read|, |prior|)..Min(size, |prior|)];
    read + kept + Zeros(size - |read| - |kept|)
  }

  /** Serializer<T>::Parse: what is left in the member and in the reader, on success or failure. */
  function ParseValue(k: Kind, wire: nat, prior: Value, s: seq<byte>): (r: FieldRead)
    requires prior.Str? == k.Text?
    ensures |r.rest| <= |s|
    ensures r.value.Str? == k.Text?
  {
    if wire != WireType(k) then FieldRead(prior, s)
    else match k
      case U64 => var d := Decode(s, W64); FieldRead(Num(d.value), d.rest)
      case U32 => var d := Decode(s, W32); FieldRead(Num(d.value), d.rest)
      case U8 => var d := Decode(s, W32); FieldRead(if d.ok then Num(d.value % 256) else prior, d.rest)
      case Bool => var d := Decode(s, W32);
                   FieldRead(if d.ok then Num(if d.value != 0 then 1 else 0) else prior, d.rest)
      case Text =>
        var d := Decode(s, W64);
        if !d.ok || d.value > MAX_STRING_SIZE then FieldRead(prior, d.rest)
        else
          var n := Min(d.value, |d.rest|);
          FieldRead(Str(Overlay(prior.s, d.value, d.rest[..n])), d.rest[n..])
  }

  datatype MessageRead = MessageRead(vals: seq<Value>, rest: seq<byte>)

  /** The visitor of ReadMessage: every field from index i on whose tag matches parses in turn. */
  function VisitFrom(desc: Descriptor, vals: seq<Value>, tag: nat, wire: nat, s: seq<byte>, i: nat): (r: MessageRead)
    requires Shaped(desc, vals) && i <= |desc|
    ensures Shaped(desc, r.vals) && |r.rest| <= |s|
    decreases |desc| - i
  {
    if i == |desc| then MessageRead(vals, s)
    else if desc[i].tag != tag then VisitFrom(desc, vals, tag, wire, s, i + 1)
    else
      var r := ParseValue(desc[i].kind, wire, vals[i], s);
      VisitFrom(desc, vals[i := r.value], tag, wire, r.rest, i + 1)
  }

  /** ReadMessage: keys are read until one cannot be; parse failures of a field are ignored. */
  function Parse(desc: Descriptor, vals: seq<Value>, s: seq<byte>): (r: seq<Value>)
    requires Shaped(desc, vals)
    ensures Shaped(desc, r)
    decreases |s|
  {
    var key := Decode(s, W32);
    if !key.ok then vals
    else
      var r := VisitFrom(desc, vals, key.value / 8, key.value % 8, key.rest, 0);
      Parse(desc, r.vals, r.rest)
  }

  lemma ParseBody(k: Kind, v: Value, prior: Value, rest: seq<byte>)
    requires Fits(v, k) && prior.Str? == k.Text?
    ensures ParseValue(k, WireType(k), prior, Body(v) + rest) == FieldRead(v, rest)
  {
    match v
    case Num(n) =>
      DecodeEncode(n, if k.U64? then W64 else W32, rest);
    case Str(s) =>
      DecodeEncode(|s|, W64, s + rest);
      assert Body(v) + rest == Encode(|s|) + (s + rest);
      assert (s + rest)[..|s|] == s;
      assert (s + rest)[|s|..] == rest;
  }

  lemma {:induction false} VisitOnly(desc: Descriptor, vals: seq<Value>, wire: nat, s: seq<byte>, j: nat, i: nat)
    requires ValidDescriptor(desc) && Shaped(desc, vals) && i <= |desc| && j < |desc|
    ensures
      var r := ParseValue(desc[j].kind, wire, vals[j], s);
      VisitFrom(desc, vals, desc[j].tag, wire, s, i)
      == if i <= j then MessageRead(vals[j := r.value], r.rest) else MessageRead(vals, s)
    decreases |desc| - i
  {
    if i < |desc| {
      if i == j {
        var r := ParseValue(desc[j].kind, wire, vals[j], s);
        VisitOnly(desc, vals[j := r.value], wire, r.rest, j, i + 1);
      } else {
        VisitOnly(desc, vals, wire, s, j, i + 1);
      }
    }
  }

  /** One encoded field, at the head of any input, overwrites exactly its own member. */
  lemma ParseOneField(desc: Descriptor, vals: seq<Value>, j: nat, v: Value, rest: seq<byte>)
    requires ValidDescriptor(desc) && Shaped(desc, vals) && j < |desc| && Fits(v, desc[j].kind)
    ensures Parse(desc, vals, EncodeField(desc[j], v) + rest) == Parse(desc, vals[j := v], rest)
  {
    var f := desc[j];
    var key := 8 * f.tag + WireType(f.kind);
    assert EncodeField(f, v) + rest == Encode(key) + (Body(v) + rest);
    DecodeEncode(key, W32, Body(v) + rest);
    assert key / 8 == f.tag && key % 8 == WireType(f.kind);
    VisitOnly(desc, vals, WireType(f.kind), Body(v) + rest, j, 0);
    ParseBody(f.kind, v, vals[j], rest);
  }

  lemma {:induction false} VisitUnknown(desc: Descriptor, vals: seq<Value>, wire: nat, s: seq<byte>, i: nat)
    requires ValidDescriptor(desc) && Shaped(desc, vals) && i <= |desc|
    ensures VisitFrom(desc, vals, 0, wire, s, i) == MessageRead(vals, s)
    decreases |desc| - i
  {
    if i < |desc| {
      VisitUnknown(desc, vals, wire, s, i + 1);
    }
  }

  /** Zero bytes are keys of the unused tag 0 and change nothing. */
  lemma {:induction false} ParseZeros(desc: Descriptor, vals: seq<Value>, pad: nat)
    requires ValidDescriptor(desc) && Shaped(desc, vals)
    ensures Parse(desc, vals, Zeros(pad)) == vals
  {
    if pad > 0 {
      assert Zeros(pad) == Encode(0) + Zeros(pad - 1);
      DecodeEncode(0, W32, Zeros(pad - 1));
      VisitUnknown(desc, vals, 0, Zeros(pad - 1), 0);
      ParseZeros(desc, vals, pad - 1);
    }
  }

  // Fields may arrive in any order and any number of times: the last one wins.

  datatype Entry = Entry(index: nat, value: Value)

  ghost predicate ValidEntries(desc: Descriptor, es: seq<Entry>)
  {
    forall k :: 0 <= k < |es| ==> es[k].index < |desc| && Fits(es[k].value, desc[es[k].index].kind)
  }

  function EncodeEntries(desc: Descriptor, es: seq<Entry>): seq<byte>
    requires forall k :: 0 <= k < |es| ==> es[k].index < |desc|
  {
    if es == [] then [] else EncodeField(desc[es[0].index], es[0].value) + EncodeEntries(desc, es[1..])
  }

  function Assign(vals: seq<Value>, es: seq<Entry>): (r: seq<Value>)
    requires forall k :: 0 <= k < |es| ==> es[k].index < |vals|
    ensures |r| == |vals|
    decreases |es|
  {
    if es == [] then vals else Assign(vals[es[0].index := es[0].value], es[1..])
  }

  /** Main parsing theorem: any sequence of encoded fields followed by any zero padding, parsed
      into a struct holding anything, assigns the fields in order. */
  lemma {:induction false} ParseEntries(desc: Descriptor, vals: seq<Value>, es: seq<Entry>, pad: nat)
    requires ValidDescriptor(desc) && Shaped(desc, vals) && ValidEntries(desc, es)
    ensures Parse(desc, vals, EncodeEntries(desc, es) + Zeros(pad)) == Assign(vals, es)
    decreases |es|
  {
    if es == [] {
      assert EncodeEntries(desc, es) + Zeros(pad) == Zeros(pad);
      ParseZeros(desc, vals, pad);
    } else {
      var first := EncodeField(desc[es[0].index], es[0].value);
      var tail := EncodeEntries(desc, es[1..]) + Zeros(pad);
      assert EncodeEntries(desc, es) + Zeros(pad) == first + tail;
      ParseOneField(desc, vals, es[0].index, es[0].value, tail);
      ParseEntries(desc, vals[es[0].index := es[0].value], es[1..], pad);
    }
  }

  function EntriesFrom(vals: seq<Value>, i: nat): (es: seq<Entry>)
    requires i <= |vals|
    ensures forall k :: 0 <= k < |es| ==> es[k].index < |vals| && es[k].value == vals[es[k].index]
    decreases |vals| - i
  {
    if i == |vals| then [] else [Entry(i, vals[i])] + EntriesFrom(vals, i + 1)
  }

  lemma EncodeMore(desc: Descriptor, e: Entry, es: seq<Entry>)
    requires e.index < |desc| && forall k :: 0 <= k < |es| ==> es[k].index < |desc|
    ensures EncodeEntries(desc, [e] + es) == EncodeField(desc[e.index], e.value) + EncodeEntries(desc, es)
  {
    assert ([e] + es)[0] == e && ([e] + es)[1..] == es;
  }

  lemma {:induction false} SerializeIsEntries(desc: Descriptor, vals: seq<Value>, i: nat)
    requires |vals| == |desc| && i <= |desc|
    ensures SerializeFrom(desc, vals, i) == EncodeEntries(desc, EntriesFrom(vals, i))
    decreases |desc| - i
  {
    if i < |desc| {
      SerializeIsEntries(desc, vals, i + 1);
      EncodeMore(desc, Entry(i, vals[i]), EntriesFrom(vals, i + 1));
    }
  }

  lemma {:induction false} AssignAll(prior: seq<Value>, vals: seq<Value>, i: nat)
    requires |prior| == |vals| && i <= |vals| && prior[..i] == vals[..i]
    ensures Assign(prior, EntriesFrom(vals, i)) == vals
    decreases |vals| - i
  {
    if i < |vals| {
      assert EntriesFrom(vals, i)[1..] == EntriesFrom(vals, i + 1);
      assert prior[i := vals[i]][..i + 1] == vals[..i + 1];
      AssignAll(prior[i := vals[i]], vals, i + 1);
    }
  }

  /** SerializeToString then ParseFromString is the identity, whatever the target struct held
      before and however many zero bytes follow. */
  lemma RoundTrip(desc: Descriptor, vals: seq<Value>, prior: seq<Value>, pad: nat)
    requires ValidDescriptor(desc) && AllFit(desc, vals) && Shaped(desc, prior)
    ensures Parse(desc, prior, Serialize(desc, vals) + Zeros(pad)) == vals
  {
    SerializeIsEntries(desc, vals, 0);
    ParseEntries(desc, prior, EntriesFrom(vals, 0), pad);
    AssignAll(prior, vals, 0);
  }

  // ------------------------------------------------------------ the reading loops

  method ReadValue(k: Kind, wire: nat, prior: Value, r: StringReader) returns (v: Value)
    requires r.Valid() && prior.Str? == k.Text?
    modifies r
    ensures r.Valid()
    ensures FieldRead(v, r.Rest()) == ParseValue(k, wire, prior, old(r.Rest()))
  {
    v := prior;
    if wire == WireType(k) {
      var ok, n := r.ReadVarint(if k.U64? || k.Text? then W64 else W32);
      match k
      case U64 => v := Num(n);
      case U32 => v := Num(n);
      case U8 => if ok { v := Num(n % 256); }
      case Bool => if ok { v := Num(if n != 0 then 1 else 0); }
      case Text =>
        if ok && n <= MAX_STRING_SIZE {
          var bytes := r.Read(n);
          v := Str(Overlay(prior.s, n, bytes));
        }
    }
  }

  method VisitFields(desc: Descriptor, vals: seq<Value>, tag: nat, wire: nat, r: StringReader)
    returns (vals': seq<Value>)
    requires r.Valid() && Shaped(desc, vals)
    modifies r
    ensures r.Valid()
    ensures MessageRead(vals', r.Rest()) == VisitFrom(desc, vals, tag, wire, old(r.Rest()), 0)
  {
    vals' := vals;
    var i := 0;
    while i < |desc|
      invariant r.Valid() && 0 <= i <= |desc| && Shaped(desc, vals')
      invariant VisitFrom(desc, vals', tag, wire, r.Rest(), i) == VisitFrom(desc, vals, tag, wire, old(r.Rest()), 0)
    {
      if desc[i].tag == tag {
        var v := ReadValue(desc[i].kind, wire, vals'[i], r);
        vals' := vals'[i := v];
      }
      i := i + 1;
    }
  }

  /** One iteration of ReadMessage. */
  method ReadKeyedField(desc: Descriptor, vals: seq<Value>, r: StringReader) returns (more: bool, vals': seq<Value>)
    requires r.Valid() && Shaped(desc, vals)
    modifies r
    ensures r.Valid() && Shaped(desc, vals')
    ensures more ==> |r.Rest()| < |old(r.Rest())|
    ensures Parse(desc, vals, old(r.Rest())) == if more then Parse(desc, vals', r.Rest()) else vals'
  {
    vals' := vals;
    var key;
    more, key := r.ReadVarint(W32);
    if more {
      vals' := VisitFields(desc, vals, key / 8, key % 8, r);
    }
  }

  method ReadMessage(desc: Descriptor, vals: seq<Value>, input: seq<byte>) returns (vals': seq<Value>)
    requires Shaped(desc, vals)
    ensures vals' == Parse(desc, vals, input)
  {
    var r := new StringReader(input);
    vals' := vals;
    var more := true;
    while more
      invariant r.Valid() && Shaped(desc, vals')
      invariant Parse(desc, vals, input) == if more then Parse(desc, vals', r.Rest()) else vals'
      decreases more, |r.Rest()|
    {
      more, vals' := ReadKeyedField(desc, vals', r);
    }
  }

  // ------------------------------------------------------------ the six wire messages

  const TRANSFER_CONFIG: Descriptor := [
    Field(1, U64), Field(2, U64), Field(3, U64), Field(4, Text), Field(5, Text), Field(6, Text), Field(7, Bool),
    Field(8, U8), Field(9, Bool), Field(10, Text), Field(11, Text), Field(12, Text), Field(13, Text)]

  const FILE_MODE: Descriptor := [Field(1, U64), Field(2, U64), Field(3, U64), Field(4, Text), Field(5, Text)]

  const TRANSFER_PAYLOAD: Descriptor := [Field(1, U64), Field(2, U8), Field(3, U32), Field(4, U32)]

  const SESSION_HANDSHAKE: Descriptor := [
    Field(1, Text), Field(2, U8), Field(3, U32), Field(4, Text), Field(5, Text), Field(6, Text)]

  const PAYLOAD_PROTECT: Descriptor := [Field(1, U32), Field(2, U32), Field(3, U8), Field(4, U8)]

  const HEARTBEAT_MSG: Descriptor := [Field(1, U64), Field(2, Text)]

  const WIRE_MESSAGES: seq<Descriptor> := [
    TRANSFER_CONFIG, FILE_MODE, TRANSFER_PAYLOAD, SESSION_HANDSHAKE, PAYLOAD_PROTECT, HEARTBEAT_MSG]

  /** serial_struct.h numbers the fields of every message 1, 2, 3, ... */
  predicate Numbered(desc: Descriptor)
  {
    |desc| < 16 && forall i :: 0 <= i < |desc| ==> desc[i].tag == i + 1
  }

  lemma DescriptorsValid(m: nat)
    requires m < |WIRE_MESSAGES|
    ensures ValidDescriptor(WIRE_MESSAGES[m])
  {
    assert Numbered(WIRE_MESSAGES[m]);
  }

  /** Every shipped message survives the wire. */
  lemma WireMessageRoundTrip(m: nat, vals: seq<Value>, prior: seq<Value>, pad: nat)
    requires m < |WIRE_MESSAGES|
    requires AllFit(WIRE_MESSAGES[m], vals) && Shaped(WIRE_MESSAGES[m], prior)
    ensures Parse(WIRE_MESSAGES[m], prior, Serialize(WIRE_MESSAGES[m], vals) + Zeros(pad)) == vals
  {
    DescriptorsValid(m);
    RoundTrip(WIRE_MESSAGES[m], vals, prior, pad);
  }

  // ------------------------------------------------------------ the bytes of a message

  /** A number under field k: the key with wire type 0, and the digits. */
  function NumPart(k: nat, n: nat): seq<byte>
    requires 0 < k < 16
  {
    [8 * k] + Encode(n)
  }

  /** A text under field k: the key with wire type 2, the length and the characters. */
  function TextPart(k: nat, s: seq<byte>): seq<byte>
    requires 0 < k < 16
  {
    [8 * k + 2] + Encode(|s|) + s
  }

  function PartOf(k: nat, v: Value): seq<byte>
    requires 0 < k < 16
  {
    match v
    case Num(n) => NumPart(k, n)
    case Str(s) => TextPart(k, s)
  }

  lemma FieldIsPart(f: Field, v: Value)
    requires 0 < f.tag < 16 && v.Str? == f.kind.Text?
    ensures EncodeField(f, v) == PartOf(f.tag, v)
  {
    assert Encode(8 * f.tag + WireType(f.kind)) == [8 * f.tag + WireType(f.kind)];
  }

  lemma {:induction false} LayoutFrom(desc: Descriptor, vals: seq<Value>, parts: seq<seq<byte>>, i: nat)
    requires Numbered(desc) && Shaped(desc, vals) && |parts| == |vals| && i <= |desc|
    requires forall j :: 0 <= j < |vals| ==> parts[j] == PartOf(j + 1, vals[j])
    ensures SerializeFrom(desc, vals, i) == Concat(parts[i..])
    decreases |desc| - i
  {
    if i < |desc| {
      FieldIsPart(desc[i], vals[i]);
      LayoutFrom(desc, vals, parts, i + 1);
      assert parts[i..][1..] == parts[i + 1..];
    }
  }

  /** The serialization of a message is its fields one after another, whichever the six. */
  lemma Layout(desc: Descriptor, vals: seq<Value>, parts: seq<seq<byte>>)
    requires Numbered(desc) && Shaped(desc, vals) && |parts| == |vals|
    requires forall j :: 0 <= j < |vals| ==> parts[j] == PartOf(j + 1, vals[j])
    ensures Serialize(desc, vals) == Concat(parts)
  {
    LayoutFrom(desc, vals, parts, 0);
    assert parts[0..] == parts;
  }

  lemma ParseNothing(desc: Descriptor, vals: seq<Value>)
    requires Shaped(desc, vals)
    ensures Parse(desc, vals, []) == vals
  {
  }

  /** A lone field sets the member of its number and no other. */
  lemma LoneField(desc: Descriptor, prior: seq<Value>, k: nat, v: Value)
    requires Numbered(desc) && Shaped(desc, prior) && 0 < k <= |desc| && Fits(v, desc[k - 1].kind)
    ensures Parse(desc, prior, PartOf(k, v)) == prior[k - 1 := v]
  {
    FieldIsPart(desc[k - 1], v);
    assert PartOf(k, v) + [] == PartOf(k, v);
    ParseOneField(desc, prior, k - 1, v, []);
    ParseNothing(desc, prior[k - 1 := v]);
  }

  lemma KeyByte(b: byte, rest: seq<byte>)
    requires b < 128
    ensures Decode([b] + rest, W32) == VarintRead(true, b, rest)
  {
    assert Encode(b) == [b];
    DecodeEncode(b, W32, rest);
  }

  /** A key at the head of the input, and what is done with the bytes behind it. */
  lemma KeyRead(desc: Descriptor, vals: seq<Value>, k: nat, wire: nat, rest: seq<byte>)
    requires Numbered(desc) && Shaped(desc, vals) && 0 < k <= |desc| && wire < 8
    ensures var r := ParseValue(desc[k - 1].kind, wire, vals[k - 1], rest);
      Parse(desc, vals, [8 * k + wire] + rest) == Parse(desc, vals[k - 1 := r.value], r.rest)
  {
    KeyByte(8 * k + wire, rest);
    assert (8 * k + wire) / 8 == k && (8 * k + wire) % 8 == wire;
    VisitOnly(desc, vals, wire, rest, k - 1, 0);
  }

  lemma KeyThen(desc: Descriptor, vals: seq<Value>, k: nat, wire: nat, rest: seq<byte>, v: Value, next: seq<byte>)
    requires Numbered(desc) && Shaped(desc, vals) && 0 < k <= |desc| && wire < 8
    requires ParseValue(desc[k - 1].kind, wire, vals[k - 1], rest) == FieldRead(v, next)
    ensures Parse(desc, vals, [8 * k + wire] + rest) == Parse(desc, vals[k - 1 := v], next)
  {
    KeyRead(desc, vals, k, wire, rest);
  }

  /** What a member of a kind keeps of a number: one byte its low eight bits, a bool whether it is not zero. */
  function Cut(k: Kind, n: nat): nat
  {
    match k
    case U8 => n % 256
    case Bool => if n == 0 then 0 else 1
    case _ => n
  }

  lemma ParseWide(k: Kind, prior: Value, n: nat, rest: seq<byte>)
    requires !k.Text? && prior.Num? && n < TWO32
    ensures ParseValue(k, 0, prior, Encode(n) + rest) == FieldRead(Num(Cut(k, n)), rest)
  {
    DecodeEncode(n, W32, rest);
    DecodeEncode(n, W64, rest);
  }

  /** A number too large for its member is cut. */
  lemma WideNumber(desc: Descriptor, vals: seq<Value>, k: nat, n: nat, rest: seq<byte>)
    requires Numbered(desc) && Shaped(desc, vals) && 0 < k <= |desc| && n < TWO32 && !desc[k - 1].kind.Text?
    ensures Parse(desc, vals, NumPart(k, n) + rest) == Parse(desc, vals[k - 1 := Num(Cut(desc[k - 1].kind, n))], rest)
  {
    ParseWide(desc[k - 1].kind, vals[k - 1], n, rest);
    KeyThen(desc, vals, k, 0, Encode(n) + rest, Num(Cut(desc[k - 1].kind, n)), rest);
    assert NumPart(k, n) + rest == [8 * k + 0] + (Encode(n) + rest);
  }

  lemma {:induction false} VisitNone(desc: Descriptor, vals: seq<Value>, tag: nat, wire: nat, s: seq<byte>, i: nat)
    requires Numbered(desc) && Shaped(desc, vals) && i <= |desc| && (tag == 0 || tag > |desc|)
    ensures VisitFrom(desc, vals, tag, wire, s, i) == MessageRead(vals, s)
    decreases |desc| - i
  {
    if i < |desc| {
      VisitNone(desc, vals, tag, wire, s, i + 1);
    }
  }

  /** Only the key is skipped of a field of an unknown number: what is behind it is read as the next key. */
  lemma UnknownKey(desc: Descriptor, vals: seq<Value>, tag: nat, wire: nat, rest: seq<byte>)
    requires Numbered(desc) && Shaped(desc, vals) && tag < 16 && wire < 8 && (tag == 0 || tag > |desc|)
    ensures Parse(desc, vals, [8 * tag + wire] + rest) == Parse(desc, vals, rest)
  {
    KeyByte(8 * tag + wire, rest);
    assert (8 * tag + wire) / 8 == tag && (8 * tag + wire) % 8 == wire;
    VisitNone(desc, vals, tag, wire, rest, 0);
  }

  lemma KeySkipped(desc: Descriptor, vals: seq<Value>, k: nat, wire: nat, rest: seq<byte>, next: seq<byte>, same: seq<Value>)
    requires Numbered(desc) && Shaped(desc, vals) && 0 < k <= |desc| && wire < 8 && same == vals
    requires ParseValue(desc[k - 1].kind, wire, vals[k - 1], rest) == FieldRead(vals[k - 1], next)
    ensures Parse(desc, vals, [8 * k + wire] + rest) == Parse(desc, same, next)
  {
    assert same == vals[k - 1 := vals[k - 1]];
    KeyThen(desc, vals, k, wire, rest, vals[k - 1], next);
  }

  /** And of a field of another wire type. */
  lemma OtherWire(desc: Descriptor, vals: seq<Value>, k: nat, wire: nat, rest: seq<byte>)
    requires Numbered(desc) && Shaped(desc, vals) && 0 < k <= |desc| && wire < 8
    requires wire != if desc[k - 1].kind.Text? then 2 else 0
    ensures Parse(desc, vals, [8 * k + wire] + rest) == Parse(desc, vals, rest)
  {
    OtherWireValue(desc[k - 1].kind, wire, vals[k - 1], rest);
    KeySkipped(desc, vals, k, wire, rest, rest, vals);
  }

  lemma OtherWireValue(kind: Kind, wire: nat, prior: Value, rest: seq<byte>)
    requires prior.Str? == kind.Text? && wire != if kind.Text? then 2 else 0
    ensures ParseValue(kind, wire, prior, rest) == FieldRead(prior, rest)
  {
  }

  lemma ParseLong(prior: Value, n: nat, rest: seq<byte>)
    requires prior.Str? && 10485760 < n < TWO64
    ensures ParseValue(Text, 2, prior, Encode(n) + rest) == FieldRead(prior, rest)
  {
    DecodeEncode(n, W64, rest);
  }

  /** A text that says it is longer than 10 MiB is skipped with its length. */
  lemma LongText(desc: Descriptor, vals: seq<Value>, k: nat, n: nat, rest: seq<byte>)
    requires Numbered(desc) && Shaped(desc, vals) && 0 < k <= |desc| && desc[k - 1].kind.Text? && 10485760 < n < TWO64
    ensures Parse(desc, vals, [8 * k + 2] + (Encode(n) + rest)) == Parse(desc, vals, rest)
  {
    ParseLong(vals[k - 1], n, rest);
    KeySkipped(desc, vals, k, 2, Encode(n) + rest, rest, vals);
  }

  lemma ParseCut(prior: Value, n: nat, rest: seq<byte>)
    requires prior.Str? && |rest| <= n <= 10485760
    ensures ParseValue(Text, 2, prior, Encode(n) + rest) == FieldRead(Str(Overlay(prior.s, n, rest)), [])
  {
    DecodeEncode(n, W64, rest);
    assert rest[..|rest|] == rest && rest[|rest|..] == [];
  }

  lemma OverlayIs(prior: seq<byte>, n: nat, rest: seq<byte>, t: seq<byte>)
    requires |rest| <= n && |t| == n
    requires forall i :: 0 <= i < n ==> t[i] == if i < |rest| then rest[i] else if i < |prior| then prior[i] else 0
    ensures Overlay(prior, n, rest) == t
  {
  }

  /** A text whose end is missing takes the length it says: the bytes that are there, then what the member
      held at those places, then zeros. */
  lemma CutText(desc: Descriptor, vals: seq<Value>, k: nat, n: nat, rest: seq<byte>, t: seq<byte>)
    requires Numbered(desc) && Shaped(desc, vals) && 0 < k <= |desc| && desc[k - 1].kind.Text?
    requires |rest| <= n <= 10485760 && |t| == n
    requires forall i :: 0 <= i < n ==>
      t[i] == if i < |rest| then rest[i] else if i < |vals[k - 1].s| then vals[k - 1].s[i] else 0
    ensures Parse(desc, vals, [8 * k + 2] + (Encode(n) + rest)) == vals[k - 1 := Str(t)]
  {
    ParseCut(vals[k - 1], n, rest);
    OverlayIs(vals[k - 1].s, n, rest, t);
    KeyThen(desc, vals, k, 2, Encode(n) + rest, Str(t), []);
    ParseNothing(desc, vals[k - 1 := Str(t)]);
  }

  datatype TransferPayload = TransferPayload(index: nat, compressType: nat, compressSize: nat, uncompressSize: nat) {
    predicate Fits() {
      index < TWO64 && compressType < 256 && compressSize < TWO32 && uncompressSize < TWO32
    }
    function Values(): seq<Value> {
      [Num(index), Num(compressType), Num(compressSize), Num(uncompressSize)]
    }
    function ToBytes(): seq<byte> {
      Serialize(TRANSFER_PAYLOAD, Values())
    }
  }

  /** ParseFromString into a zeroed struct, as RecvIOPayload does. */
  function ParseTransferPayload(s: seq<byte>): TransferPayload
  {
    var v := Parse(TRANSFER_PAYLOAD, [Num(0), Num(0), Num(0), Num(0)], s);
    assert v[0].Num? && v[1].Num? && v[2].Num? && v[3].Num?;
    TransferPayload(v[0].n, v[1].n, v[2].n, v[3].n)
  }

  /** Which member travels under which number. */
  lemma TransferPayloadBytes(p: TransferPayload)
    ensures p.ToBytes() ==
      [0x08] + Encode(p.index) + [0x10] + Encode(p.compressType) + [0x18] + Encode(p.compressSize) + [0x20] + Encode(p.uncompressSize)
  {
    Layout(TRANSFER_PAYLOAD, p.Values(),
           [NumPart(1, p.index), NumPart(2, p.compressType), NumPart(3, p.compressSize), NumPart(4, p.uncompressSize)]);
    FourNumbers(p.index, p.compressType, p.compressSize, p.uncompressSize);
  }

  lemma FourNumbers(a: nat, b: nat, c: nat, d: nat)
    ensures Concat([NumPart(1, a), NumPart(2, b), NumPart(3, c), NumPart(4, d)]) ==
      [0x08] + Encode(a) + [0x10] + Encode(b) + [0x18] + Encode(c) + [0x20] + Encode(d)
  {
    FourParts(NumPart(1, a), NumPart(2, b), NumPart(3, c), NumPart(4, d));
    Associative(NumPart(1, a), [0x10], Encode(b));
    Associative(NumPart(1, a) + [0x10] + Encode(b), [0x18], Encode(c));
    Associative(NumPart(1, a) + [0x10] + Encode(b) + [0x18] + Encode(c), [0x20], Encode(d));
  }

  lemma ConcatMore(a: seq<byte>, rest: seq<seq<byte>>)
    ensures Concat([a] + rest) == a + Concat(rest)
  {
    assert ([a] + rest)[1..] == rest;
  }

  lemma FourParts(a: seq<byte>, b: seq<byte>, c: seq<byte>, d: seq<byte>)
    ensures Concat([a, b, c, d]) == a + b + c + d
  {
    ConcatMore(d, []);
    ConcatMore(c, [d]);
    ConcatMore(b, [c, d]);
    ConcatMore(a, [b, c, d]);
    assert [d] == [d] + [] && [c, d] == [c] + [d] && [b, c, d] == [b] + [c, d] && [a, b, c, d] == [a] + [b, c, d];
    assert Concat([d]) == d + [] == d;
    Associative(a, b, c + d);
    Associative(a + b, c, d);
  }

  /** And which member a lone field sets when it is read. */
  lemma TransferPayloadMember(k: nat, n: nat)
    requires 0 < k <= 4 && n < if k == 1 then TWO64 else if k == 2 then 256 else if k == 3 then TWO32 else TWO32
    ensures ParseTransferPayload([8 * k] + Encode(n)) ==
      TransferPayload(if k == 1 then n else 0, if k == 2 then n else 0, if k == 3 then n else 0, if k == 4 then n else 0)
  {
    LoneField(TRANSFER_PAYLOAD, [Num(0), Num(0), Num(0), Num(0)], k, Num(n));
  }

  lemma TransferPayloadRoundTrip(p: TransferPayload, pad: nat)
    requires p.Fits()
    ensures ParseTransferPayload(p.ToBytes() + Zeros(pad)) == p
  {
    assert ValidDescriptor(TRANSFER_PAYLOAD);
    RoundTrip(TRANSFER_PAYLOAD, p.Values(), [Num(0), Num(0), Num(0), Num(0)], pad);
  }

  lemma FieldLength(f: Field, v: Value, n: nat)
    requires f.tag < 16 && v.Num? && n > 0 && v.n < Scale(1, n)
    ensures |EncodeField(f, v)| <= 1 + n
  {
    EncodeLength(v.n, n);
  }

  /** The serialized head never exceeds 26 bytes, so with its NUL it fits the reserved prefix. */
  lemma TransferPayloadLength(p: TransferPayload)
    requires p.Fits()
    ensures |p.ToBytes()| <= 26
  {
    var d, v := TRANSFER_PAYLOAD, p.Values();
    WidthFits(W32);
    WidthFits(W64);
    assert Scale(1, 2) == 128 * 128;
    FieldLength(d[0], v[0], 10);
    FieldLength(d[1], v[1], 2);
    FieldLength(d[2], v[2], 5);
    FieldLength(d[3], v[3], 5);
    assert SerializeFrom(d, v, 4) == [];
    assert SerializeFrom(d, v, 3) == EncodeField(d[3], v[3]) + SerializeFrom(d, v, 4);
    assert SerializeFrom(d, v, 2) == EncodeField(d[2], v[2]) + SerializeFrom(d, v, 3);
    assert SerializeFrom(d, v, 1) == EncodeField(d[1], v[1]) + SerializeFrom(d, v, 2);
  }

  datatype PayloadProtect = PayloadProtect(channelId: nat, commandFlag: nat, checkSum: nat, vCode: nat) {
    predicate Fits() {
      channelId < TWO32 && commandFlag < TWO32 && checkSum < 256 && vCode < 256
    }
    function Values(): seq<Value> {
      [Num(channelId), Num(commandFlag), Num(checkSum), Num(vCode)]
    }
    function ToBytes(): seq<byte> {
      Serialize(PAYLOAD_PROTECT, Values())
    }
  }

  function ParsePayloadProtect(s: seq<byte>): PayloadProtect
  {
    var v := Parse(PAYLOAD_PROTECT, [Num(0), Num(0), Num(0), Num(0)], s);
    assert v[0].Num? && v[1].Num? && v[2].Num? && v[3].Num?;
    PayloadProtect(v[0].n, v[1].n, v[2].n, v[3].n)
  }

  /** Which member travels under which number: the head of every packet. */
  lemma PayloadProtectBytes(p: PayloadProtect)
    ensures p.ToBytes() ==
      [0x08] + Encode(p.channelId) + [0x10] + Encode(p.commandFlag) + [0x18] + Encode(p.checkSum) + [0x20] + Encode(p.vCode)
  {
    Layout(PAYLOAD_PROTECT, p.Values(),
           [NumPart(1, p.channelId), NumPart(2, p.commandFlag), NumPart(3, p.checkSum), NumPart(4, p.vCode)]);
    FourNumbers(p.channelId, p.commandFlag, p.checkSum, p.vCode);
  }

  /** And which member a lone field sets when it is read. */
  lemma PayloadProtectMember(k: nat, n: nat)
    requires 0 < k <= 4 && n < if k == 1 then TWO32 else if k == 2 then TWO32 else if k == 3 then 256 else 256
    ensures ParsePayloadProtect([8 * k] + Encode(n)) ==
      PayloadProtect(if k == 1 then n else 0, if k == 2 then n else 0, if k == 3 then n else 0, if k == 4 then n else 0)
  {
    LoneField(PAYLOAD_PROTECT, [Num(0), Num(0), Num(0), Num(0)], k, Num(n));
  }

  lemma PayloadProtectRoundTrip(p: PayloadProtect, pad: nat)
    requires p.Fits()
    ensures ParsePayloadProtect(p.ToBytes() + Zeros(pad)) == p
  {
    assert ValidDescriptor(PAYLOAD_PROTECT);
    RoundTrip(PAYLOAD_PROTECT, p.Values(), [Num(0), Num(0), Num(0), Num(0)], pad);
  }

  lemma PayloadProtectLength(p: PayloadProtect)
    requires p.Fits()
    ensures 0 < |p.ToBytes()| <= 18
  {
    var d, v := PAYLOAD_PROTECT, p.Values();
    WidthFits(W32);
    assert Scale(1, 2) == 128 * 128;
    FieldLength(d[0], v[0], 5);
    FieldLength(d[1], v[1], 5);
    FieldLength(d[2], v[2], 2);
    FieldLength(d[3], v[3], 2);
    assert SerializeFrom(d, v, 4) == [];
    assert SerializeFrom(d, v, 3) == EncodeField(d[3], v[3]) + SerializeFrom(d, v, 4);
    assert SerializeFrom(d, v, 2) == EncodeField(d[2], v[2]) + SerializeFrom(d, v, 3);
    assert SerializeFrom(d, v, 1) == EncodeField(d[1], v[1]) + SerializeFrom(d, v, 2);
  }

  // The other messages, by the names of their members.

  lemma NumberedValid(desc: Descriptor)
    requires Numbered(desc)
    ensures ValidDescriptor(desc)
  {
  }

  function Bit(b: bool): Value { Num(if b then 1 else 0) }

  /** The CHECK of a file transfer. */
  datatype TransferConfig = TransferConfig(
    fileSize: nat, atime: nat, mtime: nat, options: seq<byte>, path: seq<byte>, optionalName: seq<byte>,
    updateIfNew: bool, compressType: nat, holdTimestamp: bool, functionName: seq<byte>, clientCwd: seq<byte>,
    reserve1: seq<byte>, reserve2: seq<byte>)
  {
    predicate Fits() {
      fileSize < TWO64 && atime < TWO64 && mtime < TWO64 && |options| <= MAX_STRING_SIZE &&
      |path| <= MAX_STRING_SIZE && |optionalName| <= MAX_STRING_SIZE && compressType < 256 &&
      |functionName| <= MAX_STRING_SIZE && |clientCwd| <= MAX_STRING_SIZE && |reserve1| <= MAX_STRING_SIZE &&
      |reserve2| <= MAX_STRING_SIZE
    }
    function Values(): seq<Value> {
      [Num(fileSize), Num(atime), Num(mtime), Str(options), Str(path), Str(optionalName), Bit(updateIfNew),
      Num(compressType), Bit(holdTimestamp), Str(functionName), Str(clientCwd), Str(reserve1), Str(reserve2)]
    }
    function ToBytes(): seq<byte> {
      Serialize(TRANSFER_CONFIG, Values())
    }
    ghost function Parts(): seq<seq<byte>> {
      [
        NumPart(1, fileSize), NumPart(2, atime), NumPart(3, mtime), TextPart(4, options),
        TextPart(5, path), TextPart(6, optionalName), NumPart(7, if updateIfNew then 1 else 0),
        NumPart(8, compressType), NumPart(9, if holdTimestamp then 1 else 0), TextPart(10, functionName),
        TextPart(11, clientCwd), TextPart(12, reserve1), TextPart(13, reserve2)]
    }
    /** ParseFromString into a struct that holds `this`. */
    function Read(s: seq<byte>): TransferConfig {
      TransferConfigOf(Parse(TRANSFER_CONFIG, Values(), s))
    }
  }

  function TransferConfigOf(v: seq<Value>): TransferConfig
    requires Shaped(TRANSFER_CONFIG, v)
  {
    TransferConfig(v[0].n, v[1].n, v[2].n, v[3].s, v[4].s, v[5].s, v[6].n != 0, v[7].n, v[8].n != 0, v[9].s, v[10].s,
      v[11].s, v[12].s)
  }

  lemma TransferConfigOfValues(p: TransferConfig)
    ensures Shaped(TRANSFER_CONFIG, p.Values()) && TransferConfigOf(p.Values()) == p
  {
  }

  /** Which member travels under which number. */
  lemma TransferConfigBytes(p: TransferConfig)
    ensures p.ToBytes() == Concat(p.Parts())
    ensures p.Parts() == [
      NumPart(1, p.fileSize), NumPart(2, p.atime), NumPart(3, p.mtime), TextPart(4, p.options),
      TextPart(5, p.path), TextPart(6, p.optionalName), NumPart(7, if p.updateIfNew then 1 else 0),
      NumPart(8, p.compressType), NumPart(9, if p.holdTimestamp then 1 else 0), TextPart(10, p.functionName),
      TextPart(11, p.clientCwd), TextPart(12, p.reserve1), TextPart(13, p.reserve2)]
  {
    forall j | 0 <= j < 13 ensures p.Parts()[j] == PartOf(j + 1, p.Values()[j]) {
      TransferConfigPart(p, j);
    }
    Layout(TRANSFER_CONFIG, p.Values(), p.Parts());
  }

  lemma TransferConfigPart(p: TransferConfig, j: nat)
    requires j < 13
    ensures p.Parts()[j] == PartOf(j + 1, p.Values()[j])
  {
  }

  lemma TransferConfigFits(p: TransferConfig)
    requires p.Fits()
    ensures AllFit(TRANSFER_CONFIG, p.Values())
  {
  }

  lemma TransferConfigRoundTrip(p: TransferConfig, prior: TransferConfig, pad: nat)
    requires p.Fits()
    ensures prior.Read(p.ToBytes() + Zeros(pad)) == p
  {
    NumberedValid(TRANSFER_CONFIG);
    TransferConfigFits(p);
    TransferConfigOfValues(p);
    RoundTrip(TRANSFER_CONFIG, p.Values(), prior.Values(), pad);
  }

  /** Which member a lone field sets when it is read; the others keep what they held. */
  lemma TransferConfigNumber(p: TransferConfig, k: nat, n: nat)
    requires (k == 1 || k == 2 || k == 3 || k == 7 || k == 8 || k == 9) && n < (if k <= 3 then TWO64 else if k == 8 then 256 else 2)
    ensures p.Read(NumPart(k, n)) ==
      if k == 1 then p.(fileSize := n)
      else if k == 2 then p.(atime := n)
      else if k == 3 then p.(mtime := n)
      else if k == 7 then p.(updateIfNew := n != 0)
      else if k == 8 then p.(compressType := n)
      else p.(holdTimestamp := n != 0)
  {
    TransferConfigSetNumber(p, k, n);
    LoneField(TRANSFER_CONFIG, p.Values(), k, Num(n));
  }

  lemma TransferConfigSetNumber(p: TransferConfig, k: nat, n: nat)
    requires k == 1 || k == 2 || k == 3 || k == 7 || k == 8 || k == 9
    ensures Shaped(TRANSFER_CONFIG, p.Values()[k - 1 := Num(n)])
    ensures TransferConfigOf(p.Values()[k - 1 := Num(n)]) ==
      if k == 1 then p.(fileSize := n)
      else if k == 2 then p.(atime := n)
      else if k == 3 then p.(mtime := n)
      else if k == 7 then p.(updateIfNew := n != 0)
      else if k == 8 then p.(compressType := n)
      else p.(holdTimestamp := n != 0)
  {
  }

  lemma TransferConfigText(p: TransferConfig, k: nat, s: seq<byte>)
    requires (k == 4 || k == 5 || k == 6 || k == 10 || k == 11 || k == 12 || k == 13) && |s| <= MAX_STRING_SIZE
    ensures p.Read(TextPart(k, s)) ==
      if k == 4 then p.(options := s)
      else if k == 5 then p.(path := s)
      else if k == 6 then p.(optionalName := s)
      else if k == 10 then p.(functionName := s)
      else if k == 11 then p.(clientCwd := s)
      else if k == 12 then p.(reserve1 := s)
      else p.(reserve2 := s)
  {
    TransferConfigSetText(p, k, s);
    LoneField(TRANSFER_CONFIG, p.Values(), k, Str(s));
  }

  lemma TransferConfigSetText(p: TransferConfig, k: nat, s: seq<byte>)
    requires k == 4 || k == 5 || k == 6 || k == 10 || k == 11 || k == 12 || k == 13
    ensures Shaped(TRANSFER_CONFIG, p.Values()[k - 1 := Str(s)])
    ensures TransferConfigOf(p.Values()[k - 1 := Str(s)]) ==
      if k == 4 then p.(options := s)
      else if k == 5 then p.(path := s)
      else if k == 6 then p.(optionalName := s)
      else if k == 10 then p.(functionName := s)
      else if k == 11 then p.(clientCwd := s)
      else if k == 12 then p.(reserve1 := s)
      else p.(reserve2 := s)
  {
  }

  /** The permissions of a file. */
  datatype FileMode = FileMode(
    perm: nat, uId: nat, gId: nat, context: seq<byte>, fullName: seq<byte>)
  {
    predicate Fits() {
      perm < TWO64 && uId < TWO64 && gId < TWO64 && |context| <= MAX_STRING_SIZE &&
      |fullName| <= MAX_STRING_SIZE
    }
    function Values(): seq<Value> {
      [Num(perm), Num(uId), Num(gId), Str(context), Str(fullName)]
    }
    function ToBytes(): seq<byte> {
      Serialize(FILE_MODE, Values())
    }
    /** ParseFromString into a struct that holds `this`. */
    function Read(s: seq<byte>): FileMode {
      FileModeOf(Parse(FILE_MODE, Values(), s))
    }
  }

  function FileModeOf(v: seq<Value>): FileMode
    requires Shaped(FILE_MODE, v)
  {
    FileMode(v[0].n, v[1].n, v[2].n, v[3].s, v[4].s)
  }

  lemma FileModeOfValues(p: FileMode)
    ensures Shaped(FILE_MODE, p.Values()) && FileModeOf(p.Values()) == p
  {
  }

  /** Which member travels under which number. */
  lemma FileModeBytes(p: FileMode)
    ensures p.ToBytes() == Concat([
      NumPart(1, p.perm), NumPart(2, p.uId), NumPart(3, p.gId), TextPart(4, p.context), TextPart(5, p.fullName)])
  {
    Layout(FILE_MODE, p.Values(), [
      NumPart(1, p.perm), NumPart(2, p.uId), NumPart(3, p.gId), TextPart(4, p.context), TextPart(5, p.fullName)]);
  }

  lemma FileModeFits(p: FileMode)
    requires p.Fits()
    ensures AllFit(FILE_MODE, p.Values())
  {
  }

  lemma FileModeRoundTrip(p: FileMode, prior: FileMode, pad: nat)
    requires p.Fits()
    ensures prior.Read(p.ToBytes() + Zeros(pad)) == p
  {
    NumberedValid(FILE_MODE);
    FileModeFits(p);
    FileModeOfValues(p);
    RoundTrip(FILE_MODE, p.Values(), prior.Values(), pad);
  }

  /** Which member a lone field sets when it is read; the others keep what they held. */
  lemma FileModeNumber(p: FileMode, k: nat, n: nat)
    requires (k == 1 || k == 2 || k == 3) && n < TWO64
    ensures p.Read(NumPart(k, n)) ==
      if k == 1 then p.(perm := n)
      else if k == 2 then p.(uId := n)
      else p.(gId := n)
  {
    LoneField(FILE_MODE, p.Values(), k, Num(n));
  }

  lemma FileModeText(p: FileMode, k: nat, s: seq<byte>)
    requires (k == 4 || k == 5) && |s| <= MAX_STRING_SIZE
    ensures p.Read(TextPart(k, s)) ==
      if k == 4 then p.(context := s)
      else p.(fullName := s)
  {
    LoneField(FILE_MODE, p.Values(), k, Str(s));
  }

  /** The handshake of a session. */
  datatype SessionHandShake = SessionHandShake(
    banner: seq<byte>, authType: nat, sessionId: nat, connectKey: seq<byte>, buf: seq<byte>, version: seq<byte>)
  {
    predicate Fits() {
      |banner| <= MAX_STRING_SIZE && authType < 256 && sessionId < TWO32 && |connectKey| <= MAX_STRING_SIZE &&
      |buf| <= MAX_STRING_SIZE && |version| <= MAX_STRING_SIZE
    }
    function Values(): seq<Value> {
      [Str(banner), Num(authType), Num(sessionId), Str(connectKey), Str(buf), Str(version)]
    }
    function ToBytes(): seq<byte> {
      Serialize(SESSION_HANDSHAKE, Values())
    }
    /** ParseFromString into a struct that holds `this`. */
    function Read(s: seq<byte>): SessionHandShake {
      SessionHandShakeOf(Parse(SESSION_HANDSHAKE, Values(), s))
    }
  }

  function SessionHandShakeOf(v: seq<Value>): SessionHandShake
    requires Shaped(SESSION_HANDSHAKE, v)
  {
    SessionHandShake(v[0].s, v[1].n, v[2].n, v[3].s, v[4].s, v[5].s)
  }

  lemma SessionHandShakeOfValues(p: SessionHandShake)
    ensures Shaped(SESSION_HANDSHAKE, p.Values()) && SessionHandShakeOf(p.Values()) == p
  {
  }

  /** Which member travels under which number. */
  lemma SessionHandShakeBytes(p: SessionHandShake)
    ensures p.ToBytes() == Concat([
      TextPart(1, p.banner), NumPart(2, p.authType), NumPart(3, p.sessionId), TextPart(4, p.connectKey),
      TextPart(5, p.buf), TextPart(6, p.version)])
  {
    Layout(SESSION_HANDSHAKE, p.Values(), [
      TextPart(1, p.banner), NumPart(2, p.authType), NumPart(3, p.sessionId), TextPart(4, p.connectKey),
      TextPart(5, p.buf), TextPart(6, p.version)]);
  }

  lemma SessionHandShakeFits(p: SessionHandShake)
    requires p.Fits()
    ensures AllFit(SESSION_HANDSHAKE, p.Values())
  {
  }

  lemma SessionHandShakeRoundTrip(p: SessionHandShake, prior: SessionHandShake, pad: nat)
    requires p.Fits()
    ensures prior.Read(p.ToBytes() + Zeros(pad)) == p
  {
    NumberedValid(SESSION_HANDSHAKE);
    SessionHandShakeFits(p);
    SessionHandShakeOfValues(p);
    RoundTrip(SESSION_HANDSHAKE, p.Values(), prior.Values(), pad);
  }

  /** Which member a lone field sets when it is read; the others keep what they held. */
  lemma SessionHandShakeNumber(p: SessionHandShake, k: nat, n: nat)
    requires (k == 2 || k == 3) && n < (if k == 2 then 256 else TWO32)
    ensures p.Read(NumPart(k, n)) ==
      if k == 2 then p.(authType := n)
      else p.(sessionId := n)
  {
    LoneField(SESSION_HANDSHAKE, p.Values(), k, Num(n));
  }

  lemma SessionHandShakeText(p: SessionHandShake, k: nat, s: seq<byte>)
    requires (k == 1 || k == 4 || k == 5 || k == 6) && |s| <= MAX_STRING_SIZE
    ensures p.Read(TextPart(k, s)) ==
      if k == 1 then p.(banner := s)
      else if k == 4 then p.(connectKey := s)
      else if k == 5 then p.(buf := s)
      else p.(version := s)
  {
    LoneField(SESSION_HANDSHAKE, p.Values(), k, Str(s));
  }

  /** The heartbeat. */
  datatype HeartbeatMsg = HeartbeatMsg(
    heartbeatCount: nat, reserved: seq<byte>)
  {
    predicate Fits() {
      heartbeatCount < TWO64 && |reserved| <= MAX_STRING_SIZE
    }
    function Values(): seq<Value> {
      [Num(heartbeatCount), Str(reserved)]
    }
    function ToBytes(): seq<byte> {
      Serialize(HEARTBEAT_MSG, Values())
    }
    /** ParseFromString into a struct that holds `this`. */
    function Read(s: seq<byte>): HeartbeatMsg {
      HeartbeatMsgOf(Parse(HEARTBEAT_MSG, Values(), s))
    }
  }

  function HeartbeatMsgOf(v: seq<Value>): HeartbeatMsg
    requires Shaped(HEARTBEAT_MSG, v)
  {
    HeartbeatMsg(v[0].n, v[1].s)
  }

  lemma HeartbeatMsgOfValues(p: HeartbeatMsg)
    ensures Shaped(HEARTBEAT_MSG, p.Values()) && HeartbeatMsgOf(p.Values()) == p
  {
  }

  /** Which member travels under which number. */
  lemma HeartbeatMsgBytes(p: HeartbeatMsg)
    ensures p.ToBytes() == Concat([
      NumPart(1, p.heartbeatCount), TextPart(2, p.reserved)])
  {
    Layout(HEARTBEAT_MSG, p.Values(), [
      NumPart(1, p.heartbeatCount), TextPart(2, p.reserved)]);
  }

  lemma HeartbeatMsgFits(p: HeartbeatMsg)
    requires p.Fits()
    ensures AllFit(HEARTBEAT_MSG, p.Values())
  {
  }

  lemma HeartbeatMsgRoundTrip(p: HeartbeatMsg, prior: HeartbeatMsg, pad: nat)
    requires p.Fits()
    ensures prior.Read(p.ToBytes() + Zeros(pad)) == p
  {
    NumberedValid(HEARTBEAT_MSG);
    HeartbeatMsgFits(p);
    HeartbeatMsgOfValues(p);
    RoundTrip(HEARTBEAT_MSG, p.Values(), prior.Values(), pad);
  }

  /** Which member a lone field sets when it is read; the others keep what they held. */
  lemma HeartbeatMsgNumber(p: HeartbeatMsg, k: nat, n: nat)
    requires (k == 1) && n < TWO64
    ensures p.Read(NumPart(k, n)) ==
      p.(heartbeatCount := n)
  {
    LoneField(HEARTBEAT_MSG, p.Values(), k, Num(n));
  }

  lemma HeartbeatMsgText(p: HeartbeatMsg, k: nat, s: seq<byte>)
    requires (k == 2) && |s| <= MAX_STRING_SIZE
    ensures p.Read(TextPart(k, s)) ==
      p.(reserved := s)
  {
    LoneField(HEARTBEAT_MSG, p.Values(), k, Str(s));
  }
}
