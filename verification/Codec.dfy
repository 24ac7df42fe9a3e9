/**
 The generated message codec. Each generated message class is determined by the field table its constructor
 hands to `MessageType`, and its `internalBinaryRead` and `internalBinaryWrite` are that table spelled out as
 a `switch` and a run of `if`s; here both are one function of the table. A message is the sequence of its
 fields, field number `i + 1` in slot `i`, as every message modelled here numbers its fields from one without
 a gap.
 */
module Codec {
  import opened Wire

  // ---- Field tables ----

  datatype Scalar = Int32 | Uint32 | Uint64 | Uint64Number | Int64Number | Bool | BytesField

  datatype TypeName =
    | Signature | AuthToken | Payload
    | ActivityRequest | ActivityAcknowledgment
    | PutRawPieceRequest | PutRawPieceMetadata | PutRawPieceContent
    | PutMultiPartPieceRequest
    | GetFileRequest | GetFileRequestBody | GetFileRange
    | GetFileResponse | GetFileProof
    | DagNode | DagLink | DagTag
    | CnsRecord

  /** Implicit: written unless default. Oneof: the fields of a message under it make up one oneof. */
  datatype Rule = Implicit | Optional | Repeated | Packed | Oneof
  datatype Content = Plain(scalar: Scalar) | Sub(ty: TypeName)
  datatype Kind = Kind(rule: Rule, content: Content)

  type Kinds = seq<Kind>

  /** The tables, and the reader's `readUnknownField` option: whether an unknown field is an error. */
  datatype Options = Options(fields: TypeName -> Kinds, throwUnknown: bool)

  predicate ValidKind(k: Kind) {
    && (k.rule.Implicit? ==> k.content.Plain?)
    && (k.rule.Packed? ==> k.content == Plain(Int32))
  }

  ghost predicate ValidOptions(o: Options) {
    forall ty ::
      && |o.fields(ty)| <= MAX_FIELD_NO
      && forall i | 0 <= i < |o.fields(ty)| :: ValidKind(o.fields(ty)[i])
  }

  // ---- Messages ----

  datatype Value =
    | Absent
    | Num(n: int)
    | Flag(b: bool)
    | Raw(bytes: Bytes)
    | Msg(slots: seq<Value>)
    | List(items: seq<Value>)

  type Message = seq<Value>

  function Default(k: Kind): Value {
    match k.rule
    case Implicit =>
      (match k.content
       case Plain(Bool) => Flag(false)
       case Plain(BytesField) => Raw([])
       case _ => Num(0))
    case Repeated => List([])
    case Packed => List([])
    case _ => Absent
  }

  /** The generated `create()`. */
  function Create(o: Options, ty: TypeName): (m: Message)
    ensures |m| == |o.fields(ty)|
  {
    seq(|o.fields(ty)|, i requires 0 <= i < |o.fields(ty)| => Default(o.fields(ty)[i]))
  }

  predicate ScalarOk(s: Scalar, v: Value) {
    match s
    case Int32 => v.Num? && -U32 / 2 <= v.n < U32 / 2
    case Uint32 => v.Num? && 0 <= v.n < U32
    case Uint64 => v.Num? && 0 <= v.n < U64
    case Uint64Number => v.Num? && 0 <= v.n <= MAX_SAFE
    case Int64Number => v.Num? && -MAX_SAFE <= v.n <= MAX_SAFE
    case Bool => v.Flag?
    case BytesField => v.Raw? && |v.bytes| < U32
  }

  // ---- Scalars on the wire ----

  function WireOf(s: Scalar): nat { if s.BytesField? then LENGTH_DELIMITED else VARINT }

  function EncodeScalar(s: Scalar, v: Value): Bytes {
    match v
    case Num(n) => if -U64 <= n then EncodeInt(n) else []
    case Flag(b) => EncodeVarint(if b then 1 else 0)
    case Raw(b) => Delimited(b)
    case _ => []
  }

  function ReadScalar(s: Scalar, buf: Bytes, pos: nat): (r: Read<Value>)
    ensures r.Ok? ==> pos < r.pos <= |buf|
  {
    match s
    case Int32 => var (n, p) :- ReadInt32(buf, pos); Ok(Num(n), p)
    case Uint32 => var (n, p) :- ReadUint32(buf, pos); Ok(Num(n), p)
    case Uint64 => var (n, p) :- ReadUint64(buf, pos); Ok(Num(n), p)
    case Uint64Number =>
      var (n, p) :- ReadUint64(buf, pos);
      if n <= MAX_SAFE then Ok(Num(n), p) else Err(UnsafeNumber)
    case Int64Number =>
      var (n, p) :- ReadUint64(buf, pos);
      var m := Signed(n, U64);
      if -MAX_SAFE <= m <= MAX_SAFE then Ok(Num(m), p) else Err(UnsafeNumber)
    case Bool => var (n, p) :- ReadUint64(buf, pos); Ok(Flag(n != 0), p)
    case BytesField => var (b, p) :- ReadBytes(buf, pos); Ok(Raw(b), p)
  }

  /** What any 64 bits are read as: cut to 32, with their sign, as a boolean, or refused as an unsafe number. */
  lemma NumbersRead(buf: Bytes, pos: nat, n: nat)
    requires n < 0x1_0000_0000_0000_0000 && At(buf, pos, EncodeVarint(n))
    ensures var q := pos + |EncodeVarint(n)|;
      var low := n % 0x1_0000_0000;
      var signed := if n < 0x8000_0000_0000_0000 then n else n - 0x1_0000_0000_0000_0000;
      && ReadScalar(Uint32, buf, pos) == Ok(Num(low), q)
      && ReadScalar(Int32, buf, pos) == Ok(Num(if low < 0x8000_0000 then low else low - 0x1_0000_0000), q)
      && ReadScalar(Uint64, buf, pos) == Ok(Num(n), q)
      && ReadScalar(Bool, buf, pos) == Ok(Flag(n != 0), q)
      && ReadScalar(Uint64Number, buf, pos)
         == (if n <= 0x1F_FFFF_FFFF_FFFF then Ok(Num(n), q) else Err(UnsafeNumber))
      && ReadScalar(Int64Number, buf, pos)
         == if -0x1F_FFFF_FFFF_FFFF <= signed <= 0x1F_FFFF_FFFF_FFFF then Ok(Num(signed), q) else Err(UnsafeNumber)
  {
    hide ReadVarint, EncodeVarint;
    Varint64RoundTrip(buf, pos, n);
  }

  lemma ScalarRoundTrip(s: Scalar, v: Value, buf: Bytes, pos: nat)
    requires ScalarOk(s, v) && At(buf, pos, EncodeScalar(s, v))
    ensures ReadScalar(s, buf, pos) == Ok(v, pos + |EncodeScalar(s, v)|)
  {
    hide ReadVarint, EncodeVarint;
    match s
    case Int32 => Int32RoundTrip(buf, pos, v.n);
    case Uint32 => Uint32RoundTrip(buf, pos, v.n);
    case Uint64 => Varint64RoundTrip(buf, pos, v.n);
    case Uint64Number => Varint64RoundTrip(buf, pos, v.n);
    case Int64Number => Varint64RoundTrip(buf, pos, if v.n < 0 then v.n + U64 else v.n);
    case Bool => Varint64RoundTrip(buf, pos, if v.b then 1 else 0);
    case BytesField =>
      hide Delimited, ReadBytes;
      BytesRoundTrip(buf, pos, v.bytes);
  }

  // ---- The reader ----

  function Items(v: Value): seq<Value> { if v.List? then v.items else [] }

  /** `target ?? this.create()`. A present target always has its type's shape. */
  function Target(o: Options, ty: TypeName, prior: Value): (m: Message)
    ensures |m| == |o.fields(ty)|
  {
    if prior.Msg? && |prior.slots| == |o.fields(ty)| then prior.slots else Create(o, ty)
  }

  /** The slot after one more element `v` of the field was read. */
  function Put(rule: Rule, slot: Value, v: Value): Value {
    if rule.Repeated? || rule.Packed? then List(Items(slot) + [v]) else v
  }

  function Extend(slot: Value, vs: seq<Value>): Value { if vs == [] then slot else List(Items(slot) + vs) }

  /** Setting a field of the oneof replaces the whole oneof. */
  function SetSlot(ks: Kinds, msg: Message, i: nat, v: Value): (m: Message)
    requires i < |ks| == |msg|
    ensures |m| == |msg|
  {
    seq(|msg|, j requires 0 <= j < |msg| =>
      if j == i then v else if ks[i].rule.Oneof? && ks[j].rule.Oneof? then Absent else msg[j])
  }

  /** The value a sub-message is merged into: none for a repeated field, which always reads a fresh one. */
  function Prior(rule: Rule, slot: Value): Value { if rule.Repeated? then Absent else slot }

  /**
   The loop of `internalBinaryRead`. Nothing compares a nested length with `end`, so the position may finish
   beyond it.
   */
  function ReadMessage(o: Options, ty: TypeName, buf: Bytes, pos: nat, end: int, msg: Message): (r: Read<Message>)
    requires pos <= |buf| && |msg| == |o.fields(ty)|
    ensures r.Ok? ==> end <= r.pos && pos <= r.pos <= |buf| && |r.value| == |msg|
    decreases |buf| - pos, 4
  {
    if pos >= end then Ok(msg, pos)
    else
      var (tag, p) :- ReadTag(buf, pos);
      var (m, q) :- ReadField(o, ty, buf, p, tag, msg);
      ReadMessage(o, ty, buf, q, end, m)
  }

  /** One round of the `switch (fieldNo)`. */
  function ReadField(o: Options, ty: TypeName, buf: Bytes, pos: nat, tag: Tag, msg: Message): (r: Read<Message>)
    requires pos <= |buf| && |msg| == |o.fields(ty)| && tag.no > 0
    ensures r.Ok? ==> pos <= r.pos <= |buf| && |r.value| == |msg|
    decreases |buf| - pos, 3
  {
    var ks := o.fields(ty);
    if tag.no > |ks| then
      if o.throwUnknown then Err(UnknownField)
      else
        var (_, p) :- Skip(buf, pos, tag.wire);
        Ok(msg, p)
    else
      var (v, p) :- ReadSlot(o, ks[tag.no - 1], buf, pos, tag.wire, msg[tag.no - 1]);
      Ok(SetSlot(ks, msg, tag.no - 1, v), p)
  }

  function ReadSlot(o: Options, k: Kind, buf: Bytes, pos: nat, wire: nat, slot: Value): (r: Read<Value>)
    requires pos <= |buf|
    ensures r.Ok? ==> pos < r.pos <= |buf|
    decreases |buf| - pos, 2
  {
    if k.rule.Packed? && wire == LENGTH_DELIMITED then
      var (len, p) :- ReadInt32(buf, pos);
      var (vs, q) :- ReadRun(buf, p, p + len);
      Ok(Extend(slot, vs), q)
    else
      var (v, p) :- ReadElement(o, k.content, buf, pos, Prior(k.rule, slot));
      Ok(Put(k.rule, slot, v), p)
  }

  function ReadElement(o: Options, c: Content, buf: Bytes, pos: nat, prior: Value): (r: Read<Value>)
    requires pos <= |buf|
    ensures r.Ok? ==> pos < r.pos <= |buf|
    decreases |buf| - pos, 1
  {
    match c
    case Plain(s) => ReadScalar(s, buf, pos)
    case Sub(t) =>
      var (len, p) :- ReadUint32(buf, pos);
      var (m, q) :- ReadMessage(o, t, buf, p, p + len, Target(o, t, prior));
      Ok(Msg(m), q)
  }

  /** The loop over a packed run, which may also run past its own end. */
  function ReadRun(buf: Bytes, pos: nat, end: int): (r: Read<seq<Value>>)
    requires pos <= |buf|
    ensures r.Ok? ==> end <= r.pos && pos <= r.pos <= |buf|
    decreases |buf| - pos
  {
    if pos >= end then Ok([], pos)
    else
      var (n, p) :- ReadInt32(buf, pos);
      var (rest, q) :- ReadRun(buf, p, end);
      Ok([Num(n)] + rest, q)
  }

  /** `fromBinary`. */
  function Decode(o: Options, ty: TypeName, bytes: Bytes): Read<Message> {
    ReadMessage(o, ty, bytes, 0, |bytes|, Create(o, ty))
  }

  // ---- Field occurrences ----

  /** What stands on the wire for one field: the syntax that readers accept and writers produce. */
  datatype Item =
    | Leaf(scalar: Scalar, v: Value)
    | Run(ns: seq<int>)
    | Body(fields: seq<Field>)
    | Unknown(wire: nat, raw: Bytes)
  datatype Field = Field(no: nat, item: Item)

  function ItemWire(item: Item): nat {
    match item
    case Leaf(s, _) => WireOf(s)
    case Unknown(wire, _) => wire
    case _ => LENGTH_DELIMITED
  }

  function ItemBytes(item: Item): Bytes
    decreases item, 1
  {
    match item
    case Leaf(s, v) => EncodeScalar(s, v)
    case Run(ns) => Delimited(RunBytes(ns))
    case Body(fs) => Delimited(FieldsBytes(fs))
    case Unknown(_, raw) => raw
  }

  function FieldBytes(f: Field): (r: Bytes)
    ensures |r| > 0
    decreases f, 2
  {
    EncodeTag(f.no, ItemWire(f.item)) + ItemBytes(f.item)
  }

  function FieldsBytes(fs: seq<Field>): Bytes
    decreases fs, 0
  {
    if fs == [] then [] else FieldBytes(fs[0]) + FieldsBytes(fs[1..])
  }

  function RunBytes(ns: seq<int>): Bytes {
    if ns == [] then [] else EncodeScalar(Int32, Num(ns[0])) + RunBytes(ns[1..])
  }

  predicate LegalRun(ns: seq<int>) {
    |RunBytes(ns)| < U32 / 2 && forall i | 0 <= i < |ns| :: ScalarOk(Int32, Num(ns[i]))
  }

  /**
   A field occurrence a message of type `ty` may carry: its number, type and ranges agree with the table, and
   every length fits its prefix (a packed run's is read as a signed number).
   */
  predicate Legal(o: Options, ty: TypeName, f: Field)
    decreases f
  {
    var ks := o.fields(ty);
    if f.item.Unknown? then
      && |ks| < f.no <= MAX_FIELD_NO && f.item.wire <= 5 && !o.throwUnknown
      && Skip(f.item.raw, 0, f.item.wire) == Ok((), |f.item.raw|)
    else
      && 0 < f.no <= |ks| && f.no <= MAX_FIELD_NO
      && var k := ks[f.no - 1];
      match f.item
      case Leaf(s, v) => k.content == Plain(s) && ScalarOk(s, v)
      case Run(ns) => k.rule.Packed? && LegalRun(ns)
      case Body(fs) => k.content.Sub? && LegalAll(o, k.content.ty, fs) && |FieldsBytes(fs)| < U32
  }

  predicate LegalAll(o: Options, ty: TypeName, fs: seq<Field>)
    decreases fs
  {
    forall i | 0 <= i < |fs| :: Legal(o, ty, fs[i])
  }

  // ---- What a sequence of field occurrences means ----

  function Nums(ns: seq<int>): seq<Value> { seq(|ns|, i requires 0 <= i < |ns| => Num(ns[i])) }

  function ApplyItem(o: Options, k: Kind, slot: Value, item: Item): Value
    decreases item, 1
  {
    match item
    case Leaf(_, v) => Put(k.rule, slot, v)
    case Run(ns) => Extend(slot, Nums(ns))
    case Body(fs) =>
      if k.content.Sub? then
        Put(k.rule, slot, Msg(Interpret(o, k.content.ty, Target(o, k.content.ty, Prior(k.rule, slot)), fs)))
      else slot
    case Unknown(_, _) => slot
  }

  function Apply(o: Options, ty: TypeName, msg: Message, f: Field): (m: Message)
    requires |msg| == |o.fields(ty)|
    ensures |m| == |msg|
    decreases f, 2
  {
    var ks := o.fields(ty);
    if 0 < f.no <= |ks| then SetSlot(ks, msg, f.no - 1, ApplyItem(o, ks[f.no - 1], msg[f.no - 1], f.item)) else msg
  }

  function Interpret(o: Options, ty: TypeName, msg: Message, fs: seq<Field>): (m: Message)
    requires |msg| == |o.fields(ty)|
    ensures |m| == |msg|
    decreases fs, 0
  {
    if fs == [] then msg else Interpret(o, ty, Apply(o, ty, msg, fs[0]), fs[1..])
  }

  // ---- The reader computes the meaning ----

  lemma {:induction false} RunRead(buf: Bytes, pos: nat, ns: seq<int>)
    requires At(buf, pos, RunBytes(ns)) && forall i | 0 <= i < |ns| :: ScalarOk(Int32, Num(ns[i]))
    ensures ReadRun(buf, pos, pos + |RunBytes(ns)|) == Ok(Nums(ns), pos + |RunBytes(ns)|)
    decreases |ns|
  {
    hide EncodeVarint, ReadInt32;
    if ns != [] {
      var head := EncodeScalar(Int32, Num(ns[0]));
      AtConcat(buf, pos, head, RunBytes(ns[1..]));
      Int32RoundTrip(buf, pos, ns[0]);
      RunRead(buf, pos + |head|, ns[1..]);
      assert Nums(ns) == [Num(ns[0])] + Nums(ns[1..]);
    } else {
      assert Nums(ns) == [];
    }
  }

  lemma LeafRead(o: Options, k: Kind, buf: Bytes, pos: nat, s: Scalar, slot: Value, v: Value)
    requires k.content == Plain(s) && ValidKind(k) && ScalarOk(s, v) && At(buf, pos, EncodeScalar(s, v))
    ensures ReadSlot(o, k, buf, pos, WireOf(s), slot)
         == Ok(ApplyItem(o, k, slot, Leaf(s, v)), pos + |EncodeScalar(s, v)|)
  {
    hide EncodeScalar, ReadScalar;
    ScalarRoundTrip(s, v, buf, pos);
    assert ReadElement(o, k.content, buf, pos, Prior(k.rule, slot)) == ReadScalar(s, buf, pos);
  }

  lemma PackedRead(o: Options, k: Kind, buf: Bytes, pos: nat, slot: Value, ns: seq<int>)
    requires k.rule.Packed? && LegalRun(ns) && At(buf, pos, Delimited(RunBytes(ns)))
    ensures ReadSlot(o, k, buf, pos, LENGTH_DELIMITED, slot)
         == Ok(ApplyItem(o, k, slot, Run(ns)), pos + |Delimited(RunBytes(ns))|)
  {
    hide EncodeVarint, ReadInt32, ReadRun, RunBytes;
    var len := EncodeVarint(|RunBytes(ns)|);
    AtConcat(buf, pos, len, RunBytes(ns));
    Int32RoundTrip(buf, pos, |RunBytes(ns)|);
    RunRead(buf, pos + |len|, ns);
  }

  lemma {:induction false} BodyRead(o: Options, k: Kind, buf: Bytes, pos: nat, slot: Value, fs: seq<Field>)
    requires ValidOptions(o) && ValidKind(k) && k.content.Sub? && LegalAll(o, k.content.ty, fs)
    requires |FieldsBytes(fs)| < U32 && At(buf, pos, Delimited(FieldsBytes(fs)))
    ensures ReadSlot(o, k, buf, pos, LENGTH_DELIMITED, slot)
         == Ok(ApplyItem(o, k, slot, Body(fs)), pos + |Delimited(FieldsBytes(fs))|)
    decreases fs, 1
  {
    hide EncodeVarint, ReadUint32, FieldsBytes, Legal;
    var ty := k.content.ty;
    var n := |FieldsBytes(fs)|;
    var start := pos + |EncodeVarint(n)|;
    AtConcat(buf, pos, EncodeVarint(n), FieldsBytes(fs));
    Uint32RoundTrip(buf, pos, n);
    var target := Target(o, ty, Prior(k.rule, slot));
    ReadFields(o, ty, buf, start, start + n, target, fs);
    assert ReadMessage(o, ty, buf, start, start + n, target) == Ok(Interpret(o, ty, target, fs), start + n);
    assert ReadElement(o, k.content, buf, pos, Prior(k.rule, slot)) == Ok(Msg(Interpret(o, ty, target, fs)), start + n);
  }

  lemma UnknownRead(o: Options, ty: TypeName, buf: Bytes, pos: nat, msg: Message, f: Field)
    requires |msg| == |o.fields(ty)| && f.item.Unknown? && Legal(o, ty, f) && At(buf, pos, f.item.raw)
    ensures ReadField(o, ty, buf, pos, Tag(f.no, f.item.wire), msg) == Ok(msg, pos + |f.item.raw|)
  {
    hide Skip;
    SkipLocal(buf, pos, f.item.raw, 0, f.item.wire);
  }

  /** The `switch` applies the item that stands behind a tag to the field's slot, or skips it. */
  lemma {:induction false} ItemRead(o: Options, ty: TypeName, buf: Bytes, pos: nat, msg: Message, f: Field)
    requires ValidOptions(o) && |msg| == |o.fields(ty)| && Legal(o, ty, f) && At(buf, pos, ItemBytes(f.item))
    ensures ReadField(o, ty, buf, pos, Tag(f.no, ItemWire(f.item)), msg)
         == Ok(Apply(o, ty, msg, f), pos + |ItemBytes(f.item)|)
    decreases f, 0
  {
    hide EncodeVarint, ReadMessage, ReadSlot, Skip;
    var ks := o.fields(ty);
    if f.item.Unknown? {
      UnknownRead(o, ty, buf, pos, msg, f);
    } else {
      var k := ks[f.no - 1];
      var slot := msg[f.no - 1];
      assert ValidKind(k);
      match f.item {
        case Leaf(s, v) => LeafRead(o, k, buf, pos, s, slot, v);
        case Run(ns) => PackedRead(o, k, buf, pos, slot, ns);
        case Body(fs) => BodyRead(o, k, buf, pos, slot, fs);
      }
    }
  }

  lemma RoundStep(o: Options, ty: TypeName, buf: Bytes, pos: nat, end: int, msg: Message,
                  tag: Tag, p: nat, m: Message, q: nat)
    requires pos < end && pos <= |buf| && |msg| == |o.fields(ty)| && ReadTag(buf, pos) == Ok(tag, p)
    requires ReadField(o, ty, buf, p, tag, msg) == Ok(m, q)
    ensures ReadMessage(o, ty, buf, pos, end, msg) == ReadMessage(o, ty, buf, q, end, m)
  {}

  /** A reader that is told so refuses a field it does not know. */
  lemma UnknownRefused(o: Options, ty: TypeName, buf: Bytes, pos: nat, end: int, msg: Message, no: nat, wire: nat)
    requires o.throwUnknown && |o.fields(ty)| < no <= MAX_FIELD_NO && wire <= 5 && |msg| == |o.fields(ty)| && pos < end
    requires At(buf, pos, EncodeTag(no, wire))
    ensures ReadMessage(o, ty, buf, pos, end, msg) == Err(UnknownField)
  {
    hide EncodeTag, ReadTag;
    TagRoundTrip(buf, pos, no, wire);
  }

  /** Wherever a legal field stands, one round of the loop consumes exactly it and applies it. */
  lemma {:induction false} FieldRead(o: Options, ty: TypeName, buf: Bytes, pos: nat, end: int, msg: Message, f: Field)
    requires ValidOptions(o) && |msg| == |o.fields(ty)| && Legal(o, ty, f)
    requires At(buf, pos, FieldBytes(f)) && pos < end
    ensures pos + |FieldBytes(f)| <= |buf|
    ensures ReadMessage(o, ty, buf, pos, end, msg)
         == ReadMessage(o, ty, buf, pos + |FieldBytes(f)|, end, Apply(o, ty, msg, f))
    decreases f, 1
  {
    hide EncodeTag, ReadTag, ReadField, ReadMessage, ItemBytes, Apply;
    var tag := EncodeTag(f.no, ItemWire(f.item));
    AtConcat(buf, pos, tag, ItemBytes(f.item));
    TagRoundTrip(buf, pos, f.no, ItemWire(f.item));
    ItemRead(o, ty, buf, pos + |tag|, msg, f);
    RoundStep(o, ty, buf, pos, end, msg, Tag(f.no, ItemWire(f.item)), pos + |tag|,
              Apply(o, ty, msg, f), pos + |FieldBytes(f)|);
  }

  /**
   Reading any sequence of legal fields, nested to any depth, has the effect of applying them in turn, and
   the loop goes on right behind them.
   */
  lemma {:induction false} ReadFields(o: Options, ty: TypeName, buf: Bytes, pos: nat, end: int, msg: Message,
                                      fs: seq<Field>)
    requires ValidOptions(o) && |msg| == |o.fields(ty)| && LegalAll(o, ty, fs)
    requires At(buf, pos, FieldsBytes(fs)) && pos + |FieldsBytes(fs)| <= end
    ensures ReadMessage(o, ty, buf, pos, end, msg)
         == ReadMessage(o, ty, buf, pos + |FieldsBytes(fs)|, end, Interpret(o, ty, msg, fs))
    decreases fs, 0
  {
    hide EncodeVarint, FieldBytes, ReadMessage, Legal, Apply;
    if fs != [] {
      var f := fs[0];
      AtConcat(buf, pos, FieldBytes(f), FieldsBytes(fs[1..]));
      FieldRead(o, ty, buf, pos, end, msg, f);
      ReadFields(o, ty, buf, pos + |FieldBytes(f)|, end, Apply(o, ty, msg, f), fs[1..]);
      assert |FieldsBytes(fs)| == |FieldBytes(f)| + |FieldsBytes(fs[1..])|;
      assert Interpret(o, ty, msg, fs) == Interpret(o, ty, Apply(o, ty, msg, f), fs[1..]);
    }
  }
}
