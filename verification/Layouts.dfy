/**
 The bytes of every message, field by field with the tags as numbers: a tag is eight times the field number plus the
 wire type. And the values each message may hold.
 */
module Layouts {
  import opened Codec
  import opened DdcMessages
  import opened Messages
  import opened Options
  import opened Wire

  // ---- Fields on the wire ----

  /** A negative number is written as its 64-bit two's complement. */
  function Varint(n: int): Bytes { EncodeVarint(n % 0x1_0000_0000_0000_0000) }

  function Sized(tag: Byte, b: Bytes): Bytes { [tag] + EncodeVarint(|b|) + b }

  function NonZero(tag: Byte, n: int): Bytes { if n == 0 then [] else [tag] + Varint(n) }

  function NonEmpty(tag: Byte, b: Bytes): Bytes { if b == [] then [] else Sized(tag, b) }

  function IfTrue(tag: Byte, b: bool): Bytes { if b then [tag, 1] else [] }

  function SomeNumber(tag: Byte, n: Option<int>): Bytes { if n.Some? then [tag] + Varint(n.value) else [] }

  function SomeFlag(tag: Byte, b: Option<bool>): Bytes { if b.Some? then [tag, if b.value then 1 else 0] else [] }

  function SomeBytes(tag: Byte, b: Option<Bytes>): Bytes { if b.Some? then Sized(tag, b.value) else [] }

  function Each(tag: Byte, bs: seq<Bytes>): Bytes { if bs == [] then [] else Sized(tag, bs[0]) + Each(tag, bs[1..]) }

  function Varints(ns: seq<int>): Bytes { if ns == [] then [] else Varint(ns[0]) + Varints(ns[1..]) }

  function PackedRun(tag: Byte, ns: seq<int>): Bytes { if ns == [] then [] else Sized(tag, Varints(ns)) }

  // ---- Fields as values ----

  function OfBytes(b: Option<Bytes>): Value { if b.Some? then Raw(b.value) else Absent }

  function OfNumber(n: Option<int>): Value { if n.Some? then Num(n.value) else Absent }

  function OfFlag(b: Option<bool>): Value { if b.Some? then Flag(b.value) else Absent }

  function OfMessage(m: Option<Message>): Value { if m.Some? then Msg(m.value) else Absent }

  function OfEach(bs: seq<Bytes>): Value { List(seq(|bs|, i requires 0 <= i < |bs| => Raw(bs[i]))) }

  function OfMessages(ms: seq<Message>): Value { List(seq(|ms|, i requires 0 <= i < |ms| => Msg(ms[i]))) }

  function Written(ty: TypeName, m: Option<Message>): Option<Bytes> {
    if m.Some? then Some(Encode(DDC, ty, m.value)) else None
  }

  function WrittenEach(ty: TypeName, ms: seq<Message>): seq<Bytes> {
    seq(|ms|, i requires 0 <= i < |ms| => Encode(DDC, ty, ms[i]))
  }

  // ---- Ranges ----

  predicate Fits(b: Bytes) { |b| < 0x1_0000_0000 }

  predicate OptionalFits(b: Option<Bytes>) { b.Some? ==> Fits(b.value) }

  predicate Int32Range(n: int) { -0x8000_0000 <= n < 0x8000_0000 }

  predicate Uint64Range(n: int) { 0 <= n < 0x1_0000_0000_0000_0000 }

  /** What a 64-bit field read as a `number` may hold. */
  predicate SafeRange(n: int) { 0 <= n <= 0x1F_FFFF_FFFF_FFFF }

  predicate MaybeConforms(ty: TypeName, m: Option<Message>) { m.Some? ==> Conforms(DDC, ty, m.value) }

  // ---- Slot by slot ----

  function SlotBytes(k: Kind, no: nat, v: Value): Bytes { FieldsBytes(SlotFields(DDC, no, k, v)) }

  function SlotsBytes(ks: Kinds, m: Message, n: nat): Bytes
    requires n <= |m| && n <= |ks|
  {
    if n == 0 then [] else SlotsBytes(ks, m, n - 1) + SlotBytes(ks[n - 1], n, m[n - 1])
  }

  predicate SlotsConform(ks: Kinds, m: Message, n: nat)
    requires n <= |m| && n <= |ks|
  {
    n == 0 || (SlotsConform(ks, m, n - 1) && ConformsSlot(DDC, ks[n - 1], m[n - 1]))
  }

  lemma {:induction false} FieldsSlots(ty: TypeName, m: Message, n: nat)
    requires n <= |m| == |Table(ty)|
    ensures FieldsBytes(Fields(DDC, ty, m, n)) == SlotsBytes(Table(ty), m, n)
    decreases n
  {
    hide SlotFields, Table;
    if n > 0 {
      FieldsSlots(ty, m, n - 1);
      BytesConcat(Fields(DDC, ty, m, n - 1), SlotFields(DDC, n, DDC.fields(ty)[n - 1], m[n - 1]));
    }
  }

  lemma {:induction false} SlotsConformIff(ks: Kinds, m: Message, n: nat)
    requires n <= |m| && n <= |ks|
    ensures SlotsConform(ks, m, n) <==> forall i | 0 <= i < n :: ConformsSlot(DDC, ks[i], m[i])
    decreases n
  {
    hide ConformsSlot;
    if n > 0 {
      SlotsConformIff(ks, m, n - 1);
    }
  }

  /** No two fields of a oneof are set. */
  ghost predicate OneofsConform(ks: Kinds, m: Message) {
    |m| == |ks| &&
    forall i, j | 0 <= i < j < |m| && ks[i].rule.Oneof? && ks[j].rule.Oneof? :: m[i].Absent? || m[j].Absent?
  }

  lemma BySlots(ty: TypeName, m: Message)
    requires |m| == |Table(ty)|
    ensures Encode(DDC, ty, m) == SlotsBytes(Table(ty), m, |m|)
    ensures Conforms(DDC, ty, m) <==> SlotsConform(Table(ty), m, |m|) && OneofsConform(Table(ty), m)
  {
    hide FieldsBytes, Fields, ConformsSlot, Table;
    FieldsSlots(ty, m, |m|);
    SlotsConformIff(Table(ty), m, |m|);
  }

  lemma FirstSlots(ks: Kinds, m: Message)
    requires |m| == |ks| > 0
    ensures SlotsBytes(ks, m, 1) == SlotBytes(ks[0], 1, m[0])
    ensures SlotsConform(ks, m, 1) <==> ConformsSlot(DDC, ks[0], m[0])
  {
    hide SlotBytes, ConformsSlot;
    assert SlotsBytes(ks, m, 0) == [];
    assert SlotsConform(ks, m, 0);
  }

  lemma NextSlot(ks: Kinds, m: Message, n: nat)
    requires 0 < n <= |m| == |ks|
    ensures SlotsBytes(ks, m, n) == SlotsBytes(ks, m, n - 1) + SlotBytes(ks[n - 1], n, m[n - 1])
    ensures SlotsConform(ks, m, n) <==> SlotsConform(ks, m, n - 1) && ConformsSlot(DDC, ks[n - 1], m[n - 1])
  {}

  /** The messages that are a oneof of two. */
  lemma OneofSlots(ty: TypeName, m: Message)
    requires |m| == |Table(ty)| == 2 && Table(ty)[0].rule.Oneof? && Table(ty)[1].rule.Oneof?
    ensures Encode(DDC, ty, m) == SlotBytes(Table(ty)[0], 1, m[0]) + SlotBytes(Table(ty)[1], 2, m[1])
    ensures Conforms(DDC, ty, m)
       <==> ConformsSlot(DDC, Table(ty)[0], m[0]) && ConformsSlot(DDC, Table(ty)[1], m[1])
            && (m[0].Absent? || m[1].Absent?)
  {
    hide Table, SlotBytes, ConformsSlot, Conforms, Encode;
    BySlots(ty, m);
    FirstSlots(Table(ty), m);
    NextSlot(Table(ty), m, 2);
  }

  lemma OneSlots(ty: TypeName, m: Message)
    requires |m| == |Table(ty)| == 1
    requires forall i | 0 <= i < 1 :: !Table(ty)[i].rule.Oneof?
    ensures Encode(DDC, ty, m)
         == SlotBytes(Table(ty)[0], 1, m[0])
    ensures Conforms(DDC, ty, m)
       <==> ConformsSlot(DDC, Table(ty)[0], m[0])
  {
    hide Table, SlotBytes, ConformsSlot, Conforms, Encode;
    BySlots(ty, m);
    FirstSlots(Table(ty), m);
  }

  lemma TwoSlots(ty: TypeName, m: Message)
    requires |m| == |Table(ty)| == 2
    requires forall i | 0 <= i < 2 :: !Table(ty)[i].rule.Oneof?
    ensures Encode(DDC, ty, m)
         == SlotBytes(Table(ty)[0], 1, m[0]) + SlotBytes(Table(ty)[1], 2, m[1])
    ensures Conforms(DDC, ty, m)
       <==> ConformsSlot(DDC, Table(ty)[0], m[0]) && ConformsSlot(DDC, Table(ty)[1], m[1])
  {
    hide Table, SlotBytes, ConformsSlot, Conforms, Encode;
    BySlots(ty, m);
    FirstSlots(Table(ty), m);
    NextSlot(Table(ty), m, 2);
  }

  lemma ThreeSlots(ty: TypeName, m: Message)
    requires |m| == |Table(ty)| == 3
    requires forall i | 0 <= i < 3 :: !Table(ty)[i].rule.Oneof?
    ensures Encode(DDC, ty, m)
         == SlotBytes(Table(ty)[0], 1, m[0]) + SlotBytes(Table(ty)[1], 2, m[1])
            + SlotBytes(Table(ty)[2], 3, m[2])
    ensures Conforms(DDC, ty, m)
       <==> ConformsSlot(DDC, Table(ty)[0], m[0]) && ConformsSlot(DDC, Table(ty)[1], m[1])
            && ConformsSlot(DDC, Table(ty)[2], m[2])
  {
    hide Table, SlotBytes, ConformsSlot, Conforms, Encode;
    BySlots(ty, m);
    FirstSlots(Table(ty), m);
    NextSlot(Table(ty), m, 2);
    NextSlot(Table(ty), m, 3);
  }

  lemma FourSlots(ty: TypeName, m: Message)
    requires |m| == |Table(ty)| == 4
    requires forall i | 0 <= i < 4 :: !Table(ty)[i].rule.Oneof?
    ensures Encode(DDC, ty, m)
         == SlotBytes(Table(ty)[0], 1, m[0]) + SlotBytes(Table(ty)[1], 2, m[1])
            + SlotBytes(Table(ty)[2], 3, m[2]) + SlotBytes(Table(ty)[3], 4, m[3])
    ensures Conforms(DDC, ty, m)
       <==> ConformsSlot(DDC, Table(ty)[0], m[0]) && ConformsSlot(DDC, Table(ty)[1], m[1])
            && ConformsSlot(DDC, Table(ty)[2], m[2]) && ConformsSlot(DDC, Table(ty)[3], m[3])
  {
    hide Table, SlotBytes, ConformsSlot, Conforms, Encode;
    BySlots(ty, m);
    FirstSlots(Table(ty), m);
    NextSlot(Table(ty), m, 2);
    NextSlot(Table(ty), m, 3);
    NextSlot(Table(ty), m, 4);
  }

  lemma FiveSlots(ty: TypeName, m: Message)
    requires |m| == |Table(ty)| == 5
    requires forall i | 0 <= i < 5 :: !Table(ty)[i].rule.Oneof?
    ensures Encode(DDC, ty, m)
         == SlotBytes(Table(ty)[0], 1, m[0]) + SlotBytes(Table(ty)[1], 2, m[1])
            + SlotBytes(Table(ty)[2], 3, m[2]) + SlotBytes(Table(ty)[3], 4, m[3])
            + SlotBytes(Table(ty)[4], 5, m[4])
    ensures Conforms(DDC, ty, m)
       <==> ConformsSlot(DDC, Table(ty)[0], m[0]) && ConformsSlot(DDC, Table(ty)[1], m[1])
            && ConformsSlot(DDC, Table(ty)[2], m[2]) && ConformsSlot(DDC, Table(ty)[3], m[3])
            && ConformsSlot(DDC, Table(ty)[4], m[4])
  {
    hide Table, SlotBytes, ConformsSlot, Conforms, Encode;
    BySlots(ty, m);
    FirstSlots(Table(ty), m);
    NextSlot(Table(ty), m, 2);
    NextSlot(Table(ty), m, 3);
    NextSlot(Table(ty), m, 4);
    NextSlot(Table(ty), m, 5);
  }

  lemma SevenSlots(ty: TypeName, m: Message)
    requires |m| == |Table(ty)| == 7
    requires forall i | 0 <= i < 7 :: !Table(ty)[i].rule.Oneof?
    ensures Encode(DDC, ty, m)
         == SlotBytes(Table(ty)[0], 1, m[0]) + SlotBytes(Table(ty)[1], 2, m[1])
            + SlotBytes(Table(ty)[2], 3, m[2]) + SlotBytes(Table(ty)[3], 4, m[3])
            + SlotBytes(Table(ty)[4], 5, m[4]) + SlotBytes(Table(ty)[5], 6, m[5])
            + SlotBytes(Table(ty)[6], 7, m[6])
    ensures Conforms(DDC, ty, m)
       <==> ConformsSlot(DDC, Table(ty)[0], m[0]) && ConformsSlot(DDC, Table(ty)[1], m[1])
            && ConformsSlot(DDC, Table(ty)[2], m[2]) && ConformsSlot(DDC, Table(ty)[3], m[3])
            && ConformsSlot(DDC, Table(ty)[4], m[4]) && ConformsSlot(DDC, Table(ty)[5], m[5])
            && ConformsSlot(DDC, Table(ty)[6], m[6])
  {
    hide Table, SlotBytes, ConformsSlot, Conforms, Encode;
    BySlots(ty, m);
    FirstSlots(Table(ty), m);
    NextSlot(Table(ty), m, 2);
    NextSlot(Table(ty), m, 3);
    NextSlot(Table(ty), m, 4);
    NextSlot(Table(ty), m, 5);
    NextSlot(Table(ty), m, 6);
    NextSlot(Table(ty), m, 7);
  }

  lemma TenSlots(ty: TypeName, m: Message)
    requires |m| == |Table(ty)| == 10
    requires forall i | 0 <= i < 10 :: !Table(ty)[i].rule.Oneof?
    ensures Encode(DDC, ty, m)
         == SlotBytes(Table(ty)[0], 1, m[0]) + SlotBytes(Table(ty)[1], 2, m[1])
            + SlotBytes(Table(ty)[2], 3, m[2]) + SlotBytes(Table(ty)[3], 4, m[3])
            + SlotBytes(Table(ty)[4], 5, m[4]) + SlotBytes(Table(ty)[5], 6, m[5])
            + SlotBytes(Table(ty)[6], 7, m[6]) + SlotBytes(Table(ty)[7], 8, m[7])
            + SlotBytes(Table(ty)[8], 9, m[8]) + SlotBytes(Table(ty)[9], 10, m[9])
    ensures Conforms(DDC, ty, m)
       <==> ConformsSlot(DDC, Table(ty)[0], m[0]) && ConformsSlot(DDC, Table(ty)[1], m[1])
            && ConformsSlot(DDC, Table(ty)[2], m[2]) && ConformsSlot(DDC, Table(ty)[3], m[3])
            && ConformsSlot(DDC, Table(ty)[4], m[4]) && ConformsSlot(DDC, Table(ty)[5], m[5])
            && ConformsSlot(DDC, Table(ty)[6], m[6]) && ConformsSlot(DDC, Table(ty)[7], m[7])
            && ConformsSlot(DDC, Table(ty)[8], m[8]) && ConformsSlot(DDC, Table(ty)[9], m[9])
  {
    hide Table, SlotBytes, ConformsSlot, Conforms, Encode;
    BySlots(ty, m);
    FirstSlots(Table(ty), m);
    NextSlot(Table(ty), m, 2);
    NextSlot(Table(ty), m, 3);
    NextSlot(Table(ty), m, 4);
    NextSlot(Table(ty), m, 5);
    NextSlot(Table(ty), m, 6);
    NextSlot(Table(ty), m, 7);
    NextSlot(Table(ty), m, 8);
    NextSlot(Table(ty), m, 9);
    NextSlot(Table(ty), m, 10);
  }

  lemma TagByte(no: nat, wire: nat)
    requires no * 8 + wire < 128
    ensures EncodeTag(no, wire) == [no * 8 + wire]
  {}

  lemma OneField(f: Field)
    ensures FieldsBytes([f]) == FieldBytes(f)
  {
    assert FieldsBytes([f]) == FieldBytes(f) + FieldsBytes([f][1..]) == FieldBytes(f) + [];
  }

  predicate IsNumber(s: Scalar) { !s.Bool? && !s.BytesField? }

  lemma NumberField(no: nat, s: Scalar, n: int)
    requires 0 < no < 16 && IsNumber(s)
    ensures ScalarOk(s, Num(n)) ==> FieldBytes(Field(no, Leaf(s, Num(n)))) == [no * 8] + Varint(n)
  {
    TagByte(no, VARINT);
    hide EncodeTag, EncodeVarint;
    if ScalarOk(s, Num(n)) {
      Complement(n);
    }
  }

  lemma Complement(n: int)
    requires -0x1_0000_0000_0000_0000 <= n < 0x1_0000_0000_0000_0000
    ensures n % 0x1_0000_0000_0000_0000 == if n < 0 then n + 0x1_0000_0000_0000_0000 else n
  {}

  lemma SizedField(no: nat, item: Item, b: Bytes)
    requires 0 < no < 16 && ItemWire(item) == 2 && ItemBytes(item) == Delimited(b)
    ensures FieldBytes(Field(no, item)) == Sized(no * 8 + 2, b)
  {
    TagByte(no, LENGTH_DELIMITED);
    hide EncodeTag, EncodeVarint, ItemBytes;
  }

  lemma NoFields()
    ensures FieldsBytes([]) == []
  {}

  lemma ImplicitNumber(no: nat, s: Scalar, n: int)
    requires 0 < no < 16 && IsNumber(s)
    ensures ConformsSlot(DDC, Kind(Implicit, Plain(s)), Num(n)) <==> ScalarOk(s, Num(n))
    ensures ScalarOk(s, Num(n)) ==> SlotBytes(Kind(Implicit, Plain(s)), no, Num(n)) == NonZero(no * 8, n)
  {
    hide FieldBytes, FieldsBytes, Varint;
    var k := Kind(Implicit, Plain(s));
    var f := Field(no, Leaf(s, Num(n)));
    NumberField(no, s, n);
    OneField(f);
    NoFields();
    assert Default(k) == Num(0);
    assert SlotFields(DDC, no, k, Num(n)) == if n == 0 then [] else [f];
  }

  lemma ImplicitBytes(no: nat, b: Bytes)
    requires 0 < no < 16
    ensures ConformsSlot(DDC, Kind(Implicit, Plain(BytesField)), Raw(b)) <==> Fits(b)
    ensures SlotBytes(Kind(Implicit, Plain(BytesField)), no, Raw(b)) == NonEmpty(no * 8 + 2, b)
  {
    hide FieldBytes, FieldsBytes, Sized;
    var k := Kind(Implicit, Plain(BytesField));
    var f := Field(no, Leaf(BytesField, Raw(b)));
    SizedField(no, f.item, b);
    OneField(f);
    NoFields();
    assert Default(k) == Raw([]);
    assert SlotFields(DDC, no, k, Raw(b)) == if b == [] then [] else [f];
  }

  lemma ImplicitFlag(no: nat, b: bool)
    requires 0 < no < 16
    ensures ConformsSlot(DDC, Kind(Implicit, Plain(Bool)), Flag(b))
    ensures SlotBytes(Kind(Implicit, Plain(Bool)), no, Flag(b)) == IfTrue(no * 8, b)
  {
    hide FieldBytes, FieldsBytes;
    var k := Kind(Implicit, Plain(Bool));
    var f := Field(no, Leaf(Bool, Flag(b)));
    FlagField(no, b);
    OneField(f);
    NoFields();
    assert Default(k) == Flag(false);
    assert SlotFields(DDC, no, k, Flag(b)) == if b then [f] else [];
  }

  lemma FlagField(no: nat, b: bool)
    requires 0 < no < 16
    ensures FieldBytes(Field(no, Leaf(Bool, Flag(b)))) == [no * 8, if b then 1 else 0]
  {
    TagByte(no, VARINT);
  }

  lemma IfPresent(rule: Rule, c: Content, no: nat, v: Value)
    requires rule.Optional? || rule.Oneof?
    ensures SlotBytes(Kind(rule, c), no, v) == if v.Absent? then [] else FieldBytes(Field(no, ElementItem(DDC, c, v)))
  {
    hide FieldsBytes, FieldBytes;
    var f := Field(no, ElementItem(DDC, c, v));
    NoFields();
    OneField(f);
    assert SlotFields(DDC, no, Kind(rule, c), v) == if v.Absent? then [] else [f];
  }

  lemma OptionalNumber(no: nat, s: Scalar, n: Option<int>)
    requires 0 < no < 16 && IsNumber(s)
    ensures ConformsSlot(DDC, Kind(Optional, Plain(s)), OfNumber(n)) <==> (n.Some? ==> ScalarOk(s, Num(n.value)))
    ensures (n.Some? ==> ScalarOk(s, Num(n.value))) ==>
      SlotBytes(Kind(Optional, Plain(s)), no, OfNumber(n)) == SomeNumber(no * 8, n)
  {
    hide FieldBytes, SlotBytes, Varint;
    IfPresent(Optional, Plain(s), no, OfNumber(n));
    if n.Some? {
      NumberField(no, s, n.value);
    }
  }

  lemma OptionalFlag(no: nat, b: Option<bool>)
    requires 0 < no < 16
    ensures ConformsSlot(DDC, Kind(Optional, Plain(Bool)), OfFlag(b))
    ensures SlotBytes(Kind(Optional, Plain(Bool)), no, OfFlag(b)) == SomeFlag(no * 8, b)
  {
    hide FieldBytes, SlotBytes;
    IfPresent(Optional, Plain(Bool), no, OfFlag(b));
    if b.Some? {
      FlagField(no, b.value);
    }
  }

  lemma OptionalBytes(rule: Rule, no: nat, b: Option<Bytes>)
    requires 0 < no < 16 && (rule.Optional? || rule.Oneof?)
    ensures ConformsSlot(DDC, Kind(rule, Plain(BytesField)), OfBytes(b)) <==> OptionalFits(b)
    ensures SlotBytes(Kind(rule, Plain(BytesField)), no, OfBytes(b)) == SomeBytes(no * 8 + 2, b)
  {
    hide FieldBytes, SlotBytes, Sized;
    IfPresent(rule, Plain(BytesField), no, OfBytes(b));
    if b.Some? {
      SizedField(no, Leaf(BytesField, Raw(b.value)), b.value);
    }
  }

  lemma SubMessage(rule: Rule, no: nat, ty: TypeName, m: Option<Message>)
    requires 0 < no < 16 && (rule.Optional? || rule.Oneof?)
    ensures ConformsSlot(DDC, Kind(rule, Sub(ty)), OfMessage(m)) <==> MaybeConforms(ty, m)
    ensures SlotBytes(Kind(rule, Sub(ty)), no, OfMessage(m)) == SomeBytes(no * 8 + 2, Written(ty, m))
  {
    hide FieldBytes, SlotBytes, Sized, Conforms, Fields, Table;
    IfPresent(rule, Sub(ty), no, OfMessage(m));
    if m.Some? {
      SizedField(no, Body(Fields(DDC, ty, m.value, |m.value|)), Encode(DDC, ty, m.value));
    }
  }

  lemma MoreFields(f: Field, fs: seq<Field>)
    ensures FieldsBytes([f] + fs) == FieldBytes(f) + FieldsBytes(fs)
  {
    assert ([f] + fs)[1..] == fs;
  }

  lemma {:induction false} EachBytes(no: nat, bs: seq<Bytes>)
    requires 0 < no < 16
    ensures FieldsBytes(ListFields(DDC, no, Plain(BytesField), OfEach(bs).items)) == Each(no * 8 + 2, bs)
    decreases |bs|
  {
    hide FieldBytes, FieldsBytes, Sized;
    NoFields();
    if bs != [] {
      var f := Field(no, Leaf(BytesField, Raw(bs[0])));
      var rest := OfEach(bs[1..]).items;
      assert OfEach(bs).items == [Raw(bs[0])] + rest;
      EachBytes(no, bs[1..]);
      SizedField(no, f.item, bs[0]);
      MoreFields(f, ListFields(DDC, no, Plain(BytesField), rest));
      assert OfEach(bs).items[1..] == rest;
    }
  }

  lemma {:induction false} EachMessage(no: nat, ty: TypeName, ms: seq<Message>)
    requires 0 < no < 16
    ensures FieldsBytes(ListFields(DDC, no, Sub(ty), OfMessages(ms).items)) == Each(no * 8 + 2, WrittenEach(ty, ms))
    decreases |ms|
  {
    hide FieldBytes, FieldsBytes, Sized, Fields, Table;
    NoFields();
    if ms != [] {
      var f := Field(no, Body(Fields(DDC, ty, ms[0], |ms[0]|)));
      var rest := OfMessages(ms[1..]).items;
      assert OfMessages(ms).items == [Msg(ms[0])] + rest;
      EachMessage(no, ty, ms[1..]);
      SizedField(no, f.item, Encode(DDC, ty, ms[0]));
      MoreFields(f, ListFields(DDC, no, Sub(ty), rest));
      assert OfMessages(ms).items[1..] == rest;
      assert WrittenEach(ty, ms)[1..] == WrittenEach(ty, ms[1..]);
    }
  }

  lemma RepeatedBytes(no: nat, bs: seq<Bytes>)
    requires 0 < no < 16
    ensures ConformsSlot(DDC, Kind(Repeated, Plain(BytesField)), OfEach(bs))
       <==> forall i | 0 <= i < |bs| :: Fits(bs[i])
    ensures SlotBytes(Kind(Repeated, Plain(BytesField)), no, OfEach(bs)) == Each(no * 8 + 2, bs)
  {
    hide FieldBytes, FieldsBytes, Sized;
    var vs := OfEach(bs).items;
    assert forall i | 0 <= i < |bs| :: vs[i] == Raw(bs[i]);
    EachBytes(no, bs);
  }

  lemma RepeatedMessages(no: nat, ty: TypeName, ms: seq<Message>)
    requires 0 < no < 16
    ensures ConformsSlot(DDC, Kind(Repeated, Sub(ty)), OfMessages(ms))
       <==> forall i | 0 <= i < |ms| :: Conforms(DDC, ty, ms[i])
    ensures SlotBytes(Kind(Repeated, Sub(ty)), no, OfMessages(ms)) == Each(no * 8 + 2, WrittenEach(ty, ms))
  {
    hide FieldBytes, FieldsBytes, Sized, Conforms, Fields, Encode;
    var vs := OfMessages(ms).items;
    assert forall i | 0 <= i < |ms| :: vs[i] == Msg(ms[i]);
    EachMessage(no, ty, ms);
  }

  lemma {:induction false} RunIs(ns: seq<int>)
    requires forall i | 0 <= i < |ns| :: ScalarOk(Int32, Num(ns[i]))
    ensures RunBytes(ns) == Varints(ns)
    decreases |ns|
  {
    hide EncodeVarint;
    if ns != [] {
      Complement(ns[0]);
      RunIs(ns[1..]);
    }
  }

  lemma PackedNumbers(no: nat, ns: seq<int>)
    requires 0 < no < 16
    ensures ConformsSlot(DDC, Kind(Packed, Plain(Int32)), List(Nums(ns)))
       <==> forall i | 0 <= i < |ns| :: -0x8000_0000 <= ns[i] < 0x8000_0000
    ensures (forall i | 0 <= i < |ns| :: -0x8000_0000 <= ns[i] < 0x8000_0000) ==>
      SlotBytes(Kind(Packed, Plain(Int32)), no, List(Nums(ns))) == PackedRun(no * 8 + 2, ns)
  {
    hide FieldBytes, FieldsBytes, Sized, Varints, RunBytes;
    var vs := Nums(ns);
    assert forall i | 0 <= i < |ns| :: vs[i] == Num(ns[i]);
    NoFields();
    if forall i | 0 <= i < |ns| :: -0x8000_0000 <= ns[i] < 0x8000_0000 {
      RunIs(ns);
      assert RunOf(vs) == ns;
      var f := Field(no, Run(ns));
      SizedField(no, f.item, Varints(ns));
      OneField(f);
    }
  }
}
