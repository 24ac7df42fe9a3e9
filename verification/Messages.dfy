/**
 What the writer produces, and the laws that tie it to the reader: merging, the round trip and injectivity.
 */
module Messages {
  import opened Codec
  import opened Wire

  /** A value a field of kind `k` may hold. */
  predicate ConformsSlot(o: Options, k: Kind, v: Value)
    decreases v, 2
  {
    match k.rule
    case Implicit => k.content.Plain? && ScalarOk(k.content.scalar, v)
    case Repeated => v.List? && forall i | 0 <= i < |v.items| :: ConformsElement(o, k.content, v.items[i])
    case Packed => v.List? && forall i | 0 <= i < |v.items| :: ScalarOk(Int32, v.items[i])
    case _ => v.Absent? || ConformsElement(o, k.content, v)
  }

  predicate ConformsElement(o: Options, c: Content, v: Value)
    decreases v, 1
  {
    match c
    case Plain(s) => ScalarOk(s, v)
    case Sub(ty) => v.Msg? && Conforms(o, ty, v.slots)
  }

  /** A message of type `ty`: every field holds a value of its kind, and at most one field of a oneof is set. */
  predicate Conforms(o: Options, ty: TypeName, m: Message)
    decreases m, 0
  {
    var ks := o.fields(ty);
    && |m| == |ks|
    && (forall i | 0 <= i < |m| :: ConformsSlot(o, ks[i], m[i]))
    && forall i, j | 0 <= i < j < |m| && ks[i].rule.Oneof? && ks[j].rule.Oneof? :: m[i].Absent? || m[j].Absent?
  }

  // ---- The writer ----

  function ElementItem(o: Options, c: Content, v: Value): Item
    decreases v, 1
  {
    match c
    case Plain(s) => Leaf(s, v)
    case Sub(ty) => Body(if v.Msg? then Fields(o, ty, v.slots, |v.slots|) else [])
  }

  function ListFields(o: Options, no: nat, c: Content, vs: seq<Value>): (fs: seq<Field>)
    ensures |fs| == |vs|
    decreases vs, 2
  {
    if vs == [] then [] else [Field(no, ElementItem(o, c, vs[0]))] + ListFields(o, no, c, vs[1..])
  }

  function RunOf(vs: seq<Value>): seq<int> {
    seq(|vs|, i requires 0 <= i < |vs| => if vs[i].Num? then vs[i].n else 0)
  }

  /** One `if` or `for` of `internalBinaryWrite`: what it writes for a field holding `v`. */
  function SlotFields(o: Options, no: nat, k: Kind, v: Value): seq<Field>
    decreases v, 3
  {
    match k.rule
    case Implicit => if v == Default(k) then [] else [Field(no, ElementItem(o, k.content, v))]
    case Repeated => if v.List? then ListFields(o, no, k.content, v.items) else []
    case Packed => if v.List? && v.items != [] then [Field(no, Run(RunOf(v.items)))] else []
    case _ => if v.Absent? then [] else [Field(no, ElementItem(o, k.content, v))]
  }

  /** What the writer has written after the first `n` fields. */
  function Fields(o: Options, ty: TypeName, m: Message, n: nat): seq<Field>
    requires n <= |m|
    decreases m, 0, n
  {
    if n == 0 || n > |o.fields(ty)| then []
    else Fields(o, ty, m, n - 1) + SlotFields(o, n, o.fields(ty)[n - 1], m[n - 1])
  }

  /** `toBinary`. */
  function Encode(o: Options, ty: TypeName, m: Message): Bytes { FieldsBytes(Fields(o, ty, m, |m|)) }

  /** A message of the type whose lengths all fit the prefixes the writer asserts to be 32-bit. */
  ghost predicate Writable(o: Options, ty: TypeName, m: Message) {
    Conforms(o, ty, m) && LegalAll(o, ty, Fields(o, ty, m, |m|))
  }

  // ---- Merging ----

  /** The slot `x` after a message holding `y` in the same field was read on top of it. */
  function Combine(o: Options, k: Kind, x: Value, y: Value): Value
    decreases y, 1
  {
    match k.rule
    case Implicit => if y == Default(k) then x else y
    case Repeated => List(Items(x) + Items(y))
    case Packed => List(Items(x) + Items(y))
    case _ =>
      if y.Absent? then x
      else if k.content.Sub? && y.Msg? then Msg(Merge(o, k.content.ty, Target(o, k.content.ty, x), y.slots))
      else y
  }

  predicate SetsOneof(ks: Kinds, m: Message, n: nat)
    requires n <= |m| == |ks|
  {
    exists i | 0 <= i < n :: ks[i].rule.Oneof? && !m[i].Absent?
  }

  /**
   Slot `i` of `a` once the first `n` fields of `b` were read on top. Fields combine one by one, save that a
   oneof which `b` sets keeps only the field that `b` sets.
   */
  function MergedSlot(o: Options, ks: Kinds, a: Message, b: Message, n: nat, i: nat): Value
    requires i < |ks| == |a| == |b| && n <= |b|
    decreases b, 0, i
  {
    if ks[i].rule.Oneof? && SetsOneof(ks, b, n) && (i >= n || b[i].Absent?) then Absent
    else if i < n then Combine(o, ks[i], a[i], b[i])
    else a[i]
  }

  function MergeFirst(o: Options, ty: TypeName, a: Message, b: Message, n: nat): (m: Message)
    requires |a| == |o.fields(ty)| == |b| && n <= |b|
    ensures |m| == |a|
    decreases b, 0, |b|
  {
    seq(|a|, i requires 0 <= i < |a| => MergedSlot(o, o.fields(ty), a, b, n, i))
  }

  /** `b` merged into `a`. */
  function Merge(o: Options, ty: TypeName, a: Message, b: Message): (m: Message)
    requires |a| == |o.fields(ty)|
    ensures |m| == |a|
    decreases b, 0, |b| + 1
  {
    if |b| == |a| then MergeFirst(o, ty, a, b, |b|) else a
  }

  // ---- Reading what the writer wrote merges it ----

  lemma {:induction false} InterpretConcat(o: Options, ty: TypeName, m: Message, fs: seq<Field>, gs: seq<Field>)
    requires |m| == |o.fields(ty)|
    ensures Interpret(o, ty, m, fs + gs) == Interpret(o, ty, Interpret(o, ty, m, fs), gs)
    decreases |fs|
  {
    if fs == [] {
      assert fs + gs == gs;
    } else {
      assert (fs + gs)[0] == fs[0] && (fs + gs)[1..] == fs[1..] + gs;
      InterpretConcat(o, ty, Apply(o, ty, m, fs[0]), fs[1..], gs);
    }
  }

  lemma InterpretOne(o: Options, ty: TypeName, m: Message, f: Field)
    requires |m| == |o.fields(ty)|
    ensures Interpret(o, ty, m, [f]) == Apply(o, ty, m, f)
  {}

  lemma {:induction false} BytesConcat(fs: seq<Field>, gs: seq<Field>)
    ensures FieldsBytes(fs + gs) == FieldsBytes(fs) + FieldsBytes(gs)
    decreases |fs|
  {
    hide FieldBytes;
    if fs == [] {
      assert fs + gs == gs;
    } else {
      assert (fs + gs)[0] == fs[0] && (fs + gs)[1..] == fs[1..] + gs;
      BytesConcat(fs[1..], gs);
    }
  }

  lemma CreateConforms(o: Options, ty: TypeName)
    requires ValidOptions(o)
    ensures Conforms(o, ty, Create(o, ty))
  {
    var ks := o.fields(ty);
    forall i | 0 <= i < |ks| ensures ConformsSlot(o, ks[i], Default(ks[i])) {
      assert ValidKind(ks[i]);
    }
  }

  lemma TargetConforms(o: Options, k: Kind, x: Value)
    requires ValidOptions(o) && k.content.Sub? && ConformsSlot(o, k, x)
    ensures Conforms(o, k.content.ty, Target(o, k.content.ty, Prior(k.rule, x)))
  {
    CreateConforms(o, k.content.ty);
  }

  /** Merging into a fresh message gives back the message: its omitted fields are those `create` restores. */
  lemma {:induction false} MergeIntoNew(o: Options, ty: TypeName, m: Message)
    requires ValidOptions(o) && Conforms(o, ty, m)
    ensures Merge(o, ty, Create(o, ty), m) == m
    decreases m
  {
    var ks := o.fields(ty);
    var blank := Create(o, ty);
    forall i | 0 <= i < |m| ensures MergedSlot(o, ks, blank, m, |m|, i) == m[i] {
      assert ValidKind(ks[i]) && ConformsSlot(o, ks[i], m[i]);
      if ks[i].content.Sub? && m[i].Msg? && !ks[i].rule.Repeated? {
        MergeIntoNew(o, ks[i].content.ty, m[i].slots);
      }
    }
  }

  /** Reading one element on top of a slot puts the element there, merged if it is a sub-message. */
  lemma {:induction false} ElementApplied(o: Options, k: Kind, x: Value, v: Value)
    requires ValidOptions(o) && ValidKind(k) && ConformsSlot(o, k, x) && ConformsElement(o, k.content, v)
    ensures !k.rule.Repeated? && !k.rule.Packed? && v != Default(k)
        ==> ApplyItem(o, k, x, ElementItem(o, k.content, v)) == Combine(o, k, x, v)
    ensures k.rule.Repeated? ==> ApplyItem(o, k, x, ElementItem(o, k.content, v)) == List(Items(x) + [v])
    decreases v, 1
  {
    if k.content.Sub? {
      var ty := k.content.ty;
      var t := Target(o, ty, Prior(k.rule, x));
      TargetConforms(o, k, x);
      FieldsApplied(o, ty, t, v.slots, |v.slots|);
      assert ApplyItem(o, k, x, ElementItem(o, k.content, v)) == Put(k.rule, x, Msg(Merge(o, ty, t, v.slots)));
      if k.rule.Repeated? {
        MergeIntoNew(o, ty, v.slots);
      }
    }
  }

  lemma {:induction false} ListApplied(o: Options, ty: TypeName, a: Message, no: nat, vs: seq<Value>)
    requires ValidOptions(o) && 0 < no <= |a| == |o.fields(ty)| && o.fields(ty)[no - 1].rule.Repeated?
    requires ConformsSlot(o, o.fields(ty)[no - 1], a[no - 1])
    requires forall i | 0 <= i < |vs| :: ConformsElement(o, o.fields(ty)[no - 1].content, vs[i])
    ensures Interpret(o, ty, a, ListFields(o, no, o.fields(ty)[no - 1].content, vs))
         == SetSlot(o.fields(ty), a, no - 1, List(Items(a[no - 1]) + vs))
    decreases vs, 2
  {
    hide ElementItem, ApplyItem, ConformsElement, FieldBytes;
    var ks := o.fields(ty);
    var k := ks[no - 1];
    var x := a[no - 1];
    if vs == [] {
      assert x.items + vs == x.items;
      assert SetSlot(ks, a, no - 1, x) == a;
    } else {
      assert ValidKind(k);
      ElementApplied(o, k, x, vs[0]);
      var a1 := SetSlot(ks, a, no - 1, List(x.items + [vs[0]]));
      ListApplied(o, ty, a1, no, vs[1..]);
      var all := ListFields(o, no, k.content, vs);
      assert all[1..] == ListFields(o, no, k.content, vs[1..]);
      assert Apply(o, ty, a, all[0]) == a1;
      assert x.items + [vs[0]] + vs[1..] == x.items + vs;
      assert SetSlot(ks, a1, no - 1, List(x.items + vs)) == SetSlot(ks, a, no - 1, List(x.items + vs));
    }
  }

  /** Reading what the writer wrote for one field. */
  lemma {:induction false} SlotApplied(o: Options, ty: TypeName, a: Message, no: nat, y: Value)
    requires ValidOptions(o) && 0 < no <= |a| == |o.fields(ty)|
    requires ConformsSlot(o, o.fields(ty)[no - 1], a[no - 1]) && ConformsSlot(o, o.fields(ty)[no - 1], y)
    ensures var ks := o.fields(ty);
      var k := ks[no - 1];
      var fs := SlotFields(o, no, k, y);
      && (fs == [] ==> Combine(o, k, a[no - 1], y) == a[no - 1])
      && (k.rule.Oneof? ==> (fs == [] <==> y.Absent?))
      && (fs != [] ==> Interpret(o, ty, a, fs) == SetSlot(ks, a, no - 1, Combine(o, k, a[no - 1], y)))
    decreases y, 3
  {
    var ks := o.fields(ty);
    var k := ks[no - 1];
    var x := a[no - 1];
    assert ValidKind(k);
    if k.rule.Repeated? {
      ListApplied(o, ty, a, no, y.items);
      assert y.items == [] ==> x.items + y.items == x.items;
    } else if k.rule.Packed? {
      assert Nums(RunOf(y.items)) == y.items;
      InterpretOne(o, ty, a, Field(no, Run(RunOf(y.items))));
      assert y.items == [] ==> x.items + y.items == x.items;
    } else if y != Default(k) {
      ElementApplied(o, k, x, y);
      InterpretOne(o, ty, a, Field(no, ElementItem(o, k.content, y)));
    }
  }

  lemma {:induction false} FieldsApplied(o: Options, ty: TypeName, a: Message, b: Message, n: nat)
    requires ValidOptions(o) && Conforms(o, ty, a) && Conforms(o, ty, b) && n <= |b|
    ensures Interpret(o, ty, a, Fields(o, ty, b, n)) == MergeFirst(o, ty, a, b, n)
    decreases b, 0, n
  {
    hide Combine, SlotFields, SetSlot;
    var ks := o.fields(ty);
    if n == 0 {
      assert MergeFirst(o, ty, a, b, 0) == a;
    } else {
      var c := MergeFirst(o, ty, a, b, n - 1);
      var fs := SlotFields(o, n, ks[n - 1], b[n - 1]);
      FieldsApplied(o, ty, a, b, n - 1);
      InterpretConcat(o, ty, a, Fields(o, ty, b, n - 1), fs);
      assert ConformsSlot(o, ks[n - 1], a[n - 1]) && ConformsSlot(o, ks[n - 1], b[n - 1]);
      SlotApplied(o, ty, c, n, b[n - 1]);
      MergeNext(o, ty, a, b, n);
    }
  }

  /** How the first `n` fields merged follow from the first `n - 1`. */
  lemma MergeNext(o: Options, ty: TypeName, a: Message, b: Message, n: nat)
    requires Conforms(o, ty, a) && Conforms(o, ty, b) && 0 < n <= |b|
    ensures var ks := o.fields(ty);
      var c := MergeFirst(o, ty, a, b, n - 1);
      var v := Combine(o, ks[n - 1], c[n - 1], b[n - 1]);
      && (v == c[n - 1] && (ks[n - 1].rule.Oneof? ==> b[n - 1].Absent?) ==> MergeFirst(o, ty, a, b, n) == c)
      && (!(ks[n - 1].rule.Oneof? && b[n - 1].Absent?) ==> MergeFirst(o, ty, a, b, n) == SetSlot(ks, c, n - 1, v))
  {
  }

  // ---- What can be written ----

  const MAX_BYTES: int := U32 / 2

  lemma {:induction false} ElementLegal(o: Options, ty: TypeName, no: nat, v: Value)
    requires ValidOptions(o) && 0 < no <= |o.fields(ty)| && ConformsElement(o, o.fields(ty)[no - 1].content, v)
    requires |FieldBytes(Field(no, ElementItem(o, o.fields(ty)[no - 1].content, v)))| < MAX_BYTES
    ensures Legal(o, ty, Field(no, ElementItem(o, o.fields(ty)[no - 1].content, v)))
    decreases v, 1
  {
    hide EncodeTag, EncodeVarint, FieldsBytes, Conforms;
    var c := o.fields(ty)[no - 1].content;
    if c.Sub? {
      FieldsLegal(o, c.ty, v.slots, |v.slots|);
    }
  }

  lemma {:induction false} ListLegal(o: Options, ty: TypeName, no: nat, vs: seq<Value>)
    requires ValidOptions(o) && 0 < no <= |o.fields(ty)|
    requires forall i | 0 <= i < |vs| :: ConformsElement(o, o.fields(ty)[no - 1].content, vs[i])
    requires |FieldsBytes(ListFields(o, no, o.fields(ty)[no - 1].content, vs))| < MAX_BYTES
    ensures LegalAll(o, ty, ListFields(o, no, o.fields(ty)[no - 1].content, vs))
    decreases vs, 2
  {
    hide FieldBytes, Legal, ElementItem, ConformsElement;
    if vs != [] {
      var all := ListFields(o, no, o.fields(ty)[no - 1].content, vs);
      assert all[1..] == ListFields(o, no, o.fields(ty)[no - 1].content, vs[1..]);
      ElementLegal(o, ty, no, vs[0]);
      ListLegal(o, ty, no, vs[1..]);
      forall i | 0 <= i < |all| ensures Legal(o, ty, all[i]) {
        if i > 0 {
          assert all[i] == all[1..][i - 1];
        }
      }
    }
  }

  lemma PackedLegal(o: Options, ty: TypeName, no: nat, vs: seq<Value>)
    requires 0 < no <= |o.fields(ty)| <= MAX_FIELD_NO && o.fields(ty)[no - 1].rule.Packed?
    requires forall i | 0 <= i < |vs| :: ScalarOk(Int32, vs[i])
    requires |FieldsBytes([Field(no, Run(RunOf(vs)))])| < MAX_BYTES
    ensures Legal(o, ty, Field(no, Run(RunOf(vs))))
  {
    hide EncodeTag, EncodeVarint, RunBytes;
    var f := Field(no, Run(RunOf(vs)));
    assert FieldsBytes([f]) == FieldBytes(f) + FieldsBytes([f][1..]);
    assert |RunBytes(RunOf(vs))| <= |ItemBytes(f.item)| <= |FieldBytes(f)|;
    forall i | 0 <= i < |vs| ensures ScalarOk(Int32, Num(RunOf(vs)[i])) {
      assert vs[i] == Num(RunOf(vs)[i]);
    }
  }

  lemma {:induction false} SlotLegal(o: Options, ty: TypeName, no: nat, v: Value)
    requires ValidOptions(o) && 0 < no <= |o.fields(ty)| && ConformsSlot(o, o.fields(ty)[no - 1], v)
    requires |FieldsBytes(SlotFields(o, no, o.fields(ty)[no - 1], v))| < MAX_BYTES
    ensures LegalAll(o, ty, SlotFields(o, no, o.fields(ty)[no - 1], v))
    decreases v, 3
  {
    hide FieldBytes, Legal, ListFields, RunBytes, ElementItem, ConformsElement;
    var k := o.fields(ty)[no - 1];
    assert ValidKind(k);
    if k.rule.Repeated? {
      ListLegal(o, ty, no, v.items);
    } else if k.rule.Packed? {
      if v.items != [] {
        PackedLegal(o, ty, no, v.items);
      }
    } else if v != Default(k) {
      var f := Field(no, ElementItem(o, k.content, v));
      assert ConformsElement(o, k.content, v) by {
        ImplicitElement(o, k, v);
      }
      assert FieldsBytes([f]) == FieldBytes(f) + [];
      ElementLegal(o, ty, no, v);
    }
  }

  lemma ImplicitElement(o: Options, k: Kind, v: Value)
    requires ConformsSlot(o, k, v) && !k.rule.Repeated? && !k.rule.Packed? && v != Default(k)
    ensures ConformsElement(o, k.content, v)
  {}

  lemma {:induction false} FieldsLegal(o: Options, ty: TypeName, m: Message, n: nat)
    requires ValidOptions(o) && Conforms(o, ty, m) && n <= |m| && |FieldsBytes(Fields(o, ty, m, n))| < MAX_BYTES
    ensures LegalAll(o, ty, Fields(o, ty, m, n))
    decreases m, 0, n
  {
    hide FieldsBytes, SlotFields, ConformsSlot, Legal;
    if n > 0 {
      var head := Fields(o, ty, m, n - 1);
      var tail := SlotFields(o, n, o.fields(ty)[n - 1], m[n - 1]);
      BytesConcat(head, tail);
      FieldsLegal(o, ty, m, n - 1);
      SlotLegal(o, ty, n, m[n - 1]);
      assert Fields(o, ty, m, n) == head + tail;
      forall i | 0 <= i < |head + tail| ensures Legal(o, ty, (head + tail)[i]) {
        if i >= |head| {
          assert (head + tail)[i] == tail[i - |head|];
        }
      }
    }
  }

  /** Below two gigabytes every length fits its prefix. */
  lemma SmallIsWritable(o: Options, ty: TypeName, m: Message)
    requires ValidOptions(o) && Conforms(o, ty, m) && |Encode(o, ty, m)| < MAX_BYTES
    ensures Writable(o, ty, m)
  {
    FieldsLegal(o, ty, m, |m|);
  }
}
