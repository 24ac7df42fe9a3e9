/**
 What decoding does not see: unknown fields, how a repeated enum is packed, how a sub-message is spread over several
 occurrences, and the order of fields that differ in number - at the top and in every sub-message.
 */
module Rearranging {
  import opened Codec
  import opened CodecLaws
  import opened Messages
  import opened Wire

  // ---- Unknown fields and packing ----

  function Singles(no: nat, ns: seq<int>): seq<Field> {
    seq(|ns|, i requires 0 <= i < |ns| => Field(no, Leaf(Int32, Num(ns[i]))))
  }

  function NormalOne(ks: Kinds, f: Field): seq<Field> {
    if f.no == 0 || f.no > |ks| then []
    else if f.item.Run? && ks[f.no - 1].rule.Packed? then Singles(f.no, f.item.ns)
    else [f]
  }

  /** The fields without those nobody knows, every packed run opened into single entries. */
  function Normal(ks: Kinds, fs: seq<Field>): seq<Field> {
    if fs == [] then [] else NormalOne(ks, fs[0]) + Normal(ks, fs[1..])
  }

  lemma SetTwice(ks: Kinds, m: Message, i: nat, v: Value, w: Value)
    requires i < |ks| == |m|
    ensures SetSlot(ks, m, i, v)[i] == v && SetSlot(ks, SetSlot(ks, m, i, v), i, w) == SetSlot(ks, m, i, w)
  {}

  lemma SetSame(ks: Kinds, m: Message, i: nat)
    requires i < |ks| == |m| && !ks[i].rule.Oneof?
    ensures SetSlot(ks, m, i, m[i]) == m
  {}

  lemma NoSingles(no: nat)
    ensures Singles(no, []) == [] && Nums([]) == []
  {}

  lemma SinglesFirst(no: nat, ns: seq<int>)
    requires ns != []
    ensures Singles(no, ns) == [Field(no, Leaf(Int32, Num(ns[0])))] + Singles(no, ns[1..])
    ensures Nums(ns) == [Num(ns[0])] + Nums(ns[1..])
  {}

  lemma {:induction false} SinglesMeaning(o: Options, ty: TypeName, m: Message, no: nat, ns: seq<int>)
    requires 0 < no <= |m| == |o.fields(ty)| && o.fields(ty)[no - 1].rule.Packed?
    ensures Interpret(o, ty, m, Singles(no, ns)) == SetSlot(o.fields(ty), m, no - 1, Extend(m[no - 1], Nums(ns)))
    decreases |ns|
  {
    hide SetSlot, Singles, Nums;
    var ks := o.fields(ty);
    var x := m[no - 1];
    if ns == [] {
      NoSingles(no);
      SetSame(ks, m, no - 1);
    } else {
      var first := List(Items(x) + [Num(ns[0])]);
      SinglesFirst(no, ns);
      var all := Singles(no, ns);
      assert all[0] == Field(no, Leaf(Int32, Num(ns[0]))) && all[1..] == Singles(no, ns[1..]);
      assert Apply(o, ty, m, all[0]) == SetSlot(ks, m, no - 1, first);
      assert Interpret(o, ty, m, all) == Interpret(o, ty, SetSlot(ks, m, no - 1, first), all[1..]);
      SinglesMeaning(o, ty, SetSlot(ks, m, no - 1, first), no, ns[1..]);
      SetTwice(ks, m, no - 1, first, Extend(first, Nums(ns[1..])));
      assert Extend(first, Nums(ns[1..])) == Extend(x, Nums(ns));
    }
  }

  lemma NormalOneMeaning(o: Options, ty: TypeName, m: Message, f: Field)
    requires |m| == |o.fields(ty)|
    ensures Interpret(o, ty, m, NormalOne(o.fields(ty), f)) == Apply(o, ty, m, f)
  {
    var ks := o.fields(ty);
    if 0 < f.no <= |ks| {
      if f.item.Run? && ks[f.no - 1].rule.Packed? {
        SinglesMeaning(o, ty, m, f.no, f.item.ns);
      } else {
        InterpretOne(o, ty, m, f);
      }
    }
  }

  /** Dropping unknown fields and opening packed runs changes no meaning. */
  lemma {:induction false} NormalMeaning(o: Options, ty: TypeName, m: Message, fs: seq<Field>)
    requires |m| == |o.fields(ty)|
    ensures Interpret(o, ty, m, Normal(o.fields(ty), fs)) == Interpret(o, ty, m, fs)
    decreases |fs|
  {
    hide NormalOne, Apply;
    var ks := o.fields(ty);
    if fs != [] {
      NormalOneMeaning(o, ty, m, fs[0]);
      InterpretConcat(o, ty, m, NormalOne(ks, fs[0]), Normal(ks, fs[1..]));
      NormalMeaning(o, ty, Apply(o, ty, m, fs[0]), fs[1..]);
    }
  }

  // ---- Sub-messages in several occurrences ----

  /** Two occurrences of one sub-message field, the second of which is merged into the first. */
  predicate Joinable(ks: Kinds, f: Field, g: Field) {
    && f.no == g.no && 0 < f.no <= |ks| && f.item.Body? && g.item.Body?
    && ks[f.no - 1].content.Sub? && !ks[f.no - 1].rule.Repeated? && !ks[f.no - 1].rule.Packed?
  }

  /** Both occurrences in one. */
  function Both(f: Field, g: Field): Field
    requires f.item.Body? && g.item.Body?
  {
    Field(f.no, Body(f.item.fields + g.item.fields))
  }

  /** `f` before `fs`, as one occurrence with the first of them if both make up one sub-message. */
  function Join(ks: Kinds, f: Field, fs: seq<Field>): seq<Field> {
    if fs != [] && Joinable(ks, f, fs[0])
    then [Both(f, fs[0])] + fs[1..]
    else [f] + fs
  }

  function Joined(ks: Kinds, fs: seq<Field>): seq<Field> {
    if fs == [] then [] else Join(ks, fs[0], Joined(ks, fs[1..]))
  }

  lemma BodyApplied(o: Options, ty: TypeName, m: Message, no: nat, fs: seq<Field>)
    requires 0 < no <= |m| == |o.fields(ty)| && o.fields(ty)[no - 1].content.Sub?
    requires !o.fields(ty)[no - 1].rule.Repeated? && !o.fields(ty)[no - 1].rule.Packed?
    ensures var sub := o.fields(ty)[no - 1].content.ty;
      Apply(o, ty, m, Field(no, Body(fs)))
      == SetSlot(o.fields(ty), m, no - 1, Msg(Interpret(o, sub, Target(o, sub, m[no - 1]), fs)))
  {
    hide Interpret, SetSlot;
  }

  lemma JoinTwo(o: Options, ty: TypeName, m: Message, f: Field, g: Field)
    requires |m| == |o.fields(ty)| && Joinable(o.fields(ty), f, g)
    ensures Apply(o, ty, m, Both(f, g)) == Apply(o, ty, Apply(o, ty, m, f), g)
  {
    hide Interpret, Apply, SetSlot;
    var sub := o.fields(ty)[f.no - 1].content.ty;
    var target := Target(o, sub, m[f.no - 1]);
    var first := Interpret(o, sub, target, f.item.fields);
    var both := Interpret(o, sub, target, f.item.fields + g.item.fields);
    InterpretConcat(o, sub, target, f.item.fields, g.item.fields);
    BodyApplied(o, ty, m, f.no, f.item.fields);
    BodyApplied(o, ty, m, f.no, f.item.fields + g.item.fields);
    SetTwice(o.fields(ty), m, f.no - 1, Msg(first), Msg(both));
    BodyApplied(o, ty, Apply(o, ty, m, f), f.no, g.item.fields);
  }

  lemma JoinMeaning(o: Options, ty: TypeName, m: Message, f: Field, fs: seq<Field>)
    requires |m| == |o.fields(ty)|
    ensures Interpret(o, ty, m, Join(o.fields(ty), f, fs)) == Interpret(o, ty, Apply(o, ty, m, f), fs)
  {
    hide Apply, Joinable;
    var joined := Join(o.fields(ty), f, fs);
    if fs != [] && Joinable(o.fields(ty), f, fs[0]) {
      JoinTwo(o, ty, m, f, fs[0]);
      assert joined[1..] == fs[1..];
    } else {
      assert joined[1..] == fs;
    }
  }

  lemma {:induction false} JoinedMeaning(o: Options, ty: TypeName, m: Message, fs: seq<Field>)
    requires |m| == |o.fields(ty)|
    ensures Interpret(o, ty, m, Joined(o.fields(ty), fs)) == Interpret(o, ty, m, fs)
    decreases |fs|
  {
    hide Apply, Join;
    if fs != [] {
      JoinMeaning(o, ty, m, fs[0], Joined(o.fields(ty), fs[1..]));
      JoinedMeaning(o, ty, Apply(o, ty, m, fs[0]), fs[1..]);
    }
  }

  // ---- Order ----

  /** The fields whose order matters among themselves: those of one number, and those of the oneof. */
  function Key(ks: Kinds, no: nat): nat { if 0 < no <= |ks| && ks[no - 1].rule.Oneof? then 0 else no }

  function Select(ks: Kinds, fs: seq<Field>, key: nat): seq<Field> {
    if fs == [] then []
    else (if Key(ks, fs[0].no) == key then [fs[0]] else []) + Select(ks, fs[1..], key)
  }

  ghost predicate Agree(ks: Kinds, a: Message, b: Message, key: nat) {
    |a| == |ks| == |b| && forall i | 0 <= i < |ks| && Key(ks, i + 1) == key :: a[i] == b[i]
  }

  /** A slot depends on nothing but the fields of its own key. */
  lemma {:induction false} SelectAgrees(o: Options, ty: TypeName, a: Message, b: Message, fs: seq<Field>, key: nat)
    requires Agree(o.fields(ty), a, b, key)
    ensures Agree(o.fields(ty), Interpret(o, ty, a, fs), Interpret(o, ty, b, Select(o.fields(ty), fs, key)), key)
    decreases |fs|
  {
    var ks := o.fields(ty);
    if fs != [] {
      var a1 := Apply(o, ty, a, fs[0]);
      if Key(ks, fs[0].no) == key {
        SelectAgrees(o, ty, a1, Apply(o, ty, b, fs[0]), fs[1..], key);
        assert Select(ks, fs, key)[1..] == Select(ks, fs[1..], key);
      } else {
        SelectAgrees(o, ty, a1, b, fs[1..], key);
        assert Select(ks, fs, key) == Select(ks, fs[1..], key);
      }
    }
  }

  // ---- Rearrangements ----

  /** The number of sub-messages in the fields, at any depth. */
  function Weight(fs: seq<Field>): nat
    decreases fs, 0
  {
    if fs == [] then 0 else FieldWeight(fs[0]) + Weight(fs[1..])
  }

  function FieldWeight(f: Field): nat
    decreases f, 1
  {
    if f.item.Body? then 1 + Weight(f.item.fields) else 0
  }

  lemma {:induction false} WeightConcat(fs: seq<Field>, gs: seq<Field>)
    ensures Weight(fs + gs) == Weight(fs) + Weight(gs)
    decreases |fs|
  {
    hide FieldWeight;
    if fs == [] {
      assert fs + gs == gs;
    } else {
      assert (fs + gs)[0] == fs[0] && (fs + gs)[1..] == fs[1..] + gs;
      WeightConcat(fs[1..], gs);
    }
  }

  lemma {:induction false} NoWeight(fs: seq<Field>)
    requires forall i | 0 <= i < |fs| :: !fs[i].item.Body?
    ensures Weight(fs) == 0
    decreases |fs|
  {
    if fs != [] {
      NoWeight(fs[1..]);
    }
  }

  lemma {:induction false} NormalWeight(ks: Kinds, fs: seq<Field>)
    ensures Weight(Normal(ks, fs)) <= Weight(fs)
    decreases |fs|
  {
    hide FieldWeight;
    if fs != [] {
      NormalWeight(ks, fs[1..]);
      WeightConcat(NormalOne(ks, fs[0]), Normal(ks, fs[1..]));
      NormalOneWeight(ks, fs[0]);
    }
  }

  lemma NormalOneWeight(ks: Kinds, f: Field)
    ensures Weight(NormalOne(ks, f)) <= FieldWeight(f)
  {
    if f.item.Run? {
      NoWeight(NormalOne(ks, f));
    }
  }

  lemma {:induction false} SelectWeight(ks: Kinds, fs: seq<Field>, key: nat)
    ensures Weight(Select(ks, fs, key)) <= Weight(fs)
    decreases |fs|
  {
    hide FieldWeight;
    if fs != [] {
      var rest := Select(ks, fs[1..], key);
      SelectWeight(ks, fs[1..], key);
      assert ([fs[0]] + rest)[1..] == rest && [] + rest == rest;
    }
  }

  lemma JoinWeight(ks: Kinds, f: Field, fs: seq<Field>)
    ensures Weight(Join(ks, f, fs)) <= FieldWeight(f) + Weight(fs)
  {
    var joined := Join(ks, f, fs);
    if fs != [] && Joinable(ks, f, fs[0]) {
      WeightConcat(f.item.fields, fs[0].item.fields);
      assert joined[1..] == fs[1..];
    } else {
      assert joined[1..] == fs;
    }
  }

  lemma {:induction false} JoinedWeight(ks: Kinds, fs: seq<Field>)
    ensures Weight(Joined(ks, fs)) <= Weight(fs)
    decreases |fs|
  {
    hide FieldWeight, Join;
    if fs != [] {
      JoinedWeight(ks, fs[1..]);
      JoinWeight(ks, fs[0], Joined(ks, fs[1..]));
    }
  }

  lemma {:induction false} MemberWeight(fs: seq<Field>, i: nat)
    requires i < |fs|
    ensures FieldWeight(fs[i]) <= Weight(fs)
    decreases |fs|
  {
    hide FieldWeight;
    if i > 0 {
      MemberWeight(fs[1..], i - 1);
    }
  }

  /** The known fields of one key in their order, with packed runs opened and sub-messages put together. */
  function Canon(ks: Kinds, fs: seq<Field>, key: nat): (r: seq<Field>)
    ensures Weight(r) <= Weight(fs)
  {
    NormalWeight(ks, fs);
    SelectWeight(ks, Normal(ks, fs), key);
    JoinedWeight(ks, Select(ks, Normal(ks, fs), key));
    Joined(ks, Select(ks, Normal(ks, fs), key))
  }

  /**
   Rearrangements of each other: key by key the same fields, save that sub-messages may in turn be rearrangements
   of each other.
   */
  ghost predicate Rearranged(o: Options, ty: TypeName, fs: seq<Field>, gs: seq<Field>)
    decreases Weight(fs), 2
  {
    forall key :: Alike(o, ty, Canon(o.fields(ty), fs, key), Canon(o.fields(ty), gs, key))
  }

  ghost predicate Alike(o: Options, ty: TypeName, fs: seq<Field>, gs: seq<Field>)
    decreases Weight(fs), 1
  {
    |fs| == |gs| && forall i | 0 <= i < |fs| :: (MemberWeight(fs, i); AlikeField(o, ty, fs[i], gs[i]))
  }

  ghost predicate AlikeField(o: Options, ty: TypeName, f: Field, g: Field)
    decreases FieldWeight(f), 0
  {
    || f == g
    || (&& f.no == g.no && 0 < f.no <= |o.fields(ty)| && o.fields(ty)[f.no - 1].content.Sub?
        && f.item.Body? && g.item.Body?
        && Rearranged(o, o.fields(ty)[f.no - 1].content.ty, f.item.fields, g.item.fields))
  }

  lemma {:induction false} AlikeFieldMeaning(o: Options, ty: TypeName, m: Message, f: Field, g: Field)
    requires |m| == |o.fields(ty)| && AlikeField(o, ty, f, g)
    ensures Apply(o, ty, m, f) == Apply(o, ty, m, g)
    decreases FieldWeight(f), 0
  {
    hide Rearranged, Interpret;
    if f != g {
      var k := o.fields(ty)[f.no - 1];
      var target := Target(o, k.content.ty, Prior(k.rule, m[f.no - 1]));
      RearrangedMeaning(o, k.content.ty, target, f.item.fields, g.item.fields);
    }
  }

  lemma {:induction false} AlikeMeaning(o: Options, ty: TypeName, m: Message, fs: seq<Field>, gs: seq<Field>)
    requires |m| == |o.fields(ty)| && Alike(o, ty, fs, gs)
    ensures Interpret(o, ty, m, fs) == Interpret(o, ty, m, gs)
    decreases Weight(fs), 1, |fs|
  {
    hide AlikeField, Apply, FieldWeight;
    if fs != [] {
      MemberWeight(fs, 0);
      AlikeFieldMeaning(o, ty, m, fs[0], gs[0]);
      AlikeMeaning(o, ty, Apply(o, ty, m, fs[0]), fs[1..], gs[1..]);
    }
  }

  /** Rearranged fields mean the same, whatever message they are read into. */
  lemma {:induction false} RearrangedMeaning(o: Options, ty: TypeName, m: Message, fs: seq<Field>, gs: seq<Field>)
    requires |m| == |o.fields(ty)| && Rearranged(o, ty, fs, gs)
    ensures Interpret(o, ty, m, fs) == Interpret(o, ty, m, gs)
    decreases Weight(fs), 2
  {
    hide Interpret, Normal, Select, Joined, Alike, Weight;
    var ks := o.fields(ty);
    var a := Interpret(o, ty, m, fs);
    var b := Interpret(o, ty, m, gs);
    forall i | 0 <= i < |m| ensures a[i] == b[i] {
      var key := Key(ks, i + 1);
      CanonAgrees(o, ty, m, fs, key);
      CanonAgrees(o, ty, m, gs, key);
      AlikeMeaning(o, ty, m, Canon(ks, fs, key), Canon(ks, gs, key));
    }
  }

  lemma CanonAgrees(o: Options, ty: TypeName, m: Message, fs: seq<Field>, key: nat)
    requires |m| == |o.fields(ty)|
    ensures Agree(o.fields(ty), Interpret(o, ty, m, fs), Interpret(o, ty, m, Canon(o.fields(ty), fs, key)), key)
  {
    hide Interpret, Normal, Select, Joined;
    var ks := o.fields(ty);
    NormalMeaning(o, ty, m, fs);
    SelectAgrees(o, ty, m, m, Normal(ks, fs), key);
    JoinedMeaning(o, ty, m, Select(ks, Normal(ks, fs), key));
  }

  // ---- What is a rearrangement ----

  lemma {:induction false} NormalConcat(ks: Kinds, fs: seq<Field>, gs: seq<Field>)
    ensures Normal(ks, fs + gs) == Normal(ks, fs) + Normal(ks, gs)
    decreases |fs|
  {
    hide NormalOne;
    if fs == [] {
      assert fs + gs == gs;
    } else {
      assert (fs + gs)[0] == fs[0] && (fs + gs)[1..] == fs[1..] + gs;
      NormalConcat(ks, fs[1..], gs);
    }
  }

  lemma {:induction false} SelectConcat(ks: Kinds, fs: seq<Field>, gs: seq<Field>, key: nat)
    ensures Select(ks, fs + gs, key) == Select(ks, fs, key) + Select(ks, gs, key)
    decreases |fs|
  {
    hide Key;
    if fs == [] {
      assert fs + gs == gs;
    } else {
      var head := if Key(ks, fs[0].no) == key then [fs[0]] else [];
      assert (fs + gs)[0] == fs[0] && (fs + gs)[1..] == fs[1..] + gs;
      SelectConcat(ks, fs[1..], gs, key);
      assert Select(ks, fs + gs, key) == head + (Select(ks, fs[1..], key) + Select(ks, gs, key));
      assert Select(ks, fs, key) == head + Select(ks, fs[1..], key);
    }
  }

  /** The known fields of one key in their order, with packed runs opened. */
  function Known(ks: Kinds, fs: seq<Field>, key: nat): seq<Field> { Select(ks, Normal(ks, fs), key) }

  lemma KnownConcat(ks: Kinds, fs: seq<Field>, gs: seq<Field>, key: nat)
    ensures Known(ks, fs + gs, key) == Known(ks, fs, key) + Known(ks, gs, key)
  {
    NormalConcat(ks, fs, gs);
    SelectConcat(ks, Normal(ks, fs), Normal(ks, gs), key);
  }

  lemma AlikeSelf(o: Options, ty: TypeName, fs: seq<Field>)
    ensures Alike(o, ty, fs, fs)
  {
    hide Rearranged, Weight;
  }

  lemma AlikeOne(o: Options, ty: TypeName, f: Field, g: Field)
    requires AlikeField(o, ty, f, g)
    ensures Alike(o, ty, [f], [g])
  {
    hide AlikeField, Weight;
  }

  lemma JoinedOne(ks: Kinds, f: Field)
    ensures Joined(ks, [f]) == [f]
  {
    assert Joined(ks, [f]) == Join(ks, f, []) == [f] + [];
  }

  lemma RearrangedByKey(o: Options, ty: TypeName, fs: seq<Field>, gs: seq<Field>)
    requires forall key :: Alike(o, ty, Canon(o.fields(ty), fs, key), Canon(o.fields(ty), gs, key))
    ensures Rearranged(o, ty, fs, gs)
  {
    hide Canon, Alike;
  }

  lemma SameCanon(o: Options, ty: TypeName, fs: seq<Field>, gs: seq<Field>)
    requires forall key :: Canon(o.fields(ty), fs, key) == Canon(o.fields(ty), gs, key)
    ensures Rearranged(o, ty, fs, gs)
  {
    hide Canon, Alike, Rearranged;
    forall key ensures Alike(o, ty, Canon(o.fields(ty), fs, key), Canon(o.fields(ty), gs, key)) {
      AlikeSelf(o, ty, Canon(o.fields(ty), fs, key));
    }
    RearrangedByKey(o, ty, fs, gs);
  }

  /** Fields may be exchanged among others for fields that are the same key by key. */
  lemma SameKnown(o: Options, ty: TypeName, pre: seq<Field>, xs: seq<Field>, ys: seq<Field>, post: seq<Field>)
    requires forall key :: Known(o.fields(ty), xs, key) == Known(o.fields(ty), ys, key)
    ensures Rearranged(o, ty, pre + xs + post, pre + ys + post)
  {
    hide Known, Canon, Alike, Rearranged;
    var ks := o.fields(ty);
    forall key ensures Canon(ks, pre + xs + post, key) == Canon(ks, pre + ys + post, key) {
      KnownConcat(ks, pre, xs, key);
      KnownConcat(ks, pre + xs, post, key);
      KnownConcat(ks, pre, ys, key);
      KnownConcat(ks, pre + ys, post, key);
      CanonJoins(ks, pre + xs + post, key);
      CanonJoins(ks, pre + ys + post, key);
    }
    SameCanon(o, ty, pre + xs + post, pre + ys + post);
  }

  lemma CanonJoins(ks: Kinds, fs: seq<Field>, key: nat)
    ensures Canon(ks, fs, key) == Joined(ks, Known(ks, fs, key))
  {}

  lemma {:induction false} SelectNone(ks: Kinds, fs: seq<Field>, no: nat, key: nat)
    requires key != Key(ks, no) && forall i | 0 <= i < |fs| :: fs[i].no == no
    ensures Select(ks, fs, key) == []
    decreases |fs|
  {
    if fs != [] {
      SelectNone(ks, fs[1..], no, key);
    }
  }

  lemma KnownOne(ks: Kinds, f: Field, key: nat)
    ensures key != Key(ks, f.no) ==> Known(ks, [f], key) == []
    ensures 0 < f.no <= |ks| && !f.item.Run? && key == Key(ks, f.no) ==> Known(ks, [f], key) == [f]
  {
    var fs := NormalOne(ks, f);
    assert Normal(ks, [f]) == fs + [] == fs;
    assert fs == [f] ==> Select(ks, fs, key) == (if Key(ks, f.no) == key then [f] else []) + [];
    if key != Key(ks, f.no) {
      SelectNone(ks, fs, f.no, key);
    }
  }

  /** Two fields that differ in number, and are not of one oneof, may change places. */
  lemma SwapRearranged(o: Options, ty: TypeName, pre: seq<Field>, f: Field, g: Field, post: seq<Field>)
    requires Key(o.fields(ty), f.no) != Key(o.fields(ty), g.no)
    ensures Rearranged(o, ty, pre + [f, g] + post, pre + [g, f] + post)
  {
    hide Known;
    var ks := o.fields(ty);
    forall key ensures Known(ks, [f, g], key) == Known(ks, [g, f], key) {
      KnownConcat(ks, [f], [g], key);
      KnownConcat(ks, [g], [f], key);
      KnownOne(ks, f, key);
      KnownOne(ks, g, key);
      assert [f] + [g] == [f, g] && [g] + [f] == [g, f];
    }
    SameKnown(o, ty, pre, [f, g], [g, f], post);
  }

  /** A field nobody knows may stand anywhere. */
  lemma UnknownRearranged(o: Options, ty: TypeName, pre: seq<Field>, f: Field, post: seq<Field>)
    requires f.no > |o.fields(ty)|
    ensures Rearranged(o, ty, pre + [f] + post, pre + post)
  {
    var ks := o.fields(ty);
    assert Normal(ks, [f]) == [] + Normal(ks, []);
    SameKnown(o, ty, pre, [f], [], post);
    assert pre + [] + post == pre + post;
  }

  /** A packed run may be cut anywhere; a run of one number is as good as the single entry. */
  lemma RunRearranged(o: Options, ty: TypeName, pre: seq<Field>, no: nat, ms: seq<int>, ns: seq<int>, post: seq<Field>)
    requires 0 < no <= |o.fields(ty)| && o.fields(ty)[no - 1].rule.Packed?
    ensures Rearranged(o, ty, pre + [Field(no, Run(ms + ns))] + post,
                       pre + [Field(no, Run(ms)), Field(no, Run(ns))] + post)
    ensures |ms| == 1 ==> Rearranged(o, ty, pre + [Field(no, Run(ms))] + post, pre + Singles(no, ms) + post)
  {
    var ks := o.fields(ty);
    var m, n := Field(no, Run(ms)), Field(no, Run(ns));
    NormalConcat(ks, [m], [n]);
    assert [m] + [n] == [m, n];
    assert Singles(no, ms) + Singles(no, ns) == Singles(no, ms + ns);
    assert Normal(ks, [m]) == Singles(no, ms) && Normal(ks, [n]) == Singles(no, ns);
    assert Normal(ks, [Field(no, Run(ms + ns))]) == Singles(no, ms + ns);
    SameKnown(o, ty, pre, [Field(no, Run(ms + ns))], [m, n], post);
    if |ms| == 1 {
      assert Normal(ks, Singles(no, ms)) == Singles(no, ms);
      SameKnown(o, ty, pre, [m], Singles(no, ms), post);
    }
  }

  // ---- Rearrangements among other fields, and one after the other ----

  /** What follows `a` put behind it: the last of `a` and the first of `b` may make up one sub-message. */
  function Glue(ks: Kinds, a: seq<Field>, b: seq<Field>): seq<Field> {
    if a == [] then b else a[..|a| - 1] + Join(ks, a[|a| - 1], b)
  }

  lemma JoinConcat(ks: Kinds, f: Field, a: seq<Field>, b: seq<Field>)
    requires a != []
    ensures Join(ks, f, a + b) == Join(ks, f, a) + b
  {
    hide Joinable;
    assert (a + b)[0] == a[0] && (a + b)[1..] == a[1..] + b;
  }

  lemma GlueSplit(ks: Kinds, a: seq<Field>, g: Field, b: seq<Field>)
    ensures Glue(ks, a + [g], b) == a + Join(ks, g, b)
  {
    hide Join;
    assert (a + [g])[..|a|] == a;
  }

  /** Joining three in either order comes to the same. */
  lemma JoinThree(ks: Kinds, f: Field, g: Field, b: seq<Field>)
    ensures Glue(ks, Join(ks, f, [g]), b) == Join(ks, f, Join(ks, g, b))
  {
    if Joinable(ks, f, g) {
      assert Join(ks, f, [g]) == [] + [Both(f, g)];
      GlueSplit(ks, [], Both(f, g), b);
      if b != [] && Joinable(ks, g, b[0]) {
        assert f.item.fields + g.item.fields + b[0].item.fields == f.item.fields + (g.item.fields + b[0].item.fields);
        assert Join(ks, g, b)[1..] == b[1..];
      } else {
        assert Join(ks, g, b)[1..] == b;
      }
    } else {
      GlueSplit(ks, [f], g, b);
      assert Join(ks, f, [g]) == [f] + [g];
    }
  }

  /** Joining to the left or to the right first comes to the same. */
  lemma GlueJoin(ks: Kinds, f: Field, a: seq<Field>, b: seq<Field>)
    ensures Glue(ks, Join(ks, f, a), b) == Join(ks, f, Glue(ks, a, b))
  {
    if a == [] {
      GlueSplit(ks, [], f, b);
    } else {
      var u, g := a[..|a| - 1], a[|a| - 1];
      assert a == u + [g];
      hide Join, Glue;
      GlueSplit(ks, u, g, b);
      if u == [] {
        JoinThree(ks, f, g, b);
        assert a == [g] && u + Join(ks, g, b) == Join(ks, g, b);
      } else {
        JoinConcat(ks, f, u, [g]);
        GlueSplit(ks, Join(ks, f, u), g, b);
        JoinConcat(ks, f, u, Join(ks, g, b));
      }
    }
  }

  lemma {:induction false} JoinedConcat(ks: Kinds, fs: seq<Field>, gs: seq<Field>)
    ensures Joined(ks, fs + gs) == Glue(ks, Joined(ks, fs), Joined(ks, gs))
    decreases |fs|
  {
    hide Join, Glue;
    if fs == [] {
      assert fs + gs == gs;
      GlueNone(ks, Joined(ks, gs));
    } else {
      assert (fs + gs)[0] == fs[0] && (fs + gs)[1..] == fs[1..] + gs;
      JoinedConcat(ks, fs[1..], gs);
      GlueJoin(ks, fs[0], Joined(ks, fs[1..]), Joined(ks, gs));
    }
  }

  lemma GlueNone(ks: Kinds, b: seq<Field>)
    ensures Glue(ks, [], b) == b
  {}

  lemma CanonConcat(ks: Kinds, fs: seq<Field>, gs: seq<Field>, key: nat)
    ensures Canon(ks, fs + gs, key) == Glue(ks, Canon(ks, fs, key), Canon(ks, gs, key))
  {
    hide Known, Canon, Glue, Joined;
    KnownConcat(ks, fs, gs, key);
    JoinedConcat(ks, Known(ks, fs, key), Known(ks, gs, key));
    CanonJoins(ks, fs, key);
    CanonJoins(ks, gs, key);
    CanonJoins(ks, fs + gs, key);
  }

  lemma AlikeConcat(o: Options, ty: TypeName, a: seq<Field>, b: seq<Field>, c: seq<Field>, d: seq<Field>)
    requires Alike(o, ty, a, b) && Alike(o, ty, c, d)
    ensures Alike(o, ty, a + c, b + d)
  {
    hide AlikeField, Weight;
    forall i | 0 <= i < |a + c| ensures AlikeField(o, ty, (a + c)[i], (b + d)[i]) {
      assert i >= |a| ==> (a + c)[i] == c[i - |a|] && (b + d)[i] == d[i - |a|];
    }
  }

  lemma AlikeEmpty(o: Options, ty: TypeName, a: seq<Field>, b: seq<Field>)
    requires Alike(o, ty, a, b)
    ensures a == [] <==> b == []
  {}

  lemma AlikeRest(o: Options, ty: TypeName, a: seq<Field>, b: seq<Field>)
    requires a != [] && Alike(o, ty, a, b)
    ensures b != [] && AlikeField(o, ty, a[0], b[0]) && Alike(o, ty, a[1..], b[1..])
    ensures Alike(o, ty, a[..|a| - 1], b[..|b| - 1]) && AlikeField(o, ty, a[|a| - 1], b[|b| - 1])
  {
    hide AlikeField, Weight;
  }

  /** The two may be joined to the same fields, and what they are joined to stays alike if it may follow them. */
  lemma AlikeJoins(o: Options, ty: TypeName, f: Field, g: Field)
    requires AlikeField(o, ty, f, g)
    ensures forall h :: Joinable(o.fields(ty), f, h) == Joinable(o.fields(ty), g, h)
    ensures forall h :: Joinable(o.fields(ty), h, f) == Joinable(o.fields(ty), h, g)
  {
    hide Rearranged;
  }

  lemma {:induction false} JoinBehind(o: Options, ty: TypeName, h: Field, f: Field, g: Field)
    requires AlikeField(o, ty, f, g) && Joinable(o.fields(ty), h, f) && Joinable(o.fields(ty), h, g)
    ensures AlikeField(o, ty, Both(h, f), Both(h, g))
    decreases FieldWeight(f), 0
  {
    hide Rearranged;
    if f != g {
      RearrangedBehind(o, o.fields(ty)[h.no - 1].content.ty, h.item.fields, f.item.fields, g.item.fields);
    }
  }

  lemma {:induction false} AlikeBehind(o: Options, ty: TypeName, h: Field, s: seq<Field>, t: seq<Field>)
    requires Alike(o, ty, s, t)
    ensures Alike(o, ty, Join(o.fields(ty), h, s), Join(o.fields(ty), h, t))
    decreases Weight(s), 1, 0
  {
    hide AlikeField, Alike, Weight, FieldWeight;
    AlikeEmpty(o, ty, s, t);
    if s != [] {
      AlikeRest(o, ty, s, t);
      AlikeJoins(o, ty, s[0], t[0]);
    }
    if s != [] && Joinable(o.fields(ty), h, s[0]) {
      MemberWeight(s, 0);
      JoinBehind(o, ty, h, s[0], t[0]);
      AlikeOne(o, ty, Both(h, s[0]), Both(h, t[0]));
      AlikeConcat(o, ty, [Both(h, s[0])], [Both(h, t[0])], s[1..], t[1..]);
    } else {
      AlikeSelf(o, ty, [h]);
      AlikeConcat(o, ty, [h], [h], s, t);
    }
  }

  lemma {:induction false} GlueBehind(o: Options, ty: TypeName, p: seq<Field>, s: seq<Field>, t: seq<Field>)
    requires Alike(o, ty, s, t)
    ensures Alike(o, ty, Glue(o.fields(ty), p, s), Glue(o.fields(ty), p, t))
    decreases Weight(s), 1, 1
  {
    hide Alike, Weight, Join;
    if p != [] {
      var h := p[|p| - 1];
      AlikeBehind(o, ty, h, s, t);
      AlikeSelf(o, ty, p[..|p| - 1]);
      AlikeConcat(o, ty, p[..|p| - 1], p[..|p| - 1], Join(o.fields(ty), h, s), Join(o.fields(ty), h, t));
    }
  }

  lemma {:induction false} RearrangedBehind(o: Options, ty: TypeName, pre: seq<Field>, fs: seq<Field>, gs: seq<Field>)
    requires Rearranged(o, ty, fs, gs)
    ensures Rearranged(o, ty, pre + fs, pre + gs)
    decreases Weight(fs), 2
  {
    hide Canon, Alike, Glue;
    var ks := o.fields(ty);
    forall key ensures Alike(o, ty, Canon(ks, pre + fs, key), Canon(ks, pre + gs, key)) {
      CanonConcat(ks, pre, fs, key);
      CanonConcat(ks, pre, gs, key);
      GlueBehind(o, ty, Canon(ks, pre, key), Canon(ks, fs, key), Canon(ks, gs, key));
    }
    RearrangedByKey(o, ty, pre + fs, pre + gs);
  }

  lemma {:induction false} JoinBefore(o: Options, ty: TypeName, f: Field, g: Field, h: Field)
    requires AlikeField(o, ty, f, g) && Joinable(o.fields(ty), f, h) && Joinable(o.fields(ty), g, h)
    ensures AlikeField(o, ty, Both(f, h), Both(g, h))
    decreases FieldWeight(f), 0
  {
    hide Rearranged;
    if f != g {
      RearrangedBefore(o, o.fields(ty)[h.no - 1].content.ty, f.item.fields, g.item.fields, h.item.fields);
    }
  }

  lemma {:induction false} AlikeBefore(o: Options, ty: TypeName, f: Field, g: Field, q: seq<Field>)
    requires AlikeField(o, ty, f, g)
    ensures Alike(o, ty, Join(o.fields(ty), f, q), Join(o.fields(ty), g, q))
    decreases FieldWeight(f), 1, 0
  {
    hide AlikeField, Alike, Weight, FieldWeight;
    AlikeJoins(o, ty, f, g);
    if q != [] && Joinable(o.fields(ty), f, q[0]) {
      JoinBefore(o, ty, f, g, q[0]);
      AlikeOne(o, ty, Both(f, q[0]), Both(g, q[0]));
      AlikeSelf(o, ty, q[1..]);
      AlikeConcat(o, ty, [Both(f, q[0])], [Both(g, q[0])], q[1..], q[1..]);
    } else {
      AlikeOne(o, ty, f, g);
      AlikeSelf(o, ty, q);
      AlikeConcat(o, ty, [f], [g], q, q);
    }
  }

  lemma {:induction false} GlueBefore(o: Options, ty: TypeName, s: seq<Field>, t: seq<Field>, q: seq<Field>)
    requires Alike(o, ty, s, t)
    ensures Alike(o, ty, Glue(o.fields(ty), s, q), Glue(o.fields(ty), t, q))
    decreases Weight(s), 1, 1
  {
    hide Alike, AlikeField, Weight, FieldWeight, Join;
    var ks := o.fields(ty);
    AlikeEmpty(o, ty, s, t);
    if s == [] {
      AlikeSelf(o, ty, q);
    } else {
      var f, g := s[|s| - 1], t[|t| - 1];
      AlikeRest(o, ty, s, t);
      MemberWeight(s, |s| - 1);
      AlikeBefore(o, ty, f, g, q);
      AlikeConcat(o, ty, s[..|s| - 1], t[..|t| - 1], Join(ks, f, q), Join(ks, g, q));
    }
  }

  lemma {:induction false} RearrangedBefore(o: Options, ty: TypeName, fs: seq<Field>, gs: seq<Field>, post: seq<Field>)
    requires Rearranged(o, ty, fs, gs)
    ensures Rearranged(o, ty, fs + post, gs + post)
    decreases Weight(fs), 2
  {
    hide Canon, Alike, Glue;
    var ks := o.fields(ty);
    forall key ensures Alike(o, ty, Canon(ks, fs + post, key), Canon(ks, gs + post, key)) {
      CanonConcat(ks, fs, post, key);
      CanonConcat(ks, gs, post, key);
      GlueBefore(o, ty, Canon(ks, fs, key), Canon(ks, gs, key), Canon(ks, post, key));
    }
    RearrangedByKey(o, ty, fs + post, gs + post);
  }

  /** Fields may be rearranged where they stand, whatever stands around them. */
  lemma RearrangedAmong(o: Options, ty: TypeName, pre: seq<Field>, fs: seq<Field>, gs: seq<Field>, post: seq<Field>)
    requires Rearranged(o, ty, fs, gs)
    ensures Rearranged(o, ty, pre + fs + post, pre + gs + post)
  {
    hide Rearranged;
    RearrangedBehind(o, ty, pre, fs, gs);
    RearrangedBefore(o, ty, pre + fs, pre + gs, post);
  }

  lemma {:induction false} AlikeFieldTrans(o: Options, ty: TypeName, f: Field, g: Field, h: Field)
    requires AlikeField(o, ty, f, g) && AlikeField(o, ty, g, h)
    ensures AlikeField(o, ty, f, h) && AlikeField(o, ty, g, f)
    decreases FieldWeight(f), 0
  {
    hide Rearranged;
    if f != g {
      var sub := o.fields(ty)[f.no - 1].content.ty;
      if g == h {
        RearrangedSelf(o, sub, g.item.fields);
      }
      RearrangedTrans(o, sub, f.item.fields, g.item.fields, h.item.fields);
    }
  }

  lemma {:induction false} AlikeTrans(o: Options, ty: TypeName, a: seq<Field>, b: seq<Field>, c: seq<Field>)
    requires Alike(o, ty, a, b) && Alike(o, ty, b, c)
    ensures Alike(o, ty, a, c) && Alike(o, ty, b, a)
    decreases Weight(a), 1
  {
    hide AlikeField, Weight, FieldWeight;
    forall i | 0 <= i < |a| ensures AlikeField(o, ty, a[i], c[i]) && AlikeField(o, ty, b[i], a[i]) {
      MemberWeight(a, i);
      AlikeFieldTrans(o, ty, a[i], b[i], c[i]);
    }
  }

  lemma RearrangedSelf(o: Options, ty: TypeName, fs: seq<Field>)
    ensures Rearranged(o, ty, fs, fs)
  {
    SameCanon(o, ty, fs, fs);
  }

  /** Being rearrangements of each other is transitive and, as every list is one of itself, symmetric. */
  lemma {:induction false} RearrangedTrans(o: Options, ty: TypeName, fs: seq<Field>, gs: seq<Field>, hs: seq<Field>)
    requires Rearranged(o, ty, fs, gs) && Rearranged(o, ty, gs, hs)
    ensures Rearranged(o, ty, fs, hs) && Rearranged(o, ty, gs, fs)
    decreases Weight(fs), 2
  {
    hide Canon, Alike;
    var ks := o.fields(ty);
    forall key
      ensures Alike(o, ty, Canon(ks, fs, key), Canon(ks, hs, key))
      ensures Alike(o, ty, Canon(ks, gs, key), Canon(ks, fs, key))
    {
      AlikeTrans(o, ty, Canon(ks, fs, key), Canon(ks, gs, key), Canon(ks, hs, key));
    }
    RearrangedByKey(o, ty, fs, hs);
    RearrangedByKey(o, ty, gs, fs);
  }

  /** A sub-message may be rearranged in its turn, whatever stands around it. */
  lemma NestedRearranged(o: Options, ty: TypeName, pre: seq<Field>, no: nat, xs: seq<Field>, ys: seq<Field>,
                         post: seq<Field>)
    requires 0 < no <= |o.fields(ty)| && o.fields(ty)[no - 1].content.Sub?
    requires Rearranged(o, o.fields(ty)[no - 1].content.ty, xs, ys)
    ensures Rearranged(o, ty, pre + [Field(no, Body(xs))] + post, pre + [Field(no, Body(ys))] + post)
  {
    hide Known, Canon, Alike, Rearranged, Weight;
    var ks := o.fields(ty);
    var f, g := Field(no, Body(xs)), Field(no, Body(ys));
    assert AlikeField(o, ty, f, g);
    AlikeOne(o, ty, f, g);
    JoinedOne(ks, f);
    JoinedOne(ks, g);
    AlikeSelf(o, ty, []);
    forall key ensures Alike(o, ty, Canon(ks, [f], key), Canon(ks, [g], key)) {
      KnownOne(ks, f, key);
      KnownOne(ks, g, key);
      CanonJoins(ks, [f], key);
      CanonJoins(ks, [g], key);
      assert Joined(ks, []) == [];
    }
    RearrangedByKey(o, ty, [f], [g]);
    RearrangedAmong(o, ty, pre, [f], [g], post);
  }

  /** A singular sub-message may come in two parts, whatever stands around it. */
  lemma SplitRearranged(o: Options, ty: TypeName, pre: seq<Field>, f: Field, g: Field, post: seq<Field>)
    requires Joinable(o.fields(ty), f, g)
    ensures Rearranged(o, ty, pre + [Both(f, g)] + post, pre + [f, g] + post)
  {
    hide Known, Canon, Alike, Rearranged;
    var ks := o.fields(ty);
    var both := Both(f, g);
    forall key ensures Canon(ks, [both], key) == Canon(ks, [f, g], key) {
      KnownOne(ks, f, key);
      KnownOne(ks, g, key);
      KnownOne(ks, both, key);
      KnownConcat(ks, [f], [g], key);
      assert [f] + [g] == [f, g] && [f, g][1..] == [g];
      CanonJoins(ks, [both], key);
      CanonJoins(ks, [f, g], key);
      JoinedOne(ks, both);
      JoinedOne(ks, g);
      assert Joined(ks, [f, g]) == Join(ks, f, [g]) == [both] + [g][1..];
    }
    SameCanon(o, ty, [both], [f, g]);
    RearrangedAmong(o, ty, pre, [both], [f, g], post);
  }

  // ---- Decoding ----

  /** Both are read without an error, as the same message. */
  ghost predicate DecodeAlike(o: Options, ty: TypeName, x: Bytes, y: Bytes) {
    var a, b := Decode(o, ty, x), Decode(o, ty, y);
    a.Ok? && b.Ok? && a.value == b.value
  }

  /** Legal rearrangements of the same fields decode to the same message. */
  lemma DecodeRearranged(o: Options, ty: TypeName, fs: seq<Field>, gs: seq<Field>)
    requires ValidOptions(o) && LegalAll(o, ty, fs) && LegalAll(o, ty, gs) && Rearranged(o, ty, fs, gs)
    ensures DecodeAlike(o, ty, FieldsBytes(fs), FieldsBytes(gs))
  {
    hide Decode, FieldsBytes, Interpret, Rearranged;
    DecodeFields(o, ty, fs);
    DecodeFields(o, ty, gs);
    RearrangedMeaning(o, ty, Create(o, ty), fs, gs);
  }

  /** However a writer arranges the fields of a message, it is that message that is read. */
  lemma DecodeArrangement(o: Options, ty: TypeName, m: Message, gs: seq<Field>)
    requires ValidOptions(o) && Writable(o, ty, m) && LegalAll(o, ty, gs)
    requires Rearranged(o, ty, Fields(o, ty, m, |m|), gs)
    ensures Decode(o, ty, FieldsBytes(gs)) == Ok(m, |FieldsBytes(gs)|)
  {
    hide Decode, FieldsBytes, Interpret, Fields, Rearranged;
    RoundTrip(o, ty, m);
    DecodeRearranged(o, ty, Fields(o, ty, m, |m|), gs);
    DecodeFields(o, ty, gs);
  }
}
