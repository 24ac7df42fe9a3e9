/**
 The generated `internalBinaryRead` and `internalBinaryWrite` as they run: a reader whose position the loops
 move, a writer that appends to a chunk and keeps the enclosing chunks on a stack while a length-delimited
 field is being written. Both are proved against the functions of `Codec.dfy` and `Messages.dfy`.
 */
module BinaryIO {
  import opened Codec
  import opened Messages
  import opened Wire

  /** What a call that may throw comes back with. */
  datatype Outcome<+T> = Done(value: T) | Thrown(error: ReadError) {
    predicate IsFailure() { Thrown? }
    function PropagateFailure<U>(): Outcome<U> requires Thrown? { Thrown(error) }
    function Extract(): T requires Done? { value }
  }

  /** A call that found `r` in the buffer returns its value and leaves the position behind it, or throws. */
  ghost predicate Matches<T>(r: Read<T>, out: Outcome<T>, pos: nat) {
    match r
    case Ok(v, p) => out == Done(v) && pos == p
    case Err(e) => out == Thrown(e)
  }

  class BinaryReader {
    const buf: Bytes
    var pos: nat

    constructor (bytes: Bytes)
      ensures buf == bytes && pos == 0
    {
      buf := bytes;
      pos := 0;
    }

    method Uint32() returns (r: Outcome<nat>)
      modifies this
      ensures Matches(ReadUint32(buf, old(pos)), r, pos)
    {
      var x := ReadUint32(buf, pos);
      if x.Err? { return Thrown(x.error); }
      pos := x.pos;
      return Done(x.value);
    }

    method Int32() returns (r: Outcome<int>)
      modifies this
      ensures Matches(ReadInt32(buf, old(pos)), r, pos)
    {
      var x := ReadInt32(buf, pos);
      if x.Err? { return Thrown(x.error); }
      pos := x.pos;
      return Done(x.value);
    }

    method NextTag() returns (r: Outcome<Tag>)
      modifies this
      ensures Matches(ReadTag(buf, old(pos)), r, pos)
    {
      var x := ReadTag(buf, pos);
      if x.Err? { return Thrown(x.error); }
      pos := x.pos;
      return Done(x.value);
    }

    method SkipField(wire: nat) returns (r: Outcome<()>)
      requires pos <= |buf|
      modifies this
      ensures Matches(Skip(buf, old(pos), wire), r, pos)
    {
      var x := Skip(buf, pos, wire);
      if x.Err? { return Thrown(x.error); }
      pos := x.pos;
      return Done(x.value);
    }

    method ScalarField(s: Scalar) returns (r: Outcome<Value>)
      modifies this
      ensures Matches(ReadScalar(s, buf, old(pos)), r, pos)
    {
      var x := ReadScalar(s, buf, pos);
      if x.Err? { return Thrown(x.error); }
      pos := x.pos;
      return Done(x.value);
    }

    /** `target` is `Absent` where the source passes none. */
    method InternalBinaryRead(o: Options, ty: TypeName, length: nat, target: Value) returns (r: Outcome<Message>)
      requires pos <= |buf|
      modifies this
      ensures Matches(ReadMessage(o, ty, buf, old(pos), old(pos) + length, Target(o, ty, target)), r, pos)
      decreases |buf| - pos, 0
    {
      hide ReadTag, ReadField, Target;
      var message := Target(o, ty, target);
      var end := pos + length;
      while pos < end
        invariant old(pos) <= pos <= |buf| && |message| == |o.fields(ty)|
        invariant ReadMessage(o, ty, buf, old(pos), end, Target(o, ty, target))
               == ReadMessage(o, ty, buf, pos, end, message)
        decreases |buf| - pos
      {
        var tag :- NextTag();
        message :- Switch(o, ty, tag, message);
      }
      return Done(message);
    }

    /** The `switch (fieldNo)`: what the field read does to the message. */
    method Switch(o: Options, ty: TypeName, tag: Tag, message: Message) returns (r: Outcome<Message>)
      requires pos <= |buf| && |message| == |o.fields(ty)| && tag.no > 0
      modifies this
      ensures Matches(ReadField(o, ty, buf, old(pos), tag, message), r, pos)
      decreases |buf| - pos, 2
    {
      hide Skip;
      var ks := o.fields(ty);
      if tag.no > |ks| {
        if o.throwUnknown {
          return Thrown(UnknownField);
        }
        var _ :- SkipField(tag.wire);
        return Done(message);
      }
      var v :- SlotField(o, ks[tag.no - 1], tag.wire, message[tag.no - 1]);
      return Done(SetSlot(ks, message, tag.no - 1, v));
    }

    /** One `case`: a packed run pushes until its end is reached, anything else reads one element. */
    method SlotField(o: Options, k: Kind, wire: nat, slot: Value) returns (r: Outcome<Value>)
      requires pos <= |buf|
      modifies this
      ensures Matches(ReadSlot(o, k, buf, old(pos), wire, slot), r, pos)
      decreases |buf| - pos, 1
    {
      hide ReadInt32, ReadUint32, ReadScalar;
      if k.rule.Packed? && wire == LENGTH_DELIMITED {
        var len :- Int32();
        var e := len + pos;
        ghost var start := pos;
        var pushed := [];
        ghost var all := ReadRun(buf, start, e);
        assert all.Ok? ==> [] + all.value == all.value;
        while pos < e
          invariant start <= pos <= |buf|
          invariant match ReadRun(buf, pos, e)
                    case Ok(rest, q) => all == Ok(pushed + rest, q)
                    case Err(err) => all == Err(err)
          decreases |buf| - pos
        {
          var n :- Int32();
          ghost var rest := ReadRun(buf, pos, e);
          assert rest.Ok? ==> pushed + ([Num(n)] + rest.value) == pushed + [Num(n)] + rest.value;
          pushed := pushed + [Num(n)];
        }
        assert pushed + [] == pushed;
        return Done(Extend(slot, pushed));
      }
      match k.content {
        case Plain(s) =>
          var v :- ScalarField(s);
          return Done(Put(k.rule, slot, v));
        case Sub(t) =>
          var len :- Uint32();
          var m :- InternalBinaryRead(o, t, len, Prior(k.rule, slot));
          return Done(Put(k.rule, slot, Msg(m)));
      }
    }
  }
  class BinaryWriter {
    var chunk: Bytes
    var stack: seq<Bytes>

    constructor ()
      ensures chunk == [] && stack == []
    {
      chunk, stack := [], [];
    }

    method Append(bytes: Bytes)
      modifies this
      ensures chunk == old(chunk) + bytes && stack == old(stack)
    {
      chunk := chunk + bytes;
    }

    method Fork()
      modifies this
      ensures chunk == [] && stack == [old(chunk)] + old(stack)
    {
      chunk, stack := [], [chunk] + stack;
    }

    /** Puts the finished chunk behind its length, which must be a 32-bit number. */
    method Join() returns (ok: bool)
      requires stack != []
      modifies this
      ensures ok == (|old(chunk)| < U32)
      ensures ok ==> chunk == old(stack[0]) + Delimited(old(chunk)) && stack == old(stack)[1..]
    {
      ok := |chunk| < U32;
      if ok {
        chunk, stack := stack[0] + Delimited(chunk), stack[1..];
      }
    }

    /** `internalBinaryWrite`; not `ok` stands for the error thrown when a length does not fit. */
    method InternalBinaryWrite(o: Options, ty: TypeName, message: Message) returns (ok: bool)
      requires Conforms(o, ty, message)
      modifies this
      ensures ok ==> chunk == old(chunk) + Encode(o, ty, message) && stack == old(stack)
      ensures Writable(o, ty, message) ==> ok
      decreases message, 0
    {
      hide SlotFields, ConformsSlot, Legal, FieldBytes;
      var n := 0;
      while n < |message|
        invariant n <= |message|
        invariant chunk == old(chunk) + FieldsBytes(Fields(o, ty, message, n)) && stack == old(stack)
      {
        n := n + 1;
        ok := WriteSlot(o, ty, n, message[n - 1]);
        if Writable(o, ty, message) {
          LegalSlot(o, ty, message, n, |message|);
        }
        BytesConcat(Fields(o, ty, message, n - 1), SlotFields(o, n, o.fields(ty)[n - 1], message[n - 1]));
        if !ok {
          return;
        }
      }
      ok := true;
    }

    /** One `if`, or one `for` over the entries of a repeated field. */
    method WriteSlot(o: Options, ty: TypeName, no: nat, v: Value) returns (ok: bool)
      requires 0 < no <= |o.fields(ty)| && ConformsSlot(o, o.fields(ty)[no - 1], v)
      modifies this
      ensures var fs := SlotFields(o, no, o.fields(ty)[no - 1], v);
        && (ok ==> chunk == old(chunk) + FieldsBytes(fs) && stack == old(stack))
        && (LegalAll(o, ty, fs) ==> ok)
      decreases v, 3
    {
      hide FieldBytes, Legal;
      var k := o.fields(ty)[no - 1];
      ghost var fs := SlotFields(o, no, k, v);
      ok := true;
      if k.rule.Repeated? {
        ok := WriteList(o, ty, no, v.items);
      } else if k.rule.Packed? {
        if v.items != [] {
          OneFieldBytes(fs[0]);
          ok := WritePacked(o, ty, no, v.items);
        }
      } else if v != Default(k) {
        OneFieldBytes(fs[0]);
        ok := WriteElement(o, ty, no, v);
      }
    }

    method WriteList(o: Options, ty: TypeName, no: nat, vs: seq<Value>) returns (ok: bool)
      requires 0 < no <= |o.fields(ty)|
      requires forall i | 0 <= i < |vs| :: ConformsElement(o, o.fields(ty)[no - 1].content, vs[i])
      modifies this
      ensures var fs := ListFields(o, no, o.fields(ty)[no - 1].content, vs);
        && (ok ==> chunk == old(chunk) + FieldsBytes(fs) && stack == old(stack))
        && (LegalAll(o, ty, fs) ==> ok)
      decreases vs, 2
    {
      hide FieldBytes, Legal, ConformsElement, ElementItem;
      var c := o.fields(ty)[no - 1].content;
      var i := 0;
      while i < |vs|
        invariant i <= |vs|
        invariant chunk == old(chunk) + FieldsBytes(ListFields(o, no, c, vs[..i])) && stack == old(stack)
      {
        ListFieldsAt(o, no, c, vs, i);
        ok := WriteElement(o, ty, no, vs[i]);
        if !ok {
          return;
        }
        ListFieldsConcat(o, no, c, vs[..i], vs[i]);
        assert vs[..i] + [vs[i]] == vs[..i + 1];
        i := i + 1;
      }
      assert vs[..i] == vs;
      ok := true;
    }

    method WritePacked(o: Options, ty: TypeName, no: nat, vs: seq<Value>) returns (ok: bool)
      requires 0 < no <= |o.fields(ty)| && forall i | 0 <= i < |vs| :: ScalarOk(Int32, vs[i])
      modifies this
      ensures var f := Field(no, Run(RunOf(vs)));
        && (ok ==> chunk == old(chunk) + FieldBytes(f) && stack == old(stack))
        && (Legal(o, ty, f) ==> ok)
    {
      hide EncodeTag, EncodeScalar, RunBytes, Delimited;
      Append(EncodeTag(no, LENGTH_DELIMITED));
      Fork();
      EmptyRun();
      var i := 0;
      while i < |vs|
        invariant i <= |vs|
        invariant chunk == RunBytes(RunOf(vs[..i]))
        invariant stack == [old(chunk) + EncodeTag(no, LENGTH_DELIMITED)] + old(stack)
      {
        Append(EncodeScalar(Int32, vs[i]));
        RunConcat(RunOf(vs[..i]), vs[i].n);
        assert RunOf(vs[..i]) + [vs[i].n] == RunOf(vs[..i + 1]);
        i := i + 1;
      }
      assert vs[..i] == vs;
      ok := Join();
    }

    method WriteElement(o: Options, ty: TypeName, no: nat, v: Value) returns (ok: bool)
      requires 0 < no <= |o.fields(ty)| && ConformsElement(o, o.fields(ty)[no - 1].content, v)
      modifies this
      ensures var f := Field(no, ElementItem(o, o.fields(ty)[no - 1].content, v));
        && (ok ==> chunk == old(chunk) + FieldBytes(f) && stack == old(stack))
        && (Legal(o, ty, f) ==> ok)
      decreases v, 1
    {
      hide Conforms, EncodeTag, EncodeScalar, FieldsBytes, LegalAll;
      match o.fields(ty)[no - 1].content {
        case Plain(s) =>
          Append(EncodeTag(no, WireOf(s)));
          Append(EncodeScalar(s, v));
          ok := true;
        case Sub(t) =>
          Append(EncodeTag(no, LENGTH_DELIMITED));
          Fork();
          ok := InternalBinaryWrite(o, t, v.slots);
          if ok {
            ok := Join();
          }
      }
    }
  }

  lemma {:induction false} LegalSlot(o: Options, ty: TypeName, m: Message, n: nat, upTo: nat)
    requires 0 < n <= upTo <= |m| == |o.fields(ty)| && LegalAll(o, ty, Fields(o, ty, m, upTo))
    ensures LegalAll(o, ty, SlotFields(o, n, o.fields(ty)[n - 1], m[n - 1]))
    decreases upTo
  {
    var head := Fields(o, ty, m, upTo - 1);
    var tail := SlotFields(o, upTo, o.fields(ty)[upTo - 1], m[upTo - 1]);
    assert Fields(o, ty, m, upTo) == head + tail;
    if n < upTo {
      assert forall i | 0 <= i < |head| :: head[i] == (head + tail)[i];
      LegalSlot(o, ty, m, n, upTo - 1);
    } else {
      assert forall i | 0 <= i < |tail| :: tail[i] == (head + tail)[|head| + i];
    }
  }

  lemma {:induction false} ListFieldsAt(o: Options, no: nat, c: Content, vs: seq<Value>, i: nat)
    requires i < |vs|
    ensures ListFields(o, no, c, vs)[i] == Field(no, ElementItem(o, c, vs[i]))
    decreases i
  {
    if i > 0 {
      ListFieldsAt(o, no, c, vs[1..], i - 1);
    }
  }

  lemma OneFieldBytes(f: Field)
    ensures FieldsBytes([f]) == FieldBytes(f)
  {}

  lemma ListFieldsConcat(o: Options, no: nat, c: Content, vs: seq<Value>, v: Value)
    ensures FieldsBytes(ListFields(o, no, c, vs + [v]))
         == FieldsBytes(ListFields(o, no, c, vs)) + FieldBytes(Field(no, ElementItem(o, c, v)))
    decreases |vs|
  {
    hide FieldBytes;
    if vs != [] {
      assert (vs + [v])[1..] == vs[1..] + [v];
      ListFieldsConcat(o, no, c, vs[1..], v);
    }
  }

  lemma EmptyRun()
    ensures RunOf([]) == [] && RunBytes([]) == []
  {}

  lemma RunConcat(ns: seq<int>, n: int)
    ensures RunBytes(ns + [n]) == RunBytes(ns) + EncodeScalar(Int32, Num(n))
    decreases |ns|
  {
    hide EncodeScalar;
    if ns != [] {
      assert (ns + [n])[1..] == ns[1..] + [n];
      RunConcat(ns[1..], n);
    }
  }
}
