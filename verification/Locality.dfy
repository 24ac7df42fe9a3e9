/**
 When a read stays inside the bytes it was given. A nested message or packed run is read by its declared length
 only: nothing compares the position with that length again, so the read may go on into the bytes behind.
 */
module Locality {
  import opened Codec
  import opened Wire

  lemma Int32Local(buf: Bytes, base: nat, raw: Bytes, i: nat)
    requires At(buf, base, raw) && i <= |raw|
    ensures Local(ReadInt32(raw, i), ReadInt32(buf, base + i), base, raw)
  {
    hide ReadUint32;
    Uint32Local(buf, base, raw, i);
  }

  lemma BytesLocal(buf: Bytes, base: nat, raw: Bytes, i: nat)
    requires At(buf, base, raw) && i <= |raw|
    ensures Local(ReadBytes(raw, i), ReadBytes(buf, base + i), base, raw)
  {
    hide ReadUint32;
    Uint32Local(buf, base, raw, i);
    var len := ReadUint32(raw, i);
    if len.Ok? && len.pos + len.value <= |raw| {
      Slice(buf, base, raw, len.pos, len.pos + len.value);
    }
  }

  lemma Slice(buf: Bytes, base: nat, raw: Bytes, from: nat, to: nat)
    requires At(buf, base, raw) && from <= to <= |raw|
    ensures base + to <= |buf| && buf[base + from..base + to] == raw[from..to]
  {
    forall k | from <= k < to ensures buf[base + k] == raw[k] {
      assert raw[k] == buf[base..base + |raw|][k];
    }
  }

  lemma ScalarLocal(s: Scalar, buf: Bytes, base: nat, raw: Bytes, i: nat)
    requires At(buf, base, raw) && i <= |raw|
    ensures Local(ReadScalar(s, raw, i), ReadScalar(s, buf, base + i), base, raw)
  {
    hide ReadVarint, ReadUint32, ReadBytes;
    VarintLocal(buf, base, raw, i, i + 10);
    Uint32Local(buf, base, raw, i);
    BytesLocal(buf, base, raw, i);
  }

  lemma {:induction false} RunLocal(buf: Bytes, base: nat, raw: Bytes, i: nat, end: int)
    requires At(buf, base, raw) && i <= |raw|
    ensures Local(ReadRun(raw, i, end), ReadRun(buf, base + i, base + end), base, raw)
    decreases |raw| - i
  {
    hide ReadInt32;
    Int32Local(buf, base, raw, i);
    var n := ReadInt32(raw, i);
    if i < end && n.Ok? {
      RunLocal(buf, base, raw, n.pos, end);
    }
  }

  lemma {:induction false} ElementLocal(o: Options, c: Content, buf: Bytes, base: nat, raw: Bytes, i: nat, prior: Value)
    requires At(buf, base, raw) && i <= |raw|
    ensures Local(ReadElement(o, c, raw, i, prior), ReadElement(o, c, buf, base + i, prior), base, raw)
    decreases |raw| - i, 1
  {
    hide ReadScalar, ReadUint32, ReadMessage;
    match c
    case Plain(s) => ScalarLocal(s, buf, base, raw, i);
    case Sub(ty) =>
      Uint32Local(buf, base, raw, i);
      var len := ReadUint32(raw, i);
      if len.Ok? {
        MessageLocal(o, ty, buf, base, raw, len.pos, len.pos + len.value, Target(o, ty, prior));
      }
  }

  lemma {:induction false} SlotLocal(o: Options, k: Kind, buf: Bytes, base: nat, raw: Bytes, i: nat, wire: nat,
                                     slot: Value)
    requires At(buf, base, raw) && i <= |raw|
    ensures Local(ReadSlot(o, k, raw, i, wire, slot), ReadSlot(o, k, buf, base + i, wire, slot), base, raw)
    decreases |raw| - i, 2
  {
    hide At, ReadInt32, ReadRun, ReadElement;
    if k.rule.Packed? && wire == LENGTH_DELIMITED {
      Int32Local(buf, base, raw, i);
      var len := ReadInt32(raw, i);
      if len.Ok? {
        RunLocal(buf, base, raw, len.pos, len.pos + len.value);
      }
    } else {
      ElementLocal(o, k.content, buf, base, raw, i, Prior(k.rule, slot));
    }
  }

  lemma {:induction false} FieldLocal(o: Options, ty: TypeName, buf: Bytes, base: nat, raw: Bytes, i: nat, tag: Tag,
                                      msg: Message)
    requires At(buf, base, raw) && i <= |raw| && |msg| == |o.fields(ty)| && tag.no > 0
    ensures Local(ReadField(o, ty, raw, i, tag, msg), ReadField(o, ty, buf, base + i, tag, msg), base, raw)
    decreases |raw| - i, 3
  {
    hide Skip, ReadSlot, SetSlot;
    if tag.no > |o.fields(ty)| {
      SkipLocal(buf, base, raw, i, tag.wire);
    } else {
      SlotLocal(o, o.fields(ty)[tag.no - 1], buf, base, raw, i, tag.wire, msg[tag.no - 1]);
    }
  }

  lemma Inside(buf: Bytes, base: nat, raw: Bytes, i: nat)
    requires At(buf, base, raw) && i <= |raw|
    ensures base + i <= |buf|
  {}

  lemma RoundNone(o: Options, ty: TypeName, buf: Bytes, pos: nat, end: int, msg: Message)
    requires end <= pos <= |buf| && |msg| == |o.fields(ty)|
    ensures ReadMessage(o, ty, buf, pos, end, msg) == Ok(msg, pos)
  {}

  /** Where the first round fails on the bytes alone, reading the buffer fails too or ends behind them. */
  lemma RoundFails(o: Options, ty: TypeName, raw: Bytes, buf: Bytes, base: nat, i: nat, end: int, msg: Message)
    requires i <= |raw| && base + i <= |buf| && i < end && |msg| == |o.fields(ty)|
    requires Local(ReadTag(raw, i), ReadTag(buf, base + i), base, raw)
    requires var tag := ReadTag(raw, i);
      tag.Ok? ==>
        var field := ReadField(o, ty, raw, tag.pos, tag.value, msg);
        field.Err? && Local(field, ReadField(o, ty, buf, base + tag.pos, tag.value, msg), base, raw)
    ensures Local(ReadMessage(o, ty, raw, i, end, msg), ReadMessage(o, ty, buf, base + i, base + end, msg), base, raw)
  {
    hide ReadTag, ReadField;
  }

  /** The whole reader, unknown groups and messages at any depth included. */
  lemma {:induction false} MessageLocal(o: Options, ty: TypeName, buf: Bytes, base: nat, raw: Bytes, i: nat, end: int,
                                        msg: Message)
    requires At(buf, base, raw) && i <= |raw| && |msg| == |o.fields(ty)|
    ensures Local(ReadMessage(o, ty, raw, i, end, msg), ReadMessage(o, ty, buf, base + i, base + end, msg), base, raw)
    decreases |raw| - i, 4
  {
    hide At, ReadTag, ReadField, ReadMessage;
    Inside(buf, base, raw, i);
    var tag := ReadTag(raw, i);
    TagLocal(buf, base, raw, i);
    if i >= end {
      RoundNone(o, ty, raw, i, end, msg);
      RoundNone(o, ty, buf, base + i, base + end, msg);
    } else if tag.Err? {
      RoundFails(o, ty, raw, buf, base, i, end, msg);
    } else {
      FieldLocal(o, ty, buf, base, raw, tag.pos, tag.value, msg);
      var field := ReadField(o, ty, raw, tag.pos, tag.value, msg);
      if field.Err? {
        RoundFails(o, ty, raw, buf, base, i, end, msg);
      } else {
        RoundStep(o, ty, raw, i, end, msg, tag.value, tag.pos, field.value, field.pos);
        RoundStep(o, ty, buf, base + i, base + end, msg, tag.value, base + tag.pos, field.value, base + field.pos);
        MessageLocal(o, ty, buf, base, raw, field.pos, end, field.value);
      }
    }
  }

  /**
   A nested read stops exactly at its declared end if and only if the bytes it declares, read on their own, are a
   message; then it is that message. Otherwise it throws or overruns.
   */
  lemma StopsAtEndIff(o: Options, ty: TypeName, buf: Bytes, pos: nat, end: nat, target: Message)
    requires pos <= end <= |buf| && |target| == |o.fields(ty)|
    ensures var nested := ReadMessage(o, ty, buf, pos, end, target);
      var alone := ReadMessage(o, ty, buf[pos..end], 0, end - pos, target);
      && (nested.Ok? && nested.pos == end <==> alone.Ok?)
      && (alone.Ok? ==> nested == Ok(alone.value, end))
  {
    hide ReadMessage;
    MessageLocal(o, ty, buf, pos, buf[pos..end], 0, end - pos, target);
  }

  /** The same for a packed run. */
  lemma RunStopsAtEndIff(buf: Bytes, pos: nat, end: nat)
    requires pos <= end <= |buf|
    ensures var nested := ReadRun(buf, pos, end);
      var alone := ReadRun(buf[pos..end], 0, end - pos);
      && (nested.Ok? && nested.pos == end <==> alone.Ok?)
      && (alone.Ok? ==> nested == Ok(alone.value, end))
  {
    hide ReadRun;
    RunLocal(buf, pos, buf[pos..end], 0, end - pos);
  }
}
