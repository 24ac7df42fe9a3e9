/** Fields nobody knows, as the format allows them, and that every one of them is skipped to its very end. */
module Skipping {
  import opened Codec
  import opened Wire

  datatype Unfamiliar =
    | Number(n: nat)
    | Eight(bytes: Bytes)
    | Sized(bytes: Bytes)
    | Group(fields: seq<Numbered>)
    | Four(bytes: Bytes)
  datatype Numbered = Numbered(no: nat, value: Unfamiliar)

  function WireType(u: Unfamiliar): nat {
    match u
    case Number(_) => 0
    case Eight(_) => 1
    case Sized(_) => 2
    case Group(_) => 3
    case Four(_) => 5
  }

  /** What stands behind the tag; a group ends with the end tag of its own number. */
  function ValueBytes(no: nat, u: Unfamiliar): Bytes
    decreases u, 1
  {
    match u
    case Number(n) => EncodeVarint(n)
    case Eight(b) => b
    case Sized(b) => EncodeVarint(|b|) + b
    case Group(fs) => GroupBytes(fs) + EncodeVarint(8 * no + 4)
    case Four(b) => b
  }

  function GroupBytes(fs: seq<Numbered>): Bytes
    decreases fs, 0
  {
    if fs == [] then []
    else NumberedBytes(fs[0]) + GroupBytes(fs[1..])
  }

  function NumberedBytes(f: Numbered): Bytes
    decreases f, 2
  {
    EncodeVarint(8 * f.no + WireType(f.value)) + ValueBytes(f.no, f.value)
  }

  predicate WellFormed(f: Numbered)
    decreases f
  {
    && 0 < f.no <= 0x1FFF_FFFF
    && match f.value
       case Number(_) => true
       case Eight(b) => |b| == 8
       case Sized(b) => |b| < 0x1_0000_0000
       case Group(fs) => forall i | 0 <= i < |fs| :: WellFormed(fs[i])
       case Four(b) => |b| == 4
  }

  lemma {:induction false} NumberSkipped(buf: Bytes, pos: nat, n: nat)
    requires At(buf, pos, EncodeVarint(n))
    ensures SkipVarint(buf, pos) == Ok((), pos + |EncodeVarint(n)|)
    decreases n
  {
    assert buf[pos] == EncodeVarint(n)[0];
    if n >= 128 {
      AtConcat(buf, pos, [n % 128 + 128], EncodeVarint(n / 128));
      NumberSkipped(buf, pos + 1, n / 128);
    }
  }

  lemma SizedSkipped(buf: Bytes, pos: nat, b: Bytes)
    requires |b| < 0x1_0000_0000 && At(buf, pos, EncodeVarint(|b|) + b)
    ensures Skip(buf, pos, 2) == Ok((), pos + |EncodeVarint(|b|)| + |b|)
  {
    hide EncodeVarint, ReadUint32;
    AtConcat(buf, pos, EncodeVarint(|b|), b);
    Uint32RoundTrip(buf, pos, |b|);
  }

  /** Skipping by the wire type ends exactly behind the value, groups in groups included. */
  lemma {:induction false} SkipsExactly(buf: Bytes, pos: nat, f: Numbered)
    requires WellFormed(f) && At(buf, pos, ValueBytes(f.no, f.value))
    ensures pos <= |buf| && Skip(buf, pos, WireType(f.value)) == Ok((), pos + |ValueBytes(f.no, f.value)|)
    decreases f, 1
  {
    hide EncodeVarint, SkipVarint, SkipGroup;
    match f.value
    case Number(n) => NumberSkipped(buf, pos, n);
    case Eight(b) =>
    case Sized(b) => SizedSkipped(buf, pos, b);
    case Group(fs) => GroupSkipped(buf, pos, f.no, fs);
    case Four(b) =>
  }

  lemma GroupStep(buf: Bytes, pos: nat, tag: Tag, p: nat, q: nat)
    requires pos <= |buf| && ReadTag(buf, pos) == Ok(tag, p) && tag.wire != 4 && Skip(buf, p, tag.wire) == Ok((), q)
    ensures q <= |buf| && SkipGroup(buf, pos) == SkipGroup(buf, q)
  {}

  lemma GroupEnds(buf: Bytes, pos: nat, no: nat)
    requires 0 < no <= 0x1FFF_FFFF && At(buf, pos, EncodeVarint(8 * no + 4))
    ensures pos <= |buf| && SkipGroup(buf, pos) == Ok((), pos + |EncodeVarint(8 * no + 4)|)
  {
    hide EncodeVarint, ReadTag, Skip;
    TagRead(buf, pos, 8 * no + 4);
  }

  lemma Parts(tag: Bytes, value: Bytes, rest: Bytes, end: Bytes)
    ensures tag + value + rest + end == tag + (value + (rest + end))
  {}

  /** Where the tag, the value and the rest of a group stand. */
  lemma GroupSplits(buf: Bytes, pos: nat, tag: Bytes, value: Bytes, rest: Bytes, end: Bytes)
    requires At(buf, pos, tag + value + rest + end)
    ensures At(buf, pos, tag) && At(buf, pos + |tag|, value) && At(buf, pos + |tag| + |value|, rest + end)
  {
    hide At;
    Parts(tag, value, rest, end);
    AtConcat(buf, pos, tag, value + (rest + end));
    AtConcat(buf, pos + |tag|, value, rest + end);
  }

  lemma {:induction false} GroupSkipped(buf: Bytes, pos: nat, no: nat, fs: seq<Numbered>)
    requires 0 < no <= 0x1FFF_FFFF && forall i | 0 <= i < |fs| :: WellFormed(fs[i])
    requires At(buf, pos, GroupBytes(fs) + EncodeVarint(8 * no + 4))
    ensures pos <= |buf| && SkipGroup(buf, pos) == Ok((), pos + |GroupBytes(fs)| + |EncodeVarint(8 * no + 4)|)
    decreases fs, 0
  {
    hide EncodeVarint, ReadTag, Skip, SkipGroup, ValueBytes, At;
    var end := EncodeVarint(8 * no + 4);
    if fs == [] {
      assert GroupBytes(fs) + end == end;
      GroupEnds(buf, pos, no);
    } else {
      var f := fs[0];
      var tag := EncodeVarint(8 * f.no + WireType(f.value));
      var value := ValueBytes(f.no, f.value);
      GroupSplits(buf, pos, tag, value, GroupBytes(fs[1..]), end);
      TagRead(buf, pos, 8 * f.no + WireType(f.value));
      SkipsExactly(buf, pos + |tag|, f);
      GroupSkipped(buf, pos + |tag| + |value|, no, fs[1..]);
      GroupStep(buf, pos, Tag(f.no, WireType(f.value)), pos + |tag|, pos + |tag| + |value|);
    }
  }

  /** So a message takes every such field that it does not know. */
  lemma UnfamiliarLegal(o: Options, ty: TypeName, f: Numbered)
    requires WellFormed(f) && f.no > |o.fields(ty)| && !o.throwUnknown
    ensures Legal(o, ty, Field(f.no, Unknown(WireType(f.value), ValueBytes(f.no, f.value))))
  {
    hide Skip;
    var raw := ValueBytes(f.no, f.value);
    assert raw[0..0 + |raw|] == raw;
    SkipsExactly(raw, 0, f);
  }
}
