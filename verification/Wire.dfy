/**
 The primitives of the protobuf binary format that the generated readers and writers call: base 128
 varints, tags, length-delimited runs of bytes and the skipping of a field nobody knows. Positions are
 explicit here; the reader class of `BinaryIO` keeps one in a field and is proved against these functions.
 */
module Wire {
  type Byte = b: int | 0 <= b < 256
  type Bytes = seq<Byte>

  const U32: int := 0x1_0000_0000
  const U64: int := 0x1_0000_0000_0000_0000
  const MAX_SAFE: int := 0x1F_FFFF_FFFF_FFFF  // Number.MAX_SAFE_INTEGER
  const MAX_FIELD_NO: nat := 0x1FFF_FFFF

  const VARINT: nat := 0
  const BIT64: nat := 1
  const LENGTH_DELIMITED: nat := 2
  const START_GROUP: nat := 3
  const END_GROUP: nat := 4
  const BIT32: nat := 5

  datatype ReadError =
    | PrematureEof
    | InvalidVarint
    | IllegalTag
    | UnknownField
    | CannotSkip
    | UnsafeNumber

  /** What a read at some position gives: a value and the position after it, or the error thrown. */
  datatype Read<+T> = Ok(value: T, pos: nat) | Err(error: ReadError) {
    predicate IsFailure() { Err? }
    function PropagateFailure<U>(): Read<U> requires Err? { Err(error) }
    function Extract(): (T, nat) requires Ok? { (value, pos) }
  }

  /** The bytes `s` stand in `buf` at `pos`. */
  ghost predicate At(buf: Bytes, pos: nat, s: Bytes) {
    pos + |s| <= |buf| && buf[pos..pos + |s|] == s
  }

  lemma AtConcat(buf: Bytes, pos: nat, a: Bytes, b: Bytes)
    requires At(buf, pos, a + b)
    ensures At(buf, pos, a) && At(buf, pos + |a|, b)
  {
    assert buf[pos..pos + |a|] == (a + b)[..|a|];
    assert buf[pos + |a|..pos + |a| + |b|] == (a + b)[|a|..];
  }

  // ---- Varints ----

  /** The bytes from `pos` on, least significant group first, none at `limit` or beyond. */
  function ReadVarint(buf: Bytes, pos: nat, limit: nat): (r: Read<nat>)
    ensures r.Ok? ==> pos < r.pos <= |buf|
    decreases limit - pos
  {
    if pos >= limit then Err(InvalidVarint)
    else if pos >= |buf| then Err(PrematureEof)
    else if buf[pos] < 128 then Ok(buf[pos], pos + 1)
    else
      var (rest, p) :- ReadVarint(buf, pos + 1, limit);
      Ok(buf[pos] - 128 + 128 * rest, p)
  }

  function EncodeVarint(n: nat): (r: Bytes)
    ensures |r| > 0
  {
    if n < 128 then [n] else [n % 128 + 128] + EncodeVarint(n / 128)
  }

  function Pow128(k: nat): (r: nat)
    ensures r > 0
  {
    if k == 0 then 1 else 128 * Pow128(k - 1)
  }

  lemma {:induction false} VarintRoundTrip(buf: Bytes, pos: nat, n: nat, limit: nat)
    requires At(buf, pos, EncodeVarint(n)) && pos < limit && n < Pow128(limit - pos)
    ensures ReadVarint(buf, pos, limit) == Ok(n, pos + |EncodeVarint(n)|)
    decreases limit - pos
  {
    assert buf[pos] == EncodeVarint(n)[0];
    if n >= 128 {
      AtConcat(buf, pos, [n % 128 + 128], EncodeVarint(n / 128));
      assert n / 128 < Pow128(limit - pos - 1);
      VarintRoundTrip(buf, pos + 1, n / 128, limit);
      assert n == n % 128 + 128 * (n / 128);
    }
  }

  lemma Varint64RoundTrip(buf: Bytes, pos: nat, n: nat)
    requires At(buf, pos, EncodeVarint(n)) && n < U64
    ensures ReadVarint(buf, pos, pos + 10) == Ok(n, pos + |EncodeVarint(n)|)
  {
    assert Pow128(5) == 0x8_0000_0000;
    assert Pow128(10) == 128 * 128 * 128 * 128 * 128 * Pow128(5);
    VarintRoundTrip(buf, pos, n, pos + 10);
  }

  /**
   How a read of `raw` on its own compares with the same read of a buffer in which `raw` stands at `base`: it gives
   the same, save that the buffer has more to offer to a read that needs bytes behind `raw`.
   */
  ghost predicate Local<T>(part: Read<T>, whole: Read<T>, base: nat, raw: Bytes) {
    && (part.Ok? ==> whole == Ok(part.value, base + part.pos))
    && (whole.Ok? && whole.pos <= base + |raw| ==> part.Ok?)
  }

  lemma {:induction false} VarintLocal(buf: Bytes, base: nat, raw: Bytes, i: nat, limit: nat)
    requires At(buf, base, raw) && i <= |raw|
    ensures Local(ReadVarint(raw, i, limit), ReadVarint(buf, base + i, base + limit), base, raw)
    decreases limit - i
  {
    if i < |raw| && i < limit {
      assert raw[i] == buf[base..base + |raw|][i] == buf[base + i];
      VarintLocal(buf, base, raw, i + 1, limit);
    }
  }

  /** A varint ends within ten bytes. */
  lemma {:induction false} VarintTooLong(buf: Bytes, pos: nat, limit: nat)
    requires pos <= limit <= |buf| && forall i | pos <= i < limit :: buf[i] >= 128
    ensures ReadVarint(buf, pos, limit) == Err(InvalidVarint)
    decreases limit - pos
  {
    if pos < limit {
      VarintTooLong(buf, pos + 1, limit);
    }
  }

  // ---- Integers ----

  function Signed(n: nat, modulus: nat): int { if n < modulus / 2 then n else n - modulus }

  function ReadUint32(buf: Bytes, pos: nat): (r: Read<nat>)
    ensures r.Ok? ==> pos < r.pos <= |buf|
  {
    var (n, p) :- ReadVarint(buf, pos, pos + 10);
    Ok(n % U32, p)
  }

  function ReadInt32(buf: Bytes, pos: nat): (r: Read<int>)
    ensures r.Ok? ==> pos < r.pos <= |buf|
  {
    var (n, p) :- ReadUint32(buf, pos);
    Ok(Signed(n, U32), p)
  }

  function ReadUint64(buf: Bytes, pos: nat): (r: Read<nat>)
    ensures r.Ok? ==> pos < r.pos <= |buf|
  {
    var (n, p) :- ReadVarint(buf, pos, pos + 10);
    Ok(n % U64, p)
  }

  /** Negative numbers are written as their 64-bit two's complement. */
  function EncodeInt(n: int): Bytes
    requires -U64 <= n
  {
    EncodeVarint(if n < 0 then n + U64 else n)
  }

  lemma Int32RoundTrip(buf: Bytes, pos: nat, n: int)
    requires -U32 / 2 <= n < U32 / 2 && At(buf, pos, EncodeInt(n))
    ensures ReadInt32(buf, pos) == Ok(n, pos + |EncodeInt(n)|)
  {
    Varint64RoundTrip(buf, pos, if n < 0 then n + U64 else n);
    if n < 0 {
      ModUnique(n + U64, U32 - 1, n + U32);
    }
  }

  lemma ModUnique(x: int, q: int, r: int)
    requires x == q * U32 + r && 0 <= r < U32
    ensures x % U32 == r
  {}

  lemma Uint32RoundTrip(buf: Bytes, pos: nat, n: nat)
    requires n < U32 && At(buf, pos, EncodeVarint(n))
    ensures ReadUint32(buf, pos) == Ok(n, pos + |EncodeVarint(n)|)
  {
    Varint64RoundTrip(buf, pos, n);
  }

  // ---- Tags and length-delimited bytes ----

  datatype Tag = Tag(no: nat, wire: nat)

  function EncodeTag(no: nat, wire: nat): Bytes { EncodeVarint(no * 8 + wire) }

  function ReadTag(buf: Bytes, pos: nat): (r: Read<Tag>)
    ensures r.Ok? ==> pos < r.pos <= |buf| && r.value.no > 0 && r.value.wire <= 5
  {
    var (n, p) :- ReadUint32(buf, pos);
    if n / 8 == 0 || n % 8 > 5 then Err(IllegalTag) else Ok(Tag(n / 8, n % 8), p)
  }

  lemma TagRoundTrip(buf: Bytes, pos: nat, no: nat, wire: nat)
    requires 0 < no <= MAX_FIELD_NO && wire <= 5 && At(buf, pos, EncodeTag(no, wire))
    ensures ReadTag(buf, pos) == Ok(Tag(no, wire), pos + |EncodeTag(no, wire)|)
  {
    Uint32RoundTrip(buf, pos, no * 8 + wire);
    assert (no * 8 + wire) / 8 == no && (no * 8 + wire) % 8 == wire;
  }

  /** Field number zero and the two wire types there are not are refused. */
  lemma TagRead(buf: Bytes, pos: nat, n: nat)
    requires n < 0x1_0000_0000 && At(buf, pos, EncodeVarint(n))
    ensures ReadTag(buf, pos)
         == if n < 8 || n % 8 == 6 || n % 8 == 7 then Err(IllegalTag)
            else Ok(Tag(n / 8, n % 8), pos + |EncodeVarint(n)|)
  {
    hide ReadVarint, EncodeVarint, ReadUint32;
    Uint32RoundTrip(buf, pos, n);
  }

  function Delimited(b: Bytes): Bytes { EncodeVarint(|b|) + b }

  function ReadBytes(buf: Bytes, pos: nat): (r: Read<Bytes>)
    ensures r.Ok? ==> pos < r.pos <= |buf|
  {
    var (len, p) :- ReadUint32(buf, pos);
    if p + len > |buf| then Err(PrematureEof) else Ok(buf[p..p + len], p + len)
  }

  /** A length beyond the buffer is refused. */
  lemma BytesRead(buf: Bytes, pos: nat, len: nat)
    requires len < 0x1_0000_0000 && At(buf, pos, EncodeVarint(len))
    ensures var start := pos + |EncodeVarint(len)|;
      ReadBytes(buf, pos)
      == if start + len > |buf| then Err(PrematureEof) else Ok(buf[start..start + len], start + len)
  {
    hide ReadVarint, EncodeVarint, ReadUint32;
    Uint32RoundTrip(buf, pos, len);
  }

  lemma BytesRoundTrip(buf: Bytes, pos: nat, b: Bytes)
    requires |b| < U32 && At(buf, pos, Delimited(b))
    ensures ReadBytes(buf, pos) == Ok(b, pos + |Delimited(b)|)
  {
    AtConcat(buf, pos, EncodeVarint(|b|), b);
    Uint32RoundTrip(buf, pos, |b|);
  }

  // ---- Skipping ----

  function SkipVarint(buf: Bytes, pos: nat): (r: Read<()>)
    ensures r.Ok? ==> pos < r.pos <= |buf|
    decreases |buf| - pos
  {
    if pos >= |buf| then Err(PrematureEof)
    else if buf[pos] < 128 then Ok((), pos + 1)
    else SkipVarint(buf, pos + 1)
  }

  function SkipFixed(buf: Bytes, pos: nat, len: nat): (r: Read<()>) {
    if pos + len > |buf| then Err(PrematureEof) else Ok((), pos + len)
  }

  function Skip(buf: Bytes, pos: nat, wire: nat): (r: Read<()>)
    requires pos <= |buf|
    ensures r.Ok? ==> pos <= r.pos <= |buf|
    decreases |buf| - pos, 1
  {
    if wire == VARINT then SkipVarint(buf, pos)
    else if wire == BIT64 then SkipFixed(buf, pos, 8)
    else if wire == BIT32 then SkipFixed(buf, pos, 4)
    else if wire == LENGTH_DELIMITED then
      var (len, p) :- ReadUint32(buf, pos);
      SkipFixed(buf, p, len)
    else if wire == START_GROUP then SkipGroup(buf, pos)
    else Err(CannotSkip)
  }

  /** Fields up to the matching end-group tag. */
  function SkipGroup(buf: Bytes, pos: nat): (r: Read<()>)
    requires pos <= |buf|
    ensures r.Ok? ==> pos < r.pos <= |buf|
    decreases |buf| - pos, 0
  {
    var (tag, p) :- ReadTag(buf, pos);
    if tag.wire == END_GROUP then Ok((), p)
    else
      var (_, q) :- Skip(buf, p, tag.wire);
      SkipGroup(buf, q)
  }

  lemma {:induction false} SkipVarintLocal(buf: Bytes, base: nat, raw: Bytes, i: nat)
    requires At(buf, base, raw) && i <= |raw|
    ensures Local(SkipVarint(raw, i), SkipVarint(buf, base + i), base, raw)
    decreases |raw| - i
  {
    if i < |raw| {
      assert raw[i] == buf[base..base + |raw|][i] == buf[base + i];
      SkipVarintLocal(buf, base, raw, i + 1);
    }
  }

  lemma Uint32Local(buf: Bytes, base: nat, raw: Bytes, i: nat)
    requires At(buf, base, raw) && i <= |raw|
    ensures Local(ReadUint32(raw, i), ReadUint32(buf, base + i), base, raw)
  {
    hide ReadVarint;
    VarintLocal(buf, base, raw, i, i + 10);
  }

  lemma TagLocal(buf: Bytes, base: nat, raw: Bytes, i: nat)
    requires At(buf, base, raw) && i <= |raw|
    ensures Local(ReadTag(raw, i), ReadTag(buf, base + i), base, raw)
  {
    hide ReadUint32;
    Uint32Local(buf, base, raw, i);
  }

  lemma {:induction false} SkipLocal(buf: Bytes, base: nat, raw: Bytes, i: nat, wire: nat)
    requires At(buf, base, raw) && i <= |raw|
    ensures Local(Skip(raw, i, wire), Skip(buf, base + i, wire), base, raw)
    decreases |raw| - i, 1
  {
    hide ReadUint32, SkipVarint, SkipGroup;
    SkipVarintLocal(buf, base, raw, i);
    Uint32Local(buf, base, raw, i);
    SkipGroupLocal(buf, base, raw, i);
  }

  /** One field of a group, and the rest of the group. */
  lemma {:induction false} SkipGroupLocal(buf: Bytes, base: nat, raw: Bytes, i: nat)
    requires At(buf, base, raw) && i <= |raw|
    ensures Local(SkipGroup(raw, i), SkipGroup(buf, base + i), base, raw)
    decreases |raw| - i, 0
  {
    hide ReadTag, Skip;
    TagLocal(buf, base, raw, i);
    var tag := ReadTag(raw, i);
    if tag.Ok? && tag.value.wire != END_GROUP {
      SkipLocal(buf, base, raw, tag.pos, tag.value.wire);
      var skipped := Skip(raw, tag.pos, tag.value.wire);
      if skipped.Ok? {
        SkipGroupLocal(buf, base, raw, skipped.pos);
      }
    }
  }
}
