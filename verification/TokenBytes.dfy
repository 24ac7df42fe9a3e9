/** The bytes of a token, written out over its named fields. */
module TokenBytes {
  import opened CodecLaws
  import opened DdcMessages
  import opened Layouts
  import opened MessageBytes
  import opened Messages
  import opened Options
  import opened Rearranging
  import opened Tokens
  import opened Wire

  function TokenLayout(t: Token): Bytes
    decreases t
  {
    (if t.signature.Some? then Sized(10, SignatureLayout(t.signature.value)) else [])
    + (if t.payload.Some? then Sized(18, PayloadLayout(t.payload.value)) else [])
  }

  function SignatureLayout(s: Signature): Bytes {
    NonZero(8, s.algorithm) + NonEmpty(18, s.signer) + NonEmpty(26, s.value)
  }

  /** The operations are one run of numbers behind its length, and left out if there are none. */
  function PayloadLayout(p: Payload): Bytes
    decreases p
  {
    (if p.prev.Some? then Sized(10, TokenLayout(p.prev.value)) else [])
    + SomeBytes(18, p.subject) + SomeFlag(24, p.canDelegate) + SomeNumber(32, p.bucketId)
    + PackedRun(42, p.operations) + SomeNumber(48, p.expiresAt) + SomeBytes(58, p.pieceCid)
  }

  function PrevMessage(p: Payload): Option<Codec.Message> {
    if p.prev.Some? then Some(TokenMessage(p.prev.value)) else None
  }

  lemma SignatureIs(s: Signature)
    requires Int32Range(s.algorithm) && Fits(s.signer) && Fits(s.value)
    ensures Encode(DDC, Codec.Signature, SignatureMessage(s)) == SignatureLayout(s)
  {
    SignatureBytes(s.algorithm, s.signer, s.value);
  }

  lemma {:induction false} PayloadIs(p: Payload)
    requires PayloadOk(p)
    ensures Encode(DDC, Codec.Payload, PayloadMessage(p)) == PayloadLayout(p)
    decreases p
  {
    hide Encode, Conforms, TokenMessage, Sized;
    PayloadConforms(p);
    PayloadBytes(PrevMessage(p), p.subject, p.canDelegate, p.bucketId, p.operations, p.expiresAt, p.pieceCid);
    if p.prev.Some? {
      TokenIs(p.prev.value);
    }
  }

  /** A token is its signature and its payload, each behind its tag and length. */
  lemma {:induction false} TokenIs(t: Token)
    requires TokenOk(t)
    ensures ToBinary(t) == TokenLayout(t)
    decreases t
  {
    hide Encode, Conforms, Sized, SignatureLayout;
    TokenConforms(t);
    var signature := if t.signature.Some? then Some(SignatureMessage(t.signature.value)) else None;
    var payload := if t.payload.Some? then Some(PayloadMessage(t.payload.value)) else None;
    AuthTokenBytes(signature, payload);
    if t.signature.Some? {
      SignatureIs(t.signature.value);
    }
    if t.payload.Some? {
      PayloadIs(t.payload.value);
    }
  }

  // ---- Operations that are not packed ----

  function Unpacked(ns: seq<int>): Bytes { if ns == [] then [] else [40] + Varint(ns[0]) + Unpacked(ns[1..]) }

  /** The payload with every operation as an entry of its own. */
  function UnpackedLayout(p: Payload): Bytes {
    (if p.prev.Some? then Sized(10, TokenLayout(p.prev.value)) else [])
    + SomeBytes(18, p.subject) + SomeFlag(24, p.canDelegate) + SomeNumber(32, p.bucketId)
    + Unpacked(p.operations) + SomeNumber(48, p.expiresAt) + SomeBytes(58, p.pieceCid)
  }

  lemma {:induction false} UnpackedIs(ns: seq<int>)
    requires forall i | 0 <= i < |ns| :: Int32Range(ns[i])
    ensures Codec.FieldsBytes(Singles(5, ns)) == Unpacked(ns)
    decreases |ns|
  {
    hide Codec.FieldBytes, Codec.FieldsBytes, Varint;
    if ns == [] {
      NoFields();
      assert Singles(5, ns) == [];
    } else {
      var f := Codec.Field(5, Codec.Leaf(Codec.Int32, Codec.Num(ns[0])));
      assert Singles(5, ns) == [f] + Singles(5, ns[1..]);
      MoreFields(f, Singles(5, ns[1..]));
      NumberField(5, Codec.Int32, ns[0]);
      UnpackedIs(ns[1..]);
    }
  }

  lemma PayloadSlots(p: Payload)
    requires PayloadOk(p)
    ensures var ks, m := Table(Codec.Payload), PayloadMessage(p);
      && SlotBytes(ks[0], 1, m[0]) == (if p.prev.Some? then Sized(10, TokenLayout(p.prev.value)) else [])
      && SlotBytes(ks[1], 2, m[1]) == SomeBytes(18, p.subject)
      && SlotBytes(ks[2], 3, m[2]) == SomeFlag(24, p.canDelegate)
      && SlotBytes(ks[3], 4, m[3]) == SomeNumber(32, p.bucketId)
      && SlotBytes(ks[5], 6, m[5]) == SomeNumber(48, p.expiresAt)
      && SlotBytes(ks[6], 7, m[6]) == SomeBytes(58, p.pieceCid)
  {
    hide SlotBytes, Encode, TokenMessage, Sized;
    Layouts.SubMessage(Codec.Optional, 1, Codec.AuthToken, PrevMessage(p));
    Layouts.OptionalBytes(Codec.Optional, 2, p.subject);
    OptionalFlag(3, p.canDelegate);
    OptionalNumber(4, Codec.Uint64, p.bucketId);
    OptionalNumber(6, Codec.Int64Number, p.expiresAt);
    Layouts.OptionalBytes(Codec.Optional, 7, p.pieceCid);
    if p.prev.Some? {
      TokenIs(p.prev.value);
    }
  }

  /** The fields of the operations, packed as they are written. */
  function Operations(ns: seq<int>): seq<Codec.Field> { if ns == [] then [] else [Codec.Field(5, Codec.Run(ns))] }

  function FieldsBefore(p: Payload): seq<Codec.Field> { Fields(DDC, Codec.Payload, PayloadMessage(p), 4) }

  function FieldsBehind(p: Payload): seq<Codec.Field> {
    SlotFields(DDC, 6, Table(Codec.Payload)[5], PayloadMessage(p)[5])
    + SlotFields(DDC, 7, Table(Codec.Payload)[6], PayloadMessage(p)[6])
  }

  lemma FieldsSplit(p: Payload)
    ensures Fields(DDC, Codec.Payload, PayloadMessage(p), 7)
         == FieldsBefore(p) + Operations(p.operations) + FieldsBehind(p)
  {
    var m := PayloadMessage(p);
    var five := SlotFields(DDC, 5, Table(Codec.Payload)[4], m[4]);
    assert five == Operations(p.operations) by {
      assert RunOf(Codec.Nums(p.operations)) == p.operations;
    }
    hide SlotFields, PayloadMessage;
    assert Fields(DDC, Codec.Payload, m, 5) == FieldsBefore(p) + five;
  }

  function PrevBytes(p: Payload): Bytes { if p.prev.Some? then Sized(10, TokenLayout(p.prev.value)) else [] }

  lemma BytesBefore(p: Payload)
    requires PayloadOk(p)
    ensures Codec.FieldsBytes(FieldsBefore(p))
         == PrevBytes(p) + SomeBytes(18, p.subject) + SomeFlag(24, p.canDelegate) + SomeNumber(32, p.bucketId)
  {
    assert |PayloadMessage(p)| == 7;
    hide SlotFields, SlotBytes, Fields, Codec.FieldsBytes, PayloadMessage, SomeNumber, SomeBytes, SomeFlag, Sized;
    var ks, m := Table(Codec.Payload), PayloadMessage(p);
    PayloadSlots(p);
    FieldsSlots(Codec.Payload, m, 4);
    FirstSlots(ks, m);
    NextSlot(ks, m, 2);
    NextSlot(ks, m, 3);
    NextSlot(ks, m, 4);
  }

  lemma BytesBehind(p: Payload)
    requires PayloadOk(p)
    ensures Codec.FieldsBytes(FieldsBehind(p)) == SomeNumber(48, p.expiresAt) + SomeBytes(58, p.pieceCid)
  {
    assert |PayloadMessage(p)| == 7;
    hide SlotFields, Codec.FieldsBytes, PayloadMessage, SomeNumber, SomeBytes, Sized;
    var ks, m := Table(Codec.Payload), PayloadMessage(p);
    PayloadSlots(p);
    BytesConcat(SlotFields(DDC, 6, ks[5], m[5]), SlotFields(DDC, 7, ks[6], m[6]));
  }

  lemma BytesSplit(p: Payload)
    requires PayloadOk(p)
    ensures Codec.FieldsBytes(FieldsBefore(p)) + Unpacked(p.operations) + Codec.FieldsBytes(FieldsBehind(p))
         == UnpackedLayout(p)
  {
    BytesBefore(p);
    BytesBehind(p);
    assert UnpackedLayout(p)
        == PrevBytes(p) + SomeBytes(18, p.subject) + SomeFlag(24, p.canDelegate) + SomeNumber(32, p.bucketId)
           + Unpacked(p.operations) + SomeNumber(48, p.expiresAt) + SomeBytes(58, p.pieceCid);
    hide *;
    Regroup(Codec.FieldsBytes(FieldsBefore(p)) + Unpacked(p.operations),
            SomeNumber(48, p.expiresAt), SomeBytes(58, p.pieceCid));
  }

  lemma Regroup(a: Bytes, b: Bytes, c: Bytes)
    ensures a + (b + c) == a + b + c
  {}

  lemma {:induction false} NormalSingles(ks: Codec.Kinds, ns: seq<int>)
    requires |ks| >= 5
    ensures Normal(ks, Singles(5, ns)) == Singles(5, ns)
    decreases |ns|
  {
    if ns != [] {
      assert Singles(5, ns) == [Codec.Field(5, Codec.Leaf(Codec.Int32, Codec.Num(ns[0])))] + Singles(5, ns[1..]);
      assert Singles(5, ns)[1..] == Singles(5, ns[1..]);
      NormalSingles(ks, ns[1..]);
    } else {
      assert Singles(5, ns) == [];
    }
  }

  lemma OperationsKnown(ns: seq<int>)
    ensures forall key ::
      Known(Table(Codec.Payload), Operations(ns), key) == Known(Table(Codec.Payload), Singles(5, ns), key)
  {
    var ks := Table(Codec.Payload);
    NormalSingles(ks, ns);
    if ns == [] {
      assert Singles(5, ns) == [];
    } else {
      assert Operations(ns)[1..] == [];
      assert Normal(ks, Operations(ns)) == Singles(5, ns) + Normal(ks, []) == Singles(5, ns);
    }
    assert Normal(ks, Operations(ns)) == Normal(ks, Singles(5, ns));
  }

  lemma LegalConcat(fs: seq<Codec.Field>, gs: seq<Codec.Field>)
    ensures Codec.LegalAll(DDC, Codec.Payload, fs + gs)
       <==> Codec.LegalAll(DDC, Codec.Payload, fs) && Codec.LegalAll(DDC, Codec.Payload, gs)
  {
    hide Codec.Legal;
    assert forall i | 0 <= i < |fs| :: (fs + gs)[i] == fs[i];
    assert forall i | 0 <= i < |gs| :: (fs + gs)[|fs| + i] == gs[i];
  }

  lemma SinglesLegal(ns: seq<int>)
    requires forall i | 0 <= i < |ns| :: Int32Range(ns[i])
    ensures Codec.LegalAll(DDC, Codec.Payload, Singles(5, ns))
  {}

  /** Written so or packed, a payload is read as the same. */
  lemma UnpackedRead(p: Payload)
    requires PayloadOk(p) && |PayloadLayout(p)| < MAX_BYTES
    ensures Codec.Decode(DDC, Codec.Payload, PayloadLayout(p)) == Ok(PayloadMessage(p), |PayloadLayout(p)|)
    ensures Codec.Decode(DDC, Codec.Payload, UnpackedLayout(p)) == Ok(PayloadMessage(p), |UnpackedLayout(p)|)
  {
    hide Encode, Codec.Decode, Fields, Codec.FieldsBytes, Conforms, PayloadMessage, PayloadLayout, UnpackedLayout;
    hide Codec.Legal, FieldsBefore, FieldsBehind, Unpacked, Singles, Rearranged;
    var m := PayloadMessage(p);
    var singles := Singles(5, p.operations);
    TablesValid();
    PayloadIs(p);
    PayloadConforms(p);
    SmallIsWritable(DDC, Codec.Payload, m);
    RoundTrip(DDC, Codec.Payload, m);
    FieldsSplit(p);
    OperationsKnown(p.operations);
    SameKnown(DDC, Codec.Payload, FieldsBefore(p), Operations(p.operations), singles, FieldsBehind(p));
    SinglesLegal(p.operations);
    LegalConcat(FieldsBefore(p) + Operations(p.operations), FieldsBehind(p));
    LegalConcat(FieldsBefore(p), Operations(p.operations));
    LegalConcat(FieldsBefore(p), singles);
    LegalConcat(FieldsBefore(p) + singles, FieldsBehind(p));
    DecodeArrangement(DDC, Codec.Payload, m, FieldsBefore(p) + singles + FieldsBehind(p));
    BytesConcat(FieldsBefore(p), singles);
    BytesConcat(FieldsBefore(p) + singles, FieldsBehind(p));
    UnpackedIs(p.operations);
    BytesSplit(p);
  }
}
