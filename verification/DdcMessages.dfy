/**
 The field tables of the SDK's messages, and the token messages with their fields named.
 */
module DdcMessages {
  import opened Codec
  import opened Locality
  import opened Wire

  function Plainly(rule: Rule, s: Scalar): Kind { Kind(rule, Plain(s)) }

  function Table(ty: TypeName): Kinds {
    match ty
    case Signature => [Plainly(Implicit, Int32), Plainly(Implicit, BytesField), Plainly(Implicit, BytesField)]
    case AuthToken => [Kind(Optional, Sub(Signature)), Kind(Optional, Sub(Payload))]
    case Payload => [
      Kind(Optional, Sub(AuthToken)), Plainly(Optional, BytesField), Plainly(Optional, Bool),
      Plainly(Optional, Uint64), Plainly(Packed, Int32), Plainly(Optional, Int64Number), Plainly(Optional, BytesField)]
    case ActivityRequest => [
      Kind(Optional, Sub(ActivityRequest)), Plainly(Implicit, BytesField), Plainly(Implicit, Int32),
      Plainly(Implicit, Int32), Plainly(Implicit, Uint64), Plainly(Implicit, BytesField),
      Plainly(Implicit, Uint64Number), Plainly(Implicit, Uint64Number), Plainly(Implicit, Uint64Number),
      Kind(Optional, Sub(Signature))]
    case ActivityAcknowledgment => [
      Plainly(Implicit, BytesField), Plainly(Implicit, Uint64Number), Plainly(Implicit, Uint64Number),
      Kind(Optional, Sub(Signature))]
    case PutRawPieceRequest => [Kind(Oneof, Sub(PutRawPieceMetadata)), Kind(Oneof, Sub(PutRawPieceContent))]
    case PutRawPieceMetadata => [
      Plainly(Implicit, Uint64), Plainly(Optional, BytesField), Plainly(Optional, Uint64Number),
      Plainly(Implicit, Bool), Plainly(Implicit, Uint64Number)]
    case PutRawPieceContent => [Plainly(Implicit, BytesField)]
    case PutMultiPartPieceRequest => [
      Plainly(Implicit, Uint64), Plainly(Optional, BytesField), Plainly(Implicit, Uint64Number),
      Plainly(Implicit, Uint64Number), Plainly(Repeated, BytesField)]
    case GetFileRequest => [Kind(Oneof, Sub(GetFileRequestBody)), Kind(Oneof, Sub(ActivityAcknowledgment))]
    case GetFileRequestBody => [
      Plainly(Implicit, BytesField), Plainly(Implicit, Uint64), Kind(Optional, Sub(GetFileRange)),
      Plainly(Implicit, Bool)]
    case GetFileRange => [Plainly(Implicit, Uint64Number), Plainly(Implicit, Uint64Number)]
    case GetFileResponse => [Kind(Oneof, Sub(GetFileProof)), Plainly(Oneof, BytesField)]
    case GetFileProof => [Plainly(Repeated, BytesField)]
    case DagNode => [Plainly(Implicit, BytesField), Kind(Repeated, Sub(DagLink)), Kind(Repeated, Sub(DagTag))]
    case DagLink => [Plainly(Implicit, BytesField), Plainly(Implicit, BytesField), Plainly(Implicit, Uint64Number)]
    case DagTag => [Plainly(Implicit, BytesField), Plainly(Implicit, BytesField)]
    case CnsRecord => [
      Kind(Optional, Sub(Signature)), Plainly(Implicit, BytesField), Plainly(Implicit, BytesField),
      Plainly(Optional, Uint32)]
  }

  /** The options `toBinary` and `fromBinary` use by default: unknown fields are let through. */
  const DDC: Options := Options(Table, false)

  lemma TablesValid()
    ensures ValidOptions(DDC)
  {}

  /**
   A nested length binds nobody: these seven bytes declare a payload of two bytes, `[18, 3]`, which is none on its
   own. They are read as a token all the same, whose payload takes its subject from the three bytes behind.
   */
  lemma NestedReadMayOverrun()
    ensures var blank := Create(DDC, Payload);
      && Decode(DDC, AuthToken, [18, 2, 18, 3, 7, 8, 9]) == Ok([Absent, Msg(blank[1 := Raw([7, 8, 9])])], 7)
      && ReadMessage(DDC, Payload, [18, 3], 0, 2, blank).Err?
  {
    var buf: Bytes := [18, 2, 18, 3, 7, 8, 9];
    OverrunningPayload(buf);
    OuterToken(buf, Create(DDC, Payload)[1 := Raw([7, 8, 9])]);
    assert buf[2..4] == [18, 3];
    StopsAtEndIff(DDC, Payload, buf, 2, 4, Create(DDC, Payload));
  }

  lemma OverrunningPayload(buf: Bytes)
    requires |buf| == 7 && buf[2..] == [18, 3, 7, 8, 9]
    ensures var blank := Create(DDC, Payload);
      ReadMessage(DDC, Payload, buf, 2, 4, blank) == Ok(blank[1 := Raw([7, 8, 9])], 7)
  {
    var blank := Create(DDC, Payload);
    var f := Field(2, Leaf(BytesField, Raw([7, 8, 9])));
    assert FieldBytes(f) == [18, 3, 7, 8, 9];
    assert Apply(DDC, Payload, blank, f) == blank[1 := Raw([7, 8, 9])];
    TablesValid();
    FieldRead(DDC, Payload, buf, 2, 4, blank, f);
    RoundNone(DDC, Payload, buf, 7, 4, blank[1 := Raw([7, 8, 9])]);
  }

  lemma OuterToken(buf: Bytes, payload: Message)
    requires |buf| == 7 && buf[..2] == [18, 2] && |payload| == |Table(Payload)|
    requires ReadMessage(DDC, Payload, buf, 2, 4, Create(DDC, Payload)) == Ok(payload, 7)
    ensures Decode(DDC, AuthToken, buf) == Ok([Absent, Msg(payload)], 7)
  {
    hide ReadMessage, ReadTag, ReadUint32;
    var blank := Create(DDC, AuthToken);
    assert EncodeTag(2, LENGTH_DELIMITED) == [18] && EncodeVarint(2) == [2];
    TagRoundTrip(buf, 0, 2, LENGTH_DELIMITED);
    Uint32RoundTrip(buf, 1, 2);
    var k := Table(AuthToken)[1];
    assert ReadSlot(DDC, k, buf, 1, LENGTH_DELIMITED, Absent) == Ok(Msg(payload), 7);
    assert SetSlot(Table(AuthToken), blank, 1, Msg(payload)) == [Absent, Msg(payload)];
    RoundStep(DDC, AuthToken, buf, 0, 7, blank, Tag(2, LENGTH_DELIMITED), 1, [Absent, Msg(payload)], 7);
    RoundNone(DDC, AuthToken, buf, 7, 7, [Absent, Msg(payload)]);
  }
}
