/** The laws of decoding what a writer wrote. */
module CodecLaws {
  import opened Codec
  import opened Messages
  import opened Wire

  /** Decoding the bytes of any legal fields gives what the fields mean, and consumes every byte. */
  lemma DecodeFields(o: Options, ty: TypeName, fs: seq<Field>)
    requires ValidOptions(o) && LegalAll(o, ty, fs)
    ensures Decode(o, ty, FieldsBytes(fs)) == Ok(Interpret(o, ty, Create(o, ty), fs), |FieldsBytes(fs)|)
  {
    hide FieldsBytes;
    var bytes := FieldsBytes(fs);
    assert bytes[0..0 + |bytes|] == bytes;
    ReadFields(o, ty, bytes, 0, |bytes|, Create(o, ty), fs);
  }

  /** Reading two messages written one after the other merges the second into the first. */
  lemma DecodeConcat(o: Options, ty: TypeName, a: Message, b: Message)
    requires ValidOptions(o) && Writable(o, ty, a) && Writable(o, ty, b)
    ensures Decode(o, ty, Encode(o, ty, a) + Encode(o, ty, b))
         == Ok(Merge(o, ty, a, b), |Encode(o, ty, a)| + |Encode(o, ty, b)|)
  {
    hide FieldsBytes, Fields, Interpret;
    var blank := Create(o, ty);
    var fa := Fields(o, ty, a, |a|);
    var fb := Fields(o, ty, b, |b|);
    BytesConcat(fa, fb);
    DecodeFields(o, ty, fa + fb);
    InterpretConcat(o, ty, blank, fa, fb);
    CreateConforms(o, ty);
    FieldsApplied(o, ty, blank, a, |a|);
    MergeIntoNew(o, ty, a);
    FieldsApplied(o, ty, a, b, |b|);
  }

  /** Decoding inverts encoding. */
  lemma RoundTrip(o: Options, ty: TypeName, m: Message)
    requires ValidOptions(o) && Writable(o, ty, m)
    ensures Decode(o, ty, Encode(o, ty, m)) == Ok(m, |Encode(o, ty, m)|)
  {
    DecodeFields(o, ty, Fields(o, ty, m, |m|));
    CreateConforms(o, ty);
    FieldsApplied(o, ty, Create(o, ty), m, |m|);
    MergeIntoNew(o, ty, m);
  }

  /** Distinct messages have distinct bytes. */
  lemma EncodeInjective(o: Options, ty: TypeName, a: Message, b: Message)
    requires ValidOptions(o) && Writable(o, ty, a) && Writable(o, ty, b)
    requires Encode(o, ty, a) == Encode(o, ty, b)
    ensures a == b
  {
    hide Encode, Decode, Writable;
    RoundTrip(o, ty, a);
    RoundTrip(o, ty, b);
  }
}
