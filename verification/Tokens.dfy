/** The token messages with their fields named, as the authentication code handles them. */
module Tokens {
  import opened CodecLaws
  import opened DdcMessages
  import opened Messages
  import opened Options
  import opened Wire

  datatype Signature = Signature(algorithm: int, signer: Bytes, value: Bytes)

  datatype Token = Token(signature: Option<Signature>, payload: Option<Payload>)

  datatype Payload = Payload(
    prev: Option<Token>,
    subject: Option<Bytes>,
    canDelegate: Option<bool>,
    bucketId: Option<int>,
    operations: seq<int>,
    expiresAt: Option<int>,
    pieceCid: Option<Bytes>)

  function OptionalBytes(b: Option<Bytes>): Codec.Value {
    if b.Some? then Codec.Raw(b.value) else Codec.Absent
  }

  function OptionalNum(n: Option<int>): Codec.Value {
    if n.Some? then Codec.Num(n.value) else Codec.Absent
  }

  function SignatureMessage(s: Signature): Codec.Message {
    [Codec.Num(s.algorithm), Codec.Raw(s.signer), Codec.Raw(s.value)]
  }

  function TokenMessage(t: Token): Codec.Message {
    [ if t.signature.Some? then Codec.Msg(SignatureMessage(t.signature.value)) else Codec.Absent,
      if t.payload.Some? then Codec.Msg(PayloadMessage(t.payload.value)) else Codec.Absent ]
  }

  function PayloadMessage(p: Payload): Codec.Message {
    [ if p.prev.Some? then Codec.Msg(TokenMessage(p.prev.value)) else Codec.Absent,
      OptionalBytes(p.subject),
      if p.canDelegate.Some? then Codec.Flag(p.canDelegate.value) else Codec.Absent,
      OptionalNum(p.bucketId),
      Codec.List(Codec.Nums(p.operations)),
      OptionalNum(p.expiresAt),
      OptionalBytes(p.pieceCid) ]
  }

  predicate Fits32(n: int) { -U32 / 2 <= n < U32 / 2 }

  /** Every number of the token is in the range of its field. */
  predicate TokenOk(t: Token) {
    && (t.signature.Some? ==> var s := t.signature.value; Fits32(s.algorithm) && |s.signer| < U32 && |s.value| < U32)
    && (t.payload.Some? ==> PayloadOk(t.payload.value))
  }

  predicate PayloadOk(p: Payload) {
    && (p.prev.Some? ==> TokenOk(p.prev.value))
    && (p.subject.Some? ==> |p.subject.value| < U32)
    && (p.bucketId.Some? ==> 0 <= p.bucketId.value < U64)
    && (forall i | 0 <= i < |p.operations| :: Fits32(p.operations[i]))
    && (p.expiresAt.Some? ==> -MAX_SAFE <= p.expiresAt.value <= MAX_SAFE)
    && (p.pieceCid.Some? ==> |p.pieceCid.value| < U32)
  }

  /** `Token.toBinary`. */
  function ToBinary(t: Token): Bytes { Encode(DDC, Codec.AuthToken, TokenMessage(t)) }

  /** In range, and shorter than the two gigabytes up to which every length is sure to fit its prefix. */
  predicate Serializable(t: Token) { TokenOk(t) && |ToBinary(t)| < MAX_BYTES }

  lemma {:induction false} TokenConforms(t: Token)
    requires TokenOk(t)
    ensures Conforms(DDC, Codec.AuthToken, TokenMessage(t))
    decreases t
  {
    if t.payload.Some? {
      PayloadConforms(t.payload.value);
    }
    var m := TokenMessage(t);
    assert ConformsSlot(DDC, Table(Codec.AuthToken)[1], m[1]);
    if t.signature.Some? {
      assert Conforms(DDC, Codec.Signature, SignatureMessage(t.signature.value));
    }
    assert ConformsSlot(DDC, Table(Codec.AuthToken)[0], m[0]);
  }

  lemma {:induction false} PayloadConforms(p: Payload)
    requires PayloadOk(p)
    ensures Conforms(DDC, Codec.Payload, PayloadMessage(p))
    decreases p
  {
    if p.prev.Some? {
      TokenConforms(p.prev.value);
    }
  }

  lemma {:induction false} TokenMessageInjective(s: Token, t: Token)
    requires TokenMessage(s) == TokenMessage(t)
    ensures s == t
    decreases s
  {
    assert TokenMessage(s)[0] == TokenMessage(t)[0] && TokenMessage(s)[1] == TokenMessage(t)[1];
    if s.payload.Some? {
      PayloadMessageInjective(s.payload.value, t.payload.value);
    }
    if s.signature.Some? {
      var a, b := SignatureMessage(s.signature.value), SignatureMessage(t.signature.value);
      assert a[0] == b[0] && a[1] == b[1] && a[2] == b[2];
    }
  }

  lemma {:induction false} PayloadMessageInjective(p: Payload, q: Payload)
    requires PayloadMessage(p) == PayloadMessage(q)
    ensures p == q
    decreases p
  {
    var a, b := PayloadMessage(p), PayloadMessage(q);
    assert a[0] == b[0] && a[1] == b[1] && a[2] == b[2] && a[3] == b[3] && a[4] == b[4] && a[5] == b[5] && a[6] == b[6];
    if p.prev.Some? {
      TokenMessageInjective(p.prev.value, q.prev.value);
    }
    NumsInjective(p.operations, q.operations);
  }

  lemma NumsInjective(ms: seq<int>, ns: seq<int>)
    requires Codec.Nums(ms) == Codec.Nums(ns)
    ensures ms == ns
  {
    var a, b := Codec.Nums(ms), Codec.Nums(ns);
    assert |ms| == |a| == |b| == |ns|;
    forall i | 0 <= i < |ms| ensures ms[i] == ns[i] {
      assert a[i] == Codec.Num(ms[i]) && b[i] == Codec.Num(ns[i]);
    }
  }

  lemma TokenWritable(t: Token)
    requires Serializable(t)
    ensures Writable(DDC, Codec.AuthToken, TokenMessage(t))
  {
    hide Encode, Conforms;
    TablesValid();
    TokenConforms(t);
    SmallIsWritable(DDC, Codec.AuthToken, TokenMessage(t));
  }

  /** A token of any depth is read back from its bytes, all of which are consumed. */
  lemma TokenRoundTrip(t: Token)
    requires Serializable(t)
    ensures Codec.Decode(DDC, Codec.AuthToken, ToBinary(t)) == Codec.Wire.Ok(TokenMessage(t), |ToBinary(t)|)
  {
    hide Encode, Codec.Decode, Writable;
    TablesValid();
    TokenWritable(t);
    RoundTrip(DDC, Codec.AuthToken, TokenMessage(t));
  }

  /** Distinct tokens have distinct bytes, so that a signature over the bytes is one over the token. */
  lemma ToBinaryInjective(s: Token, t: Token)
    requires Serializable(s) && Serializable(t) && ToBinary(s) == ToBinary(t)
    ensures s == t
  {
    hide Encode, Writable;
    TablesValid();
    TokenWritable(s);
    TokenWritable(t);
    EncodeInjective(DDC, Codec.AuthToken, TokenMessage(s), TokenMessage(t));
    TokenMessageInjective(s, t);
  }
}
