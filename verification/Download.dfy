/** Reading a file: the data generator of `getFile`, its acknowledgements and its validator. */
module Download {
  import opened Streams
  import opened Wire

  datatype Response = Proof(proof: seq<Bytes>) | Data(data: Bytes) | NoBody

  /** `slice(-32)`. */
  function ContentHash(cid: Bytes): (hash: Bytes)
    ensures |cid| <= 32 ==> hash == cid
    ensures |cid| > 32 ==> |hash| == 32 && cid[..|cid| - 32] + hash == cid
  {
    if |cid| <= 32 then cid else cid[|cid| - 32..]
  }

  /** `FileValidator` with the `CidValidator` it extends; the hasher is the bytes it was fed. */
  class FileValidator {
    const cid: Bytes
    const enable: bool
    const hasRange: bool
    var isProved: bool
    var fed: Bytes

    constructor (cid: Bytes, enable: bool, hasRange: bool)
      ensures this.cid == cid && this.enable == enable && this.hasRange == hasRange
      ensures !isProved && fed == []
    {
      this.cid, this.enable, this.hasRange := cid, enable, hasRange;
      isProved, fed := false, [];
    }

    method Update(chunk: Bytes)
      modifies this`fed
      ensures fed == if enable then old(fed) + chunk else old(fed)
    {
      if !enable {
        return;
      }
      fed := fed + chunk;
    }

    method Prove(proof: seq<Bytes>)
      modifies this`isProved
      ensures isProved == (|proof| > 0)
    {
      isProved := |proof| > 0;
    }

    /** `valid` is false where the source throws. */
    method Validate(hash: Bytes -> Bytes) returns (valid: bool)
      ensures valid == (isProved || hasRange || !enable || hash(fed) == ContentHash(cid))
    {
      if isProved || hasRange {
        return true;
      }
      if !enable {
        return true;
      }
      valid := hash(fed) == ContentHash(cid);
    }
  }

  function DataOf(responses: seq<Response>): seq<Bytes> {
    if responses == [] then []
    else (if responses[0].Data? then [responses[0].data] else []) + DataOf(responses[1..])
  }

  /** Whether the last proof among the responses holds anything. */
  function LastProof(responses: seq<Response>, before: bool): bool {
    if responses == [] then before
    else LastProof(responses[1..], if responses[0].Proof? then |responses[0].proof| > 0 else before)
  }

  lemma {:induction false} DataOfAppend(rs: seq<Response>, r: Response)
    ensures DataOf(rs + [r]) == DataOf(rs) + if r.Data? then [r.data] else []
    decreases |rs|
  {
    if rs != [] {
      assert (rs + [r])[1..] == rs[1..] + [r];
      DataOfAppend(rs[1..], r);
    }
  }

  lemma {:induction false} LastProofAppend(rs: seq<Response>, r: Response, before: bool)
    ensures LastProof(rs + [r], before) == if r.Proof? then |r.proof| > 0 else LastProof(rs, before)
    decreases |rs|
  {
    if rs != [] {
      assert (rs + [r])[1..] == rs[1..] + [r];
      LastProofAppend(rs[1..], r, if rs[0].Proof? then |rs[0].proof| > 0 else before);
    }
  }

  /** The acknowledgement after each data message reports everything delivered so far. */
  ghost predicate AcksMatch(acks: seq<nat>, delivered: seq<Bytes>) {
    |acks| == |delivered| && forall k | 0 <= k < |acks| :: acks[k] == |Concat(delivered[..k + 1])|
  }

  lemma AcksGrow(acks: seq<nat>, delivered: seq<Bytes>, data: Bytes)
    requires AcksMatch(acks, delivered)
    ensures AcksMatch(acks + [|Concat(delivered)| + |data|], delivered + [data])
  {
    var next := delivered + [data];
    ConcatOne(delivered, data);
    assert next[..|next|] == next;
    var all := acks + [|Concat(delivered)| + |data|];
    forall k | 0 <= k < |acks| ensures all[k] == |Concat(next[..k + 1])| {
      assert next[..k + 1] == delivered[..k + 1];
    }
  }

  /**
   The generator, consumed to its end. `canSign` tells whether a signer is at hand: without one the first
   acknowledgement throws. `completed` is false where the generator throws.
   */
  method ToDataStream(responses: seq<Response>, validator: FileValidator, enableAcks: bool, canSign: bool,
                      hash: Bytes -> Bytes)
    returns (delivered: seq<Bytes>, acks: seq<nat>, completed: bool)
    requires validator.fed == [] && !validator.isProved
    modifies validator
    ensures enableAcks && !canSign && DataOf(responses) != [] ==>
      delivered == [DataOf(responses)[0]] && acks == [] && !completed
    ensures !enableAcks || canSign || DataOf(responses) == [] ==>
      && delivered == DataOf(responses)
      && (if enableAcks then AcksMatch(acks, delivered) else acks == [])
      && validator.fed == (if validator.enable then Concat(delivered) else [])
      && completed == (!validator.enable || validator.hasRange || LastProof(responses, false)
                       || hash(Concat(delivered)) == ContentHash(validator.cid))
  {
    var bytesStoredOrDelivered := 0;
    delivered, acks := [], [];
    var i := 0;
    while i < |responses|
      invariant i <= |responses|
      invariant delivered == DataOf(responses[..i]) && bytesStoredOrDelivered == |Concat(delivered)|
      invariant if enableAcks then AcksMatch(acks, delivered) else acks == []
      invariant validator.fed == if validator.enable then Concat(delivered) else []
      invariant validator.isProved == LastProof(responses[..i], false)
      invariant enableAcks && !canSign ==> delivered == []
    {
      var body := responses[i];
      assert responses[..i] + [body] == responses[..i + 1];
      DataOfAppend(responses[..i], body);
      LastProofAppend(responses[..i], body, false);
      if body.Data? {
        ConcatOne(delivered, body.data);
        AcksIfEnabled(enableAcks, acks, delivered, body.data);
        delivered := delivered + [body.data];
        bytesStoredOrDelivered := bytesStoredOrDelivered + |body.data|;
        if enableAcks {
          if !canSign {
            DataOfPrefix(responses, i + 1);
            return delivered, acks, false;
          }
          acks := acks + [bytesStoredOrDelivered];
        }
        validator.Update(body.data);
      }
      if body.Proof? {
        validator.Prove(body.proof);
      }
      i := i + 1;
    }
    assert responses[..i] == responses;
    completed := validator.Validate(hash);
  }

  lemma AcksIfEnabled(enableAcks: bool, acks: seq<nat>, delivered: seq<Bytes>, data: Bytes)
    requires enableAcks ==> AcksMatch(acks, delivered)
    ensures enableAcks ==> AcksMatch(acks + [|Concat(delivered)| + |data|], delivered + [data])
  {
    if enableAcks {
      AcksGrow(acks, delivered, data);
    }
  }

  lemma {:induction false} DataOfPrefix(rs: seq<Response>, n: nat)
    requires n <= |rs|
    ensures DataOf(rs[..n]) <= DataOf(rs)
    decreases |rs|
  {
    if n > 0 {
      assert rs[..n][1..] == rs[1..][..n - 1];
      DataOfPrefix(rs[1..], n - 1);
    }
  }
}
