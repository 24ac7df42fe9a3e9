/**
 What each message may hold, and its bytes, field by field: an implicit field is left out when it has its default, an
 optional one when it is absent, and a sub-message stands behind its length.
 */
module MessageBytes {
  import opened Codec
  import opened DdcMessages
  import opened Layouts
  import opened Messages
  import opened Options
  import opened Wire

  lemma SignatureBytes(algorithm: int, signer: Bytes, value: Bytes)
    ensures var m := [Num(algorithm), Raw(signer), Raw(value)];
      && (Conforms(DDC, Signature, m) <==>
           Int32Range(algorithm) && Fits(signer) && Fits(value))
      && (Conforms(DDC, Signature, m) ==>
            Encode(DDC, Signature, m)
            == NonZero(8, algorithm) + NonEmpty(18, signer) + NonEmpty(26, value))
  {
    hide SlotBytes, ConformsSlot, Conforms, Encode, NonZero, NonEmpty;
    ThreeSlots(Signature, [Num(algorithm), Raw(signer), Raw(value)]);
    ImplicitNumber(1, Int32, algorithm);
    ImplicitBytes(2, signer);
    ImplicitBytes(3, value);
  }

  lemma AuthTokenBytes(signature: Option<Message>, payload: Option<Message>)
    ensures var m := [OfMessage(signature), OfMessage(payload)];
      && (Conforms(DDC, AuthToken, m) <==>
           MaybeConforms(Signature, signature) && MaybeConforms(Payload, payload))
      && (Conforms(DDC, AuthToken, m) ==>
            Encode(DDC, AuthToken, m)
            == SomeBytes(10, Written(Signature, signature)) + SomeBytes(18, Written(Payload, payload)))
  {
    hide SlotBytes, ConformsSlot, Conforms, Encode, OfMessage, SomeBytes, Written, MaybeConforms;
    TwoSlots(AuthToken, [OfMessage(signature), OfMessage(payload)]);
    SubMessage(Optional, 1, Signature, signature);
    SubMessage(Optional, 2, Payload, payload);
  }

  lemma PayloadBytes(prev: Option<Message>, subject: Option<Bytes>, canDelegate: Option<bool>, bucketId: Option<int>,
                     operations: seq<int>, expiresAt: Option<int>, pieceCid: Option<Bytes>)
    ensures var m := [OfMessage(prev), OfBytes(subject), OfFlag(canDelegate), OfNumber(bucketId),
                      List(Nums(operations)), OfNumber(expiresAt), OfBytes(pieceCid)];
      && (Conforms(DDC, Payload, m) <==>
           MaybeConforms(AuthToken, prev) && OptionalFits(subject) &&
           (bucketId.Some? ==> Uint64Range(bucketId.value)) &&
           (forall i | 0 <= i < |operations| :: Int32Range(operations[i])) &&
           (expiresAt.Some? ==> -0x1F_FFFF_FFFF_FFFF <= expiresAt.value <= 0x1F_FFFF_FFFF_FFFF) &&
           OptionalFits(pieceCid))
      && (Conforms(DDC, Payload, m) ==>
            Encode(DDC, Payload, m)
            == SomeBytes(10, Written(AuthToken, prev)) + SomeBytes(18, subject) + SomeFlag(24, canDelegate) +
               SomeNumber(32, bucketId) + PackedRun(42, operations) + SomeNumber(48, expiresAt) +
               SomeBytes(58, pieceCid))
  {
    hide SlotBytes, ConformsSlot, Conforms, Encode, Nums, OfMessage, OfBytes, OfFlag, OfNumber, SomeBytes;
    hide SomeNumber, SomeFlag, PackedRun, Written, MaybeConforms;
    SevenSlots(Payload, [OfMessage(prev), OfBytes(subject), OfFlag(canDelegate), OfNumber(bucketId),
                         List(Nums(operations)), OfNumber(expiresAt), OfBytes(pieceCid)]);
    SubMessage(Optional, 1, AuthToken, prev);
    OptionalBytes(Optional, 2, subject);
    OptionalFlag(3, canDelegate);
    OptionalNumber(4, Uint64, bucketId);
    PackedNumbers(5, operations);
    OptionalNumber(6, Int64Number, expiresAt);
    OptionalBytes(Optional, 7, pieceCid);
  }

  lemma ActivityRequestBytes(parentRequest: Option<Message>, requestId: Bytes, requestType: int, contentType: int,
                             bucketId: int, id: Bytes, offset: int, size: int, timestamp: int,
                             signature: Option<Message>)
    ensures var m := [OfMessage(parentRequest), Raw(requestId), Num(requestType), Num(contentType), Num(bucketId),
                      Raw(id), Num(offset), Num(size), Num(timestamp), OfMessage(signature)];
      && (Conforms(DDC, ActivityRequest, m) <==>
           MaybeConforms(ActivityRequest, parentRequest) && Fits(requestId) && Int32Range(requestType) &&
           Int32Range(contentType) && Uint64Range(bucketId) && Fits(id) && SafeRange(offset) &&
           SafeRange(size) && SafeRange(timestamp) && MaybeConforms(Signature, signature))
      && (Conforms(DDC, ActivityRequest, m) ==>
            Encode(DDC, ActivityRequest, m)
            == SomeBytes(10, Written(ActivityRequest, parentRequest)) + NonEmpty(18, requestId) +
               NonZero(24, requestType) + NonZero(32, contentType) + NonZero(40, bucketId) + NonEmpty(50, id) +
               NonZero(56, offset) + NonZero(64, size) + NonZero(72, timestamp) +
               SomeBytes(82, Written(Signature, signature)))
  {
    hide SlotBytes, ConformsSlot, Conforms, Encode, OfMessage, NonZero, NonEmpty, SomeBytes, Written, MaybeConforms;
    TenSlots(ActivityRequest, [OfMessage(parentRequest), Raw(requestId), Num(requestType), Num(contentType),
                               Num(bucketId), Raw(id), Num(offset), Num(size), Num(timestamp),
                               OfMessage(signature)]);
    SubMessage(Optional, 1, ActivityRequest, parentRequest);
    ImplicitBytes(2, requestId);
    ImplicitNumber(3, Int32, requestType);
    ImplicitNumber(4, Int32, contentType);
    ImplicitNumber(5, Uint64, bucketId);
    ImplicitBytes(6, id);
    ImplicitNumber(7, Uint64Number, offset);
    ImplicitNumber(8, Uint64Number, size);
    ImplicitNumber(9, Uint64Number, timestamp);
    SubMessage(Optional, 10, Signature, signature);
  }

  lemma ActivityAcknowledgmentBytes(requestId: Bytes, bytesStoredOrDelivered: int, timestamp: int,
                                    signature: Option<Message>)
    ensures var m := [Raw(requestId), Num(bytesStoredOrDelivered), Num(timestamp), OfMessage(signature)];
      && (Conforms(DDC, ActivityAcknowledgment, m) <==>
           Fits(requestId) && SafeRange(bytesStoredOrDelivered) && SafeRange(timestamp) &&
           MaybeConforms(Signature, signature))
      && (Conforms(DDC, ActivityAcknowledgment, m) ==>
            Encode(DDC, ActivityAcknowledgment, m)
            == NonEmpty(10, requestId) + NonZero(16, bytesStoredOrDelivered) + NonZero(24, timestamp) +
               SomeBytes(34, Written(Signature, signature)))
  {
    hide SlotBytes, ConformsSlot, Conforms, Encode, OfMessage, NonZero, NonEmpty, SomeBytes, Written, MaybeConforms;
    FourSlots(ActivityAcknowledgment, [Raw(requestId), Num(bytesStoredOrDelivered), Num(timestamp),
                                       OfMessage(signature)]);
    ImplicitBytes(1, requestId);
    ImplicitNumber(2, Uint64Number, bytesStoredOrDelivered);
    ImplicitNumber(3, Uint64Number, timestamp);
    SubMessage(Optional, 4, Signature, signature);
  }

  lemma PutRawPieceRequestBytes(metadata: Option<Message>, content: Option<Message>)
    ensures var m := [OfMessage(metadata), OfMessage(content)];
      && (Conforms(DDC, PutRawPieceRequest, m) <==>
           MaybeConforms(PutRawPieceMetadata, metadata) && MaybeConforms(PutRawPieceContent, content) &&
           (metadata == None || content == None))
      && (Conforms(DDC, PutRawPieceRequest, m) ==>
            Encode(DDC, PutRawPieceRequest, m)
            == SomeBytes(10, Written(PutRawPieceMetadata, metadata)) +
               SomeBytes(18, Written(PutRawPieceContent, content)))
  {
    hide SlotBytes, ConformsSlot, Conforms, Encode, SomeBytes, Written, MaybeConforms;
    OneofSlots(PutRawPieceRequest, [OfMessage(metadata), OfMessage(content)]);
    SubMessage(Oneof, 1, PutRawPieceMetadata, metadata);
    SubMessage(Oneof, 2, PutRawPieceContent, content);
  }

  lemma PutRawPieceMetadataBytes(bucketId: int, cid: Option<Bytes>, offset: Option<int>, isMultipart: bool, size: int)
    ensures var m := [Num(bucketId), OfBytes(cid), OfNumber(offset), Flag(isMultipart), Num(size)];
      && (Conforms(DDC, PutRawPieceMetadata, m) <==>
           Uint64Range(bucketId) && OptionalFits(cid) && (offset.Some? ==> SafeRange(offset.value)) &&
           SafeRange(size))
      && (Conforms(DDC, PutRawPieceMetadata, m) ==>
            Encode(DDC, PutRawPieceMetadata, m)
            == NonZero(8, bucketId) + SomeBytes(18, cid) + SomeNumber(24, offset) + IfTrue(32, isMultipart) +
               NonZero(40, size))
  {
    hide SlotBytes, ConformsSlot, Conforms, Encode, OfBytes, OfNumber, NonZero, IfTrue, SomeBytes, SomeNumber;
    FiveSlots(PutRawPieceMetadata, [Num(bucketId), OfBytes(cid), OfNumber(offset), Flag(isMultipart), Num(size)]);
    ImplicitNumber(1, Uint64, bucketId);
    OptionalBytes(Optional, 2, cid);
    OptionalNumber(3, Uint64Number, offset);
    ImplicitFlag(4, isMultipart);
    ImplicitNumber(5, Uint64Number, size);
  }

  lemma PutRawPieceContentBytes(data: Bytes)
    ensures var m := [Raw(data)];
      && (Conforms(DDC, PutRawPieceContent, m) <==>
           Fits(data))
      && (Conforms(DDC, PutRawPieceContent, m) ==>
            Encode(DDC, PutRawPieceContent, m)
            == NonEmpty(10, data))
  {
    hide SlotBytes, ConformsSlot, Conforms, Encode, NonEmpty;
    OneSlots(PutRawPieceContent, [Raw(data)]);
    ImplicitBytes(1, data);
  }

  lemma PutMultiPartPieceRequestBytes(bucketId: int, cid: Option<Bytes>, totalSize: int, partSize: int,
                                      partHashes: seq<Bytes>)
    ensures var m := [Num(bucketId), OfBytes(cid), Num(totalSize), Num(partSize), OfEach(partHashes)];
      && (Conforms(DDC, PutMultiPartPieceRequest, m) <==>
           Uint64Range(bucketId) && OptionalFits(cid) && SafeRange(totalSize) && SafeRange(partSize) &&
           (forall i | 0 <= i < |partHashes| :: Fits(partHashes[i])))
      && (Conforms(DDC, PutMultiPartPieceRequest, m) ==>
            Encode(DDC, PutMultiPartPieceRequest, m)
            == NonZero(8, bucketId) + SomeBytes(18, cid) + NonZero(24, totalSize) + NonZero(32, partSize) +
               Each(42, partHashes))
  {
    hide SlotBytes, ConformsSlot, Conforms, Encode, OfBytes, OfEach, NonZero, SomeBytes, Each;
    FiveSlots(PutMultiPartPieceRequest, [Num(bucketId), OfBytes(cid), Num(totalSize), Num(partSize),
                                         OfEach(partHashes)]);
    ImplicitNumber(1, Uint64, bucketId);
    OptionalBytes(Optional, 2, cid);
    ImplicitNumber(3, Uint64Number, totalSize);
    ImplicitNumber(4, Uint64Number, partSize);
    RepeatedBytes(5, partHashes);
  }

  lemma GetFileRequestBytes(request: Option<Message>, ack: Option<Message>)
    ensures var m := [OfMessage(request), OfMessage(ack)];
      && (Conforms(DDC, GetFileRequest, m) <==>
           MaybeConforms(GetFileRequestBody, request) && MaybeConforms(ActivityAcknowledgment, ack) &&
           (request == None || ack == None))
      && (Conforms(DDC, GetFileRequest, m) ==>
            Encode(DDC, GetFileRequest, m)
            == SomeBytes(10, Written(GetFileRequestBody, request)) +
               SomeBytes(18, Written(ActivityAcknowledgment, ack)))
  {
    hide SlotBytes, ConformsSlot, Conforms, Encode, SomeBytes, Written, MaybeConforms;
    OneofSlots(GetFileRequest, [OfMessage(request), OfMessage(ack)]);
    SubMessage(Oneof, 1, GetFileRequestBody, request);
    SubMessage(Oneof, 2, ActivityAcknowledgment, ack);
  }

  lemma GetFileRequestBodyBytes(cid: Bytes, bucketId: int, range: Option<Message>, authenticate: bool)
    ensures var m := [Raw(cid), Num(bucketId), OfMessage(range), Flag(authenticate)];
      && (Conforms(DDC, GetFileRequestBody, m) <==>
           Fits(cid) && Uint64Range(bucketId) && MaybeConforms(GetFileRange, range))
      && (Conforms(DDC, GetFileRequestBody, m) ==>
            Encode(DDC, GetFileRequestBody, m)
            == NonEmpty(10, cid) + NonZero(16, bucketId) + SomeBytes(26, Written(GetFileRange, range)) +
               IfTrue(32, authenticate))
  {
    hide SlotBytes, ConformsSlot, Conforms, Encode, OfMessage, NonZero, NonEmpty, IfTrue, SomeBytes, Written;
    hide MaybeConforms;
    FourSlots(GetFileRequestBody, [Raw(cid), Num(bucketId), OfMessage(range), Flag(authenticate)]);
    ImplicitBytes(1, cid);
    ImplicitNumber(2, Uint64, bucketId);
    SubMessage(Optional, 3, GetFileRange, range);
    ImplicitFlag(4, authenticate);
  }

  lemma GetFileRangeBytes(start: int, end: int)
    ensures var m := [Num(start), Num(end)];
      && (Conforms(DDC, GetFileRange, m) <==>
           SafeRange(start) && SafeRange(end))
      && (Conforms(DDC, GetFileRange, m) ==>
            Encode(DDC, GetFileRange, m)
            == NonZero(8, start) + NonZero(16, end))
  {
    hide SlotBytes, ConformsSlot, Conforms, Encode, NonZero;
    TwoSlots(GetFileRange, [Num(start), Num(end)]);
    ImplicitNumber(1, Uint64Number, start);
    ImplicitNumber(2, Uint64Number, end);
  }

  lemma GetFileResponseBytes(proof: Option<Message>, data: Option<Bytes>)
    ensures var m := [OfMessage(proof), OfBytes(data)];
      && (Conforms(DDC, GetFileResponse, m) <==>
           MaybeConforms(GetFileProof, proof) && OptionalFits(data) && (proof == None || data == None))
      && (Conforms(DDC, GetFileResponse, m) ==>
            Encode(DDC, GetFileResponse, m)
            == SomeBytes(10, Written(GetFileProof, proof)) + SomeBytes(18, data))
  {
    hide SlotBytes, ConformsSlot, Conforms, Encode, SomeBytes, Written, MaybeConforms;
    OneofSlots(GetFileResponse, [OfMessage(proof), OfBytes(data)]);
    SubMessage(Oneof, 1, GetFileProof, proof);
    OptionalBytes(Oneof, 2, data);
  }

  lemma GetFileProofBytes(proof: seq<Bytes>)
    ensures var m := [OfEach(proof)];
      && (Conforms(DDC, GetFileProof, m) <==>
           (forall i | 0 <= i < |proof| :: Fits(proof[i])))
      && (Conforms(DDC, GetFileProof, m) ==>
            Encode(DDC, GetFileProof, m)
            == Each(10, proof))
  {
    hide SlotBytes, ConformsSlot, Conforms, Encode, OfEach, Each;
    OneSlots(GetFileProof, [OfEach(proof)]);
    RepeatedBytes(1, proof);
  }

  lemma DagNodeBytes(data: Bytes, links: seq<Message>, tags: seq<Message>)
    ensures var m := [Raw(data), OfMessages(links), OfMessages(tags)];
      && (Conforms(DDC, DagNode, m) <==>
           Fits(data) && (forall i | 0 <= i < |links| :: Conforms(DDC, DagLink, links[i])) &&
           (forall i | 0 <= i < |tags| :: Conforms(DDC, DagTag, tags[i])))
      && (Conforms(DDC, DagNode, m) ==>
            Encode(DDC, DagNode, m)
            == NonEmpty(10, data) + Each(18, WrittenEach(DagLink, links)) + Each(26, WrittenEach(DagTag, tags)))
  {
    hide SlotBytes, ConformsSlot, Conforms, Encode, OfMessages, NonEmpty, Each, WrittenEach;
    ThreeSlots(DagNode, [Raw(data), OfMessages(links), OfMessages(tags)]);
    ImplicitBytes(1, data);
    RepeatedMessages(2, DagLink, links);
    RepeatedMessages(3, DagTag, tags);
  }

  lemma DagLinkBytes(cid: Bytes, name: Bytes, size: int)
    ensures var m := [Raw(cid), Raw(name), Num(size)];
      && (Conforms(DDC, DagLink, m) <==>
           Fits(cid) && Fits(name) && SafeRange(size))
      && (Conforms(DDC, DagLink, m) ==>
            Encode(DDC, DagLink, m)
            == NonEmpty(10, cid) + NonEmpty(18, name) + NonZero(24, size))
  {
    hide SlotBytes, ConformsSlot, Conforms, Encode, NonZero, NonEmpty;
    ThreeSlots(DagLink, [Raw(cid), Raw(name), Num(size)]);
    ImplicitBytes(1, cid);
    ImplicitBytes(2, name);
    ImplicitNumber(3, Uint64Number, size);
  }

  lemma DagTagBytes(key: Bytes, value: Bytes)
    ensures var m := [Raw(key), Raw(value)];
      && (Conforms(DDC, DagTag, m) <==>
           Fits(key) && Fits(value))
      && (Conforms(DDC, DagTag, m) ==>
            Encode(DDC, DagTag, m)
            == NonEmpty(10, key) + NonEmpty(18, value))
  {
    hide SlotBytes, ConformsSlot, Conforms, Encode, NonEmpty;
    TwoSlots(DagTag, [Raw(key), Raw(value)]);
    ImplicitBytes(1, key);
    ImplicitBytes(2, value);
  }

  lemma CnsRecordBytes(signature: Option<Message>, cid: Bytes, name: Bytes, ttl: Option<int>)
    ensures var m := [OfMessage(signature), Raw(cid), Raw(name), OfNumber(ttl)];
      && (Conforms(DDC, CnsRecord, m) <==>
           MaybeConforms(Signature, signature) && Fits(cid) && Fits(name) &&
           (ttl.Some? ==> 0 <= ttl.value < 0x1_0000_0000))
      && (Conforms(DDC, CnsRecord, m) ==>
            Encode(DDC, CnsRecord, m)
            == SomeBytes(10, Written(Signature, signature)) + NonEmpty(18, cid) + NonEmpty(26, name) +
               SomeNumber(32, ttl))
  {
    hide SlotBytes, ConformsSlot, Conforms, Encode, OfMessage, OfNumber, NonEmpty, SomeBytes, SomeNumber, Written;
    hide MaybeConforms;
    FourSlots(CnsRecord, [OfMessage(signature), Raw(cid), Raw(name), OfNumber(ttl)]);
    SubMessage(Optional, 1, Signature, signature);
    ImplicitBytes(2, cid);
    ImplicitBytes(3, name);
    OptionalNumber(4, Uint32, ttl);
  }
}
