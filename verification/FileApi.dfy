/** The upload and download loops of the file API. */
module FileApi {
  import opened Log2
  import opened Options
  import opened Streams
  import opened Wire

  const MAX_PIECE_SIZE: nat := 128 * MB

  // ---- putMultipartPiece ----

  /** The request that is sent: the caller's, with the part size rounded up. */
  datatype MultipartRequest = MultipartRequest(parts: seq<string>, totalSize: nat, partSize: nat)

  function PutMultipartPiece(request: MultipartRequest): (sent: MultipartRequest)
    ensures sent.parts == request.parts && sent.totalSize == request.totalSize
  {
    request.(partSize := CeilToPowerOf2(request.partSize))
  }

  // ---- putRawPiece ----

  datatype RawPieceCall =
    | Rejected
    | Sent(size: nat, messages: seq<Bytes>)

  /** The chunks that are sent when `before` bytes went out already. */
  function SentChunks(chunks: seq<Bytes>, before: nat): seq<Bytes>
    decreases |chunks|
  {
    if before >= MAX_PIECE_SIZE || chunks == [] then []
    else [chunks[0]] + SentChunks(chunks[1..], before + |chunks[0]|)
  }

  /** The size of the bytes, or else what the caller says. */
  function PieceSize(content: Content, metaSize: Option<nat>): Option<nat> {
    match content
    case Static(data) => Some(|data|)
    case Iterable(_) => metaSize
    case ContentStream(_) => metaSize
  }

  /** Content that is no stream yet is cut to chunks of 4 MB less 100 KB. */
  function PieceChunks(content: Content): seq<Bytes> {
    match content
    case Static(data) => Chunks(4_091_904, data)
    case Iterable(chunks) => Chunks(4_091_904, Concat(chunks))
    case ContentStream(chunks) => chunks
  }

  /** The send loop, on the chunks of the stream. */
  method SendChunks(stream: seq<Bytes>) returns (messages: seq<Bytes>)
    ensures messages == SentChunks(stream, 0)
  {
    var bytesSent: nat := 0;
    messages := [];
    var i := 0;
    assert stream[0..] == stream;
    while bytesSent < MAX_PIECE_SIZE
      invariant i <= |stream|
      invariant messages + SentChunks(stream[i..], bytesSent) == SentChunks(stream, 0)
      decreases |stream| - i
    {
      if i == |stream| {
        break;
      }
      var value := stream[i];
      assert stream[i..][1..] == stream[i + 1..];
      messages := messages + [value];
      bytesSent := bytesSent + |value|;
      i := i + 1;
    }
  }

  /** Pieces of unknown or no size, or of more than 128 MB, are refused. */
  method PutRawPiece(content: Content, metaSize: Option<nat>) returns (call: RawPieceCall)
    ensures var size := PieceSize(content, metaSize);
      call == if size == None || size == Some(0) || size.value > 134_217_728 then Rejected
              else Sent(size.value, SentChunks(PieceChunks(content), 0))
  {
    hide Chunks, Concat, SentChunks;
    var size := GetContentSize(content, metaSize);
    if size.None? || size.value == 0 {
      return Rejected;
    }
    if size.value > MAX_PIECE_SIZE {
      return Rejected;
    }
    var stream := ContentChunks(content);
    if !content.ContentStream? {
      stream := CreateContentStream(content, CONTENT_CHUNK_SIZE);
    }
    var messages := SendChunks(stream);
    return Sent(size.value, messages);
  }

  /** No chunk of the stream is longer than `n`. */
  ghost predicate NoLonger(chunks: seq<Bytes>, n: nat) { forall i | 0 <= i < |chunks| :: |chunks[i]| <= n }

  lemma PrefixGrows(x: Bytes, a: Bytes, b: Bytes)
    requires a <= b
    ensures x + a <= x + b
  {}

  /** What goes out is a prefix of the stream, all of it unless it exceeds the limit, and little beyond it. */
  lemma {:induction false} SentChunksBound(chunks: seq<Bytes>, before: nat, longest: nat)
    requires NoLonger(chunks, longest)
    ensures SentChunks(chunks, before) <= chunks
    ensures Concat(SentChunks(chunks, before)) <= Concat(chunks)
    ensures before + |Concat(chunks)| <= MAX_PIECE_SIZE ==> Concat(SentChunks(chunks, before)) == Concat(chunks)
    ensures longest > 0 && before < MAX_PIECE_SIZE
        ==> before + |Concat(SentChunks(chunks, before))| < MAX_PIECE_SIZE + longest
    ensures before + |Concat(chunks)| >= MAX_PIECE_SIZE
        ==> before + |Concat(SentChunks(chunks, before))| >= MAX_PIECE_SIZE
    decreases |chunks|
  {
    if chunks != [] && before < MAX_PIECE_SIZE {
      var rest := chunks[1..];
      assert forall i | 0 <= i < |rest| :: rest[i] == chunks[i + 1];
      SentChunksBound(rest, before + |chunks[0]|, longest);
      PrefixGrows(chunks[0], Concat(SentChunks(rest, before + |chunks[0]|)), Concat(rest));
    }
  }

  /** Content the call wraps itself goes out in messages of at most the recommended size. */
  lemma WrappedMessages(data: Bytes)
    ensures var sent := SentChunks(Chunks(CONTENT_CHUNK_SIZE, data), 0);
      && WellChunked(CONTENT_CHUNK_SIZE, sent)
      && Concat(sent) <= data && |Concat(sent)| < MAX_PIECE_SIZE + CONTENT_CHUNK_SIZE
      && (|data| <= MAX_PIECE_SIZE ==> Concat(sent) == data)
  {
    ChunksShape(CONTENT_CHUNK_SIZE, data);
    SentChunksBound(Chunks(CONTENT_CHUNK_SIZE, data), 0, CONTENT_CHUNK_SIZE);
  }
}
