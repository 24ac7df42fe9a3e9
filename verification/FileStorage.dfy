/** Storing a file: small files as one piece, large ones as parts tied together by a multipart piece. */
module FileStorage {
  import opened FileApi
  import opened Log2
  import opened Options
  import opened Streams
  import opened Wire

  const MIN_PIECE_SIZE: nat := 4 * MB

  /** A piece handed to the node; a part knows its offset in the file. */
  datatype Piece = Piece(content: Bytes, offset: Option<nat>)

  function PartPieces(partSize: nat, data: Bytes): seq<Piece>
    requires partSize > 0
  {
    var parts := Chunks(partSize, data);
    seq(|parts|, i requires 0 <= i < |parts| => Piece(parts[i], Some(i * partSize)))
  }

  /** `cidOf` is the node's answer to storing a piece. */
  function Cids(pieces: seq<Piece>, cidOf: Piece -> string): seq<string> {
    seq(|pieces|, i requires 0 <= i < |pieces| => cidOf(pieces[i]))
  }

  /** The CIDs are the answers to the pieces, one for each and in their order. */
  ghost predicate InOrder(cids: seq<string>, pieces: seq<Piece>, cidOf: Piece -> string) {
    |cids| == |pieces| && forall i | 0 <= i < |cids| :: cids[i] == cidOf(pieces[i])
  }

  /** The piece has the bytes of the file from `i * partSize` on, and says so. */
  ghost predicate HoldsPart(piece: Piece, data: Bytes, i: nat, partSize: nat) {
    && piece.offset == Some(i * partSize) && i * partSize + |piece.content| <= |data|
    && piece.content == data[i * partSize..i * partSize + |piece.content|]
    && (|piece.content| == partSize || i * partSize + |piece.content| == |data|)
  }

  method StoreLarge(body: seq<Bytes>, size: nat, partSize: nat, cidOf: Piece -> string)
    returns (pieces: seq<Piece>, root: MultipartRequest)
    requires partSize > 0
    ensures pieces == PartPieces(partSize, Concat(body))
    ensures root == MultipartRequest(Cids(pieces, cidOf), size, partSize)
    ensures InOrder(root.parts, pieces, cidOf)
    // Part i of the root is the answer to the piece with the bytes from i * partSize on.
    ensures forall i | 0 <= i < |pieces| :: HoldsPart(pieces[i], Concat(body), i, partSize)
  {
    var parts := [];
    var partsStream := PipeThrough(partSize, body);
    ghost var all := PartPieces(partSize, Concat(body));
    pieces := [];
    var offset: nat := 0;
    var i := 0;
    PartOffsets(partSize, Concat(body), 0);
    hide PartPieces, Chunks;
    while i < |partsStream|
      invariant i <= |partsStream| && offset == if i < |partsStream| then i * partSize else |Concat(body)|
      invariant pieces == all[..i] && parts == Cids(pieces, cidOf)
    {
      var part := partsStream[i];
      var piece := Piece(part, Some(offset));
      PartOffsets(partSize, Concat(body), i);
      offset := offset + |part|;
      pieces := pieces + [piece];
      parts := parts + [cidOf(piece)];
      i := i + 1;
    }
    assert |partsStream| == |all|;
    assert all[..i] == all;
    AllHoldParts(partSize, Concat(body));
    root := MultipartRequest(parts, size, partSize);
  }

  lemma AllHoldParts(partSize: nat, data: Bytes)
    requires partSize > 0
    ensures var pieces := PartPieces(partSize, data);
      forall i | 0 <= i < |pieces| :: HoldsPart(pieces[i], data, i, partSize)
  {
    hide Chunks;
    var pieces := PartPieces(partSize, data);
    forall i | 0 <= i < |pieces| ensures HoldsPart(pieces[i], data, i, partSize) {
      ChunkCount(partSize, data, i, i * partSize);
      ChunkAt(partSize, data, i, i * partSize);
    }
  }

  /** Where part `i` stands, and where the offset is after it. */
  lemma PartOffsets(partSize: nat, data: Bytes, i: nat)
    requires partSize > 0
    ensures var parts := Chunks(partSize, data);
      var pieces := PartPieces(partSize, data);
      && |parts| == |pieces| && (parts == [] <==> data == [])
      && (i < |parts| ==> pieces[i] == Piece(parts[i], Some(i * partSize)))
      && (i < |parts| ==> i * partSize + |parts[i]| == if i + 1 < |parts| then (i + 1) * partSize else |data|)
  {
    ChunkCount(partSize, data, i, i * partSize);
    ChunkCount(partSize, data, i + 1, (i + 1) * partSize);
    ChunkCount(partSize, data, 0, 0);
    if i < |Chunks(partSize, data)| {
      ChunkAt(partSize, data, i, i * partSize);
      assert (i + 1) * partSize == i * partSize + partSize;
    }
  }

  method StoreSmall(body: seq<Bytes>) returns (piece: Piece)
    ensures piece == Piece(Concat(body), None)
  {
    piece := Piece(Concat(body), None);
  }

  datatype StoreCall =
    | BufferSizeRefused
    | Small(piece: Piece)
    | Large(pieces: seq<Piece>, root: MultipartRequest)

  method Store(body: seq<Bytes>, size: nat, maxBufferSize: Option<nat>, defaultBufferSize: nat, cidOf: Piece -> string)
    returns (call: StoreCall)
    ensures var partSize :=
        if maxBufferSize == None || maxBufferSize == Some(0) then defaultBufferSize else maxBufferSize.value;
      && (call.BufferSizeRefused? <==> !(4_194_304 <= partSize <= 134_217_728))
      && (call.Large? ==> size > partSize && call.pieces == PartPieces(partSize, Concat(body))
                          && call.root == MultipartRequest(Cids(call.pieces, cidOf), size, partSize))
      && (call.Large? ==> InOrder(call.root.parts, call.pieces, cidOf))
      && (call.Large? ==> forall i | 0 <= i < |call.pieces| :: HoldsPart(call.pieces[i], Concat(body), i, partSize))
      && (call.Small? ==> size <= partSize && call.piece == Piece(Concat(body), None))
  {
    var partSize :=
      if maxBufferSize == None || maxBufferSize == Some(0) then defaultBufferSize else maxBufferSize.value;
    if partSize > MAX_PIECE_SIZE || partSize < MIN_PIECE_SIZE {
      return BufferSizeRefused;
    }
    if size > partSize {
      var pieces, root := StoreLarge(body, size, partSize, cidOf);
      return Large(pieces, root);
    } else {
      var piece := StoreSmall(body);
      return Small(piece);
    }
  }

  /** There are as many parts as the file takes, each holds the bytes from its offset on, and none is lost. */
  lemma PartsLayout(partSize: nat, data: Bytes)
    requires partSize > 0 && data != []
    ensures var parts := PartPieces(partSize, data);
      && (|parts| - 1) * partSize < |data| <= |parts| * partSize
      && (forall i | 0 <= i < |parts| ::
            && parts[i].offset == Some(i * partSize) && i * partSize + |parts[i].content| <= |data|
            && parts[i].content == data[i * partSize..i * partSize + |parts[i].content|]
            && 0 < |parts[i].content| <= partSize && (i + 1 < |parts| ==> |parts[i].content| == partSize))
      && Concat(Chunks(partSize, data)) == data
  {
    hide Chunks, Concat;
    var parts := PartPieces(partSize, data);
    ChunksShape(partSize, data);
    ChunkCount(partSize, data, |parts|, |parts| * partSize);
    ChunkCount(partSize, data, 0, 0);
    ChunkCount(partSize, data, |parts| - 1, (|parts| - 1) * partSize);
    forall i | 0 <= i < |parts| ensures i * partSize < |data|
      && parts[i].content
         == data[i * partSize..if i * partSize + partSize <= |data| then i * partSize + partSize else |data|]
    {
      ChunkCount(partSize, data, i, i * partSize);
      ChunkAt(partSize, data, i, i * partSize);
    }
  }

  /** Byte `j` of the file stands where a reader that knows only the announced part size looks for it. */
  ghost predicate Located(parts: seq<Piece>, data: Bytes, announced: nat, j: nat)
    requires announced > 0 && j < |data|
  {
    j / announced < |parts|
    && j % announced < |parts[j / announced].content|
    && parts[j / announced].offset == Some(j - j % announced)
    && parts[j / announced].content[j % announced] == data[j]
  }

  /**
   The part size is announced rounded to a power of two. Every byte of a file of more than one part can be located by
   it exactly when the part size the file was cut by is a power of two.
   */
  lemma LocatedIffPowerOf2(root: MultipartRequest, data: Bytes)
    requires 0 < root.partSize < |data| && root.partSize <= MAX_SAFE
    ensures var announced := PutMultipartPiece(root).partSize;
      && announced > 0
      && ((forall j | 0 <= j < |data| :: Located(PartPieces(root.partSize, data), data, announced, j))
          <==> IsPowerOf2(root.partSize))
  {
    var partSize := root.partSize;
    var announced := PutMultipartPiece(root).partSize;
    var parts := PartPieces(partSize, data);
    hide CeilToPowerOf2, PartPieces, Located, Chunks, IsPowerOf2;
    CeilToPowerOf2Iff(partSize, 0);
    FirstParts(partSize, data);
    if announced == partSize {
      forall j | 0 <= j < |data| ensures Located(parts, data, announced, j) {
        InPart(partSize, data, j);
      }
    } else {
      Misplaced(parts, data, announced, partSize);
    }
  }

  /** A part size of five megabytes is accepted, and some byte of every file it splits is not where it is looked for. */
  lemma FiveMegabytesMisplaced(root: MultipartRequest, data: Bytes)
    requires root.partSize == 5 * MB < |data|
    ensures MIN_PIECE_SIZE <= root.partSize <= MAX_PIECE_SIZE
    ensures var announced := PutMultipartPiece(root).partSize;
      announced > 0 && exists j :: 0 <= j < |data| && !Located(PartPieces(root.partSize, data), data, announced, j)
  {
    BetweenPowers();
    hide Pow2, PartPieces, Located, IsPowerOf2, PutMultipartPiece;
    LocatedIffPowerOf2(root, data);
  }

  lemma BetweenPowers()
    ensures !IsPowerOf2(5 * MB)
  {
    assert Pow2(11) == 2048;
    Pow2Add(11, 11);
    Next(22);
    Between(5 * MB, 22);
  }

  lemma FirstParts(partSize: nat, data: Bytes)
    requires partSize > 0 && data != []
    ensures var parts := PartPieces(partSize, data);
      |parts| > 0 && |parts[0].content| <= partSize && (|parts| > 1 ==> parts[1].offset == Some(partSize))
  {
    hide Chunks, Concat;
    PartsLayout(partSize, data);
  }

  /**
   Rounded up for real, the announced size looks for the first byte of the second part in the first; rounded down, it
   looks for a second part too early.
   */
  lemma Misplaced(parts: seq<Piece>, data: Bytes, announced: nat, partSize: nat)
    requires 0 < announced != partSize < |data| && |parts| > 0 && |parts[0].content| <= partSize
    requires |parts| > 1 ==> parts[1].offset == Some(partSize)
    ensures !Located(parts, data, announced, if announced > partSize then partSize else announced)
  {
    if announced > partSize {
      assert partSize / announced == 0 && partSize % announced == partSize;
    } else {
      assert announced / announced == 1 && announced % announced == 0;
    }
  }

  lemma InPart(partSize: nat, data: Bytes, j: nat)
    requires partSize > 0 && j < |data|
    ensures Located(PartPieces(partSize, data), data, partSize, j)
  {
    var parts := PartPieces(partSize, data);
    var i := j / partSize;
    assert j == i * partSize + j % partSize;
    ChunkCount(partSize, data, i, i * partSize);
    ChunkAt(partSize, data, i, i * partSize);
  }

  /** Every part passes the size check of `putRawPiece` and is sent whole, in messages of the recommended size. */
  lemma PartsSentWhole(partSize: nat, data: Bytes, i: nat)
    requires 0 < partSize <= MAX_PIECE_SIZE && i < |PartPieces(partSize, data)|
    ensures var part := PartPieces(partSize, data)[i].content;
      var sent := SentChunks(Chunks(CONTENT_CHUNK_SIZE, part), 0);
      0 < |part| <= MAX_PIECE_SIZE && Concat(sent) == part && WellChunked(CONTENT_CHUNK_SIZE, sent)
  {
    ChunksShape(partSize, data);
    WrappedMessages(PartPieces(partSize, data)[i].content);
  }
}
