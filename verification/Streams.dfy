/** Content streams, as the sequence of chunks a reader of the stream gets. */
module Streams {
  import opened Options
  import opened Wire

  const KB: nat := 1024
  const MB: nat := 1024 * KB
  const CONTENT_CHUNK_SIZE: nat := 4 * MB - 100 * KB

  function Concat(chunks: seq<Bytes>): Bytes {
    if chunks == [] then [] else chunks[0] + Concat(chunks[1..])
  }

  /** The data cut after every `c` bytes, with no empty chunk. */
  function Chunks(c: nat, data: Bytes): (r: seq<Bytes>)
    requires c > 0
    decreases |data|
  {
    if data == [] then [] else if |data| <= c then [data] else [data[..c]] + Chunks(c, data[c..])
  }

  lemma {:induction false} ConcatAppend(a: seq<Bytes>, b: seq<Bytes>)
    ensures Concat(a + b) == Concat(a) + Concat(b)
    decreases |a|
  {
    if a == [] {
      assert a + b == b;
    } else {
      assert (a + b)[1..] == a[1..] + b;
      ConcatAppend(a[1..], b);
    }
  }

  lemma ConcatOne(a: seq<Bytes>, x: Bytes)
    ensures Concat(a + [x]) == Concat(a) + x
  {
    ConcatAppend(a, [x]);
    assert Concat([x]) == x + [];
  }

  lemma ConcatSingle(x: Bytes)
    ensures Concat([x]) == x
  {
    assert Concat([x]) == x + [];
  }

  /** What every consumer relies on: full chunks, then at most one shorter one that is not empty. */
  ghost predicate WellChunked(c: nat, cs: seq<Bytes>) {
    forall i | 0 <= i < |cs| :: 0 < |cs[i]| <= c && (i + 1 < |cs| ==> |cs[i]| == c)
  }

  lemma {:induction false} ChunksShape(c: nat, data: Bytes)
    requires c > 0
    ensures WellChunked(c, Chunks(c, data)) && Concat(Chunks(c, data)) == data
    decreases |data|
  {
    if |data| > c {
      ChunksShape(c, data[c..]);
      var rest := Chunks(c, data[c..]);
      assert forall i | 0 < i <= |rest| :: Chunks(c, data)[i] == rest[i - 1];
    } else if data != [] {
      assert Concat([data]) == data + [];
    }
  }

  /** Being so cut leaves no choice: the chunks are determined by their concatenation. */
  lemma {:induction false} ChunksUnique(c: nat, cs: seq<Bytes>)
    requires c > 0 && WellChunked(c, cs)
    ensures cs == Chunks(c, Concat(cs))
    decreases |cs|
  {
    if |cs| > 0 {
      var rest := cs[1..];
      assert forall i | 0 <= i < |rest| :: rest[i] == cs[i + 1];
      ChunksUnique(c, rest);
      if |rest| > 0 {
        assert Concat(rest) == rest[0] + Concat(rest[1..]);
        assert Concat(cs)[..c] == cs[0] && Concat(cs)[c..] == Concat(rest);
      } else {
        assert Concat(cs) == cs[0] + [] == cs[0];
      }
    }
  }

  /** Cutting again forgets every earlier cut. */
  lemma Rechunk(p: nat, c: nat, data: Bytes)
    requires p > 0 && c > 0
    ensures Chunks(p, Concat(Chunks(c, data))) == Chunks(p, data)
  {
    ChunksShape(c, data);
  }

  lemma StepBack(i: nat, c: nat, start: nat)
    requires start == i * c && i > 0
    ensures start >= c && start - c == (i - 1) * c
  {}

  /** Chunk `i` would start at byte `start == i * c`; there are as many chunks as it takes. */
  lemma {:induction false} ChunkCount(c: nat, data: Bytes, i: nat, start: nat)
    requires c > 0 && start == i * c
    ensures i < |Chunks(c, data)| <==> start < |data|
    decreases i
  {
    if i > 0 {
      StepBack(i, c, start);
      if |data| > c {
        ChunkCount(c, data[c..], i - 1, start - c);
      }
    }
  }

  lemma {:induction false} ChunkAt(c: nat, data: Bytes, i: nat, start: nat)
    requires c > 0 && start == i * c && start < |data|
    ensures i < |Chunks(c, data)|
    ensures Chunks(c, data)[i] == data[start..if start + c <= |data| then start + c else |data|]
    decreases i
  {
    ChunkCount(c, data, i, start);
    if i > 0 {
      StepBack(i, c, start);
      var tail := data[c..];
      ChunkAt(c, tail, i - 1, start - c);
      var hi := if start + c <= |data| then start + c else |data|;
      assert tail[start - c..hi - c] == data[start..hi];
    }
  }

  // ---- withChunkSize ----

  /** The transform `withChunkSize` builds, with what it has enqueued so far. */
  class ChunkSizer {
    const chunkSize: nat
    var buffer: Option<Bytes>
    var enqueued: seq<Bytes>

    ghost function Buffered(): Bytes
      reads this
    {
      if buffer.Some? then buffer.value else []
    }

    ghost predicate Valid()
      reads this
    {
      chunkSize > 0 && |Buffered()| < chunkSize && forall i | 0 <= i < |enqueued| :: |enqueued[i]| == chunkSize
    }

    ghost function Seen(): Bytes
      reads this
    {
      Concat(enqueued) + Buffered()
    }

    constructor (chunkSize: nat)
      requires chunkSize > 0
      ensures Valid() && this.chunkSize == chunkSize && Seen() == []
    {
      this.chunkSize := chunkSize;
      buffer := None;
      enqueued := [];
    }

    method Transform(data: Bytes)
      requires Valid()
      modifies this
      ensures Valid() && Seen() == old(Seen()) + data && old(enqueued) <= enqueued
    {
      var b := if buffer.Some? then buffer.value + data else data;
      while |b| >= chunkSize
        invariant forall i | 0 <= i < |enqueued| :: |enqueued[i]| == chunkSize
        invariant Concat(enqueued) + b == old(Seen()) + data && old(enqueued) <= enqueued
        decreases |b|
      {
        ConcatOne(enqueued, b[..chunkSize]);
        assert b == b[..chunkSize] + b[chunkSize..];
        enqueued := enqueued + [b[..chunkSize]];
        b := b[chunkSize..];
      }
      buffer := Some(b);
    }

    /** After the flush the stream has delivered exactly the data it saw, cut to size. */
    method Flush()
      requires Valid()
      modifies this
      ensures enqueued == Chunks(chunkSize, old(Seen())) && buffer == None
    {
      ghost var seen := Seen();
      if buffer.Some? && |buffer.value| > 0 {
        ConcatOne(enqueued, buffer.value);
        enqueued := enqueued + [buffer.value];
      }
      buffer := None;
      assert Concat(enqueued) == seen;
      ChunksUnique(chunkSize, enqueued);
    }
  }

  /** A stream piped through the transform: only the concatenation of its chunks matters. */
  method PipeThrough(chunkSize: nat, input: seq<Bytes>) returns (output: seq<Bytes>)
    requires chunkSize > 0
    ensures output == Chunks(chunkSize, Concat(input))
  {
    var sizer := new ChunkSizer(chunkSize);
    var i := 0;
    while i < |input|
      invariant i <= |input| && sizer.Valid() && sizer.chunkSize == chunkSize && fresh(sizer)
      invariant sizer.Seen() == Concat(input[..i])
    {
      sizer.Transform(input[i]);
      ConcatOne(input[..i], input[i]);
      assert input[..i] + [input[i]] == input[..i + 1];
      i := i + 1;
    }
    assert input[..i] == input;
    sizer.Flush();
    output := sizer.enqueued;
  }

  // ---- createContentStream ----

  /** A `ContentStream` was made by `createContentStream` before, and is read as it is. */
  datatype Content = Static(data: Bytes) | Iterable(chunks: seq<Bytes>) | ContentStream(chunks: seq<Bytes>)

  function ContentChunks(content: Content): seq<Bytes> {
    match content
    case Static(data) => [data]
    case Iterable(chunks) => chunks
    case ContentStream(chunks) => chunks
  }

  /** The bytes a piece of content stands for. */
  function ContentData(content: Content): Bytes { Concat(ContentChunks(content)) }

  function GetContentSize(content: Content, defaultSize: Option<nat>): Option<nat> {
    if content.Static? then Some(|content.data|) else defaultSize
  }

  /** A chunk size of zero stands for the `null` that asks for no rebuffering. */
  method CreateContentStream(content: Content, chunkSize: nat) returns (stream: seq<Bytes>)
    ensures stream == if chunkSize > 0 then Chunks(chunkSize, ContentData(content)) else ContentChunks(content)
    ensures content.Static? ==> stream == if chunkSize > 0 then Chunks(chunkSize, content.data) else [content.data]
    ensures !content.Static? ==>
      stream == if chunkSize > 0 then Chunks(chunkSize, Concat(content.chunks)) else content.chunks
  {
    if content.Static? {
      ConcatSingle(content.data);
    }
    stream := ContentChunks(content);
    if chunkSize > 0 {
      stream := PipeThrough(chunkSize, stream);
    }
  }
}
