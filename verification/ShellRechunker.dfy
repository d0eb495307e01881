/**
 Cutting the output of `cat` into chunks: data events of any size go in, chunks of the configured size come
 out. (app/services/sftp/shell-file-service.ts)
 */
module ShellRechunker {
  import opened Arithmetic
  import opened Basics

  datatype Chunk = Chunk(index: nat, data: seq<byte>, last: bool)

  /** The chunk counter and the bytes not emitted yet. */
  datatype State = State(next: nat, buffer: seq<byte>)

  /** The full chunks cut off the front of a buffer. */
  function Cut(s: State, size: nat): (State, seq<Chunk>)
    requires size > 0
    decreases |s.buffer|
  {
    if |s.buffer| < size then (s, [])
    else
      var (rest, chunks) := Cut(State(s.next + 1, s.buffer[size..]), size);
      (rest, [Chunk(s.next, s.buffer[..size], false)] + chunks)
  }

  function OnData(s: State, data: seq<byte>, size: nat): (State, seq<Chunk>)
    requires size > 0
  {
    Cut(s.(buffer := s.buffer + data), size)
  }

  function OnEnd(s: State): Chunk {
    Chunk(s.next, s.buffer, true)
  }

  /** The state after a sequence of data events, and the chunks they emitted. */
  function Feed(s: State, events: seq<seq<byte>>, size: nat): (State, seq<Chunk>)
    requires size > 0
  {
    if events == [] then (s, [])
    else
      var (before, chunks) := Feed(s, events[..|events| - 1], size);
      var (after, more) := OnData(before, events[|events| - 1], size);
      (after, chunks + more)
  }

  /** Everything emitted for a stream that arrives in these events and ends. */
  function Download(events: seq<seq<byte>>, size: nat): seq<Chunk>
    requires size > 0
  {
    var (s, chunks) := Feed(State(0, []), events, size);
    chunks + [OnEnd(s)]
  }

  class Rechunker {
    const size: nat
    var chunkIndex: nat
    var buffer: seq<byte>
    var emitted: seq<Chunk>

    ghost function Abs(): State
      reads this
    {
      State(chunkIndex, buffer)
    }

    constructor (size: nat)
      requires size > 0
      ensures this.size == size && Abs() == State(0, []) && emitted == []
    {
      this.size := size;
      chunkIndex, buffer, emitted := 0, [], [];
    }

    method EmitChunk(data: seq<byte>, last: bool)
      modifies this`chunkIndex, this`emitted
      ensures emitted == old(emitted) + [Chunk(old(chunkIndex), data, last)] && chunkIndex == old(chunkIndex) + 1
    {
      emitted := emitted + [Chunk(chunkIndex, data, last)];
      chunkIndex := chunkIndex + 1;
    }

    method HandleData(data: seq<byte>)
      requires size > 0
      modifies this
      ensures Abs() == OnData(old(Abs()), data, size).0
      ensures emitted == old(emitted) + OnData(old(Abs()), data, size).1
    {
      ghost var (rest, chunks) := OnData(Abs(), data, size);
      buffer := buffer + data;
      while |buffer| >= size
        invariant Cut(Abs(), size).0 == rest
        invariant emitted + Cut(Abs(), size).1 == old(emitted) + chunks
        decreases |buffer|
      {
        var chunk := buffer[..size];
        ghost var tail := Cut(State(chunkIndex + 1, buffer[size..]), size).1;
        Assoc(emitted, [Chunk(chunkIndex, chunk, false)], tail);
        buffer := buffer[size..];
        EmitChunk(chunk, false);
      }
    }

    method HandleEnd()
      modifies this`chunkIndex, this`emitted
      ensures emitted == old(emitted) + [OnEnd(old(Abs()))]
    {
      if |buffer| > 0 {
        EmitChunk(buffer, true);
      } else {
        EmitChunk([], true);
      }
    }
  }

  // ----- segmentation does not matter -----------------------------------------------------------------

  /** Cutting now and again after more data is cutting once. */
  lemma {:induction false} CutAppend(s: State, data: seq<byte>, size: nat)
    requires size > 0
    ensures var (mid, first) := Cut(s, size);
      var (rest, second) := OnData(mid, data, size);
      Cut(s.(buffer := s.buffer + data), size) == (rest, first + second)
    decreases |s.buffer|
  {
    if |s.buffer| >= size {
      var t := State(s.next + 1, s.buffer[size..]);
      CutAppend(t, data, size);
      assert (s.buffer + data)[size..] == t.buffer + data && (s.buffer + data)[..size] == s.buffer[..size];
      var (mid, first) := Cut(t, size);
      var second := OnData(mid, data, size).1;
      var head := [Chunk(s.next, s.buffer[..size], false)];
      assert head + (first + second) == head + first + second;
    } else {
      assert [] + OnData(s, data, size).1 == OnData(s, data, size).1;
    }
  }

  /** Feeding the events is feeding the whole stream at once. */
  lemma {:induction false} FeedIsOneCut(events: seq<seq<byte>>, size: nat)
    requires size > 0
    ensures Feed(State(0, []), events, size) == Cut(State(0, Concat(events)), size)
  {
    if events != [] {
      var init, last := events[..|events| - 1], events[|events| - 1];
      FeedIsOneCut(init, size);
      CutAppend(State(0, Concat(init)), last, size);
    }
  }

  /** Two streams with the same bytes give the same chunks, however they were split into events. */
  lemma SegmentationIndependence(events: seq<seq<byte>>, others: seq<seq<byte>>, size: nat)
    requires size > 0 && Concat(events) == Concat(others)
    ensures Download(events, size) == Download(others, size)
  {
    FeedIsOneCut(events, size);
    FeedIsOneCut(others, size);
  }

  // ----- what the chunks are --------------------------------------------------------------------------

  function DataOf(chunks: seq<Chunk>): seq<seq<byte>> {
    seq(|chunks|, i requires 0 <= i < |chunks| => chunks[i].data)
  }

  /** Full chunks, numbered from `first` on, none of them the last. */
  ghost predicate FullChunks(chunks: seq<Chunk>, first: nat, size: nat) {
    forall i :: 0 <= i < |chunks| ==>
      chunks[i].index == first + i && |chunks[i].data| == size && !chunks[i].last
  }

  lemma ConsConcat(head: seq<byte>, tail: seq<seq<byte>>)
    ensures Concat([head] + tail) == head + Concat(tail)
  {
    ConcatAppend([head], tail);
    assert [head][..0] == [] && Concat<byte>([]) == [] && Concat([head]) == [] + head;
  }

  lemma {:induction false} CutIsFull(s: State, size: nat)
    requires size > 0
    ensures var (rest, chunks) := Cut(s, size);
      && FullChunks(chunks, s.next, size) && rest.next == s.next + |chunks|
      && |rest.buffer| < size && |s.buffer| == |chunks| * size + |rest.buffer|
    decreases |s.buffer|
  {
    if |s.buffer| >= size {
      CutIsFull(State(s.next + 1, s.buffer[size..]), size);
      var tail := Cut(State(s.next + 1, s.buffer[size..]), size).1;
      assert (|tail| + 1) * size == |tail| * size + size;
    }
  }

  lemma DataCons(chunk: Chunk, tail: seq<Chunk>)
    ensures Concat(DataOf([chunk] + tail)) == chunk.data + Concat(DataOf(tail))
  {
    assert DataOf([chunk] + tail) == [chunk.data] + DataOf(tail);
    ConsConcat(chunk.data, DataOf(tail));
  }

  lemma CutOnce(buffer: seq<byte>, size: nat)
    requires size <= |buffer|
    ensures buffer[..size] + buffer[size..] == buffer
  {
  }

  lemma {:induction false} CutKeepsBytes(s: State, size: nat)
    requires size > 0
    ensures var (rest, chunks) := Cut(s, size); Concat(DataOf(chunks)) + rest.buffer == s.buffer
    decreases |s.buffer|
  {
    if |s.buffer| < size {
      assert DataOf([]) == [] && [] + s.buffer == s.buffer;
    } else {
      var head, t := s.buffer[..size], State(s.next + 1, s.buffer[size..]);
      CutKeepsBytes(t, size);
      var (rest, tail) := Cut(t, size);
      DataCons(Chunk(s.next, head, false), tail);
      Assoc(head, Concat(DataOf(tail)), rest.buffer);
      CutOnce(s.buffer, size);
    }
  }

  /**
   A stream of any length, in any events, comes out as length / size + 1 chunks numbered from 0, every one
   but the last of exactly the chunk size, the last shorter and alone marked, together the stream.
   */
  lemma DownloadIsStream(events: seq<seq<byte>>, size: nat)
    requires size > 0
    ensures var chunks, stream := Download(events, size), Concat(events);
      && |chunks| == |stream| / size + 1
      && (forall i :: 0 <= i < |chunks| ==> chunks[i].index == i && (chunks[i].last <==> i == |chunks| - 1))
      && (forall i :: 0 <= i < |chunks| - 1 ==> |chunks[i].data| == size)
      && |chunks[|chunks| - 1].data| < size
      && Concat(DataOf(chunks)) == stream
  {
    var stream := Concat(events);
    FeedIsOneCut(events, size);
    CutIsFull(State(0, stream), size);
    CutKeepsBytes(State(0, stream), size);
    var (rest, full) := Cut(State(0, stream), size);
    DivUnique(|stream|, |full|, |rest.buffer|, size);
    assert DataOf(full + [OnEnd(rest)]) == DataOf(full) + [rest.buffer];
    ConcatSnoc(DataOf(full), rest.buffer);
  }
}
