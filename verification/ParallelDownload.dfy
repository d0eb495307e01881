/**
 The parallel SFTP download: up to 32 reads in flight that complete in any order, a reorder
 buffer, and one emitter that suspends at every `await` of the chunk callback.
 (app/services/sftp/sftp-service.ts, streamDownloadChunks)

 `Step` is the transition of the closures' shared variables for one external event; a run is a
 sequence of enabled events. The class at the end is the same engine in imperative form, each
 method proved to perform exactly one `Step`.
 */
module ParallelDownload {
  import opened Basics

  const CONCURRENCY: nat := 32

  datatype Params = Params(fileSize: nat, chunkSize: nat)

  /** What `callbacks.onChunk` is handed. */
  datatype Chunk = Chunk(index: nat, data: seq<byte>, isLast: bool)

  datatype Event =
    | Opened                              // sftp.open called back with a handle
    | OpenFailed                          // sftp.open called back with an error
    | ReadDone(index: nat, data: seq<byte>)
    | ReadFailed(index: nat)
    | ChunkAccepted                       // the awaited onChunk promise resolved
    | ChunkRefused                        // the awaited onChunk promise rejected
    | Cancel                              // cancelDownload was called

  /** What the outside world has seen of the download. */
  datatype World = World(
    inFlight: set<nat>,                   // reads not yet called back
    requested: seq<nat>,                  // every sftp.read ever issued, in order
    chunks: seq<Chunk>,                   // every onChunk call, in order
    completions: nat,                     // number of onComplete calls
    errors: nat,                          // number of onError calls
    delivered: map<nat, seq<byte>>,       // what each accepted read returned
    lost: set<nat>,                       // reads that failed or whose result was discarded
    refusals: nat,                        // number of rejected onChunk promises
    resolved: nat                         // number of resolve calls
  )

  datatype State = State(
    // the closure's variables
    opening: bool,
    handle: bool,
    nextRead: nat,
    nextEmit: nat,
    buffer: map<nat, seq<byte>>,
    isEmitting: bool,
    hasError: bool,
    cancelled: bool,                      // downloadState.cancelled
    // the service's maps, at this transfer's key
    entry: Option<bool>,                  // downloadStreams: the stored object's cancelled flag
    tracked: bool,                        // transferManager still knows the transfer
    world: World
  )

  ghost predicate ValidParams(p: Params) {
    p.chunkSize > 0
  }

  function TotalChunks(p: Params): nat
    requires ValidParams(p)
  {
    (p.fileSize + p.chunkSize - 1) / p.chunkSize
  }

  const INIT: State := State(true, false, 0, 0, map[], false, false, false, Some(false), true,
                             World({}, [], [], 0, 0, map[], {}, 0, 0))

  // ----- one event ------------------------------------------------------------------------------

  /** `emitBufferedChunks` up to its first `await`, or to its end when nothing can be emitted. */
  function StartEmitting(p: Params, s: State): State
    requires ValidParams(p)
  {
    if s.isEmitting || s.nextEmit !in s.buffer then s
    else s.(buffer := s.buffer - {s.nextEmit},
            isEmitting := true,
            world := s.world.(chunks := s.world.chunks +
              [Chunk(s.nextEmit, s.buffer[s.nextEmit], s.nextEmit == TotalChunks(p) - 1)]))
  }

  function ReadChunk(s: State, index: nat): State {
    if s.hasError || s.cancelled || !s.handle then s
    else s.(world := s.world.(inFlight := s.world.inFlight + {index}, requested := s.world.requested + [index]))
  }

  /** `readChunk(nextChunkToRead++)` */
  function IssueNext(s: State): State {
    ReadChunk(s.(nextRead := s.nextRead + 1), s.nextRead)
  }

  /** The loop that issues the first reads. */
  function IssueReads(s: State, count: nat): State {
    if count == 0 then s else IssueNext(IssueReads(s, count - 1))
  }

  function Cleanup(s: State): State {
    s.(entry := None, handle := false)
  }

  function OnOpened(p: Params, s: State): State
    requires ValidParams(p)
  {
    var t := s.(opening := false, handle := true,
                cancelled := if s.entry.Some? then s.entry.value else s.cancelled);
    if t.cancelled then Cleanup(t).(world := t.world.(resolved := t.world.resolved + 1))
    else IssueReads(t, Min(CONCURRENCY, TotalChunks(p)))
  }

  function OnOpenFailed(s: State): State {
    s.(opening := false, tracked := false,
       world := s.world.(errors := s.world.errors + 1, resolved := s.world.resolved + 1))
  }

  /** A read result that is dropped. */
  function Discarded(s: State, index: nat): State {
    s.(world := s.world.(inFlight := s.world.inFlight - {index}, lost := s.world.lost + {index}))
  }

  /** A read result entering the reorder buffer. */
  function Stored(s: State, index: nat, data: seq<byte>): State {
    s.(buffer := s.buffer[index := data],
       world := s.world.(inFlight := s.world.inFlight - {index}, delivered := s.world.delivered[index := data]))
  }

  function ReadNext(p: Params, s: State): State
    requires ValidParams(p)
  {
    if s.nextRead < TotalChunks(p) then IssueNext(s) else s
  }

  function OnReadDone(p: Params, s: State, index: nat, data: seq<byte>): State
    requires ValidParams(p)
  {
    if s.hasError || s.cancelled then Discarded(s, index)
    else ReadNext(p, StartEmitting(p, Stored(s, index, data)))
  }

  function OnReadFailed(s: State, index: nat): State {
    var t := Discarded(s, index);
    if s.hasError || s.cancelled then t
    else Cleanup(t).(hasError := true, tracked := false,
                     world := t.world.(errors := t.world.errors + 1, resolved := t.world.resolved + 1))
  }

  /**
   The emitter after its `await`, up to the next chunk: the local `isLast` was computed from the same
   `nextEmit`, so the last chunk completes the transfer, reporting it if the manager still knows it.
   */
  function AfterAwait(p: Params, s: State): State
    requires ValidParams(p)
  {
    var t := s.(nextEmit := s.nextEmit + 1, isEmitting := false);
    if s.nextEmit != TotalChunks(p) - 1 then t
    else Cleanup(t).(tracked := false,
                     world := t.world.(completions := t.world.completions + (if s.tracked then 1 else 0),
                                       resolved := t.world.resolved + 1))
  }

  function OnChunkAccepted(p: Params, s: State): State
    requires ValidParams(p)
  {
    StartEmitting(p, AfterAwait(p, s))
  }

  function OnChunkRefused(p: Params, s: State): State
    requires ValidParams(p)
  {
    StartEmitting(p, s.(isEmitting := false, world := s.world.(refusals := s.world.refusals + 1)))
  }

  predicate Enabled(s: State, e: Event) {
    match e
    case Opened => s.opening
    case OpenFailed => s.opening
    case ReadDone(i, _) => i in s.world.inFlight
    case ReadFailed(i) => i in s.world.inFlight
    case ChunkAccepted => s.isEmitting
    case ChunkRefused => s.isEmitting
    case Cancel => true
  }

  function Step(p: Params, s: State, e: Event): State
    requires ValidParams(p)
  {
    match e
    case Opened => OnOpened(p, s)
    case OpenFailed => OnOpenFailed(s)
    case ReadDone(i, data) => OnReadDone(p, s, i, data)
    case ReadFailed(i) => OnReadFailed(s, i)
    case ChunkAccepted => OnChunkAccepted(p, s)
    case ChunkRefused => OnChunkRefused(p, s)
    case Cancel => s.(entry := None, tracked := false)
  }

  // ----- runs -----------------------------------------------------------------------------------

  function Run(p: Params, events: seq<Event>): State
    requires ValidParams(p)
  {
    if events == [] then INIT else Step(p, Run(p, events[..|events| - 1]), events[|events| - 1])
  }

  ghost predicate IsRun(p: Params, events: seq<Event>)
    requires ValidParams(p)
  {
    events == [] ||
    (IsRun(p, events[..|events| - 1]) && Enabled(Run(p, events[..|events| - 1]), events[|events| - 1]))
  }

  // ----- the invariant --------------------------------------------------------------------------

  /** Every requested index is in exactly one place: in flight, buffered, handed out, or lost. */
  ghost predicate Accounted(s: State) {
    var w := s.world;
    && (forall i :: i in w.inFlight ==>
          i < s.nextRead && i >= |w.chunks| && i !in s.buffer && i !in w.lost && i !in w.delivered)
    && (forall i :: i in s.buffer ==>
          i < s.nextRead && i >= |w.chunks| && i !in w.lost && i in w.delivered && w.delivered[i] == s.buffer[i])
    && (forall i :: i in w.lost ==> i < s.nextRead && i >= |w.chunks| && i !in w.delivered)
    && (forall i :: i in w.delivered ==> i < s.nextRead)
    && (forall i: nat :: i < s.nextRead ==> i in w.inFlight || i in s.buffer || i in w.lost || i < |w.chunks|)
  }

  ghost predicate ChunksInOrder(p: Params, s: State)
    requires ValidParams(p)
  {
    forall i :: 0 <= i < |s.world.chunks| ==>
      s.world.chunks[i].index == i && s.world.chunks[i].isLast == (i == TotalChunks(p) - 1)
      && i in s.world.delivered && s.world.chunks[i].data == s.world.delivered[i]
  }

  ghost predicate Window(p: Params, s: State)
    requires ValidParams(p)
  {
    && |s.world.inFlight| <= CONCURRENCY
    && (s.handle && !s.hasError && s.nextRead < TotalChunks(p) ==> |s.world.inFlight| == CONCURRENCY)
    && |s.world.requested| == s.nextRead && (forall i :: 0 <= i < s.nextRead ==> s.world.requested[i] == i)
  }

  ghost predicate Finished(p: Params, s: State)
    requires ValidParams(p)
  {
    0 < TotalChunks(p) == s.nextEmit
  }

  /** The bookkeeping that holds even between two statements of a handler. */
  ghost predicate Books(p: Params, s: State)
    requires ValidParams(p)
  {
    && s.nextRead <= TotalChunks(p) && s.nextEmit <= |s.world.chunks| <= s.nextRead
    && |s.world.chunks| == s.nextEmit + (if s.isEmitting || s.world.refusals > 0 then 1 else 0)
    && s.world.refusals <= 1 && (s.world.refusals > 0 ==> !s.isEmitting)
    && Accounted(s) && ChunksInOrder(p, s)
  }

  /** How opening, failing, finishing and the callbacks relate. */
  ghost predicate Lifecycle(p: Params, s: State)
    requires ValidParams(p)
  {
    && !s.cancelled && (s.entry.Some? ==> !s.entry.value)
    && (s.hasError <==> s.world.lost != {})
    && (s.opening ==> s == INIT.(entry := s.entry, tracked := s.tracked))
    && (!s.opening && !s.handle && !s.hasError && !Finished(p, s) ==> s.nextRead == 0 && s.world.errors == 1)
    && (s.handle ==> !s.opening && !s.hasError && !Finished(p, s))
    && s.world.resolved == s.world.errors + (if Finished(p, s) then 1 else 0) <= 1
    && s.world.errors + s.world.completions <= 1 && (s.hasError ==> s.world.errors == 1)
    && (s.world.errors > 0 ==> s.hasError || (!s.handle && s.nextRead == 0))
    && (s.world.completions > 0 ==> Finished(p, s))
    && (s.tracked ==> s.world.completions == 0 && s.world.errors == 0 && !Finished(p, s))
  }

  /** No wakeup is lost: an idle emitter has nothing to emit. */
  ghost predicate NoLostWakeup(s: State) {
    !s.isEmitting ==> s.nextEmit !in s.buffer
  }

  ghost predicate Inv(p: Params, s: State)
    requires ValidParams(p)
  {
    Books(p, s) && Lifecycle(p, s) && NoLostWakeup(s) && Window(p, s)
  }

  // ----- every step keeps the invariant ----------------------------------------------------------

  /** `count` reads issued at once. */
  ghost function Issued(s: State, count: nat): State {
    s.(nextRead := count, world := s.world.(inFlight := Below(count), requested := Indices(count)))
  }

  lemma IssueNone(s: State)
    requires s.nextRead == 0 && s.world.inFlight == {} && s.world.requested == []
    ensures Issued(s, 0) == s
  {
    assert Issued(s, 0).world == s.world;
  }

  lemma IssueOneMore(s: State, count: nat)
    requires s.handle && !s.hasError && !s.cancelled && IssueReads(s, count) == Issued(s, count)
    ensures IssueReads(s, count + 1) == Issued(s, count + 1)
  {
    assert IssueReads(s, count + 1) == IssueNext(Issued(s, count));
    assert Below(count + 1) == Below(count) + {count} && Indices(count + 1) == Indices(count) + [count];
  }

  lemma {:induction false} IssueReadsEffect(s: State, count: nat)
    requires s.handle && !s.hasError && !s.cancelled
    requires s.nextRead == 0 && s.world.inFlight == {} && s.world.requested == []
    ensures IssueReads(s, count) == Issued(s, count)
  {
    if count == 0 {
      IssueNone(s);
    } else {
      IssueReadsEffect(s, count - 1);
      IssueOneMore(s, count - 1);
    }
  }

  lemma OpenedEffect(p: Params, s: State)
    requires ValidParams(p) && Lifecycle(p, s) && s.opening
    ensures var n := Min(CONCURRENCY, TotalChunks(p));
      OnOpened(p, s) == s.(opening := false, handle := true,
                           nextRead := n,
                           world := s.world.(inFlight := Below(n), requested := Indices(n)))
  {
    IssueReadsEffect(s.(opening := false, handle := true), Min(CONCURRENCY, TotalChunks(p)));
  }

  lemma OpenedKeepsInv(p: Params, s: State)
    requires ValidParams(p) && Inv(p, s) && s.opening
    ensures Inv(p, OnOpened(p, s))
  {
    OpenedEffect(p, s);
  }

  lemma StoredKeepsBooks(p: Params, s: State, index: nat, data: seq<byte>)
    requires ValidParams(p) && Books(p, s) && index in s.world.inFlight
    ensures Books(p, Stored(s, index, data))
  {
  }

  lemma StartEmittingFrame(p: Params, s: State)
    requires ValidParams(p)
    ensures var t := StartEmitting(p, s);
      t == s.(buffer := t.buffer, isEmitting := t.isEmitting, world := s.world.(chunks := t.world.chunks))
  {
  }

  lemma StartEmittingKeepsBooks(p: Params, s: State)
    requires ValidParams(p) && Books(p, s)
    ensures Books(p, StartEmitting(p, s)) && NoLostWakeup(StartEmitting(p, s))
  {
    if !s.isEmitting && s.nextEmit in s.buffer {
      var t := StartEmitting(p, s);
      assert |s.world.chunks| == s.nextEmit;
      assert Accounted(t);
      assert ChunksInOrder(p, t);
    }
  }

  lemma ReadNextKeepsBooks(p: Params, s: State)
    requires ValidParams(p) && Books(p, s)
    requires s.handle && !s.hasError && !s.cancelled
    ensures Books(p, ReadNext(p, s))
  {
  }

  lemma ReadDoneKeepsBooks(p: Params, s: State, index: nat, data: seq<byte>)
    requires ValidParams(p) && Inv(p, s) && index in s.world.inFlight && !s.hasError
    ensures Books(p, OnReadDone(p, s, index, data)) && NoLostWakeup(OnReadDone(p, s, index, data))
  {
    var t := Stored(s, index, data);
    StoredKeepsBooks(p, s, index, data);
    StartEmittingKeepsBooks(p, t);
    StartEmittingFrame(p, t);
    ReadNextKeepsBooks(p, StartEmitting(p, t));
  }

  lemma ReadDoneKeepsWindow(p: Params, s: State, index: nat, data: seq<byte>)
    requires ValidParams(p) && Inv(p, s) && index in s.world.inFlight && !s.hasError
    ensures Window(p, OnReadDone(p, s, index, data)) && Lifecycle(p, OnReadDone(p, s, index, data))
  {
    StartEmittingFrame(p, Stored(s, index, data));
    assert |s.world.inFlight - {index}| == |s.world.inFlight| - 1;
  }

  lemma ReadDoneKeepsInv(p: Params, s: State, index: nat, data: seq<byte>)
    requires ValidParams(p) && Inv(p, s) && index in s.world.inFlight
    ensures Inv(p, OnReadDone(p, s, index, data))
  {
    if s.hasError {
      DiscardKeepsBooks(p, s, index);
    } else {
      ReadDoneKeepsBooks(p, s, index, data);
      ReadDoneKeepsWindow(p, s, index, data);
    }
  }

  lemma DiscardKeepsBooks(p: Params, s: State, index: nat)
    requires ValidParams(p) && Books(p, s) && index in s.world.inFlight
    ensures Books(p, Discarded(s, index))
  {
  }

  lemma ReadFailedKeepsInv(p: Params, s: State, index: nat)
    requires ValidParams(p) && Inv(p, s) && index in s.world.inFlight
    ensures Inv(p, OnReadFailed(s, index))
  {
    var t := OnReadFailed(s, index);
    assert index in t.world.lost;
    assert |t.world.inFlight| == |s.world.inFlight| - 1;
  }

  /** When the last chunk is out, nothing is lost and nothing is buffered. */
  lemma LastIsOut(p: Params, s: State)
    requires ValidParams(p) && Books(p, s) && |s.world.chunks| == TotalChunks(p)
    ensures s.world.lost == {} && s.buffer == map[] && s.world.inFlight == {}
  {
    if i :| i in s.world.lost { assert false; }
    if i :| i in s.buffer { assert false; }
    if i :| i in s.world.inFlight { assert false; }
  }

  lemma AwaitKeepsBooks(p: Params, s: State)
    requires ValidParams(p) && Inv(p, s) && s.isEmitting
    ensures Books(p, AfterAwait(p, s)) && Window(p, AfterAwait(p, s))
  {
  }

  lemma AwaitKeepsLifecycle(p: Params, s: State)
    requires ValidParams(p) && Inv(p, s) && s.isEmitting
    ensures Lifecycle(p, AfterAwait(p, s))
  {
    if s.nextEmit == TotalChunks(p) - 1 {
      LastIsOut(p, s);
    }
  }

  lemma ChunkAcceptedKeepsInv(p: Params, s: State)
    requires ValidParams(p) && Inv(p, s) && s.isEmitting
    ensures Inv(p, OnChunkAccepted(p, s))
  {
    AwaitKeepsBooks(p, s);
    AwaitKeepsLifecycle(p, s);
    StartEmittingKeepsBooks(p, AfterAwait(p, s));
    StartEmittingFrame(p, AfterAwait(p, s));
  }

  lemma ChunkRefusedKeepsInv(p: Params, s: State)
    requires ValidParams(p) && Inv(p, s) && s.isEmitting
    ensures Inv(p, OnChunkRefused(p, s))
  {
    assert s.nextEmit !in s.buffer;
  }

  lemma StepKeepsInv(p: Params, s: State, e: Event)
    requires ValidParams(p) && Inv(p, s) && Enabled(s, e)
    ensures Inv(p, Step(p, s, e))
  {
    match e
    case Opened => OpenedKeepsInv(p, s);
    case OpenFailed =>
    case ReadDone(i, data) => ReadDoneKeepsInv(p, s, i, data);
    case ReadFailed(i) => ReadFailedKeepsInv(p, s, i);
    case ChunkAccepted => ChunkAcceptedKeepsInv(p, s);
    case ChunkRefused => ChunkRefusedKeepsInv(p, s);
    case Cancel =>
  }

  lemma {:induction false} RunKeepsInv(p: Params, events: seq<Event>)
    requires ValidParams(p) && IsRun(p, events)
    ensures Inv(p, Run(p, events))
  {
    if events != [] {
      var n := |events| - 1;
      RunKeepsInv(p, events[..n]);
      StepKeepsInv(p, Run(p, events[..n]), events[n]);
    }
  }

  // ----- safety over every run -------------------------------------------------------------------

  /** Chunks come out as 0, 1, .. in order and once each, whatever order the reads complete in. */
  lemma EmitsInOrder(p: Params, events: seq<Event>)
    requires ValidParams(p) && IsRun(p, events)
    ensures var s := Run(p, events);
      && |s.world.chunks| <= TotalChunks(p)
      && (forall i :: 0 <= i < |s.world.chunks| ==>
            && s.world.chunks[i].index == i
            && (s.world.chunks[i].isLast <==> i == TotalChunks(p) - 1)
            && i in s.world.delivered && s.world.chunks[i].data == s.world.delivered[i])
      && (s.world.completions > 0 ==> |s.world.chunks| == TotalChunks(p))
  {
    RunKeepsInv(p, events);
  }

  /** Each index is requested once, in order, with at most 32 outstanding and no lost wakeup. */
  lemma ReadsOnceWithinWindow(p: Params, events: seq<Event>)
    requires ValidParams(p) && IsRun(p, events)
    ensures var s := Run(p, events);
      && s.world.requested == Indices(|s.world.requested|) && |s.world.requested| <= TotalChunks(p)
      && |s.world.inFlight| <= 32 && (s.handle && |s.world.requested| < TotalChunks(p) ==> |s.world.inFlight| == 32)
      && (!s.isEmitting ==> s.nextEmit !in s.buffer)
  {
    RunKeepsInv(p, events);
    var s := Run(p, events);
    assert s.world.requested == Indices(|s.world.requested|);
  }

  /** At most one of onComplete and onError is ever called, and at most once. */
  lemma ReportsAtMostOnce(p: Params, events: seq<Event>)
    requires ValidParams(p) && IsRun(p, events)
    ensures Run(p, events).world.completions + Run(p, events).world.errors <= 1
  {
    RunKeepsInv(p, events);
  }

  // ----- the emitted bytes against the file ------------------------------------------------------

  /** Where chunk `k` starts, cut off at the end of the file. */
  function Offset(p: Params, k: nat): nat {
    Min(k * p.chunkSize, p.fileSize)
  }

  lemma OffsetStep(p: Params, k: nat)
    ensures Offset(p, k) <= Offset(p, k + 1) <= p.fileSize
  {
    assert (k + 1) * p.chunkSize == k * p.chunkSize + p.chunkSize;
  }

  /** The last chunk ends at the end of the file. */
  lemma OffsetEnd(p: Params)
    requires ValidParams(p)
    ensures Offset(p, TotalChunks(p)) == p.fileSize
  {
    var a, c := p.fileSize + p.chunkSize - 1, p.chunkSize;
    assert a == c * (a / c) + a % c;
  }

  lemma EmptyHasNoChunks(p: Params)
    requires ValidParams(p) && p.fileSize == 0
    ensures TotalChunks(p) == 0
  {
  }

  /** The bytes of the file that the read of chunk `i` asks for. */
  function Slice(p: Params, file: seq<byte>, i: nat): seq<byte>
    requires |file| == p.fileSize
  {
    OffsetStep(p, i);
    file[Offset(p, i)..Offset(p, i + 1)]
  }

  function Data(chunks: seq<Chunk>): seq<seq<byte>> {
    seq(|chunks|, i requires 0 <= i < |chunks| => chunks[i].data)
  }

  /** The server answers each read with a prefix of the bytes asked for. */
  ghost predicate Honest(p: Params, file: seq<byte>, events: seq<Event>)
    requires ValidParams(p) && |file| == p.fileSize
  {
    forall e :: e in events && e.ReadDone? && e.index < TotalChunks(p) ==> e.data <= Slice(p, file, e.index)
  }

  ghost predicate FullReads(p: Params, file: seq<byte>, events: seq<Event>)
    requires ValidParams(p) && |file| == p.fileSize
  {
    forall e :: e in events && e.ReadDone? && e.index < TotalChunks(p) ==> |e.data| == |Slice(p, file, e.index)|
  }

  /** `delivered` records read completions that happened. */
  lemma {:induction false} DeliveredIsReadDone(p: Params, events: seq<Event>, i: nat)
    requires ValidParams(p) && IsRun(p, events) && i in Run(p, events).world.delivered
    ensures i < TotalChunks(p) && ReadDone(i, Run(p, events).world.delivered[i]) in events
  {
    RunKeepsInv(p, events);
    if events != [] {
      var n := |events| - 1;
      var s := Run(p, events[..n]);
      RunKeepsInv(p, events[..n]);
      StepDelivers(p, s, events[n], i);
      if i in s.world.delivered && Run(p, events).world.delivered[i] == s.world.delivered[i] {
        DeliveredIsReadDone(p, events[..n], i);
      } else {
        assert events[n] in events;
      }
    }
  }

  /** Until a read fails every completed read is delivered. */
  lemma {:induction false} ReadDoneIsDelivered(p: Params, events: seq<Event>, i: nat, data: seq<byte>)
    requires ValidParams(p) && IsRun(p, events) && ReadDone(i, data) in events && !Run(p, events).hasError
    ensures i in Run(p, events).world.delivered && Run(p, events).world.delivered[i] == data
  {
    var n := |events| - 1;
    RunKeepsInv(p, events[..n]);
    StepDelivers(p, Run(p, events[..n]), events[n], i);
    if events[n] != ReadDone(i, data) {
      assert ReadDone(i, data) in events[..n];
      ReadDoneIsDelivered(p, events[..n], i, data);
    }
  }

  lemma StepDelivers(p: Params, s: State, e: Event, i: nat)
    requires ValidParams(p) && Inv(p, s) && Enabled(s, e)
    ensures var t := Step(p, s, e);
      && (s.hasError ==> t.hasError)
      && t.world.delivered ==
           (if e.ReadDone? && !s.hasError then s.world.delivered[e.index := e.data] else s.world.delivered)
      && (e.ReadDone? ==> e.index !in s.world.delivered)
  {
    if e == Opened {
      OpenedEffect(p, s);
    }
  }

  lemma {:induction false} ConcatOfSlices(p: Params, file: seq<byte>, parts: seq<seq<byte>>)
    requires |file| == p.fileSize
    requires forall i :: 0 <= i < |parts| ==> parts[i] <= Slice(p, file, i)
    ensures |Concat(parts)| <= Offset(p, |parts|)
    ensures |Concat(parts)| == Offset(p, |parts|) <==>
            forall i :: 0 <= i < |parts| ==> |parts[i]| == |Slice(p, file, i)|
    ensures |Concat(parts)| == Offset(p, |parts|) ==> Concat(parts) <= file
  {
    if parts != [] {
      var n := |parts| - 1;
      var init := parts[..n];
      ConcatOfSlices(p, file, init);
      OffsetStep(p, n);
      if |Concat(parts)| == Offset(p, n + 1) {
        assert parts[n] == Slice(p, file, n);
        assert forall i :: 0 <= i < n ==> parts[i] == init[i];
      }
    }
  }

  /** With full reads, what has been emitted is at every moment a prefix of the file. */
  lemma EmittedIsPrefix(p: Params, file: seq<byte>, events: seq<Event>)
    requires ValidParams(p) && |file| == p.fileSize && IsRun(p, events)
    requires Honest(p, file, events) && FullReads(p, file, events)
    ensures Concat(Data(Run(p, events).world.chunks)) <= file
  {
    EmittedParts(p, file, events);
    ConcatOfSlices(p, file, Data(Run(p, events).world.chunks));
  }

  lemma EmittedParts(p: Params, file: seq<byte>, events: seq<Event>)
    requires ValidParams(p) && |file| == p.fileSize && IsRun(p, events)
    requires Honest(p, file, events)
    ensures var s := Run(p, events);
      |s.world.chunks| <= TotalChunks(p) &&
      forall i :: 0 <= i < |s.world.chunks| ==>
        s.world.chunks[i].data <= Slice(p, file, i) && ReadDone(i, s.world.chunks[i].data) in events
  {
    EmitsInOrder(p, events);
    var s := Run(p, events);
    forall i | 0 <= i < |s.world.chunks|
      ensures s.world.chunks[i].data <= Slice(p, file, i) && ReadDone(i, s.world.chunks[i].data) in events
    {
      DeliveredIsReadDone(p, events, i);
    }
  }

  /** In a completed download every chunk is what its read returned. */
  lemma CompletedChunks(p: Params, events: seq<Event>)
    requires ValidParams(p) && IsRun(p, events) && Run(p, events).world.completions > 0
    ensures !Run(p, events).hasError && |Run(p, events).world.chunks| == TotalChunks(p)
    ensures forall e :: e in events && e.ReadDone? && e.index < TotalChunks(p) ==>
      Run(p, events).world.chunks[e.index].data == e.data
  {
    RunKeepsInv(p, events);
    forall e | e in events && e.ReadDone? && e.index < TotalChunks(p)
      ensures Run(p, events).world.chunks[e.index].data == e.data
    {
      ReadDoneIsDelivered(p, events, e.index, e.data);
    }
  }

  lemma FullReadsFullParts(p: Params, file: seq<byte>, events: seq<Event>)
    requires ValidParams(p) && |file| == p.fileSize && IsRun(p, events)
    requires Honest(p, file, events) && Run(p, events).world.completions > 0
    ensures var parts := Data(Run(p, events).world.chunks);
      && |parts| == TotalChunks(p)
      && (FullReads(p, file, events) <==> forall i :: 0 <= i < |parts| ==> |parts[i]| == |Slice(p, file, i)|)
  {
    CompletedChunks(p, events);
    EmittedParts(p, file, events);
  }

  /**
   A completed download has delivered the file exactly when no read came back short: `readChunk`
   keeps whatever `bytesRead` says and never asks again for the missing tail.
   */
  lemma CompleteDeliversFileIffReadsFull(p: Params, file: seq<byte>, events: seq<Event>)
    requires ValidParams(p) && |file| == p.fileSize && IsRun(p, events)
    requires Honest(p, file, events) && Run(p, events).world.completions > 0
    ensures Concat(Data(Run(p, events).world.chunks)) == file <==> FullReads(p, file, events)
  {
    FullReadsFullParts(p, file, events);
    EmittedParts(p, file, events);
    ConcatOfSlices(p, file, Data(Run(p, events).world.chunks));
    OffsetEnd(p);
  }

  // ----- how many chunks, and how long ----------------------------------------------------------------

  /** The chunks of a non-empty file just cover it. */
  lemma ChunksCoverFile(p: Params)
    requires ValidParams(p) && p.fileSize > 0
    ensures TotalChunks(p) > 0 && (TotalChunks(p) - 1) * p.chunkSize < p.fileSize <= TotalChunks(p) * p.chunkSize
  {
    var a, c, n := p.fileSize + p.chunkSize - 1, p.chunkSize, TotalChunks(p);
    assert a == c * n + a % c;
    assert (n - 1) * c == n * c - c;
  }

  lemma Times(j: nat, k: nat, c: nat)
    requires j <= k
    ensures j * c <= k * c
  {
    assert (k - j) * c >= 0;
  }

  /** Chunk `k` starts in the file, is full or ends the file, and does the latter alone if it is the last. */
  lemma ChunkBounds(p: Params, k: nat)
    requires ValidParams(p) && p.fileSize > 0 && k < TotalChunks(p)
    ensures Offset(p, k) == k * p.chunkSize < p.fileSize
    ensures Offset(p, k + 1) - Offset(p, k) == Min(p.chunkSize, p.fileSize - k * p.chunkSize) > 0
    ensures Offset(p, k + 1) == p.fileSize <==> k == TotalChunks(p) - 1
    ensures k < TotalChunks(p) - 1 ==> Offset(p, k + 1) - Offset(p, k) == p.chunkSize
  {
    ChunksCoverFile(p);
    Times(k, TotalChunks(p) - 1, p.chunkSize);
    assert (k + 1) * p.chunkSize == k * p.chunkSize + p.chunkSize;
    if k < TotalChunks(p) - 1 {
      Times(k + 1, TotalChunks(p) - 1, p.chunkSize);
    } else {
      OffsetEnd(p);
    }
  }

  lemma SliceLength(p: Params, file: seq<byte>, k: nat)
    requires |file| == p.fileSize
    ensures |Slice(p, file, k)| == Offset(p, k + 1) - Offset(p, k)
  {
    OffsetStep(p, k);
  }

  /**
   With full reads every chunk but the last has exactly `chunkSize` bytes, none is empty, each is the file's bytes
   at its place, and the one marked last, and no other, ends the file.
   */
  lemma ChunksAreFull(p: Params, file: seq<byte>, events: seq<Event>, i: nat)
    requires ValidParams(p) && |file| == p.fileSize && IsRun(p, events)
    requires Honest(p, file, events) && FullReads(p, file, events) && i < |Run(p, events).world.chunks|
    ensures var c, from := Run(p, events).world.chunks[i], i * p.chunkSize;
      && 0 < |c.data| <= p.chunkSize && (!c.isLast ==> |c.data| == p.chunkSize)
      && from + |c.data| <= |file| && c.data == file[from..from + |c.data|]
      && (c.isLast <==> from + |c.data| == |file|)
  {
    EmitsInOrder(p, events);
    EmittedParts(p, file, events);
    if p.fileSize == 0 { EmptyHasNoChunks(p); }
    ChunkBounds(p, i);
    SliceLength(p, file, i);
  }

  // ----- the engine in imperative form -----------------------------------------------------------

  class Download {
    const params: Params

    var opening: bool
    var fileHandle: bool
    var nextChunkToRead: nat
    var nextChunkToEmit: nat
    var chunkBuffer: map<nat, seq<byte>>
    var isEmitting: bool
    var hasError: bool
    var cancelled: bool
    var downloadStream: Option<bool>
    var tracked: bool

    var world: World

    ghost function Abs(): State
      reads this
    {
      State(opening, fileHandle, nextChunkToRead, nextChunkToEmit, chunkBuffer, isEmitting, hasError,
            cancelled, downloadStream, tracked, world)
    }

    constructor (params: Params)
      requires ValidParams(params)
      ensures this.params == params && Abs() == INIT
    {
      this.params := params;
      opening, fileHandle, nextChunkToRead, nextChunkToEmit := true, false, 0, 0;
      chunkBuffer, isEmitting, hasError, cancelled := map[], false, false, false;
      downloadStream, tracked := Some(false), true;
      world := World({}, [], [], 0, 0, map[], {}, 0, 0);
    }

    /** From the call of `emitBufferedChunks` to its first `await` (or its end). */
    method EmitBufferedChunks()
      requires ValidParams(params)
      modifies this
      ensures Abs() == StartEmitting(params, old(Abs()))
    {
      if isEmitting {
        return;
      }
      isEmitting := true;
      if nextChunkToEmit in chunkBuffer {
        var chunk := chunkBuffer[nextChunkToEmit];
        chunkBuffer := chunkBuffer - {nextChunkToEmit};
        var isLast := nextChunkToEmit == TotalChunks(params) - 1;
        world := world.(chunks := world.chunks + [Chunk(nextChunkToEmit, chunk, isLast)]);
      } else {
        isEmitting := false;
      }
    }

    method ReadChunkAt(index: nat)
      modifies this
      ensures Abs() == ReadChunk(old(Abs()), index)
    {
      if hasError || cancelled || !fileHandle {
        return;
      }
      world := world.(inFlight := world.inFlight + {index}, requested := world.requested + [index]);
    }

    method CleanUp()
      modifies this
      ensures Abs() == Cleanup(old(Abs()))
    {
      downloadStream := None;
      fileHandle := false;
    }

    method Resolve()
      modifies this`world
      ensures world == old(world).(resolved := old(world).resolved + 1)
    {
      world := world.(resolved := world.resolved + 1);
    }

    /** The loop that issues the first reads. */
    method StartReads(initialReads: nat)
      modifies this
      ensures Abs() == IssueReads(old(Abs()), initialReads)
    {
      for i := 0 to initialReads
        invariant Abs() == IssueReads(old(Abs()), i)
      {
        ghost var s := Abs();
        var chunkIdx := nextChunkToRead;
        nextChunkToRead := nextChunkToRead + 1;
        assert Abs() == s.(nextRead := s.nextRead + 1);
        ReadChunkAt(chunkIdx);
      }
    }

    method HandleOpened()
      requires ValidParams(params) && opening
      modifies this
      ensures Abs() == OnOpened(params, old(Abs()))
    {
      opening, fileHandle := false, true;
      if downloadStream.Some? {
        cancelled := downloadStream.value;
      }
      if cancelled {
        CleanUp();
        Resolve();
        return;
      }
      assert Abs() == old(Abs()).(opening := false, handle := true, cancelled := false);
      StartReads(Min(CONCURRENCY, TotalChunks(params)));
    }

    method StartNextRead()
      requires ValidParams(params)
      modifies this
      ensures Abs() == ReadNext(params, old(Abs()))
    {
      if nextChunkToRead < TotalChunks(params) {
        var nextIdx := nextChunkToRead;
        nextChunkToRead := nextChunkToRead + 1;
        assert Abs() == old(Abs()).(nextRead := old(Abs()).nextRead + 1);
        ReadChunkAt(nextIdx);
      }
    }

    method HandleReadDone(index: nat, data: seq<byte>)
      requires ValidParams(params) && index in world.inFlight
      modifies this
      ensures Abs() == OnReadDone(params, old(Abs()), index, data)
    {
      world := world.(inFlight := world.inFlight - {index});
      if hasError || cancelled {
        world := world.(lost := world.lost + {index});
        return;
      }
      chunkBuffer := chunkBuffer[index := data];
      world := world.(delivered := world.delivered[index := data]);
      assert Abs() == Stored(old(Abs()), index, data);
      EmitBufferedChunks();
      StartNextRead();
    }

    method HandleReadFailed(index: nat)
      requires ValidParams(params) && index in world.inFlight
      modifies this
      ensures Abs() == OnReadFailed(old(Abs()), index)
    {
      world := world.(inFlight := world.inFlight - {index}, lost := world.lost + {index});
      if hasError || cancelled {
        return;
      }
      hasError := true;
      CleanUp();
      tracked := false;
      world := world.(errors := world.errors + 1);
      Resolve();
    }

    /** The emitter resuming after its `await`, up to its next one. */
    method ResumeEmitter()
      requires ValidParams(params) && isEmitting
      modifies this
      ensures Abs() == OnChunkAccepted(params, old(Abs()))
    {
      var isLast := nextChunkToEmit == TotalChunks(params) - 1;
      nextChunkToEmit := nextChunkToEmit + 1;
      if isLast {
        CleanUp();
        if tracked {
          tracked := false;
          world := world.(completions := world.completions + 1);
        }
        Resolve();
      }
      isEmitting := false;
      assert Abs() == AfterAwait(params, old(Abs()));
      EmitBufferedChunks();
    }

    /** The emitter when its `await` throws: only the `finally` block runs. */
    method AbandonEmitter()
      requires ValidParams(params) && isEmitting
      modifies this
      ensures Abs() == OnChunkRefused(params, old(Abs()))
    {
      world := world.(refusals := world.refusals + 1);
      isEmitting := false;
      EmitBufferedChunks();
    }

    method HandleOpenFailed()
      requires ValidParams(params) && opening
      modifies this
      ensures Abs() == Step(params, old(Abs()), OpenFailed)
    {
      opening, tracked := false, false;
      world := world.(errors := world.errors + 1);
      Resolve();
    }

    /** `cancelDownload`: the stored object is marked and forgotten, not the flag the loop tests. */
    method CancelDownload()
      requires ValidParams(params)
      modifies this
      ensures Abs() == Step(params, old(Abs()), Cancel)
    {
      downloadStream := None;
      tracked := false;
    }
  }
}
