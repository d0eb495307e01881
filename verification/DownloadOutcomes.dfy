/**
 How a parallel SFTP download ends: after how many events, with what report, and what failing or cancelling
 it does and does not change. (app/services/sftp/sftp-service.ts, streamDownloadChunks and cancelDownload)
 */
module DownloadOutcomes {
  import opened Basics
  import opened ParallelDownload

  // ----- every run is finite ----------------------------------------------------------------------

  ghost function Work(p: Params, s: State): int
    requires ValidParams(p)
  {
    if s.opening then 1 + 2 * TotalChunks(p)
    else (if s.handle then 2 * (TotalChunks(p) - s.nextRead) else 0)
         + 2 * |s.world.inFlight| + |s.buffer| + (if s.isEmitting then 1 else 0)
  }

  lemma StartEmittingKeepsWork(p: Params, s: State)
    requires ValidParams(p)
    ensures Work(p, StartEmitting(p, s)) == Work(p, s)
  {
    if !s.isEmitting && s.nextEmit in s.buffer {
      var rest := s.buffer - {s.nextEmit};
      assert rest.Keys == s.buffer.Keys - {s.nextEmit};
      assert |rest.Keys| == |s.buffer.Keys| - 1;
    }
  }

  lemma StoredWork(p: Params, s: State, index: nat, data: seq<byte>)
    requires ValidParams(p) && Inv(p, s) && index in s.world.inFlight
    ensures Work(p, Stored(s, index, data)) == Work(p, s) - 1
  {
    var t := Stored(s, index, data);
    assert t.buffer.Keys == s.buffer.Keys + {index};
    assert |t.buffer.Keys| == |s.buffer.Keys| + 1;
  }

  lemma ReadDoneDoesWork(p: Params, s: State, index: nat, data: seq<byte>)
    requires ValidParams(p) && Inv(p, s) && index in s.world.inFlight
    ensures Work(p, OnReadDone(p, s, index, data)) <= Work(p, s) - 1
  {
    if !s.hasError {
      var t := Stored(s, index, data);
      StoredWork(p, s, index, data);
      StartEmittingKeepsWork(p, t);
      StartEmittingFrame(p, t);
      assert s.nextRead !in t.world.inFlight;
    }
  }

  lemma StepDoesWork(p: Params, s: State, e: Event)
    requires ValidParams(p) && Inv(p, s) && Enabled(s, e)
    ensures Work(p, Step(p, s, e)) <= Work(p, s) - (if e == Cancel then 0 else 1)
  {
    match e
    case Opened => OpenedEffect(p, s);
    case ReadDone(i, data) => ReadDoneDoesWork(p, s, i, data);
    case ChunkAccepted =>
      StartEmittingKeepsWork(p, AfterAwait(p, s));
    case ChunkRefused =>
      StartEmittingKeepsWork(p, s.(isEmitting := false, world := s.world.(refusals := s.world.refusals + 1)));
    case _ =>
  }

  ghost function NonCancel(events: seq<Event>): nat {
    Count(events, (e: Event) => e != Cancel)
  }

  /** A download ends after at most 2n + 1 events of its own, n being the number of chunks. */
  lemma {:induction false} RunsAreBounded(p: Params, events: seq<Event>)
    requires ValidParams(p) && IsRun(p, events)
    ensures NonCancel(events) + Work(p, Run(p, events)) <= 2 * TotalChunks(p) + 1
    ensures NonCancel(events) <= 2 * TotalChunks(p) + 1
  {
    RunKeepsInv(p, events);
    if events != [] {
      var n := |events| - 1;
      RunsAreBounded(p, events[..n]);
      RunKeepsInv(p, events[..n]);
      StepDoesWork(p, Run(p, events[..n]), events[n]);
    }
  }

  // ----- completion -------------------------------------------------------------------------------

  /** Some cancel came before the last chunk was accepted. */
  ghost predicate EarlyCancel(p: Params, events: seq<Event>)
    requires ValidParams(p)
  {
    events != [] &&
    var before := events[..|events| - 1];
    EarlyCancel(p, before) || (events[|events| - 1] == Cancel && !Finished(p, Run(p, before)))
  }

  /** onComplete was called if every chunk is out and no cancel came early; until then the transfer is tracked. */
  ghost predicate Reported(p: Params, s: State, early: bool)
    requires ValidParams(p)
  {
    && s.world.completions == (if Finished(p, s) && !early then 1 else 0)
    && (s.tracked <==> !early && !Finished(p, s) && s.world.errors == 0)
  }

  lemma AcceptedKeepsReported(p: Params, s: State, early: bool)
    requires ValidParams(p) && Inv(p, s) && s.isEmitting && Reported(p, s, early)
    ensures Reported(p, OnChunkAccepted(p, s), early)
  {
    StartEmittingFrame(p, AfterAwait(p, s));
    if s.nextEmit == TotalChunks(p) - 1 {
      LastIsOut(p, s);
    }
  }

  lemma StepKeepsReported(p: Params, s: State, e: Event, early: bool)
    requires ValidParams(p) && Inv(p, s) && Enabled(s, e) && Reported(p, s, early)
    ensures Reported(p, Step(p, s, e), early || (e == Cancel && !Finished(p, s)))
  {
    match e
    case Opened => OpenedEffect(p, s);
    case ReadDone(i, data) => StartEmittingFrame(p, Stored(s, i, data));
    case ReadFailed(i) => if Finished(p, s) { LastIsOut(p, s); }
    case ChunkAccepted => AcceptedKeepsReported(p, s, early);
    case _ =>
  }

  /** In every run onComplete has been called if and only if every chunk was accepted and no cancel came before. */
  lemma {:induction false} CompletesIff(p: Params, events: seq<Event>)
    requires ValidParams(p) && IsRun(p, events)
    ensures Reported(p, Run(p, events), EarlyCancel(p, events))
  {
    if events != [] {
      var n := |events| - 1;
      CompletesIff(p, events[..n]);
      RunKeepsInv(p, events[..n]);
      StepKeepsReported(p, Run(p, events[..n]), events[n], EarlyCancel(p, events[..n]));
    }
  }

  // ----- runs that can go no further ----------------------------------------------------------------

  /** The open or a read called back with an error. */
  ghost predicate Fails(events: seq<Event>) {
    exists e :: e in events && (e.OpenFailed? || e.ReadFailed?)
  }

  lemma FailsSnoc(events: seq<Event>)
    requires events != []
    ensures var n := |events| - 1;
      Fails(events) <==> Fails(events[..n]) || events[n].OpenFailed? || events[n].ReadFailed?
    ensures var n := |events| - 1; ChunkRefused in events <==> ChunkRefused in events[..n] || events[n] == ChunkRefused
  {
    var n := |events| - 1;
    assert events == events[..n] + [events[n]];
  }

  lemma StepShowsFailure(p: Params, s: State, e: Event)
    requires ValidParams(p) && Inv(p, s) && Enabled(s, e)
    ensures var t := Step(p, s, e);
      && (t.world.errors > 0 <==> s.world.errors > 0 || e.OpenFailed? || e.ReadFailed?)
      && (t.world.refusals > 0 <==> s.world.refusals > 0 || e.ChunkRefused?)
  {
    match e
    case Opened => OpenedEffect(p, s);
    case ReadDone(i, data) => StartEmittingFrame(p, Stored(s, i, data));
    case ChunkAccepted => StartEmittingFrame(p, AfterAwait(p, s));
    case _ =>
  }

  lemma {:induction false} FailuresShow(p: Params, events: seq<Event>)
    requires ValidParams(p) && IsRun(p, events)
    ensures var w := Run(p, events).world;
      (w.errors > 0 <==> Fails(events)) && (w.refusals > 0 <==> ChunkRefused in events)
  {
    if events != [] {
      var n := |events| - 1;
      FailuresShow(p, events[..n]);
      RunKeepsInv(p, events[..n]);
      FailsSnoc(events);
      StepShowsFailure(p, Run(p, events[..n]), events[n]);
    }
  }

  /** No event of the download itself can happen any more. */
  ghost predicate Stuck(s: State) {
    !s.opening && s.world.inFlight == {} && !s.isEmitting
  }

  lemma StuckState(p: Params, s: State)
    requires ValidParams(p) && Inv(p, s) && Stuck(s)
    ensures Finished(p, s) <==> TotalChunks(p) > 0 && s.world.errors == 0 && s.world.refusals == 0
  {
    if Finished(p, s) {
      LastIsOut(p, s);
    }
  }

  lemma ChunksExistIff(p: Params)
    requires ValidParams(p)
    ensures TotalChunks(p) > 0 <==> p.fileSize > 0
  {
    OffsetEnd(p);
    if p.fileSize == 0 { EmptyHasNoChunks(p); }
  }

  /**
   When nothing more can happen to a non-empty download, it has emitted every chunk and called onComplete
   unless a cancel came early, or reported one error, or stopped at a chunk whose callback rejected.
   */
  lemma StuckMeansSettled(p: Params, events: seq<Event>)
    requires ValidParams(p) && IsRun(p, events) && p.fileSize > 0
    requires Stuck(Run(p, events))
    ensures var s := Run(p, events);
      || (Finished(p, s) && |s.world.chunks| == TotalChunks(p)
          && s.world.completions == if EarlyCancel(p, events) then 0 else 1)
      || s.world.errors == 1 || s.world.refusals == 1
  {
    RunKeepsInv(p, events);
    ChunksExistIff(p);
    StuckState(p, Run(p, events));
    CompletesIff(p, events);
  }

  /**
   A download that can go no further has called onComplete if and only if the file is not empty, the open,
   every read and every chunk callback succeeded, and no cancel came before the last chunk was accepted.
   */
  lemma SucceedsIff(p: Params, events: seq<Event>)
    requires ValidParams(p) && IsRun(p, events) && Stuck(Run(p, events))
    ensures Run(p, events).world.completions == 1 <==>
      p.fileSize > 0 && !Fails(events) && ChunkRefused !in events && !EarlyCancel(p, events)
    ensures p.fileSize > 0 && !Fails(events) && ChunkRefused !in events ==>
      |Run(p, events).world.chunks| == TotalChunks(p)
  {
    RunKeepsInv(p, events);
    ChunksExistIff(p);
    FailuresShow(p, events);
    StuckState(p, Run(p, events));
    CompletesIff(p, events);
  }

  /**
   The promise is resolved at most once; when a download can go no further it is still pending if and only if
   nothing failed to open or read and either the file is empty or a chunk callback rejected.
   */
  lemma PendingForeverIff(p: Params, events: seq<Event>)
    requires ValidParams(p) && IsRun(p, events) && Stuck(Run(p, events))
    ensures Run(p, events).world.resolved <= 1
    ensures Run(p, events).world.resolved == 0 <==>
      !Fails(events) && (p.fileSize == 0 || ChunkRefused in events)
  {
    RunKeepsInv(p, events);
    ChunksExistIff(p);
    FailuresShow(p, events);
    StuckState(p, Run(p, events));
  }

  // ----- what a download that can go no further holds on to -------------------------------------------

  /** The service's two maps and the failed open, as the run so far determines them. */
  ghost predicate Held(p: Params, s: State, cancelled: bool, openFailed: bool)
    requires ValidParams(p)
  {
    && (s.tracked <==> !cancelled && s.world.resolved == 0)
    && (s.entry.Some? <==> !cancelled && !s.hasError && !Finished(p, s))
    && (openFailed <==> s.world.errors == 1 && !s.hasError)
  }

  lemma AcceptedKeepsHeld(p: Params, s: State, cancelled: bool, openFailed: bool)
    requires ValidParams(p) && Inv(p, s) && s.isEmitting && Held(p, s, cancelled, openFailed)
    ensures Held(p, OnChunkAccepted(p, s), cancelled, openFailed)
  {
    StartEmittingFrame(p, AfterAwait(p, s));
    if s.nextEmit == TotalChunks(p) - 1 {
      LastIsOut(p, s);
    }
  }

  lemma StepKeepsHeld(p: Params, s: State, e: Event, cancelled: bool, openFailed: bool)
    requires ValidParams(p) && Inv(p, s) && Enabled(s, e) && Held(p, s, cancelled, openFailed)
    ensures Held(p, Step(p, s, e), cancelled || e == Cancel, openFailed || e == OpenFailed)
  {
    match e
    case Opened => OpenedEffect(p, s);
    case ReadDone(i, data) => StartEmittingFrame(p, Stored(s, i, data));
    case ReadFailed(i) => if Finished(p, s) { LastIsOut(p, s); }
    case ChunkAccepted => AcceptedKeepsHeld(p, s, cancelled, openFailed);
    case _ =>
  }

  lemma {:induction false} RunKeepsHeld(p: Params, events: seq<Event>)
    requires ValidParams(p) && IsRun(p, events)
    ensures Held(p, Run(p, events), Cancel in events, OpenFailed in events)
  {
    if events != [] {
      var n := |events| - 1;
      RunKeepsHeld(p, events[..n]);
      RunKeepsInv(p, events[..n]);
      StepKeepsHeld(p, Run(p, events[..n]), events[n], Cancel in events[..n], OpenFailed in events[..n]);
      assert events == events[..n] + [events[n]];
    }
  }

  /**
   A download that can go no further keeps the remote file open if and only if its promise stays pending. Then
   the transfer keeps counting against its session's cap unless there was a cancel; and without a cancel the entry
   in `downloadStreams` also stays, as it does after a failed open.
   */
  lemma HoldsOnIff(p: Params, events: seq<Event>)
    requires ValidParams(p) && IsRun(p, events) && Stuck(Run(p, events))
    ensures var s := Run(p, events);
      && (s.handle <==> !Fails(events) && (p.fileSize == 0 || ChunkRefused in events))
      && (s.tracked <==> s.handle && Cancel !in events)
      && (s.entry.Some? <==> (s.handle || OpenFailed in events) && Cancel !in events)
  {
    RunKeepsInv(p, events);
    RunKeepsHeld(p, events);
    PendingForeverIff(p, events);
  }

  // ----- what cancelling does not do ----------------------------------------------------------------

  function WithoutCancel(events: seq<Event>): seq<Event> {
    if events == [] then []
    else
      var n := |events| - 1;
      WithoutCancel(events[..n]) + (if events[n] == Cancel then [] else [events[n]])
  }

  /** Everything but the service-wide bookkeeping that `cancelDownload` touches. */
  ghost function Visible(s: State): State {
    s.(entry := None, tracked := false, world := s.world.(completions := 0))
  }

  lemma VisibleEmitting(p: Params, s: State)
    requires ValidParams(p)
    ensures Visible(StartEmitting(p, s)) == StartEmitting(p, Visible(s))
  {
  }

  lemma VisibleReadDone(p: Params, s: State, index: nat, data: seq<byte>)
    requires ValidParams(p)
    ensures Visible(OnReadDone(p, s, index, data)) == Visible(OnReadDone(p, Visible(s), index, data))
  {
    var t := Stored(s, index, data);
    VisibleEmitting(p, t);
    VisibleReadNext(p, StartEmitting(p, t));
    assert Visible(t) == Stored(Visible(s), index, data);
  }

  lemma VisibleReadNext(p: Params, s: State)
    requires ValidParams(p)
    ensures Visible(ReadNext(p, s)) == ReadNext(p, Visible(s))
  {
  }

  lemma VisibleLastAwait(p: Params, s: State)
    requires ValidParams(p) && s.nextEmit == TotalChunks(p) - 1
    ensures Visible(AfterAwait(p, s)) == Visible(AfterAwait(p, Visible(s)))
  {
    assert Visible(AfterAwait(p, s)).world == Visible(AfterAwait(p, Visible(s))).world;
  }

  lemma VisibleAwait(p: Params, s: State)
    requires ValidParams(p)
    ensures Visible(AfterAwait(p, s)) == Visible(AfterAwait(p, Visible(s)))
  {
    if s.nextEmit == TotalChunks(p) - 1 {
      VisibleLastAwait(p, s);
    } else {
      var t := Visible(s).(nextEmit := s.nextEmit + 1, isEmitting := false);
      assert AfterAwait(p, Visible(s)) == t && Visible(t) == t;
      assert Visible(AfterAwait(p, s)) == t;
    }
  }

  lemma VisibleAccepted(p: Params, s: State)
    requires ValidParams(p)
    ensures Visible(OnChunkAccepted(p, s)) == Visible(OnChunkAccepted(p, Visible(s)))
  {
    VisibleEmitting(p, AfterAwait(p, s));
    VisibleEmitting(p, AfterAwait(p, Visible(s)));
    VisibleAwait(p, s);
  }

  lemma VisibleStep(p: Params, s: State, e: Event)
    requires ValidParams(p) && Lifecycle(p, s) && Enabled(s, e)
    ensures Enabled(Visible(s), e)
    ensures Visible(Step(p, s, e)) == if e == Cancel then Visible(s) else Visible(Step(p, Visible(s), e))
  {
    match e
    case Opened =>
      OpenedEffect(p, s);
      IssueReadsEffect(Visible(s).(opening := false, handle := true), Min(CONCURRENCY, TotalChunks(p)));
    case ReadDone(i, data) => VisibleReadDone(p, s, i, data);
    case ChunkAccepted => VisibleAccepted(p, s);
    case ChunkRefused =>
      VisibleEmitting(p, s.(isEmitting := false, world := s.world.(refusals := s.world.refusals + 1)));
    case _ =>
  }

  lemma {:induction false} NoCancelIsEarly(p: Params, events: seq<Event>)
    requires ValidParams(p)
    ensures !EarlyCancel(p, WithoutCancel(events))
  {
    if events != [] {
      var n := |events| - 1;
      var kept := WithoutCancel(events[..n]);
      NoCancelIsEarly(p, events[..n]);
      if events[n] == Cancel {
        assert WithoutCancel(events) == kept;
      } else {
        assert WithoutCancel(events)[..|kept|] == kept;
      }
    }
  }

  lemma {:induction false} SameVisible(p: Params, events: seq<Event>)
    requires ValidParams(p) && IsRun(p, events)
    ensures IsRun(p, WithoutCancel(events))
    ensures Visible(Run(p, events)) == Visible(Run(p, WithoutCancel(events)))
  {
    if events != [] {
      var n := |events| - 1;
      var kept := WithoutCancel(events[..n]);
      SameVisible(p, events[..n]);
      RunKeepsInv(p, events[..n]);
      RunKeepsInv(p, kept);
      VisibleStep(p, Run(p, events[..n]), events[n]);
      VisibleStep(p, Run(p, kept), events[n]);
      if events[n] == Cancel {
        assert WithoutCancel(events) == kept;
      } else {
        assert WithoutCancel(events)[..|kept|] == kept;
      }
    }
  }

  /**
   Deleting every cancel from a run changes neither the reads nor the emitted chunks nor the errors nor the
   resolving of the promise, and the flag the loop tests is never set: all a cancel can do is to withhold
   onComplete, which it does exactly if it came before the last chunk was accepted.
   */
  lemma CancelIsInvisible(p: Params, events: seq<Event>)
    requires ValidParams(p) && IsRun(p, events)
    ensures IsRun(p, WithoutCancel(events))
    ensures Visible(Run(p, events)) == Visible(Run(p, WithoutCancel(events)))
    ensures !Run(p, events).cancelled
    ensures Run(p, events).world.completions ==
      if EarlyCancel(p, events) then 0 else Run(p, WithoutCancel(events)).world.completions
  {
    SameVisible(p, events);
    NoCancelIsEarly(p, events);
    RunKeepsInv(p, events);
    CompletesIff(p, events);
    CompletesIff(p, WithoutCancel(events));
    assert Visible(Run(p, events)).nextEmit == Visible(Run(p, WithoutCancel(events))).nextEmit;
  }

  // ----- emission after an error --------------------------------------------------------------------

  /** A chunk waits behind the one whose callback the emitter awaits. */
  ghost predicate Waiting(s: State) {
    s.isEmitting && s.nextEmit + 1 in s.buffer
  }

  lemma StepAfterError(p: Params, s: State, e: Event)
    requires ValidParams(p) && Inv(p, s) && Enabled(s, e) && s.hasError && !Waiting(s)
    ensures var t := Step(p, s, e); t.hasError && !Waiting(t) && t.world.chunks == s.world.chunks
  {
  }

  lemma {:induction false} NothingAfterError(p: Params, before: seq<Event>, after: seq<Event>)
    requires ValidParams(p) && IsRun(p, before + after) && IsRun(p, before)
    requires Run(p, before).hasError && !Waiting(Run(p, before))
    ensures var s := Run(p, before + after);
      s.hasError && !Waiting(s) && s.world.chunks == Run(p, before).world.chunks
  {
    if after == [] {
      assert before + after == before;
    } else {
      var n := |after| - 1;
      assert (before + after)[..|before + after| - 1] == before + after[..n];
      NothingAfterError(p, before, after[..n]);
      RunKeepsInv(p, before + after[..n]);
      StepAfterError(p, Run(p, before + after[..n]), after[n]);
    }
  }

  lemma RunSnoc(p: Params, events: seq<Event>, e: Event)
    requires ValidParams(p) && IsRun(p, events) && Enabled(Run(p, events), e)
    ensures IsRun(p, events + [e]) && Run(p, events + [e]) == Step(p, Run(p, events), e)
  {
    assert (events + [e])[..|events|] == events;
  }

  lemma WaitingIsEmitted(p: Params, s: State)
    requires ValidParams(p) && Inv(p, s) && Waiting(s)
    ensures |Step(p, s, ChunkAccepted).world.chunks| == |s.world.chunks| + 1
  {
  }

  /**
   After a read has failed, and onError with it, another chunk is handed out in some continuation if and only
   if the emitter is suspended and the next chunk is already buffered behind the one it awaits.
   */
  lemma EmitsAfterErrorIff(p: Params, before: seq<Event>)
    requires ValidParams(p) && IsRun(p, before) && Run(p, before).hasError
    ensures Run(p, before).world.errors == 1
    ensures (exists after :: IsRun(p, before + after)
                             && Run(p, before + after).world.chunks != Run(p, before).world.chunks)
       <==> Waiting(Run(p, before))
  {
    var s := Run(p, before);
    RunKeepsInv(p, before);
    if Waiting(s) {
      RunSnoc(p, before, ChunkAccepted);
      WaitingIsEmitted(p, s);
    } else {
      forall after | IsRun(p, before + after) ensures Run(p, before + after).world.chunks == s.world.chunks {
        NothingAfterError(p, before, after);
      }
    }
  }

  // ----- runs that show it --------------------------------------------------------------------------

  lemma OpenedRun(p: Params) returns (s: State)
    requires ValidParams(p)
    ensures IsRun(p, [Opened]) && s == Run(p, [Opened])
    ensures var n := Min(CONCURRENCY, TotalChunks(p));
      s == INIT.(opening := false, handle := true, nextRead := n,
                 world := INIT.world.(inFlight := Below(n), requested := Indices(n)))
  {
    assert [Opened][..0] == [] && [] + [Opened] == [Opened];
    RunKeepsInv(p, []);
    RunSnoc(p, [], Opened);
    OpenedEffect(p, Run(p, []));
    s := Run(p, [Opened]);
  }

  /** The open of an empty file: nothing is read, nothing is reported, the promise stays pending. */
  lemma EmptyFileHangs(chunkSize: nat)
    requires chunkSize > 0
    ensures var p := Params(0, chunkSize);
      IsRun(p, [Opened]) && Stuck(Run(p, [Opened])) &&
      var w := Run(p, [Opened]).world; w.completions == w.errors == w.resolved == 0
  {
    var p := Params(0, chunkSize);
    EmptyHasNoChunks(p);
    var s := OpenedRun(p);
  }

  const ONE: Params := Params(1, 1)

  /** A file of one byte, read with this result. */
  lemma OneByteRun(data: seq<byte>) returns (s: State)
    ensures var events := [Opened, ReadDone(0, data)];
      IsRun(ONE, events) && s == Run(ONE, events) && TotalChunks(ONE) == 1
    ensures s.world == INIT.world.(requested := [0], chunks := [Chunk(0, data, true)], delivered := map[0 := data])
    ensures s.isEmitting && s.nextEmit == 0 && s.nextRead == 1 && s.buffer == map[] && s.tracked && s.handle
    ensures !s.opening && !s.hasError
  {
    var t := OpenedRun(ONE);
    assert TotalChunks(ONE) == 1 && Below(1) == {0} && Indices(1) == [0];
    RunSnoc(ONE, [Opened], ReadDone(0, data));
    assert [Opened] + [ReadDone(0, data)] == [Opened, ReadDone(0, data)];
    s := Run(ONE, [Opened, ReadDone(0, data)]);
  }

  /** A read that comes back empty: the download completes without the file's byte. */
  lemma ShortReadCompletes(b: byte)
    ensures var events := [Opened, ReadDone(0, []), ChunkAccepted];
      && IsRun(ONE, events) && Honest(ONE, [b], events)
      && Run(ONE, events).world.completions == 1 && Concat(Data(Run(ONE, events).world.chunks)) == [] != [b]
  {
    var events := [Opened, ReadDone(0, []), ChunkAccepted];
    var s := OneByteRun([]);
    RunSnoc(ONE, [Opened, ReadDone(0, [])], ChunkAccepted);
    assert [Opened, ReadDone(0, [])] + [ChunkAccepted] == events;
    var chunks := Run(ONE, events).world.chunks;
    assert chunks == [Chunk(0, [], true)];
    var none: seq<byte> := [];
    assert Data(chunks) == [] + [none];
    ConcatSnoc([], none);
    assert forall e :: e in events && e.ReadDone? ==> e.data == [];
  }

  /** A chunk callback that rejects: nothing is reported and the promise stays pending. */
  lemma RefusalHangs(data: seq<byte>)
    ensures var events := [Opened, ReadDone(0, data), ChunkRefused];
      IsRun(ONE, events) && Stuck(Run(ONE, events)) &&
      var w := Run(ONE, events).world; w.completions == w.errors == w.resolved == 0
  {
    var s := OneByteRun(data);
    RunSnoc(ONE, [Opened, ReadDone(0, data)], ChunkRefused);
    assert [Opened, ReadDone(0, data)] + [ChunkRefused] == [Opened, ReadDone(0, data), ChunkRefused];
  }

  /** A cancel between open and end: every chunk is handed out, and neither onComplete nor onError is called. */
  lemma CancelWithholdsReport(data: seq<byte>)
    ensures var events := [Opened, ReadDone(0, data), Cancel, ChunkAccepted];
      IsRun(ONE, events) && Stuck(Run(ONE, events)) &&
      var w := Run(ONE, events).world;
      |w.chunks| == TotalChunks(ONE) && w.completions == w.errors == 0 && w.resolved == 1
  {
    var s := OneByteRun(data);
    RunSnoc(ONE, [Opened, ReadDone(0, data)], Cancel);
    assert [Opened, ReadDone(0, data)] + [Cancel] == [Opened, ReadDone(0, data), Cancel];
    RunSnoc(ONE, [Opened, ReadDone(0, data), Cancel], ChunkAccepted);
    assert [Opened, ReadDone(0, data), Cancel] + [ChunkAccepted] == [Opened, ReadDone(0, data), Cancel, ChunkAccepted];
  }

  /** Early in a download: nothing wrong so far, and reads 1 and 2 in flight or done. */
  ghost predicate Underway(s: State, emitting: bool, buffer: map<nat, seq<byte>>, chunks: seq<Chunk>) {
    && s.handle && !s.hasError && !s.cancelled && s.world.errors == 0 && s.nextEmit == 0
    && s.isEmitting == emitting && s.buffer == buffer && s.world.chunks == chunks
    && 2 in s.world.inFlight
  }

  lemma FirstRead(p: Params, s: State, data: seq<byte>)
    requires ValidParams(p) && TotalChunks(p) >= 3 && Underway(s, false, map[], [])
    ensures var t := OnReadDone(p, s, 0, data);
      Underway(t, true, map[], [Chunk(0, data, false)]) && (1 in s.world.inFlight ==> 1 in t.world.inFlight)
  {
    var t := Stored(s, 0, data);
    assert t.buffer == map[0 := data] && t.buffer - {0} == map[];
  }

  lemma SecondRead(p: Params, s: State, chunks: seq<Chunk>, data: seq<byte>)
    requires ValidParams(p) && TotalChunks(p) >= 3 && Underway(s, true, map[], chunks)
    ensures Underway(OnReadDone(p, s, 1, data), true, map[1 := data], chunks)
  {
  }

  /** Two reads done: the first chunk is being handed out, the second waits. */
  lemma TwoReads(p: Params, first: seq<byte>, second: seq<byte>) returns (s: State)
    requires ValidParams(p) && TotalChunks(p) >= 3
    ensures var events := [Opened, ReadDone(0, first), ReadDone(1, second)];
      IsRun(p, events) && s == Run(p, events)
    ensures Underway(s, true, map[1 := second], [Chunk(0, first, false)])
  {
    var t := OpenedRun(p);
    FirstRead(p, t, first);
    RunSnoc(p, [Opened], ReadDone(0, first));
    assert [Opened] + [ReadDone(0, first)] == [Opened, ReadDone(0, first)];
    var u := Run(p, [Opened, ReadDone(0, first)]);
    SecondRead(p, u, [Chunk(0, first, false)], second);
    RunSnoc(p, [Opened, ReadDone(0, first)], ReadDone(1, second));
    assert [Opened, ReadDone(0, first)] + [ReadDone(1, second)] == [Opened, ReadDone(0, first), ReadDone(1, second)];
    s := Run(p, [Opened, ReadDone(0, first), ReadDone(1, second)]);
  }

  /** The third read fails while the first chunk is being handed out: the second follows onError. */
  lemma ErrorDoesNotStopEmission(p: Params, first: seq<byte>, second: seq<byte>)
    requires ValidParams(p) && TotalChunks(p) >= 3
    ensures var failed := [Opened, ReadDone(0, first), ReadDone(1, second), ReadFailed(2)];
      && IsRun(p, failed + [ChunkAccepted])
      && Run(p, failed).world.errors == 1 && Run(p, failed).world.chunks == [Chunk(0, first, false)]
      && Run(p, failed + [ChunkAccepted]).world.chunks == [Chunk(0, first, false), Chunk(1, second, false)]
  {
    var done := [Opened, ReadDone(0, first), ReadDone(1, second)];
    var s := TwoReads(p, first, second);
    RunSnoc(p, done, ReadFailed(2));
    assert done + [ReadFailed(2)] == [Opened, ReadDone(0, first), ReadDone(1, second), ReadFailed(2)];
    RunSnoc(p, done + [ReadFailed(2)], ChunkAccepted);
  }
}
