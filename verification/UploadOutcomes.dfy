/**
 What an upload leaves behind: which bytes are in the file, when the file is complete, and what a failed write
 does to the transfer. (app/services/sftp/sftp-service.ts, app/socket/adapters/service-socket-sftp.ts)
 */
module UploadOutcomes {
  import opened Basics
  import opened Transfers
  import opened Uploads

  // ----- the bytes in the file ------------------------------------------------------------------------

  /** Write k completed, or failed only after its byte j. */
  ghost predicate Reaches(e: Event, k: nat, j: nat) {
    e == WriteDone(k) || (e.WriteFailed? && e.k == k && j < e.written)
  }

  /** One of the first `n` events put byte j of write k into the file. */
  ghost predicate Reached(es: seq<Event>, n: nat, k: nat, j: nat)
    requires n <= |es|
  {
    exists i :: 0 <= i < n && Reaches(es[i], k, j)
  }

  lemma ReachedNext(es: seq<Event>, n: nat, k: nat, j: nat)
    requires n < |es|
    ensures Reached(es, n + 1, k, j) <==> Reached(es, n, k, j) || Reaches(es[n], k, j)
  {
  }

  /** A step only ever adds a write at the end. */
  lemma WritesGrow(u: Upload, id: Id, max: nat, e: Event)
    requires Enabled(u, id, e)
    ensures u.writes <= Step(u, id, max, e).writes
    ensures !e.Chunk? ==> Step(u, id, max, e).writes == u.writes
    ensures e.Chunk? ==> |Step(u, id, max, e).writes| <= |u.writes| + 1 && Step(u, id, max, e).file == u.file
  {
  }

  lemma StepIssued(u: Upload, id: Id, max: nat, es: seq<Event>, n: nat, k: nat, j: nat)
    requires n < |es| && Enabled(u, id, es[n]) && (Reached(es, n, k, j) ==> k < |u.writes|)
    ensures Reached(es, n + 1, k, j) ==> k < |Step(u, id, max, es[n]).writes|
  {
    ReachedNext(es, n, k, j);
    WritesGrow(u, id, max, es[n]);
  }

  lemma RunStep(us: seq<Upload>, es: seq<Event>, id: Id, max: nat, i: nat)
    requires IsRun(us, es, id, max) && 0 < i < |us|
    ensures Enabled(us[i - 1], id, es[i - 1]) && us[i] == Step(us[i - 1], id, max, es[i - 1])
  {
  }

  /** Only writes that were issued can complete. */
  lemma {:induction false} ReachedIsIssued(us: seq<Upload>, es: seq<Event>, id: Id, max: nat, i: nat, k: nat, j: nat)
    requires IsRun(us, es, id, max) && i < |us|
    ensures Reached(es, i, k, j) ==> k < |us[i].writes|
  {
    if i > 0 {
      RunStep(us, es, id, max, i);
      ReachedIsIssued(us, es, id, max, i - 1, k, j);
      StepIssued(us[i - 1], id, max, es, i - 1, k, j);
    }
  }

  /** A write ends before each later one begins. */
  lemma {:induction false} OffsetsGrow(ws: seq<Write>, k: nat, m: nat)
    requires k < m <= |ws|
    ensures |Content(ws[..k])| + |ws[k].data| <= |Content(ws[..m])|
    decreases m
  {
    assert ws[..m] == ws[..m - 1] + [ws[m - 1]];
    ContentSnoc(ws[..m - 1], ws[m - 1]);
    if k < m - 1 {
      OffsetsGrow(ws, k, m - 1);
    }
  }

  /** No two writes share a place. */
  lemma PlacesAreDisjoint(ws: seq<Write>, k: nat, j: nat, m: nat)
    requires Tiled(ws) && k < |ws| && m < |ws| && j < |ws[k].data|
    requires ws[m].offset <= ws[k].offset + j < ws[m].offset + |ws[m].data|
    ensures k == m
  {
    if k < m { OffsetsGrow(ws, k, m); }
    if m < k { OffsetsGrow(ws, m, k); }
  }

  /** Writing part of write m puts there just the bytes of write m that it reaches. */
  lemma OverlayReaches(ws: seq<Write>, file: map<nat, byte>, k: nat, j: nat, m: nat, n: nat)
    requires Tiled(ws) && k < |ws| && j < |ws[k].data| && m < |ws| && n <= |ws[m].data|
    ensures ws[k].offset + j in Overlay(file, ws[m].offset, ws[m].data[..n]) <==>
            ws[k].offset + j in file || (k == m && j < n)
  {
    if ws[m].offset <= ws[k].offset + j < ws[m].offset + n {
      PlacesAreDisjoint(ws, k, j, m);
    }
  }

  lemma DoneReaches(u: Upload, m: nat, k: nat, j: nat)
    requires Tiled(u.writes) && m < |u.writes| && k < |u.writes| && j < |u.writes[k].data|
    ensures u.writes[k].offset + j in OnWriteDone(u, m).file <==> u.writes[k].offset + j in u.file || k == m
  {
    assert u.writes[m].data[..|u.writes[m].data|] == u.writes[m].data;
    OverlayReaches(u.writes, u.file, k, j, m, |u.writes[m].data|);
  }

  lemma FailedReaches(u: Upload, m: nat, written: nat, k: nat, j: nat)
    requires Tiled(u.writes) && m < |u.writes| && k < |u.writes| && j < |u.writes[k].data|
    requires written <= |u.writes[m].data|
    ensures u.writes[k].offset + j in OnWriteFailed(u, m, written).file <==>
            u.writes[k].offset + j in u.file || (k == m && j < written)
  {
    OverlayReaches(u.writes, u.file, k, j, m, written);
  }

  lemma StepReaches(u: Upload, id: Id, max: nat, e: Event, k: nat, j: nat)
    requires Tiled(u.writes) && Enabled(u, id, e) && k < |u.writes| && j < |u.writes[k].data|
    ensures u.writes[k].offset + j in Step(u, id, max, e).file <==>
            u.writes[k].offset + j in u.file || Reaches(e, k, j)
  {
    match e
    case WriteDone(m) => DoneReaches(u, m, k, j);
    case WriteFailed(m, written) => FailedReaches(u, m, written, k, j);
    case Chunk(_, _, _) => WritesGrow(u, id, max, e);
    case _ =>
  }

  /** What a run keeps, without the rest of the invariant. */
  lemma RunTiles(us: seq<Upload>, es: seq<Event>, id: Id, max: nat, i: nat)
    requires IsRun(us, es, id, max) && i < |us|
    ensures Tiled(us[i].writes) && InPlace(us[i].file, Content(us[i].writes))
    ensures i > 0 ==> Enabled(us[i - 1], id, es[i - 1]) && us[i] == Step(us[i - 1], id, max, es[i - 1])
    ensures i == 0 ==> us[i].writes == []
  {
    RunKeepsInv(us, es, id, max, i);
  }

  /** The bytes of a write that has just been issued are not in the file. */
  lemma NewWriteIsAbsent(u: Upload, v: Upload, k: nat, j: nat)
    requires InPlace(u.file, Content(u.writes)) && Tiled(v.writes) && u.writes <= v.writes && v.file == u.file
    requires k == |u.writes| < |v.writes| && j < |v.writes[k].data|
    ensures v.writes[k].offset + j !in v.file
  {
    assert v.writes[..k] == u.writes;
  }

  /** Byte j of write k is in the file if and only if one of the first `n` events put it there. */
  ghost predicate ThereIff(u: Upload, es: seq<Event>, n: nat, k: nat, j: nat)
    requires n <= |es|
  {
    && k < |u.writes| && j < |u.writes[k].data|
    && (u.writes[k].offset + j in u.file <==> Reached(es, n, k, j))
  }

  /** A byte of an accepted chunk is in the file if and only if its write has reached it. */
  lemma {:induction false} ByteIsThereIff(us: seq<Upload>, es: seq<Event>, id: Id, max: nat, i: nat, k: nat, j: nat)
    requires IsRun(us, es, id, max) && i < |us| && k < |us[i].writes| && j < |us[i].writes[k].data|
    ensures ThereIff(us[i], es, i, k, j)
  {
    RunTiles(us, es, id, max, i);
    if k < |us[i - 1].writes| {
      WriteStays(us, es, id, max, i, k);
      ByteIsThereIff(us, es, id, max, i - 1, k, j);
      OldByte(us, es, id, max, i, k, j);
    } else {
      NewByte(us, es, id, max, i, k, j);
    }
  }

  lemma OldByteStep(u: Upload, id: Id, max: nat, es: seq<Event>, n: nat, k: nat, j: nat)
    requires n < |es| && Tiled(u.writes) && Enabled(u, id, es[n]) && ThereIff(u, es, n, k, j)
    ensures ThereIff(Step(u, id, max, es[n]), es, n + 1, k, j)
  {
    WritesGrow(u, id, max, es[n]);
    StepReaches(u, id, max, es[n], k, j);
    ReachedNext(es, n, k, j);
  }

  lemma WriteStays(us: seq<Upload>, es: seq<Event>, id: Id, max: nat, i: nat, k: nat)
    requires IsRun(us, es, id, max) && 0 < i < |us| && k < |us[i - 1].writes|
    ensures k < |us[i].writes| && us[i].writes[k] == us[i - 1].writes[k]
  {
    RunStep(us, es, id, max, i);
    WritesGrow(us[i - 1], id, max, es[i - 1]);
  }

  lemma OldByte(us: seq<Upload>, es: seq<Event>, id: Id, max: nat, i: nat, k: nat, j: nat)
    requires IsRun(us, es, id, max) && 0 < i < |us| && ThereIff(us[i - 1], es, i - 1, k, j)
    ensures ThereIff(us[i], es, i, k, j)
  {
    RunTiles(us, es, id, max, i - 1);
    RunStep(us, es, id, max, i);
    OldByteStep(us[i - 1], id, max, es, i - 1, k, j);
  }

  lemma NewByteStep(u: Upload, id: Id, max: nat, es: seq<Event>, n: nat, k: nat, j: nat)
    requires n < |es| && Enabled(u, id, es[n]) && InPlace(u.file, Content(u.writes))
    requires var v := Step(u, id, max, es[n]);
      Tiled(v.writes) && |u.writes| <= k < |v.writes| && j < |v.writes[k].data|
    requires Reached(es, n, k, j) ==> k < |u.writes|
    ensures var v := Step(u, id, max, es[n]); v.writes[k].offset + j !in v.file && !Reached(es, n + 1, k, j)
  {
    WritesGrow(u, id, max, es[n]);
    NewWriteIsAbsent(u, Step(u, id, max, es[n]), k, j);
    ReachedNext(es, n, k, j);
  }

  lemma NewByte(us: seq<Upload>, es: seq<Event>, id: Id, max: nat, i: nat, k: nat, j: nat)
    requires IsRun(us, es, id, max) && 0 < i < |us|
    requires |us[i - 1].writes| <= k < |us[i].writes| && j < |us[i].writes[k].data|
    ensures us[i].writes[k].offset + j !in us[i].file && !Reached(es, i, k, j)
  {
    RunTiles(us, es, id, max, i - 1);
    RunTiles(us, es, id, max, i);
    ReachedIsIssued(us, es, id, max, i - 1, k, j);
    NewByteStep(us[i - 1], id, max, es, i - 1, k, j);
  }

  /** Every write was done or failed only after its last byte. */
  ghost predicate AllReached(us: seq<Upload>, es: seq<Event>, i: nat)
    requires i < |us| && i <= |es|
  {
    forall k: nat :: k < |us[i].writes| && us[i].writes[k].data != [] ==>
      Reached(es, i, k, |us[i].writes[k].data| - 1)
  }

  lemma WholeWriteLands(us: seq<Upload>, es: seq<Event>, id: Id, max: nat, i: nat, k: nat, j: nat)
    requires IsRun(us, es, id, max) && i < |us| && AllReached(us, es, i)
    requires k < |us[i].writes| && j < |us[i].writes[k].data|
    ensures us[i].writes[k].offset + j in us[i].file
  {
    var last: nat := |us[i].writes[k].data| - 1;
    var m :| 0 <= m < i && Reaches(es[m], k, last);
    assert Reaches(es[m], k, j);
    ByteIsThereIff(us, es, id, max, i, k, j);
  }

  lemma FullFile(file: map<nat, byte>, content: seq<byte>)
    requires InPlace(file, content) && forall p: nat :: p < |content| ==> p in file
    ensures file == FileOf(content)
  {
  }

  lemma ByteLands(us: seq<Upload>, es: seq<Event>, id: Id, max: nat, i: nat, p: nat)
    requires IsRun(us, es, id, max) && i < |us| && AllReached(us, es, i) && p < |Content(us[i].writes)|
    ensures p in us[i].file
  {
    RunTiles(us, es, id, max, i);
    var k := WriterOf(us[i].writes, p);
    WholeWriteLands(us, es, id, max, i, k, p - us[i].writes[k].offset);
  }

  lemma ReachedFillsFile(us: seq<Upload>, es: seq<Event>, id: Id, max: nat, i: nat)
    requires IsRun(us, es, id, max) && i < |us| && AllReached(us, es, i)
    ensures us[i].file == FileOf(Content(us[i].writes))
  {
    RunTiles(us, es, id, max, i);
    forall p: nat | p < |Content(us[i].writes)| ensures p in us[i].file {
      ByteLands(us, es, id, max, i, p);
    }
    FullFile(us[i].file, Content(us[i].writes));
  }

  lemma FilledIsReached(us: seq<Upload>, es: seq<Event>, id: Id, max: nat, i: nat, k: nat)
    requires IsRun(us, es, id, max) && i < |us| && us[i].file == FileOf(Content(us[i].writes))
    requires k < |us[i].writes| && us[i].writes[k].data != []
    ensures Reached(es, i, k, |us[i].writes[k].data| - 1)
  {
    var last: nat := |us[i].writes[k].data| - 1;
    RunTiles(us, es, id, max, i);
    ContentAt(us[i].writes, k, last);
    ByteIsThereIff(us, es, id, max, i, k, last);
  }

  /**
   At any moment, and so when the upload is reported complete, the file is the concatenation of the accepted
   chunks if and only if every write was done or failed only after its last byte.
   */
  lemma UploadDeliversIff(us: seq<Upload>, es: seq<Event>, id: Id, max: nat, i: nat)
    requires IsRun(us, es, id, max) && i < |us|
    ensures us[i].file == FileOf(Content(us[i].writes)) <==> AllReached(us, es, i)
  {
    if AllReached(us, es, i) {
      ReachedFillsFile(us, es, id, max, i);
    }
    if us[i].file == FileOf(Content(us[i].writes)) {
      forall k: nat | k < |us[i].writes| && us[i].writes[k].data != []
        ensures Reached(es, i, k, |us[i].writes[k].data| - 1)
      {
        FilledIsReached(us, es, id, max, i, k);
      }
    }
  }

  // ----- an upload reported complete with a hole ------------------------------------------------------

  function Fresh(id: Id, session: SessionId): Upload {
    Upload(map[id := Transfer(session, Active, 0, 0)], true, [], {}, {}, map[])
  }

  /** Two chunks in flight; the first write fails, the last one succeeds. */
  function HoleEvents(first: byte, second: byte): seq<Event> {
    [Chunk(0, [first], false), Chunk(1, [second], true), WriteFailed(0, 0), WriteDone(1)]
  }

  /**
   The first write fails, the write of the last chunk succeeds, the upload can be reported complete, and the
   first byte is not in the file.
   */
  lemma CompletesWithHole(id: Id, session: SessionId, max: nat, first: byte, second: byte) returns (us: seq<Upload>)
    ensures IsRun(us, HoleEvents(first, second), id, max)
    ensures Verdict(us[4].transfers, max, Complete(id)) == None && us[4].pending == {}
    ensures Content(us[4].writes) == [first, second] && us[4].file == map[1 := second]
  {
    var u0 := Fresh(id, session);
    var u1 := Step(u0, id, max, Chunk(0, [first], false));
    var u2 := Step(u1, id, max, Chunk(1, [second], true));
    var u3 := Step(u2, id, max, WriteFailed(0, 0));
    var u4 := Step(u3, id, max, WriteDone(1));
    var w0, w1 := Write(0, 0, [first], false), Write(1, 1, [second], true);
    assert u2.writes == [w0, w1] && u2.pending == {0, 1};
    assert [first][..0] == [] && u3.file == map[] && u4.file == map[1 := second];
    ContentSnoc([], w0);
    ContentSnoc([w0], w1);
    assert [] + [w0] == [w0] && [w0] + [w1] == [w0, w1] && Content([]) == [];
    us := [u0, u1, u2, u3, u4];
  }

  // ----- after a failed write -------------------------------------------------------------------------

  /** The upload is ended by its owner or the manager. */
  predicate Ends(e: Event, id: Id) {
    e.Finish? || e.Abort? || (e.Manage? && e.op.id == id)
  }

  lemma ClosedStaysPut(u: Upload, id: Id, max: nat, e: Event)
    requires Enabled(u, id, e) && !u.open && !Ends(e, id)
    ensures var v := Step(u, id, max, e);
      && !v.open && v.writes == u.writes
      && (id in u.transfers <==> id in v.transfers) && (id in u.transfers ==> v.transfers[id] == u.transfers[id])
  {
  }

  /**
   After a failed write no chunk is accepted any more, and until the upload is finished, cancelled or removed the
   transfer goes on counting against its session's cap.
   */
  lemma {:induction false} FailedUploadKeepsSlot(us: seq<Upload>, es: seq<Event>, id: Id, max: nat, i: nat, j: nat)
    requires IsRun(us, es, id, max) && i < j < |us| && es[i].WriteFailed?
    requires forall m :: i < m < j ==> !Ends(es[m], id)
    ensures !us[j].open && us[j].writes == us[i].writes
    ensures forall s :: id in LiveIds(us[i].transfers, s) <==> id in LiveIds(us[j].transfers, s)
  {
    if i + 1 < j {
      FailedUploadKeepsSlot(us, es, id, max, i, j - 1);
      ClosedStaysPut(us[j - 1], id, max, es[j - 1]);
    }
  }
}
