/**
 Uploading a file in chunks: the offset of each write, and what the file holds while and after the writes
 complete in whatever order. (app/services/sftp/sftp-service.ts, app/services/sftp/transfer-manager.ts)
 */
module Uploads {
  import opened Basics
  import opened Transfers

  // ----- the object: the chunk counters decide, the offset follows ------------------------------------

  datatype Answer = NoHandle | Refused(error: Error) | WriteAt(offset: nat)

  /** What a chunk of `length` bytes is answered with. */
  function Respond(ts: Table, open: bool, id: Id, index: int, length: nat): Answer {
    if !open then NoHandle
    else
      var error := Verdict(ts, 0, Update(id, index, length));
      if error.Some? then Refused(error.value) else WriteAt(ts[id].bytes)
  }

  class SftpUploads {
    const manager: TransferManager
    var handles: set<Id>

    constructor (manager: TransferManager)
      ensures this.manager == manager && handles == {}
    {
      this.manager := manager;
      handles := {};
    }

    method ProcessUploadChunk(id: Id, index: int, data: seq<byte>) returns (answer: Answer)
      modifies manager
      ensures answer == Respond(old(manager.transfers), id in handles, id, index, |data|)
      ensures manager.transfers ==
        if answer.WriteAt? then After(old(manager.transfers), manager.max, Update(id, index, |data|))
        else old(manager.transfers)
    {
      if id !in handles {
        return NoHandle;
      }
      var error := manager.UpdateProgress(id, index, |data|);
      if error.Some? {
        return Refused(error.value);
      }
      var transfer := manager.transfers[id];
      return WriteAt(transfer.bytes - |data|);
    }

    method CloseUpload(id: Id)
      modifies this
      ensures handles == old(handles) - {id}
    {
      handles := handles - {id};
    }

    method CompleteUpload(id: Id) returns (error: Option<Error>)
      modifies this, manager
      ensures error == Verdict(old(manager.transfers), manager.max, Complete(id))
      ensures manager.transfers == After(old(manager.transfers), manager.max, Complete(id))
      ensures handles == if error.Some? then old(handles) else old(handles) - {id}
    {
      error := manager.CompleteTransfer(id);
      if error.None? {
        CloseUpload(id);
      }
    }

    method CancelUpload(id: Id)
      modifies this, manager
      ensures manager.transfers == After(old(manager.transfers), manager.max, Cancel(id))
      ensures handles == old(handles) - {id}
    {
      CloseUpload(id);
      manager.CancelTransfer(id);
    }
  }

  // ----- one upload, its writes and its file ----------------------------------------------------------

  datatype Write = Write(index: int, offset: nat, data: seq<byte>, last: bool)

  /**
   One upload from the moment its file is open: the manager's table, whether the handle is still there, the
   writes issued, those still in flight, those that failed, and the remote file.
   */
  datatype Upload = Upload(transfers: Table, open: bool, writes: seq<Write>, pending: set<nat>, failed: set<nat>,
                           file: map<nat, byte>)

  /** What can happen; the writes complete in any order, and a failed one may have written some bytes. */
  datatype Event =
    | Chunk(index: int, data: seq<byte>, last: bool)
    | WriteDone(k: nat)
    | WriteFailed(k: nat, written: nat)
    | Finish
    | Abort
    | Manage(op: Op)

  /** `data` written into the file at an offset. */
  function Overlay(file: map<nat, byte>, offset: nat, data: seq<byte>): map<nat, byte> {
    file + (map p: nat | offset <= p < offset + |data| :: Placed(data, offset, p))
  }

  function Placed(data: seq<byte>, offset: nat, p: nat): byte
    requires offset <= p < offset + |data|
  {
    data[p - offset]
  }

  predicate Enabled(u: Upload, id: Id, e: Event) {
    match e
    case WriteDone(k) => k in u.pending && k < |u.writes|
    case WriteFailed(k, written) => k in u.pending && k < |u.writes| && written <= |u.writes[k].data|
    // Progress is only reported by the upload itself, and its id is not reused while it runs.
    case Manage(op) => op.id == id ==> !op.Update? && !op.Start?
    case _ => true
  }

  function OnChunk(u: Upload, id: Id, index: int, data: seq<byte>, last: bool): Upload {
    match Respond(u.transfers, u.open, id, index, |data|)
    case WriteAt(offset) =>
      u.(transfers := After(u.transfers, 0, Update(id, index, |data|)),
         writes := u.writes + [Write(index, offset, data, last)], pending := u.pending + {|u.writes|})
    case _ => u
  }

  function OnWriteDone(u: Upload, k: nat): Upload
    requires k < |u.writes|
  {
    var w := u.writes[k];
    u.(file := Overlay(u.file, w.offset, w.data), pending := u.pending - {k}, open := u.open && !w.last)
  }

  function OnWriteFailed(u: Upload, k: nat, written: nat): Upload
    requires k < |u.writes| && written <= |u.writes[k].data|
  {
    var w := u.writes[k];
    u.(file := Overlay(u.file, w.offset, w.data[..written]), pending := u.pending - {k}, failed := u.failed + {k},
       open := false)
  }

  function Step(u: Upload, id: Id, max: nat, e: Event): Upload
    requires Enabled(u, id, e)
  {
    match e
    case Chunk(index, data, last) => OnChunk(u, id, index, data, last)
    case WriteDone(k) => OnWriteDone(u, k)
    case WriteFailed(k, written) => OnWriteFailed(u, k, written)
    case Finish =>
      if Verdict(u.transfers, max, Complete(id)).Some? then u
      else u.(transfers := After(u.transfers, max, Complete(id)), open := false)
    case Abort => u.(transfers := After(u.transfers, max, Cancel(id)), open := false)
    case Manage(op) => u.(transfers := After(u.transfers, max, op))
  }

  /** The file was just opened, empty, and the transfer activated. */
  ghost predicate Opened(u: Upload, id: Id) {
    && id in u.transfers && u.transfers[id].status.Active? && u.transfers[id].bytes == u.transfers[id].next == 0
    && u.open && u.writes == [] && u.pending == u.failed == {} && u.file == map[]
  }

  /** `us` is a run through the events `es`. */
  ghost predicate IsRun(us: seq<Upload>, es: seq<Event>, id: Id, max: nat) {
    && |us| == |es| + 1 && Opened(us[0], id)
    && forall i :: 0 <= i < |es| ==> Enabled(us[i], id, es[i]) && us[i + 1] == Step(us[i], id, max, es[i])
  }

  // ----- what holds ---------------------------------------------------------------------------------

  function DataOf(ws: seq<Write>): seq<seq<byte>> {
    seq(|ws|, i requires 0 <= i < |ws| => ws[i].data)
  }

  /** The accepted chunks, one after the other. */
  function Content(ws: seq<Write>): seq<byte> {
    Concat(DataOf(ws))
  }

  function FileOf(content: seq<byte>): map<nat, byte> {
    map p: nat | p < |content| :: content[p]
  }

  /** Chunk k has index k and is written where the earlier chunks end. */
  ghost predicate Tiled(ws: seq<Write>) {
    forall k :: 0 <= k < |ws| ==> ws[k].index == k && ws[k].offset == |Content(ws[..k])|
  }

  /** The record counts what was accepted. */
  ghost predicate Counted(u: Upload, id: Id) {
    id in u.transfers ==> u.transfers[id].next == |u.writes| && u.transfers[id].bytes == |Content(u.writes)|
  }

  /** The bytes of write k are in the file. */
  ghost predicate Landed(u: Upload, k: nat)
    requires k < |u.writes|
  {
    forall p: nat :: u.writes[k].offset <= p < u.writes[k].offset + |u.writes[k].data| ==> p in u.file
  }

  /** The file holds nothing but bytes of the content in their places, and all those of completed writes. */
  ghost predicate Faithful(u: Upload) {
    && InPlace(u.file, Content(u.writes))
    && (forall k: nat :: k < |u.writes| && k !in u.pending && k !in u.failed ==> Landed(u, k))
  }

  ghost predicate Inv(u: Upload, id: Id) {
    Tiled(u.writes) && Counted(u, id) && Faithful(u)
    && forall k :: k in u.pending || k in u.failed ==> k < |u.writes|
  }

  lemma ContentSnoc(ws: seq<Write>, w: Write)
    ensures Content(ws + [w]) == Content(ws) + w.data
  {
    assert DataOf(ws + [w]) == DataOf(ws) + [w.data];
    ConcatSnoc(DataOf(ws), w.data);
  }

  /** All but the last write tile too, and their offsets are the same. */
  lemma TiledInit(ws: seq<Write>)
    requires Tiled(ws) && ws != []
    ensures var init, last := ws[..|ws| - 1], ws[|ws| - 1];
      Tiled(init) && Content(ws) == Content(init) + last.data && last.offset == |Content(init)|
  {
    var init := ws[..|ws| - 1];
    assert ws == init + [ws[|ws| - 1]];
    ContentSnoc(init, ws[|ws| - 1]);
    assert forall i :: 0 <= i <= |init| ==> init[..i] == ws[..i];
  }

  /** A write's bytes in the content. */
  lemma {:induction false} ContentAt(ws: seq<Write>, k: nat, j: nat)
    requires Tiled(ws) && k < |ws| && j < |ws[k].data|
    ensures ws[k].offset + j < |Content(ws)| && Content(ws)[ws[k].offset + j] == ws[k].data[j]
  {
    TiledInit(ws);
    if k < |ws| - 1 {
      ContentAt(ws[..|ws| - 1], k, j);
    }
  }

  /** Every place of the content belongs to a write. */
  lemma {:induction false} WriterOf(ws: seq<Write>, p: nat) returns (k: nat)
    requires Tiled(ws) && p < |Content(ws)|
    ensures k < |ws| && ws[k].offset <= p < ws[k].offset + |ws[k].data|
  {
    var init := ws[..|ws| - 1];
    TiledInit(ws);
    if p < |Content(init)| {
      k := WriterOf(init, p);
    } else {
      k := |init|;
    }
  }

  lemma TiledSnoc(ws: seq<Write>, w: Write)
    requires Tiled(ws) && w.index == |ws| && w.offset == |Content(ws)|
    ensures Tiled(ws + [w])
  {
    forall k | 0 <= k <= |ws| ensures (ws + [w])[..k] == ws[..k] { }
    assert ws[..|ws|] == ws;
  }

  /** What accepting a chunk changes. */
  lemma ChunkEffect(u: Upload, id: Id, index: int, data: seq<byte>, last: bool)
    requires Counted(u, id) && Respond(u.transfers, u.open, id, index, |data|).WriteAt?
    ensures var v, w := OnChunk(u, id, index, data, last), Write(index, |Content(u.writes)|, data, last);
      && index == |u.writes|
      && v.writes == u.writes + [w] && v.pending == u.pending + {|u.writes|} && v.failed == u.failed && v.file == u.file
      && id in u.transfers && v.transfers == u.transfers[id := Advance(u.transfers[id], |data|)]
  {
  }

  /** A new write in flight leaves the file faithful to the longer content. */
  lemma LongerKeepsFaithful(u: Upload, v: Upload, w: Write)
    requires Faithful(u) && v.writes == u.writes + [w] && v.file == u.file
    requires v.pending == u.pending + {|u.writes|} && v.failed == u.failed
    ensures Faithful(v)
  {
    ContentSnoc(u.writes, w);
    forall k: nat | k < |v.writes| && k !in v.pending && k !in v.failed ensures Landed(v, k) {
      assert Landed(u, k) && v.writes[k] == u.writes[k];
    }
  }

  lemma ChunkKeepsInv(u: Upload, id: Id, index: int, data: seq<byte>, last: bool)
    requires Inv(u, id)
    ensures Inv(OnChunk(u, id, index, data, last), id)
  {
    if Respond(u.transfers, u.open, id, index, |data|).WriteAt? {
      var w := Write(index, |Content(u.writes)|, data, last);
      ChunkEffect(u, id, index, data, last);
      TiledSnoc(u.writes, w);
      ContentSnoc(u.writes, w);
      LongerKeepsFaithful(u, OnChunk(u, id, index, data, last), w);
    }
  }

  /** Nothing in a file but bytes of the content in their places. */
  ghost predicate InPlace(file: map<nat, byte>, content: seq<byte>) {
    forall p: nat :: p in file ==> p < |content| && file[p] == content[p]
  }

  /** Writing a part of write k into its place keeps every byte in its place. */
  lemma OverlayFaithful(ws: seq<Write>, file: map<nat, byte>, k: nat, n: nat)
    requires Tiled(ws) && k < |ws| && n <= |ws[k].data| && InPlace(file, Content(ws))
    ensures InPlace(Overlay(file, ws[k].offset, ws[k].data[..n]), Content(ws))
  {
    var content, offset, part := Content(ws), ws[k].offset, ws[k].data[..n];
    var after := Overlay(file, offset, part);
    forall p: nat | p in after ensures p < |content| && after[p] == content[p] {
      if offset <= p < offset + n {
        ContentAt(ws, k, p - offset);
        assert after[p] == part[p - offset] == ws[k].data[p - offset];
      } else {
        assert p in file && after[p] == file[p];
      }
    }
  }

  lemma DoneKeepsInv(u: Upload, id: Id, k: nat)
    requires Inv(u, id) && k < |u.writes|
    ensures Inv(OnWriteDone(u, k), id)
  {
    assert u.writes[k].data[..|u.writes[k].data|] == u.writes[k].data;
    OverlayFaithful(u.writes, u.file, k, |u.writes[k].data|);
    var v := OnWriteDone(u, k);
    forall i: nat | i < |v.writes| && i !in v.pending && i !in v.failed ensures Landed(v, i) {
      if i != k { assert Landed(u, i); }
    }
  }

  lemma FailedKeepsInv(u: Upload, id: Id, k: nat, written: nat)
    requires Inv(u, id) && k < |u.writes| && written <= |u.writes[k].data|
    ensures Inv(OnWriteFailed(u, k, written), id)
  {
    OverlayFaithful(u.writes, u.file, k, written);
    var v := OnWriteFailed(u, k, written);
    forall i: nat | i < |v.writes| && i !in v.pending && i !in v.failed ensures Landed(v, i) {
      assert Landed(u, i);
    }
  }

  /** Operations on the table other than this upload's progress keep its counters. */
  lemma ManageKeepsCount(ts: Table, id: Id, max: nat, op: Op)
    requires op.id == id ==> !op.Update? && !op.Start?
    ensures id in After(ts, max, op) ==>
      id in ts && After(ts, max, op)[id].bytes == ts[id].bytes && After(ts, max, op)[id].next == ts[id].next
  {
  }

  lemma StepKeepsInv(u: Upload, id: Id, max: nat, e: Event)
    requires Inv(u, id) && Enabled(u, id, e)
    ensures Inv(Step(u, id, max, e), id)
  {
    match e
    case Chunk(index, data, last) => ChunkKeepsInv(u, id, index, data, last);
    case WriteDone(k) => DoneKeepsInv(u, id, k);
    case WriteFailed(k, written) => FailedKeepsInv(u, id, k, written);
    case Finish => SameWritesKeepInv(u, Step(u, id, max, e), id, max, Complete(id));
    case Abort => SameWritesKeepInv(u, Step(u, id, max, e), id, max, Cancel(id));
    case Manage(op) => SameWritesKeepInv(u, Step(u, id, max, e), id, max, op);
  }

  lemma SameWritesKeepInv(u: Upload, v: Upload, id: Id, max: nat, op: Op)
    requires Inv(u, id) && (op.id == id ==> !op.Update? && !op.Start?)
    requires v.transfers == After(u.transfers, max, op) || v.transfers == u.transfers
    requires v == u.(transfers := v.transfers, open := v.open)
    ensures Inv(v, id)
  {
    ManageKeepsCount(u.transfers, id, max, op);
    forall i: nat | i < |v.writes| && i !in v.pending && i !in v.failed ensures Landed(v, i) {
      assert Landed(u, i);
    }
  }

  lemma {:induction false} RunKeepsInv(us: seq<Upload>, es: seq<Event>, id: Id, max: nat, i: nat)
    requires IsRun(us, es, id, max) && i < |us|
    ensures Inv(us[i], id)
  {
    if i > 0 {
      RunKeepsInv(us, es, id, max, i - 1);
      StepKeepsInv(us[i - 1], id, max, es[i - 1]);
    }
  }

  // ----- the theorems -------------------------------------------------------------------------------

  /** At any moment of any run the accepted chunks are 0, 1, .., each at the sum of the earlier lengths. */
  lemma ChunksTileTheFile(us: seq<Upload>, es: seq<Event>, id: Id, max: nat, i: nat, k: nat)
    requires IsRun(us, es, id, max) && i < |us| && k < |us[i].writes|
    ensures us[i].writes[k].index == k && us[i].writes[k].offset == |Content(us[i].writes[..k])|
  {
    RunKeepsInv(us, es, id, max, i);
  }

  /**
   A chunk is accepted exactly when the handle is open, the transfer is active and the chunk is the next
   one; a chunk that is not accepted changes nothing.
   */
  lemma ChunkAcceptedIff(us: seq<Upload>, es: seq<Event>, id: Id, max: nat, i: nat)
    requires IsRun(us, es, id, max) && i < |es| && es[i].Chunk?
    ensures us[i + 1] != us[i] <==>
      us[i].open && id in us[i].transfers && us[i].transfers[id].status.Active? && es[i].index == |us[i].writes|
    ensures us[i + 1] != us[i] ==>
      us[i + 1].writes == us[i].writes + [Write(es[i].index, |Content(us[i].writes)|, es[i].data, es[i].last)]
  {
    RunKeepsInv(us, es, id, max, i);
    assert us[i + 1] == OnChunk(us[i], id, es[i].index, es[i].data, es[i].last);
    assert |us[i + 1].writes| > |us[i].writes| || us[i + 1] == us[i];
  }

  /** However far the writes have come, every byte in the file is the content's byte for that place. */
  lemma FileNeverHoldsForeignBytes(us: seq<Upload>, es: seq<Event>, id: Id, max: nat, i: nat, p: nat)
    requires IsRun(us, es, id, max) && i < |us| && p in us[i].file
    ensures p < |Content(us[i].writes)| && us[i].file[p] == Content(us[i].writes)[p]
  {
    RunKeepsInv(us, es, id, max, i);
  }

  /** Once no write is in flight and none failed, the file is the concatenation of the chunks. */
  lemma FileIsConcatenation(us: seq<Upload>, es: seq<Event>, id: Id, max: nat, i: nat)
    requires IsRun(us, es, id, max) && i < |us| && us[i].pending == us[i].failed == {}
    ensures us[i].file == FileOf(Content(us[i].writes))
  {
    var u := us[i];
    RunKeepsInv(us, es, id, max, i);
    forall p: nat | p < |Content(u.writes)| ensures p in u.file {
      var k := WriterOf(u.writes, p);
      assert Landed(u, k);
    }
  }

  /** The upload's handle is closed: a write failed, the last chunk's write is done, or the upload is ended. */
  predicate Closes(u: Upload, id: Id, e: Event)
    requires Enabled(u, id, e)
  {
    match e
    case WriteDone(k) => u.writes[k].last
    case WriteFailed(_, _) => true
    case Finish => id in u.transfers
    case Abort => true
    case _ => false
  }

  /** The handle is open if and only if nothing so far has closed it. */
  lemma {:induction false} HandleOpenIff(us: seq<Upload>, es: seq<Event>, id: Id, max: nat, i: nat)
    requires IsRun(us, es, id, max) && i < |us|
    ensures us[i].open <==> forall m :: 0 <= m < i ==> !Closes(us[m], id, es[m])
  {
    if i > 0 {
      HandleOpenIff(us, es, id, max, i - 1);
      assert us[i] == Step(us[i - 1], id, max, es[i - 1]);
    }
  }

  /** The upload's transfer leaves the table: the upload is finished or aborted, or the manager ends it. */
  predicate Removes(id: Id, e: Event) {
    || e.Finish? || e.Abort?
    || (e.Manage? && e.op.id == id && (e.op.Complete? || e.op.Cancel? || e.op.Fail?))
  }

  /** The upload's transfer is in the table if and only if nothing so far has removed it. */
  lemma {:induction false} TrackedIff(us: seq<Upload>, es: seq<Event>, id: Id, max: nat, i: nat)
    requires IsRun(us, es, id, max) && i < |us|
    ensures id in us[i].transfers <==> forall m :: 0 <= m < i ==> !Removes(id, es[m])
  {
    if i > 0 {
      TrackedIff(us, es, id, max, i - 1);
      assert us[i] == Step(us[i - 1], id, max, es[i - 1]) && Enabled(us[i - 1], id, es[i - 1]);
    }
  }
}
