/**
 The transfer table: which transfers a session has running, the cap on them, and the chunk counters.
 (app/services/sftp/transfer-manager.ts)
 */
module Transfers {
  import opened Basics

  datatype Id = Id(text: string)
  datatype SessionId = SessionId(text: string)

  /** A transfer that is completed, cancelled or failed leaves the table at once. */
  datatype Status = Pending | Active | Paused

  datatype Transfer = Transfer(session: SessionId, status: Status, bytes: nat, next: nat)

  datatype Error = NotFound | MaxTransfers | InvalidState | ChunkMismatch

  type Table = map<Id, Transfer>

  datatype Op =
    | Start(id: Id, session: SessionId)
    | Activate(id: Id)
    | Update(id: Id, index: int, length: nat)
    | Complete(id: Id)
    | Cancel(id: Id)
    | Fail(id: Id)
    | Pause(id: Id)
    | Resume(id: Id)

  predicate Live(t: Transfer) {
    t.status.Pending? || t.status.Active?
  }

  /** The pending and active transfers of a session. */
  function LiveIds(ts: Table, session: SessionId): set<Id> {
    set id | id in ts && ts[id].session == session && Live(ts[id])
  }

  /** The error of an operation that needs the transfer to be in a given state. */
  function Needs(ts: Table, id: Id, status: Status): Option<Error> {
    if id !in ts then Some(NotFound) else if ts[id].status != status then Some(InvalidState) else None
  }

  /** The error an operation is answered with, if any. */
  function Verdict(ts: Table, max: nat, op: Op): Option<Error> {
    match op
    case Start(id, session) =>
      if |LiveIds(ts, session)| >= max then Some(MaxTransfers)
      else if id in ts then Some(InvalidState)
      else None
    case Activate(id) => Needs(ts, id, Pending)
    case Update(id, index, _) =>
      var error := Needs(ts, id, Active);
      if error.None? && index != ts[id].next then Some(ChunkMismatch) else error
    case Complete(id) => if id in ts then None else Some(NotFound)
    case Cancel(id) => None
    case Fail(id) => if id in ts then None else Some(NotFound)
    case Pause(id) => Needs(ts, id, Active)
    case Resume(id) => Needs(ts, id, Paused)
  }

  function Begin(session: SessionId): Transfer {
    Transfer(session, Pending, 0, 0)
  }

  /** One more chunk. */
  function Advance(t: Transfer, length: nat): Transfer {
    t.(bytes := t.bytes + length, next := t.next + 1)
  }

  /** The table after an operation; a refused one changes nothing. */
  function After(ts: Table, max: nat, op: Op): Table {
    if Verdict(ts, max, op).Some? then ts
    else
      match op
      case Start(id, session) => ts[id := Begin(session)]
      case Activate(id) => ts[id := ts[id].(status := Active)]
      case Update(id, _, length) => ts[id := Advance(ts[id], length)]
      case Pause(id) => ts[id := ts[id].(status := Paused)]
      case Resume(id) => ts[id := ts[id].(status := Active)]
      case Complete(id) => ts - {id}
      case Cancel(id) => ts - {id}
      case Fail(id) => ts - {id}
  }

  // ----- the cap ----------------------------------------------------------------------------------

  ghost predicate Capped(ts: Table, max: nat) {
    forall s :: |LiveIds(ts, s)| <= max
  }

  /** A resume that is granted although the session is at the cap. */
  predicate Overruns(ts: Table, max: nat, op: Op) {
    op.Resume? && Verdict(ts, max, op).None? && |LiveIds(ts, ts[op.id].session)| >= max
  }

  lemma Grows(a: set<Id>, b: set<Id>, id: Id)
    requires a <= b + {id}
    ensures |a| <= |b| + 1 && (id in b || id !in a ==> |a| <= |b|)
  {
    if id in b || id !in a {
      assert a <= b;
      Subset(a, b);
    } else {
      Subset(a - {id}, b);
      assert |a| == |a - {id}| + 1;
    }
  }

  lemma {:induction false} Subset(a: set<Id>, b: set<Id>)
    requires a <= b
    ensures |a| <= |b|
  {
    if a != {} {
      var id :| id in a;
      Subset(a - {id}, b - {id});
    }
  }

  /** Which sessions' counts an operation can raise. */
  lemma LiveAfter(ts: Table, max: nat, op: Op, s: SessionId)
    ensures var us := After(ts, max, op);
      if Verdict(ts, max, op).None? && op.Start? && op.session == s
      then LiveIds(us, s) == LiveIds(ts, s) + {op.id} && op.id !in LiveIds(ts, s)
      else if Verdict(ts, max, op).None? && op.Resume? && ts[op.id].session == s
      then LiveIds(us, s) == LiveIds(ts, s) + {op.id} && op.id !in LiveIds(ts, s)
      else LiveIds(us, s) <= LiveIds(ts, s)
  {
  }

  lemma CountAfter(ts: Table, max: nat, op: Op, s: SessionId)
    ensures var before, after := |LiveIds(ts, s)|, |LiveIds(After(ts, max, op), s)|;
      && after <= before + 1
      && (after > before ==> Verdict(ts, max, op).None?
                             && ((op.Start? && before < max) || (op.Resume? && ts[op.id].session == s)))
      && (Verdict(ts, max, op).None? && op.Resume? && ts[op.id].session == s ==> after == before + 1)
  {
    LiveAfter(ts, max, op, s);
    if Verdict(ts, max, op).None? && (op.Start? || op.Resume?) {
      Grows(LiveIds(After(ts, max, op), s), LiveIds(ts, s), op.id);
    } else {
      Subset(LiveIds(After(ts, max, op), s), LiveIds(ts, s));
    }
  }

  /** One operation keeps the cap exactly unless it resumes a transfer of a session that is full. */
  lemma StepKeepsCapIff(ts: Table, max: nat, op: Op)
    requires Capped(ts, max)
    ensures Capped(After(ts, max, op), max) <==> !Overruns(ts, max, op)
  {
    forall s ensures |LiveIds(After(ts, max, op), s)| <= max || Overruns(ts, max, op) {
      CountAfter(ts, max, op, s);
    }
    if Overruns(ts, max, op) {
      var s := ts[op.id].session;
      CountAfter(ts, max, op, s);
      assert |LiveIds(After(ts, max, op), s)| > max;
    }
  }

  /** The table after a run of operations from the empty one. */
  function Run(max: nat, ops: seq<Op>): Table {
    if ops == [] then map[] else After(Run(max, ops[..|ops| - 1]), max, ops[|ops| - 1])
  }

  /** No step of the run is an overrun. */
  ghost predicate NeverOverruns(max: nat, ops: seq<Op>) {
    ops == [] ||
    var before := ops[..|ops| - 1];
    NeverOverruns(max, before) && !Overruns(Run(max, before), max, ops[|ops| - 1])
  }

  /** The cap holds after every prefix of the run. */
  ghost predicate AlwaysCapped(max: nat, ops: seq<Op>) {
    Capped(Run(max, ops), max) && (ops == [] || AlwaysCapped(max, ops[..|ops| - 1]))
  }

  /**
   Over any run the pending and active transfers of every session stay within the cap if and only if no
   resume is granted to a session that is already full.
   */
  lemma {:induction false} CapHoldsIff(max: nat, ops: seq<Op>)
    ensures AlwaysCapped(max, ops) <==> NeverOverruns(max, ops)
  {
    if ops == [] {
      assert forall s :: LiveIds(Run(max, ops), s) == {};
    } else {
      var before := ops[..|ops| - 1];
      CapHoldsIff(max, before);
      if AlwaysCapped(max, before) {
        StepKeepsCapIff(Run(max, before), max, ops[|ops| - 1]);
      }
    }
  }

  /** In particular without resumes the cap always holds. */
  lemma CapHoldsWithoutResume(max: nat, ops: seq<Op>, session: SessionId)
    requires forall op :: op in ops ==> !op.Resume?
    ensures |LiveIds(Run(max, ops), session)| <= max
  {
    NoResumeNoOverrun(max, ops);
    CapHoldsIff(max, ops);
  }

  lemma {:induction false} NoResumeNoOverrun(max: nat, ops: seq<Op>)
    requires forall op :: op in ops ==> !op.Resume?
    ensures NeverOverruns(max, ops)
  {
    if ops != [] {
      NoResumeNoOverrun(max, ops[..|ops| - 1]);
      assert ops[|ops| - 1] in ops;
    }
  }

  function Resumes(ops: seq<Op>): nat {
    if ops == [] then 0 else Resumes(ops[..|ops| - 1]) + (if ops[|ops| - 1].Resume? then 1 else 0)
  }

  /** With resumes, the excess is at most one transfer for each. */
  lemma {:induction false} ExcessIsBounded(max: nat, ops: seq<Op>, session: SessionId)
    ensures |LiveIds(Run(max, ops), session)| <= max + Resumes(ops)
  {
    if ops == [] {
      assert LiveIds(Run(max, ops), session) == {};
    } else {
      var n := |ops| - 1;
      ExcessIsBounded(max, ops[..n], session);
      CountAfter(Run(max, ops[..n]), max, ops[n], session);
    }
  }

  /** A cap of one and two active transfers: pause the first, start the second, resume the first. */
  lemma ResumeBreaksCap(a: Id, b: Id, s: SessionId)
    requires a != b
    ensures LiveIds(Run(1, [Start(a, s), Activate(a), Pause(a), Start(b, s), Activate(b), Resume(a)]), s) == {a, b}
  {
    var active, paused := Begin(s).(status := Active), Begin(s).(status := Paused);
    var first := [Start(a, s), Activate(a), Pause(a)];
    RunSnoc(1, [], Start(a, s));
    RunSnoc(1, [Start(a, s)], Activate(a));
    RunSnoc(1, [Start(a, s), Activate(a)], Pause(a));
    assert [] + [Start(a, s)] == [Start(a, s)] && LiveIds(map[], s) == {};
    assert [Start(a, s)] + [Activate(a)] == [Start(a, s), Activate(a)];
    assert [Start(a, s), Activate(a)] + [Pause(a)] == first;
    assert Run(1, first) == map[a := paused] && LiveIds(map[a := paused], s) == {};
    RunSnoc(1, first, Start(b, s));
    RunSnoc(1, first + [Start(b, s)], Activate(b));
    RunSnoc(1, first + [Start(b, s)] + [Activate(b)], Resume(a));
    assert Run(1, first + [Start(b, s)] + [Activate(b)]) == map[a := paused, b := active];
    assert LiveIds(map[a := active, b := active], s) == {a, b};
    assert first + [Start(b, s)] + [Activate(b)] + [Resume(a)]
      == [Start(a, s), Activate(a), Pause(a), Start(b, s), Activate(b), Resume(a)];
  }

  lemma RunSnoc(max: nat, ops: seq<Op>, op: Op)
    ensures ops + [op] != [] && Run(max, ops + [op]) == After(Run(max, ops), max, op)
  {
    assert (ops + [op])[..|ops|] == ops;
  }

  // ----- the life of one transfer -----------------------------------------------------------------

  /** What the granted operations say of one id: whether it is in the table, in which state, and its chunks. */
  datatype Life = Gone | Life(session: SessionId, status: Status, chunks: seq<nat>)

  /** Waiting, running, held back and running again; any of them can end. */
  predicate Permits(l: Life, op: Op, full: bool) {
    match op
    case Start(_, _) => l.Gone? && !full
    case Activate(_) => l.Life? && l.status == Pending
    case Pause(_) => l.Life? && l.status == Active
    case Resume(_) => l.Life? && l.status == Paused
    case Update(_, index, _) => l.Life? && l.status == Active && index == |l.chunks|
    case _ => l.Life?
  }

  function Onward(l: Life, op: Op): Life
    requires op.Start? || l.Life?
  {
    match op
    case Start(_, session) => Life(session, Pending, [])
    case Activate(_) => l.(status := Active)
    case Pause(_) => l.(status := Paused)
    case Resume(_) => l.(status := Active)
    case Update(_, _, length) => l.(chunks := l.chunks + [length])
    case _ => Gone
  }

  /** Whether the session of a start has no place left. */
  predicate Full(ts: Table, max: nat, op: Op) {
    op.Start? && |LiveIds(ts, op.session)| >= max
  }

  function LifeOf(max: nat, ops: seq<Op>, id: Id): Life {
    if ops == [] then Gone
    else
      var n := |ops| - 1;
      var before := LifeOf(max, ops[..n], id);
      if ops[n].id == id && Permits(before, ops[n], Full(Run(max, ops[..n]), max, ops[n])) then Onward(before, ops[n])
      else before
  }

  function Sum(lengths: seq<nat>): nat {
    if lengths == [] then 0 else Sum(lengths[..|lengths| - 1]) + lengths[|lengths| - 1]
  }

  lemma SumSnoc(lengths: seq<nat>, length: nat)
    ensures Sum(lengths + [length]) == Sum(lengths) + length
  {
    assert (lengths + [length])[..|lengths|] == lengths;
  }

  /** The table's entry of an id is what its life says. */
  ghost predicate Records(ts: Table, id: Id, l: Life) {
    if l.Gone? then id !in ts
    else id in ts && ts[id] == Transfer(l.session, l.status, Sum(l.chunks), |l.chunks|)
  }

  lemma StepRecords(ts: Table, max: nat, op: Op, id: Id, l: Life)
    requires Records(ts, id, l)
    ensures Records(After(ts, max, op), id,
                    if op.id == id && Permits(l, op, Full(ts, max, op)) then Onward(l, op) else l)
    ensures op.id == id ==>
      Verdict(ts, max, op) ==
        if Permits(l, op, Full(ts, max, op)) || op.Cancel? then None
        else if Full(ts, max, op) then Some(MaxTransfers)
        else if l.Gone? then Some(NotFound)
        else if op.Update? && l.status == Active then Some(ChunkMismatch)
        else Some(InvalidState)
  {
    if op.Update? && l.Life? {
      SumSnoc(l.chunks, op.length);
    }
  }

  /**
   Over any run each transfer lives by its own operations alone: started when its session has a place left, pending,
   active once activated, paused and resumed in turn, its counters the number and the sum of the chunks accepted
   while active; and gone from the table once completed, cancelled or failed. The next operation is granted or
   refused, and for which reason, as that life says.
   */
  lemma {:induction false} RunTellsLives(max: nat, ops: seq<Op>, id: Id, next: Op)
    ensures Records(Run(max, ops), id, LifeOf(max, ops, id))
    ensures next.id == id ==>
      var ts, l := Run(max, ops), LifeOf(max, ops, id);
      Verdict(ts, max, next) ==
        if Permits(l, next, Full(ts, max, next)) || next.Cancel? then None
        else if Full(ts, max, next) then Some(MaxTransfers)
        else if l.Gone? then Some(NotFound)
        else if next.Update? && l.status == Active then Some(ChunkMismatch)
        else Some(InvalidState)
  {
    if ops != [] {
      var n := |ops| - 1;
      RunTellsLives(max, ops[..n], id, next);
      StepRecords(Run(max, ops[..n]), max, ops[n], id, LifeOf(max, ops[..n], id));
    }
    StepRecords(Run(max, ops), max, next, id, LifeOf(max, ops, id));
  }

  /** Completing, cancelling or failing a transfer frees its place, so that within the cap another can start. */
  lemma EndFreesPlace(ts: Table, max: nat, op: Op, other: Op)
    requires (op.Complete? || op.Cancel? || op.Fail?) && op.id in ts && Live(ts[op.id])
    requires other.Start? && other.session == ts[op.id].session && other.id !in ts
    ensures var us, s := After(ts, max, op), other.session;
      && (forall id :: id in us <==> id in ts && id != op.id) && (forall id :: id in us ==> us[id] == ts[id])
      && LiveIds(us, s) == LiveIds(ts, s) - {op.id} && |LiveIds(us, s)| == |LiveIds(ts, s)| - 1
      && (|LiveIds(ts, s)| <= max ==> Verdict(us, max, other).None?)
  {
    assert op.id in LiveIds(ts, other.session);
    assert LiveIds(After(ts, max, op), other.session) == LiveIds(ts, other.session) - {op.id};
  }

  // ----- the object -------------------------------------------------------------------------------

  class TransferManager {
    var transfers: Table
    const max: nat

    constructor (max: nat)
      ensures transfers == map[] && this.max == max
    {
      this.max := max;
      transfers := map[];
    }

    method GetActiveCount(session: SessionId) returns (count: nat)
      ensures count == |LiveIds(transfers, session)|
    {
      count := 0;
      ghost var seen: set<Id> := {};
      var todo := transfers.Keys;
      while todo != {}
        invariant todo <= transfers.Keys && seen == LiveIds(transfers, session) - todo && count == |seen|
        decreases todo
      {
        var id :| id in todo;
        assert id in LiveIds(transfers, session) <==> transfers[id].session == session && Live(transfers[id]);
        if transfers[id].session == session && Live(transfers[id]) {
          count, seen := count + 1, seen + {id};
        }
        todo := todo - {id};
      }
      assert seen == LiveIds(transfers, session);
    }

    method StartTransfer(id: Id, session: SessionId) returns (error: Option<Error>)
      modifies this
      ensures error == Verdict(old(transfers), max, Start(id, session))
      ensures transfers == After(old(transfers), max, Start(id, session))
    {
      var active := GetActiveCount(session);
      if active >= max {
        return Some(MaxTransfers);
      }
      if id in transfers {
        return Some(InvalidState);
      }
      transfers := transfers[id := Begin(session)];
      return None;
    }

    method ActivateTransfer(id: Id) returns (error: Option<Error>)
      modifies this
      ensures error == Verdict(old(transfers), max, Activate(id))
      ensures transfers == After(old(transfers), max, Activate(id))
    {
      if id !in transfers {
        return Some(NotFound);
      }
      if !transfers[id].status.Pending? {
        return Some(InvalidState);
      }
      transfers := transfers[id := transfers[id].(status := Active)];
      return None;
    }

    method UpdateProgress(id: Id, index: int, length: nat) returns (error: Option<Error>)
      modifies this
      ensures error == Verdict(old(transfers), max, Update(id, index, length))
      ensures transfers == After(old(transfers), max, Update(id, index, length))
    {
      if id !in transfers {
        return Some(NotFound);
      }
      if !transfers[id].status.Active? {
        return Some(InvalidState);
      }
      if index != transfers[id].next {
        return Some(ChunkMismatch);
      }
      transfers := transfers[id := Advance(transfers[id], length)];
      return None;
    }

    method CompleteTransfer(id: Id) returns (error: Option<Error>)
      modifies this
      ensures error == Verdict(old(transfers), max, Complete(id))
      ensures transfers == After(old(transfers), max, Complete(id))
    {
      if id !in transfers {
        return Some(NotFound);
      }
      transfers := transfers - {id};
      return None;
    }

    method CancelTransfer(id: Id)
      modifies this
      ensures transfers == After(old(transfers), max, Cancel(id))
    {
      if id in transfers {
        transfers := transfers - {id};
      }
    }

    method FailTransfer(id: Id) returns (error: Option<Error>)
      modifies this
      ensures error == Verdict(old(transfers), max, Fail(id))
      ensures transfers == After(old(transfers), max, Fail(id))
    {
      if id !in transfers {
        return Some(NotFound);
      }
      transfers := transfers - {id};
      return None;
    }

    method PauseTransfer(id: Id) returns (error: Option<Error>)
      modifies this
      ensures error == Verdict(old(transfers), max, Pause(id))
      ensures transfers == After(old(transfers), max, Pause(id))
    {
      if id !in transfers {
        return Some(NotFound);
      }
      if !transfers[id].status.Active? {
        return Some(InvalidState);
      }
      transfers := transfers[id := transfers[id].(status := Paused)];
      return None;
    }

    method ResumeTransfer(id: Id) returns (error: Option<Error>)
      modifies this
      ensures error == Verdict(old(transfers), max, Resume(id))
      ensures transfers == After(old(transfers), max, Resume(id))
    {
      if id !in transfers {
        return Some(NotFound);
      }
      if !transfers[id].status.Paused? {
        return Some(InvalidState);
      }
      transfers := transfers[id := transfers[id].(status := Active)];
      return None;
    }
  }
}
