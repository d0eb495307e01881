/**
 Connecting over SSH as a race of ready, error, close, timeout, a synchronous throw and a disconnect, any
 number of attempts sharing one pool. (app/services/ssh/ssh-service.ts, app/services/ssh/connection-handlers.ts)
 */
module ConnectRace {
  import opened Basics
  import opened ConnectionPool

  datatype Result = Connected | Failed

  datatype Status = Connecting | Established | Errored

  datatype Dispatch =
    | ConnectionEstablished(id: Id)
    | ConnectionError(id: Id)
    | ConnectionClosed(id: Id)

  /** One attempt: its guard, every value its promise was resolved with, and the client's state. */
  datatype Attempt = Attempt(session: SessionId, settled: bool, results: seq<Result>, status: Status, ended: bool)

  datatype Event =
    | Start(id: Id, session: SessionId)
    | Ready(id: Id)
    | Error(id: Id)
    | Close(id: Id)
    | Timeout(id: Id)
    | Throw(id: Id)
    | Disconnect(id: Id)

  datatype World = World(pool: Pool, attempts: map<Id, Attempt>, dispatched: seq<Dispatch>)

  const NOBODY: World := World(Pool(map[], map[]), map[], [])

  /** What a handler changes. */
  datatype Change = Change(pool: Pool, attempt: Attempt, dispatched: seq<Dispatch>)

  function Settle(a: Attempt, result: Result): Attempt {
    if a.settled then a else a.(settled := true, results := a.results + [result])
  }

  function OnReady(p: Pool, a: Attempt, id: Id): Change {
    if a.settled then Change(p, a, [])
    else Change(Add(p, id, a.session), Settle(a.(status := Established), Connected), [ConnectionEstablished(id)])
  }

  function OnError(p: Pool, a: Attempt, id: Id): Change {
    Change(p, Settle(a.(status := Errored), Failed), [ConnectionError(id)])
  }

  function OnClose(p: Pool, a: Attempt, id: Id): Change {
    Change(Remove(p, id), a, [ConnectionClosed(id)])
  }

  function OnTimeout(p: Pool, a: Attempt, id: Id): Change {
    if a.settled then Change(p, a, [])
    else Change(Remove(p, id), Settle(a.(ended := true), Failed), [])
  }

  /** `disconnect` of a pooled connection; of any other id it does nothing. */
  function OnDisconnect(p: Pool, a: Attempt, id: Id): Change {
    if id in p.connections then Change(Remove(p, id), a.(ended := true), [ConnectionClosed(id)])
    else Change(p, a, [])
  }

  predicate Enabled(w: World, e: Event) {
    if e.Start? then e.id !in w.attempts else e.id in w.attempts
  }

  function React(w: World, e: Event): Change
    requires Enabled(w, e)
  {
    match e
    case Start(_, session) => Change(w.pool, Attempt(session, false, [], Connecting, false), [])
    case Ready(id) => OnReady(w.pool, w.attempts[id], id)
    case Error(id) => OnError(w.pool, w.attempts[id], id)
    case Close(id) => OnClose(w.pool, w.attempts[id], id)
    case Timeout(id) => OnTimeout(w.pool, w.attempts[id], id)
    case Throw(id) => Change(w.pool, Settle(w.attempts[id], Failed), [])
    case Disconnect(id) => OnDisconnect(w.pool, w.attempts[id], id)
  }

  function Step(w: World, e: Event): World
    requires Enabled(w, e)
  {
    var c := React(w, e);
    World(c.pool, w.attempts[e.id := c.attempt], w.dispatched + c.dispatched)
  }

  ghost predicate IsRun(events: seq<Event>)
    decreases |events|, 0
  {
    events == [] ||
    (IsRun(events[..|events| - 1]) && Enabled(Run(events[..|events| - 1]), events[|events| - 1]))
  }

  ghost function Run(events: seq<Event>): World
    requires IsRun(events)
    decreases |events|, 1
  {
    if events == [] then NOBODY else Step(Run(events[..|events| - 1]), events[|events| - 1])
  }

  // ----- the invariant --------------------------------------------------------------------------

  function EstablishedCount(log: seq<Dispatch>, id: Id): nat {
    if log == [] then 0
    else EstablishedCount(log[..|log| - 1], id) + (if log[|log| - 1] == ConnectionEstablished(id) then 1 else 0)
  }

  /** Established and not closed since, as the dispatched actions tell. */
  predicate Live(log: seq<Dispatch>, id: Id) {
    if log == [] then false
    else if log[|log| - 1] == ConnectionEstablished(id) then true
    else if log[|log| - 1] == ConnectionClosed(id) then false
    else Live(log[..|log| - 1], id)
  }

  /** The session an id is pooled under, if it is pooled. */
  function Pooled(p: Pool, id: Id): Option<SessionId> {
    if id in p.connections then Some(p.connections[id]) else None
  }

  /** One attempt's books. */
  ghost predicate Books(a: Attempt, pooled: Option<SessionId>, log: seq<Dispatch>, id: Id) {
    && (a.settled <==> a.results != []) && |a.results| <= 1
    && EstablishedCount(log, id) == (if a.results == [Connected] then 1 else 0)
    && (Live(log, id) <==> pooled.Some?)
    && (pooled.Some? ==> a.results == [Connected] && pooled.value == a.session)
  }

  ghost predicate Sound(w: World, id: Id) {
    if id in w.attempts then Books(w.attempts[id], Pooled(w.pool, id), w.dispatched, id)
    else Pooled(w.pool, id) == None && EstablishedCount(w.dispatched, id) == 0 && !Live(w.dispatched, id)
  }

  ghost predicate Inv(w: World) {
    Indexed(w.pool) && forall id :: Sound(w, id)
  }

  lemma LogSnoc(log: seq<Dispatch>, d: Dispatch, id: Id)
    ensures EstablishedCount(log + [d], id)
         == EstablishedCount(log, id) + (if d == ConnectionEstablished(id) then 1 else 0)
    ensures Live(log + [d], id)
       <==> d == ConnectionEstablished(id) || (d != ConnectionClosed(id) && Live(log, id))
  {
    assert (log + [d])[..|log|] == log;
  }

  lemma SettleOnce(a: Attempt, result: Result)
    requires !a.settled && a.results == []
    ensures Settle(a, result).settled && Settle(a, result).results == [result]
    ensures [Failed] != [Connected]
  {
    assert [] + [result] == [result] && [Failed][0] != [Connected][0];
  }

  lemma ReadyKeepsBooks(a: Attempt, log: seq<Dispatch>, id: Id)
    requires Books(a, None, log, id) && !a.settled
    ensures Books(Settle(a.(status := Established), Connected), Some(a.session), log + [ConnectionEstablished(id)], id)
  {
    SettleOnce(a.(status := Established), Connected);
    LogSnoc(log, ConnectionEstablished(id), id);
  }

  /** Settling with a failure, whether it comes first or not. */
  lemma FailureKeepsBooks(a: Attempt, pooled: Option<SessionId>, log: seq<Dispatch>, id: Id)
    requires Books(a, pooled, log, id)
    ensures Books(Settle(a, Failed), pooled, log, id)
  {
    if !a.settled {
      SettleOnce(a, Failed);
    }
  }

  lemma ErrorKeepsBooks(a: Attempt, pooled: Option<SessionId>, log: seq<Dispatch>, id: Id)
    requires Books(a, pooled, log, id)
    ensures Books(a, pooled, log + [ConnectionError(id)], id)
  {
    LogSnoc(log, ConnectionError(id), id);
  }

  lemma ClosedKeepsBooks(a: Attempt, pooled: Option<SessionId>, log: seq<Dispatch>, id: Id)
    requires Books(a, pooled, log, id)
    ensures Books(a, None, log + [ConnectionClosed(id)], id)
  {
    LogSnoc(log, ConnectionClosed(id), id);
  }

  /** An event of one attempt leaves the others' pool entries and dispatches alone. */
  lemma OthersUntouched(w: World, e: Event, id: Id)
    requires Enabled(w, e) && id != e.id
    ensures Pooled(React(w, e).pool, id) == Pooled(w.pool, id)
    ensures |React(w, e).dispatched| <= 1 && forall d :: d in React(w, e).dispatched ==> d.id == e.id
  {
  }

  lemma OthersKeepSound(w: World, e: Event, id: Id)
    requires Sound(w, id) && Enabled(w, e) && id != e.id
    ensures Sound(Step(w, e), id)
  {
    var c := React(w, e);
    OthersUntouched(w, e, id);
    if c.dispatched == [] {
      assert w.dispatched + [] == w.dispatched;
    } else {
      assert c.dispatched == [c.dispatched[0]];
      LogSnoc(w.dispatched, c.dispatched[0], id);
    }
  }

  lemma OwnKeepsSound(w: World, e: Event)
    requires Sound(w, e.id) && Enabled(w, e)
    ensures Sound(Step(w, e), e.id)
  {
    var id, log := e.id, w.dispatched;
    assert log + [] == log;
    match e
    case Start(_, _) =>
    case Ready(_) => if !w.attempts[id].settled { ReadyKeepsBooks(w.attempts[id], log, id); }
    case Error(_) =>
      var a := w.attempts[id].(status := Errored);
      FailureKeepsBooks(a, Pooled(w.pool, id), log, id);
      ErrorKeepsBooks(Settle(a, Failed), Pooled(w.pool, id), log, id);
    case Close(_) => ClosedKeepsBooks(w.attempts[id], Pooled(w.pool, id), log, id);
    case Timeout(_) => FailureKeepsBooks(w.attempts[id].(ended := true), Pooled(w.pool, id), log, id);
    case Throw(_) => FailureKeepsBooks(w.attempts[id], Pooled(w.pool, id), log, id);
    case Disconnect(_) => ClosedKeepsBooks(w.attempts[id].(ended := true), Pooled(w.pool, id), log, id);
  }

  lemma StepKeepsSound(w: World, e: Event, id: Id)
    requires Inv(w) && Enabled(w, e)
    ensures Sound(Step(w, e), id)
  {
    assert Sound(w, id) && Sound(w, e.id);
    if id == e.id {
      OwnKeepsSound(w, e);
    } else {
      OthersKeepSound(w, e, id);
    }
  }

  lemma StepKeepsIndex(w: World, e: Event)
    requires Inv(w) && Enabled(w, e)
    ensures Indexed(Step(w, e).pool)
  {
    assert Sound(w, e.id);
    RemoveKeepsIndex(w.pool, e.id);
    if e.Ready? && !w.attempts[e.id].settled {
      AddKeepsIndexIff(w.pool, e.id, w.attempts[e.id].session);
    }
  }

  lemma {:induction false} RunKeepsInv(events: seq<Event>)
    requires IsRun(events)
    ensures Inv(Run(events))
  {
    if events != [] {
      var n := |events| - 1;
      RunKeepsInv(events[..n]);
      StepKeepsIndex(Run(events[..n]), events[n]);
      forall id ensures Sound(Run(events), id) {
        StepKeepsSound(Run(events[..n]), events[n], id);
      }
    }
  }

  // ----- what every interleaving guarantees --------------------------------------------------------

  /** Each connect promise is resolved at most once. */
  lemma SettlesAtMostOnce(events: seq<Event>, id: Id)
    requires IsRun(events) && id in Run(events).attempts
    ensures |Run(events).attempts[id].results| <= 1
  {
    RunKeepsInv(events);
    assert Sound(Run(events), id);
  }

  /**
   CONNECTION_ESTABLISHED is dispatched exactly once for an attempt that resolved to a connection and
   never for one that failed or is pending; and only the former can be in the pool, which it is exactly
   from then until a close or a disconnect.
   */
  lemma EstablishedIffConnected(events: seq<Event>, id: Id)
    requires IsRun(events) && id in Run(events).attempts
    ensures var w := Run(events);
      && EstablishedCount(w.dispatched, id) == (if w.attempts[id].results == [Connected] then 1 else 0)
      && (id in w.pool.connections <==> Live(w.dispatched, id))
      && (id in w.pool.connections ==> w.attempts[id].results == [Connected])
  {
    RunKeepsInv(events);
    assert Sound(Run(events), id);
  }

  /** With fresh ids the session index always equals the pool filtered by session. */
  lemma IndexIsFilteredPool(events: seq<Event>, session: SessionId)
    requires IsRun(events)
    ensures var p := Run(events).pool;
      && (session in p.sessions <==> IdsOf(p, session) != {})
      && (session in p.sessions ==> p.sessions[session] == IdsOf(p, session))
  {
    RunKeepsInv(events);
    var p := Run(events).pool;
    if id :| id in IdsOf(p, session) {
      assert p.connections[id] in p.sessions;
    }
  }

  /** The removal a timeout makes before settling never finds anything to remove. */
  lemma TimeoutRemovesNothing(events: seq<Event>, id: Id)
    requires IsRun(events) && id in Run(events).attempts && !Run(events).attempts[id].settled
    ensures Remove(Run(events).pool, id) == Run(events).pool
  {
    RunKeepsInv(events);
    assert Sound(Run(events), id);
  }

  // ----- the first event decides ------------------------------------------------------------------

  /** What an event says of an attempt that is still pending. */
  function Settling(e: Event, id: Id): Option<Result> {
    if e == Ready(id) then Some(Connected)
    else if e == Error(id) || e == Timeout(id) || e == Throw(id) then Some(Failed)
    else None
  }

  /** The first ready, error, timeout or throw of an id. */
  function Deciding(events: seq<Event>, id: Id): Option<Event> {
    if events == [] then None
    else
      var n := |events| - 1;
      var earlier := Deciding(events[..n], id);
      if earlier.Some? then earlier else if Settling(events[n], id).Some? then Some(events[n]) else None
  }

  /** Decided by a ready, and neither closed nor disconnected since. */
  function IsOpen(events: seq<Event>, id: Id): bool {
    if events == [] then false
    else
      var n := |events| - 1;
      if events[n] == Ready(id) && Deciding(events[..n], id).None? then true
      else events[n] != Close(id) && events[n] != Disconnect(id) && IsOpen(events[..n], id)
  }

  /** Some disconnect found the connection open. */
  function Hung(events: seq<Event>, id: Id): bool {
    if events == [] then false
    else
      var n := |events| - 1;
      Hung(events[..n], id) || (events[n] == Disconnect(id) && IsOpen(events[..n], id))
  }

  /** What is dispatched for one event, given those before it. */
  function Told(before: seq<Event>, e: Event): seq<Dispatch> {
    match e
    case Ready(id) => if Deciding(before, id).None? then [ConnectionEstablished(id)] else []
    case Error(id) => [ConnectionError(id)]
    case Close(id) => [ConnectionClosed(id)]
    case Disconnect(id) => if IsOpen(before, id) then [ConnectionClosed(id)] else []
    case _ => []
  }

  function Story(events: seq<Event>): seq<Dispatch> {
    if events == [] then []
    else
      var n := |events| - 1;
      Story(events[..n]) + Told(events[..n], events[n])
  }

  /** An attempt with these events behind it. */
  ghost predicate AttemptTold(a: Attempt, events: seq<Event>, id: Id) {
    var first := Deciding(events, id);
    && Start(id, a.session) in events
    && a.settled == first.Some? && (Error(id) in events ==> first.Some?)
    && (IsOpen(events, id) ==> first == Some(Ready(id)))
    && a.results == (if first.None? then [] else if first.value == Ready(id) then [Connected] else [Failed])
    && a.status == (if Error(id) in events then Errored
                    else if first == Some(Ready(id)) then Established else Connecting)
    && a.ended == (first == Some(Timeout(id)) || Hung(events, id))
  }

  ghost predicate AsTold(w: World, events: seq<Event>, id: Id) {
    if id in w.attempts then
      && AttemptTold(w.attempts[id], events, id)
      && Pooled(w.pool, id) == (if IsOpen(events, id) then Some(w.attempts[id].session) else None)
    else
      && (forall e :: e in events ==> e.id != id)
      && Deciding(events, id).None? && !IsOpen(events, id) && !Hung(events, id) && Pooled(w.pool, id) == None
  }

  lemma ToldSnoc(before: seq<Event>, e: Event, id: Id)
    ensures var events := before + [e];
      && Deciding(events, id) == (if Deciding(before, id).Some? then Deciding(before, id)
                                  else if Settling(e, id).Some? then Some(e) else None)
      && (IsOpen(events, id) <==> (e == Ready(id) && Deciding(before, id).None?)
                                  || (e != Close(id) && e != Disconnect(id) && IsOpen(before, id)))
      && Hung(events, id) == (Hung(before, id) || (e == Disconnect(id) && IsOpen(before, id)))
      && Story(events) == Story(before) + Told(before, e)
  {
    assert (before + [e])[..|before|] == before;
  }

  lemma ReadyTold(p: Pool, a: Attempt, before: seq<Event>, id: Id)
    requires AttemptTold(a, before, id)
    ensures AttemptTold(OnReady(p, a, id).attempt, before + [Ready(id)], id)
  {
    ToldSnoc(before, Ready(id), id);
    assert Error(id) in before + [Ready(id)] <==> Error(id) in before;
    assert [] + [Connected] == [Connected];
  }

  /** An event that fails a pending attempt. */
  lemma FailureTold(a: Attempt, before: seq<Event>, e: Event)
    requires AttemptTold(a, before, e.id) && Settling(e, e.id) == Some(Failed)
    ensures var b := if e.Error? then a.(status := Errored)
                     else if e.Timeout? && !a.settled then a.(ended := true) else a;
      AttemptTold(Settle(b, Failed), before + [e], e.id)
  {
    ToldSnoc(before, e, e.id);
    assert Error(e.id) in before + [e] <==> Error(e.id) in before || e == Error(e.id);
    assert [] + [Failed] == [Failed];
  }

  lemma OwnAttemptTold(w: World, before: seq<Event>, e: Event)
    requires AsTold(w, before, e.id) && Enabled(w, e)
    ensures AttemptTold(React(w, e).attempt, before + [e], e.id)
  {
    ToldSnoc(before, e, e.id);
    assert Error(e.id) in before + [e] <==> Error(e.id) in before || e == Error(e.id);
    match e
    case Ready(id) => ReadyTold(w.pool, w.attempts[id], before, id);
    case Error(id) => FailureTold(w.attempts[id], before, e);
    case Timeout(id) => FailureTold(w.attempts[id], before, e);
    case Throw(id) => FailureTold(w.attempts[id], before, e);
    case _ =>
  }

  lemma OwnAsTold(w: World, before: seq<Event>, e: Event)
    requires AsTold(w, before, e.id) && Enabled(w, e)
    ensures AsTold(Step(w, e), before + [e], e.id) && React(w, e).dispatched == Told(before, e)
  {
    OwnAttemptTold(w, before, e);
    OwnPoolTold(w, before, e);
  }

  lemma OwnPoolTold(w: World, before: seq<Event>, e: Event)
    requires AsTold(w, before, e.id) && Enabled(w, e)
    ensures React(w, e).dispatched == Told(before, e)
    ensures Pooled(React(w, e).pool, e.id)
         == (if IsOpen(before + [e], e.id) then Some(React(w, e).attempt.session) else None)
  {
    ToldSnoc(before, e, e.id);
  }

  lemma OtherAsTold(w: World, before: seq<Event>, e: Event, id: Id)
    requires AsTold(w, before, id) && Enabled(w, e) && e.id != id
    ensures AsTold(Step(w, e), before + [e], id)
  {
    ToldSnoc(before, e, id);
    OthersUntouched(w, e, id);
    assert Error(id) in before + [e] <==> Error(id) in before;
  }

  /**
   In every interleaving all that becomes of an attempt is told by the events alone. The first ready, error, timeout
   or throw decides the one result of its promise: connected if it is the ready, failed otherwise, none before. The
   id is pooled from that ready to the next close or disconnect. The client is ended by a deciding timeout and by a
   disconnect of the open connection and by nothing else. And the dispatched actions are exactly those told.
   */
  lemma {:induction false} FirstEventDecides(events: seq<Event>, id: Id)
    requires IsRun(events)
    ensures AsTold(Run(events), events, id)
    ensures Run(events).dispatched == Story(events)
  {
    if events != [] {
      var n := |events| - 1;
      var before, e := events[..n], events[n];
      assert events == before + [e];
      FirstEventDecides(before, id);
      FirstEventDecides(before, e.id);
      OwnAsTold(Run(before), before, e);
      ToldSnoc(before, e, e.id);
      if id != e.id {
        OtherAsTold(Run(before), before, e, id);
      }
    }
  }

  // ----- the handlers ---------------------------------------------------------------------------

  /** One connect call: its closure variables, the shared pool, and the store's action log. */
  class Connect {
    const id: Id
    const session: SessionId
    const pool: ConnectionPoolObject
    var settled: bool
    var results: seq<Result>
    var status: Status
    var ended: bool
    var dispatched: seq<Dispatch>

    ghost function Abs(): Attempt
      reads this
    {
      Attempt(session, settled, results, status, ended)
    }

    constructor (id: Id, session: SessionId, pool: ConnectionPoolObject)
      ensures this.id == id && this.session == session && this.pool == pool
      ensures Abs() == Attempt(session, false, [], Connecting, false) && dispatched == []
    {
      this.id, this.session, this.pool := id, session, pool;
      settled, results, status, ended, dispatched := false, [], Connecting, false, [];
    }

    method SettleWith(result: Result)
      modifies this`settled, this`results
      ensures Abs() == Settle(old(Abs()), result)
    {
      if settled {
        return;
      }
      settled := true;
      results := results + [result];
    }

    method HandleReady()
      modifies this, pool
      ensures var c := OnReady(old(pool.Abs()), old(Abs()), id);
        pool.Abs() == c.pool && Abs() == c.attempt && dispatched == old(dispatched) + c.dispatched
    {
      if settled {
        return;
      }
      status := Established;
      pool.AddConnection(id, session);
      dispatched := dispatched + [ConnectionEstablished(id)];
      SettleWith(Connected);
    }

    method HandleError()
      modifies this
      ensures var c := OnError(pool.Abs(), old(Abs()), id);
        Abs() == c.attempt && dispatched == old(dispatched) + c.dispatched
    {
      status := Errored;
      dispatched := dispatched + [ConnectionError(id)];
      SettleWith(Failed);
    }

    method HandleClose()
      modifies this`dispatched, pool
      ensures var c := OnClose(old(pool.Abs()), old(Abs()), id);
        pool.Abs() == c.pool && Abs() == c.attempt && dispatched == old(dispatched) + c.dispatched
    {
      pool.RemoveConnection(id);
      dispatched := dispatched + [ConnectionClosed(id)];
    }

    /** `disconnect` with this attempt's id. */
    method Disconnect()
      modifies this, pool
      ensures var c := OnDisconnect(old(pool.Abs()), old(Abs()), id);
        pool.Abs() == c.pool && Abs() == c.attempt && dispatched == old(dispatched) + c.dispatched
    {
      if id !in pool.connections {
        return;
      }
      ended := true;
      pool.RemoveConnection(id);
      dispatched := dispatched + [ConnectionClosed(id)];
    }

    method HandleTimeout()
      modifies this, pool
      ensures var c := OnTimeout(old(pool.Abs()), old(Abs()), id);
        pool.Abs() == c.pool && Abs() == c.attempt && dispatched == old(dispatched) + c.dispatched
    {
      if settled {
        return;
      }
      ended := true;
      pool.RemoveConnection(id);
      SettleWith(Failed);
    }
  }
}
