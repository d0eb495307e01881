/**
 The pool of SSH connections: a map by connection id and an index of ids by session.
 (app/services/ssh/connection-pool.ts)
 */
module ConnectionPool {

  datatype Id = Id(text: string)
  datatype SessionId = SessionId(text: string)

  datatype Pool = Pool(connections: map<Id, SessionId>, sessions: map<SessionId, set<Id>>)

  function Add(p: Pool, id: Id, session: SessionId): Pool {
    var ids := if session in p.sessions then p.sessions[session] else {};
    Pool(p.connections[id := session], p.sessions[session := ids + {id}])
  }

  function Remove(p: Pool, id: Id): Pool {
    if id !in p.connections then p
    else
      var session := p.connections[id];
      var sessions :=
        if session !in p.sessions then p.sessions
        else
          var rest := p.sessions[session] - {id};
          if rest == {} then p.sessions - {session} else p.sessions[session := rest];
      Pool(p.connections - {id}, sessions)
  }

  /** The pool filtered by session. */
  function IdsOf(p: Pool, session: SessionId): set<Id> {
    set id | id in p.connections && p.connections[id] == session
  }

  /** The index is the pool filtered by session, and holds no empty set. */
  ghost predicate Indexed(p: Pool) {
    && (forall s :: s in p.sessions ==> p.sessions[s] == IdsOf(p, s) && p.sessions[s] != {})
    && (forall id :: id in p.connections ==> p.connections[id] in p.sessions)
  }

  /** Adding keeps the index right exactly when the id is new or already filed under that session. */
  lemma AddKeepsIndexIff(p: Pool, id: Id, session: SessionId)
    requires Indexed(p)
    ensures Indexed(Add(p, id, session)) <==> (id in p.connections ==> p.connections[id] == session)
  {
    var q := Add(p, id, session);
    if id in p.connections && p.connections[id] != session {
      var before := p.connections[id];
      assert id in IdsOf(p, before) && id !in IdsOf(q, before);
      assert q.sessions[before] == p.sessions[before];
    } else {
      assert IdsOf(q, session) == IdsOf(p, session) + {id};
      forall s | s in q.sessions && s != session ensures q.sessions[s] == IdsOf(q, s) {
        assert IdsOf(q, s) == IdsOf(p, s);
      }
      if session !in p.sessions {
        assert IdsOf(p, session) == {};
      }
    }
  }

  lemma RemoveKeepsIndex(p: Pool, id: Id)
    requires Indexed(p)
    ensures Indexed(Remove(p, id)) && id !in Remove(p, id).connections
    ensures forall other :: other != id ==>
      (other in Remove(p, id).connections <==> other in p.connections)
  {
    var q := Remove(p, id);
    if id in p.connections {
      var session := p.connections[id];
      assert IdsOf(q, session) == IdsOf(p, session) - {id};
      forall s | s in q.sessions && s != session ensures q.sessions[s] == IdsOf(q, s) && q.sessions[s] != {} {
        assert IdsOf(q, s) == IdsOf(p, s);
      }
      forall other | other in q.connections ensures q.connections[other] in q.sessions {
        assert other in IdsOf(p, q.connections[other]);
        assert q.connections[other] == session ==> other in IdsOf(q, session);
      }
    }
  }

  /** Removing undoes adding a new id. */
  lemma RemoveUndoesAdd(p: Pool, id: Id, session: SessionId)
    requires Indexed(p) && id !in p.connections
    ensures Remove(Add(p, id, session), id) == p
  {
    var q := Add(p, id, session);
    assert id !in IdsOf(p, session);
    assert q.connections - {id} == p.connections;
    if session in p.sessions {
      assert q.sessions[session] - {id} == p.sessions[session];
      assert q.sessions[session := p.sessions[session]] == p.sessions;
    } else {
      assert q.sessions[session] - {id} == {};
      assert q.sessions - {session} == p.sessions;
    }
  }

  class ConnectionPoolObject {
    var connections: map<Id, SessionId>
    var sessionConnections: map<SessionId, set<Id>>

    ghost function Abs(): Pool
      reads this
    {
      Pool(connections, sessionConnections)
    }

    constructor ()
      ensures Abs() == Pool(map[], map[]) && Indexed(Abs())
    {
      connections, sessionConnections := map[], map[];
    }

    method AddConnection(id: Id, session: SessionId)
      modifies this
      ensures Abs() == Add(old(Abs()), id, session)
    {
      connections := connections[id := session];
      var ids := if session in sessionConnections then sessionConnections[session] else {};
      sessionConnections := sessionConnections[session := ids + {id}];
    }

    method RemoveConnection(id: Id)
      modifies this
      ensures Abs() == Remove(old(Abs()), id)
    {
      if id !in connections {
        return;
      }
      var session := connections[id];
      if session in sessionConnections {
        var rest := sessionConnections[session] - {id};
        sessionConnections :=
          if rest == {} then sessionConnections - {session} else sessionConnections[session := rest];
      }
      connections := connections - {id};
    }

    /** The connections of a session, found through the index. */
    method GetBySession(session: SessionId) returns (found: set<Id>)
      requires Indexed(Abs())
      ensures found == IdsOf(Abs(), session)
    {
      found := {};
      if session !in sessionConnections {
        assert forall id :: id in connections ==> connections[id] != session;
        return;
      }
      var todo := sessionConnections[session];
      while todo != {}
        invariant todo <= sessionConnections[session] && found == sessionConnections[session] - todo
        decreases todo
      {
        var id :| id in todo;
        assert id in IdsOf(Abs(), session);
        if id in connections {
          found := found + {id};
        }
        todo := todo - {id};
      }
    }
  }
}
