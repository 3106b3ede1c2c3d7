/** The session manager and the clients it holds, as objects.  Every method that changes them is proved
    to be the step, or the uninterrupted run of steps, that Sessions reasons about. */
module SessionManagers {
  import opened Options
  import opened Sessions

  /** The calls that reach the SSH tunnel and the database handle are counted, not made. */
  class Client {
    var closed: bool
    var tunnel: bool
    var lastQueryTime: int
    const hasDb: bool
    var tunnelCloses: nat
    var dbCloses: nat

    constructor (hasTunnel: bool, hasDb: bool, now: int)
      ensures !closed && tunnel == hasTunnel && lastQueryTime == now && this.hasDb == hasDb
      ensures ClosedOnce(hasTunnel)
    {
      closed, tunnel, lastQueryTime := false, hasTunnel, now;
      this.hasDb, tunnelCloses, dbCloses := hasDb, 0, 0;
    }

    /** A closed client has closed what it was made with exactly once; an open one has closed nothing. */
    predicate ClosedOnce(hadTunnel: bool)
      reads this
    {
      && tunnel == (hadTunnel && !closed)
      && tunnelCloses == (if closed && hadTunnel then 1 else 0)
      && dbCloses == (if closed && hasDb then 1 else 0)
    }

    method Close()
      modifies this
      ensures closed && lastQueryTime == old(lastQueryTime)
      ensures old(closed) ==> tunnelCloses == old(tunnelCloses) && dbCloses == old(dbCloses) && tunnel == old(tunnel)
      ensures forall hadTunnel: bool :: old(ClosedOnce(hadTunnel)) ==> ClosedOnce(hadTunnel)
    {
      if closed {
        return;
      }
      if tunnel {
        tunnelCloses := tunnelCloses + 1;
      }
      if hasDb {
        dbCloses := dbCloses + 1;
      }
      closed, tunnel := true, false;
    }

    method Query(now: int)
      modifies this`lastQueryTime
      ensures lastQueryTime == if hasDb then now else old(lastQueryTime)
    {
      if hasDb {
        lastQueryTime := now;
      }
    }
  }

  class SessionManager {
    var sessions: map<Id, Client>
    var idleTimeout: int
    var gauge: nat
    ghost var state: State<Client>

    /** The objects are the current state of the transition system. */
    ghost predicate Valid()
      reads this, state.added, state.closed
    {
      && sessions == state.sessions && gauge == state.gauge && Accounted(state)
      && (forall id :: id in sessions ==> sessions[id] in state.added)
      && (forall c :: c in state.added + state.closed ==> (c.closed <==> c in state.closed))
    }

    constructor ()
      ensures Valid() && sessions == map[] && state == Initial() && idleTimeout == 0
    {
      sessions, idleTimeout, gauge := map[], 0, 0;
      state := Initial();
    }

    method Get(id: Id) returns (c: Client?)
      ensures c == if id in sessions then sessions[id] else null
    {
      c := if id in sessions then sessions[id] else null;
    }

    method Len() returns (n: nat)
      requires Valid()
      ensures n == gauge && n == state.freshAdds - state.removals
    {
      n := |sessions|;
    }

    method Add(id: Id, conn: Client)
      requires Valid() && (conn.closed <==> conn in state.closed)
      modifies this`sessions, this`gauge, this`state
      ensures Valid() && state == Sessions.Add(old(state), id, conn)
    {
      MapSizes(sessions, id, conn);
      sessions := sessions[id := conn];
      gauge := |sessions|;
      state := Sessions.Add(state, id, conn);
    }

    method Remove(id: Id) returns (ok: bool)
      requires Valid()
      modifies this`sessions, this`gauge, this`state, if id in sessions then {sessions[id]} else {}
      ensures Valid() && state == Sessions.Remove(old(state), id) && ok == (id in old(sessions))
      ensures ok ==> old(sessions[id]).closed && old(sessions[id]).lastQueryTime == old(sessions[id].lastQueryTime)
    {
      ok := id in sessions;
      if ok {
        RemovalSize(sessions, id);
        sessions[id].Close();
        sessions := sessions - {id};
      }
      gauge := |sessions|;
      state := Sessions.Remove(state, id);
    }

    predicate Stale(id: Id, now: int)
      reads this, sessions.Values
    {
      id in sessions && now - sessions[id].lastQueryTime > idleTimeout
    }

    /** A query through a session: a cleanup will not find the session stale before the timeout has
        passed from here, and finds every session of another client as stale as it would have been. */
    method Query(id: Id, now: int)
      modifies if id in sessions then {sessions[id]} else {}
      ensures id in sessions && sessions[id].hasDb ==>
          forall later: int :: Stale(id, later) <==> later > now + idleTimeout
      ensures forall other: Id, later: int ::
          other in sessions && (id in sessions ==> sessions[other] != sessions[id]) ==>
        (Stale(other, later) <==> old(Stale(other, later)))
    {
      var c := Get(id);
      if c != null {
        c.Query(now);
      }
    }

    /** Ranging over the map visits every key once, in an order the program does not choose. */
    method StaleSessions(now: int) returns (ids: seq<Id>)
      ensures forall id :: id in ids <==> Stale(id, now)
      ensures forall i, j :: 0 <= i < j < |ids| ==> ids[i] != ids[j]
    {
      ids := [];
      var rest := sessions.Keys;
      while rest != {}
        invariant rest <= sessions.Keys
        invariant forall id :: id in ids <==> id in sessions && id !in rest && Stale(id, now)
        invariant forall i, j :: 0 <= i < j < |ids| ==> ids[i] != ids[j]
        decreases |rest|
      {
        var id :| id in rest;
        rest := rest - {id};
        if now - sessions[id].lastQueryTime > idleTimeout {
          ids := ids + [id];
        }
      }
    }

    /** Run without interruption, a cleanup takes out exactly the idle sessions and counts them. */
    method Cleanup(now: int) returns (removed: nat)
      requires Valid() && state.snapshot == []
      modifies this`sessions, this`gauge, this`state, sessions.Values
      ensures Valid()
      ensures old(idleTimeout) == 0 ==> removed == 0 && state == old(state)
      ensures old(idleTimeout) != 0 ==>
        && (forall id :: id in sessions <==> id in old(sessions) && !old(Stale(id, now)))
        && (forall id :: id in sessions ==> sessions[id] == old(sessions[id]))
        && (forall id :: id in old(sessions) && id !in sessions ==> old(sessions[id]).closed)
        && removed == old(|sessions|) - |sessions|
    {
      if idleTimeout == 0 {
        return 0;
      }
      var ids := StaleSessions(now);
      state := Next(state, TakeSnapshot(ids));
      ghost var start := state;
      DrainRemovesSnapshot(start);
      removed := RemoveAll(ids);
    }

    /** Cleanup's loop over its snapshot. */
    method RemoveAll(ids: seq<Id>) returns (removed: nat)
      requires Valid() && state.snapshot == ids
      modifies this`sessions, this`gauge, this`state, sessions.Values
      ensures Valid() && state == Drain(old(state)) && removed == state.removed - old(state).removed
    {
      hide Accounted, Next;
      removed := 0;
      var i := 0;
      while i < |ids|
        invariant 0 <= i <= |ids|
        invariant Valid() && state.snapshot == ids[i..] && Drain(state) == Drain(old(state))
        invariant removed + old(state).removed == state.removed
        invariant sessions.Values <= old(sessions.Values)
      {
        var ok := RemoveNext(ids[i]);
        if ok {
          removed := removed + 1;
        }
        i := i + 1;
      }
    }

    /** Cleanup's call of Remove for the next id of its snapshot. */
    method RemoveNext(id: Id) returns (ok: bool)
      requires Valid() && state.snapshot != [] && state.snapshot[0] == id
      modifies this`sessions, this`gauge, this`state, if id in sessions then {sessions[id]} else {}
      ensures Valid() && state == Next(old(state), RemoveStale) && state.snapshot == old(state).snapshot[1..]
      ensures state.removed == old(state).removed + if ok then 1 else 0
      ensures sessions.Values <= old(sessions.Values)
    {
      ok := Remove(id);
      state := state.(snapshot := state.snapshot[1..], removed := state.removed + if ok then 1 else 0);
    }

    /** setClient: the look-up of the session's client. */
    method LookUpCurrent(sid: Id, newClient: Client, ghost r: RequestId) returns (current: Client?)
      requires Valid() && FreshClient(state, newClient) && r !in state.pending
      modifies this`state
      ensures Valid() && state == Next(old(state), LookUp(r, sid, newClient))
      ensures current == if sid in sessions then sessions[sid] else null
    {
      current := Get(sid);
      state := Next(state, LookUp(r, sid, newClient));
    }

    /** setClient: closing whatever the look-up found, the table having moved on or not. */
    method CloseFound(current: Client?, ghost r: RequestId)
      requires Valid() && r in state.pending && state.pending[r].LookedUp?
      requires state.pending[r].current == if current == null then None else Some(current)
      modifies this`state, current
      ensures Valid() && state == Next(old(state), CloseCurrent(r))
    {
      StepKeepsAccounts(state, CloseCurrent(r));
      CloseCurrentTable(state, r);
      hide Accounted, Next;
      if current != null {
        current.Close();
      }
      state := Next(state, CloseCurrent(r));
    }

    /** setClient: the new client goes into the table, or is closed by the handler for want of an id. */
    method Install(sid: Id, newClient: Client, ghost r: RequestId) returns (ok: bool)
      requires Valid() && r in state.pending && state.pending[r].ClosedCurrent?
      requires state.pending[r].sid == sid && state.pending[r].newClient == newClient
      requires newClient.closed <==> newClient in state.closed
      modifies this`sessions, this`gauge, this`state, newClient
      ensures Valid() && state == Next(old(state), AddClient(r)) && ok == (sid != "")
    {
      ok := sid != "";
      if ok {
        state := state.(pending := state.pending - {r});
        Add(sid, newClient);
      } else {
        newClient.Close();
        state := Next(state, AddClient(r));
      }
    }

    /** A connect that nothing interrupts. */
    method SetClient(sid: Id, newClient: Client, ghost r: RequestId) returns (ok: bool)
      requires Valid() && FreshClient(state, newClient) && !newClient.closed && r !in state.pending
      modifies this`sessions, this`gauge, this`state, newClient, if sid in sessions then {sessions[sid]} else {}
      ensures Valid() && ok == (sid != "")
      ensures var s1 := Next(old(state), LookUp(r, sid, newClient));
              var s2 := Next(s1, CloseCurrent(r));
              state == Next(s2, AddClient(r))
    {
      var current := LookUpCurrent(sid, newClient, r);
      CloseFound(current, r);
      ok := Install(sid, newClient, r);
    }
  }
}
