/** The session table shared by request handlers and the cleanup worker, as a state machine whose
    steps are the critical sections and the Close calls of the source, in any interleaving. */
module Sessions {
  import opened Options

  type Id = string
  type RequestId = nat

  /** A request inside setClient: it has looked up the session's client, then closed it. */
  datatype Request<C> =
    | LookedUp(sid: Id, newClient: C, current: Option<C>)
    | ClosedCurrent(sid: Id, newClient: C, current: Option<C>)

  /** sessions and gauge belong to the manager; pending are the requests inside setClient; snapshot
      are the stale ids the cleanup worker has still to remove, removed is its count.  added, freshAdds
      and removals record the history. */
  datatype State<C> = State(
    sessions: map<Id, C>,
    gauge: nat,
    closed: set<C>,
    pending: map<RequestId, Request<C>>,
    snapshot: seq<Id>,
    removed: nat,
    added: set<C>,
    freshAdds: nat,
    removals: nat)

  function Initial<C(==)>(): State<C> {
    State(map[], 0, {}, map[], [], 0, {}, 0, 0)
  }

  datatype Step<C> =
    | LookUp(r: RequestId, sid: Id, newClient: C)   // setClient: DB(c)
    | CloseCurrent(r: RequestId)                         // setClient: currentClient.Close()
    | AddClient(r: RequestId)                            // setClient: DbSessions.Add, or an error without id
    | Disconnect(sid: Id)                                // Disconnect: DbSessions.Remove
    | CloseAny(c: C)                                // any other Close of a handler
    | TakeSnapshot(ids: seq<Id>)                         // Cleanup: staleSessions
    | RemoveStale                                        // Cleanup: Remove of the next id

  function Remove<C(==)>(s: State<C>, id: Id): State<C> {
    if id in s.sessions then
      var sessions := s.sessions - {id};
      s.(sessions := sessions, closed := s.closed + {s.sessions[id]}, gauge := |sessions|, removals := s.removals + 1)
    else s.(gauge := |s.sessions|)
  }

  function Add<C(==)>(s: State<C>, id: Id, c: C): State<C> {
    var sessions := s.sessions[id := c];
    s.(sessions := sessions, gauge := |sessions|, added := s.added + {c},
       freshAdds := s.freshAdds + if id in s.sessions then 0 else 1)
  }

  predicate FreshClient<C(==)>(s: State<C>, c: C) {
    c !in s.added && c !in s.closed && forall r :: r in s.pending ==> s.pending[r].newClient != c
  }

  predicate Enabled<C(==)>(s: State<C>, step: Step<C>) {
    match step
    case LookUp(r, _, c) => r !in s.pending && FreshClient(s, c)
    case CloseCurrent(r) => r in s.pending && s.pending[r].LookedUp?
    case AddClient(r) => r in s.pending && s.pending[r].ClosedCurrent?
    case Disconnect(_) => true
    case CloseAny(_) => true
    case TakeSnapshot(ids) => s.snapshot == [] && forall id :: id in ids ==> id in s.sessions
    case RemoveStale => s.snapshot != []
  }

  function Next<C(==)>(s: State<C>, step: Step<C>): State<C>
    requires Enabled(s, step)
  {
    match step
    case LookUp(r, sid, c) =>
      var current := if sid in s.sessions then Some(s.sessions[sid]) else None;
      s.(pending := s.pending[r := LookedUp(sid, c, current)])
    case CloseCurrent(r) =>
      var q := s.pending[r];
      s.(pending := s.pending[r := ClosedCurrent(q.sid, q.newClient, q.current)],
         closed := s.closed + if q.current.Some? then {q.current.value} else {})
    case AddClient(r) =>
      var q := s.pending[r];
      var s' := s.(pending := s.pending - {r});
      if q.sid == "" then s'.(closed := s.closed + {q.newClient}) else Add(s', q.sid, q.newClient)
    case Disconnect(sid) => Remove(s, sid)
    case CloseAny(c) => s.(closed := s.closed + {c})
    case TakeSnapshot(ids) => s.(snapshot := ids, removed := 0)
    case RemoveStale =>
      Remove(s, s.snapshot[0]).(
        snapshot := s.snapshot[1..],
        removed := s.removed + if s.snapshot[0] in s.sessions then 1 else 0)
  }

  /** Requests that share a session id do not overlap each other. */
  predicate Exclusive<C(==)>(s: State<C>, step: Step<C>) {
    step.LookUp? ==> forall r :: r in s.pending ==> s.pending[r].sid != step.sid
  }

  predicate InTable<C(==)>(s: State<C>, c: C) {
    exists id :: id in s.sessions && s.sessions[id] == c
  }

  /** Every client ever passed to Add can still be reached through the table, or is closed. */
  predicate NoLostClient<C(==)>(s: State<C>) {
    forall c :: c in s.added ==> c in s.closed || InTable(s, c)
  }

  /** A pending request knows the client it is going to replace, and has closed it once it says so. */
  predicate RequestOk<C(==)>(s: State<C>, q: Request<C>) {
    q.sid in s.sessions ==>
      && q.current == Some(s.sessions[q.sid])
      && (q.ClosedCurrent? ==> s.sessions[q.sid] in s.closed)
  }

  predicate Separate<C(==)>(s: State<C>) {
    forall r1, r2 :: r1 in s.pending && r2 in s.pending && r1 != r2 ==> s.pending[r1].sid != s.pending[r2].sid
  }

  predicate Accounted<C(==)>(s: State<C>) {
    s.gauge == |s.sessions| && s.freshAdds == s.removals + |s.sessions|
  }

  predicate Inv<C(==)>(s: State<C>) {
    && NoLostClient(s) && Separate(s)
    && forall r :: r in s.pending ==> RequestOk(s, s.pending[r])
  }

  lemma InitialInv()
    ensures var s := Initial<nat>(); Inv(s) && Accounted(s) && ClientsOnce(s)
  {
  }

  lemma RemovalSize<C>(m: map<Id, C>, id: Id)
    requires id in m
    ensures |m - {id}| == |m| - 1
  {
    assert m.Keys == (m - {id}).Keys + {id};
    assert |m - {id}| == |(m - {id}).Keys| && |m| == |m.Keys|;
  }

  lemma MapSizes<C>(m: map<Id, C>, id: Id, c: C)
    ensures |m[id := c]| == |m| + if id in m then 0 else 1
  {
    if id in m {
      assert m[id := c].Keys == m.Keys;
    } else {
      assert m[id := c].Keys == m.Keys + {id};
    }
    assert |m[id := c]| == |m[id := c].Keys| && |m| == |m.Keys|;
  }

  /** Every step leaves the gauge at the size of the table, and the size of the table at the number of
      ids added less the number removed. */
  lemma StepKeepsAccounts<C>(s: State<C>, step: Step<C>)
    requires Accounted(s) && Enabled(s, step)
    ensures Accounted(Next(s, step))
  {
    match step
    case AddClient(r) => MapSizes(s.sessions, s.pending[r].sid, s.pending[r].newClient);
    case Disconnect(sid) => if sid in s.sessions { RemovalSize(s.sessions, sid); }
    case RemoveStale => if s.snapshot[0] in s.sessions { RemovalSize(s.sessions, s.snapshot[0]); }
    case _ =>
  }

  lemma CloseCurrentTable<C>(s: State<C>, r: RequestId)
    requires Enabled(s, CloseCurrent(r))
    ensures var n, current := Next(s, CloseCurrent(r)), s.pending[r].current;
            && n.sessions == s.sessions && n.gauge == s.gauge && n.added == s.added
            && n.closed == s.closed + if current.Some? then {current.value} else {}
  {
  }

  lemma RemoveLosesNothing<C>(s: State<C>, id: Id)
    requires NoLostClient(s)
    ensures NoLostClient(Remove(s, id))
  {
    var t := Remove(s, id);
    forall c | c in t.added
      ensures c in t.closed || InTable(t, c)
    {
      if c !in s.closed {
        var i :| i in s.sessions && s.sessions[i] == c;
        if i != id { assert i in t.sessions && t.sessions[i] == c; }
      }
    }
  }

  /** Adding over an id whose client is closed, or over none, loses nothing. */
  lemma AddLosesNothing<C>(s: State<C>, id: Id, c: C)
    requires NoLostClient(s) && (id in s.sessions ==> s.sessions[id] in s.closed)
    ensures NoLostClient(Add(s, id, c))
  {
    var t := Add(s, id, c);
    assert id in t.sessions && t.sessions[id] == c;
    forall d | d in t.added
      ensures d in t.closed || InTable(t, d)
    {
      if d != c && d !in s.closed {
        var i :| i in s.sessions && s.sessions[i] == d;
        assert i in t.sessions && t.sessions[i] == d;
      }
    }
  }

  lemma StepLosesNothing<C>(s: State<C>, step: Step<C>)
    requires Inv(s) && Enabled(s, step)
    ensures NoLostClient(Next(s, step))
  {
    match step
    case AddClient(r) =>
      var q := s.pending[r];
      var s' := s.(pending := s.pending - {r});
      assert NoLostClient(s') by { SameTable(s, s'); }
      if q.sid != "" { AddLosesNothing(s', q.sid, q.newClient); } else { SameTable(s, Next(s, step)); }
    case Disconnect(sid) => RemoveLosesNothing(s, sid);
    case RemoveStale =>
      RemoveLosesNothing(s, s.snapshot[0]);
      SameTable(Remove(s, s.snapshot[0]), Next(s, step));
    case _ => SameTable(s, Next(s, step));
  }

  lemma SameTable<C>(s: State<C>, t: State<C>)
    requires NoLostClient(s) && t.sessions == s.sessions && t.added == s.added && s.closed <= t.closed
    ensures NoLostClient(t)
  {
    forall c | c in t.added
      ensures c in t.closed || InTable(t, c)
    {
      if c !in s.closed {
        var i :| i in s.sessions && s.sessions[i] == c;
        assert i in t.sessions && t.sessions[i] == c;
      }
    }
  }

  lemma StepKeepsSeparate<C>(s: State<C>, step: Step<C>)
    requires Separate(s) && Enabled(s, step) && Exclusive(s, step)
    ensures Separate(Next(s, step))
  {
    var t := Next(s, step);
    forall r1, r2 | r1 in t.pending && r2 in t.pending && r1 != r2
      ensures t.pending[r1].sid != t.pending[r2].sid
    {
      assert r1 in s.pending ==> s.pending[r1].sid == t.pending[r1].sid;
      assert r2 in s.pending ==> s.pending[r2].sid == t.pending[r2].sid;
    }
  }

  lemma RequestSurvives<C>(s: State<C>, t: State<C>, q: Request<C>)
    requires RequestOk(s, q) && s.closed <= t.closed
    requires q.sid in t.sessions ==> q.sid in s.sessions && t.sessions[q.sid] == s.sessions[q.sid]
    ensures RequestOk(t, q)
  {
  }

  lemma ClosedGrows<C>(s: State<C>, step: Step<C>)
    requires Enabled(s, step)
    ensures s.closed <= Next(s, step).closed
  {
    hide FreshClient;
  }

  /** A session that no request is just adding to keeps its client or is removed. */
  lemma SessionStaysOrGoes<C>(s: State<C>, step: Step<C>, sid: Id)
    requires Enabled(s, step) && (step.AddClient? ==> s.pending[step.r].sid != sid)
    ensures var t := Next(s, step); sid in t.sessions ==> sid in s.sessions && t.sessions[sid] == s.sessions[sid]
  {
    hide FreshClient;
  }

  /** A pending request stays as it is, or has just closed the client it knows. */
  lemma RequestGoesOn<C>(s: State<C>, step: Step<C>, r: RequestId)
    requires Enabled(s, step) && r in s.pending && r in Next(s, step).pending
    ensures var t, q := Next(s, step), s.pending[r];
            || t.pending[r] == q
            || (t.pending[r] == ClosedCurrent(q.sid, q.newClient, q.current) && t.sessions == s.sessions
                && (q.current.Some? ==> q.current.value in t.closed))
  {
    hide FreshClient;
  }

  /** What a pending request believes survives the steps of everyone else. */
  lemma StepKeepsRequest<C>(s: State<C>, step: Step<C>, r: RequestId)
    requires Separate(s) && Enabled(s, step)
    requires r in s.pending && RequestOk(s, s.pending[r]) && r in Next(s, step).pending
    ensures RequestOk(Next(s, step), Next(s, step).pending[r])
  {
    if step.AddClient? { assert step.r in s.pending && step.r != r by { AddEnds(s, step.r); } }
    hide Enabled, Next;
    ClosedGrows(s, step);
    SessionStaysOrGoes(s, step, s.pending[r].sid);
    RequestGoesOn(s, step, r);
    RequestSurvives(s, Next(s, step), s.pending[r]);
  }

  lemma AddEnds<C>(s: State<C>, r: RequestId)
    requires Enabled(s, AddClient(r))
    ensures r in s.pending && r !in Next(s, AddClient(r)).pending
  {
  }

  lemma StepKeepsRequests<C>(s: State<C>, step: Step<C>)
    requires Inv(s) && Enabled(s, step)
    ensures var t := Next(s, step); forall r :: r in t.pending ==> RequestOk(t, t.pending[r])
  {
    hide RequestOk, NoLostClient, Separate;
    var t := Next(s, step);
    forall r | r in t.pending
      ensures RequestOk(t, t.pending[r])
    {
      if r in s.pending { StepKeepsRequest(s, step, r); } else { LookUpIsRight(s, step.r, step.sid, step.newClient); }
    }
  }

  lemma LookUpIsRight<C>(s: State<C>, r: RequestId, sid: Id, c: C)
    requires Enabled(s, LookUp(r, sid, c))
    ensures var t := Next(s, LookUp(r, sid, c)); r in t.pending && RequestOk(t, t.pending[r])
  {
  }

  /** One step of any handler or of the worker, requests of one session not overlapping. */
  lemma StepKeepsInv<C>(s: State<C>, step: Step<C>)
    requires Inv(s) && Enabled(s, step) && Exclusive(s, step)
    ensures Inv(Next(s, step))
  {
    hide RequestOk, NoLostClient, Separate, Exclusive, Next;
    StepLosesNothing(s, step);
    StepKeepsSeparate(s, step);
    StepKeepsRequests(s, step);
  }

  predicate AllEnabled<C(==)>(s: State<C>, steps: seq<Step<C>>)
    decreases |steps|
  {
    steps == [] || (Enabled(s, steps[0]) && AllEnabled(Next(s, steps[0]), steps[1..]))
  }

  predicate AllExclusive<C(==)>(s: State<C>, steps: seq<Step<C>>)
    requires AllEnabled(s, steps)
    decreases |steps|
  {
    steps == [] || (Exclusive(s, steps[0]) && AllExclusive(Next(s, steps[0]), steps[1..]))
  }

  function Exec<C(==)>(s: State<C>, steps: seq<Step<C>>): State<C>
    requires AllEnabled(s, steps)
    decreases |steps|
  {
    if steps == [] then s else Exec(Next(s, steps[0]), steps[1..])
  }

  /** No interleaving of the cleanup worker with requests that do not overlap within a session ever
      loses a client. */
  lemma {:induction false} NoClientIsEverLost<C>(s: State<C>, steps: seq<Step<C>>)
    requires Inv(s) && AllEnabled(s, steps) && AllExclusive(s, steps)
    ensures Inv(Exec(s, steps)) && NoLostClient(Exec(s, steps))
    decreases |steps|
  {
    if steps != [] {
      StepKeepsInv(s, steps[0]);
      NoClientIsEverLost(Next(s, steps[0]), steps[1..]);
    }
  }

  /** The accounts stay right in every interleaving, overlapping requests included. */
  lemma {:induction false} AccountsAlwaysAgree<C>(s: State<C>, steps: seq<Step<C>>)
    requires Accounted(s) && AllEnabled(s, steps)
    ensures Accounted(Exec(s, steps))
    decreases |steps|
  {
    if steps != [] {
      StepKeepsAccounts(s, steps[0]);
      AccountsAlwaysAgree(Next(s, steps[0]), steps[1..]);
    }
  }

  predicate Spares<C(==)>(step: Step<C>, id: Id) {
    step != Disconnect(id) && (step.TakeSnapshot? ==> id !in step.ids)
  }

  /** An id leaves the table only by a Disconnect or through a snapshot of the worker. */
  lemma {:induction false} OtherSessionsStay<C>(s: State<C>, steps: seq<Step<C>>, id: Id)
    requires id in s.sessions && id !in s.snapshot
    requires AllEnabled(s, steps) && forall i :: 0 <= i < |steps| ==> Spares(steps[i], id)
    ensures id in Exec(s, steps).sessions
    decreases |steps|
  {
    if steps != [] {
      assert Spares(steps[0], id);
      OtherSessionsStay(Next(s, steps[0]), steps[1..], id);
    }
  }

  /** The only step that can lose a client is an Add over an open one that no other id leads to. */
  lemma StepLosesIff<C>(s: State<C>, step: Step<C>)
    requires NoLostClient(s) && Enabled(s, step)
    ensures NoLostClient(Next(s, step)) <==> !(step.AddClient? && Overwrites(s, s.pending[step.r]))
  {
    match step
    case AddClient(r) =>
      var q := s.pending[r];
      var s' := s.(pending := s.pending - {r});
      SameTable(s, s');
      if q.sid == "" {
        SameTable(s, Next(s, step));
      } else if Overwrites(s, q) {
        var c, t := s.sessions[q.sid], Next(s, step);
        assert c in t.added && c !in t.closed && !InTable(t, c);
      } else {
        AddLosesUnlessOverwriting(s', q);
      }
    case Disconnect(sid) => RemoveLosesNothing(s, sid);
    case RemoveStale =>
      RemoveLosesNothing(s, s.snapshot[0]);
      SameTable(Remove(s, s.snapshot[0]), Next(s, step));
    case _ => SameTable(s, Next(s, step));
  }

  predicate Overwrites<C(==)>(s: State<C>, q: Request<C>) {
    && q.sid != "" && q.sid in s.sessions
    && var c := s.sessions[q.sid];
       && c in s.added && c !in s.closed && c != q.newClient
       && forall id :: id in s.sessions && id != q.sid ==> s.sessions[id] != c
  }

  lemma AddLosesUnlessOverwriting<C>(s: State<C>, q: Request<C>)
    requires NoLostClient(s) && q.sid != "" && !Overwrites(s, q)
    ensures NoLostClient(Add(s, q.sid, q.newClient))
  {
    var t := Add(s, q.sid, q.newClient);
    assert q.sid in t.sessions && t.sessions[q.sid] == q.newClient;
    forall d | d in t.added
      ensures d in t.closed || InTable(t, d)
    {
      if d != q.newClient && d !in s.closed {
        var i :| i in s.sessions && s.sessions[i] == d;
        if i == q.sid {
          var j :| j in s.sessions && j != q.sid && s.sessions[j] == d;
          assert j in t.sessions && t.sessions[j] == d;
        } else {
          assert i in t.sessions && t.sessions[i] == d;
        }
      }
    }
  }

  lemma BothLookUp(sid: Id)
    ensures var s := Initial<nat>();
            && Enabled(s, LookUp(1, sid, 1)) && Enabled(Next(s, LookUp(1, sid, 1)), LookUp(2, sid, 2))
            && var s2 := Next(Next(s, LookUp(1, sid, 1)), LookUp(2, sid, 2));
            s2 == s.(pending := map[1 := LookedUp(sid, 1, None), 2 := LookedUp(sid, 2, None)])
  {
  }

  lemma BothClose(s: State<nat>, sid: Id)
    requires s.pending == map[1 := LookedUp(sid, 1, None), 2 := LookedUp(sid, 2, None)]
    ensures && Enabled(s, CloseCurrent(1)) && Enabled(Next(s, CloseCurrent(1)), CloseCurrent(2))
            && var s2 := Next(Next(s, CloseCurrent(1)), CloseCurrent(2));
            s2 == s.(pending := map[1 := ClosedCurrent(sid, 1, None), 2 := ClosedCurrent(sid, 2, None)])
  {
    assert s.closed + {} == s.closed;
  }

  lemma BothAdd(s: State<nat>, sid: Id)
    requires s.pending == map[1 := ClosedCurrent(sid, 1, None), 2 := ClosedCurrent(sid, 2, None)]
    requires sid != "" && s.sessions == map[] && s.closed == {}
    ensures && Enabled(s, AddClient(1)) && Enabled(Next(s, AddClient(1)), AddClient(2))
            && !NoLostClient(Next(Next(s, AddClient(1)), AddClient(2)))
  {
    var t := Next(Next(s, AddClient(1)), AddClient(2));
    assert t.sessions == map[sid := 2] && t.closed == {} && 1 in t.added;
    assert !InTable(t, 1);
  }

  /** Two overlapping connects of one session do lose a client: both look up before either adds. */
  lemma OverlappingConnectsLoseClient(sid: Id)
    requires sid != ""
    ensures var initial := Initial<nat>();
            var steps := [LookUp(1, sid, 1)] + ([LookUp(2, sid, 2)] + ([CloseCurrent(1)] + ([CloseCurrent(2)]
                         + ([AddClient(1)] + ([AddClient(2)] + [])))));
            AllEnabled(initial, steps) && !NoLostClient(Exec(initial, steps))
  {
    hide Exec, AllEnabled, NoLostClient;
    var s := Initial<nat>();
    var s2 := s.(pending := map[1 := LookedUp(sid, 1, None), 2 := LookedUp(sid, 2, None)]);
    var s4 := s.(pending := map[1 := ClosedCurrent(sid, 1, None), 2 := ClosedCurrent(sid, 2, None)]);
    BothLookUp(sid);
    BothClose(s2, sid);
    BothAdd(s4, sid);
    hide Next, Enabled;
    var s6 := Next(Next(s4, AddClient(1)), AddClient(2));
    ExecNothing(s6);
    ExecStep(Next(s4, AddClient(1)), AddClient(2), []);
    ExecStep(s4, AddClient(1), [AddClient(2)] + []);
    ExecStep(Next(s2, CloseCurrent(1)), CloseCurrent(2), [AddClient(1)] + ([AddClient(2)] + []));
    ExecStep(s2, CloseCurrent(1), [CloseCurrent(2)] + ([AddClient(1)] + ([AddClient(2)] + [])));
    ExecStep(Next(s, LookUp(1, sid, 1)), LookUp(2, sid, 2),
      [CloseCurrent(1)] + ([CloseCurrent(2)] + ([AddClient(1)] + ([AddClient(2)] + []))));
    ExecStep(s, LookUp(1, sid, 1),
      [LookUp(2, sid, 2)] + ([CloseCurrent(1)] + ([CloseCurrent(2)] + ([AddClient(1)] + ([AddClient(2)] + [])))));
  }

  lemma ExecNothing<C>(s: State<C>)
    ensures AllEnabled(s, []) && Exec(s, []) == s
  {
  }

  lemma ExecStep<C>(s: State<C>, step: Step<C>, steps: seq<Step<C>>)
    ensures AllEnabled(s, [step] + steps) <==> Enabled(s, step) && AllEnabled(Next(s, step), steps)
    ensures AllEnabled(s, [step] + steps) ==> Exec(s, [step] + steps) == Exec(Next(s, step), steps)
  {
    assert ([step] + steps)[1..] == steps;
  }

  /** The rest of a Cleanup that nothing interrupts. */
  function Drain<C(==)>(s: State<C>): State<C>
    decreases |s.snapshot|
  {
    if s.snapshot == [] then s else Drain(Next(s, RemoveStale))
  }

  function Removals<C>(n: nat): seq<Step<C>> {
    seq(n, i => RemoveStale)
  }

  lemma {:induction false} DrainIsARun<C>(s: State<C>)
    ensures var steps := Removals(|s.snapshot|); AllEnabled(s, steps) && Exec(s, steps) == Drain(s)
    decreases |s.snapshot|
  {
    var steps: seq<Step<C>> := Removals(|s.snapshot|);
    if s.snapshot != [] {
      var t := Next(s, RemoveStale);
      DrainIsARun(t);
      assert steps[1..] == Removals(|t.snapshot|);
    }
  }

  /** The clients the ids lead to. */
  ghost function ClientsOf<C>(s: State<C>, ids: seq<Id>): set<C> {
    set id | id in ids && id in s.sessions :: s.sessions[id]
  }

  lemma ClientOfOne<C>(s: State<C>, id: Id)
    ensures ClientsOf(s, [id]) == if id in s.sessions then {s.sessions[id]} else {}
  {
    assert id in [id];
  }

  lemma NothingRemoved<C>(m: map<Id, C>, id: Id)
    requires id !in m
    ensures m - {id} == m
  {
  }

  /** Remove, whether the id is there or not. */
  lemma RemoveTable<C>(s: State<C>, id: Id)
    ensures Remove(s, id).sessions == s.sessions - {id}
    ensures Remove(s, id).removals - s.removals == |s.sessions| - |Remove(s, id).sessions|
  {
    if id in s.sessions { RemovalSize(s.sessions, id); } else { NothingRemoved(s.sessions, id); }
  }

  lemma RemoveCloses<C>(s: State<C>, id: Id)
    ensures Remove(s, id).closed == s.closed + ClientsOf(s, [id])
  {
    ClientOfOne(s, id);
    hide ClientsOf;
    assert s.closed + {} == s.closed;
  }

  lemma TurnIsRemove<C>(s: State<C>)
    requires s.snapshot != []
    ensures var n, r := Next(s, RemoveStale), Remove(s, s.snapshot[0]);
            && n.sessions == r.sessions && n.closed == r.closed && n.removals == r.removals
            && n.pending == s.pending && n.added == s.added && n.freshAdds == s.freshAdds
            && n.snapshot == s.snapshot[1..] && n.removed - s.removed == r.removals - s.removals
  {
  }

  lemma TurnTable<C>(s: State<C>)
    requires s.snapshot != []
    ensures var n, id := Next(s, RemoveStale), s.snapshot[0];
            && n.sessions == s.sessions - {id} && n.snapshot == s.snapshot[1..]
            && n.pending == s.pending && n.added == s.added && n.freshAdds == s.freshAdds
            && n.removed - s.removed == n.removals - s.removals == |s.sessions| - |n.sessions|
            && n.closed == s.closed + ClientsOf(s, [id])
  {
    hide ClientsOf, Remove;
    assert Enabled(s, RemoveStale);
    TurnIsRemove(s);
    hide Next, Enabled;
    RemoveTable(s, s.snapshot[0]);
    RemoveCloses(s, s.snapshot[0]);
  }

  lemma DrainStep<C>(s: State<C>)
    requires s.snapshot != []
    ensures Enabled(s, RemoveStale) && Drain(s) == Drain(Next(s, RemoveStale))
    ensures Next(s, RemoveStale).snapshot == s.snapshot[1..]
  {
    hide Remove;
  }

  lemma ClosedMore<C>(a: set<C>, b: set<C>, c: set<C>)
    ensures (a + b) + c == a + (b + c)
  {
  }

  /** The table without the ids. */
  ghost predicate LeftAfter<C>(m: map<Id, C>, ids: seq<Id>, left: map<Id, C>) {
    && (forall id :: id in left <==> id in m && id !in ids)
    && (forall id :: id in left ==> left[id] == m[id])
  }

  lemma LeftAfterMore<C>(m: map<Id, C>, id: Id, ids: seq<Id>, left: map<Id, C>)
    requires LeftAfter(m - {id}, ids, left)
    ensures LeftAfter(m, [id] + ids, left)
  {
    assert forall i: Id :: i in [id] + ids <==> i == id || i in ids;
  }

  lemma ClientsOfMore<C>(s: State<C>, n: State<C>, id: Id, ids: seq<Id>)
    requires n.sessions == s.sessions - {id}
    ensures ClientsOf(s, [id] + ids) == ClientsOf(s, [id]) + ClientsOf(n, ids)
  {
    assert forall i :: i in [id] + ids <==> i == id || i in ids;
    forall c | c in ClientsOf(s, [id] + ids)
      ensures c in ClientsOf(s, [id]) + ClientsOf(n, ids)
    {
      var i :| i in [id] + ids && i in s.sessions && s.sessions[i] == c;
      if i == id { assert id in [id]; } else { assert i in ids && i in n.sessions && n.sessions[i] == c; }
    }
    forall c | c in ClientsOf(n, ids)
      ensures c in ClientsOf(s, [id] + ids)
    {
      var i :| i in ids && i in n.sessions && n.sessions[i] == c;
      assert i in [id] + ids && i in s.sessions && s.sessions[i] == c;
    }
  }

  lemma NothingDrained<C>(s: State<C>)
    requires s.snapshot == []
    ensures Drain(s) == s && LeftAfter(s.sessions, [], s.sessions) && s.closed + ClientsOf(s, []) == s.closed
  {
  }

  /** Left alone, the worker takes out exactly the ids of its snapshot and closes exactly their clients,
      and its count of removals is what the table lost. */
  lemma {:induction false} DrainRemovesSnapshot<C>(s: State<C>)
    ensures var t := Drain(s);
            && t.snapshot == [] && t.pending == s.pending && t.added == s.added && t.freshAdds == s.freshAdds
            && LeftAfter(s.sessions, s.snapshot, t.sessions)
            && t.closed == s.closed + ClientsOf(s, s.snapshot)
            && t.removed - s.removed == t.removals - s.removals == |s.sessions| - |t.sessions|
    decreases |s.snapshot|
  {
    hide ClientsOf, Drain, Enabled, Next, LeftAfter;
    if s.snapshot == [] {
      NothingDrained(s);
    } else {
      DrainStep(s);
      var n, id := Next(s, RemoveStale), s.snapshot[0];
      TurnTable(s);
      DrainRemovesSnapshot(n);
      ClientsOfMore(s, n, id, n.snapshot);
      assert [id] + n.snapshot == s.snapshot;
      ClosedMore(s.closed, ClientsOf(s, [id]), ClientsOf(n, n.snapshot));
      LeftAfterMore(s.sessions, id, n.snapshot, Drain(s).sessions);
    }
  }

  // ---------- what becomes of a client that comes in ----------

  /** A finished request has put its client into the table, or closed it for want of a session id. */
  lemma FinishedRequest<C>(s: State<C>, r: RequestId)
    requires Enabled(s, AddClient(r))
    ensures var n, q := Next(s, AddClient(r)), s.pending[r];
            && r !in n.pending
            && (q.sid != "" ==> q.sid in n.sessions && n.sessions[q.sid] == q.newClient && q.newClient in n.added)
            && (q.sid == "" ==> q.newClient in n.closed && n.sessions == s.sessions)
  {
  }

  predicate IsPending<C(==)>(s: State<C>, c: C) {
    exists r :: r in s.pending && s.pending[r].newClient == c
  }

  predicate Known<C(==)>(s: State<C>, c: C) {
    c in s.added || c in s.closed || IsPending(s, c)
  }

  lemma StepKeepsKnown<C>(s: State<C>, step: Step<C>, c: C)
    requires Known(s, c) && Enabled(s, step)
    ensures Known(Next(s, step), c)
  {
    hide FreshClient;
    if c !in s.added && c !in s.closed {
      var r :| r in s.pending && s.pending[r].newClient == c;
      if step == AddClient(r) {
        FinishedRequest(s, r);
      } else {
        PendingStays(s, step, r);
      }
    }
  }

  lemma PendingStays<C>(s: State<C>, step: Step<C>, r: RequestId)
    requires Enabled(s, step) && r in s.pending && step != AddClient(r)
    ensures r in Next(s, step).pending && Next(s, step).pending[r].newClient == s.pending[r].newClient
  {
    hide FreshClient;
  }

  lemma {:induction false} KnownStays<C>(s: State<C>, steps: seq<Step<C>>, c: C)
    requires Known(s, c) && AllEnabled(s, steps)
    ensures Known(Exec(s, steps), c)
    decreases |steps|
  {
    if steps != [] {
      hide Known, Next, Enabled;
      StepKeepsKnown(s, steps[0], c);
      KnownStays(Next(s, steps[0]), steps[1..], c);
    }
  }

  lemma {:induction false} ClientIsKnown<C>(s: State<C>, steps: seq<Step<C>>, i: nat)
    requires AllEnabled(s, steps) && i < |steps| && steps[i].LookUp?
    ensures Known(Exec(s, steps), steps[i].newClient)
    decreases |steps|
  {
    if i == 0 {
      LookUpIsKnown(s, steps[0]);
      KnownStays(Next(s, steps[0]), steps[1..], steps[0].newClient);
    } else {
      ClientIsKnown(Next(s, steps[0]), steps[1..], i - 1);
    }
  }

  lemma LookUpIsKnown<C>(s: State<C>, step: Step<C>)
    requires Enabled(s, step) && step.LookUp?
    ensures Known(Next(s, step), step.newClient)
  {
    assert Next(s, step).pending[step.r].newClient == step.newClient;
  }

  /** Every client that a request brings in during a run is, at the end of it, still that request's, or in
      the table, or closed: clients are not lost before they reach the table either. */
  lemma EveryClientAccountedFor<C>(s: State<C>, steps: seq<Step<C>>, i: nat)
    requires Inv(s) && AllEnabled(s, steps) && AllExclusive(s, steps) && i < |steps| && steps[i].LookUp?
    ensures var t, c := Exec(s, steps), steps[i].newClient;
            IsPending(t, c) || InTable(t, c) || c in t.closed
  {
    hide AllEnabled, AllExclusive, Exec, IsPending, InTable;
    ClientIsKnown(s, steps, i);
    NoClientIsEverLost(s, steps);
  }

  // ---------- a cleanup among other steps ----------

  /** The states in which the worker took its turns. */
  function Turns<C(==)>(s: State<C>, steps: seq<Step<C>>): seq<State<C>>
    requires AllEnabled(s, steps)
    decreases |steps|
  {
    if steps == [] then []
    else (if steps[0].RemoveStale? then [s] else []) + Turns(Next(s, steps[0]), steps[1..])
  }

  /** How many of the ids were in the table when their turn came. */
  function StillThere<C>(ids: seq<Id>, turns: seq<State<C>>): nat
    requires |turns| <= |ids|
    decreases |turns|
  {
    if turns == [] then 0
    else (if ids[0] in turns[0].sessions then 1 else 0) + StillThere(ids[1..], turns[1..])
  }

  /** How many Disconnects of the run found their session. */
  function Disconnects<C(==)>(s: State<C>, steps: seq<Step<C>>): nat
    requires AllEnabled(s, steps)
    decreases |steps|
  {
    if steps == [] then 0
    else (if steps[0].Disconnect? && steps[0].sid in s.sessions then 1 else 0)
         + Disconnects(Next(s, steps[0]), steps[1..])
  }

  lemma StepCounts<C>(s: State<C>, step: Step<C>)
    requires Enabled(s, step) && !step.TakeSnapshot? && !step.RemoveStale?
    ensures var n := Next(s, step);
            && n.snapshot == s.snapshot && n.removed == s.removed
            && n.removals == s.removals + if step.Disconnect? && step.sid in s.sessions then 1 else 0
  {
  }

  lemma TurnCounts<C>(s: State<C>)
    requires Enabled(s, RemoveStale)
    ensures var n := Next(s, RemoveStale);
            var there := if s.snapshot[0] in s.sessions then 1 else 0;
            && s.snapshot != [] && n.snapshot == s.snapshot[1..]
            && n.removed == s.removed + there && n.removals == s.removals + there
  {
  }

  lemma TurnTaken<C>(ids: seq<Id>, s: State<C>, turns: seq<State<C>>)
    requires ids != [] && |turns| <= |ids[1..]|
    ensures ids[1..][|turns|..] == ids[|[s] + turns|..]
    ensures StillThere(ids, [s] + turns) == (if ids[0] in s.sessions then 1 else 0) + StillThere(ids[1..], turns)
  {
    assert ([s] + turns)[1..] == turns;
  }

  /** Between two snapshots the worker takes the ids of its snapshot in order, and counts those that
      are still there; whatever else left the table was disconnected. */
  lemma {:induction false} WorkerCounts<C>(s: State<C>, steps: seq<Step<C>>)
    requires AllEnabled(s, steps) && forall i :: 0 <= i < |steps| ==> !steps[i].TakeSnapshot?
    ensures var t, turns := Exec(s, steps), Turns(s, steps);
            && |turns| <= |s.snapshot| && t.snapshot == s.snapshot[|turns|..]
            && t.removed == s.removed + StillThere(s.snapshot, turns)
            && t.removals == s.removals + StillThere(s.snapshot, turns) + Disconnects(s, steps)
    decreases |steps|
  {
    if steps == [] {
      assert s.snapshot[0..] == s.snapshot;
    } else {
      hide Next, Enabled, StillThere;
      var step, n := steps[0], Next(s, steps[0]);
      WorkerCounts(n, steps[1..]);
      var turns := Turns(n, steps[1..]);
      if step.RemoveStale? {
        TurnCounts(s);
        TurnTaken(s.snapshot, s, turns);
      } else {
        StepCounts(s, step);
        assert [] + turns == turns;
      }
    }
  }

  /** What Cleanup returns, whatever happens while it runs: how many ids of its snapshot were still in
      the table when their turn came.  Every other removal meanwhile was a Disconnect. */
  lemma CleanupReturns<C>(s: State<C>, ids: seq<Id>, steps: seq<Step<C>>)
    requires Enabled(s, TakeSnapshot(ids)) && AllEnabled(Next(s, TakeSnapshot(ids)), steps)
    requires forall i :: 0 <= i < |steps| ==> !steps[i].TakeSnapshot?
    requires Exec(Next(s, TakeSnapshot(ids)), steps).snapshot == []
    ensures var n := Next(s, TakeSnapshot(ids));
            var t, turns := Exec(n, steps), Turns(n, steps);
            && |turns| == |ids| && t.removed == StillThere(ids, turns)
            && t.removals - s.removals == t.removed + Disconnects(n, steps)
  {
    hide Exec, AllEnabled, Turns, StillThere, Disconnects;
    WorkerCounts(Next(s, TakeSnapshot(ids)), steps);
  }

  // ---------- which client a cleanup removes ----------

  /** Clients are new when they come in, and come in once. */
  predicate ClientsOnce<C(==)>(s: State<C>) {
    TableIsAdded(s) && PendingAreNew(s) && PendingDiffer(s)
  }

  predicate TableIsAdded<C(==)>(s: State<C>) {
    forall id :: id in s.sessions ==> s.sessions[id] in s.added
  }

  predicate PendingAreNew<C(==)>(s: State<C>) {
    forall r :: r in s.pending ==> s.pending[r].newClient !in s.added
  }

  predicate PendingDiffer<C(==)>(s: State<C>) {
    forall r, q :: r in s.pending && q in s.pending && r != q ==> s.pending[r].newClient != s.pending[q].newClient
  }

  lemma {:induction false} ClientsComeOnce<C>(s: State<C>, steps: seq<Step<C>>)
    requires ClientsOnce(s) && AllEnabled(s, steps)
    ensures ClientsOnce(Exec(s, steps))
    decreases |steps|
  {
    if steps != [] {
      StepKeepsClientsOnce(s, steps[0]);
      ClientsComeOnce(Next(s, steps[0]), steps[1..]);
    }
  }

  lemma StepKeepsTableAdded<C>(s: State<C>, step: Step<C>)
    requires TableIsAdded(s) && Enabled(s, step)
    ensures TableIsAdded(Next(s, step))
  {
    hide FreshClient;
  }

  /** A pending request keeps its client from step to step; only a look-up brings a new one. */
  lemma PendingFrom<C>(s: State<C>, step: Step<C>, r: RequestId)
    requires Enabled(s, step) && r in Next(s, step).pending
    ensures r in s.pending ==> Next(s, step).pending[r].newClient == s.pending[r].newClient
    ensures r !in s.pending ==>
      step.LookUp? && r == step.r
      && Next(s, step).pending[r].newClient == step.newClient && Next(s, step).added == s.added
  {
    hide FreshClient;
  }

  lemma StepKeepsPendingNew<C>(s: State<C>, step: Step<C>)
    requires PendingAreNew(s) && PendingDiffer(s) && Enabled(s, step)
    ensures PendingAreNew(Next(s, step))
  {
    var t := Next(s, step);
    forall r | r in t.pending
      ensures t.pending[r].newClient !in t.added
    {
      PendingFrom(s, step, r);
      if r !in s.pending { assert FreshClient(s, step.newClient); }
    }
  }

  lemma StepKeepsPendingDiffer<C>(s: State<C>, step: Step<C>)
    requires PendingDiffer(s) && Enabled(s, step)
    ensures PendingDiffer(Next(s, step))
  {
    var t := Next(s, step);
    assert step.LookUp? ==> FreshClient(s, step.newClient);
    hide Next, Enabled;
    forall r, q | r in t.pending && q in t.pending && r != q
      ensures t.pending[r].newClient != t.pending[q].newClient
    {
      PendingFrom(s, step, r);
      PendingFrom(s, step, q);
    }
  }

  lemma StepKeepsClientsOnce<C>(s: State<C>, step: Step<C>)
    requires ClientsOnce(s) && Enabled(s, step)
    ensures ClientsOnce(Next(s, step))
  {
    hide Next, Enabled, TableIsAdded, PendingAreNew, PendingDiffer;
    StepKeepsTableAdded(s, step);
    StepKeepsPendingNew(s, step);
    StepKeepsPendingDiffer(s, step);
  }

  predicate Leads<C(==)>(s: State<C>, id: Id, c: C) {
    id in s.sessions && s.sessions[id] == c
  }

  /** The step writes or removes the session id. */
  predicate Touches<C(==)>(s: State<C>, step: Step<C>, id: Id)
    requires Enabled(s, step)
  {
    match step
    case AddClient(r) => s.pending[r].sid == id && id != ""
    case Disconnect(sid) => sid == id
    case RemoveStale => s.snapshot[0] == id
    case _ => false
  }

  predicate NoneTouches<C(==)>(s: State<C>, steps: seq<Step<C>>, id: Id)
    requires AllEnabled(s, steps)
    decreases |steps|
  {
    steps == [] || (!Touches(s, steps[0], id) && NoneTouches(Next(s, steps[0]), steps[1..], id))
  }

  lemma StepLeadsIff<C>(s: State<C>, step: Step<C>, id: Id, c: C)
    requires ClientsOnce(s) && Enabled(s, step) && c in s.added
    ensures c in Next(s, step).added
    ensures Leads(Next(s, step), id, c) <==> Leads(s, id, c) && !Touches(s, step, id)
  {
    match step
    case AddClient(r) => AddLeadsIff(s, r, id, c);
    case Disconnect(sid) => RemoveLeadsIff(s, sid, id, c);
    case RemoveStale => RemoveLeadsIff(s, s.snapshot[0], id, c);
    case _ =>
      hide ClientsOnce, FreshClient;
  }

  lemma RemoveLeadsIff<C>(s: State<C>, gone: Id, id: Id, c: C)
    ensures Leads(Remove(s, gone), id, c) <==> Leads(s, id, c) && gone != id
  {
  }

  lemma AddLeadsIff<C>(s: State<C>, r: RequestId, id: Id, c: C)
    requires PendingAreNew(s) && Enabled(s, AddClient(r)) && c in s.added
    ensures c in Next(s, AddClient(r)).added
    ensures Leads(Next(s, AddClient(r)), id, c) <==> Leads(s, id, c) && !Touches(s, AddClient(r), id)
  {
    assert s.pending[r].newClient != c;
    hide PendingAreNew;
  }

  /** A session still leads to the client it led to exactly when no step of the run has touched it: a
      client that has left the table does not come back. */
  lemma {:induction false} StillLeadsIff<C>(s: State<C>, steps: seq<Step<C>>, id: Id, c: C)
    requires ClientsOnce(s) && AllEnabled(s, steps) && c in s.added
    ensures Leads(Exec(s, steps), id, c) <==> Leads(s, id, c) && NoneTouches(s, steps, id)
    decreases |steps|
  {
    if steps != [] {
      hide ClientsOnce, Touches, Leads, Enabled, Next;
      StepLeadsIff(s, steps[0], id, c);
      StepKeepsClientsOnce(s, steps[0]);
      StillLeadsIff(Next(s, steps[0]), steps[1..], id, c);
    }
  }

  /** When the worker's turn for an id comes, it takes out the client it judged stale if and only if no
      step since the snapshot has touched that session. */
  lemma CleanupRemovesJudgedIff<C>(s: State<C>, ids: seq<Id>, steps: seq<Step<C>>, id: Id)
    requires ClientsOnce(s) && Enabled(s, TakeSnapshot(ids)) && id in ids
    requires var n := Next(s, TakeSnapshot(ids));
             AllEnabled(n, steps) && Exec(n, steps).snapshot != [] && Exec(n, steps).snapshot[0] == id
    ensures var n := Next(s, TakeSnapshot(ids)); var t := Exec(n, steps);
            && id in s.sessions
            && (Leads(t, id, s.sessions[id]) <==> NoneTouches(n, steps, id))
            && (id in t.sessions ==>
                   t.sessions[id] in Next(t, RemoveStale).closed && id !in Next(t, RemoveStale).sessions)
  {
    var n := Next(s, TakeSnapshot(ids));
    hide Exec, AllEnabled, NoneTouches;
    StillLeadsIff(n, steps, id, s.sessions[id]);
  }

  /** The worker trusts its snapshot: a client that replaces a stale one between the snapshot and the
      removal is closed with it, however fresh it is. */
  lemma CleanupClosesReplacement<C>(s: State<C>, r: RequestId, sid: Id, replacement: C)
    requires sid != "" && sid in s.sessions && s.snapshot == [] && r !in s.pending && FreshClient(s, replacement)
    ensures var steps := [TakeSnapshot([sid])] + ([LookUp(r, sid, replacement)] + ([CloseCurrent(r)]
                         + ([AddClient(r)] + ([RemoveStale] + []))));
            && AllEnabled(s, steps)
            && var t := Exec(s, steps); replacement in t.closed && sid !in t.sessions
  {
    var s1 := Next(s, TakeSnapshot([sid]));
    var s2 := Next(s1, LookUp(r, sid, replacement));
    var s3 := Next(s2, CloseCurrent(r));
    var s4 := Next(s3, AddClient(r));
    ExecStep(s4, RemoveStale, []);
    ExecStep(s3, AddClient(r), [RemoveStale] + []);
    ExecStep(s2, CloseCurrent(r), [AddClient(r)] + ([RemoveStale] + []));
    ExecStep(s1, LookUp(r, sid, replacement), [CloseCurrent(r)] + ([AddClient(r)] + ([RemoveStale] + [])));
    ExecStep(s, TakeSnapshot([sid]),
      [LookUp(r, sid, replacement)] + ([CloseCurrent(r)] + ([AddClient(r)] + ([RemoveStale] + []))));
  }
}
