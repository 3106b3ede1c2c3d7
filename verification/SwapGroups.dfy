/** The in-place form of the delta algebra: delta objects whose end points swap, swapGroups and xform
    overwrite, proved against the functions of DeltaAlgebra and Xform. */
module SwapGroups {
  import opened Texts
  import opened Deltas
  import opened DeltaAlgebra
  import opened Xform
  import opened Options

  class LiveDelta {
    const action: Action
    const lines: Text
    var start: Pos
    var end: Pos

    constructor (x: Delta)
      ensures Value() == x
    {
      action, lines, start, end := x.action, x.lines, x.start, x.end;
    }

    function Value(): Delta
      reads this
    {
      Delta(action, start, end, lines)
    }

    /** shift: move both end points by the distance from s to n, or back. */
    method ShiftBy(s: Pos, n: Pos, sign: int)
      modifies this
      ensures Value() == old(Value()).(start := ShiftPos(old(start), s, n, sign), end := ShiftPos(old(end), s, n, sign))
    {
      start := ShiftPos(start, s, n, sign);
      end := ShiftPos(end, s, n, sign);
    }
  }

  /** swap(e, t). */
  method SwapInPlace(e: LiveDelta, t: LiveDelta) returns (swapped: bool)
    requires e != t
    modifies e, t
    ensures swapped <==> old(Swap(e.Value(), t.Value())).Some?
    ensures swapped ==> (t.Value(), e.Value()) == old(Swap(e.Value(), t.Value())).value
    ensures !swapped ==> e.Value() == old(e.Value()) && t.Value() == old(t.Value())
  {
    var i, j := e.action.Insert?, t.action.Insert?;
    if i && j {
      if Leq(e.end, t.start) {
        t.ShiftBy(e.start, e.end, -1);
      } else {
        if !Leq(t.start, e.start) { return false; }
        e.ShiftBy(t.start, t.end, 1);
      }
    } else if i && !j {
      if Leq(e.end, t.start) {
        t.ShiftBy(e.start, e.end, -1);
      } else {
        if !Leq(t.end, e.start) { return false; }
        e.ShiftBy(t.start, t.end, -1);
      }
    } else if !i && j {
      if Leq(e.start, t.start) {
        t.ShiftBy(e.start, e.end, 1);
      } else {
        if !Leq(t.start, e.start) { return false; }
        e.ShiftBy(t.start, t.end, 1);
      }
    } else {
      if Leq(e.start, t.start) {
        t.ShiftBy(e.start, e.end, 1);
      } else {
        if !Leq(t.end, e.start) { return false; }
        e.ShiftBy(t.start, t.end, -1);
      }
    }
    return true;
  }

  /** xform(e, t), where no removed ranges overlap. */
  method XformInPlace(e: LiveDelta, t: LiveDelta)
    requires e != t && !Overlap(e.Value(), t.Value())
    modifies e, t
    ensures e.Value() == old(XformSelf(e.Value(), t.Value()))
    ensures t.Value() == old(XformOther(e.Value(), t.Value()))
  {
    var i, j := e.action.Insert?, t.action.Insert?;
    if i && j {
      if Less(e.start, t.start) { t.ShiftBy(e.start, e.end, 1); } else { e.ShiftBy(t.start, t.end, 1); }
    } else if i && !j {
      if Leq(t.end, e.start) {
        e.ShiftBy(t.start, t.end, -1);
      } else if Leq(e.start, t.start) {
        t.ShiftBy(e.start, e.end, 1);
      } else {
        e.ShiftBy(t.start, e.start, -1);
        t.ShiftBy(e.start, e.end, 1);
      }
    } else if !i && j {
      if Leq(e.end, t.start) {
        t.ShiftBy(e.start, e.end, -1);
      } else if Leq(t.start, e.start) {
        e.ShiftBy(t.start, t.end, 1);
      } else {
        t.ShiftBy(e.start, t.start, -1);
        e.ShiftBy(t.start, t.end, 1);
      }
    } else {
      if Leq(e.end, t.start) { t.ShiftBy(e.start, e.end, -1); } else { e.ShiftBy(t.start, t.end, -1); }
    }
  }

  // ---------- groups ----------

  function Values(xs: seq<LiveDelta>): (vs: seq<Delta>)
    reads xs
    ensures |vs| == |xs|
  {
    seq(|xs|, i requires 0 <= i < |xs| reads xs => xs[i].Value())
  }

  /** The groups hold pairwise different delta objects. */
  ghost predicate Separate(e: seq<LiveDelta>, t: seq<LiveDelta>) {
    && (forall i, j :: 0 <= i < j < |e| ==> e[i] != e[j])
    && (forall i, j :: 0 <= i < j < |t| ==> t[i] != t[j])
    && (forall i, j :: 0 <= i < |e| && 0 <= j < |t| ==> e[i] != t[j])
  }

  /** p(t[r], e[n]) of the rollback, whose refusal goes unnoticed. */
  method SwapOrKeep(e: seq<LiveDelta>, t: seq<LiveDelta>, n: nat, r: nat)
    requires Separate(e, t) && n < |e| && r < |t|
    modifies e[n], t[r]
    ensures var (t1, x1) := TrySwap(old(t[r].Value()), old(e[n].Value()));
            Values(t) == old(Values(t))[r := t1] && Values(e) == old(Values(e))[n := x1]
  {
    var _ := SwapInPlace(t[r], e[n]);
  }

  lemma {:induction false} CarryBackLast(ts: seq<Delta>, t: Delta, x: Delta)
    ensures var c := CarryBack(ts, TrySwap(t, x).1);
            CarryBack(ts + [t], x) == (c.0 + [TrySwap(t, x).0], c.1)
    decreases |ts|
  {
    var (t1, x1) := TrySwap(t, x);
    if ts == [] {
      assert ts + [t] == [t] && [t][1..] == [];
      assert CarryBack([t], x) == ([t1] + [], x1);
      assert [t1] + [] == [] + [t1];
    } else {
      assert (ts + [t])[1..] == ts[1..] + [t];
      CarryBackLast(ts[1..], t, x);
      var c := CarryBack(ts[1..], x1);
      var (t0, x3) := TrySwap(ts[0], c.1);
      assert CarryBack(ts + [t], x) == ([t0] + (c.0 + [t1]), x3);
      assert [t0] + (c.0 + [t1]) == ([t0] + c.0) + [t1];
    }
  }

  /** What is left to do of CarryBack(t0, x0) when the edits from r on are done. */
  ghost predicate BackFrom(t0: seq<Delta>, x0: Delta, ts: seq<Delta>, x: Delta, r: nat) {
    && r <= |ts| == |t0|
    && CarryBack(t0, x0) == (CarryBack(ts[..r], x).0 + ts[r..], CarryBack(ts[..r], x).1)
  }

  lemma BackStep(t0: seq<Delta>, x0: Delta, ts: seq<Delta>, x: Delta, r: nat)
    requires 0 < r && BackFrom(t0, x0, ts, x, r)
    ensures var (t1, x1) := TrySwap(ts[r - 1], x);
            BackFrom(t0, x0, ts[r - 1 := t1], x1, r - 1)
  {
    var (t1, x1) := TrySwap(ts[r - 1], x);
    var us := ts[r - 1 := t1];
    assert ts[..r] == ts[..r - 1] + [ts[r - 1]];
    CarryBackLast(ts[..r - 1], ts[r - 1], x);
    assert us[..r - 1] == ts[..r - 1] && us[r - 1..] == [t1] + ts[r..];
    var c := CarryBack(ts[..r - 1], x1);
    assert (c.0 + [t1]) + ts[r..] == c.0 + us[r - 1..];
  }

  lemma BackStart(t0: seq<Delta>, x0: Delta)
    ensures BackFrom(t0, x0, t0, x0, |t0|)
  {
    assert t0[..|t0|] == t0 && t0[|t0|..] == [];
    assert CarryBack(t0, x0).0 + [] == CarryBack(t0, x0).0;
  }

  lemma BackEnd(t0: seq<Delta>, x0: Delta, ts: seq<Delta>, x: Delta)
    requires BackFrom(t0, x0, ts, x, 0)
    ensures CarryBack(t0, x0) == (ts, x)
  {
    assert ts[..0] == [] && ts[0..] == ts && [] + ts == ts;
  }

  /** Move e[n] back in front of t. */
  method MoveInFront(e: seq<LiveDelta>, t: seq<LiveDelta>, n: nat)
    requires Separate(e, t) && n < |e|
    modifies e[n], t
    ensures CarryBack(old(Values(t)), old(Values(e))[n]) == (Values(t), Values(e)[n])
    ensures Values(e) == old(Values(e))[n := Values(e)[n]]
  {
    hide CarryBack, TrySwap, BackFrom;
    var r := |t|;
    ghost var e0, t0 := Values(e), Values(t);
    ghost var es, ts := e0, t0;
    BackStart(t0, e0[n]);
    while r > 0
      invariant 0 <= r <= |t|
      invariant es == Values(e) == e0[n := es[n]] && ts == Values(t)
      invariant BackFrom(t0, e0[n], ts, es[n], r)
    {
      r := r - 1;
      BackStep(t0, e0[n], ts, es[n], r + 1);
      SwapOrKeep(e, t, n, r);
      es, ts := Values(e), Values(t);
    }
    BackEnd(t0, e0[n], ts, es[n]);
  }

  /** Move e[n] back in front of t[..r0]. */
  method MoveBack(e: seq<LiveDelta>, t: seq<LiveDelta>, n: nat, r0: nat)
    requires Separate(e, t) && n < |e| && r0 <= |t|
    modifies e[n], t[..r0]
    ensures var c := CarryBack(old(Values(t))[..r0], old(Values(e))[n]);
            Values(t) == c.0 + old(Values(t))[r0..] && Values(e) == old(Values(e))[n := c.1]
  {
    hide CarryBack;
    var front := t[..r0];
    ghost var t0 := Values(t);
    assert Values(front) == t0[..r0];
    MoveInFront(e, front, n);
    assert Values(t) == Values(front) + t0[r0..];
  }

  /** The outcome of CarryPast(x0, t0), given x behind ts[..r] and still to pass ts[r..]. */
  ghost predicate PastFrom(x0: Delta, t0: seq<Delta>, x: Delta, ts: seq<Delta>, r: nat) {
    && r <= |ts| == |t0|
    && var c := CarryPast(x, ts[r..]);
    CarryPast(x0, t0) ==
      if c.ok then Carried(ts[..r] + c.ts, c.x, true)
      else Carried(CarryBack(ts[..r], c.x).0 + c.ts, CarryBack(ts[..r], c.x).1, false)
  }

  lemma PastStep(x0: Delta, t0: seq<Delta>, x: Delta, ts: seq<Delta>, r: nat, t1: Delta, x1: Delta)
    requires r < |ts| && PastFrom(x0, t0, x, ts, r) && Swap(x, ts[r]) == Some((t1, x1))
    ensures PastFrom(x0, t0, x1, ts[r := t1], r + 1)
  {
    hide CarryPast, CarryBack, Swap, TrySwap;
    var us := ts[r := t1];
    assert us[r + 1..] == ts[r + 1..] && us[..r + 1] == ts[..r] + [t1];
    PastUnfold(x, ts, r, t1, x1);
    var c := CarryPast(x1, us[r + 1..]);
    if c.ok {
      assert ts[..r] + ([t1] + c.ts) == us[..r + 1] + c.ts;
    } else {
      CarryBackLast(ts[..r], t1, c.x);
      var (t2, x2) := TrySwap(t1, c.x);
      var b := CarryBack(ts[..r], x2);
      assert b.0 + ([t2] + c.ts) == (b.0 + [t2]) + c.ts;
    }
  }

  lemma PastUnfold(x: Delta, ts: seq<Delta>, r: nat, t1: Delta, x1: Delta)
    requires r < |ts| && Swap(x, ts[r]) == Some((t1, x1))
    ensures var c := CarryPast(x1, ts[r + 1..]); var b := TrySwap(t1, c.x);
            CarryPast(x, ts[r..]) == if c.ok then Carried([t1] + c.ts, c.x, true) else Carried([b.0] + c.ts, b.1, false)
  {
    hide Swap, TrySwap;
    assert ts[r..][0] == ts[r] && ts[r..][1..] == ts[r + 1..];
  }

  lemma PastStart(x0: Delta, t0: seq<Delta>)
    ensures PastFrom(x0, t0, x0, t0, 0)
  {
    assert t0[0..] == t0 && t0[..0] == [] && [] + CarryPast(x0, t0).ts == CarryPast(x0, t0).ts;
  }

  lemma PastEnd(x0: Delta, t0: seq<Delta>, x: Delta, ts: seq<Delta>)
    requires |ts| == |t0| && PastFrom(x0, t0, x, ts, |ts|)
    ensures CarryPast(x0, t0) == Carried(ts, x, true)
  {
    assert ts[..|ts|] == ts && ts[|ts|..] == [] && ts + [] == ts;
  }

  lemma PastStuck(x0: Delta, t0: seq<Delta>, x: Delta, ts: seq<Delta>, r: nat)
    requires r < |ts| && PastFrom(x0, t0, x, ts, r) && Swap(x, ts[r]).None?
    ensures var b := CarryBack(ts[..r], x);
            CarryPast(x0, t0) == Carried(b.0 + ts[r..], b.1, false)
  {
    assert ts[r..][0] == ts[r];
  }

  /** p(e[n], t[r]) of the forward loop. */
  method SwapAt(e: seq<LiveDelta>, t: seq<LiveDelta>, n: nat, r: nat) returns (swapped: bool)
    requires Separate(e, t) && n < |e| && r < |t|
    modifies e[n], t[r]
    ensures swapped <==> old(Swap(e[n].Value(), t[r].Value())).Some?
    ensures swapped ==> old(Swap(e[n].Value(), t[r].Value())) == Some((t[r].Value(), e[n].Value()))
    ensures Values(e) == old(Values(e))[n := e[n].Value()] && Values(t) == old(Values(t))[r := t[r].Value()]
    ensures !swapped ==> Values(e) == old(Values(e)) && Values(t) == old(Values(t))
  {
    swapped := SwapInPlace(e[n], t[r]);
  }

  /** Move e[n] behind t; on a refusal move it back. */
  method MoveBehind(e: seq<LiveDelta>, t: seq<LiveDelta>, n: nat) returns (ok: bool)
    requires Separate(e, t) && n < |e|
    modifies e[n], t
    ensures CarryPast(old(Values(e))[n], old(Values(t))) == Carried(Values(t), Values(e)[n], ok)
    ensures Values(e) == old(Values(e))[n := Values(e)[n]]
  {
    hide CarryPast, CarryBack, Swap, PastFrom;
    var r := 0;
    ghost var e0, t0 := Values(e), Values(t);
    ghost var es, ts := e0, t0;
    PastStart(e0[n], t0);
    while r < |t|
      invariant r <= |t|
      invariant es == Values(e) == e0[n := es[n]] && ts == Values(t)
      invariant PastFrom(e0[n], t0, es[n], ts, r)
    {
      var swapped := SwapAt(e, t, n, r);
      if !swapped {
        PastStuck(e0[n], t0, es[n], ts, r);
        MoveBack(e, t, n, r);
        return false;
      }
      PastStep(e0[n], t0, es[n], ts, r, t[r].Value(), e[n].Value());
      es, ts := Values(e), Values(t);
      r := r + 1;
    }
    PastEnd(e0[n], t0, es[n], ts);
    return true;
  }

  /** Move the edits xs back in front of ts, first one first. */
  function BackAll(xs: seq<Delta>, ts: seq<Delta>): (b: (seq<Delta>, seq<Delta>))
    ensures |b.0| == |xs| && |b.1| == |ts|
    decreases |xs|
  {
    if xs == [] then ([], ts)
    else
      var (ts1, x1) := CarryBack(ts, xs[0]);
      var (rest, ts2) := BackAll(xs[1..], ts1);
      ([x1] + rest, ts2)
  }

  /** The outcome of SwapAll(e0, t0), given es[n..] behind ts and es[..n] still to move. */
  ghost predicate AllFrom(e0: seq<Delta>, t0: seq<Delta>, es: seq<Delta>, ts: seq<Delta>, n: nat) {
    && n <= |es| == |e0| && |ts| == |t0|
    && var s := SwapAll(es[..n], ts);
    SwapAll(e0, t0) ==
      if s.ok then Swapped(s.es + es[n..], s.ts, true)
      else Swapped(s.es + BackAll(es[n..], s.ts).0, BackAll(es[n..], s.ts).1, false)
  }

  lemma SwapAllUnfold(es: seq<Delta>, ts: seq<Delta>, n: nat)
    requires 0 < n <= |es|
    ensures var c := CarryPast(es[n - 1], ts);
            var s := SwapAll(es[..n - 1], c.ts);
            var b := CarryBack(s.ts, c.x);
            SwapAll(es[..n], ts) == if !c.ok then Swapped(es[..n - 1] + [c.x], c.ts, false)
                                    else if s.ok then Swapped(s.es + [c.x], s.ts, true)
                                    else Swapped(s.es + [b.1], b.0, false)
  {
    assert es[..n][..n - 1] == es[..n - 1] && es[..n][n - 1] == es[n - 1];
  }

  lemma BackAllUnfold(x: Delta, xs: seq<Delta>, ts: seq<Delta>)
    ensures var c := CarryBack(ts, x); var b := BackAll(xs, c.0);
            BackAll([x] + xs, ts) == ([c.1] + b.0, b.1)
  {
    assert ([x] + xs)[1..] == xs;
  }

  lemma AllStep(e0: seq<Delta>, t0: seq<Delta>, es: seq<Delta>, ts: seq<Delta>, n: nat)
    requires 0 < n && AllFrom(e0, t0, es, ts, n)
    ensures var c := CarryPast(es[n - 1], ts);
            var fs := es[n - 1 := c.x];
            && (c.ok ==> AllFrom(e0, t0, fs, c.ts, n - 1))
            && (!c.ok ==> var b := BackAll(fs[n..], c.ts);
                          SwapAll(e0, t0) == Swapped(fs[..n] + b.0, b.1, false))
  {
    hide SwapAll, CarryPast, CarryBack, BackAll;
    var c := CarryPast(es[n - 1], ts);
    var fs := es[n - 1 := c.x];
    SwapAllUnfold(es, ts, n);
    assert es[..n - 1] == fs[..n - 1];
    assert fs[n..] == es[n..] && fs[n - 1..] == [c.x] + es[n..] && fs[..n] == es[..n - 1] + [c.x];
    if c.ok {
      var s := SwapAll(es[..n - 1], c.ts);
      if s.ok {
        assert (s.es + [c.x]) + es[n..] == s.es + fs[n - 1..];
      } else {
        var (ts3, x3) := CarryBack(s.ts, c.x);
        var b := BackAll(es[n..], ts3);
        BackAllUnfold(c.x, es[n..], s.ts);
        assert (s.es + [x3]) + b.0 == s.es + ([x3] + b.0);
      }
    }
  }

  lemma BackAllStep(xs: seq<Delta>, ts: seq<Delta>, n: nat)
    requires n < |xs|
    ensures var c := CarryBack(ts, xs[n]);
            var ys := xs[n := c.1];
            ys[..n + 1] + BackAll(ys[n + 1..], c.0).0 == xs[..n] + BackAll(xs[n..], ts).0
            && BackAll(ys[n + 1..], c.0).1 == BackAll(xs[n..], ts).1
  {
    var c := CarryBack(ts, xs[n]);
    var ys := xs[n := c.1];
    assert xs[n..][1..] == xs[n + 1..] == ys[n + 1..];
    assert ys[..n + 1] == xs[..n] + [c.1];
    var b := BackAll(ys[n + 1..], c.0);
    assert xs[..n] + ([c.1] + b.0) == ys[..n + 1] + b.0;
  }

  lemma BackAllEnd(es: seq<Delta>, ts: seq<Delta>)
    ensures es[..|es|] + BackAll(es[|es|..], ts).0 == es && BackAll(es[|es|..], ts).1 == ts
  {
    assert es[..|es|] == es && es[|es|..] == [] && es + [] == es;
  }

  /** The rollback: move e[n0..] back in front of t. */
  method MoveAllBack(e: seq<LiveDelta>, t: seq<LiveDelta>, n0: nat)
    requires Separate(e, t) && n0 <= |e|
    modifies e, t
    ensures var b := BackAll(old(Values(e))[n0..], old(Values(t)));
            Values(e) == old(Values(e))[..n0] + b.0 && Values(t) == b.1
  {
    hide BackAll, CarryBack;
    var n := n0;
    ghost var es, ts := Values(e), Values(t);
    ghost var es', ts' := es[..n] + BackAll(es[n..], ts).0, BackAll(es[n..], ts).1;
    while n < |e|
      invariant n <= |e|
      invariant es == Values(e) && ts == Values(t)
      invariant es' == es[..n] + BackAll(es[n..], ts).0 && ts' == BackAll(es[n..], ts).1
    {
      BackAllStep(es, ts, n);
      MoveInFront(e, t, n);
      es, ts := Values(e), Values(t);
      n := n + 1;
    }
    BackAllEnd(es, ts);
  }

  lemma AllStart(es: seq<Delta>, ts: seq<Delta>)
    ensures AllFrom(es, ts, es, ts, |es|)
  {
    hide SwapAll;
    var s := SwapAll(es, ts);
    assert es[..|es|] == es && es[|es|..] == [] && s.es + [] == s.es;
    assert BackAll([], s.ts) == ([], s.ts);
  }

  lemma AllEnd(e0: seq<Delta>, t0: seq<Delta>, es: seq<Delta>, ts: seq<Delta>)
    requires AllFrom(e0, t0, es, ts, 0)
    ensures SwapAll(e0, t0) == Swapped(es, ts, true)
  {
    assert es[..0] == [] && es[0..] == es && [] + es == es;
  }

  /** swapGroups(e, t): move the whole group t in front of the group e, last edit of e first; on a
      pair that cannot be swapped, move everything back. */
  method SwapGroups(e: seq<LiveDelta>, t: seq<LiveDelta>) returns (swapped: bool)
    requires Separate(e, t)
    modifies e, t
    ensures SwapAll(old(Values(e)), old(Values(t))) == Swapped(Values(e), Values(t), swapped)
  {
    hide SwapAll, CarryPast, BackAll, AllFrom;
    var n := |e|;
    ghost var e0, t0 := Values(e), Values(t);
    ghost var es, ts := e0, t0;
    AllStart(e0, t0);
    while n > 0
      invariant 0 <= n <= |e|
      invariant es == Values(e) && ts == Values(t)
      invariant AllFrom(e0, t0, es, ts, n)
    {
      AllStep(e0, t0, es, ts, n);
      n := n - 1;
      var ok := MoveBehind(e, t, n);
      if !ok {
        MoveAllBack(e, t, n + 1);
        return false;
      }
      es, ts := Values(e), Values(t);
    }
    AllEnd(e0, t0, es, ts);
    return true;
  }
}
