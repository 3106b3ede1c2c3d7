/** Examples of failed swaps: one that corrupts the history, and one that comes out right by luck. */
module SwapExamples {
  import opened CodeUnits
  import opened Texts
  import opened Deltas
  import opened DeltaAlgebra
  import opened Options

  lemma SwapAllOfOne(x: Delta, ts: seq<Delta>)
    ensures var c := CarryPast(x, ts); SwapAll([x], ts) == Swapped([c.x], c.ts, c.ok)
  {
    assert [x][..0] == [];
  }

  lemma CarryStep(x: Delta, t: Delta, ts: seq<Delta>)
    ensures Swap(x, t).None? ==> CarryPast(x, [t] + ts) == Carried([t] + ts, x, false)
    ensures Swap(x, t).Some? ==>
      var (t1, x1) := Swap(x, t).value;
      var c := CarryPast(x1, ts);
      && (c.ok ==> CarryPast(x, [t] + ts) == Carried([t1] + c.ts, c.x, true))
      && (!c.ok ==> CarryPast(x, [t] + ts) == Carried([TrySwap(t1, c.x).0] + c.ts, TrySwap(t1, c.x).1, false))
  {
    assert ([t] + ts)[1..] == ts;
  }

  function OnLine(action: Action, k: nat, s: Str): Delta { MakeDelta(action, Pos(0, k), [s]) }
  function Typed(k: nat, s: Str): Delta { OnLine(Insert, k, s) }
  function Erased(k: nat, s: Str): Delta { OnLine(Remove, k, s) }

  /** swap in the coordinates of one line, the second edit behind the first ... */
  lemma SwapBehind(a: Action, k: nat, w: Str, b: Action, l: nat, z: Str)
    requires k + (if a.Insert? then |w| else 0) <= l
    ensures Swap(OnLine(a, k, w), OnLine(b, l, z))
            == Some((OnLine(b, if a.Insert? then l - |w| else l + |w|, z), OnLine(a, k, w)))
  {
  }

  /** ... or in front of it. */
  lemma SwapInFront(a: Action, k: nat, w: Str, b: Action, l: nat, z: Str)
    requires k + (if a.Insert? then |w| else 0) > l && l + (if b.Remove? then |z| else 0) <= k
    ensures Swap(OnLine(a, k, w), OnLine(b, l, z))
            == Some((OnLine(b, l, z), OnLine(a, if b.Insert? then k + |z| else k - |z|, w)))
  {
  }

  lemma SwapRefused(a: Action, k: nat, w: Str, b: Action, l: nat, z: Str)
    requires k + (if a.Insert? then |w| else 0) > l && l + (if b.Remove? then |z| else 0) > k
    ensures Swap(OnLine(a, k, w), OnLine(b, l, z)).None?
  {
  }

  lemma FourSteps(d: Text, w: Delta, x: Delta, y: Delta, z: Delta, d1: Text, d2: Text, d3: Text)
    requires Valid(d, w) && Apply(d, w) == d1 && Valid(d1, x) && Apply(d1, x) == d2
    requires Valid(d2, y) && Apply(d2, y) == d3
    ensures ValidRun(d, [w] + ([x] + ([y] + ([z] + [])))) <==> Valid(d3, z)
  {
    RunCons(d3, z, []);
    RunCons(d2, y, [z] + []);
    RunCons(d1, x, [y] + ([z] + []));
    RunCons(d, w, [x] + ([y] + ([z] + [])));
  }

  /** A three-step example of a rollback that is refused half-way. */
  lemma HalfRollback(x: Delta, t0: Delta, t1: Delta, t2: Delta, x': Delta, t0': Delta, t1': Delta)
    requires Swap(x, t2).None?
    requires Swap(x, t1) == Some((t1', x)) && Swap(t1', x) == Some((x', t1'))
    requires Swap(x, t0) == Some((t0', x)) && Swap(t0', x').None?
    ensures CarryPast(x, [t0] + ([t1] + ([t2] + []))) == Carried([t0'] + ([t1'] + ([t2] + [])), x', false)
  {
    CarryStep(x, t2, []);
    CarryStep(x, t1, [t2] + []);
    CarryStep(x, t0, [t1] + ([t2] + []));
  }

  lemma HalfRollbackSwaps(u: Unit, p: Unit, q: Unit)
    ensures Swap(Typed(0, [u]), Erased(0, [u, q])).None?
    ensures Swap(Typed(0, [u]), Erased(1, [p])) == Some((Erased(0, [p]), Typed(0, [u])))
    ensures Swap(Erased(0, [p]), Typed(0, [u])) == Some((Typed(1, [u]), Erased(0, [p])))
    ensures Swap(Typed(0, [u]), Typed(1, [p, q])) == Some((Typed(0, [p, q]), Typed(0, [u])))
    ensures Swap(Typed(0, [p, q]), Typed(1, [u])).None?
  {
    hide Swap, OnLine;
    SwapRefused(Insert, 0, [u], Remove, 0, [u, q]);
    SwapBehind(Insert, 0, [u], Remove, 1, [p]);
    SwapBehind(Remove, 0, [p], Insert, 0, [u]);
    SwapBehind(Insert, 0, [u], Insert, 1, [p, q]);
    SwapRefused(Insert, 0, [p, q], Insert, 1, [u]);
  }

  /** Edits of a one-line document. */
  lemma LineEdit(l: Str, w: Str, r: Str, s: Str, s': Str)
    requires s == l + r && s' == l + w + r
    ensures Valid([s], Typed(|l|, w)) && Apply([s], Typed(|l|, w)) == [s']
    ensures Valid([s'], Erased(|l|, w)) && Apply([s'], Erased(|l|, w)) == [s]
  {
    hide Valid, Apply, Before, After, Between;
    var a, b: Text := [l], [r];
    CatUnit(a);
    EditInContext(a, Typed(|l|, w), b);
    EditInContext(a, Erased(|l|, w), b);
    assert Cat(a, b) == [s];
    assert Cat(Cat(a, [w]), b) == [s'];
  }

  lemma LineMismatch(l: Str, w: Str, r: Str, s: Str)
    requires s == l + r && w != [] && r != [] && r[0] != w[0]
    ensures !Valid([s], Erased(|l|, w))
  {
  }

  lemma HalfRollbackBefore(s: Str, u: Unit, p: Unit, q: Unit, d1: Str, d2: Str, d3: Str)
    requires s == [] + s && d1 == [] + [u] + s && d1 == [u] + s && d2 == [u] + [p, q] + s
    requires d3 == [u] + ([q] + s) && d2 == [u] + [p] + ([q] + s) && d3 == [] + [u, q] + s
    ensures ValidRun([s], [Typed(0, [u])] + ([Typed(1, [p, q])] + ([Erased(1, [p])] + ([Erased(0, [u, q])] + []))))
  {
    hide Valid, Apply, MakeDelta, Typed, Erased, ValidRun;
    LineEdit([], [u], s, s, d1);
    LineEdit([u], [p, q], s, d1, d2);
    LineEdit([u], [p], [q] + s, d3, d2);
    LineEdit([], [u, q], s, s, d3);
    FourSteps([s], Typed(0, [u]), Typed(1, [p, q]), Erased(1, [p]), Erased(0, [u, q]), [d1], [d2], [d3]);
  }

  lemma HalfRollbackAfter(c: Unit, s: Str, u: Unit, p: Unit, q: Unit, d1: Str, d2: Str, d3: Str)
    requires u != q
    requires d1 == [c] + [u] + s && d2 == [p, q] + d1 && d3 == [q] + d1
    ensures !ValidRun([[c] + s], [Typed(1, [u])] +
              ([Typed(0, [p, q])] + ([Erased(0, [p])] + ([Erased(0, [u, q])] + []))))
  {
    hide Valid, Apply, MakeDelta, Typed, Erased, ValidRun;
    LineEdit([c], [u], s, [c] + s, d1);
    LineEdit([], [p, q], d1, d1, d2);
    LineEdit([], [p], d3, d3, d2);
    LineMismatch([], [u, q], d3, d3);
    FourSteps([[c] + s], Typed(1, [u]), Typed(0, [p, q]), Erased(0, [p]), Erased(0, [u, q]), [d1], [d2], [d3]);
  }

  /** The edits of the example below, and what the failed swap makes of them. */
  function ExampleGroup(u: Unit, p: Unit, q: Unit): seq<Delta> {
    [Typed(1, [p, q])] + ([Erased(1, [p])] + ([Erased(0, [u, q])] + []))
  }

  function ExampleResult(u: Unit, p: Unit, q: Unit): seq<Delta> {
    [Typed(0, [p, q])] + ([Erased(0, [p])] + ([Erased(0, [u, q])] + []))
  }

  lemma ExampleIsRun(s: Str, u: Unit, p: Unit, q: Unit)
    ensures ValidRun([s], [Typed(0, [u])] + ExampleGroup(u, p, q))
  {
    HalfRollbackBefore(s, u, p, q, [u] + s, [u] + [p, q] + s, [u] + ([q] + s));
  }

  lemma ExampleBreaks(c: Unit, s: Str, u: Unit, p: Unit, q: Unit)
    requires u != q
    ensures !ValidRun([[c] + s], [Typed(1, [u])] + ExampleResult(u, p, q))
  {
    var d1 := [c] + [u] + s;
    HalfRollbackAfter(c, s, u, p, q, d1, [p, q] + d1, [q] + d1);
  }

  lemma ExampleFails(u: Unit, p: Unit, q: Unit)
    ensures SwapAll([Typed(0, [u])], ExampleGroup(u, p, q)) == Swapped([Typed(1, [u])], ExampleResult(u, p, q), false)
  {
    hide Swap, Typed, Erased, SwapAll, CarryPast;
    HalfRollbackSwaps(u, p, q);
    HalfRollback(Typed(0, [u]), Typed(1, [p, q]), Erased(1, [p]), Erased(0, [u, q]),
                 Typed(1, [u]), Typed(0, [p, q]), Erased(0, [p]));
    SwapAllOfOne(Typed(0, [u]), ExampleGroup(u, p, q));
  }

  /** The condition matters.  A character u is typed in front of a line, "pq" right behind it, then p
      and "uq" are removed.  The last edit cannot swap with the first; swapping back stops half-way,
      because behind the swapped removal of p the insertion of u is put back inside "pq".  The groups
      handed back no longer are edits of the document. */
  lemma FailedSwapCanCorrupt(c: Unit, s: Str, u: Unit, p: Unit, q: Unit)
    requires u != q
    ensures var d, es, ts := [[c] + s], [Typed(0, [u])], ExampleGroup(u, p, q);
            var r := SwapAll(es, ts);
            ValidRun(d, es + ts) && !r.ok && !ValidRun(d, r.es + r.ts)
  {
    hide ValidRun, SwapAll, ExampleGroup, ExampleResult, Typed, Erased;
    ExampleIsRun([c] + s, u, p, q);
    ExampleFails(u, p, q);
    ExampleBreaks(c, s, u, p, q);
  }

  // ---------- a rollback that comes out right although a pair met ----------

  lemma CarryBackStep(t: Delta, ts: seq<Delta>, x: Delta)
    ensures var b := CarryBack(ts, x); var p := TrySwap(t, b.1);
            CarryBack([t] + ts, x) == ([p.0] + b.0, p.1)
  {
    assert ([t] + ts)[1..] == ts;
  }

  lemma PastThree(x: Delta, t0: Delta, t1: Delta, t2: Delta,
                  x1: Delta, x2: Delta, x3: Delta, u0: Delta, u1: Delta, u2: Delta)
    requires Swap(x, t0) == Some((u0, x1)) && Swap(x1, t1) == Some((u1, x2)) && Swap(x2, t2) == Some((u2, x3))
    ensures CarryPast(x, [t0] + ([t1] + ([t2] + []))) == Carried([u0] + ([u1] + ([u2] + [])), x3, true)
    ensures NeverMeets(x, [t0] + ([t1] + ([t2] + []))) <==> !Meets(x, t0) && !Meets(x1, t1) && !Meets(x2, t2)
  {
    hide Swap, Meets;
    CarryStep(x2, t2, []);
    CarryStep(x1, t1, [t2] + []);
    CarryStep(x, t0, [t1] + ([t2] + []));
    assert ([t0] + ([t1] + ([t2] + [])))[1..] == [t1] + ([t2] + []) && ([t1] + ([t2] + []))[1..] == [t2] + [];
    assert NeverMeets(x3, ([t2] + [])[1..]);
    assert NeverMeets(x2, [t2] + []) <==> !Meets(x2, t2);
    assert NeverMeets(x1, [t1] + ([t2] + [])) <==> !Meets(x1, t1) && NeverMeets(x2, [t2] + []);
  }

  lemma BackThree(x: Delta, t0: Delta, t1: Delta, t2: Delta,
                  x1: Delta, x2: Delta, x3: Delta, u0: Delta, u1: Delta, u2: Delta)
    requires Swap(t2, x) == Some((x1, u2)) && Swap(t1, x1) == Some((x2, u1)) && Swap(t0, x2) == Some((x3, u0))
    ensures CarryBack([t0] + ([t1] + ([t2] + [])), x) == ([u0] + ([u1] + ([u2] + [])), x3)
  {
    hide Swap;
    CarryBackStep(t2, [], x);
    CarryBackStep(t1, [t2] + [], x);
    CarryBackStep(t0, [t1] + ([t2] + []), x);
  }

  /** Three edits on one side, three on the other; u, v and p, q are typed and removed again. */
  function LuckyFirst(u: Unit, v: Unit): seq<Delta> {
    ([Typed(0, [u])] + [Typed(1, [v])]) + [Erased(1, [v])]
  }

  function LuckySecond(u: Unit, p: Unit, q: Unit): seq<Delta> {
    [Erased(0, [u])] + ([Typed(0, [p, q])] + ([Erased(0, [p, q])] + []))
  }

  lemma LineMeets(v: Unit, p: Unit, q: Unit)
    ensures Meets(Typed(0, [v]), Erased(1, [p, q]))
  {
  }

  lemma LuckySwaps(u: Unit, v: Unit, p: Unit, q: Unit)
    ensures Swap(Erased(1, [v]), Erased(0, [u])) == Some((Erased(0, [u]), Erased(0, [v])))
    ensures Swap(Erased(0, [v]), Typed(0, [p, q])) == Some((Typed(1, [p, q]), Erased(0, [v])))
    ensures Swap(Erased(0, [v]), Erased(0, [p, q])) == Some((Erased(1, [p, q]), Erased(0, [v])))
    ensures Swap(Typed(1, [v]), Erased(0, [u])) == Some((Erased(0, [u]), Typed(0, [v])))
    ensures Swap(Typed(0, [v]), Typed(1, [p, q])) == Some((Typed(0, [p, q]), Typed(0, [v])))
    ensures Swap(Typed(0, [v]), Erased(1, [p, q])) == Some((Erased(0, [p, q]), Typed(0, [v])))
    ensures Swap(Typed(0, [u]), Erased(0, [u])).None?
    ensures Meets(Typed(0, [v]), Erased(1, [p, q]))
  {
    hide Swap, OnLine;
    SwapInFront(Remove, 1, [v], Remove, 0, [u]);
    SwapBehind(Remove, 0, [v], Insert, 0, [p, q]);
    SwapBehind(Remove, 0, [v], Remove, 0, [p, q]);
    SwapInFront(Insert, 1, [v], Remove, 0, [u]);
    SwapBehind(Insert, 0, [v], Insert, 1, [p, q]);
    SwapBehind(Insert, 0, [v], Remove, 1, [p, q]);
    SwapRefused(Insert, 0, [u], Remove, 0, [u]);
    LineMeets(v, p, q);
  }

  lemma LuckySwapsBack(u: Unit, v: Unit, p: Unit, q: Unit)
    ensures Swap(Erased(0, [p, q]), Typed(0, [v])) == Some((Typed(2, [v]), Erased(0, [p, q])))
    ensures Swap(Typed(0, [p, q]), Typed(2, [v])) == Some((Typed(0, [v]), Typed(0, [p, q])))
    ensures Swap(Erased(0, [u]), Typed(0, [v])) == Some((Typed(1, [v]), Erased(0, [u])))
    ensures Swap(Erased(0, [p, q]), Erased(0, [v])) == Some((Erased(2, [v]), Erased(0, [p, q])))
    ensures Swap(Typed(0, [p, q]), Erased(2, [v])) == Some((Erased(0, [v]), Typed(0, [p, q])))
    ensures Swap(Erased(0, [u]), Erased(0, [v])) == Some((Erased(1, [v]), Erased(0, [u])))
  {
    hide Swap, OnLine;
    SwapBehind(Remove, 0, [p, q], Insert, 0, [v]);
    SwapBehind(Insert, 0, [p, q], Insert, 2, [v]);
    SwapBehind(Remove, 0, [u], Insert, 0, [v]);
    SwapBehind(Remove, 0, [p, q], Remove, 0, [v]);
    SwapBehind(Insert, 0, [p, q], Remove, 2, [v]);
    SwapBehind(Remove, 0, [u], Remove, 0, [v]);
  }

  lemma SwapAllStep(init: seq<Delta>, x: Delta, ts: seq<Delta>)
    ensures var c := CarryPast(x, ts); var s := SwapAll(init, c.ts); var b := CarryBack(s.ts, c.x);
            && (c.ok && !s.ok ==> SwapAll(init + [x], ts) == Swapped(s.es + [b.1], b.0, false))
            && (NeverMeetsAll(init + [x], ts) <==> NeverMeets(x, ts) && (c.ok ==> NeverMeetsAll(init, c.ts)))
  {
    assert (init + [x])[..|init|] == init;
  }

  /** The six edits are edits of any line. */
  lemma LuckyIsRun(s: Str, u: Unit, v: Unit, p: Unit, q: Unit)
    ensures ValidRun([s], LuckyFirst(u, v) + LuckySecond(u, p, q))
  {
    hide Valid, Apply, Typed, Erased, ValidRun;
    var d1, d2, d3 := [u] + s, [u] + [v] + s, [p, q] + s;
    assert [] + s == s && [] + [u] + s == d1 && [] + [p, q] + s == d3;
    LineEdit([], [u], s, s, d1);
    LineEdit([u], [v], s, d1, d2);
    LineEdit([], [p, q], s, s, d3);
    RunCons([d3], Erased(0, [p, q]), []);
    RunCons([s], Typed(0, [p, q]), [Erased(0, [p, q])] + []);
    RunCons([d1], Erased(0, [u]), [Typed(0, [p, q])] + ([Erased(0, [p, q])] + []));
    RunCons([d2], Erased(1, [v]), LuckySecond(u, p, q));
    RunCons([d1], Typed(1, [v]), [Erased(1, [v])] + LuckySecond(u, p, q));
    RunCons([s], Typed(0, [u]), [Typed(1, [v])] + ([Erased(1, [v])] + LuckySecond(u, p, q)));
    assert ValidRun([s], []) by { RunNothing([s]); }
    assert LuckyFirst(u, v) + LuckySecond(u, p, q)
           == [Typed(0, [u])] + ([Typed(1, [v])] + ([Erased(1, [v])] + LuckySecond(u, p, q)));
  }

  /** The groups do not agree on the first pair, so that everything is moved back; on the way an
      insertion of v has met a removal of "pq", and still both groups come back as they were. */
  lemma FailedSwapCanBeLucky(s: Str, u: Unit, v: Unit, p: Unit, q: Unit)
    ensures var es, ts := LuckyFirst(u, v), LuckySecond(u, p, q);
            && ValidRun([s], es + ts) && SwapAll(es, ts) == Swapped(es, ts, false) && !NeverMeetsAll(es, ts)
  {
    hide Swap, Typed, Erased, CarryPast, CarryBack, SwapAll, NeverMeets, NeverMeetsAll, Meets, ValidRun;
    LuckyIsRun(s, u, v, p, q);
    LuckySwaps(u, v, p, q);
    LuckySwapsBack(u, v, p, q);
    var ts, ts1 := LuckySecond(u, p, q), [Erased(0, [u])] + ([Typed(1, [p, q])] + ([Erased(1, [p, q])] + []));
    PastThree(Erased(1, [v]), Erased(0, [u]), Typed(0, [p, q]), Erased(0, [p, q]),
              Erased(0, [v]), Erased(0, [v]), Erased(0, [v]), Erased(0, [u]), Typed(1, [p, q]), Erased(1, [p, q]));
    PastThree(Typed(1, [v]), Erased(0, [u]), Typed(1, [p, q]), Erased(1, [p, q]),
              Typed(0, [v]), Typed(0, [v]), Typed(0, [v]), Erased(0, [u]), Typed(0, [p, q]), Erased(0, [p, q]));
    CarryStep(Typed(0, [u]), Erased(0, [u]), [Typed(0, [p, q])] + ([Erased(0, [p, q])] + []));
    SwapAllOfOne(Typed(0, [u]), ts);
    BackThree(Typed(0, [v]), Erased(0, [u]), Typed(0, [p, q]), Erased(0, [p, q]),
              Typed(2, [v]), Typed(0, [v]), Typed(1, [v]), Erased(0, [u]), Typed(0, [p, q]), Erased(0, [p, q]));
    BackThree(Erased(0, [v]), Erased(0, [u]), Typed(0, [p, q]), Erased(0, [p, q]),
              Erased(2, [v]), Erased(0, [v]), Erased(1, [v]), Erased(0, [u]), Typed(0, [p, q]), Erased(0, [p, q]));
    SwapAllStep([Typed(0, [u])], Typed(1, [v]), ts1);
    SwapAllStep([Typed(0, [u])] + [Typed(1, [v])], Erased(1, [v]), ts);
  }
}
