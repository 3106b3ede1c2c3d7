/** Transposing and transforming deltas: swap, swapGroups and xform of ace/undomanager. */
module DeltaAlgebra {
  import opened Texts
  import opened Deltas
  import opened Options

  // ---------- shifting positions and deltas ----------

  /** shiftPos: move p by the distance from s to n (sign 1) or from n to s (sign -1). */
  function ShiftPos(p: Pos, s: Pos, n: Pos, sign: int): Pos {
    var column := if p.row == (if sign == 1 then s else n).row
      then p.column + sign * (n.column - s.column) else p.column;
    Pos(p.row + sign * (n.row - s.row), column)
  }

  function Shift(x: Delta, o: Delta, sign: int): Delta {
    x.(start := ShiftPos(x.start, o.start, o.end, sign), end := ShiftPos(x.end, o.start, o.end, sign))
  }

  lemma ShiftPosUp(s: Pos, x: Pos, y: Pos)
    requires Natural(x) && Natural(y)
    ensures ShiftPos(Plus(s, y), s, Plus(s, x), 1) == Plus(Plus(s, x), y)
  {
  }

  lemma ShiftPosDown(s: Pos, x: Pos, y: Pos)
    requires Natural(x) && Natural(y)
    ensures ShiftPos(Plus(Plus(s, x), y), s, Plus(s, x), -1) == Plus(s, y)
  {
  }

  function SignOf(x: Delta): int {
    if x.action.Insert? then 1 else -1
  }

  /** Shifting in two dimensions is exactly relocation: r moves from behind Pre(l) to behind
      Post(l). */
  lemma ShiftRelocates(a: Text, l: Delta, c: Text, r: Delta)
    requires l == MakeDelta(l.action, Ext(a), l.lines)
    requires r == MakeDelta(r.action, Ext(Cat(Cat(a, Pre(l)), c)), r.lines)
    ensures Shift(r, l, SignOf(l)) == Relocated(a, l, c, r)
    ensures Shift(Relocated(a, l, c, r), l, -SignOf(l)) == r
  {
    var s, x, y, w := Ext(a), Ext(l.lines), Ext(c), Ext(r.lines);
    CatUnit(a);
    ExtCat(a, l.lines);
    ExtCat(a, c);
    ExtCat(Cat(a, l.lines), c);
    PlusAssoc(Plus(s, x), y, w);
    PlusAssoc(s, y, w);
    ShiftPosUp(s, x, y);
    ShiftPosUp(s, x, Plus(y, w));
    ShiftPosDown(s, x, y);
    ShiftPosDown(s, x, Plus(y, w));
  }

  // ---------- swap ----------

  /** swap(e, t): e was applied before t; the rewritten pair (t', e') to be applied in that order,
      or None where the edits touch the same text. */
  function Swap(e: Delta, t: Delta): Option<(Delta, Delta)> {
    if e.action.Insert? && t.action.Insert? then
      if Leq(e.end, t.start) then Some((Shift(t, e, -1), e))
      else if Leq(t.start, e.start) then Some((t, Shift(e, t, 1)))
      else None
    else if e.action.Insert? then
      if Leq(e.end, t.start) then Some((Shift(t, e, -1), e))
      else if Leq(t.end, e.start) then Some((t, Shift(e, t, -1)))
      else None
    else if t.action.Insert? then
      if Leq(e.start, t.start) then Some((Shift(t, e, 1), e))
      else if Leq(t.start, e.start) then Some((t, Shift(e, t, 1)))
      else None
    else
      if Leq(e.start, t.start) then Some((Shift(t, e, 1), e))
      else if Leq(t.end, e.start) then Some((t, Shift(e, t, -1)))
      else None
  }

  /** Exactly which pairs swap, and how, whatever their actions and however many lines they span: where
      t starts at or behind what e has left, t moves over e's text and e stays; otherwise, where t's own
      text ends at or before e, e moves and t stays; all other pairs touch the same text. */
  lemma SwapExactly(e: Delta, t: Delta)
    ensures Swap(e, t).Some? <==> Leq(PreEnd(Invert(e)), t.start) || Leq(PreEnd(t), e.start)
    ensures Leq(PreEnd(Invert(e)), t.start) ==> Swap(e, t) == Some((Shift(t, e, -SignOf(e)), e))
    ensures !Leq(PreEnd(Invert(e)), t.start) && Leq(PreEnd(t), e.start) ==>
              Swap(e, t) == Some((t, Shift(e, t, SignOf(t))))
  {
  }

  /** The pair swap returns is valid in its new order and produces the same document. */
  lemma SwapCommutes(d: Text, e: Delta, t: Delta)
    requires Valid(d, e) && Valid(Apply(d, e), t) && Swap(e, t).Some?
    ensures var (t', e') := Swap(e, t).value;
            && Valid(d, t') && Valid(Apply(d, t'), e')
            && Apply(Apply(d, t'), e') == Apply(Apply(d, e), t)
  {
    hide Cat, Before, After, Between, ShiftPos;
    var mid, back := Apply(d, e), Invert(e);
    InvertUndoes(d, e);
    if Leq(PreEnd(back), t.start) {
      var a, c, z := Layout(mid, back, t);
      SeparateEditsCommute(a, back, c, t, z);
      ShiftRelocates(a, back, c, t);
      var t' := Relocated(a, back, c, t);
      SeparateEditsCommute(a, e, c, t', z);
      assert Swap(e, t).value == (t', e);
    } else {
      var a, c, z := Layout(mid, t, back);
      SeparateEditsCommute(a, t, c, back, z);
      ShiftRelocates(a, t, c, back);
      var e' := Relocated(a, t, c, e);
      assert Invert(e') == Relocated(a, t, c, back);
      InvertUndoes(Apply(mid, t), Invert(e'));
      assert Swap(e, t).value == (t, e');
      assert d == Apply(mid, back);
    }
  }

  // ---------- sequences of edits up to effect ----------

  /** b can replace a on every document on which a is a run of valid edits. */
  ghost predicate SameEffect(a: seq<Delta>, b: seq<Delta>) {
    forall d: Text :: ValidRun(d, a) ==> ValidRun(d, b) && Run(d, b) == Run(d, a)
  }

  lemma SwapSameEffect(e: Delta, t: Delta)
    requires Swap(e, t).Some?
    ensures var (t', e') := Swap(e, t).value; SameEffect([e, t], [t', e'])
  {
    var (t', e') := Swap(e, t).value;
    forall d: Text | ValidRun(d, [e, t])
      ensures ValidRun(d, [t', e']) && Run(d, [t', e']) == Run(d, [e, t])
    {
      RunOfTwo(d, e, t);
      SwapCommutes(d, e, t);
      RunOfTwo(d, t', e');
    }
  }

  lemma RunOfTwo(d: Text, x: Delta, y: Delta)
    ensures ValidRun(d, [x, y]) <==> Valid(d, x) && Valid(Apply(d, x), y)
    ensures ValidRun(d, [x, y]) ==> Run(d, [x, y]) == Apply(Apply(d, x), y)
  {
    assert [x, y][1..] == [y] && [y][1..] == [];
    if Valid(d, x) {
      var d1 := Apply(d, x);
      assert ValidRun(d1, [y]) <==> Valid(d1, y);
      if Valid(d1, y) {
        assert Run(d1, [y]) == Run(Apply(d1, y), []);
      }
    }
  }

  lemma SameEffectInContext(x: seq<Delta>, a: seq<Delta>, b: seq<Delta>, y: seq<Delta>)
    requires SameEffect(a, b)
    ensures SameEffect(x + a + y, x + b + y)
  {
    forall d: Text | ValidRun(d, x + a + y)
      ensures ValidRun(d, x + b + y) && Run(d, x + b + y) == Run(d, x + a + y)
    {
      RunPrefix(d, x + a, y);
      RunPrefix(d, x, a);
      RunAppend(d, x, a);
      RunAppend(d, x, b);
      RunAppend(d, x + a, y);
      RunAppend(d, x + b, y);
    }
  }

  // ---------- swapping groups ----------

  /** The outcome of moving the edit x behind the edits ts, or of moving groups: the rewritten edits,
      and whether every pair could be swapped. */
  datatype Carried = Carried(ts: seq<Delta>, x: Delta, ok: bool)
  datatype Swapped = Swapped(es: seq<Delta>, ts: seq<Delta>, ok: bool)

  /** Swap a with its successor b where possible, keep both otherwise; the pair in (a, b) order. */
  function TrySwap(a: Delta, b: Delta): (Delta, Delta) {
    match Swap(a, b)
    case Some((b', a')) => (a', b')
    case None => (a, b)
  }

  /** Move x back in front of ts, from the last edit of ts to the first, ignoring refusals. */
  function CarryBack(ts: seq<Delta>, x: Delta): (r: (seq<Delta>, Delta))
    ensures |r.0| == |ts|
    decreases |ts|
  {
    if ts == [] then ([], x)
    else
      var (rest, x1) := CarryBack(ts[1..], x);
      var (t2, x2) := TrySwap(ts[0], x1);
      ([t2] + rest, x2)
  }

  /** Move x behind ts; on a refusal move it back again. */
  function CarryPast(x: Delta, ts: seq<Delta>): (c: Carried)
    ensures |c.ts| == |ts|
    decreases |ts|
  {
    if ts == [] then Carried([], x, true)
    else match Swap(x, ts[0])
      case None => Carried(ts, x, false)
      case Some((t1, x1)) =>
        var c := CarryPast(x1, ts[1..]);
        if c.ok then Carried([t1] + c.ts, c.x, true)
        else
          var (t2, x2) := TrySwap(t1, c.x);
          Carried([t2] + c.ts, x2, false)
  }

  /** swapGroups(e, t): the last edit of e moves behind t first. */
  function SwapAll(es: seq<Delta>, ts: seq<Delta>): (s: Swapped)
    ensures |s.es| == |es| && |s.ts| == |ts|
    decreases |es|
  {
    if es == [] then Swapped([], ts, true)
    else
      var c := CarryPast(es[|es| - 1], ts);
      if !c.ok then Swapped(es[..|es| - 1] + [c.x], c.ts, false)
      else
        var s := SwapAll(es[..|es| - 1], c.ts);
        if s.ok then Swapped(s.es + [c.x], s.ts, true)
        else
          var (ts3, x3) := CarryBack(s.ts, c.x);
          Swapped(s.es + [x3], ts3, false)
  }

  /** An edit passes a group exactly when it passes the parts of it one after the other, and a single edit
      exactly when it swaps with it. */
  lemma {:induction false} CarryPastInParts(x: Delta, a: seq<Delta>, b: seq<Delta>, t: Delta)
    ensures var c := CarryPast(x, a); var d := CarryPast(c.x, b);
            && (CarryPast(x, a + b).ok <==> c.ok && d.ok)
            && (c.ok && d.ok ==> CarryPast(x, a + b) == Carried(c.ts + d.ts, d.x, true))
    ensures CarryPast(x, [t]).ok <==> Swap(x, t).Some?
    ensures Swap(x, t).Some? ==> CarryPast(x, [t]) == Carried([Swap(x, t).value.0], Swap(x, t).value.1, true)
    decreases |a|
  {
    hide Swap, TrySwap;
    assert [t][1..] == [];
    if a == [] {
      assert a + b == b && [] + CarryPast(x, b).ts == CarryPast(x, b).ts;
    } else {
      assert (a + b)[1..] == a[1..] + b && (a + b)[0] == a[0];
      if Swap(x, a[0]).Some? { CarryPastInParts(Swap(x, a[0]).value.1, a[1..], b, t); }
    }
  }

  /** Two groups swap exactly when the second half of the first swaps with the second group and then the
      first half with what that has become; a group of one, when its edit passes. */
  lemma {:induction false} SwapAllInParts(a: seq<Delta>, b: seq<Delta>, ts: seq<Delta>, x: Delta)
    ensures var s := SwapAll(b, ts); var r := SwapAll(a, s.ts);
            && (SwapAll(a + b, ts).ok <==> s.ok && r.ok)
            && (s.ok && r.ok ==> SwapAll(a + b, ts) == Swapped(r.es + s.es, r.ts, true))
    ensures SwapAll([x], ts).ok <==> CarryPast(x, ts).ok
    decreases |b|
  {
    hide CarryPast, CarryBack;
    assert [x][..0] == [];
    if b == [] {
      assert a + b == a && SwapAll(a, ts).es + [] == SwapAll(a, ts).es;
    } else {
      var init, y := b[..|b| - 1], b[|b| - 1];
      assert (a + b)[..|a + b| - 1] == a + init && (a + b)[|a + b| - 1] == y;
      SwapAllInParts(a, init, CarryPast(y, ts).ts, x);
    }
  }

  lemma {:induction false} CarryPastSameEffect(x: Delta, ts: seq<Delta>)
    requires CarryPast(x, ts).ok
    ensures SameEffect([x] + ts, CarryPast(x, ts).ts + [CarryPast(x, ts).x])
    decreases |ts|
  {
    if ts != [] {
      var (t1, x1) := Swap(x, ts[0]).value;
      var c := CarryPast(x1, ts[1..]);
      SwapSameEffect(x, ts[0]);
      SameEffectInContext([], [x, ts[0]], [t1, x1], ts[1..]);
      CarryPastSameEffect(x1, ts[1..]);
      SameEffectInContext([t1], [x1] + ts[1..], c.ts + [c.x], []);
      assert [] + [x, ts[0]] + ts[1..] == [x] + ts;
      assert [] + [t1, x1] + ts[1..] == [t1] + ([x1] + ts[1..]) + [];
      assert [t1] + (c.ts + [c.x]) + [] == ([t1] + c.ts) + [c.x];
    }
  }

  lemma Regrouping(init: seq<Delta>, x: Delta, ts: seq<Delta>,
                   ts1: seq<Delta>, x1: Delta, ts2: seq<Delta>, es2: seq<Delta>)
    ensures init + ([x] + ts) + [] == (init + [x]) + ts
    ensures init + (ts1 + [x1]) + [] == [] + (init + ts1) + [x1]
    ensures [] + (ts2 + es2) + [x1] == ts2 + (es2 + [x1])
  {
  }

  /** A successful swap of two groups, of any lengths, has the same effect in the new order. */
  lemma {:induction false} SwapAllSameEffect(es: seq<Delta>, ts: seq<Delta>)
    requires SwapAll(es, ts).ok
    ensures SameEffect(es + ts, SwapAll(es, ts).ts + SwapAll(es, ts).es)
    decreases |es|
  {
    if es == [] {
      assert [] + ts == ts + [];
    } else {
      hide SameEffect, Swap, CarryPast;
      var init, x := es[..|es| - 1], es[|es| - 1];
      var c := CarryPast(x, ts);
      var s := SwapAll(init, c.ts);
      CarryPastSameEffect(x, ts);
      SameEffectInContext(init, [x] + ts, c.ts + [c.x], []);
      SwapAllSameEffect(init, c.ts);
      SameEffectInContext([], init + c.ts, s.ts + s.es, [c.x]);
      Regrouping(init, x, ts, c.ts, c.x, s.ts, s.es);
      assert es == init + [x];
    }
  }

  // ---------- what a failed swapGroups leaves behind ----------

  predicate AllProper(xs: seq<Delta>) {
    forall i :: 0 <= i < |xs| ==> Proper(xs[i])
  }

  /** A delta behind o moves out by o's extent, or in by it, and back again. */
  lemma ShiftThere(x: Delta, o: Delta, sign: int)
    requires Proper(x) && Proper(o) && (sign == 1 || sign == -1)
    requires Leq(if sign == 1 then o.start else o.end, x.start)
    ensures var y := Shift(x, o, sign);
            && Proper(y) && y.action == x.action && Shift(y, o, -sign) == x
            && Leq(if sign == 1 then o.end else o.start, y.start)
            && (y.start == (if sign == 1 then o.end else o.start)
                <==> x.start == (if sign == 1 then o.start else o.end))
  {
  }

  /** The removal starts right at the end of the insertion before it. */
  predicate Meets(e: Delta, t: Delta) {
    e.action.Insert? && t.action.Remove? && t.start == e.end
  }

  /** Swapping back restores a swapped pair exactly, unless its removal met its insertion. */
  lemma SwapTwice(e: Delta, t: Delta)
    requires Proper(e) && Proper(t) && Swap(e, t).Some?
    ensures var (t', e') := Swap(e, t).value;
            && Proper(t') && Proper(e') && t'.action == t.action && e'.action == e.action
            && (Swap(t', e') == Some((e, t)) <==> !Meets(e, t))
  {
    if Leq(if e.action.Insert? then e.end else e.start, t.start) {
      ShiftThere(t, e, -SignOf(e));
    } else {
      ShiftThere(e, t, SignOf(t));
    }
  }

  /** On its way past ts the edit x is never exchanged with a removal that it meets. */
  predicate NeverMeets(x: Delta, ts: seq<Delta>)
    decreases |ts|
  {
    ts == [] || Swap(x, ts[0]).None?
    || (!Meets(x, ts[0]) && var (t1, x1) := Swap(x, ts[0]).value; NeverMeets(x1, ts[1..]))
  }

  /** Nor is any edit of es, each finding ts as the ones behind it have left it. */
  predicate NeverMeetsAll(es: seq<Delta>, ts: seq<Delta>)
    decreases |es|
  {
    es == []
    || (&& NeverMeets(es[|es| - 1], ts)
        && var c := CarryPast(es[|es| - 1], ts);
           c.ok ==> NeverMeetsAll(es[..|es| - 1], c.ts))
  }

  lemma {:induction false} CarryBackInverts(x: Delta, ts: seq<Delta>)
    requires Proper(x) && AllProper(ts) && NeverMeets(x, ts)
    requires CarryPast(x, ts).ok
    ensures var c := CarryPast(x, ts);
            && CarryBack(c.ts, c.x) == (ts, x)
            && Proper(c.x) && c.x.action == x.action && AllProper(c.ts)
    decreases |ts|
  {
    if ts != [] {
      hide Swap, Meets, Proper;
      var t := ts[0];
      SwapTwice(x, t);
      var (t1, x1) := Swap(x, t).value;
      CarryBackInverts(x1, ts[1..]);
      var c, c1 := CarryPast(x, ts), CarryPast(x1, ts[1..]);
      assert c.ts == [t1] + c1.ts && c.ts[1..] == c1.ts && c.x == c1.x;
      assert TrySwap(t1, x1) == (t, x);
      assert CarryBack(c.ts, c.x) == ([t] + ts[1..], x);
      assert [t] + ts[1..] == ts;
    }
  }

  /** Moved back by a step an insertion never comes to stand before where the step began, whether the
      other edit is an insertion ... */
  lemma BackNotBeforeInsert(x: Delta, t: Delta, y: Delta)
    requires Proper(x) && Proper(t) && Proper(y) && x.action.Insert? && y.action.Insert? && t.action.Insert?
    requires Swap(x, t).Some? && var (t1, x1) := Swap(x, t).value; Leq(x1.start, y.start)
    ensures var (t1, x1) := Swap(x, t).value; var (t2, x2) := TrySwap(t1, y);
            Proper(x2) && x2.action == y.action && Leq(x.start, x2.start)
  {
  }

  /** ... or a removal. */
  lemma BackNotBeforeRemove(x: Delta, t: Delta, y: Delta)
    requires Proper(x) && Proper(t) && Proper(y) && x.action.Insert? && y.action.Insert? && t.action.Remove?
    requires Swap(x, t).Some? && var (t1, x1) := Swap(x, t).value; Leq(x1.start, y.start)
    ensures var (t1, x1) := Swap(x, t).value; var (t2, x2) := TrySwap(t1, y);
            Proper(x2) && x2.action == y.action && Leq(x.start, x2.start)
  {
  }

  /** A failed rollback can only have moved an insertion forwards. */
  lemma {:induction false} RollbackNotBefore(x: Delta, ts: seq<Delta>)
    requires Proper(x) && AllProper(ts) && x.action.Insert? && !CarryPast(x, ts).ok
    ensures var y := CarryPast(x, ts).x; Proper(y) && y.action.Insert? && Leq(x.start, y.start)
    decreases |ts|
  {
    if Swap(x, ts[0]).Some? {
      hide Swap, Proper;
      SwapTwice(x, ts[0]);
      var (t1, x1) := Swap(x, ts[0]).value;
      RollbackNotBefore(x1, ts[1..]);
      var y := CarryPast(x1, ts[1..]).x;
      if ts[0].action.Insert? { BackNotBeforeInsert(x, ts[0], y); } else { BackNotBeforeRemove(x, ts[0], y); }
    }
  }

  /** A step of the rollback gives the pair back that was exchanged only if it gets back what the
      exchange made of it. */
  lemma StepRestoresIff(x: Delta, t: Delta, y: Delta)
    requires Proper(x) && Proper(t) && Proper(y) && x.action == y.action
    requires Swap(x, t).Some? && var (t1, x1) := Swap(x, t).value; x.action.Insert? ==> Leq(x1.start, y.start)
    requires x.action.Remove? ==> y == Swap(x, t).value.1
    ensures var (t1, x1) := Swap(x, t).value; TrySwap(t1, y) == (t, x) <==> y == x1 && !Meets(x, t)
  {
    var (t1, x1) := Swap(x, t).value;
    SwapTwice(x, t);
    if Swap(t1, y).Some? { SwapTwice(t1, y); }
  }

  /** The rollback of one edit restores everything if and only if no exchanged pair met. */
  lemma {:induction false} CarryPastRestoresIff(x: Delta, ts: seq<Delta>)
    requires Proper(x) && AllProper(ts) && !CarryPast(x, ts).ok
    ensures CarryPast(x, ts) == Carried(ts, x, false) <==> NeverMeets(x, ts)
    ensures x.action.Remove? ==> NeverMeets(x, ts)
    decreases |ts|
  {
    var t := ts[0];
    if Swap(x, t).Some? {
      hide Swap, Proper;
      SwapTwice(x, t);
      var (t1, x1) := Swap(x, t).value;
      var rest, c := ts[1..], CarryPast(x1, ts[1..]);
      CarryPastRestoresIff(x1, rest);
      if x.action.Insert? { RollbackNotBefore(x1, rest); }
      StepRestoresIff(x, t, c.x);
      assert [t] + rest == ts;
      assert CarryPast(x, ts).ts[1..] == c.ts;
    }
  }

  /** A failed swapGroups gives both groups back unchanged when no pair exchanged on the way met. */
  lemma {:induction false} SwapAllFailureRestores(es: seq<Delta>, ts: seq<Delta>)
    requires AllProper(es) && AllProper(ts) && NeverMeetsAll(es, ts)
    requires !SwapAll(es, ts).ok
    ensures SwapAll(es, ts) == Swapped(es, ts, false)
    decreases |es|
  {
    hide Proper, NeverMeets;
    var init, x := es[..|es| - 1], es[|es| - 1];
    assert es == init + [x];
    var c := CarryPast(x, ts);
    if c.ok {
      CarryBackInverts(x, ts);
      SwapAllFailureRestores(init, c.ts);
    } else {
      CarryPastRestoresIff(x, ts);
    }
  }

  /** In particular groups cannot meet of which the first only removes or the second only inserts. */
  lemma {:induction false} OneSidedGroupsNeverMeet(es: seq<Delta>, ts: seq<Delta>)
    requires AllProper(es) && AllProper(ts)
    requires (forall i :: 0 <= i < |es| ==> es[i].action.Remove?)
             || (forall i :: 0 <= i < |ts| ==> ts[i].action.Insert?)
    ensures NeverMeetsAll(es, ts)
    decreases |es|
  {
    if es != [] {
      var x := es[|es| - 1];
      OneSidedNeverMeets(x, ts);
      if CarryPast(x, ts).ok { OneSidedGroupsNeverMeet(es[..|es| - 1], CarryPast(x, ts).ts); }
    }
  }

  lemma {:induction false} OneSidedNeverMeets(x: Delta, ts: seq<Delta>)
    requires Proper(x) && AllProper(ts)
    requires x.action.Remove? || (forall i :: 0 <= i < |ts| ==> ts[i].action.Insert?)
    ensures NeverMeets(x, ts)
    ensures CarryPast(x, ts).ok ==> AllProper(CarryPast(x, ts).ts)
    ensures CarryPast(x, ts).ok ==> forall i :: 0 <= i < |ts| ==> CarryPast(x, ts).ts[i].action == ts[i].action
    decreases |ts|
  {
    if ts != [] && Swap(x, ts[0]).Some? {
      hide Swap, Proper;
      SwapTwice(x, ts[0]);
      OneSidedNeverMeets(Swap(x, ts[0]).value.1, ts[1..]);
    }
  }
}
