/** xform of ace/undomanager: transforming two edits made on the same document. */
module Xform {
  import opened CodeUnits
  import opened Texts
  import opened Deltas
  import opened DeltaAlgebra

  predicate StrictlyInside(p: Pos, x: Delta) {
    Less(x.start, p) && Less(p, x.end)
  }

  /** Two removals with text in common. */
  predicate Overlap(e: Delta, t: Delta) {
    e.action.Remove? && t.action.Remove? && !Leq(e.end, t.start) && !Leq(t.end, e.start)
  }

  /** x with both end points moved back by the distance from s to x's start. */
  function PullBack(x: Delta, s: Pos): Delta {
    x.(start := ShiftPos(x.start, s, x.start, -1), end := ShiftPos(x.end, s, x.start, -1))
  }

  /** What xform(e, t) makes of t, to be applied after e. */
  function XformOther(e: Delta, t: Delta): Delta
    requires !Overlap(e, t)
  {
    if e.action.Insert? && t.action.Insert? then
      if Less(e.start, t.start) then Shift(t, e, 1) else t
    else if e.action.Insert? then
      if Leq(t.end, e.start) then t
      else if Leq(e.start, t.start) then Shift(t, e, 1)
      else Shift(t, PullBack(e, t.start), 1)
    else if t.action.Insert? then
      if Leq(e.end, t.start) then Shift(t, e, -1)
      else if Leq(t.start, e.start) then t
      else PullBack(t, e.start)
    else
      if Leq(e.end, t.start) then Shift(t, e, -1) else t
  }

  /** What xform(e, t) makes of e, to be applied after t. */
  function XformSelf(e: Delta, t: Delta): Delta
    requires !Overlap(e, t)
  {
    if e.action.Insert? && t.action.Insert? then
      if Less(e.start, t.start) then e else Shift(e, t, 1)
    else if e.action.Insert? then
      if Leq(t.end, e.start) then Shift(e, t, -1)
      else if Leq(e.start, t.start) then e
      else PullBack(e, t.start)
    else if t.action.Insert? then
      if Leq(e.end, t.start) then e
      else if Leq(t.start, e.start) then Shift(e, t, 1)
      else Shift(e, PullBack(t, e.start), 1)
    else
      if Leq(e.end, t.start) then e else Shift(e, t, -1)
  }

  /** Both orders are valid and meet in the same document. */
  predicate Converges(d: Text, e: Delta, t: Delta)
    requires Valid(d, e) && Valid(d, t) && !Overlap(e, t)
  {
    && Valid(Apply(d, e), XformOther(e, t)) && Valid(Apply(d, t), XformSelf(e, t))
    && Apply(Apply(d, e), XformOther(e, t)) == Apply(Apply(d, t), XformSelf(e, t))
  }

  /** Two edits of one document in left-to-right order: the right one shifts by the left one. */
  lemma OrderedEditsConverge(d: Text, l: Delta, r: Delta)
    requires Valid(d, l) && Valid(d, r) && Leq(PreEnd(l), r.start)
    ensures var r' := Shift(r, l, SignOf(l));
            && Valid(Apply(d, l), r') && Valid(Apply(d, r), l)
            && Apply(Apply(d, l), r') == Apply(Apply(d, r), l)
  {
    var a, c, z := Layout(d, l, r);
    SeparateEditsCommute(a, l, c, r, z);
    ShiftRelocates(a, l, c, r);
  }

  /** Concurrent edits at separate places converge. */
  lemma SeparateEditsConverge(d: Text, e: Delta, t: Delta)
    requires Valid(d, e) && Valid(d, t) && !Overlap(e, t)
    requires e.action.Insert? && t.action.Remove? ==> !StrictlyInside(e.start, t)
    requires e.action.Remove? && t.action.Insert? ==> !StrictlyInside(t.start, e)
    ensures Converges(d, e, t)
  {
    hide Apply, ShiftPos, Between, Cat, Before, After;
    var tie := e.action.Insert? && e.start == PreEnd(t);
    if Leq(PreEnd(e), t.start) && !tie {
      OrderedEditsConverge(d, e, t);
      assert XformSelf(e, t) == e && XformOther(e, t) == Shift(t, e, SignOf(e));
    } else {
      OrderedEditsConverge(d, t, e);
      assert XformOther(e, t) == t && XformSelf(e, t) == Shift(e, t, SignOf(t));
    }
  }

  /** Both edits pulled to the start a of a removed range: an insertion of l from behind x, then the
      removal from behind the insertion. */
  /** Of two insertions at one place, t's text comes first. */
  lemma SamePlaceTextsInOrder(d: Text, e: Delta, t: Delta)
    requires Valid(d, e) && Valid(d, t) && e.action.Insert? && t.action.Insert? && e.start == t.start
    ensures Converges(d, e, t)
    ensures Apply(Apply(d, e), XformOther(e, t))
            == Cat(Cat(Before(d, t.start), Cat(t.lines, e.lines)), After(d, t.start))
  {
    SeparateEditsConverge(d, e, t);
    hide Converges;
    var a, b := Before(d, t.start), After(d, t.start);
    SplitAt(d, t.start);
    var mid := Cat(e.lines, b);
    CatAssoc(a, e.lines, b);
    CatSplits(a, mid);
    CatAssoc(a, t.lines, mid);
    CatAssoc(t.lines, e.lines, b);
    CatAssoc(a, Cat(t.lines, e.lines), b);
    assert Apply(d, e) == Cat(a, mid);
    hide Cat, Before, After;
    assert XformOther(e, t) == t;
  }

  lemma PulledBack(a: Text, x: Text, l: Text, ins: Delta, rem: Delta)
    requires ins == MakeDelta(Insert, Ext(Cat(a, x)), l)
    requires rem == MakeDelta(Remove, Ext(a), rem.lines)
    ensures PullBack(ins, rem.start) == MakeDelta(Insert, Ext(a), l)
    ensures Shift(rem, PullBack(ins, rem.start), 1) == MakeDelta(Remove, Ext(Cat(a, l)), rem.lines)
  {
    ExtCat(a, x);
    ExtCat(a, l);
    ShiftPosDown(Ext(a), Ext(x), ORIGIN);
    ShiftPosDown(Ext(a), Ext(x), Ext(l));
    ShiftPosUp(Ext(a), Ext(l), ORIGIN);
    ShiftPosUp(Ext(a), Ext(l), Ext(rem.lines));
  }

  /** An insertion at a point strictly inside a removed range: the removed text falls into x before
      the point and y behind it. */
  lemma InsideLayout(d: Text, ins: Delta, rem: Delta) returns (a: Text, x: Text, y: Text, b: Text)
    requires Valid(d, ins) && Valid(d, rem) && ins.action.Insert? && rem.action.Remove?
    requires StrictlyInside(ins.start, rem)
    ensures rem.start == Ext(a) && ins.start == Ext(Cat(a, x)) && rem.lines == Cat(x, y)
    ensures x == Between(d, rem.start, ins.start)
    ensures Apply(d, ins) == Cat(Cat(Cat(a, x), ins.lines), Cat(y, b))
    ensures Apply(d, rem) == Cat(a, b)
  {
    a, x, b := Before(d, rem.start), Between(d, rem.start, ins.start), After(d, rem.end);
    y := Between(d, ins.start, rem.end);
    SplitTwice(d, rem.start, ins.start);
    SplitTwice(d, ins.start, rem.end);
    SplitTwice(d, rem.start, rem.end);
    CatAssoc(x, y, b);
    CatCancelRight(rem.lines, Cat(x, y), b);
  }

  /** A removal of x and y behind an inserted l, where the document has x, l and y in that order:
      it is valid and leaves l exactly when x and l commute. */
  lemma RemovalBehindInsertion(a: Text, x: Text, l: Text, y: Text, b: Text, rem: Delta)
    requires rem == MakeDelta(Remove, Ext(Cat(a, l)), Cat(x, y))
    ensures var after := Cat(Cat(Cat(a, x), l), Cat(y, b));
            Valid(after, rem) && Apply(after, rem) == Cat(Cat(a, l), b) <==> Cat(x, l) == Cat(l, x)
  {
    var after, z := Cat(Cat(Cat(a, x), l), Cat(y, b)), Cat(y, b);
    CatAssoc(a, x, l);
    CatAssoc(a, l, x);
    CatAssoc(Cat(a, l), x, z);
    CatAssoc(x, y, b);
    CatAssoc(Cat(a, l), Cat(x, y), b);
    assert Cat(Cat(Cat(a, l), Cat(x, y)), b) == Cat(Cat(Cat(a, l), x), z);
    CatUnit(Cat(a, l));
    if Cat(x, l) == Cat(l, x) {
      EditInContext(Cat(a, l), rem, b);
    }
    if Valid(after, rem) && Apply(after, rem) == Cat(Cat(a, l), b) {
      var a', b' := ContextOf(after, rem);
      CatUnit(a');
      CatSplits(a', b');
      CatSplits(Cat(a, l), b);
      CatCancelRight(Cat(Cat(a, x), l), Cat(Cat(a, l), x), z);
      CatCancel(a, Cat(x, l), Cat(l, x));
    }
  }

  /** There the two orders meet exactly when the inserted text and the removed text before it
      commute: a removal pulled behind the insertion must find its own text again. */
  lemma InsideConverges(d: Text, ins: Delta, rem: Delta)
    requires Valid(d, ins) && Valid(d, rem) && ins.action.Insert? && rem.action.Remove?
    requires StrictlyInside(ins.start, rem)
    ensures var x := Between(d, rem.start, ins.start);
            && (Converges(d, ins, rem) <==> Cat(x, ins.lines) == Cat(ins.lines, x))
            && (Converges(d, rem, ins) <==> Cat(x, ins.lines) == Cat(ins.lines, x))
  {
    var a, x, y, b := InsideLayout(d, ins, rem);
    var l := ins.lines;
    PulledBack(a, x, l, ins, rem);
    CatUnit(a);
    EditInContext(a, PullBack(ins, rem.start), b);
    RemovalBehindInsertion(a, x, l, y, b, Shift(rem, PullBack(ins, rem.start), 1));
  }

  /** All pairs without overlapping removals: xform converges exactly when no insertion lies strictly
      inside a removed range, unless its text commutes with the removed text before it. */
  lemma XformConverges(d: Text, e: Delta, t: Delta)
    requires Valid(d, e) && Valid(d, t) && !Overlap(e, t)
    ensures Converges(d, e, t) <==>
      && (e.action.Insert? && t.action.Remove? && StrictlyInside(e.start, t) ==>
            Cat(Between(d, t.start, e.start), e.lines) == Cat(e.lines, Between(d, t.start, e.start)))
      && (t.action.Insert? && e.action.Remove? && StrictlyInside(t.start, e) ==>
            Cat(Between(d, e.start, t.start), t.lines) == Cat(t.lines, Between(d, e.start, t.start)))
  {
    if e.action.Insert? && t.action.Remove? && StrictlyInside(e.start, t) {
      InsideConverges(d, e, t);
    } else if t.action.Insert? && e.action.Remove? && StrictlyInside(t.start, e) {
      InsideConverges(d, t, e);
    } else {
      SeparateEditsConverge(d, e, t);
    }
  }

  lemma ShortLine(a: Unit, b: Unit, s: Str)
    requires s == [a, b]
    ensures var d: Text := [s];
            && ValidPos(d, Pos(0, 0)) && ValidPos(d, Pos(0, 1)) && ValidPos(d, Pos(0, 2))
            && Between(d, Pos(0, 0), Pos(0, 1)) == [[a]] && Between(d, Pos(0, 0), Pos(0, 2)) == [s]
  {
    assert s[0..1] == [a] && s[0..2] == s;
  }

  /** A character typed between two others, which are removed at the same time: unless it equals the
      first of them the two orders differ. */
  lemma InsideDiverges(a: Unit, b: Unit, u: Unit, s: Str)
    requires a != u && s == [a, b]
    ensures var d, ins, rem := [s], Delta(Insert, Pos(0, 1), Pos(0, 2), [[u]]),
                                 Delta(Remove, Pos(0, 0), Pos(0, 2), [s]);
            && Valid(d, ins) && Valid(d, rem) && !Overlap(ins, rem) && !Overlap(rem, ins)
            && !Converges(d, ins, rem) && !Converges(d, rem, ins)
  {
    var d, ins, rem := [s], Delta(Insert, Pos(0, 1), Pos(0, 2), [[u]]), Delta(Remove, Pos(0, 0), Pos(0, 2), [s]);
    ShortLine(a, b, s);
    hide Between, Converges, ValidPos;
    assert Ext([s]) == Pos(0, 2) && Ext([[u]]) == Pos(0, 1);
    assert Valid(d, ins) && Valid(d, rem);
    hide Valid;
    InsideConverges(d, ins, rem);
    OneLineOrder(a, u);
  }

  lemma OneLineOrder(a: Unit, u: Unit)
    requires a != u
    ensures Cat([[a]], [[u]]) != Cat([[u]], [[a]])
  {
    assert Cat([[a]], [[u]])[0][0] == a && Cat([[u]], [[a]])[0][0] == u;
  }
}
