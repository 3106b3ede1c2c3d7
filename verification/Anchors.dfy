/** Anchors: positions that follow the edits of a document. */
module Anchors {
  import opened CodeUnits
  import opened Texts
  import opened Deltas
  import opened DeltaAlgebra
  import opened FlatText

  /** $pointsInOrder */
  predicate InOrder(p: Pos, q: Pos, equalInOrder: bool) {
    p.row < q.row || (p.row == q.row && (if equalInOrder then p.column <= q.column else p.column < q.column))
  }

  /** $getTransformedPoint: where a point goes when x is applied. */
  function Transformed(x: Delta, p: Pos, moveIfEqual: bool): Pos {
    var sign := if x.action.Insert? then 1 else -1;
    var rows, columns := sign * (x.end.row - x.start.row), sign * (x.end.column - x.start.column);
    var from := if x.action.Insert? then x.start else x.end;
    if InOrder(p, x.start, moveIfEqual) then p
    else if InOrder(from, p, !moveIfEqual) then
      Pos(p.row + rows, p.column + (if p.row == from.row then columns else 0))
    else x.start
  }

  /** What an edit of n units at index i does to an index into the flat text. */
  function ShiftedIndex(index: nat, insert: bool, i: nat, n: nat, insertRight: bool): nat {
    if insert then
      if index < i || (index == i && insertRight) then index else index + n
    else
      if index <= i then index else if index >= i + n then index - n else i
  }

  /** A position behind an edit keeps the text that follows it. */
  lemma BehindEdit(d: Text, x: Delta, p: Pos, nl: Str)
    requires Valid(d, x) && ValidPos(d, p) && Leq(PreEnd(x), p)
    ensures var q := ShiftPos(p, x.start, x.end, SignOf(x));
            && ValidPos(Apply(d, x), q) && After(Apply(d, x), q) == After(d, p)
            && IndexAt(Apply(d, x), q, nl) == IndexAt(d, p, nl) + SignOf(x) * |Join(x.lines, nl)|
            && (x.action.Insert? ==> Leq(x.end, q)) && (x.action.Remove? ==> Leq(x.start, q))
  {
    var probe := MakeDelta(Insert, p, EMPTY);
    var a, c, z := Layout(d, x, probe);
    SeparateEditsCommute(a, x, c, probe, z);
    ShiftRelocates(a, x, c, probe);
    var before, after := Cat(Cat(a, Pre(x)), c), Cat(Cat(a, Post(x)), c);
    CatUnit(before);
    CatUnit(after);
    CatUnit(a);
    CatSplits(before, z);
    CatSplits(after, z);
    JoinCat(Cat(a, Pre(x)), c, nl);
    JoinCat(Cat(a, Post(x)), c, nl);
    JoinCat(a, x.lines, nl);
    ExtCat(Cat(a, Post(x)), c);
    ExtCat(a, x.lines);
  }

  /** A position in front of an edit keeps the text that precedes it. */
  lemma BeforeEdit(d: Text, x: Delta, p: Pos, nl: Str)
    requires Valid(d, x) && ValidPos(d, p) && Leq(p, x.start)
    ensures ValidPos(Apply(d, x), p) && Before(Apply(d, x), p) == Before(d, p)
    ensures IndexAt(Apply(d, x), p, nl) == IndexAt(d, p, nl)
  {
    var a, b := ContextOf(d, x);
    SplitTwice(d, p, x.start);
    var m := Between(d, p, x.start);
    SplitAt(d, x.start);
    CatAssoc(Before(d, p), m, Post(x));
    CatAssoc(Before(d, p), Cat(m, Post(x)), b);
    CatAssoc(a, Pre(x), b);
    CatSplits(a, Cat(Pre(x), b));
    CatSplits(Before(d, p), Cat(Cat(m, Post(x)), b));
  }

  /** In terms of positions: stay, shift, or collapse to the start of a removal. */
  lemma TransformedCases(d: Text, x: Delta, p: Pos, insertRight: bool)
    requires Valid(d, x) && ValidPos(d, p)
    ensures var stays := if x.action.Insert? && !insertRight then Less(p, x.start) else Leq(p, x.start);
            Transformed(x, p, insertRight) ==
              if stays then p
              else if Leq(PreEnd(x), p) then ShiftPos(p, x.start, x.end, SignOf(x))
              else x.start
  {
  }

  lemma AnchorLawForInsert(d: Text, x: Delta, p: Pos, insertRight: bool, nl: Str)
    requires Valid(d, x) && ValidPos(d, p) && nl != [] && x.action.Insert?
    ensures var q, i := Transformed(x, p, insertRight), IndexAt(d, x.start, nl);
            && ValidPos(Apply(d, x), q)
            && IndexAt(Apply(d, x), q, nl) == ShiftedIndex(IndexAt(d, p, nl), true, i, |Join(x.lines, nl)|, insertRight)
  {
    IndexOrder(d, p, x.start, nl);
    IndexOrder(d, x.start, p, nl);
    TransformedCases(d, x, p, insertRight);
    if Less(p, x.start) || (p == x.start && insertRight) {
      BeforeEdit(d, x, p, nl);
    } else {
      BehindEdit(d, x, p, nl);
    }
  }

  lemma AnchorLawForRemove(d: Text, x: Delta, p: Pos, insertRight: bool, nl: Str)
    requires Valid(d, x) && ValidPos(d, p) && nl != [] && x.action.Remove?
    ensures var q, i := Transformed(x, p, insertRight), IndexAt(d, x.start, nl);
            && ValidPos(Apply(d, x), q)
            && IndexAt(Apply(d, x), q, nl)
               == ShiftedIndex(IndexAt(d, p, nl), false, i, |Join(x.lines, nl)|, insertRight)
  {
    IndexOrder(d, x.start, x.end, nl);
    IndexOrder(d, p, x.start, nl);
    IndexOrder(d, x.start, p, nl);
    IndexOrder(d, x.end, p, nl);
    IndexOrder(d, p, x.end, nl);
    TransformedCases(d, x, p, insertRight);
    if Leq(p, x.start) {
      BeforeEdit(d, x, p, nl);
    } else if Leq(x.end, p) {
      BehindEdit(d, x, p, nl);
    } else {
      BeforeEdit(d, x, x.start, nl);
    }
  }

  /** The anchor law: a valid point stays valid, and its index moves exactly as the flat text moves
      under it, ties at an insertion decided by insertRight, points inside a removal collapsing to
      its start. */
  lemma AnchorLaw(d: Text, x: Delta, p: Pos, insertRight: bool, nl: Str)
    requires Valid(d, x) && ValidPos(d, p) && nl != []
    ensures var q, i := Transformed(x, p, insertRight), IndexAt(d, x.start, nl);
            && ValidPos(Apply(d, x), q)
            && IndexAt(Apply(d, x), q, nl)
               == ShiftedIndex(IndexAt(d, p, nl), x.action.Insert?, i, |Join(x.lines, nl)|, insertRight)
  {
    if x.action.Insert? {
      AnchorLawForInsert(d, x, p, insertRight, nl);
    } else {
      AnchorLawForRemove(d, x, p, insertRight, nl);
    }
  }

  /** Anchor.onChange, with its early returns. */
  class Anchor {
    var row: int
    var column: int
    var insertRight: bool

    constructor (p: Pos)
      ensures Position() == p && !insertRight
    {
      row, column, insertRight := p.row, p.column, false;
    }

    function Position(): Pos
      reads this
    {
      Pos(row, column)
    }

    /** No early return skips a needed move. */
    method OnChange(x: Delta)
      requires Leq(x.start, x.end)
      modifies this`row, this`column
      ensures Position() == Transformed(x, old(Position()), insertRight)
    {
      if x.start.row == x.end.row && x.start.row != row { return; }
      if x.start.row > row { return; }
      var p := Transformed(x, Pos(row, column), insertRight);
      row, column := p.row, p.column;
    }
  }
}
