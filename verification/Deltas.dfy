/** Edits to a text: the deltas of ace/apply_delta, and the layout lemmas that locate two edits of
    one text relative to each other. */
module Deltas {
  import opened Texts

  datatype Action = Insert | Remove

  datatype Delta = Delta(action: Action, start: Pos, end: Pos, lines: Text)

  /** What apply_delta's validateDelta demands, and for a removal that its lines are the removed
      text. */
  predicate Valid(d: Text, x: Delta) {
    && ValidPos(d, x.start)
    && x.end == Plus(x.start, Ext(x.lines))
    && (x.action.Remove? ==> ValidPos(d, x.end) && Between(d, x.start, x.end) == x.lines)
  }

  function Apply(d: Text, x: Delta): Text
    requires Valid(d, x)
  {
    match x.action
    case Insert => Cat(Cat(Before(d, x.start), x.lines), After(d, x.start))
    case Remove => Cat(Before(d, x.start), After(d, x.end))
  }

  function Invert(x: Delta): Delta {
    x.(action := if x.action.Insert? then Remove else Insert)
  }

  function MakeDelta(action: Action, start: Pos, lines: Text): Delta {
    Delta(action, start, Plus(start, Ext(lines)), lines)
  }

  /** A delta as the document signals it: consistent end points, and not empty. */
  predicate Proper(x: Delta) {
    Natural(x.start) && x.end == Plus(x.start, Ext(x.lines)) && x.start != x.end
  }

  const EMPTY: Text := [[]]

  /** The text an edit expects between its start and the rest of the document ... */
  function Pre(x: Delta): Text {
    if x.action.Insert? then EMPTY else x.lines
  }

  /** ... and the text it leaves there. */
  function Post(x: Delta): Text {
    if x.action.Insert? then x.lines else EMPTY
  }

  function PreEnd(x: Delta): Pos {
    if x.action.Insert? then x.start else x.end
  }

  /** Every edit replaces Pre by Post between two untouched parts. */
  lemma EditInContext(a: Text, x: Delta, b: Text)
    requires x == MakeDelta(x.action, Ext(a), x.lines)
    ensures Valid(Cat(Cat(a, Pre(x)), b), x)
    ensures Apply(Cat(Cat(a, Pre(x)), b), x) == Cat(Cat(a, Post(x)), b)
  {
    CatUnit(a);
    var d := Cat(Cat(a, Pre(x)), b);
    CatSplits(Cat(a, Pre(x)), b);
    ExtCat(a, x.lines);
    if x.action.Remove? {
      CatAssoc(a, x.lines, b);
      CatSplits(a, Cat(x.lines, b));
      SplitTwice(d, x.start, x.end);
      CatSplits(a, x.lines);
      CatCancel(a, Between(d, x.start, x.end), x.lines);
    }
  }

  lemma ContextOf(d: Text, x: Delta) returns (a: Text, b: Text)
    requires Valid(d, x)
    ensures d == Cat(Cat(a, Pre(x)), b) && Ext(a) == x.start
    ensures Ext(Cat(a, Pre(x))) == PreEnd(x)
    ensures Apply(d, x) == Cat(Cat(a, Post(x)), b)
  {
    a := Before(d, x.start);
    SplitAt(d, x.start);
    CatUnit(a);
    b := After(d, PreEnd(x));
    if x.action.Remove? {
      SplitTwice(d, x.start, x.end);
    }
    EditInContext(a, x, b);
  }

  /** Reverting an edit restores the document. */
  lemma InvertUndoes(d: Text, x: Delta)
    requires Valid(d, x)
    ensures Valid(Apply(d, x), Invert(x)) && Apply(Apply(d, x), Invert(x)) == d
  {
    var a, b := ContextOf(d, x);
    EditInContext(a, Invert(x), b);
  }

  /** Two edits valid on the same text, the left one ending where or before the right one starts:
      the text falls into five parts. */
  lemma Layout(d: Text, l: Delta, r: Delta) returns (a: Text, c: Text, z: Text)
    requires Valid(d, l) && Valid(d, r) && Leq(PreEnd(l), r.start)
    ensures d == Cat(Cat(Cat(Cat(a, Pre(l)), c), Pre(r)), z)
    ensures l.start == Ext(a) && r.start == Ext(Cat(Cat(a, Pre(l)), c))
  {
    var b, b', z0;
    a, b := ContextOf(d, l);
    b', z0 := ContextOf(d, r);
    z := z0;
    var m := Cat(a, Pre(l));
    CatSplits(m, b);
    SplitTwice(d, PreEnd(l), r.start);
    c := Between(d, PreEnd(l), r.start);
    CatAssoc(b', Pre(r), z);
    CatSplits(b', Cat(Pre(r), z));
  }

  /** Where r must be after the text before it changed from Pre(l) to Post(l). */
  function Relocated(a: Text, l: Delta, c: Text, r: Delta): Delta {
    MakeDelta(r.action, Ext(Cat(Cat(a, Post(l)), c)), r.lines)
  }

  /** Edits at separate places commute: the left one keeps its coordinates, the right one moves by
      what the left one adds or takes away. */
  lemma SeparateEditsCommute(a: Text, l: Delta, c: Text, r: Delta, z: Text)
    requires l == MakeDelta(l.action, Ext(a), l.lines)
    requires r == MakeDelta(r.action, Ext(Cat(Cat(a, Pre(l)), c)), r.lines)
    ensures var d, r' := Cat(Cat(Cat(Cat(a, Pre(l)), c), Pre(r)), z), Relocated(a, l, c, r);
            && Valid(d, l) && Valid(Apply(d, l), r')
            && Valid(d, r) && Valid(Apply(d, r), l)
            && Apply(Apply(d, l), r') == Apply(Apply(d, r), l)
            && Apply(d, l) == Cat(Cat(Cat(Cat(a, Post(l)), c), Pre(r)), z)
  {
    var r' := Relocated(a, l, c, r);
    var before, after := Cat(Cat(c, Pre(r)), z), Cat(Cat(c, Post(r)), z);
    EditInContext(Cat(Cat(a, Pre(l)), c), r, z);
    EditInContext(Cat(Cat(a, Post(l)), c), r', z);
    EditInContext(a, l, before);
    EditInContext(a, l, after);
    Regroup(Cat(a, Pre(l)), c, Pre(r), z);
    Regroup(Cat(a, Pre(l)), c, Post(r), z);
    Regroup(Cat(a, Post(l)), c, Pre(r), z);
    Regroup(Cat(a, Post(l)), c, Post(r), z);
  }

  lemma Regroup(m: Text, c: Text, x: Text, z: Text)
    ensures Cat(Cat(Cat(m, c), x), z) == Cat(m, Cat(Cat(c, x), z))
  {
    CatAssoc(m, c, x);
    CatAssoc(m, Cat(c, x), z);
  }

  // ---------- runs of edits ----------

  predicate ValidRun(d: Text, xs: seq<Delta>)
    decreases |xs|
  {
    xs == [] || (Valid(d, xs[0]) && ValidRun(Apply(d, xs[0]), xs[1..]))
  }

  function Run(d: Text, xs: seq<Delta>): Text
    requires ValidRun(d, xs)
    decreases |xs|
  {
    if xs == [] then d else Run(Apply(d, xs[0]), xs[1..])
  }

  lemma {:induction false} RunAppend(d: Text, xs: seq<Delta>, ys: seq<Delta>)
    requires ValidRun(d, xs)
    ensures ValidRun(d, xs + ys) <==> ValidRun(Run(d, xs), ys)
    ensures ValidRun(d, xs + ys) ==> Run(d, xs + ys) == Run(Run(d, xs), ys)
    decreases |xs|
  {
    if xs == [] {
      assert xs + ys == ys;
    } else {
      assert (xs + ys)[1..] == xs[1..] + ys;
      RunAppend(Apply(d, xs[0]), xs[1..], ys);
    }
  }

  lemma {:induction false} RunPrefix(d: Text, xs: seq<Delta>, ys: seq<Delta>)
    requires ValidRun(d, xs + ys)
    ensures ValidRun(d, xs)
    decreases |xs|
  {
    if xs != [] {
      assert (xs + ys)[1..] == xs[1..] + ys;
      RunPrefix(Apply(d, xs[0]), xs[1..], ys);
    }
  }

  lemma RunNothing(d: Text)
    ensures ValidRun(d, []) && Run(d, []) == d
  {
  }

  lemma RunCons(d: Text, x: Delta, xs: seq<Delta>)
    ensures ValidRun(d, [x] + xs) <==> Valid(d, x) && ValidRun(Apply(d, x), xs)
    ensures ValidRun(d, [x] + xs) ==> Run(d, [x] + xs) == Run(Apply(d, x), xs)
  {
    hide Valid, Apply;
    assert ([x] + xs)[1..] == xs;
  }

  lemma RunOne(d: Text, x: Delta)
    ensures ValidRun(d, [x]) <==> Valid(d, x)
    ensures Valid(d, x) ==> Run(d, [x]) == Apply(d, x)
  {
    hide Valid, Apply;
    assert [x][1..] == [];
  }

  /** The deltas that take a run back, last one first. */
  function Inverses(xs: seq<Delta>): (ys: seq<Delta>)
    ensures |ys| == |xs|
  {
    if xs == [] then [] else Inverses(xs[1..]) + [Invert(xs[0])]
  }

  lemma InversesCons(x: Delta, xs: seq<Delta>)
    ensures Inverses([x] + xs) == Inverses(xs) + [Invert(x)]
  {
    assert ([x] + xs)[1..] == xs;
  }

  lemma {:induction false} InversesUndo(d: Text, xs: seq<Delta>)
    requires ValidRun(d, xs)
    ensures ValidRun(Run(d, xs), Inverses(xs)) && Run(Run(d, xs), Inverses(xs)) == d
    decreases |xs|
  {
    if xs != [] {
      hide Apply, Valid, ValidRun, Run, Inverses;
      var x, rest := xs[0], xs[1..];
      assert xs == [x] + rest;
      RunCons(d, x, rest);
      InversesUndo(Apply(d, x), rest);
      InvertUndoes(d, x);
      InversesCons(x, rest);
      RunAppend(Run(d, xs), Inverses(rest), [Invert(x)]);
      RunOne(Apply(d, x), Invert(x));
    }
  }

  lemma {:induction false} InversesAppend(xs: seq<Delta>, ys: seq<Delta>)
    ensures Inverses(xs + ys) == Inverses(ys) + Inverses(xs)
    decreases |xs|
  {
    if xs == [] {
      assert xs + ys == ys;
    } else {
      assert (xs + ys)[1..] == xs[1..] + ys;
      InversesAppend(xs[1..], ys);
    }
  }
}
