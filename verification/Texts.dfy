/** Documents as arrays of lines.
    A text is a non-empty sequence of lines.  Texts form a monoid under Cat (glue the last line of
    one text to the first line of the next); Ext, the (row, column) distance from the start of a
    text to its end, is a homomorphism from that monoid into positions under Plus. */
module Texts {
  import opened CodeUnits

  datatype Pos = Pos(row: int, column: int)

  type Text = t: seq<Str> | |t| > 0 witness [[]]

  const ORIGIN := Pos(0, 0)

  // ---------- positions ----------

  /** Document order: by row, then by column. */
  predicate Leq(p: Pos, q: Pos) {
    p.row < q.row || (p.row == q.row && p.column <= q.column)
  }

  predicate Less(p: Pos, q: Pos) {
    Leq(p, q) && p != q
  }

  predicate Natural(p: Pos) {
    0 <= p.row && 0 <= p.column
  }

  /** Travel the distance x from p: a distance that spans rows forgets p's column. */
  function Plus(p: Pos, x: Pos): Pos {
    if x.row == 0 then Pos(p.row, p.column + x.column) else Pos(p.row + x.row, x.column)
  }

  /** The distance from p to a later q. */
  function Minus(q: Pos, p: Pos): Pos {
    if q.row == p.row then Pos(0, q.column - p.column) else Pos(q.row - p.row, q.column)
  }

  lemma PlusMinus(p: Pos, q: Pos)
    requires Natural(p) && Natural(q) && Leq(p, q)
    ensures Natural(Minus(q, p)) && Plus(p, Minus(q, p)) == q
  {
  }

  lemma PlusAssoc(p: Pos, x: Pos, y: Pos)
    requires Natural(x) && Natural(y)
    ensures Plus(Plus(p, x), y) == Plus(p, Plus(x, y))
  {
  }

  // ---------- texts ----------

  function Last(a: Text): Str { a[|a| - 1] }

  function Cat(a: Text, b: Text): (c: Text)
    ensures |c| == |a| + |b| - 1
  {
    a[..|a| - 1] + [Last(a) + b[0]] + b[1..]
  }

  function Ext(a: Text): (p: Pos)
    ensures Natural(p)
  {
    Pos(|a| - 1, |Last(a)|)
  }

  predicate ValidPos(d: Text, p: Pos) {
    0 <= p.row < |d| && 0 <= p.column <= |d[p.row]|
  }

  function Before(d: Text, p: Pos): Text
    requires ValidPos(d, p)
  {
    d[..p.row] + [d[p.row][..p.column]]
  }

  function After(d: Text, p: Pos): Text
    requires ValidPos(d, p)
  {
    [d[p.row][p.column..]] + d[p.row + 1..]
  }

  /** The text between two positions. */
  function Between(d: Text, p: Pos, q: Pos): Text
    requires ValidPos(d, p) && ValidPos(d, q) && Leq(p, q)
  {
    if p.row == q.row then [d[p.row][p.column..q.column]]
    else [d[p.row][p.column..]] + d[p.row + 1..q.row] + [d[q.row][..q.column]]
  }

  lemma CatAssoc(a: Text, b: Text, c: Text)
    ensures Cat(Cat(a, b), c) == Cat(a, Cat(b, c))
  {
    if |b| == 1 {
      assert (Last(a) + b[0]) + c[0] == Last(a) + (b[0] + c[0]);
    }
  }

  lemma CatUnit(a: Text)
    ensures Cat(a, [[]]) == a && Cat([[]], a) == a
  {
    assert Last(a) + [] == Last(a);
    assert [] + a[0] == a[0];
  }

  lemma ExtCat(a: Text, b: Text)
    ensures Ext(Cat(a, b)) == Plus(Ext(a), Ext(b))
  {
  }

  lemma SplitAt(d: Text, p: Pos)
    requires ValidPos(d, p)
    ensures Cat(Before(d, p), After(d, p)) == d && Ext(Before(d, p)) == p
  {
    assert d[p.row][..p.column] + d[p.row][p.column..] == d[p.row];
  }

  /** Cancellation: a concatenation splits at the extent of its left part, and nowhere else gives
      these two parts. */
  lemma CatSplits(a: Text, b: Text)
    ensures ValidPos(Cat(a, b), Ext(a))
    ensures Before(Cat(a, b), Ext(a)) == a && After(Cat(a, b), Ext(a)) == b
  {
    var c := Cat(a, b);
    assert c[|a| - 1] == Last(a) + b[0];
    assert c[|a| - 1][..|Last(a)|] == Last(a);
    assert c[|a| - 1][|Last(a)|..] == b[0];
  }

  /** Cutting at either end leaves the whole text and nothing. */
  lemma Ends(d: Text)
    ensures ValidPos(d, ORIGIN) && Before(d, ORIGIN) == [[]] && After(d, ORIGIN) == d
    ensures ValidPos(d, Ext(d)) && Before(d, Ext(d)) == d && After(d, Ext(d)) == [[]]
  {
    CatUnit(d);
    CatSplits([[]], d);
    CatSplits(d, [[]]);
  }

  lemma CatCancel(a: Text, b: Text, c: Text)
    requires Cat(a, b) == Cat(a, c)
    ensures b == c
  {
    CatSplits(a, b);
    CatSplits(a, c);
  }

  lemma CatCancelRight(a: Text, b: Text, z: Text)
    requires Cat(a, z) == Cat(b, z)
    ensures a == b
  {
    var c := Cat(a, z);
    assert |a| == |b|;
    assert c[|a| - 1] == Last(a) + z[0] == Last(b) + z[0];
    assert c[|a| - 1][..|Last(a)|] == Last(a) && c[|a| - 1][..|Last(b)|] == Last(b);
    assert a == c[..|a| - 1] + [Last(a)] && b == c[..|a| - 1] + [Last(b)];
  }

  /** Two ordered cuts split a text into three. */
  lemma SplitTwice(d: Text, p: Pos, q: Pos)
    requires ValidPos(d, p) && ValidPos(d, q) && Leq(p, q)
    ensures d == Cat(Cat(Before(d, p), Between(d, p, q)), After(d, q))
    ensures Ext(Before(d, p)) == p && Ext(Cat(Before(d, p), Between(d, p, q))) == q
    ensures Ext(Between(d, p, q)) == Minus(q, p)
    ensures After(d, p) == Cat(Between(d, p, q), After(d, q))
    ensures Before(d, q) == Cat(Before(d, p), Between(d, p, q))
  {
    var a, m, z := Before(d, p), Between(d, p, q), After(d, q);
    SplitAt(d, p);
    SplitAt(d, q);
    assert Before(d, q) == Cat(a, m) by {
      if p.row == q.row {
        assert d[p.row][..q.column] == d[p.row][..p.column] + d[p.row][p.column..q.column];
      } else {
        assert d[p.row] == d[p.row][..p.column] + d[p.row][p.column..];
        assert [] + d[q.row][..q.column] == d[q.row][..q.column];
      }
    }
    CatAssoc(a, m, z);
    CatCancel(a, After(d, p), Cat(m, z));
  }
}
