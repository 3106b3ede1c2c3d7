/** The flat view of a text: its lines joined by a newline, positions as indices into that string. */
module FlatText {
  import opened CodeUnits
  import opened Texts
  import opened Deltas

  function Join(d: Text, nl: Str): Str
    decreases |d|
  {
    if |d| == 1 then d[0] else d[0] + nl + Join(d[1..], nl)
  }

  lemma {:induction false} JoinCat(a: Text, b: Text, nl: Str)
    ensures Join(Cat(a, b), nl) == Join(a, nl) + Join(b, nl)
    decreases |a|
  {
    var c := Cat(a, b);
    if |a| == 1 {
      assert c[1..] == b[1..];
      if |b| > 1 {
        assert (a[0] + b[0]) + nl + Join(b[1..], nl) == a[0] + (b[0] + nl + Join(b[1..], nl));
      }
    } else {
      assert c[1..] == Cat(a[1..], b);
      JoinCat(a[1..], b, nl);
      assert a[0] + nl + (Join(a[1..], nl) + Join(b, nl)) == (a[0] + nl + Join(a[1..], nl)) + Join(b, nl);
    }
  }

  /** The index of a valid position: how much text stands in front of it. */
  function IndexAt(d: Text, p: Pos, nl: Str): nat
    requires ValidPos(d, p)
  {
    |Join(Before(d, p), nl)|
  }

  lemma FlatSplit(d: Text, p: Pos, nl: Str)
    requires ValidPos(d, p)
    ensures IndexAt(d, p, nl) <= |Join(d, nl)|
    ensures Join(d, nl)[..IndexAt(d, p, nl)] == Join(Before(d, p), nl)
    ensures Join(d, nl)[IndexAt(d, p, nl)..] == Join(After(d, p), nl)
  {
    SplitAt(d, p);
    JoinCat(Before(d, p), After(d, p), nl);
  }

  /** Splicing lines is inserting into, or deleting from, the flat string. */
  lemma ApplyRefinesFlat(d: Text, x: Delta, nl: Str)
    requires Valid(d, x)
    ensures var s, w, i := Join(d, nl), Join(x.lines, nl), IndexAt(d, x.start, nl);
            && i <= |s|
            && (x.action.Insert? ==> Join(Apply(d, x), nl) == s[..i] + w + s[i..])
            && (x.action.Remove? ==> i + |w| <= |s| && s[i..i + |w|] == w
                                     && Join(Apply(d, x), nl) == s[..i] + s[i + |w|..])
  {
    var a, z := Before(d, x.start), After(d, PreEnd(x));
    FlatSplit(d, x.start, nl);
    if x.action.Insert? {
      JoinCat(a, x.lines, nl);
      JoinCat(Cat(a, x.lines), z, nl);
    } else {
      SplitTwice(d, x.start, x.end);
      JoinCat(a, x.lines, nl);
      JoinCat(Cat(a, x.lines), z, nl);
      JoinCat(a, z, nl);
    }
  }

  /** Document order of positions is the order of their indices. */
  lemma IndexOrder(d: Text, p: Pos, q: Pos, nl: Str)
    requires ValidPos(d, p) && ValidPos(d, q) && nl != []
    ensures Less(p, q) <==> IndexAt(d, p, nl) < IndexAt(d, q, nl)
    ensures Leq(p, q) ==> IndexAt(d, q, nl) == IndexAt(d, p, nl) + |Join(Between(d, p, q), nl)|
  {
    if Leq(p, q) {
      SplitTwice(d, p, q);
      JoinCat(Before(d, p), Between(d, p, q), nl);
    } else {
      SplitTwice(d, q, p);
      JoinCat(Before(d, q), Between(d, q, p), nl);
    }
  }

  // ---------- positionToIndex and indexToPosition ----------

  /** What rows lo..hi contribute to an index when every newline counts n. */
  function RowsLength(d: Text, lo: nat, hi: nat, n: nat): nat
    requires hi <= |d|
    decreases hi
  {
    if lo >= hi then 0 else RowsLength(d, lo, hi - 1, n) + |d[hi - 1]| + n
  }

  /** Total: a negative row counts no rows, one past the end counts them all. */
  function PositionToIndex(d: Text, p: Pos, n: nat, startRow: nat): int {
    RowsLength(d, startRow, if p.row < 0 then 0 else if p.row < |d| then p.row else |d|, n) + p.column
  }

  function IndexToPosition(d: Text, i: int, n: nat, startRow: nat): (p: Pos)
    ensures 0 <= p.row < |d|
    decreases |d| - startRow
  {
    if startRow >= |d| then Pos(|d| - 1, i + |Last(d)| + n)
    else if i < |d[startRow]| + n then Pos(startRow, i)
    else IndexToPosition(d, i - |d[startRow]| - n, n, startRow + 1)
  }

  lemma {:induction false} RowsLengthSplit(d: Text, lo: nat, mid: nat, hi: nat, n: nat)
    requires lo <= mid <= hi <= |d|
    ensures RowsLength(d, lo, hi, n) == RowsLength(d, lo, mid, n) + RowsLength(d, mid, hi, n)
    decreases hi
  {
    if mid < hi { RowsLengthSplit(d, lo, mid, hi - 1, n); }
  }

  /** The index of a valid position is the length of the joined text before it. */
  lemma {:induction false} PositionToIndexIsFlat(d: Text, p: Pos, nl: Str)
    requires ValidPos(d, p)
    ensures PositionToIndex(d, p, |nl|, 0) == IndexAt(d, p, nl)
    decreases p.row
  {
    var b := Before(d, p);
    if p.row > 0 {
      var q := Pos(p.row - 1, |d[p.row - 1]|);
      PositionToIndexIsFlat(d, q, nl);
      var m := Between(d, q, p);
      SplitTwice(d, q, p);
      assert m[1..] == [d[p.row][..p.column]] && m[0] == [];
      assert Join(m, nl) == [] + nl + d[p.row][..p.column];
      JoinCat(Before(d, q), m, nl);
    }
  }

  /** Every index, in the document or not, comes back from its position. */
  lemma {:induction false} IndexRoundTrip(d: Text, i: int, n: nat, startRow: nat)
    requires startRow < |d|
    ensures var p := IndexToPosition(d, i, n, startRow);
            startRow <= p.row < |d| && PositionToIndex(d, p, n, startRow) == i
    decreases |d| - startRow
  {
    if i >= |d[startRow]| + n {
      var p := IndexToPosition(d, i - |d[startRow]| - n, n, startRow + 1);
      if startRow + 1 < |d| {
        IndexRoundTrip(d, i - |d[startRow]| - n, n, startRow + 1);
        RowsLengthSplit(d, startRow, startRow + 1, p.row, n);
      }
    }
  }

  /** With a newline that counts, the scan must start inside the document for that. */
  lemma IndexRoundTripIff(d: Text, i: int, n: nat, startRow: nat)
    requires 0 < n
    ensures PositionToIndex(d, IndexToPosition(d, i, n, startRow), n, startRow) == i <==> startRow < |d|
  {
    if startRow < |d| { IndexRoundTrip(d, i, n, startRow); }
  }

  /** Every valid position comes back from its index. */
  lemma {:induction false} PositionRoundTrip(d: Text, p: Pos, n: nat, startRow: nat)
    requires ValidPos(d, p) && startRow <= p.row && 0 < n
    ensures 0 <= PositionToIndex(d, p, n, startRow)
    ensures IndexToPosition(d, PositionToIndex(d, p, n, startRow), n, startRow) == p
    decreases p.row - startRow
  {
    if startRow < p.row {
      RowsLengthSplit(d, startRow, startRow + 1, p.row, n);
      PositionRoundTrip(d, p, n, startRow + 1);
    }
  }
}
