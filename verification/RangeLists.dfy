/** The ordered list of ranges behind multiple selections. */
module RangeLists {
  import opened Texts

  datatype Range = Range(start: Pos, end: Pos) {
    predicate IsEmpty() { start == end }
  }

  predicate Forward(rs: seq<Range>) {
    forall i :: 0 <= i < |rs| ==> Leq(rs[i].start, rs[i].end)
  }

  /** In order, without overlap. */
  predicate Ordered(rs: seq<Range>) {
    Forward(rs) && forall i, j :: 0 <= i < j < |rs| ==> Leq(rs[i].end, rs[j].start)
  }

  /** pointIndex: the index of the range at p, or a negative code for where p would go in. */
  function PointIndex(rs: seq<Range>, p: Pos, excludeEdges: bool, from: nat): int
    decreases |rs| - from
  {
    if from >= |rs| then -1 - from
    else
      var r := rs[from];
      if Less(r.end, p) then PointIndex(rs, p, excludeEdges, from + 1)
      else if p == r.end then (if excludeEdges && p != r.start then -2 - from else from)
      else if Less(r.start, p) || (p == r.start && !excludeEdges) then from
      else -1 - from
  }

  /** Ranges with an interior point, or a whole empty range, in common. */
  predicate Collide(a: Range, b: Range) {
    Less(a.start, b.end) && Less(b.start, a.end)
  }

  predicate Touch(a: Range, b: Range) {
    Leq(a.start, b.end) && Leq(b.start, a.end)
  }

  predicate Covered(rs: seq<Range>, p: Pos) {
    exists i :: 0 <= i < |rs| && Leq(rs[i].start, p) && Leq(p, rs[i].end)
  }

  /** p lies inside a range, not only at an end of it. */
  predicate Inside(rs: seq<Range>, p: Pos) {
    exists i :: 0 <= i < |rs| && Less(rs[i].start, p) && Less(p, rs[i].end)
  }

  // ---------- sorting ----------

  predicate SortedByStart(rs: seq<Range>) {
    forall i, j :: 0 <= i < j < |rs| ==> Leq(rs[i].start, rs[j].start)
  }

  /** A sorting by start that keeps equal starts in order, as Array.prototype.sort does. */
  function Insert(r: Range, rs: seq<Range>): seq<Range> {
    if rs == [] then [r]
    else if Leq(r.start, rs[0].start) then [r] + rs
    else [rs[0]] + Insert(r, rs[1..])
  }

  function Sort(rs: seq<Range>): seq<Range> {
    if rs == [] then [] else Insert(rs[0], Sort(rs[1..]))
  }

  predicate StartsBefore(r: Range, rs: seq<Range>) {
    forall i :: 0 <= i < |rs| ==> Leq(r.start, rs[i].start)
  }

  lemma SortedCons(r: Range, rs: seq<Range>)
    ensures SortedByStart([r] + rs) <==> StartsBefore(r, rs) && SortedByStart(rs)
  {
    hide Leq;
    var t := [r] + rs;
    assert forall i :: 0 <= i < |rs| ==> t[i + 1] == rs[i];
    if SortedByStart(t) {
      forall i | 0 <= i < |rs| ensures Leq(r.start, rs[i].start) { assert rs[i] == t[i + 1] && t[0] == r; }
      forall i, j | 0 <= i < j < |rs|
        ensures Leq(rs[i].start, rs[j].start)
      {
        assert rs[i] == t[i + 1] && rs[j] == t[j + 1];
      }
    }
  }

  lemma InsertStep(r: Range, x: Range, rs: seq<Range>)
    ensures Insert(r, []) == [r]
    ensures Insert(r, [x] + rs) == if Leq(r.start, x.start) then [r] + ([x] + rs) else [x] + Insert(r, rs)
  {
    assert ([x] + rs)[1..] == rs;
  }

  lemma BeforeCons(r: Range, x: Range, rs: seq<Range>)
    ensures StartsBefore(r, [x] + rs) <==> Leq(r.start, x.start) && StartsBefore(r, rs)
  {
    var t := [x] + rs;
    assert t[0] == x && forall i :: 0 <= i < |rs| ==> t[i + 1] == rs[i];
  }

  lemma BeforeLater(r: Range, x: Range, rs: seq<Range>)
    requires Leq(r.start, x.start) && StartsBefore(x, rs)
    ensures StartsBefore(r, rs)
  {
  }

  /** An inserted range changes nothing for a range that starts before it and before the others. */
  lemma {:induction false} InsertBehind(y: Range, r: Range, rs: seq<Range>)
    ensures StartsBefore(y, Insert(r, rs)) <==> Leq(y.start, r.start) && StartsBefore(y, rs)
    decreases |rs|
  {
    hide StartsBefore, Insert, Leq;
    if rs == [] {
      InsertStep(r, r, []);
      assert [r] + [] == [r];
      BeforeCons(y, r, []);
    } else {
      var x, rest := rs[0], rs[1..];
      assert rs == [x] + rest;
      InsertStep(r, x, rest);
      BeforeCons(y, x, rest);
      BeforeCons(y, r, rs);
      BeforeCons(y, x, Insert(r, rest));
      InsertBehind(y, r, rest);
    }
  }

  lemma {:induction false} InsertSorts(r: Range, rs: seq<Range>)
    requires SortedByStart(rs)
    ensures SortedByStart(Insert(r, rs))
    decreases |rs|
  {
    hide SortedByStart, StartsBefore, Insert;
    if rs == [] {
      InsertStep(r, r, []);
      NothingBehind(r);
      SortedCons(r, []);
      assert [r] + [] == [r];
    } else {
      var x, rest := rs[0], rs[1..];
      assert rs == [x] + rest;
      InsertStep(r, x, rest);
      SortedCons(x, rest);
      if Leq(r.start, x.start) {
        BeforeLater(r, x, rest);
        BeforeCons(r, x, rest);
        SortedCons(r, rs);
      } else {
        InsertSorts(r, rest);
        InsertBehind(x, r, rest);
        SortedCons(x, Insert(r, rest));
      }
    }
  }

  lemma NothingBehind(r: Range)
    ensures StartsBefore(r, []) && SortedByStart([])
  {
  }

  lemma {:induction false} InsertKeeps(r: Range, rs: seq<Range>)
    ensures multiset(Insert(r, rs)) == multiset(rs) + multiset{r} && |Insert(r, rs)| == |rs| + 1
    ensures Starts(Insert(r, rs)) == Starts(rs) + multiset{r.start}
    decreases |rs|
  {
    hide Starts, Leq;
    if rs != [] && !Leq(r.start, rs[0].start) {
      var x, rest := rs[0], rs[1..];
      assert rs == [x] + rest;
      InsertKeeps(r, rest);
      StartsCons(x, Insert(r, rest));
      StartsCons(x, rest);
    } else {
      assert [r] + [] == [r];
      StartsCons(r, rs);
    }
  }

  /** The starts of the ranges, each as often as it occurs. */
  function Starts(rs: seq<Range>): multiset<Pos> {
    if rs == [] then multiset{} else multiset{rs[0].start} + Starts(rs[1..])
  }

  lemma StartsCons(r: Range, rs: seq<Range>)
    ensures Starts([r] + rs) == Starts(rs) + multiset{r.start}
  {
    assert ([r] + rs)[1..] == rs;
  }

  lemma {:induction false} StartsAppend(a: seq<Range>, b: seq<Range>)
    ensures Starts(a + b) == Starts(a) + Starts(b)
    decreases |a|
  {
    if a == [] {
      assert a + b == b;
    } else {
      assert (a + b)[1..] == a[1..] + b;
      StartsAppend(a[1..], b);
    }
  }

  lemma {:induction false} SortSorts(rs: seq<Range>)
    ensures SortedByStart(Sort(rs)) && multiset(Sort(rs)) == multiset(rs) && |Sort(rs)| == |rs|
    ensures Starts(Sort(rs)) == Starts(rs)
    decreases |rs|
  {
    if rs != [] {
      hide SortedByStart, Insert, Starts;
      var r, rest := rs[0], rs[1..];
      assert rs == [r] + rest;
      SortSorts(rest);
      InsertSorts(r, Sort(rest));
      InsertKeeps(r, Sort(rest));
      StartsCons(r, rest);
    }
  }

  lemma SameRangesCoverSame(a: seq<Range>, b: seq<Range>, p: Pos)
    requires multiset(a) == multiset(b)
    ensures Covered(a, p) == Covered(b, p)
  {
    if Covered(a, p) {
      var i :| 0 <= i < |a| && Leq(a[i].start, p) && Leq(p, a[i].end);
      assert a[i] in multiset(a);
      assert a[i] in b;
    }
    if Covered(b, p) {
      var i :| 0 <= i < |b| && Leq(b[i].start, p) && Leq(p, b[i].end);
      assert b[i] in multiset(b);
      assert b[i] in a;
    }
  }

  lemma SameRangesInsideSame(a: seq<Range>, b: seq<Range>, p: Pos)
    requires multiset(a) == multiset(b)
    ensures Inside(a, p) == Inside(b, p)
  {
    if Inside(a, p) {
      var i :| 0 <= i < |a| && Less(a[i].start, p) && Less(p, a[i].end);
      assert a[i] in multiset(a);
      assert a[i] in b;
    }
    if Inside(b, p) {
      var i :| 0 <= i < |b| && Less(b[i].start, p) && Less(p, b[i].end);
      assert b[i] in multiset(b);
      assert b[i] in a;
    }
  }

  // ---------- merging ----------

  /** Strictly apart, or touching with neither empty. */
  predicate Apart(a: Range, b: Range) {
    Less(a.end, b.start) || (a.end == b.start && !a.IsEmpty() && !b.IsEmpty())
  }

  predicate NeighboursApart(rs: seq<Range>, n: nat)
    requires n <= |rs|
  {
    forall i :: 0 <= i < n - 1 ==> Apart(rs[i], rs[i + 1])
  }

  function Later(p: Pos, q: Pos): Pos { if Less(p, q) then q else p }

  /** Swallow range s into its predecessor. */
  function Swallow(rs: seq<Range>, s: nat): seq<Range>
    requires 0 < s < |rs|
  {
    rs[..s - 1] + [Range(rs[s - 1].start, Later(rs[s - 1].end, rs[s].end))] + rs[s + 1..]
  }

  lemma SwallowCoversAll(rs: seq<Range>, s: nat, p: Pos)
    requires 0 < s < |rs| && SortedByStart(rs) && Covered(rs, p)
    ensures Covered(Swallow(rs, s), p)
  {
    var t := Swallow(rs, s);
    var i :| 0 <= i < |rs| && Leq(rs[i].start, p) && Leq(p, rs[i].end);
    var k := if i < s then i else i - 1;
    assert Leq(t[k].start, p) && Leq(p, t[k].end);
  }

  lemma SwallowCoversNoMore(rs: seq<Range>, s: nat, p: Pos)
    requires 0 < s < |rs| && Leq(rs[s].start, rs[s - 1].end) && Covered(Swallow(rs, s), p)
    ensures Covered(rs, p)
  {
    var t := Swallow(rs, s);
    var k :| 0 <= k < |t| && Leq(t[k].start, p) && Leq(p, t[k].end);
    if k == s - 1 {
      assert Leq(p, rs[s - 1].end) || (Leq(rs[s].start, p) && Leq(p, rs[s].end));
    } else {
      assert t[k] == rs[if k < s then k else k + 1];
    }
  }

  lemma SwallowKeepsCover(rs: seq<Range>, s: nat, p: Pos)
    requires 0 < s < |rs| && SortedByStart(rs) && Leq(rs[s].start, rs[s - 1].end)
    ensures Covered(Swallow(rs, s), p) == Covered(rs, p)
  {
    hide Covered, Swallow;
    if Covered(rs, p) { SwallowCoversAll(rs, s, p); }
    if Covered(Swallow(rs, s), p) { SwallowCoversNoMore(rs, s, p); }
  }

  lemma SwallowInsideAll(rs: seq<Range>, s: nat, p: Pos)
    requires 0 < s < |rs| && SortedByStart(rs) && Inside(rs, p)
    ensures Inside(Swallow(rs, s), p)
  {
    var t := Swallow(rs, s);
    var i :| 0 <= i < |rs| && Less(rs[i].start, p) && Less(p, rs[i].end);
    var k := if i < s then i else i - 1;
    assert Less(t[k].start, p) && Less(p, t[k].end);
  }

  lemma SwallowInsideNoMore(rs: seq<Range>, s: nat, p: Pos)
    requires 0 < s < |rs| && Forward(rs) && SortedByStart(rs) && !Apart(rs[s - 1], rs[s]) && Inside(Swallow(rs, s), p)
    ensures Inside(rs, p)
  {
    var t := Swallow(rs, s);
    var k :| 0 <= k < |t| && Less(t[k].start, p) && Less(p, t[k].end);
    if k == s - 1 {
      var a, b := rs[s - 1], rs[s];
      assert Leq(a.start, a.end) && Leq(b.start, b.end) && Leq(a.start, b.start);
      assert (Less(a.start, p) && Less(p, a.end)) || (Less(b.start, p) && Less(p, b.end));
    } else {
      assert t[k] == rs[if k < s then k else k + 1];
    }
  }

  /** Ranges that are not apart have no point between their insides. */
  lemma SwallowKeepsInside(rs: seq<Range>, s: nat, p: Pos)
    requires 0 < s < |rs| && Forward(rs) && SortedByStart(rs) && !Apart(rs[s - 1], rs[s])
    ensures Inside(Swallow(rs, s), p) == Inside(rs, p)
  {
    hide Inside, Swallow;
    if Inside(rs, p) { SwallowInsideAll(rs, s, p); }
    if Inside(Swallow(rs, s), p) { SwallowInsideNoMore(rs, s, p); }
  }

  lemma SwallowKeepsOrder(rs: seq<Range>, s: nat)
    requires 0 < s < |rs| && Forward(rs) && SortedByStart(rs) && NeighboursApart(rs, s)
    requires Leq(rs[s].start, rs[s - 1].end)
    ensures var t := Swallow(rs, s);
            |t| == |rs| - 1 && Forward(t) && SortedByStart(t) && NeighboursApart(t, s)
  {
    var t := Swallow(rs, s);
    forall i | 0 <= i < |t|
      ensures Leq(t[i].start, t[i].end) && (i < s ==> t[i].start == rs[i].start) && (i >= s ==> t[i] == rs[i + 1])
    {
    }
  }

  lemma SplitAtTwo(rs: seq<Range>, s: nat)
    requires 0 < s < |rs|
    ensures rs == rs[..s - 1] + ([rs[s - 1]] + ([rs[s]] + rs[s + 1..]))
  {
  }

  lemma SwallowKeepsStarts(rs: seq<Range>, s: nat)
    requires 0 < s < |rs|
    ensures Starts(Swallow(rs, s)) + multiset{rs[s].start} == Starts(rs)
  {
    hide Starts;
    var init, a, b, rest := rs[..s - 1], rs[s - 1], rs[s], rs[s + 1..];
    SplitAtTwo(rs, s);
    ReplacedStarts(init, a, Range(a.start, Later(a.end, b.end)), b, rest);
  }

  lemma ReplacedStarts(init: seq<Range>, a: Range, c: Range, b: Range, rest: seq<Range>)
    requires c.start == a.start
    ensures Starts(init + [c] + rest) + multiset{b.start} == Starts(init + ([a] + ([b] + rest)))
  {
    hide Starts;
    StartsAppend(init, [a] + ([b] + rest));
    StartsCons(a, [b] + rest);
    StartsCons(b, rest);
    StartsAppend(init + [c], rest);
    StartsLast(init, c);
  }

  /** What merge has taken out so far and what it has still to look at are old ranges. */
  ghost predicate Accounted(was: seq<Range>, list: seq<Range>, removed: seq<Range>, s: nat) {
    && |list| + |removed| == |was|
    && Starts(list) + Starts(removed) == Starts(was)
    && s <= |list| && multiset(list[s..]) + multiset(removed) <= multiset(was)
  }

  lemma TailWithin(rs: seq<Range>, s: nat)
    requires s <= |rs|
    ensures multiset(rs[s..]) <= multiset(rs)
  {
    assert rs == rs[..s] + rs[s..];
  }

  lemma NothingStarts(rs: seq<Range>)
    requires rs == []
    ensures Starts(rs) == multiset{}
  {
  }

  lemma AccountsStart(was: seq<Range>, s: nat)
    requires s <= |was|
    ensures Accounted(was, Sort(was), [], s)
  {
    hide Sort, Starts, SortedByStart;
    SortSorts(was);
    TailWithin(Sort(was), s);
    NothingStarts([]);
  }

  lemma AccountsKept(was: seq<Range>, list: seq<Range>, removed: seq<Range>, s: nat)
    requires s < |list| && Accounted(was, list, removed, s)
    ensures Accounted(was, list, removed, s + 1)
  {
    hide Starts;
    assert list[s..] == [list[s]] + list[s + 1..];
  }

  lemma AccountsSwallow(was: seq<Range>, list: seq<Range>, removed: seq<Range>, s: nat)
    requires 0 < s < |list| && Accounted(was, list, removed, s)
    ensures Accounted(was, Swallow(list, s), removed + [list[s]], s)
  {
    hide Starts;
    assert list[s..] == [list[s]] + list[s + 1..];
    SwallowKeepsStarts(list, s);
    StartsLast(removed, list[s]);
    assert Swallow(list, s)[s..] == list[s + 1..];
  }

  lemma StartsLast(rs: seq<Range>, r: Range)
    ensures Starts(rs + [r]) == Starts(rs) + multiset{r.start}
  {
    StartsAppend(rs, [r]);
    assert [r][1..] == [];
  }

  class RangeList {
    var ranges: seq<Range>

    constructor ()
      ensures ranges == []
    {
      ranges := [];
    }

    method FindPoint(p: Pos, excludeEdges: bool, startIndex: nat) returns (index: int)
      ensures index == PointIndex(ranges, p, excludeEdges, startIndex)
    {
      var i := startIndex;
      while i < |ranges|
        invariant PointIndex(ranges, p, excludeEdges, i) == PointIndex(ranges, p, excludeEdges, startIndex)
      {
        var r := ranges[i];
        if Less(r.end, p) {
          i := i + 1;
          continue;
        }
        if p == r.end {
          return if excludeEdges && p != r.start then -i - 2 else i;
        }
        return if Less(r.start, p) || (p == r.start && !excludeEdges) then i else -i - 1;
      }
      return -i - 1;
    }

    /** add: put a range in, in place of the ranges it collides with. */
    method Add(range: Range) returns (removed: seq<Range>)
      requires Ordered(ranges) && Leq(range.start, range.end)
      modifies this
      ensures Ordered(ranges)
      ensures var n, m := Places(old(ranges), range).0, Places(old(ranges), range).1;
              && n <= m <= |old(ranges)| && removed == old(ranges)[n..m]
              && ranges == old(ranges)[..n] + [range] + old(ranges)[m..]
              && (forall i :: 0 <= i < |old(ranges)| ==> (n <= i < m <==> GoesOut(old(ranges), range, i)))
              && (forall i :: 0 <= i < n || m <= i < |old(ranges)| ==> !Collide(old(ranges)[i], range))
      ensures range.IsEmpty() ==> |removed| <= 1
    {
      hide PointIndex, Ordered, Collide, InTheWay, GoesOut;
      var excludeEdges := !range.IsEmpty();
      AddedPlaces(ranges, range);
      AddedExactly(ranges, range);
      SplicedOrdered(ranges, range, Places(ranges, range).0, Places(ranges, range).1);
      var n := FindPoint(range.start, excludeEdges, 0);
      if n < 0 { n := -n - 1; }
      var m := FindPoint(range.end, excludeEdges, n);
      if m < 0 { m := -m - 1; } else { m := m + 1; }
      removed := ranges[n..m];
      ranges := ranges[..n] + [range] + ranges[m..];
    }

    /** merge: sort, then swallow every range that touches or overlaps its predecessor, unless both
        are non-empty and only touch.  What is returned are old ranges, those whose starts are gone. */
    method Merge() returns (removed: seq<Range>)
      requires Forward(ranges)
      modifies this
      ensures Ordered(ranges) && NeighboursApart(ranges, |ranges|)
      ensures forall p: Pos :: SamePoint(ranges, old(ranges), p)
      ensures |ranges| + |removed| == |old(ranges)| && multiset(removed) <= multiset(old(ranges))
      ensures Starts(ranges) + Starts(removed) == Starts(old(ranges))
    {
      removed := [];
      var list := Sort(ranges);
      SortSorts(ranges);
      forall p: Pos ensures SamePoint(list, old(ranges), p) {
        SameRangesCoverSame(list, ranges, p);
        SameRangesInsideSame(list, ranges, p);
      }
      SortedForward(ranges, list);
      AccountsStart(ranges, if ranges == [] then 0 else 1);
      var s := 1;
      while s < |list|
        invariant 1 <= s && (s <= |list| || list == [])
        invariant MergedUpTo(list, if s <= |list| then s else 0)
        invariant forall p: Pos :: SamePoint(list, old(ranges), p)
        invariant Accounted(old(ranges), list, removed, if s <= |list| then s else 0)
        decreases |list| - s
      {
        hide SamePoint, Starts, Accounted, MergedUpTo;
        var range, next := list[s - 1], list[s];
        MergeStep(old(ranges), list, s);
        AccountsKept(old(ranges), list, removed, s);
        AccountsSwallow(old(ranges), list, removed, s);
        if Less(range.end, next.start) {
          s := s + 1;
        } else if range.end == next.start && !range.IsEmpty() && !next.IsEmpty() {
          s := s + 1;
        } else {
          if Less(range.end, next.end) {
            range := range.(end := next.end);
          }
          list := list[..s - 1] + [range] + list[s + 1..];
          removed := removed + [next];
        }
      }
      MergeDone(list);
      ranges := list;
    }
  }

  /** The lists agree on whether p is covered, and on whether it is inside a range. */
  predicate SamePoint(a: seq<Range>, b: seq<Range>, p: Pos) {
    Covered(a, p) == Covered(b, p) && Inside(a, p) == Inside(b, p)
  }

  ghost predicate MergedUpTo(list: seq<Range>, s: nat) {
    s <= |list| && Forward(list) && SortedByStart(list) && NeighboursApart(list, s)
  }

  lemma MergeStep(was: seq<Range>, list: seq<Range>, s: nat)
    requires 0 < s < |list| && MergedUpTo(list, s) && forall p: Pos :: SamePoint(list, was, p)
    ensures Apart(list[s - 1], list[s]) ==> MergedUpTo(list, s + 1)
    ensures !Apart(list[s - 1], list[s]) ==>
      && MergedUpTo(Swallow(list, s), s)
      && forall p: Pos :: SamePoint(Swallow(list, s), was, p)
  {
    if !Apart(list[s - 1], list[s]) {
      hide Covered, Inside, Swallow, NeighboursApart;
      NotApartTouch(list[s - 1], list[s]);
      SwallowKeepsOrder(list, s);
      forall p: Pos ensures SamePoint(Swallow(list, s), was, p) {
        assert SamePoint(list, was, p);
        SwallowKeepsCover(list, s, p);
        SwallowKeepsInside(list, s, p);
      }
    }
  }

  lemma NotApartTouch(a: Range, b: Range)
    requires !Apart(a, b)
    ensures Leq(b.start, a.end)
  {
  }

  lemma MergeDone(list: seq<Range>)
    requires MergedUpTo(list, |list|)
    ensures Ordered(list) && NeighboursApart(list, |list|)
  {
    ApartIsOrdered(list);
  }

  /** Where add splices: the codes of pointIndex decoded. */
  function Places(rs: seq<Range>, range: Range): (nat, nat) {
    var i := PointIndex(rs, range.start, !range.IsEmpty(), 0);
    var n := if i < 0 then -i - 1 else i;
    var j := PointIndex(rs, range.end, !range.IsEmpty(), n);
    (n, if j < 0 then -j - 1 else j + 1)
  }

  /** What add may take out: a range that overlaps the new one, or an empty one that touches it, or,
      for an empty new one, the range it lies in. */
  predicate InTheWay(r: Range, range: Range) {
    Touch(r, range) && (r.IsEmpty() || range.IsEmpty() || Collide(r, range))
  }

  /** What add does take out: for an empty new range the first one in the way, for any other all of
      them, but for an empty range at its end that stands behind another one ending there. */
  predicate GoesOut(rs: seq<Range>, range: Range, i: nat)
    requires i < |rs|
  {
    && InTheWay(rs[i], range)
    && if range.IsEmpty() then forall k :: 0 <= k < i ==> !InTheWay(rs[k], range)
       else !(rs[i] == Range(range.end, range.end) && i > 0 && rs[i - 1].end == range.end)
  }

  lemma AddedPlaces(rs: seq<Range>, range: Range)
    requires Ordered(rs) && Leq(range.start, range.end)
    ensures var (n, m) := Places(rs, range);
            && n <= m <= |rs|
            && (forall i :: 0 <= i < n ==> Leq(rs[i].end, range.start))
            && (forall i :: m <= i < |rs| ==> Leq(range.end, rs[i].start))
            && (range.IsEmpty() ==> m <= n + 1)
  {
    hide Ordered, PointIndex;
    var k, l := Stops(rs, range);
    PointIndexPlaces(rs, range.start, !range.IsEmpty(), 0);
    var n := Places(rs, range).0;
    PointIndexPlaces(rs, range.end, !range.IsEmpty(), n);
    StopsBehind(rs, range.end, l);
  }

  /** Where the two scans of add come to a stop, and what they return from there. */
  lemma Stops(rs: seq<Range>, range: Range) returns (k: nat, l: nat)
    requires Ordered(rs) && Leq(range.start, range.end)
    ensures var (n, m) := Places(rs, range); var excludeEdges := !range.IsEmpty();
            && StopsAt(rs, range.start, 0, k) && n == PlaceAt(rs, range.start, excludeEdges, k, 0)
            && n <= |rs| && StopsAt(rs, range.end, n, l) && m == PlaceAt(rs, range.end, excludeEdges, l, 1)
  {
    k := ScanStops(rs, range.start, !range.IsEmpty(), 0);
    assert Places(rs, range).0 == PlaceAt(rs, range.start, !range.IsEmpty(), k, 0);
    l := ScanStops(rs, range.end, !range.IsEmpty(), Places(rs, range).0);
  }

  /** The first range from there on that does not end before p. */
  predicate StopsAt(rs: seq<Range>, p: Pos, from: nat, k: nat) {
    && from <= k <= |rs| && (forall i :: from <= i < k ==> Less(rs[i].end, p))
    && (k < |rs| ==> Leq(p, rs[k].end))
  }

  /** The code of pointIndex at the stop, decoded: a range found counts for past more places. */
  function PlaceAt(rs: seq<Range>, p: Pos, excludeEdges: bool, k: nat, past: nat): nat {
    if k >= |rs| then k
    else if p == rs[k].end then (if excludeEdges && p != rs[k].start then k + 1 else k + past)
    else if Less(rs[k].start, p) || (p == rs[k].start && !excludeEdges) then k + past
    else k
  }

  lemma {:induction false} ScanStops(rs: seq<Range>, p: Pos, excludeEdges: bool, from: nat) returns (k: nat)
    requires from <= |rs|
    ensures StopsAt(rs, p, from, k)
    ensures var i := PointIndex(rs, p, excludeEdges, from);
            forall past: nat :: PlaceAt(rs, p, excludeEdges, k, past) == if i < 0 then -i - 1 else i + past
    decreases |rs| - from
  {
    k := from;
    if from < |rs| && Less(rs[from].end, p) {
      k := ScanStops(rs, p, excludeEdges, from + 1);
    }
  }

  lemma StopsBehind(rs: seq<Range>, p: Pos, k: nat)
    requires Ordered(rs) && (k < |rs| ==> Leq(p, rs[k].end))
    ensures forall i :: k < i < |rs| ==> Leq(p, rs[i].start)
  {
  }

  lemma AddedExactly(rs: seq<Range>, range: Range)
    requires Ordered(rs) && Leq(range.start, range.end)
    ensures var (n, m) := Places(rs, range);
            forall i :: 0 <= i < |rs| ==> (n <= i < m <==> GoesOut(rs, range, i))
  {
    hide PointIndex;
    var k, l := Stops(rs, range);
    var (n, m) := Places(rs, range);
    forall i | 0 <= i < |rs|
      ensures n <= i < m <==> GoesOut(rs, range, i)
    {
      if range.IsEmpty() {
        EmptyAdded(rs, range, k, l, n, m, i);
      } else {
        NonEmptyAdded(rs, range, k, l, n, m, i);
      }
    }
  }

  lemma EmptyAdded(rs: seq<Range>, range: Range, k: nat, l: nat, n: nat, m: nat, i: nat)
    requires Ordered(rs) && range.IsEmpty() && i < |rs|
    requires StopsAt(rs, range.start, 0, k) && n == PlaceAt(rs, range.start, false, k, 0)
    requires StopsAt(rs, range.end, n, l) && m == PlaceAt(rs, range.end, false, l, 1)
    ensures n <= i < m <==> GoesOut(rs, range, i)
  {
  }

  lemma NonEmptyAdded(rs: seq<Range>, range: Range, k: nat, l: nat, n: nat, m: nat, i: nat)
    requires Ordered(rs) && Less(range.start, range.end) && i < |rs|
    requires StopsAt(rs, range.start, 0, k) && n == PlaceAt(rs, range.start, true, k, 0)
    requires StopsAt(rs, range.end, n, l) && m == PlaceAt(rs, range.end, true, l, 1)
    ensures n <= i < m <==> GoesOut(rs, range, i)
  {
  }

  lemma SplicedOrdered(rs: seq<Range>, range: Range, n: nat, m: nat)
    requires Ordered(rs) && Leq(range.start, range.end) && n <= m <= |rs|
    requires forall i :: 0 <= i < n ==> Leq(rs[i].end, range.start)
    requires forall i :: m <= i < |rs| ==> Leq(range.end, rs[i].start)
    ensures Ordered(rs[..n] + [range] + rs[m..])
    ensures forall i :: 0 <= i < n || m <= i < |rs| ==> !Collide(rs[i], range)
  {
    var t := rs[..n] + [range] + rs[m..];
    forall i, j | 0 <= i < j < |t|
      ensures Leq(t[i].end, t[j].start)
    {
      assert i > n ==> t[i] == rs[i - n - 1 + m];
      assert j > n ==> t[j] == rs[j - n - 1 + m];
      assert i < n ==> t[i] == rs[i];
      assert j < n ==> t[j] == rs[j];
    }
    forall i | 0 <= i < |t|
      ensures Leq(t[i].start, t[i].end)
    {
      assert i > n ==> t[i] == rs[i - n - 1 + m];
    }
  }

  lemma SortedForward(rs: seq<Range>, sorted: seq<Range>)
    requires Forward(rs) && multiset(sorted) == multiset(rs)
    ensures Forward(sorted)
  {
    forall i | 0 <= i < |sorted|
      ensures Leq(sorted[i].start, sorted[i].end)
    {
      assert sorted[i] in multiset(sorted);
      assert sorted[i] in rs;
    }
  }

  lemma {:induction false} ApartChain(rs: seq<Range>, i: nat, j: nat)
    requires Forward(rs) && NeighboursApart(rs, |rs|) && i < j < |rs|
    ensures Leq(rs[i].end, rs[j].start)
    decreases j
  {
    assert Apart(rs[j - 1], rs[j]);
    if i < j - 1 { ApartChain(rs, i, j - 1); }
  }

  lemma ApartIsOrdered(rs: seq<Range>)
    requires Forward(rs) && NeighboursApart(rs, |rs|)
    ensures Ordered(rs)
  {
    forall i, j | 0 <= i < j < |rs|
      ensures Leq(rs[i].end, rs[j].start)
    {
      ApartChain(rs, i, j);
    }
  }

  /** What pointIndex says about an ordered list: the ranges before the place end in front of p, the
      ranges after it start behind p. */
  lemma {:induction false} PointIndexPlaces(rs: seq<Range>, p: Pos, excludeEdges: bool, from: nat)
    requires Ordered(rs) && from <= |rs|
    ensures var i := PointIndex(rs, p, excludeEdges, from);
            && (i >= 0 ==> from <= i < |rs| && Leq(rs[i].start, p) && Leq(p, rs[i].end)
                           && forall k :: from <= k < i ==> Less(rs[k].end, p))
            && (i >= 0 && excludeEdges ==> rs[i].IsEmpty() || (Less(rs[i].start, p) && Less(p, rs[i].end)))
            && (i < 0 ==> var k := -i - 1;
                  && from <= k <= |rs|
                  && (forall l :: from <= l < k ==> Leq(rs[l].end, p))
                  && (forall l :: k <= l < |rs| ==> Leq(p, rs[l].start)))
    decreases |rs| - from
  {
    if from < |rs| && Less(rs[from].end, p) {
      PointIndexPlaces(rs, p, excludeEdges, from + 1);
    }
  }
}
