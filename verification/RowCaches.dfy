/** The row caches of ace/edit_session: sampled prefix sums of row heights that speed up the way
    between document rows and screen rows. */
module RowCaches {

  /** Screen rows in front of a document row. */
  function Height(rows: seq<nat>, r: nat): nat
    requires r <= |rows|
  {
    if r == 0 then 0 else Height(rows, r - 1) + rows[r - 1]
  }

  predicate Positive(rows: seq<nat>) {
    |rows| > 0 && forall i :: 0 <= i < |rows| ==> rows[i] > 0
  }

  lemma {:induction false} HeightIncreases(rows: seq<nat>, a: nat, b: nat)
    requires Positive(rows) && a < b <= |rows|
    ensures Height(rows, a) < Height(rows, b)
    decreases b
  {
    if a < b - 1 { HeightIncreases(rows, a, b - 1); }
  }

  lemma {:induction false} HeightOfPrefix(rows: seq<nat>, rows': seq<nat>, n: nat, r: nat)
    requires r <= n <= |rows| && n <= |rows'| && rows[..n] == rows'[..n]
    ensures Height(rows, r) == Height(rows', r)
  {
    if r > 0 {
      assert rows[..n][r - 1] == rows'[..n][r - 1];
      HeightOfPrefix(rows, rows', n, r - 1);
    }
  }

  /** Where a screen row lies: a document row and the offset into its screen rows. */
  datatype Hit = BeforeStart | AtRow(row: nat, offset: nat) | PastEnd

  /** What a scan from row 0 finds: the row whose screen rows include e. */
  predicate IsHit(rows: seq<nat>, e: int, hit: Hit) {
    match hit
    case BeforeStart => e < 0
    case AtRow(r, k) => r < |rows| && k < rows[r] && e == Height(rows, r) + k
    case PastEnd => e >= Height(rows, |rows|)
  }

  /** Every screen row has exactly one such place. */
  lemma HitIsUnique(rows: seq<nat>, e: int, a: Hit, b: Hit)
    requires Positive(rows) && IsHit(rows, e, a) && IsHit(rows, e, b)
    ensures a == b
  {
    if a.AtRow? && a.row + 1 < |rows| { HeightIncreases(rows, a.row + 1, |rows|); }
    if b.AtRow? && b.row + 1 < |rows| { HeightIncreases(rows, b.row + 1, |rows|); }
    if a.AtRow? && b.AtRow? {
      if a.row + 1 < b.row { HeightIncreases(rows, a.row + 1, b.row); }
      if b.row + 1 < a.row { HeightIncreases(rows, b.row + 1, a.row); }
    }
  }

  predicate Sorted(cache: seq<nat>) {
    forall i, j :: 0 <= i < j < |cache| ==> cache[i] < cache[j]
  }

  /** The position of the last entry at or before val, -1 if there is none. */
  predicate IsCacheIndex(cache: seq<nat>, val: int, i: int) {
    -1 <= i < |cache| && (0 <= i ==> cache[i] <= val) && (i + 1 < |cache| ==> val < cache[i + 1])
  }

  /** $getRowCacheIndex */
  method GetRowCacheIndex(cache: seq<nat>, val: int) returns (index: int)
    requires Sorted(cache)
    ensures IsCacheIndex(cache, val, index)
  {
    var low, hi := 0, |cache| - 1;
    while low <= hi
      invariant 0 <= low <= hi + 1 <= |cache|
      invariant low > 0 ==> cache[low - 1] < val
      invariant hi + 1 < |cache| ==> val < cache[hi + 1]
      decreases hi - low
    {
      var mid := (low + hi) / 2;
      var c := cache[mid];
      if val > c {
        low := mid + 1;
      } else if val < c {
        hi := mid - 1;
      } else {
        return mid;
      }
    }
    return low - 1;
  }

  /** The caches hold exact samples of the prefix sum, at increasing rows of the document. */
  predicate Samples(rows: seq<nat>, docs: seq<nat>, screens: seq<nat>) {
    && |docs| == |screens| && Sorted(docs)
    && forall i :: 0 <= i < |docs| ==> 0 < docs[i] < |rows| && screens[i] == Height(rows, docs[i])
  }

  /** The last sample, if any, is of an earlier row. */
  predicate EndsBefore(docs: seq<nat>, row: int) {
    docs != [] ==> docs[|docs| - 1] < row
  }

  lemma SampleAdded(rows: seq<nat>, docs: seq<nat>, screens: seq<nat>, row: nat)
    requires Samples(rows, docs, screens) && 0 < row < |rows| && EndsBefore(docs, row)
    ensures Samples(rows, docs + [row], screens + [Height(rows, row)]) && EndsBefore(docs + [row], row + 1)
  {
    hide Height;
  }

  lemma SampleAt(rows: seq<nat>, docs: seq<nat>, screens: seq<nat>, i: nat)
    requires Samples(rows, docs, screens) && i < |docs|
    ensures |docs| == |screens| && 0 < docs[i] < |rows| && screens[i] == Height(rows, docs[i])
  {
  }

  lemma HeightNext(rows: seq<nat>, r: nat)
    requires r < |rows|
    ensures Height(rows, r + 1) == Height(rows, r) + rows[r]
  {
  }

  lemma ScreensSorted(rows: seq<nat>, docs: seq<nat>, screens: seq<nat>)
    requires Positive(rows) && Samples(rows, docs, screens)
    ensures Sorted(screens)
  {
    forall i, j | 0 <= i < j < |screens|
      ensures screens[i] < screens[j]
    {
      HeightIncreases(rows, docs[i], docs[j]);
    }
  }

  class ScreenRows {
    /** The number of screen rows of each document row. */
    var rowLengths: seq<nat>
    var docRowCache: seq<nat>
    var screenRowCache: seq<nat>

    ghost predicate Valid()
      reads this
    {
      Positive(rowLengths) && Samples(rowLengths, docRowCache, screenRowCache)
    }

    constructor (rowLengths: seq<nat>)
      requires Positive(rowLengths)
      ensures Valid() && this.rowLengths == rowLengths && docRowCache == []
    {
      this.rowLengths, docRowCache, screenRowCache := rowLengths, [], [];
    }

    /** $resetRowCache: keep the samples up to docRow. */
    method ResetRowCache(docRow: nat)
      requires Valid()
      modifies this`docRowCache, this`screenRowCache
      ensures Valid() && docRowCache <= old(docRowCache)
      ensures forall i :: 0 <= i < |old(docRowCache)| ==>
          (i < |docRowCache| <==> old(docRowCache)[i] <= docRow && docRow != 0)
    {
      if docRow == 0 {
        docRowCache, screenRowCache := [], [];
        return;
      }
      var length := |docRowCache|;
      var index := GetRowCacheIndex(docRowCache, docRow);
      index := index + 1;
      if length > index {
        docRowCache, screenRowCache := docRowCache[..index], screenRowCache[..index];
      }
    }

    /** An edit from startRow on: rows before it keep their heights, the caches are cut there. */
    method OnChange(startRow: nat, newLengths: seq<nat>)
      requires Valid() && Positive(newLengths)
      requires startRow < |rowLengths| && startRow < |newLengths| && newLengths[..startRow] == rowLengths[..startRow]
      modifies this
      ensures Valid() && rowLengths == newLengths && docRowCache <= old(docRowCache)
      ensures forall i :: 0 <= i < |old(docRowCache)| && 0 < old(docRowCache)[i] <= startRow ==> i < |docRowCache|
    {
      ResetRowCache(startRow);
      forall i | 0 <= i < |docRowCache|
        ensures docRowCache[i] <= startRow && screenRowCache[i] == Height(newLengths, docRowCache[i])
      {
        HeightOfPrefix(rowLengths, newLengths, startRow, docRowCache[i]);
      }
      rowLengths := newLengths;
    }

    /** documentToScreenPosition, as far as rows go. */
    method DocumentToScreenRow(row: int) returns (screenRow: nat)
      requires Valid()
      modifies this`docRowCache, this`screenRowCache
      ensures Valid() && old(docRowCache) <= docRowCache
      ensures screenRow == Height(rowLengths, ClippedRow(row, |rowLengths|))
    {
      var target := ClippedRow(row, |rowLengths|);
      var docRow := 0;
      screenRow := 0;
      var i := GetRowCacheIndex(docRowCache, target);
      var l := |docRowCache|;
      var doCache := l == 0;
      if l > 0 && i >= 0 {
        SampleAt(rowLengths, docRowCache, screenRowCache, i);
        docRow, screenRow := docRowCache[i], screenRowCache[i];
        doCache := target > docRowCache[l - 1];
      }
      while docRow < target
        invariant docRow <= target && screenRow == Height(rowLengths, docRow)
        invariant Valid() && old(docRowCache) <= docRowCache
        invariant doCache ==> EndsBefore(docRowCache, docRow + 1)
      {
        hide Samples, Height, EndsBefore, Positive;
        HeightNext(rowLengths, docRow);
        screenRow := screenRow + rowLengths[docRow];
        docRow := docRow + 1;
        if doCache {
          SampleAdded(rowLengths, docRowCache, screenRowCache, docRow);
          docRowCache, screenRowCache := docRowCache + [docRow], screenRowCache + [screenRow];
        }
      }
    }

    /** screenToDocumentPosition, as far as rows go. */
    method ScreenToDocumentRow(screenRow: int) returns (hit: Hit)
      requires Valid()
      modifies this`docRowCache, this`screenRowCache
      ensures Valid() && old(docRowCache) <= docRowCache
      ensures IsHit(rowLengths, screenRow, hit)
    {
      if screenRow < 0 { return BeforeStart; }
      var docRow, row, rowLength := 0, 0, 0;
      ScreensSorted(rowLengths, docRowCache, screenRowCache);
      var i := GetRowCacheIndex(screenRowCache, screenRow);
      var l := |screenRowCache|;
      var doCache := l == 0;
      if l > 0 && i >= 0 {
        SampleAt(rowLengths, docRowCache, screenRowCache, i);
        row, docRow := screenRowCache[i], docRowCache[i];
        doCache := screenRow > screenRowCache[l - 1];
      }
      var maxRow := |rowLengths| - 1;
      while row <= screenRow
        invariant docRow <= maxRow && row == Height(rowLengths, docRow) && row <= screenRow
        invariant Valid() && old(docRowCache) <= docRowCache
        invariant doCache ==> EndsBefore(docRowCache, docRow + 1)
        decreases maxRow - docRow
      {
        hide Samples, Height, EndsBefore, Positive;
        rowLength := rowLengths[docRow];
        if row + rowLength > screenRow || docRow >= maxRow { break; }
        HeightNext(rowLengths, docRow);
        row, docRow := row + rowLength, docRow + 1;
        if doCache {
          SampleAdded(rowLengths, docRowCache, screenRowCache, docRow);
          docRowCache, screenRowCache := docRowCache + [docRow], screenRowCache + [row];
        }
      }
      HeightNext(rowLengths, docRow);
      if row + rowLength <= screenRow || docRow > maxRow { return PastEnd; }
      return AtRow(docRow, screenRow - row);
    }
  }

  function ClippedRow(row: int, length: nat): nat
    requires 0 < length
  {
    if row < 0 then 0 else if row >= length then length - 1 else row
  }

  /** Every screen row of a document row leads back to it, whatever the caches hold. */
  lemma RowsRoundTrip(rows: seq<nat>, row: nat, offset: nat, hit: Hit)
    requires Positive(rows) && row < |rows| && offset < rows[row]
    requires IsHit(rows, Height(rows, row) + offset, hit)
    ensures hit == AtRow(row, offset)
  {
    HitIsUnique(rows, Height(rows, row) + offset, hit, AtRow(row, offset));
  }
}
