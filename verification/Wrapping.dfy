/** Soft wrap of ace/edit_session: display cells of a line and the greedy choice of wrap columns. */
module Wrapping {
  import opened CodeUnits
  import opened Integers

  /** Display cells as $computeWrapSplits sees them (fold placeholders are not modelled). */
  type Cell = int
  const CHAR: Cell := 1
  const CHAR_EXT: Cell := 2
  const PUNCTUATION: Cell := 9
  const BLANK: Cell := 10
  const TAB_CELL: Cell := 11
  const TAB_SPACE: Cell := 12

  predicate IsCell(c: Cell) {
    c in {CHAR, CHAR_EXT, PUNCTUATION, BLANK, TAB_CELL, TAB_SPACE}
  }

  predicate Cells(cells: seq<Cell>) {
    forall i :: 0 <= i < |cells| ==> IsCell(cells[i])
  }

  predicate IsBlank(c: Cell) {
    c >= BLANK
  }

  /** Cells that continue the character before them. */
  predicate Continues(c: Cell) {
    c == CHAR_EXT || c == TAB_SPACE
  }

  /** How many characters the cells lo..hi begin. */
  function Columns(cells: seq<Cell>, lo: nat, hi: nat): nat
    requires lo <= hi <= |cells|
    decreases hi
  {
    if lo == hi then 0 else Columns(cells, lo, hi - 1) + if Continues(cells[hi - 1]) then 0 else 1
  }

  lemma {:induction false} ColumnsSplit(cells: seq<Cell>, lo: nat, mid: nat, hi: nat)
    requires lo <= mid <= hi <= |cells|
    ensures Columns(cells, lo, hi) == Columns(cells, lo, mid) + Columns(cells, mid, hi)
    decreases hi
  {
    if mid < hi { ColumnsSplit(cells, lo, mid, hi - 1); }
  }

  // ---------- $getDisplayTokens ----------

  /** The cells of one character that starts at screen column at. */
  function CellsOf(u: Unit, at: nat, tabSize: nat, wide: Unit -> bool): (c: seq<Cell>)
    requires 0 < tabSize
    ensures |c| > 0 && Cells(c)
  {
    if u == 9 then [TAB_CELL] + seq(tabSize - at % tabSize - 1, _ => TAB_SPACE)
    else if u == 32 then [BLANK]
    else if 39 < u < 48 || 57 < u < 64 then [PUNCTUATION]
    else if u >= 4352 && wide(u) then [CHAR, CHAR_EXT]
    else [CHAR]
  }

  function DisplayCells(line: Str, offset: nat, tabSize: nat, wide: Unit -> bool): seq<Cell>
    requires 0 < tabSize
  {
    if line == [] then []
    else
      var n := |line| - 1;
      var before := DisplayCells(line[..n], offset, tabSize, wide);
      before + CellsOf(line[n], |before| + offset, tabSize, wide)
  }

  method GetDisplayTokens(line: Str, offset: nat, tabSize: nat, wide: Unit -> bool) returns (cells: seq<Cell>)
    requires 0 < tabSize
    ensures cells == DisplayCells(line, offset, tabSize, wide)
  {
    hide CellsOf;
    cells := [];
    var i := 0;
    while i < |line|
      invariant i <= |line| && cells == DisplayCells(line[..i], offset, tabSize, wide)
    {
      assert line[..i + 1][..i] == line[..i];
      cells := cells + CellsOf(line[i], |cells| + offset, tabSize, wide);
      i := i + 1;
    }
    assert line[..i] == line;
  }

  lemma LastCells(line: Str, u: Unit, offset: nat, tabSize: nat, wide: Unit -> bool)
    requires 0 < tabSize
    ensures var before := DisplayCells(line, offset, tabSize, wide);
            DisplayCells(line + [u], offset, tabSize, wide) == before + CellsOf(u, |before| + offset, tabSize, wide)
  {
    hide CellsOf, DisplayCells;
    assert (line + [u])[..|line|] == line && (line + [u])[|line|] == u;
    CellsUnfold(line + [u], offset, tabSize, wide);
  }

  lemma CellsUnfold(line: Str, offset: nat, tabSize: nat, wide: Unit -> bool)
    requires 0 < tabSize && line != []
    ensures var n := |line| - 1; var before := DisplayCells(line[..n], offset, tabSize, wide);
            DisplayCells(line, offset, tabSize, wide) == before + CellsOf(line[n], |before| + offset, tabSize, wide)
  {
    hide CellsOf;
  }

  /** What a character at screen column at looks like: a tab reaches to the next tab stop, a blank and the
      punctuation from ( to / and from : to ? take one cell, a wide character two, any other one. */
  lemma CellKinds(u: Unit, at: nat, tabSize: nat, wide: Unit -> bool)
    requires 0 < tabSize
    ensures var c := CellsOf(u, at, tabSize, wide);
            && (u == 0x09 ==> c[0] == TAB_CELL && (forall i :: 0 < i < |c| ==> c[i] == TAB_SPACE)
                              && at + |c| == (at / tabSize + 1) * tabSize)
            && (u == 0x20 ==> c == [BLANK])
            && (0x28 <= u <= 0x2F || 0x3A <= u <= 0x3F ==> c == [PUNCTUATION])
            && (u != 0x09 && u != 0x20 && !(0x28 <= u <= 0x2F) && !(0x3A <= u <= 0x3F) ==>
                  c == if u >= 0x1100 && wide(u) then [CHAR, CHAR_EXT] else [CHAR])
  {
    NextTabStop(at, tabSize);
  }

  lemma NextTabStop(at: nat, tabSize: nat)
    requires 0 < tabSize
    ensures at + (tabSize - at % tabSize) == (at / tabSize + 1) * tabSize
  {
  }

  /** Only a character cell is continued by an extension cell. */
  predicate ExtAfterChar(cells: seq<Cell>) {
    forall i :: 0 <= i < |cells| && cells[i] == CHAR_EXT ==> 0 < i && cells[i - 1] == CHAR
  }

  lemma ColumnsOfOne(cells: seq<Cell>, u: Unit, at: nat, tabSize: nat, wide: Unit -> bool)
    requires 0 < tabSize
    ensures var c := CellsOf(u, at, tabSize, wide);
            Columns(cells + c, |cells|, |cells| + |c|) == 1 && ExtAfterChar(c)
  {
    var c := CellsOf(u, at, tabSize, wide);
    var k := 1;
    while k < |c|
      invariant 1 <= k <= |c| && Columns(cells + c, |cells|, |cells| + k) == 1
    {
      k := k + 1;
    }
  }

  lemma {:induction false} ColumnsOfPrefix(a: seq<Cell>, b: seq<Cell>, hi: nat)
    requires hi <= |a|
    ensures Columns(a + b, 0, hi) == Columns(a, 0, hi)
  {
    if hi > 0 { ColumnsOfPrefix(a, b, hi - 1); }
  }

  lemma AppendedCells(a: seq<Cell>, c: seq<Cell>)
    requires Cells(a) && Cells(c) && ExtAfterChar(a) && ExtAfterChar(c)
    requires Columns(a + c, |a|, |a| + |c|) == 1
    ensures Cells(a + c) && ExtAfterChar(a + c) && Columns(a + c, 0, |a + c|) == Columns(a, 0, |a|) + 1
  {
    ColumnsOfPrefix(a, c, |a|);
    ColumnsSplit(a + c, 0, |a|, |a| + |c|);
    forall i | 0 <= i < |a + c| && (a + c)[i] == CHAR_EXT
      ensures 0 < i && (a + c)[i - 1] == CHAR
    {
      if i >= |a| { assert c[i - |a|] == CHAR_EXT; }
    }
  }

  /** The cells of a line begin exactly its characters: split columns are columns of the line. */
  lemma {:induction false} CellsCoverLine(line: Str, offset: nat, tabSize: nat, wide: Unit -> bool)
    requires 0 < tabSize
    ensures var cells := DisplayCells(line, offset, tabSize, wide);
            Cells(cells) && ExtAfterChar(cells) && Columns(cells, 0, |cells|) == |line|
  {
    if line == [] {
      assert DisplayCells(line, offset, tabSize, wide) == [];
    } else {
      hide CellsOf, ExtAfterChar, Columns, Cells, DisplayCells;
      var n := |line| - 1;
      CellsCoverLine(line[..n], offset, tabSize, wide);
      assert line[..n] + [line[n]] == line;
      CellsOfLast(line[..n], line[n], offset, tabSize, wide);
    }
  }

  lemma CellsOfLast(line: Str, u: Unit, offset: nat, tabSize: nat, wide: Unit -> bool)
    requires 0 < tabSize
    requires var a := DisplayCells(line, offset, tabSize, wide); Cells(a) && ExtAfterChar(a)
    ensures var a, b := DisplayCells(line, offset, tabSize, wide), DisplayCells(line + [u], offset, tabSize, wide);
            Cells(b) && ExtAfterChar(b) && Columns(b, 0, |b|) == Columns(a, 0, |a|) + 1
  {
    hide CellsOf, ExtAfterChar, Columns, Cells, DisplayCells;
    LastCells(line, u, offset, tabSize, wide);
    var a := DisplayCells(line, offset, tabSize, wide);
    var c := CellsOf(u, |a| + offset, tabSize, wide);
    ColumnsOfOne(a, u, |a| + offset, tabSize, wide);
    AppendedCells(a, c);
  }

  // ---------- $computeWrapSplits ----------

  function MaxIndent(limit: nat, tabSize: nat, softIndent: bool): nat {
    if limit <= Max(2 * tabSize, 8) || !softIndent then 0 else limit / 2
  }

  /** Width of the leading white space. */
  function LeadingBlanks(cells: seq<Cell>, tabSize: nat): nat {
    if cells == [] then 0
    else if cells[0] == BLANK then 1 + LeadingBlanks(cells[1..], tabSize)
    else if cells[0] == TAB_CELL then tabSize + LeadingBlanks(cells[1..], tabSize)
    else if cells[0] == TAB_SPACE then LeadingBlanks(cells[1..], tabSize)
    else 0
  }

  /** A limit the editor allows, and an indent that leaves at least half of it. */
  predicate IndentOk(limit: nat, indent: nat) {
    2 <= limit && indent <= limit / 2 && (limit <= 8 ==> indent == 0)
  }

  lemma NoIndentOk(limit: nat)
    requires 2 <= limit
    ensures IndentOk(limit, 0)
  {
  }

  /** How far continuation rows are indented. */
  function IndentOf(cells: seq<Cell>, limit: nat, tabSize: nat, asCode: bool, softIndent: bool): (b: nat)
    ensures 2 <= limit ==> IndentOk(limit, b)
  {
    var m := MaxIndent(limit, tabSize, softIndent);
    if m == 0 then 0
    else Min((if softIndent then LeadingBlanks(cells, tabSize) else 0)
             + (if asCode && softIndent then tabSize else 0), m)
  }

  predicate IsWhite(c: Cell) {
    c == BLANK || c == TAB_CELL || c == TAB_SPACE
  }

  function HowMany(cells: seq<Cell>, c: Cell): nat {
    if cells == [] then 0 else (if cells[0] == c then 1 else 0) + HowMany(cells[1..], c)
  }

  lemma HowManyCons(x: Cell, cells: seq<Cell>, c: Cell)
    ensures HowMany([x] + cells, c) == (if x == c then 1 else 0) + HowMany(cells, c)
  {
    assert ([x] + cells)[1..] == cells;
  }

  lemma OneMoreTab(k: nat, tabSize: nat)
    ensures (1 + k) * tabSize == tabSize + k * tabSize
  {
  }

  lemma {:induction false} LeadingBlanksAre(cells: seq<Cell>, n: nat, tabSize: nat)
    requires n <= |cells| && (forall i :: 0 <= i < n ==> IsWhite(cells[i])) && (n < |cells| ==> !IsWhite(cells[n]))
    ensures LeadingBlanks(cells, tabSize) == HowMany(cells[..n], BLANK) + HowMany(cells[..n], TAB_CELL) * tabSize
    decreases |cells|
  {
    if n > 0 {
      var first, rest := cells[0], cells[1..];
      assert IsWhite(first) && forall i :: 0 <= i < n - 1 ==> rest[i] == cells[i + 1];
      LeadingBlanksAre(rest, n - 1, tabSize);
      assert cells[..n] == [first] + rest[..n - 1];
      hide HowMany;
      HowManyCons(first, rest[..n - 1], BLANK);
      HowManyCons(first, rest[..n - 1], TAB_CELL);
      OneMoreTab(HowMany(rest[..n - 1], TAB_CELL), tabSize);
    }
  }

  /** The indent of continuation rows: a column for every blank the line starts with and tabSize for every
      tab, tabSize more in code, but at most half the limit; none where the limit is small or soft indent
      is off. */
  lemma IndentIs(cells: seq<Cell>, n: nat, limit: nat, tabSize: nat, asCode: bool, softIndent: bool)
    requires n <= |cells| && (forall i :: 0 <= i < n ==> IsWhite(cells[i])) && (n < |cells| ==> !IsWhite(cells[n]))
    ensures IndentOf(cells, limit, tabSize, asCode, softIndent)
            == if limit <= 8 || limit <= 2 * tabSize || !softIndent then 0
               else Min(HowMany(cells[..n], BLANK) + HowMany(cells[..n], TAB_CELL) * tabSize
                        + (if asCode then tabSize else 0), limit / 2)
  {
    LeadingBlanksAre(cells, n, tabSize);
  }

  datatype Skipped = Characters | Punctuation | NonBlanks

  predicate Skips(k: Skipped, c: Cell) {
    match k
    case Characters => c < 3
    case Punctuation => c == PUNCTUATION
    case NonBlanks => c < BLANK
  }

  /** Walk back from w over skipped cells, no further than lo. */
  function Back(cells: seq<Cell>, w: int, lo: int, k: Skipped): (r: int)
    requires -1 <= lo <= w < |cells|
    ensures lo <= r <= w
    ensures r > lo ==> !Skips(k, cells[r])
    ensures forall i :: r < i <= w ==> Skips(k, cells[i])
    decreases w - lo
  {
    if w > lo && Skips(k, cells[w]) then Back(cells, w - 1, lo, k) else w
  }

  /** The preferred break at or before w, searched down to lo; lo itself if there is none. */
  function BreakBefore(cells: seq<Cell>, w: int, lo: int, asCode: bool): (r: int)
    requires -1 <= lo <= w < |cells|
    ensures lo <= r <= w
  {
    var w1 := Back(cells, w, lo, Characters);
    if asCode then Back(cells, Back(cells, w1, lo, Characters), lo, Punctuation)
    else Back(cells, w1, lo, NonBlanks)
  }

  function SearchFloor(f: nat, w: int, limit: nat): int {
    Max(w - (limit - limit / 4), f - 1)
  }

  /** One round of the loop: where the row that starts at cell f ends. */
  function NextCut(cells: seq<Cell>, f: nat, limit: nat, indent: nat, asCode: bool): int
    requires indent < limit && limit - indent < |cells| - f
  {
    var w := f + limit - indent;
    if IsBlank(cells[w - 1]) && IsBlank(cells[w]) then w
    else
      var lo := SearchFloor(f, w, limit);
      var b := BreakBefore(cells, w, lo, asCode);
      if b > lo then b + 1
      else (if f + limit < |cells| && cells[f + limit] == CHAR_EXT then f + limit - 1 else f + limit) - indent
  }

  /** Each round advances, so the loop ends. */
  lemma NextCutAdvances(cells: seq<Cell>, f: nat, limit: nat, indent: nat, asCode: bool)
    requires IndentOk(limit, indent)
    requires limit - indent < |cells| - f
    ensures f < NextCut(cells, f, limit, indent, asCode) <= |cells|
  {
  }

  /** With a limit of one cell the loop stays where it is exactly before a wide character. */
  lemma LimitOneIsStuckIff(cells: seq<Cell>, f: nat, asCode: bool)
    requires Cells(cells) && f + 1 < |cells|
    ensures NextCut(cells, f, 1, 0, asCode) == f <==> cells[f + 1] == CHAR_EXT
  {
  }

  predicate Fits(cells: seq<Cell>, lo: nat, hi: nat, width: int)
    requires lo < hi <= |cells|
  {
    hi - lo <= width || (hi - lo == width + 1 && IsBlank(cells[hi - 1]))
  }

  /** A row fits its width, up to one trailing blank cell. */
  lemma NextCutFits(cells: seq<Cell>, f: nat, limit: nat, indent: nat, asCode: bool)
    requires Cells(cells) && IndentOk(limit, indent)
    requires limit - indent < |cells| - f
    ensures var c := NextCut(cells, f, limit, indent, asCode);
            f < c <= |cells| && Fits(cells, f, c, limit - indent)
  {
    NextCutAdvances(cells, f, limit, indent, asCode);
  }

  /** What the search for a break has found, or not. */
  lemma BreakFound(cells: seq<Cell>, w: int, lo: int, asCode: bool)
    requires Cells(cells) && -1 <= lo <= w < |cells|
    ensures var b := BreakBefore(cells, w, lo, asCode);
            && (b > lo ==> IsBlank(cells[b]) || (asCode && b < w && cells[b + 1] == PUNCTUATION))
            && (b == lo && !asCode ==> forall i :: lo < i <= w ==> !IsBlank(cells[i]))
  {
  }

  /** A break that is not forced stands behind a blank or, in code, in front of punctuation; a forced
      one means that a text row has no blank in the searched three quarters. */
  lemma NextCutBreaks(cells: seq<Cell>, f: nat, limit: nat, indent: nat, asCode: bool)
    requires Cells(cells) && IndentOk(limit, indent)
    requires limit - indent < |cells| - f
    ensures var c, w := NextCut(cells, f, limit, indent, asCode), f + limit - indent;
            || (0 < c <= |cells| && IsBlank(cells[c - 1]))
            || (asCode && 0 <= c < |cells| && cells[c] == PUNCTUATION)
            || ((c == w || c == w - 1)
                && (!asCode ==> forall i :: SearchFloor(f, w, limit) < i <= w ==> !IsBlank(cells[i])))
  {
    hide BreakBefore, IsBlank;
    var w := f + limit - indent;
    var lo := SearchFloor(f, w, limit);
    assert -1 <= lo <= w;
    BreakFound(cells, w, lo, asCode);
    hide Cells, SearchFloor;
  }

  /** From c on only punctuation and then only characters stand up to w; k is where those begin. */
  predicate PunctuatedWord(cells: seq<Cell>, c: int, k: int, w: int)
    requires 0 <= c <= k <= w + 1 <= |cells|
  {
    && (forall i :: c <= i < k ==> cells[i] == PUNCTUATION)
    && (forall i :: k <= i <= w ==> Skips(Characters, cells[i]))
  }

  /** c is a place to break at, the last one in reach, reach going back to behind lo.  In text it stands
      behind a blank with no blank after it.  In code it stands in front of a word with the punctuation
      before it, behind something that is no punctuation, and behind a blank if there is no punctuation. */
  predicate LastBreak(cells: seq<Cell>, lo: int, w: int, c: int, asCode: bool)
    requires -1 <= lo <= w < |cells|
  {
    && lo < c - 1 <= w
    && if asCode then
         && cells[c - 1] != PUNCTUATION
         && exists k :: c <= k <= w + 1 && PunctuatedWord(cells, c, k, w) && (k == c ==> IsBlank(cells[c - 1]))
       else IsBlank(cells[c - 1]) && forall i :: c <= i <= w ==> !IsBlank(cells[i])
  }

  /** Behind the start of such a word there is no break in code. */
  lemma NoBreakInWord(cells: seq<Cell>, lo: int, w: int, c: int, k: int, d: int)
    requires -1 <= lo <= w < |cells| && 0 <= c <= k <= w + 1 && PunctuatedWord(cells, c, k, w) && c < d
    ensures !LastBreak(cells, lo, w, d, true)
  {
    if d - 1 <= w && cells[d - 1] != PUNCTUATION {
      assert k <= d - 1 && Skips(Characters, cells[d - 1]);
      forall l | d <= l <= w + 1
        ensures !(PunctuatedWord(cells, d, l, w) && (l == d ==> IsBlank(cells[d - 1])))
      {
        if l > d { assert Skips(Characters, cells[d]); }
      }
    }
  }

  lemma NoBreakBehind(cells: seq<Cell>, lo: int, w: int, c: int, d: int, asCode: bool)
    requires -1 <= lo <= w < |cells| && LastBreak(cells, lo, w, c, asCode) && c < d
    ensures !LastBreak(cells, lo, w, d, asCode)
  {
    if asCode {
      var k :| c <= k <= w + 1 && PunctuatedWord(cells, c, k, w) && (k == c ==> IsBlank(cells[c - 1]));
      NoBreakInWord(cells, lo, w, c, k, d);
    }
  }

  lemma LastBreakIsUnique(cells: seq<Cell>, lo: int, w: int, c: int, d: int, asCode: bool)
    requires -1 <= lo <= w < |cells|
    requires LastBreak(cells, lo, w, c, asCode) && LastBreak(cells, lo, w, d, asCode)
    ensures c == d
  {
    if c < d {
      NoBreakBehind(cells, lo, w, c, d, asCode);
    } else if d < c {
      NoBreakBehind(cells, lo, w, d, c, asCode);
    }
  }

  /** The search stops at the last break, or at lo where there is none. */
  lemma BreakBeforeIsLast(cells: seq<Cell>, w: int, lo: int, asCode: bool)
    requires Cells(cells) && -1 <= lo <= w < |cells|
    ensures var b := BreakBefore(cells, w, lo, asCode);
            && (b > lo ==> LastBreak(cells, lo, w, b + 1, asCode))
            && (b == lo ==> forall c :: !LastBreak(cells, lo, w, c, asCode))
  {
    if asCode {
      var k := Back(cells, w, lo, Characters) + 1;
      var b := Back(cells, k - 1, lo, Punctuation);
      assert PunctuatedWord(cells, b + 1, k, w);
      if b == lo {
        forall c ensures !LastBreak(cells, lo, w, c, true) {
          if lo < c - 1 { NoBreakInWord(cells, lo, w, lo + 1, k, c); }
        }
      }
    }
  }

  /** Each row ends at the last break in reach, which is three quarters of the limit; where blanks go on
      beyond the row, at its end; and only where there is no break within reach, wherever the limit cuts. */
  lemma NextCutIsGreedy(cells: seq<Cell>, f: nat, limit: nat, indent: nat, asCode: bool, c: int)
    requires Cells(cells) && IndentOk(limit, indent)
    requires limit - indent < |cells| - f
    ensures var cut, w := NextCut(cells, f, limit, indent, asCode), f + limit - indent;
            var lo := Max(w - (limit - limit / 4), f - 1);
            && -1 <= lo <= w
            && (IsBlank(cells[w - 1]) && IsBlank(cells[w]) ==> cut == w)
            && (!(IsBlank(cells[w - 1]) && IsBlank(cells[w])) ==>
                  && (LastBreak(cells, lo, w, c, asCode) ==> cut == c)
                  && ((forall d :: !LastBreak(cells, lo, w, d, asCode)) ==>
                        cut == if f + limit < |cells| && cells[f + limit] == CHAR_EXT then w - 1 else w))
  {
    hide BreakBefore, IsBlank, Cells, LastBreak;
    var w := f + limit - indent;
    var lo := SearchFloor(f, w, limit);
    assert -1 <= lo <= w;
    BreakBeforeIsLast(cells, w, lo, asCode);
    var b := BreakBefore(cells, w, lo, asCode);
    if b > lo && LastBreak(cells, lo, w, c, asCode) { LastBreakIsUnique(cells, lo, w, c, b + 1, asCode); }
  }

  /** What makes a row end inside a wide character: the row is indented, no break is in reach, and the
      cell looked at, a full limit on from the row's start, speaks for another cell than the one the
      row ends before. */
  predicate CutsWide(cells: seq<Cell>, f: nat, limit: nat, indent: nat, asCode: bool)
    requires IndentOk(limit, indent) && limit - indent < |cells| - f
  {
    var w := f + limit - indent;
    var lo := SearchFloor(f, w, limit);
    && 0 < indent
    && !(IsBlank(cells[w - 1]) && IsBlank(cells[w]))
    && BreakBefore(cells, w, lo, asCode) == lo
    && (if f + limit < |cells| && cells[f + limit] == CHAR_EXT then cells[w - 1] == CHAR_EXT else cells[w] == CHAR_EXT)
  }

  lemma NextCutCutsWideIff(cells: seq<Cell>, f: nat, limit: nat, indent: nat, asCode: bool)
    requires Cells(cells) && ExtAfterChar(cells) && IndentOk(limit, indent) && limit - indent < |cells| - f
    ensures var c := NextCut(cells, f, limit, indent, asCode);
            0 <= c <= |cells| && (c < |cells| && cells[c] == CHAR_EXT <==> CutsWide(cells, f, limit, indent, asCode))
  {
  }

  /** The cells at which the rows of a line end; indent applies to all rows but the first. */
  function Cuts(cells: seq<Cell>, f: nat, limit: nat, indent: nat, later: nat, asCode: bool): (cuts: seq<nat>)
    requires IndentOk(limit, indent) && IndentOk(limit, later)
    requires f <= |cells|
    ensures forall k :: 0 <= k < |cuts| ==> cuts[k] <= |cells|
    decreases |cells| - f
  {
    if |cells| - f <= limit - indent then []
    else
      NextCutAdvances(cells, f, limit, indent, asCode);
      var c := NextCut(cells, f, limit, indent, asCode);
      [c] + Cuts(cells, c, limit, later, later, asCode)
  }

  /** Rows that start at cell f and end at the cuts: every row but the last takes at least one cell,
      was too long to be the last, and fits its width; the last one fits without exception. */
  predicate RowsFit(cells: seq<Cell>, f: nat, cuts: seq<nat>, width: int, laterWidth: int)
    requires f <= |cells|
    decreases |cuts|
  {
    if cuts == [] then |cells| - f <= width
    else
      && f < cuts[0] <= |cells| && |cells| - f > width && Fits(cells, f, cuts[0], width)
      && RowsFit(cells, cuts[0], cuts[1..], laterWidth, laterWidth)
  }

  /** Every line is wrapped into rows that fit. */
  lemma {:induction false} WrapFits(cells: seq<Cell>, f: nat, limit: nat, indent: nat, later: nat, asCode: bool)
    requires Cells(cells) && f <= |cells|
    requires IndentOk(limit, indent) && IndentOk(limit, later)
    ensures RowsFit(cells, f, Cuts(cells, f, limit, indent, later, asCode), limit - indent, limit - later)
    decreases |cells| - f
  {
    if |cells| - f > limit - indent {
      hide NextCut, Cells, Fits;
      NextCutFits(cells, f, limit, indent, asCode);
      var c := NextCut(cells, f, limit, indent, asCode);
      WrapFits(cells, c, limit, later, later, asCode);
      assert Cuts(cells, f, limit, indent, later, asCode)[1..] == Cuts(cells, c, limit, later, later, asCode);
    }
  }

  lemma {:induction false} CutsIncrease(cells: seq<Cell>, f: nat, cuts: seq<nat>,
                                    width: int, laterWidth: int, i: nat, j: nat)
    requires f <= |cells| && RowsFit(cells, f, cuts, width, laterWidth) && i < j < |cuts|
    ensures f < cuts[i] < cuts[j] <= |cells|
    decreases |cuts|
  {
    if i > 0 {
      CutsIncrease(cells, cuts[0], cuts[1..], laterWidth, laterWidth, i - 1, j - 1);
    } else if j > 1 {
      CutsIncrease(cells, cuts[0], cuts[1..], laterWidth, laterWidth, 0, j - 1);
    } else {
      assert cuts[1..][0] == cuts[1];
    }
  }

  /** No row of a wrapped line ends inside a wide character. */
  predicate WideCharactersWhole(cells: seq<Cell>, cuts: seq<nat>) {
    forall k :: 0 <= k < |cuts| && cuts[k] < |cells| ==> cells[cuts[k]] != CHAR_EXT
  }

  /** No round of the loop, each starting where the one before it has cut, meets the condition. */
  predicate NoRoundCutsWide(cells: seq<Cell>, f: nat, limit: nat, indent: nat, later: nat, asCode: bool)
    requires IndentOk(limit, indent) && IndentOk(limit, later)
    requires f <= |cells|
    decreases |cells| - f
  {
    if |cells| - f <= limit - indent then true
    else
      NextCutAdvances(cells, f, limit, indent, asCode);
      && !CutsWide(cells, f, limit, indent, asCode)
      && NoRoundCutsWide(cells, NextCut(cells, f, limit, indent, asCode), limit, later, later, asCode)
  }

  lemma WholeStep(cells: seq<Cell>, cut: nat, rest: seq<nat>)
    ensures WideCharactersWhole(cells, [cut] + rest) <==>
              (cut < |cells| ==> cells[cut] != CHAR_EXT) && WideCharactersWhole(cells, rest)
  {
    var cuts := [cut] + rest;
    assert cuts[0] == cut && forall k :: 0 <= k < |rest| ==> cuts[k + 1] == rest[k];
  }

  /** A line is wrapped without cutting a wide character exactly when no round meets the condition; so
      it always is where continuation rows are not indented. */
  lemma {:induction false} WideCharactersWholeIff(cells: seq<Cell>, f: nat, limit: nat,
                                              indent: nat, later: nat, asCode: bool)
    requires Cells(cells) && ExtAfterChar(cells) && f <= |cells|
    requires IndentOk(limit, indent) && IndentOk(limit, later)
    ensures WideCharactersWhole(cells, Cuts(cells, f, limit, indent, later, asCode))
            <==> NoRoundCutsWide(cells, f, limit, indent, later, asCode)
    ensures indent == 0 == later ==> NoRoundCutsWide(cells, f, limit, indent, later, asCode)
    decreases |cells| - f
  {
    if |cells| - f > limit - indent {
      assert indent == 0 ==> !CutsWide(cells, f, limit, indent, asCode);
      hide NextCut, Cells, CutsWide, ExtAfterChar, WideCharactersWhole;
      NextCutCutsWideIff(cells, f, limit, indent, asCode);
      NextCutAdvances(cells, f, limit, indent, asCode);
      var c := NextCut(cells, f, limit, indent, asCode);
      WideCharactersWholeIff(cells, c, limit, later, later, asCode);
      WholeStep(cells, c, Cuts(cells, c, limit, later, later, asCode));
    }
  }

  /** The number of columns in front of each cut. */
  function SplitColumns(cells: seq<Cell>, cuts: seq<nat>): (splits: seq<nat>)
    requires forall k :: 0 <= k < |cuts| ==> cuts[k] <= |cells|
    ensures |splits| == |cuts|
  {
    seq(|cuts|, k requires 0 <= k < |cuts| => Columns(cells, 0, cuts[k]))
  }

  lemma NoColumns(cells: seq<Cell>)
    ensures Columns(cells, 0, 0) == 0 && SplitColumns(cells, []) == []
  {
  }

  lemma OneMoreColumn(cells: seq<Cell>, cuts: seq<nat>, cut: nat, rest: seq<nat>)
    requires cut <= |cells| && forall k :: 0 <= k < |cuts| ==> cuts[k] <= |cells|
    ensures SplitColumns(cells, cuts + [cut]) == SplitColumns(cells, cuts) + [Columns(cells, 0, cut)]
    ensures cuts + ([cut] + rest) == (cuts + [cut]) + rest
  {
  }

  /** The inner loops of $computeWrapSplits. */
  method WalkBack(cells: seq<Cell>, w0: int, lo: int, k: Skipped) returns (w: int)
    requires -1 <= lo <= w0 < |cells|
    ensures w == Back(cells, w0, lo, k)
  {
    w := w0;
    while w > lo && Skips(k, cells[w])
      invariant lo <= w <= w0 && Back(cells, w, lo, k) == Back(cells, w0, lo, k)
    {
      w := w - 1;
    }
  }

  /** addSplit's count of the columns in a row. */
  method CountColumns(cells: seq<Cell>, lo: nat, hi: nat) returns (n: nat)
    requires lo <= hi <= |cells|
    ensures n == Columns(cells, lo, hi)
  {
    var count: int := hi - lo;
    var i := lo;
    while i < hi
      invariant lo <= i <= hi && count == Columns(cells, lo, i) + (hi - i)
    {
      var c := cells[i];
      if c == TAB_SPACE || c == CHAR_EXT {
        count := count - 1;
      }
      i := i + 1;
    }
    return count;
  }

  /** getWrapIndent */
  method WrapIndent(cells: seq<Cell>, limit: nat, tabSize: nat, asCode: bool, softIndent: bool) returns (indent: nat)
    ensures indent == IndentOf(cells, limit, tabSize, asCode, softIndent)
  {
    indent := 0;
    var maxIndent := MaxIndent(limit, tabSize, softIndent);
    if maxIndent == 0 { return; }
    if softIndent {
      var i := 0;
      assert cells[0..] == cells;
      while i < |cells|
        invariant i <= |cells| && indent + LeadingBlanks(cells[i..], tabSize) == LeadingBlanks(cells, tabSize)
      {
        assert cells[i..][1..] == cells[i + 1..];
        var c := cells[i];
        if c == BLANK {
          indent := indent + 1;
        } else if c == TAB_CELL {
          indent := indent + tabSize;
        } else if c != TAB_SPACE {
          break;
        }
        i := i + 1;
      }
    }
    if asCode && softIndent {
      indent := indent + tabSize;
    }
    indent := Min(indent, maxIndent);
  }

  /** One round of the loop. */
  method FindCut(cells: seq<Cell>, f: nat, limit: nat, indent: nat, asCode: bool) returns (cut: int)
    requires indent < limit && limit - indent < |cells| - f
    ensures cut == NextCut(cells, f, limit, indent, asCode)
  {
    hide BreakBefore;
    var w := f + limit - indent;
    if cells[w - 1] >= BLANK && cells[w] >= BLANK { return w; }
    var lo := Max(w - (limit - limit / 4), f - 1);
    w := FindBreak(cells, w, lo, asCode);
    if w > lo { return w + 1; }
    w := f + limit;
    if w < |cells| && cells[w] == CHAR_EXT {
      w := w - 1;
    }
    return w - indent;
  }

  /** The three searches for a break. */
  method FindBreak(cells: seq<Cell>, w0: int, lo: int, asCode: bool) returns (w: int)
    requires -1 <= lo <= w0 < |cells|
    ensures w == BreakBefore(cells, w0, lo, asCode)
  {
    w := WalkBack(cells, w0, lo, Characters);
    if asCode {
      w := WalkBack(cells, w, lo, Characters);
      w := WalkBack(cells, w, lo, Punctuation);
    } else {
      w := WalkBack(cells, w, lo, NonBlanks);
    }
  }

  lemma CutsStep(cells: seq<Cell>, f: nat, limit: nat, indent: nat, later: nat, asCode: bool)
    requires IndentOk(limit, indent) && IndentOk(limit, later)
    requires f <= |cells|
    ensures indent < limit
    ensures |cells| - f <= limit - indent ==> Cuts(cells, f, limit, indent, later, asCode) == []
    ensures |cells| - f > limit - indent ==>
      var c := NextCut(cells, f, limit, indent, asCode);
      f < c <= |cells| && Cuts(cells, f, limit, indent, later, asCode)
        == [c] + Cuts(cells, c, limit, later, later, asCode)
  {
    if |cells| - f > limit - indent { NextCutAdvances(cells, f, limit, indent, asCode); }
  }

  /** $computeWrapSplits: the split columns of a line, and the indent of its continuation rows. */
  method ComputeWrapSplits(cells: seq<Cell>, limit: nat, tabSize: nat, asCode: bool, softIndent: bool)
    returns (splits: seq<nat>, indent: nat)
    requires 2 <= limit
    ensures var later := IndentOf(cells, limit, tabSize, asCode, softIndent);
            && splits == SplitColumns(cells, Cuts(cells, 0, limit, 0, later, asCode))
            && indent == if splits == [] then 0 else later
  {
    hide IndentOf, NextCut, Columns, Cuts, SplitColumns, IndentOk;
    NoIndentOk(limit);
    NoColumns(cells);
    splits, indent := [], 0;
    ghost var later := IndentOf(cells, limit, tabSize, asCode, softIndent);
    CutsStep(cells, 0, limit, 0, later, asCode);
    if |cells| == 0 { return; }
    var lastSplit, lastDocSplit := 0, 0;
    ghost var rest := Cuts(cells, 0, limit, 0, later, asCode);
    ghost var cuts: seq<nat>, all := [], rest;
    while |cells| - lastSplit > limit - indent
      invariant lastSplit <= |cells| && indent == if |splits| == 0 then 0 else later
      invariant rest == Cuts(cells, lastSplit, limit, indent, later, asCode) && all == cuts + rest
      invariant forall k :: 0 <= k < |cuts| ==> cuts[k] <= |cells|
      invariant splits == SplitColumns(cells, cuts) && lastDocSplit == Columns(cells, 0, lastSplit)
      decreases |cells| - lastSplit
    {
      CutsStep(cells, lastSplit, limit, indent, later, asCode);
      var cut := FindCut(cells, lastSplit, limit, indent, asCode);
      var n := CountColumns(cells, lastSplit, cut);
      ColumnsSplit(cells, 0, lastSplit, cut);
      if |splits| == 0 {
        indent := WrapIndent(cells, limit, tabSize, asCode, softIndent);
      }
      lastDocSplit := lastDocSplit + n;
      splits, lastSplit := splits + [lastDocSplit], cut;
      rest := Cuts(cells, cut, limit, later, later, asCode);
      OneMoreColumn(cells, cuts, cut, rest);
      cuts := cuts + [cut];
    }
    CutsStep(cells, lastSplit, limit, indent, later, asCode);
    assert all == cuts;
  }

  /** Split columns never decrease and stay within the line. */
  lemma SplitColumnsOrdered(cells: seq<Cell>, limit: nat, indent: nat, asCode: bool, i: nat, j: nat)
    requires Cells(cells) && IndentOk(limit, indent)
    requires i <= j < |Cuts(cells, 0, limit, 0, indent, asCode)|
    ensures var splits := SplitColumns(cells, Cuts(cells, 0, limit, 0, indent, asCode));
            splits[i] <= splits[j] <= Columns(cells, 0, |cells|)
  {
    hide Cuts;
    var cuts := Cuts(cells, 0, limit, 0, indent, asCode);
    WrapFits(cells, 0, limit, 0, indent, asCode);
    if i < j { CutsIncrease(cells, 0, cuts, limit, limit - indent, i, j); }
    ColumnsSplit(cells, 0, cuts[i], cuts[j]);
    ColumnsSplit(cells, 0, cuts[j], |cells|);
  }

  /** With a continuation indent a row can end inside a wide character: the check for one looks at the
      cell a full limit further on, not at the cell the row ends before. */
  lemma IndentedRowCutsWideCharacter(cells: seq<Cell>)
    requires |cells| >= 24
    requires forall i :: 0 <= i < |cells| ==>
             cells[i] == if i == 0 then BLANK else if i % 2 == 1 then CHAR else CHAR_EXT
    ensures ExtAfterChar(cells) && IndentOf(cells, 12, 4, false, true) == 1
    ensures NextCut(cells, 0, 12, 0, false) == 11 && NextCut(cells, 11, 12, 1, false) == 22 && cells[22] == CHAR_EXT
  {
    assert LeadingBlanks(cells, 4) == 1 + LeadingBlanks(cells[1..], 4);
    assert BreakBefore(cells, 12, 3, false) == 3;
    assert BreakBefore(cells, 22, 13, false) == 13;
  }
}
