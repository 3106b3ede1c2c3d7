/** Which of several queries in the editor the cursor selects: a run of non-blank lines. */
module Subqueries {
  import opened CodeUnits
  import opened Texts
  import opened Options
  import opened FlatText
  import opened Documents

  /** The code units that String.prototype.trim takes off. */
  predicate IsSpace(u: Unit) {
    || 0x0009 <= u <= 0x000D || u == 0x0020 || u == 0x00A0 || u == 0x1680 || 0x2000 <= u <= 0x200A
    || u == 0x2028 || u == 0x2029 || u == 0x202F || u == 0x205F || u == 0x3000 || u == 0xFEFF
  }

  /** line.trim().length == 0 */
  predicate Blank(line: Str) {
    forall u :: u in line ==> IsSpace(u)
  }

  /** text.split("\n") */
  function SplitLf(s: Str): Text
    decreases |s|
  {
    if s == [] then [[]]
    else if s[0] == LF then [[]] + SplitLf(s[1..])
    else var rest := SplitLf(s[1..]); [[s[0]] + rest[0]] + rest[1..]
  }

  // ---------- the rows of the text are the rows of the document ----------

  lemma SplitLfFirst(u: Unit, s: Str)
    requires u != LF
    ensures SplitLf([u] + s) == Cat([[u]], SplitLf(s))
  {
    var us := [u] + s;
    assert us[0] == u && us[1..] == s;
    var rest := SplitLf(s);
    hide SplitLf;
    assert Cat([[u]], rest) == [[u] + rest[0]] + rest[1..];
    SplitLfUnfold(us);
  }

  lemma SplitLfUnfold(s: Str)
    requires s != [] && s[0] != LF
    ensures var rest := SplitLf(s[1..]); SplitLf(s) == [[s[0]] + rest[0]] + rest[1..]
  {
  }

  lemma {:induction false} SplitLfLine(line: Str, s: Str)
    requires LF !in line
    ensures SplitLf(line + s) == Cat([line], SplitLf(s))
    decreases |line|
  {
    if line == [] {
      assert line + s == s;
      CatUnit(SplitLf(s));
    } else {
      hide SplitLf;
      var u, rest := line[0], line[1..];
      assert u in line && forall v :: v in rest ==> v in line;
      SplitLfLine(rest, s);
      assert line + s == [u] + (rest + s);
      SplitLfFirst(u, rest + s);
      assert [u] + rest == line && Cat([[u]], [rest])[0] == line;
      CatAssoc([[u]], [rest], SplitLf(s));
    }
  }

  /** The document's lines as splitting its value at line feeds shows them: CRLF leaves a CR on all
      but the last. */
  function Shown(d: Text, end: Str): Text
    decreases |d|
  {
    if |d| == 1 then d else [d[0] + end] + Shown(d[1..], end)
  }

  lemma SplitLfNewline(line: Str, rest: Str)
    requires LF !in line
    ensures SplitLf(line + ([LF] + rest)) == [line] + SplitLf(rest)
  {
    SplitLfLine(line, [LF] + rest);
    assert ([LF] + rest)[1..] == rest;
    assert SplitLf([LF] + rest) == [[]] + SplitLf(rest);
    hide SplitLf;
    assert line + [] == line;
    assert Cat([line], [[]] + SplitLf(rest)) == [line] + SplitLf(rest);
  }

  lemma SplitLfAlone(line: Str)
    requires LF !in line
    ensures SplitLf(line) == [line]
  {
    SplitLfLine(line, []);
    assert line + [] == line && Cat([line], [[]])[0] == line;
  }

  lemma {:induction false} SplitLfJoin(d: Text, end: Str)
    requires AllNewlineFree(d) && LF !in end
    ensures SplitLf(Join(d, end + [LF])) == Shown(d, end)
    decreases |d|
  {
    hide SplitLf;
    if |d| == 1 {
      SplitLfAlone(d[0]);
    } else {
      var rest := Join(d[1..], end + [LF]);
      SplitLfJoin(d[1..], end);
      SplitLfNewline(d[0] + end, rest);
      assert d[0] + (end + [LF]) + rest == (d[0] + end) + ([LF] + rest);
    }
  }

  lemma {:induction false} ShownRows(d: Text, end: Str)
    requires end == [] || end == [CR]
    ensures |Shown(d, end)| == |d|
    ensures forall i :: 0 <= i < |d| ==> (Blank(Shown(d, end)[i]) <==> Blank(d[i]))
    decreases |d|
  {
    if |d| > 1 {
      ShownRows(d[1..], end);
      var shown := Shown(d, end);
      forall i | 0 <= i < |d|
        ensures Blank(shown[i]) <==> Blank(d[i])
      {
        if i == 0 {
          BlankEnd(d[0], end);
        } else {
          assert shown[i] == Shown(d[1..], end)[i - 1] && d[i] == d[1..][i - 1];
        }
      }
    }
  }

  lemma BlankEnd(line: Str, end: Str)
    requires end == [] || end == [CR]
    ensures Blank(line + end) <==> Blank(line)
  {
    if Blank(line + end) {
      forall u | u in line
        ensures IsSpace(u)
      {
        assert u in line + end;
      }
    }
  }

  /** Row for row, the text the editor hands over is as blank as the document, for documents joined
      by LF or CRLF: the cursor's row means the same in both. */
  lemma RowsAgree(d: Text, nl: Str)
    requires AllNewlineFree(d) && nl in {UNIX, WINDOWS}
    ensures var lines := SplitLf(Join(d, nl));
            |lines| == |d| && forall i :: 0 <= i < |d| ==> (Blank(lines[i]) <==> Blank(d[i]))
  {
    var end := if nl == UNIX then [] else [CR];
    assert nl == end + [LF];
    SplitLfJoin(d, end);
    ShownRows(d, end);
  }

  /** Joined by a lone CR the document is one line to getSubquery, whatever the cursor's row. */
  lemma ClassicIsOneRow(d: Text)
    requires AllNewlineFree(d)
    ensures SplitLf(Join(d, CLASSIC)) == [Join(d, CLASSIC)]
  {
    JoinedHasNoLf(d);
    SplitLfAlone(Join(d, CLASSIC));
  }

  /** So the scan sees as many rows as the document has unless a lone CR joins several. */
  lemma RowsAgreeIff(d: Text, nl: Str)
    requires AllNewlineFree(d) && IsNewLine(nl)
    ensures |SplitLf(Join(d, nl))| == |d| <==> nl != CLASSIC || |d| == 1
  {
    hide SplitLf, Join;
    if nl == CLASSIC { ClassicIsOneRow(d); } else { RowsAgree(d, nl); }
  }

  lemma {:induction false} JoinedHasNoLf(d: Text)
    requires AllNewlineFree(d)
    ensures LF !in Join(d, CLASSIC)
    decreases |d|
  {
    if |d| > 1 { JoinedHasNoLf(d[1..]); }
  }

  lemma {:induction false} JoinSplitLf(s: Str)
    ensures Join(SplitLf(s), UNIX) == s
    decreases |s|
  {
    if s != [] {
      var rest := SplitLf(s[1..]);
      JoinSplitLf(s[1..]);
      if s[0] == LF {
        JoinFirstLine([], rest);
        assert [] + UNIX + s[1..] == s;
      } else {
        CatUnit(rest);
        JoinCat([[s[0]]], rest, UNIX);
        assert Cat([[s[0]]], rest) == SplitLf(s);
      }
    }
  }

  lemma JoinFirstLine(line: Str, rest: Text)
    ensures Join([line] + rest, UNIX) == line + UNIX + Join(rest, UNIX)
  {
    assert ([line] + rest)[1..] == rest;
  }

  // ---------- runs of non-blank lines ----------

  /** Rows a up to b are a maximal run of non-blank lines. */
  predicate Run(lines: Text, a: nat, b: nat) {
    && a < b <= |lines|
    && (forall i :: a <= i < b ==> !Blank(lines[i]))
    && (a == 0 || Blank(lines[a - 1]))
    && (b == |lines| || Blank(lines[b]))
  }

  /** The row is in the run or on the blank line that ends it. */
  predicate Near(lines: Text, row: nat, a: nat, b: nat) {
    Run(lines, a, b) && a <= row <= b
  }

  lemma NearIsUnique(lines: Text, row: nat, a: nat, b: nat, a': nat, b': nat)
    requires Near(lines, row, a, b) && Near(lines, row, a', b')
    ensures a == a' && b == b'
  {
    assert b < |lines| ==> Blank(lines[b]);
    assert b' < |lines| ==> Blank(lines[b']);
    assert a > 0 ==> Blank(lines[a - 1]);
    assert a' > 0 ==> Blank(lines[a' - 1]);
  }

  function Blanks(lines: seq<Str>): nat {
    if lines == [] then 0
    else Blanks(lines[..|lines| - 1]) + if Blank(lines[|lines| - 1]) then 1 else 0
  }

  lemma {:induction false} BlanksCount(lines: seq<Str>)
    ensures Blanks(lines) == |set i | 0 <= i < |lines| && Blank(lines[i])|
    decreases |lines|
  {
    hide Blank;
    var all := set i | 0 <= i < |lines| && Blank(lines[i]);
    if lines == [] {
      assert all == {};
    } else {
      var n := |lines| - 1;
      var init := lines[..n];
      BlanksCount(init);
      var before := set i | 0 <= i < |init| && Blank(init[i]);
      assert forall i :: 0 <= i < n ==> init[i] == lines[i];
      assert all == before + if Blank(lines[n]) then {n} else {};
    }
  }

  datatype Subquery = Subquery(text: Str, startRow: nat, endRow: nat, numChunks: nat)

  predicate IsRunOf(q: Subquery, lines: Text) {
    && Run(lines, q.startRow, q.endRow)
    && q.text == Join(lines[q.startRow..q.endRow], UNIX)
    && q.numChunks == Blanks(lines) + if Blank(lines[|lines| - 1]) then 0 else 1
  }

  ghost predicate Answers(lines: Text, row: nat, r: Option<Subquery>) {
    && (r.Some? ==> IsRunOf(r.value, lines))
    && (forall a: nat, b: nat :: Near(lines, row, a, b) ==> r.Some? && r.value.startRow == a && r.value.endRow == b)
    && ((forall a: nat, b: nat :: !Near(lines, row, a, b)) ==>
          if Blank(lines[|lines| - 1]) then r.None? else r.Some? && r.value.endRow == |lines|)
  }

  /** Text and row leave no choice of answer. */
  lemma AnswerIsUnique(lines: Text, row: nat, r: Option<Subquery>, q: Option<Subquery>)
    requires Answers(lines, row, r) && Answers(lines, row, q)
    ensures r == q
  {
    hide Blank, Join, Blanks;
    if a: nat, b: nat :| Near(lines, row, a, b) {
      assert r.value.startRow == a && q.value.startRow == a;
    } else if r.Some? {
      NearIsUnique(lines, |lines|, r.value.startRow, |lines|, q.value.startRow, |lines|);
    }
  }

  /** Rows a up to i are non-blank and nothing before a belongs to their run. */
  predicate Open(lines: Text, a: nat, i: nat) {
    && a < i <= |lines|
    && (forall k :: a <= k < i ==> !Blank(lines[k]))
    && (a == 0 || Blank(lines[a - 1]))
  }

  /** What the scan knows in front of row i: the run it is in, and the runs it has collected. */
  ghost predicate Scanned(lines: Text, row: nat, i: nat, startRow: Option<nat>, ranges: seq<(nat, nat)>) {
    && i <= |lines|
    && (if startRow.None? then i == 0 || Blank(lines[i - 1]) else Open(lines, startRow.value, i))
    && (forall k :: 0 <= k < |ranges| ==> Kept(lines, row, i, ranges[k]))
    && (forall a: nat, b: nat :: Near(lines, row, a, b) && b < i ==> ranges != [] && ranges[0] == (a, b))
    && (i == |lines| && startRow.Some? ==> ranges != [])
  }

  predicate Kept(lines: Text, row: nat, i: nat, range: (nat, nat)) {
    && Run(lines, range.0, range.1)
    && if range.1 == |lines| then i == |lines| else range.1 < i && Near(lines, row, range.0, range.1)
  }

  lemma ScanBlank(lines: Text, row: nat, i: nat, startRow: Option<nat>, ranges: seq<(nat, nat)>)
    requires i < |lines| && Blank(lines[i]) && Scanned(lines, row, i, startRow, ranges)
    ensures Scanned(lines, row, i + 1, None,
              if startRow.Some? && startRow.value <= row <= i then ranges + [(startRow.value, i)] else ranges)
  {
    hide Blank;
    forall a: nat | Near(lines, row, a, i)
      ensures startRow == Some(a) && ranges == []
    {
      assert startRow.Some? && Near(lines, row, startRow.value, i);
      NearIsUnique(lines, row, a, i, startRow.value, i);
      if ranges != [] {
        assert Kept(lines, row, i, ranges[0]);
        NearIsUnique(lines, row, a, i, ranges[0].0, ranges[0].1);
        assert false;
      }
    }
  }

  lemma NoRunEndsAtLine(lines: Text, row: nat, a: nat, i: nat)
    requires i < |lines| && !Blank(lines[i])
    ensures !Near(lines, row, a, i)
  {
  }

  lemma KeptLater(lines: Text, row: nat, i: nat, range: (nat, nat))
    requires i < |lines| && Kept(lines, row, i, range)
    ensures Kept(lines, row, i + 1, range)
  {
    hide Blank;
  }

  lemma LastRunKept(lines: Text, row: nat, a: nat)
    requires Open(lines, a, |lines|)
    ensures Kept(lines, row, |lines|, (a, |lines|))
  {
    hide Blank;
  }

  lemma ScanLine(lines: Text, row: nat, i: nat, startRow: Option<nat>, ranges: seq<(nat, nat)>)
    requires i < |lines| && !Blank(lines[i]) && Scanned(lines, row, i, startRow, ranges)
    ensures var a := if startRow.Some? then startRow.value else i;
            Scanned(lines, row, i + 1, Some(a), if i == |lines| - 1 then ranges + [(a, i + 1)] else ranges)
  {
    hide Blank;
    var a := if startRow.Some? then startRow.value else i;
    assert Open(lines, a, i + 1);
    hide Open, Kept, Near;
    forall k | 0 <= k < |ranges| ensures Kept(lines, row, i + 1, ranges[k]) { KeptLater(lines, row, i, ranges[k]); }
    forall c: nat ensures !Near(lines, row, c, i) { NoRunEndsAtLine(lines, row, c, i); }
    if i == |lines| - 1 { LastRunKept(lines, row, a); }
  }

  /** Where the run around a non-blank row starts, and where it ends. */
  function RunStart(lines: Text, row: nat): (a: nat)
    requires row < |lines| && !Blank(lines[row])
    ensures a <= row && (forall i :: a <= i <= row ==> !Blank(lines[i])) && (a == 0 || Blank(lines[a - 1]))
  {
    if row == 0 || Blank(lines[row - 1]) then row else RunStart(lines, row - 1)
  }

  function RunEnd(lines: Text, row: nat): (b: nat)
    requires row < |lines| && !Blank(lines[row])
    ensures row < b <= |lines| && (forall i :: row <= i < b ==> !Blank(lines[i])) && (b == |lines| || Blank(lines[b]))
    decreases |lines| - row
  {
    if row + 1 == |lines| || Blank(lines[row + 1]) then row + 1 else RunEnd(lines, row + 1)
  }

  lemma ScanDone(lines: Text, row: nat, startRow: Option<nat>, ranges: seq<(nat, nat)>)
    requires Scanned(lines, row, |lines|, startRow, ranges)
    ensures ranges != [] ==> Kept(lines, row, |lines|, ranges[0])
    ensures forall a: nat, b: nat :: Near(lines, row, a, b) ==> ranges != [] && ranges[0] == (a, b)
    ensures startRow.Some? <==> !Blank(lines[|lines| - 1])
    ensures startRow.Some? ==> ranges != []
    ensures row < |lines| && !Blank(lines[row]) ==> ranges != [] && ranges[0].0 <= row < ranges[0].1
  {
    hide Blank;
    forall a: nat, b: nat | Near(lines, row, a, b)
      ensures ranges != [] && ranges[0] == (a, b)
    {
      if b == |lines| {
        assert ranges != [] && Kept(lines, row, |lines|, ranges[0]);
        var last := ranges[0];
        if last.1 == |lines| {
          NearIsUnique(lines, |lines|, a, b, last.0, last.1);
        } else {
          NearIsUnique(lines, row, a, b, last.0, last.1);
        }
      }
    }
    if row < |lines| && !Blank(lines[row]) {
      assert Near(lines, row, RunStart(lines, row), RunEnd(lines, row));
    }
  }

  lemma ScanAnswers(lines: Text, row: nat, startRow: Option<nat>, ranges: seq<(nat, nat)>, numChunks: nat)
    requires Scanned(lines, row, |lines|, startRow, ranges)
    requires numChunks == Blanks(lines[..|lines|]) + if startRow.Some? then 1 else 0
    ensures ranges == [] ==> Answers(lines, row, None)
    ensures ranges != [] ==>
      && ranges[0].0 < ranges[0].1 <= |lines|
      && var (a, b) := ranges[0];
         Answers(lines, row, Some(Subquery(Join(lines[a..b], UNIX), a, b, numChunks)))
    ensures row < |lines| && !Blank(lines[row]) ==> ranges != [] && ranges[0].0 <= row < ranges[0].1
  {
    hide Scanned, Join, Blank;
    ScanDone(lines, row, startRow, ranges);
    assert lines[..|lines|] == lines;
    if ranges != [] && forall a: nat, b: nat :: !Near(lines, row, a, b) {
      assert !Near(lines, row, ranges[0].0, ranges[0].1);
      assert ranges[0].1 == |lines| && !Blank(lines[ranges[0].1 - 1]);
    }
  }

  lemma ScanStart(lines: Text, row: nat)
    ensures Scanned(lines, row, 0, None, []) && Blanks(lines[..0]) == 0
  {
  }

  lemma BlanksStep(lines: Text, i: nat)
    requires i < |lines|
    ensures Blanks(lines[..i + 1]) == Blanks(lines[..i]) + if Blank(lines[i]) then 1 else 0
  {
    assert lines[..i + 1][..i] == lines[..i];
  }

  /** A cursor in a run or right behind it selects that run; elsewhere the text's last line decides
      whether its run is selected or none. */
  method GetSubquery(text: Str, row: nat) returns (r: Option<Subquery>)
    ensures Answers(SplitLf(text), row, r)
    ensures row < |SplitLf(text)| && !Blank(SplitLf(text)[row]) ==> r.Some? && r.value.startRow <= row < r.value.endRow
  {
    hide SplitLf, Scanned, Blank, Join, Answers, Blanks;
    var lines := SplitLf(text);
    var startRow: Option<nat> := None;
    var numChunks := 0;
    var ranges: seq<(nat, nat)> := [];
    var i := 0;
    ScanStart(lines, row);
    while i < |lines|
      invariant 0 <= i <= |lines|
      invariant Scanned(lines, row, i, startRow, ranges)
      invariant numChunks == Blanks(lines[..i]) + if i == |lines| && startRow.Some? then 1 else 0
    {
      BlanksStep(lines, i);
      if Blank(lines[i]) {
        ScanBlank(lines, row, i, startRow, ranges);
        if startRow.Some? && startRow.value <= row <= i {
          ranges := ranges + [(startRow.value, i)];
        }
        numChunks := numChunks + 1;
        startRow := None;
      } else {
        ScanLine(lines, row, i, startRow, ranges);
        if startRow.None? {
          startRow := Some(i);
        }
        if i == |lines| - 1 {
          ranges := ranges + [(startRow.value, i + 1)];
          numChunks := numChunks + 1;
        }
      }
      i := i + 1;
    }
    ScanAnswers(lines, row, startRow, ranges, numChunks);
    if ranges == [] {
      return None;
    }
    var (a, b) := ranges[0];
    return Some(Subquery(Join(lines[a..b], UNIX), a, b, numChunks));
  }
}
