/** The editor document: an array of lines edited in place, and the change events it signals. */
module Documents {
  import opened CodeUnits
  import opened Texts
  import opened Deltas
  import opened FlatText
  import opened Integers

  // ---------- splitting text into lines ----------

  const UNIX: Str := [LF]
  const WINDOWS: Str := [CR, LF]
  const CLASSIC: Str := [CR]

  predicate IsNewLine(nl: Str) {
    nl == UNIX || nl == WINDOWS || nl == CLASSIC
  }

  /** text.split(/\r\n|\r|\n/) */
  function Split(s: Str): Text
    decreases |s|
  {
    if s == [] then [[]]
    else if WINDOWS <= s then [[]] + Split(s[2..])
    else if s[0] == CR || s[0] == LF then [[]] + Split(s[1..])
    else var rest := Split(s[1..]); [[s[0]] + rest[0]] + rest[1..]
  }

  predicate NewlineFree(line: Str) {
    CR !in line && LF !in line
  }

  predicate AllNewlineFree(d: Text) {
    forall i :: 0 <= i < |d| ==> NewlineFree(d[i])
  }

  lemma {:induction false} SplitIsNewlineFree(s: Str)
    ensures AllNewlineFree(Split(s))
    decreases |s|
  {
    if s == [] {
    } else if WINDOWS <= s {
      SplitIsNewlineFree(s[2..]);
    } else {
      SplitIsNewlineFree(s[1..]);
    }
  }

  lemma SplitFirst(u: Unit, s: Str)
    requires u != CR && u != LF
    ensures Split([u] + s) == Cat([[u]], Split(s))
  {
    assert ([u] + s)[1..] == s;
  }

  lemma {:induction false} SplitLine(line: Str, s: Str)
    requires NewlineFree(line)
    ensures Split(line + s) == Cat([line], Split(s))
    decreases |line|
  {
    if line == [] {
      assert line + s == s;
      CatUnit(Split(s));
    } else {
      hide Split;
      var u, rest := line[0], line[1..];
      assert u in line && forall v :: v in rest ==> v in line;
      SplitLine(rest, s);
      assert line + s == [u] + (rest + s);
      SplitFirst(u, rest + s);
      assert [u] + rest == line && Cat([[u]], [rest])[0] == line;
      CatAssoc([[u]], [rest], Split(s));
    }
  }

  lemma SplitAlone(line: Str)
    requires NewlineFree(line)
    ensures Split(line) == [line]
  {
    SplitLine(line, []);
    assert line + [] == line && Cat([line], [[]])[0] == line;
  }

  lemma CatBlank(line: Str, d: Text)
    ensures Cat([line], [[]] + d) == [line] + d
  {
    assert line + [] == line;
  }

  lemma SplitLineAndRest(line: Str, nl: Str, rest: Str)
    requires NewlineFree(line) && IsNewLine(nl) && (nl == CLASSIC ==> rest == [] || rest[0] != LF)
    ensures Split(line + nl + rest) == [line] + Split(rest)
  {
    hide Split, Cat, IsNewLine, NewlineFree;
    SplitNewline(nl, rest);
    SplitLine(line, nl + rest);
    assert line + nl + rest == line + (nl + rest);
    CatBlank(line, Split(rest));
  }

  /** A document survives the way through its text: whatever newline joins the lines, splitting
      finds them again. */
  lemma {:induction false} SplitJoin(d: Text, nl: Str)
    requires AllNewlineFree(d) && IsNewLine(nl)
    ensures Split(Join(d, nl)) == d
    decreases |d|
  {
    assert NewlineFree(d[0]);
    hide Split, NewlineFree, IsNewLine;
    if |d| == 1 {
      SplitAlone(d[0]);
    } else {
      SplitJoin(d[1..], nl);
      if nl == CLASSIC { FirstUnit(d[1..], nl); }
      SplitLineAndRest(d[0], nl, Join(d[1..], nl));
      assert [d[0]] + d[1..] == d;
    }
  }

  lemma SplitNewline(nl: Str, s: Str)
    requires IsNewLine(nl) && (nl == CLASSIC ==> s == [] || s[0] != LF)
    ensures Split(nl + s) == [[]] + Split(s)
  {
    assert (nl + s)[|nl|..] == s;
  }

  /** The joined text of newline-free lines never starts with a line feed that would merge with a
      preceding carriage return, unless the newline itself does. */
  lemma FirstUnit(d: Text, nl: Str)
    requires AllNewlineFree(d) && nl == CLASSIC
    ensures var s := Join(d, nl); s == [] || s[0] != LF
  {
    if d[0] != [] { assert d[0][0] in d[0]; }
  }

  /** Conversely text without carriage returns is the newline-joined form of its lines. */
  lemma {:induction false} JoinSplit(s: Str)
    requires CR !in s
    ensures Join(Split(s), UNIX) == s
    decreases |s|
  {
    if s != [] {
      assert s[0] in s && forall u :: u in s[1..] ==> u in s;
      JoinSplit(s[1..]);
      if s[0] == LF {
        JoinBlank(Split(s[1..]));
      } else {
        JoinFirst(s[0], Split(s[1..]));
      }
      assert [s[0]] + s[1..] == s;
    }
  }

  lemma JoinFirst(u: Unit, rest: Text)
    ensures Join([[u] + rest[0]] + rest[1..], UNIX) == [u] + Join(rest, UNIX)
  {
    assert Cat([[u]], rest) == [[u] + rest[0]] + rest[1..];
    JoinCat([[u]], rest, UNIX);
  }

  lemma JoinBlank(rest: Text)
    ensures Join([[]] + rest, UNIX) == [LF] + Join(rest, UNIX)
  {
    assert ([[]] + rest)[1..] == rest;
  }

  /** $detectNewLine: the first newline of a text. */
  function FirstNewLine(s: Str): Str
    decreases |s|
  {
    if s == [] then UNIX
    else if WINDOWS <= s then WINDOWS
    else if s[0] == CR || s[0] == LF then [s[0]]
    else FirstNewLine(s[1..])
  }

  lemma FirstNewLineStep(u: Unit, s: Str)
    requires u != CR && u != LF
    ensures FirstNewLine([u] + s) == FirstNewLine(s)
  {
    assert ([u] + s)[1..] == s;
  }

  lemma FirstNewLineAtOnce(nl: Str, rest: Str)
    requires IsNewLine(nl) && (nl == CLASSIC ==> rest == [] || rest[0] != LF)
    ensures FirstNewLine(nl + rest) == nl
  {
    var s := nl + rest;
    assert s[0] == nl[0] && (nl == WINDOWS ==> s[..2] == WINDOWS);
    assert nl == CLASSIC && |s| > 1 ==> s[1] == rest[0];
  }

  /** The newline detected is the one that ends the first line; text of one line counts as UNIX. */
  lemma {:induction false} FirstNewLineEndsFirstLine(line: Str, nl: Str, rest: Str)
    requires NewlineFree(line) && IsNewLine(nl) && (nl == CLASSIC ==> rest == [] || rest[0] != LF)
    ensures FirstNewLine(line + (nl + rest)) == nl && FirstNewLine(line) == UNIX
    decreases |line|
  {
    if line == [] {
      FirstNewLineAtOnce(nl, rest);
      assert line + (nl + rest) == nl + rest;
    } else {
      var u, r := line[0], line[1..];
      assert u in line && forall v :: v in r ==> v in line;
      hide FirstNewLine, IsNewLine;
      FirstNewLineEndsFirstLine(r, nl, rest);
      assert line == [u] + r && line + (nl + rest) == [u] + (r + (nl + rest));
      FirstNewLineStep(u, r + (nl + rest));
      FirstNewLineStep(u, r);
    }
  }

  lemma FirstNewLineOfJoin(d: Text, nl: Str)
    requires AllNewlineFree(d) && IsNewLine(nl)
    ensures FirstNewLine(Join(d, nl)) == if |d| > 1 then nl else UNIX
  {
    hide FirstNewLine, IsNewLine, NewlineFree;
    assert NewlineFree(d[0]);
    if |d| == 1 {
      UnixIsNewLine();
      FirstNewLineEndsFirstLine(d[0], UNIX, []);
    } else {
      var rest := Join(d[1..], nl);
      if nl == CLASSIC { FirstUnit(d[1..], nl); }
      FirstNewLineEndsFirstLine(d[0], nl, rest);
      assert d[0] + nl + rest == d[0] + (nl + rest);
    }
  }

  lemma UnixIsNewLine()
    ensures IsNewLine(UNIX) && UNIX != CLASSIC
  {
  }

  lemma {:induction false} FirstNewLineIsNewLine(s: Str)
    ensures IsNewLine(FirstNewLine(s))
    decreases |s|
  {
    if s != [] { FirstNewLineIsNewLine(s[1..]); }
  }

  /** A text set as the value comes back in auto mode if and only if its newlines are all of one kind;
      otherwise it comes back with all of them like the first, in the same lines. */
  lemma ValueComesBackIff(text: Str)
    ensures var value := Join(Split(text), FirstNewLine(text));
            && Split(value) == Split(text)
            && FirstNewLine(value) == (if |Split(text)| > 1 then FirstNewLine(text) else UNIX)
            && (value == text <==> exists nl :: IsNewLine(nl) && text == Join(Split(text), nl))
  {
    hide Split, Join, FirstNewLine, IsNewLine;
    var d, nl := Split(text), FirstNewLine(text);
    SplitIsNewlineFree(text);
    FirstNewLineIsNewLine(text);
    SplitJoin(d, nl);
    FirstNewLineOfJoin(d, nl);
    if other :| IsNewLine(other) && text == Join(d, other) {
      FirstNewLineOfJoin(d, other);
      if |d| == 1 { JoinOfOne(d, nl, other); }
    }
  }

  lemma JoinOfOne(d: Text, nl: Str, other: Str)
    requires |d| == 1
    ensures Join(d, nl) == Join(d, other)
  {
  }

  // ---------- positions clipped to the document ----------

  function ClippedPos(d: Text, row: int, column: int): (p: Pos)
    ensures ValidPos(d, p)
    ensures ValidPos(d, Pos(row, column)) ==> p == Pos(row, column)
  {
    if row >= |d| then Pos(|d| - 1, |Last(d)|)
    else var r := Max(row, 0); Pos(r, Min(Max(column, 0), |d[r]|))
  }

  function Distance(a: int, b: int): nat {
    if a < b then b - a else a - b
  }

  /** A position is clipped to the nearest valid one: first to the nearest row, then to the nearest
      column in it; below the last row it becomes the end of the document. */
  lemma ClippedIsNearest(d: Text, row: int, column: int, q: Pos)
    requires ValidPos(d, q)
    ensures var p := ClippedPos(d, row, column);
            && Distance(p.row, row) <= Distance(q.row, row)
            && (row < |d| && q.row == p.row ==> Distance(p.column, column) <= Distance(q.column, column))
            && (row >= |d| ==> p == Ext(d) && Leq(q, p))
  {
  }

  // ---------- what an edit is recorded as ----------

  /** applyDelta drops edits that change nothing. */
  predicate Trivial(x: Delta) {
    if x.action.Insert? then x.lines == EMPTY else x.start == x.end
  }

  const MAX_LINES := 20000

  /** A run of change events that stands for one requested edit. */
  ghost predicate Records(d: Text, x: Delta, events: seq<Delta>) {
    && Valid(d, x)
    && ValidRun(d, events) && Run(d, events) == Apply(d, x)
    && AllAtMost(events, x.action, MAX_LINES)
    && (x.action.Remove? || |x.lines| <= MAX_LINES ==> events == if Trivial(x) then [] else [x])
  }

  /** Signalled edits change something, and insertions come in pieces of at most n lines. */
  ghost predicate AllAtMost(events: seq<Delta>, action: Action, n: nat) {
    forall i :: 0 <= i < |events| ==>
      Proper(events[i]) && events[i].action == action && (action.Insert? ==> |events[i].lines| <= n)
  }

  lemma RecordsReplay(d: Text, x: Delta, events: seq<Delta>)
    requires Records(d, x, events)
    ensures Valid(d, x) && ValidRun(d, events) && Run(d, events) == Apply(d, x)
  {
  }

  lemma TrivialChangesNothing(d: Text, x: Delta)
    requires Valid(d, x) && Trivial(x)
    ensures Apply(d, x) == d
  {
    var a, b := ContextOf(d, x);
    if x.action.Remove? {
      assert |x.lines| == 1 && x.lines[0] == [] && x.lines == EMPTY;
    }
  }

  // ---------- the splices of apply_delta ----------

  lemma DeltaInside(d: Text, x: Delta)
    requires Valid(d, x)
    ensures 0 <= x.start.row < |d| && 0 <= x.start.column <= |d[x.start.row]|
    ensures x.action.Remove? ==> x.start.row <= x.end.row < |d| && 0 <= x.end.column <= |d[x.end.row]|
    ensures x.action.Remove? && x.start.row == x.end.row ==> x.start.column <= x.end.column
  {
  }

  lemma InsertedInLine(d: Text, x: Delta)
    requires Valid(d, x) && x.action.Insert? && |x.lines| == 1
    ensures var row, column := x.start.row, x.start.column;
            Apply(d, x) == d[row := d[row][..column] + x.lines[0] + d[row][column..]]
  {
  }

  lemma InsertedLines(d: Text, x: Delta)
    requires Valid(d, x) && x.action.Insert? && |x.lines| > 1
    ensures var row, column, last := x.start.row, x.start.column, x.start.row + |x.lines| - 1;
            var l1 := d[..row] + x.lines + d[row + 1..];
            var l2 := l1[row := d[row][..column] + l1[row]];
            Apply(d, x) == l2[last := l2[last] + d[row][column..]]
  {
  }

  lemma RemovedInLine(d: Text, x: Delta)
    requires Valid(d, x) && x.action.Remove? && x.start.row == x.end.row
    ensures var row := x.start.row;
            x.start.column <= x.end.column <= |d[row]|
            && Apply(d, x) == d[row := d[row][..x.start.column] + d[row][x.end.column..]]
  {
  }

  lemma RemovedLines(d: Text, x: Delta)
    requires Valid(d, x) && x.action.Remove? && x.start.row < x.end.row
    ensures Apply(d, x) == d[..x.start.row]
                           + [d[x.start.row][..x.start.column] + d[x.end.row][x.end.column..]]
                           + d[x.end.row + 1..]
  {
  }

  /** Removing all of a document leaves the empty one, inserting there leaves what is inserted. */
  lemma AllRemoved(d: Text)
    ensures ValidPos(d, ORIGIN) && ValidPos(d, Ext(d)) && Leq(ORIGIN, Ext(d))
    ensures forall x :: Valid(d, x) && x.action.Remove? && x.start == ORIGIN && x.end == Ext(d) ==> Apply(d, x) == EMPTY
  {
    Ends(d);
    CatUnit(EMPTY);
  }

  lemma EmptyFilled(t: Text)
    ensures ValidPos(EMPTY, ORIGIN)
    ensures var x := MakeDelta(Insert, ORIGIN, t); Valid(EMPTY, x) && Apply(EMPTY, x) == t
  {
    Ends(EMPTY);
    CatUnit(t);
  }

  datatype NewLineMode = Auto | Windows | Unix

  class Document {
    var lines: Text
    var autoNewLine: Str
    var newLineMode: NewLineMode
    /** The deltas signalled to "change" listeners, oldest first. */
    var changes: seq<Delta>

    constructor ()
      ensures lines == EMPTY && changes == [] && newLineMode == Auto && autoNewLine == []
    {
      lines, changes, newLineMode, autoNewLine := EMPTY, [], Auto, [];
    }

    function GetNewLineCharacter(): Str
      reads this
    {
      match newLineMode
      case Windows => WINDOWS
      case Unix => UNIX
      case Auto => if autoNewLine != [] then autoNewLine else UNIX
    }

    /** apply_delta: splice the array of lines. */
    method SpliceLines(x: Delta)
      requires Valid(lines, x)
      modifies this`lines
      ensures lines == Apply(old(lines), x)
    {
      DeltaInside(lines, x);
      hide Apply, Valid, Ext, Plus;
      var docLines := lines;
      var row, column := x.start.row, x.start.column;
      var line := docLines[row];
      match x.action {
        case Insert =>
          if |x.lines| == 1 {
            InsertedInLine(lines, x);
            docLines := docLines[row := line[..column] + x.lines[0] + line[column..]];
          } else {
            InsertedLines(lines, x);
            docLines := docLines[..row] + x.lines + docLines[row + 1..];
            docLines := docLines[row := line[..column] + docLines[row]];
            var last := row + |x.lines| - 1;
            docLines := docLines[last := docLines[last] + line[column..]];
          }
        case Remove =>
          var endColumn, endRow := x.end.column, x.end.row;
          if row == endRow {
            RemovedInLine(lines, x);
            docLines := docLines[row := line[..column] + line[endColumn..]];
          } else {
            RemovedLines(lines, x);
            docLines := docLines[..row] + [line[..column] + docLines[endRow][endColumn..]] + docLines[endRow + 1..];
          }
      }
      lines := docLines;
    }

    /** The events signalled since the first n. */
    ghost function ChangesSince(n: nat): seq<Delta>
      reads this
    {
      if n <= |changes| then changes[n..] else []
    }

    /** applyDelta: drop trivial edits, split large insertions, otherwise splice and signal. */
    method ApplyDelta(x: Delta)
      requires Valid(lines, x)
      modifies this`lines, this`changes
      ensures old(changes) <= changes
      ensures Records(old(lines), x, ChangesSince(|old(changes)|))
      ensures lines == Apply(old(lines), x)
      decreases |x.lines|, 1
    {
      if Trivial(x) {
        TrivialChangesNothing(lines, x);
        return;
      }
      if x.action.Insert? && |x.lines| > MAX_LINES {
        SplitAndApplyLargeDelta(x, MAX_LINES);
      } else {
        SpliceLines(x);
        changes := changes + [x];
        RunOne(old(lines), x);
      }
    }

    /** The events since the first k lead from d to here. */
    ghost predicate LedFrom(d: Text, k: nat)
      reads this
    {
      k <= |changes| && ValidRun(d, changes[k..]) && Run(d, changes[k..]) == lines
    }

    /** The events since the first k are insertions of at most n lines that lead from d to here. */
    ghost predicate Replays(d: Text, k: nat, n: nat)
      reads this
    {
      LedFrom(d, k) && AllAtMost(changes[k..], Action.Insert, n)
    }

    /** Apply one piece of a large insertion. */
    method ApplyPiece(y: Delta, ghost d: Text, ghost k: nat, ghost n: nat)
      requires Valid(lines, y) && y.action.Insert? && |y.lines| <= n && Replays(d, k, Min(n, MAX_LINES))
      modifies this`lines, this`changes
      ensures old(changes) <= changes && Replays(d, k, Min(n, MAX_LINES))
      ensures lines == Apply(old(lines), y)
      decreases |y.lines|, 2
    {
      hide Apply, Valid, ValidRun, Run, AllAtMost, Records;
      ghost var before, mid := changes, lines;
      ApplyDelta(y);
      ghost var events := changes[|before|..];
      MoreRecorded(d, before[k..], mid, y, events, n);
      assert changes[k..] == before[k..] + events;
    }

    /** Insert the lines from..upTo of n as full lines. */
    method InsertFullPiece(n: Text, start: Pos, end: Pos, from: nat, upTo: nat,
                           ghost a: Text, ghost b: Text, ghost d: Text, ghost k: nat, ghost chunk: nat)
      requires from < upTo < |n| && upTo - from < chunk && end == Pos(Ext(a).row + upTo, 0)
      requires Partly(a, n, b, from, start) && Replays(d, k, Min(chunk, MAX_LINES))
      modifies this`lines, this`changes
      ensures old(changes) <= changes && Partly(a, n, b, upTo, end) && Replays(d, k, Min(chunk, MAX_LINES))
      decreases upTo - from + 1, 3
    {
      var y := Delta(Action.Insert, start, end, n[from..upTo] + [[]]);
      NextPiece(lines, a, n, b, y, from, upTo);
      ApplyPiece(y, d, k, chunk);
    }

    /** $splitAndapplyLargeDelta: insert chunk - 1 full lines at a time, then the rest. */
    method SplitAndApplyLargeDelta(x: Delta, chunk: nat)
      requires Valid(lines, x) && x.action.Insert? && 2 <= chunk
      modifies this`lines, this`changes
      ensures old(changes) <= changes && Replays(old(lines), |old(changes)|, Min(chunk, MAX_LINES))
      ensures lines == Apply(old(lines), x)
      decreases |x.lines|, if chunk < |x.lines| then 0 else 4
    {
      var n, row, column := x.lines, x.start.row, x.start.column;
      var r := |n| - chunk + 1;
      var from, upTo := 0, 0;
      ghost var a, b := ContextOf(lines, x);
      ghost var k := |changes|;
      NothingInserted(a, n);
      while from < r
        invariant 0 <= from == upTo < |n|
        invariant Partly(a, n, b, from, Pos(row + from, column))
        invariant old(changes) <= changes && Replays(old(lines), k, Min(chunk, MAX_LINES))
      {
        upTo := upTo + chunk - 1;
        InsertFullPiece(n, Pos(row + from, column), Pos(row + upTo, 0), from, upTo, a, b, old(lines), k, chunk);
        column, from := 0, upTo;
      }
      var y := Delta(Action.Insert, Pos(row + from, column), x.end, n[from..]);
      LastPiece(lines, a, n, b, y, from);
      ApplyPiece(y, old(lines), k, chunk);
    }

    /** The first lines of n are in, as full lines; the next one goes to p. */
    ghost predicate Partly(a: Text, n: Text, b: Text, count: nat, p: Pos)
      requires count <= |n|
      reads this`lines
    {
      lines == Cat(Cat(a, FullLines(n, count)), b) && Ext(Cat(a, FullLines(n, count))) == p
    }

    method RevertDelta(x: Delta)
      requires Valid(lines, Invert(x))
      modifies this`lines, this`changes
      ensures old(changes) <= changes
      ensures Records(old(lines), Invert(x), ChangesSince(|old(changes)|))
      ensures lines == Apply(old(lines), Invert(x))
    {
      ApplyDelta(Invert(x));
    }

    // ---------- reading ----------

    method LinesForRange(start: Pos, end: Pos) returns (t: Text)
      requires ValidPos(lines, start) && ValidPos(lines, end) && Leq(start, end)
      ensures t == Between(lines, start, end)
    {
      if start.row == end.row {
        return [lines[start.row][start.column..end.column]];
      }
      t := lines[start.row..end.row + 1];
      t := t[0 := t[0][start.column..]];
      var n := |t| - 1;
      if end.row - start.row == n {
        t := t[n := t[n][..end.column]];
      }
    }

    method GetValue() returns (s: Str)
      ensures s == Join(lines, GetNewLineCharacter())
      ensures newLineMode == Windows ==> s == Join(lines, [CR, LF])
      ensures newLineMode == Unix ==> s == Join(lines, [LF])
      ensures newLineMode == Auto ==> s == Join(lines, if autoNewLine == [] then [LF] else autoNewLine)
    {
      s := lines[0];
      var i := 1;
      while i < |lines|
        invariant 1 <= i <= |lines|
        invariant s == Join(lines[..i], GetNewLineCharacter())
      {
        JoinLast(lines[..i], lines[i], GetNewLineCharacter());
        assert lines[..i] + [lines[i]] == lines[..i + 1];
        s := s + GetNewLineCharacter() + lines[i];
        i := i + 1;
      }
      assert lines[..i] == lines;
    }

    method IndexOfPosition(p: Pos, startRow: nat) returns (index: int)
      ensures index == PositionToIndex(lines, p, |GetNewLineCharacter()|, startRow)
    {
      var n := |GetNewLineCharacter()|;
      var upTo := Min(p.row, |lines|);
      index := 0;
      var i := startRow;
      while i < upTo
        invariant startRow <= i && (i <= upTo || i == startRow)
        invariant index == RowsLength(lines, startRow, Max(Min(i, upTo), 0), n)
      {
        index := index + |lines[i]| + n;
        i := i + 1;
      }
      index := index + p.column;
    }

    method PositionOfIndex(index: int, startRow: nat) returns (p: Pos)
      ensures p == IndexToPosition(lines, index, |GetNewLineCharacter()|, startRow)
    {
      var n := |GetNewLineCharacter()|;
      var i, e := startRow, index;
      while i < |lines|
        invariant IndexToPosition(lines, e, n, i) == IndexToPosition(lines, index, n, startRow)
      {
        e := e - (|lines[i]| + n);
        if e < 0 {
          return Pos(i, e + |lines[i]| + n);
        }
        i := i + 1;
      }
      return Pos(|lines| - 1, e + |lines[|lines| - 1]| + n);
    }

    // ---------- editing ----------

    method InsertMergedLines(row: int, column: int, ls: Text) returns (end: Pos)
      modifies this`lines, this`changes
      ensures old(changes) <= changes
      ensures var x := MakeDelta(Action.Insert, ClippedPos(old(lines), row, column), ls);
              && Records(old(lines), x, ChangesSince(|old(changes)|))
              && lines == Apply(old(lines), x) && end == x.end
    {
      var start := ClippedPos(lines, row, column);
      end := Pos(start.row + |ls| - 1, (if |ls| == 1 then start.column else 0) + |ls[|ls| - 1]|);
      ApplyDelta(Delta(Action.Insert, start, end, ls));
    }

    method Insert(row: int, column: int, text: Str) returns (end: Pos)
      modifies this`lines, this`changes, this`autoNewLine
      ensures old(changes) <= changes
      ensures var x := MakeDelta(Action.Insert, ClippedPos(old(lines), row, column), Split(text));
              && Records(old(lines), x, ChangesSince(|old(changes)|))
              && lines == Apply(old(lines), x) && end == x.end
      ensures autoNewLine == if |old(lines)| <= 1 then FirstNewLine(text) else old(autoNewLine)
    {
      if |lines| <= 1 {
        autoNewLine := FirstNewLine(text);
      }
      end := InsertMergedLines(row, column, Split(text));
    }

    method Remove(start: Pos, end: Pos) returns (p: Pos)
      requires Leq(ClippedPos(lines, start.row, start.column), ClippedPos(lines, end.row, end.column))
      modifies this`lines, this`changes
      ensures old(changes) <= changes
      ensures var from, upTo := ClippedPos(old(lines), start.row, start.column),
                              ClippedPos(old(lines), end.row, end.column);
              var x := MakeDelta(Action.Remove, from, Between(old(lines), from, upTo));
              && x.end == upTo && Records(old(lines), x, ChangesSince(|old(changes)|))
              && lines == Apply(old(lines), x) && p == from
    {
      var from, upTo := ClippedPos(lines, start.row, start.column), ClippedPos(lines, end.row, end.column);
      var removed := LinesForRange(from, upTo);
      SplitTwice(lines, from, upTo);
      PlusMinus(from, upTo);
      ApplyDelta(Delta(Action.Remove, from, upTo, removed));
      p := from;
    }

    /** The lines of the document are the lines of the text, whatever was there before. */
    method SetValue(text: Str)
      modifies this`lines, this`changes, this`autoNewLine
      ensures lines == Split(text) && autoNewLine == FirstNewLine(text)
      ensures old(changes) <= changes && LedFrom(old(lines), |old(changes)|)
    {
      hide Cat, Before, After, Between, Valid, Apply, Records, Split, FirstNewLine, ValidRun, Run;
      ghost var d, before := lines, changes;
      var n := |lines| - 1;
      AllRemoved(lines);
      ghost var x := MakeDelta(Action.Remove, ORIGIN, Between(lines, ORIGIN, Ext(lines)));
      var _ := Remove(Pos(0, 0), Pos(n, |lines[n]|));
      ghost var middle := changes;
      RecordsReplay(d, x, middle[|before|..]);
      EmptyFilled(Split(text));
      var _ := Insert(0, 0, text);
      ghost var y := MakeDelta(Action.Insert, ORIGIN, Split(text));
      RecordsReplay(EMPTY, y, changes[|middle|..]);
      RunAppend(d, middle[|before|..], changes[|middle|..]);
      assert changes[|before|..] == middle[|before|..] + changes[|middle|..];
    }

    method InsertFullLines(row: int, ls: seq<Str>)
      modifies this`lines, this`changes
      ensures lines == WithFullLines(old(lines), Min(Max(row, 0), |old(lines)|), ls)
      ensures old(changes) <= changes && LedFrom(old(lines), |old(changes)|)
    {
      var r, column, merged := Min(Max(row, 0), |lines|), 0, ls;
      ghost var whole := WithFullLines(lines, r, ls);
      if r < |lines| {
        FullLinesBefore(lines, r, ls);
        merged, column := ls + [[]], 0;
      } else {
        FullLinesAtEnd(lines, ls);
        merged, r := [[]] + ls, r - 1;
        column := |lines[r]|;
      }
      assert var x := MakeDelta(Action.Insert, Pos(r, column), merged); Valid(lines, x) && Apply(lines, x) == whole;
      ghost var d, x := lines, MakeDelta(Action.Insert, Pos(r, column), merged);
      var _ := InsertMergedLines(r, column, merged);
      RecordsReplay(d, x, ChangesSince(|old(changes)|));
    }

    method RemoveFullLines(first: int, last: int) returns (removed: seq<Str>)
      requires Clamp(first, |lines|) <= Clamp(last, |lines|)
      modifies this`lines, this`changes
      ensures var a, b := Clamp(first, |old(lines)|), Clamp(last, |old(lines)|);
              removed == old(lines)[a..b + 1] && lines == WithoutFullLines(old(lines), a, b)
      ensures old(changes) <= changes && LedFrom(old(lines), |old(changes)|)
    {
      hide WithoutFullLines, Between, Cat, Records;
      var a, b := Clamp(first, |lines|), Clamp(last, |lines|);
      ghost var was := lines;
      var deleteFirstNewLine := b == |lines| - 1 && a > 0;
      var deleteLastNewLine := b < |lines| - 1;
      var startRow := if deleteFirstNewLine then a - 1 else a;
      var startColumn := if deleteFirstNewLine then |lines[startRow]| else 0;
      var endRow := if deleteLastNewLine then b + 1 else b;
      var endColumn := if deleteLastNewLine then 0 else |lines[endRow]|;
      var start, end := Pos(startRow, startColumn), Pos(endRow, endColumn);
      removed := lines[a..b + 1];
      var text := LinesForRange(start, end);
      SplitTwice(lines, start, end);
      PlusMinus(start, end);
      var x := Delta(Action.Remove, start, end, text);
      assert Valid(was, x) && Apply(was, x) == Cat(Before(was, start), After(was, end));
      hide Valid, Apply, Before, After;
      ApplyDelta(x);
      RecordsReplay(was, x, ChangesSince(|old(changes)|));
      FullLinesRemoved(was, a, b, start, end);
    }
  }

  lemma {:induction false} JoinLast(d: Text, line: Str, nl: Str)
    ensures Join(d + [line], nl) == Join(d, nl) + nl + line
  {
    JoinCat(d, [[], line], nl);
    assert Last(d) + [] == Last(d);
    assert Cat(d, [[], line]) == d + [line];
    assert Join([[], line], nl) == [] + nl + Join([line], nl);
    assert [[], line][1..] == [line];
    assert Join(d, nl) + ([] + nl + line) == Join(d, nl) + nl + line;
  }

  // ---------- whole lines ----------

  function Clamp(row: int, n: nat): nat
    requires 0 < n
  {
    Min(Max(0, row), n - 1)
  }

  function WithFullLines(d: Text, row: nat, ls: seq<Str>): Text
    requires row <= |d|
  {
    d[..row] + ls + d[row..]
  }

  function WithoutFullLines(d: Text, a: nat, b: nat): Text
    requires a <= b < |d|
  {
    if a == 0 && b == |d| - 1 then EMPTY else d[..a] + d[b + 1..]
  }

  lemma FullLinesBefore(d: Text, row: nat, ls: seq<Str>)
    requires row < |d|
    ensures var x := MakeDelta(Insert, Pos(row, 0), ls + [[]]);
            Valid(d, x) && Apply(d, x) == WithFullLines(d, row, ls)
  {
    var t: Text := ls + [[]];
    var u := Cat(d[..row] + [[]], t);
    assert [] + t[0] == t[0] && [] + d[row] == d[row];
    assert u == d[..row] + t;
    assert Cat(u, d[row..]) == d[..row] + ls + d[row..];
    assert After(d, Pos(row, 0)) == d[row..] && Before(d, Pos(row, 0)) == d[..row] + [[]];
  }

  lemma FullLinesAtEnd(d: Text, ls: seq<Str>)
    ensures var x := MakeDelta(Insert, Ext(d), [[]] + ls);
            Valid(d, x) && Apply(d, x) == WithFullLines(d, |d|, ls)
  {
    var t: Text := [[]] + ls;
    Ends(d);
    assert Last(d) + [] == Last(d);
    assert Cat(d, t) == d + ls;
    CatUnit(Cat(d, t));
  }

  lemma LinesRemovedWithNext(d: Text, a: nat, b: nat)
    requires a <= b < |d| - 1
    ensures Cat(Before(d, Pos(a, 0)), After(d, Pos(b + 1, 0))) == d[..a] + d[b + 1..]
  {
    var head, tail: Text := d[..a] + [[]], d[b + 1..];
    assert d[b + 1][0..] == d[b + 1] && [] + d[b + 1] == d[b + 1];
    assert Before(d, Pos(a, 0)) == head && After(d, Pos(b + 1, 0)) == tail;
    assert Cat(head, tail) == d[..a] + tail;
  }

  lemma LinesRemovedWithPrevious(d: Text, a: nat)
    requires 0 < a < |d|
    ensures Cat(Before(d, Pos(a - 1, |d[a - 1]|)), After(d, Ext(d))) == d[..a]
  {
    var head: Text := d[..a];
    Ends(d);
    assert d[a - 1][..|d[a - 1]|] == d[a - 1];
    assert Before(d, Pos(a - 1, |d[a - 1]|)) == head;
    CatUnit(head);
  }

  lemma FullLinesRemoved(d: Text, a: nat, b: nat, start: Pos, end: Pos)
    requires a <= b < |d|
    requires start == if b == |d| - 1 && a > 0 then Pos(a - 1, |d[a - 1]|) else Pos(a, 0)
    requires end == if b < |d| - 1 then Pos(b + 1, 0) else Pos(b, |d[b]|)
    ensures Cat(Before(d, start), After(d, end)) == WithoutFullLines(d, a, b)
  {
    if b < |d| - 1 {
      LinesRemovedWithNext(d, a, b);
    } else if a > 0 {
      LinesRemovedWithPrevious(d, a);
    } else {
      Ends(d);
      CatUnit(EMPTY);
    }
  }

  /** Putting removed lines back restores the document, except that a document emptied completely
      keeps the one empty line it was left with. */
  lemma RemovedLinesGoBack(d: Text, a: nat, b: nat)
    requires a <= b < |d|
    ensures a <= |WithoutFullLines(d, a, b)|
    ensures WithFullLines(WithoutFullLines(d, a, b), a, d[a..b + 1]) == d <==> !(a == 0 && b == |d| - 1)
  {
    var rest := WithoutFullLines(d, a, b);
    if a == 0 && b == |d| - 1 {
      assert |WithFullLines(rest, a, d[a..b + 1])| == |d| + 1;
    } else {
      assert rest[..a] == d[..a] && rest[a..] == d[b + 1..];
    }
  }

  function FullLines(n: Text, count: nat): Text
    requires count <= |n|
  {
    n[..count] + [[]]
  }

  lemma NothingInserted(a: Text, n: Text)
    ensures Cat(a, FullLines(n, 0)) == a
  {
    CatUnit(a);
    assert FullLines(n, 0) == EMPTY;
  }

  lemma NextPiece(d: Text, a: Text, n: Text, b: Text, y: Delta, from: nat, upTo: nat)
    requires from < upTo < |n| && d == Cat(Cat(a, FullLines(n, from)), b)
    requires y.action.Insert? && y.start == Ext(Cat(a, FullLines(n, from)))
    requires y.lines == n[from..upTo] + [[]] && y.end == Pos(Ext(a).row + upTo, 0)
    ensures Valid(d, y) && Apply(d, y) == Cat(Cat(a, FullLines(n, upTo)), b)
    ensures Ext(Cat(a, FullLines(n, upTo))) == y.end
  {
    var head := FullLines(n, from);
    assert [] + y.lines[0] == y.lines[0];
    assert Cat(head, y.lines) == FullLines(n, upTo);
    ExtCat(a, FullLines(n, upTo));
    PieceOfInsert(d, a, head, b, y);
  }

  lemma LastPiece(d: Text, a: Text, n: Text, b: Text, y: Delta, from: nat)
    requires from < |n| && d == Cat(Cat(a, FullLines(n, from)), b)
    requires y.action.Insert? && y.start == Ext(Cat(a, FullLines(n, from)))
    requires y.lines == n[from..] && y.end == Plus(Ext(a), Ext(n))
    ensures Valid(d, y) && Apply(d, y) == Cat(Cat(a, n), b)
  {
    var head := FullLines(n, from);
    assert [] + y.lines[0] == y.lines[0];
    assert Cat(head, y.lines) == n;
    ExtCat(a, n);
    PieceOfInsert(d, a, head, b, y);
  }

  lemma PieceOfInsert(d: Text, a: Text, head: Text, b: Text, y: Delta)
    requires d == Cat(Cat(a, head), b) && y.action.Insert? && y.start == Ext(Cat(a, head))
    requires y.end == Ext(Cat(a, Cat(head, y.lines)))
    ensures Valid(d, y) && Apply(d, y) == Cat(Cat(a, Cat(head, y.lines)), b)
  {
    CatAssoc(a, head, y.lines);
    ExtCat(Cat(a, head), y.lines);
    CatUnit(Cat(a, head));
    EditInContext(Cat(a, head), y, b);
  }

  lemma MoreRecorded(d: Text, earlier: seq<Delta>, mid: Text, y: Delta, events: seq<Delta>, n: nat)
    requires ValidRun(d, earlier) && Run(d, earlier) == mid && AllAtMost(earlier, Insert, Min(n, MAX_LINES))
    requires Records(mid, y, events) && y.action.Insert? && |y.lines| <= n
    ensures ValidRun(d, earlier + events) && Run(d, earlier + events) == Apply(mid, y)
    ensures AllAtMost(earlier + events, Insert, Min(n, MAX_LINES))
  {
    hide Apply, Valid;
    RunAppend(d, earlier, events);
  }
}
