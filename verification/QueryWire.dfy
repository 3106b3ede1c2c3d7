/** The way of a query from the browser to the database: encodeQuery in the browser, cleanQuery,
    desanitize64 and the Base64 decoding in the server. */
module QueryWire {
  import opened CodeUnits
  import opened Base64
  import opened Standards
  import opened Options

  // ---------- the browser ----------

  /** Replace every a by b. */
  function Replace(s: string, a: char, b: char): (r: string)
    ensures |r| == |s|
  {
    seq(|s|, i requires 0 <= i < |s| => if s[i] == a then b else s[i])
  }

  function EncodeQuery(q: Str): string {
    Replace(Replace(Replace(Encode(q), '+', '-'), '/', '_'), '=', '.')
  }

  // ---------- cleanQuery ----------

  /** White space as strings.TrimSpace sees it. */
  predicate IsSpace(c: char) {
    c in {'\t', '\n', '\U{0B}', '\U{0C}', '\r', ' ', '\U{85}', '\U{A0}', '\U{1680}', '\U{2028}', '\U{2029}',
          '\U{202F}', '\U{205F}', '\U{3000}'} || '\U{2000}' <= c <= '\U{200A}'
  }

  function TrimLeft(s: string): (r: string)
    ensures |r| <= |s|
    ensures r != [] ==> !IsSpace(r[0])
  {
    if s != [] && IsSpace(s[0]) then TrimLeft(s[1..]) else s
  }

  function TrimRight(s: string): (r: string)
    ensures |r| <= |s|
    ensures r <= s
    ensures r != [] ==> !IsSpace(r[|r| - 1])
  {
    if s != [] && IsSpace(s[|s| - 1]) then TrimRight(s[..|s| - 1]) else s
  }

  function TrimSpace(s: string): string {
    TrimRight(TrimLeft(s))
  }

  predicate AllSpace(s: string) {
    forall i :: 0 <= i < |s| ==> IsSpace(s[i])
  }

  lemma AllSpaceAppend(a: string, b: string)
    requires AllSpace(a) && AllSpace(b)
    ensures AllSpace(a + b)
  {
    hide IsSpace;
  }

  lemma OneSpace(c: char)
    requires IsSpace(c)
    ensures AllSpace([c]) && AllSpace([])
  {
    hide IsSpace;
  }

  lemma {:induction false} TrimLeftDropsSpace(s: string) returns (pre: string)
    ensures s == pre + TrimLeft(s) && AllSpace(pre)
    decreases |s|
  {
    hide IsSpace;
    pre := [];
    if s != [] && IsSpace(s[0]) {
      var c, rest, t := s[0], s[1..], TrimLeft(s);
      assert t == TrimLeft(rest);
      hide TrimLeft, AllSpace;
      var more := TrimLeftDropsSpace(rest);
      OneSpace(c);
      AllSpaceAppend([c], more);
      pre := [c] + more;
      assert s == [c] + rest;
      Regroup([c], more, t);
    }
  }

  lemma {:induction false} TrimRightDropsSpace(s: string) returns (post: string)
    ensures s == TrimRight(s) + post && AllSpace(post)
    decreases |s|
  {
    hide IsSpace;
    post := [];
    if s != [] && IsSpace(s[|s| - 1]) {
      var init, c, t := s[..|s| - 1], s[|s| - 1], TrimRight(s);
      assert t == TrimRight(init);
      hide TrimRight, AllSpace;
      var more := TrimRightDropsSpace(init);
      OneSpace(c);
      AllSpaceAppend(more, [c]);
      post := more + [c];
      assert s == init + [c];
      Regroup(t, more, [c]);
    }
  }

  /** Trimming takes off white space at both ends, all of it and nothing else. */
  lemma TrimSpaceDropsSpace(s: string) returns (pre: string, post: string)
    ensures s == pre + TrimSpace(s) + post && AllSpace(pre) && AllSpace(post)
    ensures var t := TrimSpace(s); t != [] ==> !IsSpace(t[0]) && !IsSpace(t[|t| - 1])
  {
    hide IsSpace, AllSpace;
    pre := TrimLeftDropsSpace(s);
    post := TrimRightDropsSpace(TrimLeft(s));
    assert pre + (TrimSpace(s) + post) == pre + TrimSpace(s) + post;
  }

  /** strings.Split(s, "\n") */
  function SplitLines(s: string): (lines: seq<string>)
    ensures lines != []
  {
    if s == [] then [[]]
    else if s[0] == '\n' then [[]] + SplitLines(s[1..])
    else var rest := SplitLines(s[1..]); [[s[0]] + rest[0]] + rest[1..]
  }

  /** strings.Join(lines, "\n") */
  function JoinLines(lines: seq<string>): string {
    if lines == [] then [] else if |lines| == 1 then lines[0] else lines[0] + "\n" + JoinLines(lines[1..])
  }

  predicate IsComment(line: string) {
    "--" <= line
  }

  function KeptLines(lines: seq<string>): seq<string> {
    if lines == [] then []
    else
      var line := TrimSpace(lines[0]);
      (if IsComment(line) then [] else [line]) + KeptLines(lines[1..])
  }

  function CleanQuery(query: string): string {
    TrimSpace(JoinLines(KeptLines(SplitLines(query))))
  }

  lemma {:induction false} KeptLinesLast(lines: seq<string>, l: string)
    ensures var line := TrimSpace(l);
            KeptLines(lines + [l]) == KeptLines(lines) + if IsComment(line) then [] else [line]
  {
    hide IsComment, TrimSpace;
    if lines == [] {
      assert [l][1..] == [] && lines + [l] == [l];
    } else {
      assert (lines + [l])[1..] == lines[1..] + [l];
      KeptLinesLast(lines[1..], l);
    }
  }

  method CleanQueryLoop(query: string) returns (clean: string)
    ensures clean == CleanQuery(query)
  {
    hide TrimSpace, IsComment;
    var all := SplitLines(query);
    var lines: seq<string> := [];
    var i := 0;
    while i < |all|
      invariant i <= |all| && lines == KeptLines(all[..i])
    {
      KeptLinesLast(all[..i], all[i]);
      assert all[..i] + [all[i]] == all[..i + 1];
      var line := TrimSpace(all[i]);
      if !IsComment(line) {
        lines := lines + [line];
      }
      i := i + 1;
    }
    assert all[..i] == all;
    clean := TrimSpace(JoinLines(lines));
  }

  // ---------- what a cleaned query looks like ----------

  /** One line, trimmed at both ends, and no comment. */
  predicate CleanLine(line: string) {
    && '\n' !in line && !IsComment(line)
    && (line != [] ==> !IsSpace(line[0]) && !IsSpace(line[|line| - 1]))
  }

  predicate CleanLines(lines: seq<string>) {
    forall i :: 0 <= i < |lines| ==> CleanLine(lines[i])
  }

  lemma {:induction false} TrimLeftOnlyDrops(s: string, c: char)
    requires c !in s
    ensures c !in TrimLeft(s)
  {
    if s != [] && IsSpace(s[0]) { TrimLeftOnlyDrops(s[1..], c); }
  }

  lemma TrimmedLine(line: string)
    requires '\n' !in line && !IsComment(TrimSpace(line))
    ensures CleanLine(TrimSpace(line))
  {
    TrimLeftOnlyDrops(line, '\n');
  }

  lemma CleanLineStays(line: string)
    requires CleanLine(line)
    ensures TrimSpace(line) == line
  {
  }

  lemma {:induction false} SplitHasNoNewlines(s: string)
    ensures forall i :: 0 <= i < |SplitLines(s)| ==> '\n' !in SplitLines(s)[i]
  {
    if s != [] { SplitHasNoNewlines(s[1..]); }
  }

  lemma {:induction false} KeptLinesAreClean(lines: seq<string>)
    requires forall i :: 0 <= i < |lines| ==> '\n' !in lines[i]
    ensures CleanLines(KeptLines(lines))
  {
    if lines != [] {
      hide TrimSpace, IsComment, CleanLine;
      if !IsComment(TrimSpace(lines[0])) { TrimmedLine(lines[0]); }
      KeptLinesAreClean(lines[1..]);
    }
  }

  lemma {:induction false} CleanLinesAreKept(lines: seq<string>)
    requires CleanLines(lines)
    ensures KeptLines(lines) == lines
  {
    if lines != [] {
      assert CleanLine(lines[0]);
      CleanLineStays(lines[0]);
      CleanLinesAreKept(lines[1..]);
    }
  }

  function WithoutLeadingBlanks(lines: seq<string>): (r: seq<string>)
    ensures r != [] ==> r[0] != []
    ensures CleanLines(lines) ==> CleanLines(r)
  {
    if lines != [] && lines[0] == [] then WithoutLeadingBlanks(lines[1..]) else lines
  }

  function WithoutTrailingBlanks(lines: seq<string>): (r: seq<string>)
    ensures r <= lines
    ensures CleanLines(lines) ==> CleanLines(r)
    ensures r != [] ==> r[|r| - 1] != []
  {
    if lines != [] && lines[|lines| - 1] == [] then WithoutTrailingBlanks(lines[..|lines| - 1]) else lines
  }

  /** Trimming joined clean lines drops blank lines at the ends. */
  lemma {:induction false} TrimLeftOfLines(lines: seq<string>)
    requires CleanLines(lines)
    ensures TrimLeft(JoinLines(lines)) == JoinLines(WithoutLeadingBlanks(lines))
  {
    if lines != [] {
      assert CleanLine(lines[0]);
      if lines[0] == [] {
        TrimLeftOfLines(lines[1..]);
        if |lines| > 1 { assert JoinLines(lines)[1..] == JoinLines(lines[1..]); }
      } else {
        assert JoinLines(lines)[0] == lines[0][0];
      }
    }
  }

  lemma {:induction false} JoinLinesLast(lines: seq<string>, l: string)
    requires lines != []
    ensures JoinLines(lines + [l]) == JoinLines(lines) + "\n" + l
  {
    if |lines| == 1 {
      assert (lines + [l])[1..] == [l];
    } else {
      assert (lines + [l])[1..] == lines[1..] + [l];
      JoinLinesLast(lines[1..], l);
      assert lines[0] + "\n" + (JoinLines(lines[1..]) + "\n" + l)
          == (lines[0] + "\n" + JoinLines(lines[1..])) + "\n" + l;
    }
  }

  lemma TrimRightStep(s: string, c: char)
    ensures TrimRight(s + [c]) == if IsSpace(c) then TrimRight(s) else s + [c]
  {
    assert (s + [c])[..|s|] == s;
  }

  lemma TrimRightStays(s: string, l: string)
    requires l != [] && !IsSpace(l[|l| - 1])
    ensures TrimRight(s + l) == s + l
  {
    TrimRightStep(s + l[..|l| - 1], l[|l| - 1]);
    assert (s + l[..|l| - 1]) + [l[|l| - 1]] == s + l;
  }

  lemma TrailingStep(init: seq<string>, l: string)
    ensures WithoutTrailingBlanks(init + [l]) == if l == [] then WithoutTrailingBlanks(init) else init + [l]
  {
    assert (init + [l])[..|init|] == init;
  }

  lemma CleanInit(init: seq<string>, l: string)
    requires CleanLines(init + [l])
    ensures CleanLines(init) && CleanLine(l)
  {
    assert (init + [l])[|init|] == l && forall i :: 0 <= i < |init| ==> (init + [l])[i] == init[i];
  }

  lemma CleanLineEnd(l: string)
    requires CleanLine(l) && l != []
    ensures !IsSpace(l[|l| - 1])
  {
  }

  lemma JoinFew(l: string)
    ensures JoinLines([]) == [] && JoinLines([] + [l]) == l && TrimRight([]) == []
  {
    assert [] + [l] == [l];
  }

  lemma {:induction false} TrimRightOfLines(lines: seq<string>)
    requires CleanLines(lines)
    ensures TrimRight(JoinLines(lines)) == JoinLines(WithoutTrailingBlanks(lines))
    decreases |lines|
  {
    if lines != [] {
      hide CleanLines, CleanLine, JoinLines, WithoutTrailingBlanks, TrimRight, IsSpace;
      var init, l := lines[..|lines| - 1], lines[|lines| - 1];
      assert lines == init + [l];
      CleanInit(init, l);
      TrailingStep(init, l);
      JoinFew(l);
      var head := if init == [] then [] else JoinLines(init) + "\n";
      if init != [] { JoinLinesLast(init, l); }
      assert JoinLines(lines) == head + l;
      if l == [] {
        TrimRightOfLines(init);
        if init != [] { TrimRightNewline(JoinLines(init)); }
        assert head + l == head;
      } else {
        CleanLineEnd(l);
        TrimRightStays(head, l);
      }
    }
  }

  lemma TrimRightNewline(s: string)
    ensures TrimRight(s + "\n") == TrimRight(s)
  {
    TrimRightStep(s, '\n');
  }

  lemma {:induction false} SplitLine(line: string, rest: string)
    requires '\n' !in line
    ensures SplitLines(line + "\n" + rest) == [line] + SplitLines(rest)
    ensures SplitLines(line) == [line]
  {
    if line == [] {
      assert line + "\n" + rest == "\n" + rest && ("\n" + rest)[1..] == rest;
    } else {
      var s := line + "\n" + rest;
      assert s[1..] == line[1..] + "\n" + rest && s[0] == line[0];
      SplitLine(line[1..], rest);
      assert [line[0]] + line[1..] == line;
    }
  }

  lemma {:induction false} SplitJoinedLines(lines: seq<string>)
    requires CleanLines(lines) && lines != []
    ensures SplitLines(JoinLines(lines)) == lines
  {
    assert CleanLine(lines[0]);
    if |lines| == 1 {
      SplitLine(lines[0], []);
    } else {
      SplitJoinedLines(lines[1..]);
      SplitLine(lines[0], JoinLines(lines[1..]));
    }
  }

  lemma JoinBlankFirst(rest: seq<string>)
    requires rest != []
    ensures JoinLines([[]] + rest) == "\n" + JoinLines(rest)
  {
    assert ([[]] + rest)[1..] == rest;
    assert [] + "\n" == "\n";
  }

  lemma JoinCharFirst(c: char, rest: seq<string>)
    requires rest != []
    ensures JoinLines([[c] + rest[0]] + rest[1..]) == [c] + JoinLines(rest)
  {
    var lines := [[c] + rest[0]] + rest[1..];
    assert lines[1..] == rest[1..] && lines[0] == [c] + rest[0];
    if |rest| > 1 {
      var tail := JoinLines(rest[1..]);
      hide JoinLines;
      assert ([c] + rest[0]) + "\n" + tail == [c] + (rest[0] + "\n" + tail);
    }
  }

  /** Splitting at newlines loses nothing. */
  lemma {:induction false} JoinSplitLines(s: string)
    ensures JoinLines(SplitLines(s)) == s
    decreases |s|
  {
    if s != [] {
      hide JoinLines;
      var rest := SplitLines(s[1..]);
      JoinSplitLines(s[1..]);
      assert s == [s[0]] + s[1..];
      if s[0] == '\n' {
        JoinBlankFirst(rest);
      } else {
        JoinCharFirst(s[0], rest);
      }
    }
  }

  function KeptOf(l: string): seq<string> {
    if IsComment(TrimSpace(l)) then [] else [TrimSpace(l)]
  }

  lemma KeptLinesCons(l: string, lines: seq<string>)
    ensures KeptLines([l] + lines) == KeptOf(l) + KeptLines(lines)
  {
    hide IsComment, TrimSpace;
    assert ([l] + lines)[1..] == lines;
  }

  lemma {:induction false} KeptLinesAppend(a: seq<string>, b: seq<string>)
    ensures KeptLines(a + b) == KeptLines(a) + KeptLines(b)
    decreases |a|
  {
    if a == [] {
      assert a + b == b;
    } else {
      hide KeptLines, KeptOf;
      var l, rest := a[0], a[1..];
      assert a == [l] + rest && a + b == [l] + (rest + b);
      KeptLinesCons(l, rest);
      KeptLinesCons(l, rest + b);
      KeptLinesAppend(rest, b);
      Regroup(KeptOf(l), KeptLines(rest), KeptLines(b));
    }
  }

  /** Each line is judged by itself: comments go, the others stay, trimmed and in order. */
  lemma KeptLineByLine(a: seq<string>, b: seq<string>, l: string)
    ensures KeptLines(a + b) == KeptLines(a) + KeptLines(b)
    ensures KeptLines([l]) == if "--" <= TrimSpace(l) then [] else [TrimSpace(l)]
  {
    hide TrimSpace;
    KeptLinesAppend(a, b);
    assert [l][1..] == [];
  }

  function BlankLines(n: nat): (r: seq<string>)
    ensures |r| == n
  {
    if n == 0 then [] else [[]] + BlankLines(n - 1)
  }

  lemma BlankLinesLast(n: nat)
    ensures BlankLines(n + 1) == BlankLines(n) + [[]]
  {
    if n > 0 { BlankLinesLast(n - 1); }
  }

  lemma {:induction false} LeadingBlanksAre(lines: seq<string>) returns (n: nat)
    ensures lines == BlankLines(n) + WithoutLeadingBlanks(lines)
    decreases |lines|
  {
    n := 0;
    if lines != [] && lines[0] == [] {
      var m := LeadingBlanksAre(lines[1..]);
      n := m + 1;
      assert lines == [lines[0]] + lines[1..];
    }
  }

  lemma {:induction false} TrailingBlanksAre(lines: seq<string>) returns (n: nat)
    ensures lines == WithoutTrailingBlanks(lines) + BlankLines(n)
    decreases |lines|
  {
    n := 0;
    if lines != [] && lines[|lines| - 1] == [] {
      var m := TrailingBlanksAre(lines[..|lines| - 1]);
      n := m + 1;
      BlankLinesLast(m);
      assert lines == lines[..|lines| - 1] + [lines[|lines| - 1]];
    }
  }

  /** What cleanQuery leaves: the kept lines but for the blank ones at either end, blank lines between
      others included. */
  lemma CleanQueryKeeps(query: string) returns (before: nat, kept: seq<string>, after: nat)
    ensures KeptLines(SplitLines(query)) == BlankLines(before) + kept + BlankLines(after)
    ensures CleanQuery(query) == JoinLines(kept)
    ensures kept != [] ==> kept[0] != [] && kept[|kept| - 1] != []
  {
    hide CleanLine, CleanLines, TrimLeft, TrimRight, IsComment, KeptLines, SplitLines, JoinLines;
    SplitHasNoNewlines(query);
    KeptLinesAreClean(SplitLines(query));
    var k := KeptLines(SplitLines(query));
    TrimLeftOfLines(k);
    var k1 := WithoutLeadingBlanks(k);
    TrimRightOfLines(k1);
    before := LeadingBlanksAre(k);
    after := TrailingBlanksAre(k1);
    kept := WithoutTrailingBlanks(k1);
    assert BlankLines(before) + (kept + BlankLines(after)) == BlankLines(before) + kept + BlankLines(after);
  }

  /** A cleaned query is trimmed as a whole. */
  lemma CleanQueryIsTrimmed(query: string)
    ensures TrimSpace(CleanQuery(query)) == CleanQuery(query)
  {
    hide IsSpace;
    TrimmedStays(JoinLines(KeptLines(SplitLines(query))));
  }

  lemma TrimmedStays(s: string)
    ensures TrimSpace(TrimSpace(s)) == TrimSpace(s)
  {
    hide IsSpace;
    var pre, post := TrimSpaceDropsSpace(s);
  }

  /** cleanQuery keeps its promise: every line of the result is trimmed and none is a comment.
      Cleaning again changes nothing. */
  lemma CleanQueryIsClean(query: string)
    ensures CleanLines(SplitLines(CleanQuery(query)))
    ensures CleanQuery(CleanQuery(query)) == CleanQuery(query)
  {
    hide CleanLine, TrimLeft, TrimRight, IsComment;
    SplitHasNoNewlines(query);
    KeptLinesAreClean(SplitLines(query));
    var k := KeptLines(SplitLines(query));
    TrimLeftOfLines(k);
    var k1 := WithoutLeadingBlanks(k);
    TrimRightOfLines(k1);
    var k2 := WithoutTrailingBlanks(k1);
    var c := CleanQuery(query);
    assert c == JoinLines(k2);
    if k2 == [] {
      NothingIsClean();
    } else {
      SplitJoinedLines(k2);
      CleanLinesAreKept(k2);
      TrimLeftOfLines(k2);
      TrimRightOfLines(k2);
    }
  }

  lemma NothingIsClean()
    ensures SplitLines([]) == [[]] && CleanLine([]) && CleanQuery([]) == []
  {
    assert KeptLines([[]]) == [[]] + [];
  }

  // ---------- what encoding leaves for cleanQuery to do ----------

  predicate NoSpace(s: string) {
    forall i :: 0 <= i < |s| ==> !IsSpace(s[i])
  }

  lemma {:induction false} SplitWithoutNewline(s: string)
    requires NoSpace(s)
    ensures SplitLines(s) == [s]
  {
    if s != [] {
      assert !IsSpace(s[0]);
      SplitWithoutNewline(s[1..]);
      assert [s[0]] + s[1..] == s;
    }
  }

  /** A text without white space that does not start like a comment is left alone. */
  lemma CleanLeavesAlone(s: string)
    requires NoSpace(s) && !IsComment(s)
    ensures CleanQuery(s) == s
  {
    SplitWithoutNewline(s);
    assert TrimLeft(s) == s && TrimSpace(s) == s;
    assert KeptLines([s]) == [s] + [];
  }

  // ---------- desanitize64 ----------

  const BASE64_SUBS: map<char, char> := map['-' := '+', '_' := '/', '.' := '=']

  /** An iteration order of the substitution map. */
  predicate IsOrder(order: seq<char>) {
    multiset(order) == multiset{'-', '_', '.'}
  }

  function Substituted(c: char): char {
    if c == '-' then '+' else if c == '_' then '/' else if c == '.' then '=' else c
  }

  function SubstituteAll(s: string): (r: string)
    ensures |r| == |s|
  {
    seq(|s|, i requires 0 <= i < |s| => Substituted(s[i]))
  }

  /** Whatever order the map is iterated in, every character is substituted once. */
  method Desanitize64(query0: string, order: seq<char>) returns (query: string)
    requires IsOrder(order)
    ensures query == SubstituteAll(query0)
  {
    query := query0;
    OrderHoldsKeys(order);
    for k := 0 to |order|
      invariant |query| == |query0|
      invariant forall i :: 0 <= i < |query| ==>
        query[i] == if query0[i] in order[..k] then Substituted(query0[i]) else query0[i]
    {
      assert order[k] in BASE64_SUBS;
      assert order[..k + 1] == order[..k] + [order[k]];
      query := Replace(query, order[k], BASE64_SUBS[order[k]]);
    }
    assert order[..|order|] == order;
  }

  lemma OrderHoldsKeys(order: seq<char>)
    requires IsOrder(order)
    ensures |order| == 3 && forall c :: c in order <==> c in BASE64_SUBS
  {
    assert |multiset(order)| == 3;
    assert forall c :: c in order <==> c in multiset(order);
  }

  /** The browser's substitutions are undone. */
  lemma SubstitutionsUndone(q: Str)
    ensures SubstituteAll(EncodeQuery(q)) == Encode(q)
    ensures forall i :: 0 <= i < |EncodeQuery(q)| ==>
      var c := EncodeQuery(q)[i]; c in {'-', '_', '.'} || 'A' <= c <= 'Z' || 'a' <= c <= 'z' || '0' <= c <= '9'
  {
    var s := Encode(q);
    EncodeUnitsBytes(NormalizeNewlines(q));
    EncodeBytesInTable(Utf8Encode(q));
    forall i | 0 <= i < |s|
      ensures SubstituteAll(EncodeQuery(q))[i] == s[i]
    {
      assert InAlphabet(s[i]) || s[i] == '=';
    }
  }

  /** The URL form, symbol by symbol: the alphabet of section 5 of RFC 4648 with a dot for padding. */
  lemma EncodedSymbols(q: Str, i: nat)
    requires i < |Encode(q)|
    ensures |EncodeQuery(q)| == |Encode(q)|
    ensures Encode(q)[i] == '+' ==> EncodeQuery(q)[i] == '-'
    ensures Encode(q)[i] == '/' ==> EncodeQuery(q)[i] == '_'
    ensures Encode(q)[i] == '=' ==> EncodeQuery(q)[i] == '.'
    ensures Encode(q)[i] !in {'+', '/', '='} ==> EncodeQuery(q)[i] == Encode(q)[i]
  {
    hide Encode;
  }

  lemma {:induction false} EncodeBytesInTable(t: Str)
    requires AllBytes(t)
    ensures forall i :: 0 <= i < |EncodeBytes(t)| ==> InAlphabet(EncodeBytes(t)[i]) || EncodeBytes(t)[i] == '='
    decreases |t|
  {
    if t != [] {
      hide EncodeGroup, InAlphabet;
      GroupRoundTrip(t, []);
      EncodeBytesInTable(Drop(t, 3));
    }
  }

  /** The first symbol stands for the upper six bits of a first UTF-8 byte, at most 239, which leaves
      out index 62: an encoded query never starts like a comment. */
  lemma EncodedIsNoComment(q: Str)
    ensures !IsComment(EncodeQuery(q))
    ensures q != [] ==> EncodeQuery(q) != []
  {
    if q != [] {
      var n := NormalizeNewlines(q);
      EncodeUnitsBytes(n);
      var b := Utf8Encode(q)[0];
      assert Enc1(b) <= 59;
      KeyRoundTrip(Enc1(b));
      assert Encode(q)[0] == KeyChar(Enc1(b)) != '+';
      assert EncodeQuery(q)[0] != '-';
    }
  }

  // ---------- RunQuery and HandleQuery ----------

  /** base64.StdEncoding.DecodeString, which skips line breaks. */
  function StdDecode(s: string): Option<Str> {
    Rfc4648Decode(WithoutBreaks(s))
  }

  function WithoutBreaks(s: string): string {
    if s == [] then [] else if s[0] == '\r' || s[0] == '\n' then WithoutBreaks(s[1..])
    else [s[0]] + WithoutBreaks(s[1..])
  }

  /** Line breaks are left out wherever they stand, and nothing else is. */
  lemma {:induction false} WithoutBreaksEach(a: string, b: string, c: char)
    ensures WithoutBreaks(a + b) == WithoutBreaks(a) + WithoutBreaks(b)
    ensures WithoutBreaks([c]) == if c == '\r' || c == '\n' then [] else [c]
    decreases |a|
  {
    assert [c][1..] == [];
    if a == [] {
      assert a + b == b;
    } else {
      assert (a + b)[1..] == a[1..] + b;
      WithoutBreaksEach(a[1..], b, c);
    }
  }

  /** What reaches the database: the decoded bytes, or the text as it was sent. */
  datatype Outcome = QueryRequired | Decoded(bytes: Str) | Verbatim(text: string)

  function HandledAs(query: string): Outcome {
    match StdDecode(SubstituteAll(query))
    case Some(raw) => Decoded(raw)
    case None => Verbatim(query)
  }

  method HandleQuery(query: string, order: seq<char>) returns (r: Outcome)
    requires IsOrder(order)
    ensures r == HandledAs(query)
  {
    var sent := Desanitize64(query, order);
    var raw := StdDecode(sent);
    if raw.Some? {
      return Decoded(raw.value);
    }
    return Verbatim(query);
  }

  method RunQuery(formValue: string, order: seq<char>) returns (r: Outcome)
    requires IsOrder(order)
    ensures r == if CleanQuery(formValue) == [] then QueryRequired else HandledAs(CleanQuery(formValue))
  {
    var query := CleanQueryLoop(formValue);
    if query == [] { return QueryRequired; }
    r := HandleQuery(query, order);
  }

  method ExplainQuery(formValue: string, order: seq<char>) returns (r: Outcome)
    requires IsOrder(order)
    ensures r == if CleanQuery(formValue) == [] then QueryRequired else Verbatim("EXPLAIN " + CleanQuery(formValue))
  {
    var query := CleanQueryLoop(formValue);
    if query == [] { return QueryRequired; }
    BlankIsNeverDecoded("EXPLAIN " + query, 7);
    r := HandleQuery("EXPLAIN " + query, order);
  }

  lemma {:induction false} WithoutBreaksOfTable(s: string)
    requires forall i :: 0 <= i < |s| ==> InAlphabet(s[i]) || s[i] == '='
    ensures WithoutBreaks(s) == s
  {
    if s != [] {
      assert InAlphabet(s[0]) || s[0] == '=';
      WithoutBreaksOfTable(s[1..]);
    }
  }

  /** The wire round trip: an encoded query reaches the database as exactly its UTF-8 bytes. */
  lemma QueryArrives(q: Str)
    requires q != []
    ensures CleanQuery(EncodeQuery(q)) == EncodeQuery(q) != []
    ensures HandledAs(CleanQuery(EncodeQuery(q))) == Decoded(Utf8Encode(q))
  {
    var e := EncodeQuery(q);
    SubstitutionsUndone(q);
    EncodedIsNoComment(q);
    assert NoSpace(e);
    CleanLeavesAlone(e);
    EncodeUnitsBytes(NormalizeNewlines(q));
    EncodeBytesInTable(Utf8Encode(q));
    WithoutBreaksOfTable(Encode(q));
    EncodeIsStandard(q);
  }

  /** Exactly which texts are decoded: those that, line breaks aside and either alphabet allowed, have
      the form of Base64.  The server cannot tell such a text from an encoded one. */
  lemma DecodedIff(query: string)
    ensures HandledAs(query).Decoded? <==> IsBase64(WithoutBreaks(SubstituteAll(query)))
  {
    hide SubstituteAll, WithoutBreaks, IsBase64;
    DecodesIff(WithoutBreaks(SubstituteAll(query)));
  }

  lemma DashesStartWithDash(s: string)
    ensures IsComment(s) ==> s != [] && s[0] == '-'
  {
    if IsComment(s) { assert s[0] == "--"[0]; }
  }

  lemma LettersStay(s: string)
    requires forall i :: 0 <= i < |s| ==> 'A' <= s[i] <= 'Z'
    ensures NoSpace(s) && !IsComment(s) && SubstituteAll(s) == s && forall i :: 0 <= i < |s| ==> InAlphabet(s[i])
  {
    DashesStartWithDash(s);
  }

  /** So plain SQL of one word, four or eight letters long, is taken for an encoded query. */
  lemma WordIsDecoded(s: string)
    requires |s| % 4 == 0 && forall i :: 0 <= i < |s| ==> 'A' <= s[i] <= 'Z'
    ensures CleanQuery(s) == s && HandledAs(s).Decoded?
  {
    hide HandledAs, CleanQuery, InAlphabet;
    LettersStay(s);
    CleanLeavesAlone(s);
    WithoutBreaksOfTable(s);
    DecodedIff(s);
    PadIsNotInAlphabet();
  }

  lemma RollbackIsDecoded()
    ensures CleanQuery("ROLLBACK") == "ROLLBACK" && HandledAs("ROLLBACK").Decoded?
  {
    WordIsDecoded("ROLLBACK");
  }

  /** A text with a character no Base64 text can hold is never decoded: plain SQL with a blank in it,
      and every EXPLAIN, goes to the database as it is. */
  lemma BlankIsNeverDecoded(query: string, i: nat)
    requires i < |query| && query[i] == ' '
    ensures HandledAs(query) == Verbatim(query)
  {
    var s := SubstituteAll(query);
    assert s[i] == ' ';
    BlankSurvives(s, i);
    ForeignCharFails(WithoutBreaks(s), ' ');
  }

  lemma {:induction false} BlankSurvives(s: string, i: nat)
    requires i < |s| && s[i] == ' '
    ensures ' ' in WithoutBreaks(s)
  {
    if i > 0 { BlankSurvives(s[1..], i - 1); }
  }

  lemma {:induction false} ForeignCharFails(s: string, c: char)
    requires c in s && !InAlphabet(c) && c != '='
    ensures Rfc4648Decode(s).None?
    decreases |s|
  {
    hide TableValue, SextetBits, Octet;
    var i :| 0 <= i < |s| && s[i] == c;
    if i >= 4 {
      assert s[4..][i - 4] == c;
      ForeignCharFails(s[4..], c);
    } else if |s| >= 4 {
      assert s[2..][0] == s[2] && s[2..][1] == s[3] && s[3..][0] == s[3];
    }
  }
}
