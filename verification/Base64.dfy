/** The browser's Base64 codec: _utf8_encode, encode, decode and _utf8_decode of base64.js, with the
    bit operations of the source. */
module Base64 {
  import opened CodeUnits

  // ---------- the character table ----------

  function Upper(e: Unit): char {
    if e == 0 then 'A' else if e == 1 then 'B' else if e == 2 then 'C' else if e == 3 then 'D' else
    if e == 4 then 'E' else if e == 5 then 'F' else if e == 6 then 'G' else if e == 7 then 'H' else
    if e == 8 then 'I' else if e == 9 then 'J' else if e == 10 then 'K' else if e == 11 then 'L' else
    if e == 12 then 'M' else if e == 13 then 'N' else if e == 14 then 'O' else if e == 15 then 'P' else
    if e == 16 then 'Q' else if e == 17 then 'R' else if e == 18 then 'S' else if e == 19 then 'T' else
    if e == 20 then 'U' else if e == 21 then 'V' else if e == 22 then 'W' else if e == 23 then 'X' else
    if e == 24 then 'Y' else 'Z'
  }

  function Lower(e: Unit): char {
    if e == 26 then 'a' else if e == 27 then 'b' else if e == 28 then 'c' else if e == 29 then 'd' else
    if e == 30 then 'e' else if e == 31 then 'f' else if e == 32 then 'g' else if e == 33 then 'h' else
    if e == 34 then 'i' else if e == 35 then 'j' else if e == 36 then 'k' else if e == 37 then 'l' else
    if e == 38 then 'm' else if e == 39 then 'n' else if e == 40 then 'o' else if e == 41 then 'p' else
    if e == 42 then 'q' else if e == 43 then 'r' else if e == 44 then 's' else if e == 45 then 't' else
    if e == 46 then 'u' else if e == 47 then 'v' else if e == 48 then 'w' else if e == 49 then 'x' else
    if e == 50 then 'y' else 'z'
  }

  function Digit(e: Unit): char {
    if e == 52 then '0' else if e == 53 then '1' else if e == 54 then '2' else if e == 55 then '3' else
    if e == 56 then '4' else if e == 57 then '5' else if e == 58 then '6' else if e == 59 then '7' else
    if e == 60 then '8' else '9'
  }

  function UpperIndex(c: char): Unit {
    if c == 'A' then 0 else if c == 'B' then 1 else if c == 'C' then 2 else if c == 'D' then 3 else
    if c == 'E' then 4 else if c == 'F' then 5 else if c == 'G' then 6 else if c == 'H' then 7 else
    if c == 'I' then 8 else if c == 'J' then 9 else if c == 'K' then 10 else if c == 'L' then 11 else
    if c == 'M' then 12 else if c == 'N' then 13 else if c == 'O' then 14 else if c == 'P' then 15 else
    if c == 'Q' then 16 else if c == 'R' then 17 else if c == 'S' then 18 else if c == 'T' then 19 else
    if c == 'U' then 20 else if c == 'V' then 21 else if c == 'W' then 22 else if c == 'X' then 23 else
    if c == 'Y' then 24 else 25
  }

  function LowerIndex(c: char): Unit {
    if c == 'a' then 26 else if c == 'b' then 27 else if c == 'c' then 28 else if c == 'd' then 29 else
    if c == 'e' then 30 else if c == 'f' then 31 else if c == 'g' then 32 else if c == 'h' then 33 else
    if c == 'i' then 34 else if c == 'j' then 35 else if c == 'k' then 36 else if c == 'l' then 37 else
    if c == 'm' then 38 else if c == 'n' then 39 else if c == 'o' then 40 else if c == 'p' then 41 else
    if c == 'q' then 42 else if c == 'r' then 43 else if c == 's' then 44 else if c == 't' then 45 else
    if c == 'u' then 46 else if c == 'v' then 47 else if c == 'w' then 48 else if c == 'x' then 49 else
    if c == 'y' then 50 else 51
  }

  function DigitIndex(c: char): Unit {
    if c == '0' then 52 else if c == '1' then 53 else if c == '2' then 54 else if c == '3' then 55 else
    if c == '4' then 56 else if c == '5' then 57 else if c == '6' then 58 else if c == '7' then 59 else
    if c == '8' then 60 else 61
  }

  /** _keyStr.charAt(e), for the 65 indices of the table; 64 is the padding character. */
  function KeyChar(e: Unit): char {
    if e < 26 then Upper(e) else if e < 52 then Lower(e) else if e < 62 then Digit(e)
    else if e == 62 then '+' else if e == 63 then '/' else '='
  }

  /** _keyStr.indexOf(c), for the characters of the table. */
  function KeyIndex(c: char): Unit {
    if 'A' <= c <= 'Z' then UpperIndex(c) else if 'a' <= c <= 'z' then LowerIndex(c)
    else if '0' <= c <= '9' then DigitIndex(c)
    else if c == '+' then 62 else if c == '/' then 63 else if c == '=' then 64 else 0xFFFF
  }

  lemma UpperRoundTrip(e: Unit)
    requires e < 26
    ensures 'A' <= Upper(e) <= 'Z' && UpperIndex(Upper(e)) == e
  {
  }

  lemma LowerRoundTrip(e: Unit)
    requires 26 <= e < 52
    ensures 'a' <= Lower(e) <= 'z' && LowerIndex(Lower(e)) == e
  {
  }

  lemma DigitRoundTrip(e: Unit)
    requires 52 <= e < 62
    ensures '0' <= Digit(e) <= '9' && DigitIndex(Digit(e)) == e
  {
  }

  lemma KeyRoundTrip(e: Unit)
    requires e <= 64
    ensures KeyIndex(KeyChar(e)) == e
    ensures e < 64 ==> InAlphabet(KeyChar(e))
    ensures KeyChar(e) == '=' <==> e == 64
    ensures KeyChar(e) == '+' <==> e == 62
  {
    hide Upper, Lower, Digit, UpperIndex, LowerIndex, DigitIndex;
    if e < 26 { UpperRoundTrip(e); } else if e < 52 { LowerRoundTrip(e); } else if e < 62 { DigitRoundTrip(e); }
  }

  predicate InAlphabet(c: char) {
    'A' <= c <= 'Z' || 'a' <= c <= 'z' || '0' <= c <= '9' || c == '+' || c == '/'
  }

  // ---------- UTF-8 ----------

  /** string.replace(/\r\n/g, "\n") */
  function NormalizeNewlines(s: Str): Str
    decreases |s|
  {
    if s == [] then []
    else if [CR, LF] <= s then [LF] + NormalizeNewlines(s[2..])
    else [s[0]] + NormalizeNewlines(s[1..])
  }

  /** The bytes one code unit becomes. */
  function EncodeUnit(c: Unit): (b: Str)
    ensures 1 <= |b| <= 3
  {
    if c < 128 then [c]
    else if c > 127 && c < 2048 then [(c >> 6) | 192, (c & 63) | 128]
    else [(c >> 12) | 224, ((c >> 6) & 63) | 128, (c & 63) | 128]
  }

  function EncodeUnits(s: Str): Str {
    if s == [] then [] else EncodeUnit(s[0]) + EncodeUnits(s[1..])
  }

  /** _utf8_encode */
  function Utf8Encode(s: Str): Str {
    EncodeUnits(NormalizeNewlines(s))
  }

  predicate Has(s: Str, w: Str)
    decreases |s|
  {
    w <= s || (s != [] && Has(s[1..], w))
  }

  lemma NormalizeStep(u: Unit, s: Str)
    ensures NormalizeNewlines([u] + s)
            == if u == CR && s != [] && s[0] == LF then [LF] + NormalizeNewlines(s[1..]) else [u] + NormalizeNewlines(s)
  {
    var t := [u] + s;
    assert t[1..] == s;
    if u == CR && s != [] && s[0] == LF {
      assert t == [CR, LF] + s[1..];
      assert t[2..] == s[1..];
    }
  }

  lemma ConsAppend(a: Str, w: Str)
    requires a != []
    ensures a == [a[0]] + a[1..] && a + w == [a[0]] + (a[1..] + w)
    ensures |a| > 1 ==> a[1..] + w != [] && (a[1..] + w)[0] == a[1] && (a[1..] + w)[1..] == a[2..] + w
  {
  }

  lemma {:induction false} NormalizeAppend(a: Str, w: Str)
    requires w == [] || w[0] != LF
    ensures NormalizeNewlines(a + w) == NormalizeNewlines(a) + NormalizeNewlines(w)
    decreases |a|
  {
    if a == [] {
      assert a + w == w;
    } else {
      hide NormalizeNewlines;
      ConsAppend(a, w);
      NormalizeStep(a[0], a[1..] + w);
      NormalizeStep(a[0], a[1..]);
      NormalizeAppend(a[1..], w);
      Regroup([a[0]], NormalizeNewlines(a[1..]), NormalizeNewlines(w));
      if |a| > 1 {
        assert a[1..][1..] == a[2..];
        NormalizeAppend(a[2..], w);
        Regroup([LF], NormalizeNewlines(a[2..]), NormalizeNewlines(w));
      } else {
        assert a[1..] + w == w;
      }
    }
  }

  /** A CRLF anywhere becomes an LF, and what is around it is normalized by itself. */
  lemma NormalizeAround(a: Str, b: Str)
    ensures NormalizeNewlines(a + ([CR, LF] + b)) == NormalizeNewlines(a) + ([LF] + NormalizeNewlines(b))
  {
    hide NormalizeNewlines;
    NormalizeAppend(a, [CR, LF] + b);
    NormalizeStep(CR, [LF] + b);
    assert [CR] + ([LF] + b) == [CR, LF] + b && ([LF] + b)[1..] == b;
  }

  /** Text without CRLF is left alone. */
  lemma {:induction false} NormalizeKeeps(s: Str)
    requires !Has(s, [CR, LF])
    ensures NormalizeNewlines(s) == s
    decreases |s|
  {
    if s != [] {
      NormalizeKeeps(s[1..]);
      assert s == [s[0]] + s[1..];
    }
  }

  /** The result has a CRLF of its own only where a CR stood before one: replacing is done once. */
  lemma {:induction false} NormalizedHasCrlfIff(s: Str)
    ensures Has(NormalizeNewlines(s), [CR, LF]) <==> Has(s, [CR, CR, LF])
    decreases |s|
  {
    if s == [] {
    } else if [CR, LF] <= s {
      var rest := NormalizeNewlines(s[2..]);
      NormalizedHasCrlfIff(s[2..]);
      HasTail(LF, rest, [CR, LF]);
      assert s == [CR] + ([LF] + s[2..]);
      HasTail(CR, [LF] + s[2..], [CR, CR, LF]);
      HasTail(LF, s[2..], [CR, CR, LF]);
    } else {
      var rest := NormalizeNewlines(s[1..]);
      NormalizedHasCrlfIff(s[1..]);
      assert s == [s[0]] + s[1..];
      HasTail(s[0], rest, [CR, LF]);
      HasTail(s[0], s[1..], [CR, CR, LF]);
      NormalizedStarts(s[1..]);
    }
  }

  lemma HasTail(u: Unit, s: Str, w: Str)
    requires 2 <= |w|
    ensures Has([u] + s, w) <==> (w[0] == u && w[1..] <= s) || Has(s, w)
  {
    assert ([u] + s)[1..] == s;
    if w <= [u] + s { assert ([u] + s)[..|w|] == w && s[..|w| - 1] == w[1..]; }
    if w[0] == u && w[1..] <= s { assert w == [u] + w[1..]; }
  }

  lemma NormalizedStarts(s: Str)
    ensures [LF] <= NormalizeNewlines(s) <==> [LF] <= s || [CR, LF] <= s
  {
  }

  /** charCodeAt(i) under a bit mask: reading past the end counts as 0. */
  function At(t: Str, i: nat): Unit {
    if i < |t| then t[i] else 0
  }

  function TwoBytes(c: Unit, c2: Unit): Unit {
    ((c & 31) << 6) | (c2 & 63)
  }

  function ThreeBytes(c: Unit, c2: Unit, c3: Unit): Unit {
    ((c & 15) << 12) | ((c2 & 63) << 6) | (c3 & 63)
  }

  /** _utf8_decode */
  function Utf8Decode(t: Str): Str
    decreases |t|
  {
    if t == [] then []
    else
      var c := t[0];
      if c < 128 then [c] + Utf8Decode(t[1..])
      else if c > 191 && c < 224 then
        [TwoBytes(c, At(t, 1))] + Utf8Decode(Drop(t, 2))
      else
        [ThreeBytes(c, At(t, 1), At(t, 2))] + Utf8Decode(Drop(t, 3))
  }

  function Drop(t: Str, n: nat): Str {
    if n <= |t| then t[n..] else []
  }

  predicate IsByte(c: Unit) {
    c < 256
  }

  predicate AllBytes(t: Str) {
    forall i :: 0 <= i < |t| ==> IsByte(t[i])
  }

  lemma EncodeUnitBytes(c: Unit)
    ensures AllBytes(EncodeUnit(c)) && EncodeUnit(c)[0] <= 239
  {
  }

  lemma TwoByteBits(c: Unit, c1: Unit, c2: Unit)
    requires 127 < c < 2048 && c1 == (c >> 6) | 192 && c2 == (c & 63) | 128
    ensures 191 < c1 < 224 && TwoBytes(c1, c2) == c
  {
  }

  lemma ThreeByteBits(c: Unit, c1: Unit, c2: Unit, c3: Unit)
    requires c1 == (c >> 12) | 224 && c2 == ((c >> 6) & 63) | 128 && c3 == (c & 63) | 128
    ensures c1 >= 224 && ThreeBytes(c1, c2, c3) == c
  {
  }

  lemma DecodeBytes(b: Str, t: Str)
    ensures |b| == 1 && b[0] < 128 ==> Utf8Decode(b + t) == b + Utf8Decode(t)
    ensures |b| == 2 && 191 < b[0] < 224 ==>
      Utf8Decode(b + t) == [TwoBytes(b[0], b[1])] + Utf8Decode(t)
    ensures |b| == 3 && b[0] >= 224 ==>
      Utf8Decode(b + t) == [ThreeBytes(b[0], b[1], b[2])] + Utf8Decode(t)
  {
    hide TwoBytes, ThreeBytes;
    assert (b + t)[|b|..] == t;
  }

  lemma DecodeUnit(c: Unit, t: Str)
    ensures Utf8Decode(EncodeUnit(c) + t) == [c] + Utf8Decode(t)
  {
    hide Utf8Decode, TwoBytes, ThreeBytes;
    var b := EncodeUnit(c);
    DecodeBytes(b, t);
    if c < 128 {
    } else if c < 2048 {
      TwoByteBits(c, b[0], b[1]);
    } else {
      ThreeByteBits(c, b[0], b[1], b[2]);
    }
  }

  /** Every sequence of code units comes back, unpaired surrogates included. */
  lemma {:induction false} Utf8RoundTrip(s: Str)
    ensures Utf8Decode(EncodeUnits(s)) == s
  {
    if s != [] {
      DecodeUnit(s[0], EncodeUnits(s[1..]));
      Utf8RoundTrip(s[1..]);
    }
  }

  lemma {:induction false} EncodeUnitsBytes(s: Str)
    ensures AllBytes(EncodeUnits(s))
    ensures s != [] ==> EncodeUnits(s) != [] && EncodeUnits(s)[0] <= 239
  {
    if s != [] {
      EncodeUnitBytes(s[0]);
      EncodeUnitsBytes(s[1..]);
    }
  }

  // ---------- Base64 ----------

  function Enc1(b1: Unit): Unit { b1 >> 2 }
  function Enc2(b1: Unit, b2: Unit): Unit { ((b1 & 3) << 4) | (b2 >> 4) }
  function Enc3(b2: Unit, b3: Unit): Unit { ((b2 & 15) << 2) | (b3 >> 6) }
  function Enc4(b3: Unit): Unit { b3 & 63 }

  /** One round of encode: up to three bytes make four characters. */
  function EncodeGroup(t: Str): (g: string)
    requires t != []
    ensures |g| == 4
  {
    var b1, b2, b3 := t[0], At(t, 1), At(t, 2);
    var enc3 := if |t| < 2 then 64 else Enc3(b2, b3);
    var enc4 := if |t| < 3 then 64 else Enc4(b3);
    [KeyChar(Enc1(b1)), KeyChar(Enc2(b1, b2)), KeyChar(enc3), KeyChar(enc4)]
  }

  function EncodeBytes(t: Str): string
    decreases |t|
  {
    if t == [] then [] else EncodeGroup(t) + EncodeBytes(Drop(t, 3))
  }

  function Encode(s: Str): string {
    EncodeBytes(Utf8Encode(s))
  }

  /** indexOf(charAt(i)); past the end that is indexOf(""), which is 0. */
  function IndexAt(s: string, i: nat): Unit {
    if i < |s| then KeyIndex(s[i]) else 0
  }

  function Dec1(e1: Unit, e2: Unit): Unit { (e1 << 2) | (e2 >> 4) }
  function Dec2(e2: Unit, e3: Unit): Unit { ((e2 & 15) << 4) | (e3 >> 2) }
  function Dec3(e3: Unit, e4: Unit): Unit { ((e3 & 3) << 6) | e4 }

  /** One round of decode: four characters make up to three bytes. */
  function DecodeGroup(s: string): Str
    requires s != []
  {
    var e1, e2, e3, e4 := IndexAt(s, 0), IndexAt(s, 1), IndexAt(s, 2), IndexAt(s, 3);
    [Dec1(e1, e2)] + (if e3 != 64 then [Dec2(e2, e3)] else []) + (if e4 != 64 then [Dec3(e3, e4)] else [])
  }

  function DecodeChars(s: string): Str
    decreases |s|
  {
    if s == [] then [] else DecodeGroup(s) + DecodeChars(if |s| >= 4 then s[4..] else [])
  }

  /** input.replace(/[^A-Za-z0-9\+\/\=]/g, "") */
  function OnlyTableChars(s: string): string {
    if s == [] then []
    else if InAlphabet(s[0]) || s[0] == '=' then [s[0]] + OnlyTableChars(s[1..])
    else OnlyTableChars(s[1..])
  }

  function Decode(s: string): Str {
    Utf8Decode(DecodeChars(OnlyTableChars(s)))
  }

  lemma EncBounds(b1: Unit, b2: Unit, b3: Unit)
    requires IsByte(b1) && IsByte(b2) && IsByte(b3)
    ensures Enc1(b1) < 64 && Enc2(b1, b2) < 64 && Enc3(b2, b3) < 64 && Enc4(b3) < 64
  {
  }

  lemma FirstByteBits(b1: Unit, b2: Unit)
    requires IsByte(b1) && IsByte(b2)
    ensures Dec1(Enc1(b1), Enc2(b1, b2)) == b1
  {
  }

  lemma SecondByteBits(b1: Unit, b2: Unit, b3: Unit)
    requires IsByte(b1) && IsByte(b2) && IsByte(b3)
    ensures Dec2(Enc2(b1, b2), Enc3(b2, b3)) == b2
  {
  }

  lemma ThirdByteBits(b2: Unit, b3: Unit)
    requires IsByte(b2) && IsByte(b3)
    ensures Dec3(Enc3(b2, b3), Enc4(b3)) == b3
  {
  }

  /** The first three bytes of a sequence, or all of it. */
  function Group(t: Str): Str {
    if |t| <= 3 then t else t[..3]
  }

  lemma GroupRoundTrip(t: Str, rest: string)
    requires t != [] && AllBytes(t)
    ensures DecodeGroup(EncodeGroup(t) + rest) == Group(t)
    ensures forall i :: 0 <= i < 4 ==> InAlphabet(EncodeGroup(t)[i]) || EncodeGroup(t)[i] == '='
  {
    hide Enc1, Enc2, Enc3, Enc4, Dec1, Dec2, Dec3, KeyChar, KeyIndex;
    var b1, b2, b3 := t[0], At(t, 1), At(t, 2);
    EncBounds(b1, b2, b3);
    FirstByteBits(b1, b2);
    SecondByteBits(b1, b2, b3);
    ThirdByteBits(b2, b3);
    KeyRoundTrip(Enc1(b1));
    KeyRoundTrip(Enc2(b1, b2));
    KeyRoundTrip(Enc3(b2, b3));
    KeyRoundTrip(Enc4(b3));
    KeyRoundTrip(64);
  }

  lemma {:induction false} Base64RoundTrip(t: Str)
    requires AllBytes(t)
    ensures DecodeChars(EncodeBytes(t)) == t
    ensures OnlyTableChars(EncodeBytes(t)) == EncodeBytes(t)
    decreases |t|
  {
    if t != [] {
      hide DecodeGroup, EncodeGroup, InAlphabet;
      var g, rest := EncodeGroup(t), EncodeBytes(Drop(t, 3));
      GroupRoundTrip(t, rest);
      Base64RoundTrip(Drop(t, 3));
      assert (g + rest)[4..] == rest;
      assert Group(t) + Drop(t, 3) == t;
      OnlyTableCharsOfGroup(g, rest);
    }
  }

  lemma OnlyTableCharsOfGroup(g: string, rest: string)
    requires forall i :: 0 <= i < |g| ==> InAlphabet(g[i]) || g[i] == '='
    ensures OnlyTableChars(g + rest) == g + OnlyTableChars(rest)
  {
    if g == [] {
      assert g + rest == rest;
    } else {
      assert (g + rest)[1..] == g[1..] + rest;
      OnlyTableCharsOfGroup(g[1..], rest);
    }
  }

  /** decode undoes encode on every sequence of code units, up to the newlines encode rewrites. */
  lemma DecodeEncode(s: Str)
    ensures Decode(Encode(s)) == NormalizeNewlines(s)
  {
    var n := NormalizeNewlines(s);
    EncodeUnitsBytes(n);
    Base64RoundTrip(EncodeUnits(n));
    Utf8RoundTrip(n);
  }

  // ---------- the loops of the source ----------

  lemma DropMore(t: Str, i: nat, n: nat)
    ensures Drop(Drop(t, i), n) == Drop(t, i + n)
    ensures At(Drop(t, i), n) == At(t, i + n)
  {
  }

  lemma Regroup<T>(a: seq<T>, b: seq<T>, c: seq<T>)
    ensures a + (b + c) == (a + b) + c && a + [] == a
  {
  }

  lemma UnitStep(str: Str, n: nat)
    requires n < |str|
    ensures EncodeUnits(str[n..]) == EncodeUnit(str[n]) + EncodeUnits(str[n + 1..])
  {
    assert str[n..][1..] == str[n + 1..];
  }

  /** The loop body of _utf8_encode. */
  method AppendUnit(before: Str, c: Unit) returns (utftext: Str)
    ensures utftext == before + EncodeUnit(c)
  {
    utftext := before;
    if c < 128 {
      utftext := utftext + [c];
    } else if c > 127 && c < 2048 {
      utftext := utftext + [(c >> 6) | 192];
      utftext := utftext + [(c & 63) | 128];
    } else {
      utftext := utftext + [(c >> 12) | 224];
      utftext := utftext + [((c >> 6) & 63) | 128];
      utftext := utftext + [(c & 63) | 128];
    }
  }

  method Utf8EncodeLoop(s: Str) returns (utftext: Str)
    ensures utftext == Utf8Encode(s)
  {
    hide EncodeUnit;
    var str := NormalizeNewlines(s);
    utftext := [];
    var n := 0;
    ghost var rest := EncodeUnits(str);
    assert str[0..] == str && [] + rest == rest;
    while n < |str|
      invariant n <= |str| && rest == EncodeUnits(str[n..]) && utftext + rest == EncodeUnits(str)
    {
      UnitStep(str, n);
      rest := EncodeUnits(str[n + 1..]);
      Regroup(utftext, EncodeUnit(str[n]), rest);
      utftext := AppendUnit(utftext, str[n]);
      n := n + 1;
    }
    assert str[n..] == [];
    Regroup(utftext, [], []);
  }

  /** One round of _utf8_decode on what is left of the bytes. */
  lemma DecodeStep(t: Str)
    requires t != []
    ensures t[0] < 128 ==> Utf8Decode(t) == [t[0]] + Utf8Decode(Drop(t, 1))
    ensures 191 < t[0] < 224 ==> Utf8Decode(t) == [TwoBytes(t[0], At(t, 1))] + Utf8Decode(Drop(t, 2))
    ensures t[0] >= 128 && !(191 < t[0] < 224) ==>
      Utf8Decode(t) == [ThreeBytes(t[0], At(t, 1), At(t, 2))] + Utf8Decode(Drop(t, 3))
  {
    hide TwoBytes, ThreeBytes;
  }

  method Utf8DecodeLoop(utftext: Str) returns (str: Str)
    ensures str == Utf8Decode(utftext)
  {
    hide TwoBytes, ThreeBytes, Utf8Decode;
    str := [];
    var i := 0;
    ghost var t, rest := utftext, Utf8Decode(utftext);
    assert [] + rest == rest;
    while i < |utftext|
      invariant t == Drop(utftext, i) && rest == Utf8Decode(t) && str + rest == Utf8Decode(utftext)
      decreases |utftext| - i
    {
      DecodeStep(t);
      DropMore(utftext, i, 1);
      DropMore(utftext, i, 2);
      DropMore(utftext, i, 3);
      var c := utftext[i];
      var decoded: Unit;
      if c < 128 {
        decoded := c;
        i := i + 1;
      } else if c > 191 && c < 224 {
        var c2 := At(utftext, i + 1);
        decoded := TwoBytes(c, c2);
        i := i + 2;
      } else {
        var c2, c3 := At(utftext, i + 1), At(utftext, i + 2);
        decoded := ThreeBytes(c, c2, c3);
        i := i + 3;
      }
      t := Drop(utftext, i);
      rest := Utf8Decode(t);
      Regroup(str, [decoded], rest);
      str := str + [decoded];
    }
    DecodeNothing();
    Regroup(str, [], []);
  }

  lemma DecodeNothing()
    ensures Utf8Decode([]) == [] && DecodeChars([]) == [] && EncodeBytes([]) == []
  {
  }

  /** The loop body of encode. */
  method AppendGroup(before: string, input: Str, i: nat) returns (output: string)
    requires i < |input|
    ensures output == before + EncodeGroup(Drop(input, i))
  {
    hide KeyChar, Enc1, Enc2, Enc3, Enc4;
    DropMore(input, i, 1);
    DropMore(input, i, 2);
    var chr1, chr2, chr3 := input[i], At(input, i + 1), At(input, i + 2);
    var enc1, enc2, enc3, enc4 := Enc1(chr1), Enc2(chr1, chr2), Enc3(chr2, chr3), Enc4(chr3);
    if i + 1 >= |input| {
      enc3, enc4 := 64, 64;
    } else if i + 2 >= |input| {
      enc4 := 64;
    }
    output := before + [KeyChar(enc1), KeyChar(enc2), KeyChar(enc3), KeyChar(enc4)];
  }

  method EncodeLoop(s: Str) returns (output: string)
    ensures output == Encode(s)
  {
    hide EncodeGroup;
    output := [];
    var i := 0;
    var input := Utf8EncodeLoop(s);
    ghost var rest := EncodeBytes(input);
    assert [] + rest == rest;
    while i < |input|
      invariant rest == EncodeBytes(Drop(input, i)) && output + rest == EncodeBytes(input)
      decreases |input| - i
    {
      ghost var group := EncodeGroup(Drop(input, i));
      DropMore(input, i, 3);
      rest := EncodeBytes(Drop(input, i + 3));
      Regroup(output, group, rest);
      output := AppendGroup(output, input, i);
      i := i + 3;
    }
    DecodeNothing();
    Regroup(output, [], []);
  }

  function DropChars(s: string, n: nat): string {
    if n <= |s| then s[n..] else []
  }

  /** The loop body of decode. */
  method AppendDecoded(before: Str, input: string, i: nat) returns (output: Str)
    requires i < |input|
    ensures output == before + DecodeGroup(DropChars(input, i))
  {
    hide KeyIndex, Dec1, Dec2, Dec3;
    var enc1, enc2, enc3, enc4 :=
      IndexAt(input, i), IndexAt(input, i + 1), IndexAt(input, i + 2), IndexAt(input, i + 3);
    output := before + [Dec1(enc1, enc2)];
    if enc3 != 64 {
      output := output + [Dec2(enc2, enc3)];
    }
    if enc4 != 64 {
      output := output + [Dec3(enc3, enc4)];
    }
  }

  lemma CharsStep(input: string, i: nat)
    requires i < |input|
    ensures DecodeChars(DropChars(input, i)) == DecodeGroup(DropChars(input, i)) + DecodeChars(DropChars(input, i + 4))
  {
    hide DecodeGroup;
  }

  method DecodeLoop(s: string) returns (result: Str)
    ensures result == Decode(s)
  {
    hide DecodeGroup, Utf8Decode, DecodeChars;
    var output: Str := [];
    var i := 0;
    var input := OnlyTableChars(s);
    ghost var rest := DecodeChars(input);
    assert [] + rest == rest;
    while i < |input|
      invariant rest == DecodeChars(DropChars(input, i)) && output + rest == DecodeChars(input)
      decreases |input| - i
    {
      CharsStep(input, i);
      rest := DecodeChars(DropChars(input, i + 4));
      Regroup(output, DecodeGroup(DropChars(input, i)), rest);
      output := AppendDecoded(output, input, i);
      i := i + 4;
    }
    assert DropChars(input, i) == [];
    DecodeNothing();
    Regroup(output, [], []);
    result := Utf8DecodeLoop(output);
  }
}
