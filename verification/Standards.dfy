/** The encodings as the standards define them, bit by bit: Base64 (section 4 of RFC 4648) and UTF-8
    (section 3 of RFC 3629), and what the browser's codec has to do with them. */
module Standards {
  import opened CodeUnits
  import opened Base64
  import opened Options

  // ---------- RFC 4648 ----------

  function ByteBits(b: Unit): (r: seq<bool>)
    ensures |r| == 8
  {
    [b & 128 != 0, b & 64 != 0, b & 32 != 0, b & 16 != 0, b & 8 != 0, b & 4 != 0, b & 2 != 0, b & 1 != 0]
  }

  function SextetBits(e: Unit): (r: seq<bool>)
    ensures |r| == 6
  {
    [e & 32 != 0, e & 16 != 0, e & 8 != 0, e & 4 != 0, e & 2 != 0, e & 1 != 0]
  }

  function Weight(bit: bool, w: Unit): Unit {
    if bit then w else 0
  }

  function SextetOf(b5: bool, b4: bool, b3: bool, b2: bool, b1: bool, b0: bool): Unit {
    Weight(b5, 32) | Weight(b4, 16) | Weight(b3, 8) | Weight(b2, 4) | Weight(b1, 2) | Weight(b0, 1)
  }

  function OctetOf(b7: bool, b6: bool, b5: bool, b4: bool, b3: bool, b2: bool, b1: bool, b0: bool): Unit {
    Weight(b7, 128) | Weight(b6, 64) | SextetOf(b5, b4, b3, b2, b1, b0)
  }

  function Sextet(bits: seq<bool>, i: nat): Unit
    requires i + 6 <= |bits|
  {
    SextetOf(bits[i], bits[i + 1], bits[i + 2], bits[i + 3], bits[i + 4], bits[i + 5])
  }

  function Octet(bits: seq<bool>, i: nat): Unit
    requires i + 8 <= |bits|
  {
    OctetOf(bits[i], bits[i + 1], bits[i + 2], bits[i + 3], bits[i + 4], bits[i + 5], bits[i + 6], bits[i + 7])
  }

  /** Table 1: the character of a sextet ... */
  function TableChar(e: Unit): char {
    if e < 26 then ('A' as int + e as int) as char
    else if e < 52 then ('a' as int + e as int - 26) as char
    else if e < 62 then ('0' as int + e as int - 52) as char
    else if e == 62 then '+'
    else '/'
  }

  /** ... and the sextet of a character: its place in the table. */
  function TableValue(c: char): Unit {
    PlaceFrom(c, 0)
  }

  function PlaceFrom(c: char, e: Unit): Unit
    requires e < 64
    decreases 64 - e
  {
    if e == 63 || TableChar(e) == c then e else PlaceFrom(c, e + 1)
  }

  lemma UpperIsTable(e: Unit)
    requires e < 26
    ensures Upper(e) == TableChar(e)
  {
  }

  lemma LowerIsTable(e: Unit)
    requires 26 <= e < 52
    ensures Lower(e) == TableChar(e)
  {
  }

  lemma DigitIsTable(e: Unit)
    requires 52 <= e < 62
    ensures Digit(e) == TableChar(e)
  {
  }

  /** The characters of base64.js are those of the table, index by index. */
  lemma KeyCharIsTable(e: Unit)
    requires e < 64
    ensures KeyChar(e) == TableChar(e)
  {
    hide Upper, Lower, Digit, TableChar;
    if e < 26 {
      UpperIsTable(e);
    } else if e < 52 {
      LowerIsTable(e);
    } else if e < 62 {
      DigitIsTable(e);
    } else {
      LastInTable();
    }
  }

  lemma LastInTable()
    ensures TableChar(62) == '+' && TableChar(63) == '/'
  {
  }

  /** The search of base64.js finds each of its characters at its place in the table. */
  lemma KeyIndexIsTable(e: Unit)
    requires e < 64
    ensures TableValue(KeyChar(e)) == e == KeyIndex(KeyChar(e))
  {
    hide KeyChar, KeyIndex;
    KeyRoundTrip(e);
    PlaceFound(e, 0);
  }

  lemma {:induction false} PlaceFound(e: Unit, from: Unit)
    requires from <= e < 64
    ensures PlaceFrom(KeyChar(e), from) == e
    decreases 64 - from
  {
    hide KeyIndex, KeyChar, TableChar, InAlphabet;
    KeyCharIsTable(from);
    if from < e {
      KeyRoundTrip(from);
      KeyRoundTrip(e);
      PlaceFound(e, from + 1);
    }
  }

  /** Groups of 24 bits become four characters; a final group of 16 or 8 bits is filled up with zero
      bits to whole sextets and padded. */
  function Rfc4648Encode(t: Str): string
    decreases |t|
  {
    if t == [] then []
    else if |t| == 1 then
      var bits := ByteBits(t[0]) + [false, false, false, false];
      [TableChar(Sextet(bits, 0)), TableChar(Sextet(bits, 6)), '=', '=']
    else if |t| == 2 then
      var bits := ByteBits(t[0]) + ByteBits(t[1]) + [false, false];
      [TableChar(Sextet(bits, 0)), TableChar(Sextet(bits, 6)), TableChar(Sextet(bits, 12)), '=']
    else
      var bits := ByteBits(t[0]) + ByteBits(t[1]) + ByteBits(t[2]);
      [TableChar(Sextet(bits, 0)), TableChar(Sextet(bits, 6)), TableChar(Sextet(bits, 12)), TableChar(Sextet(bits, 18))]
      + Rfc4648Encode(t[3..])
  }

  lemma Sextet1(b1: Unit)
    requires IsByte(b1)
    ensures SextetOf(b1 & 128 != 0, b1 & 64 != 0, b1 & 32 != 0, b1 & 16 != 0, b1 & 8 != 0, b1 & 4 != 0) == Enc1(b1)
  {
  }

  lemma Sextet2(b1: Unit, b2: Unit)
    requires IsByte(b1) && IsByte(b2)
    ensures SextetOf(b1 & 2 != 0, b1 & 1 != 0, b2 & 128 != 0, b2 & 64 != 0, b2 & 32 != 0, b2 & 16 != 0) == Enc2(b1, b2)
  {
  }

  lemma Sextet3(b2: Unit, b3: Unit)
    requires IsByte(b2) && IsByte(b3)
    ensures SextetOf(b2 & 8 != 0, b2 & 4 != 0, b2 & 2 != 0, b2 & 1 != 0, b3 & 128 != 0, b3 & 64 != 0) == Enc3(b2, b3)
  {
  }

  lemma Sextet4(b3: Unit)
    requires IsByte(b3)
    ensures SextetOf(b3 & 32 != 0, b3 & 16 != 0, b3 & 8 != 0, b3 & 4 != 0, b3 & 2 != 0, b3 & 1 != 0) == Enc4(b3)
  {
  }

  lemma SextetsOfBytes(b1: Unit, b2: Unit, b3: Unit)
    requires IsByte(b1) && IsByte(b2) && IsByte(b3)
    ensures var bits := ByteBits(b1) + ByteBits(b2) + ByteBits(b3);
            && Sextet(bits, 0) == Enc1(b1) && Sextet(bits, 6) == Enc2(b1, b2)
            && Sextet(bits, 12) == Enc3(b2, b3) && Sextet(bits, 18) == Enc4(b3)
  {
    hide SextetOf, Enc1, Enc2, Enc3, Enc4;
    Sextet1(b1);
    Sextet2(b1, b2);
    Sextet3(b2, b3);
    Sextet4(b3);
  }

  lemma SextetsOfShortGroups(b1: Unit, b2: Unit)
    requires IsByte(b1) && IsByte(b2)
    ensures var bits := ByteBits(b1) + [false, false, false, false];
            Sextet(bits, 0) == Enc1(b1) && Sextet(bits, 6) == Enc2(b1, 0)
    ensures var bits := ByteBits(b1) + ByteBits(b2) + [false, false];
            Sextet(bits, 0) == Enc1(b1) && Sextet(bits, 6) == Enc2(b1, b2) && Sextet(bits, 12) == Enc3(b2, 0)
  {
    hide SextetOf, Enc1, Enc2, Enc3;
    Sextet1(b1);
    Sextet2(b1, 0);
    Sextet2(b1, b2);
    Sextet3(b2, 0);
  }

  lemma RfcOneByte(t: Str)
    requires |t| == 1 && AllBytes(t)
    ensures Rfc4648Encode(t) == EncodeGroup(t)
  {
    hide Sextet, Enc1, Enc2, Enc3, Enc4, ByteBits, TableChar;
    assert KeyChar(64) == '=';
    hide KeyChar;
    SextetsOfShortGroups(t[0], 0);
    GroupInTable(t[0], 0, 0);
  }

  lemma RfcTwoBytes(t: Str)
    requires |t| == 2 && AllBytes(t)
    ensures Rfc4648Encode(t) == EncodeGroup(t)
  {
    hide Sextet, Enc1, Enc2, Enc3, Enc4, ByteBits, TableChar;
    assert KeyChar(64) == '=';
    hide KeyChar;
    SextetsOfShortGroups(t[0], t[1]);
    GroupInTable(t[0], t[1], 0);
  }

  lemma RfcThreeBytes(t: Str)
    requires |t| >= 3 && AllBytes(t)
    ensures Rfc4648Encode(t) == EncodeGroup(t) + Rfc4648Encode(t[3..])
  {
    hide Sextet, Enc1, Enc2, Enc3, Enc4, ByteBits, KeyChar, TableChar;
    SextetsOfBytes(t[0], t[1], t[2]);
    GroupInTable(t[0], t[1], t[2]);
  }

  lemma GroupInTable(b1: Unit, b2: Unit, b3: Unit)
    requires IsByte(b1) && IsByte(b2) && IsByte(b3)
    ensures KeyChar(Enc1(b1)) == TableChar(Enc1(b1)) && KeyChar(Enc2(b1, b2)) == TableChar(Enc2(b1, b2))
    ensures KeyChar(Enc3(b2, b3)) == TableChar(Enc3(b2, b3)) && KeyChar(Enc4(b3)) == TableChar(Enc4(b3))
  {
    hide Enc1, Enc2, Enc3, Enc4, KeyChar, TableChar;
    EncBounds(b1, b2, b3);
    KeyCharIsTable(Enc1(b1));
    KeyCharIsTable(Enc2(b1, b2));
    KeyCharIsTable(Enc3(b2, b3));
    KeyCharIsTable(Enc4(b3));
  }

  /** encode writes the padded Base64 of its bytes. */
  lemma {:induction false} EncodeIsRfc4648(t: Str)
    requires AllBytes(t)
    ensures EncodeBytes(t) == Rfc4648Encode(t)
    decreases |t|
  {
    if |t| == 1 {
      RfcOneByte(t);
      assert EncodeBytes([]) == [];
    } else if |t| == 2 {
      RfcTwoBytes(t);
      assert EncodeBytes([]) == [];
    } else if t != [] {
      hide EncodeGroup, Rfc4648Encode;
      RfcThreeBytes(t);
      EncodeIsRfc4648(t[3..]);
    }
  }

  /** Decoding, strict about length, alphabet and padding, lenient about the filled-up bits. */
  function Rfc4648Decode(s: string): Option<Str>
    decreases |s|
  {
    if s == [] then Some([])
    else if |s| < 4 || !InAlphabet(s[0]) || !InAlphabet(s[1]) then None
    else
      var bits := SextetBits(TableValue(s[0])) + SextetBits(TableValue(s[1]))
                  + SextetBits(TableValue(s[2])) + SextetBits(TableValue(s[3]));
      if s[2..] == "==" then Some([Octet(bits, 0)])
      else if !InAlphabet(s[2]) then None
      else if s[3..] == "=" then Some([Octet(bits, 0), Octet(bits, 8)])
      else if !InAlphabet(s[3]) then None
      else match Rfc4648Decode(s[4..])
        case None => None
        case Some(rest) => Some([Octet(bits, 0), Octet(bits, 8), Octet(bits, 16)] + rest)
  }

  lemma PadIsNotInAlphabet()
    ensures !InAlphabet('=')
  {
  }

  /** How many padding characters a text ends in; more than two are no padding. */
  function Padding(s: string): nat {
    if |s| >= 2 && s[|s| - 2] == '=' && s[|s| - 1] == '=' then 2
    else if |s| >= 1 && s[|s| - 1] == '=' then 1
    else 0
  }

  /** Whole groups of four, of characters of the table up to the padding. */
  predicate IsBase64(s: string) {
    |s| % 4 == 0 && forall i :: 0 <= i < |s| - Padding(s) ==> InAlphabet(s[i])
  }

  /** Exactly the texts of that form decode. */
  lemma {:induction false} DecodesIff(s: string)
    ensures Rfc4648Decode(s).Some? <==> IsBase64(s)
    decreases |s|
  {
    hide TableValue, SextetBits, Octet;
    PadIsNotInAlphabet();
    if |s| == 4 {
      assert s[2..] == [s[2], s[3]] && s[3..] == [s[3]];
      hide InAlphabet;
      assert Rfc4648Decode(s[4..]) == Some([]);
    } else if |s| > 4 {
      hide InAlphabet;
      assert |s[2..]| > 2 && |s[3..]| > 1;
      DecodesIff(s[4..]);
      LongerIsBase64(s);
    }
  }

  lemma LongerIsBase64(s: string)
    requires |s| > 4
    ensures IsBase64(s) <==> IsBase64(s[4..]) && forall i :: 0 <= i < 4 ==> InAlphabet(s[i])
  {
    PadIsNotInAlphabet();
    hide InAlphabet;
    var r := s[4..];
    if |s| >= 8 {
      assert Padding(r) == Padding(s);
      assert forall i :: 0 <= i < |r| ==> r[i] == s[i + 4];
      assert forall i :: 4 <= i < |s| ==> s[i] == r[i - 4];
    }
  }

  lemma Octet1(e1: Unit, e2: Unit)
    requires e1 < 64 && e2 < 64
    ensures OctetOf(e1 & 32 != 0, e1 & 16 != 0, e1 & 8 != 0, e1 & 4 != 0, e1 & 2 != 0, e1 & 1 != 0,
                    e2 & 32 != 0, e2 & 16 != 0) == Dec1(e1, e2)
  {
  }

  lemma Octet2(e2: Unit, e3: Unit)
    requires e2 < 64 && e3 < 64
    ensures OctetOf(e2 & 8 != 0, e2 & 4 != 0, e2 & 2 != 0, e2 & 1 != 0,
                    e3 & 32 != 0, e3 & 16 != 0, e3 & 8 != 0, e3 & 4 != 0) == Dec2(e2, e3)
  {
  }

  lemma Octet3(e3: Unit, e4: Unit)
    requires e3 < 64 && e4 < 64
    ensures OctetOf(e3 & 2 != 0, e3 & 1 != 0, e4 & 32 != 0, e4 & 16 != 0, e4 & 8 != 0, e4 & 4 != 0,
                    e4 & 2 != 0, e4 & 1 != 0) == Dec3(e3, e4)
  {
  }

  lemma OctetsAt(p: seq<bool>, q: seq<bool>, r: seq<bool>, s: seq<bool>)
    requires |p| == |q| == |r| == |s| == 6
    ensures var bits := p + q + r + s;
            && Octet(bits, 0) == OctetOf(p[0], p[1], p[2], p[3], p[4], p[5], q[0], q[1])
            && Octet(bits, 8) == OctetOf(q[2], q[3], q[4], q[5], r[0], r[1], r[2], r[3])
            && Octet(bits, 16) == OctetOf(r[4], r[5], s[0], s[1], s[2], s[3], s[4], s[5])
  {
    hide OctetOf;
  }

  lemma OctetsOfSextets(e1: Unit, e2: Unit, e3: Unit, e4: Unit)
    requires e1 < 64 && e2 < 64
    ensures var bits := SextetBits(e1) + SextetBits(e2) + SextetBits(e3) + SextetBits(e4);
            && Octet(bits, 0) == Dec1(e1, e2)
            && (e3 < 64 ==> Octet(bits, 8) == Dec2(e2, e3))
            && (e3 < 64 && e4 < 64 ==> Octet(bits, 16) == Dec3(e3, e4))
  {
    hide OctetOf, Octet, Dec1, Dec2, Dec3;
    OctetsAt(SextetBits(e1), SextetBits(e2), SextetBits(e3), SextetBits(e4));
    Octet1(e1, e2);
    if e3 < 64 {
      Octet2(e2, e3);
      if e4 < 64 { Octet3(e3, e4); }
    }
  }

  /** What encode writes for a group, in the alphabet except for the padding. */
  lemma GroupChars(t: Str)
    requires t != [] && AllBytes(t)
    ensures var g := EncodeGroup(t);
            var e1, e2, e3, e4 := KeyIndex(g[0]), KeyIndex(g[1]), KeyIndex(g[2]), KeyIndex(g[3]);
            && InAlphabet(g[0]) && InAlphabet(g[1]) && e1 < 64 && e2 < 64
            && (if |t| < 2 then g[2] == '=' else InAlphabet(g[2]) && e3 < 64)
            && (if |t| < 3 then g[3] == '=' else InAlphabet(g[3]) && e4 < 64)
            && Dec1(e1, e2) == t[0] && (|t| >= 2 ==> Dec2(e2, e3) == t[1]) && (|t| >= 3 ==> Dec3(e3, e4) == t[2])
            && TableValue(g[0]) == e1 && TableValue(g[1]) == e2
            && (|t| >= 2 ==> TableValue(g[2]) == e3) && (|t| >= 3 ==> TableValue(g[3]) == e4)
  {
    hide Enc1, Enc2, Enc3, Enc4, Dec1, Dec2, Dec3, KeyChar, KeyIndex, TableValue;
    var b1, b2, b3 := t[0], At(t, 1), At(t, 2);
    EncBounds(b1, b2, b3);
    FirstByteBits(b1, b2);
    SecondByteBits(b1, b2, b3);
    ThirdByteBits(b2, b3);
    KeyRoundTrip(Enc1(b1));
    KeyRoundTrip(Enc2(b1, b2));
    KeyRoundTrip(Enc3(b2, b3));
    KeyRoundTrip(Enc4(b3));
    KeyRoundTrip(64);
    KeyIndexIsTable(Enc1(b1));
    KeyIndexIsTable(Enc2(b1, b2));
    KeyIndexIsTable(Enc3(b2, b3));
    KeyIndexIsTable(Enc4(b3));
  }

  lemma DecodeGroupStep(t: Str, rest: string)
    requires t != [] && AllBytes(t) && (|t| <= 3 ==> rest == [])
    ensures Rfc4648Decode(rest).Some? ==>
              Rfc4648Decode(EncodeGroup(t) + rest) == Some(Group(t) + Rfc4648Decode(rest).value)
  {
    hide Dec1, Dec2, Dec3, KeyIndex, TableValue, EncodeGroup, Octet, SextetBits, InAlphabet;
    var g := EncodeGroup(t);
    GroupChars(t);
    PadIsNotInAlphabet();
    OctetsOfSextets(TableValue(g[0]), TableValue(g[1]), TableValue(g[2]), TableValue(g[3]));
    var s := g + rest;
    assert s[4..] == rest && s[0] == g[0] && s[1] == g[1] && s[2] == g[2] && s[3] == g[3];
    if |t| == 1 {
      assert s[2..] == "==" && Group(t) + [] == [t[0]];
    } else if |t| == 2 {
      assert s[2..][0] != '=' && s[3..] == "=" && Group(t) + [] == [t[0], t[1]];
    } else {
      assert s[2..][0] != '=' && s[3..][0] != '=';
      assert Group(t) == [t[0], t[1], t[2]];
    }
  }

  /** A standard decoder gets exactly the bytes back. */
  lemma {:induction false} StandardDecoderReadsEncode(t: Str)
    requires AllBytes(t)
    ensures Rfc4648Decode(EncodeBytes(t)) == Some(t)
    decreases |t|
  {
    if t != [] {
      hide EncodeGroup, Rfc4648Decode;
      var rest := Drop(t, 3);
      StandardDecoderReadsEncode(rest);
      DecodeGroupStep(t, EncodeBytes(rest));
      assert Group(t) + rest == t;
    } else {
      assert EncodeBytes(t) == [];
    }
  }

  // ---------- RFC 3629 ----------

  predicate HighSurrogate(c: Unit) { 0xD800 <= c <= 0xDBFF }
  predicate LowSurrogate(c: Unit) { 0xDC00 <= c <= 0xDFFF }
  predicate Surrogate(c: Unit) { 0xD800 <= c <= 0xDFFF }

  predicate NoSurrogates(s: Str) {
    forall i :: 0 <= i < |s| ==> !Surrogate(s[i])
  }

  predicate Bit(c: Unit, mask: Unit) {
    c & mask != 0
  }

  /** The octets of a character of the basic plane, by the table of section 3. */
  function BasicOctets(c: Unit): Str {
    if c <= 0x7F then
      [OctetOf(false, Bit(c, 0x40), Bit(c, 0x20), Bit(c, 0x10), Bit(c, 8), Bit(c, 4), Bit(c, 2), Bit(c, 1))]
    else if c <= 0x7FF then
      [OctetOf(true, true, false, Bit(c, 0x400), Bit(c, 0x200), Bit(c, 0x100), Bit(c, 0x80), Bit(c, 0x40)),
       OctetOf(true, false, Bit(c, 0x20), Bit(c, 0x10), Bit(c, 8), Bit(c, 4), Bit(c, 2), Bit(c, 1))]
    else
      [OctetOf(true, true, true, false, Bit(c, 0x8000), Bit(c, 0x4000), Bit(c, 0x2000), Bit(c, 0x1000)),
       OctetOf(true, false, Bit(c, 0x800), Bit(c, 0x400), Bit(c, 0x200), Bit(c, 0x100), Bit(c, 0x80), Bit(c, 0x40)),
       OctetOf(true, false, Bit(c, 0x20), Bit(c, 0x10), Bit(c, 8), Bit(c, 4), Bit(c, 2), Bit(c, 1))]
  }

  /** The four octets of the character a surrogate pair stands for.  Its upper bits are those of the
      high surrogate plus 0x40, the carry of the 0x10000 by which such characters are shifted. */
  function PairOctets(high: Unit, low: Unit): Str {
    var u := (high & 0x3FF) + 0x40;
    [OctetOf(true, true, true, true, false, Bit(u, 0x400), Bit(u, 0x200), Bit(u, 0x100)),
     OctetOf(true, false, Bit(u, 0x80), Bit(u, 0x40), Bit(u, 0x20), Bit(u, 0x10), Bit(u, 8), Bit(u, 4)),
     OctetOf(true, false, Bit(u, 2), Bit(u, 1), Bit(low, 0x200), Bit(low, 0x100), Bit(low, 0x80), Bit(low, 0x40)),
     OctetOf(true, false, Bit(low, 0x20), Bit(low, 0x10), Bit(low, 8), Bit(low, 4), Bit(low, 2), Bit(low, 1))]
  }

  /** UTF-8 of a string of code units; unpaired surrogates have none. */
  function Rfc3629Encode(s: Str): Option<Str>
    decreases |s|
  {
    if s == [] then Some([])
    else if HighSurrogate(s[0]) && |s| > 1 && LowSurrogate(s[1]) then
      Prefixed(PairOctets(s[0], s[1]), Rfc3629Encode(s[2..]))
    else if Surrogate(s[0]) then None
    else Prefixed(BasicOctets(s[0]), Rfc3629Encode(s[1..]))
  }

  function Prefixed(octets: Str, rest: Option<Str>): Option<Str> {
    if rest.None? then None else Some(octets + rest.value)
  }

  lemma OneOctet(c: Unit)
    requires c <= 0x7F
    ensures BasicOctets(c) == EncodeUnit(c)
  {
  }

  lemma TwoOctets(c: Unit)
    requires 0x7F < c <= 0x7FF
    ensures BasicOctets(c) == EncodeUnit(c)
  {
    var b, r := EncodeUnit(c), BasicOctets(c);
    assert b[0] == r[0];
    assert b[1] == r[1];
  }

  lemma LeadOctet(c: Unit)
    ensures OctetOf(true, true, true, false, Bit(c, 0x8000), Bit(c, 0x4000), Bit(c, 0x2000), Bit(c, 0x1000))
            == (c >> 12) | 224
  {
  }

  lemma MiddleOctet(c: Unit)
    ensures OctetOf(true, false, Bit(c, 0x800), Bit(c, 0x400), Bit(c, 0x200), Bit(c, 0x100), Bit(c, 0x80), Bit(c, 0x40))
            == ((c >> 6) & 63) | 128
  {
  }

  lemma LastOctet(c: Unit)
    ensures OctetOf(true, false, Bit(c, 0x20), Bit(c, 0x10), Bit(c, 8), Bit(c, 4), Bit(c, 2), Bit(c, 1))
            == (c & 63) | 128
  {
  }

  lemma ThreeOctets(c: Unit)
    requires 0x7FF < c
    ensures BasicOctets(c) == EncodeUnit(c)
  {
    hide OctetOf, Bit;
    LeadOctet(c);
    MiddleOctet(c);
    LastOctet(c);
  }

  lemma BasicOctetsAreEncodeUnit(c: Unit)
    ensures BasicOctets(c) == EncodeUnit(c)
  {
    if c <= 0x7F { OneOctet(c); } else if c <= 0x7FF { TwoOctets(c); } else { ThreeOctets(c); }
  }

  /** Half a pair starts like a three-octet character, a pair like a four-octet one. */
  lemma SurrogatesDiffer(high: Unit, low: Unit)
    requires HighSurrogate(high)
    ensures EncodeUnit(high)[0] != PairOctets(high, low)[0]
  {
    assert EncodeUnit(high)[0] & 0x10 == 0;
    assert PairOctets(high, low)[0] & 0x10 != 0;
  }

  /** The browser's UTF-8 is the standard one exactly for strings without surrogates: characters
      outside the basic plane go out as two three-byte halves instead of four bytes. */
  lemma {:induction false} Utf8IsRfc3629(s: Str)
    ensures Rfc3629Encode(s) == Some(EncodeUnits(s)) <==> NoSurrogates(s)
    decreases |s|
  {
    if s != [] {
      hide BasicOctets, EncodeUnit, PairOctets;
      var c, t := s[0], s[1..];
      assert s == [c] + t;
      if !Surrogate(c) {
        assert !HighSurrogate(c);
        BasicOctetsAreEncodeUnit(c);
        Utf8IsRfc3629(t);
        assert NoSurrogates(s) <==> NoSurrogates(t);
        if Rfc3629Encode(s) == Some(EncodeUnits(s)) {
          SamePrefix(EncodeUnit(c), Rfc3629Encode(t).value, EncodeUnits(t));
        }
      } else if HighSurrogate(c) && |s| > 1 && LowSurrogate(s[1]) {
        SurrogatesDiffer(c, s[1]);
        PairStarts(c, s[1]);
        assert EncodeUnits(s)[0] == EncodeUnit(c)[0];
      }
    }
  }

  lemma PairStarts(high: Unit, low: Unit)
    ensures |PairOctets(high, low)| == 4
  {
  }

  lemma SamePrefix(a: Str, x: Str, y: Str)
    ensures a + x == a + y <==> x == y
  {
    assert (a + x)[|a|..] == x && (a + y)[|a|..] == y;
  }

  lemma {:induction false} NormalizeKeepsSurrogates(s: Str)
    ensures NoSurrogates(NormalizeNewlines(s)) <==> NoSurrogates(s)
    decreases |s|
  {
    if s == [] {
    } else if [CR, LF] <= s {
      var t := s[2..];
      NormalizeKeepsSurrogates(t);
      assert s == [CR, LF] + t;
      NoSurrogatesAppend([CR, LF], t);
      NoSurrogatesAppend([LF], NormalizeNewlines(t));
    } else {
      var t := s[1..];
      NormalizeKeepsSurrogates(t);
      assert s == [s[0]] + t;
      NoSurrogatesAppend([s[0]], t);
      NoSurrogatesAppend([s[0]], NormalizeNewlines(t));
    }
  }

  lemma NoSurrogatesAppend(a: Str, b: Str)
    ensures NoSurrogates(a + b) <==> NoSurrogates(a) && NoSurrogates(b)
  {
    assert forall i :: 0 <= i < |a| ==> a[i] == (a + b)[i];
    assert forall i :: 0 <= i < |b| ==> b[i] == (a + b)[|a| + i];
  }

  /** The browser's encode, end to end, in terms of the standards. */
  lemma EncodeIsStandard(s: Str)
    ensures Rfc3629Encode(NormalizeNewlines(s)) == Some(Utf8Encode(s)) <==> NoSurrogates(s)
    ensures Encode(s) == Rfc4648Encode(Utf8Encode(s)) && Rfc4648Decode(Encode(s)) == Some(Utf8Encode(s))
  {
    var n := NormalizeNewlines(s);
    Utf8IsRfc3629(n);
    NormalizeKeepsSurrogates(s);
    EncodeUnitsBytes(n);
    EncodeIsRfc4648(EncodeUnits(n));
    StandardDecoderReadsEncode(EncodeUnits(n));
  }
}
