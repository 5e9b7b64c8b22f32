/** JSON string literals over UTF-16 code units, as the QuoteJSONString operation of ECMA-262 writes them. */
module JsonText {
  import opened Ordering
  import opened Wrappers

  const QUOTE: CodeUnit := 0x22
  const BACKSLASH: CodeUnit := 0x5C
  const LETTER_U: CodeUnit := 0x75

  predicate Leading(u: CodeUnit) {
    0xD800 <= u <= 0xDBFF
  }

  predicate Trailing(u: CodeUnit) {
    0xDC00 <= u <= 0xDFFF
  }

  function HexDigit(n: nat): CodeUnit
    requires n < 16
  {
    if n < 10 then 0x30 + n else 0x57 + n
  }

  /** Four lower-case hexadecimal digits. */
  function Hex(u: CodeUnit): Text {
    var n: int := u;
    [HexDigit(n / 4096), HexDigit(n / 256 % 16), HexDigit(n / 16 % 16), HexDigit(n % 16)]
  }

  /** The letter of a two-unit escape, or zero when the unit has none. */
  function ShortEscape(u: CodeUnit): CodeUnit {
    if u == QUOTE || u == BACKSLASH then u
    else if u == 0x08 then 0x62
    else if u == 0x09 then 0x74
    else if u == 0x0A then 0x6E
    else if u == 0x0C then 0x66
    else if u == 0x0D then 0x72
    else 0
  }

  /** One unit that is not part of a surrogate pair. */
  function Escape(u: CodeUnit): Text {
    if ShortEscape(u) != 0 then [BACKSLASH, ShortEscape(u)]
    else if u < 0x20 || Leading(u) || Trailing(u) then [BACKSLASH, LETTER_U] + Hex(u)
    else [u]
  }

  predicate StartsPair(s: Text) {
    |s| > 1 && Leading(s[0]) && Trailing(s[1])
  }

  function Escaped(s: Text): Text {
    if s == [] then []
    else if StartsPair(s) then s[..2] + Escaped(s[2..])
    else Escape(s[0]) + Escaped(s[1..])
  }

  function Quoted(s: Text): Text {
    [QUOTE] + Escaped(s) + [QUOTE]
  }

  // ----- Reading, by the string grammar of RFC 8259, section 7 -----

  predicate IsHex(d: CodeUnit) {
    '0' as int <= d <= '9' as int || 'a' as int <= d <= 'f' as int || 'A' as int <= d <= 'F' as int
  }

  function HexValue(d: CodeUnit): (n: nat)
    requires IsHex(d)
    ensures n < 16
  {
    if d <= '9' as int then d - '0' as int
    else if d <= 'F' as int then d - 'A' as int + 10
    else d - 'a' as int + 10
  }

  predicate AllHex(digits: Text) {
    |digits| == 4 && IsHex(digits[0]) && IsHex(digits[1]) && IsHex(digits[2]) && IsHex(digits[3])
  }

  function HexUnit(digits: Text): CodeUnit
    requires AllHex(digits)
  {
    HexValue(digits[0]) * 4096 + HexValue(digits[1]) * 256 + HexValue(digits[2]) * 16 + HexValue(digits[3])
  }

  /** What the letter after a backslash stands for. */
  function LetterUnit(letter: CodeUnit): Option<CodeUnit> {
    if letter == '\"' as int || letter == '\\' as int || letter == '/' as int then Some(letter)
    else if letter == 'b' as int then Some(0x08)
    else if letter == 't' as int then Some(0x09)
    else if letter == 'n' as int then Some(0x0A)
    else if letter == 'f' as int then Some(0x0C)
    else if letter == 'r' as int then Some(0x0D)
    else None
  }

  /** One unit of a string at the front of a text and what follows it; control units must be escaped. */
  function ReadUnit(text: Text): (r: Option<(CodeUnit, Text)>)
    ensures r.Some? ==> |r.value.1| < |text|
  {
    if text == [] || text[0] == '\"' as int || text[0] < 0x20 then None
    else if text[0] != '\\' as int then Some((text[0], text[1..]))
    else if |text| < 2 then None
    else if text[1] != 'u' as int then
      (if LetterUnit(text[1]).Some? then Some((LetterUnit(text[1]).value, text[2..])) else None)
    else if |text| < 6 || !AllHex(text[2..6]) then None
    else Some((HexUnit(text[2..6]), text[6..]))
  }

  /** A string after its opening quote, read to the closing quote, and what follows that. */
  function ReadString(text: Text): (r: Option<(Text, Text)>)
    ensures r.Some? ==> |r.value.1| < |text|
  {
    if text != [] && text[0] == '\"' as int then Some(([], text[1..]))
    else
      var unit := ReadUnit(text);
      if unit.None? then None
      else
        var rest := ReadString(unit.value.1);
        if rest.None? then None else Some(([unit.value.0] + rest.value.0, rest.value.1))
  }

  // ----- What is quoted reads back -----

  lemma Base16(n: int)
    ensures n == n / 4096 * 4096 + n / 256 % 16 * 256 + n / 16 % 16 * 16 + n % 16
  {
    assert n / 16 / 16 == n / 256;
    assert n / 256 / 16 == n / 4096;
  }

  lemma HexDigitReads(n: nat)
    requires n < 16
    ensures IsHex(HexDigit(n)) && HexValue(HexDigit(n)) == n
  {
  }

  /** Four digits, none an upper-case letter, that read back. */
  lemma HexReads(u: CodeUnit)
    ensures AllHex(Hex(u)) && HexUnit(Hex(u)) == u
    ensures forall i :: 0 <= i < 4 ==> !('A' as int <= Hex(u)[i] <= 'F' as int)
  {
    var n: int := u;
    HexDigitReads(n / 4096);
    HexDigitReads(n / 256 % 16);
    HexDigitReads(n / 16 % 16);
    HexDigitReads(n % 16);
    Base16(n);
  }

  lemma EscapeReads(u: CodeUnit, r: Text)
    ensures ReadUnit(Escape(u) + r) == Some((u, r))
  {
    var text := Escape(u) + r;
    if |Escape(u)| == 6 {
      HexReads(u);
      assert text[0] == BACKSLASH && text[1] == LETTER_U && text[2..6] == Hex(u) && text[6..] == r;
    } else {
      assert text[|Escape(u)|..] == r;
    }
  }

  lemma PairReads(s: Text, r: Text)
    requires StartsPair(s)
    ensures ReadUnit(s[..2] + r) == Some((s[0], [s[1]] + r)) && ReadUnit([s[1]] + r) == Some((s[1], r))
  {
    assert (s[..2] + r)[1..] == [s[1]] + r && ([s[1]] + r)[1..] == r;
  }

  function Closed(s: Text, r: Text): Text {
    Escaped(s) + [QUOTE] + r
  }

  lemma ClosedStep(s: Text, r: Text)
    requires s != []
    ensures StartsPair(s) ==> Closed(s, r) == s[..2] + Closed(s[2..], r)
    ensures !StartsPair(s) ==> Closed(s, r) == Escape(s[0]) + Closed(s[1..], r)
  {
  }

  /** A unit and a string read after it. */
  lemma UnitThenString(text: Text, u: CodeUnit, rest: Text, s: Text, r: Text)
    requires ReadUnit(text) == Some((u, rest)) && ReadString(rest) == Some((s, r))
    ensures ReadString(text) == Some(([u] + s, r))
  {
  }

  lemma {:induction false} ClosedReads(s: Text, r: Text)
    ensures ReadString(Closed(s, r)) == Some((s, r))
  {
    if s == [] {
      assert Closed(s, r) == [QUOTE] + r && ([QUOTE] + r)[1..] == r;
    } else {
      ClosedStep(s, r);
      if StartsPair(s) {
        var rest := Closed(s[2..], r);
        PairReads(s, rest);
        ClosedReads(s[2..], r);
        UnitThenString([s[1]] + rest, s[1], rest, s[2..], r);
        UnitThenString(s[..2] + rest, s[0], [s[1]] + rest, [s[1]] + s[2..], r);
        assert [s[0]] + ([s[1]] + s[2..]) == s;
      } else {
        var rest := Closed(s[1..], r);
        EscapeReads(s[0], rest);
        ClosedReads(s[1..], r);
        UnitThenString(Escape(s[0]) + rest, s[0], rest, s[1..], r);
        assert [s[0]] + s[1..] == s;
      }
    }
  }

  /** A quoted string, whatever follows it, is read back. */
  lemma QuotedReadsBack(s: Text, r: Text)
    ensures |Quoted(s) + r| > 0 && (Quoted(s) + r)[0] == '\"' as int
    ensures ReadString((Quoted(s) + r)[1..]) == Some((s, r))
  {
    ClosedReads(s, r);
    assert (Quoted(s) + r)[1..] == Closed(s, r);
  }

  /** A quoted string followed by anything determines the string and what follows. */
  lemma QuotedInjective(s: Text, t: Text, r: Text, q: Text)
    requires Quoted(s) + r == Quoted(t) + q
    ensures s == t && r == q
  {
    QuotedReadsBack(s, r);
    QuotedReadsBack(t, q);
  }

  // ----- Nothing is escaped without need -----

  /** Every leading surrogate is followed by a trailing one, and no trailing one stands elsewhere. */
  predicate PairedUp(text: Text) {
    if text == [] then true
    else if StartsPair(text) then PairedUp(text[2..])
    else !Leading(text[0]) && !Trailing(text[0]) && PairedUp(text[1..])
  }

  lemma {:induction false} PairedUpDrop(text: Text, k: nat)
    requires PairedUp(text) && k <= |text| && forall i :: 0 <= i < k ==> !Leading(text[i])
    ensures PairedUp(text[k..])
  {
    if k > 0 {
      PairedUpDrop(text[1..], k - 1);
      assert text[1..][k - 1..] == text[k..];
    }
  }

  lemma {:induction false} PairedUpJoin(a: Text, b: Text)
    requires PairedUp(a) && PairedUp(b)
    ensures PairedUp(a + b)
  {
    if a == [] {
      assert a + b == b;
    } else if StartsPair(a) {
      PairedUpJoin(a[2..], b);
      assert (a + b)[2..] == a[2..] + b;
    } else {
      PairedUpJoin(a[1..], b);
      assert (a + b)[1..] == a[1..] + b;
    }
  }

  lemma {:induction false} PlainUnitsPairUp(text: Text)
    requires forall i :: 0 <= i < |text| ==> !Leading(text[i]) && !Trailing(text[i])
    ensures PairedUp(text)
  {
    if text != [] {
      PlainUnitsPairUp(text[1..]);
    }
  }

  /** Whatever string is quoted, the text has no lone surrogate. */
  lemma {:induction false} EscapedPairsUp(s: Text)
    ensures PairedUp(Escaped(s))
  {
    if s != [] {
      if StartsPair(s) {
        EscapedPairsUp(s[2..]);
        assert (s[..2] + Escaped(s[2..]))[2..] == Escaped(s[2..]);
      } else {
        EscapedPairsUp(s[1..]);
        PlainUnitsPairUp(Escape(s[0]));
        PairedUpJoin(Escape(s[0]), Escaped(s[1..]));
      }
    }
  }

  /** A unit takes what is read of it, and is spelled no shorter than it is escaped unless it stands raw. */
  lemma UnitLength(text: Text)
    requires ReadUnit(text).Some? && text != []
    ensures (ReadUnit(text).value.0 == text[0] && ReadUnit(text).value.1 == text[1..])
      || |Escape(ReadUnit(text).value.0)| + |ReadUnit(text).value.1| <= |text|
  {
  }

  lemma RawUnit(u: CodeUnit)
    requires u >= 0x20 && u != QUOTE && u != BACKSLASH && !Leading(u) && !Trailing(u)
    ensures Escape(u) == [u]
  {
  }

  lemma UnitStays(text: Text)
    requires PairedUp(text) && !StartsPair(text) && ReadUnit(text).Some?
    ensures PairedUp(ReadUnit(text).value.1)
  {
    var rest := ReadUnit(text).value.1;
    assert rest == text[|text| - |rest|..];
    PairedUpDrop(text, |text| - |rest|);
  }

  /** Outside a pair, no unit is spelled shorter than it is escaped. */
  lemma UnitIsShortest(text: Text)
    requires PairedUp(text) && !StartsPair(text) && ReadUnit(text).Some?
    ensures |Escape(ReadUnit(text).value.0)| + |ReadUnit(text).value.1| <= |text|
  {
    UnitLength(text);
    if ReadUnit(text).value.0 == text[0] && text[0] != BACKSLASH {
      RawUnit(text[0]);
    }
  }

  lemma StringStep(text: Text, s: Text, r: Text)
    requires ReadString(text) == Some((s, r)) && text != [] && text[0] != QUOTE
    ensures ReadUnit(text).Some? && s != [] && s[0] == ReadUnit(text).value.0
    ensures ReadString(ReadUnit(text).value.1) == Some((s[1..], r))
  {
  }

  lemma PairRead(text: Text)
    requires StartsPair(text)
    ensures ReadUnit(text) == Some((text[0], text[1..])) && ReadUnit(text[1..]) == Some((text[1], text[2..]))
  {
    assert text[1..][0] == text[1] && text[1..][1..] == text[2..];
  }

  lemma LoneSplits(s: Text)
    requires s != []
    ensures |Escaped(s)| <= |Escape(s[0])| + |Escaped(s[1..])|
  {
    if StartsPair(s) {
      assert s[1..][1..] == s[2..];
    }
  }

  /** Of all texts without lone surrogates from which the string is read, the escaped one is a shortest. */
  lemma {:induction false} EscapedIsShortest(s: Text, text: Text, r: Text)
    requires PairedUp(text) && ReadString(text) == Some((s, r))
    ensures |Escaped(s)| + 1 + |r| <= |text|
    decreases |text|
  {
    if text[0] != QUOTE {
      StringStep(text, s, r);
      if StartsPair(text) {
        PairRead(text);
        StringStep(text[1..], s[1..], r);
        assert s[1..][1..] == s[2..] && s[1..][0] == s[1];
        EscapedIsShortest(s[2..], text[2..], r);
      } else {
        UnitIsShortest(text);
        UnitStays(text);
        EscapedIsShortest(s[1..], ReadUnit(text).value.1, r);
        LoneSplits(s);
      }
    }
  }
}
