/** The text form of decimals: a strict grammar, and the round trip between texts and decimals. */
module DecimalText {
  import opened Wrappers
  import opened Rounding
  import opened Decimal
  import opened Ordering
  import opened Digits

  const MINUS: CodeUnit := 0x2D
  const DOT: CodeUnit := 0x2E

  datatype Fault = NotADecimal | TooManyFractionDigits | TooManyDigits

  /** Where the first dot stands, or the end of the text. */
  function DotIndex(text: Text): (i: nat)
    ensures i <= |text| && (i < |text| ==> text[i] == DOT)
    ensures forall j :: 0 <= j < i ==> text[j] != DOT
  {
    if text == [] || text[0] == DOT then 0 else 1 + DotIndex(text[1..])
  }

  function Unsigned(text: Text): Text {
    if text != [] && text[0] == MINUS then text[1..] else text
  }

  function Whole(text: Text): Text {
    Unsigned(text)[..DotIndex(Unsigned(text))]
  }

  function Fraction(text: Text): Text {
    var rest, dot := Unsigned(text), DotIndex(Unsigned(text));
    if dot < |rest| then rest[dot + 1..] else []
  }

  /** An optional minus, canonical whole digits, and optionally a dot with at least one digit after it. */
  predicate Matches(text: Text) {
    && Canonical(Whole(text))
    && AllDigits(Fraction(text))
    && (DotIndex(Unsigned(text)) < |Unsigned(text)| ==> Fraction(text) != [])
  }

  function Parse(text: Text): Result<Decimal, Fault> {
    if !Matches(text) then Err(NotADecimal) else Read(text[0] == MINUS, Whole(text), Fraction(text))
  }

  /** The decimal with these whole and fraction digits. */
  function Read(negative: bool, whole: Text, fraction: Text): Result<Decimal, Fault>
    requires Canonical(whole) && AllDigits(fraction)
  {
    StripIsCanonical(whole + fraction);
    var digits := Strip(whole + fraction);
    if |fraction| > MAX_SCALE then Err(TooManyFractionDigits)
    else if |digits| > MAX_PRECISION then Err(TooManyDigits)
    else Ok(Decimal(if negative then 0 - Number(digits) else Number(digits), |fraction|))
  }

  function Assemble(negative: bool, whole: Text, fraction: Text): Text {
    (if negative then [MINUS] else []) + whole + (if fraction == [] then [] else [DOT] + fraction)
  }

  /** At least one digit more than the scale. */
  function PaddedDigits(d: Decimal): (digits: Text)
    ensures |digits| > d.scale
  {
    PadLength(DigitsOf(Abs(d.units)), d.scale + 1);
    Pad(DigitsOf(Abs(d.units)), d.scale + 1)
  }

  function Print(d: Decimal): Text {
    var digits := PaddedDigits(d);
    Assemble(d.units < 0, digits[..|digits| - d.scale], digits[|digits| - d.scale..])
  }

  lemma {:induction false} PadLength(text: Text, width: nat)
    ensures |Pad(text, width)| == if |text| < width then width else |text|
    decreases width - |text|
  {
    if |text| < width {
      PadLength([ZERO] + text, width);
    }
  }

  // ----- A text made of its pieces reads back as those pieces -----

  lemma {:induction false} DotAfter(whole: Text, tail: Text)
    requires AllDigits(whole) && (tail == [] || tail[0] == DOT)
    ensures DotIndex(whole + tail) == |whole|
  {
    if whole == [] {
      assert whole + tail == tail;
    } else {
      assert IsDigit(whole[0]) && (whole + tail)[0] == whole[0];
      assert (whole + tail)[1..] == whole[1..] + tail;
      DotAfter(whole[1..], tail);
    }
  }

  function Tail(fraction: Text): Text {
    if fraction == [] then [] else [DOT] + fraction
  }

  lemma UnsignedAssembled(negative: bool, whole: Text, fraction: Text, text: Text)
    requires Canonical(whole) && text == Assemble(negative, whole, fraction)
    ensures text != [] && (text[0] == MINUS <==> negative) && Unsigned(text) == whole + Tail(fraction)
  {
    assert IsDigit(whole[0]);
    assert text[0] == if negative then MINUS else whole[0];
  }

  lemma Assembled(negative: bool, whole: Text, fraction: Text, text: Text)
    requires Canonical(whole) && AllDigits(fraction) && text == Assemble(negative, whole, fraction)
    ensures Matches(text) && Whole(text) == whole && Fraction(text) == fraction && (text[0] == MINUS <==> negative)
  {
    UnsignedAssembled(negative, whole, fraction, text);
    var tail := Tail(fraction);
    DotAfter(whole, tail);
    assert (whole + tail)[..|whole|] == whole;
    assert fraction != [] ==> (whole + tail)[|whole| + 1..] == fraction;
  }

  lemma SplitAtDot(rest: Text, dot: nat)
    requires dot < |rest| && rest[dot] == DOT
    ensures rest == rest[..dot] + ([DOT] + rest[dot + 1..])
  {
  }

  lemma UnsignedDisassembled(text: Text)
    requires Matches(text)
    ensures Unsigned(text) == Whole(text) + Tail(Fraction(text))
  {
    var rest, dot := Unsigned(text), DotIndex(Unsigned(text));
    if dot < |rest| {
      SplitAtDot(rest, dot);
    }
  }

  lemma SignedText(text: Text, rest: Text)
    requires text != [] && rest == Unsigned(text)
    ensures text == (if text[0] == MINUS then [MINUS] else []) + rest
  {
  }

  lemma AssembleTail(negative: bool, whole: Text, fraction: Text)
    ensures Assemble(negative, whole, fraction) == (if negative then [MINUS] else []) + (whole + Tail(fraction))
  {
  }

  // ----- The round trips -----

  lemma PaddedParts(d: Decimal, whole: Text, fraction: Text)
    requires whole == PaddedDigits(d)[..|PaddedDigits(d)| - d.scale] && fraction == PaddedDigits(d)[|PaddedDigits(d)| - d.scale..]
    ensures whole + fraction == PaddedDigits(d) && Canonical(whole) && AllDigits(fraction) && |fraction| == d.scale
    ensures Strip(whole + fraction) == DigitsOf(Abs(d.units))
  {
    NumberOfDigits(Abs(d.units));
    StripPad(DigitsOf(Abs(d.units)), d.scale + 1);
    assert whole + fraction == PaddedDigits(d);
  }

  /** Every representable decimal is printed as a text that parses back to it, scale included. */
  lemma ParsePrint(d: Decimal)
    requires Representable(d)
    ensures Parse(Print(d)) == Ok(d)
  {
    var digits := PaddedDigits(d);
    var whole, fraction := digits[..|digits| - d.scale], digits[|digits| - d.scale..];
    PaddedParts(d, whole, fraction);
    Assembled(d.units < 0, whole, fraction, Print(d));
    ReadBack(d, whole, fraction);
  }

  lemma ReadBack(d: Decimal, whole: Text, fraction: Text)
    requires Representable(d) && Canonical(whole) && AllDigits(fraction) && |fraction| == d.scale
    requires Strip(whole + fraction) == DigitsOf(Abs(d.units))
    ensures Read(d.units < 0, whole, fraction) == Ok(d)
  {
    NumberOfDigits(Abs(d.units));
  }

  lemma PadRestores(whole: Text, fraction: Text)
    requires Canonical(whole) && AllDigits(fraction)
    ensures Pad(Strip(whole + fraction), |fraction| + 1) == whole + fraction
  {
    if |whole| == 1 {
      PadStrip(whole + fraction);
    } else {
      StripIsCanonical(whole + fraction);
    }
  }

  lemma StrippedDigits(text: Text, n: nat)
    requires AllDigits(text) && text != [] && AllDigits(Strip(text)) && n == Number(Strip(text))
    ensures DigitsOf(n) == Strip(text) && DigitCount(n) == |Strip(text)|
  {
    StripIsCanonical(text);
    DigitsOfNumber(Strip(text));
    NumberOfDigits(n);
  }

  lemma ReadDigits(negative: bool, whole: Text, fraction: Text, d: Decimal)
    requires Canonical(whole) && AllDigits(fraction) && Read(negative, whole, fraction) == Ok(d)
    ensures Representable(d) && d.scale == |fraction| && PaddedDigits(d) == whole + fraction
    ensures d.units < 0 <==> negative && d.units != 0
  {
    StripIsCanonical(whole + fraction);
    StrippedDigits(whole + fraction, Number(Strip(whole + fraction)));
    PadRestores(whole, fraction);
  }

  lemma PrintedAs(d: Decimal, whole: Text, fraction: Text)
    requires PaddedDigits(d) == whole + fraction && d.scale == |fraction|
    ensures Print(d) == Assemble(d.units < 0, whole, fraction)
  {
    var digits := PaddedDigits(d);
    assert digits[..|digits| - d.scale] == whole && digits[|digits| - d.scale..] == fraction;
  }

  lemma SignedOrNot(text: Text, rest: Text, printed: Text, negative: bool)
    requires text != [] && rest == Unsigned(text) && printed == (if negative then [MINUS] else []) + rest
    requires negative ==> text[0] == MINUS
    ensures printed == if !negative && text[0] == MINUS then text[1..] else text
  {
    SignedText(text, rest);
  }

  /** Every accepted text is printed back unchanged, except that a zero loses its minus sign. */
  lemma PrintParse(text: Text, d: Decimal)
    requires Parse(text) == Ok(d)
    ensures Representable(d)
    ensures text != [] && Print(d) == if d.units == 0 && text[0] == MINUS then text[1..] else text
  {
    var whole, fraction := Whole(text), Fraction(text);
    ReadDigits(text[0] == MINUS, whole, fraction, d);
    UnsignedDisassembled(text);
    PrintedAs(d, whole, fraction);
    AssembleTail(d.units < 0, whole, fraction);
    SignedOrNot(text, Unsigned(text), Print(d), d.units < 0);
  }

  // ----- What is accepted -----

  /** The text is a minus or none, whole digits without a superfluous zero, and a point with digits or neither. */
  predicate Spells(text: Text, negative: bool, whole: Text, fraction: Text) {
    && text == (if negative then ['-' as int] else []) + whole + (if fraction == [] then [] else ['.' as int] + fraction)
    && AllDigits(whole) && AllDigits(fraction) && whole != [] && (|whole| > 1 ==> whole[0] != '0' as int)
  }

  lemma SpelledPieces(text: Text)
    requires Matches(text)
    ensures text != [] && Spells(text, text[0] == MINUS, Whole(text), Fraction(text))
  {
    UnsignedDisassembled(text);
    SignedText(text, Unsigned(text));
    AssembleTail(text[0] == MINUS, Whole(text), Fraction(text));
  }

  lemma MatchesSpelled(text: Text, negative: bool, whole: Text, fraction: Text)
    requires Spells(text, negative, whole, fraction)
    ensures Matches(text) && Whole(text) == whole && Fraction(text) == fraction && (text[0] == MINUS <==> negative)
  {
    Assembled(negative, whole, fraction, text);
  }

  lemma StrippedNumber(whole: Text, fraction: Text)
    requires AllDigits(whole + fraction) && whole != []
    ensures AllDigits(Strip(whole + fraction)) && Strip(whole + fraction) != []
    ensures Number(Strip(whole + fraction)) == Number(whole + fraction)
    ensures |Strip(whole + fraction)| <= 38 <==> Number(whole + fraction) < Pow10(38)
  {
    var digits := whole + fraction;
    StripIsCanonical(digits);
    StripKeepsNumber(digits);
    StrippedDigits(digits, Number(Strip(digits)));
    DigitCountFits(Number(digits), 38);
  }

  /** Of the texts of the grammar, those are refused that need more than 18 fraction digits or 38 digits. */
  predicate ReadsAs(parsed: Result<Decimal, Fault>, negative: bool, whole: Text, fraction: Text)
    requires AllDigits(whole) && AllDigits(fraction)
  {
    NumberJoins(whole, fraction);
    var n := Number(whole) * Pow10(|fraction|) + Number(fraction);
    parsed == if |fraction| > 18 then Err(TooManyFractionDigits)
              else if n >= Pow10(38) then Err(TooManyDigits)
              else Ok(Decimal(if negative then -n else n, |fraction|))
  }

  /** What a text of the grammar is read as, and that no other text is read. */
  lemma ParsesExactly(text: Text)
    ensures forall negative, whole, fraction :: Spells(text, negative, whole, fraction) ==> ReadsAs(Parse(text), negative, whole, fraction)
    ensures Parse(text) == Err(NotADecimal) <==> !exists negative, whole, fraction :: Spells(text, negative, whole, fraction)
  {
    forall negative, whole, fraction | Spells(text, negative, whole, fraction)
      ensures ReadsAs(Parse(text), negative, whole, fraction) && Matches(text)
    {
      MatchesSpelled(text, negative, whole, fraction);
      ReadsSpelled(negative, whole, fraction);
    }
    if Matches(text) {
      SpelledPieces(text);
    }
  }

  lemma ReadsSpelled(negative: bool, whole: Text, fraction: Text)
    requires Canonical(whole) && AllDigits(fraction)
    ensures ReadsAs(Read(negative, whole, fraction), negative, whole, fraction)
  {
    NumberJoins(whole, fraction);
    StrippedNumber(whole, fraction);
  }
}
