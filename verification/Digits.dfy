/** Decimal digits as text, and the number a text of digits stands for. */
module Digits {
  import opened Ordering
  import opened Decimal

  const ZERO: CodeUnit := 0x30

  predicate IsDigit(u: CodeUnit) {
    0x30 <= u <= 0x39
  }

  predicate AllDigits(text: Text) {
    forall i :: 0 <= i < |text| ==> IsDigit(text[i])
  }

  function DigitValue(u: CodeUnit): nat
    requires IsDigit(u)
  {
    (u as int) - 0x30
  }

  function Number(text: Text): nat
    requires AllDigits(text)
  {
    if text == [] then 0 else Number(text[..|text| - 1]) * 10 + DigitValue(text[|text| - 1])
  }

  lemma OneDigit(u: CodeUnit)
    requires IsDigit(u)
    ensures AllDigits([u]) && Number([u]) == u - '0' as int
  {
    assert [u][..0] == [];
  }

  /** Digits weigh by their place: the first text counts ten to the length of the second times over. */
  lemma {:induction false} NumberJoins(a: Text, b: Text)
    requires AllDigits(a) && AllDigits(b)
    ensures AllDigits(a + b) && Number(a + b) == Number(a) * Pow10(|b|) + Number(b)
    decreases |b|
  {
    if b == [] {
      assert a + b == a;
    } else {
      var front, last := b[..|b| - 1], DigitValue(b[|b| - 1]);
      NumberJoins(a, front);
      assert (a + b)[..|a + b| - 1] == a + front;
      TenTimes(Number(a), Pow10(|front|), Number(front), last);
    }
  }

  lemma TenTimes(n: nat, p: nat, m: nat, d: nat)
    ensures (n * p + m) * 10 + d == n * (10 * p) + (m * 10 + d)
  {
  }

  /** Digits with no superfluous zero in front. */
  predicate Canonical(text: Text) {
    AllDigits(text) && text != [] && (|text| == 1 || text[0] != ZERO)
  }

  function DigitsOf(n: nat): Text {
    if n < 10 then [ZERO + n] else DigitsOf(n / 10) + [ZERO + n % 10]
  }

  /** The digits of a number are canonical, as many as it has, and stand for it. */
  lemma {:induction false} NumberOfDigits(n: nat)
    ensures Canonical(DigitsOf(n)) && Number(DigitsOf(n)) == n && |DigitsOf(n)| == DigitCount(n)
    ensures n > 0 ==> DigitsOf(n)[0] != ZERO
  {
    if n < 10 {
      assert Number(DigitsOf(n)[..0]) == 0;
    } else {
      var front := DigitsOf(n / 10);
      NumberOfDigits(n / 10);
      assert DigitsOf(n)[..|front|] == front && DigitsOf(n)[0] == front[0];
    }
  }

  lemma {:induction false} NumberPositive(text: Text)
    requires AllDigits(text) && text != [] && text[0] != ZERO
    ensures Number(text) > 0
  {
    if |text| == 1 {
      assert text[..0] == [];
    } else {
      NumberPositive(text[..|text| - 1]);
    }
  }

  /** Canonical digits are the digits of their number. */
  lemma {:induction false} DigitsOfNumber(text: Text)
    requires Canonical(text)
    ensures DigitsOf(Number(text)) == text
  {
    var front, last := text[..|text| - 1], text[|text| - 1];
    if |text| == 1 {
      assert Number(front) == 0;
    } else {
      NumberPositive(front);
      DigitsOfNumber(front);
      assert text == front + [last];
    }
  }

  // ----- Leading zeros -----

  function Strip(text: Text): Text {
    if |text| > 1 && text[0] == ZERO then Strip(text[1..]) else text
  }

  function Pad(text: Text, width: nat): Text
    decreases width - |text|
  {
    if |text| >= width then text else Pad([ZERO] + text, width)
  }

  lemma {:induction false} StripIsCanonical(text: Text)
    requires AllDigits(text) && text != []
    ensures Canonical(Strip(text)) && |Strip(text)| <= |text|
    ensures Canonical(text) ==> Strip(text) == text
  {
    if |text| > 1 && text[0] == ZERO {
      StripIsCanonical(text[1..]);
    }
  }

  /** Zeros in front count for nothing. */
  lemma {:induction false} StripKeepsNumber(text: Text)
    requires AllDigits(text) && text != []
    ensures AllDigits(Strip(text)) && Number(Strip(text)) == Number(text)
  {
    if |text| > 1 && text[0] == ZERO {
      StripKeepsNumber(text[1..]);
      NumberJoins([ZERO], text[1..]);
      OneDigit(ZERO);
      assert [ZERO] + text[1..] == text;
    }
  }

  lemma {:induction false} PadFrom(text: Text, width: nat)
    requires |text| < width
    ensures Pad(text, width) == [ZERO] + Pad(text, width - 1)
    decreases width - |text|
  {
    if |text| + 1 < width {
      PadFrom([ZERO] + text, width);
    }
  }

  /** Padding puts back the zeros that stripping removed. */
  lemma {:induction false} PadStrip(text: Text)
    requires text != []
    ensures |Strip(text)| <= |text| && Pad(Strip(text), |text|) == text
  {
    if |text| > 1 && text[0] == ZERO {
      PadStrip(text[1..]);
      PadFrom(Strip(text[1..]), |text|);
      assert text == [ZERO] + text[1..];
    }
  }

  lemma {:induction false} StripPad(text: Text, width: nat)
    requires Canonical(text)
    ensures AllDigits(Pad(text, width)) && Strip(Pad(text, width)) == text
    ensures |Pad(text, width)| == if |text| < width then width else |text|
    decreases width - |text|
  {
    if |text| < width {
      StripPadded([ZERO] + text, width);
      assert ([ZERO] + text)[1..] == text;
      StripIsCanonical(text);
    } else {
      StripIsCanonical(text);
    }
  }

  lemma {:induction false} StripPadded(text: Text, width: nat)
    requires AllDigits(text) && text != [] && |text| <= width
    ensures AllDigits(Pad(text, width)) && Strip(Pad(text, width)) == Strip(text) && |Pad(text, width)| == width
    decreases width - |text|
  {
    if |text| < width {
      StripPadded([ZERO] + text, width);
      assert ([ZERO] + text)[1..] == text;
    }
  }
}
