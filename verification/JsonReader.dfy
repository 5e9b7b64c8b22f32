/**
 The values that canonical JSON is printed from, and a reader of JSON texts without white space by the
 grammar of RFC 8259. The reader knows nothing of the printer.
 */
module JsonReader {
  import opened Wrappers
  import opened Ordering
  import opened JsonText

  /** A number by what it prints as; the two kinds that do not print as themselves apart. */
  datatype Numeric = NonFinite | MinusZero | Finite(numeral: Text)

  /** `Foreign` stands for whatever is not plain JSON: functions, symbols, big integers, class instances. */
  datatype Value =
    | Null
    | Undefined
    | Boolean(b: bool)
    | Number(n: Numeric)
    | String(s: Text)
    | Array(items: seq<Value>)
    | Object(properties: seq<Property>)
    | Foreign

  datatype Property = Property(key: Text, value: Value)

  // ----- Words and numbers -----

  /** The text begins with the characters of a word. */
  predicate StartsWith(text: Text, word: string) {
    |word| <= |text| && forall i :: 0 <= i < |word| ==> text[i] == word[i] as int
  }

  predicate FirstIs(text: Text, c: char) {
    text != [] && text[0] == c as int
  }

  predicate IsDigit(u: CodeUnit) {
    '0' as int <= u <= '9' as int
  }

  /** How many digits stand at the front. */
  function Digits(text: Text): (n: nat)
    ensures n <= |text|
  {
    if text == [] || !IsDigit(text[0]) then 0 else 1 + Digits(text[1..])
  }

  /** A zero, or digits that do not begin with one. */
  function Whole(text: Text): (n: nat)
    ensures n <= |text|
  {
    if FirstIs(text, '0') then 1 else Digits(text)
  }

  function Minus(text: Text): (n: nat)
    ensures n <= |text|
  {
    if FirstIs(text, '-') then 1 else 0
  }

  /** A point and digits. */
  function Fraction(text: Text): (n: nat)
    ensures n <= |text|
  {
    if FirstIs(text, '.') && Digits(text[1..]) > 0 then 1 + Digits(text[1..]) else 0
  }

  function Sign(text: Text): (n: nat)
    ensures n <= |text|
  {
    if FirstIs(text, '-') || FirstIs(text, '+') then 1 else 0
  }

  /** A letter e, a sign or none, and digits. */
  function Exponent(text: Text): (n: nat)
    ensures n <= |text|
  {
    if !FirstIs(text, 'e') && !FirstIs(text, 'E') then 0
    else
      var front := 1 + Sign(text[1..]);
      if Digits(text[front..]) > 0 then front + Digits(text[front..]) else 0
  }

  /** A whole number with a minus sign or none. */
  function Integer(text: Text): (n: nat)
    ensures n <= |text|
  {
    if Whole(text[Minus(text)..]) == 0 then 0 else Minus(text) + Whole(text[Minus(text)..])
  }

  function Decimal(text: Text): (n: nat)
    ensures n <= |text|
  {
    if Integer(text) == 0 then 0 else Integer(text) + Fraction(text[Integer(text)..])
  }

  /** The length of the number at the front of a text, zero when there is none. */
  function NumberLength(text: Text): (n: nat)
    ensures n <= |text|
  {
    if Decimal(text) == 0 then 0 else Decimal(text) + Exponent(text[Decimal(text)..])
  }

  predicate IsNumeral(text: Text) {
    text != [] && NumberLength(text) == |text|
  }

  // ----- Values -----

  function ReadLiteral(text: Text): (r: Option<(Value, Text)>)
    ensures r.Some? ==> |r.value.1| < |text|
  {
    if StartsWith(text, "null") then Some((Null, text[4..]))
    else if StartsWith(text, "true") then Some((Boolean(true), text[4..]))
    else if StartsWith(text, "false") then Some((Boolean(false), text[5..]))
    else None
  }

  function ReadNumber(text: Text): (r: Option<(Value, Text)>)
    ensures r.Some? ==> |r.value.1| < |text|
  {
    var n := NumberLength(text);
    if n == 0 then None else Some((Number(Finite(text[..n])), text[n..]))
  }

  /** A value at the front of a text and what follows it. */
  function ReadValue(text: Text): (r: Option<(Value, Text)>)
    ensures r.Some? ==> |r.value.1| < |text|
    decreases |text|, 0
  {
    if text == [] then None
    else if FirstIs(text, '\"') then
      var s := ReadString(text[1..]);
      if s.None? then None else Some((String(s.value.0), s.value.1))
    else if FirstIs(text, '[') then
      if FirstIs(text[1..], ']') then Some((Array([]), text[2..]))
      else
        var items := ReadItems(text[1..]);
        if items.None? then None else Some((Array(items.value.0), items.value.1))
    else if FirstIs(text, '{') then
      if FirstIs(text[1..], '}') then Some((Object([]), text[2..]))
      else
        var properties := ReadProperties(text[1..]);
        if properties.None? then None else Some((Object(properties.value.0), properties.value.1))
    else if FirstIs(text, '-') || IsDigit(text[0]) then ReadNumber(text)
    else ReadLiteral(text)
  }

  /** One item or more between commas, up to the closing bracket. */
  function ReadItems(text: Text): (r: Option<(seq<Value>, Text)>)
    ensures r.Some? ==> |r.value.1| < |text|
    decreases |text|, 1
  {
    var item := ReadValue(text);
    if item.None? then None
    else if FirstIs(item.value.1, ']') then Some(([item.value.0], item.value.1[1..]))
    else if FirstIs(item.value.1, ',') then
      var rest := ReadItems(item.value.1[1..]);
      if rest.None? then None else Some(([item.value.0] + rest.value.0, rest.value.1))
    else None
  }

  /** A key, a colon and a value. */
  function ReadProperty(text: Text): (r: Option<(Property, Text)>)
    ensures r.Some? ==> |r.value.1| < |text|
    decreases |text|, 0
  {
    var key := if FirstIs(text, '\"') then ReadString(text[1..]) else None;
    if key.None? || !FirstIs(key.value.1, ':') then None
    else
      var value := ReadValue(key.value.1[1..]);
      if value.None? then None else Some((Property(key.value.0, value.value.0), value.value.1))
  }

  /** One property or more between commas, up to the closing brace. */
  function ReadProperties(text: Text): (r: Option<(seq<Property>, Text)>)
    ensures r.Some? ==> |r.value.1| < |text|
    decreases |text|, 1
  {
    var property := ReadProperty(text);
    if property.None? then None
    else if FirstIs(property.value.1, '}') then Some(([property.value.0], property.value.1[1..]))
    else if FirstIs(property.value.1, ',') then
      var rest := ReadProperties(property.value.1[1..]);
      if rest.None? then None else Some(([property.value.0] + rest.value.0, rest.value.1))
    else None
  }

  /** The value that a whole text spells. */
  function Read(text: Text): Option<Value> {
    var r := ReadValue(text);
    if r.Some? && r.value.1 == [] then Some(r.value.0) else None
  }

  // ----- A number ends where something else begins -----

  /** Followed by nothing, a comma or a closing bracket. */
  predicate Delimited(rest: Text) {
    rest == [] || FirstIs(rest, ',') || FirstIs(rest, ']') || FirstIs(rest, '}')
  }

  lemma {:induction false} DigitsEnd(a: Text, r: Text)
    requires Delimited(r)
    ensures Digits(a + r) == Digits(a)
  {
    if a == [] {
      assert a + r == r;
    } else {
      assert (a + r)[1..] == a[1..] + r;
      DigitsEnd(a[1..], r);
    }
  }

  lemma Appended(a: Text, r: Text, k: nat)
    requires k <= |a|
    ensures (a + r)[k..] == a[k..] + r
  {
  }

  lemma WholeEnds(a: Text, r: Text)
    requires Delimited(r)
    ensures Whole(a + r) == Whole(a)
  {
    DigitsEnd(a, r);
    if a == [] {
      assert a + r == r;
    }
  }

  lemma FractionEnds(a: Text, r: Text)
    requires Delimited(r)
    ensures Fraction(a + r) == Fraction(a)
  {
    if a == [] {
      assert a + r == r;
    } else {
      Appended(a, r, 1);
      DigitsEnd(a[1..], r);
    }
  }

  lemma SignEnds(a: Text, r: Text)
    requires Delimited(r)
    ensures Sign(a + r) == Sign(a)
  {
    if a == [] {
      assert a + r == r;
    }
  }

  lemma ExponentEnds(a: Text, r: Text)
    requires Delimited(r)
    ensures Exponent(a + r) == Exponent(a)
  {
    if a == [] {
      assert a + r == r;
    } else {
      Appended(a, r, 1);
      SignEnds(a[1..], r);
      var front := 1 + Sign(a[1..]);
      Appended(a, r, front);
      DigitsEnd(a[front..], r);
    }
  }

  lemma IntegerEnds(a: Text, r: Text)
    requires Delimited(r)
    ensures Integer(a + r) == Integer(a)
  {
    if a == [] {
      assert a + r == r;
    } else {
      Appended(a, r, Minus(a));
      WholeEnds(a[Minus(a)..], r);
    }
  }

  lemma DecimalEnds(a: Text, r: Text)
    requires Delimited(r)
    ensures Decimal(a + r) == Decimal(a)
  {
    IntegerEnds(a, r);
    Appended(a, r, Integer(a));
    FractionEnds(a[Integer(a)..], r);
  }

  lemma NumberEnds(a: Text, r: Text)
    requires Delimited(r)
    ensures NumberLength(a + r) == NumberLength(a)
  {
    DecimalEnds(a, r);
    Appended(a, r, Decimal(a));
    ExponentEnds(a[Decimal(a)..], r);
  }

  lemma NumeralStart(a: Text)
    requires IsNumeral(a)
    ensures FirstIs(a, '-') || IsDigit(a[0])
  {
  }

  lemma ReadNumberReads(a: Text, r: Text)
    requires IsNumeral(a) && Delimited(r)
    ensures ReadNumber(a + r) == Some((Number(Finite(a)), r))
  {
    NumberEnds(a, r);
    assert (a + r)[..|a|] == a && (a + r)[|a|..] == r;
  }

  lemma DispatchNumber(text: Text)
    requires text != [] && (FirstIs(text, '-') || IsDigit(text[0]))
    ensures ReadValue(text) == ReadNumber(text)
  {
  }

  /** A numeral before a delimiter is read whole. */
  lemma NumeralReads(a: Text, r: Text)
    requires IsNumeral(a) && Delimited(r)
    ensures ReadValue(a + r) == Some((Number(Finite(a)), r))
  {
    NumeralStart(a);
    DispatchNumber(a + r);
    ReadNumberReads(a, r);
  }

  // ----- Reading on from a first item -----

  /** No value begins with a closing bracket. */
  lemma NoValueAtBracket(text: Text)
    requires FirstIs(text, ']')
    ensures ReadValue(text).None?
  {
  }

  lemma {:induction false} ArrayReads(items: seq<Value>, text: Text, r: Text)
    requires ReadItems(text) == Some((items, r))
    ensures ReadValue(['[' as int] + text) == Some((Array(items), r))
  {
    assert (['[' as int] + text)[1..] == text;
    if FirstIs(text, ']') {
      NoValueAtBracket(text);
    }
  }

  lemma {:induction false} LastItem(text: Text, item: Value, r: Text)
    requires ReadValue(text) == Some((item, [']' as int] + r))
    ensures ReadItems(text) == Some(([item], r))
  {
    assert ([']' as int] + r)[1..] == r;
  }

  lemma {:induction false} ItemsOnward(text: Text, item: Value, after: Text, items: seq<Value>, r: Text)
    requires ReadValue(text) == Some((item, after)) && FirstIs(after, ',') && ReadItems(after[1..]) == Some((items, r))
    ensures ReadItems(text) == Some(([item] + items, r))
  {
    assert !FirstIs(after, ']');
  }

  lemma {:induction false} ItemThenItems(text: Text, items: seq<Value>, rest: Text, r: Text)
    requires items != [] && ReadValue(text) == Some((items[0], [',' as int] + rest)) && ReadItems(rest) == Some((items[1..], r))
    ensures ReadItems(text) == Some((items, r))
  {
    var after := [',' as int] + rest;
    assert after[1..] == rest;
    ItemsOnward(text, items[0], after, items[1..], r);
    assert items == [items[0]] + items[1..];
  }

  lemma {:induction false} ObjectReads(properties: seq<Property>, text: Text, r: Text)
    requires ReadProperties(text) == Some((properties, r))
    ensures ReadValue(['{' as int] + text) == Some((Object(properties), r))
  {
    assert (['{' as int] + text)[1..] == text;
  }

  lemma {:induction false} LastProperty(text: Text, p: Property, r: Text)
    requires ReadProperty(text) == Some((p, ['}' as int] + r))
    ensures ReadProperties(text) == Some(([p], r))
  {
    assert (['}' as int] + r)[1..] == r;
  }

  lemma {:induction false} PropertiesOnward(text: Text, p: Property, after: Text, properties: seq<Property>, r: Text)
    requires ReadProperty(text) == Some((p, after)) && FirstIs(after, ',') && ReadProperties(after[1..]) == Some((properties, r))
    ensures ReadProperties(text) == Some(([p] + properties, r))
  {
    assert !FirstIs(after, '}');
  }

  lemma {:induction false} PropertyThenProperties(text: Text, properties: seq<Property>, rest: Text, r: Text)
    requires properties != [] && ReadProperty(text) == Some((properties[0], [',' as int] + rest))
    requires ReadProperties(rest) == Some((properties[1..], r))
    ensures ReadProperties(text) == Some((properties, r))
  {
    var after := [',' as int] + rest;
    assert after[1..] == rest;
    PropertiesOnward(text, properties[0], after, properties[1..], r);
    assert properties == [properties[0]] + properties[1..];
  }
}
