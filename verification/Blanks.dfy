/** Blank strings and trimming. */
module Blanks {

  /** White space and line terminators, as trimming removes them. */
  predicate WhiteSpace(c: char) {
    || '\t' <= c <= '\r' || c == ' ' || c == '\U{00A0}' || c == '\U{1680}' || '\U{2000}' <= c <= '\U{200A}'
    || c == '\U{2028}' || c == '\U{2029}' || c == '\U{202F}' || c == '\U{205F}' || c == '\U{3000}' || c == '\U{FEFF}'
  }

  predicate Blank(text: string) {
    forall i :: 0 <= i < |text| ==> WhiteSpace(text[i])
  }

  function TrimStart(text: string): string {
    if text != [] && WhiteSpace(text[0]) then TrimStart(text[1..]) else text
  }

  function TrimEnd(text: string): string {
    if text != [] && WhiteSpace(text[|text| - 1]) then TrimEnd(text[..|text| - 1]) else text
  }

  function Trim(text: string): string {
    TrimEnd(TrimStart(text))
  }

  /** `t` is `text` without the blanks around it: nothing else is cut, and nothing blank is left at either end. */
  ghost predicate Trimmed(text: string, t: string) {
    exists before, after :: CutsTo(text, before, t, after)
  }

  predicate CutsTo(text: string, before: string, t: string, after: string) {
    && text == before + t + after && Blank(before) && Blank(after)
    && (t != "" ==> !WhiteSpace(t[0]) && !WhiteSpace(t[|t| - 1]))
  }

  lemma {:induction false} StartCut(text: string) returns (before: string)
    ensures text == before + TrimStart(text) && Blank(before)
    ensures TrimStart(text) != "" ==> !WhiteSpace(TrimStart(text)[0])
  {
    before := "";
    if text != [] && WhiteSpace(text[0]) {
      var rest := StartCut(text[1..]);
      before := [text[0]] + rest;
      assert text == [text[0]] + text[1..];
    }
  }

  lemma {:induction false} EndCut(text: string) returns (after: string)
    ensures text == TrimEnd(text) + after && Blank(after) && TrimEnd(text) <= text
    ensures TrimEnd(text) != "" ==> !WhiteSpace(TrimEnd(text)[|TrimEnd(text)| - 1])
  {
    after := "";
    if text != [] && WhiteSpace(text[|text| - 1]) {
      var rest := EndCut(text[..|text| - 1]);
      after := rest + [text[|text| - 1]];
      assert text == text[..|text| - 1] + [text[|text| - 1]];
    }
  }

  lemma BlankParts(a: string, b: string)
    ensures Blank(a + b) <==> Blank(a) && Blank(b)
  {
    if Blank(a + b) {
      assert forall i :: 0 <= i < |a| ==> a[i] == (a + b)[i];
      assert forall i :: 0 <= i < |b| ==> b[i] == (a + b)[|a| + i];
    }
  }

  /** Trimming cuts the blanks around a text and no more; nothing is left exactly of a blank text. */
  lemma TrimmedIsBlank(text: string)
    ensures Trimmed(text, Trim(text))
    ensures Trim(text) == "" <==> Blank(text)
  {
    var before := StartCut(text);
    var after := EndCut(TrimStart(text));
    assert text == before + Trim(text) + after;
    BlankParts(before + Trim(text), after);
    BlankParts(before, Trim(text));
    assert CutsTo(text, before, Trim(text), after);
  }
}
