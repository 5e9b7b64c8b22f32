/** The text a request's hash is taken over: the canonical JSON of its scope and payload. */
module CanonicalRequest {
  import opened Wrappers
  import opened Ordering
  import opened JsonText
  import opened JsonReader
  import opened CanonicalJson

  const SCOPE_KEY: Text := [0x73, 0x63, 0x6F, 0x70, 0x65]
  const PAYLOAD_KEY: Text := [0x70, 0x61, 0x79, 0x6C, 0x6F, 0x61, 0x64]

  /** What a request's hash is taken over. */
  function RequestValue(scope: Text, payload: Value): Value {
    Object([Property(SCOPE_KEY, String(scope)), Property(PAYLOAD_KEY, payload)])
  }

  /** The text is a word, character by character. */
  predicate Spells(text: Text, word: string) {
    |text| == |word| && forall i :: 0 <= i < |word| ==> text[i] == word[i] as int
  }

  lemma {:induction false} RawEscaped(s: Text)
    requires forall i :: 0 <= i < |s| ==> 'a' as int <= s[i] <= 'z' as int
    ensures Escaped(s) == s
  {
    if s != [] {
      RawEscaped(s[1..]);
      assert s == [s[0]] + s[1..];
    }
  }

  lemma LettersQuoted(s: Text)
    requires forall i :: 0 <= i < |s| ==> 'a' as int <= s[i] <= 'z' as int
    ensures Quoted(s) == [QUOTE] + s + [QUOTE]
  {
    RawEscaped(s);
  }

  lemma FrontSpells(front: Text)
    requires Spells(front, "{\"payload\":")
    ensures front == [OPEN_BRACE] + Quoted(PAYLOAD_KEY) + [COLON]
  {
    LettersQuoted(PAYLOAD_KEY);
  }

  lemma MiddleSpells(middle: Text)
    requires Spells(middle, ",\"scope\":")
    ensures middle == [COMMA] + Quoted(SCOPE_KEY) + [COLON]
  {
    LettersQuoted(SCOPE_KEY);
  }

  lemma OnlySpells(front: Text)
    requires Spells(front, "{\"scope\":")
    ensures front == [OPEN_BRACE] + Quoted(SCOPE_KEY) + [COLON]
  {
    LettersQuoted(SCOPE_KEY);
  }

  lemma OneProperty(p: Property)
    ensures Sort(ByKey(), [p]) == [p] && Defined([p]) == if p.value.Undefined? then [] else [p]
  {
    assert [p][1..] == [];
  }

  /** Only the scope is printed, or the payload before it. */
  lemma RequestProperties(s: Property, p: Property)
    requires !s.value.Undefined? && Before(p.key, s.key) && !Before(s.key, p.key)
    ensures Sort(ByKey(), Defined([s, p])) == if p.value.Undefined? then [s] else [p, s]
  {
    OneProperty(s);
    OneProperty(p);
    assert [s, p][1..] == [p];
    if p.value.Undefined? {
      assert Defined([s, p]) == [s];
    } else {
      assert Defined([s, p]) == [s, p] && Insert(ByKey(), s, []) == [s];
      assert [p][1..] == [] && [p] + [s] == [p, s];
    }
  }

  lemma PayloadFirst()
    ensures Before(PAYLOAD_KEY, SCOPE_KEY) && !Before(SCOPE_KEY, PAYLOAD_KEY)
  {
  }

  lemma PrintScope(scope: Text)
    ensures PrintProperties([Property(SCOPE_KEY, String(scope))], 1) == Some(Quoted(SCOPE_KEY) + [COLON] + Quoted(scope))
  {
    assert Print(String(scope), 1) == Some(Quoted(scope));
  }

  lemma FirstPrints(p: Property, s: Property)
    requires PrintProperties([p, s], 1).Some?
    ensures Print(p.value, 1).Some? && PrintProperties([s], 1).Some?
    ensures PrintProperties([p, s], 1).value
      == Quoted(p.key) + [COLON] + Print(p.value, 1).value + [COMMA] + PrintProperties([s], 1).value
  {
    assert [p, s][1..] == [s];
  }

  lemma ObjectPrints(properties: seq<Property>, sorted: seq<Property>)
    requires Sort(ByKey(), Defined(properties)) == sorted && Print(Object(properties), 0).Some?
    ensures PrintProperties(sorted, 1).Some?
    ensures Print(Object(properties), 0).value == [OPEN_BRACE] + PrintProperties(sorted, 1).value + [CLOSE_BRACE]
  {
  }

  lemma Flatten(a: Text, b: Text, p: Text, s: Text)
    ensures [OPEN_BRACE] + (a + [COLON] + p + [COMMA] + (b + [COLON] + s)) + [CLOSE_BRACE]
      == ([OPEN_BRACE] + a + [COLON]) + p + ([COMMA] + b + [COLON]) + s + [CLOSE_BRACE]
  {
  }

  /** The hashed text spelled out: the payload, then the scope. */
  lemma RequestText(scope: Text, payload: Value, front: Text, middle: Text)
    requires !payload.Undefined? && Print(RequestValue(scope, payload), 0).Some?
    requires Spells(front, "{\"payload\":") && Spells(middle, ",\"scope\":")
    ensures Print(payload, 1).Some?
    ensures Print(RequestValue(scope, payload), 0).value == front + Print(payload, 1).value + middle + Quoted(scope) + ['}' as int]
  {
    var s, p := Property(SCOPE_KEY, String(scope)), Property(PAYLOAD_KEY, payload);
    PayloadFirst();
    RequestProperties(s, p);
    ObjectPrints([s, p], [p, s]);
    FirstPrints(p, s);
    PrintScope(scope);
    FrontSpells(front);
    MiddleSpells(middle);
    Flatten(Quoted(PAYLOAD_KEY), Quoted(SCOPE_KEY), Print(payload, 1).value, Quoted(scope));
  }

  lemma FlattenOne(a: Text, s: Text)
    ensures [OPEN_BRACE] + (a + [COLON] + s) + [CLOSE_BRACE] == ([OPEN_BRACE] + a + [COLON]) + s + [CLOSE_BRACE]
  {
  }

  /** Without a payload, the scope alone. */
  lemma RequestTextOfNothing(scope: Text, front: Text)
    requires Spells(front, "{\"scope\":")
    ensures Print(RequestValue(scope, Undefined), 0) == Some(front + Quoted(scope) + ['}' as int])
  {
    var s, p := Property(SCOPE_KEY, String(scope)), Property(PAYLOAD_KEY, Undefined);
    PayloadFirst();
    RequestProperties(s, p);
    PrintScope(scope);
    assert Print(Object([s, p]), 0) == Enclosed(OPEN_BRACE, PrintProperties([s], 1), CLOSE_BRACE);
    OnlySpells(front);
    FlattenOne(Quoted(SCOPE_KEY), Quoted(scope));
  }

  lemma EquivalentPair(p: Property, q: Property, w: Value)
    ensures Equivalent(Object([p, q]), w) <==>
      && w.Object? && KeysCovered([p, q], w.properties)
      && (p.value.Undefined? || HasEquivalent(p.key, p.value, w.properties))
      && (q.value.Undefined? || HasEquivalent(q.key, q.value, w.properties))
  {
    var v := Object([p, q]);
    assert v.properties[0] == p && v.properties[1] == q;
  }

  lemma EquivalentRequests(scope: Text, payload: Value, otherScope: Text, otherPayload: Value)
    ensures Equivalent(RequestValue(scope, payload), RequestValue(otherScope, otherPayload))
      <==> scope == otherScope && Equivalent(payload, otherPayload)
  {
    var a, b := RequestValue(scope, payload).properties, RequestValue(otherScope, otherPayload).properties;
    EquivalentPair(Property(SCOPE_KEY, String(scope)), Property(PAYLOAD_KEY, payload), RequestValue(otherScope, otherPayload));
    assert SCOPE_KEY[0] != PAYLOAD_KEY[0];
    assert HasEquivalent(SCOPE_KEY, String(scope), b) <==> scope == otherScope by {
      assert b[0].key == SCOPE_KEY && b[1].key == PAYLOAD_KEY && b[0].value == String(otherScope);
    }
    assert HasEquivalent(PAYLOAD_KEY, payload, b) <==> !otherPayload.Undefined? && Equivalent(payload, otherPayload) by {
      assert b[0].key == SCOPE_KEY && b[1].key == PAYLOAD_KEY && b[1].value == otherPayload;
    }
    assert KeysCovered(a, b) <==> payload.Undefined? ==> otherPayload.Undefined? by {
      assert a[0].key == SCOPE_KEY && a[1].key == PAYLOAD_KEY && b[0].key == SCOPE_KEY && b[1].key == PAYLOAD_KEY;
    }
  }

  /** Accepted requests have the same canonical text exactly when scope and payload agree. */
  lemma RequestsAgree(scope: Text, payload: Value, otherScope: Text, otherPayload: Value)
    requires WellFormed(payload) && WellFormed(otherPayload)
    requires Print(RequestValue(scope, payload), 0).Some? && Print(RequestValue(otherScope, otherPayload), 0).Some?
    ensures Print(RequestValue(scope, payload), 0) == Print(RequestValue(otherScope, otherPayload), 0)
      <==> scope == otherScope && Equivalent(payload, otherPayload)
  {
    RequestWellFormed(scope, payload);
    RequestWellFormed(otherScope, otherPayload);
    SameTextIffEquivalent(RequestValue(scope, payload), RequestValue(otherScope, otherPayload));
    EquivalentRequests(scope, payload, otherScope, otherPayload);
  }

  lemma RequestWellFormed(scope: Text, payload: Value)
    requires WellFormed(payload)
    ensures WellFormed(RequestValue(scope, payload))
  {
    assert SCOPE_KEY[0] != PAYLOAD_KEY[0];
  }
}
