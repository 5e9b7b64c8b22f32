/**
 Canonical JSON as a normal form: a reader takes the printed text back to an equivalent value with its
 keys ascending, and two accepted values print the same text exactly when they differ only in key
 order, undefined properties, undefined array items written as null, and minus zero.
 */
module CanonicalJson {
  import opened Wrappers
  import opened Ordering
  import opened JsonText
  import opened JsonReader

  const MAX_DEPTH := 32

  const NULL_TEXT: Text := [0x6E, 0x75, 0x6C, 0x6C]
  const TRUE_TEXT: Text := [0x74, 0x72, 0x75, 0x65]
  const FALSE_TEXT: Text := [0x66, 0x61, 0x6C, 0x73, 0x65]
  const ZERO_TEXT: Text := [0x30]
  const COMMA: CodeUnit := 0x2C
  const COLON: CodeUnit := 0x3A
  const OPEN_BRACKET: CodeUnit := 0x5B
  const CLOSE_BRACKET: CodeUnit := 0x5D
  const OPEN_BRACE: CodeUnit := 0x7B
  const CLOSE_BRACE: CodeUnit := 0x7D

  // ----- Values that can exist -----

  predicate DistinctKeys(properties: seq<Property>) {
    forall i, j :: 0 <= i < j < |properties| ==> properties[i].key != properties[j].key
  }

  /** Numbers print as JSON numbers, and an object has each key once. */
  predicate WellFormed(v: Value) {
    match v
    case Number(Finite(numeral)) => IsNumeral(numeral)
    case Array(items) => forall i :: 0 <= i < |items| ==> WellFormed(items[i])
    case Object(properties) =>
      DistinctKeys(properties) && forall i :: 0 <= i < |properties| ==> WellFormed(properties[i].value)
    case _ => true
  }

  // ----- Printing -----

  function ByKey(): (Property, Property) -> bool {
    (a: Property, b: Property) => Before(a.key, b.key)
  }

  function Defined(properties: seq<Property>): seq<Property> {
    if properties == [] then []
    else if properties[0].value.Undefined? then Defined(properties[1..])
    else [properties[0]] + Defined(properties[1..])
  }

  function ItemOf(item: Value): Value {
    if item.Undefined? then Null else item
  }

  function NumeralOf(n: Numeric): Text
    requires !n.NonFinite?
  {
    if n.MinusZero? then ZERO_TEXT else n.numeral
  }

  function DepthLeft(depth: nat): nat {
    if depth > MAX_DEPTH then 0 else MAX_DEPTH + 1 - depth
  }

  function Print(v: Value, depth: nat): Option<Text>
    decreases DepthLeft(depth), 0
  {
    if depth > MAX_DEPTH then None
    else
      match v
      case Null => Some(NULL_TEXT)
      case Boolean(b) => Some(if b then TRUE_TEXT else FALSE_TEXT)
      case String(s) => Some(Quoted(s))
      case Number(n) => if n.NonFinite? then None else Some(NumeralOf(n))
      case Array(items) => Enclosed(OPEN_BRACKET, PrintItems(items, depth + 1), CLOSE_BRACKET)
      case Object(properties) =>
        Enclosed(OPEN_BRACE, PrintProperties(Sort(ByKey(), Defined(properties)), depth + 1), CLOSE_BRACE)
      case Undefined => None
      case Foreign => None
  }

  function Enclosed(open: CodeUnit, inner: Option<Text>, close: CodeUnit): Option<Text> {
    if inner.None? then None else Some([open] + inner.value + [close])
  }

  function Joined(head: Option<Text>, rest: Option<Text>, last: bool): Option<Text> {
    if head.None? || rest.None? then None
    else if last then head
    else Some(head.value + [COMMA] + rest.value)
  }

  function PrintItems(items: seq<Value>, depth: nat): Option<Text>
    decreases DepthLeft(depth), |items|
  {
    if items == [] then Some([])
    else Joined(Print(ItemOf(items[0]), depth), PrintItems(items[1..], depth), |items| == 1)
  }

  function PrintProperty(p: Property, value: Option<Text>): Option<Text> {
    if value.None? then None else Some(Quoted(p.key) + [COLON] + value.value)
  }

  function PrintProperties(properties: seq<Property>, depth: nat): Option<Text>
    decreases DepthLeft(depth), |properties|
  {
    if properties == [] then Some([])
    else Joined(PrintProperty(properties[0], Print(properties[0].value, depth)), PrintProperties(properties[1..], depth), |properties| == 1)
  }

  // ----- What printing identifies -----

  /** The keys defined in `b` are defined in `a`. */
  predicate KeysCovered(a: seq<Property>, b: seq<Property>) {
    forall j :: 0 <= j < |b| && !b[j].value.Undefined? ==> DefinesKey(a, b[j].key)
  }

  predicate DefinesKey(properties: seq<Property>, key: Text) {
    exists i :: 0 <= i < |properties| && properties[i].key == key && !properties[i].value.Undefined?
  }

  /** Equal up to key order, undefined properties, undefined items as null, and minus zero. */
  predicate Equivalent(v: Value, w: Value)
    decreases v, 0
  {
    match v
    case Number(n) => w.Number? && (if n.MinusZero? then w.n in {MinusZero, Finite(ZERO_TEXT)}
                                    else w.n == n || (n == Finite(ZERO_TEXT) && w.n.MinusZero?))
    case Array(items) =>
      w.Array? && |items| == |w.items|
      && forall i :: 0 <= i < |items| ==>
           if items[i].Undefined? then w.items[i].Undefined? || w.items[i].Null?
           else Equivalent(items[i], ItemOf(w.items[i]))
    case Object(properties) =>
      w.Object? && KeysCovered(properties, w.properties)
      && forall i :: 0 <= i < |properties| && !properties[i].value.Undefined? ==>
           HasEquivalent(properties[i].key, properties[i].value, w.properties)
    case _ => w == v
  }

  /** The properties define the key with an equivalent value. */
  predicate HasEquivalent(key: Text, value: Value, properties: seq<Property>)
    decreases value, 1
  {
    exists j :: 0 <= j < |properties| && properties[j].key == key
      && !properties[j].value.Undefined? && Equivalent(value, properties[j].value)
  }

  // ----- The normal form -----

  function Normal(v: Value): Value {
    match v
    case Number(n) => if n.MinusZero? then Number(Finite(ZERO_TEXT)) else v
    case Array(items) => Array(NormalItems(items))
    case Object(properties) => Object(Sort(ByKey(), NormalProperties(properties)))
    case _ => v
  }

  function NormalItems(items: seq<Value>): (r: seq<Value>)
    ensures |r| == |items|
  {
    if items == [] then []
    else [if items[0].Undefined? then Null else Normal(items[0])] + NormalItems(items[1..])
  }

  function NormalProperties(properties: seq<Property>): seq<Property> {
    if properties == [] then []
    else if properties[0].value.Undefined? then NormalProperties(properties[1..])
    else [Property(properties[0].key, Normal(properties[0].value))] + NormalProperties(properties[1..])
  }

  /** A value as printed without reordering, dropping or replacing anything. */
  function Plain(v: Value): Text {
    match v
    case Null => NULL_TEXT
    case Boolean(b) => if b then TRUE_TEXT else FALSE_TEXT
    case Number(n) => if n.Finite? then n.numeral else []
    case String(s) => Quoted(s)
    case Array(items) => [OPEN_BRACKET] + PlainItems(items) + [CLOSE_BRACKET]
    case Object(properties) => [OPEN_BRACE] + PlainProperties(properties) + [CLOSE_BRACE]
    case Undefined => []
    case Foreign => []
  }

  function PlainItems(items: seq<Value>): Text {
    if items == [] then []
    else if |items| == 1 then Plain(items[0])
    else Plain(items[0]) + [COMMA] + PlainItems(items[1..])
  }

  function PlainProperty(p: Property): Text {
    Quoted(p.key) + [COLON] + Plain(p.value)
  }

  function PlainProperties(properties: seq<Property>): Text {
    if properties == [] then []
    else if |properties| == 1 then PlainProperty(properties[0])
    else PlainProperty(properties[0]) + [COMMA] + PlainProperties(properties[1..])
  }

  /** Only what plain printing tells apart: finite numerals, no undefined and nothing foreign. */
  predicate IsPlain(v: Value) {
    match v
    case Number(n) => n.Finite? && IsNumeral(n.numeral)
    case Array(items) => forall i :: 0 <= i < |items| ==> IsPlain(items[i])
    case Object(properties) => forall i :: 0 <= i < |properties| ==> IsPlain(properties[i].value)
    case Undefined => false
    case Foreign => false
    case _ => true
  }

  // ----- Printing is plain printing of the normal form -----

  function NormalEach(properties: seq<Property>): seq<Property> {
    if properties == [] then []
    else [Property(properties[0].key, Normal(properties[0].value))] + NormalEach(properties[1..])
  }

  lemma {:induction false} NormalOfDefined(properties: seq<Property>)
    ensures NormalProperties(properties) == NormalEach(Defined(properties))
  {
    if properties != [] {
      NormalOfDefined(properties[1..]);
    }
  }

  lemma {:induction false} NormalOfInsert(p: Property, properties: seq<Property>)
    ensures NormalEach(Insert(ByKey(), p, properties)) == Insert(ByKey(), Property(p.key, Normal(p.value)), NormalEach(properties))
  {
    if properties != [] {
      var rest := properties[1..];
      if Before(p.key, properties[0].key) {
        assert ([p] + properties)[1..] == properties;
      } else {
        NormalOfInsert(p, rest);
        assert NormalEach(properties)[1..] == NormalEach(rest);
        assert ([properties[0]] + Insert(ByKey(), p, rest))[1..] == Insert(ByKey(), p, rest);
      }
    }
  }

  /** Normalizing values and sorting keys commute. */
  lemma {:induction false} NormalOfSort(properties: seq<Property>)
    ensures NormalEach(Sort(ByKey(), properties)) == Sort(ByKey(), NormalEach(properties))
  {
    if properties != [] {
      NormalOfSort(properties[1..]);
      NormalOfInsert(properties[0], Sort(ByKey(), properties[1..]));
      assert NormalEach(properties)[1..] == NormalEach(properties[1..]);
    }
  }

  lemma {:induction false} PrintIsPlain(v: Value, depth: nat)
    ensures Print(v, depth).Some? ==> Print(v, depth).value == Plain(Normal(v))
    decreases DepthLeft(depth), 0
  {
    if depth <= MAX_DEPTH {
      match v
      case Array(items) => ItemsPrintPlain(items, depth + 1);
      case Object(properties) =>
        PropertiesPrintPlain(Sort(ByKey(), Defined(properties)), depth + 1);
        NormalOfSort(Defined(properties));
        NormalOfDefined(properties);
      case _ =>
    }
  }

  lemma {:induction false} ItemsPrintPlain(items: seq<Value>, depth: nat)
    ensures PrintItems(items, depth).Some? ==> PrintItems(items, depth).value == PlainItems(NormalItems(items))
    decreases DepthLeft(depth), |items|
  {
    if items != [] {
      PrintIsPlain(ItemOf(items[0]), depth);
      ItemsPrintPlain(items[1..], depth);
      assert NormalItems(items)[1..] == NormalItems(items[1..]);
    }
  }

  lemma {:induction false} PropertiesPrintPlain(properties: seq<Property>, depth: nat)
    ensures PrintProperties(properties, depth).Some? ==> PrintProperties(properties, depth).value == PlainProperties(NormalEach(properties))
    decreases DepthLeft(depth), |properties|
  {
    if properties != [] {
      PrintIsPlain(properties[0].value, depth);
      PropertiesPrintPlain(properties[1..], depth);
      assert NormalEach(properties)[1..] == NormalEach(properties[1..]);
    }
  }

  lemma SortedWellFormed(properties: seq<Property>)
    requires forall i :: 0 <= i < |properties| ==> WellFormed(properties[i].value)
    ensures forall i :: 0 <= i < |Sort(ByKey(), Defined(properties))| ==> WellFormed(Sort(ByKey(), Defined(properties))[i].value)
  {
    SortedMembers(properties);
    var sorted := Sort(ByKey(), Defined(properties));
    forall i | 0 <= i < |sorted|
      ensures WellFormed(sorted[i].value)
    {
      assert sorted[i] in properties;
    }
  }

  lemma {:induction false} PrintedIsPlain(v: Value, depth: nat)
    requires WellFormed(v) && Print(v, depth).Some?
    ensures IsPlain(Normal(v))
    decreases DepthLeft(depth), 0
  {
    match v
    case Array(items) => ItemsArePlain(items, depth + 1);
    case Object(properties) =>
      SortedWellFormed(properties);
      PropertiesArePlain(Sort(ByKey(), Defined(properties)), depth + 1);
      NormalOfSort(Defined(properties));
      NormalOfDefined(properties);
    case _ =>
  }

  lemma {:induction false} ItemsArePlain(items: seq<Value>, depth: nat)
    requires PrintItems(items, depth).Some? && forall i :: 0 <= i < |items| ==> WellFormed(items[i])
    ensures forall i :: 0 <= i < |items| ==> IsPlain(NormalItems(items)[i])
    decreases DepthLeft(depth), |items|
  {
    if items != [] {
      PrintedIsPlain(ItemOf(items[0]), depth);
      ItemsArePlain(items[1..], depth);
    }
  }

  lemma {:induction false} PropertiesArePlain(properties: seq<Property>, depth: nat)
    requires PrintProperties(properties, depth).Some? && forall i :: 0 <= i < |properties| ==> WellFormed(properties[i].value)
    ensures |NormalEach(properties)| == |properties|
    ensures forall i :: 0 <= i < |properties| ==> IsPlain(NormalEach(properties)[i].value)
    decreases DepthLeft(depth), |properties|
  {
    if properties != [] {
      PrintedIsPlain(properties[0].value, depth);
      PropertiesArePlain(properties[1..], depth);
    }
  }

  lemma {:induction false} DefinedMembers(properties: seq<Property>)
    ensures forall p :: p in Defined(properties) <==> p in properties && !p.value.Undefined?
  {
    if properties != [] {
      DefinedMembers(properties[1..]);
      assert forall p :: p in properties <==> p == properties[0] || p in properties[1..];
    }
  }

  // ----- A plain text is read back -----

  lemma {:induction false} LiteralReads(v: Value, r: Text)
    requires v.Null? || v.Boolean?
    ensures ReadValue(Plain(v) + r) == Some((v, r))
  {
    var text := Plain(v) + r;
    assert text[|Plain(v)|..] == r;
    assert ReadValue(text) == ReadLiteral(text);
    match v
    case Null => assert StartsWith(text, "null");
    case Boolean(b) => assert StartsWith(text, if b then "true" else "false") && text[0] == Plain(v)[0];
  }

  lemma StringReads(s: Text, r: Text)
    ensures ReadValue(Quoted(s) + r) == Some((String(s), r))
  {
    QuotedReadsBack(s, r);
  }

  /** A plain text followed by nothing, a comma or a closing bracket is read back to its value. */
  lemma {:induction false} PlainReads(v: Value, r: Text)
    requires IsPlain(v) && Delimited(r)
    ensures ReadValue(Plain(v) + r) == Some((v, r))
    decreases v, 2
  {
    match v
    case Number(n) => NumeralReads(n.numeral, r);
    case String(s) => StringReads(s, r);
    case Array(items) =>
      OpenedItems(items, r);
      if items == [] {
        EmptyArrayReads(r);
      } else {
        ItemsRead(items, r);
        ArrayReads(items, ItemsClosed(items, r), r);
      }
    case Object(properties) =>
      OpenedProperties(properties, r);
      if properties == [] {
        EmptyObjectReads(r);
      } else {
        PropertiesRead(properties, r);
        ObjectReads(properties, PropertiesClosed(properties, r), r);
      }
    case _ => LiteralReads(v, r);
  }

  function ItemsClosed(items: seq<Value>, r: Text): Text {
    PlainItems(items) + [CLOSE_BRACKET] + r
  }

  lemma OpenedItems(items: seq<Value>, r: Text)
    ensures Plain(Array(items)) + r == [OPEN_BRACKET] + ItemsClosed(items, r)
  {
  }

  lemma EmptyArrayReads(r: Text)
    ensures ReadValue([OPEN_BRACKET] + ItemsClosed([], r)) == Some((Array([]), r))
  {
    var text := [OPEN_BRACKET] + ItemsClosed([], r);
    assert text[1..] == [CLOSE_BRACKET] + r && text[2..] == r;
  }

  function AfterItem(items: seq<Value>, r: Text): Text
    requires items != []
  {
    if |items| == 1 then [CLOSE_BRACKET] + r else [COMMA] + ItemsClosed(items[1..], r)
  }

  lemma ItemsStep(items: seq<Value>, r: Text)
    requires items != []
    ensures ItemsClosed(items, r) == Plain(items[0]) + AfterItem(items, r) && Delimited(AfterItem(items, r))
  {
    if |items| > 1 {
      Regroup(Plain(items[0]), [COMMA], PlainItems(items[1..]), [CLOSE_BRACKET], r);
    }
  }

  lemma Regroup(a: Text, b: Text, c: Text, d: Text, e: Text)
    ensures (a + b + c) + d + e == a + (b + (c + d + e))
  {
  }

  lemma {:induction false} ItemsRead(items: seq<Value>, r: Text)
    requires items != [] && forall i :: 0 <= i < |items| ==> IsPlain(items[i])
    ensures ReadItems(ItemsClosed(items, r)) == Some((items, r))
    decreases items
  {
    var text := ItemsClosed(items, r);
    ItemsStep(items, r);
    PlainReads(items[0], AfterItem(items, r));
    if |items| == 1 {
      LastItem(text, items[0], r);
      assert items == [items[0]];
    } else {
      ItemsRead(items[1..], r);
      ItemThenItems(text, items, ItemsClosed(items[1..], r), r);
    }
  }

  function PropertiesClosed(properties: seq<Property>, r: Text): Text {
    PlainProperties(properties) + [CLOSE_BRACE] + r
  }

  lemma OpenedProperties(properties: seq<Property>, r: Text)
    ensures Plain(Object(properties)) + r == [OPEN_BRACE] + PropertiesClosed(properties, r)
  {
  }

  lemma EmptyObjectReads(r: Text)
    ensures ReadValue([OPEN_BRACE] + PropertiesClosed([], r)) == Some((Object([]), r))
  {
    var text := [OPEN_BRACE] + PropertiesClosed([], r);
    assert text[1..] == [CLOSE_BRACE] + r && text[2..] == r;
  }

  function AfterProperty(properties: seq<Property>, r: Text): Text
    requires properties != []
  {
    if |properties| == 1 then [CLOSE_BRACE] + r else [COMMA] + PropertiesClosed(properties[1..], r)
  }

  lemma PropertiesStep(properties: seq<Property>, r: Text)
    requires properties != []
    ensures PropertiesClosed(properties, r) == PlainProperty(properties[0]) + AfterProperty(properties, r)
    ensures Delimited(AfterProperty(properties, r))
  {
    if |properties| > 1 {
      Regroup(PlainProperty(properties[0]), [COMMA], PlainProperties(properties[1..]), [CLOSE_BRACE], r);
    }
  }

  lemma PropertyStep(p: Property, r: Text)
    ensures PlainProperty(p) + r == Quoted(p.key) + ([COLON] + (Plain(p.value) + r))
  {
  }

  lemma {:induction false} PropertyReads(p: Property, r: Text)
    requires ReadValue(Plain(p.value) + r) == Some((p.value, r))
    ensures ReadProperty(PlainProperty(p) + r) == Some((p, r))
  {
    PropertyStep(p, r);
    QuotedReadsBack(p.key, [COLON] + (Plain(p.value) + r));
    assert ([COLON] + (Plain(p.value) + r))[1..] == Plain(p.value) + r;
  }

  lemma {:induction false} PropertiesRead(properties: seq<Property>, r: Text)
    requires properties != [] && forall i :: 0 <= i < |properties| ==> IsPlain(properties[i].value)
    ensures ReadProperties(PropertiesClosed(properties, r)) == Some((properties, r))
    decreases properties, 1
  {
    var text := PropertiesClosed(properties, r);
    FirstPropertyReads(properties, r);
    if |properties| == 1 {
      LastProperty(text, properties[0], r);
      assert properties == [properties[0]];
    } else {
      PropertiesRead(properties[1..], r);
      PropertyThenProperties(text, properties, PropertiesClosed(properties[1..], r), r);
    }
  }

  lemma {:induction false} FirstPropertyReads(properties: seq<Property>, r: Text)
    requires properties != [] && IsPlain(properties[0].value)
    ensures ReadProperty(PropertiesClosed(properties, r)) == Some((properties[0], AfterProperty(properties, r)))
    decreases properties, 0
  {
    PropertiesStep(properties, r);
    PlainReads(properties[0].value, AfterProperty(properties, r));
    PropertyReads(properties[0], AfterProperty(properties, r));
  }

  /** Followed by nothing, a comma or a closing bracket, a plain text determines its value and what follows. */
  lemma PlainInjective(v: Value, w: Value, r: Text, q: Text)
    requires IsPlain(v) && IsPlain(w) && Delimited(r) && Delimited(q) && Plain(v) + r == Plain(w) + q
    ensures v == w && r == q
  {
    PlainReads(v, r);
    PlainReads(w, q);
  }

  // ----- The normal form is equality up to what printing ignores -----

  lemma {:induction false} NormalPropertyMembers(properties: seq<Property>, f: Property)
    ensures f in NormalProperties(properties) <==>
      exists i :: 0 <= i < |properties| && !properties[i].value.Undefined? && f == Property(properties[i].key, Normal(properties[i].value))
  {
    if properties != [] {
      var rest := properties[1..];
      NormalPropertyMembers(rest, f);
      if f in NormalProperties(rest) {
        var i :| 0 <= i < |rest| && !rest[i].value.Undefined? && f == Property(rest[i].key, Normal(rest[i].value));
        assert properties[i + 1] == rest[i];
      }
      forall i | 0 <= i < |properties| && !properties[i].value.Undefined? && f == Property(properties[i].key, Normal(properties[i].value))
        ensures f in NormalProperties(properties)
      {
        if i > 0 {
          assert rest[i - 1] == properties[i];
        }
      }
    }
  }

  lemma {:induction false} NormalKeysDistinct(properties: seq<Property>)
    requires DistinctKeys(properties)
    ensures DistinctKeys(NormalProperties(properties))
  {
    if properties != [] {
      var rest := properties[1..];
      NormalKeysDistinct(rest);
      forall f | f in NormalProperties(rest)
        ensures f.key != properties[0].key
      {
        NormalPropertyMembers(rest, f);
        var i :| 0 <= i < |rest| && f.key == rest[i].key;
        assert properties[i + 1] == rest[i];
      }
    }
  }

  lemma ByKeyIsStrict()
    ensures StrictOrder(ByKey())
  {
    forall x: Property
      ensures !ByKey()(x, x)
    {
      BeforeIrreflexive(x.key);
    }
    forall x: Property, y: Property, z: Property | ByKey()(x, y) && ByKey()(y, z)
      ensures ByKey()(x, z)
    {
      BeforeTransitive(x.key, y.key, z.key);
    }
  }

  lemma SortedByKey(properties: seq<Property>)
    requires DistinctKeys(properties)
    ensures Sorted(ByKey(), Sort(ByKey(), properties))
    ensures forall f :: f in Sort(ByKey(), properties) <==> f in properties
  {
    ByKeyIsStrict();
    forall i, j | 0 <= i < j < |properties|
      ensures ByKey()(properties[i], properties[j]) || ByKey()(properties[j], properties[i])
    {
      BeforeTotal(properties[i].key, properties[j].key);
    }
    SortSorts(ByKey(), properties);
    SortKeeps(ByKey(), properties);
    SameMembers(Sort(ByKey(), properties), properties);
  }

  /** With distinct keys, sorted properties are equal exactly when the same properties are there. */
  lemma SortedByKeyEqual(a: seq<Property>, b: seq<Property>)
    requires DistinctKeys(a) && DistinctKeys(b)
    ensures Sort(ByKey(), a) == Sort(ByKey(), b) <==> forall f :: f in a <==> f in b
  {
    ByKeyIsStrict();
    SortedByKey(a);
    SortedByKey(b);
    if forall f :: f in a <==> f in b {
      SortedOnce(ByKey(), Sort(ByKey(), a), Sort(ByKey(), b));
    }
  }

  /** The second value has this property's key, defined, with an equivalent value. */
  predicate Matched(p: Property, properties: seq<Property>) {
    exists j :: 0 <= j < |properties| && properties[j].key == p.key
      && !properties[j].value.Undefined? && Normal(properties[j].value) == Normal(p.value)
  }

  lemma MatchedIsMember(p: Property, properties: seq<Property>)
    ensures Matched(p, properties) <==> Property(p.key, Normal(p.value)) in NormalProperties(properties)
  {
    NormalPropertyMembers(properties, Property(p.key, Normal(p.value)));
  }

  predicate AllMatched(a: seq<Property>, b: seq<Property>) {
    forall i :: 0 <= i < |a| && !a[i].value.Undefined? ==> Matched(a[i], b)
  }

  lemma MatchedMembers(a: seq<Property>, b: seq<Property>)
    requires AllMatched(a, b)
    ensures forall f :: f in NormalProperties(a) ==> f in NormalProperties(b)
  {
    forall f | f in NormalProperties(a)
      ensures f in NormalProperties(b)
    {
      NormalPropertyMembers(a, f);
      var i :| 0 <= i < |a| && !a[i].value.Undefined? && f == Property(a[i].key, Normal(a[i].value));
      assert Matched(a[i], b);
      MatchedIsMember(a[i], b);
    }
  }

  lemma MembersMatched(a: seq<Property>, b: seq<Property>)
    requires forall f :: f in NormalProperties(a) ==> f in NormalProperties(b)
    ensures AllMatched(a, b)
  {
    forall i | 0 <= i < |a| && !a[i].value.Undefined?
      ensures Matched(a[i], b)
    {
      var f := Property(a[i].key, Normal(a[i].value));
      NormalPropertyMembers(a, f);
      assert f in NormalProperties(b);
      MatchedIsMember(a[i], b);
    }
  }

  lemma CoveredIsMatched(a: seq<Property>, b: seq<Property>)
    requires DistinctKeys(b) && AllMatched(a, b) && KeysCovered(a, b)
    ensures AllMatched(b, a)
  {
    forall j | 0 <= j < |b| && !b[j].value.Undefined?
      ensures Matched(b[j], a)
    {
      assert DefinesKey(a, b[j].key);
      var i :| 0 <= i < |a| && a[i].key == b[j].key && !a[i].value.Undefined?;
      assert Matched(a[i], b);
    }
  }

  lemma MatchedIsCovered(a: seq<Property>, b: seq<Property>)
    requires AllMatched(b, a)
    ensures KeysCovered(a, b)
  {
    forall j | 0 <= j < |b| && !b[j].value.Undefined?
      ensures DefinesKey(a, b[j].key)
    {
      assert Matched(b[j], a);
    }
  }

  lemma NormalObjectsEqual(a: seq<Property>, b: seq<Property>)
    requires DistinctKeys(a) && DistinctKeys(b)
    ensures Normal(Object(a)) == Normal(Object(b)) <==> AllMatched(a, b) && KeysCovered(a, b)
  {
    NormalKeysDistinct(a);
    NormalKeysDistinct(b);
    SortedByKeyEqual(NormalProperties(a), NormalProperties(b));
    if AllMatched(a, b) && KeysCovered(a, b) {
      MatchedMembers(a, b);
      CoveredIsMatched(a, b);
      MatchedMembers(b, a);
    }
    if Normal(Object(a)) == Normal(Object(b)) {
      MembersMatched(a, b);
      MembersMatched(b, a);
      MatchedIsCovered(a, b);
    }
  }

  lemma {:induction false} NormalItemAt(items: seq<Value>, i: nat)
    requires i < |items|
    ensures NormalItems(items)[i] == Normal(ItemOf(items[i]))
  {
    if i > 0 {
      NormalItemAt(items[1..], i - 1);
    }
  }

  /** Two values have the same normal form exactly when they are equivalent. */
  lemma {:induction false} NormalIsEquivalence(v: Value, w: Value)
    requires WellFormed(v) && WellFormed(w)
    ensures Equivalent(v, w) <==> Normal(v) == Normal(w)
    decreases v, 0
  {
    match v
    case Array(items) =>
      if w.Array? && |items| == |w.items| {
        ItemsEquivalent(items, w.items);
      }
    case Object(properties) =>
      if w.Object? {
        NormalObjectsEqual(properties, w.properties);
        forall i | 0 <= i < |properties|
          ensures HasEquivalent(properties[i].key, properties[i].value, w.properties) <==> Matched(properties[i], w.properties)
        {
          MatchedIsEquivalent(properties[i].key, properties[i].value, w.properties);
        }
      }
    case _ =>
  }

  lemma {:induction false} ItemsEquivalent(a: seq<Value>, b: seq<Value>)
    requires |a| == |b|
    requires forall i :: 0 <= i < |a| ==> WellFormed(a[i]) && WellFormed(b[i])
    ensures Equivalent(Array(a), Array(b)) <==> NormalItems(a) == NormalItems(b)
    decreases a
  {
    forall i | 0 <= i < |a|
      ensures (if a[i].Undefined? then b[i].Undefined? || b[i].Null? else Equivalent(a[i], ItemOf(b[i]))) <==> NormalItems(a)[i] == NormalItems(b)[i]
    {
      NormalItemAt(a, i);
      NormalItemAt(b, i);
      if !a[i].Undefined? {
        NormalIsEquivalence(a[i], ItemOf(b[i]));
      }
    }
  }

  lemma {:induction false} MatchedIsEquivalent(key: Text, value: Value, properties: seq<Property>)
    requires WellFormed(value) && forall j :: 0 <= j < |properties| ==> WellFormed(properties[j].value)
    ensures HasEquivalent(key, value, properties) <==> Matched(Property(key, value), properties)
    decreases value, 1
  {
    forall j | 0 <= j < |properties|
      ensures Equivalent(value, properties[j].value) <==> Normal(properties[j].value) == Normal(value)
    {
      NormalIsEquivalence(value, properties[j].value);
    }
  }

  // ----- What is accepted -----

  /** Finite numbers and plain values only, undefined only where it is dropped or becomes null, so many levels down. */
  predicate Acceptable(v: Value, levels: nat) {
    match v
    case Number(n) => !n.NonFinite?
    case Array(items) =>
      forall i :: 0 <= i < |items| ==>
        levels > 0 && (items[i].Undefined? || Acceptable(items[i], levels - 1))
    case Object(properties) =>
      forall i :: 0 <= i < |properties| && !properties[i].value.Undefined? ==>
        levels > 0 && Acceptable(properties[i].value, levels - 1)
    case Undefined => false
    case Foreign => false
    case _ => true
  }

  predicate Accepted(v: Value, depth: nat) {
    depth <= MAX_DEPTH && Acceptable(v, MAX_DEPTH - depth)
  }

  lemma {:induction false} AcceptedAt(v: Value, depth: nat)
    ensures Print(v, depth).Some? <==> Accepted(v, depth)
    decreases DepthLeft(depth), 0
  {
    if depth <= MAX_DEPTH {
      match v
      case Array(items) =>
        AcceptedItems(items, depth + 1);
        AcceptedArray(items, depth);
      case Object(properties) =>
        AcceptedProperties(Sort(ByKey(), Defined(properties)), depth + 1);
        AcceptedObject(properties, depth);
      case _ =>
    }
  }

  predicate AllItemsAccepted(items: seq<Value>, depth: nat) {
    forall i :: 0 <= i < |items| ==> Accepted(ItemOf(items[i]), depth)
  }

  lemma {:induction false} AcceptedItems(items: seq<Value>, depth: nat)
    ensures PrintItems(items, depth).Some? <==> AllItemsAccepted(items, depth)
    decreases DepthLeft(depth), |items|
  {
    if items != [] {
      AcceptedAt(ItemOf(items[0]), depth);
      AcceptedItems(items[1..], depth);
      assert forall i :: 0 <= i < |items[1..]| ==> items[1..][i] == items[i + 1];
    }
  }

  lemma AcceptedArray(items: seq<Value>, depth: nat)
    requires depth <= MAX_DEPTH && (PrintItems(items, depth + 1).Some? <==> AllItemsAccepted(items, depth + 1))
    ensures Print(Array(items), depth).Some? <==> Accepted(Array(items), depth)
  {
    var v := Array(items);
    assert Acceptable(v, MAX_DEPTH - depth) <==> AllItemsAccepted(items, depth + 1) by {
      forall i | 0 <= i < |items|
        ensures Accepted(ItemOf(items[i]), depth + 1)
          <==> MAX_DEPTH - depth > 0 && (items[i].Undefined? || Acceptable(items[i], MAX_DEPTH - depth - 1))
      {
      }
    }
  }

  predicate AllAccepted(properties: seq<Property>, depth: nat) {
    forall p :: p in properties ==> Accepted(p.value, depth)
  }

  lemma {:induction false} AcceptedProperties(properties: seq<Property>, depth: nat)
    ensures PrintProperties(properties, depth).Some? <==> AllAccepted(properties, depth)
    decreases DepthLeft(depth), |properties|
  {
    if properties != [] {
      AcceptedAt(properties[0].value, depth);
      AcceptedProperties(properties[1..], depth);
      assert forall p :: p in properties <==> p == properties[0] || p in properties[1..];
    }
  }

  lemma SortedMembers(properties: seq<Property>)
    ensures forall p :: p in Sort(ByKey(), Defined(properties)) <==> p in properties && !p.value.Undefined?
  {
    SortKeeps(ByKey(), Defined(properties));
    SameMembers(Sort(ByKey(), Defined(properties)), Defined(properties));
    DefinedMembers(properties);
  }

  lemma AcceptedSorted(properties: seq<Property>, depth: nat)
    ensures AllAccepted(Sort(ByKey(), Defined(properties)), depth)
      <==> (forall i :: 0 <= i < |properties| && !properties[i].value.Undefined? ==> Accepted(properties[i].value, depth))
  {
    SortedMembers(properties);
    assert forall p :: p in properties <==> exists i :: 0 <= i < |properties| && properties[i] == p;
  }

  lemma AcceptedObject(properties: seq<Property>, depth: nat)
    requires depth <= MAX_DEPTH
    requires PrintProperties(Sort(ByKey(), Defined(properties)), depth + 1).Some?
      <==> AllAccepted(Sort(ByKey(), Defined(properties)), depth + 1)
    ensures Print(Object(properties), depth).Some? <==> Accepted(Object(properties), depth)
  {
    AcceptedSorted(properties, depth + 1);
    assert Print(Object(properties), depth).Some? <==> AllAccepted(Sort(ByKey(), Defined(properties)), depth + 1);
  }

  /** Printing succeeds exactly on the acceptable values of at most 32 levels. */
  lemma AcceptedValues(v: Value)
    ensures Print(v, 0).Some? <==> Acceptable(v, 32)
  {
    AcceptedAt(v, 0);
  }

  // ----- The printed text is read back, keys ascending -----

  /** In every object, however deep, the keys stand in strictly ascending order. */
  predicate Ascending(v: Value) {
    match v
    case Array(items) => forall i :: 0 <= i < |items| ==> Ascending(items[i])
    case Object(properties) =>
      && (forall i, j :: 0 <= i < j < |properties| ==> Before(properties[i].key, properties[j].key))
      && (forall i :: 0 <= i < |properties| ==> Ascending(properties[i].value))
    case _ => true
  }

  lemma {:induction false} NormalAscends(v: Value)
    requires WellFormed(v)
    ensures Ascending(Normal(v))
    decreases v
  {
    match v
    case Array(items) =>
      forall i | 0 <= i < |items|
        ensures Ascending(NormalItems(items)[i])
      {
        NormalItemAt(items, i);
        if !items[i].Undefined? {
          NormalAscends(items[i]);
        }
      }
    case Object(properties) =>
      var normal := NormalProperties(properties);
      forall f | f in normal
        ensures Ascending(f.value)
      {
        NormalPropertyMembers(properties, f);
        var i :| 0 <= i < |properties| && f == Property(properties[i].key, Normal(properties[i].value));
        NormalAscends(properties[i].value);
      }
      NormalKeysDistinct(properties);
      SortedAscends(normal);
    case _ =>
  }

  lemma SortedAscends(properties: seq<Property>)
    requires DistinctKeys(properties) && forall f :: f in properties ==> Ascending(f.value)
    ensures Ascending(Object(Sort(ByKey(), properties)))
  {
    var sorted := Sort(ByKey(), properties);
    SortedByKey(properties);
    forall i, j | 0 <= i < j < |sorted|
      ensures Before(sorted[i].key, sorted[j].key)
    {
      assert ByKey()(sorted[i], sorted[j]);
    }
    forall i | 0 <= i < |sorted|
      ensures Ascending(sorted[i].value)
    {
      assert sorted[i] in properties;
    }
  }

  lemma AscendingKeysDiffer(properties: seq<Property>)
    requires Ascending(Object(properties))
    ensures DistinctKeys(properties)
  {
    forall i, j | 0 <= i < j < |properties|
      ensures properties[i].key != properties[j].key
    {
      BeforeIrreflexive(properties[i].key);
    }
  }

  /** A plain value with its keys ascending is its own normal form. */
  lemma {:induction false} NormalFixed(v: Value)
    requires IsPlain(v) && Ascending(v)
    ensures WellFormed(v) && Normal(v) == v
    decreases v
  {
    match v
    case Array(items) =>
      forall i | 0 <= i < |items|
        ensures WellFormed(items[i]) && NormalItems(items)[i] == items[i]
      {
        NormalItemAt(items, i);
        NormalFixed(items[i]);
      }
    case Object(properties) =>
      forall i | 0 <= i < |properties|
        ensures WellFormed(properties[i].value) && Normal(properties[i].value) == properties[i].value
      {
        NormalFixed(properties[i].value);
      }
      AscendingKeysDiffer(properties);
      NormalPropertiesFixed(properties);
      SortFixed(properties);
    case _ =>
  }

  lemma {:induction false} NormalPropertiesFixed(properties: seq<Property>)
    requires forall i :: 0 <= i < |properties| ==> IsPlain(properties[i].value)
    requires forall i :: 0 <= i < |properties| ==> Normal(properties[i].value) == properties[i].value
    ensures NormalProperties(properties) == properties
  {
    if properties != [] {
      NormalPropertiesFixed(properties[1..]);
      assert properties == [properties[0]] + properties[1..];
    }
  }

  lemma SortFixed(properties: seq<Property>)
    requires Ascending(Object(properties)) && DistinctKeys(properties)
    ensures Sort(ByKey(), properties) == properties
  {
    ByKeyIsStrict();
    SortedByKey(properties);
    assert Sorted(ByKey(), properties);
    SortedOnce(ByKey(), Sort(ByKey(), properties), properties);
  }

  // ----- The main results -----

  /** A printed text is JSON of a value equivalent to the printed one, and in its objects the keys ascend. */
  lemma PrintReadsBack(v: Value)
    requires WellFormed(v) && Print(v, 0).Some?
    ensures Read(Print(v, 0).value).Some?
    ensures Equivalent(v, Read(Print(v, 0).value).value) && Ascending(Read(Print(v, 0).value).value)
  {
    PrintIsPlain(v, 0);
    PrintedIsPlain(v, 0);
    PlainReads(Normal(v), []);
    assert Plain(Normal(v)) + [] == Plain(Normal(v));
    NormalAscends(v);
    NormalFixed(Normal(v));
    NormalIsEquivalence(v, Normal(v));
  }

  /** Accepted values print the same text exactly when they are equivalent. */
  lemma SameTextIffEquivalent(v: Value, w: Value)
    requires WellFormed(v) && WellFormed(w) && Print(v, 0).Some? && Print(w, 0).Some?
    ensures Print(v, 0) == Print(w, 0) <==> Equivalent(v, w)
  {
    PrintIsPlain(v, 0);
    PrintIsPlain(w, 0);
    PrintedIsPlain(v, 0);
    PrintedIsPlain(w, 0);
    NormalIsEquivalence(v, w);
    if Print(v, 0) == Print(w, 0) {
      PlainInjective(Normal(v), Normal(w), [], []);
    }
  }
}
