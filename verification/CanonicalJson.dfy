/** stableJsonStringify and the audit seal of packages/mcp-server/src/governance.ts. */
module CanonicalJson {
  import opened Common
  import opened JsonStrings
  import JsonNumbers

  /** An own property of a JavaScript object, in insertion order. */
  datatype Entry<+X> = Entry(key: Text, value: X)

  datatype Json =
    | Null
    | Bool(b: bool)
    | Num(n: JsonNumbers.Number)
    | Str(s: Text)
    | Arr(items: seq<Json>)
    | Obj(fields: seq<Entry<Json>>)

  // --- Key order: section 3.2.3 of RFC 8785 ---------------------------------

  /** Lexicographic order of UTF-16 code units. */
  predicate Before(a: Text, b: Text) {
    if b == [] then false
    else if a == [] then true
    else a[0] < b[0] || (a[0] == b[0] && Before(a[1..], b[1..]))
  }

  function Insert<X>(e: Entry<X>, s: seq<Entry<X>>): seq<Entry<X>> {
    if s == [] || Before(e.key, s[0].key) then [e] + s else [s[0]] + Insert(e, s[1..])
  }

  function Sorted<X>(s: seq<Entry<X>>): seq<Entry<X>> {
    if s == [] then [] else Insert(s[0], Sorted(s[1..]))
  }

  /** One text comes before another exactly where it is a proper beginning of it, or has the smaller code unit
    at the first place where they differ. */
  lemma {:induction false} BeforeIff(a: Text, b: Text)
    ensures Before(a, b) <==> exists k: nat ::
      k <= |a| && k < |b| && a[..k] == b[..k] && (k == |a| || a[k] < b[k])
  {
    if Before(a, b) {
      var k := FirstDifference(a, b);
      assert k <= |a| && k < |b| && a[..k] == b[..k];
    }
    if k: nat :| k <= |a| && k < |b| && a[..k] == b[..k] && (k == |a| || a[k] < b[k]) {
      BeforeAt(a, b, k);
    }
  }

  lemma {:induction false} FirstDifference(a: Text, b: Text) returns (k: nat)
    requires Before(a, b)
    ensures k <= |a| && k < |b| && a[..k] == b[..k] && (k == |a| || a[k] < b[k])
  {
    k := 0;
    if a != [] && a[0] == b[0] {
      var n := FirstDifference(a[1..], b[1..]);
      k := n + 1;
      assert a[..k] == [a[0]] + a[1..][..n] && b[..k] == [b[0]] + b[1..][..n];
    }
  }

  lemma {:induction false} BeforeAt(a: Text, b: Text, k: nat)
    requires k <= |a| && k < |b| && a[..k] == b[..k] && (k == |a| || a[k] < b[k])
    ensures Before(a, b)
  {
    if k > 0 {
      assert a[0] == a[..k][0] && b[0] == b[..k][0];
      assert a[1..][..k - 1] == a[..k][1..] && b[1..][..k - 1] == b[..k][1..];
      BeforeAt(a[1..], b[1..], k - 1);
    }
  }

  // --- stableJsonStringify --------------------------------------------------

  const NULL_TEXT: Text := [110, 117, 108, 108]
  const TRUE_TEXT: Text := [116, 114, 117, 101]
  const FALSE_TEXT: Text := [102, 97, 108, 115, 101]
  const COMMA: Unit := 44
  const COLON: Unit := 58
  const OPEN_BRACKET: Unit := 91
  const CLOSE_BRACKET: Unit := 93
  const OPEN_BRACE: Unit := 123
  const CLOSE_BRACE: Unit := 125

  /** Object keys are unique. */
  ghost predicate WellFormed(v: Json) {
    match v
    case Arr(items) => forall i :: 0 <= i < |items| ==> WellFormed(items[i])
    case Obj(fields) =>
      && (forall i, j :: 0 <= i < j < |fields| ==> fields[i].key != fields[j].key)
      && forall i :: 0 <= i < |fields| ==> WellFormed(fields[i].value)
    case _ => true
  }

  /** Joins texts with commas; a missing text is a thrown error. */
  function Joined(parts: seq<Option<Text>>): Option<Text> {
    if parts == [] then Some([])
    else if parts[0].None? then None
    else if |parts| == 1 then parts[0]
    else
      match Joined(parts[1..])
      case None => None
      case Some(rest) => Some(parts[0].value + [COMMA] + rest)
  }

  function Member(e: Entry<Option<Text>>): Option<Text> {
    match e.value case None => None case Some(t) => Some(Quote(e.key) + [COLON] + t)
  }

  function Members(es: seq<Entry<Option<Text>>>): (r: seq<Option<Text>>)
    ensures |r| == |es| && forall i :: 0 <= i < |es| ==> r[i] == Member(es[i])
  {
    if es == [] then [] else [Member(es[0])] + Members(es[1..])
  }

  function Bracketed(open: Unit, body: Option<Text>, close: Unit): Option<Text> {
    match body case None => None case Some(t) => Some([open] + t + [close])
  }

  /** None is the error thrown for a non-finite number anywhere inside. */
  function Stringify(v: Json): Option<Text>
    decreases v, 1
  {
    match v
    case Null => Some(NULL_TEXT)
    case Bool(b) => Some(if b then TRUE_TEXT else FALSE_TEXT)
    case Str(s) => Some(Quote(s))
    case Num(n) => JsonNumbers.NumberText(n)
    case Arr(items) => Bracketed(OPEN_BRACKET, Joined(StringifyItems(items)), CLOSE_BRACKET)
    case Obj(fields) =>
      Bracketed(OPEN_BRACE, Joined(Members(Sorted(StringifyFields(fields)))), CLOSE_BRACE)
  }

  function StringifyItems(items: seq<Json>): (r: seq<Option<Text>>)
    ensures |r| == |items| && forall i :: 0 <= i < |items| ==> r[i] == Stringify(items[i])
    decreases items, 0
  {
    if items == [] then [] else [Stringify(items[0])] + StringifyItems(items[1..])
  }

  function StringifyFields(fields: seq<Entry<Json>>): (r: seq<Entry<Option<Text>>>)
    ensures |r| == |fields|
    ensures forall i :: 0 <= i < |fields| ==> r[i] == Entry(fields[i].key, Stringify(fields[i].value))
    decreases fields, 0
  {
    if fields == [] then []
    else [Entry(fields[0].key, Stringify(fields[0].value))] + StringifyFields(fields[1..])
  }

  // --- Equality of values ---------------------------------------------------

  /** Equal as JSON values: arrays position by position, objects as maps, both zeros alike. */
  ghost predicate SameValue(a: Json, b: Json) {
    match a
    case Null => b.Null?
    case Bool(x) => b == Bool(x)
    case Str(s) => b == Str(s)
    case Num(n) => b.Num? && (n == b.n || (n.Zero? && b.n.Zero?))
    case Arr(items) =>
      b.Arr? && |items| == |b.items| && forall i :: 0 <= i < |items| ==> SameValue(items[i], b.items[i])
    case Obj(fields) =>
      && b.Obj? && |fields| == |b.fields|
      && forall i :: 0 <= i < |fields| ==>
           exists j :: 0 <= j < |b.fields| && b.fields[j].key == fields[i].key && SameValue(fields[i].value, b.fields[j].value)
  }

  ghost predicate AllFinite(v: Json) {
    match v
    case Num(n) => !n.NonFinite?
    case Arr(items) => forall i :: 0 <= i < |items| ==> AllFinite(items[i])
    case Obj(fields) => forall i :: 0 <= i < |fields| ==> AllFinite(fields[i].value)
    case _ => true
  }

  // --- The canonical value --------------------------------------------------

  /** Fields sorted at every level and zero without a sign. */
  function Canon(v: Json): Json
    decreases v, 1
  {
    match v
    case Num(n) => if n.Zero? then Num(JsonNumbers.Zero(false)) else v
    case Arr(items) => Arr(CanonItems(items))
    case Obj(fields) => Obj(Sorted(CanonFields(fields)))
    case _ => v
  }

  function CanonItems(items: seq<Json>): (r: seq<Json>)
    ensures |r| == |items| && forall i :: 0 <= i < |items| ==> r[i] == Canon(items[i])
    decreases items, 0
  {
    if items == [] then [] else [Canon(items[0])] + CanonItems(items[1..])
  }

  function CanonFields(fields: seq<Entry<Json>>): (r: seq<Entry<Json>>)
    ensures |r| == |fields|
    ensures forall i :: 0 <= i < |fields| ==> r[i] == Entry(fields[i].key, Canon(fields[i].value))
    decreases fields, 0
  {
    if fields == [] then [] else [Entry(fields[0].key, Canon(fields[0].value))] + CanonFields(fields[1..])
  }

  // --- Printing without sorting ---------------------------------------------

  function Print(v: Json): Text
    decreases v, 1
  {
    match v
    case Null => NULL_TEXT
    case Bool(b) => if b then TRUE_TEXT else FALSE_TEXT
    case Str(s) => Quote(s)
    case Num(n) => if n.NonFinite? then [] else JsonNumbers.NumberText(n).value
    case Arr(items) => [OPEN_BRACKET] + PrintItems(items) + [CLOSE_BRACKET]
    case Obj(fields) => [OPEN_BRACE] + PrintFields(fields) + [CLOSE_BRACE]
  }

  function PrintItems(items: seq<Json>): Text
    decreases items, 0
  {
    if items == [] then []
    else if |items| == 1 then Print(items[0])
    else Print(items[0]) + [COMMA] + PrintItems(items[1..])
  }

  function PrintField(e: Entry<Json>): Text
    decreases e, 2
  {
    Quote(e.key) + [COLON] + Print(e.value)
  }

  function PrintFields(fields: seq<Entry<Json>>): Text
    decreases fields, 0
  {
    if fields == [] then []
    else if |fields| == 1 then PrintField(fields[0])
    else PrintField(fields[0]) + [COMMA] + PrintFields(fields[1..])
  }

  // --- A reader for RFC 8259 texts without insignificant white space --------

  datatype Parsed = Parsed(value: Json, rest: Text)
  datatype ParsedItems = ParsedItems(items: seq<Json>, rest: Text)
  datatype ParsedFields = ParsedFields(fields: seq<Entry<Json>>, rest: Text)

  predicate Starts(t: Text, p: Text) {
    |p| <= |t| && t[..|p|] == p
  }

  function Parse(t: Text): (r: Option<Parsed>)
    ensures r.Some? ==> |r.value.rest| < |t|
    decreases |t|, 2
  {
    if t == [] then None
    else if t[0] == QUOTE then
      match Unquote(t[1..])
      case None => None
      case Some(s) => Some(Parsed(Str(s.text), s.rest))
    else if t[0] == OPEN_BRACKET then
      if |t| >= 2 && t[1] == CLOSE_BRACKET then Some(Parsed(Arr([]), t[2..]))
      else
        (match ParseItems(t[1..])
         case None => None
         case Some(p) => Some(Parsed(Arr(p.items), p.rest)))
    else if t[0] == OPEN_BRACE then
      if |t| >= 2 && t[1] == CLOSE_BRACE then Some(Parsed(Obj([]), t[2..]))
      else
        (match ParseFields(t[1..])
         case None => None
         case Some(p) => Some(Parsed(Obj(p.fields), p.rest)))
    else if Starts(t, NULL_TEXT) then Some(Parsed(Null, t[4..]))
    else if Starts(t, TRUE_TEXT) then Some(Parsed(Bool(true), t[4..]))
    else if Starts(t, FALSE_TEXT) then Some(Parsed(Bool(false), t[5..]))
    else
      var n := JsonNumbers.Span(t);
      if n == 0 then None else Some(Parsed(Num(JsonNumbers.NumberValue(t[..n])), t[n..]))
  }

  /** One or more values separated by commas, up to the closing bracket. */
  function ParseItems(t: Text): (r: Option<ParsedItems>)
    ensures r.Some? ==> |r.value.rest| < |t|
    decreases |t|, 3
  {
    match Parse(t)
    case None => None
    case Some(p) =>
      if p.rest == [] then None
      else if p.rest[0] == CLOSE_BRACKET then Some(ParsedItems([p.value], p.rest[1..]))
      else if p.rest[0] == COMMA then
        (match ParseItems(p.rest[1..])
         case None => None
         case Some(q) => Some(ParsedItems([p.value] + q.items, q.rest)))
      else None
  }

  function ParseField(t: Text): (r: Option<ParsedFields>)
    ensures r.Some? ==> |r.value.rest| < |t| && |r.value.fields| == 1
    decreases |t|, 1
  {
    if t == [] || t[0] != QUOTE then None
    else
      match Unquote(t[1..])
      case None => None
      case Some(k) =>
        if k.rest == [] || k.rest[0] != COLON then None
        else
          match Parse(k.rest[1..])
          case None => None
          case Some(p) => Some(ParsedFields([Entry(k.text, p.value)], p.rest))
  }

  function ParseFields(t: Text): (r: Option<ParsedFields>)
    ensures r.Some? ==> |r.value.rest| < |t|
    decreases |t|, 3
  {
    match ParseField(t)
    case None => None
    case Some(p) =>
      if p.rest == [] then None
      else if p.rest[0] == CLOSE_BRACE then Some(ParsedFields(p.fields, p.rest[1..]))
      else if p.rest[0] == COMMA then
        (match ParseFields(p.rest[1..])
         case None => None
         case Some(q) => Some(ParsedFields(p.fields + q.fields, q.rest)))
      else None
  }

  // --- Reading back what was printed ----------------------------------------

  /** Nothing follows, or something that cannot continue a number. */
  ghost predicate Delimited(rest: Text) {
    rest == [] || !JsonNumbers.NumberUnit(rest[0])
  }

  /** A canonical value reads back as itself: finite, and without a negative zero. */
  ghost predicate Printable(v: Json) {
    match v
    case Num(n) => !n.NonFinite? && n != JsonNumbers.Zero(true)
    case Arr(items) => forall i :: 0 <= i < |items| ==> Printable(items[i])
    case Obj(fields) => forall i :: 0 <= i < |fields| ==> Printable(fields[i].value)
    case _ => true
  }

  /** The first character of a printed value tells its kind, and is never a closing bracket. */
  lemma {:induction false} PrintStarts(v: Json)
    requires Printable(v)
    ensures Print(v) != []
    ensures Print(v)[0] != CLOSE_BRACKET && Print(v)[0] != CLOSE_BRACE
  {
    if v.Num? {
      JsonNumbers.NumberUnits(v.n);
      hide JsonNumbers.NumberText;
    }
  }

  lemma {:induction false} NotLiteral(t: Text)
    requires t != [] && (t[0] == JsonNumbers.MINUS || 48 <= t[0] <= 57)
    ensures !Starts(t, NULL_TEXT) && !Starts(t, TRUE_TEXT) && !Starts(t, FALSE_TEXT)
  {
    assert |t| >= 4 ==> t[..4][0] == t[0];
    assert |t| >= 5 ==> t[..5][0] == t[0];
  }

  lemma {:induction false} ParseDigits(t: Text)
    requires t != [] && (t[0] == JsonNumbers.MINUS || 48 <= t[0] <= 57)
    ensures var n := JsonNumbers.Span(t);
            n > 0 ==> Parse(t) == Some(Parsed(Num(JsonNumbers.NumberValue(t[..n])), t[n..]))
  {
    hide JsonNumbers.NumberValue, JsonNumbers.Span, ParseItems, ParseFields, Unquote, Starts;
    NotLiteral(t);
  }

  lemma {:induction false} ParseNumber(n: JsonNumbers.Number, rest: Text)
    requires Printable(Num(n)) && Delimited(rest)
    ensures Parse(Print(Num(n)) + rest) == Some(Parsed(Num(n), rest))
  {
    hide JsonNumbers.NumberText, JsonNumbers.NumberValue, JsonNumbers.Span, Parse;
    var t := JsonNumbers.NumberText(n).value;
    JsonNumbers.NumberUnits(n);
    JsonNumbers.SpanStops(t, rest);
    JsonNumbers.NumberBack(n);
    assert (t + rest)[..|t|] == t && (t + rest)[|t|..] == rest;
    assert (t + rest)[0] == t[0];
    ParseDigits(t + rest);
  }

  lemma {:induction false} ParseString(s: Text, rest: Text)
    ensures Parse(Quote(s) + rest) == Some(Parsed(Str(s), rest))
  {
    UnquoteQuote(s, rest);
    hide Unquote, Escape;
    assert (Quote(s) + rest)[1..] == Escape(s) + [QUOTE] + rest;
  }

  lemma {:induction false} ParseLiteral(v: Json, rest: Text)
    requires v.Null? || v.Bool?
    ensures Parse(Print(v) + rest) == Some(Parsed(v, rest))
  {
    var t := Print(v) + rest;
    assert t[..|Print(v)|] == Print(v) && t[|Print(v)|..] == rest;
    assert t[0] == Print(v)[0];
  }

  /** Any printable value followed by a delimiter reads back as itself and leaves the rest. */
  lemma {:induction false} ParsePrint(v: Json, rest: Text)
    requires Printable(v) && Delimited(rest)
    ensures Parse(Print(v) + rest) == Some(Parsed(v, rest))
    decreases v, 1
  {
    match v {
      case Null => ParseLiteral(v, rest);
      case Bool(_) => ParseLiteral(v, rest);
      case Num(n) => ParseNumber(n, rest);
      case Str(s) => ParseString(s, rest);
      case Arr(items) =>
        if items != [] {
          ParseItemsPrint(items, rest);
        }
        ParseArray(items, rest);
      case Obj(fields) =>
        if fields != [] {
          ParseFieldsPrint(fields, rest);
        }
        ParseObject(fields, rest);
    }
  }

  lemma {:induction false} ParseArray(items: seq<Json>, rest: Text)
    requires Printable(Arr(items))
    requires items != [] ==> ParseItems(PrintItems(items) + [CLOSE_BRACKET] + rest) == Some(ParsedItems(items, rest))
    ensures Parse(Print(Arr(items)) + rest) == Some(Parsed(Arr(items), rest))
  {
    hide ParseItems, ParseFields, Unquote, Starts, JsonNumbers.NumberValue, JsonNumbers.Span;
    var body := PrintItems(items);
    var t := Print(Arr(items)) + rest;
    if items == [] {
      assert t == [OPEN_BRACKET, CLOSE_BRACKET] + rest && t[2..] == rest;
    } else {
      assert Printable(items[0]);
      PrintStarts(items[0]);
      assert body != [] && body[0] == Print(items[0])[0];
      hide Print, PrintItems;
      assert t == [OPEN_BRACKET] + (body + [CLOSE_BRACKET] + rest);
      assert t[1..] == body + [CLOSE_BRACKET] + rest && t[1] == body[0];
    }
  }

  lemma {:induction false} ParseObject(fields: seq<Entry<Json>>, rest: Text)
    requires Printable(Obj(fields))
    requires fields != [] ==> ParseFields(PrintFields(fields) + [CLOSE_BRACE] + rest) == Some(ParsedFields(fields, rest))
    ensures Parse(Print(Obj(fields)) + rest) == Some(Parsed(Obj(fields), rest))
  {
    hide ParseItems, ParseFields, Unquote, Starts, Escape, JsonNumbers.NumberValue, JsonNumbers.Span;
    var body := PrintFields(fields);
    var t := Print(Obj(fields)) + rest;
    if fields == [] {
      assert t == [OPEN_BRACE, CLOSE_BRACE] + rest && t[2..] == rest;
    } else {
      assert body != [] && body[0] == PrintField(fields[0])[0] == QUOTE;
      hide Print, PrintFields;
      assert t == [OPEN_BRACE] + (body + [CLOSE_BRACE] + rest);
      assert t[1..] == body + [CLOSE_BRACE] + rest && t[1] == body[0];
    }
  }

  lemma {:induction false} ParseItemsStep(t: Text, v: Json, rest: Text)
    requires Parse(t) == Some(Parsed(v, rest)) && rest != []
    ensures rest[0] == CLOSE_BRACKET ==> ParseItems(t) == Some(ParsedItems([v], rest[1..]))
    ensures rest[0] == COMMA && ParseItems(rest[1..]).Some? ==>
              var q := ParseItems(rest[1..]).value;
              ParseItems(t) == Some(ParsedItems([v] + q.items, q.rest))
  {
    hide Parse;
  }

  lemma {:induction false} PrintItemsHead(items: seq<Json>, end: Text)
    requires items != []
    ensures PrintItems(items) + end
            == Print(items[0]) + if |items| == 1 then end else [COMMA] + (PrintItems(items[1..]) + end)
  {
    hide Print;
  }

  lemma {:induction false} ParseItemsPrint(items: seq<Json>, rest: Text)
    requires items != [] && forall i :: 0 <= i < |items| ==> Printable(items[i])
    ensures ParseItems(PrintItems(items) + [CLOSE_BRACKET] + rest) == Some(ParsedItems(items, rest))
    decreases items, 0
  {
    hide Parse, Print, ParseItems, PrintItems, Printable;
    var end := [CLOSE_BRACKET] + rest;
    Reassociate(PrintItems(items), [CLOSE_BRACKET], rest);
    PrintItemsHead(items, end);
    assert Printable(items[0]);
    if |items| == 1 {
      ParsePrint(items[0], end);
      ParseItemsStep(PrintItems(items) + end, items[0], end);
      assert end[1..] == rest && [items[0]] == items;
    } else {
      ParseItemsPrint(items[1..], rest);
      Reassociate(PrintItems(items[1..]), [CLOSE_BRACKET], rest);
      var after := [COMMA] + (PrintItems(items[1..]) + end);
      ParsePrint(items[0], after);
      ParseItemsStep(PrintItems(items) + end, items[0], after);
      assert after[1..] == PrintItems(items[1..]) + end && [items[0]] + items[1..] == items;
    }
  }

  lemma {:induction false} ParseFieldPrint(e: Entry<Json>, rest: Text)
    requires Printable(e.value) && Delimited(rest)
    ensures ParseField(PrintField(e) + rest) == Some(ParsedFields([e], rest))
    decreases e, 2
  {
    hide Parse, Print, Unquote, Escape;
    ParsePrint(e.value, rest);
    var value := Print(e.value) + rest;
    var after := [COLON] + value;
    UnquoteQuote(e.key, after);
    var t := PrintField(e) + rest;
    assert t == [QUOTE] + (Escape(e.key) + [QUOTE] + after);
    assert t[1..] == Escape(e.key) + [QUOTE] + after && after[1..] == value;
  }

  lemma {:induction false} ParseFieldsStep(t: Text, e: Entry<Json>, rest: Text)
    requires ParseField(t) == Some(ParsedFields([e], rest)) && rest != []
    ensures rest[0] == CLOSE_BRACE ==> ParseFields(t) == Some(ParsedFields([e], rest[1..]))
    ensures rest[0] == COMMA && ParseFields(rest[1..]).Some? ==>
              var q := ParseFields(rest[1..]).value;
              ParseFields(t) == Some(ParsedFields([e] + q.fields, q.rest))
  {
    hide ParseField;
  }

  lemma {:induction false} PrintFieldsHead(fields: seq<Entry<Json>>, end: Text)
    requires fields != []
    ensures PrintFields(fields) + end
            == PrintField(fields[0]) + if |fields| == 1 then end else [COMMA] + (PrintFields(fields[1..]) + end)
  {
    hide PrintField;
  }

  lemma {:induction false} ParseFieldsPrint(fields: seq<Entry<Json>>, rest: Text)
    requires fields != [] && forall i :: 0 <= i < |fields| ==> Printable(fields[i].value)
    ensures ParseFields(PrintFields(fields) + [CLOSE_BRACE] + rest) == Some(ParsedFields(fields, rest))
    decreases fields, 0
  {
    hide ParseField, PrintField, ParseFields, PrintFields, Printable;
    var end := [CLOSE_BRACE] + rest;
    Reassociate(PrintFields(fields), [CLOSE_BRACE], rest);
    PrintFieldsHead(fields, end);
    if |fields| == 1 {
      ParseFieldPrint(fields[0], end);
      ParseFieldsStep(PrintFields(fields) + end, fields[0], end);
      assert end[1..] == rest && [fields[0]] == fields;
    } else {
      ParseFieldsPrint(fields[1..], rest);
      Reassociate(PrintFields(fields[1..]), [CLOSE_BRACE], rest);
      var after := [COMMA] + (PrintFields(fields[1..]) + end);
      ParseFieldPrint(fields[0], after);
      ParseFieldsStep(PrintFields(fields) + end, fields[0], after);
      assert after[1..] == PrintFields(fields[1..]) + end && [fields[0]] + fields[1..] == fields;
    }
  }

  lemma {:induction false} Reassociate(x: Text, y: Text, z: Text)
    ensures x + y + z == x + (y + z)
  {
  }

  // --- Stringify prints the canonical value ---------------------------------

  /** The text of every field, when all print. */
  function PrintedFields(fields: seq<Entry<Json>>): (r: seq<Entry<Option<Text>>>)
    ensures |r| == |fields|
    ensures forall i :: 0 <= i < |fields| ==> r[i] == Entry(fields[i].key, Some(Print(fields[i].value)))
  {
    seq(|fields|, i requires 0 <= i < |fields| => Entry(fields[i].key, Some(Print(fields[i].value))))
  }

  lemma {:induction false} InsertPrinted(e: Entry<Json>, s: seq<Entry<Json>>)
    ensures PrintedFields(Insert(e, s)) == Insert(Entry(e.key, Some(Print(e.value))), PrintedFields(s))
  {
    hide Print, Before;
    if s != [] && !Before(e.key, s[0].key) {
      InsertPrinted(e, s[1..]);
      assert PrintedFields(s)[1..] == PrintedFields(s[1..]);
    }
  }

  /** Sorting commutes with printing the values, as only the keys are compared. */
  lemma {:induction false} SortedPrinted(s: seq<Entry<Json>>)
    ensures PrintedFields(Sorted(s)) == Sorted(PrintedFields(s))
  {
    hide Print, Insert;
    if s == [] {
      assert PrintedFields(s) == [];
    } else {
      SortedPrinted(s[1..]);
      InsertPrinted(s[0], Sorted(s[1..]));
      assert PrintedFields(s)[1..] == PrintedFields(s[1..]);
      assert PrintedFields(s)[0] == Entry(s[0].key, Some(Print(s[0].value)));
    }
  }

  lemma {:induction false} JoinedFields(fields: seq<Entry<Json>>)
    ensures Joined(Members(PrintedFields(fields))) == Some(PrintFields(fields))
  {
    hide Print, Quote;
    if fields != [] {
      JoinedFields(fields[1..]);
      assert PrintedFields(fields)[1..] == PrintedFields(fields[1..]);
      assert Members(PrintedFields(fields))[1..] == Members(PrintedFields(fields[1..]));
      assert Members(PrintedFields(fields))[0] == Some(PrintField(fields[0]));
    }
  }

  lemma {:induction false} JoinedItems(items: seq<Json>, parts: seq<Option<Text>>)
    requires |parts| == |items| && forall i :: 0 <= i < |items| ==> parts[i] == Some(Print(items[i]))
    ensures Joined(parts) == Some(PrintItems(items))
  {
    hide Print;
    if items != [] {
      JoinedItems(items[1..], parts[1..]);
    }
  }

  lemma {:induction false} JoinedThrows(parts: seq<Option<Text>>)
    ensures Joined(parts).None? <==> exists i :: 0 <= i < |parts| && parts[i].None?
  {
    if |parts| > 1 {
      JoinedThrows(parts[1..]);
      if Joined(parts[1..]).None? {
        var i :| 0 <= i < |parts[1..]| && parts[1..][i].None?;
        assert parts[i + 1].None?;
      }
      if j :| 0 <= j < |parts| && parts[j].None? {
        assert j > 0 ==> parts[1..][j - 1].None?;
      }
    }
  }

  lemma {:induction false} InsertElements<X(!new)>(e: Entry<X>, s: seq<Entry<X>>)
    ensures |Insert(e, s)| == |s| + 1
    ensures forall x :: x in Insert(e, s) <==> x == e || x in s
  {
    hide Before;
    if s != [] && !Before(e.key, s[0].key) {
      InsertElements(e, s[1..]);
      assert s == [s[0]] + s[1..];
    }
  }

  lemma {:induction false} SortedElements<X(!new)>(s: seq<Entry<X>>)
    ensures |Sorted(s)| == |s|
    ensures forall x :: x in Sorted(s) <==> x in s
  {
    hide Insert;
    if s != [] {
      SortedElements(s[1..]);
      InsertElements(s[0], Sorted(s[1..]));
      assert s == [s[0]] + s[1..];
    }
  }

  lemma {:induction false} StringifyObj(fields: seq<Entry<Json>>)
    ensures Stringify(Obj(fields)) == Bracketed(OPEN_BRACE, Joined(Members(Sorted(StringifyFields(fields)))), CLOSE_BRACE)
  {
    hide StringifyFields, Sorted, Joined;
  }

  lemma {:induction false} ObjThrows(fields: seq<Entry<Json>>, i: nat)
    requires i < |fields| && Stringify(fields[i].value).None?
    ensures Stringify(Obj(fields)).None?
  {
    hide Stringify, StringifyFields, Sorted, Joined;
    var es := StringifyFields(fields);
    assert es[i] == Entry(fields[i].key, None);
    StringifyObj(fields);
    SortedElements(es);
    assert es[i] in Sorted(es);
    var j :| 0 <= j < |Sorted(es)| && Sorted(es)[j] == es[i];
    assert Members(Sorted(es))[j].None?;
    JoinedThrows(Members(Sorted(es)));
    assert Joined(Members(Sorted(es))).None?;
  }

  /** The code throws exactly on a non-finite number anywhere inside, and otherwise returns the
    text of the canonical value. */
  lemma {:induction false} StringifyPrints(v: Json)
    ensures Stringify(v) == if AllFinite(v) then Some(Print(Canon(v))) else None
    ensures AllFinite(v) ==> Printable(Canon(v))
    decreases v
  {
    match v {
      case Arr(items) =>
        forall i | 0 <= i < |items|
          ensures Stringify(items[i]) == if AllFinite(items[i]) then Some(Print(Canon(items[i]))) else None
          ensures AllFinite(items[i]) ==> Printable(Canon(items[i]))
        {
          StringifyPrints(items[i]);
        }
        ArrPrints(items);
      case Obj(fields) =>
        forall i | 0 <= i < |fields|
          ensures Stringify(fields[i].value)
                  == if AllFinite(fields[i].value) then Some(Print(Canon(fields[i].value))) else None
          ensures AllFinite(fields[i].value) ==> Printable(Canon(fields[i].value))
        {
          StringifyPrints(fields[i].value);
        }
        ObjPrints(fields);
      case _ =>
    }
  }

  lemma {:induction false} ArrPrints(items: seq<Json>)
    requires forall i :: 0 <= i < |items| ==>
               Stringify(items[i]) == if AllFinite(items[i]) then Some(Print(Canon(items[i]))) else None
    requires forall i :: 0 <= i < |items| && AllFinite(items[i]) ==> Printable(Canon(items[i]))
    ensures Stringify(Arr(items)) == if AllFinite(Arr(items)) then Some(Print(Canon(Arr(items)))) else None
    ensures AllFinite(Arr(items)) ==> Printable(Canon(Arr(items)))
  {
    var parts, cs := StringifyItems(items), CanonItems(items);
    JoinedThrows(parts);
    if AllFinite(Arr(items)) {
      assert forall i :: 0 <= i < |items| ==> AllFinite(items[i]);
      JoinedItems(cs, parts);
      assert Stringify(Arr(items)) == Some([OPEN_BRACKET] + PrintItems(cs) + [CLOSE_BRACKET]);
    } else {
      var i :| 0 <= i < |items| && !AllFinite(items[i]);
      assert parts[i].None?;
    }
  }

  /** Every field prints as its canonical value, or throws if that is not finite. */
  ghost predicate FieldsPrint(fields: seq<Entry<Json>>) {
    forall i :: 0 <= i < |fields| ==>
      && Stringify(fields[i].value)
         == (if AllFinite(fields[i].value) then Some(Print(Canon(fields[i].value))) else None)
      && (AllFinite(fields[i].value) ==> Printable(Canon(fields[i].value)))
  }

  lemma {:induction false} FiniteFieldsPrint(fields: seq<Entry<Json>>)
    requires FieldsPrint(fields) && forall i :: 0 <= i < |fields| ==> AllFinite(fields[i].value)
    ensures Stringify(Obj(fields)) == Some(Print(Obj(Sorted(CanonFields(fields)))))
  {
    hide Stringify, Sorted, Print, PrintFields, Canon, AllFinite, Joined, Members;
    var es, cs := StringifyFields(fields), CanonFields(fields);
    assert es == PrintedFields(cs) by {
      forall i | 0 <= i < |fields|
        ensures es[i] == PrintedFields(cs)[i]
      {
        assert AllFinite(fields[i].value);
      }
    }
    SortedPrinted(cs);
    JoinedFields(Sorted(cs));
    StringifyObj(fields);
    PrintObj(Sorted(cs));
  }

  lemma {:induction false} PrintObj(fields: seq<Entry<Json>>)
    ensures Print(Obj(fields)) == [OPEN_BRACE] + PrintFields(fields) + [CLOSE_BRACE]
  {
    hide PrintFields;
  }

  lemma {:induction false} SortedPrintable(fields: seq<Entry<Json>>)
    requires FieldsPrint(fields) && forall i :: 0 <= i < |fields| ==> AllFinite(fields[i].value)
    ensures Printable(Obj(Sorted(CanonFields(fields))))
  {
    hide Stringify, Sorted, Print, Canon, AllFinite;
    var cs := CanonFields(fields);
    SortedElements(cs);
    forall i | 0 <= i < |Sorted(cs)|
      ensures Printable(Sorted(cs)[i].value)
    {
      assert Sorted(cs)[i] in cs;
      var j :| 0 <= j < |cs| && cs[j] == Sorted(cs)[i];
      assert AllFinite(fields[j].value);
    }
  }

  lemma {:induction false} ObjPrints(fields: seq<Entry<Json>>)
    requires FieldsPrint(fields)
    ensures Stringify(Obj(fields)) == if AllFinite(Obj(fields)) then Some(Print(Canon(Obj(fields)))) else None
    ensures AllFinite(Obj(fields)) ==> Printable(Canon(Obj(fields)))
  {
    hide Stringify, Sorted, Print, Printable;
    if AllFinite(Obj(fields)) {
      FiniteFieldsPrint(fields);
      SortedPrintable(fields);
    } else {
      var i :| 0 <= i < |fields| && !AllFinite(fields[i].value);
      ObjThrows(fields, i);
    }
  }

  // --- Canonical values are equal exactly for equal values ------------------

  lemma {:induction false} BeforeTotal(a: Text, b: Text)
    ensures a == b || Before(a, b) || Before(b, a)
    ensures !(Before(a, b) && Before(b, a)) && !Before(a, a)
  {
    if a != [] && b != [] {
      BeforeTotal(a[1..], b[1..]);
      assert a == [a[0]] + a[1..] && b == [b[0]] + b[1..];
    }
    if a != [] {
      BeforeTotal(a[1..], a[1..]);
    }
  }

  lemma {:induction false} BeforeTransitive(a: Text, b: Text, c: Text)
    requires Before(a, b) && Before(b, c)
    ensures Before(a, c)
  {
    if a != [] && a[0] == b[0] && b[0] == c[0] {
      BeforeTransitive(a[1..], b[1..], c[1..]);
    }
  }

  /** Keys strictly increase in the order of section 3.2.3 of RFC 8785. */
  ghost predicate KeyOrdered<X>(s: seq<Entry<X>>) {
    forall i, j :: 0 <= i < j < |s| ==> Before(s[i].key, s[j].key)
  }

  ghost predicate DistinctKeys<X>(s: seq<Entry<X>>) {
    forall i, j :: 0 <= i < j < |s| ==> s[i].key != s[j].key
  }

  lemma {:induction false} InsertOrdered<X(!new)>(e: Entry<X>, s: seq<Entry<X>>)
    requires KeyOrdered(s) && forall i :: 0 <= i < |s| ==> s[i].key != e.key
    ensures KeyOrdered(Insert(e, s))
  {
    if s == [] {
    } else {
      BeforeTotal(e.key, s[0].key);
      if Before(e.key, s[0].key) {
        forall i | 0 <= i < |s|
          ensures Before(e.key, s[i].key)
        {
          if i > 0 {
            BeforeTransitive(e.key, s[0].key, s[i].key);
          }
        }
      } else {
        InsertOrdered(e, s[1..]);
        InsertElements(e, s[1..]);
        var r := Insert(e, s[1..]);
        forall i | 0 <= i < |r|
          ensures Before(s[0].key, r[i].key)
        {
          assert r[i] in r;
          if r[i] != e {
            var j :| 0 <= j < |s[1..]| && s[1..][j] == r[i];
            assert s[j + 1] == r[i];
          }
        }
        hide Before;
        assert Insert(e, s) == [s[0]] + r;
        hide Insert;
        assert KeyOrdered([s[0]] + r);
      }
    }
  }

  lemma {:induction false} SortedOrdered<X(!new)>(s: seq<Entry<X>>)
    requires DistinctKeys(s)
    ensures KeyOrdered(Sorted(s))
  {
    hide Insert, Before;
    if s != [] {
      SortedOrdered(s[1..]);
      SortedElements(s[1..]);
      var r := Sorted(s[1..]);
      forall i | 0 <= i < |r|
        ensures r[i].key != s[0].key
      {
        assert r[i] in r;
        var j :| 0 <= j < |s[1..]| && s[1..][j] == r[i];
        assert s[j + 1] == r[i];
      }
      InsertOrdered(s[0], r);
    }
  }

  lemma {:induction false} OrderedUnique<X(!new)>(s: seq<Entry<X>>, t: seq<Entry<X>>)
    requires KeyOrdered(s) && KeyOrdered(t)
    requires |s| == |t| && forall x :: x in s <==> x in t
    ensures s == t
  {
    if s != [] {
      assert s[0] in s && s[0] in t;
      assert t[0] in t && t[0] in s;
      var i :| 0 <= i < |t| && t[i] == s[0];
      var j :| 0 <= j < |s| && s[j] == t[0];
      BeforeTotal(s[0].key, t[0].key);
      assert i == 0;
      forall x
        ensures x in s[1..] <==> x in t[1..]
      {
        OrderedTail(s, x);
        OrderedTail(t, x);
      }
      OrderedUnique(s[1..], t[1..]);
      assert s == [s[0]] + s[1..] && t == [t[0]] + t[1..];
    }
  }

  lemma {:induction false} OrderedTail<X(!new)>(s: seq<Entry<X>>, x: Entry<X>)
    requires KeyOrdered(s) && s != []
    ensures x in s[1..] <==> x in s && x != s[0]
  {
    if x in s[1..] {
      var j :| 0 <= j < |s[1..]| && s[1..][j] == x;
      assert s[j + 1] == x && Before(s[0].key, s[j + 1].key);
      BeforeTotal(s[0].key, s[0].key);
    }
    if x in s && x != s[0] {
      var j :| 0 <= j < |s| && s[j] == x;
      assert s[1..][j - 1] == x;
    }
  }

  /** A duplicate-free list contained in an equally long one contains it too. */
  lemma {:induction false} SameElements<X(!new)>(s: seq<X>, t: seq<X>)
    requires NoDup(s) && NoDup(t) && |s| == |t|
    requires forall x :: x in s ==> x in t
    ensures forall x :: x in s <==> x in t
  {
    NoDupSize(s);
    NoDupSize(t);
    var a, b := Elements(s), Elements(t);
    assert a <= b;
    assert b == a + (b - a);
    assert |b| == |a| + |b - a|;
    assert b - a == {};
    forall x | x in t
      ensures x in s
    {
      assert x in b;
    }
  }

  lemma {:induction false} SortedSame(s: seq<Entry<Json>>, t: seq<Entry<Json>>)
    requires DistinctKeys(s) && DistinctKeys(t) && |s| == |t|
    requires forall x :: x in s ==> x in t
    ensures Sorted(s) == Sorted(t)
  {
    SameElements(s, t);
    SortedElements(s);
    SortedElements(t);
    SortedOrdered(s);
    SortedOrdered(t);
    OrderedUnique(Sorted(s), Sorted(t));
    hide Sorted, Before;
  }

  /** Canonical values are equal exactly when the values are equal, whatever the insertion order. */
  lemma {:induction false} CanonIffSame(a: Json, b: Json)
    requires WellFormed(a) && WellFormed(b)
    ensures Canon(a) == Canon(b) <==> SameValue(a, b)
    decreases a
  {
    match a {
      case Arr(items) =>
        if b.Arr? && |items| == |b.items| {
          forall i | 0 <= i < |items|
            ensures Canon(items[i]) == Canon(b.items[i]) <==> SameValue(items[i], b.items[i])
          {
            CanonIffSame(items[i], b.items[i]);
          }
          ItemsIffSame(items, b.items);
        } else if b.Arr? {
          assert |CanonItems(items)| != |CanonItems(b.items)|;
        }
      case Obj(fields) =>
        if b.Obj? && |fields| == |b.fields| {
          forall i, j | 0 <= i < |fields| && 0 <= j < |b.fields|
            ensures Canon(fields[i].value) == Canon(b.fields[j].value) <==> SameValue(fields[i].value, b.fields[j].value)
          {
            CanonIffSame(fields[i].value, b.fields[j].value);
          }
          FieldsIffSame(fields, b.fields);
        } else if b.Obj? {
          SortedElements(CanonFields(fields));
          SortedElements(CanonFields(b.fields));
          assert |Sorted(CanonFields(fields))| != |Sorted(CanonFields(b.fields))|;
        }
      case _ =>
    }
  }

  lemma {:induction false} ItemsIffSame(xs: seq<Json>, ys: seq<Json>)
    requires |xs| == |ys|
    requires forall i :: 0 <= i < |xs| ==> (Canon(xs[i]) == Canon(ys[i]) <==> SameValue(xs[i], ys[i]))
    ensures Canon(Arr(xs)) == Canon(Arr(ys)) <==> SameValue(Arr(xs), Arr(ys))
  {
    var cx, cy := CanonItems(xs), CanonItems(ys);
    if cx == cy {
      forall i | 0 <= i < |xs|
        ensures SameValue(xs[i], ys[i])
      {
        assert cx[i] == cy[i];
      }
    }
  }

  lemma {:induction false} FieldsIffSame(xs: seq<Entry<Json>>, ys: seq<Entry<Json>>)
    requires |xs| == |ys| && DistinctKeys(xs) && DistinctKeys(ys)
    requires forall i, j :: 0 <= i < |xs| && 0 <= j < |ys| ==>
               (Canon(xs[i].value) == Canon(ys[j].value) <==> SameValue(xs[i].value, ys[j].value))
    ensures Canon(Obj(xs)) == Canon(Obj(ys)) <==> SameValue(Obj(xs), Obj(ys))
  {
    hide Sorted, Before;
    var cx, cy := CanonFields(xs), CanonFields(ys);
    if Sorted(cx) == Sorted(cy) {
      SortedElements(cx);
      SortedElements(cy);
      forall i | 0 <= i < |xs|
        ensures exists j :: 0 <= j < |ys| && ys[j].key == xs[i].key && SameValue(xs[i].value, ys[j].value)
      {
        assert cx[i] in cx && cx[i] in Sorted(cy) && cx[i] in cy;
        var j :| 0 <= j < |cy| && cy[j] == cx[i];
        assert SameValue(xs[i].value, ys[j].value);
      }
    }
    if SameValue(Obj(xs), Obj(ys)) {
      forall x | x in cx
        ensures x in cy
      {
        var i :| 0 <= i < |cx| && cx[i] == x;
        var j :| 0 <= j < |ys| && ys[j].key == xs[i].key && SameValue(xs[i].value, ys[j].value);
        assert cy[j] == x;
      }
      SortedSame(cx, cy);
    }
  }

  // --- Main results ---------------------------------------------------------

  /** The sealed text is canonical and unambiguous: two finite values have the same text if and
    only if they are equal as JSON values. */
  lemma {:induction false} CanonicalTheorem(a: Json, b: Json)
    requires WellFormed(a) && WellFormed(b) && AllFinite(a) && AllFinite(b)
    ensures Stringify(a) == Stringify(b) <==> SameValue(a, b)
  {
    StringifyPrints(a);
    StringifyPrints(b);
    CanonIffSame(a, b);
    var c, d := Canon(a), Canon(b);
    ParsePrint(c, []);
    ParsePrint(d, []);
    assert Print(c) + [] == Print(c) && Print(d) + [] == Print(d);
    hide Stringify, Print, Parse, Canon, SameValue;
  }

  /** The keys of every object, at every level, strictly increase in code-unit order. */
  ghost predicate AllOrdered(v: Json) {
    match v
    case Arr(items) => forall i :: 0 <= i < |items| ==> AllOrdered(items[i])
    case Obj(fields) => KeyOrdered(fields) && forall i :: 0 <= i < |fields| ==> AllOrdered(fields[i].value)
    case _ => true
  }

  lemma {:induction false} CanonOrdered(v: Json)
    requires WellFormed(v)
    ensures AllOrdered(Canon(v))
    decreases v
  {
    hide Before;
    match v {
      case Arr(items) =>
        forall i | 0 <= i < |items|
          ensures AllOrdered(Canon(items[i]))
        {
          CanonOrdered(items[i]);
        }
      case Obj(fields) =>
        var cs := CanonFields(fields);
        SortedElements(cs);
        SortedOrdered(cs);
        forall i | 0 <= i < |Sorted(cs)|
          ensures AllOrdered(Sorted(cs)[i].value)
        {
          assert Sorted(cs)[i] in cs;
          var j :| 0 <= j < |cs| && cs[j] == Sorted(cs)[i];
          CanonOrdered(fields[j].value);
        }
      case _ =>
    }
  }

  /** The text is the JSON of the value: an RFC 8259 reader returns an equal value, with the keys
    of every object in it in strictly increasing code-unit order. */
  lemma {:induction false} ReadBackTheorem(v: Json)
    requires WellFormed(v) && AllFinite(v)
    ensures Stringify(v).Some?
    ensures var p := Parse(Stringify(v).value);
            && p.Some? && p.value.rest == [] && p.value.value == Canon(v)
            && SameValue(v, p.value.value)
            && AllOrdered(p.value.value)
  {
    StringifyPrints(v);
    var c := Canon(v);
    ParsePrint(c, []);
    assert Print(c) + [] == Print(c);
    CanonIdempotent(v);
    CanonIffSame(v, c);
    CanonOrdered(v);
    hide Stringify, Print, Parse, SameValue, Canon, AllOrdered;
  }

  lemma {:induction false} CanonIdempotent(v: Json)
    requires WellFormed(v)
    ensures Canon(Canon(v)) == Canon(v) && WellFormed(Canon(v))
    decreases v
  {
    match v {
      case Arr(items) =>
        forall i | 0 <= i < |items|
          ensures Canon(Canon(items[i])) == Canon(items[i]) && WellFormed(Canon(items[i]))
        {
          CanonIdempotent(items[i]);
        }
        assert CanonItems(CanonItems(items)) == CanonItems(items);
      case Obj(fields) =>
        forall i | 0 <= i < |fields|
          ensures Canon(Canon(fields[i].value)) == Canon(fields[i].value) && WellFormed(Canon(fields[i].value))
        {
          CanonIdempotent(fields[i].value);
        }
        FieldsIdempotent(fields);
      case _ =>
    }
  }

  lemma {:induction false} FieldsIdempotent(fields: seq<Entry<Json>>)
    requires DistinctKeys(fields)
    requires forall i :: 0 <= i < |fields| ==>
               Canon(Canon(fields[i].value)) == Canon(fields[i].value) && WellFormed(Canon(fields[i].value))
    ensures Canon(Canon(Obj(fields))) == Canon(Obj(fields)) && WellFormed(Canon(Obj(fields)))
  {
    var cs := CanonFields(fields);
    var s := Sorted(cs);
    SortedElements(cs);
    SortedOrdered(cs);
    hide Before, Sorted;
    forall i | 0 <= i < |s|
      ensures Canon(s[i].value) == s[i].value && WellFormed(s[i].value)
    {
      assert s[i] in s && s[i] in cs;
      var j :| 0 <= j < |cs| && cs[j] == s[i];
      assert s[i].value == Canon(fields[j].value);
    }
    assert CanonFields(s) == s;
    OrderedDistinct(s);
    SortedOrdered(s);
    SortedElements(s);
    OrderedUnique(Sorted(s), s);
  }

  lemma {:induction false} OrderedDistinct(s: seq<Entry<Json>>)
    requires KeyOrdered(s)
    ensures DistinctKeys(s)
  {
    forall i, j | 0 <= i < j < |s|
      ensures s[i].key != s[j].key
    {
      assert Before(s[i].key, s[j].key);
      BeforeTotal(s[i].key, s[i].key);
    }
  }

  // --- The audit seal -------------------------------------------------------

  datatype Verdict = Allow | Deny

  /** AuditSealInput; an absent artifact hash and a null one are both None. */
  datatype SealInput = SealInput(
    action: Text, agentId: Text, artifactHash: Option<Text>, connector: Text, decisionId: Text,
    issuedAt: Text, outcome: Verdict, serverName: Text, toolName: Text, workspaceId: Text)

  function VerdictText(v: Verdict): Text {
    if v.Allow? then [65, 76, 76, 79, 87] else [68, 69, 78, 89]
  }

  /** The keys of the object literal that is canonicalised, in source order. */
  function SealKey(k: nat): Text {
    match k
    case 0 => [97, 99, 116, 105, 111, 110]
    case 1 => [97, 103, 101, 110, 116, 73, 100]
    case 2 => [97, 114, 116, 105, 102, 97, 99, 116, 72, 97, 115, 104]
    case 3 => [99, 111, 110, 110, 101, 99, 116, 111, 114]
    case 4 => [100, 101, 99, 105, 115, 105, 111, 110, 73, 100]
    case 5 => [105, 115, 115, 117, 101, 100, 65, 116]
    case 6 => [111, 117, 116, 99, 111, 109, 101]
    case 7 => [115, 101, 114, 118, 101, 114, 78, 97, 109, 101]
    case 8 => [116, 111, 111, 108, 78, 97, 109, 101]
    case _ => [119, 111, 114, 107, 115, 112, 97, 99, 101, 73, 100]
  }

  function SealValue(i: SealInput, k: nat): Json {
    match k
    case 0 => Str(i.action)
    case 1 => Str(i.agentId)
    case 2 => (match i.artifactHash case None => Null case Some(h) => Str(h))
    case 3 => Str(i.connector)
    case 4 => Str(i.decisionId)
    case 5 => Str(i.issuedAt)
    case 6 => Str(VerdictText(i.outcome))
    case 7 => Str(i.serverName)
    case 8 => Str(i.toolName)
    case _ => Str(i.workspaceId)
  }

  function SealObject(i: SealInput): Json {
    Obj(seq(10, k requires 0 <= k => Entry(SealKey(k), SealValue(i, k))))
  }

  function AuditSeal(hmac: (Text, Text) -> Text, i: SealInput, secret: Text): Option<Text> {
    match Stringify(SealObject(i)) case None => None case Some(t) => Some(hmac(secret, t))
  }

  /** Length and first character already tell the ten keys apart. */
  function KeyMark(k: nat): int {
    |SealKey(k)| * 1000 + SealKey(k)[0]
  }

  lemma KeyMarks()
    ensures KeyMark(0) == 6097 && KeyMark(1) == 7097 && KeyMark(2) == 12097 && KeyMark(3) == 9099
    ensures KeyMark(4) == 10100 && KeyMark(5) == 8105 && KeyMark(6) == 7111 && KeyMark(7) == 10115
    ensures KeyMark(8) == 8116 && KeyMark(9) == 11119
  {
  }

  lemma {:induction false} SealKeysDistinct(j: nat, k: nat)
    requires j < k < 10
    ensures SealKey(j) != SealKey(k)
  {
    KeyMarks();
    hide SealKey;
    assert KeyMark(j) != KeyMark(k) by {
      hide KeyMark;
    }
  }

  lemma {:induction false} SealWellFormed(i: SealInput)
    ensures WellFormed(SealObject(i)) && AllFinite(SealObject(i))
  {
    forall j, k | 0 <= j < k < 10
      ensures SealKey(j) != SealKey(k)
    {
      SealKeysDistinct(j, k);
    }
    hide SealKey;
  }

  /** A seal commits to every field: the sealed texts of two inputs agree only if all ten fields do,
    so two different inputs with the same seal exhibit an HMAC collision. */
  lemma {:induction false} SealTheorem(hmac: (Text, Text) -> Text, secret: Text, a: SealInput, b: SealInput)
    ensures Stringify(SealObject(a)) == Stringify(SealObject(b)) <==> a == b
    ensures AuditSeal(hmac, a, secret).Some?
    ensures AuditSeal(hmac, a, secret) == AuditSeal(hmac, b, secret) && a != b ==>
              exists t, u :: t != u && hmac(secret, t) == hmac(secret, u)
  {
    SealWellFormed(a);
    SealWellFormed(b);
    CanonicalTheorem(SealObject(a), SealObject(b));
    ReadBackTheorem(SealObject(a));
    ReadBackTheorem(SealObject(b));
    hide Stringify, Parse, Canon, SameValue, SealObject;
    if SameValue(SealObject(a), SealObject(b)) {
      SealFields(a, b);
    }
  }

  lemma {:induction false} SealFields(a: SealInput, b: SealInput)
    requires SameValue(SealObject(a), SealObject(b))
    ensures a == b
  {
    var x, y := SealObject(a).fields, SealObject(b).fields;
    forall i: nat | i < 10
      ensures SameValue(SealValue(a, i), SealValue(b, i))
    {
      assert x[i] == Entry(SealKey(i), SealValue(a, i));
      hide SealKey, SealValue;
      var j :| 0 <= j < |y| && y[j].key == x[i].key && SameValue(x[i].value, y[j].value);
      assert y[j] == Entry(SealKey(j), SealValue(b, j));
      if j < i {
        SealKeysDistinct(j, i);
      } else if i < j {
        SealKeysDistinct(i, j);
      }
    }
    hide SealKey, SealObject;
    SealValuesDecide(a, b);
  }

  lemma {:induction false} SealValuesDecide(a: SealInput, b: SealInput)
    requires forall i: nat :: i < 10 ==> SameValue(SealValue(a, i), SealValue(b, i))
    ensures a == b
  {
    assert forall i: nat :: i < 10 ==> SealValue(a, i) == SealValue(b, i);
    assert SealValue(a, 0) == SealValue(b, 0) && SealValue(a, 1) == SealValue(b, 1);
    assert SealValue(a, 2) == SealValue(b, 2) && SealValue(a, 3) == SealValue(b, 3);
    assert SealValue(a, 4) == SealValue(b, 4) && SealValue(a, 5) == SealValue(b, 5);
    assert SealValue(a, 6) == SealValue(b, 6) && SealValue(a, 7) == SealValue(b, 7);
    assert SealValue(a, 8) == SealValue(b, 8) && SealValue(a, 9) == SealValue(b, 9);
    assert VerdictText(Allow)[0] != VerdictText(Deny)[0];
  }

  /** The object has the member `name` with value `v`. */
  ghost predicate HasMember(fields: seq<Entry<Json>>, name: string, v: Json) {
    exists j :: 0 <= j < |fields| && fields[j].key == Units(name) && fields[j].value == v
  }

  lemma {:induction false} FirstKeyNames()
    ensures SealKey(0) == Units("action")
    ensures SealKey(1) == Units("agentId")
    ensures SealKey(2) == Units("artifactHash")
    ensures SealKey(3) == Units("connector")
  {
  }

  lemma {:induction false} MiddleKeyNames()
    ensures SealKey(4) == Units("decisionId")
    ensures SealKey(5) == Units("issuedAt")
    ensures SealKey(6) == Units("outcome")
  {
  }

  lemma {:induction false} LastKeyNames()
    ensures SealKey(7) == Units("serverName")
    ensures SealKey(8) == Units("toolName")
    ensures SealKey(9) == Units("workspaceId")
  {
  }

  lemma {:induction false} VerdictNames()
    ensures VerdictText(Allow) == Units("ALLOW") && VerdictText(Deny) == Units("DENY")
  {
  }

  /** Sorting and the canonical form leave the members of the record in place. */
  lemma {:induction false} SealMember(i: SealInput, k: nat, name: string)
    requires k < 10 && SealKey(k) == Units(name)
    ensures Canon(SealObject(i)).Obj? && |Canon(SealObject(i)).fields| == 10
    ensures HasMember(Canon(SealObject(i)).fields, name, SealValue(i, k))
  {
    hide SealKey, Sorted, Units;
    var cs := CanonFields(SealObject(i).fields);
    SortedElements(cs);
    var e := Entry(SealKey(k), SealValue(i, k));
    assert Canon(SealValue(i, k)) == SealValue(i, k);
    assert cs[k] == e && e in cs && e in Sorted(cs);
    var j :| 0 <= j < |Sorted(cs)| && Sorted(cs)[j] == e;
  }

  /** What is sealed, as a JSON reader sees it: a record of exactly ten members, each field of the input
    under its name, the verdict in words, and null for a missing hash; and its HMAC is under the secret. */
  lemma {:induction false} SealReadBack(hmac: (Text, Text) -> Text, secret: Text, i: SealInput)
    ensures var t := Stringify(SealObject(i));
      && t.Some? && AuditSeal(hmac, i, secret) == Some(hmac(secret, t.value))
      && var p := Parse(t.value);
      && p.Some? && p.value.rest == [] && p.value.value.Obj? && KeyOrdered(p.value.value.fields)
      && var fields := p.value.value.fields;
      && |fields| == 10
      && HasMember(fields, "action", Str(i.action))
      && HasMember(fields, "agentId", Str(i.agentId))
      && HasMember(fields, "artifactHash", if i.artifactHash.Some? then Str(i.artifactHash.value) else Null)
      && HasMember(fields, "connector", Str(i.connector))
      && HasMember(fields, "decisionId", Str(i.decisionId))
      && HasMember(fields, "issuedAt", Str(i.issuedAt))
      && HasMember(fields, "outcome", Str(Units(if i.outcome.Allow? then "ALLOW" else "DENY")))
      && HasMember(fields, "serverName", Str(i.serverName))
      && HasMember(fields, "toolName", Str(i.toolName))
      && HasMember(fields, "workspaceId", Str(i.workspaceId))
  {
    hide Stringify, Parse, Canon, SameValue, SealObject, SealKey, HasMember, Units, VerdictText;
    SealWellFormed(i);
    ReadBackTheorem(SealObject(i));
    FirstKeyNames();
    MiddleKeyNames();
    LastKeyNames();
    VerdictNames();
    SealMember(i, 0, "action");
    SealMember(i, 1, "agentId");
    SealMember(i, 2, "artifactHash");
    SealMember(i, 3, "connector");
    SealMember(i, 4, "decisionId");
    SealMember(i, 5, "issuedAt");
    SealMember(i, 6, "outcome");
    SealMember(i, 7, "serverName");
    SealMember(i, 8, "toolName");
    SealMember(i, 9, "workspaceId");
  }
}
