/** Redaction of log attributes: a walk over an object graph that may be shared or cyclic. */
module Redaction {
  import opened Common

  const MAX_DEPTH := 8

  datatype Key = Key(name: string)

  const NO_KEY := Key("")

  /** A value that is no object; Other is a function or a symbol, which is passed on. */
  datatype Prim = Undefined | Null | Text(text: string) | Number(number: real) | Flag(flag: bool)
    | BigInt(big: int) | Other(id: nat)

  type Ref = nat

  datatype Value = Plain(prim: Prim) | Object(ref: Ref)

  /** Object.entries lists a record's fields in order. */
  datatype Field = Field(key: Key, value: Value)

  datatype Node = Array(items: seq<Value>) | Record(fields: seq<Field>)

  /** Every reference has an object; nothing bounds the graph. */
  type Heap = Ref -> Node

  datatype Out = Leaf(prim: Prim) | List(items: seq<Out>) | Map(fields: seq<OutField>)

  datatype OutField = OutField(key: Key, value: Out)

  const REDACTED := Leaf(Text("[REDACTED]"))
  const AT_MAX_DEPTH := Leaf(Text("[MaxDepth]"))
  const CIRCULAR := Leaf(Text("[Circular]"))

  /** The pattern of sensitive keys, and the decimal text of a bigint. */
  datatype Rules = Rules(sensitive: Key -> bool, decimal: int -> string)

  predicate Hides(rules: Rules, key: Key) {
    key.name != "" && rules.sensitive(key)
  }

  function PlainOut(rules: Rules, p: Prim): Out {
    if p.BigInt? then Leaf(Text(rules.decimal(p.big))) else Leaf(p)
  }

  /** The sanitised value, and the objects met so far in the order in which they were entered. */
  datatype Walk<T> = Walk(out: T, seen: seq<Ref>)

  function Sanitize(rules: Rules, h: Heap, value: Value, key: Key, depth: nat, seen: seq<Ref>): Walk<Out>
    decreases MAX_DEPTH - depth, 1
  {
    if Hides(rules, key) then Walk(REDACTED, seen)
    else if value.Plain? then Walk(PlainOut(rules, value.prim), seen)
    else if depth >= MAX_DEPTH then Walk(AT_MAX_DEPTH, seen)
    else if value.ref in seen then Walk(CIRCULAR, seen)
    else
      match h(value.ref)
      case Array(items) =>
        var w := SanitizeItems(rules, h, items, depth, seen + [value.ref]);
        Walk(List(w.out), w.seen)
      case Record(fields) =>
        var w := SanitizeFields(rules, h, fields, depth, seen + [value.ref]);
        Walk(Map(w.out), w.seen)
  }

  function SanitizeItems(rules: Rules, h: Heap, items: seq<Value>, depth: nat, seen: seq<Ref>): Walk<seq<Out>>
    requires depth < MAX_DEPTH
    decreases MAX_DEPTH - depth, 0, |items|
  {
    if items == [] then Walk([], seen)
    else
      var w := SanitizeItems(rules, h, items[..|items| - 1], depth, seen);
      var last := Sanitize(rules, h, items[|items| - 1], NO_KEY, depth + 1, w.seen);
      Walk(w.out + [last.out], last.seen)
  }

  function SanitizeFields(rules: Rules, h: Heap, fields: seq<Field>, depth: nat, seen: seq<Ref>): Walk<seq<OutField>>
    requires depth < MAX_DEPTH
    decreases MAX_DEPTH - depth, 0, |fields|
  {
    if fields == [] then Walk([], seen)
    else
      var w := SanitizeFields(rules, h, fields[..|fields| - 1], depth, seen);
      var f := fields[|fields| - 1];
      var last := Sanitize(rules, h, f.value, f.key, depth + 1, w.seen);
      Walk(w.out + [OutField(f.key, last.out)], last.seen)
  }

  // --- The walk as the source runs it, over one shared set ---------------------

  class Sanitizer {
    const rules: Rules
    const heap: Heap
    var seen: seq<Ref>

    constructor (rules: Rules, heap: Heap)
      ensures seen == [] && this.rules == rules && this.heap == heap
    {
      this.rules, this.heap, seen := rules, heap, [];
    }

    method SanitizeForLog(value: Value, key: Key, depth: nat) returns (out: Out)
      modifies this
      ensures Walk(out, seen) == Sanitize(rules, heap, value, key, depth, old(seen))
      decreases MAX_DEPTH - depth
    {
      if Hides(rules, key) {
        return REDACTED;
      }
      if value.Plain? {
        return PlainOut(rules, value.prim);
      }
      if depth >= MAX_DEPTH {
        return AT_MAX_DEPTH;
      }
      if value.ref in seen {
        return CIRCULAR;
      }
      seen := seen + [value.ref];
      ghost var entered := seen;
      match heap(value.ref) {
        case Array(items) =>
          var outs: seq<Out> := [];
          for i := 0 to |items|
            invariant Walk(outs, seen) == SanitizeItems(rules, heap, items[..i], depth, entered)
          {
            var item := SanitizeForLog(items[i], NO_KEY, depth + 1);
            assert items[..i + 1][..i] == items[..i];
            outs := outs + [item];
          }
          assert items[..|items|] == items;
          out := List(outs);
        case Record(fields) =>
          var sanitized: seq<OutField> := [];
          for i := 0 to |fields|
            invariant Walk(sanitized, seen) == SanitizeFields(rules, heap, fields[..i], depth, entered)
          {
            var child := SanitizeForLog(fields[i].value, fields[i].key, depth + 1);
            assert fields[..i + 1][..i] == fields[..i];
            sanitized := sanitized + [OutField(fields[i].key, child)];
          }
          assert fields[..|fields|] == fields;
          out := Map(sanitized);
      }
    }
  }

  // --- The shape of the output ---------------------------------------------------

  /** How many lists and maps the tree holds. */
  function Containers(out: Out): nat {
    match out
    case Leaf(_) => 0
    case List(items) => 1 + ItemContainers(items)
    case Map(fields) => 1 + FieldContainers(fields)
  }

  function ItemContainers(items: seq<Out>): nat {
    if items == [] then 0 else ItemContainers(items[..|items| - 1]) + Containers(items[|items| - 1])
  }

  function ContainersUnder(field: OutField): nat {
    Containers(field.value)
  }

  function FieldContainers(fields: seq<OutField>): nat {
    if fields == [] then 0
    else
      FieldContainers(fields[..|fields| - 1]) + ContainersUnder(fields[|fields| - 1])
  }

  /** No path has more than `n` lists and maps on it, and what stands under a sensitive key is redacted. */
  ghost predicate Safe(rules: Rules, out: Out, n: int) {
    match out
    case Leaf(_) => true
    case List(items) => n > 0 && forall i :: 0 <= i < |items| ==> Safe(rules, items[i], n - 1)
    case Map(fields) => n > 0 && forall i :: 0 <= i < |fields| ==>
      && Safe(rules, fields[i].value, n - 1)
      && (fields[i].key.name != "" && rules.sensitive(fields[i].key) ==>
            fields[i].value == Leaf(Text("[REDACTED]")))
  }

  /** An object is entered once: the walk only appends objects it has not met, one for each container. */
  ghost predicate Entered(before: seq<Ref>, after: seq<Ref>, containers: nat) {
    && before <= after && |after| == |before| + containers
    && (NoDup(before) ==> NoDup(after))
  }

  /** The walk goes into the object `value` refers to. */
  predicate Enters(rules: Rules, value: Value, key: Key, depth: nat, seen: seq<Ref>) {
    !Hides(rules, key) && value.Object? && depth < MAX_DEPTH && value.ref !in seen
  }

  lemma {:induction false} SanitizeEnters(rules: Rules, h: Heap, value: Value, key: Key, depth: nat, seen: seq<Ref>)
    ensures Enters(rules, value, key, depth, seen) ==>
      Sanitize(rules, h, value, key, depth, seen) ==
      match h(value.ref)
      case Array(items) =>
        var w := SanitizeItems(rules, h, items, depth, seen + [value.ref]); Walk(List(w.out), w.seen)
      case Record(fields) =>
        var w := SanitizeFields(rules, h, fields, depth, seen + [value.ref]); Walk(Map(w.out), w.seen)
    ensures !Enters(rules, value, key, depth, seen) ==>
      Sanitize(rules, h, value, key, depth, seen).out.Leaf? && Sanitize(rules, h, value, key, depth, seen).seen == seen
  {
    hide SanitizeItems, SanitizeFields;
  }

  lemma {:induction false} SanitizeShape(rules: Rules, h: Heap, value: Value, key: Key, depth: nat, seen: seq<Ref>)
    ensures var w := Sanitize(rules, h, value, key, depth, seen);
      Safe(rules, w.out, 8 - depth) && Entered(seen, w.seen, Containers(w.out))
    decreases MAX_DEPTH - depth, 1
  {
    hide Sanitize, SanitizeItems, SanitizeFields, Entered, Hides;
    SanitizeEnters(rules, h, value, key, depth, seen);
    if Enters(rules, value, key, depth, seen) {
      match h(value.ref) {
        case Array(items) =>
          ItemsShape(rules, h, items, depth, seen + [value.ref]);
          var w := SanitizeItems(rules, h, items, depth, seen + [value.ref]);
          EnteredOne(seen, value.ref, w.seen, ItemContainers(w.out));
        case Record(fields) =>
          FieldsShape(rules, h, fields, depth, seen + [value.ref]);
          var w := SanitizeFields(rules, h, fields, depth, seen + [value.ref]);
          EnteredOne(seen, value.ref, w.seen, FieldContainers(w.out));
      }
    } else {
      EnteredNone(seen);
    }
  }

  lemma {:induction false} EnteredNone(seen: seq<Ref>)
    ensures Entered(seen, seen, 0)
  {
  }

  lemma {:induction false} EnteredOne(seen: seq<Ref>, r: Ref, after: seq<Ref>, containers: nat)
    requires r !in seen && Entered(seen + [r], after, containers)
    ensures Entered(seen, after, containers + 1)
  {
    if NoDup(seen) {
      AppendNoDup(seen, r);
    }
  }

  lemma {:induction false} ItemsShape(rules: Rules, h: Heap, items: seq<Value>, depth: nat, seen: seq<Ref>)
    requires depth < MAX_DEPTH
    ensures var w := SanitizeItems(rules, h, items, depth, seen);
      && (forall i :: 0 <= i < |w.out| ==> Safe(rules, w.out[i], MAX_DEPTH - depth - 1))
      && Entered(seen, w.seen, ItemContainers(w.out))
    decreases MAX_DEPTH - depth, 0, |items|
  {
    hide Safe, Containers;
    if items != [] {
      var n := |items| - 1;
      var w := SanitizeItems(rules, h, items[..n], depth, seen);
      ItemsShape(rules, h, items[..n], depth, seen);
      SanitizeShape(rules, h, items[n], NO_KEY, depth + 1, w.seen);
      var all := SanitizeItems(rules, h, items, depth, seen);
      assert all.out[..|all.out| - 1] == w.out;
    }
  }

  lemma {:induction false} FieldsShape(rules: Rules, h: Heap, fields: seq<Field>, depth: nat, seen: seq<Ref>)
    requires depth < MAX_DEPTH
    ensures var w := SanitizeFields(rules, h, fields, depth, seen);
      && (forall i :: 0 <= i < |w.out| ==>
        Safe(rules, w.out[i].value, MAX_DEPTH - depth - 1)
        && (w.out[i].key.name != "" && rules.sensitive(w.out[i].key) ==> w.out[i].value == Leaf(Text("[REDACTED]"))))
      && Entered(seen, w.seen, FieldContainers(w.out))
    decreases MAX_DEPTH - depth, 0, |fields|
  {
    hide Safe, Containers;
    if fields != [] {
      var n := |fields| - 1;
      var w := SanitizeFields(rules, h, fields[..n], depth, seen);
      FieldsShape(rules, h, fields[..n], depth, seen);
      SanitizeShape(rules, h, fields[n].value, fields[n].key, depth + 1, w.seen);
      var all := SanitizeFields(rules, h, fields, depth, seen);
      assert all.out[..|all.out| - 1] == w.out;
    }
  }

  /** What is not sensitive is kept: every container has the items or the keys of its object, in order,
    and plain values stand as they are; only a value too deep is replaced by its mark, or an object
    that is among those `met`. */
  ghost predicate Renders(rules: Rules, h: Heap, value: Value, key: Key, depth: nat, out: Out, met: seq<Ref>)
    decreases out, 1
  {
    if key.name != "" && rules.sensitive(key) then out == Leaf(Text("[REDACTED]"))
    else if value.Plain? then
      out == Leaf(if value.prim.BigInt? then Text(rules.decimal(value.prim.big)) else value.prim)
    else if depth >= 8 then out == Leaf(Text("[MaxDepth]"))
    else
      (out == Leaf(Text("[Circular]")) && value.ref in met) ||
      match (h(value.ref), out)
      case (Array(items), List(outs)) =>
        |outs| == |items| && forall i :: 0 <= i < |outs| ==> Renders(rules, h, items[i], NO_KEY, depth + 1, outs[i], met)
      case (Record(fields), Map(outs)) =>
        |outs| == |fields| && forall i :: 0 <= i < |outs| ==> RendersField(rules, h, fields[i], depth + 1, outs[i], met)
      case (_, _) => false
  }

  ghost predicate RendersField(rules: Rules, h: Heap, field: Field, depth: nat, out: OutField, met: seq<Ref>)
    decreases out, 0
  {
    out.key == field.key && Renders(rules, h, field.value, field.key, depth, out.value, met)
  }

  lemma {:induction false} RendersMore(rules: Rules, h: Heap, value: Value, key: Key, depth: nat, out: Out,
                                       met: seq<Ref>, more: seq<Ref>)
    requires Renders(rules, h, value, key, depth, out, met) && met <= more
    ensures Renders(rules, h, value, key, depth, out, more)
    decreases out
  {
    assert forall r :: r in met ==> r in more;
    if !(key.name != "" && rules.sensitive(key)) && value.Object? && depth < 8 && !out.Leaf? {
      match (h(value.ref), out) {
        case (Array(items), List(outs)) =>
          forall i | 0 <= i < |outs|
            ensures Renders(rules, h, items[i], NO_KEY, depth + 1, outs[i], more)
          {
            RendersMore(rules, h, items[i], NO_KEY, depth + 1, outs[i], met, more);
          }
        case (Record(fields), Map(outs)) =>
          forall i | 0 <= i < |outs|
            ensures RendersField(rules, h, fields[i], depth + 1, outs[i], more)
          {
            assert RendersField(rules, h, fields[i], depth + 1, outs[i], met);
            RendersMore(rules, h, fields[i].value, fields[i].key, depth + 1, outs[i].value, met, more);
          }
        case (_, _) =>
      }
    }
  }

  lemma {:induction false} SanitizeRenders(rules: Rules, h: Heap, value: Value, key: Key, depth: nat, seen: seq<Ref>)
    ensures var w := Sanitize(rules, h, value, key, depth, seen);
      Renders(rules, h, value, key, depth, w.out, w.seen)
    ensures Sanitize(rules, h, value, key, depth, seen).out == CIRCULAR ==>
      Hides(rules, key) || value.Plain? || value.ref in seen
    decreases MAX_DEPTH - depth, 1
  {
    if !Hides(rules, key) && value.Object? && depth < MAX_DEPTH && value.ref !in seen {
      match h(value.ref) {
        case Array(items) => ItemsRender(rules, h, items, depth, seen + [value.ref]);
        case Record(fields) => FieldsRender(rules, h, fields, depth, seen + [value.ref]);
      }
    }
  }

  lemma {:induction false} ItemsRender(rules: Rules, h: Heap, items: seq<Value>, depth: nat, seen: seq<Ref>)
    requires depth < MAX_DEPTH
    ensures var w := SanitizeItems(rules, h, items, depth, seen);
      && |w.out| == |items|
      && forall i :: 0 <= i < |w.out| ==> Renders(rules, h, items[i], NO_KEY, depth + 1, w.out[i], w.seen)
    decreases MAX_DEPTH - depth, 0, |items|
  {
    hide Renders, Sanitize;
    if items != [] {
      var n := |items| - 1;
      ItemsRender(rules, h, items[..n], depth, seen);
      var w := SanitizeItems(rules, h, items[..n], depth, seen);
      SanitizeRenders(rules, h, items[n], NO_KEY, depth + 1, w.seen);
      SanitizeGrows(rules, h, items[n], NO_KEY, depth + 1, w.seen);
      var all := SanitizeItems(rules, h, items, depth, seen);
      forall i | 0 <= i < n
        ensures Renders(rules, h, items[i], NO_KEY, depth + 1, all.out[i], all.seen)
      {
        RendersMore(rules, h, items[i], NO_KEY, depth + 1, w.out[i], w.seen, all.seen);
      }
    }
  }

  lemma {:induction false} SanitizeGrows(rules: Rules, h: Heap, value: Value, key: Key, depth: nat, seen: seq<Ref>)
    ensures seen <= Sanitize(rules, h, value, key, depth, seen).seen
  {
    SanitizeShape(rules, h, value, key, depth, seen);
  }

  lemma {:induction false} FieldsRender(rules: Rules, h: Heap, fields: seq<Field>, depth: nat, seen: seq<Ref>)
    requires depth < MAX_DEPTH
    ensures var w := SanitizeFields(rules, h, fields, depth, seen);
      && |w.out| == |fields|
      && forall i :: 0 <= i < |w.out| ==> RendersField(rules, h, fields[i], depth + 1, w.out[i], w.seen)
    decreases MAX_DEPTH - depth, 0, |fields|
  {
    hide Renders, Sanitize;
    if fields != [] {
      var n := |fields| - 1;
      FieldsRender(rules, h, fields[..n], depth, seen);
      var w := SanitizeFields(rules, h, fields[..n], depth, seen);
      SanitizeRenders(rules, h, fields[n].value, fields[n].key, depth + 1, w.seen);
      SanitizeGrows(rules, h, fields[n].value, fields[n].key, depth + 1, w.seen);
      var all := SanitizeFields(rules, h, fields, depth, seen);
      forall i | 0 <= i < n
        ensures RendersField(rules, h, fields[i], depth + 1, all.out[i], all.seen)
      {
        assert RendersField(rules, h, fields[i], depth + 1, w.out[i], w.seen);
        RendersMore(rules, h, fields[i].value, fields[i].key, depth + 1, w.out[i].value, w.seen, all.seen);
      }
      var last := Sanitize(rules, h, fields[n].value, fields[n].key, depth + 1, w.seen);
      assert all.out[n] == OutField(fields[n].key, last.out);
    }
  }

  // --- Non-interference --------------------------------------------------------------

  /** A correspondence of the references of two heaps. */
  type Rel = (Ref, Ref) -> bool

  ghost predicate Same(r: Rel, a: Value, b: Value) {
    (a == b && a.Plain?) || (a.Object? && b.Object? && r(a.ref, b.ref))
  }

  /** Two objects agree but for the values under sensitive keys. */
  ghost predicate SameNode(rules: Rules, r: Rel, a: Node, b: Node) {
    match (a, b)
    case (Array(xs), Array(ys)) => |xs| == |ys| && forall i :: 0 <= i < |xs| ==> Same(r, xs[i], ys[i])
    case (Record(fs), Record(gs)) => SameFields(rules, r, fs, gs)
    case (_, _) => false
  }

  ghost predicate SameFields(rules: Rules, r: Rel, fs: seq<Field>, gs: seq<Field>) {
    && |fs| == |gs|
    && forall i :: 0 <= i < |fs| ==>
      fs[i].key == gs[i].key && (Hides(rules, fs[i].key) || Same(r, fs[i].value, gs[i].value))
  }

  /** The correspondence is one-to-one, and corresponding objects agree. */
  ghost predicate Agree(rules: Rules, g: Heap, h: Heap, r: Rel) {
    && (forall a, b :: r(a, b) ==> SameNode(rules, r, g(a), h(b)))
    && (forall a, b, c :: r(a, b) && r(a, c) ==> b == c)
    && (forall a, b, c :: r(a, c) && r(b, c) ==> a == b)
  }

  ghost predicate SameSeen(r: Rel, s: seq<Ref>, t: seq<Ref>) {
    |s| == |t| && forall i :: 0 <= i < |s| ==> r(s[i], t[i])
  }

  lemma {:induction false} SeenAlike(rules: Rules, g: Heap, h: Heap, r: Rel, s: seq<Ref>, t: seq<Ref>, a: Ref, b: Ref)
    requires Agree(rules, g, h, r) && SameSeen(r, s, t) && r(a, b)
    ensures a in s <==> b in t
  {
    if a in s {
      var i :| 0 <= i < |s| && s[i] == a;
      assert r(a, t[i]);
    }
    if b in t {
      var i :| 0 <= i < |t| && t[i] == b;
      assert r(s[i], b);
    }
  }

  lemma AgreeAt(rules: Rules, g: Heap, h: Heap, r: Rel, a: Ref, b: Ref)
    requires Agree(rules, g, h, r) && r(a, b)
    ensures SameNode(rules, r, g(a), h(b))
  {
  }

  /** Two graphs that agree but below sensitive keys, under any renaming of their references,
    are sanitised alike. */
  lemma {:induction false} NonInterference(rules: Rules, g: Heap, h: Heap, r: Rel, a: Value, b: Value, key: Key,
      depth: nat, s: seq<Ref>, t: seq<Ref>)
    requires Agree(rules, g, h, r) && SameSeen(r, s, t)
    requires Hides(rules, key) || Same(r, a, b)
    ensures var v, w := Sanitize(rules, g, a, key, depth, s), Sanitize(rules, h, b, key, depth, t);
      v.out == w.out && SameSeen(r, v.seen, w.seen)
    decreases MAX_DEPTH - depth, 1
  {
    hide Agree;
    if !Hides(rules, key) && a.Object? && depth < MAX_DEPTH {
      SeenAlike(rules, g, h, r, s, t, a.ref, b.ref);
      if a.ref !in s {
        AgreeAt(rules, g, h, r, a.ref, b.ref);
        match (g(a.ref), h(b.ref)) {
          case (Array(xs), Array(ys)) =>
            ItemsAlike(rules, g, h, r, xs, ys, depth, s + [a.ref], t + [b.ref]);
          case (Record(fs), Record(gs)) =>
            FieldsAlike(rules, g, h, r, fs, gs, depth, s + [a.ref], t + [b.ref]);
          case (_, _) =>
        }
      }
    }
  }

  lemma {:induction false} ItemsAlike(rules: Rules, g: Heap, h: Heap, r: Rel, xs: seq<Value>, ys: seq<Value>,
      depth: nat, s: seq<Ref>, t: seq<Ref>)
    requires depth < MAX_DEPTH && Agree(rules, g, h, r) && SameSeen(r, s, t)
    requires |xs| == |ys| && forall i :: 0 <= i < |xs| ==> Same(r, xs[i], ys[i])
    ensures var v, w := SanitizeItems(rules, g, xs, depth, s), SanitizeItems(rules, h, ys, depth, t);
      v.out == w.out && SameSeen(r, v.seen, w.seen)
    decreases MAX_DEPTH - depth, 0, |xs|
  {
    hide Agree, Sanitize, SameSeen, Same;
    if xs != [] {
      var n := |xs| - 1;
      ItemsAlike(rules, g, h, r, xs[..n], ys[..n], depth, s, t);
      NonInterference(rules, g, h, r, xs[n], ys[n], NO_KEY, depth + 1,
        SanitizeItems(rules, g, xs[..n], depth, s).seen, SanitizeItems(rules, h, ys[..n], depth, t).seen);
    }
  }

  lemma {:induction false} FieldsAlike(rules: Rules, g: Heap, h: Heap, r: Rel, fs: seq<Field>, gs: seq<Field>,
      depth: nat, s: seq<Ref>, t: seq<Ref>)
    requires depth < MAX_DEPTH && Agree(rules, g, h, r) && SameSeen(r, s, t) && SameFields(rules, r, fs, gs)
    ensures var v, w := SanitizeFields(rules, g, fs, depth, s), SanitizeFields(rules, h, gs, depth, t);
      v.out == w.out && SameSeen(r, v.seen, w.seen)
    decreases MAX_DEPTH - depth, 0, |fs|
  {
    hide Agree, Sanitize, SameSeen, Same;
    if fs != [] {
      var n := |fs| - 1;
      FieldsAlike(rules, g, h, r, fs[..n], gs[..n], depth, s, t);
      NonInterference(rules, g, h, r, fs[n].value, gs[n].value, fs[n].key, depth + 1,
        SanitizeFields(rules, g, fs[..n], depth, s).seen, SanitizeFields(rules, h, gs[..n], depth, t).seen);
    }
  }

  // --- The attributes of a log entry ---------------------------------------------------

  /** What becomes of one attribute; None leaves it out. */
  datatype Attribute<A> = Attribute(key: Key, value: A)

  /** Turning a sanitised tree into an attribute value, and the value that says "[REDACTED]". */
  datatype Format<!A> = Format(normalize: Out -> Option<A>, redacted: A)

  function Sanitized<A>(rules: Rules, format: Format<A>, h: Heap, attr: Field): seq<Attribute<A>> {
    match format.normalize(Sanitize(rules, h, attr.value, attr.key, 0, []).out)
    case None => []
    case Some(value) => [Attribute(attr.key, value)]
  }

  function LogFields<A>(rules: Rules, format: Format<A>, h: Heap, attrs: seq<Field>): seq<Attribute<A>> {
    if attrs == [] then []
    else LogFields(rules, format, h, attrs[..|attrs| - 1]) + Sanitized(rules, format, h, attrs[|attrs| - 1])
  }

  /** The fields for traces: a sensitive key is caught before its value is looked at. The set of
    objects met is a fresh one for every attribute. */
  method RedactAttributes<A>(rules: Rules, format: Format<A>, h: Heap, attrs: seq<Field>)
    returns (safe: seq<Attribute<A>>)
    requires !rules.sensitive(NO_KEY) && format.normalize(REDACTED) == Some(format.redacted)
    ensures safe == LogFields(rules, format, h, attrs)
  {
    safe := [];
    for i := 0 to |attrs|
      invariant safe == LogFields(rules, format, h, attrs[..i])
    {
      assert attrs[..i + 1][..i] == attrs[..i];
      var attr := attrs[i];
      if rules.sensitive(attr.key) {
        safe := safe + [Attribute(attr.key, format.redacted)];
        continue;
      }
      var sanitizer := new Sanitizer(rules, h);
      var sanitized := sanitizer.SanitizeForLog(attr.value, attr.key, 0);
      assert Walk(sanitized, sanitizer.seen) == Sanitize(rules, h, attr.value, attr.key, 0, []);
      match format.normalize(sanitized) {
        case Some(value) => safe := safe + [Attribute(attr.key, value)];
        case None => assert safe + [] == safe;
      }
    }
    assert attrs[..|attrs|] == attrs;
  }

  /** What is logged does not depend on anything under a sensitive key. */
  lemma {:induction false} LoggedAlike<A>(rules: Rules, format: Format<A>, g: Heap, h: Heap, r: Rel,
      attrs: seq<Field>, others: seq<Field>)
    requires Agree(rules, g, h, r) && SameFields(rules, r, attrs, others)
    ensures LogFields(rules, format, g, attrs) == LogFields(rules, format, h, others)
  {
    hide Agree, Sanitize;
    if attrs != [] {
      var n := |attrs| - 1;
      LoggedAlike(rules, format, g, h, r, attrs[..n], others[..n]);
      NonInterference(rules, g, h, r, attrs[n].value, others[n].value, attrs[n].key, 0, [], []);
    }
  }
}
