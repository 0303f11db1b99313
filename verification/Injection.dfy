/** Writing a granted credential into the tool input, in place, at a dotted path. */
module Injection {
  import opened Common
  import SessionGuard

  /** An object or array of the parsed input: its own properties. */
  class JsObject {
    var props: map<string, Slot>

    constructor ()
      ensures props == map[]
    {
      props := map[];
    }
  }

  datatype Slot = Scalar(text: string) | Null | Child(target: JsObject)

  datatype Verdict = Injected | Refused | Thrown

  predicate Unsafe(part: string) {
    part == "__proto__" || part == "prototype" || part == "constructor"
  }

  predicate AllowedFor(connector: string, path: string) {
    match connector
    case "stripe" =>
      path in ["apiKey", "token", "auth.token", "stripeKey", "stripe_key", "key", "auth.apiKey", "auth.api_key"]
    case "mock" => path in ["token", "apiKey", "key", "stripeKey", "auth.token"]
    case _ => false
  }

  /** A name that the table of connectors inherits: what it finds there is no list. */
  predicate Inherited(connector: string) {
    connector == "constructor" || connector == "__proto__"
  }

  function Parts(path: string): (parts: seq<string>)
    ensures |parts| >= 1
  {
    SessionGuard.SplitDots(path)
  }

  predicate AnyUnsafe(path: string) {
    exists i :: 0 <= i < |Parts(path)| && Unsafe(Parts(path)[i])
  }

  /** Whether a path may be written at all, for an input that is an object or is not;
    `lower` is the platform's lower case. */
  function Guard(isObject: bool, path: string, connector: string, lower: string -> string): Verdict {
    if !isObject || path == "" then Refused
    else if AnyUnsafe(path) then Refused
    else if connector != "" && Inherited(lower(connector)) then Thrown
    else if connector != "" && !AllowedFor(lower(connector), path) then Refused
    else Injected
  }

  /** What may be written: a path without unsafe parts into an object, and for a named connector only the
    parameters it is known to take. */
  lemma {:induction false} InjectedIff(isObject: bool, path: string, connector: string, lower: string -> string)
    ensures Guard(isObject, path, connector, lower) == Injected <==>
      && isObject && path != ""
      && "__proto__" !in Parts(path) && "prototype" !in Parts(path) && "constructor" !in Parts(path)
      && (connector == ""
          || (lower(connector) == "stripe" && path in {"apiKey", "token", "auth.token", "stripeKey", "stripe_key",
                                                       "key", "auth.apiKey", "auth.api_key"})
          || (lower(connector) == "mock" && path in {"token", "apiKey", "key", "stripeKey", "auth.token"}))
  {
    AnyUnsafeIff(path);
    hide Parts, AnyUnsafe;
    assert "stripe"[0] != "constructor"[0] && "stripe"[0] != "__proto__"[0];
    assert "mock"[0] != "constructor"[0] && "mock"[0] != "__proto__"[0] && "mock"[0] != "stripe"[0];
  }

  lemma {:induction false} AnyUnsafeIff(path: string)
    ensures AnyUnsafe(path) <==>
      "__proto__" in Parts(path) || "prototype" in Parts(path) || "constructor" in Parts(path)
  {
    hide Parts;
  }

  /** The input as it is parsed: its objects and their properties. */
  type Shape = map<JsObject, map<string, Slot>>

  ghost predicate Current(shape: Shape)
    reads shape.Keys
  {
    forall o :: o in shape ==> o.props == shape[o]
  }

  /** The objects refer only to one another, and never back up. */
  ghost predicate Descending(shape: Shape, rank: JsObject -> nat) {
    forall o, k :: o in shape && k in shape[o] && shape[o][k].Child? ==>
      shape[o][k].target in shape && rank(shape[o][k].target) < rank(o)
  }

  lemma Below(shape: Shape, rank: JsObject -> nat, o: JsObject, part: string)
    requires Descending(shape, rank) && o in shape && part in shape[o] && shape[o][part].Child?
    ensures shape[o][part].target in shape && rank(shape[o][part].target) < rank(o)
  {
  }

  /** The properties an object had; a new one had none. */
  ghost function Before(shape: Shape, o: JsObject): map<string, Slot> {
    if o in shape then shape[o] else map[]
  }

  /** Object `o` now has properties `props`: only `part` has changed, and leads to `next`, which is the
    object that was there, or none of the input's if none was. */
  ghost predicate Leads(shape: Shape, o: JsObject, props: map<string, Slot>, part: string, next: JsObject) {
    && props == Before(shape, o)[part := Child(next)]
    && if part in Before(shape, o) && Before(shape, o)[part].Child? then next == Before(shape, o)[part].target
       else next !in shape
  }

  /** One step down: the object at `part`, made and linked if there is none. */
  method Enter(current: JsObject, part: string, ghost shape: Shape, ghost rank: JsObject -> nat)
    returns (next: JsObject)
    requires Descending(shape, rank) && current.props == Before(shape, current)
    modifies current
    ensures Leads(shape, current, current.props, part, next)
    ensures next in shape || (fresh(next) && next.props == map[])
    ensures next in shape ==> current in shape && rank(next) < rank(current)
  {
    hide Descending;
    if part !in current.props || !current.props[part].Child? {
      var made := new JsObject();
      current.props := current.props[part := Child(made)];
      return made;
    }
    Below(shape, rank, current, part);
    next := current.props[part].target;
  }

  /** The walk along all parts but the last. */
  method Descend(root: JsObject, parts: seq<string>, ghost shape: Shape, ghost rank: JsObject -> nat)
    returns (current: JsObject, ghost walk: seq<JsObject>)
    requires root in shape && Current(shape) && Descending(shape, rank) && |parts| >= 1
    modifies shape.Keys
    ensures |walk| == |parts| && walk[0] == root && walk[|parts| - 1] == current
    ensures current in shape || fresh(current)
    ensures current.props == Before(shape, current)
    ensures forall o :: o in shape && o !in walk ==> o.props == shape[o]
    ensures forall j :: 0 <= j < |parts| - 1 ==>
      walk[j] != current && Leads(shape, walk[j], walk[j].props, parts[j], walk[j + 1])
  {
    current := root;
    walk := [current];
    assert current.props == Before(shape, current);
    assert forall o :: o in shape ==> o.props == shape[o];
    hide Descending, Leads, Before, Current;
    var i := 0;
    ghost var passed: set<JsObject> := {};
    while i < |parts| - 1
      invariant 0 <= i < |parts| && |walk| == i + 1 && walk[0] == root && walk[i] == current
      invariant current in shape || fresh(current)
      invariant current.props == Before(shape, current)
      invariant current !in passed && forall o :: o in passed ==> o in walk
      invariant forall o :: o in passed && o in shape && current in shape ==> rank(current) < rank(o)
      invariant forall o :: o in shape && o !in passed ==> o.props == shape[o]
      invariant forall j :: 0 <= j < i ==> walk[j] in passed
      invariant forall j :: 0 <= j < i ==> Leads(shape, walk[j], walk[j].props, parts[j], walk[j + 1])
    {
      var next := Enter(current, parts[i], shape, rank);
      BeforeIs(shape, next);
      assert next != current && next !in passed;
      assert next.props == Before(shape, next);
      passed := passed + {current};
      walk := walk + [next];
      current := next;
      i := i + 1;
    }
  }

  lemma BeforeIs(shape: Shape, o: JsObject)
    ensures if o in shape then Before(shape, o) == shape[o] else Before(shape, o) == map[]
  {
  }

  /** Descends along all parts but the last, making an object where there is none, and writes the last:
    the objects walked through change only at their part, and no other object changes. */
  method InjectParameter(root: JsObject?, path: string, value: string, connector: string, lower: string -> string,
      ghost shape: Shape, ghost rank: JsObject -> nat)
    returns (verdict: Verdict, ghost walk: seq<JsObject>)
    requires root != null ==> root in shape
    requires Current(shape) && Descending(shape, rank)
    modifies shape.Keys
    ensures verdict == Guard(root != null, path, connector, lower)
    ensures verdict != Injected ==> Current(shape)
    ensures verdict == Injected ==>
      var parts := Parts(path);
      && |walk| == |parts| && walk[0] == root
      && (forall o :: o in shape && o !in walk ==> o.props == shape[o])
      && (forall j :: 0 <= j < |parts| - 1 ==>
        Leads(shape, walk[j], walk[j].props, parts[j], walk[j + 1]))
      && walk[|parts| - 1].props == Before(shape, walk[|parts| - 1])[parts[|parts| - 1] := Scalar(value)]
  {
    hide AllowedFor, Inherited, Unsafe, Parts, Descending, Leads, Before;
    walk := [];
    if root == null || path == "" {
      return Refused, walk;
    }
    var parts := Parts(path);
    if exists i :: 0 <= i < |parts| && Unsafe(parts[i]) {
      return Refused, walk;
    }
    if connector != "" {
      if Inherited(lower(connector)) {
        return Thrown, walk;
      }
      if !AllowedFor(lower(connector), path) {
        return Refused, walk;
      }
    }
    var current;
    current, walk := Descend(root, parts, shape, rank);
    current.props := current.props[parts[|parts| - 1] := Scalar(value)];
    return Injected, walk;
  }
}
