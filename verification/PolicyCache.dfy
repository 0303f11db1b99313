/** The workspace-policy cache and the two-layer allowlist gate of
  packages/mcp-server/src/server.ts. Each method of the class is one stretch of code
  between two awaits; the machine below interleaves those stretches freely. */
module PolicyCache {
  import opened Common

  datatype Name = Name(text: string)

  datatype Key = Key(text: string)

  const TTL_MS := 60_000
  const RETRY_BACKOFF_MS := 30_000

  /** `${agentId}:${environment}`; an agent that is not configured prints as "undefined". */
  function CacheKey(agentId: Option<string>, environment: string): Key {
    Key((match agentId case Some(a) => a case None => "undefined") + ":" + environment)
  }

  /** The text splits at a colon: into the agent and the environment, or inside one of them. */
  ghost predicate Overlaps(longer: string, environment: string, shorter: string, environment': string) {
    exists x: string :: longer == shorter + ":" + x && environment' == x + ":" + environment
  }

  function Printed(agentId: Option<string>): string {
    if agentId == None then "undefined" else agentId.value
  }

  /** Two scopes share a key if and only if agent and environment print alike, or a colon in one agent
    and a colon in the other environment make the same text; so without colons keys tell scopes apart. */
  lemma {:induction false} KeysAgreeIff(a: Option<string>, e: string, a': Option<string>, e': string)
    ensures CacheKey(a, e) == CacheKey(a', e') <==>
      || (Printed(a) == Printed(a') && e == e')
      || Overlaps(Printed(a), e, Printed(a'), e')
      || Overlaps(Printed(a'), e', Printed(a), e)
  {
    KeyOverlap(Printed(a), e, Printed(a'), e');
    KeyOverlap(Printed(a'), e', Printed(a), e);
    hide Overlaps;
    assert CacheKey(a, e).text == Printed(a) + ":" + e && CacheKey(a', e').text == Printed(a') + ":" + e';
  }

  lemma {:induction false} KeyOverlap(a: string, e: string, a': string, e': string)
    ensures Overlaps(a, e, a', e') ==> a + ":" + e == a' + ":" + e'
    ensures a + ":" + e == a' + ":" + e' && |a| > |a'| ==> Overlaps(a, e, a', e')
    ensures a + ":" + e == a' + ":" + e' && |a| == |a'| ==> a == a' && e == e'
  {
    var text, text' := a + ":" + e, a' + ":" + e';
    if Overlaps(a, e, a', e') {
      var x :| a == a' + ":" + x && e' == x + ":" + e;
      assert a + ":" + e == a' + ":" + (x + ":" + e);
    }
    if text == text' {
      assert text[..|a|] == a && text'[..|a'|] == a' && text[|a| + 1..] == e && text'[|a'| + 1..] == e';
      if |a| > |a'| {
        assert text[|a'|] == ':' && a[|a'|] == ':';
        var x := a[|a'| + 1..];
        assert a[..|a'|] == text[..|a'|] == a';
        assert a == a' + ":" + x && e' == x + ":" + e;
      }
    }
  }

  /** A policy response; a field that is absent or not an array is None. */
  datatype Reply = Reply(
    allowedTools: Option<seq<Name>>,
    allowedConnectors: Option<seq<Name>>,
    capabilities: Option<seq<Name>>,
    source: Option<string>)

  datatype Cache = Cache(
    key: Key,
    loaded: bool,
    loadedAt: int,
    retryAfter: int,
    inFlight: Option<nat>,
    tools: Option<seq<Name>>,
    connectors: Option<seq<Name>>,
    capabilities: seq<Name>,
    source: string)

  const InitialCache := Cache(Key(""), false, 0, 0, None, None, None, [], "unloaded")

  // --- The gate -------------------------------------------------------------

  /** `!value`: a missing name, and an empty one. */
  predicate Absent(value: Option<Name>) {
    value.None? || value.value.text == ""
  }

  predicate EnvDenies(allowlist: seq<Name>, value: Option<Name>) {
    allowlist != [] && (Absent(value) || value.value !in allowlist)
  }

  predicate PolicyDenies(allowlist: Option<seq<Name>>, value: Option<Name>) {
    allowlist.Some? && (Absent(value) || value.value !in allowlist.value)
  }

  // --- The stretches between awaits -----------------------------------------

  datatype Path = Cached | Join(fetch: nat) | BackOff | Start

  function Rekeyed(c: Cache, key: Key): Cache {
    if c.key == key then c
    else c.(key := key, loaded := false, loadedAt := 0, retryAfter := 0, inFlight := None)
  }

  function Lapsed(c: Cache, now: int): Cache {
    if c.loaded && now - c.loadedAt >= TTL_MS then c.(loaded := false) else c
  }

  function Chosen(c: Cache, now: int): Path {
    if c.loaded then Cached
    else if c.inFlight.Some? then Join(c.inFlight.value)
    else if now < c.retryAfter then BackOff
    else Start
  }

  function Settling(c: Cache, key: Key, now: int): Cache {
    Lapsed(Rekeyed(c, key), now)
  }

  /** ensureMcpPolicyLoaded up to its first await; `next` names the fetch it may start. */
  function Ensured(c: Cache, key: Key, now: int, next: nat): Cache {
    var s := Settling(c, key, now);
    if Chosen(s, now).Start? then s.(inFlight := Some(next)) else s
  }

  function Merged(c: Cache, r: Reply): Cache {
    c.(tools := if r.allowedTools.Some? then r.allowedTools else c.tools,
       connectors := if r.allowedConnectors.Some? then r.allowedConnectors else c.connectors,
       capabilities := if r.capabilities.Some? then r.capabilities.value else c.capabilities,
       source := if r.source.Some? then r.source.value else "api")
  }

  /** loadMcpPolicy when the response arrives. */
  function Responded(c: Cache, key: Key, r: Reply, now: int): Cache {
    if c.key != key then c
    else Merged(c, r).(loaded := true, loadedAt := now, retryAfter := 0)
  }

  /** loadMcpPolicy when the request fails. */
  function Rejected(c: Cache, key: Key, now: int): Cache {
    if c.key != key then c
    else c.(source := "env_vars_only", retryAfter := now + RETRY_BACKOFF_MS)
  }

  /** The finally handler of the fetch. */
  function Released(c: Cache, fetch: nat): Cache {
    if c.inFlight == Some(fetch) then c.(inFlight := None) else c
  }

  class McpPolicyGate {
    const allowedTools: seq<Name>
    const allowedConnectors: seq<Name>
    var key: Key
    var loaded: bool
    var loadedAt: int
    var retryAfter: int
    var inFlight: Option<nat>
    var policyTools: Option<seq<Name>>
    var policyConnectors: Option<seq<Name>>
    var capabilities: seq<Name>
    var source: string

    function View(): Cache reads this {
      Cache(key, loaded, loadedAt, retryAfter, inFlight, policyTools, policyConnectors, capabilities, source)
    }

    constructor (allowedTools: seq<Name>, allowedConnectors: seq<Name>)
      ensures View() == InitialCache
      ensures this.allowedTools == allowedTools && this.allowedConnectors == allowedConnectors
    {
      this.allowedTools, this.allowedConnectors := allowedTools, allowedConnectors;
      key, loaded, loadedAt, retryAfter, inFlight := Key(""), false, 0, 0, None;
      policyTools, policyConnectors, capabilities, source := None, None, [], "unloaded";
    }

    /** Runs to the first await; on Start the caller issues fetch `next`. */
    method BeginEnsure(agentId: Option<string>, environment: string, now: int, next: nat) returns (path: Path)
      modifies this
      ensures View() == Ensured(old(View()), CacheKey(agentId, environment), now, next)
      ensures path == Chosen(Settling(old(View()), CacheKey(agentId, environment), now), now)
    {
      var cacheKey := CacheKey(agentId, environment);
      if key != cacheKey {
        key, loaded, loadedAt, retryAfter, inFlight := cacheKey, false, 0, 0, None;
      }
      if loaded {
        var age := now - loadedAt;
        if age < TTL_MS {
          return Cached;
        }
        loaded := false;
      }
      if inFlight.Some? {
        return Join(inFlight.value);
      }
      if now < retryAfter {
        return BackOff;
      }
      inFlight := Some(next);
      path := Start;
    }

    method MergeMcpPolicyData(data: Reply)
      modifies this
      ensures View() == Merged(old(View()), data)
    {
      if data.allowedTools.Some? {
        policyTools := data.allowedTools;
      }
      if data.allowedConnectors.Some? {
        policyConnectors := data.allowedConnectors;
      }
      if data.capabilities.Some? {
        capabilities := data.capabilities.value;
      }
      source := if data.source.Some? then data.source.value else "api";
    }

    method OnResponse(cacheKey: Key, data: Reply, now: int)
      modifies this
      ensures View() == Responded(old(View()), cacheKey, data, now)
    {
      if key != cacheKey {
        return;
      }
      MergeMcpPolicyData(data);
      loaded, loadedAt, retryAfter := true, now, 0;
    }

    method OnFailure(cacheKey: Key, now: int)
      modifies this
      ensures View() == Rejected(old(View()), cacheKey, now)
    {
      if key != cacheKey {
        return;
      }
      source, retryAfter := "env_vars_only", now + RETRY_BACKOFF_MS;
    }

    method OnFinally(fetch: nat)
      modifies this
      ensures View() == Released(old(View()), fetch)
    {
      if inFlight == Some(fetch) {
        inFlight := None;
      }
    }

    /** The synchronous tail of assertToolAllowed. */
    method ToolPermitted(tool: Name) returns (ok: bool)
      ensures ok <==>
                && (allowedTools == [] || (tool.text != "" && tool in allowedTools))
                && (policyTools.None? || (tool.text != "" && tool in policyTools.value))
    {
      if EnvDenies(allowedTools, Some(tool)) {
        return false;
      }
      ok := !PolicyDenies(policyTools, Some(tool));
    }

    method ConnectorPermitted(connector: Option<Name>) returns (ok: bool)
      ensures ok <==>
                && (allowedConnectors == []
                    || (connector.Some? && connector.value.text != "" && connector.value in allowedConnectors))
                && (policyConnectors.None?
                    || (connector.Some? && connector.value.text != "" && connector.value in policyConnectors.value))
    {
      if EnvDenies(allowedConnectors, connector) {
        return false;
      }
      ok := !PolicyDenies(policyConnectors, connector);
    }
  }

  // --- The machine ----------------------------------------------------------

  datatype Phase = Pending | Settled | Done

  /** A fetch remembers the key it was issued for; `visit` counts key changes before it. */
  datatype Fetch = Fetch(key: Key, visit: nat, phase: Phase)

  /** A tool call waiting at the gate for the fetch it shares, if any. */
  datatype Caller = Caller(tool: Name, waitsOn: Option<nat>, judged: bool)

  datatype Event =
    | Started(fetch: nat, at: int, visit: nat)
    | Applied(fetch: nat, fetchKey: Key, currentKey: Key, at: int, visit: nat, reply: Reply)
    | Failed(fetch: nat, at: int, visit: nat)
    | Stale(fetch: nat)
    | ToolCheck(tool: Name, permitted: bool)
    | ConnectorCheck(connector: Option<Name>, permitted: bool)

  datatype Env = Env(tools: seq<Name>, connectors: seq<Name>)

  datatype World = World(
    cache: Cache, fetches: seq<Fetch>, callers: seq<Caller>, now: int, visit: nat, log: seq<Event>)

  const InitialWorld := World(InitialCache, [], [], 0, 0, [])

  datatype Label =
    | Tick(ms: nat)
    | Call(agentId: Option<string>, environment: string, tool: Name)
    | Respond(fetch: nat, reply: Reply)
    | Reject(fetch: nat)
    | Finish(fetch: nat)
    | Resume(caller: nat)
    | UseConnector(connector: Option<Name>)

  predicate Enabled(w: World, l: Label) {
    match l
    case Respond(f, _) => f < |w.fetches| && w.fetches[f].phase == Pending
    case Reject(f) => f < |w.fetches| && w.fetches[f].phase == Pending
    case Finish(f) => f < |w.fetches| && w.fetches[f].phase == Settled
    case Resume(c) =>
      && c < |w.callers| && !w.callers[c].judged
      && (w.callers[c].waitsOn.Some? ==>
            w.callers[c].waitsOn.value < |w.fetches| && w.fetches[w.callers[c].waitsOn.value].phase == Done)
    case _ => true
  }

  function Called(w: World, key: Key, tool: Name): World {
    var next := |w.fetches|;
    var path := Chosen(Settling(w.cache, key, w.now), w.now);
    var visit := if w.cache.key == key then w.visit else w.visit + 1;
    var waitsOn := match path case Join(f) => Some(f) case Start => Some(next) case _ => None;
    World(Ensured(w.cache, key, w.now, next),
          if path.Start? then w.fetches + [Fetch(key, visit, Pending)] else w.fetches,
          w.callers + [Caller(tool, waitsOn, false)],
          w.now, visit,
          if path.Start? then w.log + [Started(next, w.now, visit)] else w.log)
  }

  function Phased(w: World, f: nat, phase: Phase): seq<Fetch>
    requires f < |w.fetches|
  {
    w.fetches[f := w.fetches[f].(phase := phase)]
  }

  function Next(env: Env, w: World, l: Label): World
    requires Enabled(w, l)
  {
    match l
    case Tick(ms) => w.(now := w.now + ms)
    case Call(agentId, environment, tool) => Called(w, CacheKey(agentId, environment), tool)
    case Respond(f, r) =>
      var key := w.fetches[f].key;
      w.(cache := Responded(w.cache, key, r, w.now), fetches := Phased(w, f, Settled),
         log := w.log + [if w.cache.key == key then Applied(f, key, w.cache.key, w.now, w.visit, r) else Stale(f)])
    case Reject(f) =>
      var key := w.fetches[f].key;
      w.(cache := Rejected(w.cache, key, w.now), fetches := Phased(w, f, Settled),
         log := w.log + [if w.cache.key == key then Failed(f, w.now, w.visit) else Stale(f)])
    case Finish(f) =>
      w.(cache := Released(w.cache, f), fetches := Phased(w, f, Done))
    case Resume(c) =>
      var tool := w.callers[c].tool;
      var ok := !EnvDenies(env.tools, Some(tool)) && !PolicyDenies(w.cache.tools, Some(tool));
      w.(callers := w.callers[c := w.callers[c].(judged := true)], log := w.log + [ToolCheck(tool, ok)])
    case UseConnector(connector) =>
      var ok := !EnvDenies(env.connectors, connector) && !PolicyDenies(w.cache.connectors, connector);
      w.(log := w.log + [ConnectorCheck(connector, ok)])
  }

  /** The worlds `ws` are visited from the initial one by taking the labels `ls` in order. */
  ghost predicate IsRun(env: Env, ws: seq<World>, ls: seq<Label>) {
    && |ws| == |ls| + 1 && ws[0] == InitialWorld
    && forall i :: 0 <= i < |ls| ==> Enabled(ws[i], ls[i]) && ws[i + 1] == Next(env, ws[i], ls[i])
  }

  // --- Slot discipline ------------------------------------------------------

  /** The in-flight slot holds exactly the unfinished fetch started since the last key change. */
  ghost predicate SlotDiscipline(w: World) {
    && (forall f :: 0 <= f < |w.fetches| ==>
          (w.fetches[f].visit == w.visit && w.fetches[f].phase != Done <==> w.cache.inFlight == Some(f)))
    && (forall f :: 0 <= f < |w.fetches| ==> w.fetches[f].visit <= w.visit)
    && (forall f :: 0 <= f < |w.fetches| && w.fetches[f].visit == w.visit ==> w.fetches[f].key == w.cache.key)
    && (w.cache.inFlight.Some? ==> w.cache.inFlight.value < |w.fetches|)
  }

  lemma {:induction false} CallSlot(w: World, key: Key, tool: Name)
    requires SlotDiscipline(w)
    ensures SlotDiscipline(Called(w, key, tool))
  {
  }

  lemma {:induction false} StepSlot(env: Env, w: World, l: Label)
    requires SlotDiscipline(w) && Enabled(w, l)
    ensures SlotDiscipline(Next(env, w, l))
  {
    hide EnvDenies, PolicyDenies, Called;
    if l.Call? {
      CallSlot(w, CacheKey(l.agentId, l.environment), l.tool);
    }
  }

  // --- Freshness ------------------------------------------------------------

  /** The cache still remembers the settled fetch `e`, or its window has passed. */
  ghost predicate Remembers(c: Cache, now: int, visit: nat, e: Event) {
    match e
    case Applied(_, fk, ck, at, v, _) =>
      fk == ck && at <= now && v <= visit &&
      (v == visit ==> (c.loaded && c.loadedAt >= at) || now >= at + TTL_MS)
    case Failed(_, at, v) =>
      at <= now && v <= visit &&
      (v == visit ==> c.retryAfter >= at + RETRY_BACKOFF_MS || (c.loaded && c.loadedAt >= at) || now >= at + RETRY_BACKOFF_MS)
    case Started(_, at, v) => at <= now && v <= visit
    case _ => true
  }

  /** A later start in the same visit keeps its distance from an earlier outcome. */
  ghost predicate Spaced(e: Event, later: Event) {
    match later
    case Started(_, at, v) =>
      && (e.Applied? && e.visit == v ==> at >= e.at + TTL_MS)
      && (e.Failed? && e.visit == v ==> at >= e.at + RETRY_BACKOFF_MS)
    case _ => true
  }

  ghost predicate Fresh(w: World) {
    && w.cache.loadedAt <= w.now
    && (forall i :: 0 <= i < |w.log| ==> Remembers(w.cache, w.now, w.visit, w.log[i]))
    && (forall i, j :: 0 <= i < j < |w.log| ==> Spaced(w.log[i], w.log[j]))
  }

  lemma StepRemembers(env: Env, w: World, l: Label, e: Event)
    requires Enabled(w, l) && w.cache.loadedAt <= w.now && Remembers(w.cache, w.now, w.visit, e)
    ensures Remembers(Next(env, w, l).cache, Next(env, w, l).now, Next(env, w, l).visit, e)
  {
  }

  lemma StepSpaced(env: Env, w: World, l: Label, e: Event)
    requires Enabled(w, l) && Remembers(w.cache, w.now, w.visit, e)
    ensures var log := Next(env, w, l).log;
            |log| == |w.log| || (|log| == |w.log| + 1 && log[..|w.log|] == w.log && Spaced(e, log[|w.log|]))
  {
  }

  lemma {:induction false} StepFresh(env: Env, w: World, l: Label)
    requires Enabled(w, l) && Fresh(w) && w.now >= 0
    ensures Fresh(Next(env, w, l))
  {
    var w' := Next(env, w, l);
    forall i | 0 <= i < |w.log|
      ensures Remembers(w'.cache, w'.now, w'.visit, w.log[i])
      ensures |w'.log| > |w.log| ==> Spaced(w.log[i], w'.log[|w.log|])
    {
      StepRemembers(env, w, l, w.log[i]);
      StepSpaced(env, w, l, w.log[i]);
    }
  }

  /** The window and the back-off that the cache observes are those of an outcome in this visit. */
  ghost predicate Backed(w: World) {
    && (w.cache.loaded ==>
          exists m :: 0 <= m < |w.log| && w.log[m].Applied? && w.log[m].visit == w.visit && w.log[m].at == w.cache.loadedAt)
    && (w.cache.retryAfter != 0 ==>
          exists m :: 0 <= m < |w.log| && w.log[m].Failed? && w.log[m].visit == w.visit
                      && w.log[m].at + RETRY_BACKOFF_MS == w.cache.retryAfter)
  }

  lemma {:induction false} StepBacked(env: Env, w: World, l: Label)
    requires Backed(w) && Enabled(w, l)
    ensures Backed(Next(env, w, l))
  {
    var w' := Next(env, w, l);
    assert forall m :: 0 <= m < |w.log| ==> w'.log[m] == w.log[m];
    if |w'.log| > |w.log| {
      var e := w'.log[|w.log|];
      assert e.Applied? ==> w'.cache.retryAfter == 0;
    }
  }

  // --- What the policy lists are --------------------------------------------

  datatype Which = Tools | Connectors | Capabilities

  function Carried(r: Reply, which: Which): Option<seq<Name>> {
    match which
    case Tools => r.allowedTools
    case Connectors => r.allowedConnectors
    case Capabilities => r.capabilities
  }

  predicate Carries(e: Event, which: Which) {
    e.Applied? && Carried(e.reply, which).Some?
  }

  /** The list of the last applied response that carried one. */
  function LastList(log: seq<Event>, which: Which): Option<seq<Name>> {
    if log == [] then None
    else
      var e := log[|log| - 1];
      if Carries(e, which) then Carried(e.reply, which) else LastList(log[..|log| - 1], which)
  }

  /** The verdict recorded by `e` is the one both layers give after the history `past`. */
  ghost predicate JudgedBy(env: Env, past: seq<Event>, e: Event) {
    match e
    case ToolCheck(tool, ok) =>
      ok <==> !EnvDenies(env.tools, Some(tool)) && !PolicyDenies(LastList(past, Tools), Some(tool))
    case ConnectorCheck(c, ok) =>
      ok <==> !EnvDenies(env.connectors, c) && !PolicyDenies(LastList(past, Connectors), c)
    case _ => true
  }

  /** The three lists of the cache are the last ones carried, and capabilities start out empty; their
    source is that of the last applied response or failure. */
  ghost predicate ListsAre(c: Cache, log: seq<Event>) {
    && c.tools == LastList(log, Tools)
    && c.connectors == LastList(log, Connectors)
    && c.capabilities == (match LastList(log, Capabilities) case Some(names) => names case None => [])
    && c.source == LastSource(log)
  }

  /** Where the lists in force come from, as the session reports it. */
  function LastSource(log: seq<Event>): string {
    if log == [] then "unloaded"
    else
      match log[|log| - 1]
      case Applied(_, _, _, _, _, r) => (match r.source case Some(name) => name case None => "api")
      case Failed(_, _, _) => "env_vars_only"
      case _ => LastSource(log[..|log| - 1])
  }

  ghost predicate HistoryDecides(env: Env, w: World) {
    && ListsAre(w.cache, w.log)
    && forall i :: 0 <= i < |w.log| ==> JudgedBy(env, w.log[..i], w.log[i])
  }

  lemma {:induction false} LastAppend(log: seq<Event>, e: Event, which: Which)
    ensures LastList(log + [e], which) == if Carries(e, which) then Carried(e.reply, which) else LastList(log, which)
  {
    assert (log + [e])[..|log|] == log;
  }

  lemma {:induction false} SourceAppend(log: seq<Event>, e: Event)
    ensures LastSource(log + [e]) ==
      (match e
       case Applied(_, _, _, _, _, r) => (match r.source case Some(name) => name case None => "api")
       case Failed(_, _, _) => "env_vars_only"
       case _ => LastSource(log))
  {
    assert (log + [e])[..|log|] == log;
  }

  lemma {:induction false} StepLists(env: Env, w: World, l: Label)
    requires HistoryDecides(env, w) && Enabled(w, l)
    ensures ListsAre(Next(env, w, l).cache, Next(env, w, l).log)
  {
    hide LastList, LastSource, EnvDenies, PolicyDenies, JudgedBy;
    var log := Next(env, w, l).log;
    if |log| > |w.log| {
      var e := log[|w.log|];
      assert log == w.log + [e];
      SourceAppend(w.log, e);
      LastAppend(w.log, e, Tools);
      LastAppend(w.log, e, Connectors);
      LastAppend(w.log, e, Capabilities);
    }
  }

  lemma {:induction false} StepVerdict(env: Env, w: World, l: Label)
    requires HistoryDecides(env, w) && Enabled(w, l)
    ensures var log := Next(env, w, l).log;
            |log| == |w.log| || (|log| == |w.log| + 1 && log[..|w.log|] == w.log && JudgedBy(env, w.log, log[|w.log|]))
  {
    hide EnvDenies, PolicyDenies, LastList, LastSource;
  }

  lemma {:induction false} StepHistory(env: Env, w: World, l: Label)
    requires HistoryDecides(env, w) && Enabled(w, l)
    ensures HistoryDecides(env, Next(env, w, l))
  {
    StepLists(env, w, l);
    StepVerdict(env, w, l);
    var log := Next(env, w, l).log;
    forall i | 0 <= i < |log|
      ensures JudgedBy(env, log[..i], log[i])
    {
      if i < |w.log| {
        assert log[..i] == w.log[..i];
      }
    }
    hide Next, LastList, LastSource;
  }

  // --- Over all runs --------------------------------------------------------

  /** In every reachable world the slot, if taken, belongs to the current key; at most one fetch
    started since the last key change is unfinished, and it is the one in the slot, so an older
    fetch that finishes late never frees the slot of a newer one and a finished one never keeps it. */
  lemma {:induction false} SlotTheorem(env: Env, ws: seq<World>, ls: seq<Label>, i: nat)
    requires IsRun(env, ws, ls) && i < |ws|
    ensures SlotDiscipline(ws[i])
    ensures ws[i].cache.inFlight.Some? ==> ws[i].fetches[ws[i].cache.inFlight.value].key == ws[i].cache.key
    ensures forall f, g :: 0 <= f < g < |ws[i].fetches| && ws[i].fetches[f].visit == ws[i].fetches[g].visit == ws[i].visit
                           ==> ws[i].fetches[f].phase == Done
  {
    if i > 0 {
      SlotTheorem(env, ws, ls, i - 1);
      StepSlot(env, ws[i - 1], ls[i - 1]);
      hide Next, Enabled;
    }
  }

  /** Every response ever applied was for the key current at that moment, and while the key does
    not change the next fetch starts at least 60 s after an applied response and 30 s after a
    failure, whichever visit to the key the settled fetch came from. */
  lemma {:induction false} FreshnessTheorem(env: Env, ws: seq<World>, ls: seq<Label>, i: nat)
    requires IsRun(env, ws, ls) && i < |ws|
    ensures Fresh(ws[i]) && ws[i].now >= 0
    ensures forall m :: 0 <= m < |ws[i].log| && ws[i].log[m].Applied?
                        ==> ws[i].log[m].fetchKey == ws[i].log[m].currentKey
    ensures forall m, n :: 0 <= m < n < |ws[i].log| && ws[i].log[n].Started?
                           ==> (ws[i].log[m].Applied? && ws[i].log[m].visit == ws[i].log[n].visit
                                ==> ws[i].log[n].at - ws[i].log[m].at >= 60_000)
                               && (ws[i].log[m].Failed? && ws[i].log[m].visit == ws[i].log[n].visit
                                   ==> ws[i].log[n].at - ws[i].log[m].at >= 30_000)
  {
    if i > 0 {
      FreshnessTheorem(env, ws, ls, i - 1);
      StepFresh(env, ws[i - 1], ls[i - 1]);
    }
    forall m, n | 0 <= m < n < |ws[i].log|
      ensures Spaced(ws[i].log[m], ws[i].log[n]) && Remembers(ws[i].cache, ws[i].now, ws[i].visit, ws[i].log[m])
    {
    }
  }

  /** The converse: once 60 s have passed since every success and 30 s since every failure of this visit,
    and no fetch is running, the next call for the key starts one; so a new grant takes effect. */
  lemma {:induction false} RefetchTheorem(env: Env, ws: seq<World>, ls: seq<Label>, i: nat)
    requires IsRun(env, ws, ls) && i < |ws|
    ensures Backed(ws[i])
    ensures var w := ws[i];
            w.cache.inFlight.None? && w.now >= 0
            && (forall m :: 0 <= m < |w.log| && w.log[m].Applied? && w.log[m].visit == w.visit ==> w.now >= w.log[m].at + 60_000)
            && (forall m :: 0 <= m < |w.log| && w.log[m].Failed? && w.log[m].visit == w.visit ==> w.now >= w.log[m].at + 30_000)
            ==> Chosen(Settling(w.cache, w.cache.key, w.now), w.now) == Start
  {
    if i > 0 {
      RefetchTheorem(env, ws, ls, i - 1);
      StepBacked(env, ws[i - 1], ls[i - 1]);
      hide Next, Enabled;
    }
  }

  /** In every reachable world the three policy lists are those of the last applied responses that
    carried them, and every verdict ever given is the conjunction of the env layer with the
    policy list of that moment. */
  lemma {:induction false} HistoryTheorem(env: Env, ws: seq<World>, ls: seq<Label>, i: nat)
    requires IsRun(env, ws, ls) && i < |ws|
    ensures HistoryDecides(env, ws[i])
  {
    if i > 0 {
      HistoryTheorem(env, ws, ls, i - 1);
      StepHistory(env, ws[i - 1], ls[i - 1]);
    }
  }

  // --- Who waits, and what a verdict is based on ------------------------------

  /** Fetch `f` was started in this visit and is not finished. */
  ghost predicate Unfinished(w: World, f: nat) {
    f < |w.fetches| && w.fetches[f].visit == w.visit && w.fetches[f].phase != Done
  }

  /** A response was applied in this visit less than `window` milliseconds ago. */
  ghost predicate AppliedWithin(w: World, window: nat) {
    exists m :: 0 <= m < |w.log| && w.log[m].Applied? && w.log[m].visit == w.visit && w.now < w.log[m].at + window
  }

  /** A fetch failed in this visit less than `window` milliseconds ago. */
  ghost predicate FailedWithin(w: World, window: nat) {
    exists m :: 0 <= m < |w.log| && w.log[m].Failed? && w.log[m].visit == w.visit && w.now < w.log[m].at + window
  }

  ghost predicate Outcome(e: Event, f: nat) {
    (e.Applied? || e.Failed? || e.Stale?) && e.fetch == f
  }

  /** What the fields say about the windows, in terms of what happened. */
  lemma {:induction false} WindowsAre(w: World)
    requires Fresh(w) && Backed(w) && w.now >= 0
    ensures w.cache.loaded && w.now < w.cache.loadedAt + TTL_MS ==> AppliedWithin(w, 60_000)
    ensures AppliedWithin(w, 60_000) ==> w.cache.loaded
    ensures w.now < w.cache.retryAfter ==> FailedWithin(w, 30_000)
    ensures FailedWithin(w, 30_000) && !w.cache.loaded ==> w.now < w.cache.retryAfter
  {
    if AppliedWithin(w, 60_000) {
      var m :| 0 <= m < |w.log| && w.log[m].Applied? && w.log[m].visit == w.visit && w.now < w.log[m].at + 60_000;
      assert Remembers(w.cache, w.now, w.visit, w.log[m]);
    }
    if FailedWithin(w, 30_000) {
      var m :| 0 <= m < |w.log| && w.log[m].Failed? && w.log[m].visit == w.visit && w.now < w.log[m].at + 30_000;
      assert Remembers(w.cache, w.now, w.visit, w.log[m]);
    }
  }

  /** A new caller waits for the unfinished fetch of its visit, be it its own or another's, unless a
    response was applied in the last minute; and it waits for nothing only then, or when no fetch
    runs and one failed in the last half minute. */
  lemma {:induction false} CallTheorem(env: Env, ws: seq<World>, ls: seq<Label>, i: nat)
    requires IsRun(env, ws, ls) && i < |ls| && ls[i].Call?
    ensures ws[i + 1].cache.key == CacheKey(ls[i].agentId, ls[i].environment)
    ensures |ws[i + 1].callers| == |ws[i].callers| + 1
    ensures var w, c := ws[i + 1], ws[i + 1].callers[|ws[i].callers|];
            && c.tool == ls[i].tool && !c.judged
            && (forall f: nat :: c.waitsOn == Some(f) <==> Unfinished(w, f) && !AppliedWithin(w, 60_000))
            && (c.waitsOn.None? <==>
                  AppliedWithin(w, 60_000) || (FailedWithin(w, 30_000) && forall f: nat :: !Unfinished(w, f)))
  {
    SlotTheorem(env, ws, ls, i + 1);
    FreshnessTheorem(env, ws, ls, i + 1);
    RefetchTheorem(env, ws, ls, i + 1);
    var w := ws[i + 1];
    WindowsAre(w);
    assert w == Next(env, ws[i], ls[i]);
    CalledWaits(ws[i], CacheKey(ls[i].agentId, ls[i].environment), ls[i].tool);
    hide IsRun, Next, Called, Fresh, Backed, AppliedWithin, FailedWithin;
    assert forall f: nat :: Unfinished(w, f) <==> w.cache.inFlight == Some(f);
  }

  /** The path of a call, by the fields it leaves behind. */
  lemma {:induction false} CalledWaits(w: World, key: Key, tool: Name)
    requires Called(w, key, tool).now >= 0
    ensures var v := Called(w, key, tool);
            && |v.callers| == |w.callers| + 1 && v.cache.key == key
            && v.callers[|w.callers|].tool == tool && !v.callers[|w.callers|].judged
            && (v.cache.loaded ==> v.now < v.cache.loadedAt + TTL_MS)
            && v.callers[|w.callers|].waitsOn == (if v.cache.loaded then None else v.cache.inFlight)
            && (!v.cache.loaded && v.cache.inFlight.None? ==> v.now < v.cache.retryAfter)
  {
  }

  /** A fetch that is no longer pending has its outcome in the log. */
  ghost predicate OutcomesLogged(w: World) {
    forall f: nat :: f < |w.fetches| && w.fetches[f].phase != Pending ==>
      exists m :: 0 <= m < |w.log| && Outcome(w.log[m], f)
  }

  lemma {:induction false} StepOutcomes(env: Env, w: World, l: Label)
    requires OutcomesLogged(w) && Enabled(w, l)
    ensures OutcomesLogged(Next(env, w, l))
  {
    hide EnvDenies, PolicyDenies, Ensured, Responded, Rejected, Released, Chosen, Settling;
    var w' := Next(env, w, l);
    assert forall m :: 0 <= m < |w.log| ==> w'.log[m] == w.log[m];
    forall f: nat | f < |w'.fetches| && w'.fetches[f].phase != Pending
      ensures exists m :: 0 <= m < |w'.log| && Outcome(w'.log[m], f)
    {
      if f < |w.fetches| && w.fetches[f].phase != Pending {
        var m :| 0 <= m < |w.log| && Outcome(w.log[m], f);
        assert Outcome(w'.log[m], f);
      } else {
        assert Outcome(w'.log[|w.log|], f);
      }
    }
  }

  lemma {:induction false} OutcomesReachable(env: Env, ws: seq<World>, ls: seq<Label>, i: nat)
    requires IsRun(env, ws, ls) && i < |ws|
    ensures OutcomesLogged(ws[i])
  {
    if i > 0 {
      OutcomesReachable(env, ws, ls, i - 1);
      StepOutcomes(env, ws[i - 1], ls[i - 1]);
    }
  }

  /** A caller keeps its tool and what it waits for. */
  lemma {:induction false} CallerKept(env: Env, ws: seq<World>, ls: seq<Label>, i: nat, j: nat, c: nat)
    requires IsRun(env, ws, ls) && i <= j < |ws| && c < |ws[i].callers|
    ensures c < |ws[j].callers|
    ensures ws[j].callers[c].tool == ws[i].callers[c].tool && ws[j].callers[c].waitsOn == ws[i].callers[c].waitsOn
    decreases j
  {
    if i < j {
      CallerKept(env, ws, ls, i, j - 1, c);
      assert ws[j] == Next(env, ws[j - 1], ls[j - 1]);
    }
  }

  /** A caller that came while a fetch was unfinished, or started one, and found no response of the last
    minute, is judged only after that fetch has its outcome and is done; and every caller is judged on
    the lists that are in force at that moment. */
  lemma {:induction false} VerdictTheorem(env: Env, ws: seq<World>, ls: seq<Label>, i: nat, j: nat)
    requires IsRun(env, ws, ls) && i < j < |ls| && ls[i].Call? && ls[j] == Resume(|ws[i].callers|)
    ensures forall f: nat :: Unfinished(ws[i + 1], f) && !AppliedWithin(ws[i + 1], 60_000) ==>
              && f < |ws[j].fetches| && ws[j].fetches[f].phase == Done
              && exists m :: 0 <= m < |ws[j].log| && Outcome(ws[j].log[m], f)
    ensures var tool, names := ls[i].tool, LastList(ws[j].log, Tools);
            ws[j + 1].log == ws[j].log
            + [ToolCheck(tool, && (env.tools == [] || (tool.text != "" && tool in env.tools))
                               && (names.None? || (tool.text != "" && tool in names.value)))]
  {
    var c := |ws[i].callers|;
    CallTheorem(env, ws, ls, i);
    CallerKept(env, ws, ls, i + 1, j, c);
    OutcomesReachable(env, ws, ls, j);
    HistoryTheorem(env, ws, ls, j);
    assert Enabled(ws[j], ls[j]) && ws[j + 1] == Next(env, ws[j], ls[j]);
    hide IsRun, LastList, AppliedWithin, FailedWithin;
    forall f: nat | Unfinished(ws[i + 1], f) && !AppliedWithin(ws[i + 1], 60_000)
      ensures f < |ws[j].fetches| && ws[j].fetches[f].phase == Done
      ensures exists m :: 0 <= m < |ws[j].log| && Outcome(ws[j].log[m], f)
    {
      assert ws[j].callers[c].waitsOn == Some(f);
    }
  }

  /** None of the three lists ever becomes absent, and each changes only by an applied response. */
  lemma {:induction false} LastListGrows(log: seq<Event>, i: nat, which: Which)
    requires i <= |log|
    ensures LastList(log[..i], which).Some? ==> LastList(log, which).Some?
    ensures LastList(log, which) == LastList(log[..i], which)
            || exists k :: i <= k < |log| && Carries(log[k], which) && Carried(log[k].reply, which) == LastList(log, which)
    decreases |log|
  {
    if i == |log| {
      assert log[..i] == log;
    } else {
      var n := |log| - 1;
      assert log[..n][..i] == log[..i];
      LastListGrows(log[..n], i, which);
      if LastList(log, which) == LastList(log[..n], which) && LastList(log[..n], which) != LastList(log[..i], which) {
        var k :| i <= k < n && Carries(log[..n][k], which)
                 && Carried(log[..n][k].reply, which) == LastList(log[..n], which);
        assert log[k] == log[..n][k];
      }
    }
  }

  /** A list that names a value of a list that did not, or was not there, came in between. */
  lemma {:induction false} ListWidens(log: seq<Event>, m: nat, n: nat, which: Which, value: Name)
    requires m <= n <= |log|
    requires LastList(log[..m], which).Some? && value !in LastList(log[..m], which).value
    requires LastList(log[..n], which).Some? ==> value in LastList(log[..n], which).value
    ensures exists k :: m <= k < n && Carries(log[k], which) && value in Carried(log[k].reply, which).value
  {
    assert log[..n][..m] == log[..m];
    LastListGrows(log[..n], m, which);
    var k :| m <= k < n && Carries(log[..n][k], which)
             && Carried(log[..n][k].reply, which) == LastList(log[..n], which);
    assert log[k] == log[..n][k];
  }

  /** The gate never widens by itself: if a tool was refused and is later permitted, then in
    between a response was applied whose list names the tool. Expiry, failures and key changes
    in between do not matter. */
  lemma {:induction false} NeverWidens(env: Env, ws: seq<World>, ls: seq<Label>, i: nat, m: nat, n: nat, tool: Name)
    requires IsRun(env, ws, ls) && i < |ws| && m < n < |ws[i].log|
    requires ws[i].log[m] == ToolCheck(tool, false) && ws[i].log[n] == ToolCheck(tool, true)
    ensures exists k :: m < k < n && Carries(ws[i].log[k], Tools)
                        && tool in Carried(ws[i].log[k].reply, Tools).value
  {
    HistoryTheorem(env, ws, ls, i);
    var log := ws[i].log;
    assert JudgedBy(env, log[..m], log[m]) && JudgedBy(env, log[..n], log[n]);
    LastListGrows(log[..n], m, Tools);
    assert log[..n][..m] == log[..m];
    ListWidens(log, m, n, Tools, tool);
  }

  /** And so it is with connectors. */
  lemma {:induction false} ConnectorsNeverWiden(
    env: Env, ws: seq<World>, ls: seq<Label>, i: nat, m: nat, n: nat, connector: Name)
    requires IsRun(env, ws, ls) && i < |ws| && m < n < |ws[i].log|
    requires ws[i].log[m] == ConnectorCheck(Some(connector), false)
    requires ws[i].log[n] == ConnectorCheck(Some(connector), true)
    ensures exists k :: m < k < n && Carries(ws[i].log[k], Connectors)
                        && connector in Carried(ws[i].log[k].reply, Connectors).value
  {
    HistoryTheorem(env, ws, ls, i);
    var log := ws[i].log;
    assert JudgedBy(env, log[..m], log[m]) && JudgedBy(env, log[..n], log[n]);
    LastListGrows(log[..n], m, Connectors);
    assert log[..n][..m] == log[..m];
    ListWidens(log, m, n, Connectors, connector);
  }

  /** A missing or empty connector, once refused, stays refused for ever. */
  lemma {:induction false} AbsentStaysRefused(
    env: Env, ws: seq<World>, ls: seq<Label>, i: nat, m: nat, n: nat, connector: Option<Name>)
    requires IsRun(env, ws, ls) && i < |ws| && m < n < |ws[i].log| && Absent(connector)
    requires ws[i].log[m] == ConnectorCheck(connector, false) && ws[i].log[n].ConnectorCheck?
    requires ws[i].log[n].connector == connector
    ensures !ws[i].log[n].permitted
  {
    HistoryTheorem(env, ws, ls, i);
    var log := ws[i].log;
    assert JudgedBy(env, log[..m], log[m]) && JudgedBy(env, log[..n], log[n]);
    LastListGrows(log[..n], m, Connectors);
    assert log[..n][..m] == log[..m];
  }

  /** Each list is absent exactly while no applied response has carried it; a refetch that omits
    the field therefore keeps the previous list. */
  lemma {:induction false} UnconstrainedUntilFirstList(log: seq<Event>, which: Which)
    ensures LastList(log, which).None? <==> forall k :: 0 <= k < |log| ==> !Carries(log[k], which)
  {
    if log != [] {
      var n := |log| - 1;
      UnconstrainedUntilFirstList(log[..n], which);
      assert forall k :: 0 <= k < n ==> log[..n][k] == log[k];
    }
  }
}
