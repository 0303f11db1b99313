/** The decision of the pre-tool-use hook, from the payload to its exit, and how long it takes. */
module HookFlow {
  import opened Common
  import opened GatewayPoll
  import opened Injection
  import SessionGuard

  datatype Harness = Claude | Codex | Gemini | Antigravity | Kimi

  predicate RewritesInput(h: Harness) {
    h == Claude || h == Codex || h == Gemini
  }

  const KIMI_MAX_GATEWAY_WAIT_MS := 540_000
  const KIMI_HOOK_TIMEOUT_MS := 600_000

  function Clamp(c: Option<Config>, h: Harness): Option<Config> {
    if c.None? || h != Kimi || c.value.timeoutMs <= KIMI_MAX_GATEWAY_WAIT_MS then c
    else Some(c.value.(timeoutMs := KIMI_MAX_GATEWAY_WAIT_MS))
  }

  /** A status of the local policy kernel. */
  datatype LocalStatus = Allow | Warn | Deny | OtherStatus

  /** What the gateway replies; None stands for every failure. */
  datatype Reply = Reply(outcome: Outcome, queued: bool, grant: Option<Grant>)

  /** One invocation: the payload's shape, the environment, and what every wait would bring.
    The durations are of the work itself; a limit may cut them short. */
  datatype Call = Call(
    wellFormed: bool, named: bool, configured: bool, governed: bool, hasBundle: bool,
    refreshed: bool, refreshMs: nat,
    harness: Harness, mode: Mode, shadow: bool, local: LocalStatus, gateway: Option<Config>,
    reply: Option<Reply>, replyMs: nat, attempts: nat -> Attempt, evidenceMs: nat, postMs: nat,
    connector: string, inputIsObject: bool, lower: string -> string)

  /** Exits of the hook; AllowRewritten passes on the input with the credential in it,
    Failed is an exit with an error. */
  datatype Exit = Allowed | AllowedRewritten(grant: Grant) | Blocked | Failed

  datatype Result = Result(exit: Exit, elapsed: int)

  /** A stage of the flow ends the hook, or hands on. */
  datatype Stage = Ends(exit: Exit, elapsed: int) | Continues(elapsed: int) | Allows(elapsed: int)

  /** When the refresh of the token is over and the evidence is sent. */
  function Started(c: Call): (ms: int)
    ensures 0 <= ms <= 10_000
  {
    Min(c.refreshMs, 10_000)
  }

  /** Waiting, up to a limit, for the evidence sent at the start. */
  function Awaited(c: Call, elapsed: int, limit: nat): (ms: nat)
    ensures ms <= limit
  {
    var left := Started(c) + c.evidenceMs - elapsed;
    if left <= 0 then 0 else Min(left, limit)
  }

  /** Waiting, up to a limit, for something sent just now. */
  function Posted(c: Call, limit: nat): (ms: nat)
    ensures ms <= limit
  {
    Min(c.postMs, limit)
  }

  function ShouldBlock(mode: Mode, status: LocalStatus): bool {
    mode == Enforce && status == Deny
  }

  function ApplyGrant(c: Call, grant: Grant, elapsed: int): Stage {
    if !RewritesInput(c.harness) then Ends(Blocked, elapsed + Awaited(c, elapsed, 2000))
    else
      match Guard(c.inputIsObject, grant.path, c.connector, c.lower)
      case Refused => Ends(Blocked, elapsed)
      case Thrown => Ends(Failed, elapsed)
      case Injected => Ends(AllowedRewritten(grant), elapsed + Awaited(c, elapsed, 500))
  }

  predicate NeedsJit(connector: string) {
    connector == "stripe" || connector == "mock"
  }

  function Outage(c: Call, config: Config, elapsed: int): Stage {
    var after := elapsed + Posted(c, 1000);
    if config.outagePolicy == FailClosed || NeedsJit(c.connector) then Ends(Blocked, after) else Continues(after)
  }

  function Escalation(c: Call, config: Config, elapsed: int): Stage
    requires config.pollIntervalMs > 0
  {
    var posted := elapsed + Awaited(c, elapsed, 2000);
    var w := Wait(config, c.attempts, 0, 0);
    var after := posted + w.elapsed;
    if w.resolution.outcome == Some(Proceed) then
      if w.resolution.grant.Some? then ApplyGrant(c, w.resolution.grant.value, after) else Allows(after)
    else Ends(Blocked, after)
  }

  function GatewayStage(c: Call, config: Config, elapsed: int): Stage
    requires config.pollIntervalMs > 0
  {
    var decided := elapsed + Min(c.replyMs, 3000);
    if c.reply.None? || c.replyMs > 3000 then Outage(c, config, decided)
    else
      var reply := c.reply.value;
      if reply.outcome == Abort then Ends(Blocked, decided + Awaited(c, decided, 2000))
      else if reply.outcome == Escalate && reply.queued then Escalation(c, config, decided)
      else if reply.outcome == Proceed && reply.grant.Some? then ApplyGrant(c, reply.grant.value, decided)
      else Continues(decided)
  }

  function LocalStage(c: Call, elapsed: int): Result {
    if c.shadow then Result(Allowed, elapsed + Awaited(c, elapsed, 500))
    else if ShouldBlock(c.mode, c.local) then Result(Blocked, elapsed + Awaited(c, elapsed, 2000))
    else Result(Allowed, elapsed + Awaited(c, elapsed, 500))
  }

  /** The configuration the gateway stage runs with. */
  function Effective(c: Call): Option<Config> {
    Clamp(c.gateway, c.harness)
  }

  predicate Sound(c: Call) {
    c.gateway.Some? ==> c.gateway.value.timeoutMs >= 5000 && c.gateway.value.pollIntervalMs >= 2000
  }

  function Hook(c: Call): Result
    requires Sound(c)
  {
    if !c.wellFormed || !c.named || !c.configured || !c.governed then Result(Allowed, 0)
    else
      var start := Started(c);
      if !c.refreshed then Result(Failed, start)
      else if !c.hasBundle then Result(Allowed, start + Posted(c, 500))
      else if Effective(c).Some? && !c.shadow then
        match GatewayStage(c, Effective(c).value, start)
        case Ends(exit, elapsed) => Result(exit, elapsed)
        case Allows(elapsed) => Result(Allowed, elapsed)
        case Continues(elapsed) => LocalStage(c, elapsed)
      else LocalStage(c, start)
  }

  // --- Who is let through -------------------------------------------------------

  /** The hook gets as far as the decision: a governed call with a bundle. */
  ghost predicate Decides(c: Call) {
    c.wellFormed && c.named && c.configured && c.governed && c.refreshed && c.hasBundle
  }

  /** The gateway's reply, if it comes in time. */
  function InTime(c: Call): Option<Reply> {
    if c.replyMs <= 3000 then c.reply else None
  }

  /** A grant, if there is one, reaches the tool. */
  ghost predicate Delivered(c: Call, grant: Option<Grant>) {
    grant.Some? ==>
      RewritesInput(c.harness) && Guard(c.inputIsObject, grant.value.path, c.connector, c.lower) == Injected
  }

  /** The call was queued for review. */
  ghost predicate Queued(c: Call) {
    InTime(c).Some? && InTime(c).value.outcome == Escalate && InTime(c).value.queued
  }

  /** Poll `k` is the first with a final status. */
  ghost predicate ReviewedAt(c: Call, k: nat)
    requires Sound(c) && Effective(c).Some?
  {
    AnsweredAt(Effective(c).value, c.attempts, k) && NoAnswer(Effective(c).value, c.attempts, 0, k)
  }

  ghost predicate ReviewerProceeds(c: Call)
    requires Sound(c) && Effective(c).Some?
  {
    && Queued(c)
    && exists k ::
      && ReviewedAt(c, k)
      && c.attempts(k).body.value.outcome == Some(Proceed) && Delivered(c, c.attempts(k).body.value.grant)
  }

  ghost predicate GatewayGrants(c: Call) {
    && InTime(c).Some? && InTime(c).value.outcome == Proceed && InTime(c).value.grant.Some?
    && Delivered(c, InTime(c).value.grant)
  }

  /** The gateway has no say, or leaves it to the local decision. */
  ghost predicate LeftToLocal(c: Call) {
    || Effective(c).None?
    || (InTime(c).None? && Effective(c).value.outagePolicy == FailOpen && !NeedsJit(c.connector))
    || (InTime(c).Some? && InTime(c).value.outcome != Abort && !Queued(c)
        && !(InTime(c).value.outcome == Proceed && InTime(c).value.grant.Some?))
  }

  predicate LetsThrough(e: Exit) {
    e.Allowed? || e.AllowedRewritten?
  }

  lemma ClampSound(c: Call)
    requires Sound(c) && Effective(c).Some?
    ensures Effective(c).value.timeoutMs >= 5000 && Effective(c).value.pollIntervalMs >= 2000
    ensures Effective(c).value.outagePolicy == c.gateway.value.outagePolicy
  {
  }

  lemma {:induction false} ReviewIsWait(c: Call)
    requires Sound(c) && Effective(c).Some?
    ensures var w := Wait(Effective(c).value, c.attempts, 0, 0);
      if exists k :: ReviewedAt(c, k) then
        w.polls > 0 && ReviewedAt(c, w.polls - 1) && w.resolution == c.attempts(w.polls - 1).body.value
      else w.resolution == TIMED_OUT
    ensures forall j: nat, k: nat :: ReviewedAt(c, j) && ReviewedAt(c, k) ==> j == k
  {
    hide Wait, AnsweredAt, Clamp;
    ClampSound(c);
    WaitTheorem(Effective(c).value, c.attempts);
  }

  lemma {:induction false} EscalationLets(c: Call, elapsed: int)
    requires Sound(c) && Effective(c).Some? && Queued(c)
    ensures var s := Escalation(c, Effective(c).value, elapsed);
      && !s.Continues?
      && (s.Allows? || LetsThrough(s.exit) <==> ReviewerProceeds(c))
  {
    hide Wait, ReviewedAt, Guard, Clamp;
    ClampSound(c);
    ReviewIsWait(c);
  }

  lemma NotQueued(c: Call)
    requires Sound(c) && Effective(c).Some? && !Queued(c)
    ensures !ReviewerProceeds(c)
  {
  }

  /** A governed call with a bundle is let through if and only if shadow mode is on, or a reviewer or the
    gateway proceeds and any grant reaches the tool, or the decision is left to the local policy
    and that does not block. */
  lemma {:induction false} AllowedIff(c: Call)
    requires Sound(c) && Decides(c)
    ensures LetsThrough(Hook(c).exit) <==>
      || c.shadow
      || (Effective(c).Some? && (ReviewerProceeds(c) || GatewayGrants(c)))
      || (LeftToLocal(c) && !(c.mode == Enforce && c.local == Deny))
  {
    hide Escalation, Guard, Clamp, ReviewerProceeds;
    if Effective(c).Some? && !c.shadow {
      ClampSound(c);
      if Queued(c) {
        EscalationLets(c, Started(c) + Min(c.replyMs, 3000));
      } else {
        NotQueued(c);
      }
    }
  }

  /** The gateway hands the hook grant `g`: with its own PROCEED, or with the reviewer's. */
  ghost predicate Handed(c: Call, g: Grant)
    requires Sound(c) && Effective(c).Some?
  {
    || (InTime(c).Some? && InTime(c).value.outcome == Proceed && InTime(c).value.grant == Some(g))
    || (Queued(c) && exists k :: ReviewedAt(c, k) && HandsOver(c.attempts(k).body.value, g))
  }

  predicate HandsOver(r: Resolution, g: Grant) {
    r.outcome == Some(Proceed) && r.grant == Some(g)
  }

  /** A credential leaves the hook if and only if the hook decides, is not in shadow mode, and is handed
    a grant that its harness takes back and that its connector allows; such a grant is never dropped. */
  lemma {:induction false} RewrittenIff(c: Call, g: Grant)
    requires Sound(c)
    ensures Hook(c).exit == AllowedRewritten(g) <==>
      Decides(c) && !c.shadow && Effective(c).Some? && Handed(c, g) && Delivered(c, Some(g))
  {
    hide Wait, ReviewedAt, Guard, Clamp;
    if Effective(c).Some? {
      ClampSound(c);
      ReviewIsWait(c);
    }
  }

  /** A deciding call errs if and only if it is handed a grant that its harness could take and whose check
    throws: the connector is named like something that the table of connectors inherits. */
  lemma {:induction false} FailsIff(c: Call)
    requires Sound(c) && Decides(c)
    ensures Hook(c).exit == Failed <==>
      && !c.shadow && Effective(c).Some? && RewritesInput(c.harness)
      && exists g :: Handed(c, g) && Guard(c.inputIsObject, g.path, c.connector, c.lower) == Thrown
  {
    hide Wait, ReviewedAt, Clamp, Guard;
    if Effective(c).Some? {
      ClampSound(c);
      ReviewIsWait(c);
    }
  }

  /** The check throws if and only if an object and a safe path are given and the connector is so named. */
  lemma {:induction false} GuardThrowsIff(isObject: bool, path: string, connector: string, lower: string -> string)
    ensures Guard(isObject, path, connector, lower) == Thrown <==>
      isObject && path != "" && !AnyUnsafe(path) && connector != "" && Inherited(lower(connector))
  {
    hide AnyUnsafe, Inherited, AllowedFor;
  }

  /** A call that fails so: the gateway proceeds with a grant for a connector named "constructor". */
  lemma {:induction false} FailingCall() returns (c: Call)
    ensures Sound(c) && Decides(c) && Hook(c).exit == Failed
  {
    var grant := Grant("token", "secret");
    c := Call(true, true, true, true, true, true, 0, Claude, Enforce, false, LocalStatus.Allow,
      Some(Config(5000, 2000, FailClosed)), Some(Reply(Proceed, false, Some(grant))), 0,
      k => Attempt(0, None), 0, 0, "constructor", true, s => s);
    PlainPath();
    GuardThrowsIff(true, "token", "constructor", c.lower);
  }

  lemma {:induction false} PlainPath()
    ensures !AnyUnsafe("token")
  {
    assert '.' !in "token";
    SessionGuard.SplitNoDot("token");
    assert "token"[0] == 't';
  }

  /** In an outage a call is blocked if and only if its connector needs granted credentials, the policy
    fails closed, or the local decision blocks; otherwise it is allowed. */
  lemma {:induction false} OutageBlocksIff(c: Call)
    requires Sound(c) && Decides(c) && !c.shadow && Effective(c).Some? && InTime(c).None?
    ensures Hook(c).exit == Blocked <==>
      || c.connector == "stripe" || c.connector == "mock"
      || Effective(c).value.outagePolicy == FailClosed || (c.mode == Enforce && c.local == Deny)
    ensures Hook(c).exit == Blocked || Hook(c).exit == Allowed
  {
    hide Wait, Guard, Clamp;
    ClampSound(c);
  }

  /** A call that does not get as far as the decision is let through, unless refreshing the token failed. */
  lemma {:induction false} EarlyExits(c: Call)
    requires Sound(c) && !Decides(c)
    ensures Hook(c).exit ==
      if c.wellFormed && c.named && c.configured && c.governed && !c.refreshed then Failed else Allowed
    ensures !(c.wellFormed && c.named && c.configured && c.governed) ==> Hook(c).elapsed == 0
    ensures c.wellFormed && c.named && c.configured && c.governed ==>
      Hook(c).elapsed == (if c.refreshMs < 10_000 then c.refreshMs else 10_000)
                         + if !c.refreshed then 0 else if c.postMs < 500 then c.postMs else 500
  {
  }

  /** Which grants reach the tool: those of a harness that takes the input back, at an allowed path. */
  lemma {:induction false} DeliveredIff(c: Call, g: Grant)
    ensures Delivered(c, Some(g)) <==>
      && (c.harness == Claude || c.harness == Codex || c.harness == Gemini)
      && Guard(c.inputIsObject, g.path, c.connector, c.lower) == Injected
    ensures Delivered(c, None)
  {
    hide Guard;
  }

  /** The gateway's configuration is as it was, but on Kimi Code the wait is at most nine minutes. */
  lemma {:induction false} EffectiveIs(c: Call)
    ensures Effective(c).Some? <==> c.gateway.Some?
    ensures c.gateway.Some? ==> Effective(c).value == c.gateway.value.(timeoutMs :=
      if c.harness == Kimi && c.gateway.value.timeoutMs > 540_000 then 540_000 else c.gateway.value.timeoutMs)
  {
  }

  // --- How long it takes -----------------------------------------------------------

  lemma {:induction false} GatewayStageTime(c: Call, config: Config, elapsed: int)
    requires config.pollIntervalMs > 0 && config.timeoutMs >= 0
    ensures elapsed <= GatewayStage(c, config, elapsed).elapsed <= elapsed + 7_000 + config.timeoutMs
    ensures GatewayStage(c, config, elapsed).Continues? ==>
      GatewayStage(c, config, elapsed).elapsed <= elapsed + 4_000
  {
    hide Wait, Guard;
    WaitTheorem(config, c.attempts);
  }

  /** Every exit comes within the gateway's time limit and 17 seconds for refresh, reply and evidence;
    so for Kimi Code, whose limit is clamped, before the hook is killed and the call let through. */
  lemma {:induction false} DeadlineTheorem(c: Call)
    requires Sound(c)
    ensures 0 <= Hook(c).elapsed <= 17_000 + if Effective(c).Some? then Effective(c).value.timeoutMs else 0
    ensures c.harness == Kimi ==> Hook(c).elapsed < KIMI_HOOK_TIMEOUT_MS
  {
    hide GatewayStage;
    if Effective(c).Some? {
      ClampSound(c);
      GatewayStageTime(c, Effective(c).value, Started(c));
    }
  }

  /** The clamp is what keeps the deadline: unclamped, a queued call that nobody reviews
    is still waiting when a limit above ten minutes is the gateway's. */
  lemma {:induction false} UnclampedOverruns(c: Call, config: Config, elapsed: int)
    requires config.pollIntervalMs > 0 && config.timeoutMs >= KIMI_HOOK_TIMEOUT_MS && elapsed >= 0
    requires Queued(c) && forall k: nat :: !Final(c.attempts(k))
    ensures GatewayStage(c, config, elapsed).elapsed >= KIMI_HOOK_TIMEOUT_MS
  {
    hide Wait;
    WaitTheorem(config, c.attempts);
    assert forall k: nat :: !AnsweredAt(config, c.attempts, k);
  }

  /** A block waits for its evidence: unless the gateway is out, or the grant's path was refused, the block comes no
    sooner than the evidence is delivered, or two seconds after it was sent. */
  lemma {:induction false} BlockWaitsForEvidence(c: Call)
    requires Sound(c) && Decides(c) && Hook(c).exit == Blocked
    requires Effective(c).Some? && !c.shadow ==> InTime(c).Some? && forall g :: Handed(c, g) ==> !RewritesInput(c.harness)
    ensures Hook(c).elapsed >= Started(c) + if c.evidenceMs < 2000 then c.evidenceMs else 2000
  {
    hide Wait, ReviewedAt, Guard, Clamp;
    if Effective(c).Some? && !c.shadow {
      ClampSound(c);
      ReviewIsWait(c);
      WaitTheorem(Effective(c).value, c.attempts);
      var w := Wait(Effective(c).value, c.attempts, 0, 0);
      if Queued(c) && w.resolution.outcome == Some(Proceed) && w.resolution.grant.Some? {
        assert Handed(c, w.resolution.grant.value);
      } else if InTime(c).value.outcome == Proceed && InTime(c).value.grant.Some? {
        assert Handed(c, InTime(c).value.grant.value);
      }
    }
  }

  /** A credential leaves only after half a second, or when the evidence is delivered. */
  lemma {:induction false} GrantWaitsForEvidence(c: Call)
    requires Sound(c) && Hook(c).exit.AllowedRewritten?
    ensures Hook(c).elapsed >= Started(c) + if c.evidenceMs < 500 then c.evidenceMs else 500
  {
    hide Wait, Guard, Clamp;
    if Effective(c).Some? {
      ClampSound(c);
      WaitTheorem(Effective(c).value, c.attempts);
    }
  }

  /** And an allowed call is not held up: once decided it leaves within half a second. */
  lemma {:induction false} AllowIsPrompt(c: Call)
    requires Sound(c) && Decides(c) && Effective(c).None? && LetsThrough(Hook(c).exit)
    ensures Hook(c).elapsed == Started(c) + if c.evidenceMs < 500 then c.evidenceMs else 500
  {
  }

  /** A block in an outage comes after the wait for the reply, 3 s at most, and for its own evidence, 1 s at most. */
  lemma {:induction false} OutageBlockTime(c: Call)
    requires Sound(c) && Decides(c) && !c.shadow && Effective(c).Some? && InTime(c).None?
    requires c.connector == "stripe" || c.connector == "mock" || Effective(c).value.outagePolicy == FailClosed
    ensures Hook(c).exit == Blocked
    ensures Hook(c).elapsed == Started(c) + (if c.replyMs < 3000 then c.replyMs else 3000)
                               + if c.postMs < 1000 then c.postMs else 1000
  {
    hide Wait, Guard, Clamp;
    ClampSound(c);
  }
}
