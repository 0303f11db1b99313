/** The gateway's configuration, and the timed loop that waits for an escalation to be resolved. */
module GatewayPoll {
  import opened Common

  datatype Mode = Observe | Enforce
  datatype OutagePolicy = FailOpen | FailClosed

  datatype Config = Config(timeoutMs: int, pollIntervalMs: int, outagePolicy: OutagePolicy)

  /** A number from the environment: absent or not a number is None; zero counts as neither. */
  function Milliseconds(parsed: Option<int>, fallback: int, least: int): (ms: int)
    ensures ms >= least
  {
    var seconds := if parsed.Some? && parsed.value != 0 then parsed.value else fallback;
    if seconds * 1000 > least then seconds * 1000 else least
  }

  /** The environment's policy wins over the file's, and the file's over the mode's. */
  function Policy(mode: Mode, env: Option<OutagePolicy>, file: Option<OutagePolicy>): OutagePolicy {
    if env.Some? then env.value
    else if file.Some? then file.value
    else if mode == Enforce then FailClosed else FailOpen
  }

  function ResolveConfig(hasUrl: bool, mode: Mode, timeout: Option<int>, pollInterval: Option<int>,
      envPolicy: Option<OutagePolicy>, filePolicy: Option<OutagePolicy>): (c: Option<Config>)
    ensures c.Some? <==> hasUrl
    ensures c.Some? ==> c.value.timeoutMs >= 5000 && c.value.pollIntervalMs >= 2000
    ensures c.Some? && (timeout == None || timeout == Some(0)) ==> c.value.timeoutMs == 1_800_000
    ensures c.Some? && timeout.Some? && timeout.value >= 5 ==> c.value.timeoutMs == timeout.value * 1000
    ensures c.Some? && timeout.Some? && timeout.value < 5 && timeout.value != 0 ==> c.value.timeoutMs == 5000
    ensures c.Some? && (pollInterval == None || pollInterval == Some(0)) ==> c.value.pollIntervalMs == 10_000
    ensures c.Some? && pollInterval.Some? && pollInterval.value >= 2 ==>
      c.value.pollIntervalMs == pollInterval.value * 1000
    ensures c.Some? && pollInterval.Some? && pollInterval.value < 2 && pollInterval.value != 0 ==>
      c.value.pollIntervalMs == 2000
    ensures c.Some? ==> (c.value.outagePolicy == FailClosed <==>
      || envPolicy == Some(FailClosed)
      || (envPolicy == None && filePolicy == Some(FailClosed))
      || (envPolicy == None && filePolicy == None && mode == Enforce))
  {
    if !hasUrl then None
    else Some(Config(Milliseconds(timeout, 1800, 5000), Milliseconds(pollInterval, 10, 2000),
      Policy(mode, envPolicy, filePolicy)))
  }

  // --- Polling --------------------------------------------------------------------

  datatype Grant = Grant(path: string, credential: string)

  datatype Status = Pending | InReview | Resolved | Expired | UnknownStatus
  datatype Outcome = Proceed | Escalate | Abort | UnknownOutcome

  datatype Resolution = Resolution(status: Status, outcome: Option<Outcome>, grant: Option<Grant>)

  const TIMED_OUT := Resolution(Expired, None, None)

  /** What one request would bring if left alone: how long it takes, and a body (None: no usable reply). */
  datatype Attempt = Attempt(took: nat, body: Option<Resolution>)

  predicate Final(a: Attempt) {
    a.body.Some? && (a.body.value.status == Resolved || a.body.value.status == Expired)
  }

  function Min(a: int, b: int): int { if a < b then a else b }

  /** The time a request is given: one interval, or what remains. */
  function Allowance(c: Config, elapsed: int): int {
    Min(c.timeoutMs - elapsed, c.pollIntervalMs)
  }

  /** The attempt brings a final status before it is aborted. */
  predicate Answers(c: Config, a: Attempt, elapsed: int) {
    Final(a) && a.took <= Allowance(c, elapsed)
  }

  /** The clock after an attempt without a final status, and the sleep that follows. */
  function NextPoll(c: Config, a: Attempt, elapsed: int): (next: int)
    requires 0 <= elapsed < c.timeoutMs && c.pollIntervalMs > 0
    ensures elapsed < next <= c.timeoutMs
    ensures next == c.timeoutMs || next >= elapsed + c.pollIntervalMs
  {
    var replied := elapsed + Min(a.took, Allowance(c, elapsed));
    replied + Min(c.pollIntervalMs, c.timeoutMs - replied)
  }

  datatype Waited = Waited(resolution: Resolution, elapsed: int, polls: nat)

  /** The loop from poll `k` on, with timers that fire exactly on time. */
  function Wait(c: Config, attempts: nat -> Attempt, k: nat, elapsed: int): Waited
    requires elapsed >= 0 && c.pollIntervalMs > 0
    decreases c.timeoutMs - elapsed
  {
    if c.timeoutMs - elapsed <= 0 then Waited(TIMED_OUT, elapsed, k)
    else if Answers(c, attempts(k), elapsed) then
      Waited(attempts(k).body.value, elapsed + attempts(k).took, k + 1)
    else Wait(c, attempts, k + 1, NextPoll(c, attempts(k), elapsed))
  }

  method PollEscalationResolution(c: Config, attempts: nat -> Attempt) returns (w: Waited)
    requires c.pollIntervalMs > 0
    ensures w == Wait(c, attempts, 0, 0)
  {
    var elapsed, k := 0, 0;
    while true
      invariant elapsed >= 0
      invariant Wait(c, attempts, 0, 0) == Wait(c, attempts, k, elapsed)
      decreases c.timeoutMs - elapsed
    {
      var remainingMs := c.timeoutMs - elapsed;
      if remainingMs <= 0 {
        return Waited(TIMED_OUT, elapsed, k);
      }
      var attemptMs := Min(remainingMs, c.pollIntervalMs);
      var a := attempts(k);
      k := k + 1;
      if a.took <= attemptMs {
        elapsed := elapsed + a.took;
        if a.body.Some? && (a.body.value.status == Resolved || a.body.value.status == Expired) {
          return Waited(a.body.value, elapsed, k);
        }
      } else {
        elapsed := elapsed + attemptMs;
      }
      var sleepMs := Min(c.pollIntervalMs, if c.timeoutMs - elapsed > 0 then c.timeoutMs - elapsed else 0);
      elapsed := elapsed + sleepMs;
    }
  }

  // --- What the wait amounts to -----------------------------------------------------

  /** When poll `k` starts, if none before it brought a final status. */
  ghost function StartOf(c: Config, attempts: nat -> Attempt, k: nat): (elapsed: int)
    requires c.pollIntervalMs > 0 && c.timeoutMs >= 0
    ensures 0 <= elapsed <= c.timeoutMs
  {
    if k == 0 then 0
    else
      var before := StartOf(c, attempts, k - 1);
      if before < c.timeoutMs then NextPoll(c, attempts(k - 1), before) else before
  }

  /** Polls start a whole interval apart, until the time is up. */
  lemma {:induction false} StartSpacing(c: Config, attempts: nat -> Attempt, k: nat)
    requires c.pollIntervalMs > 0 && c.timeoutMs >= 0
    ensures StartOf(c, attempts, k) == c.timeoutMs || StartOf(c, attempts, k) >= k * c.pollIntervalMs
  {
    if k > 0 {
      StartSpacing(c, attempts, k - 1);
    }
  }

  /** Poll `k` is made and brings a final status. */
  ghost predicate AnsweredAt(c: Config, attempts: nat -> Attempt, k: nat)
    requires c.pollIntervalMs > 0 && c.timeoutMs >= 0
  {
    var start := StartOf(c, attempts, k);
    start < c.timeoutMs && Answers(c, attempts(k), start)
  }

  /** No poll from `k` up to `n` brings a final status. */
  ghost predicate NoAnswer(c: Config, attempts: nat -> Attempt, k: nat, n: nat)
    requires c.pollIntervalMs > 0 && c.timeoutMs >= 0
  {
    forall j :: k <= j < n ==> !AnsweredAt(c, attempts, j)
  }

  /** Either the last poll made is the first with a final status, and that is the result,
    or none has one, and the whole time has passed. */
  ghost predicate Explained(c: Config, attempts: nat -> Attempt, k: nat, w: Waited)
    requires c.pollIntervalMs > 0 && c.timeoutMs >= 0
  {
    if w.polls > k && AnsweredAt(c, attempts, w.polls - 1) then
      w.resolution == attempts(w.polls - 1).body.value && NoAnswer(c, attempts, k, w.polls - 1)
    else
      && w.resolution == TIMED_OUT && w.elapsed == c.timeoutMs
      && NoAnswer(c, attempts, k, w.polls) && StartOf(c, attempts, w.polls) == c.timeoutMs
  }

  lemma {:induction false} ExplainedBefore(c: Config, attempts: nat -> Attempt, k: nat, w: Waited)
    requires c.pollIntervalMs > 0 && c.timeoutMs >= 0
    requires !AnsweredAt(c, attempts, k) && w.polls >= k + 1 && Explained(c, attempts, k + 1, w)
    ensures Explained(c, attempts, k, w)
  {
    hide AnsweredAt, StartOf;
  }

  lemma StartNext(c: Config, attempts: nat -> Attempt, k: nat)
    requires c.pollIntervalMs > 0 && c.timeoutMs >= 0
    ensures StartOf(c, attempts, 0) == 0
    ensures StartOf(c, attempts, k) < c.timeoutMs ==>
      StartOf(c, attempts, k + 1) == NextPoll(c, attempts(k), StartOf(c, attempts, k))
  {
  }

  lemma ExplainedNow(c: Config, attempts: nat -> Attempt, k: nat)
    requires c.pollIntervalMs > 0 && c.timeoutMs >= 0
    requires StartOf(c, attempts, k) == c.timeoutMs || AnsweredAt(c, attempts, k)
    ensures Explained(c, attempts, k, Wait(c, attempts, k, StartOf(c, attempts, k)))
  {
  }

  lemma {:induction false} WaitFrom(c: Config, attempts: nat -> Attempt, k: nat)
    requires c.pollIntervalMs > 0 && c.timeoutMs >= 0
    ensures var w := Wait(c, attempts, k, StartOf(c, attempts, k));
      && 0 <= w.elapsed <= c.timeoutMs && w.polls >= k
      && (w.polls > k ==> StartOf(c, attempts, w.polls - 1) < c.timeoutMs)
      && Explained(c, attempts, k, w)
    decreases c.timeoutMs - StartOf(c, attempts, k)
  {
    hide NextPoll, StartOf, Explained;
    var start := StartOf(c, attempts, k);
    var w := Wait(c, attempts, k, start);
    if start < c.timeoutMs && !Answers(c, attempts(k), start) {
      StartNext(c, attempts, k);
      WaitFrom(c, attempts, k + 1);
      ExplainedBefore(c, attempts, k, w);
    } else {
      ExplainedNow(c, attempts, k);
    }
  }

  lemma {:induction false} Late(c: Config, attempts: nat -> Attempt, n: nat, k: nat)
    requires c.pollIntervalMs > 0 && c.timeoutMs >= 0
    requires n <= k && StartOf(c, attempts, n) == c.timeoutMs
    ensures !AnsweredAt(c, attempts, k) && StartOf(c, attempts, k) == c.timeoutMs
  {
    if k > n {
      Late(c, attempts, n, k - 1);
    }
  }

  /** The wait ends within the time limit, after at most one poll for every interval begun; it reports
    what the first poll with a final status brought, and a time-out if and only if no poll brought one. */
  lemma {:induction false} WaitTheorem(c: Config, attempts: nat -> Attempt)
    requires c.pollIntervalMs > 0 && c.timeoutMs >= 0
    ensures var w := Wait(c, attempts, 0, 0);
      && 0 <= w.elapsed <= c.timeoutMs
      && (w.polls == 0 || (w.polls - 1) * c.pollIntervalMs < c.timeoutMs)
    ensures var w := Wait(c, attempts, 0, 0);
      if exists k :: AnsweredAt(c, attempts, k) then
        && w.polls > 0 && AnsweredAt(c, attempts, w.polls - 1) && NoAnswer(c, attempts, 0, w.polls - 1)
        && w.resolution == attempts(w.polls - 1).body.value
      else w.resolution == TIMED_OUT && w.elapsed == c.timeoutMs
  {
    hide AnsweredAt, StartOf, Wait;
    StartNext(c, attempts, 0);
    WaitFrom(c, attempts, 0);
    var w := Wait(c, attempts, 0, 0);
    if w.polls > 0 {
      StartSpacing(c, attempts, w.polls - 1);
    }
    forall k: nat | StartOf(c, attempts, w.polls) == c.timeoutMs && w.polls <= k
      ensures !AnsweredAt(c, attempts, k)
    {
      Late(c, attempts, w.polls, k);
    }
  }

  /** Which polls are answered: those that start in time and bring one of the two final statuses within
    one interval, before the time is up. */
  lemma {:induction false} AnsweredIff(c: Config, attempts: nat -> Attempt, k: nat)
    requires c.pollIntervalMs > 0 && c.timeoutMs >= 0
    ensures var start, a := StartOf(c, attempts, k), attempts(k);
      AnsweredAt(c, attempts, k) <==>
        && start < c.timeoutMs && a.took <= c.pollIntervalMs && start + a.took <= c.timeoutMs
        && a.body.Some? && (a.body.value.status == Resolved || a.body.value.status == Expired)
  {
  }

  /** The cadence: after the reply, or after one interval without one, the loop sleeps one interval; so a
    connection that stalls holds up the next poll by one interval and no more. */
  lemma {:induction false} Cadence(c: Config, attempts: nat -> Attempt, k: nat)
    requires c.pollIntervalMs > 0 && c.timeoutMs >= 0
    ensures StartOf(c, attempts, k) < c.timeoutMs ==>
      var took := if attempts(k).took < c.pollIntervalMs then attempts(k).took else c.pollIntervalMs;
      var next := StartOf(c, attempts, k) + took + c.pollIntervalMs;
      StartOf(c, attempts, k + 1) == if next < c.timeoutMs then next else c.timeoutMs
  {
    hide StartOf;
    StartNext(c, attempts, k);
  }

  /** So the polls start at the beginning, and never more than two intervals apart. */
  lemma {:induction false} StartBound(c: Config, attempts: nat -> Attempt, k: nat)
    requires c.pollIntervalMs > 0 && c.timeoutMs >= 0
    ensures StartOf(c, attempts, 0) == 0
    ensures StartOf(c, attempts, k) <= k * (2 * c.pollIntervalMs)
  {
    hide NextPoll;
    if k > 0 {
      StartBound(c, attempts, k - 1);
      Cadence(c, attempts, k - 1);
      OneMore(k, 2 * c.pollIntervalMs);
    }
  }

  lemma {:induction false} OneMore(k: nat, d: int)
    requires k > 0
    ensures k * d == (k - 1) * d + d
  {
  }
}
