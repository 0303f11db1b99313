/** The refresh-token manager of packages/mcp-server/src/token.ts and the 401 retry of
  packages/mcp-server/src/server.ts, against a server that rotates refresh tokens on use.
  Tokens are numbers; the server hands out numbers it has never used. */
module TokenManager {
  import opened Common

  type Token = nat

  const REFRESH_MAX_ATTEMPTS := 3
  const EXPIRY_MARGIN_MS := 60_000
  const DEFAULT_LIFETIME_MS := 55 * 60 * 1000

  datatype ErrorKind = TokenRevoked | TokenExpired | NoRefreshToken | NetworkError | RefreshFailed

  datatype Outcome = Ok | Err(kind: ErrorKind)

  datatype Response =
    | Refreshed(access: Option<Token>, refresh: Option<Token>, expiresAt: Option<int>)
    | Unauthorized(revoked: bool)
    | ServerError

  /** The manager's fields; `slot` names the run behind `refreshPromise`. */
  datatype Client = Client(
    access: Option<Token>, refresh: Option<Token>, expiresAtMs: int, canRevoke: bool, slot: Option<nat>)

  datatype Phase =
    | Sent(attempt: nat, token: Token)
    | Answered(attempt: nat, token: Token, response: Response)
    | Backoff(attempt: nat)
    | Settled(outcome: Outcome)
    | Closed(outcome: Outcome)

  predicate ExpiringSoon(c: Client, now: int) {
    c.expiresAtMs != 0 && now >= c.expiresAtMs - EXPIRY_MARGIN_MS
  }

  function Applied(c: Client, data: Response, now: int): Client
    requires data.Refreshed?
  {
    c.(access := data.access,
       refresh := if data.refresh.Some? then data.refresh else c.refresh,
       canRevoke := true,
       expiresAtMs := if data.expiresAt.Some? then data.expiresAt.value else now + DEFAULT_LIFETIME_MS)
  }

  /** What one attempt of the retry loop does with its reply; None is a network error. */
  function AttemptClient(c: Client, reply: Option<Response>, now: int): Client {
    if reply.Some? && reply.value.Refreshed? then Applied(c, reply.value, now) else c
  }

  function AttemptPhase(attempt: nat, reply: Option<Response>): Phase {
    match reply
    case Some(Refreshed(_, _, _)) => Settled(Ok)
    case Some(Unauthorized(revoked)) => Settled(Err(if revoked then TokenRevoked else TokenExpired))
    case _ => if attempt < REFRESH_MAX_ATTEMPTS then Backoff(attempt) else Settled(Err(NetworkError))
  }

  /** The retry loop from `attempt` on, when the server answers `replies` in turn. */
  function RetryPhase(attempt: nat, replies: seq<Option<Response>>): (p: Phase)
    requires 1 <= attempt <= REFRESH_MAX_ATTEMPTS && |replies| == REFRESH_MAX_ATTEMPTS
    ensures p.Settled?
    decreases REFRESH_MAX_ATTEMPTS - attempt
  {
    var p := AttemptPhase(attempt, replies[attempt - 1]);
    if p.Backoff? then RetryPhase(attempt + 1, replies) else p
  }

  /** The number of requests the loop has sent when it stops. */
  function RetryCount(attempt: nat, replies: seq<Option<Response>>): (n: nat)
    requires 1 <= attempt <= REFRESH_MAX_ATTEMPTS && |replies| == REFRESH_MAX_ATTEMPTS
    ensures attempt <= n <= REFRESH_MAX_ATTEMPTS
    ensures forall k :: attempt - 1 <= k < n - 1 ==> AttemptPhase(k + 1, replies[k]).Backoff?
    ensures AttemptPhase(n, replies[n - 1]) == RetryPhase(attempt, replies)
    decreases REFRESH_MAX_ATTEMPTS - attempt
  {
    if AttemptPhase(attempt, replies[attempt - 1]).Backoff? then RetryCount(attempt + 1, replies) else attempt
  }

  /** A network error, or an answer other than success and 401. */
  predicate Retryable(reply: Option<Response>) {
    reply == None || reply == Some(ServerError)
  }

  /** The loop's outcome, by the replies alone: that of the first of three that is not retryable, or a
    network error when there is none. */
  lemma {:induction false} RetryOutcome(replies: seq<Option<Response>>, k: nat)
    requires |replies| == 3 && k <= 3 && forall j :: 0 <= j < k ==> Retryable(replies[j])
    requires k < 3 ==> !Retryable(replies[k])
    ensures RetryPhase(1, replies) == Settled(
      if k == 3 then Err(NetworkError)
      else if replies[k].value == Unauthorized(true) then Err(TokenRevoked)
      else if replies[k].value == Unauthorized(false) then Err(TokenExpired)
      else Ok)
    ensures RetryCount(1, replies) == if k == 3 then 3 else k + 1
  {
    RetryFrom(replies, k, 1);
  }

  lemma {:induction false} RetryFrom(replies: seq<Option<Response>>, k: nat, attempt: nat)
    requires |replies| == 3 && k <= 3 && forall j :: 0 <= j < k ==> Retryable(replies[j])
    requires k < 3 ==> !Retryable(replies[k])
    requires 1 <= attempt <= 3 && attempt <= k + 1
    ensures RetryPhase(attempt, replies) == AttemptPhase(if k == 3 then 3 else k + 1, if k == 3 then None else replies[k])
    ensures RetryCount(attempt, replies) == if k == 3 then 3 else k + 1
    decreases 3 - attempt
  {
    if attempt <= k && attempt < 3 {
      RetryFrom(replies, k, attempt + 1);
    }
  }

  class AccessTokenManager {
    var accessToken: Option<Token>
    var refreshToken: Option<Token>
    var expiresAtMs: int
    var canRevokeAccessToken: bool
    var refreshPromise: Option<nat>

    function View(): Client reads this {
      Client(accessToken, refreshToken, expiresAtMs, canRevokeAccessToken, refreshPromise)
    }

    constructor (access: Option<Token>, refresh: Option<Token>)
      ensures View() == Client(access, refresh, 0, false, None)
    {
      accessToken, refreshToken, expiresAtMs := access, refresh, 0;
      canRevokeAccessToken, refreshPromise := false, None;
    }

    /** getValidAccessToken up to its await: a usable token, an error, or a refresh to wait for. */
    method BeginGetValid(now: int, next: nat) returns (path: Path)
      modifies this
      ensures path == GetValidPath(old(View()), now, next)
      ensures View() == if path.Wait? then Slotted(old(View()), next) else old(View())
    {
      if accessToken.Some? && !ExpiringSoon(View(), now) {
        return Use(accessToken.value);
      }
      if refreshToken.None? {
        return Fail(NoRefreshToken);
      }
      var run := Refresh(next);
      path := Wait(run);
    }

    /** refresh(): joins the run in the slot, or puts run `next` there. */
    method Refresh(next: nat) returns (run: nat)
      modifies this
      ensures View() == Slotted(old(View()), next) && refreshPromise == Some(run)
    {
      if refreshPromise.None? {
        refreshPromise := Some(next);
      }
      run := refreshPromise.value;
    }

    /** The finally handler of the run in the slot. */
    method OnFinally()
      modifies this
      ensures View() == old(View()).(slot := None)
    {
      refreshPromise := None;
    }

    method ApplyRefreshResponse(data: Response, now: int)
      requires data.Refreshed?
      modifies this
      ensures View() == Applied(old(View()), data, now)
    {
      accessToken := data.access;
      if data.refresh.Some? {
        refreshToken := data.refresh;
      }
      canRevokeAccessToken := true;
      expiresAtMs := if data.expiresAt.Some? then data.expiresAt.value else now + DEFAULT_LIFETIME_MS;
    }

    /** The retry loop against a server that answers `replies`, with clock readings `clock`. */
    method RefreshWithRetry(replies: seq<Option<Response>>, clock: seq<int>)
      returns (outcome: Outcome, submitted: seq<Token>)
      requires |replies| == |clock| == REFRESH_MAX_ATTEMPTS
      modifies this
      ensures old(refreshToken).None? ==> outcome == Err(NoRefreshToken) && submitted == [] && View() == old(View())
      ensures old(refreshToken).Some? ==>
                var n := RetryCount(1, replies);
                && Settled(outcome) == RetryPhase(1, replies)
                && |submitted| == n && (forall t :: t in submitted ==> old(refreshToken) == Some(t))
                && View() == AttemptClient(old(View()), replies[n - 1], clock[n - 1])
    {
      submitted := [];
      if refreshToken.None? {
        return Err(NoRefreshToken), [];
      }
      var attempt := 1;
      while attempt <= REFRESH_MAX_ATTEMPTS
        invariant 1 <= attempt <= REFRESH_MAX_ATTEMPTS + 1
        invariant View() == old(View())
        invariant |submitted| == attempt - 1 && forall t :: t in submitted ==> old(refreshToken) == Some(t)
        invariant attempt <= REFRESH_MAX_ATTEMPTS ==>
                    && RetryPhase(1, replies) == RetryPhase(attempt, replies)
                    && RetryCount(1, replies) == RetryCount(attempt, replies)
        invariant attempt > REFRESH_MAX_ATTEMPTS ==>
                    && RetryPhase(1, replies) == Settled(Err(NetworkError))
                    && RetryCount(1, replies) == REFRESH_MAX_ATTEMPTS
                    && AttemptClient(old(View()), replies[2], clock[2]) == old(View())
      {
        submitted := submitted + [refreshToken.value];
        match replies[attempt - 1] {
          case Some(Refreshed(a, r, e)) =>
            ApplyRefreshResponse(Refreshed(a, r, e), clock[attempt - 1]);
            return Ok, submitted;
          case Some(Unauthorized(revoked)) =>
            return Err(if revoked then TokenRevoked else TokenExpired), submitted;
          case _ =>
        }
        attempt := attempt + 1;
      }
      outcome := Err(NetworkError);
    }
  }

  datatype Path = Use(token: Token) | Fail(kind: ErrorKind) | Wait(run: nat)

  function Slotted(c: Client, next: nat): Client {
    if c.slot.None? then c.(slot := Some(next)) else c
  }

  function GetValidPath(c: Client, now: int, next: nat): Path {
    if c.access.Some? && !ExpiringSoon(c, now) then Use(c.access.value)
    else if c.refresh.None? then Fail(NoRefreshToken)
    else Wait(Slotted(c, next).slot.value)
  }

  // --- The rotating server --------------------------------------------------

  datatype Server = Server(current: Token, retired: set<Token>, next: Token, sessionKilled: bool)

  /** How the server treats the current token: rotate it, renew without rotating, or fail. */
  datatype Choice = Rotate(expiresAt: Option<int>) | Renew(expiresAt: Option<int>) | Unavailable

  function Handled(s: Server, token: Token, choice: Choice): Server {
    if choice.Unavailable? then s
    else if token in s.retired then s.(sessionKilled := true)
    else if token != s.current || s.sessionKilled || !choice.Rotate? then s
    else s.(current := s.next, retired := s.retired + {s.current}, next := s.next + 2)
  }

  function ReplyTo(s: Server, token: Token, choice: Choice): Response {
    if choice.Unavailable? then ServerError
    else if token != s.current || s.sessionKilled then Unauthorized(token in s.retired || s.sessionKilled)
    else if choice.Rotate? then Refreshed(Some(s.next + 1), Some(s.next), choice.expiresAt)
    else Refreshed(Some(s.next + 1), None, choice.expiresAt)
  }

  // --- The machine ----------------------------------------------------------

  /** Which await of the call a refresh is for. */
  datatype Stage = FirstGet | After401 | SecondGet

  /** A call of postWithAuth or getWithAuth; `retried` once it has been answered 401. */
  datatype Caller =
    | Idle(retried: bool)
    | Waiting(run: nat, stage: Stage)
    | Holding(token: Token, retried: bool)
    | Finished
    | Failed(kind: ErrorKind)

  /** A request the client has given up on and the server has not processed yet. */
  datatype Stray = Stray(run: nat, token: Token)

  datatype Event =
    | Submitted(run: nat, token: Token, stale: bool)
    | Lost(run: nat)
    | Late(run: nat)
    | Shared(caller: nat, run: nat, outcome: Outcome)

  datatype World = World(
    client: Client, server: Server, runs: seq<Phase>, callers: seq<Caller>, strays: seq<Stray>, now: int,
    log: seq<Event>)

  datatype Label =
    | Tick(ms: nat)
    | Arrive
    | GetValid(caller: nat)
    | Rejected401(caller: nat)
    | RequestEnds(caller: nat)
    | Serve(run: nat, choice: Choice)
    | Drop(run: nat)
    | Abandon(run: nat)
    | ServeStray(stray: nat, choice: Choice)
    | Lose(run: nat)
    | Deliver(run: nat)
    | Retry(run: nat)
    | Close(run: nat)
    | Resume(caller: nat)

  ghost predicate Initial(w: World) {
    && (w.client.refresh == Some(w.server.current) || w.client.refresh.None?)
    && w.client.slot.None? && w.runs == [] && w.callers == [] && w.strays == [] && w.log == []
    && w.server.retired == {} && w.server.current < w.server.next && !w.server.sessionKilled
  }

  predicate Live(p: Phase) { !p.Closed? }

  predicate Enabled(w: World, l: Label) {
    match l
    case Tick(_) => true
    case Arrive => true
    case GetValid(c) => c < |w.callers| && w.callers[c].Idle?
    case Rejected401(c) => c < |w.callers| && w.callers[c].Holding? && !w.callers[c].retried
    case RequestEnds(c) => c < |w.callers| && w.callers[c].Holding?
    case Serve(r, _) => r < |w.runs| && w.runs[r].Sent?
    case Drop(r) => r < |w.runs| && w.runs[r].Sent?
    case Abandon(r) => r < |w.runs| && w.runs[r].Sent?
    case ServeStray(j, _) => j < |w.strays|
    case Lose(r) => r < |w.runs| && w.runs[r].Answered?
    case Deliver(r) => r < |w.runs| && w.runs[r].Answered?
    case Retry(r) => r < |w.runs| && w.runs[r].Backoff?
    case Close(r) => r < |w.runs| && w.runs[r].Settled?
    case Resume(c) =>
      c < |w.callers| && w.callers[c].Waiting? && w.callers[c].run < |w.runs| && w.runs[w.callers[c].run].Closed?
  }

  /** The first synchronous stretch of a run: submit the stored token, or fail without one. */
  function Opened(w: World): World {
    if w.client.refresh.None? then w.(runs := w.runs + [Settled(Err(NoRefreshToken))])
    else
      var t := w.client.refresh.value;
      w.(runs := w.runs + [Sent(1, t)], log := w.log + [Submitted(|w.runs|, t, t in w.server.retired)])
  }

  /** refresh() called by caller `c`. */
  function Refreshing(w: World, c: nat, stage: Stage): World
    requires c < |w.callers|
  {
    var v := if w.client.slot.None? then Opened(w) else w;
    var client := Slotted(w.client, |w.runs|);
    v.(client := client, callers := w.callers[c := Waiting(client.slot.value, stage)])
  }

  function Got(w: World, c: nat, retried: bool): World
    requires c < |w.callers|
  {
    match GetValidPath(w.client, w.now, |w.runs|)
    case Use(t) => w.(callers := w.callers[c := Holding(t, retried)])
    case Fail(k) => w.(callers := w.callers[c := Caller.Failed(k)])
    case Wait(_) => Refreshing(w, c, if retried then SecondGet else FirstGet)
  }

  function Replied(w: World, r: nat, attempt: nat, reply: Option<Response>): World
    requires r < |w.runs|
  {
    w.(client := AttemptClient(w.client, reply, w.now), runs := w.runs[r := AttemptPhase(attempt, reply)])
  }

  /** The server processes a stray at last; nobody reads the reply, so a rotation is lost. */
  function StrayServed(w: World, j: nat, choice: Choice): World
    requires j < |w.strays|
  {
    var x := w.strays[j];
    var reply := ReplyTo(w.server, x.token, choice);
    var v := w.(server := Handled(w.server, x.token, choice), strays := w.strays[..j] + w.strays[j + 1..]);
    if reply.Refreshed? && reply.refresh.Some? then v.(log := w.log + [Lost(x.run)])
    else if x.token in w.server.retired && !choice.Unavailable? then v.(log := w.log + [Late(x.run)])
    else v
  }

  function Next(w: World, l: Label): World
    requires Enabled(w, l)
  {
    match l
    case Tick(ms) => w.(now := w.now + ms)
    case Arrive => w.(callers := w.callers + [Idle(false)])
    case GetValid(c) => Got(w, c, w.callers[c].retried)
    case Rejected401(c) => Refreshing(w, c, After401)
    case RequestEnds(c) => w.(callers := w.callers[c := Finished])
    case Serve(r, choice) =>
      var p := w.runs[r];
      w.(server := Handled(w.server, p.token, choice),
         runs := w.runs[r := Answered(p.attempt, p.token, ReplyTo(w.server, p.token, choice))])
    case Drop(r) => Replied(w, r, w.runs[r].attempt, None)
    case Abandon(r) =>
      Replied(w, r, w.runs[r].attempt, None).(strays := w.strays + [Stray(r, w.runs[r].token)])
    case ServeStray(j, choice) => StrayServed(w, j, choice)
    case Lose(r) =>
      var v := Replied(w, r, w.runs[r].attempt, None);
      if w.runs[r].response.Refreshed? && w.runs[r].response.refresh.Some? then v.(log := v.log + [Lost(r)]) else v
    case Deliver(r) => Replied(w, r, w.runs[r].attempt, Some(w.runs[r].response))
    case Retry(r) =>
      if w.client.refresh.None? then w
      else
        var t := w.client.refresh.value;
        w.(runs := w.runs[r := Sent(w.runs[r].attempt + 1, t)],
           log := w.log + [Submitted(r, t, t in w.server.retired)])
    case Close(r) => w.(client := w.client.(slot := None), runs := w.runs[r := Closed(w.runs[r].outcome)])
    case Resume(c) =>
      var r := w.callers[c].run;
      var o := w.runs[r].outcome;
      var v := w.(log := w.log + [Shared(c, r, o)]);
      if o.Err? then v.(callers := w.callers[c := Caller.Failed(o.kind)])
      else if w.callers[c].stage == After401 then v.(callers := w.callers[c := Idle(true)])
      else if w.client.access.Some? then
        v.(callers := w.callers[c := Holding(w.client.access.value, w.callers[c].stage == SecondGet)])
      else v.(callers := w.callers[c := Caller.Failed(RefreshFailed)])
  }

  ghost predicate IsRun(ws: seq<World>, ls: seq<Label>) {
    && |ws| == |ls| + 1 && Initial(ws[0])
    && forall i :: 0 <= i < |ls| ==> Enabled(ws[i], ls[i]) && ws[i + 1] == Next(ws[i], ls[i])
  }

  // --- Single flight --------------------------------------------------------

  /** The slot holds exactly the one run that is not closed yet. */
  ghost predicate SingleFlight(w: World) {
    && (forall r :: 0 <= r < |w.runs| ==> (Live(w.runs[r]) <==> w.client.slot == Some(r)))
    && (w.client.slot.Some? ==> w.client.slot.value < |w.runs|)
    && (forall c :: 0 <= c < |w.callers| && w.callers[c].Waiting? ==> w.callers[c].run < |w.runs|)
  }

  lemma StepSingleFlight(w: World, l: Label)
    requires SingleFlight(w) && Enabled(w, l)
    ensures SingleFlight(Next(w, l))
  {
  }

  /** A run's outcome is settled once: every caller that shared the run got that outcome. */
  ghost predicate SharedOutcome(w: World) {
    forall i :: 0 <= i < |w.log| && w.log[i].Shared? ==>
      w.log[i].run < |w.runs| && w.runs[w.log[i].run] == Closed(w.log[i].outcome)
  }

  lemma StepSharedOutcome(w: World, l: Label)
    requires SharedOutcome(w) && Enabled(w, l)
    ensures SharedOutcome(Next(w, l))
  {
  }

  function SubmittedBy(log: seq<Event>, r: nat): nat {
    if log == [] then 0
    else
      var e := log[|log| - 1];
      SubmittedBy(log[..|log| - 1], r) + (if e.Submitted? && e.run == r then 1 else 0)
  }

  /** An unsettled run has submitted once per attempt, and there are at most three attempts. */
  ghost predicate Attempts(w: World) {
    && (forall r :: 0 <= r < |w.runs| ==>
          match w.runs[r]
          case Sent(a, _) => SubmittedBy(w.log, r) == a <= 3
          case Answered(a, _, _) => SubmittedBy(w.log, r) == a <= 3
          case Backoff(a) => SubmittedBy(w.log, r) == a < 3
          case _ => SubmittedBy(w.log, r) <= 3)
    && (forall r: nat :: r >= |w.runs| ==> SubmittedBy(w.log, r) == 0)
  }

  lemma {:induction false} SubmittedSnoc(log: seq<Event>, e: Event, r: nat)
    ensures SubmittedBy(log + [e], r) == SubmittedBy(log, r) + if e.Submitted? && e.run == r then 1 else 0
  {
    assert (log + [e])[..|log|] == log;
  }

  lemma {:induction false} StepAttempts(w: World, l: Label)
    requires Attempts(w) && Enabled(w, l)
    ensures Attempts(Next(w, l)) || (l.Retry? && w.client.refresh.None?)
  {
    hide SubmittedBy;
    LogGrows(w, l);
    var log := Next(w, l).log;
    if |log| > |w.log| {
      var e := log[|w.log|];
      forall r: nat
        ensures SubmittedBy(log, r) == SubmittedBy(w.log, r) + if e.Submitted? && e.run == r then 1 else 0
      {
        SubmittedSnoc(w.log, e, r);
      }
    }
  }

  // --- Rotation -------------------------------------------------------------

  /** A rotation whose response never reached the client. */
  ghost predicate LossIn(log: seq<Event>) {
    exists i :: 0 <= i < |log| && log[i].Lost?
  }

  /** A token processed after the client had given up on its request and moved on. */
  ghost predicate LateIn(log: seq<Event>) {
    exists i :: 0 <= i < |log| && log[i].Late?
  }

  ghost predicate ServerSound(s: Server) {
    && s.current !in s.retired && s.current < s.next
    && forall t :: t in s.retired ==> t < s.next
  }

  /** The rotated token on its way to the client, if any. */
  ghost function InTransit(p: Phase): Option<Token> {
    if p.Answered? && p.response.Refreshed? then p.response.refresh else None
  }

  /** Without a loss the client holds the current token, or the current token is on its way to it;
    after a loss the client holds a retired token for ever. */
  ghost predicate InStep(w: World) {
    && ServerSound(w.server)
    && (w.server.sessionKilled ==> LossIn(w.log) || LateIn(w.log))
    && (LateIn(w.log) ==> w.server.sessionKilled)
    && (w.client.refresh.None? ==> forall r :: 0 <= r < |w.runs| ==> w.runs[r].Settled? || w.runs[r].Closed?)
    && (w.client.refresh.Some? ==>
          var t := w.client.refresh.value;
          var transit := if w.client.slot.Some? && w.client.slot.value < |w.runs|
                         then InTransit(w.runs[w.client.slot.value]) else None;
          && (forall r :: 0 <= r < |w.runs| && (w.runs[r].Sent? || w.runs[r].Answered?) ==> w.runs[r].token == t)
          && (LossIn(w.log) ==> transit.None? && t in w.server.retired)
          && (!LossIn(w.log) && transit.None? ==> t == w.server.current)
          && (!LossIn(w.log) && transit.Some? ==> transit.value == w.server.current && t in w.server.retired))
  }

  /** Every stray carries the client's token or a retired one. */
  ghost predicate StraysKnown(w: World) {
    forall j :: 0 <= j < |w.strays| ==>
      w.strays[j].token in w.server.retired || w.client.refresh == Some(w.strays[j].token)
  }

  /** A submission was of a retired token exactly if a rotated response had been lost before. */
  ghost predicate StaleIffLoss(log: seq<Event>) {
    forall i :: 0 <= i < |log| && log[i].Submitted? ==> (log[i].stale <==> LossIn(log[..i]))
  }

  lemma {:induction false} LossAppends(log: seq<Event>, e: Event)
    ensures LossIn(log + [e]) <==> LossIn(log) || e.Lost?
  {
    if LossIn(log) {
      var i :| 0 <= i < |log| && log[i].Lost?;
      assert (log + [e])[i].Lost?;
    }
    assert (log + [e])[|log|] == e;
  }

  lemma {:induction false} LateAppends(log: seq<Event>, e: Event)
    ensures LateIn(log + [e]) <==> LateIn(log) || e.Late?
  {
    if LateIn(log) {
      var i :| 0 <= i < |log| && log[i].Late?;
      assert (log + [e])[i].Late?;
    }
    assert (log + [e])[|log|] == e;
  }

  /** The log grows by at most one event. */
  lemma LogGrows(w: World, l: Label)
    requires Enabled(w, l)
    ensures var log := Next(w, l).log;
            log == w.log || (|log| == |w.log| + 1 && log == w.log + [log[|w.log|]])
  {
  }

  lemma {:induction false} StepServe(w: World, r: nat, choice: Choice)
    requires SingleFlight(w) && InStep(w) && Enabled(w, Serve(r, choice))
    ensures InStep(Next(w, Serve(r, choice)))
  {
    assert w.client.slot == Some(r);
  }

  lemma {:induction false} StepReply(w: World, l: Label)
    requires SingleFlight(w) && InStep(w) && Enabled(w, l) && (l.Drop? || l.Abandon? || l.Lose? || l.Deliver?)
    ensures InStep(Next(w, l))
  {
    assert w.client.slot == Some(l.run);
    LogGrows(w, l);
    if l.Lose? {
      LossAppends(w.log, Lost(l.run));
      LateAppends(w.log, Lost(l.run));
    }
  }

  lemma {:induction false} StepStray(w: World, j: nat, choice: Choice)
    requires SingleFlight(w) && InStep(w) && StraysKnown(w) && Enabled(w, ServeStray(j, choice))
    ensures InStep(Next(w, ServeStray(j, choice)))
  {
    var x := w.strays[j];
    assert x.token in w.server.retired || w.client.refresh == Some(x.token);
    LossAppends(w.log, Lost(x.run));
    LateAppends(w.log, Lost(x.run));
    LossAppends(w.log, Late(x.run));
    LateAppends(w.log, Late(x.run));
  }

  lemma {:induction false} StepStrays(w: World, l: Label)
    requires SingleFlight(w) && InStep(w) && StraysKnown(w) && Enabled(w, l)
    ensures StraysKnown(Next(w, l))
  {
    hide LossIn, LateIn;
    if l.Abandon? || l.Deliver? {
      assert w.client.slot == Some(l.run);
    }
  }

  lemma {:induction false} StepSubmit(w: World, l: Label)
    requires SingleFlight(w) && InStep(w) && Enabled(w, l) && (l.GetValid? || l.Rejected401? || l.Retry?)
    ensures InStep(Next(w, l))
  {
    LogGrows(w, l);
    if |Next(w, l).log| > |w.log| {
      LossAppends(w.log, Next(w, l).log[|w.log|]);
      LateAppends(w.log, Next(w, l).log[|w.log|]);
    }
    if l.Retry? {
      assert w.client.slot == Some(l.run);
    }
  }

  /** The steps of the clock and the callers, and the end of a run. */
  lemma {:induction false} StepAround(w: World, l: Label)
    requires SingleFlight(w) && InStep(w) && Enabled(w, l)
    requires l.Tick? || l.Arrive? || l.RequestEnds? || l.Resume? || l.Close?
    ensures InStep(Next(w, l))
  {
    if l.Resume? {
      LossAppends(w.log, Next(w, l).log[|w.log|]);
      LateAppends(w.log, Next(w, l).log[|w.log|]);
    } else if l.Close? {
      assert w.client.slot == Some(l.run);
    }
  }

  lemma {:induction false} StepInStep(w: World, l: Label)
    requires SingleFlight(w) && InStep(w) && StraysKnown(w) && Enabled(w, l)
    ensures InStep(Next(w, l))
  {
    hide *;
    match l {
      case Serve(r, choice) => StepServe(w, r, choice);
      case Drop(_) => StepReply(w, l);
      case Abandon(_) => StepReply(w, l);
      case Lose(_) => StepReply(w, l);
      case Deliver(_) => StepReply(w, l);
      case ServeStray(j, choice) => StepStray(w, j, choice);
      case GetValid(_) => StepSubmit(w, l);
      case Rejected401(_) => StepSubmit(w, l);
      case Retry(_) => StepSubmit(w, l);
      case _ => StepAround(w, l);
    }
  }

  lemma {:induction false} StepStale(w: World, l: Label)
    requires SingleFlight(w) && InStep(w) && StaleIffLoss(w.log) && Enabled(w, l)
    ensures StaleIffLoss(Next(w, l).log)
  {
    LogGrows(w, l);
    var log := Next(w, l).log;
    forall i | 0 <= i < |log| && log[i].Submitted?
      ensures log[i].stale <==> LossIn(log[..i])
    {
      if i < |w.log| {
        assert log[..i] == w.log[..i];
      } else {
        assert log[..i] == w.log;
        if l.Retry? {
          assert w.client.slot == Some(l.run);
        }
      }
    }
  }

  // --- Over all runs --------------------------------------------------------

  lemma {:induction false} Reachable(ws: seq<World>, ls: seq<Label>, i: nat)
    requires IsRun(ws, ls) && i < |ws|
    ensures SingleFlight(ws[i]) && SharedOutcome(ws[i]) && InStep(ws[i]) && StaleIffLoss(ws[i].log)
    ensures Attempts(ws[i]) && StraysKnown(ws[i])
  {
    if i > 0 {
      Reachable(ws, ls, i - 1);
      StepSingleFlight(ws[i - 1], ls[i - 1]);
      StepSharedOutcome(ws[i - 1], ls[i - 1]);
      StepInStep(ws[i - 1], ls[i - 1]);
      StepStrays(ws[i - 1], ls[i - 1]);
      StepStale(ws[i - 1], ls[i - 1]);
      StepAttempts(ws[i - 1], ls[i - 1]);
      hide Next, Enabled, StaleIffLoss, SingleFlight, SharedOutcome, Attempts, StraysKnown;
    }
  }

  /** At most one refresh run is live, it is the one in the slot, the slot is empty once it closes,
    and all callers that shared a run were given the same outcome. */
  lemma {:induction false} SingleFlightTheorem(ws: seq<World>, ls: seq<Label>, i: nat)
    requires IsRun(ws, ls) && i < |ws|
    ensures forall q, r :: 0 <= q < r < |ws[i].runs| ==> !(Live(ws[i].runs[q]) && Live(ws[i].runs[r]))
    ensures ws[i].client.slot.None? <==> forall r :: 0 <= r < |ws[i].runs| ==> !Live(ws[i].runs[r])
    ensures forall m, n :: 0 <= m < n < |ws[i].log| ==>
              ws[i].log[m].Shared? && ws[i].log[n].Shared? && ws[i].log[m].run == ws[i].log[n].run ==>
                ws[i].log[m].outcome == ws[i].log[n].outcome
    ensures forall r :: 0 <= r < |ws[i].runs| ==> SubmittedBy(ws[i].log, r) <= 3
  {
    Reachable(ws, ls, i);
  }

  /** A refresh token the server has already rotated is submitted exactly when a rotated response
    was lost earlier: with no loss the client never replays, and after a loss every submission is a
    replay. The session is killed only after a loss, or when the server processes a request late,
    after the client had given up on it and a retry had rotated its token. */
  lemma {:induction false} ReplayIffLoss(ws: seq<World>, ls: seq<Label>, i: nat)
    requires IsRun(ws, ls) && i < |ws|
    ensures forall n :: 0 <= n < |ws[i].log| && ws[i].log[n].Submitted?
                        ==> (ws[i].log[n].stale <==> LossIn(ws[i].log[..n]))
    ensures ws[i].server.sessionKilled ==> LossIn(ws[i].log) || LateIn(ws[i].log)
    ensures LateIn(ws[i].log) ==> ws[i].server.sessionKilled
  {
    Reachable(ws, ls, i);
  }

  // --- The access token -----------------------------------------------------------

  datatype Landed = Landed(reply: Response, at: int)

  /** The last refreshed reply that reached the client in the first `i` steps, and when. */
  ghost function LastLanded(ws: seq<World>, ls: seq<Label>, i: nat): (landed: Option<Landed>)
    requires IsRun(ws, ls) && i < |ws|
    ensures landed.Some? ==> landed.value.reply.Refreshed?
  {
    if i == 0 then None
    else
      assert Enabled(ws[i - 1], ls[i - 1]);
      if ls[i - 1].Deliver? && ws[i - 1].runs[ls[i - 1].run].response.Refreshed? then
        Some(Landed(ws[i - 1].runs[ls[i - 1].run].response, ws[i - 1].now))
      else LastLanded(ws, ls, i - 1)
  }

  /** At every moment the access token and its expiry are those of the last refreshed reply that reached
    the client; one without an expiry lasts 55 minutes from then. */
  lemma {:induction false} AccessTheorem(ws: seq<World>, ls: seq<Label>, i: nat)
    requires IsRun(ws, ls) && i < |ws|
    ensures match LastLanded(ws, ls, i)
            case None =>
              && ws[i].client.access == ws[0].client.access && ws[i].client.expiresAtMs == ws[0].client.expiresAtMs
              && ws[i].client.canRevoke == ws[0].client.canRevoke
            case Some(Landed(reply, at)) =>
              && ws[i].client.access == reply.access && ws[i].client.canRevoke
              && ws[i].client.expiresAtMs == if reply.expiresAt.Some? then reply.expiresAt.value else at + 3_300_000
  {
    if i > 0 {
      AccessTheorem(ws, ls, i - 1);
      AccessStep(ws[i - 1], ls[i - 1]);
      hide Next, Enabled;
    }
  }

  lemma {:induction false} AccessStep(w: World, l: Label)
    requires Enabled(w, l)
    ensures var c, c' := w.client, Next(w, l).client;
            if l.Deliver? && w.runs[l.run].response.Refreshed? then
              var reply := w.runs[l.run].response;
              && c'.access == reply.access && c'.canRevoke
              && c'.expiresAtMs == if reply.expiresAt.Some? then reply.expiresAt.value else w.now + 3_300_000
            else c'.access == c.access && c'.expiresAtMs == c.expiresAtMs && c'.canRevoke == c.canRevoke
  {
  }

  /** A caller uses the access token, and nothing else happens, if and only if there is one that is not
    known to expire within a minute; otherwise it fails without a refresh token, or waits. */
  lemma {:induction false} GetValidTheorem(ws: seq<World>, ls: seq<Label>, i: nat)
    requires IsRun(ws, ls) && i < |ls| && ls[i].GetValid?
    ensures var w, w', c := ws[i], ws[i + 1], ls[i].caller;
            var usable := w.client.access.Some?
                          && (w.client.expiresAtMs == 0 || w.now < w.client.expiresAtMs - 60_000);
            && c < |w.callers| && w.callers[c].Idle? && |w'.callers| == |w.callers|
            && (usable <==> w'.callers[c].Holding?)
            && (usable ==> w' == w.(callers := w.callers[c := Holding(w.client.access.value, w.callers[c].retried)]))
            && (!usable && w.client.refresh.None? ==>
                  w' == w.(callers := w.callers[c := Caller.Failed(NoRefreshToken)]))
            && (!usable && w.client.refresh.Some? ==>
                  && w'.callers[c].Waiting? && w'.client.slot == Some(w'.callers[c].run)
                  && w'.client == w.client.(slot := w'.client.slot))
  {
    assert Enabled(ws[i], ls[i]) && ws[i + 1] == Next(ws[i], ls[i]);
  }

  /** A run ends well only after a reply of its own has reached the client. */
  lemma {:induction false} SuccessLanded(ws: seq<World>, ls: seq<Label>, i: nat, r: nat)
    requires IsRun(ws, ls) && i < |ws| && r < |ws[i].runs|
    requires ws[i].runs[r] == Settled(Ok) || ws[i].runs[r] == Closed(Ok)
    ensures LastLanded(ws, ls, i).Some?
  {
    assert i > 0;
    SuccessStep(ws[i - 1], ls[i - 1], r);
    if r < |ws[i - 1].runs| && (ws[i - 1].runs[r] == Settled(Ok) || ws[i - 1].runs[r] == Closed(Ok)) {
      SuccessLanded(ws, ls, i - 1, r);
    }
    hide Next, Enabled;
  }

  lemma {:induction false} SuccessStep(w: World, l: Label, r: nat)
    requires Enabled(w, l) && r < |Next(w, l).runs|
    requires Next(w, l).runs[r] == Settled(Ok) || Next(w, l).runs[r] == Closed(Ok)
    ensures || (r < |w.runs| && (w.runs[r] == Settled(Ok) || w.runs[r] == Closed(Ok)))
            || (l == Deliver(r) && w.runs[r].response.Refreshed?)
  {
  }

  /** A caller that resumes after a successful refresh holds the access token of the last reply that
    reached the client; after a 401 it asks for a token again, and after a failure it gets the error of
    the run it shared. */
  lemma {:induction false} ResumeTheorem(ws: seq<World>, ls: seq<Label>, i: nat)
    requires IsRun(ws, ls) && i < |ls| && ls[i].Resume?
    ensures var w, c := ws[i], ls[i].caller;
            && c < |w.callers| && w.callers[c].Waiting? && w.callers[c].run < |w.runs|
            && w.runs[w.callers[c].run].Closed? && c < |ws[i + 1].callers|
            && match w.runs[w.callers[c].run].outcome
               case Err(kind) => ws[i + 1].callers[c] == Caller.Failed(kind)
               case Ok =>
                 && LastLanded(ws, ls, i).Some?
                 && var access := LastLanded(ws, ls, i).value.reply.access;
                    ws[i + 1].callers[c] ==
                    if w.callers[c].stage == After401 then Idle(true)
                    else if access.None? then Caller.Failed(RefreshFailed)
                    else Holding(access.value, w.callers[c].stage == SecondGet)
  {
    var w, c := ws[i], ls[i].caller;
    assert Enabled(w, ls[i]) && ws[i + 1] == Next(w, ls[i]);
    AccessTheorem(ws, ls, i);
    if w.runs[w.callers[c].run].outcome.Ok? {
      SuccessLanded(ws, ls, i, w.callers[c].run);
    }
    hide IsRun, LastLanded;
  }

  /** How often caller `c` has answered a 401 with a refresh. */
  ghost function Answers401(ls: seq<Label>, i: nat, c: nat): nat
    requires i <= |ls|
  {
    if i == 0 then 0 else Answers401(ls, i - 1, c) + if ls[i - 1] == Rejected401(c) then 1 else 0
  }

  /** The caller is past its one answer to a 401. */
  predicate Retrying(caller: Caller) {
    match caller
    case Idle(retried) => retried
    case Waiting(_, stage) => stage != FirstGet
    case Holding(_, retried) => retried
    case _ => true
  }

  /** No request is sent again after a second 401. */
  lemma {:induction false} OneAnswerTo401(ws: seq<World>, ls: seq<Label>, i: nat, c: nat)
    requires IsRun(ws, ls) && i < |ws|
    ensures Answers401(ls, i, c) <= 1
    ensures Answers401(ls, i, c) == 1 ==> c < |ws[i].callers| && Retrying(ws[i].callers[c])
  {
    if i > 0 {
      OneAnswerTo401(ws, ls, i - 1, c);
      assert Enabled(ws[i - 1], ls[i - 1]);
      if c < |ws[i - 1].callers| {
        RetryingStep(ws[i - 1], ls[i - 1], c);
      }
      hide Next;
    }
  }

  lemma {:induction false} RetryingStep(w: World, l: Label, c: nat)
    requires Enabled(w, l) && c < |w.callers|
    ensures c < |Next(w, l).callers|
    ensures Retrying(w.callers[c]) ==> Retrying(Next(w, l).callers[c]) && l != Rejected401(c)
    ensures l == Rejected401(c) ==> Retrying(Next(w, l).callers[c])
  {
  }

  /** A run of one caller: the first response is lost, and the retry loop submits again. */
  function LossWorld(k: nat): World {
    var c, q := Client(None, Some(0), 0, false, Some(0)), [Waiting(0, FirstGet)];
    var unused, rotated := Server(0, {}, 1, false), Server(1, {0}, 3, false);
    var first, lost, again := Submitted(0, 0, false), Lost(0), Submitted(0, 0, true);
    match k
    case 0 => World(c.(slot := None), unused, [], [], [], 0, [])
    case 1 => World(c.(slot := None), unused, [], [Idle(false)], [], 0, [])
    case 2 => World(c, unused, [Sent(1, 0)], q, [], 0, [first])
    case 3 => World(c, rotated, [Answered(1, 0, Refreshed(Some(2), Some(1), None))], q, [], 0, [first])
    case 4 => World(c, rotated, [Backoff(1)], q, [], 0, [first, lost])
    case 5 => World(c, rotated, [Sent(2, 0)], q, [], 0, [first, lost, again])
    case _ =>
      var killed := rotated.(sessionKilled := true);
      World(c, killed, [Answered(2, 0, Unauthorized(true))], q, [], 0, [first, lost, again])
  }

  function LossLabel(k: nat): Label {
    match k
    case 0 => Arrive
    case 1 => GetValid(0)
    case 3 => Lose(0)
    case 4 => Retry(0)
    case _ => Serve(0, Rotate(None))
  }

  lemma LossStep(k: nat)
    requires k < 6
    ensures Enabled(LossWorld(k), LossLabel(k)) && Next(LossWorld(k), LossLabel(k)) == LossWorld(k + 1)
  {
  }

  /** The loss really happens to the code: after a lost response the retry loop itself replays the
    rotated token, and the server answers by killing the session. */
  lemma {:induction false} LostResponseReplays()
    ensures exists ws: seq<World>, ls: seq<Label> :: IsRun(ws, ls) && ws[|ws| - 1].server.sessionKilled
                             && ws[|ws| - 1].log == [Submitted(0, 0, false), Lost(0), Submitted(0, 0, true)]
  {
    var ws, ls := seq(7, i requires 0 <= i => LossWorld(i)), seq(6, i requires 0 <= i => LossLabel(i));
    forall i | 0 <= i < |ls|
      ensures Enabled(ws[i], ls[i]) && ws[i + 1] == Next(ws[i], ls[i])
    {
      LossStep(i);
    }
    assert Initial(LossWorld(0));
    hide Next, Enabled;
    assert IsRun(ws, ls);
  }

  /** A run of one caller: the first request is given up on, its retry succeeds, and then the server
    comes to the first one. */
  function LateWorld(k: nat): World {
    var c, q := Client(None, Some(0), 0, false, Some(0)), [Waiting(0, FirstGet)];
    var unused, rotated := Server(0, {}, 1, false), Server(1, {0}, 3, false);
    var reply, sent, stray := Refreshed(Some(2), Some(1), None), Submitted(0, 0, false), [Stray(0, 0)];
    match k
    case 0 => World(c.(slot := None), unused, [], [], [], 0, [])
    case 1 => World(c.(slot := None), unused, [], [Idle(false)], [], 0, [])
    case 2 => World(c, unused, [Sent(1, 0)], q, [], 0, [sent])
    case 3 => World(c, unused, [Backoff(1)], q, stray, 0, [sent])
    case 4 => World(c, unused, [Sent(2, 0)], q, stray, 0, [sent, sent])
    case 5 => World(c, rotated, [Answered(2, 0, reply)], q, stray, 0, [sent, sent])
    case 6 => World(Applied(c, reply, 0), rotated, [Settled(Ok)], q, stray, 0, [sent, sent])
    case _ =>
      World(Applied(c, reply, 0), rotated.(sessionKilled := true), [Settled(Ok)], q, [], 0, [sent, sent, Late(0)])
  }

  function LateLabel(k: nat): Label {
    match k
    case 0 => Arrive
    case 1 => GetValid(0)
    case 2 => Abandon(0)
    case 3 => Retry(0)
    case 4 => Serve(0, Rotate(None))
    case 5 => Deliver(0)
    case _ => ServeStray(0, Rotate(None))
  }

  lemma {:induction false} LateStart(k: nat)
    requires k < 4
    ensures Enabled(LateWorld(k), LateLabel(k)) && Next(LateWorld(k), LateLabel(k)) == LateWorld(k + 1)
  {
  }

  lemma {:induction false} LateEnd(k: nat)
    requires 4 <= k < 7
    ensures Enabled(LateWorld(k), LateLabel(k)) && Next(LateWorld(k), LateLabel(k)) == LateWorld(k + 1)
  {
    assert [Stray(0, 0)][..0] + [Stray(0, 0)][1..] == [];
  }

  /** A request processed late kills the session although no response was lost and the client holds
    the current token. */
  lemma {:induction false} LateRequestKills()
    ensures exists ws: seq<World>, ls: seq<Label> :: IsRun(ws, ls) && ws[|ws| - 1].server.sessionKilled
                             && ws[|ws| - 1].client.refresh == Some(ws[|ws| - 1].server.current)
                             && ws[|ws| - 1].log == [Submitted(0, 0, false), Submitted(0, 0, false), Late(0)]
  {
    var ws, ls := seq(8, i requires 0 <= i => LateWorld(i)), seq(7, i requires 0 <= i => LateLabel(i));
    forall i | 0 <= i < |ls|
      ensures Enabled(ws[i], ls[i]) && ws[i + 1] == Next(ws[i], ls[i])
    {
      if i < 4 {
        LateStart(i);
      } else {
        LateEnd(i);
      }
    }
    assert Initial(LateWorld(0));
    hide Next, Enabled;
    assert IsRun(ws, ls);
  }
}
