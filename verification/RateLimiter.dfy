/** The per-caller token bucket of packages/mcp-server/src/rate-limit.ts.
  Tokens are reals, clock readings are whole milliseconds. A JavaScript Map is a
  map together with the insertion order of its keys. */
module RateLimiter {
  import opened Common

  /** A throttle key; wrapped so that keys compare by name. */
  datatype Key = Key(text: string)

  datatype Bucket = Bucket(tokens: real, lastRefillMs: int)

  datatype Decision = Decision(allowed: bool, retryAfterMs: int)

  datatype Limits = Limits(capacity: real, refillPerMs: real, maxKeys: int)

  datatype Store = Store(buckets: map<Key, Bucket>, order: seq<Key>)

  const EmptyStore := Store(map[], [])

  ghost predicate Sane(l: Limits) {
    l.capacity >= 1.0 && l.refillPerMs > 0.0
  }

  function MaxReal(a: real, b: real): real { if a >= b then a else b }
  function MinReal(a: real, b: real): real { if a <= b then a else b }

  /** Options as the constructor clamps them. */
  function Configure(perSecond: real, burst: real, maxKeys: Option<int>): (l: Limits)
    ensures Sane(l)
    ensures Gain(l, 1000) == if perSecond < 1.0 then 1.0 else perSecond
    ensures l.capacity == if burst < 1.0 then 1.0 else burst
    ensures l.maxKeys == if maxKeys.Some? then maxKeys.value else 10_000
  {
    Limits(MaxReal(1.0, burst), MaxReal(perSecond, 1.0) / 1000.0,
           match maxKeys case Some(n) => n case None => 10_000)
  }

  // --- One bucket -----------------------------------------------------------

  function Gain(l: Limits, ms: int): real {
    ms as real * l.refillPerMs
  }

  function Level(l: Limits, b: Bucket, now: int): real {
    MinReal(l.capacity, b.tokens + Gain(l, now - b.lastRefillMs))
  }

  predicate Idle(l: Limits, b: Bucket, now: int) {
    Level(l, b, now) >= l.capacity
  }

  /** What `key` could spend at once at time `now`. */
  function Purse(l: Limits, m: map<Key, Bucket>, key: Key, now: int): real {
    if key in m then Level(l, m[key], now) else l.capacity
  }

  function Fresh(l: Limits, now: int): Bucket {
    Bucket(l.capacity, now)
  }

  function Refilled(l: Limits, b: Bucket, now: int): Bucket {
    if now - b.lastRefillMs > 0 then Bucket(Level(l, b, now), now) else b
  }

  function Ceil(x: real): int {
    -((-x).Floor)
  }

  function Taken(b: Bucket): Bucket {
    if b.tokens >= 1.0 then b.(tokens := b.tokens - 1.0) else b
  }

  function Answer(l: Limits, b: Bucket): Decision
    requires l.refillPerMs > 0.0
  {
    if b.tokens >= 1.0 then Decision(true, 0)
    else Decision(false, Ceil((1.0 - b.tokens) / l.refillPerMs))
  }

  // --- The bounded store ----------------------------------------------------

  ghost predicate Consistent(st: Store) {
    NoDup(st.order) && Elements(st.order) == st.buckets.Keys
  }

  /** Clock readings never go backwards, and a bucket never holds more than capacity. */
  ghost predicate Sound(l: Limits, m: map<Key, Bucket>, now: int) {
    forall k :: k in m ==> m[k].lastRefillMs <= now && m[k].tokens <= l.capacity
  }

  datatype Candidate = Candidate(key: Key, seenAt: int)

  /** The Map during reclamation: what is left of it, the busy keys met so far in
    order, and the least recently seen of those. */
  datatype Sweep = Sweep(live: map<Key, Bucket>, kept: seq<Key>, oldest: Option<Candidate>)

  function Pick(best: Option<Candidate>, key: Key, seenAt: int): Option<Candidate> {
    if best.None? || seenAt < best.value.seenAt then Some(Candidate(key, seenAt)) else best
  }

  function Visit(l: Limits, s: Sweep, k: Key, now: int): Sweep {
    if k !in s.live then s
    else if Idle(l, s.live[k], now) then s.(live := s.live - {k})
    else Sweep(s.live, s.kept + [k], Pick(s.oldest, k, s.live[k].lastRefillMs))
  }

  function Swept(l: Limits, s: Sweep, ks: seq<Key>, now: int): Sweep
    decreases |ks|
  {
    if ks == [] then s else Swept(l, Visit(l, s, ks[0], now), ks[1..], now)
  }

  function Walk(l: Limits, st: Store, now: int): Sweep {
    Swept(l, Sweep(st.buckets, [], None), st.order, now)
  }

  /** The key the fallback evicts, if it fires. */
  function Victim(l: Limits, w: Sweep): Option<Key> {
    if |w.live| >= l.maxKeys && w.oldest.Some? && w.oldest.value.key.text != "" then Some(w.oldest.value.key) else None
  }

  function Evicted(w: Sweep, victim: Option<Key>): Store {
    match victim
    case Some(k) => Store(w.live - {k}, Without(w.kept, k))
    case None => Store(w.live, w.kept)
  }

  function Reclaimed(l: Limits, st: Store, now: int): Store {
    var w := Walk(l, st, now);
    Evicted(w, Victim(l, w))
  }

  function ForcedVictim(l: Limits, st: Store, now: int): Option<Key> {
    Victim(l, Walk(l, st, now))
  }

  predicate MustReclaim(l: Limits, st: Store, key: Key) {
    key !in st.buckets && |st.buckets| >= l.maxKeys
  }

  /** Whether this check fires the forced-eviction fallback. */
  predicate Forces(l: Limits, st: Store, key: Key, now: int)
  {
    MustReclaim(l, st, key) && ForcedVictim(l, st, now).Some?
  }

  /** The store with space for one more key. */
  function Room(l: Limits, st: Store, now: int): Store {
    if |st.buckets| >= l.maxKeys then Reclaimed(l, st, now) else st
  }

  /** The store just before a token is taken: the bucket of `key` exists and is refilled. */
  function Prepared(l: Limits, st: Store, key: Key, now: int): (r: Store)
    ensures key in r.buckets
  {
    if key in st.buckets then
      st.(buckets := st.buckets[key := Refilled(l, st.buckets[key], now)])
    else
      var room := Room(l, st, now);
      Store(room.buckets[key := Fresh(l, now)], room.order + [key])
  }

  function Checked(l: Limits, st: Store, key: Key, now: int): Store
  {
    var p := Prepared(l, st, key, now);
    p.(buckets := p.buckets[key := Taken(p.buckets[key])])
  }

  function Reply(l: Limits, st: Store, key: Key, now: int): Decision
    requires l.refillPerMs > 0.0
  {
    Answer(l, Prepared(l, st, key, now).buckets[key])
  }

  // --- The class ------------------------------------------------------------

  class TokenBucketRateLimiter {
    const limits: Limits
    var buckets: map<Key, Bucket>
    var order: seq<Key>

    ghost predicate Valid() reads this {
      Sane(limits) && Consistent(View())
    }

    function View(): Store reads this {
      Store(buckets, order)
    }

    constructor (perSecond: real, burst: real, maxKeys: Option<int>)
      ensures Valid() && View() == EmptyStore
      ensures limits == Configure(perSecond, burst, maxKeys)
    {
      limits := Configure(perSecond, burst, maxKeys);
      buckets, order := map[], [];
    }

    /** The first half of a check: the bucket of `key` is made or refilled. */
    method Prepare(key: Key, now: int)
      requires Valid()
      modifies this
      ensures View() == Prepared(limits, old(View()), key, now)
    {
      hide Reclaimed, Consistent;
      if key !in buckets {
        if |buckets| >= limits.maxKeys {
          Reclaim(now);
        }
        buckets := buckets[key := Fresh(limits, now)];
        order := order + [key];
      } else {
        var b := buckets[key];
        var elapsed := now - b.lastRefillMs;
        if elapsed > 0 {
          buckets := buckets[key := Bucket(MinReal(limits.capacity, b.tokens + Gain(limits, elapsed)), now)];
        }
      }
    }

    method Check(key: Key, now: int) returns (d: Decision)
      requires Valid()
      modifies this
      ensures Valid()
      ensures View() == Checked(limits, old(View()), key, now)
      ensures d == Reply(limits, old(View()), key, now)
    {
      hide Prepared, Consistent, Checked, Reply, Answer, Taken;
      ghost var was := View();
      CheckedConsistent(limits, was, key, now);
      Prepare(key, now);
      CheckedFrom(limits, was, key, now);
      var bucket := buckets[key];
      TakenOrDenied(limits, bucket);
      if bucket.tokens >= 1.0 {
        buckets := buckets[key := bucket.(tokens := bucket.tokens - 1.0)];
        return Decision(true, 0);
      }
      assert buckets[key := bucket] == buckets;
      d := Decision(false, Ceil((1.0 - bucket.tokens) / limits.refillPerMs));
    }

    /** Drops every idle bucket while walking the Map, then falls back to the oldest one. */
    method Reclaim(now: int)
      requires Valid()
      modifies this
      ensures Valid()
      ensures View() == Reclaimed(limits, old(View()), now)
    {
      hide Idle, Swept;
      ReclaimedConsistent(limits, View(), now);
      ghost var target := Walk(limits, View(), now);
      var keys := order;
      var kept: seq<Key> := [];
      var oldest: Option<Candidate> := None;
      var i := 0;
      assert forall k :: k in keys ==> k in Elements(keys);
      while i < |keys|
        invariant 0 <= i <= |keys|
        invariant forall n :: i <= n < |keys| ==> keys[n] in buckets
        invariant Swept(limits, Sweep(buckets, kept, oldest), keys[i..], now) == target
      {
        var key := keys[i];
        var bucket := buckets[key];
        SweptStep(limits, Sweep(buckets, kept, oldest), keys[i..], now);
        assert keys[i..][0] == key && keys[i..][1..] == keys[i + 1..];
        if Idle(limits, bucket, now) {
          buckets := buckets - {key};
        } else {
          oldest := Pick(oldest, key, bucket.lastRefillMs);
          kept := kept + [key];
        }
        i := i + 1;
      }
      SweptStep(limits, Sweep(buckets, kept, oldest), keys[i..], now);
      order := kept;
      if |buckets| >= limits.maxKeys && oldest.Some? && oldest.value.key.text != "" {
        buckets := buckets - {oldest.value.key};
        order := Without(kept, oldest.value.key);
      }
    }
  }

  lemma {:induction false} CheckedFrom(l: Limits, st: Store, key: Key, now: int)
    requires l.refillPerMs > 0.0
    ensures var p := Prepared(l, st, key, now);
            && Checked(l, st, key, now) == p.(buckets := p.buckets[key := Taken(p.buckets[key])])
            && Reply(l, st, key, now) == Answer(l, p.buckets[key])
  {
  }

  lemma {:induction false} TakenOrDenied(l: Limits, b: Bucket)
    requires l.refillPerMs > 0.0
    ensures b.tokens >= 1.0 ==> Taken(b) == b.(tokens := b.tokens - 1.0) && Answer(l, b) == Decision(true, 0)
    ensures b.tokens < 1.0 ==> Taken(b) == b && Answer(l, b) == Decision(false, Ceil((1.0 - b.tokens) / l.refillPerMs))
  {
  }

  lemma {:induction false} SweptStep(l: Limits, s: Sweep, ks: seq<Key>, now: int)
    ensures Swept(l, s, ks, now) == if ks == [] then s else Swept(l, Visit(l, s, ks[0], now), ks[1..], now)
  {
  }

  // --- What the walk computes -----------------------------------------------

  ghost predicate Tidy(s: Sweep, rest: seq<Key>) {
    && NoDup(s.kept + rest)
    && Elements(s.kept + rest) == s.live.Keys
  }

  /** The candidate is the first of the kept keys with the least last-seen time. */
  ghost predicate IsLeast(s: Sweep) {
    && (s.oldest.None? <==> s.kept == [])
    && (s.oldest.Some? ==>
          var c := s.oldest.value;
          && c.key in s.kept && c.key in s.live && s.live[c.key].lastRefillMs == c.seenAt
          && (forall k :: k in s.kept && k in s.live ==> c.seenAt <= s.live[k].lastRefillMs)
          && forall i, n :: 0 <= i < n < |s.kept| && s.kept[n] == c.key && s.kept[i] in s.live ==>
               c.seenAt < s.live[s.kept[i]].lastRefillMs)
  }

  lemma {:induction false} VisitTidy(l: Limits, s: Sweep, rest: seq<Key>, now: int)
    requires rest != [] && Tidy(s, rest)
    ensures Tidy(Visit(l, s, rest[0], now), rest[1..])
    ensures IsLeast(s) ==> IsLeast(Visit(l, s, rest[0], now))
  {
    hide Level;
    var k := rest[0];
    var all := s.kept + rest;
    assert all[|s.kept|] == k;
    assert k in Elements(all);
    assert k !in s.kept by {
      assert forall i :: 0 <= i < |s.kept| ==> all[i] == s.kept[i];
    }
    if Idle(l, s.live[k], now) {
      var fewer := s.kept + rest[1..];
      assert all == s.kept + [k] + rest[1..];
      DropOne(s.kept, k, rest[1..]);
      assert s.live.Keys - {k} == Elements(fewer);
    } else {
      assert s.kept + [k] + rest[1..] == all;
    }
  }

  lemma {:induction false} DropOne(a: seq<Key>, k: Key, b: seq<Key>)
    requires NoDup(a + [k] + b)
    ensures NoDup(a + b)
    ensures Elements(a + b) == Elements(a + [k] + b) - {k}
  {
    var all := a + [k] + b;
    assert forall i :: 0 <= i < |a| ==> all[i] == (a + b)[i];
    assert forall i :: |a| <= i < |a + b| ==> all[i + 1] == (a + b)[i];
    assert all[|a|] == k;
    forall x | x in all && x != k
      ensures x in a + b
    {
      var i :| 0 <= i < |all| && all[i] == x;
      assert (a + b)[if i < |a| then i else i - 1] == x;
    }
  }

  /** The busy keys among `ks`, in their order. */
  function Busy(l: Limits, m: map<Key, Bucket>, ks: seq<Key>, now: int): seq<Key> {
    if ks == [] then []
    else (if ks[0] in m && !Idle(l, m[ks[0]], now) then [ks[0]] else []) + Busy(l, m, ks[1..], now)
  }

  lemma {:induction false} BusyWithout(l: Limits, m: map<Key, Bucket>, k: Key, ks: seq<Key>, now: int)
    requires k !in ks
    ensures Busy(l, m - {k}, ks, now) == Busy(l, m, ks, now)
  {
    hide Idle;
    if ks != [] {
      BusyWithout(l, m, k, ks[1..], now);
    }
  }

  /** What the walk keeps is in the order of the Map. */
  lemma {:induction false} SweptInOrder(l: Limits, s: Sweep, ks: seq<Key>, now: int)
    requires NoDup(ks)
    ensures Swept(l, s, ks, now).kept == s.kept + Busy(l, s.live, ks, now)
    decreases |ks|
  {
    hide Idle;
    if ks == [] {
      assert s.kept + [] == s.kept;
    } else {
      var k, v := ks[0], Visit(l, s, ks[0], now);
      SweptInOrder(l, v, ks[1..], now);
      BusyWithout(l, s.live, k, ks[1..], now);
      assert s.kept + [k] + Busy(l, s.live, ks[1..], now) == s.kept + ([k] + Busy(l, s.live, ks[1..], now));
      assert [] + Busy(l, s.live, ks[1..], now) == Busy(l, s.live, ks[1..], now);
    }
  }

  /** The walk deletes exactly the idle buckets and keeps the order of the others. */
  lemma {:induction false} SweptKeeps(l: Limits, s: Sweep, ks: seq<Key>, now: int)
    requires Tidy(s, ks) && IsLeast(s)
    ensures var w := Swept(l, s, ks, now);
            && Tidy(w, []) && IsLeast(w)
            && |w.kept| <= |s.kept| + |ks|
            && (forall k :: k in w.live <==> k in s.live && !(k in ks && Idle(l, s.live[k], now)))
            && (forall k :: k in w.live ==> w.live[k] == s.live[k])
    decreases |ks|
  {
    if ks != [] {
      var v := Visit(l, s, ks[0], now);
      assert Tidy(v, ks[1..]) && IsLeast(v) by { VisitTidy(l, s, ks, now); }
      TidyHead(s, ks);
      SweptKeeps(l, v, ks[1..], now);
      hide Swept, Idle, Tidy, IsLeast;
    }
  }

  lemma {:induction false} TidyHead(s: Sweep, rest: seq<Key>)
    requires Tidy(s, rest) && rest != []
    ensures rest[0] in s.live && rest[0] !in rest[1..]
  {
    var all := s.kept + rest;
    assert all[|s.kept|] in Elements(all);
    assert forall i :: 0 <= i < |rest| ==> all[|s.kept| + i] == rest[i];
  }

  lemma {:induction false} WalkKeeps(l: Limits, st: Store, now: int)
    requires Consistent(st)
    ensures var w := Walk(l, st, now);
            && NoDup(w.kept) && Elements(w.kept) == w.live.Keys && IsLeast(w)
            && |w.kept| <= |st.order|
            && (forall k :: k in w.live <==> k in st.buckets && !Idle(l, st.buckets[k], now))
            && (forall k :: k in w.live ==> w.live[k] == st.buckets[k])
  {
    hide Swept, Idle;
    var s := Sweep(st.buckets, [], None);
    assert s.kept + st.order == st.order;
    SweptKeeps(l, s, st.order, now);
    var w := Walk(l, st, now);
    assert w.kept + [] == w.kept;
    assert forall k :: k in st.buckets ==> k in Elements(st.order);
  }

  lemma {:induction false} ReclaimedConsistent(l: Limits, st: Store, now: int)
    requires Consistent(st)
    ensures Consistent(Reclaimed(l, st, now))
    ensures |Reclaimed(l, st, now).order| <= |st.order|
  {
    hide Swept, Idle;
    WalkKeeps(l, st, now);
    var w := Walk(l, st, now);
    var victim := Victim(l, w);
    if victim.Some? {
      WithoutNoDup(w.kept, victim.value);
    }
  }

  lemma {:induction false} RoomConsistent(l: Limits, st: Store, now: int)
    requires Consistent(st)
    ensures Consistent(Room(l, st, now)) && Room(l, st, now).buckets.Keys <= st.buckets.Keys
  {
    hide Walk, Idle;
    ReclaimedConsistent(l, st, now);
    WalkKeeps(l, st, now);
  }

  lemma {:induction false} CheckedConsistent(l: Limits, st: Store, key: Key, now: int)
    requires Consistent(st)
    ensures Consistent(Prepared(l, st, key, now))
    ensures Consistent(Checked(l, st, key, now))
  {
    hide Room, Level, Taken;
    if key !in st.buckets {
      RoomConsistent(l, st, now);
      var room := Room(l, st, now);
      assert key !in Elements(room.order);
      AppendNoDup(room.order, key);
    } else {
      assert Prepared(l, st, key, now).buckets.Keys == st.buckets.Keys;
    }
    var p := Prepared(l, st, key, now);
    assert Checked(l, st, key, now).buckets.Keys == p.buckets.Keys;
  }

  // --- Arithmetic of the refill ---------------------------------------------

  lemma {:induction false} GainAdds(l: Limits, a: int, b: int)
    ensures Gain(l, a + b) == Gain(l, a) + Gain(l, b)
  {
    assert (a + b) as real == a as real + b as real;
  }

  lemma GainZero(l: Limits)
    ensures Gain(l, 0) == 0.0
  {
  }

  lemma {:induction false} GainGrows(l: Limits, a: int, b: int)
    requires Sane(l) && a <= b
    ensures Gain(l, a) <= Gain(l, b)
  {
    GainAdds(l, a, b - a);
    assert (b - a) as real >= 0.0;
  }

  /** The advertised wait is the least whole number of milliseconds that refills one token. */
  lemma {:induction false} RetryIsLeast(l: Limits, tokens: real, d: int)
    requires Sane(l) && tokens < 1.0
    ensures tokens + Gain(l, d) >= 1.0 <==> d >= Ceil((1.0 - tokens) / l.refillPerMs)
  {
    var q := (1.0 - tokens) / l.refillPerMs;
    assert q * l.refillPerMs == 1.0 - tokens;
    if d as real >= q {
      assert d as real * l.refillPerMs >= q * l.refillPerMs;
    } else {
      assert d as real * l.refillPerMs < q * l.refillPerMs;
    }
  }

  // --- Runs -----------------------------------------------------------------

  datatype Probe = Probe(key: Key, at: int)

  /** A trace whose clock readings start no earlier than `from` and never go backwards. */
  ghost predicate Timely(from: int, tr: seq<Probe>)
    decreases |tr|
  {
    tr == [] || (from <= tr[0].at && Timely(tr[0].at, tr[1..]))
  }

  function After(l: Limits, st: Store, p: Probe): Store {
    Checked(l, st, p.key, p.at)
  }

  function RunStore(l: Limits, st: Store, tr: seq<Probe>): Store
    decreases |tr|
  {
    if tr == [] then st else RunStore(l, After(l, st, tr[0]), tr[1..])
  }

  function Replies(l: Limits, st: Store, tr: seq<Probe>): (r: seq<Decision>)
    requires Sane(l)
    ensures |r| == |tr|
    decreases |tr|
  {
    if tr == [] then []
    else [Reply(l, st, tr[0].key, tr[0].at)] + Replies(l, After(l, st, tr[0]), tr[1..])
  }

  /** No check of the trace fires the forced-eviction fallback. */
  ghost predicate Unforced(l: Limits, st: Store, tr: seq<Probe>)
    decreases |tr|
  {
    tr == [] || (!Forces(l, st, tr[0].key, tr[0].at) && Unforced(l, After(l, st, tr[0]), tr[1..]))
  }

  // --- Lossless eviction ----------------------------------------------------

  /** The same limiter with room for every key: it never reclaims. */
  function Kept(l: Limits, u: map<Key, Bucket>, p: Probe): Bucket {
    if p.key in u then Refilled(l, u[p.key], p.at) else Fresh(l, p.at)
  }

  function UnlimitedReplies(l: Limits, u: map<Key, Bucket>, tr: seq<Probe>): seq<Decision>
    requires Sane(l)
    decreases |tr|
  {
    if tr == [] then []
    else
      var b := Kept(l, u, tr[0]);
      [Answer(l, b)] + UnlimitedReplies(l, u[tr[0].key := Taken(b)], tr[1..])
  }

  /** The bounded store holds the same buckets, short of some that are full again. */
  ghost predicate Covers(l: Limits, m: map<Key, Bucket>, u: map<Key, Bucket>, now: int) {
    && (forall k :: k in m ==> k in u && u[k] == m[k])
    && (forall k :: k in u && k !in m ==> Idle(l, u[k], now))
    && Sound(l, u, now)
  }

  lemma {:induction false} IdleStays(l: Limits, b: Bucket, now: int, later: int)
    requires Sane(l) && now <= later && Idle(l, b, now)
    ensures Idle(l, b, later)
  {
    GainGrows(l, now - b.lastRefillMs, later - b.lastRefillMs);
  }

  lemma {:induction false} CoversLater(l: Limits, m: map<Key, Bucket>, u: map<Key, Bucket>, now: int, later: int)
    requires Sane(l) && now <= later && Covers(l, m, u, now)
    ensures Covers(l, m, u, later)
  {
    forall k | k in u && k !in m
      ensures Idle(l, u[k], later)
    {
      IdleStays(l, u[k], now, later);
    }
  }

  /** Everything one check does: the caller's bucket holds what its purse had less the token
    taken, every other bucket is untouched, and a lossless one drops only full buckets. */
  ghost predicate Stepped(l: Limits, m: map<Key, Bucket>, m': map<Key, Bucket>, p: Probe, lossless: bool) {
    && p.key in m' && m'[p.key] == Taken(Bucket(Purse(l, m, p.key, p.at), p.at))
    && (forall k :: k in m' && k != p.key ==> k in m && m'[k] == m[k])
    && (lossless ==> forall k :: k in m && k !in m' ==> Idle(l, m[k], p.at))
    && m'[p.key].tokens <= l.capacity
  }

  /** Before a token is taken, the caller's bucket holds its purse and no other bucket has changed. */
  lemma {:induction false} PreparedEffect(l: Limits, st: Store, p: Probe)
    requires Sane(l) && Consistent(st) && Sound(l, st.buckets, p.at)
    ensures var m, m' := st.buckets, Prepared(l, st, p.key, p.at).buckets;
            && m'[p.key] == Bucket(Purse(l, m, p.key, p.at), p.at)
            && (forall k :: k in m' && k != p.key ==> k in m && m'[k] == m[k])
            && (!Forces(l, st, p.key, p.at) ==> forall k :: k in m && k !in m' ==> Idle(l, m[k], p.at))
  {
    hide Level, Idle, Room;
    if p.key in st.buckets {
      RefilledIsPurse(l, st.buckets, p.key, p.at);
      hide Refilled;
    } else {
      RoomEffect(l, st, p.at);
    }
  }

  lemma {:induction false} StepEffect(l: Limits, st: Store, p: Probe)
    requires Sane(l) && Consistent(st) && Sound(l, st.buckets, p.at)
    ensures Consistent(After(l, st, p)) && Sound(l, After(l, st, p).buckets, p.at)
    ensures Reply(l, st, p.key, p.at) == Answer(l, Bucket(Purse(l, st.buckets, p.key, p.at), p.at))
    ensures Stepped(l, st.buckets, After(l, st, p).buckets, p, !Forces(l, st, p.key, p.at))
  {
    hide Prepared, Purse, Idle, Forces, Answer;
    CheckedConsistent(l, st, p.key, p.at);
    PurseCapped(l, st.buckets, p.key, p.at);
    PreparedEffect(l, st, p);
  }

  lemma {:induction false} RoomEffect(l: Limits, st: Store, now: int)
    requires Consistent(st)
    ensures var room := Room(l, st, now).buckets;
            && (forall k :: k in room ==> k in st.buckets && room[k] == st.buckets[k])
            && (|st.buckets| < l.maxKeys || ForcedVictim(l, st, now).None? ==>
                  forall k :: k in st.buckets && k !in room ==> Idle(l, st.buckets[k], now))
  {
    WalkKeeps(l, st, now);
    hide Walk, Idle;
  }

  lemma RefilledIsPurse(l: Limits, m: map<Key, Bucket>, key: Key, now: int)
    requires Sane(l) && key in m && Sound(l, m, now)
    ensures Refilled(l, m[key], now) == Bucket(Purse(l, m, key, now), now)
  {
  }

  /** A forced eviction takes away a throttled bucket, of another key. */
  lemma {:induction false} ForcedLoss(l: Limits, st: Store, p: Probe)
    requires Consistent(st) && Forces(l, st, p.key, p.at)
    ensures ForcedVictim(l, st, p.at).Some?
    ensures var v := ForcedVictim(l, st, p.at).value;
            && v in st.buckets && !Idle(l, st.buckets[v], p.at) && v != p.key
            && v !in After(l, st, p).buckets
  {
    WalkKeeps(l, st, p.at);
    var w := Walk(l, st, p.at);
    assert forall k :: k in w.live ==> k in Elements(w.kept);
    hide Walk, Idle, Level, Taken;
  }

  /** One check keeps the bounded store within the unlimited one, short of full buckets only,
    if and only if it does not fire the fallback. */
  lemma {:induction false} StepCovers(l: Limits, st: Store, u: map<Key, Bucket>, now: int, p: Probe)
    requires Sane(l) && Consistent(st) && Covers(l, st.buckets, u, now)
    requires now <= p.at
    ensures Reply(l, st, p.key, p.at) == Answer(l, Kept(l, u, p))
    ensures Consistent(After(l, st, p))
    ensures Covers(l, After(l, st, p).buckets, u[p.key := Taken(Kept(l, u, p))], p.at) <==> !Forces(l, st, p.key, p.at)
  {
    hide After, Purse, Forces, Stepped, Idle, Kept, Reply, Answer;
    CoversLater(l, st.buckets, u, now, p.at);
    StepEffect(l, st, p);
    KeptIsPurse(l, st.buckets, u, p);
    if Forces(l, st, p.key, p.at) {
      ForcedLoss(l, st, p);
      var v := ForcedVictim(l, st, p.at).value;
      assert u[v] == st.buckets[v];
    } else {
      CoversStepped(l, st.buckets, After(l, st, p).buckets, u, p);
    }
  }

  lemma {:induction false} KeptIsPurse(l: Limits, m: map<Key, Bucket>, u: map<Key, Bucket>, p: Probe)
    requires Sane(l) && Covers(l, m, u, p.at)
    ensures Kept(l, u, p) == Bucket(Purse(l, m, p.key, p.at), p.at)
  {
    if p.key in u {
      RefilledIsPurse(l, u, p.key, p.at);
    }
  }

  lemma {:induction false} CoversStepped(l: Limits, m: map<Key, Bucket>, m': map<Key, Bucket>,
                                         u: map<Key, Bucket>, p: Probe)
    requires Sane(l) && Covers(l, m, u, p.at) && Stepped(l, m, m', p, true)
    ensures Kept(l, u, p) == Bucket(Purse(l, m, p.key, p.at), p.at)
    ensures Covers(l, m', u[p.key := Taken(Kept(l, u, p))], p.at)
  {
    if p.key in u {
      RefilledIsPurse(l, u, p.key, p.at);
    }
    assert Kept(l, u, p) == Bucket(Purse(l, m, p.key, p.at), p.at);
    hide Kept, Purse, Level;
  }

  lemma PurseCapped(l: Limits, m: map<Key, Bucket>, key: Key, now: int)
    ensures Purse(l, m, key, now) <= l.capacity
  {
  }

  /** Eviction is lossless: over any trace of checks in which the fallback does not fire, the
    bounded limiter gives every caller the answer a limiter with unlimited keys gives. */
  lemma {:induction false} LosslessEviction(l: Limits, st: Store, u: map<Key, Bucket>, now: int, tr: seq<Probe>)
    requires Sane(l) && Consistent(st) && Covers(l, st.buckets, u, now)
    requires Timely(now, tr) && Unforced(l, st, tr)
    ensures Replies(l, st, tr) == UnlimitedReplies(l, u, tr)
    decreases |tr|
  {
    if tr != [] {
      StepCovers(l, st, u, now, tr[0]);
      LosslessEviction(l, After(l, st, tr[0]), u[tr[0].key := Taken(Kept(l, u, tr[0]))], tr[0].at, tr[1..]);
    }
  }

  /** With one slot and a frozen clock, a second caller takes the slot of a throttled one. */
  lemma {:induction false} SlotTaken(l: Limits, a: Key, b: Key)
    requires l == Limits(1.0, 0.001, 1) && a != b && a.text != ""
    ensures var st := Store(map[a := Bucket(0.0, 0)], [a]);
            && Forces(l, st, b, 0) && Reply(l, st, b, 0).allowed
            && After(l, st, Probe(b, 0)) == Store(map[b := Bucket(0.0, 0)], [b])
  {
    var st := Store(map[a := Bucket(0.0, 0)], [a]);
    var w := Walk(l, st, 0);
    var s0 := Sweep(st.buckets, [], None);
    var s1 := Sweep(st.buckets, [a], Some(Candidate(a, 0)));
    assert !Idle(l, st.buckets[a], 0) && [] + [a] == [a];
    assert Visit(l, s0, a, 0) == s1;
    assert st.order[0] == a && st.order[1..] == [];
    assert Swept(l, s0, st.order, 0) == Swept(l, s1, st.order[1..], 0) == s1;
    assert w.live - {a} == map[];
    assert w.kept[0] == a && w.kept[1..] == [] && Without(w.kept, a) == [];
    assert |w.live| == 1 && Victim(l, w) == Some(a);
    assert Reclaimed(l, st, 0) == EmptyStore;
  }

  /** The fallback is not lossless: it forgets that `a` was throttled, and grants a token the
    unlimited limiter refuses. */
  lemma {:induction false} ForcedEvictionLosesState()
    ensures var l := Limits(1.0, 0.001, 1);
            var tr := [Probe(Key("a"), 0), Probe(Key("b"), 0), Probe(Key("a"), 0)];
            && Sane(l) && Timely(0, tr) && !Unforced(l, EmptyStore, tr)
            && Replies(l, EmptyStore, tr)[2].allowed && !UnlimitedReplies(l, map[], tr)[2].allowed
  {
    hide After, Reply, Forces, UnlimitedReplies, Replies;
    var l := Limits(1.0, 0.001, 1);
    var a, b := Probe(Key("a"), 0), Probe(Key("b"), 0);
    assert a.key.text[0] != b.key.text[0];
    var tr := [a, b, a];
    assert tr[1..] == [b, a] && tr[1..][1..] == [a];
    FirstSlot(l, a.key);
    SlotTaken(l, a.key, b.key);
    SlotTaken(l, b.key, a.key);
    RepliesShift(l, EmptyStore, tr);
    RepliesShift(l, After(l, EmptyStore, a), [b, a]);
    RepliesShift(l, After(l, After(l, EmptyStore, a), b), [a]);
    UnlimitedRefuses(l, a, b);
  }

  lemma FirstSlot(l: Limits, a: Key)
    requires l == Limits(1.0, 0.001, 1)
    ensures After(l, EmptyStore, Probe(a, 0)) == Store(map[a := Bucket(0.0, 0)], [a])
  {
  }

  lemma {:induction false} UnlimitedRefuses(l: Limits, a: Probe, b: Probe)
    requires l == Limits(1.0, 0.001, 1) && a.key != b.key && a.at == b.at == 0
    ensures |UnlimitedReplies(l, map[], [a, b, a])| == 3 && !UnlimitedReplies(l, map[], [a, b, a])[2].allowed
  {
    var one := map[a.key := Bucket(0.0, 0)];
    var two := one[b.key := Bucket(0.0, 0)];
    assert [a, b, a][1..] == [b, a] && [b, a][1..] == [a];
    assert UnlimitedReplies(l, map[], [a, b, a]) == [Answer(l, Bucket(1.0, 0))] + UnlimitedReplies(l, one, [b, a]);
    assert UnlimitedReplies(l, one, [b, a]) == [Answer(l, Bucket(1.0, 0))] + UnlimitedReplies(l, two, [a]);
    assert Kept(l, two, a) == Bucket(0.0, 0);
  }

  // --- Memory bound and the choice of victim --------------------------------

  /** Every stored key is non-empty and at most `maxKeys` of them are stored. */
  ghost predicate Bounded(l: Limits, st: Store) {
    && Consistent(st) && |st.buckets| <= l.maxKeys
    && forall k :: k in st.buckets ==> k.text != ""
  }

  lemma {:induction false} RunBounded(l: Limits, st: Store, tr: seq<Probe>)
    requires l.maxKeys >= 1 && Bounded(l, st)
    requires forall p :: p in tr ==> p.key.text != ""
    ensures Bounded(l, RunStore(l, st, tr))
    decreases |tr|
  {
    if tr != [] {
      StepBounded(l, st, tr[0].key, tr[0].at);
      RunBounded(l, After(l, st, tr[0]), tr[1..]);
    }
  }

  lemma {:induction false} StepBounded(l: Limits, st: Store, key: Key, now: int)
    requires l.maxKeys >= 1 && Bounded(l, st) && key.text != ""
    ensures Bounded(l, Checked(l, st, key, now))
  {
    CheckedConsistent(l, st, key, now);
    RoomConsistent(l, st, now);
    if key in st.buckets {
      assert Checked(l, st, key, now).buckets.Keys == st.buckets.Keys;
    } else {
      SpaceMade(l, st, now);
      var room := Room(l, st, now);
      hide Room, Level;
      assert Checked(l, st, key, now).buckets.Keys == room.buckets.Keys + {key};
    }
  }

  lemma {:induction false} SpaceMade(l: Limits, st: Store, now: int)
    requires l.maxKeys >= 1 && Bounded(l, st)
    ensures |Room(l, st, now).buckets| < l.maxKeys
  {
    WalkKeeps(l, st, now);
    var w := Walk(l, st, now);
    assert w.live.Keys <= st.buckets.Keys;
    SubsetSize(w.live.Keys, st.buckets.Keys);
    hide Walk, Idle;
    if |w.live| >= l.maxKeys {
      assert w.oldest.Some? by {
        assert w.live.Keys != {};
      }
      assert (w.live - {w.oldest.value.key}).Keys == w.live.Keys - {w.oldest.value.key};
    }
  }

  lemma {:induction false} SubsetSize(a: set<Key>, b: set<Key>)
    requires a <= b
    ensures |a| <= |b|
  {
    assert |b| == |a| + |b - a| by { assert b == a + (b - a); }
  }

  /** The clock reading of the last check of `k` in the trace. */
  function LastSeen(tr: seq<Probe>, k: Key): Option<int> {
    if tr == [] then None
    else if tr[|tr| - 1].key == k then Some(tr[|tr| - 1].at) else LastSeen(tr[..|tr| - 1], k)
  }

  /** A stored bucket's refill time is when its key was last checked. */
  ghost predicate Stamped(st: Store, tr: seq<Probe>) {
    forall k :: k in st.buckets ==> LastSeen(tr, k) == Some(st.buckets[k].lastRefillMs)
  }

  lemma {:induction false} StepStamped(l: Limits, st: Store, past: seq<Probe>, p: Probe)
    requires Sane(l) && Consistent(st) && Stamped(st, past)
    requires Sound(l, st.buckets, p.at)
    ensures Stamped(After(l, st, p), past + [p]) && Sound(l, After(l, st, p).buckets, p.at)
    ensures Consistent(After(l, st, p))
  {
    hide After, Purse, Forces, Reply, Idle, LastSeen;
    StepEffect(l, st, p);
    forall k | k in After(l, st, p).buckets
      ensures LastSeen(past + [p], k) == Some(After(l, st, p).buckets[k].lastRefillMs)
    {
      LastSeenSnoc(past, p, k);
    }
  }

  lemma {:induction false} LastSeenSnoc(past: seq<Probe>, p: Probe, k: Key)
    ensures LastSeen(past + [p], k) == if p.key == k then Some(p.at) else LastSeen(past, k)
  {
    assert (past + [p])[..|past|] == past;
  }

  lemma {:induction false} RunStamped(l: Limits, st: Store, past: seq<Probe>, now: int, tr: seq<Probe>)
    requires Sane(l) && Consistent(st) && Stamped(st, past) && Sound(l, st.buckets, now) && Timely(now, tr)
    ensures Stamped(RunStore(l, st, tr), past + tr) && Consistent(RunStore(l, st, tr))
    decreases |tr|
  {
    if tr == [] {
      assert past + tr == past;
    } else {
      StepStamped(l, st, past, tr[0]);
      RunStamped(l, After(l, st, tr[0]), past + [tr[0]], tr[0].at, tr[1..]);
      assert past + [tr[0]] + tr[1..] == past + tr;
    }
  }

  /** When the fallback fires after any run, it evicts a throttled key, and none of the other
    throttled keys was last checked before it. */
  lemma {:induction false} VictimIsLeastRecentlySeen(l: Limits, tr: seq<Probe>, from: int, key: Key, now: int)
    requires Sane(l) && Timely(from, tr)
    requires Forces(l, RunStore(l, EmptyStore, tr), key, now)
    ensures var st := RunStore(l, EmptyStore, tr);
            var v := ForcedVictim(l, st, now).value;
            && v in st.buckets && !Idle(l, st.buckets[v], now)
            && v !in After(l, st, Probe(key, now)).buckets
            && LastSeen(tr, v).Some?
            && forall k :: k in st.buckets && !Idle(l, st.buckets[k], now) ==>
                 LastSeen(tr, k).Some? && LastSeen(tr, v).value <= LastSeen(tr, k).value
  {
    RunStamped(l, EmptyStore, [], from, tr);
    assert [] + tr == tr;
    var st := RunStore(l, EmptyStore, tr);
    WalkKeeps(l, st, now);
    var w := Walk(l, st, now);
    var v := ForcedVictim(l, st, now).value;
    assert v == w.oldest.value.key;
    assert forall k :: k in w.live ==> k in Elements(w.kept);
    hide Walk, Idle, Level;
  }

  // --- Admission bound ------------------------------------------------------

  /** How many checks of `key` the replies admit with a clock reading in [s, t]. */
  function Admitted(tr: seq<Probe>, ds: seq<Decision>, key: Key, s: int, t: int): nat
    requires |ds| == |tr|
    decreases |tr|
  {
    if tr == [] then 0
    else
      (if tr[0].key == key && ds[0].allowed && s <= tr[0].at <= t then 1 else 0)
      + Admitted(tr[1..], ds[1..], key, s, t)
  }

  lemma {:induction false} PurseLater(l: Limits, m: map<Key, Bucket>, key: Key, now: int, later: int)
    requires Sane(l) && now <= later
    ensures Purse(l, m, key, later) <= Purse(l, m, key, now) + Gain(l, later - now)
  {
    GainGrows(l, 0, later - now);
    if key in m {
      GainAdds(l, now - m[key].lastRefillMs, later - now);
    }
    hide Gain;
  }

  /** One check costs the purse what it admits, and touches no other purse. */
  lemma {:induction false} StepPurse(l: Limits, st: Store, key: Key, p: Probe)
    requires Sane(l) && Consistent(st) && Sound(l, st.buckets, p.at) && !Forces(l, st, p.key, p.at)
    ensures Consistent(After(l, st, p)) && Sound(l, After(l, st, p).buckets, p.at)
    ensures var spent := if p.key == key && Reply(l, st, p.key, p.at).allowed then 1.0 else 0.0;
            Purse(l, After(l, st, p).buckets, key, p.at) == Purse(l, st.buckets, key, p.at) - spent
  {
    StepEffect(l, st, p);
    PurseCapped(l, st.buckets, p.key, p.at);
    SteppedPurse(l, st.buckets, After(l, st, p).buckets, key, p);
    hide After, Purse, Forces, Stepped;
  }

  lemma {:induction false} SteppedPurse(l: Limits, m: map<Key, Bucket>, m': map<Key, Bucket>, key: Key, p: Probe)
    requires Sane(l) && Sound(l, m, p.at) && Stepped(l, m, m', p, true)
    ensures Purse(l, m', key, p.at)
            == Purse(l, m, key, p.at) - (if p.key == key && Purse(l, m, key, p.at) >= 1.0 then 1.0 else 0.0)
  {
    GainZero(l);
    PurseCapped(l, m, key, p.at);
    hide Gain;
  }

  /** What the window [s, t] can still admit for `key` once the clock stands at `now`. */
  function Budget(l: Limits, m: map<Key, Bucket>, key: Key, now: int, s: int, t: int): real {
    if now < s then l.capacity + Gain(l, t - s)
    else if now <= t then Purse(l, m, key, now) + Gain(l, t - now)
    else 0.0
  }

  lemma {:induction false} BudgetLater(l: Limits, m: map<Key, Bucket>, key: Key, now: int, later: int, s: int, t: int)
    requires Sane(l) && now <= later && s <= t
    requires key in m ==> m[key].tokens >= 0.0 && m[key].lastRefillMs <= now
    ensures Budget(l, m, key, later, s, t) <= Budget(l, m, key, now, s, t)
  {
    PurseCapped(l, m, key, later);
    GainGrows(l, 0, t - s);
    GainZero(l);
    PursePositive(l, m, key, now);
    if s <= now && later <= t {
      PurseLater(l, m, key, now, later);
      GainAdds(l, later - now, t - later);
    } else if s <= later <= t {
      GainGrows(l, t - later, t - s);
    } else if s <= now <= t {
      GainGrows(l, 0, t - now);
    }
    hide Gain, Purse;
  }

  lemma {:induction false} PursePositive(l: Limits, m: map<Key, Bucket>, key: Key, now: int)
    requires Sane(l) && (key in m ==> m[key].tokens >= 0.0 && m[key].lastRefillMs <= now)
    ensures Purse(l, m, key, now) >= 0.0
  {
    if key in m {
      GainGrows(l, 0, now - m[key].lastRefillMs);
      GainZero(l);
    }
    hide Gain;
  }

  ghost predicate NonNegative(m: map<Key, Bucket>) {
    forall k :: k in m ==> m[k].tokens >= 0.0
  }

  lemma {:induction false} StepNonNegative(l: Limits, st: Store, p: Probe)
    requires Sane(l) && Consistent(st) && Sound(l, st.buckets, p.at) && NonNegative(st.buckets)
    ensures NonNegative(After(l, st, p).buckets)
  {
    StepEffect(l, st, p);
    PursePositive(l, st.buckets, p.key, p.at);
    hide After, Purse, Forces, Reply, Idle;
  }

  lemma {:induction false} AdmissionWithin(l: Limits, st: Store, now: int, tr: seq<Probe>, key: Key, s: int, t: int)
    requires Sane(l) && Consistent(st) && Sound(l, st.buckets, now) && NonNegative(st.buckets)
    requires Timely(now, tr) && Unforced(l, st, tr) && s <= t
    ensures Admitted(tr, Replies(l, st, tr), key, s, t) as real <= Budget(l, st.buckets, key, now, s, t)
    decreases |tr|
  {
    BudgetPositive(l, st.buckets, key, now, s, t);
    if tr != [] {
      var p := tr[0];
      var st' := After(l, st, p);
      StepPurse(l, st, key, p);
      StepNonNegative(l, st, p);
      AdmissionWithin(l, st', p.at, tr[1..], key, s, t);
      BudgetLater(l, st.buckets, key, now, p.at, s, t);
      assert Replies(l, st, tr)[1..] == Replies(l, st', tr[1..]);
      hide Reply, After, Purse, Gain;
    }
  }

  lemma {:induction false} BudgetPositive(l: Limits, m: map<Key, Bucket>, key: Key, now: int, s: int, t: int)
    requires Sane(l) && s <= t && NonNegative(m) && Sound(l, m, now)
    ensures Budget(l, m, key, now, s, t) >= 0.0
  {
    GainZero(l);
    GainGrows(l, 0, t - s);
    PursePositive(l, m, key, now);
    if now <= t {
      GainGrows(l, 0, t - now);
    }
    hide Gain, Purse;
  }

  /** Absent forced eviction, whatever the other callers do, the checks admitted for one key in
    any window [s, t] number at most the burst capacity plus what refills during the window. */
  lemma {:induction false} AdmissionBound(l: Limits, from: int, tr: seq<Probe>, key: Key, s: int, t: int)
    requires Sane(l) && Timely(from, tr) && Unforced(l, EmptyStore, tr) && s <= t
    ensures Admitted(tr, Replies(l, EmptyStore, tr), key, s, t) as real <= l.capacity + Gain(l, t - s)
  {
    AdmissionWithin(l, EmptyStore, from, tr, key, s, t);
    BudgetAtStart(l, key, from, s, t);
    hide Budget, Gain, Admitted, Replies;
  }

  lemma {:induction false} BudgetAtStart(l: Limits, key: Key, from: int, s: int, t: int)
    requires Sane(l) && s <= t
    ensures Budget(l, map[], key, from, s, t) <= l.capacity + Gain(l, t - s)
  {
    GainZero(l);
    GainGrows(l, 0, t - s);
    if s <= from <= t {
      GainGrows(l, t - from, t - s);
    }
    hide Gain;
  }

  /** In terms of the options: a key is admitted in any window at most its burst and `perSecond` for each
    second, both taken as one where they are less. */
  lemma {:induction false} ConfiguredBound(
    perSecond: real, burst: real, maxKeys: Option<int>, from: int, tr: seq<Probe>, key: Key, s: int, t: int)
    requires Timely(from, tr) && Unforced(Configure(perSecond, burst, maxKeys), EmptyStore, tr) && s <= t
    ensures Admitted(tr, Replies(Configure(perSecond, burst, maxKeys), EmptyStore, tr), key, s, t) as real
      <= MaxReal(1.0, burst) + (t - s) as real * MaxReal(1.0, perSecond) / 1000.0
  {
    var l := Configure(perSecond, burst, maxKeys);
    AdmissionBound(l, from, tr, key, s, t);
    hide Admitted, Replies, Unforced, Gain, Configure;
    ConfiguredGain(perSecond, burst, maxKeys, t - s);
  }

  lemma {:induction false} ConfiguredGain(perSecond: real, burst: real, maxKeys: Option<int>, ms: int)
    ensures Gain(Configure(perSecond, burst, maxKeys), ms) == ms as real * MaxReal(1.0, perSecond) / 1000.0
  {
    hide MaxReal;
    DivideLast(ms as real, MaxReal(1.0, perSecond));
    MaxEither(perSecond);
  }

  lemma {:induction false} MaxEither(x: real)
    ensures MaxReal(1.0, x) == MaxReal(x, 1.0)
  {
  }

  lemma {:induction false} DivideLast(x: real, y: real)
    ensures x * (y / 1000.0) == x * y / 1000.0
  {
  }

  /** `n` checks of one key at one moment. */
  function Burst(key: Key, at: int, n: nat): (tr: seq<Probe>)
    ensures |tr| == n
  {
    if n == 0 then [] else [Probe(key, at)] + Burst(key, at, n - 1)
  }

  lemma {:induction false} BurstFrom(l: Limits, st: Store, key: Key, at: int, n: nat, i: nat)
    requires Sane(l) && i < n && key in st.buckets && st.buckets[key].lastRefillMs >= at
    ensures Replies(l, st, Burst(key, at, n))[i].allowed <==> st.buckets[key].tokens >= (i + 1) as real
    decreases n
  {
    hide Level, Room;
    var tr := Burst(key, at, n);
    assert tr[0] == Probe(key, at) && tr[1..] == Burst(key, at, n - 1);
    if i > 0 {
      BurstFrom(l, After(l, st, tr[0]), key, at, n - 1, i - 1);
    }
  }

  /** A key not seen before is admitted, at one moment, as often as the capacity has whole tokens, and then
    no more. */
  lemma {:induction false} BurstIsExact(l: Limits, st: Store, key: Key, at: int, n: nat, i: nat)
    requires Sane(l) && i < n && key !in st.buckets
    ensures Replies(l, st, Burst(key, at, n))[i].allowed <==> l.capacity >= (i + 1) as real
  {
    hide Level, Room;
    var tr := Burst(key, at, n);
    assert tr[0] == Probe(key, at) && tr[1..] == Burst(key, at, n - 1);
    if i > 0 {
      BurstFrom(l, After(l, st, tr[0]), key, at, n - 1, i - 1);
    }
  }

  // --- Exact retry time -----------------------------------------------------

  /** `key` was denied at `t0` with `left` tokens, and only denied since: the refill has run
    undisturbed, or the bucket was reclaimed after filling up. */
  ghost predicate Waiting(l: Limits, m: map<Key, Bucket>, key: Key, now: int, t0: int, left: real) {
    if key in m then
      && t0 <= m[key].lastRefillMs <= now && m[key].tokens < 1.0
      && m[key].tokens == left + Gain(l, m[key].lastRefillMs - t0)
    else left + Gain(l, now - t0) >= l.capacity
  }

  /** While waiting, a check finds exactly the linear refill, capped. */
  lemma {:induction false} WaitingPurse(l: Limits, m: map<Key, Bucket>, key: Key, now: int, later: int, t0: int,
                                        left: real)
    requires Sane(l) && Waiting(l, m, key, now, t0, left) && now <= later
    ensures Purse(l, m, key, later) == MinReal(l.capacity, left + Gain(l, later - t0))
  {
    if key in m {
      GainAdds(l, m[key].lastRefillMs - t0, later - m[key].lastRefillMs);
    } else {
      GainGrows(l, now - t0, later - t0);
    }
    hide Gain;
  }

  lemma {:induction false} StillWaiting(l: Limits, st: Store, key: Key, now: int, p: Probe, t0: int, left: real)
    requires Sane(l) && Consistent(st) && Sound(l, st.buckets, now) && now <= p.at && t0 <= now
    requires Waiting(l, st.buckets, key, now, t0, left) && !Forces(l, st, p.key, p.at)
    ensures Consistent(After(l, st, p)) && Sound(l, After(l, st, p).buckets, p.at)
    ensures p.key == key ==> (Reply(l, st, key, p.at).allowed <==> left + Gain(l, p.at - t0) >= 1.0)
    ensures !(p.key == key && Reply(l, st, key, p.at).allowed)
            ==> Waiting(l, After(l, st, p).buckets, key, p.at, t0, left)
  {
    StepEffect(l, st, p);
    WaitingStepped(l, st.buckets, After(l, st, p).buckets, key, now, p, t0, left);
    hide After, Gain, Forces, Stepped, Waiting, Purse;
  }

  lemma {:induction false} WaitingStepped(
    l: Limits, m: map<Key, Bucket>, m': map<Key, Bucket>, key: Key, now: int, p: Probe, t0: int, left: real)
    requires Sane(l) && now <= p.at && t0 <= now
    requires Waiting(l, m, key, now, t0, left) && Stepped(l, m, m', p, true)
    ensures p.key == key ==> (Purse(l, m, key, p.at) >= 1.0 <==> left + Gain(l, p.at - t0) >= 1.0)
    ensures !(p.key == key && Purse(l, m, key, p.at) >= 1.0) ==> Waiting(l, m', key, p.at, t0, left)
  {
    WaitingPurse(l, m, key, now, p.at, t0, left);
    if key in m {
      GainAdds(l, m[key].lastRefillMs - t0, p.at - m[key].lastRefillMs);
    } else {
      GainGrows(l, now - t0, p.at - t0);
    }
    if p.key == key {
      hide Purse, Gain, Idle;
    } else {
      hide Gain, Purse;
    }
  }

  lemma {:induction false} WaitIsExact(
    l: Limits, st: Store, key: Key, now: int, tr: seq<Probe>, i: nat, t0: int, left: real)
    requires Sane(l) && Consistent(st) && Sound(l, st.buckets, now) && t0 <= now && left < 1.0
    requires Waiting(l, st.buckets, key, now, t0, left) && Timely(now, tr) && Unforced(l, st, tr)
    requires i < |tr| && tr[i].key == key
    requires forall j :: 0 <= j < i && tr[j].key == key ==> !Replies(l, st, tr)[j].allowed
    ensures Replies(l, st, tr)[i].allowed <==> tr[i].at >= t0 + Ceil((1.0 - left) / l.refillPerMs)
    decreases |tr|
  {
    hide After, Gain, Waiting, Reply, Ceil, Forces;
    var p := tr[0];
    var st' := After(l, st, p);
    StillWaiting(l, st, key, now, p, t0, left);
    RetryIsLeast(l, left, p.at - t0);
    RepliesShift(l, st, tr);
    if i > 0 {
      WaitIsExact(l, st', key, p.at, tr[1..], i - 1, t0, left);
    }
  }

  lemma {:induction false} RepliesShift(l: Limits, st: Store, tr: seq<Probe>)
    requires Sane(l) && tr != []
    ensures Replies(l, st, tr)[0] == Reply(l, st, tr[0].key, tr[0].at)
    ensures forall j :: 1 <= j < |tr| ==> Replies(l, st, tr)[j] == Replies(l, After(l, st, tr[0]), tr[1..])[j - 1]
  {
    hide After, Reply, Replies;
    var r := Replies(l, After(l, st, tr[0]), tr[1..]);
    RepliesHead(l, st, tr);
    assert forall j :: 1 <= j < |tr| ==> ([Reply(l, st, tr[0].key, tr[0].at)] + r)[j] == r[j - 1];
  }

  lemma {:induction false} RepliesHead(l: Limits, st: Store, tr: seq<Probe>)
    requires Sane(l) && tr != []
    ensures Replies(l, st, tr) == [Reply(l, st, tr[0].key, tr[0].at)] + Replies(l, After(l, st, tr[0]), tr[1..])
  {
    hide After, Reply;
  }

  /** A denial's retryAfterMs is exact: whatever the other callers do and however often the
    denied caller probes meanwhile, its checks are refused before t0 + retryAfterMs and the
    first one at or after that moment is admitted. */
  lemma {:induction false} RetryAfterIsExact(l: Limits, st: Store, key: Key, t0: int, tr: seq<Probe>, i: nat)
    requires Sane(l) && Consistent(st) && Sound(l, st.buckets, t0)
    requires !Forces(l, st, key, t0) && !Reply(l, st, key, t0).allowed
    requires var st' := After(l, st, Probe(key, t0));
             && Timely(t0, tr) && Unforced(l, st', tr)
             && i < |tr| && tr[i].key == key
             && forall j :: 0 <= j < i && tr[j].key == key ==> !Replies(l, st', tr)[j].allowed
    ensures var st' := After(l, st, Probe(key, t0));
            Replies(l, st', tr)[i].allowed <==> tr[i].at >= t0 + Reply(l, st, key, t0).retryAfterMs
  {
    var p := Probe(key, t0);
    StepEffect(l, st, p);
    PurseCapped(l, st.buckets, key, t0);
    GainZero(l);
    var left := Purse(l, st.buckets, key, t0);
    assert Waiting(l, After(l, st, p).buckets, key, t0, t0, left) && Sound(l, After(l, st, p).buckets, t0) by {
      hide After, Gain, Reply, Purse;
    }
    WaitIsExact(l, After(l, st, p), key, t0, tr, i, t0, left);
    hide After, Gain, Waiting, Purse, Replies;
  }
}
