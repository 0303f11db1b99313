/** The bounded, expiring cache of idempotency keys: a Map in insertion order. */
module IdempotencyCache {
  import opened Common

  const MAX_ENTRIES := 2048

  datatype Key = Key(text: string)

  datatype Entry<V> = Entry(value: V, expiresAt: int)

  /** The Map: its keys in insertion order, and what they map to. */
  datatype Store<V> = Store(order: seq<Key>, entries: map<Key, Entry<V>>)

  ghost predicate Valid<V>(s: Store<V>) {
    NoDup(s.order) && Elements(s.order) == s.entries.Keys
  }

  function Empty<V>(): Store<V> {
    Store([], map[])
  }

  function Delete<V>(s: Store<V>, key: Key): Store<V> {
    Store(Without(s.order, key), s.entries - {key})
  }

  /** Map.set: a key already there keeps its place. */
  function Put<V>(s: Store<V>, key: Key, e: Entry<V>): Store<V> {
    Store(if key in s.entries then s.order else s.order + [key], s.entries[key := e])
  }

  /** The eviction of the oldest key before a set; an empty oldest key is falsy and stays. */
  function Evicted<V>(s: Store<V>): Store<V> {
    if |s.order| >= MAX_ENTRIES && s.order[0].text != "" then Delete(s, s.order[0]) else s
  }

  function AfterSet<V>(s: Store<V>, key: Key, value: V, now: int, ttlMs: int): Store<V> {
    Put(Evicted(s), key, Entry(value, now + ttlMs))
  }

  function AfterGet<V>(s: Store<V>, key: Key, now: int): Store<V> {
    if key in s.entries && now > s.entries[key].expiresAt then Delete(s, key) else s
  }

  function Found<V>(s: Store<V>, key: Key, now: int): Option<V> {
    if key in s.entries && now <= s.entries[key].expiresAt then Some(s.entries[key].value) else None
  }

  class Cache<V> {
    var order: seq<Key>
    var entries: map<Key, Entry<V>>
    const ttlMs: int

    ghost function View(): Store<V>
      reads this
    {
      Store(order, entries)
    }

    constructor (ttlMs: int)
      ensures View() == Empty() && this.ttlMs == ttlMs
    {
      order, entries := [], map[];
      this.ttlMs := ttlMs;
    }

    method Get(key: Key, now: int) returns (value: Option<V>)
      modifies this
      ensures value == Found(old(View()), key, now)
      ensures View() == AfterGet(old(View()), key, now)
    {
      if key !in entries {
        return None;
      }
      var entry := entries[key];
      if now > entry.expiresAt {
        order, entries := Without(order, key), entries - {key};
        return None;
      }
      return Some(entry.value);
    }

    method Set(key: Key, value: V, now: int)
      requires Valid(View())
      modifies this
      ensures View() == AfterSet(old(View()), key, value, now, ttlMs)
      ensures Valid(View())
    {
      SetValid(View(), key, value, now, ttlMs);
      if |order| >= MAX_ENTRIES {
        var oldest := order[0];
        if oldest.text != "" {
          order, entries := Without(order, oldest), entries - {oldest};
        }
      }
      if key !in entries {
        order := order + [key];
      }
      entries := entries[key := Entry(value, now + ttlMs)];
    }

    method Has(key: Key, now: int) returns (present: bool)
      modifies this
      ensures present <==> Found(old(View()), key, now).Some?
      ensures View() == AfterGet(old(View()), key, now)
    {
      var value := Get(key, now);
      present := value.Some?;
    }
  }

  // --- The Map stays well formed ----------------------------------------------

  lemma {:induction false} DeleteValid<V>(s: Store<V>, key: Key)
    requires Valid(s)
    ensures Valid(Delete(s, key))
    ensures |Delete(s, key).order| == if key in s.entries then |s.order| - 1 else |s.order|
  {
    WithoutNoDup(s.order, key);
    assert key in Elements(s.order) <==> key in s.order;
    assert Elements(Without(s.order, key)) == s.entries.Keys - {key};
  }

  lemma {:induction false} PutValid<V>(s: Store<V>, key: Key, e: Entry<V>)
    requires Valid(s)
    ensures Valid(Put(s, key, e))
  {
    if key !in s.entries {
      assert key !in Elements(s.order);
      AppendNoDup(s.order, key);
    }
  }

  lemma {:induction false} SetValid<V>(s: Store<V>, key: Key, value: V, now: int, ttlMs: int)
    requires Valid(s)
    ensures Valid(Evicted(s)) && Valid(AfterSet(s, key, value, now, ttlMs))
  {
    if |s.order| >= MAX_ENTRIES {
      DeleteValid(s, s.order[0]);
    }
    PutValid(Evicted(s), key, Entry(value, now + ttlMs));
  }

  // --- Runs --------------------------------------------------------------------

  datatype Op<V> = Set(key: Key, value: V, now: int) | Get(key: Key, now: int)

  function Step<V>(s: Store<V>, op: Op<V>, ttlMs: int): Store<V> {
    match op
    case Set(key, value, now) => AfterSet(s, key, value, now, ttlMs)
    case Get(key, now) => AfterGet(s, key, now)
  }

  ghost function Run<V>(s: Store<V>, ops: seq<Op<V>>, ttlMs: int): Store<V> {
    if ops == [] then s else Step(Run(s, ops[..|ops| - 1], ttlMs), ops[|ops| - 1], ttlMs)
  }

  lemma {:induction false} RunValid<V>(s: Store<V>, ops: seq<Op<V>>, ttlMs: int)
    requires Valid(s)
    ensures Valid(Run(s, ops, ttlMs))
  {
    if ops != [] {
      RunValid(s, ops[..|ops| - 1], ttlMs);
      StepValid(Run(s, ops[..|ops| - 1], ttlMs), ops[|ops| - 1], ttlMs);
    }
  }

  lemma {:induction false} StepValid<V>(s: Store<V>, op: Op<V>, ttlMs: int)
    requires Valid(s)
    ensures Valid(Step(s, op, ttlMs))
  {
    match op {
      case Set(key, value, now) => SetValid(s, key, value, now, ttlMs);
      case Get(key, now) => DeleteValid(s, key);
    }
  }

  /** A read takes away its own key and no other, and that exactly when its time to live is over; what is
    left keeps its order. */
  lemma {:induction false} ReadDeletesIff<V>(ops: seq<Op<V>>, ttlMs: int, key: Key, now: int, other: Key)
    requires key in Run(Empty(), ops, ttlMs).entries
    ensures var s := Run(Empty(), ops, ttlMs);
      var t, last := AfterGet(s, key, now), LastSet(ops, key);
      && last.Some? && last.value.Set?
      && (key in t.entries <==> now <= last.value.now + ttlMs)
      && (key in t.entries ==> t == s)
      && (other != key ==> (other in t.entries <==> other in s.entries))
      && (other != key && other in s.entries ==> t.entries[other] == s.entries[other])
      && t.order == if now <= last.value.now + ttlMs then s.order else Without(s.order, key)
  {
    EntriesAreLast(ops, ttlMs, key);
  }

  // --- The bound -----------------------------------------------------------------

  ghost predicate KeysNonEmpty<V>(ops: seq<Op<V>>) {
    forall i :: 0 <= i < |ops| ==> ops[i].key.text != ""
  }

  ghost predicate Bounded<V>(s: Store<V>) {
    && Valid(s) && |s.order| <= MAX_ENTRIES
    && forall i :: 0 <= i < |s.order| ==> s.order[i].text != ""
  }

  lemma {:induction false} StepBounded<V>(s: Store<V>, op: Op<V>, ttlMs: int)
    requires Bounded(s) && op.key.text != ""
    ensures Bounded(Step(s, op, ttlMs))
  {
    StepValid(s, op, ttlMs);
    var t := Step(s, op, ttlMs);
    assert forall k :: k in s.order ==> k.text != "";
    if op.Set? && |s.order| >= MAX_ENTRIES {
      DeleteValid(s, s.order[0]);
    } else if op.Get? {
      DeleteValid(s, op.key);
    }
    assert forall k :: k in t.order ==> k in s.order || k == op.key;
  }

  /** With non-empty keys no run stores more than 2048 entries. */
  lemma {:induction false} SizeBound<V>(ops: seq<Op<V>>, ttlMs: int)
    requires KeysNonEmpty(ops)
    ensures Bounded(Run(Empty(), ops, ttlMs)) && |Run(Empty(), ops, ttlMs).order| <= 2048
  {
    if ops != [] {
      SizeBound(ops[..|ops| - 1], ttlMs);
      StepBounded(Run(Empty(), ops[..|ops| - 1], ttlMs), ops[|ops| - 1], ttlMs);
    }
  }

  /** Not so when the oldest key is empty: it blocks eviction, and every new key grows the Map. */
  lemma EmptyKeyBlocksEviction<V>(s: Store<V>, key: Key, value: V, now: int, ttlMs: int)
    requires s.order != [] && s.order[0].text == "" && key !in s.entries
    ensures var t := AfterSet(s, key, value, now, ttlMs);
      |t.order| == |s.order| + 1 && t.order[0].text == ""
  {
  }

  /** A set takes a Map that keeps its bound past it if and only if the Map is full, its oldest key is
    empty, and the key is new. */
  lemma {:induction false} GrowsPastBoundIff<V>(s: Store<V>, key: Key, value: V, now: int, ttlMs: int)
    requires Valid(s) && |s.order| <= MAX_ENTRIES
    ensures |AfterSet(s, key, value, now, ttlMs).order| > MAX_ENTRIES
      <==> |s.order| == MAX_ENTRIES && s.order[0].text == "" && key !in s.entries
  {
    if |s.order| == MAX_ENTRIES {
      DeleteValid(s, s.order[0]);
      assert s.order[0] in Elements(s.order);
    }
  }

  // --- Reads agree with the log of sets -------------------------------------------

  /** The last set of the key in the log. */
  ghost function LastSet<V>(ops: seq<Op<V>>, key: Key): Option<Op<V>>
  {
    if ops == [] then None
    else if ops[|ops| - 1].Set? && ops[|ops| - 1].key == key then Some(ops[|ops| - 1])
    else LastSet(ops[..|ops| - 1], key)
  }

  /** Every stored entry is the last set of its key. */
  lemma {:induction false} EntriesAreLast<V>(ops: seq<Op<V>>, ttlMs: int, key: Key)
    requires key in Run(Empty(), ops, ttlMs).entries
    ensures var last := LastSet(ops, key);
      && last.Some? && last.value.Set?
      && Run(Empty(), ops, ttlMs).entries[key] == Entry(last.value.value, last.value.now + ttlMs)
  {
    var last := ops[|ops| - 1];
    if !(last.Set? && last.key == key) {
      EntriesAreLast(ops[..|ops| - 1], ttlMs, key);
    }
  }

  /** A value that is read is the last one set for the key, and no older than the time to live. */
  lemma {:induction false} ReadsLastSet<V>(ops: seq<Op<V>>, ttlMs: int, key: Key, now: int)
    requires Found(Run(Empty(), ops, ttlMs), key, now).Some?
    ensures var last := LastSet(ops, key);
      && last.Some? && last.value.Set?
      && Found(Run(Empty(), ops, ttlMs), key, now) == Some(last.value.value)
      && now <= last.value.now + ttlMs
  {
    EntriesAreLast(ops, ttlMs, key);
  }

  // --- How long a key stays ----------------------------------------------------------

  /** How many keys are older than `key`. */
  ghost function Older(order: seq<Key>, key: Key): (n: nat)
    requires key in order
    ensures n < |order| && order[n] == key
  {
    if order[0] == key then 0 else 1 + Older(order[1..], key)
  }

  /** The sets that `key` is sure to survive: room left, and older keys to evict first. */
  ghost function Slack<V>(s: Store<V>, key: Key): int
    requires Valid(s) && key in s.entries
  {
    assert key in Elements(s.order);
    MAX_ENTRIES - |s.order| + Older(s.order, key)
  }

  lemma {:induction false} OlderWithout(order: seq<Key>, x: Key, key: Key)
    requires key in order && key != x
    ensures key in Without(order, x)
    ensures Older(Without(order, x), key) - |Without(order, x)| >= Older(order, key) - |order|
    ensures |Without(order, x)| <= |order|
  {
    if order[0] == key {
      WithoutShorter(order[1..], x);
    } else {
      OlderWithout(order[1..], x, key);
    }
  }

  lemma {:induction false} WithoutShorter(order: seq<Key>, x: Key)
    ensures |Without(order, x)| <= |order|
  {
    if order != [] {
      WithoutShorter(order[1..], x);
    }
  }

  lemma {:induction false} OlderAppend(order: seq<Key>, x: Key, key: Key)
    requires key in order
    ensures Older(order + [x], key) == Older(order, key)
  {
    assert (order + [x])[0] == order[0];
    if order[0] != key {
      assert (order + [x])[1..] == order[1..] + [x];
      OlderAppend(order[1..], x, key);
    }
  }

  lemma {:induction false} DeleteSlack<V>(s: Store<V>, x: Key, key: Key)
    requires Valid(s) && key in s.entries && key != x
    ensures Valid(Delete(s, x)) && key in Delete(s, x).entries
    ensures Slack(Delete(s, x), key) >= Slack(s, key)
    ensures Delete(s, x).entries[key] == s.entries[key]
  {
    DeleteValid(s, x);
    assert key in Elements(s.order);
    OlderWithout(s.order, x, key);
  }

  lemma {:induction false} PutSlack<V>(s: Store<V>, x: Key, e: Entry<V>, key: Key)
    requires Valid(s) && key in s.entries
    ensures Valid(Put(s, x, e)) && key in Put(s, x, e).entries
    ensures Slack(Put(s, x, e), key) >= Slack(s, key) - 1
    ensures Put(s, x, e).entries[key] == if x == key then e else s.entries[key]
  {
    PutValid(s, x, e);
    assert key in Elements(s.order);
    OlderAppend(s.order, x, key);
  }

  function SetsIn<V>(ops: seq<Op<V>>): nat {
    if ops == [] then 0 else SetsIn(ops[..|ops| - 1]) + if ops[|ops| - 1].Set? then 1 else 0
  }

  lemma {:induction false} NotOldest<V>(s: Store<V>, key: Key)
    requires Bounded(s) && key in s.entries && |s.order| >= MAX_ENTRIES && Slack(s, key) >= 1
    ensures s.order[0] != key
  {
    assert key in Elements(s.order);
  }

  lemma BoundedValid<V>(s: Store<V>)
    requires Bounded(s)
    ensures Valid(s)
  {
  }

  lemma {:induction false} SlackOfNewest<V>(order: seq<Key>, t: Store<V>, key: Key)
    requires Valid(t) && t.order == order + [key] && key !in order && key in t.entries
    ensures Slack(t, key) == MAX_ENTRIES - 1
  {
    NewestIsLast(order, key);
  }

  /** One operation costs a key at most one unit of slack, and only expiry removes it before. */
  lemma {:induction false} StepSlack<V>(s: Store<V>, op: Op<V>, ttlMs: int, key: Key, deadline: int)
    requires Bounded(s) && key in s.entries && deadline <= s.entries[key].expiresAt
    requires Slack(s, key) >= if op.Set? then 1 else 0
    requires deadline - ttlMs <= op.now <= deadline
    ensures var t := Step(s, op, ttlMs);
      && Valid(t) && key in t.entries && deadline <= t.entries[key].expiresAt
      && Slack(t, key) >= Slack(s, key) - if op.Set? then 1 else 0
  {
    hide Slack;
    match op {
      case Set(x, value, now) =>
        SetValid(s, x, value, now, ttlMs);
        if |s.order| >= MAX_ENTRIES {
          NotOldest(s, key);
          DeleteSlack(s, s.order[0], key);
        }
        PutSlack(Evicted(s), x, Entry(value, now + ttlMs), key);
      case Get(x, now) =>
        if x != key {
          DeleteSlack(s, x, key);
        }
    }
  }

  lemma {:induction false} Survives<V>(s: Store<V>, ops: seq<Op<V>>, ttlMs: int, key: Key, deadline: int)
    requires Bounded(s) && key in s.entries && deadline <= s.entries[key].expiresAt
    requires Slack(s, key) >= SetsIn(ops) && KeysNonEmpty(ops)
    requires forall i :: 0 <= i < |ops| ==> deadline - ttlMs <= ops[i].now <= deadline
    ensures var t := Run(s, ops, ttlMs);
      && Bounded(t) && key in t.entries && deadline <= t.entries[key].expiresAt
      && Slack(t, key) >= Slack(s, key) - SetsIn(ops)
  {
    hide Slack, Bounded, Step;
    if ops != [] {
      var before := Run(s, ops[..|ops| - 1], ttlMs);
      Survives(s, ops[..|ops| - 1], ttlMs, key, deadline);
      BoundedValid(before);
      StepSlack(before, ops[|ops| - 1], ttlMs, key, deadline);
      StepBounded(before, ops[|ops| - 1], ttlMs);
    }
  }

  /** A key that was absent when it was set is readable until its time to live ends,
    through any operations with at most 2047 sets among them. */
  lemma {:induction false} KeptThroughSets<V>(before: seq<Op<V>>, key: Key, value: V, now: int,
                                              after: seq<Op<V>>, ttlMs: nat)
    requires KeysNonEmpty(before) && KeysNonEmpty(after) && key.text != ""
    requires key !in Run(Empty(), before, ttlMs).entries
    requires SetsIn(after) <= 2047
    requires forall i :: 0 <= i < |after| ==> now <= after[i].now <= now + ttlMs
    ensures var s := Step(Run(Empty(), before, ttlMs), Set(key, value, now), ttlMs);
      Found(Run(s, after, ttlMs), key, now + ttlMs).Some?
  {
    hide Run, Slack;
    SizeBound(before, ttlMs);
    var s := Run(Empty(), before, ttlMs);
    var t := Step(s, Set(key, value, now), ttlMs);
    StepBounded(s, Set(key, value, now), ttlMs);
    if |s.order| >= MAX_ENTRIES {
      DeleteValid(s, s.order[0]);
    }
    assert key !in Elements(s.order);
    SlackOfNewest(Evicted(s).order, t, key);
    Survives(t, after, ttlMs, key, now + ttlMs);
  }

  lemma {:induction false} HeadDeleted(order: seq<Key>)
    requires NoDup(order) && order != []
    ensures Without(order, order[0]) == order[1..]
  {
    WithoutAbsent(order[1..], order[0]);
  }

  /** A set of a new key costs exactly one unit of slack, and the key itself when there is none. */
  lemma {:induction false} NewKeySlack<V>(s: Store<V>, x: Key, value: V, now: int, ttlMs: int, key: Key)
    requires Bounded(s) && key in s.entries && x !in s.entries
    ensures var t := AfterSet(s, x, value, now, ttlMs);
      if Slack(s, key) == 0 then key !in t.entries
      else Valid(t) && key in t.entries && Slack(t, key) == Slack(s, key) - 1
  {
    SetValid(s, x, value, now, ttlMs);
    assert key in Elements(s.order);
    if |s.order| == MAX_ENTRIES {
      HeadDeleted(s.order);
      if s.order[0] != key {
        OlderAppend(s.order[1..], x, key);
      }
    } else {
      OlderAppend(s.order, x, key);
    }
  }

  /** Sets of keys that are all new. */
  ghost predicate NewKeys<V>(s: Store<V>, ops: seq<Op<V>>) {
    && (forall i :: 0 <= i < |ops| ==> ops[i].Set? && ops[i].key.text != "" && ops[i].key !in s.entries)
    && (forall i, j :: 0 <= i < j < |ops| ==> ops[i].key != ops[j].key)
  }

  lemma {:induction false} KeysFrom<V>(s: Store<V>, ops: seq<Op<V>>, ttlMs: int, x: Key)
    requires x !in s.entries && forall i :: 0 <= i < |ops| ==> ops[i].key != x
    ensures x !in Run(s, ops, ttlMs).entries
  {
    if ops != [] {
      KeysFrom(s, ops[..|ops| - 1], ttlMs, x);
    }
  }

  /** The slack is exact: through sets of new keys a key stays if and only if they are no more than its slack. */
  lemma {:induction false} StaysIff<V>(s: Store<V>, ops: seq<Op<V>>, ttlMs: int, key: Key)
    requires Bounded(s) && key in s.entries && NewKeys(s, ops)
    ensures Bounded(Run(s, ops, ttlMs))
    ensures key in Run(s, ops, ttlMs).entries <==> |ops| <= Slack(s, key)
    ensures |ops| <= Slack(s, key) ==> Slack(Run(s, ops, ttlMs), key) == Slack(s, key) - |ops|
  {
    hide Slack, Bounded, AfterSet;
    SlackIsNat(s, key);
    if ops != [] {
      var n := |ops| - 1;
      var t, op := Run(s, ops[..n], ttlMs), ops[n];
      StaysIff(s, ops[..n], ttlMs, key);
      StepBounded(t, op, ttlMs);
      KeysFrom(s, ops[..n], ttlMs, op.key);
      BoundedValid(t);
      BoundedValid(Run(s, ops, ttlMs));
      if key in t.entries {
        NewKeySlack(t, op.key, op.value, op.now, ttlMs, key);
      } else {
        StaysOut(t, op, ttlMs, key);
      }
    }
  }

  lemma {:induction false} SlackIsNat<V>(s: Store<V>, key: Key)
    requires Bounded(s) && key in s.entries
    ensures Valid(s) && Slack(s, key) >= 0
  {
  }

  lemma {:induction false} StaysOut<V>(s: Store<V>, op: Op<V>, ttlMs: int, key: Key)
    requires key !in s.entries && op.key != key
    ensures key !in Step(s, op, ttlMs).entries
  {
  }

  lemma {:induction false} NewestIsLast(order: seq<Key>, key: Key)
    requires key !in order
    ensures Older(order + [key], key) == |order|
  {
    if order != [] {
      assert (order + [key])[1..] == order[1..] + [key];
      NewestIsLast(order[1..], key);
    }
  }

  /** Setting a key again does not move it: the refreshed oldest key of a cache with room for one more
    is evicted by the second new key after it. */
  lemma {:induction false} RefreshedKeyEvicted<V>(s: Store<V>, key: Key, x: Key, y: Key, value: V, now: int, ttlMs: int)
    requires Bounded(s) && |s.order| == MAX_ENTRIES - 1 && s.order[0] == key
    requires x !in s.entries && y !in s.entries && x != y
    ensures key !in Run(s, [Set(key, value, now), Set(x, value, now), Set(y, value, now)], ttlMs).entries
  {
    var ops: seq<Op<V>> := [Set(key, value, now), Set(x, value, now), Set(y, value, now)];
    assert ops[..2][..1] == ops[..1] && ops[..1][..0] == [];
    assert Run(s, [], ttlMs) == s;
    var a := Run(s, ops[..1], ttlMs);
    assert key in Elements(s.order);
    assert a.order == s.order;
    var b := Run(s, ops[..2], ttlMs);
    assert b.order == s.order + [x];
  }

  function Nth(i: nat): (k: Key)
    ensures |k.text| == i + 1
  {
    Key(seq(i + 1, j => 'k'))
  }

  ghost function Fill<V>(n: nat, value: V): (ops: seq<Op<V>>)
    ensures |ops| == n
  {
    if n == 0 then [] else Fill(n - 1, value) + [Set(Nth(n - 1), value, 0)]
  }

  lemma {:induction false} Filled<V>(n: nat, value: V, ttlMs: int)
    requires n <= MAX_ENTRIES
    ensures KeysNonEmpty(Fill(n, value))
    ensures var s := Run(Empty(), Fill(n, value), ttlMs);
      |s.order| == n && forall i :: 0 <= i < n ==> s.order[i] == Nth(i)
  {
    if n > 0 {
      Filled(n - 1, value, ttlMs);
      var ops := Fill(n, value);
      assert ops[..n - 1] == Fill(n - 1, value);
      RunValid(Empty(), Fill(n - 1, value), ttlMs);
      var s := Run(Empty(), Fill(n - 1, value), ttlMs);
      forall i | 0 <= i < |s.order| ensures |s.order[i].text| <= n - 1 {
      }
      assert Nth(n - 1) !in s.order;
      assert Nth(n - 1) !in Elements(s.order);
    }
  }

  /** So it happens in a run from the empty cache, milliseconds after the key was set again. */
  lemma {:induction false} RefreshIsNotKept<V>(value: V, ttlMs: int)
    ensures var s := Run(Empty(), Fill(MAX_ENTRIES - 1, value), ttlMs);
      Nth(0) !in Run(s, [Set(Nth(0), value, 1), Set(Nth(4000), value, 1), Set(Nth(4001), value, 1)], ttlMs).entries
  {
    hide Run, Fill;
    var s := Run(Empty(), Fill(MAX_ENTRIES - 1, value), ttlMs);
    Filled(MAX_ENTRIES - 1, value, ttlMs);
    SizeBound(Fill(MAX_ENTRIES - 1, value), ttlMs);
    assert forall k :: k in Elements(s.order) ==> |k.text| < MAX_ENTRIES;
    RefreshedKeyEvicted(s, Nth(0), Nth(4000), Nth(4001), value, 1, ttlMs);
  }
}
