/** Several flushers on one outbox. A delete goes by row id, and ids are reused, so a flusher that is late
  with its delete may take away a row that is not the one it sent. */
module Flushers {
  import opened Common
  import opened Outbox

  /** The table and the flushers' common history, and where each flusher is. */
  datatype Crowd = Crowd(w: World, flushers: seq<Flusher>)

  /** The world as flusher `k` sees it. */
  function Seen(c: Crowd, k: nat): World
    requires k < |c.flushers|
  {
    c.w.(flusher := c.flushers[k])
  }

  predicate CanStep(c: Crowd, k: nat, l: Label) {
    k < |c.flushers| && Enabled(Seen(c, k), l)
  }

  function Stepped(good: nat -> bool, c: Crowd, k: nat, l: Label): Crowd
    requires CanStep(c, k, l)
  {
    var v := Next(good, Seen(c, k), l);
    Crowd(v.(flusher := Absent), c.flushers[k := v.flusher])
  }

  ghost predicate IsCrowdRun(good: nat -> bool, cs: seq<Crowd>, ks: seq<nat>, ls: seq<Label>) {
    && |cs| == |ks| + 1 == |ls| + 1
    && cs[0].w == Empty && (forall k :: 0 <= k < |cs[0].flushers| ==> cs[0].flushers[k].Absent?)
    && forall i :: 0 <= i < |ls| ==> CanStep(cs[i], ks[i], ls[i]) && cs[i + 1] == Stepped(good, cs[i], ks[i], ls[i])
  }

  /** Flusher `k` deletes the row it has in hand. */
  predicate Deletes(good: nat -> bool, c: Crowd, k: nat, l: Label)
    requires CanStep(c, k, l)
  {
    (l.Settle? && l.ok) || (l.DropUnparseable? && l.ok && !good(c.flushers[k].row.payload))
  }

  /** What it takes away is push `n`, under the id of a row that is not push `n`. */
  ghost predicate StaleDelete(good: nat -> bool, c: Crowd, k: nat, l: Label, n: nat) {
    && CanStep(c, k, l) && Deletes(good, c, k, l) && c.flushers[k].row.payload != n
    && exists i :: 0 <= i < |c.w.rows| && c.w.rows[i].id == c.flushers[k].row.id && c.w.rows[i].payload == n
  }

  // --- What every step keeps ------------------------------------------------------

  ghost predicate RowsOrdered(w: World) {
    && InIdOrder(w.rows)
    && (forall i, j :: 0 <= i < j < |w.rows| ==> w.rows[i].payload < w.rows[j].payload)
    && (forall i :: 0 <= i < |w.rows| ==> w.rows[i].payload < w.pushes)
  }

  /** A flusher that acts on an answer has had it recorded, and sends only what parses. */
  ghost predicate Honest(good: nat -> bool, w: World, f: Flusher) {
    Justified(good, w.(flusher := f))
  }

  ghost predicate CrowdSound(good: nat -> bool, c: Crowd) {
    RowsOrdered(c.w) && forall k :: 0 <= k < |c.flushers| ==> Honest(good, c.w, c.flushers[k])
  }

  /** Push `n` is in the table, under an id that `other` allows. */
  predicate Holds(rows: seq<Row<nat>>, n: nat, other: nat -> bool) {
    rows != [] && ((rows[0].payload == n && other(rows[0].id)) || Holds(rows[1..], n, other))
  }

  lemma {:induction false} HoldsIff(rows: seq<Row<nat>>, n: nat, other: nat -> bool)
    ensures Holds(rows, n, other) <==> exists i :: 0 <= i < |rows| && rows[i].payload == n && other(rows[i].id)
  {
    if rows != [] {
      var rest := rows[1..];
      HoldsIff(rest, n, other);
      if Holds(rest, n, other) {
        var i :| 0 <= i < |rest| && rest[i].payload == n && other(rest[i].id);
        assert rows[i + 1].payload == n && other(rows[i + 1].id);
      }
      if i :| 0 <= i < |rows| && rows[i].payload == n && other(rows[i].id) {
        if i > 0 {
          assert rest[i - 1].payload == n && other(rest[i - 1].id);
        }
      }
    }
  }

  /** A delete leaves exactly the pushes that stand under another id. */
  lemma {:induction false} DeletedHolds(rows: seq<Row<nat>>, id: nat, n: nat)
    ensures Holds(Deleted(rows, id), n, x => true) <==> Holds(rows, n, x => x != id)
  {
    if rows != [] {
      DeletedHolds(rows[1..], id, n);
      var kept := Deleted(rows, id);
      assert rows[0].id != id ==> kept[1..] == Deleted(rows[1..], id);
      assert rows[0].id == id ==> kept == Deleted(rows[1..], id);
    }
  }

  lemma {:induction false} LiveHolds(w: World, n: nat)
    ensures Live(w, n) <==> Holds(w.rows, n, x => true)
  {
    HoldsIff(w.rows, n, x => true);
  }

  ghost predicate Increasing(rows: seq<Row<nat>>, low: int, high: nat) {
    && (forall i, j :: 0 <= i < j < |rows| ==> rows[i].payload < rows[j].payload)
    && (forall i :: 0 <= i < |rows| ==> low < rows[i].payload < high)
  }

  lemma {:induction false} DeletedPayloads(rows: seq<Row<nat>>, id: nat, low: int, high: nat)
    requires Increasing(rows, low, high)
    ensures Increasing(Deleted(rows, id), low, high)
  {
    hide Deleted;
    if rows == [] {
      DeletedHead(rows, id);
    } else {
      var rest := Deleted(rows[1..], id);
      DeletedPayloads(rows[1..], id, rows[0].payload, high);
      DeletedHead(rows, id);
      assert forall i :: 0 <= i < |rest| ==> rows[0].payload < rest[i].payload;
    }
  }

  lemma {:induction false} DeletedHead(rows: seq<Row<nat>>, id: nat)
    ensures rows == [] ==> Deleted(rows, id) == []
    ensures rows != [] ==> Deleted(rows, id) == (if rows[0].id == id then [] else [rows[0]]) + Deleted(rows[1..], id)
  {
  }

  lemma {:induction false} DeleteOrdered(w: World, id: nat)
    requires RowsOrdered(w)
    ensures RowsOrdered(w.(rows := Deleted(w.rows, id)))
  {
    hide Deleted;
    DeletedInOrder(w.rows, id, 0);
    DeletedPayloads(w.rows, id, -1, w.pushes);
  }

  /** Only a delete shortens the table; every other statement keeps its ids and payloads, and may add one. */
  lemma {:induction false} OtherSteps(good: nat -> bool, c: Crowd, k: nat, l: Label)
    requires CanStep(c, k, l) && !Deletes(good, c, k, l)
    ensures var v := Stepped(good, c, k, l).w;
      && |c.w.rows| <= |v.rows|
      && (forall i :: 0 <= i < |c.w.rows| ==> v.rows[i].id == c.w.rows[i].id && v.rows[i].payload == c.w.rows[i].payload)
      && (if l.Push? then v.rows == Inserted(c.w.rows, c.w.pushes) && v.pushes == c.w.pushes + 1
          else |v.rows| == |c.w.rows| && v.pushes == c.w.pushes)
  {
    hide Deleted, Retried;
  }

  lemma {:induction false} DeleteStep(good: nat -> bool, c: Crowd, k: nat, l: Label)
    requires CanStep(c, k, l) && Deletes(good, c, k, l)
    ensures var v := Stepped(good, c, k, l).w;
      v == c.w.(rows := Deleted(c.w.rows, c.flushers[k].row.id), flusher := Absent)
  {
    hide Deleted, Retried;
  }

  lemma {:induction false} StepRows(good: nat -> bool, c: Crowd, k: nat, l: Label)
    requires RowsOrdered(c.w) && CanStep(c, k, l)
    ensures RowsOrdered(Stepped(good, c, k, l).w)
  {
    hide Stepped, Deleted, Inserted;
    if Deletes(good, c, k, l) {
      DeleteStep(good, c, k, l);
      DeleteOrdered(c.w, c.flushers[k].row.id);
    } else {
      OtherSteps(good, c, k, l);
      if l.Push? {
        InsertedRows(c.w);
      }
    }
  }

  lemma {:induction false} InsertedRows(w: World)
    requires RowsOrdered(w)
    ensures RowsOrdered(w.(rows := Inserted(w.rows, w.pushes), pushes := w.pushes + 1))
  {
    assert InIdOrder(Inserted(w.rows, w.pushes));
    hide InIdOrder;
  }

  lemma {:induction false} StepHonest(good: nat -> bool, c: Crowd, k: nat, l: Label, j: nat)
    requires CanStep(c, k, l) && j < |c.flushers|
    requires Honest(good, c.w, c.flushers[j]) && Honest(good, c.w, c.flushers[k])
    ensures Honest(good, Stepped(good, c, k, l).w, Stepped(good, c, k, l).flushers[j])
  {
    hide Deleted, Retried, Inserted;
  }

  lemma {:induction false} StepCrowd(good: nat -> bool, c: Crowd, k: nat, l: Label)
    requires CrowdSound(good, c) && CanStep(c, k, l)
    ensures CrowdSound(good, Stepped(good, c, k, l))
  {
    StepRows(good, c, k, l);
    forall j | 0 <= j < |c.flushers|
      ensures Honest(good, Stepped(good, c, k, l).w, Stepped(good, c, k, l).flushers[j])
    {
      StepHonest(good, c, k, l, j);
    }
    hide Honest, RowsOrdered, Next;
  }

  // --- Which pushes are lost ----------------------------------------------------------

  /** Push `n` has left the table without an acknowledgement, a refusal, or being unparseable. */
  ghost predicate Lost(good: nat -> bool, w: World, n: nat) {
    n < w.pushes && !Live(w, n) && n !in w.acked && n !in w.refused && good(n)
  }

  /** A push that leaves the table is accounted for, or taken by a stale delete. */
  lemma {:induction false} LeavesAccounted(good: nat -> bool, c: Crowd, k: nat, l: Label, n: nat)
    requires CrowdSound(good, c) && CanStep(c, k, l) && n < c.w.pushes && Live(c.w, n)
    requires Lost(good, Stepped(good, c, k, l).w, n)
    ensures StaleDelete(good, c, k, l, n)
  {
    var v := Stepped(good, c, k, l).w;
    assert Honest(good, c.w, c.flushers[k]);
    hide Stepped, Deleted, Deletes;
    if Deletes(good, c, k, l) {
      DeleteStep(good, c, k, l);
      DeletedHolds(c.w.rows, c.flushers[k].row.id, n);
      LiveHolds(v, n);
      HoldsIff(c.w.rows, n, x => x != c.flushers[k].row.id);
      OwnDelete(good, c, k, l);
    } else {
      OthersKeep(good, c, k, l, n);
    }
  }

  lemma {:induction false} OthersKeep(good: nat -> bool, c: Crowd, k: nat, l: Label, n: nat)
    requires CanStep(c, k, l) && !Deletes(good, c, k, l) && Live(c.w, n)
    ensures Live(Stepped(good, c, k, l).w, n)
  {
    hide Stepped, Deletes;
    OtherSteps(good, c, k, l);
    var i :| 0 <= i < |c.w.rows| && c.w.rows[i].payload == n;
    assert Stepped(good, c, k, l).w.rows[i].payload == n;
  }

  /** A flusher that deletes has had its own push answered, or found it unparseable. */
  lemma {:induction false} OwnDelete(good: nat -> bool, c: Crowd, k: nat, l: Label)
    requires CanStep(c, k, l) && Deletes(good, c, k, l) && Honest(good, c.w, c.flushers[k])
    ensures var n := c.flushers[k].row.payload;
      n in c.w.acked || n in c.w.refused || !good(n)
  {
  }

  /** What has left the table never comes back: pushes are numbered anew. */
  lemma {:induction false} StaysGone(good: nat -> bool, c: Crowd, k: nat, l: Label, n: nat)
    requires CrowdSound(good, c) && CanStep(c, k, l) && n < c.w.pushes && !Live(c.w, n)
    ensures !Live(Stepped(good, c, k, l).w, n) && n < Stepped(good, c, k, l).w.pushes
  {
    var v := Stepped(good, c, k, l).w;
    hide Stepped, Deleted, Deletes, CrowdSound;
    if Deletes(good, c, k, l) {
      DeleteStep(good, c, k, l);
      DeletedHolds(c.w.rows, c.flushers[k].row.id, n);
      LiveHolds(v, n);
      HoldsIff(c.w.rows, n, x => x != c.flushers[k].row.id);
    } else {
      OtherSteps(good, c, k, l);
      forall i | 0 <= i < |v.rows|
        ensures v.rows[i].payload != n
      {
        assert i < |c.w.rows| ==> c.w.rows[i].payload != n;
      }
    }
  }

  /** A stale delete does take the push away. */
  lemma {:induction false} StaleTakes(good: nat -> bool, c: Crowd, k: nat, l: Label, n: nat)
    requires CrowdSound(good, c) && StaleDelete(good, c, k, l, n)
    ensures !Live(Stepped(good, c, k, l).w, n) && n < Stepped(good, c, k, l).w.pushes
  {
    var v, id := Stepped(good, c, k, l).w, c.flushers[k].row.id;
    hide Stepped, Deleted, Deletes;
    DeleteStep(good, c, k, l);
    DeletedHolds(c.w.rows, id, n);
    LiveHolds(v, n);
    HoldsIff(c.w.rows, n, x => x != id);
    var i :| 0 <= i < |c.w.rows| && c.w.rows[i].id == id && c.w.rows[i].payload == n;
    forall j | 0 <= j < |c.w.rows| && c.w.rows[j].payload == n
      ensures j == i
    {
      assert c.w.rows[if i < j then i else j].payload < c.w.rows[if i < j then j else i].payload || i == j;
    }
  }

  /** One step: what is lost after it was lost before, or is taken by it; what was gone stays gone. */
  lemma {:induction false} LostStep(good: nat -> bool, c: Crowd, k: nat, l: Label, n: nat)
    requires CrowdSound(good, c) && CanStep(c, k, l)
    ensures var v := Stepped(good, c, k, l).w;
      && (Lost(good, v, n) ==> Lost(good, c.w, n) || StaleDelete(good, c, k, l, n))
      && (n < c.w.pushes && !Live(c.w, n) ==> n < v.pushes && !Live(v, n))
      && (StaleDelete(good, c, k, l, n) ==> n < v.pushes && !Live(v, n))
  {
    var v := Stepped(good, c, k, l).w;
    hide Live, CrowdSound, StaleDelete;
    AnswersStay(good, c, k, l);
    if Lost(good, v, n) {
      PushIsLive(good, c, k, l, n);
      if Live(c.w, n) && n < c.w.pushes {
        LeavesAccounted(good, c, k, l, n);
      }
    }
    if n < c.w.pushes && !Live(c.w, n) {
      StaysGone(good, c, k, l, n);
    }
    if StaleDelete(good, c, k, l, n) {
      StaleTakes(good, c, k, l, n);
    }
  }

  lemma {:induction false} AnswersStay(good: nat -> bool, c: Crowd, k: nat, l: Label)
    requires CanStep(c, k, l)
    ensures var v := Stepped(good, c, k, l).w;
      (forall n :: n in c.w.acked ==> n in v.acked) && c.w.refused <= v.refused
  {
    hide Deleted, Retried, Inserted;
  }

  lemma {:induction false} PushIsLive(good: nat -> bool, c: Crowd, k: nat, l: Label, n: nat)
    requires CanStep(c, k, l) && n < Stepped(good, c, k, l).w.pushes
    ensures n < c.w.pushes || Live(Stepped(good, c, k, l).w, n)
  {
    hide Deleted, Retried;
    if l.Push? {
      assert Stepped(good, c, k, l).w.rows[|c.w.rows|].payload == c.w.pushes;
    }
  }

  lemma {:induction false} CrowdReachable(good: nat -> bool, cs: seq<Crowd>, ks: seq<nat>, ls: seq<Label>, i: nat)
    requires IsCrowdRun(good, cs, ks, ls) && i < |cs|
    ensures CrowdSound(good, cs[i])
  {
    if i > 0 {
      CrowdReachable(good, cs, ks, ls, i - 1);
      StepCrowd(good, cs[i - 1], ks[i - 1], ls[i - 1]);
      hide CrowdSound, Stepped;
    }
  }

  ghost predicate Taken(good: nat -> bool, cs: seq<Crowd>, ks: seq<nat>, ls: seq<Label>, i: nat, n: nat)
    requires i < |cs| && |cs| == |ks| + 1 == |ls| + 1
  {
    exists m :: 0 <= m < i && StaleDelete(good, cs[m], ks[m], ls[m], n)
  }

  /** With any number of flushers a push is lost if and only if a flusher deleted it by the id of another
    push that it had in hand, and no answer to the lost push itself has been recorded. */
  lemma {:induction false} LostIffTaken(good: nat -> bool, cs: seq<Crowd>, ks: seq<nat>, ls: seq<Label>, i: nat, n: nat)
    requires IsCrowdRun(good, cs, ks, ls) && i < |cs|
    ensures Taken(good, cs, ks, ls, i, n) ==> n < cs[i].w.pushes && !Live(cs[i].w, n)
    ensures Lost(good, cs[i].w, n) <==>
      Taken(good, cs, ks, ls, i, n) && n !in cs[i].w.acked && n !in cs[i].w.refused && good(n)
  {
    hide CrowdSound, Stepped, StaleDelete, Live;
    if i > 0 {
      LostIffTaken(good, cs, ks, ls, i - 1, n);
      CrowdReachable(good, cs, ks, ls, i - 1);
      LostStep(good, cs[i - 1], ks[i - 1], ls[i - 1], n);
      assert Taken(good, cs, ks, ls, i, n) <==>
        Taken(good, cs, ks, ls, i - 1, n) || StaleDelete(good, cs[i - 1], ks[i - 1], ls[i - 1], n);
    }
  }

  // --- A run that loses one -------------------------------------------------------------

  const OLD := Row(1, 0, 0, None)
  const NEW := Row(1, 1, 0, None)

  /** Both flushers send push 0 under id 1; the first deletes it, push 1 reuses the id, and the second
    one's delete takes push 1 away. */
  function LossCrowd(k: nat): Crowd {
    match k
    case 0 => Crowd(Empty, [Absent, Absent])
    case 1 => Crowd(World([OLD], 1, Absent, [], {}), [Absent, Absent])
    case 2 => Crowd(World([OLD], 1, Absent, [], {}), [Ready, Absent])
    case 3 => Crowd(World([OLD], 1, Absent, [], {}), [Ready, Ready])
    case 4 => Crowd(World([OLD], 1, Absent, [], {}), [Holding(OLD), Ready])
    case 5 => Crowd(World([OLD], 1, Absent, [], {}), [Holding(OLD), Holding(OLD)])
    case 6 => Crowd(World([OLD], 1, Absent, [], {}), [Sending(OLD), Holding(OLD)])
    case 7 => Crowd(World([OLD], 1, Absent, [], {}), [Sending(OLD), Sending(OLD)])
    case 8 => Crowd(World([OLD], 1, Absent, [0], {}), [Answered(OLD, 200), Sending(OLD)])
    case 9 => Crowd(World([OLD], 1, Absent, [0, 0], {}), [Answered(OLD, 200), Answered(OLD, 200)])
    case 10 => Crowd(World([], 1, Absent, [0, 0], {}), [Ready, Answered(OLD, 200)])
    case 11 => Crowd(World([NEW], 2, Absent, [0, 0], {}), [Ready, Answered(OLD, 200)])
    case _ => Crowd(World([], 2, Absent, [0, 0], {}), [Ready, Ready])
  }

  function LossFlusher(k: nat): nat {
    if k in {2, 4, 6, 8, 11} then 1 else 0
  }

  function LossLabel(k: nat): Label {
    if k == 0 || k == 10 then Push
    else if k < 3 then Start
    else if k < 5 then Read(true)
    else if k < 7 then Parse
    else if k < 9 then Respond(200)
    else Settle(true)
  }

  lemma {:induction false} OneRow(r: Row<nat>, n: nat)
    ensures Deleted([r], r.id) == []
    ensures Inserted([], n) == [Row(1, n, 0, None)]
  {
    assert [r][1..] == [];
  }

  lemma {:induction false} LossStep(good: nat -> bool, k: nat)
    requires k < 12 && good(0)
    ensures CanStep(LossCrowd(k), LossFlusher(k), LossLabel(k))
    ensures Stepped(good, LossCrowd(k), LossFlusher(k), LossLabel(k)) == LossCrowd(k + 1)
  {
    hide Deleted, Inserted, Retried;
    OneRow(OLD, 0);
    OneRow(NEW, 1);
    var a, b := Stepped(good, LossCrowd(k), LossFlusher(k), LossLabel(k)), LossCrowd(k + 1);
    assert a.flushers[0] == b.flushers[0] && a.flushers[1] == b.flushers[1];
    assert a.w == b.w;
  }

  /** The run itself: two flushers, one push acknowledged twice, and the other lost though it parses. */
  lemma {:induction false} TwoFlushersLoseARow(good: nat -> bool)
    requires good(0) && good(1)
    ensures exists cs: seq<Crowd>, ks: seq<nat>, ls: seq<Label> ::
              IsCrowdRun(good, cs, ks, ls) && |cs[0].flushers| == 2 && Lost(good, cs[|cs| - 1].w, 1)
  {
    var cs := seq(13, i requires 0 <= i => LossCrowd(i));
    var ks, ls := seq(12, i requires 0 <= i => LossFlusher(i)), seq(12, i requires 0 <= i => LossLabel(i));
    forall i | 0 <= i < |ls|
      ensures CanStep(cs[i], ks[i], ls[i]) && cs[i + 1] == Stepped(good, cs[i], ks[i], ls[i])
    {
      LossStep(good, i);
    }
    hide CanStep, Stepped;
    assert IsCrowdRun(good, cs, ks, ls);
  }
}
