/** The telemetry outbox of packages/cli/src/buffer.ts: a SQLite table drained in order by one
  flusher, with any number of pushers and a crash possible between any two statements.
  The table is kept in rowid order, as SQLite keeps it. */
module Outbox {
  import opened Common

  datatype Row<P> = Row(id: nat, payload: P, attempts: nat, lastError: Option<string>)

  // --- The statements -------------------------------------------------------

  /** Ids are positive and increase along the table. */
  ghost predicate InIdOrder<P>(rows: seq<Row<P>>) {
    && (forall i :: 0 <= i < |rows| ==> rows[i].id >= 1)
    && (forall i, j :: 0 <= i < j < |rows| ==> rows[i].id < rows[j].id)
  }

  /** INTEGER PRIMARY KEY without AUTOINCREMENT: one more than the largest live id. */
  function NewId<P>(rows: seq<Row<P>>): (id: nat)
    ensures InIdOrder(rows) ==> id >= 1 && forall r :: r in rows ==> r.id < id
  {
    if rows == [] then 1 else rows[|rows| - 1].id + 1
  }

  function Inserted<P>(rows: seq<Row<P>>, payload: P): (r: seq<Row<P>>)
    ensures InIdOrder(rows) ==> InIdOrder(r)
  {
    rows + [Row(NewId(rows), payload, 0, None)]
  }

  function Deleted<P>(rows: seq<Row<P>>, id: nat): seq<Row<P>> {
    if rows == [] then []
    else (if rows[0].id == id then [] else [rows[0]]) + Deleted(rows[1..], id)
  }

  function Retried<P>(rows: seq<Row<P>>, id: nat, error: string): (r: seq<Row<P>>)
    ensures |r| == |rows|
    ensures forall i :: 0 <= i < |rows| ==> r[i].id == rows[i].id && r[i].payload == rows[i].payload
    ensures forall i :: 0 <= i < |rows| ==> r[i].attempts == rows[i].attempts + if rows[i].id == id then 1 else 0
    ensures forall i :: 0 <= i < |rows| ==> r[i].lastError == if rows[i].id == id then Some(error) else rows[i].lastError
  {
    if rows == [] then []
    else
      [if rows[0].id == id then rows[0].(attempts := rows[0].attempts + 1, lastError := Some(error)) else rows[0]]
      + Retried(rows[1..], id, error)
  }

  lemma {:induction false} DeleteAbsent<P>(rows: seq<Row<P>>, id: nat)
    requires forall r :: r in rows ==> r.id != id
    ensures Deleted(rows, id) == rows
  {
    if rows != [] {
      DeleteAbsent(rows[1..], id);
    }
  }

  /** Deleting the oldest row by its id removes that row and nothing else. */
  lemma {:induction false} DeleteOldest<P>(rows: seq<Row<P>>)
    requires rows != [] && InIdOrder(rows)
    ensures Deleted(rows, rows[0].id) == rows[1..]
  {
    assert forall r :: r in rows[1..] ==> r.id != rows[0].id;
    DeleteAbsent(rows[1..], rows[0].id);
  }

  lemma {:induction false} OldestIsFirst<P>(rows: seq<Row<P>>, row: Row<P>)
    requires InIdOrder(rows) && row in rows && forall r :: r in rows ==> row.id <= r.id
    ensures row == rows[0]
  {
    var i :| 0 <= i < |rows| && rows[i] == row;
    assert rows[0] in rows;
  }

  lemma {:induction false} RetryAbsent<P>(rows: seq<Row<P>>, id: nat, error: string)
    requires forall r :: r in rows ==> r.id != id
    ensures Retried(rows, id, error) == rows
  {
    if rows != [] {
      RetryAbsent(rows[1..], id, error);
    }
  }

  // --- The class ------------------------------------------------------------

  datatype Payload = Payload(payloadType: string, json: string)

  /** How the control plane answers one upload; None is a network error or the 3 s abort. */
  type Reply = Option<nat>

  /** What a flush that nobody interrupts does to the table, and the statuses below 400 it saw. */
  datatype Drain = Drain(rows: seq<Row<Payload>>, acknowledged: seq<Payload>)

  function Drained(rows: seq<Row<Payload>>, parses: string -> bool, replies: seq<Reply>): Drain
    decreases |rows|
  {
    if rows == [] then Drain([], [])
    else if !parses(rows[0].payload.json) then Drained(rows[1..], parses, replies)
    else if replies == [] || replies[0].None? then Drain(Retried(rows, rows[0].id, "network"), [])
    else if replies[0].value >= 500 then Drain(Retried(rows, rows[0].id, "http"), [])
    else
      var rest := Drained(rows[1..], parses, replies[1..]);
      if replies[0].value < 400 then rest.(acknowledged := [rows[0].payload] + rest.acknowledged) else rest
  }

  /** `kept` is the end of the table; retries may have been counted. */
  ghost predicate EndOf(kept: seq<Row<Payload>>, rows: seq<Row<Payload>>) {
    && |kept| <= |rows|
    && forall i, j :: 0 <= i < |kept| && j == |rows| - |kept| + i ==>
         kept[i].id == rows[j].id && kept[i].payload == rows[j].payload
  }

  lemma {:induction false} EndOfLonger(kept: seq<Row<Payload>>, rows: seq<Row<Payload>>)
    requires rows != [] && EndOf(kept, rows[1..])
    ensures EndOf(kept, rows)
  {
    forall i, j | 0 <= i < |kept| && j == |rows| - |kept| + i
      ensures kept[i].id == rows[j].id && kept[i].payload == rows[j].payload
    {
      assert rows[1..][j - 1] == rows[j];
    }
  }

  /** A drain takes rows from the front only. */
  lemma {:induction false} DrainedEnd(rows: seq<Row<Payload>>, parses: string -> bool, replies: seq<Reply>)
    ensures EndOf(Drained(rows, parses, replies).rows, rows)
    decreases |rows|
  {
    hide Retried;
    if rows != [] {
      if !parses(rows[0].payload.json) {
        DrainedEnd(rows[1..], parses, replies);
        EndOfLonger(Drained(rows[1..], parses, replies).rows, rows);
      } else if replies != [] && replies[0].Some? && replies[0].value < 500 {
        DrainedEnd(rows[1..], parses, replies[1..]);
        EndOfLonger(Drained(rows[1..], parses, replies[1..]).rows, rows);
      }
    }
  }

  /** It takes them all if every reply comes and is below 500. */
  lemma {:induction false} DrainedAll(rows: seq<Row<Payload>>, parses: string -> bool, replies: seq<Reply>)
    requires |replies| >= |rows| && forall i :: 0 <= i < |replies| ==> replies[i].Some? && replies[i].value < 500
    ensures Drained(rows, parses, replies).rows == []
    decreases |rows|
  {
    hide Retried;
    if rows != [] {
      if parses(rows[0].payload.json) {
        DrainedAll(rows[1..], parses, replies[1..]);
      } else {
        DrainedAll(rows[1..], parses, replies);
      }
    }
  }

  /** How many of the first `n` rows are sent: those that parse. */
  function Sent(rows: seq<Row<Payload>>, parses: string -> bool, n: nat): (k: nat)
    requires n <= |rows|
    ensures k <= n
  {
    if n == 0 then 0 else Sent(rows, parses, n - 1) + if parses(rows[n - 1].payload.json) then 1 else 0
  }

  /** The reply to row `i`: rows that parse are answered in order; None is also a reply that never comes. */
  function ReplyTo(rows: seq<Row<Payload>>, parses: string -> bool, replies: seq<Reply>, i: nat): Reply
    requires i < |rows|
  {
    var k := Sent(rows, parses, i);
    if k < |replies| then replies[k] else None
  }

  /** The payloads among the first `n` rows that parse and are answered below 400, in order. */
  function Accepted(rows: seq<Row<Payload>>, parses: string -> bool, replies: seq<Reply>, n: nat): seq<Payload>
    requires n <= |rows|
  {
    if n == 0 then []
    else
      var reply := ReplyTo(rows, parses, replies, n - 1);
      Accepted(rows, parses, replies, n - 1)
      + if parses(rows[n - 1].payload.json) && reply.Some? && reply.value < 400 then [rows[n - 1].payload] else []
  }

  /** What follows the first row sees the replies that the first row leaves. */
  function Later(rows: seq<Row<Payload>>, parses: string -> bool, replies: seq<Reply>): seq<Reply>
    requires rows != []
  {
    if parses(rows[0].payload.json) && replies != [] then replies[1..] else replies
  }

  lemma {:induction false} SentShift(rows: seq<Row<Payload>>, parses: string -> bool, n: nat)
    requires n < |rows|
    ensures Sent(rows, parses, n + 1) == Sent(rows[1..], parses, n) + if parses(rows[0].payload.json) then 1 else 0
  {
    if n > 0 {
      SentShift(rows, parses, n - 1);
      assert rows[1..][n - 1] == rows[n];
    }
  }

  lemma {:induction false} ReplyShift(rows: seq<Row<Payload>>, parses: string -> bool, replies: seq<Reply>, i: nat)
    requires i + 1 < |rows|
    ensures ReplyTo(rows, parses, replies, i + 1) == ReplyTo(rows[1..], parses, Later(rows, parses, replies), i)
  {
    hide Sent;
    SentShift(rows, parses, i);
  }

  lemma {:induction false} AcceptedShift(
    rows: seq<Row<Payload>>, parses: string -> bool, replies: seq<Reply>, n: nat)
    requires n < |rows|
    ensures Accepted(rows, parses, replies, n + 1) ==
            Accepted(rows, parses, replies, 1) + Accepted(rows[1..], parses, Later(rows, parses, replies), n)
  {
    hide ReplyTo, Later;
    if n > 0 {
      AcceptedShift(rows, parses, replies, n - 1);
      ReplyShift(rows, parses, replies, n - 1);
      assert rows[1..][n - 1] == rows[n];
    }
  }

  /** The flush ends at row `n`: what is before it is gone, unparseable or answered below 500; row `n`, if
    there is one, parses, got no reply or one from 500 on, and has one attempt more. */
  ghost predicate EndsAt(
    rows: seq<Row<Payload>>, parses: string -> bool, replies: seq<Reply>, n: nat, kept: seq<Row<Payload>>)
  {
    && n <= |rows|
    && (forall i :: 0 <= i < n && parses(rows[i].payload.json) ==>
          && ReplyTo(rows, parses, replies, i).Some?
          && ReplyTo(rows, parses, replies, i).value < 500)
    && (n == |rows| ==> kept == [])
    && (n < |rows| ==>
          var reply := ReplyTo(rows, parses, replies, n);
          && parses(rows[n].payload.json) && (reply.None? || reply.value >= 500)
          && kept == [Row(rows[n].id, rows[n].payload, rows[n].attempts + 1,
                          Some(if reply.None? then "network" else "http"))] + rows[n + 1..])
  }

  lemma {:induction false} EndsLater(
    rows: seq<Row<Payload>>, parses: string -> bool, replies: seq<Reply>, n: nat, kept: seq<Row<Payload>>)
    requires rows != [] && EndsAt(rows[1..], parses, Later(rows, parses, replies), n, kept)
    requires parses(rows[0].payload.json) ==>
               ReplyTo(rows, parses, replies, 0).Some? && ReplyTo(rows, parses, replies, 0).value < 500
    ensures EndsAt(rows, parses, replies, n + 1, kept)
  {
    hide ReplyTo, Later;
    forall i | 0 <= i < n + 1 && parses(rows[i].payload.json)
      ensures ReplyTo(rows, parses, replies, i).Some? && ReplyTo(rows, parses, replies, i).value < 500
    {
      if i > 0 {
        ReplyShift(rows, parses, replies, i - 1);
        assert rows[1..][i - 1] == rows[i];
      }
    }
    if n + 1 < |rows| {
      ReplyShift(rows, parses, replies, n);
      assert rows[1..][n] == rows[n + 1] && rows[1..][n + 1..] == rows[n + 2..];
    }
  }

  /** What a flush does, row by row: exactly the rows before its end are gone, each for its own reason, and
    the acknowledged payloads are those answered below 400, in order. */
  lemma {:induction false} DrainedIs(rows: seq<Row<Payload>>, parses: string -> bool, replies: seq<Reply>)
    requires InIdOrder(rows)
    ensures var d := Drained(rows, parses, replies);
      && |d.rows| <= |rows|
      && EndsAt(rows, parses, replies, |rows| - |d.rows|, d.rows)
      && d.acknowledged == Accepted(rows, parses, replies, |rows| - |d.rows|)
    decreases |rows|
  {
    hide EndsAt, Accepted, Retried, ReplyTo;
    if rows == [] {
      NothingEnds(rows, parses, replies);
    } else {
      HeadReply(rows, parses, replies);
      var first := if replies == [] then None else replies[0];
      if parses(rows[0].payload.json) && (first.None? || first.value >= 500) {
        StopsAtHead(rows, parses, replies);
      } else {
        DrainedIs(rows[1..], parses, Later(rows, parses, replies));
        var d := Drained(rows[1..], parses, Later(rows, parses, replies));
        var n := |rows| - 1 - |d.rows|;
        EndsLater(rows, parses, replies, n, d.rows);
        AcceptedShift(rows, parses, replies, n);
      }
    }
  }

  lemma {:induction false} HeadReply(rows: seq<Row<Payload>>, parses: string -> bool, replies: seq<Reply>)
    requires rows != []
    ensures ReplyTo(rows, parses, replies, 0) == if replies == [] then None else replies[0]
    ensures var reply := ReplyTo(rows, parses, replies, 0);
            Accepted(rows, parses, replies, 1) ==
            if parses(rows[0].payload.json) && reply.Some? && reply.value < 400 then [rows[0].payload] else []
  {
  }

  lemma {:induction false} NothingEnds(rows: seq<Row<Payload>>, parses: string -> bool, replies: seq<Reply>)
    ensures rows == [] ==> EndsAt(rows, parses, replies, 0, [])
    ensures Accepted(rows, parses, replies, 0) == []
  {
  }

  lemma {:induction false} StopsAtHead(rows: seq<Row<Payload>>, parses: string -> bool, replies: seq<Reply>)
    requires rows != [] && InIdOrder(rows) && parses(rows[0].payload.json)
    requires ReplyTo(rows, parses, replies, 0).Some? ==> ReplyTo(rows, parses, replies, 0).value >= 500
    ensures var d := Drained(rows, parses, replies);
      && |d.rows| == |rows| && EndsAt(rows, parses, replies, 0, d.rows)
      && d.acknowledged == [] == Accepted(rows, parses, replies, 0)
  {
    RetryAbsent(rows[1..], rows[0].id, "network");
    RetryAbsent(rows[1..], rows[0].id, "http");
  }

  class TelemetryOutbox {
    var rows: seq<Row<Payload>>

    ghost predicate Valid() reads this { InIdOrder(rows) }

    constructor ()
      ensures Valid() && rows == []
    {
      rows := [];
    }

    method InsertRow(payload: Payload)
      requires Valid()
      modifies this
      ensures Valid() && rows == Inserted(old(rows), payload)
    {
      rows := rows + [Row(NewId(rows), payload, 0, None)];
    }

    /** A payload that cannot be serialised (None) and an insert that fails are reported, and nothing is
      stored; a type that is not given is "evidence". */
    method PushToBuffer(payloadType: Option<string>, json: Option<string>, inserts: bool) returns (stored: bool)
      requires Valid()
      modifies this
      ensures Valid() && (stored <==> json.Some? && inserts)
      ensures rows ==
              if stored then
                Inserted(old(rows), Payload(if payloadType.Some? then payloadType.value else "evidence", json.value))
              else old(rows)
    {
      if json.None? || !inserts {
        return false;
      }
      InsertRow(Payload(if payloadType.Some? then payloadType.value else "evidence", json.value));
      return true;
    }

    method ReadOldestOutboxRow() returns (row: Option<Row<Payload>>)
      requires Valid()
      ensures row.None? <==> rows == []
      ensures row.Some? ==> row.value in rows && forall r :: r in rows ==> row.value.id <= r.id
    {
      row := if rows == [] then None else Some(rows[0]);
    }

    method DeleteOutboxRow(id: nat)
      requires Valid()
      modifies this
      ensures Valid() && rows == Deleted(old(rows), id)
    {
      DeletedInOrder(rows, id, 0);
      rows := Deleted(rows, id);
    }

    method RecordRetry(id: nat, error: string)
      requires Valid()
      modifies this
      ensures Valid() && rows == Retried(old(rows), id, error)
    {
      rows := Retried(rows, id, error);
    }

    /** flushBuffer, when no other process touches the table meanwhile. */
    method FlushBuffer(parses: string -> bool, replies: seq<Reply>) returns (acknowledged: seq<Payload>)
      requires Valid()
      modifies this
      ensures Valid() && Drain(rows, acknowledged) == Drained(old(rows), parses, replies)
      ensures var n := |old(rows)| - |rows|;
        && n >= 0 && EndsAt(old(rows), parses, replies, n, rows)
        && acknowledged == Accepted(old(rows), parses, replies, n)
    {
      hide EndsAt, Accepted, Retried, Deleted, InIdOrder;
      DrainedIs(rows, parses, replies);
      acknowledged := [];
      var sent := 0;
      while true
        invariant Valid() && sent <= |replies|
        invariant var d := Drained(rows, parses, replies[sent..]);
                  d.(acknowledged := acknowledged + d.acknowledged) == Drained(old(rows), parses, replies)
        decreases |rows|
      {
        var row := ReadOldestOutboxRow();
        if row.None? {
          return;
        }
        DeleteOldest(rows);
        OldestIsFirst(rows, row.value);
        if !parses(row.value.payload.json) {
          DeleteOutboxRow(row.value.id);
          continue;
        }
        if sent == |replies| || replies[sent].None? {
          RecordRetry(row.value.id, "network");
          return;
        }
        var status := replies[sent].value;
        assert replies[sent..][1..] == replies[sent + 1..];
        if status < 400 {
          DeleteOutboxRow(row.value.id);
          acknowledged := acknowledged + [row.value.payload];
        } else if status < 500 {
          DeleteOutboxRow(row.value.id);
        } else {
          RecordRetry(row.value.id, "http");
          return;
        }
        sent := sent + 1;
      }
    }
  }

  /** DELETE keeps the table in id order, above any bound it was above. */
  lemma {:induction false} DeletedInOrder<P>(rows: seq<Row<P>>, id: nat, low: nat)
    requires InIdOrder(rows) && forall i :: 0 <= i < |rows| ==> rows[i].id > low
    ensures var kept := Deleted(rows, id);
            InIdOrder(kept) && forall i :: 0 <= i < |kept| ==> kept[i].id > low
  {
    if rows != [] {
      DeletedInOrder(rows[1..], id, rows[0].id);
      ConsInOrder(rows[0], Deleted(rows[1..], id), low);
    }
  }

  lemma {:induction false} ConsInOrder<P>(row: Row<P>, rows: seq<Row<P>>, low: nat)
    requires InIdOrder(rows) && row.id > low && forall i :: 0 <= i < |rows| ==> rows[i].id > row.id
    ensures InIdOrder([row] + rows) && forall i :: 0 <= i < |rows| + 1 ==> ([row] + rows)[i].id > low
  {
  }

  // --- The machine ----------------------------------------------------------

  /** Rows carry the number of the push that made them. */
  datatype Flusher =
    | Absent
    | Ready
    | Holding(row: Row<nat>)
    | Sending(row: Row<nat>)
    | Answered(row: Row<nat>, status: nat)
    | Broken(row: Row<nat>)

  /** `acked` lists the pushes answered below 400, in order of the answers; `refused` those
    answered 4xx. */
  datatype World = World(
    rows: seq<Row<nat>>, pushes: nat, flusher: Flusher, acked: seq<nat>, refused: set<nat>)

  const Empty := World([], 0, Absent, [], {})

  datatype Label =
    | Push
    | Start
    | Read(ok: bool)
    | Parse
    | DropUnparseable(ok: bool)
    | Respond(status: nat)
    | Disconnect
    | Settle(ok: bool)
    | Record(ok: bool, error: string)
    | Crash

  predicate Enabled(w: World, l: Label) {
    match l
    case Push => true
    case Crash => true
    case Start => w.flusher.Absent?
    case Read(_) => w.flusher.Ready?
    case Parse => w.flusher.Holding?
    case DropUnparseable(_) => w.flusher.Holding?
    case Respond(_) => w.flusher.Sending?
    case Disconnect => w.flusher.Sending?
    case Settle(_) => w.flusher.Answered? && w.flusher.status < 500
    case Record(_, _) => w.flusher.Broken? || (w.flusher.Answered? && w.flusher.status >= 500)
  }

  /** One statement. `good(n)` says that the payload of push n parses. */
  function Next(good: nat -> bool, w: World, l: Label): World
    requires Enabled(w, l)
  {
    match l
    case Push => w.(rows := Inserted(w.rows, w.pushes), pushes := w.pushes + 1)
    case Crash => w.(flusher := Absent)
    case Start => w.(flusher := Ready)
    case Read(ok) => w.(flusher := if !ok || w.rows == [] then Absent else Holding(w.rows[0]))
    case Parse => if good(w.flusher.row.payload) then w.(flusher := Sending(w.flusher.row)) else w
    case DropUnparseable(ok) =>
      if good(w.flusher.row.payload) then w
      else if ok then w.(rows := Deleted(w.rows, w.flusher.row.id), flusher := Ready)
      else w.(flusher := Absent)
    case Respond(status) =>
      var n := w.flusher.row.payload;
      w.(flusher := Answered(w.flusher.row, status),
         acked := if status < 400 then w.acked + [n] else w.acked,
         refused := if 400 <= status < 500 then w.refused + {n} else w.refused)
    case Disconnect => w.(flusher := Broken(w.flusher.row))
    case Settle(ok) =>
      if ok then w.(rows := Deleted(w.rows, w.flusher.row.id), flusher := Ready)
      else w.(flusher := Broken(w.flusher.row))
    case Record(ok, error) =>
      if ok then w.(rows := Retried(w.rows, w.flusher.row.id, error), flusher := Absent)
      else if w.flusher.Answered? then w.(flusher := Broken(w.flusher.row))
      else w.(flusher := Absent)
  }

  ghost predicate IsRun(good: nat -> bool, ws: seq<World>, ls: seq<Label>) {
    && |ws| == |ls| + 1 && ws[0] == Empty
    && forall i :: 0 <= i < |ls| ==> Enabled(ws[i], ls[i]) && ws[i + 1] == Next(good, ws[i], ls[i])
  }

  ghost predicate Live(w: World, n: nat) {
    exists i :: 0 <= i < |w.rows| && w.rows[i].payload == n
  }

  /** Every committed push is live, was acknowledged, was refused with a 4xx, or does not parse. */
  ghost predicate Conserved(good: nat -> bool, w: World) {
    forall n: nat :: n < w.pushes ==> Live(w, n) || n in w.acked || n in w.refused || !good(n)
  }

  ghost predicate Ordered(w: World) {
    && InIdOrder(w.rows)
    && (forall i, j :: 0 <= i < j < |w.rows| ==> w.rows[i].payload < w.rows[j].payload)
    && (forall i :: 0 <= i < |w.rows| ==> w.rows[i].payload < w.pushes)
    && (forall i, j :: 0 <= i < j < |w.acked| ==> w.acked[i] <= w.acked[j])
    && (forall i :: 0 <= i < |w.acked| ==> w.acked[i] < w.pushes && (w.rows != [] ==> w.acked[i] <= w.rows[0].payload))
  }

  /** The row the flusher has in hand is still the oldest one in the table, under the same id. */
  ghost predicate InHand(w: World) {
    w.flusher.Absent? || w.flusher.Ready? || (w.rows != [] && w.flusher.row == w.rows[0])
  }

  /** The flusher has seen the answer it is acting on, and sends only what parses. */
  ghost predicate Justified(good: nat -> bool, w: World) {
    && ((w.flusher.Sending? || w.flusher.Answered?) ==> good(w.flusher.row.payload))
    && (w.flusher.Answered? && w.flusher.status < 400 ==> w.flusher.row.payload in w.acked)
    && (w.flusher.Answered? && 400 <= w.flusher.status < 500 ==> w.flusher.row.payload in w.refused)
  }

  lemma {:induction false} PushOrdered(w: World)
    requires Ordered(w)
    ensures Ordered(w.(rows := Inserted(w.rows, w.pushes), pushes := w.pushes + 1))
  {
    assert InIdOrder(Inserted(w.rows, w.pushes));
    hide InIdOrder;
  }

  lemma {:induction false} TailOrdered(w: World)
    requires Ordered(w) && w.rows != []
    ensures Deleted(w.rows, w.rows[0].id) == w.rows[1..] && Ordered(w.(rows := w.rows[1..]))
  {
    DeleteOldest(w.rows);
  }

  lemma RetryOrdered(w: World, id: nat, error: string)
    requires Ordered(w)
    ensures Ordered(w.(rows := Retried(w.rows, id, error)))
  {
  }

  lemma {:induction false} AckOrdered(w: World)
    requires Ordered(w) && w.rows != []
    ensures Ordered(w.(acked := w.acked + [w.rows[0].payload]))
  {
    hide InIdOrder;
  }

  lemma {:induction false} StepInHand(good: nat -> bool, w: World, l: Label)
    requires InIdOrder(w.rows) && InHand(w) && Enabled(w, l)
    ensures InHand(Next(good, w, l))
  {
    hide Deleted, Retried;
  }

  /** The order does not depend on where the flusher is, or on what was refused. */
  lemma {:induction false} PlainOrdered(w: World, plain: World)
    requires Ordered(w) && plain == w.(flusher := plain.flusher, refused := plain.refused)
    ensures Ordered(plain)
  {
    hide InIdOrder;
  }

  lemma {:induction false} StepOrdered(good: nat -> bool, w: World, l: Label)
    requires Ordered(w) && InHand(w) && Enabled(w, l)
    ensures Ordered(Next(good, w, l))
  {
    hide Ordered, InIdOrder, Deleted, Retried, Inserted;
    var w' := Next(good, w, l);
    var plain := w.(flusher := w'.flusher, refused := w'.refused);
    PlainOrdered(w, plain);
    match l {
      case Push => PushOrdered(plain);
      case Respond(_) => AckOrdered(plain);
      case Settle(_) => TailOrdered(plain);
      case Record(_, error) => RetryOrdered(plain, w.flusher.row.id, error);
      case DropUnparseable(_) => TailOrdered(plain);
      case _ =>
    }
  }

  lemma {:induction false} StepJustified(good: nat -> bool, w: World, l: Label)
    requires Justified(good, w) && Enabled(w, l)
    ensures Justified(good, Next(good, w, l))
  {
    hide Deleted, Retried, Inserted;
  }

  /** A row goes only when it is the oldest one, and its push has been answered or does not parse. */
  lemma {:induction false} StepRows(good: nat -> bool, w: World, l: Label, i: nat)
    requires Ordered(w) && InHand(w) && Justified(good, w) && Enabled(w, l) && i < |w.rows|
    ensures var w', n := Next(good, w, l), w.rows[i].payload;
            Live(w', n) || n in w'.acked || n in w'.refused || !good(n)
  {
    hide Deleted, Retried, InIdOrder;
    DeleteOldest(w.rows);
    var w', n := Next(good, w, l), w.rows[i].payload;
    if w'.rows == w.rows[1..] {
      assert i == 0 || w'.rows[i - 1].payload == n;
    } else {
      assert w'.rows[i].payload == n;
    }
  }

  lemma {:induction false} StepConserved(good: nat -> bool, w: World, l: Label)
    requires Conserved(good, w) && Ordered(w) && InHand(w) && Justified(good, w) && Enabled(w, l)
    ensures Conserved(good, Next(good, w, l)) && Justified(good, Next(good, w, l))
  {
    hide Ordered, InHand, Justified, Deleted, Retried;
    StepJustified(good, w, l);
    var w' := Next(good, w, l);
    forall n: nat | n < w'.pushes
      ensures Live(w', n) || n in w'.acked || n in w'.refused || !good(n)
    {
      if n == w.pushes {
        assert w'.rows[|w.rows|].payload == n;
      } else if Live(w, n) {
        var i: nat :| i < |w.rows| && w.rows[i].payload == n;
        StepRows(good, w, l, i);
      }
    }
  }

  // --- Over all runs --------------------------------------------------------

  lemma {:induction false} Reachable(good: nat -> bool, ws: seq<World>, ls: seq<Label>, i: nat)
    requires IsRun(good, ws, ls) && i < |ws|
    ensures Ordered(ws[i]) && InHand(ws[i]) && Justified(good, ws[i]) && Conserved(good, ws[i])
  {
    if i > 0 {
      Reachable(good, ws, ls, i - 1);
      StepOrdered(good, ws[i - 1], ls[i - 1]);
      StepInHand(good, ws[i - 1], ls[i - 1]);
      StepConserved(good, ws[i - 1], ls[i - 1]);
      hide Next, Enabled, Ordered, InHand, Justified, Conserved;
    }
  }

  /** Nothing is lost: at every moment of every run each committed push is live, acknowledged,
    refused with a 4xx, or unparseable. */
  lemma {:induction false} ConservationTheorem(good: nat -> bool, ws: seq<World>, ls: seq<Label>, i: nat, n: nat)
    requires IsRun(good, ws, ls) && i < |ws| && n < ws[i].pushes
    ensures Live(ws[i], n) || n in ws[i].acked || n in ws[i].refused || !good(n)
  {
    Reachable(good, ws, ls, i);
  }

  /** Repeated acknowledgements of one push, which a crash before the delete causes, count once. */
  function Collapsed(s: seq<nat>): (r: seq<nat>)
    ensures s != [] ==> r != [] && r[|r| - 1] == s[|s| - 1]
    ensures s == [] ==> r == []
  {
    if s == [] then []
    else
      var init := Collapsed(s[..|s| - 1]);
      if |s| >= 2 && s[|s| - 2] == s[|s| - 1] then init else init + [s[|s| - 1]]
  }

  lemma {:induction false} CollapsedIncreases(s: seq<nat>)
    requires forall i, j :: 0 <= i < j < |s| ==> s[i] <= s[j]
    ensures forall i, j :: 0 <= i < j < |Collapsed(s)| ==> Collapsed(s)[i] < Collapsed(s)[j]
    ensures forall n :: n in Collapsed(s) <==> n in s
  {
    if s != [] {
      var m := |s| - 1;
      CollapsedIncreases(s[..m]);
      var init := Collapsed(s[..m]);
      assert s == s[..m] + [s[m]];
      if m > 0 {
        assert s[..m][m - 1] == s[m - 1];
        assert forall i :: 0 <= i < |init| ==> init[i] <= init[|init| - 1] == s[m - 1];
      }
    }
  }

  /** First in, first out: with resends collapsed, the acknowledged payloads appear in push order,
    and nothing acknowledged is newer than a row still waiting, although ids are reused. */
  lemma {:induction false} FifoTheorem(good: nat -> bool, ws: seq<World>, ls: seq<Label>, i: nat)
    requires IsRun(good, ws, ls) && i < |ws|
    ensures var sent := Collapsed(ws[i].acked);
            && (forall j, k :: 0 <= j < k < |sent| ==> sent[j] < sent[k])
            && (forall n :: n in sent <==> n in ws[i].acked)
    ensures forall k, n :: 0 <= k < |ws[i].rows| && n in ws[i].acked ==> n <= ws[i].rows[k].payload
    ensures forall j, k :: 0 <= j < k < |ws[i].rows| ==> ws[i].rows[j].payload < ws[i].rows[k].payload
  {
    Reachable(good, ws, ls, i);
    CollapsedIncreases(ws[i].acked);
  }
}
