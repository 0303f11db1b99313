/** migrateLegacyBuffer of packages/cli/src/buffer.ts: any number of processes move the legacy
  JSON files into the outbox, while others push and one flushes. Each step is one file-system
  call or one SQLite transaction; any process may crash between two of them. File names are
  represented by their rank in the order Array.prototype.sort gives them. */
module LegacyMigration {
  import opened Common
  import Outbox

  type Name = nat

  /** The directory as the first process finds it: files that parse with a payload, and others. */
  datatype Legacy = Legacy(readable: set<Name>, corrupt: set<Name>)

  datatype Step = Reading | Loaded | Bad | Stored

  datatype Proc =
    | Spawned
    | At(files: seq<Name>, i: nat, step: Step)
    | Ended(complete: bool)

  /** `origins[n]` says which legacy file push number n came from, if any; `failed` holds the readable
    files that some process failed to read, `dropped` those that it then unlinked. */
  datatype World = World(
    box: Outbox.World, origins: seq<Option<Name>>, disk: set<Name>, migrated: set<Name>, procs: seq<Proc>,
    failed: set<Name>, dropped: set<Name>)

  datatype Label =
    | Box(l: Outbox.Label)
    | Spawn
    | List(p: nat, files: seq<Name>)
    | ReadFile(p: nat)
    | ReadFails(p: nat)
    | Commit(p: nat)
    | CommitFails(p: nat)
    | Unlink(p: nat, ok: bool)
    | Finish(p: nat)
    | Crash(p: nat)

  ghost predicate Increasing(s: seq<Name>) {
    forall i, j :: 0 <= i < j < |s| ==> s[i] < s[j]
  }

  ghost predicate Enabled(w: World, l: Label) {
    match l
    case Box(b) => Outbox.Enabled(w.box, b)
    case Spawn => true
    case List(p, files) =>
      p < |w.procs| && w.procs[p].Spawned? && Increasing(files) && forall f :: f in files <==> f in w.disk
    case ReadFile(p) => p < |w.procs| && w.procs[p].At? && w.procs[p].step == Reading && w.procs[p].i < |w.procs[p].files|
    case ReadFails(p) => p < |w.procs| && w.procs[p].At? && w.procs[p].step == Reading && w.procs[p].i < |w.procs[p].files|
    case Commit(p) => p < |w.procs| && w.procs[p].At? && w.procs[p].step == Loaded && w.procs[p].i < |w.procs[p].files|
    case CommitFails(p) => p < |w.procs| && w.procs[p].At? && w.procs[p].step == Loaded
    case Unlink(p, _) =>
      && p < |w.procs| && w.procs[p].At? && w.procs[p].i < |w.procs[p].files|
      && (w.procs[p].step == Bad || w.procs[p].step == Stored)
    case Finish(p) => p < |w.procs| && w.procs[p].At? && w.procs[p].step == Reading && w.procs[p].i == |w.procs[p].files|
    case Crash(p) => p < |w.procs|
  }

  /** The transaction: insert the row and remember the name, unless the name is remembered already. */
  ghost function Committed(good: nat -> bool, w: World, f: Name): World {
    if f in w.migrated then w
    else
      w.(box := Outbox.Next(good, w.box, Outbox.Push), origins := w.origins + [Some(f)], migrated := w.migrated + {f})
  }

  ghost function Next(good: nat -> bool, d: Legacy, w: World, l: Label): World
    requires Enabled(w, l)
  {
    match l
    case Box(b) =>
      w.(box := Outbox.Next(good, w.box, b), origins := if b.Push? then w.origins + [None] else w.origins)
    case Spawn => w.(procs := w.procs + [Spawned])
    case List(p, files) => w.(procs := w.procs[p := At(files, 0, Reading)])
    case ReadFile(p) =>
      var f := w.procs[p].files[w.procs[p].i];
      w.(procs := w.procs[p := w.procs[p].(step := if f in w.disk && f in d.readable then Loaded else Bad)])
    case ReadFails(p) =>
      var f := w.procs[p].files[w.procs[p].i];
      w.(procs := w.procs[p := w.procs[p].(step := Bad)],
         failed := if f in d.readable then w.failed + {f} else w.failed)
    case Commit(p) =>
      var v := Committed(good, w, w.procs[p].files[w.procs[p].i]);
      v.(procs := w.procs[p := w.procs[p].(step := Stored)])
    case CommitFails(p) => w.(procs := w.procs[p := Ended(false)])
    case Unlink(p, ok) =>
      var f := w.procs[p].files[w.procs[p].i];
      w.(disk := if ok then w.disk - {f} else w.disk,
         dropped := if ok && w.procs[p].step == Bad && f in w.disk && f in d.readable then w.dropped + {f} else w.dropped,
         procs := w.procs[p := At(w.procs[p].files, w.procs[p].i + 1, Reading)])
    case Finish(p) => w.(procs := w.procs[p := Ended(true)])
    case Crash(p) => w.(procs := w.procs[p := Ended(false)])
  }

  ghost predicate IsRun(good: nat -> bool, d: Legacy, ws: seq<World>, ls: seq<Label>) {
    && |ws| == |ls| + 1
    && ws[0] == World(Outbox.Empty, [], d.readable + d.corrupt, {}, [], {}, {})
    && forall i :: 0 <= i < |ls| ==> Enabled(ws[i], ls[i]) && ws[i + 1] == Next(good, d, ws[i], ls[i])
  }

  // --- Invariants -----------------------------------------------------------

  /** Legacy rows appear once each, in file order but for files that failed to be read, exactly for the
    remembered names. */
  ghost predicate OriginsSound(w: World) {
    && |w.origins| == w.box.pushes
    && (forall i, j :: 0 <= i < j < |w.origins| && w.origins[i].Some? && w.origins[j].Some?
                       ==> w.origins[i].value != w.origins[j].value
                           && (w.origins[i].value < w.origins[j].value || w.origins[j].value in w.failed))
    && (forall i :: 0 <= i < |w.origins| && w.origins[i].Some? ==> w.origins[i].value in w.migrated)
    && (forall f :: f in w.migrated ==> Some(f) in w.origins)
  }

  /** Files are migrated in order, and a readable file leaves the disk only after its row is in,
    but for files that failed to be read. */
  ghost predicate FilesSound(d: Legacy, w: World) {
    && w.migrated <= d.readable && w.dropped <= w.failed <= d.readable
    && (forall f, g :: f in w.migrated && g in d.readable && g < f ==> g in w.migrated || g in w.failed)
    && (forall f :: f in d.readable ==> f in w.disk || f in w.migrated || f in w.dropped)
    && (forall f :: f in w.dropped ==> f !in w.disk)
  }

  /** Everything a process has gone past is migrated. */
  ghost predicate ProcSound(d: Legacy, w: World, p: Proc) {
    match p
    case Spawned => true
    case Ended(complete) => complete ==> d.readable <= w.migrated + w.failed
    case At(files, i, step) =>
      && i <= |files| && Increasing(files)
      && (forall f :: f in d.readable && f !in files ==> f in w.migrated || f in w.failed)
      && (forall k :: 0 <= k < i && files[k] in d.readable ==> files[k] in w.migrated || files[k] in w.failed)
      && (step == Loaded ==> i < |files| && files[i] in d.readable)
      && (step == Bad ==> i < |files| && (files[i] in d.readable ==> files[i] !in w.disk || files[i] in w.failed))
      && (step == Stored ==> i < |files| && files[i] in w.migrated)
  }

  ghost predicate ProcsSound(d: Legacy, w: World) {
    forall p :: 0 <= p < |w.procs| ==> ProcSound(d, w, w.procs[p])
  }

  ghost predicate BoxSound(good: nat -> bool, b: Outbox.World) {
    Outbox.Ordered(b) && Outbox.InHand(b) && Outbox.Justified(good, b) && Outbox.Conserved(good, b)
  }

  lemma {:induction false} BoxStep(good: nat -> bool, b: Outbox.World, l: Outbox.Label)
    requires BoxSound(good, b) && Outbox.Enabled(b, l)
    ensures BoxSound(good, Outbox.Next(good, b, l))
    ensures Outbox.Next(good, b, l).pushes == b.pushes + (if l.Push? then 1 else 0)
  {
    Outbox.StepOrdered(good, b, l);
    Outbox.StepInHand(good, b, l);
    Outbox.StepConserved(good, b, l);
    hide Outbox.Ordered, Outbox.InHand, Outbox.Justified, Outbox.Conserved;
  }

  /** When a process is about to insert the row of its current file, every smaller readable file is
    in already and no larger one is, but for files that failed to be read. */
  lemma {:induction false} CommitInOrder(d: Legacy, w: World, p: Proc)
    requires FilesSound(d, w) && ProcSound(d, w, p) && p.At? && p.step == Loaded
    requires p.files[p.i] !in w.migrated
    ensures forall g :: g in d.readable && g < p.files[p.i] ==> g in w.migrated || g in w.failed
    ensures forall g :: g in w.migrated ==> g < p.files[p.i] || p.files[p.i] in w.failed
  {
    var f := p.files[p.i];
    forall g | g in d.readable && g < f
      ensures g in w.migrated || g in w.failed
    {
      if g in p.files {
        var k :| 0 <= k < |p.files| && p.files[k] == g;
        assert k < p.i;
      }
    }
  }

  lemma {:induction false} StepCommit(good: nat -> bool, d: Legacy, w: World, p: nat)
    requires BoxSound(good, w.box) && OriginsSound(w) && FilesSound(d, w) && ProcsSound(d, w)
    requires p < |w.procs| && w.procs[p].At? && w.procs[p].step == Loaded
    ensures var v := Committed(good, w, w.procs[p].files[w.procs[p].i]);
            && OriginsSound(v) && FilesSound(d, v) && ProcsSound(d, v) && BoxSound(good, v.box)
            && w.procs[p].files[w.procs[p].i] in v.migrated && v.disk == w.disk && v.procs == w.procs
            && v.failed == w.failed && v.dropped == w.dropped
  {
    var f := w.procs[p].files[w.procs[p].i];
    assert ProcSound(d, w, w.procs[p]);
    if f !in w.migrated {
      CommitInOrder(d, w, w.procs[p]);
      BoxStep(good, w.box, Outbox.Push);
      var v := Committed(good, w, f);
      assert v.origins[|w.origins|] == Some(f);
      forall g | g in v.migrated
        ensures Some(g) in v.origins
      {
        if g != f {
          var i :| 0 <= i < |w.origins| && w.origins[i] == Some(g);
          assert v.origins[i] == Some(g);
        }
      }
      hide Outbox.Next, BoxSound;
    }
  }

  /** A process that moves on alone keeps the invariants if its own stays sound. */
  lemma {:induction false} StepWalk(good: nat -> bool, d: Legacy, w: World, l: Label)
    requires OriginsSound(w) && FilesSound(d, w) && ProcsSound(d, w) && Enabled(w, l)
    requires !l.Box? && !l.Commit?
    ensures var w' := Next(good, d, w, l);
            w'.box == w.box && w'.origins == w.origins && w'.migrated == w.migrated && w.failed <= w'.failed
            && FilesSound(d, w') && ProcsSound(d, w')
  {
    hide OriginsSound;
    if l.ReadFile? || l.ReadFails? || l.Unlink? || l.Finish? {
      assert ProcSound(d, w, w.procs[l.p]);
    }
    var w' := Next(good, d, w, l);
    forall p | 0 <= p < |w'.procs|
      ensures ProcSound(d, w', w'.procs[p])
    {
      assert p < |w.procs| ==> ProcSound(d, w, w.procs[p]);
    }
  }

  lemma {:induction false} StepSound(good: nat -> bool, d: Legacy, w: World, l: Label)
    requires BoxSound(good, w.box) && OriginsSound(w) && FilesSound(d, w) && ProcsSound(d, w) && Enabled(w, l)
    ensures var w' := Next(good, d, w, l);
            BoxSound(good, w'.box) && OriginsSound(w') && FilesSound(d, w') && ProcsSound(d, w')
  {
    hide Outbox.Next, BoxSound, Outbox.Enabled;
    match l {
      case Box(b) =>
        BoxStep(good, w.box, b);
        StepPush(good, d, w, b);
        hide OriginsSound;
      case Commit(p) =>
        StepCommit(good, d, w, p);
        StoredNow(good, d, w, p);
      case _ =>
        StepWalk(good, d, w, l);
        hide FilesSound, ProcsSound;
    }
  }

  lemma {:induction false} StoredNow(good: nat -> bool, d: Legacy, w: World, p: nat)
    requires Enabled(w, Commit(p)) && ProcsSound(d, w)
    requires var v := Committed(good, w, w.procs[p].files[w.procs[p].i]);
             && OriginsSound(v) && FilesSound(d, v) && ProcsSound(d, v) && BoxSound(good, v.box)
             && w.procs[p].files[w.procs[p].i] in v.migrated && v.procs == w.procs
    ensures var w' := Next(good, d, w, Commit(p));
            BoxSound(good, w'.box) && OriginsSound(w') && FilesSound(d, w') && ProcsSound(d, w')
  {
    var v := Committed(good, w, w.procs[p].files[w.procs[p].i]);
    hide Committed, BoxSound;
    var w' := Next(good, d, w, Commit(p));
    forall q | 0 <= q < |w'.procs|
      ensures ProcSound(d, w', w'.procs[q])
    {
      assert ProcSound(d, v, v.procs[q]);
    }
  }

  lemma {:induction false} StepPush(good: nat -> bool, d: Legacy, w: World, b: Outbox.Label)
    requires OriginsSound(w) && Outbox.Enabled(w.box, b)
    requires Outbox.Next(good, w.box, b).pushes == w.box.pushes + (if b.Push? then 1 else 0)
    ensures OriginsSound(Next(good, d, w, Box(b)))
  {
    hide Outbox.Next, Outbox.Enabled;
    var w' := Next(good, d, w, Box(b));
    forall g | g in w'.migrated
      ensures Some(g) in w'.origins
    {
      var i :| 0 <= i < |w.origins| && w.origins[i] == Some(g);
      assert w'.origins[i] == Some(g);
    }
  }

  lemma {:induction false} Reachable(good: nat -> bool, d: Legacy, ws: seq<World>, ls: seq<Label>, i: nat)
    requires IsRun(good, d, ws, ls) && i < |ws|
    ensures BoxSound(good, ws[i].box) && OriginsSound(ws[i]) && FilesSound(d, ws[i]) && ProcsSound(d, ws[i])
  {
    if i > 0 {
      Reachable(good, d, ws, ls, i - 1);
      StepSound(good, d, ws[i - 1], ls[i - 1]);
      hide Next, Enabled, BoxSound, OriginsSound, FilesSound, ProcsSound;
    }
  }

  /** Migration is at most once, and ordered but for files that failed to be read: no file has two rows,
    a row never follows the row of a larger file whose reading never failed, a readable file is off the
    disk without a row if and only if a process that failed to read it unlinked it and none that had
    read it before has committed it, and once any process has run to its end, every readable file has
    its row or failed to be read. */
  lemma {:induction false} ExactlyOnceTheorem(good: nat -> bool, d: Legacy, ws: seq<World>, ls: seq<Label>, i: nat)
    requires IsRun(good, d, ws, ls) && i < |ws|
    ensures forall m, n :: 0 <= m < n < |ws[i].origins| && ws[i].origins[m].Some? && ws[i].origins[n].Some?
                           ==> ws[i].origins[m].value != ws[i].origins[n].value
                               && (ws[i].origins[m].value < ws[i].origins[n].value || ws[i].origins[n].value in ws[i].failed)
    ensures forall f :: f in d.readable ==>
              (f !in ws[i].disk && Some(f) !in ws[i].origins <==> f in ws[i].dropped && Some(f) !in ws[i].origins)
    ensures (exists p :: 0 <= p < |ws[i].procs| && ws[i].procs[p] == Ended(true))
            ==> forall f :: f in d.readable ==> Some(f) in ws[i].origins || f in ws[i].failed
    ensures forall f :: Some(f) in ws[i].origins ==> f in d.readable
  {
    Reachable(good, d, ws, ls, i);
    if p :| 0 <= p < |ws[i].procs| && ws[i].procs[p] == Ended(true) {
      assert ProcSound(d, ws[i], ws[i].procs[p]);
    }
  }

  /** What `failed` and `dropped` record: a step in which a process fails to read the file, and a later one
    in which a process that did unlinks it while it is still there. */
  lemma {:induction false} RecordsAreSteps(good: nat -> bool, d: Legacy, ws: seq<World>, ls: seq<Label>, i: nat, f: Name)
    requires IsRun(good, d, ws, ls) && i < |ws|
    ensures f in ws[i].failed <==> exists k :: 0 <= k < i && FailsToRead(d, ws[k], ls[k], f)
    ensures f in ws[i].dropped <==> exists k :: 0 <= k < i && UnlinksUnread(d, ws[k], ls[k], f)
  {
    if i > 0 {
      RecordsAreSteps(good, d, ws, ls, i - 1, f);
      RecordStep(good, d, ws[i - 1], ls[i - 1], f);
      hide Next, Enabled, FailsToRead, UnlinksUnread;
    }
  }

  ghost predicate FailsToRead(d: Legacy, w: World, l: Label, f: Name) {
    l.ReadFails? && Enabled(w, l) && f in d.readable && w.procs[l.p].files[w.procs[l.p].i] == f
  }

  ghost predicate UnlinksUnread(d: Legacy, w: World, l: Label, f: Name) {
    l.Unlink? && l.ok && Enabled(w, l) && f in d.readable && f in w.disk
    && w.procs[l.p].step == Bad && w.procs[l.p].files[w.procs[l.p].i] == f
  }

  lemma {:induction false} RecordStep(good: nat -> bool, d: Legacy, w: World, l: Label, f: Name)
    requires Enabled(w, l)
    ensures f in Next(good, d, w, l).failed <==> f in w.failed || FailsToRead(d, w, l, f)
    ensures f in Next(good, d, w, l).dropped <==> f in w.dropped || UnlinksUnread(d, w, l, f)
  {
  }

  /** Where no readable file ever fails to be read, migration is exactly-once and in sorted order. */
  lemma {:induction false} ExactlyOnceWithoutFailures(
    good: nat -> bool, d: Legacy, ws: seq<World>, ls: seq<Label>, i: nat)
    requires IsRun(good, d, ws, ls) && i < |ws|
    requires forall k, f :: 0 <= k < i ==> !FailsToRead(d, ws[k], ls[k], f)
    ensures forall m, n :: 0 <= m < n < |ws[i].origins| && ws[i].origins[m].Some? && ws[i].origins[n].Some?
                           ==> ws[i].origins[m].value < ws[i].origins[n].value
    ensures forall f :: f in d.readable && f !in ws[i].disk ==> Some(f) in ws[i].origins
    ensures (exists p :: 0 <= p < |ws[i].procs| && ws[i].procs[p] == Ended(true))
            ==> forall f :: f in d.readable ==> Some(f) in ws[i].origins
  {
    hide Next, Enabled, FailsToRead, UnlinksUnread, IsRun;
    ExactlyOnceTheorem(good, d, ws, ls, i);
    forall f ensures f !in ws[i].failed {
      RecordsAreSteps(good, d, ws, ls, i, f);
    }
    Reachable(good, d, ws, ls, i);
  }

  function FailureWorld(k: nat): World {
    var files: seq<Name> := [0];
    match k
    case 0 => World(Outbox.Empty, [], {0}, {}, [], {}, {})
    case 1 => World(Outbox.Empty, [], {0}, {}, [Spawned], {}, {})
    case 2 => World(Outbox.Empty, [], {0}, {}, [At(files, 0, Reading)], {}, {})
    case 3 => World(Outbox.Empty, [], {0}, {}, [At(files, 0, Bad)], {0}, {})
    case _ => World(Outbox.Empty, [], {}, {}, [At(files, 1, Reading)], {0}, {0})
  }

  function FailureLabel(k: nat): Label {
    match k
    case 0 => Spawn
    case 1 => List(0, [0])
    case 2 => ReadFails(0)
    case _ => Unlink(0, true)
  }

  lemma {:induction false} FailureStep(good: nat -> bool, k: nat)
    requires k < 4
    ensures Enabled(FailureWorld(k), FailureLabel(k))
    ensures Next(good, Legacy({0}, {}), FailureWorld(k), FailureLabel(k)) == FailureWorld(k + 1)
  {
    var before: set<Name>, after: set<Name> := {0}, {};
    assert before - {0} == after;
  }

  /** The failure does lose a file: one process fails to read it and unlinks it, and there is no row. */
  lemma {:induction false} FailedReadLosesFile(good: nat -> bool)
    ensures exists ws: seq<World>, ls: seq<Label> :: IsRun(good, Legacy({0}, {}), ws, ls)
                             && ws[|ws| - 1].disk == {} && ws[|ws| - 1].origins == []
  {
    var ws, ls := seq(5, i requires 0 <= i => FailureWorld(i)), seq(4, i requires 0 <= i => FailureLabel(i));
    forall i | 0 <= i < |ls|
      ensures Enabled(ws[i], ls[i]) && ws[i + 1] == Next(good, Legacy({0}, {}), ws[i], ls[i])
    {
      FailureStep(good, i);
    }
    var one: set<Name> := {0};
    assert one + {} == one;
    hide Next, Enabled;
    assert IsRun(good, Legacy({0}, {}), ws, ls);
  }

  /** The row of a migrated file is then conserved like any other push. */
  lemma {:induction false} LegacyRowsConserved(good: nat -> bool, d: Legacy, ws: seq<World>, ls: seq<Label>, i: nat,
                                               f: Name)
    requires IsRun(good, d, ws, ls) && i < |ws| && f in d.readable && f !in ws[i].disk && f !in ws[i].dropped
    ensures exists n: nat :: n < |ws[i].origins| && ws[i].origins[n] == Some(f)
                        && (Outbox.Live(ws[i].box, n) || n in ws[i].box.acked || n in ws[i].box.refused || !good(n))
  {
    Reachable(good, d, ws, ls, i);
    assert f in ws[i].migrated && Some(f) in ws[i].origins;
    var n: nat :| n < |ws[i].origins| && ws[i].origins[n] == Some(f);
    assert n < ws[i].box.pushes;
  }

  // --- One process, undisturbed ---------------------------------------------

  type Rows = seq<Outbox.Row<Outbox.Payload>>

  /** The files with the payload each parses to (None: corrupt), the remembered names, and the table. */
  datatype Local = Local(rows: Rows, migrated: set<Name>, disk: map<Name, Option<string>>)

  predicate Readable(s: Local, f: Name) {
    f in s.disk && s.disk[f].Some?
  }

  function Remembered(s: Local, f: Name, json: string): Local {
    if f in s.migrated then s
    else s.(rows := Outbox.Inserted(s.rows, Outbox.Payload("evidence", json)), migrated := s.migrated + {f})
  }

  function Unlinked(s: Local, f: Name, ok: bool): Local {
    if ok then s.(disk := s.disk - {f}) else s
  }

  /** One file: its row is stored if it is readable, and it is unlinked, which may fail. */
  function Passed(s: Local, f: Name, unlinked: bool): Local {
    Unlinked(if Readable(s, f) then Remembered(s, f, s.disk[f].value) else s, f, unlinked)
  }

  /** The walk over the sorted files; the first transaction that fails ends it. */
  function Migrated(s: Local, files: seq<Name>, commits: Name -> bool, unlinks: Name -> bool): Local
    decreases |files|
  {
    if files == [] then s
    else
      var f := files[0];
      if Readable(s, f) && !commits(f) then s
      else Migrated(Passed(s, f, unlinks(f)), files[1..], commits, unlinks)
  }

  class LegacyBuffer {
    const outbox: Outbox.TelemetryOutbox
    var migrated: set<Name>
    var disk: map<Name, Option<string>>

    function View(): Local reads this, outbox {
      Local(outbox.rows, migrated, disk)
    }

    constructor (outbox: Outbox.TelemetryOutbox, disk: map<Name, Option<string>>)
      ensures this.outbox == outbox && View() == Local(outbox.rows, {}, disk)
    {
      this.outbox, migrated, this.disk := outbox, {}, disk;
    }

    method MigrateLegacyBuffer(files: seq<Name>, commits: Name -> bool, unlinks: Name -> bool)
      requires outbox.Valid()
      modifies this, outbox
      ensures outbox.Valid() && View() == Migrated(old(View()), files, commits, unlinks)
      ensures NoDup(files) ==>
        Leaves(old(View()), View(), files, commits, unlinks, Reach(old(View()), files, commits))
    {
      hide Leaves, Reach;
      if NoDup(files) {
        MigratedLeaves(View(), files, commits, unlinks);
      }
      for i := 0 to |files|
        invariant outbox.Valid()
        invariant Migrated(View(), files[i..], commits, unlinks) == Migrated(old(View()), files, commits, unlinks)
      {
        var f := files[i];
        assert files[i..][1..] == files[i + 1..];
        if f !in disk || disk[f].None? {
          if unlinks(f) {
            disk := disk - {f};
          }
          continue;
        }
        if !commits(f) {
          return;
        }
        if f !in migrated {
          outbox.InsertRow(Outbox.Payload("evidence", disk[f].value));
          migrated := migrated + {f};
        }
        if unlinks(f) {
          disk := disk - {f};
        }
      }
    }
  }

  /** How far the walk gets. */
  function Reach(s: Local, files: seq<Name>, commits: Name -> bool): (n: nat)
    ensures n <= |files|
    decreases |files|
  {
    if files == [] || (Readable(s, files[0]) && !commits(files[0])) then 0 else 1 + Reach(s, files[1..], commits)
  }

  function Payloads(rows: Rows): seq<Outbox.Payload> {
    seq(|rows|, i requires 0 <= i < |rows| => rows[i].payload)
  }

  /** The payloads of the readable files that are not remembered, in the order of the files. */
  function Due(s: Local, files: seq<Name>): seq<Outbox.Payload>
    decreases |files|
  {
    if files == [] then []
    else
      (if Readable(s, files[0]) && files[0] !in s.migrated
       then [Outbox.Payload("evidence", s.disk[files[0]].value)] else [])
      + Due(s, files[1..])
  }

  /** What is due in later files is not changed by migrating an earlier one. */
  lemma {:induction false} DueLater(s: Local, t: Local, f: Name, files: seq<Name>, commits: Name -> bool)
    requires f !in files
    requires forall g :: g != f ==> (g in s.migrated <==> g in t.migrated)
    requires forall g :: g != f ==> (g in s.disk <==> g in t.disk) && (g in s.disk ==> s.disk[g] == t.disk[g])
    ensures Due(s, files) == Due(t, files) && Reach(s, files, commits) == Reach(t, files, commits)
    decreases |files|
  {
    if files != [] {
      DueLater(s, t, f, files[1..], commits);
    }
  }

  lemma {:induction false} PassedEffect(s: Local, f: Name, unlinked: bool)
    ensures var t := Passed(s, f, unlinked);
      && Payloads(t.rows) == Payloads(s.rows) + Due(s, [f])
      && (forall g :: g in t.migrated <==> g in s.migrated || (g == f && Readable(s, f)))
      && (forall g :: g != f ==> (g in s.disk <==> g in t.disk) && (g in s.disk ==> s.disk[g] == t.disk[g]))
  {
    assert [f][1..] == [];
  }

  lemma DueNone(s: Local)
    ensures Due(s, []) == []
  {
  }

  lemma {:induction false} DueCons(s: Local, f: Name, rest: seq<Name>)
    ensures Due(s, [f] + rest) == Due(s, [f]) + Due(s, rest)
  {
    assert ([f] + rest)[1..] == rest && [f][1..] == [];
  }

  /** An undisturbed walk adds exactly the rows that are due in the files it gets past, in their order. */
  lemma {:induction false} MigratedRows(s: Local, files: seq<Name>, commits: Name -> bool, unlinks: Name -> bool)
    requires NoDup(files)
    ensures var t, n := Migrated(s, files, commits, unlinks), Reach(s, files, commits);
      && Payloads(t.rows) == Payloads(s.rows) + Due(s, files[..n])
      && (forall f :: f in t.migrated <==> f in s.migrated || (f in files[..n] && Readable(s, f)))
    decreases |files|
  {
    hide Passed, Due, Payloads;
    var n := Reach(s, files, commits);
    if n == 0 {
      DueNone(s);
      assert files[..0] == [];
    } else {
      var f, rest := files[0], files[1..];
      var t := Passed(s, f, unlinks(f));
      PassedEffect(s, f, unlinks(f));
      assert f !in rest;
      DueLater(s, t, f, rest, commits);
      DueLater(s, t, f, rest[..n - 1], commits);
      MigratedRows(t, rest, commits, unlinks);
      assert files[..n] == [f] + rest[..n - 1];
      DueCons(s, f, rest[..n - 1]);
    }
  }

  /** What a walk leaves behind. It gets past `n` files, all readable ones of them stored, and stops only at
    a readable file whose transaction fails. Off the disk are exactly those of the `n` files that could
    be unlinked, the others are as they were; so no readable file is lost, and the one at which the walk
    stops is still there. */
  ghost predicate Leaves(
    s: Local, t: Local, files: seq<Name>, commits: Name -> bool, unlinks: Name -> bool, n: nat)
  {
    && n <= |files|
    && (forall i :: 0 <= i < n && Readable(s, files[i]) ==> commits(files[i]))
    && (n < |files| ==> Readable(s, files[n]) && !commits(files[n]) && files[n] in t.disk)
    && (forall g :: g in t.disk <==> g in s.disk && !(g in files[..n] && unlinks(g)))
    && (forall g :: g in t.disk ==> t.disk[g] == s.disk[g])
    && (forall g :: g in s.disk && s.disk[g].Some? ==> g in t.disk || g in t.migrated)
    && (forall g :: g in t.migrated <==> g in s.migrated || (g in files[..n] && Readable(s, g)))
    && s.rows <= t.rows && Payloads(t.rows) == Payloads(s.rows) + Due(s, files[..n])
  }

  lemma {:induction false} MigratedLeaves(s: Local, files: seq<Name>, commits: Name -> bool, unlinks: Name -> bool)
    requires NoDup(files)
    ensures Leaves(s, Migrated(s, files, commits, unlinks), files, commits, unlinks, Reach(s, files, commits))
  {
    hide Due, Payloads, Migrated, Reach;
    MigratedRows(s, files, commits, unlinks);
    MigratedDisk(s, files, commits, unlinks);
  }

  lemma {:induction false} PassedDisk(s: Local, f: Name, unlinked: bool)
    ensures var t := Passed(s, f, unlinked);
      && (forall g :: g in t.disk <==> g in s.disk && !(g == f && unlinked))
      && (forall g :: g in t.disk ==> t.disk[g] == s.disk[g])
      && s.rows <= t.rows
  {
  }

  lemma {:induction false} MigratedDisk(s: Local, files: seq<Name>, commits: Name -> bool, unlinks: Name -> bool)
    requires NoDup(files)
    ensures var t, n := Migrated(s, files, commits, unlinks), Reach(s, files, commits);
      && (forall i :: 0 <= i < n && Readable(s, files[i]) ==> commits(files[i]))
      && (n < |files| ==> Readable(s, files[n]) && !commits(files[n]))
      && (forall g :: g in t.disk <==> g in s.disk && !(g in files[..n] && unlinks(g)))
      && (forall g :: g in t.disk ==> t.disk[g] == s.disk[g])
      && s.rows <= t.rows
    decreases |files|
  {
    hide Passed;
    var n := Reach(s, files, commits);
    if n > 0 {
      var f, rest := files[0], files[1..];
      var t := Passed(s, f, unlinks(f));
      PassedDisk(s, f, unlinks(f));
      assert f !in rest;
      DueLater(s, t, f, rest, commits) by {
        PassedEffect(s, f, unlinks(f));
      }
      MigratedDisk(t, rest, commits, unlinks);
      assert files[..n] == [f] + rest[..n - 1];
      forall i | 0 <= i < n && Readable(s, files[i])
        ensures commits(files[i])
      {
        if i > 0 {
          assert files[i] == rest[i - 1] && Readable(t, rest[i - 1]);
        }
      }
    }
  }
}
