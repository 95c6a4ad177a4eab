/**
 The agent's durable outbox: committed observations of task statuses become events exactly at the
 changes into a terminal status. Compacting old baselines must not disturb that.
 */
module Outbox {
  import opened Domain
  import opened TimeOrder

  datatype TaskRow = TaskRow(
    status: TaskStatus, title: string, workspace: Option<string>, updatedAt: Option<Instant>, lastSeenAt: Instant)

  datatype Tables = Tables(initialized: bool, tasks: map<string, TaskRow>, pending: seq<Event>)

  const EMPTY_TABLES := Tables(false, map[], [])

  const COMPACT_BATCH := 1000

  predicate Terminal(s: TaskStatus) {
    s == Completed || s == Failed
  }

  predicate Trusted(state: HudState) {
    state.zcode == SourceOk && state.tasks.Some?
  }

  function EventFor(task: TaskSummary, fallback: Instant, id: string): Result<Event>
    requires Terminal(task.status)
  {
    var at := if task.updatedAt.Some? && task.updatedAt.value != ZERO_TIME then task.updatedAt.value else fallback;
    var e := Event(id, if task.status == Completed then TaskCompleted else TaskFailed, at,
                   EventTask(task.id, task.title, task.workspace, task.status));
    if ValidEvent(e) then Ok(e) else Err
  }

  /** Whether `task` is a change into a terminal status against the baseline loaded at the start. */
  predicate Rises(initialized: bool, previous: map<string, TaskRow>, task: TaskSummary) {
    initialized && Terminal(task.status) && (task.id !in previous || previous[task.id].status != task.status)
  }

  function Baseline(task: TaskSummary, at: Instant): TaskRow {
    TaskRow(task.status, task.title, task.workspace, task.updatedAt, at)
  }

  /** One task of a snapshot. An invalid event or a repeated pending id fails the whole transaction. */
  function ObserveTask(
      t: Tables, previous: map<string, TaskRow>, task: TaskSummary, at: Instant, id: string): Result<Tables>
  {
    var noted := t.(tasks := t.tasks[task.id := Baseline(task, at)]);
    if !Rises(t.initialized, previous, task) then Ok(noted)
    else
      match EventFor(task, at, id)
      case Err => Err
      case Ok(e) => if id in Ids(t.pending) then Err else Ok(noted.(pending := t.pending + [e]))
  }

  /** The tasks of a snapshot in order; `ids[i]` is the random id drawn if task `i` needs an event. */
  function ObserveTasks(t: Tables, tasks: seq<TaskSummary>, at: Instant, ids: seq<string>): Result<Tables>
    requires |ids| == |tasks|
  {
    if tasks == [] then Ok(t)
    else
      var n := |tasks| - 1;
      match ObserveTasks(t, tasks[..n], at, ids[..n])
      case Err => Err
      case Ok(u) => ObserveTask(u, t.tasks, tasks[n], at, ids[n])
  }

  /** The transaction of one call; `Err` rolls it back. */
  function ObserveTables(t: Tables, state: HudState, at: Instant, ids: seq<string>): Result<Tables>
    requires Trusted(state) && |ids| == |state.tasks.value|
  {
    match ObserveTasks(t, state.tasks.value, at, ids)
    case Err => Err
    case Ok(u) => Ok(u.(initialized := true))
  }

  function AckTables(t: Tables, ids: seq<string>): Tables {
    t.(pending := Without(t.pending, ids))
  }

  function Without(events: seq<Event>, ids: seq<string>): seq<Event> {
    if events == [] then []
    else (if events[0].eventId in ids then [] else [events[0]]) + Without(events[1..], ids)
  }

  lemma {:induction false} WithoutNothing(events: seq<Event>)
    ensures Without(events, []) == events
  {
    if events != [] {
      WithoutNothing(events[1..]);
    }
  }

  lemma {:induction false} WithoutMembers(events: seq<Event>, ids: seq<string>)
    ensures forall e :: e in Without(events, ids) <==> e in events && e.eventId !in ids
  {
    if events != [] {
      WithoutMembers(events[1..], ids);
      assert events == [events[0]] + events[1..];
    }
  }

  lemma {:induction false} WithoutOneMore(events: seq<Event>, ids: seq<string>, id: string)
    ensures Without(events, ids + [id]) == Without(Without(events, ids), [id])
  {
    if events != [] {
      WithoutOneMore(events[1..], ids, id);
      var rest := Without(events[1..], ids);
      assert ([events[0]] + rest)[1..] == rest;
      assert Without(events, ids) == if events[0].eventId in ids then rest else [events[0]] + rest;
      assert events[0].eventId in ids + [id] <==> events[0].eventId in ids || events[0].eventId == id;
    }
  }

  predicate Compactable(row: TaskRow, cutoff: Instant) {
    && Terminal(row.status)
    && Before(row.lastSeenAt, cutoff)
    && (row.title != "" || row.workspace != None || row.updatedAt != None)
  }

  function Blank(row: TaskRow): TaskRow {
    row.(title := "", workspace := None, updatedAt := None)
  }

  function CompactTables(t: Tables, chosen: set<string>): Tables {
    t.(tasks := map id | id in t.tasks :: if id in chosen then Blank(t.tasks[id]) else t.tasks[id])
  }

  // ---------- What the events should be ----------

  /** The status of `id` in one snapshot; the last entry counts if the snapshot repeats it. */
  function StatusIn(tasks: seq<TaskSummary>, id: string): Option<TaskStatus> {
    if tasks == [] then None
    else if tasks[|tasks| - 1].id == id then Some(tasks[|tasks| - 1].status)
    else StatusIn(tasks[..|tasks| - 1], id)
  }

  /** The status of `id` in the latest of the committed observations that has it. */
  function LastStatus(seen: seq<seq<TaskSummary>>, id: string): Option<TaskStatus> {
    if seen == [] then None
    else
      var now := StatusIn(seen[|seen| - 1], id);
      if now.Some? then now else LastStatus(seen[..|seen| - 1], id)
  }

  datatype Mark = Mark(id: string, status: TaskStatus)

  function Marks(events: seq<Event>): seq<Mark> {
    seq(|events|, i requires 0 <= i < |events| => Mark(events[i].task.id, events[i].task.status))
  }

  /** The entries of a snapshot that are changes into a terminal status since `seen`. */
  function Changes(seen: seq<seq<TaskSummary>>, tasks: seq<TaskSummary>): seq<Mark> {
    if tasks == [] then []
    else
      var task := tasks[|tasks| - 1];
      Changes(seen, tasks[..|tasks| - 1])
      + (if Terminal(task.status) && LastStatus(seen, task.id) != Some(task.status) then [Mark(task.id, task.status)]
          else [])
  }

  /** All changes into a terminal status after the first observation, which only sets the baseline. */
  function Edges(seen: seq<seq<TaskSummary>>): seq<Mark> {
    if |seen| <= 1 then []
    else Edges(seen[..|seen| - 1]) + Changes(seen[..|seen| - 1], seen[|seen| - 1])
  }

  // ---------- The tables follow the observations ----------

  ghost predicate Remembers(t: Tables, seen: seq<seq<TaskSummary>>) {
    && (t.initialized <==> seen != [])
    && (forall id :: RowStatus(t.tasks, id) == LastStatus(seen, id))
  }

  function RowStatus(tasks: map<string, TaskRow>, id: string): Option<TaskStatus> {
    if id in tasks then Some(tasks[id].status) else None
  }

  lemma MarkAppended(before: seq<Event>, after: seq<Event>, from: nat)
    requires from <= |before| && |after| == |before| + 1 && after[..|before|] == before
    ensures Marks(after[from..])
         == Marks(before[from..]) + [Mark(after[|before|].task.id, after[|before|].task.status)]
  {
    assert after[from..] == before[from..] + [after[|before|]];
    MarksSnoc(before[from..], after[|before|]);
  }

  lemma {:induction false} ObserveTasksMeaning(
      t: Tables, tasks: seq<TaskSummary>, at: Instant, ids: seq<string>, seen: seq<seq<TaskSummary>>)
    requires |ids| == |tasks| && Remembers(t, seen)
    requires ObserveTasks(t, tasks, at, ids).Ok?
    ensures var u := ObserveTasks(t, tasks, at, ids).value;
      && u.initialized == t.initialized
      && t.pending <= u.pending
      && Marks(u.pending[|t.pending|..]) == (if t.initialized then Changes(seen, tasks) else [])
      && (forall id :: RowStatus(u.tasks, id) == if StatusIn(tasks, id).Some? then StatusIn(tasks, id)
          else RowStatus(t.tasks, id))
  {
    if tasks != [] {
      var n := |tasks| - 1;
      var task := tasks[n];
      ObserveTasksMeaning(t, tasks[..n], at, ids[..n], seen);
      var u := ObserveTasks(t, tasks[..n], at, ids[..n]).value;
      var v := ObserveTask(u, t.tasks, task, at, ids[n]).value;
      assert RowStatus(t.tasks, task.id) == LastStatus(seen, task.id);
      assert Rises(t.initialized, t.tasks, task)
        <==> t.initialized && Terminal(task.status) && LastStatus(seen, task.id) != Some(task.status);
      if Rises(t.initialized, t.tasks, task) {
        MarkAppended(u.pending, v.pending, |t.pending|);
      }
    }
  }

  lemma MarksSnoc(events: seq<Event>, e: Event)
    ensures Marks(events + [e]) == Marks(events) + [Mark(e.task.id, e.task.status)]
  {
  }

  lemma MarksConcat(a: seq<Event>, b: seq<Event>)
    ensures Marks(a + b) == Marks(a) + Marks(b)
  {
  }

  /** A committed trusted observation appends exactly the changes it shows, and is remembered. */
  lemma ObserveEmitsChanges(t: Tables, state: HudState, at: Instant, ids: seq<string>, seen: seq<seq<TaskSummary>>)
    requires Trusted(state) && |ids| == |state.tasks.value| && Remembers(t, seen)
    requires ObserveTables(t, state, at, ids).Ok?
    ensures var u := ObserveTables(t, state, at, ids).value;
      && t.pending <= u.pending
      && Edges(seen + [state.tasks.value]) == Edges(seen) + Marks(u.pending[|t.pending|..])
      && Remembers(u, seen + [state.tasks.value])
  {
    var tasks := state.tasks.value;
    ObserveTasksMeaning(t, tasks, at, ids, seen);
    var later := seen + [tasks];
    assert later[..|later| - 1] == seen;
    forall id ensures RowStatus(ObserveTables(t, state, at, ids).value.tasks, id) == LastStatus(later, id) {
    }
    if seen == [] {
      assert Edges(later) == [] && Edges(seen) == [];
    }
  }

  // ---------- Runs ----------

  datatype Step =
    | Observe(state: HudState, at: Instant, ids: seq<string>, commits: bool)
    | Ack(acked: seq<string>, commits: bool)
    | Maintain(chosen: set<string>, cutoff: Instant)

  /** The tables with the history they are judged against. */
  datatype Ledger = Ledger(t: Tables, seen: seq<seq<TaskSummary>>, emitted: seq<Event>)

  const NEW_LEDGER := Ledger(EMPTY_TABLES, [], [])

  /** Rows the compaction statement may pick: eligible and no more than one batch of them. */
  predicate MayCompact(t: Tables, chosen: set<string>, cutoff: Instant) {
    |chosen| <= COMPACT_BATCH && forall id <- chosen :: id in t.tasks && Compactable(t.tasks[id], cutoff)
  }

  /** Failed transactions, untrusted snapshots and impossible choices leave everything as it was. */
  function Apply(l: Ledger, step: Step): Ledger {
    match step
    case Observe(state, at, ids, commits) =>
      if !Trusted(state) || |ids| != |state.tasks.value| || !commits then l
      else (
        match ObserveTables(l.t, state, at, ids)
        case Err => l
        case Ok(u) => Ledger(u, l.seen + [state.tasks.value], l.emitted + Added(l.t.pending, u.pending)))
    case Ack(acked, commits) => if commits then l.(t := AckTables(l.t, acked)) else l
    case Maintain(chosen, cutoff) => if MayCompact(l.t, chosen, cutoff) then l.(t := CompactTables(l.t, chosen)) else l
  }

  function Added(before: seq<Event>, after: seq<Event>): seq<Event> {
    if |before| <= |after| then after[|before|..] else []
  }

  function Run(l: Ledger, steps: seq<Step>): Ledger {
    if steps == [] then l else Apply(Run(l, steps[..|steps| - 1]), steps[|steps| - 1])
  }

  ghost predicate Linked(l: Ledger) {
    Remembers(l.t, l.seen) && Marks(l.emitted) == Edges(l.seen)
  }

  lemma ApplyKeepsLinked(l: Ledger, step: Step)
    requires Linked(l)
    ensures Linked(Apply(l, step))
  {
    match step
    case Observe(state, at, ids, commits) =>
      if Apply(l, step) != l {
        ObserveEmitsChanges(l.t, state, at, ids, l.seen);
        var u := ObserveTables(l.t, state, at, ids).value;
        MarksConcat(l.emitted, u.pending[|l.t.pending|..]);
      }
    case Ack(_, _) =>
    case Maintain(chosen, _) =>
      forall id ensures RowStatus(CompactTables(l.t, chosen).tasks, id) == RowStatus(l.t.tasks, id) {
      }
  }

  /** Over any run, the events ever committed are the changes into a terminal status, in order. */
  lemma {:induction false} OutboxIsEdgeDetector(steps: seq<Step>)
    ensures Linked(Run(NEW_LEDGER, steps))
    ensures Marks(Run(NEW_LEDGER, steps).emitted) == Edges(Run(NEW_LEDGER, steps).seen)
  {
    if steps != [] {
      OutboxIsEdgeDetector(steps[..|steps| - 1]);
      ApplyKeepsLinked(Run(NEW_LEDGER, steps[..|steps| - 1]), steps[|steps| - 1]);
    }
  }

  // ---------- One task at a time ----------

  ghost predicate DistinctTasks(tasks: seq<TaskSummary>) {
    forall i, j :: 0 <= i < j < |tasks| ==> tasks[i].id != tasks[j].id
  }

  /** The statuses of one task over the observations that have it. */
  function Trace(seen: seq<seq<TaskSummary>>, id: string): seq<TaskStatus> {
    if seen == [] then []
    else
      var now := StatusIn(seen[|seen| - 1], id);
      Trace(seen[..|seen| - 1], id) + (if now.Some? then [now.value] else [])
  }

  /** An edge detector on one status trace: a terminal status fires when it differs from the one before it. */
  function Fires(trace: seq<TaskStatus>): seq<TaskStatus> {
    if trace == [] then []
    else
      var n := |trace| - 1;
      Fires(trace[..n]) + (if Terminal(trace[n]) && (n == 0 || trace[n - 1] != trace[n]) then [trace[n]] else [])
  }

  function OfTask(marks: seq<Mark>, id: string): seq<TaskStatus> {
    if marks == [] then []
    else OfTask(marks[..|marks| - 1], id) + (if marks[|marks| - 1].id == id then [marks[|marks| - 1].status] else [])
  }

  lemma {:induction false} OfTaskConcat(a: seq<Mark>, b: seq<Mark>, id: string)
    ensures OfTask(a + b, id) == OfTask(a, id) + OfTask(b, id)
  {
    if b == [] {
      assert a + b == a;
    } else {
      assert (a + b)[..|a + b| - 1] == a + b[..|b| - 1];
      OfTaskConcat(a, b[..|b| - 1], id);
    }
  }

  lemma {:induction false} ChangesOfTask(seen: seq<seq<TaskSummary>>, tasks: seq<TaskSummary>, id: string)
    requires DistinctTasks(tasks)
    ensures OfTask(Changes(seen, tasks), id)
         == var now := StatusIn(tasks, id);
            if now.Some? && Terminal(now.value) && LastStatus(seen, id) != now then [now.value] else []
  {
    if tasks != [] {
      var n := |tasks| - 1;
      var task := tasks[n];
      ChangesOfTask(seen, tasks[..n], id);
      OfTaskConcat(Changes(seen, tasks[..n]),
        if Terminal(task.status) && LastStatus(seen, task.id) != Some(task.status) then [Mark(task.id, task.status)]
            else [], id);
      if task.id == id {
        AbsentStatus(tasks[..n], id);
      }
    }
  }

  lemma {:induction false} AbsentStatus(tasks: seq<TaskSummary>, id: string)
    requires forall i :: 0 <= i < |tasks| ==> tasks[i].id != id
    ensures StatusIn(tasks, id) == None
  {
    if tasks != [] {
      AbsentStatus(tasks[..|tasks| - 1], id);
    }
  }

  lemma {:induction false} LastOfTrace(seen: seq<seq<TaskSummary>>, id: string)
    ensures LastStatus(seen, id) == var tr := Trace(seen, id); if tr == [] then None else Some(tr[|tr| - 1])
  {
    if seen != [] {
      LastOfTrace(seen[..|seen| - 1], id);
    }
  }

  /** What the first observation alone would have fired; it fires nothing, being the baseline. */
  function Muted(seen: seq<seq<TaskSummary>>, id: string): seq<TaskStatus> {
    if seen == [] then [] else Fires(Trace(seen[..1], id))
  }

  lemma Associative(a: seq<TaskStatus>, b: seq<TaskStatus>, d: seq<TaskStatus>)
    ensures (a + b) + d == a + (b + d)
  {
  }

  /** The events of one task are its own edges, less what the baseline observation would have fired. */
  lemma {:induction false} EdgesOfOneTask(seen: seq<seq<TaskSummary>>, id: string)
    requires forall k :: 0 <= k < |seen| ==> DistinctTasks(seen[k])
    ensures Fires(Trace(seen, id)) == Muted(seen, id) + OfTask(Edges(seen), id)
  {
    if |seen| == 1 {
      assert seen[..1] == seen;
    } else if |seen| > 1 {
      var n := |seen| - 1;
      EdgesOfOneTask(seen[..n], id);
      assert seen[..n] + [seen[n]] == seen;
      FiresAtEnd(seen[..n], seen[n], id);
      EdgesAtEnd(seen[..n], seen[n], id);
      Associative(Muted(seen, id), OfTask(Edges(seen[..n]), id), OfTask(Changes(seen[..n], seen[n]), id));
    }
  }

  lemma EdgesAtEnd(seen: seq<seq<TaskSummary>>, tasks: seq<TaskSummary>, id: string)
    requires seen != []
    ensures OfTask(Edges(seen + [tasks]), id) == OfTask(Edges(seen), id) + OfTask(Changes(seen, tasks), id)
    ensures Muted(seen + [tasks], id) == Muted(seen, id)
  {
    assert (seen + [tasks])[..|seen|] == seen;
    assert (seen + [tasks])[..1] == seen[..1];
    OfTaskConcat(Edges(seen), Changes(seen, tasks), id);
  }

  lemma FiresAtEnd(seen: seq<seq<TaskSummary>>, tasks: seq<TaskSummary>, id: string)
    requires DistinctTasks(tasks)
    ensures Fires(Trace(seen + [tasks], id)) == Fires(Trace(seen, id)) + OfTask(Changes(seen, tasks), id)
  {
    assert (seen + [tasks])[..|seen|] == seen;
    LastOfTrace(seen, id);
    ChangesOfTask(seen, tasks, id);
    var tr, now := Trace(seen, id), StatusIn(tasks, id);
    if now.Some? {
      assert (tr + [now.value])[..|tr|] == tr;
    } else {
      assert tr + [] == tr;
    }
  }

  // ---------- Compaction is invisible ----------

  ghost predicate SameTables(t: Tables, u: Tables) {
    && t.initialized == u.initialized && t.pending == u.pending
    && (forall id :: RowStatus(t.tasks, id) == RowStatus(u.tasks, id))
  }

  ghost predicate SameMemory(a: Ledger, b: Ledger) {
    a.seen == b.seen && a.emitted == b.emitted && SameTables(a.t, b.t)
  }

  function WithoutMaintenance(steps: seq<Step>): seq<Step> {
    if steps == [] then []
    else WithoutMaintenance(steps[..|steps| - 1])
         + (if steps[|steps| - 1].Maintain? then [] else [steps[|steps| - 1]])
  }

  lemma SameTablesObserve(
      t: Tables, u: Tables, before: map<string, TaskRow>, other: map<string, TaskRow>, task: TaskSummary, at: Instant,
      id: string)
    requires SameTables(t, u) && RowStatus(before, task.id) == RowStatus(other, task.id)
    ensures var x, y := ObserveTask(t, before, task, at, id), ObserveTask(u, other, task, at, id);
      (x.Ok? <==> y.Ok?) && (x.Ok? ==> SameTables(x.value, y.value))
  {
    assert Rises(t.initialized, before, task) == Rises(u.initialized, other, task);
    var x, y := t.tasks[task.id := Baseline(task, at)], u.tasks[task.id := Baseline(task, at)];
    forall k ensures RowStatus(x, k) == RowStatus(y, k) {
      assert RowStatus(t.tasks, k) == RowStatus(u.tasks, k);
    }
  }

  lemma {:induction false} SameMemoryObserves(
      t: Tables, u: Tables, tasks: seq<TaskSummary>, at: Instant, ids: seq<string>)
    requires |ids| == |tasks| && SameTables(t, u)
    ensures var x, y := ObserveTasks(t, tasks, at, ids), ObserveTasks(u, tasks, at, ids);
      (x.Ok? <==> y.Ok?) && (x.Ok? ==> SameTables(x.value, y.value))
  {
    if tasks != [] {
      var n := |tasks| - 1;
      SameMemoryObserves(t, u, tasks[..n], at, ids[..n]);
      assert RowStatus(t.tasks, tasks[n].id) == RowStatus(u.tasks, tasks[n].id);
      var x, y := ObserveTasks(t, tasks[..n], at, ids[..n]), ObserveTasks(u, tasks[..n], at, ids[..n]);
      if x.Ok? {
        SameTablesObserve(x.value, y.value, t.tasks, u.tasks, tasks[n], at, ids[n]);
      }
    }
  }

  lemma SameMemoryStep(a: Ledger, b: Ledger, step: Step)
    requires SameMemory(a, b) && !step.Maintain?
    ensures SameMemory(Apply(a, step), Apply(b, step))
  {
    match step
    case Observe(state, at, ids, commits) =>
      if Trusted(state) && |ids| == |state.tasks.value| {
        SameMemoryObserves(a.t, b.t, state.tasks.value, at, ids);
      }
    case Ack(_, _) =>
  }

  lemma {:induction false} MaintenanceIsInvisible(steps: seq<Step>)
    ensures SameMemory(Run(NEW_LEDGER, steps), Run(NEW_LEDGER, WithoutMaintenance(steps)))
  {
    if steps != [] {
      var n := |steps| - 1;
      MaintenanceIsInvisible(steps[..n]);
      var a, b := Run(NEW_LEDGER, steps[..n]), Run(NEW_LEDGER, WithoutMaintenance(steps[..n]));
      if steps[n].Maintain? {
        assert WithoutMaintenance(steps) == WithoutMaintenance(steps[..n]);
        forall id ensures RowStatus(CompactTables(a.t, steps[n].chosen).tasks, id) == RowStatus(b.t.tasks, id) {
          assert RowStatus(a.t.tasks, id) == RowStatus(b.t.tasks, id);
        }
      } else {
        SameMemoryStep(a, b, steps[n]);
        assert (WithoutMaintenance(steps[..n]) + [steps[n]])[..|WithoutMaintenance(steps[..n])|]
            == WithoutMaintenance(steps[..n]);
      }
    }
  }
}
