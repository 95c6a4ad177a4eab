/**
 What an observation writes: which entries of a snapshot become events, what each event says of its task, what is
 remembered of every task, and when the transaction fails.
 */
module Emission {
  import opened Domain
  import opened TimeOrder
  import opened Outbox

  // ---------- Which entries become events, and what the events say ----------

  /** The entry is completed or failed, and the baseline does not have its task in that status. */
  predicate Reported(t: Tables, task: TaskSummary) {
    && t.initialized && (task.status == Completed || task.status == Failed)
    && (task.id in t.tasks ==> t.tasks[task.id].status != task.status)
  }

  /** The task has a time of its own; Go's zero time does not count. */
  predicate Dated(task: TaskSummary) {
    task.updatedAt.Some? && task.updatedAt.value != Civil(1, 1, 1, 0, 0, 0, 0)
  }

  /** The event is about the task as the snapshot has it, at the task's time or else at the observation's. */
  predicate Tells(e: Event, task: TaskSummary, at: Instant, id: string) {
    && e.eventId == id
    && e.task.id == task.id && e.task.title == task.title
    && e.task.workspace == task.workspace && e.task.status == task.status
    && (task.status == Completed ==> e.kind == TaskCompleted) && (task.status == Failed ==> e.kind == TaskFailed)
    && (Dated(task) ==> Some(e.occurredAt) == task.updatedAt) && (!Dated(task) ==> e.occurredAt == at)
  }

  ghost predicate Increasing(who: seq<nat>, n: nat) {
    && (forall k :: 0 <= k < |who| ==> who[k] < n)
    && (forall j, k :: 0 <= j < k < |who| ==> who[j] < who[k])
  }

  /** The entries `who`, in their order, are those reported, and one event was appended for each. */
  ghost predicate Emits(t: Tables, tasks: seq<TaskSummary>, at: Instant, ids: seq<string>, u: Tables, who: seq<nat>)
    requires |ids| == |tasks|
  {
    && Selects(t, tasks, who)
    && t.pending <= u.pending && AllTell(u.pending[|t.pending|..], tasks, at, ids, who)
  }

  ghost predicate Selects(t: Tables, tasks: seq<TaskSummary>, who: seq<nat>) {
    Increasing(who, |tasks|) && forall i :: 0 <= i < |tasks| ==> (i in who <==> Reported(t, tasks[i]))
  }

  ghost predicate AllTell(added: seq<Event>, tasks: seq<TaskSummary>, at: Instant, ids: seq<string>, who: seq<nat>)
    requires |ids| == |tasks|
  {
    && |added| == |who|
    && forall k :: 0 <= k < |who| ==> who[k] < |tasks| && Tells(added[k], tasks[who[k]], at, ids[who[k]])
  }

  lemma EventTells(t: Tables, previous: map<string, TaskRow>, task: TaskSummary, at: Instant, id: string)
    requires ObserveTask(t, previous, task, at, id).Ok?
    ensures var u := ObserveTask(t, previous, task, at, id).value;
      && u.initialized == t.initialized
      && (if Reported(t.(tasks := previous), task)
          then |u.pending| == |t.pending| + 1 && t.pending <= u.pending && Tells(u.pending[|t.pending|], task, at, id)
          else u.pending == t.pending)
  {
  }

  lemma SelectsMore(t: Tables, tasks: seq<TaskSummary>, earlier: seq<nat>)
    requires tasks != [] && Selects(t, tasks[..|tasks| - 1], earlier)
    ensures Selects(t, tasks, if Reported(t, tasks[|tasks| - 1]) then earlier + [|tasks| - 1] else earlier)
  {
    var n := |tasks| - 1;
    forall i | 0 <= i < n ensures i in earlier <==> Reported(t, tasks[i]) {
      assert tasks[..n][i] == tasks[i];
    }
    assert n !in earlier;
  }

  lemma AllTellStill(added: seq<Event>, tasks: seq<TaskSummary>, at: Instant, ids: seq<string>, who: seq<nat>)
    requires |ids| == |tasks| && tasks != [] && AllTell(added, tasks[..|tasks| - 1], at, ids[..|tasks| - 1], who)
    ensures AllTell(added, tasks, at, ids, who)
  {
    var n := |tasks| - 1;
    forall k | 0 <= k < |who| ensures Tells(added[k], tasks[who[k]], at, ids[who[k]]) {
      assert tasks[..n][who[k]] == tasks[who[k]] && ids[..n][who[k]] == ids[who[k]];
    }
  }

  lemma AllTellMore(
      added: seq<Event>, e: Event, tasks: seq<TaskSummary>, at: Instant, ids: seq<string>, earlier: seq<nat>)
    requires |ids| == |tasks| && tasks != [] && Tells(e, tasks[|tasks| - 1], at, ids[|tasks| - 1])
    requires AllTell(added, tasks[..|tasks| - 1], at, ids[..|tasks| - 1], earlier)
    ensures AllTell(added + [e], tasks, at, ids, earlier + [|tasks| - 1])
  {
    AllTellStill(added, tasks, at, ids, earlier);
  }

  lemma EmitsOneMore(
      t: Tables, tasks: seq<TaskSummary>, at: Instant, ids: seq<string>, mid: Tables, u: Tables, earlier: seq<nat>,
      e: Event)
    requires |ids| == |tasks| && tasks != []
    requires Emits(t, tasks[..|tasks| - 1], at, ids[..|tasks| - 1], mid, earlier)
    requires Reported(t, tasks[|tasks| - 1]) && Tells(e, tasks[|tasks| - 1], at, ids[|tasks| - 1])
    requires u.pending == mid.pending + [e]
    ensures Emits(t, tasks, at, ids, u, earlier + [|tasks| - 1])
  {
    var added := mid.pending[|t.pending|..];
    SelectsMore(t, tasks, earlier);
    AllTellMore(added, e, tasks, at, ids, earlier);
    assert u.pending[|t.pending|..] == added + [e];
  }

  lemma EmitsNoMore(
      t: Tables, tasks: seq<TaskSummary>, at: Instant, ids: seq<string>, mid: Tables, u: Tables, earlier: seq<nat>)
    requires |ids| == |tasks| && tasks != []
    requires Emits(t, tasks[..|tasks| - 1], at, ids[..|tasks| - 1], mid, earlier)
    requires !Reported(t, tasks[|tasks| - 1]) && u.pending == mid.pending
    ensures Emits(t, tasks, at, ids, u, earlier)
  {
    SelectsMore(t, tasks, earlier);
    AllTellStill(mid.pending[|t.pending|..], tasks, at, ids, earlier);
  }

  /** Every reported entry of a snapshot becomes one event, in order, and nothing else does. */
  lemma {:induction false} EachChangeIsOneEvent(t: Tables, tasks: seq<TaskSummary>, at: Instant, ids: seq<string>)
    returns (who: seq<nat>)
    requires |ids| == |tasks| && ObserveTasks(t, tasks, at, ids).Ok?
    ensures ObserveTasks(t, tasks, at, ids).value.initialized == t.initialized
    ensures Emits(t, tasks, at, ids, ObserveTasks(t, tasks, at, ids).value, who)
  {
    who := [];
    if tasks != [] {
      var n := |tasks| - 1;
      var earlier := EachChangeIsOneEvent(t, tasks[..n], at, ids[..n]);
      var mid := ObserveTasks(t, tasks[..n], at, ids[..n]).value;
      EventTells(mid, t.tasks, tasks[n], at, ids[n]);
      var u := ObserveTasks(t, tasks, at, ids).value;
      if Reported(t, tasks[n]) {
        EmitsOneMore(t, tasks, at, ids, mid, u, earlier, u.pending[|mid.pending|]);
        who := earlier + [n];
      } else {
        EmitsNoMore(t, tasks, at, ids, mid, u, earlier);
        who := earlier;
      }
    }
  }

  /** Of a snapshot with distinct tasks, the events of one task. */
  ghost predicate OnlyEventOf(added: seq<Event>, k: nat, id: string) {
    k < |added| && forall j :: 0 <= j < |added| && j != k ==> added[j].task.id != id
  }

  /** A task last seen at work that has now failed or completed is reported by exactly one event, which says so. */
  lemma FinishedTaskIsReportedOnce(t: Tables, state: HudState, at: Instant, ids: seq<string>, i: nat)
    requires state.zcode == SourceOk && state.tasks.Some? && |ids| == |state.tasks.value| && i < |ids|
    requires DistinctTasks(state.tasks.value) && t.initialized
    requires var task := state.tasks.value[i];
      && (task.status == Failed || task.status == Completed)
      && task.id in t.tasks && (t.tasks[task.id].status == Running || t.tasks[task.id].status == Waiting)
    requires ObserveTables(t, state, at, ids).Ok?
    ensures var added, task := Added(t.pending, ObserveTables(t, state, at, ids).value.pending), state.tasks.value[i];
      exists k: nat :: OnlyEventOf(added, k, task.id) && Tells(added[k], task, at, ids[i])
        && added[k].kind == if task.status == Failed then TaskFailed else TaskCompleted
  {
    var tasks := state.tasks.value;
    var who := EachChangeIsOneEvent(t, tasks, at, ids);
    var added := Added(t.pending, ObserveTables(t, state, at, ids).value.pending);
    assert i in who;
    var k :| 0 <= k < |who| && who[k] == i;
    forall j | 0 <= j < |added| && j != k ensures added[j].task.id != tasks[i].id {
      assert Tells(added[j], tasks[who[j]], at, ids[who[j]]);
    }
    assert OnlyEventOf(added, k, tasks[i].id);
  }

  // ---------- What is remembered ----------

  /** Entry `i` is the last one of its task. */
  ghost predicate LastEntry(tasks: seq<TaskSummary>, i: nat) {
    i < |tasks| && forall j :: i < j < |tasks| ==> tasks[j].id != tasks[i].id
  }

  /** The row of the task in the baseline is what the entry says, seen now. */
  predicate Noted(after: map<string, TaskRow>, task: TaskSummary, at: Instant) {
    task.id in after && after[task.id] == TaskRow(task.status, task.title, task.workspace, task.updatedAt, at)
  }

  predicate SameRow(before: map<string, TaskRow>, after: map<string, TaskRow>, id: string) {
    (id in after <==> id in before) && (id in after ==> after[id] == before[id])
  }

  ghost predicate Remembered(
      before: map<string, TaskRow>, tasks: seq<TaskSummary>, at: Instant, after: map<string, TaskRow>)
  {
    && (forall i: nat :: LastEntry(tasks, i) ==> Noted(after, tasks[i], at))
    && (forall id :: Absent(tasks, id) ==> SameRow(before, after, id))
  }

  ghost predicate Absent(tasks: seq<TaskSummary>, id: string) {
    forall i :: 0 <= i < |tasks| ==> tasks[i].id != id
  }

  /** Each task of the snapshot is remembered as its last entry has it, seen now; no other row changes. */
  lemma {:induction false} SnapshotIsRemembered(t: Tables, tasks: seq<TaskSummary>, at: Instant, ids: seq<string>)
    requires |ids| == |tasks| && ObserveTasks(t, tasks, at, ids).Ok?
    ensures Remembered(t.tasks, tasks, at, ObserveTasks(t, tasks, at, ids).value.tasks)
  {
    if tasks != [] {
      var n := |tasks| - 1;
      SnapshotIsRemembered(t, tasks[..n], at, ids[..n]);
      RememberedMore(t.tasks, tasks, at, ObserveTasks(t, tasks[..n], at, ids[..n]).value.tasks);
    }
  }

  lemma RememberedMore(
      before: map<string, TaskRow>, tasks: seq<TaskSummary>, at: Instant, mid: map<string, TaskRow>)
    requires tasks != [] && Remembered(before, tasks[..|tasks| - 1], at, mid)
    ensures var last := tasks[|tasks| - 1];
      Remembered(before, tasks, at,
                 mid[last.id := TaskRow(last.status, last.title, last.workspace, last.updatedAt, at)])
  {
    var n, last := |tasks| - 1, tasks[|tasks| - 1];
    var after := mid[last.id := TaskRow(last.status, last.title, last.workspace, last.updatedAt, at)];
    forall i: nat | LastEntry(tasks, i) ensures Noted(after, tasks[i], at) {
      if i < n {
        assert tasks[n].id != tasks[i].id;
        EarlierLastEntry(tasks, i);
        assert Noted(mid, tasks[..n][i], at);
      }
    }
    forall id | Absent(tasks, id) ensures SameRow(before, after, id) {
      assert Absent(tasks[..n], id) && id != tasks[n].id;
    }
  }

  lemma EarlierLastEntry(tasks: seq<TaskSummary>, i: nat)
    requires LastEntry(tasks, i) && i < |tasks| - 1
    ensures LastEntry(tasks[..|tasks| - 1], i)
  {
  }

  // ---------- When the transaction fails ----------

  /** The event is one that the hub accepts: it has an id, a time, and a task with an id and a title. */
  predicate Presentable(task: TaskSummary, at: Instant, id: string) {
    |id| >= 8 && task.id != "" && task.title != "" && (Dated(task) || at != Civil(1, 1, 1, 0, 0, 0, 0))
  }

  /** Its id is new to the outbox and to the events before it. */
  ghost predicate FreshId(t: Tables, tasks: seq<TaskSummary>, ids: seq<string>, i: nat)
    requires |ids| == |tasks| && i < |tasks|
  {
    && (forall e :: e in t.pending ==> e.eventId != ids[i])
    && (forall j :: 0 <= j < i && Reported(t, tasks[j]) ==> ids[j] != ids[i])
  }

  ghost predicate Writable(t: Tables, tasks: seq<TaskSummary>, at: Instant, ids: seq<string>, i: nat)
    requires |ids| == |tasks| && i < |tasks|
  {
    Reported(t, tasks[i]) ==> Presentable(tasks[i], at, ids[i]) && FreshId(t, tasks, ids, i)
  }

  lemma PendingIds(
      t: Tables, tasks: seq<TaskSummary>, at: Instant, ids: seq<string>, u: Tables, who: seq<nat>, id: string)
    requires |ids| == |tasks| && Emits(t, tasks, at, ids, u, who)
    ensures id in Ids(u.pending) <==>
      (exists e :: e in t.pending && e.eventId == id)
      || (exists j :: 0 <= j < |tasks| && Reported(t, tasks[j]) && ids[j] == id)
  {
    if id in Ids(u.pending) {
      var e :| e in u.pending && e.eventId == id;
      var k :| 0 <= k < |u.pending| && u.pending[k] == e;
      if k < |t.pending| {
        assert t.pending[k] == e;
      } else {
        var j := who[k - |t.pending|];
        assert Tells(u.pending[|t.pending| + (k - |t.pending|)], tasks[j], at, ids[j]);
        assert j in who;
      }
    }
    forall e | e in t.pending && e.eventId == id ensures id in Ids(u.pending) {
      var k :| 0 <= k < |t.pending| && t.pending[k] == e;
      assert u.pending[k] == e;
    }
    forall j | 0 <= j < |tasks| && Reported(t, tasks[j]) && ids[j] == id ensures id in Ids(u.pending) {
      var k :| 0 <= k < |who| && who[k] == j;
      assert u.pending[|t.pending| + k] in u.pending;
    }
  }

  lemma LastWritable(t: Tables, tasks: seq<TaskSummary>, at: Instant, ids: seq<string>)
    requires |ids| == |tasks| && tasks != []
    requires ObserveTasks(t, tasks[..|tasks| - 1], at, ids[..|tasks| - 1]).Ok?
    ensures ObserveTasks(t, tasks, at, ids).Ok? <==> Writable(t, tasks, at, ids, |tasks| - 1)
  {
    var n := |tasks| - 1;
    var who := EachChangeIsOneEvent(t, tasks[..n], at, ids[..n]);
    var mid := ObserveTasks(t, tasks[..n], at, ids[..n]).value;
    PendingIds(t, tasks[..n], at, ids[..n], mid, who, ids[n]);
    assert (exists j :: 0 <= j < n && Reported(t, tasks[..n][j]) && ids[..n][j] == ids[n])
      <==> (exists j :: 0 <= j < n && Reported(t, tasks[j]) && ids[j] == ids[n]);
  }

  /** The observation is committed unless an event to be written is not presentable or its id is not new. */
  lemma {:induction false} ObserveFailsExactly(t: Tables, tasks: seq<TaskSummary>, at: Instant, ids: seq<string>)
    requires |ids| == |tasks|
    ensures ObserveTasks(t, tasks, at, ids).Ok? <==> forall i :: 0 <= i < |tasks| ==> Writable(t, tasks, at, ids, i)
  {
    if tasks != [] {
      var n := |tasks| - 1;
      ObserveFailsExactly(t, tasks[..n], at, ids[..n]);
      forall i | 0 <= i < n ensures Writable(t, tasks[..n], at, ids[..n], i) <==> Writable(t, tasks, at, ids, i) {
        WritableEarlier(t, tasks, at, ids, i);
      }
      if ObserveTasks(t, tasks[..n], at, ids[..n]).Ok? {
        LastWritable(t, tasks, at, ids);
      }
    }
  }

  lemma WritableEarlier(t: Tables, tasks: seq<TaskSummary>, at: Instant, ids: seq<string>, i: nat)
    requires |ids| == |tasks| && i < |tasks| - 1
    ensures Writable(t, tasks[..|tasks| - 1], at, ids[..|tasks| - 1], i) <==> Writable(t, tasks, at, ids, i)
  {
    assert forall j :: 0 <= j <= i ==> tasks[..|tasks| - 1][j] == tasks[j] && ids[..|tasks| - 1][j] == ids[j];
  }
}
