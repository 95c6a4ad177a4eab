/**
 What each task of a collection says, and when there is a collection at all: the status and the times of a goal, the
 windows within which something counts as live, the history row, and the sources that are needed.
 */
module Listing {
  import opened Domain
  import opened UsageRows
  import opened Collector

  const SECOND := 1_000_000_000

  // ---------- Settings ----------

  /** How many tasks are listed: as configured, 20 by default, 100 at most. */
  lemma LimitExactly(q: Reading)
    ensures Limit(q) == if q.taskLimit <= 0 then 20 else Min(q.taskLimit, 100)
  {
  }

  /** The seconds for which a goal's heartbeat counts: 120 by default, an hour at most. */
  function HeartbeatWindow(configured: int): int {
    if configured <= 0 then 120 else Min(configured, 3600)
  }

  /** The seconds for which a finished goal is shown: half an hour by default, a day at most. */
  function FinishedWindow(configured: int): int {
    if configured <= 0 then 1800 else Min(configured, 86400)
  }

  /** A usage row counts for as long as a heartbeat, but for ten minutes at least. */
  lemma EligibleExactly(q: Reading, r: UsageRow)
    ensures Eligible(q, r) <==>
      && r.started > 0 && (r.status == Running || r.status == Waiting)
      && var at := Timestamp(Some(r.started)).value;
      && q.now <= at + (if HeartbeatWindow(q.heartbeat) < 600 then 600 else HeartbeatWindow(q.heartbeat)) * SECOND
      && (r.session in q.turns ==> q.turns[r.session].updatedAt == 0 || at > q.turns[r.session].updatedAt)
  {
  }

  /** The usage query returns the first rows of the table, eight for each task that can be listed. */
  lemma QueriedExactly(q: Reading, table: seq<UsageRow>)
    ensures Queried(q, table) <= table && |Queried(q, table)| == Min(8 * Limit(q), |table|)
  {
  }

  // ---------- Goals ----------

  /** The goal's runner gave a sign of life within the window. */
  predicate Beating(s: Sources, row: GoalRow) {
    row.lastSeen.Some? && row.lastSeen.value > 0
    && s.goalNow <= Timestamp(row.lastSeen).value + HeartbeatWindow(s.reading.heartbeat) * SECOND
  }

  /** The goal's last sign of life, or else its last change, is recent enough for a finished goal to be shown. */
  predicate Fresh(s: Sources, row: GoalRow) {
    var last := if row.lastSeen.Some? && row.lastSeen.value > 0 then row.lastSeen else row.updated;
    last.Some? && last.value > 0 && s.goalNow <= Timestamp(last).value + FinishedWindow(s.recentTerminal) * SECOND
  }

  /** The goal has its target status and all of its steps are done. */
  predicate DoneThroughout(row: GoalRow) {
    row.target == Completed && forall t :: t in row.todos ==> t == Completed
  }

  lemma SameWindows(s: Sources, row: GoalRow)
    ensures HeartbeatFresh(s, row) <==> Beating(s, row)
    ensures RecentlyUpdated(s, row) <==> Fresh(s, row)
  {
  }

  /** When a goal is listed at all, and in which status. A finished goal whose turn is still live counts as running. */
  lemma GoalStatusExactly(s: Sources, row: GoalRow)
    ensures var task, alive, beats := GoalTask(s, row), TurnAlive(s, row.session), Beating(s, row);
      var steps := row.todos;
      && (task.Some? <==> beats || ((row.target == Failed || row.target == Completed) && Fresh(s, row)))
      && (task.Some? ==> var status := task.value.status;
            && (status == Failed <==> row.target == Failed && !alive)
            && (status == Completed <==> row.target == Completed && !alive && (beats ==> DoneThroughout(row)))
            && (status == Waiting <==>
                  && beats && row.target != Failed && row.target != Running && !DoneThroughout(row)
                  && Running !in steps && (row.target == Waiting || Waiting in steps))
            && status != Unknown)
  {
    SameWindows(s, row);
  }

  /** The times of a listed goal: its own, or those of the turn that keeps it running. */
  lemma GoalTimesExactly(s: Sources, row: GoalRow)
    requires GoalTask(s, row).Some?
    ensures var task := GoalTask(s, row).value;
      var byTurn := TurnAlive(s, row.session) && (row.target == Failed || row.target == Completed)
                    && (Beating(s, row) && row.target == Completed ==> DoneThroughout(row));
      && task.session == row.session
      && (byTurn ==>
            && task.updatedAt == Some(s.goalTurns[row.session].updatedAt)
            && var started := s.goalTurns[row.session].startedAt;
            task.startedAt == if started != 0 then Some(started) else Timestamp(row.started))
      && (!byTurn ==>
            && task.startedAt == Timestamp(row.started)
            && task.updatedAt == if row.lastSeen.Some? && row.lastSeen.value > 0 then Timestamp(row.lastSeen)
                                 else Timestamp(row.updated))
  {
    SameWindows(s, row);
  }

  lemma {:induction false} GoalTasksFromRows(s: Sources, rows: seq<GoalRow>) returns (who: seq<nat>)
    ensures |who| == |GoalTasks(s, rows)| && forall j, k :: 0 <= j < k < |who| ==> who[j] < who[k]
    ensures forall k :: 0 <= k < |who| ==> who[k] < |rows| && GoalTask(s, rows[who[k]]) == Some(GoalTasks(s, rows)[k])
    ensures forall i :: 0 <= i < |rows| && GoalTask(s, rows[i]).Some? ==> i in who
  {
    who := [];
    if rows != [] {
      var n := |rows| - 1;
      who := GoalTasksFromRows(s, rows[..n]);
      if GoalTask(s, rows[n]).Some? {
        who := who + [n];
      }
    }
  }

  /** The goals listed are the first of the rows read that have a task, up to the limit; four times as many are read. */
  lemma GoalsListedExactly(s: Sources) returns (who: seq<nat>)
    requires s.goals.Ok?
    ensures forall j, k :: 0 <= j < k < |who| ==> who[j] < who[k] < |s.goals.value| && who[k] < 4 * Limit(s.reading)
    ensures |who| == |GoalPart(s)| <= Limit(s.reading)
    ensures forall k :: 0 <= k < |who| ==>
      who[k] < |s.goals.value| && GoalTask(s, s.goals.value[who[k]]) == Some(GoalPart(s)[k])
    ensures forall i :: 0 <= i < |s.goals.value| && i < 4 * Limit(s.reading) && GoalTask(s, s.goals.value[i]).Some? ==>
      i in who || |who| == Limit(s.reading)
  {
    var rows, limit := Take(s.goals.value, Limit(s.reading) * 4), Limit(s.reading);
    var all := GoalTasksFromRows(s, rows);
    who := if limit < |all| then all[..limit] else all;
    forall i | 0 <= i < |s.goals.value| && i < 4 * limit && GoalTask(s, s.goals.value[i]).Some? ensures
      i in who || |who| == limit
    {
      assert rows[i] == s.goals.value[i];
      assert i in all;
    }
  }

  // ---------- History ----------

  /** A history task has the row's status and its time of change, and no start. */
  lemma HistoryTold(s: Sources, exclude: set<string>, k: nat)
    requires s.index.Ok? && k < |History(s, exclude).tasks|
    ensures var task := History(s, exclude).tasks[k];
      exists i :: 0 <= i < |s.index.value.0| && var row := s.index.value.0[i];
        && row.taskId !in exclude && task.session == row.taskId && task.status == row.status
        && task.updatedAt == Timestamp(row.updated) && task.startedAt == None
  {
    var rows := NotExcluded(s.index.value.0, exclude);
    NotExcludedSessions(s.index.value.0, exclude);
    assert rows[k] in rows;
    var i :| 0 <= i < |s.index.value.0| && s.index.value.0[i] == rows[k];
  }

  // ---------- When there is a collection ----------

  /**
   A collection succeeds exactly when the goals can be read, and the runtime sessions too unless a goal is listed,
   where there is a runtime database; and something is live, or the index can be read.
   */
  lemma SucceedsExactly(s: Sources, runtimeOk: bool)
    ensures Collected(s, runtimeOk).Ok? <==>
      && (s.hasRuntime ==> s.goals.Ok? && (runtimeOk || GoalPart(s) != []))
      && (LiveTasks(s, runtimeOk) != [] || (s.hasIndex && s.index.Ok?))
  {
    if s.hasRuntime {
      LiveShape(s, runtimeOk);
      LiveIsNotEmpty(s, runtimeOk);
    }
  }

  /** An index that cannot be read takes nothing from what is live. */
  lemma LiveSurvivesIndex(s: Sources, runtimeOk: bool)
    requires Collected(s, runtimeOk).Ok? && (!s.hasIndex || s.index.Err?)
    ensures Collected(s, runtimeOk).value.tasks == LiveTasks(s, runtimeOk)
    ensures LiveTasks(s, runtimeOk) != []
  {
    SucceedsExactly(s, runtimeOk);
    LiveShape(s, runtimeOk);
  }
}
