/**
 One collection of ZCode tasks: goals, then runtime sessions that no goal owns, then the task index as
 history. Merging them truncates the list but not the counts, and shows no session twice across live and history.
 */
module Collector {
  import opened Domain
  import opened TurnLog
  import opened UsageRows

  /** A goal with its todos; statuses are normalised words, times are the database's numbers. */
  datatype GoalRow = GoalRow(
    session: string, target: TaskStatus, todos: seq<TaskStatus>, lastSeen: Option<int>, updated: Option<int>,
    started: Option<int>)

  datatype IndexRow = IndexRow(taskId: string, status: TaskStatus, updated: Option<int>)

  /**
   All that one collection reads. `listed` and `counted` are the answers of the index's two queries; the
   index keeps its task ids under the session's id.
   */
  datatype Sources = Sources(
    hasRuntime: bool, hasIndex: bool,
    goals: Result<seq<GoalRow>>, goalNow: int, goalTurns: map<string, State>, recentTerminal: int,
    reading: Reading, order: seq<string>, usage: seq<UsageRow>, fault: Fault,
    index: Result<(seq<IndexRow>, seq<IndexRow>)>)

  // ---------- Goals ----------

  function GoalUpdated(row: GoalRow): Option<int> {
    if Timestamp(row.lastSeen).Some? then Timestamp(row.lastSeen) else Timestamp(row.updated)
  }

  predicate HeartbeatFresh(s: Sources, row: GoalRow) {
    var seen := Timestamp(row.lastSeen);
    seen.Some? && AgeNanos(s.goalNow, seen.value) <= Bounded(s.reading.heartbeat, 120, 3600) * 1_000_000_000
  }

  predicate RecentlyUpdated(s: Sources, row: GoalRow) {
    var updated := GoalUpdated(row);
    updated.Some? && AgeNanos(s.goalNow, updated.value) <= Bounded(s.recentTerminal, 1800, 86400) * 1_000_000_000
  }

  predicate AllCompleted(todos: seq<TaskStatus>) {
    forall t :: t in todos ==> t == Completed
  }

  function GoalStatus(s: Sources, row: GoalRow): Option<TaskStatus> {
    if HeartbeatFresh(s, row) then
      if row.target == Failed then Some(Failed)
      else if row.target == Completed && AllCompleted(row.todos) then Some(Completed)
      else if row.target == Running then Some(Running)
      else if Running in row.todos then Some(Running)
      else if row.target == Waiting || Waiting in row.todos then Some(Waiting)
      else Some(Running)
    else if row.target != Failed && row.target != Completed then None
    else if !RecentlyUpdated(s, row) then None
    else Some(row.target)
  }

  /** A terminal goal whose session still has an open, fresh turn is shown as running. */
  function GoalTask(s: Sources, row: GoalRow): (task: Option<Task>)
    ensures task.Some? ==> task.value.session == row.session
  {
    var status := GoalStatus(s, row);
    if status.None? then None
    else if (status.value == Completed || status.value == Failed) && TurnAlive(s, row.session) then
      var state := s.goalTurns[row.session];
      Some(Task(row.session, Running, if state.startedAt == 0 then Timestamp(row.started) else Some(state.startedAt),
                Some(state.updatedAt)))
    else Some(Task(row.session, status.value, Timestamp(row.started), GoalUpdated(row)))
  }

  predicate TurnAlive(s: Sources, session: string) {
    session in s.goalTurns && Active(s.goalTurns[session], s.goalNow, s.reading.turnFresh)
  }

  function GoalTasks(s: Sources, rows: seq<GoalRow>): seq<Task> {
    if rows == [] then []
    else
      var task := GoalTask(s, rows[|rows| - 1]);
      GoalTasks(s, rows[..|rows| - 1]) + (if task.Some? then [task.value] else [])
  }

  /**
   A goal is shown at work exactly when it has a sign of life, its own heartbeat or its turn, and does not rest
   on it.
   */
  lemma GoalAtWork(s: Sources, row: GoalRow)
    ensures var task := GoalTask(s, row);
      task.Some? && (task.value.status == Running || task.value.status == Waiting)
      <==> if HeartbeatFresh(s, row)
           then
             || TurnAlive(s, row.session)
             || !(row.target == Failed || (row.target == Completed && AllCompleted(row.todos)))
           else
             && TurnAlive(s, row.session) && RecentlyUpdated(s, row)
             && (row.target == Failed || row.target == Completed)
  {
  }

  /** The loop over the goal rows. */
  method ListGoals(s: Sources, rows: seq<GoalRow>, limit: nat) returns (tasks: seq<Task>, sessions: set<string>)
    ensures tasks == Take(GoalTasks(s, rows), limit) && sessions == SessionsOf(tasks)
  {
    tasks, sessions := [], {};
    var i := 0;
    while i < |rows| && |tasks| < limit
      invariant 0 <= i <= |rows| && |tasks| <= limit
      invariant tasks == GoalTasks(s, rows[..i])
      invariant sessions == SessionsOf(tasks)
    {
      OneMoreGoal(s, rows, i);
      var task := GoalTask(s, rows[i]);
      if task.Some? {
        SessionsSnoc(tasks, task.value);
        tasks, sessions := tasks + [task.value], sessions + {rows[i].session};
      }
      i := i + 1;
    }
    GoalsTaken(s, rows, i, tasks, limit);
  }

  method CollectGoals(s: Sources) returns (r: Result<Option<Snapshot>>)
    ensures r.Ok? <==> s.goals.Ok?
    ensures r.Ok? ==> r.value == SnapshotOf(GoalPart(s))
  {
    if s.goals.Err? {
      return Err;
    }
    var limit := Limit(s.reading);
    var tasks, sessions := ListGoals(s, Take(s.goals.value, limit * 4), limit);
    if |tasks| == 0 {
      return Ok(None);
    }
    var summary := SummarizeTasks(tasks);
    return Ok(Some(Snapshot(summary, tasks, sessions)));
  }

  lemma OneMoreGoal(s: Sources, rows: seq<GoalRow>, i: nat)
    requires i < |rows|
    ensures GoalTasks(s, rows[..i + 1])
         == GoalTasks(s, rows[..i]) + (if GoalTask(s, rows[i]).Some? then [GoalTask(s, rows[i]).value] else [])
  {
    assert rows[..i + 1][..i] == rows[..i];
  }

  lemma {:induction false} GoalTasksGrow(s: Sources, rows: seq<GoalRow>, i: nat)
    requires i <= |rows|
    ensures GoalTasks(s, rows[..i]) <= GoalTasks(s, rows)
  {
    if i < |rows| {
      GoalTasksGrow(s, rows[..|rows| - 1], i);
      assert rows[..|rows| - 1][..i] == rows[..i];
    } else {
      assert rows[..i] == rows;
    }
  }

  lemma GoalsTaken(s: Sources, rows: seq<GoalRow>, i: nat, tasks: seq<Task>, limit: nat)
    requires i <= |rows| && tasks == GoalTasks(s, rows[..i]) && |tasks| <= limit
    requires i == |rows| || |tasks| == limit
    ensures tasks == Take(GoalTasks(s, rows), limit)
  {
    if i == |rows| {
      assert rows[..i] == rows;
    } else {
      GoalTasksGrow(s, rows, i);
    }
  }

  // ---------- History ----------

  function IndexTask(row: IndexRow): Task {
    Task(row.taskId, row.status, None, Timestamp(row.updated))
  }

  /** The rows of sessions that are not shown live. */
  function NotExcluded(rows: seq<IndexRow>, exclude: set<string>): seq<IndexRow> {
    if rows == [] then []
    else
      var n := |rows| - 1;
      NotExcluded(rows[..n], exclude) + (if rows[n].taskId in exclude then [] else [rows[n]])
  }

  function IndexTasks(rows: seq<IndexRow>): (tasks: seq<Task>)
    ensures |tasks| == |rows| && forall i :: 0 <= i < |rows| ==> tasks[i] == IndexTask(rows[i])
  {
    seq(|rows|, i requires 0 <= i < |rows| => IndexTask(rows[i]))
  }

  function IndexStatuses(rows: seq<IndexRow>): (r: seq<TaskStatus>)
    ensures |r| == |rows| && forall i :: 0 <= i < |r| ==> r[i] == rows[i].status
  {
    seq(|rows|, i requires 0 <= i < |rows| => rows[i].status)
  }

  function History(s: Sources, exclude: set<string>): Snapshot
    requires s.index.Ok?
  {
    Snapshot(Tally(IndexStatuses(NotExcluded(s.index.value.1, exclude))),
             Take(IndexTasks(NotExcluded(s.index.value.0, exclude)), Limit(s.reading)), {})
  }

  method CollectTaskIndexExcluding(s: Sources, exclude: set<string>) returns (r: Result<Snapshot>)
    ensures r == if s.index.Ok? then Ok(History(s, exclude)) else Err
  {
    if s.index.Err? {
      return Err;
    }
    var listed, counted, limit := s.index.value.0, s.index.value.1, Limit(s.reading);
    var tasks: seq<Task> := [];
    for i := 0 to |listed|
      invariant tasks == Take(IndexTasks(NotExcluded(listed[..i], exclude)), limit)
    {
      OneMoreRow(listed, i, exclude);
      var row := listed[i];
      if row.taskId !in exclude {
        IndexTasksSnoc(NotExcluded(listed[..i], exclude), row);
        if |tasks| < limit {
          tasks := tasks + [IndexTask(row)];
        }
      }
    }
    var counts := NO_TASKS;
    for i := 0 to |counted|
      invariant counts == Tally(IndexStatuses(NotExcluded(counted[..i], exclude)))
    {
      OneMoreRow(counted, i, exclude);
      if counted[i].taskId !in exclude {
        IndexStatusesSnoc(NotExcluded(counted[..i], exclude), counted[i]);
        counts := AddStatus(counts, counted[i].status);
      }
    }
    assert listed[..|listed|] == listed && counted[..|counted|] == counted;
    return Ok(Snapshot(counts, tasks, {}));
  }

  lemma OneMoreRow(rows: seq<IndexRow>, i: nat, exclude: set<string>)
    requires i < |rows|
    ensures rows[i].taskId in exclude ==> NotExcluded(rows[..i + 1], exclude) == NotExcluded(rows[..i], exclude)
    ensures rows[i].taskId !in exclude
        ==> NotExcluded(rows[..i + 1], exclude) == NotExcluded(rows[..i], exclude) + [rows[i]]
  {
    assert rows[..i + 1][..i] == rows[..i];
  }

  lemma IndexTasksSnoc(rows: seq<IndexRow>, row: IndexRow)
    ensures IndexTasks(rows + [row]) == IndexTasks(rows) + [IndexTask(row)]
  {
  }

  lemma IndexStatusesSnoc(rows: seq<IndexRow>, row: IndexRow)
    ensures Tally(IndexStatuses(rows + [row])) == AddStatus(Tally(IndexStatuses(rows)), row.status)
  {
    assert IndexStatuses(rows + [row])[..|rows|] == IndexStatuses(rows);
  }

  // ---------- Merging ----------

  function Plus(a: Summary, b: Summary): Summary {
    Summary(a.running + b.running, a.waiting + b.waiting, a.failed + b.failed, a.completed + b.completed)
  }

  function Room(tasks: seq<Task>, limit: nat): nat {
    if limit < |tasks| then 0 else limit - |tasks|
  }

  function Merged(primary: Snapshot, secondary: Snapshot, limit: nat): Snapshot {
    Snapshot(Plus(primary.summary, secondary.summary),
             primary.tasks + Take(secondary.tasks, Room(primary.tasks, limit)),
             primary.sessions + secondary.sessions)
  }

  function Merge(primary: Option<Snapshot>, secondary: Option<Snapshot>, limit: nat): Option<Snapshot> {
    if primary.None? then secondary else if secondary.None? then primary
    else Some(Merged(primary.value, secondary.value, limit))
  }

  method MergeSnapshots(primary: Option<Snapshot>, secondary: Option<Snapshot>, limit: nat)
    returns (r: Option<Snapshot>)
    ensures r == Merge(primary, secondary, limit)
  {
    if primary.None? {
      return secondary;
    }
    if secondary.None? {
      return primary;
    }
    var p, s := primary.value, secondary.value;
    var summary, tasks, sessions := Plus(p.summary, s.summary), p.tasks, p.sessions + s.sessions;
    var i := 0;
    while i < |s.tasks| && |tasks| < limit
      invariant 0 <= i <= |s.tasks| && tasks == p.tasks + s.tasks[..i]
      invariant |tasks| <= limit || i == 0
    {
      tasks, i := tasks + [s.tasks[i]], i + 1;
    }
    assert s.tasks[..i] == Take(s.tasks, Room(p.tasks, limit));
    return Some(Snapshot(summary, tasks, sessions));
  }

  // ---------- The collection ----------

  /** The tasks each live source contributes, before they are merged. */
  function GoalPart(s: Sources): seq<Task> {
    if s.goals.Err? then [] else Take(GoalTasks(s, Take(s.goals.value, Limit(s.reading) * 4)), Limit(s.reading))
  }

  function RuntimePart(s: Sources): seq<Task> {
    var q := s.reading.(exclude := SessionsOf(GoalPart(s)));
    Take(Shown(q, s.order, Queried(q, s.usage)), Limit(q))
  }

  /** `runtimeOk`: the runtime sessions could be read. */
  function Live(s: Sources, runtimeOk: bool): Option<Snapshot> {
    if !s.hasRuntime then None
    else if !runtimeOk then SnapshotOf(GoalPart(s))
    else Merge(SnapshotOf(GoalPart(s)), SnapshotOf(RuntimePart(s)), Limit(s.reading))
  }

  function Collected(s: Sources, runtimeOk: bool): Result<Snapshot> {
    var live := Live(s, runtimeOk);
    if s.hasRuntime && (s.goals.Err? || (!runtimeOk && GoalPart(s) == [])) then Err
    else if live.Some? then
      Ok(if s.hasIndex && s.index.Ok? then Merged(live.value, History(s, live.value.sessions), Limit(s.reading))
          else live.value)
    else if s.hasIndex && s.index.Ok? then Ok(History(s, {}))
    else Err
  }

  method Collect(s: Sources) returns (r: Result<Snapshot>)
    requires LatestFirst(s.reading, s.order) && SortedByNumber(s.usage)
    ensures exists runtimeOk :: r == Collected(s, runtimeOk)
    ensures s.fault == NoFault ==> r == Collected(s, true)
  {
    var primary: Option<Snapshot>, limit := None, Limit(s.reading);
    ghost var runtimeOk := true;
    if s.hasRuntime {
      var goals := CollectGoals(s);
      if goals.Err? {
        assert Collected(s, true) == Err;
        return Err;
      }
      var owned := if goals.value.Some? then goals.value.value.sessions else {};
      assert owned == SessionsOf(GoalPart(s));
      var runtime := CollectRuntimeSessionsExcluding(s.reading.(exclude := owned), s.order, s.usage, s.fault);
      if runtime.Err? {
        runtimeOk := false;
        if goals.value.None? {
          assert Collected(s, false) == Err;
          return Err;
        }
        primary := goals.value;
      } else {
        primary := MergeSnapshots(goals.value, runtime.value, limit);
      }
    }
    assert primary == Live(s, runtimeOk);
    LiveIsNotEmpty(s, runtimeOk);
    r := Finish(s, primary, runtimeOk);
    assert r == Collected(s, runtimeOk);
  }

  lemma LiveIsNotEmpty(s: Sources, runtimeOk: bool)
    ensures Live(s, runtimeOk).Some? ==> Live(s, runtimeOk).value.tasks != []
  {
  }

  /** History after the live tasks, or in their place. */
  method Finish(s: Sources, primary: Option<Snapshot>, ghost runtimeOk: bool) returns (r: Result<Snapshot>)
    requires primary == Live(s, runtimeOk) && (primary.Some? ==> primary.value.tasks != [])
    requires s.hasRuntime ==> s.goals.Ok? && (runtimeOk || GoalPart(s) != [])
    ensures r == Collected(s, runtimeOk)
  {
    if s.hasIndex {
      var history := CollectTaskIndexExcluding(s, if primary.Some? then primary.value.sessions else {});
      if primary.Some? && |primary.value.tasks| > 0 {
        if history.Err? {
          return Ok(primary.value);
        }
        var merged := MergeSnapshots(primary, Some(history.value), Limit(s.reading));
        return Ok(merged.value);
      }
      return history;
    }
    if primary.Some? && |primary.value.tasks| > 0 {
      return Ok(primary.value);
    }
    return Err;
  }

  // ---------- What a collection keeps ----------

  /** The live tasks, merged and cut to the limit; and every session that goals or runtime sessions own. */
  function LiveTasks(s: Sources, runtimeOk: bool): seq<Task> {
    if s.hasRuntime then Take(GoalPart(s) + (if runtimeOk then RuntimePart(s) else []), Limit(s.reading)) else []
  }

  function LiveSessions(s: Sources, runtimeOk: bool): set<string> {
    if s.hasRuntime then SessionsOf(GoalPart(s)) + (if runtimeOk then SessionsOf(RuntimePart(s)) else {}) else {}
  }

  /** The index rows that both queries answer for sessions not live. */
  function ListedRows(s: Sources, runtimeOk: bool): seq<IndexRow> {
    if s.hasIndex && s.index.Ok? then NotExcluded(s.index.value.0, LiveSessions(s, runtimeOk)) else []
  }

  function CountedRows(s: Sources, runtimeOk: bool): seq<IndexRow> {
    if s.hasIndex && s.index.Ok? then NotExcluded(s.index.value.1, LiveSessions(s, runtimeOk)) else []
  }

  /** All statuses of the goal list, of the runtime list and of the whole index, whether or not the merge lists them. */
  function AllStatuses(s: Sources, runtimeOk: bool): seq<TaskStatus> {
    LiveStatuses(s, runtimeOk) + IndexStatuses(CountedRows(s, runtimeOk))
  }

  function LiveStatuses(s: Sources, runtimeOk: bool): seq<TaskStatus> {
    if s.hasRuntime then Statuses(GoalPart(s)) + (if runtimeOk then Statuses(RuntimePart(s)) else []) else []
  }

  lemma {:induction false} NotExcludedSessions(rows: seq<IndexRow>, exclude: set<string>)
    ensures forall row :: row in NotExcluded(rows, exclude) ==> row in rows && row.taskId !in exclude
  {
    if rows != [] {
      NotExcludedSessions(rows[..|rows| - 1], exclude);
    }
  }

  lemma MergedParts(g: seq<Task>, r: seq<Task>, limit: nat)
    requires |g| <= limit
    ensures var live := Merge(SnapshotOf(g), SnapshotOf(r), limit);
      && (live.None? <==> g == [] && r == [])
      && (live.Some? ==> live.value.sessions == SessionsOf(g) + SessionsOf(r))
      && (live.Some? && |r| <= limit ==> live.value.tasks == Take(g + r, limit))
  {
  }

  lemma LiveShape(s: Sources, runtimeOk: bool)
    requires s.hasRuntime
    ensures var live := Live(s, runtimeOk);
      && (live.None? ==> LiveTasks(s, runtimeOk) == [] && LiveSessions(s, runtimeOk) == {})
      && (live.Some?
          ==> live.value.tasks == LiveTasks(s, runtimeOk) && live.value.sessions == LiveSessions(s, runtimeOk))
  {
    var g := GoalPart(s);
    if runtimeOk {
      MergedParts(g, RuntimePart(s), Limit(s.reading));
    } else {
      assert g + [] == g;
    }
  }

  lemma LiveSessionsInOrder(g: seq<Task>, r: seq<Task>, limit: nat)
    ensures SessionsOf(Take(g + r, limit)) <= SessionsOf(g) + SessionsOf(r)
  {
  }

  /** History after live tasks, cut to the limit. */
  lemma ThenHistory(live: seq<Task>, sessions: set<string>, listed: seq<IndexRow>, limit: nat, tasks: seq<Task>)
    requires |live| <= limit && tasks == Take(live + IndexTasks(listed), limit)
    requires forall row :: row in listed ==> row.taskId !in sessions
    ensures live <= tasks && |tasks| <= limit
    ensures SessionsOf(tasks[|live|..]) !! sessions
  {
    forall t | t in tasks[|live|..] ensures t.session !in sessions {
      var i :| |live| <= i < |tasks| && tasks[i] == t;
      assert t == IndexTask(listed[i - |live|]) && listed[i - |live|] in listed;
    }
  }

  lemma CollectedList(s: Sources, runtimeOk: bool)
    requires Collected(s, runtimeOk).Ok?
    ensures Collected(s, runtimeOk).value.tasks
         == Take(LiveTasks(s, runtimeOk) + IndexTasks(ListedRows(s, runtimeOk)), Limit(s.reading))
  {
    var live, listed := LiveTasks(s, runtimeOk), IndexTasks(ListedRows(s, runtimeOk));
    AppendTaken(live, listed, Limit(s.reading));
    assert live + [] == live && [] + listed == listed;
    if s.hasRuntime {
      LiveShape(s, runtimeOk);
    }
    if Live(s, runtimeOk).Some? {
      LiveThenIndex(s, runtimeOk);
    } else {
      IndexAlone(s, runtimeOk);
    }
  }

  lemma IndexAlone(s: Sources, runtimeOk: bool)
    requires Collected(s, runtimeOk).Ok? && Live(s, runtimeOk).None?
    ensures s.hasIndex && s.index.Ok?
    ensures Collected(s, runtimeOk).value.tasks == Take(IndexTasks(NotExcluded(s.index.value.0, {})), Limit(s.reading))
  {
  }

  lemma LiveThenIndex(s: Sources, runtimeOk: bool)
    requires Collected(s, runtimeOk).Ok? && Live(s, runtimeOk).Some?
    ensures var live, room := Live(s, runtimeOk).value, Room(Live(s, runtimeOk).value.tasks, Limit(s.reading));
      Collected(s, runtimeOk).value.tasks
      == if s.hasIndex && s.index.Ok?
         then live.tasks + Take(Take(IndexTasks(NotExcluded(s.index.value.0, live.sessions)), Limit(s.reading)), room)
         else live.tasks
  {
  }

  lemma AppendTaken(live: seq<Task>, more: seq<Task>, limit: nat)
    requires |live| <= limit
    ensures live + Take(Take(more, limit), Room(live, limit)) == Take(live + more, limit)
  {
  }

  /**
   The list is the live tasks, then history, at most the limit; no session is in both parts, whether or not the
   live part had to be cut.
   */
  lemma ListIsLiveThenHistory(s: Sources, runtimeOk: bool)
    requires Collected(s, runtimeOk).Ok?
    ensures var tasks, live := Collected(s, runtimeOk).value.tasks, LiveTasks(s, runtimeOk);
      && live <= tasks && |tasks| <= Limit(s.reading)
      && SessionsOf(tasks[|live|..]) !! LiveSessions(s, runtimeOk) && SessionsOf(live) <= LiveSessions(s, runtimeOk)
  {
    CollectedList(s, runtimeOk);
    if s.hasRuntime {
      LiveSessionsInOrder(GoalPart(s), if runtimeOk then RuntimePart(s) else [], Limit(s.reading));
    }
    if s.hasIndex && s.index.Ok? {
      NotExcludedSessions(s.index.value.0, LiveSessions(s, runtimeOk));
    }
    ThenHistory(LiveTasks(s, runtimeOk), LiveSessions(s, runtimeOk), ListedRows(s, runtimeOk), Limit(s.reading),
                Collected(s, runtimeOk).value.tasks);
  }

  lemma TakenSessions(tasks: seq<Task>, limit: nat)
    ensures SessionsOf(Take(tasks, limit)) <= SessionsOf(tasks)
  {
  }

  /** Goals and runtime sessions never show the same session, and no runtime session is shown twice. */
  lemma LivePartsAreDisjoint(s: Sources)
    requires LatestFirst(s.reading, s.order)
    ensures SessionsOf(GoalPart(s)) !! SessionsOf(RuntimePart(s)) && OncePerSession(RuntimePart(s))
  {
    var q := s.reading.(exclude := SessionsOf(GoalPart(s)));
    EachSessionOnce(q, s.order, Queried(q, s.usage));
    TakenSessions(Shown(q, s.order, Queried(q, s.usage)), Limit(q));
    forall id | id in SessionsOf(RuntimePart(s)) ensures id !in q.exclude {
      ShownExactly(q, s.order, Queried(q, s.usage), id);
    }
  }

  lemma PlusCounts(a: Summary, b: Summary, status: TaskStatus)
    ensures CountOf(Plus(a, b), status) == CountOf(a, status) + CountOf(b, status)
  {
  }

  lemma LiveCounts(s: Sources, runtimeOk: bool, status: TaskStatus)
    requires status != Unknown && s.hasRuntime && Live(s, runtimeOk).Some?
    ensures CountOf(Live(s, runtimeOk).value.summary, status)
         == multiset(Statuses(GoalPart(s)))[status]
             + (if runtimeOk then multiset(Statuses(RuntimePart(s)))[status] else 0)
  {
    var g, r := Statuses(GoalPart(s)), Statuses(RuntimePart(s));
    TallyCounts(g, status);
    TallyCounts(r, status);
    PlusCounts(Tally(g), Tally(r), status);
  }

  /** For each status the summary counts every task of the goal list, of the runtime list and of the whole index. */
  lemma CountsAreConserved(s: Sources, runtimeOk: bool, status: TaskStatus)
    requires status != Unknown && Collected(s, runtimeOk).Ok?
    ensures CountOf(Collected(s, runtimeOk).value.summary, status) == multiset(AllStatuses(s, runtimeOk))[status]
  {
    if s.hasRuntime {
      LiveShape(s, runtimeOk);
    }
    var counted := IndexStatuses(CountedRows(s, runtimeOk));
    TallyCounts(counted, status);
    var live := Live(s, runtimeOk);
    if live.Some? {
      LiveCounts(s, runtimeOk, status);
      PlusCounts(live.value.summary, Tally(counted), status);
    }
  }
}
