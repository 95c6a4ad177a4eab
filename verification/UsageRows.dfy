/**
 Runtime sessions: fresh open turns first, then one pass over the usage rows, newest first, with a set of
 sessions already seen. The pass is shown to be the per-session rule: only a session's newest row counts.
 */
module UsageRows {
  import opened Domain
  import opened TimeOrder
  import opened TurnLog

  /** The part of a task summary that says what is shown and when. Times are as in the turn log. */
  datatype Task = Task(session: string, status: TaskStatus, startedAt: Option<int>, updatedAt: Option<int>)

  /** A usage row joined with its session; `started` is the database's number, `status` its normalised word. */
  datatype UsageRow = UsageRow(session: string, status: TaskStatus, started: int)

  datatype Snapshot = Snapshot(summary: Summary, tasks: seq<Task>, sessions: set<string>)

  datatype Summary = Summary(running: nat, waiting: nat, failed: nat, completed: nat)

  /**
   What one collection reads: the sessions owned by goals, the folded turn log, the session table, the clock
   and the collector's settings.
   */
  datatype Reading = Reading(
    exclude: set<string>, turns: map<string, State>, known: set<string>, now: int,
    taskLimit: int, turnFresh: int, heartbeat: int)

  // ---------- Times ----------

  /** The Unix epoch, in nanoseconds since Go's zero time. */
  const EPOCH := 62_135_596_800_000_000_000

  /** A database number is microseconds, milliseconds or seconds, by its size. */
  function Unit(raw: int): int {
    if raw > 100_000_000_000_000 then 1_000 else if raw > 100_000_000_000 then 1_000_000 else 1_000_000_000
  }

  function Timestamp(raw: Option<int>): Option<int> {
    if raw.None? || raw.value <= 0 then None else Some(EPOCH + raw.value * Unit(raw.value))
  }

  /** The epoch is the start of 1970, counted from the start of the year 1. */
  lemma EpochIs1970(year: nat, first: nat)
    requires year == 1970 && first == 1
    ensures EPOCH == Nanos(Civil(year, 1, 1, 0, 0, 0, 0)) - Nanos(Civil(first, 1, 1, 0, 0, 0, 0))
  {
    StartOfYear(year);
    StartOfYear(first);
    DaysTo1970(year, first);
  }

  lemma DaysTo1970(year: nat, first: nat)
    requires year == 1970 && first == 1
    ensures DaysBeforeYear(year) - DaysBeforeYear(first) == 719_162
  {
    DaysClosed(year);
    DaysClosed(first);
  }

  /** A time in seconds, in milliseconds and in microseconds is one time: that many seconds after the epoch. */
  lemma OneTimeInAnyUnit(seconds: int)
    requires 100_000_000 < seconds <= 100_000_000_000
    ensures Timestamp(Some(seconds)) == Some(EPOCH + seconds * 1_000_000_000)
    ensures Timestamp(Some(seconds * 1_000)) == Timestamp(Some(seconds * 1_000_000)) == Timestamp(Some(seconds))
  {
  }

  /** For numbers of different units: the larger makes up for its smaller unit. */
  predicate NotBehind(a: int, b: int) {
    Unit(a) == Unit(b) || b >= a * (Unit(a) / Unit(b))
  }

  /** Which of two numbers is the later time; the larger one is not always. */
  lemma LaterExactly(a: int, b: int)
    requires 0 < a < b
    ensures Timestamp(Some(a)).value < Timestamp(Some(b)).value <==> Unit(a) == Unit(b) || b > a * (Unit(a) / Unit(b))
    ensures Timestamp(Some(a)).value <= Timestamp(Some(b)).value <==> NotBehind(a, b)
  {
    var u, v := Unit(a), Unit(b);
    assert u == v || (u == 1_000_000_000 && v == 1_000_000) || (u == 1_000_000_000 && v == 1_000)
        || (u == 1_000_000 && v == 1_000);
    assert u == v || u / v == 1_000 || u / v == 1_000_000;
    assert a * u == (a * (u / v)) * v;
  }

  // ---------- Counting by status ----------

  function CountOf(s: Summary, status: TaskStatus): nat {
    match status
    case Running => s.running
    case Waiting => s.waiting
    case Failed => s.failed
    case Completed => s.completed
    case Unknown => 0
  }

  function AddStatus(s: Summary, status: TaskStatus): (r: Summary)
    ensures forall other ::
              CountOf(r, other) == CountOf(s, other) + (if other == status && status != Unknown then 1 else 0)
  {
    match status
    case Running => s.(running := s.running + 1)
    case Waiting => s.(waiting := s.waiting + 1)
    case Failed => s.(failed := s.failed + 1)
    case Completed => s.(completed := s.completed + 1)
    case Unknown => s
  }

  const NO_TASKS := Summary(0, 0, 0, 0)

  function Statuses(tasks: seq<Task>): (r: seq<TaskStatus>)
    ensures |r| == |tasks| && forall i :: 0 <= i < |r| ==> r[i] == tasks[i].status
  {
    seq(|tasks|, i requires 0 <= i < |tasks| => tasks[i].status)
  }

  function Tally(statuses: seq<TaskStatus>): Summary {
    if statuses == [] then NO_TASKS else AddStatus(Tally(statuses[..|statuses| - 1]), statuses[|statuses| - 1])
  }

  /** A summary counts how often each known status occurs. */
  lemma {:induction false} TallyCounts(statuses: seq<TaskStatus>, status: TaskStatus)
    requires status != Unknown
    ensures CountOf(Tally(statuses), status) == multiset(statuses)[status]
  {
    if statuses != [] {
      var n := |statuses| - 1;
      TallyCounts(statuses[..n], status);
      assert statuses == statuses[..n] + [statuses[n]];
    }
  }

  method SummarizeTasks(tasks: seq<Task>) returns (s: Summary)
    ensures s == Tally(Statuses(tasks))
  {
    s := NO_TASKS;
    for i := 0 to |tasks|
      invariant s == Tally(Statuses(tasks)[..i])
    {
      s := AddStatus(s, tasks[i].status);
      assert Statuses(tasks)[..i + 1][..i] == Statuses(tasks)[..i];
    }
    assert Statuses(tasks)[..|tasks|] == Statuses(tasks);
  }

  /** The snapshot of a source that found these tasks. */
  function SnapshotOf(tasks: seq<Task>): Option<Snapshot> {
    if tasks == [] then None else Some(Snapshot(Tally(Statuses(tasks)), tasks, SessionsOf(tasks)))
  }

  // ---------- The rule per session ----------

  function Limit(q: Reading): (n: int)
    ensures 1 <= n <= 100
  {
    Bounded(q.taskLimit, 20, 100)
  }

  function FreshSeconds(q: Reading): int {
    var n := Bounded(q.heartbeat, 120, 3600);
    if n < 600 then 600 else n
  }

  predicate TurnShown(q: Reading, id: string) {
    id in q.turns && id !in q.exclude && id in q.known && Active(q.turns[id], q.now, q.turnFresh)
  }

  function TurnTask(q: Reading, id: string): Task
    requires id in q.turns
  {
    var s := q.turns[id];
    Task(id, Running, Some(if s.startedAt == 0 then s.updatedAt else s.startedAt), Some(s.updatedAt))
  }

  /** A row newer than every turn event of its session, fresh, and running or waiting. */
  predicate Eligible(q: Reading, r: UsageRow) {
    var started := Timestamp(Some(r.started));
    && started.Some?
    && (r.session in q.turns && q.turns[r.session].updatedAt != 0 ==> started.value > q.turns[r.session].updatedAt)
    && AgeNanos(q.now, started.value) <= FreshSeconds(q) * 1_000_000_000
    && (r.status == Running || r.status == Waiting)
  }

  /** The query's order: by number, the largest first. */
  ghost predicate SortedByNumber(rows: seq<UsageRow>) {
    forall i, j :: 0 <= i < j < |rows| ==> rows[i].started >= rows[j].started
  }

  /** The row with the largest number of its session, the first of them if several have it. */
  predicate Newest(rows: seq<UsageRow>, i: nat)
    requires i < |rows|
  {
    forall j :: 0 <= j < |rows| && rows[j].session == rows[i].session && j != i ==>
      rows[j].started < rows[i].started || (rows[j].started == rows[i].started && i < j)
  }

  /** In sorted rows that is the first row of the session. */
  lemma FirstIsNewest(rows: seq<UsageRow>, i: nat)
    requires SortedByNumber(rows) && i < |rows|
    ensures Newest(rows, i) <==> forall j :: 0 <= j < i ==> rows[j].session != rows[i].session
  {
  }

  predicate RowShown(q: Reading, rows: seq<UsageRow>, i: nat)
    requires i < |rows|
  {
    && Newest(rows, i) && rows[i].session !in q.exclude && !TurnShown(q, rows[i].session)
    && Eligible(q, rows[i])
  }

  function RowTask(r: UsageRow): Task {
    Task(r.session, r.status, Timestamp(Some(r.started)), Timestamp(Some(r.started)))
  }

  function TurnTasks(q: Reading, order: seq<string>): seq<Task> {
    if order == [] then []
    else
      var id := order[|order| - 1];
      TurnTasks(q, order[..|order| - 1]) + (if TurnShown(q, id) then [TurnTask(q, id)] else [])
  }

  function RowTasks(q: Reading, rows: seq<UsageRow>, n: nat): seq<Task>
    requires n <= |rows|
  {
    if n == 0 then []
    else RowTasks(q, rows, n - 1) + (if RowShown(q, rows, n - 1) then [RowTask(rows[n - 1])] else [])
  }

  /** Everything the rule shows, before the limit. */
  function Shown(q: Reading, order: seq<string>, rows: seq<UsageRow>): seq<Task> {
    TurnTasks(q, order) + RowTasks(q, rows, |rows|)
  }

  function SessionsOf(tasks: seq<Task>): set<string> {
    set t | t in tasks :: t.session
  }

  /** `order` lists the sessions with turn states once each, latest activity first, as the sort leaves them. */
  ghost predicate LatestFirst(q: Reading, order: seq<string>) {
    && (forall id :: id in order <==> id in q.turns)
    && (forall i, j :: 0 <= i < j < |order| ==> order[i] != order[j])
    && Descending(q, order)
  }

  ghost predicate Descending(q: Reading, order: seq<string>) {
    forall i, j :: 0 <= i < j < |order| && order[i] in q.turns && order[j] in q.turns ==>
      q.turns[order[i]].updatedAt >= q.turns[order[j]].updatedAt
  }

  // ---------- What each listed task says ----------

  /** A task from a turn runs; it is as recent as the turn's last activity, and started with it or then. */
  predicate ToldByTurn(q: Reading, t: Task) {
    && t.session in q.turns && t.status == Running
    && t.updatedAt == Some(q.turns[t.session].updatedAt)
    && (q.turns[t.session].startedAt != 0 ==> t.startedAt == Some(q.turns[t.session].startedAt))
    && (q.turns[t.session].startedAt == 0 ==> t.startedAt == t.updatedAt)
  }

  /** A task from row `i` has its status, and the row's time as both of its times. */
  predicate ToldByRow(rows: seq<UsageRow>, i: nat, t: Task) {
    && i < |rows| && rows[i].started > 0 && t.session == rows[i].session && t.status == rows[i].status
    && t.startedAt == t.updatedAt == Timestamp(Some(rows[i].started))
  }

  /** A shown turn tells its task; any other task is told by the row of its session with the largest number. */
  ghost predicate Told(q: Reading, rows: seq<UsageRow>, t: Task) {
    if TurnShown(q, t.session) then ToldByTurn(q, t)
    else exists i: nat :: ToldByRow(rows, i, t) && Newest(rows, i)
  }

  lemma {:induction false} TurnTasksTold(q: Reading, order: seq<string>, t: Task)
    requires t in TurnTasks(q, order)
    ensures TurnShown(q, t.session) && ToldByTurn(q, t)
  {
    var n := |order| - 1;
    if t in TurnTasks(q, order[..n]) {
      TurnTasksTold(q, order[..n], t);
    }
  }

  lemma {:induction false} RowTasksTold(q: Reading, rows: seq<UsageRow>, n: nat, t: Task) returns (i: nat)
    requires n <= |rows| && t in RowTasks(q, rows, n)
    ensures i < n && ToldByRow(rows, i, t) && RowShown(q, rows, i)
  {
    if t in RowTasks(q, rows, n - 1) {
      i := RowTasksTold(q, rows, n - 1, t);
    } else {
      i := n - 1;
    }
  }

  lemma ShownIsTold(q: Reading, order: seq<string>, rows: seq<UsageRow>, t: Task)
    requires t in Shown(q, order, rows)
    ensures Told(q, rows, t)
  {
    if t in TurnTasks(q, order) {
      TurnTasksTold(q, order, t);
    } else {
      var i := RowTasksTold(q, rows, |rows|, t);
    }
  }

  /** The rows listed, `who`, go from the largest number down. */
  ghost predicate RowsInOrder(q: Reading, rows: seq<UsageRow>, tasks: seq<Task>, who: seq<nat>) {
    && |who| == |tasks| && (forall j, k :: 0 <= j < k < |who| ==> who[j] < who[k])
    && (forall k :: 0 <= k < |who| ==> ToldByRow(rows, who[k], tasks[k]))
  }

  lemma {:induction false} RowTasksInOrder(q: Reading, rows: seq<UsageRow>, n: nat) returns (who: seq<nat>)
    requires n <= |rows|
    ensures RowsInOrder(q, rows, RowTasks(q, rows, n), who) && forall k :: 0 <= k < |who| ==> who[k] < n
  {
    who := [];
    if n > 0 {
      who := RowTasksInOrder(q, rows, n - 1);
      if RowShown(q, rows, n - 1) {
        who := who + [n - 1];
      }
    }
  }

  /** What a collection of runtime sessions hands on: told tasks, counted by status, with their sessions. */
  ghost predicate Accounts(q: Reading, rows: seq<UsageRow>, s: Snapshot) {
    && s.tasks != [] && (forall t :: t in s.tasks ==> Told(q, rows, t))
    && s.summary.running == multiset(Statuses(s.tasks))[Running]
    && s.summary.waiting == multiset(Statuses(s.tasks))[Waiting]
    && s.summary.failed == multiset(Statuses(s.tasks))[Failed]
    && s.summary.completed == multiset(Statuses(s.tasks))[Completed]
    && (forall id :: id in s.sessions <==> exists t :: t in s.tasks && t.session == id)
  }

  lemma SnapshotAccounts(q: Reading, order: seq<string>, rows: seq<UsageRow>, limit: nat)
    requires Take(Shown(q, order, rows), limit) != []
    ensures Accounts(q, rows, SnapshotOf(Take(Shown(q, order, rows), limit)).value)
  {
    var tasks := Take(Shown(q, order, rows), limit);
    forall t | t in tasks ensures Told(q, rows, t) {
      ShownIsTold(q, order, rows, t);
    }
    TallyCounts(Statuses(tasks), Running);
    TallyCounts(Statuses(tasks), Waiting);
    TallyCounts(Statuses(tasks), Failed);
    TallyCounts(Statuses(tasks), Completed);
  }

  // ---------- The program ----------

  lemma SessionsSnoc(tasks: seq<Task>, t: Task)
    ensures SessionsOf(tasks + [t]) == SessionsOf(tasks) + {t.session}
  {
    assert t in tasks + [t];
    forall u | u in tasks ensures u in tasks + [t] {
    }
  }

  lemma OneMoreTurn(q: Reading, order: seq<string>, i: nat)
    requires i < |order|
    ensures TurnTasks(q, order[..i + 1])
         == TurnTasks(q, order[..i]) + (if TurnShown(q, order[i]) then [TurnTask(q, order[i])] else [])
  {
    assert order[..i + 1][..i] == order[..i];
  }

  /** Reading number `fault` fails, if there is one: the session lookups of the turns count first, then the rows. */
  datatype Fault = NoFault | TurnLookup(index: nat) | RowScan(index: nat)

  lemma {:induction false} TurnTasksGrow(q: Reading, order: seq<string>, n: nat)
    requires n <= |order|
    ensures TurnTasks(q, order[..n]) <= TurnTasks(q, order)
    decreases |order|
  {
    if n < |order| {
      TurnTasksGrow(q, order[..|order| - 1], n);
      assert order[..|order| - 1][..n] == order[..n];
    } else {
      assert order[..n] == order;
    }
  }

  method CollectActiveTurns(q: Reading, order: seq<string>, fault: Fault)
    returns (r: Result<(seq<Task>, set<string>)>)
    requires LatestFirst(q, order)
    ensures !fault.TurnLookup? ==> r.Ok?
    ensures r.Ok? ==> r.value.0 == Take(TurnTasks(q, order), Limit(q)) && r.value.1 == SessionsOf(r.value.0)
    ensures r.Ok? ==> LatestTurns(q, r.value.0) && MostRecentFirst(r.value.0)
    ensures r.Ok? ==> forall t :: t in r.value.0 ==> ToldByTurn(q, t)
  {
    var tasks: seq<Task>, sessions: set<string> := [], {};
    var i, limit := 0, Limit(q);
    while i < |order| && |tasks| < limit
      invariant 0 <= i <= |order| && |tasks| <= limit
      invariant tasks == TurnTasks(q, order[..i])
      invariant sessions == SessionsOf(tasks)
    {
      var id := order[i];
      OneMoreTurn(q, order, i);
      assert id in order;
      if id !in q.exclude && Active(q.turns[id], q.now, q.turnFresh) {
        if fault == TurnLookup(i) {
          return Err;
        }
        if id in q.known {
          SessionsSnoc(tasks, TurnTask(q, id));
          tasks, sessions := tasks + [TurnTask(q, id)], sessions + {id};
        }
      }
      i := i + 1;
    }
    TurnsCollected(q, order, i, tasks);
    return Ok((tasks, sessions));
  }

  /** The tasks go from the most recent on. */
  ghost predicate MostRecentFirst(tasks: seq<Task>) {
    forall i, j :: 0 <= i < j < |tasks| && tasks[i].updatedAt.Some? && tasks[j].updatedAt.Some? ==>
      tasks[i].updatedAt.value >= tasks[j].updatedAt.value
  }

  lemma {:induction false} TurnTasksDescend(q: Reading, order: seq<string>)
    requires Descending(q, order)
    ensures MostRecentFirst(TurnTasks(q, order))
  {
    if order != [] {
      var n := |order| - 1;
      TurnTasksDescend(q, order[..n]);
      var earlier := TurnTasks(q, order[..n]);
      forall i | 0 <= i < |earlier| && TurnShown(q, order[n])
        ensures earlier[i].updatedAt.Some? && earlier[i].updatedAt.value >= q.turns[order[n]].updatedAt
      {
        TurnTasksTold(q, order[..n], earlier[i]);
        TurnSessions(q, order[..n], earlier[i].session);
        var j :| 0 <= j < n && order[j] == earlier[i].session;
      }
    }
  }

  lemma TurnsCollected(q: Reading, order: seq<string>, i: nat, tasks: seq<Task>)
    requires LatestFirst(q, order) && i <= |order| && tasks == TurnTasks(q, order[..i]) && |tasks| <= Limit(q)
    requires i == |order| || |tasks| == Limit(q)
    ensures tasks == Take(TurnTasks(q, order), Limit(q))
    ensures LatestTurns(q, tasks) && MostRecentFirst(tasks) && forall t :: t in tasks ==> ToldByTurn(q, t)
  {
    TurnsTaken(q, order, i, tasks, Limit(q));
    TakenAreLatest(q, order, i, tasks);
    DescendingPrefix(q, order, i);
    TurnTasksDescend(q, order[..i]);
    forall t | t in tasks ensures ToldByTurn(q, t) {
      TurnTasksTold(q, order[..i], t);
    }
  }

  lemma DescendingPrefix(q: Reading, order: seq<string>, i: nat)
    requires Descending(q, order) && i <= |order|
    ensures Descending(q, order[..i])
  {
  }

  /** A shown turn is left out only at the limit, and only behind turns at least as recent. */
  ghost predicate LatestTurns(q: Reading, tasks: seq<Task>) {
    && (forall t :: t in tasks ==> TurnShown(q, t.session))
    && (forall id :: TurnShown(q, id) && id !in SessionsOf(tasks) ==> |tasks| == Limit(q) && NoneOlder(q, tasks, id))
  }

  ghost predicate NoneOlder(q: Reading, tasks: seq<Task>, id: string) {
    id in q.turns && forall t :: t in tasks ==>
        t.session in q.turns && q.turns[t.session].updatedAt >= q.turns[id].updatedAt
  }

  lemma TakenAreLatest(q: Reading, order: seq<string>, i: nat, tasks: seq<Task>)
    requires LatestFirst(q, order) && i <= |order| && tasks == TurnTasks(q, order[..i])
    requires i == |order| || |tasks| == Limit(q)
    ensures LatestTurns(q, tasks)
  {
    forall t | t in tasks ensures TurnShown(q, t.session) {
      TurnSessions(q, order[..i], t.session);
    }
    forall id | TurnShown(q, id) && id !in SessionsOf(tasks) ensures |tasks| == Limit(q) && NoneOlder(q, tasks, id) {
      LeftOutIsLater(q, order, i, tasks, id);
    }
  }

  lemma LeftOutIsLater(q: Reading, order: seq<string>, i: nat, tasks: seq<Task>, id: string)
    requires Descending(q, order) && id in order && i <= |order| && tasks == TurnTasks(q, order[..i])
    requires TurnShown(q, id) && id !in SessionsOf(tasks)
    ensures i < |order| && NoneOlder(q, tasks, id)
  {
    TurnSessions(q, order[..i], id);
    var m := IndexAfter(order, i, id);
    forall t | t in tasks ensures t.session in q.turns && q.turns[t.session].updatedAt >= q.turns[id].updatedAt {
      TurnSessions(q, order[..i], t.session);
      var j :| 0 <= j < i && order[..i][j] == t.session;
      assert order[j] == t.session;
    }
  }

  lemma IndexAfter(order: seq<string>, i: nat, id: string) returns (m: nat)
    requires i <= |order| && id in order && id !in order[..i]
    ensures i <= m < |order| && order[m] == id
  {
    assert order == order[..i] + order[i..];
    var k :| 0 <= k < |order[i..]| && order[i..][k] == id;
    m := i + k;
  }

  lemma TurnsTaken(q: Reading, order: seq<string>, i: nat, tasks: seq<Task>, limit: nat)
    requires i <= |order| && tasks == TurnTasks(q, order[..i]) && |tasks| <= limit
    requires i == |order| || |tasks| == limit
    ensures tasks == Take(TurnTasks(q, order), limit)
  {
    if i == |order| {
      assert order[..i] == order;
    } else {
      TurnTasksGrow(q, order, i);
    }
  }

  lemma {:induction false} RowTasksGrow(q: Reading, rows: seq<UsageRow>, n: nat, m: nat)
    requires n <= m <= |rows|
    ensures RowTasks(q, rows, n) <= RowTasks(q, rows, m)
  {
    if n < m {
      RowTasksGrow(q, rows, n, m - 1);
    }
  }

  /** The sessions the pass has marked: those shown from a turn, and those of earlier rows that are not excluded. */
  ghost predicate Marked(q: Reading, rows: seq<UsageRow>, n: nat, turnSessions: set<string>, seen: set<string>)
    requires n <= |rows|
  {
    forall id :: id in seen
        <==> id in turnSessions || (id !in q.exclude && exists j :: 0 <= j < n && rows[j].session == id)
  }

  lemma MarkedIsNewest(q: Reading, rows: seq<UsageRow>, n: nat, turnSessions: set<string>, seen: set<string>)
    requires n < |rows| && Marked(q, rows, n, turnSessions, seen) && SortedByNumber(rows)
    requires forall id :: id in turnSessions <==> TurnShown(q, id)
    requires rows[n].session !in q.exclude
    ensures rows[n].session !in seen <==> Newest(rows, n) && !TurnShown(q, rows[n].session)
  {
    FirstIsNewest(rows, n);
  }

  /** One row of the pass: it is marked unless it is excluded or marked already, and then shown if it is eligible. */
  lemma PassRow(q: Reading, rows: seq<UsageRow>, n: nat, turnSessions: set<string>, seen: set<string>)
    requires n < |rows| && Marked(q, rows, n, turnSessions, seen) && SortedByNumber(rows)
    requires forall id :: id in turnSessions <==> TurnShown(q, id)
    ensures var passed := rows[n].session in q.exclude || rows[n].session in seen;
      && RowTasks(q, rows, n + 1)
         == RowTasks(q, rows, n) + (if !passed && Eligible(q, rows[n]) then [RowTask(rows[n])] else [])
      && Marked(q, rows, n + 1, turnSessions, if passed then seen else seen + {rows[n].session})
  {
    if rows[n].session !in q.exclude {
      MarkedIsNewest(q, rows, n, turnSessions, seen);
    }
  }

  /** Without the limit in the way, the sessions of the turn tasks are those the rule shows from a turn. */
  lemma {:induction false} TurnSessions(q: Reading, order: seq<string>, id: string)
    ensures id in SessionsOf(TurnTasks(q, order)) <==> id in order && TurnShown(q, id)
  {
    if order != [] {
      var n := |order| - 1;
      TurnSessions(q, order[..n], id);
      var earlier := TurnTasks(q, order[..n]);
      if TurnShown(q, order[n]) {
        SessionsSnoc(earlier, TurnTask(q, order[n]));
      }
      assert id in order <==> id in order[..n] || id == order[n];
    }
  }

  /** The rows the query returns: of the table in the query's order, up to eight times the limit. */
  function Queried(q: Reading, table: seq<UsageRow>): seq<UsageRow> {
    Take(table, Limit(q) * 8)
  }

  /** The newest-row loop, after the turns have given `tasks`. */
  method CollectUsageRows(
      q: Reading, rows: seq<UsageRow>, turnTasks: seq<Task>, turnSessions: set<string>, fault: Fault)
    returns (r: Result<(seq<Task>, set<string>)>)
    requires turnSessions == SessionsOf(turnTasks) && |turnTasks| < Limit(q) && SortedByNumber(rows)
    requires forall id :: id in turnSessions <==> TurnShown(q, id)
    ensures !fault.RowScan? ==> r.Ok?
    ensures r.Ok?
        ==> r.value.0 == Take(turnTasks + RowTasks(q, rows, |rows|), Limit(q)) && r.value.1 == SessionsOf(r.value.0)
  {
    var tasks, sessions, seen := turnTasks, turnSessions, turnSessions;
    var i, limit := 0, Limit(q);
    while i < |rows| && |tasks| < limit
      invariant 0 <= i <= |rows| && |tasks| <= limit
      invariant tasks == turnTasks + RowTasks(q, rows, i)
      invariant sessions == SessionsOf(tasks)
      invariant Marked(q, rows, i, turnSessions, seen)
    {
      if fault == RowScan(i) {
        return Err;
      }
      var row := rows[i];
      PassRow(q, rows, i, turnSessions, seen);
      if row.session !in q.exclude && row.session !in seen {
        seen := seen + {row.session};
        if Eligible(q, row) {
          SessionsSnoc(tasks, RowTask(row));
          tasks, sessions := tasks + [RowTask(row)], sessions + {row.session};
        }
      }
      i := i + 1;
    }
    RowTasksGrow(q, rows, i, |rows|);
    return Ok((tasks, sessions));
  }

  method CollectRuntimeSessionsExcluding(q: Reading, order: seq<string>, table: seq<UsageRow>, fault: Fault)
    returns (r: Result<Option<Snapshot>>)
    requires LatestFirst(q, order) && SortedByNumber(table)
    ensures fault == NoFault ==> r.Ok?
    ensures r.Ok? ==> r.value == SnapshotOf(Take(Shown(q, order, Queried(q, table)), Limit(q)))
    ensures r.Ok? && r.value.Some? ==> Accounts(q, Queried(q, table), r.value.value)
  {
    if Take(Shown(q, order, Queried(q, table)), Limit(q)) != [] {
      SnapshotAccounts(q, order, Queried(q, table), Limit(q));
    }
    var turns := CollectActiveTurns(q, order, fault);
    if turns.Err? {
      return Err;
    }
    var tasks, sessions := turns.value.0, turns.value.1;
    if |tasks| >= Limit(q) {
      assert Take(Shown(q, order, Queried(q, table)), Limit(q)) == tasks;
      var full := SummarizeTasks(tasks);
      return Ok(Some(Snapshot(full, tasks, sessions)));
    }
    forall id ensures id in sessions <==> TurnShown(q, id) {
      TurnSessions(q, order, id);
    }
    var rowed := CollectUsageRows(q, Queried(q, table), tasks, sessions, fault);
    if rowed.Err? {
      return Err;
    }
    tasks, sessions := rowed.value.0, rowed.value.1;
    if |tasks| == 0 {
      return Ok(None);
    }
    var summary := SummarizeTasks(tasks);
    return Ok(Some(Snapshot(summary, tasks, sessions)));
  }

  // ---------- What the rule means ----------

  /** Where a row task comes from. */
  lemma {:induction false} RowTaskOrigin(q: Reading, rows: seq<UsageRow>, n: nat, id: string)
    requires n <= |rows|
    ensures id in SessionsOf(RowTasks(q, rows, n))
        <==> exists i :: 0 <= i < n && rows[i].session == id && RowShown(q, rows, i)
  {
    if n > 0 {
      RowTaskOrigin(q, rows, n - 1, id);
      if RowShown(q, rows, n - 1) {
        SessionsSnoc(RowTasks(q, rows, n - 1), RowTask(rows[n - 1]));
      }
    }
  }

  /** The newest row of the session, and whether it alone would show the session. */
  predicate NewestRowShows(q: Reading, rows: seq<UsageRow>, id: string) {
    exists i :: 0 <= i < |rows| && rows[i].session == id && Newest(rows, i) && Eligible(q, rows[i])
  }

  /** The newest row that the query returns for a session is its newest in the whole table. */
  lemma NewestInTable(q: Reading, table: seq<UsageRow>, i: nat)
    requires SortedByNumber(table) && i < |Queried(q, table)| && Newest(Queried(q, table), i)
    ensures Newest(table, i)
  {
    FirstIsNewest(Queried(q, table), i);
    FirstIsNewest(table, i);
  }

  lemma SessionsConcat(a: seq<Task>, b: seq<Task>)
    ensures SessionsOf(a + b) == SessionsOf(a) + SessionsOf(b)
  {
    forall t | t in a || t in b ensures t in a + b {
    }
  }

  /**
   Before the cut at the limit a session is listed exactly when no goal owns it and either its turn is open and
   fresh or its newest row is eligible. So a running row never lists a session that its newest row does not.
   */
  lemma ShownExactly(q: Reading, order: seq<string>, rows: seq<UsageRow>, id: string)
    requires LatestFirst(q, order)
    ensures id in SessionsOf(Shown(q, order, rows))
       <==> TurnShown(q, id) || (id !in q.exclude && NewestRowShows(q, rows, id))
  {
    TurnSessions(q, order, id);
    RowTaskOrigin(q, rows, |rows|, id);
    SessionsConcat(TurnTasks(q, order), RowTasks(q, rows, |rows|));
  }

  /**
   The row that decides has the latest time of its session exactly when no smaller number of the session is
   behind it only by its unit.
   */
  lemma NewestIsLatestExactly(rows: seq<UsageRow>, i: nat)
    requires i < |rows| && Newest(rows, i) && rows[i].started > 0
    ensures (forall j :: 0 <= j < |rows| ==> NotLaterInSession(rows, j, i))
       <==> (forall j :: (0 <= j < |rows| && rows[j].session == rows[i].session
                          && 0 < rows[j].started < rows[i].started) ==>
               NotBehind(rows[j].started, rows[i].started))
  {
    forall j | 0 <= j < |rows|
      ensures NotLaterInSession(rows, j, i)
         <==> (rows[j].session == rows[i].session && 0 < rows[j].started < rows[i].started ==>
                 NotBehind(rows[j].started, rows[i].started))
    {
      if rows[j].session == rows[i].session && 0 < rows[j].started < rows[i].started {
        LaterExactly(rows[j].started, rows[i].started);
      }
    }
  }

  ghost predicate NotLaterInSession(rows: seq<UsageRow>, j: nat, i: nat)
    requires i < |rows| && j < |rows|
  {
    rows[j].session == rows[i].session && rows[j].started > 0 && rows[i].started > 0 ==>
      Timestamp(Some(rows[j].started)).value <= Timestamp(Some(rows[i].started)).value
  }

  const MILLIS := UsageRow("s", Running, 1_700_000_000_000)
  const SECONDS := UsageRow("s", Completed, 1_700_000_100)

  /** A session that completed a hundred seconds later, by a row in seconds, is listed by its older running row. */
  lemma OlderRunningRowShown(q: Reading)
    requires q == Reading({}, map[], {"s"}, EPOCH + 1_700_000_200_000_000_000, 20, 1800, 120)
    ensures SortedByNumber([MILLIS, SECONDS]) && LatestFirst(q, [])
    ensures Timestamp(Some(MILLIS.started)).value < Timestamp(Some(SECONDS.started)).value
    ensures Shown(q, [], [MILLIS, SECONDS]) == [RowTask(MILLIS)]
  {
    var rows := [MILLIS, SECONDS];
    assert Eligible(q, rows[0]) && Newest(rows, 0);
    assert !Newest(rows, 1);
    assert RowTasks(q, rows, 0) == [];
    assert RowTasks(q, rows, 1) == [RowTask(MILLIS)];
    assert RowTasks(q, rows, 2) == [RowTask(MILLIS)];
  }

  ghost predicate OncePerSession(tasks: seq<Task>) {
    forall i, j :: 0 <= i < j < |tasks| ==> tasks[i].session != tasks[j].session
  }

  lemma OnceSnoc(tasks: seq<Task>, t: Task)
    requires OncePerSession(tasks) && t.session !in SessionsOf(tasks)
    ensures OncePerSession(tasks + [t])
  {
    forall i | 0 <= i < |tasks| ensures tasks[i].session != t.session {
      assert tasks[i] in tasks;
    }
  }

  lemma {:induction false} TurnsOnce(q: Reading, order: seq<string>)
    requires forall i, j :: 0 <= i < j < |order| ==> order[i] != order[j]
    ensures OncePerSession(TurnTasks(q, order))
  {
    if order != [] {
      var n := |order| - 1;
      TurnsOnce(q, order[..n]);
      TurnSessions(q, order[..n], order[n]);
      if TurnShown(q, order[n]) {
        OnceSnoc(TurnTasks(q, order[..n]), TurnTask(q, order[n]));
      }
    }
  }

  lemma ShownIsNew(q: Reading, order: seq<string>, rows: seq<UsageRow>, i: nat)
    requires i < |rows| && RowShown(q, rows, i)
    ensures rows[i].session !in SessionsOf(TurnTasks(q, order) + RowTasks(q, rows, i))
  {
    TurnSessions(q, order, rows[i].session);
    RowTaskOrigin(q, rows, i, rows[i].session);
    SessionsConcat(TurnTasks(q, order), RowTasks(q, rows, i));
  }

  lemma {:induction false} ShownOnceUpTo(q: Reading, order: seq<string>, rows: seq<UsageRow>, n: nat)
    requires LatestFirst(q, order) && n <= |rows|
    ensures OncePerSession(TurnTasks(q, order) + RowTasks(q, rows, n))
  {
    if n == 0 {
      TurnsOnce(q, order);
      assert TurnTasks(q, order) + RowTasks(q, rows, 0) == TurnTasks(q, order);
    } else {
      ShownOnceUpTo(q, order, rows, n - 1);
      var earlier := TurnTasks(q, order) + RowTasks(q, rows, n - 1);
      if RowShown(q, rows, n - 1) {
        ShownIsNew(q, order, rows, n - 1);
        OnceSnoc(earlier, RowTask(rows[n - 1]));
        assert earlier + [RowTask(rows[n - 1])] == TurnTasks(q, order) + RowTasks(q, rows, n);
      } else {
        assert RowTasks(q, rows, n) == RowTasks(q, rows, n - 1);
      }
    }
  }

  /** No session is shown twice, with or without the limit. */
  lemma EachSessionOnce(q: Reading, order: seq<string>, rows: seq<UsageRow>)
    requires LatestFirst(q, order)
    ensures OncePerSession(Shown(q, order, rows))
    ensures OncePerSession(Take(Shown(q, order, rows), Limit(q)))
  {
    ShownOnceUpTo(q, order, rows, |rows|);
  }
}
