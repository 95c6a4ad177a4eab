/**
 The task index is read by two queries, one for the list and one for the counts, and may change in between. This
 module says exactly which answers keep the list within the counts.
 */
module IndexRace {
  import opened Domain
  import opened UsageRows
  import opened Collector

  // ---------- Counting rows by status, by exclusion and by task ----------

  function CountIn(rows: seq<IndexRow>, exclude: set<string>, status: TaskStatus): nat {
    if rows == [] then 0
    else
      var last := rows[|rows| - 1];
      CountIn(rows[..|rows| - 1], exclude, status) + (if last.taskId !in exclude && last.status == status then 1 else 0)
  }

  /** The rows of one task. */
  function OfTask(rows: seq<IndexRow>, id: string): seq<IndexRow> {
    if rows == [] then []
    else OfTask(rows[..|rows| - 1], id) + (if rows[|rows| - 1].taskId == id then [rows[|rows| - 1]] else [])
  }

  function CountOfTask(rows: seq<IndexRow>, id: string, status: TaskStatus): nat {
    if rows == [] then 0
    else
      var last := rows[|rows| - 1];
      CountOfTask(rows[..|rows| - 1], id, status) + (if last.taskId == id && last.status == status then 1 else 0)
  }

  /**
   Every task that the list can show in a status is still counted in it: among the first `limit` rows listed for
   the task there are no more in that status than are counted for it.
   */
  ghost predicate StillCounted(listed: seq<IndexRow>, counted: seq<IndexRow>, limit: nat, status: TaskStatus) {
    forall id :: TaskStillCounted(listed, counted, limit, status, id)
  }

  ghost predicate TaskStillCounted(
      listed: seq<IndexRow>, counted: seq<IndexRow>, limit: nat, status: TaskStatus, id: string)
  {
    CountOfTask(Take(OfTask(listed, id), limit), id, status) <= CountOfTask(counted, id, status)
  }

  lemma {:induction false} CountInStatuses(rows: seq<IndexRow>, exclude: set<string>, status: TaskStatus)
    ensures multiset(IndexStatuses(NotExcluded(rows, exclude)))[status] == CountIn(rows, exclude, status)
  {
    if rows != [] {
      var n := |rows| - 1;
      CountInStatuses(rows[..n], exclude, status);
      var kept := NotExcluded(rows[..n], exclude);
      if rows[n].taskId !in exclude {
        assert IndexStatuses(kept + [rows[n]]) == IndexStatuses(kept) + [rows[n].status];
      } else {
        assert kept + [] == kept;
      }
    }
  }

  lemma {:induction false} ExcludeOneMore(rows: seq<IndexRow>, exclude: set<string>, id: string, status: TaskStatus)
    requires id !in exclude
    ensures CountIn(rows, exclude, status) == CountIn(rows, exclude + {id}, status) + CountOfTask(rows, id, status)
  {
    if rows != [] {
      ExcludeOneMore(rows[..|rows| - 1], exclude, id, status);
    }
  }

  lemma {:induction false} NothingLeft(rows: seq<IndexRow>, exclude: set<string>, status: TaskStatus)
    requires TaskIds(rows) <= exclude
    ensures CountIn(rows, exclude, status) == 0
  {
    if rows != [] {
      assert rows[|rows| - 1] in rows;
      assert TaskIds(rows[..|rows| - 1]) <= TaskIds(rows);
      NothingLeft(rows[..|rows| - 1], exclude, status);
    }
  }

  function TaskIds(rows: seq<IndexRow>): (ids: set<string>)
    ensures forall row :: row in rows ==> row.taskId in ids
  {
    set row | row in rows :: row.taskId
  }

  /** What holds task by task holds in the sum over the tasks that are not excluded. */
  lemma {:induction false} SumOverTasks(a: seq<IndexRow>, b: seq<IndexRow>, exclude: set<string>, status: TaskStatus)
    requires forall id :: id !in exclude ==> CountOfTask(a, id, status) <= CountOfTask(b, id, status)
    ensures CountIn(a, exclude, status) <= CountIn(b, exclude, status)
    decreases TaskIds(a) - exclude
  {
    if TaskIds(a) <= exclude {
      NothingLeft(a, exclude, status);
    } else {
      var id :| id in TaskIds(a) && id !in exclude;
      SumOverTasks(a, b, exclude + {id}, status);
      ExcludeOneMore(a, exclude, id, status);
      ExcludeOneMore(b, exclude, id, status);
    }
  }

  // ---------- What an exclusion and a cut leave of one task ----------

  lemma CountSnoc(rows: seq<IndexRow>, row: IndexRow, id: string, status: TaskStatus)
    ensures CountOfTask(rows + [row], id, status)
         == CountOfTask(rows, id, status) + (if row.taskId == id && row.status == status then 1 else 0)
  {
    assert (rows + [row])[..|rows|] == rows;
  }

  lemma {:induction false} TaskCount(rows: seq<IndexRow>, id: string, status: TaskStatus)
    ensures CountOfTask(rows, id, status) == CountOfTask(OfTask(rows, id), id, status)
  {
    if rows != [] {
      var earlier, last := rows[..|rows| - 1], rows[|rows| - 1];
      TaskCount(earlier, id, status);
      OneMoreOfTask(rows, id);
      CountSnoc(OfTask(earlier, id), last, id, status);
    }
  }

  lemma OneMoreOfTask(rows: seq<IndexRow>, id: string)
    requires rows != []
    ensures OfTask(rows, id)
         == if rows[|rows| - 1].taskId == id then OfTask(rows[..|rows| - 1], id) + [rows[|rows| - 1]]
            else OfTask(rows[..|rows| - 1], id)
  {
  }

  lemma {:induction false} TaskNotExcluded(rows: seq<IndexRow>, exclude: set<string>, id: string)
    requires id !in exclude
    ensures OfTask(NotExcluded(rows, exclude), id) == OfTask(rows, id)
  {
    if rows != [] {
      var n := |rows| - 1;
      TaskNotExcluded(rows[..n], exclude, id);
      var kept := NotExcluded(rows[..n], exclude);
      if rows[n].taskId !in exclude {
        assert (kept + [rows[n]])[..|kept|] == kept;
      } else {
        assert kept + [] == kept;
      }
    }
  }

  lemma {:induction false} OfTaskPrefix(rows: seq<IndexRow>, n: nat, id: string)
    requires n <= |rows|
    ensures OfTask(rows[..n], id) <= OfTask(rows, id) && |OfTask(rows[..n], id)| <= n
    decreases |rows|
  {
    if n < |rows| {
      OfTaskPrefix(rows[..|rows| - 1], n, id);
      assert rows[..|rows| - 1][..n] == rows[..n];
    } else {
      assert rows[..n] == rows;
      if rows != [] {
        OfTaskPrefix(rows[..n - 1], n - 1, id);
        assert rows[..n - 1][..n - 1] == rows[..n - 1];
      }
    }
  }

  lemma {:induction false} CountOfPrefix(a: seq<IndexRow>, b: seq<IndexRow>, id: string, status: TaskStatus)
    requires a <= b
    ensures CountOfTask(a, id, status) <= CountOfTask(b, id, status)
    decreases |b|
  {
    if |a| < |b| {
      CountOfPrefix(a, b[..|b| - 1], id, status);
    } else {
      assert a == b;
    }
  }

  /** The rows of a task in a cut list are among the first rows listed for it. */
  lemma CutListOfTask(
      listed: seq<IndexRow>, exclude: set<string>, limit: nat, room: nat, id: string, status: TaskStatus)
    requires id !in exclude && room <= limit
    ensures CountOfTask(Take(NotExcluded(listed, exclude), room), id, status)
         <= CountOfTask(Take(OfTask(listed, id), limit), id, status)
  {
    var kept := NotExcluded(listed, exclude);
    var n := if room < |kept| then room else |kept|;
    assert Take(kept, room) == kept[..n];
    OfTaskPrefix(kept, n, id);
    TaskNotExcluded(listed, exclude, id);
    TaskCount(kept[..n], id, status);
    CountOfPrefix(OfTask(kept[..n], id), Take(OfTask(listed, id), limit), id, status);
  }

  lemma {:induction false} NoneExcluded(rows: seq<IndexRow>, exclude: set<string>)
    requires forall row :: row in rows ==> row.taskId !in exclude
    ensures NotExcluded(rows, exclude) == rows
  {
    if rows != [] {
      var n := |rows| - 1;
      assert rows[n] in rows && rows == rows[..n] + [rows[n]];
      NoneExcluded(rows[..n], exclude);
    }
  }

  /** The statuses shown against those counted, whatever is excluded and however little room is left. */
  lemma ShownWithinCounted(
      listed: seq<IndexRow>, counted: seq<IndexRow>, exclude: set<string>, limit: nat, room: nat, status: TaskStatus)
    requires StillCounted(listed, counted, limit, status) && room <= limit
    ensures multiset(IndexStatuses(Take(NotExcluded(listed, exclude), room)))[status]
         <= multiset(IndexStatuses(NotExcluded(counted, exclude)))[status]
  {
    var shown := Take(NotExcluded(listed, exclude), room);
    NotExcludedSessions(listed, exclude);
    NoneExcluded(shown, exclude);
    forall id | id !in exclude ensures CountOfTask(shown, id, status) <= CountOfTask(counted, id, status) {
      CutListOfTask(listed, exclude, limit, room, id, status);
      assert TaskStillCounted(listed, counted, limit, status, id);
    }
    SumOverTasks(shown, counted, exclude, status);
    CountInStatuses(shown, exclude, status);
    CountInStatuses(counted, exclude, status);
  }

  // ---------- Excluding all tasks but one ----------

  function AllBut(listed: seq<IndexRow>, counted: seq<IndexRow>, id: string): set<string> {
    TaskIds(listed) + TaskIds(counted) - {id}
  }

  lemma {:induction false} OnlyOneTask(rows: seq<IndexRow>, exclude: set<string>, id: string)
    requires id !in exclude && forall row :: row in rows ==> row.taskId == id || row.taskId in exclude
    ensures NotExcluded(rows, exclude) == OfTask(rows, id)
  {
    if rows != [] {
      assert rows[|rows| - 1] in rows;
      OnlyOneTask(rows[..|rows| - 1], exclude, id);
    }
  }

  lemma {:induction false} StatusesOfTask(rows: seq<IndexRow>, id: string, status: TaskStatus)
    requires forall row :: row in rows ==> row.taskId == id
    ensures multiset(IndexStatuses(rows))[status] == CountOfTask(rows, id, status)
  {
    if rows != [] {
      var n := |rows| - 1;
      assert rows[n] in rows && IndexStatuses(rows) == IndexStatuses(rows[..n]) + [rows[n].status];
      StatusesOfTask(rows[..n], id, status);
    }
  }

  lemma {:induction false} OfTaskOnly(rows: seq<IndexRow>, id: string)
    ensures forall row :: row in OfTask(rows, id) ==> row.taskId == id
  {
    if rows != [] {
      OfTaskOnly(rows[..|rows| - 1], id);
    }
  }

  /** With all other tasks excluded, list and counts are about the one task. */
  lemma OneTaskLeft(
      listed: seq<IndexRow>, counted: seq<IndexRow>, exclude: set<string>, limit: nat, id: string, status: TaskStatus)
    requires id !in exclude
    requires forall row :: row in listed || row in counted ==> row.taskId == id || row.taskId in exclude
    ensures TaskStillCounted(listed, counted, limit, status, id)
       <==> multiset(IndexStatuses(Take(NotExcluded(listed, exclude), limit)))[status]
            <= multiset(IndexStatuses(NotExcluded(counted, exclude)))[status]
  {
    OnlyOneTask(listed, exclude, id);
    OnlyOneTask(counted, exclude, id);
    OfTaskOnly(listed, id);
    OfTaskOnly(counted, id);
    StatusesOfTask(Take(OfTask(listed, id), limit), id, status);
    StatusesOfTask(OfTask(counted, id), id, status);
    TaskCount(counted, id, status);
  }

  // ---------- Exactly when the history keeps within its counts ----------

  ghost predicate HistoryWithin(s: Sources, exclude: set<string>, status: TaskStatus)
    requires s.index.Ok?
  {
    multiset(Statuses(History(s, exclude).tasks))[status] <= CountOf(History(s, exclude).summary, status)
  }

  lemma HistoryStatuses(s: Sources, exclude: set<string>, status: TaskStatus)
    requires s.index.Ok? && status != Unknown
    ensures HistoryWithin(s, exclude, status)
       <==> multiset(IndexStatuses(Take(NotExcluded(s.index.value.0, exclude), Limit(s.reading))))[status]
            <= multiset(IndexStatuses(NotExcluded(s.index.value.1, exclude)))[status]
  {
    var listed, limit := NotExcluded(s.index.value.0, exclude), Limit(s.reading);
    TallyCounts(IndexStatuses(NotExcluded(s.index.value.1, exclude)), status);
    assert Statuses(Take(IndexTasks(listed), limit)) == IndexStatuses(Take(listed, limit));
  }

  /**
   Whatever sessions are live, the history lists a status no more often than it counts it, if and only if every
   task listed in the status is still counted in it by the second query.
   */
  lemma HistoryWithinCountedExactly(s: Sources, status: TaskStatus)
    requires s.index.Ok? && status != Unknown
    ensures (forall exclude: set<string> :: HistoryWithin(s, exclude, status))
       <==> StillCounted(s.index.value.0, s.index.value.1, Limit(s.reading), status)
  {
    var listed, counted, limit := s.index.value.0, s.index.value.1, Limit(s.reading);
    if StillCounted(listed, counted, limit, status) {
      forall exclude: set<string> ensures HistoryWithin(s, exclude, status) {
        ShownWithinCounted(listed, counted, exclude, limit, limit, status);
        HistoryStatuses(s, exclude, status);
      }
    }
    if forall exclude: set<string> :: HistoryWithin(s, exclude, status) {
      forall id ensures TaskStillCounted(listed, counted, limit, status, id) {
        var others := AllBut(listed, counted, id);
        assert HistoryWithin(s, others, status);
        HistoryStatuses(s, others, status);
        OneTaskLeft(listed, counted, others, limit, id, status);
      }
    }
  }

  /** When the rows listed are among the rows counted, every task is still counted: both queries saw the same table. */
  lemma {:induction false} SameTableStillCounts(
      listed: seq<IndexRow>, counted: seq<IndexRow>, limit: nat, status: TaskStatus)
    requires multiset(listed) <= multiset(counted)
    ensures StillCounted(listed, counted, limit, status)
  {
    forall id ensures TaskStillCounted(listed, counted, limit, status, id) {
      TaskCount(listed, id, status);
      CountOfPrefix(Take(OfTask(listed, id), limit), OfTask(listed, id), id, status);
      MoreRowsMoreCounted(listed, counted, id, status);
    }
  }

  lemma {:induction false} CountWithout(rows: seq<IndexRow>, j: nat, id: string, status: TaskStatus)
    requires j < |rows|
    ensures CountOfTask(rows, id, status) == CountOfTask(rows[..j] + rows[j + 1..], id, status)
                                             + (if rows[j].taskId == id && rows[j].status == status then 1 else 0)
  {
    var n := |rows| - 1;
    if j == n {
      assert rows[..j] + rows[j + 1..] == rows[..n];
    } else {
      var earlier := rows[..n];
      CountWithout(earlier, j, id, status);
      CutBeforeLast(rows, j);
      CountSnoc(earlier[..j] + earlier[j + 1..], rows[n], id, status);
    }
  }

  lemma CutBeforeLast<T>(s: seq<T>, j: nat)
    requires j < |s| - 1
    ensures var earlier := s[..|s| - 1];
      s[..j] + s[j + 1..] == (earlier[..j] + earlier[j + 1..]) + [s[|s| - 1]] && earlier[j] == s[j]
  {
  }

  lemma WithoutOne(rows: seq<IndexRow>, j: nat)
    requires j < |rows|
    ensures multiset(rows[..j] + rows[j + 1..]) == multiset(rows) - multiset{rows[j]}
  {
    assert rows == rows[..j] + [rows[j]] + rows[j + 1..];
  }

  lemma {:induction false} MoreRowsMoreCounted(a: seq<IndexRow>, b: seq<IndexRow>, id: string, status: TaskStatus)
    requires multiset(a) <= multiset(b)
    ensures CountOfTask(a, id, status) <= CountOfTask(b, id, status)
  {
    if a != [] {
      var n := |a| - 1;
      assert a[n] in multiset(a);
      var j :| 0 <= j < |b| && b[j] == a[n];
      WithoutOne(a, n);
      WithoutOne(b, j);
      assert a[..n] + a[n + 1..] == a[..n];
      MoreRowsMoreCounted(a[..n], b[..j] + b[j + 1..], id, status);
      CountWithout(b, j, id, status);
    }
  }

  // ---------- In a whole collection ----------

  lemma TakenStatuses(tasks: seq<Task>, limit: nat)
    ensures multiset(Statuses(Take(tasks, limit))) <= multiset(Statuses(tasks))
  {
    if limit < |tasks| {
      assert Statuses(tasks) == Statuses(tasks[..limit]) + Statuses(tasks)[limit..];
    }
  }

  lemma StatusesConcat(a: seq<Task>, b: seq<Task>)
    ensures multiset(Statuses(a + b)) == multiset(Statuses(a)) + multiset(Statuses(b))
  {
    assert Statuses(a + b) == Statuses(a) + Statuses(b);
  }

  lemma LiveWithinSources(s: Sources, runtimeOk: bool)
    ensures multiset(Statuses(LiveTasks(s, runtimeOk))) <= multiset(LiveStatuses(s, runtimeOk))
  {
    if s.hasRuntime {
      var g, r := GoalPart(s), if runtimeOk then RuntimePart(s) else [];
      TakenStatuses(g + r, Limit(s.reading));
      StatusesConcat(g, r);
      MultisetConcat(Statuses(g), Statuses(r));
      assert LiveStatuses(s, runtimeOk) == Statuses(g) + Statuses(r);
    }
  }

  lemma MultisetConcat(a: seq<TaskStatus>, b: seq<TaskStatus>)
    ensures multiset(a + b) == multiset(a) + multiset(b)
  {
  }

  /** The history rows that are listed: those for which the live tasks leave room. */
  function ShownRows(s: Sources, runtimeOk: bool): seq<IndexRow> {
    Take(ListedRows(s, runtimeOk), Room(LiveTasks(s, runtimeOk), Limit(s.reading)))
  }

  lemma TakenAfterLive(live: seq<Task>, listed: seq<IndexRow>, limit: nat)
    requires |live| <= limit
    ensures Take(live + IndexTasks(listed), limit) == live + IndexTasks(Take(listed, Room(live, limit)))
  {
  }

  lemma ListedStatuses(live: seq<Task>, shown: seq<IndexRow>)
    ensures multiset(Statuses(live + IndexTasks(shown))) == multiset(Statuses(live)) + multiset(IndexStatuses(shown))
  {
    StatusesConcat(live, IndexTasks(shown));
    assert Statuses(IndexTasks(shown)) == IndexStatuses(shown);
  }

  lemma WholeOrFull(g: seq<Task>, r: seq<Task>, limit: nat, listed: seq<IndexRow>)
    ensures Statuses(Take(g + r, limit)) == Statuses(g) + Statuses(r)
        || Take(listed, Room(Take(g + r, limit), limit)) == []
  {
  }

  lemma LiveIsWholeOrFull(s: Sources, runtimeOk: bool)
    ensures Statuses(LiveTasks(s, runtimeOk)) == LiveStatuses(s, runtimeOk) || ShownRows(s, runtimeOk) == []
  {
    if s.hasRuntime {
      var r := if runtimeOk then RuntimePart(s) else [];
      WholeOrFull(GoalPart(s), r, Limit(s.reading), ListedRows(s, runtimeOk));
      assert LiveStatuses(s, runtimeOk) == Statuses(GoalPart(s)) + Statuses(r);
    }
  }

  /** In a collection the live part cancels: only the history rows listed and counted matter. */
  lemma ListedWithinCountedExactly(s: Sources, runtimeOk: bool, status: TaskStatus)
    requires status != Unknown && Collected(s, runtimeOk).Ok?
    ensures multiset(Statuses(Collected(s, runtimeOk).value.tasks))[status]
            <= CountOf(Collected(s, runtimeOk).value.summary, status)
         <==>
            multiset(IndexStatuses(ShownRows(s, runtimeOk)))[status]
            <= multiset(IndexStatuses(CountedRows(s, runtimeOk)))[status]
  {
    CountsAreConserved(s, runtimeOk, status);
    CollectedList(s, runtimeOk);
    TakenAfterLive(LiveTasks(s, runtimeOk), ListedRows(s, runtimeOk), Limit(s.reading));
    ListedStatuses(LiveTasks(s, runtimeOk), ShownRows(s, runtimeOk));
    LiveWithinSources(s, runtimeOk);
    LiveIsWholeOrFull(s, runtimeOk);
    MultisetConcat(LiveStatuses(s, runtimeOk), IndexStatuses(CountedRows(s, runtimeOk)));
  }

  /** So no collection lists a status more often than it counts it when every task listed is still counted. */
  lemma NeverListsMoreThanCounted(s: Sources, runtimeOk: bool, status: TaskStatus)
    requires status != Unknown && Collected(s, runtimeOk).Ok?
    requires s.index.Ok? ==> StillCounted(s.index.value.0, s.index.value.1, Limit(s.reading), status)
    ensures multiset(Statuses(Collected(s, runtimeOk).value.tasks))[status]
        <= CountOf(Collected(s, runtimeOk).value.summary, status)
  {
    ListedWithinCountedExactly(s, runtimeOk, status);
    if s.hasIndex && s.index.Ok? {
      ShownWithinCounted(s.index.value.0, s.index.value.1, LiveSessions(s, runtimeOk), Limit(s.reading),
                         Room(LiveTasks(s, runtimeOk), Limit(s.reading)), status);
    }
  }

  /** With no live source and an index of one task the same condition is exact for the collection itself. */
  lemma OneTaskExactly(s: Sources, id: string, status: TaskStatus)
    requires !s.hasRuntime && s.hasIndex && s.index.Ok? && status != Unknown
    requires forall row :: row in s.index.value.0 || row in s.index.value.1 ==> row.taskId == id
    ensures Collected(s, true).Ok?
    ensures multiset(Statuses(Collected(s, true).value.tasks))[status]
        <= CountOf(Collected(s, true).value.summary, status)
       <==> TaskStillCounted(s.index.value.0, s.index.value.1, Limit(s.reading), status, id)
  {
    HistoryStatuses(s, {}, status);
    OneTaskLeft(s.index.value.0, s.index.value.1, {}, Limit(s.reading), id, status);
    assert Collected(s, true) == Ok(History(s, {}));
  }

  /** A running task that goes away between the two queries is listed and not counted. */
  lemma ChangedIndexListsMore(s: Sources, row: IndexRow)
    requires !s.hasRuntime && s.hasIndex && s.index == Ok(([row], [])) && row.status == Running
    ensures Collected(s, true).Ok?
    ensures multiset(Statuses(Collected(s, true).value.tasks))[Running]
        > CountOf(Collected(s, true).value.summary, Running)
  {
    OneTaskExactly(s, row.taskId, Running);
    assert OfTask([row], row.taskId) == [row];
    assert CountOfTask([row], row.taskId, Running) == 1;
    assert !TaskStillCounted([row], [], Limit(s.reading), Running, row.taskId);
  }
}
