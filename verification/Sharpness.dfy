/**
 The retention minimum is the exact condition: below one upload batch a run exists that stores an event
 twice, and at zero a run exists in which the phone skips an event without being told.
 */
module Sharpness {
  import opened Domain
  import opened TimeOrder
  import opened HubStore
  import opened Retention
  import opened Hub
  import opened Feed
  import opened Pipeline
  import opened Delivery
  import opened ExactlyOnce
  import opened PhoneFeed
  import Outbox

  const NOON: Instant := Civil(2026, 1, 1, 12, 0, 0, 0)
  const LATER: Instant := Civil(2027, 1, 1, 12, 0, 0, 0)

  lemma NoonBeforeLater()
    ensures Before(NOON, LATER)
  {
    CivilLessIsEarlier(NOON, LATER);
  }

  // ---------- Tasks that complete, and their events ----------

  /** Pairwise different names, long enough to be event ids. */
  function Name(i: nat): (s: string)
    ensures |s| == 8 + i
  {
    if i == 0 then "event-id" else Name(i - 1) + "x"
  }

  function Finished(i: nat): TaskSummary {
    TaskSummary(Name(i), "t", None, Completed, None)
  }

  function EventOf(i: nat): Event {
    Event(Name(i), TaskCompleted, NOON, EventTask(Name(i), "t", None, Completed))
  }

  function Tasks(from: nat, n: nat): (tasks: seq<TaskSummary>)
    ensures |tasks| == n && forall i :: 0 <= i < n ==> tasks[i] == Finished(from + i)
  {
    seq(n, i requires 0 <= i < n => Finished(from + i))
  }

  function Names(from: nat, n: nat): (names: seq<string>)
    ensures |names| == n && forall i :: 0 <= i < n ==> names[i] == Name(from + i)
  {
    seq(n, i requires 0 <= i < n => Name(from + i))
  }

  function EventsOf(from: nat, n: nat): (events: seq<Event>)
    ensures |events| == n && forall i :: 0 <= i < n ==> events[i] == EventOf(from + i)
  {
    seq(n, i requires 0 <= i < n => EventOf(from + i))
  }

  lemma NamesDiffer(i: nat, j: nat)
    ensures Name(i) == Name(j) <==> i == j
  {
  }

  lemma EventsOfDistinct(from: nat, n: nat)
    ensures DistinctIds(EventsOf(from, n))
  {
    var events := EventsOf(from, n);
    forall i, j | 0 <= i < j < |events| ensures events[i].eventId != events[j].eventId {
      NamesDiffer(from + i, from + j);
    }
  }

  /** One more finished task, not seen before, under a new id. */
  lemma OneMoreEmits(t: Outbox.Tables, previous: map<string, Outbox.TaskRow>, i: nat)
    requires t.initialized && Name(i) !in previous && Name(i) !in Ids(t.pending)
    ensures var r := Outbox.ObserveTask(t, previous, Finished(i), NOON, Name(i));
      && r.Ok? && r.value.initialized && r.value.pending == t.pending + [EventOf(i)]
      && r.value.tasks.Keys == t.tasks.Keys + {Name(i)}
  {
    assert Outbox.EventFor(Finished(i), NOON, Name(i)) == Ok(EventOf(i));
  }

  lemma NotYetPending(pending: seq<Event>, from: nat, k: nat)
    requires Name(from + k) !in Ids(pending)
    ensures Name(from + k) !in Ids(pending + EventsOf(from, k))
  {
    forall e | e in pending + EventsOf(from, k) ensures e.eventId != Name(from + k) {
      if e in pending {
        assert e.eventId in Ids(pending);
      } else {
        var i :| 0 <= i < k && EventsOf(from, k)[i] == e;
        NamesDiffer(from + i, from + k);
      }
    }
  }

  lemma ObserveSnoc(t: Outbox.Tables, tasks: seq<TaskSummary>, task: TaskSummary, ids: seq<string>, id: string)
    requires |ids| == |tasks| && Outbox.ObserveTasks(t, tasks, NOON, ids).Ok?
    ensures Outbox.ObserveTasks(t, tasks + [task], NOON, ids + [id])
         == Outbox.ObserveTask(Outbox.ObserveTasks(t, tasks, NOON, ids).value, t.tasks, task, NOON, id)
  {
    assert (tasks + [task])[..|tasks|] == tasks && (ids + [id])[..|ids|] == ids;
  }

  /** New finished tasks become events, one each, in order. */
  lemma {:induction false} FinishedTasksEmit(t: Outbox.Tables, from: nat, n: nat)
    requires t.initialized
    requires forall i :: from <= i < from + n ==> Name(i) !in t.tasks && Name(i) !in Ids(t.pending)
    ensures var r := Outbox.ObserveTasks(t, Tasks(from, n), NOON, Names(from, n));
      && r.Ok? && r.value.initialized && r.value.pending == t.pending + EventsOf(from, n)
      && (forall i: nat :: i >= from + n && Name(i) !in t.tasks ==> Name(i) !in r.value.tasks)
  {
    if n > 0 {
      var k := n - 1;
      FinishedTasksEmit(t, from, k);
      NotYetPending(t.pending, from, k);
      LastOne(t, Outbox.ObserveTasks(t, Tasks(from, k), NOON, Names(from, k)).value, from, k);
    } else {
      assert t.pending + EventsOf(from, 0) == t.pending;
    }
  }

  lemma NextOne(from: nat, k: nat)
    ensures Tasks(from, k + 1) == Tasks(from, k) + [Finished(from + k)]
    ensures Names(from, k + 1) == Names(from, k) + [Name(from + k)]
    ensures forall pending :: pending + EventsOf(from, k + 1) == (pending + EventsOf(from, k)) + [EventOf(from + k)]
  {
    assert EventsOf(from, k + 1) == EventsOf(from, k) + [EventOf(from + k)];
  }

  lemma LastOne(t: Outbox.Tables, u: Outbox.Tables, from: nat, k: nat)
    requires Outbox.ObserveTasks(t, Tasks(from, k), NOON, Names(from, k)) == Ok(u)
    requires u.initialized && u.pending == t.pending + EventsOf(from, k)
    requires forall i: nat :: i >= from + k && Name(i) !in t.tasks ==> Name(i) !in u.tasks
    requires Name(from + k) !in t.tasks && Name(from + k) !in Ids(u.pending)
    ensures var r := Outbox.ObserveTasks(t, Tasks(from, k + 1), NOON, Names(from, k + 1));
      && r.Ok? && r.value.initialized && r.value.pending == t.pending + EventsOf(from, k + 1)
      && (forall i: nat :: i >= from + k + 1 && Name(i) !in t.tasks ==> Name(i) !in r.value.tasks)
  {
    NextOne(from, k);
    ObserveSnoc(t, Tasks(from, k), Finished(from + k), Names(from, k), Name(from + k));
    OneMoreEmits(u, t.tasks, from + k);
    LaterNamesStayNew(u.tasks.Keys, from + k);
  }

  lemma LaterNamesStayNew(known: set<string>, k: nat)
    ensures forall i: nat :: i >= k + 1 && Name(i) !in known ==> Name(i) !in known + {Name(k)}
  {
    forall i: nat | i >= k + 1 ensures Name(i) != Name(k) {
      NamesDiffer(i, k);
    }
  }

  // ---------- Running a script ----------

  lemma RunSnoc(c: Config, steps: seq<Step>, step: Step)
    ensures Run(c, steps + [step]) == Apply(c, Run(c, steps), step)
  {
    assert (steps + [step])[..|steps|] == steps;
  }

  /** A state some run reaches. */
  ghost predicate Reachable(c: Config, s: Sys) {
    exists steps :: Run(c, steps) == s
  }

  lemma ReachNext(c: Config, s: Sys, step: Step)
    requires Reachable(c, s) && Enabled(c, s, step)
    ensures Reachable(c, Next(c, s, step))
  {
    var steps :| Run(c, steps) == s;
    RunSnoc(c, steps, step);
  }

  lemma StartReachable(c: Config)
    ensures Reachable(c, START)
  {
    assert Run(c, []) == START;
  }

  function Zeros(n: nat): seq<nat> {
    seq(n, _ => 0)
  }

  lemma {:induction false} ZerosSum(n: nat)
    ensures Sum(Zeros(n)) == 0
  {
    if n > 0 {
      assert Zeros(n)[..n - 1] == Zeros(n - 1);
      ZerosSum(n - 1);
    }
  }

  const FINE: HudState := HudState(SourceOk, SourceOk, Some([]))

  /** The first trusted snapshot only sets the baseline. */
  lemma BaselineSet(c: Config, s: Sys) returns (u: Sys)
    requires Reachable(c, s) && s.box.t == Outbox.EMPTY_TABLES && s.box.emitted == []
    ensures Reachable(c, u) && u == s.(box := u.box)
    ensures u.box.t == Outbox.Tables(true, map[], []) && u.box.emitted == []
  {
    var step := Observe(FINE, NOON, [], true);
    u := Next(c, s, step);
    assert NewIds(s, []);
    ReachNext(c, s, step);
  }

  /** `n` more tasks finish and are seen. */
  lemma TasksFinish(c: Config, s: Sys, from: nat, n: nat) returns (u: Sys)
    requires Reachable(c, s) && s.box.t.initialized
    requires forall i :: from <= i < from + n ==>
        Name(i) !in s.box.t.tasks && Name(i) !in Ids(s.box.emitted) && Name(i) !in LogIds(s.log)
    requires Ids(s.box.t.pending) <= Ids(s.box.emitted)
    ensures Reachable(c, u) && u == s.(box := u.box) && u.box.t.initialized
    ensures u.box.t.pending == s.box.t.pending + EventsOf(from, n) && u.box.emitted == s.box.emitted + EventsOf(from, n)
    ensures forall i: nat :: i >= from + n && Name(i) !in s.box.t.tasks ==> Name(i) !in u.box.t.tasks
  {
    var step := Observe(HudState(SourceOk, SourceOk, Some(Tasks(from, n))), NOON, Names(from, n), true);
    FinishedTasksEmit(s.box.t, from, n);
    forall i, j | 0 <= i < j < n ensures Names(from, n)[i] != Names(from, n)[j] {
      NamesDiffer(from + i, from + j);
    }
    assert NewIds(s, Names(from, n));
    u := Next(c, s, step);
    ReachNext(c, s, step);
  }

  lemma StoredAt(s: Sys, agent: string, batch: seq<Event>, sentAt: Instant, receivedAt: Instant, gaps: seq<nat>)
    requires |gaps| == |batch|
    ensures var rows := NewRows(s.hub.events, Stored(s, agent, batch, sentAt, receivedAt, gaps).hub.events);
      forall i :: 0 <= i < |rows| ==> rows[i].receivedAt == receivedAt && rows[i].agentId == agent
    ensures Stored(s, agent, batch, sentAt, receivedAt, gaps).hub.events
         == s.hub.events + NewRows(s.hub.events, Stored(s, agent, batch, sentAt, receivedAt, gaps).hub.events)
    ensures Stored(s, agent, batch, sentAt, receivedAt, gaps).hub.lastSeq <= s.hub.lastSeq + Sum(gaps) + |gaps|
  {
    var base := Upsert(s.hub, agent, sentAt, receivedAt, None);
    InsertBatchGrew(base, agent, batch, receivedAt, gaps);
    var after := InsertBatch(base, agent, batch, receivedAt, gaps).events;
    var rows := NewRows(s.hub.events, after);
    assert forall i :: 0 <= i < |rows| ==> rows[i] == after[|s.hub.events| + i];
  }

  /** The pending events are sent and stored; the hub held none of them. */
  lemma BatchStored(c: Config, s: Sys) returns (u: Sys)
    requires Reachable(c, s) && WellFormed(s.hub) && s.upload == Resting
    requires 0 < |s.box.t.pending| <= BATCH && s.hub.lastSeq <= 1000 && DistinctIds(s.box.t.pending)
    requires forall i :: 0 <= i < |s.box.t.pending| ==> !HasId(s.hub.events, s.box.t.pending[i].eventId)
    ensures Reachable(c, u) && u == s.(hub := u.hub, log := u.log, upload := Sent(s.box.t.pending, true))
    ensures WellFormed(u.hub) && u.hub.lastSeq <= s.hub.lastSeq + |s.box.t.pending|
    ensures var rows := NewRows(s.hub.events, u.hub.events);
      && u.hub.events == s.hub.events + rows && u.log == s.log + rows
      && Events(rows) == s.box.t.pending
      && (forall i :: 0 <= i < |rows| ==>
          rows[i].agentId == c.agentId && rows[i].receivedAt == NOON && rows[i].seqNo > s.hub.lastSeq)
  {
    var pending := s.box.t.pending;
    var n := |pending|;
    var sent := Next(c, s, Send);
    assert sent == s.(upload := Sent(pending, false));
    ReachNext(c, s, Send);
    ZerosSum(n);
    var step := HubStores(NOON, NOON, Zeros(n));
    ReachNext(c, sent, step);
    u := Next(c, sent, step);
    StoredShape(sent, c.agentId, pending, NOON, NOON, Zeros(n));
    StoredAt(sent, c.agentId, pending, NOON, NOON, Zeros(n));
    assert [] + pending == pending;
    RestAppended(sent, c.agentId, pending, [], pending, NOON, NOON, Zeros(n));
  }

  lemma EmptyFloor(c: Config) returns (s: Sys)
    ensures Reachable(c, s) && s == START.(phone := Phone(None, FloorRead(0, false, 0, false), 0, 0, [], true, []))
  {
    StartReachable(c);
    s := START;
    ReachNext(c, s, Poll);
    s := Next(c, s, Poll);
    ReachNext(c, s, ReadFloor);
    s := Next(c, s, ReadFloor);
  }

  /** The first poll of an empty hub sets the cursor to zero. */
  lemma FirstPoll(c: Config) returns (s: Sys)
    ensures Reachable(c, s) && s == START.(phone := Phone(Some(0), NoFetch, 0, 0, [], true, []))
  {
    s := EmptyFloor(c);
    ReachNext(c, s, ReadPage);
    s := Next(c, s, ReadPage);
    assert s.phone.fetch == PageRead(0, false, EventPage([], 0, 0, 0), false);
    ReachNext(c, s, Sync(true, true));
    s := Next(c, s, Sync(true, true));
  }

  // ---------- A table of any size ----------

  const AT_ZERO := Phone(Some(0), NoFetch, 0, 0, [], true, [])

  /** The phone has its baseline at zero; then `n` events were stored one by one and acknowledged. */
  ghost predicate Prepared(c: Config, s: Sys, n: nat) {
    && Reachable(c, s) && WellFormed(s.hub) && s.upload == Resting && s.phone == AT_ZERO
    && s.box.t.initialized && s.box.t.pending == [] && s.box.emitted == EventsOf(0, n)
    && (forall k: nat :: k >= n ==> Name(k) !in s.box.t.tasks)
    && s.log == s.hub.events && s.hub.lastSeq == n && Numbered(c, s.log, n)
  }

  ghost predicate Numbered(c: Config, rows: seq<Row>, n: nat) {
    |rows| == n && forall k :: 0 <= k < n ==> rows[k] == Row(k + 1, c.agentId, rows[k].receivedAt, EventOf(k))
  }

  lemma NameIsNew(c: Config, s: Sys, n: nat)
    requires Prepared(c, s, n)
    ensures Name(n) !in Ids(s.box.emitted) && Name(n) !in LogIds(s.log) && !HasId(s.hub.events, Name(n))
  {
    forall e | e in s.box.emitted ensures e.eventId != Name(n) {
      var k :| 0 <= k < n && s.box.emitted[k] == e;
      NamesDiffer(k, n);
    }
    forall r | r in s.log ensures r.event.eventId != Name(n) {
      var k :| 0 <= k < n && s.log[k] == r;
      NamesDiffer(k, n);
    }
  }

  lemma OneStored(s: Sys, agent: string, e: Event, at: Instant)
    requires !HasId(s.hub.events, e.eventId)
    ensures var u := Stored(s, agent, [e], NOON, at, [0]);
      var row := Row(s.hub.lastSeq + 1, agent, at, e);
      u.hub.events == s.hub.events + [row] && u.log == s.log + [row] && u.hub.lastSeq == s.hub.lastSeq + 1
  {
    var base := Upsert(s.hub, agent, NOON, at, None);
    assert InsertBatch(base, agent, [], at, []) == base;
    assert InsertBatch(base, agent, [e], at, [0]) == InsertEvent(base, agent, e, at, 0);
  }

  /** The next event is on the wire. */
  lemma OneMoreOnTheWire(c: Config, s: Sys, n: nat) returns (u: Sys)
    requires Prepared(c, s, n)
    ensures Reachable(c, u) && u == s.(box := u.box, upload := Sent([EventOf(n)], false))
    ensures u.box.t.initialized && u.box.t.pending == [EventOf(n)] && u.box.emitted == s.box.emitted + [EventOf(n)]
    ensures forall k: nat :: k >= n + 1 ==> Name(k) !in u.box.t.tasks
  {
    NameIsNew(c, s, n);
    u := TasksFinish(c, s, n, 1);
    assert EventsOf(n, 1) == [EventOf(n)] && [] + [EventOf(n)] == [EventOf(n)];
    ReachNext(c, u, Send);
    u := Next(c, u, Send);
  }

  /** An event on the wire that the hub does not have is stored. */
  lemma WireStored(c: Config, s: Sys, e: Event, at: Instant) returns (u: Sys)
    requires Reachable(c, s) && WellFormed(s.hub) && s.upload == Sent([e], false) && s.hub.lastSeq + 1 < MAX_SEQ
    requires !HasId(s.hub.events, e.eventId)
    ensures Reachable(c, u) && WellFormed(u.hub)
    ensures u == s.(hub := u.hub, log := u.log, upload := Sent([e], true))
    ensures var row := Row(s.hub.lastSeq + 1, c.agentId, at, e);
      u.hub.events == s.hub.events + [row] && u.log == s.log + [row] && u.hub.lastSeq == s.hub.lastSeq + 1
  {
    ReachNext(c, s, HubStores(NOON, at, [0]));
    StoredShape(s, c.agentId, [e], NOON, at, [0]);
    OneStored(s, c.agentId, e, at);
    u := Next(c, s, HubStores(NOON, at, [0]));
  }

  lemma OneMoreSent(c: Config, s: Sys, n: nat, at: Instant) returns (u: Sys)
    requires Prepared(c, s, n) && n + 1 < MAX_SEQ
    ensures Reachable(c, u) && WellFormed(u.hub)
    ensures u == s.(box := u.box, hub := u.hub, log := u.log, upload := Sent([EventOf(n)], true))
    ensures u.box.t.initialized && u.box.t.pending == [EventOf(n)] && u.box.emitted == s.box.emitted + [EventOf(n)]
    ensures forall k: nat :: k >= n + 1 ==> Name(k) !in u.box.t.tasks
    ensures u.hub.events == u.log == s.log + [Row(n + 1, c.agentId, at, EventOf(n))] && u.hub.lastSeq == n + 1
  {
    NameIsNew(c, s, n);
    u := OneMoreOnTheWire(c, s, n);
    u := WireStored(c, u, EventOf(n), at);
  }

  lemma OneMoreRow(c: Config, s: Sys, n: nat, at: Instant) returns (u: Sys)
    requires Prepared(c, s, n) && n + 1 < MAX_SEQ
    ensures Prepared(c, u, n + 1) && u.log == s.log + [Row(n + 1, c.agentId, at, EventOf(n))]
  {
    u := OneMoreSent(c, s, n, at);
    ReachNext(c, u, Respond2xx);
    u := Next(c, u, Respond2xx);
    assert [EventOf(n)] + [] == [EventOf(n)];
    AckDropsBatch([EventOf(n)], []);
    ReachNext(c, u, Acknowledge);
    u := Next(c, u, Acknowledge);
    assert EventsOf(0, n + 1) == EventsOf(0, n) + [EventOf(n)];
  }

  /** A table of `n` rows, the first received at `first` and the others at noon. */
  lemma {:induction false} Filled(c: Config, n: nat, first: Instant) returns (s: Sys)
    requires n < MAX_SEQ
    ensures Prepared(c, s, n)
    ensures forall k :: 0 <= k < n ==> s.log[k].receivedAt == if k == 0 then first else NOON
  {
    if n == 0 {
      s := FirstPoll(c);
      s := BaselineSet(c, s);
    } else {
      s := Filled(c, n - 1, first);
      s := OneMoreRow(c, s, n - 1, if n == 1 then first else NOON);
    }
  }

  // ---------- Below one batch: an event is stored twice ----------

  lemma {:induction false} DropOldestSubset(mine: seq<Row>, cutoff: Instant, p: Retaining, n: nat)
    ensures forall r <- DropOldest(mine, cutoff, p, n) :: r in mine
  {
    if mine != [] && n > 0 {
      DropOldestSubset(mine[1..], cutoff, p, n);
      DropOldestSubset(mine[1..], cutoff, p, n - 1);
    }
  }

  lemma OldestExpendable(rows: seq<Row>, cutoff: Instant, p: Retaining)
    requires rows != [] && Before(rows[0].receivedAt, cutoff) && |rows| > p.minEvents
    ensures DropOldest(rows, cutoff, p, p.batchSize) == DropOldest(rows[1..], cutoff, p, p.batchSize - 1)
  {
  }

  lemma SurvivorsInTail(t: Tables, agentId: string, cutoff: Instant, p: Retaining)
    requires WellFormed(t) && t.events != [] && Before(t.events[0].receivedAt, cutoff) && |t.events| > p.minEvents
    requires Of(t.events, agentId) == t.events
    ensures forall r <- Of(PruneBatch(t.events, agentId, cutoff, p), agentId) :: r in t.events[1..]
  {
    var rest, left := t.events[1..], Of(PruneBatch(t.events, agentId, cutoff, p), agentId);
    PruneBatchMeaning(t, agentId, cutoff, p, agentId);
    OldestExpendable(t.events, cutoff, p);
    assert left == DropOldest(rest, cutoff, p, p.batchSize - 1);
    DropOldestSubset(rest, cutoff, p, p.batchSize - 1);
  }

  /** With more rows than the minimum and the oldest one aged, a prune takes it. */
  lemma OldestGoes(t: Tables, agentId: string, cutoff: Instant, p: Retaining)
    requires WellFormed(t) && t.events != [] && Before(t.events[0].receivedAt, cutoff) && |t.events| > p.minEvents
    requires forall i :: 0 <= i < |t.events| ==> t.events[i].agentId == agentId
    ensures !HasId(PruneBatch(t.events, agentId, cutoff, p), t.events[0].event.eventId)
  {
    var left := PruneBatch(t.events, agentId, cutoff, p);
    assert forall r <- left :: r in t.events by {
      DeleteFirstSubset(t.events, agentId, FloorsOf(Of(t.events, agentId), p), cutoff, p.batchSize);
    }
    assert forall r <- Of(left, agentId) :: r in t.events[1..] by {
      OfUniform(t.events, agentId, agentId);
      SurvivorsInTail(t, agentId, cutoff, p);
    }
    OwnRows(left, t.events, agentId, t.events[1..]);
    HeadIdGone(t.events, left);
  }

  lemma OwnRows(left: seq<Row>, rows: seq<Row>, agentId: string, tail: seq<Row>)
    requires forall r <- left :: r in rows
    requires forall i :: 0 <= i < |rows| ==> rows[i].agentId == agentId
    requires forall r <- Of(left, agentId) :: r in tail
    ensures forall r <- left :: r in tail
  {
    forall r <- left ensures r in tail {
      OfMembers(left, agentId, r);
    }
  }

  lemma HeadIdGone(rows: seq<Row>, left: seq<Row>)
    requires rows != [] && UniqueIds(rows) && forall r <- left :: r in rows[1..]
    ensures !HasId(left, rows[0].event.eventId)
  {
    forall r <- left ensures r.event.eventId != rows[0].event.eventId {
      var k :| 0 <= k < |rows[1..]| && rows[1..][k] == r;
      assert rows[k + 1] == r;
    }
  }

  /** Sending again an event whose row is gone stores it under a second number. */
  lemma StoredAgain(c: Config, s: Sys, sentAt: Instant, gaps: seq<nat>)
    requires s.upload.Sent? && |gaps| == |s.upload.batch| && Fits(s.hub, gaps) && s.upload.batch != []
    requires All(c, s) != [] && All(c, s)[0].event == s.upload.batch[0]
    requires !HasId(s.hub.events, s.upload.batch[0].eventId)
    ensures !NoDuplicate(c, Next(c, s, HubStores(sentAt, NOON, gaps)))
  {
    var batch := s.upload.batch;
    var u := Stored(s, c.agentId, batch, sentAt, NOON, gaps);
    var id := batch[0].eventId;
    var rows := NewRows(s.hub.events, u.hub.events);
    StoredAt(s, c.agentId, batch, sentAt, NOON, gaps);
    NewId(s, c.agentId, batch, sentAt, gaps);
    var k :| 0 <= k < |rows| && rows[k].event.eventId == id;
    OfConcat(s.log, rows, c.agentId);
    OfUniform(rows, c.agentId, c.agentId);
    var all := All(c, Next(c, s, HubStores(sentAt, NOON, gaps)));
    assert all == All(c, s) + rows;
    assert all[0].event.eventId == id && all[|All(c, s)| + k].event.eventId == id;
  }

  lemma NewId(s: Sys, agent: string, batch: seq<Event>, sentAt: Instant, gaps: seq<nat>)
    requires |gaps| == |batch| && batch != [] && !HasId(s.hub.events, batch[0].eventId)
    ensures var rows := NewRows(s.hub.events, Stored(s, agent, batch, sentAt, NOON, gaps).hub.events);
      exists k :: 0 <= k < |rows| && rows[k].event.eventId == batch[0].eventId
  {
    var u := Stored(s, agent, batch, sentAt, NOON, gaps);
    var rows := NewRows(s.hub.events, u.hub.events);
    StoredAt(s, agent, batch, sentAt, NOON, gaps);
    InsertBatchStores(Upsert(s.hub, agent, sentAt, NOON, None), agent, batch, NOON, gaps, batch[0].eventId);
    assert batch[0] in batch;
    HasIdGrows(s.hub.events, rows, batch[0].eventId);
    var r :| r in rows && r.event.eventId == batch[0].eventId;
  }

  /** One more event than the minimum is stored; the response is lost. */
  lemma FullTable(c: Config, n: nat) returns (s: Sys)
    requires 0 < n <= BATCH
    ensures Reachable(c, s) && WellFormed(s.hub) && s.upload == Resting && s.log == s.hub.events && s.hub.lastSeq <= n
    ensures Events(s.log) == s.box.t.pending == EventsOf(0, n)
    ensures forall i :: 0 <= i < n ==> s.log[i].agentId == c.agentId && s.log[i].receivedAt == NOON
  {
    StartReachable(c);
    s := BaselineSet(c, START);
    s := TasksFinish(c, s, 0, n);
    EventsOfDistinct(0, n);
    var rows0 := s.hub.events;
    s := BatchStored(c, s);
    assert NewRows(rows0, s.hub.events) == s.hub.events;
    ReachNext(c, s, GiveUp);
    s := Next(c, s, GiveUp);
  }

  lemma SmallMinimumDuplicates(c: Config)
    requires c.policy.minEvents < BATCH
    ensures exists s :: Reachable(c, s) && !NoDuplicate(c, s)
  {
    var n := c.policy.minEvents + 1;
    var s := FullTable(c, n);
    assert Events(s.log)[0] == s.log[0].event;
    OfUniform(s.log, c.agentId, c.agentId);
    NoonBeforeLater();
    OldestGoes(s.hub, c.agentId, LATER, c.policy);
    ReachNext(c, s, Prune(c.agentId, LATER));
    var pruned := Next(c, s, Prune(c.agentId, LATER));
    ReachNext(c, pruned, Send);
    var again := Next(c, pruned, Send);
    assert again.upload == Sent(EventsOf(0, n), false);
    ZerosSum(n);
    StoredAgain(c, again, NOON, Zeros(n));
    ReachNext(c, again, HubStores(NOON, NOON, Zeros(n)));
  }

  /** The minimum covers a batch exactly when no run stores an event twice. */
  lemma DuplicatesExactlyBelowBatch(c: Config)
    ensures (forall steps :: NoDuplicate(c, Run(c, steps))) <==> c.policy.minEvents >= BATCH
  {
    if c.policy.minEvents >= BATCH {
      forall steps ensures NoDuplicate(c, Run(c, steps)) {
        UploadIsExactlyOnceFifo(c, steps);
      }
    } else {
      SmallMinimumDuplicates(c);
      var s :| Reachable(c, s) && !NoDuplicate(c, s);
      var steps :| Run(c, steps) == s;
      assert !NoDuplicate(c, Run(c, steps));
    }
  }

  // ---------- At zero: an event is skipped in silence ----------

  /** The next task finishes and its event is stored, acknowledged or not. */
  lemma OneEventStored(c: Config, s: Sys, i: nat) returns (u: Sys)
    requires Reachable(c, s) && WellFormed(s.hub) && s.upload == Resting && s.box.t.initialized && s.box.t.pending == []
    requires s.hub.lastSeq <= 1000 && s.hub.events == []
    requires Name(i) !in s.box.t.tasks && Name(i) !in Ids(s.box.emitted) && Name(i) !in LogIds(s.log)
    ensures Reachable(c, u) && u == s.(box := u.box, hub := u.hub, log := u.log, upload := Sent([EventOf(i)], true))
    ensures u.box.t.initialized && u.box.t.pending == [EventOf(i)] && u.box.emitted == s.box.emitted + [EventOf(i)]
    ensures forall k: nat :: k > i && Name(k) !in s.box.t.tasks ==> Name(k) !in u.box.t.tasks
    ensures WellFormed(u.hub) && u.hub.lastSeq <= s.hub.lastSeq + 1
    ensures |u.hub.events| == 1 && u.log == s.log + u.hub.events
    ensures u.hub.events[0].event == EventOf(i) && u.hub.events[0].agentId == c.agentId
        && u.hub.events[0].receivedAt == NOON
    ensures u.hub.events[0].seqNo > s.hub.lastSeq
  {
    u := TasksFinish(c, s, i, 1);
    assert EventsOf(i, 1) == [EventOf(i)] && [] + [EventOf(i)] == [EventOf(i)];
    var empty := u.hub.events;
    u := BatchStored(c, u);
    var rows := NewRows(empty, u.hub.events);
    assert rows == u.hub.events && rows[0] in rows;
    assert Events(rows)[0] == rows[0].event;
  }

  lemma OnlyRowGoes(t: Tables, agentId: string, cutoff: Instant, p: Retaining)
    requires WellFormed(t) && |t.events| == 1 && p.minEvents == 0
    requires t.events[0].agentId == agentId && Before(t.events[0].receivedAt, cutoff)
    ensures PruneBatch(t.events, agentId, cutoff, p) == []
  {
    OfUniform(t.events, agentId, agentId);
    PruneBatchMeaning(t, agentId, cutoff, p, agentId);
    OldestExpendable(t.events, cutoff, p);
    DeleteFirstCounts(t.events, agentId, FloorsOf(t.events, p), cutoff, p.batchSize);
  }

  /** One event is stored, acknowledged and pruned: the hub's table is empty again. */
  lemma EventPrunedAway(c: Config) returns (s: Sys)
    requires c.policy.minEvents == 0
    ensures Reachable(c, s) && WellFormed(s.hub) && s.upload == Resting && s.hub.events == [] && s.hub.lastSeq <= 1
    ensures s.box.t.initialized && s.box.t.pending == [] && s.box.emitted == [EventOf(0)] && Name(1) !in s.box.t.tasks
    ensures s.phone == Phone(Some(0), NoFetch, 0, 0, [], true, [])
    ensures |s.log| == 1 && s.log[0].event == EventOf(0) && s.log[0].agentId == c.agentId && s.log[0].receivedAt == NOON
    ensures 1 <= s.log[0].seqNo <= s.hub.lastSeq
  {
    s := Filled(c, 1, NOON);
    assert EventsOf(0, 1) == [EventOf(0)];
    NoonBeforeLater();
    OnlyRowGoes(s.hub, c.agentId, LATER, c.policy);
    PruneBatchWellFormed(s.hub, c.agentId, LATER, c.policy);
    assert s.hub.events[0] in s.hub.events;
    ReachNext(c, s, Prune(c.agentId, LATER));
    s := Next(c, s, Prune(c.agentId, LATER));
  }

  /** A poll reads the floor of the empty table; then a new event arrives. */
  lemma FloorThenEvent(c: Config) returns (s: Sys, r0: Row, r1: Row)
    requires c.policy.minEvents == 0
    ensures Reachable(c, s) && s.hub.events == [r1] && s.log == [r0, r1]
    ensures r0.agentId == r1.agentId == c.agentId && r0.receivedAt == r1.receivedAt && 1 <= r0.seqNo < r1.seqNo
    ensures s.phone == Phone(Some(0), FloorRead(0, true, 0, false), 0, 0, [], true, [])
  {
    s := EventPrunedAway(c);
    r0 := s.log[0];
    assert s.log == [r0] && LogIds(s.log) == {Name(0)};
    ReachNext(c, s, Poll);
    s := Next(c, s, Poll);
    ReachNext(c, s, ReadFloor);
    s := Next(c, s, ReadFloor);
    NamesDiffer(0, 1);
    s := OneEventStored(c, s, 1);
    r1 := s.hub.events[0];
    assert r1 in s.hub.events;
  }

  lemma PageOfOne(r: Row)
    requires r.seqNo >= 1
    ensures Respond(0, [r], 0, BATCH) == EventPage([r], r.seqNo, r.seqNo, 0)
  {
    assert Since([r], 0) == [r];
  }

  /** The page read next has the new event only, and asks for no rebase: the old event is skipped. */
  lemma ZeroMinimumSkips(c: Config)
    requires c.policy.minEvents == 0
    ensures exists s :: Reachable(c, s) && !AdoptedOk(s.phone, All(c, s), false)
  {
    var s, r0, r1 := FloorThenEvent(c);
    OfUniform([r1], c.agentId, c.agentId);
    OfUniform([r0, r1], c.agentId, c.agentId);
    PageOfOne(r1);
    ReachNext(c, s, ReadPage);
    s := Next(c, s, ReadPage);
    ReachNext(c, s, Sync(true, true));
    s := Next(c, s, Sync(true, true));
    SkippedRow(s.phone, r0, r1);
  }

  lemma SkippedRow(p: Phone, r0: Row, r1: Row)
    requires p.adopted == [r1] && p.start == 0 && p.mark == r1.seqNo && p.whole
    requires 1 <= r0.seqNo <= r1.seqNo && r1.seqNo >= 1 && r0.receivedAt == r1.receivedAt
    ensures !AdoptedOk(p, [r0, r1], false)
  {
    assert ReceivedInOrder([r0, r1]);
    SegmentIsSlice([r0, r1], 0, r1.seqNo, 0, 2);
  }

  /** With receipt times in order the phone never skips an event in silence exactly when the minimum is at least one. */
  lemma SilentGapsExactlyAtZero(c: Config)
    ensures (forall steps :: AdoptedOk(Run(c, steps).phone, All(c, Run(c, steps)), false)) <==> c.policy.minEvents >= 1
  {
    if c.policy.minEvents >= 1 {
      forall steps ensures AdoptedOk(Run(c, steps).phone, All(c, Run(c, steps)), false) {
        PhoneIsSafe(c, steps);
      }
    } else {
      ZeroMinimumSkips(c);
      var s :| Reachable(c, s) && !AdoptedOk(s.phone, All(c, s), false);
      var steps :| Run(c, steps) == s;
      assert !AdoptedOk(Run(c, steps).phone, All(c, Run(c, steps)), false);
    }
  }
}
