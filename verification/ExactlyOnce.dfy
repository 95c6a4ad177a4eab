/**
 Exactly-once, in-order upload: whatever fails and whenever the hub prunes, the hub has ever accepted a
 prefix of what the agent emitted, each event once, and the outbox holds the rest. It rests on the retention
 minimum covering one upload batch, and fails for every smaller minimum.
 */
module ExactlyOnce {
  import opened Domain
  import opened TimeOrder
  import opened HubStore
  import opened Pipeline
  import opened Delivery
  import Outbox

  /** How many events have left the outbox. */
  function Acked(s: Sys): nat
    requires |s.box.t.pending| <= |s.box.emitted|
  {
    |s.box.emitted| - |s.box.t.pending|
  }

  /** The hub ever accepted exactly `emitted[..h]`, the outbox is `emitted[a..]`, and `a <= h <= a + 100`. */
  ghost predicate InOrderOnce(c: Config, s: Sys) {
    var e, pending, h := s.box.emitted, s.box.t.pending, |All(c, s)|;
    && |pending| <= |e|
    && pending == e[Acked(s)..]
    && Acked(s) <= h <= |e| && h <= Acked(s) + BATCH
    && Events(All(c, s)) == e[..h]
  }

  ghost predicate IdsOk(c: Config, s: Sys) {
    && DistinctIds(s.box.emitted)
    && (forall r <- s.log :: r.agentId != c.agentId ==> r.event.eventId !in Ids(s.box.emitted))
  }

  ghost predicate HeadBatch(s: Sys, batch: seq<Event>)
    requires |s.box.t.pending| <= |s.box.emitted|
  {
    var e, a := s.box.emitted, Acked(s);
    0 < |batch| <= BATCH && a + |batch| <= |e| && batch == e[a..a + |batch|]
  }

  ghost predicate UploadOk(c: Config, s: Sys) {
    && InOrderOnce(c, s) && IdsOk(c, s)
    && match s.upload
       case Resting => true
       case Sent(batch, stored) => HeadBatch(s, batch) && (stored ==> Acked(s) + |batch| <= |All(c, s)|)
       case Answered(batch) => HeadBatch(s, batch) && Acked(s) + |batch| <= |All(c, s)|
  }

  // ---------- Observing ----------

  lemma {:induction false} ObservedIds(t: Outbox.Tables, tasks: seq<TaskSummary>, at: Instant, ids: seq<string>)
    requires |ids| == |tasks| && Outbox.ObserveTasks(t, tasks, at, ids).Ok?
    requires forall i, j :: 0 <= i < j < |ids| ==> ids[i] != ids[j]
    ensures var u := Outbox.ObserveTasks(t, tasks, at, ids).value;
      && t.pending <= u.pending
      && DistinctIds(u.pending[|t.pending|..])
      && forall e <- u.pending[|t.pending|..] :: e.eventId in ids
  {
    if tasks != [] {
      var n := |tasks| - 1;
      ObservedIds(t, tasks[..n], at, ids[..n]);
      var u := Outbox.ObserveTasks(t, tasks[..n], at, ids[..n]).value;
      var v := Outbox.ObserveTask(u, t.tasks, tasks[n], at, ids[n]).value;
      var drawn := u.pending[|t.pending|..];
      assert forall e <- drawn :: e.eventId in ids[..n];
      assert ids[n] !in ids[..n];
      assert v.pending[|t.pending|..] == drawn + v.pending[|u.pending|..];
    }
  }

  lemma EmittedGrows(e: seq<Event>, more: seq<Event>, ids: seq<string>)
    requires DistinctIds(e) && DistinctIds(more)
    requires forall x <- more :: x.eventId in ids
    requires forall i :: 0 <= i < |ids| ==> ids[i] !in Ids(e)
    ensures DistinctIds(e + more)
    ensures Ids(e + more) == Ids(e) + Ids(more)
  {
    forall i, j | 0 <= i < j < |e + more| ensures (e + more)[i].eventId != (e + more)[j].eventId {
      if i < |e| <= j {
        assert more[j - |e|] in more && e[i] in e;
        assert e[i].eventId in Ids(e);
      }
    }
    forall x | x in e + more ensures x.eventId in Ids(e) + Ids(more) {
      assert x in e || x in more;
    }
    forall x | x in e || x in more ensures x.eventId in Ids(e + more) {
      assert x in e + more;
    }
  }

  /** What an observation adds to the outbox: some events under the new ids, or nothing. */
  lemma ObservedMore(c: Config, s: Sys, state: HudState, at: Instant, ids: seq<string>, commits: bool)
    returns (more: seq<Event>)
    requires NewIds(s, ids)
    ensures var u := Next(c, s, Observe(state, at, ids, commits));
      && u == s.(box := u.box)
      && u.box.emitted == s.box.emitted + more && u.box.t.pending == s.box.t.pending + more
    ensures DistinctIds(more) && forall x <- more :: x.eventId in ids
  {
    var u := Next(c, s, Observe(state, at, ids, commits));
    more := [];
    if u.box != s.box {
      ObservedIds(s.box.t, state.tasks.value, at, ids);
      var t := Outbox.ObserveTables(s.box.t, state, at, ids).value;
      more := t.pending[|s.box.t.pending|..];
    } else {
      assert s.box.emitted + [] == s.box.emitted && s.box.t.pending + [] == s.box.t.pending;
    }
  }

  lemma ObserveKeeps(c: Config, s: Sys, state: HudState, at: Instant, ids: seq<string>, commits: bool)
    requires UploadOk(c, s) && NewIds(s, ids)
    ensures UploadOk(c, Next(c, s, Observe(state, at, ids, commits)))
  {
    var more := ObservedMore(c, s, state, at, ids, commits);
    MoreKeeps(c, s, Next(c, s, Observe(state, at, ids, commits)), more, ids);
  }

  lemma MoreKeeps(c: Config, s: Sys, u: Sys, more: seq<Event>, ids: seq<string>)
    requires UploadOk(c, s) && NewIds(s, ids) && u == s.(box := u.box)
    requires u.box.emitted == s.box.emitted + more && u.box.t.pending == s.box.t.pending + more
    requires DistinctIds(more) && forall x <- more :: x.eventId in ids
    ensures UploadOk(c, u)
  {
    EmittedGrows(s.box.emitted, more, ids);
    OutboxGrew(c, s, u, more);
    forall r <- s.log | r.agentId != c.agentId ensures r.event.eventId !in Ids(u.box.emitted) {
      assert r.event.eventId in LogIds(s.log);
    }
  }

  lemma OutboxGrew(c: Config, s: Sys, u: Sys, more: seq<Event>)
    requires InOrderOnce(c, s)
    requires u.log == s.log && u.box.emitted == s.box.emitted + more && u.box.t.pending == s.box.t.pending + more
    ensures InOrderOnce(c, u) && Acked(u) == Acked(s)
    ensures forall batch :: HeadBatch(s, batch) ==> HeadBatch(u, batch)
  {
    var e, a := s.box.emitted, Acked(s);
    assert (e + more)[a..] == e[a..] + more;
    assert forall k :: 0 <= k <= |e| ==> (e + more)[..k] == e[..k];
    forall batch | HeadBatch(s, batch) ensures HeadBatch(u, batch) {
      assert (e + more)[a..a + |batch|] == e[a..a + |batch|];
    }
  }

  // ---------- Acknowledging ----------

  lemma {:induction false} WithoutConcat(x: seq<Event>, y: seq<Event>, ids: seq<string>)
    ensures Outbox.Without(x + y, ids) == Outbox.Without(x, ids) + Outbox.Without(y, ids)
  {
    if x == [] {
      assert x + y == y;
    } else {
      assert (x + y)[1..] == x[1..] + y;
      WithoutConcat(x[1..], y, ids);
    }
  }

  lemma {:induction false} WithoutAll(x: seq<Event>, ids: seq<string>)
    requires forall i :: 0 <= i < |x| ==> x[i].eventId in ids
    ensures Outbox.Without(x, ids) == []
  {
    if x != [] {
      WithoutAll(x[1..], ids);
    }
  }

  lemma {:induction false} WithoutNone(x: seq<Event>, ids: seq<string>)
    requires forall i :: 0 <= i < |x| ==> x[i].eventId !in ids
    ensures Outbox.Without(x, ids) == x
  {
    if x != [] {
      WithoutNone(x[1..], ids);
    }
  }

  /** Acknowledging the head batch removes exactly it. */
  lemma AckDropsBatch(batch: seq<Event>, rest: seq<Event>)
    requires DistinctIds(batch + rest)
    ensures Outbox.Without(batch + rest, EventIds(batch)) == rest
  {
    var ids := EventIds(batch);
    WithoutConcat(batch, rest, ids);
    forall i | 0 <= i < |batch| ensures batch[i].eventId in ids {
      assert ids[i] == batch[i].eventId;
    }
    forall i | 0 <= i < |rest| ensures rest[i].eventId !in ids {
      forall k | 0 <= k < |ids| ensures ids[k] != rest[i].eventId {
        assert (batch + rest)[k] == batch[k] && (batch + rest)[|batch| + i] == rest[i];
      }
    }
    WithoutAll(batch, ids);
    WithoutNone(rest, ids);
  }

  lemma DistinctSlice(e: seq<Event>, i: nat, j: nat)
    requires DistinctIds(e) && i <= j <= |e|
    ensures DistinctIds(e[i..j])
  {
  }

  lemma SplitSlice(e: seq<Event>, a: nat, mid: nat, b: nat)
    requires a <= mid <= b <= |e|
    ensures e[a..b] == e[a..mid] + e[mid..b]
  {
  }

  lemma SplitTail(e: seq<Event>, a: nat, b: nat)
    requires a <= b <= |e|
    ensures e[a..] == e[a..b] + e[b..] && e[a..] == e[a..|e|]
  {
  }

  lemma AcknowledgeKeeps(c: Config, s: Sys)
    requires UploadOk(c, s) && s.upload.Answered?
    ensures UploadOk(c, Next(c, s, Acknowledge))
  {
    var e, a, batch := s.box.emitted, Acked(s), s.upload.batch;
    var b := a + |batch|;
    DistinctSlice(e, a, |e|);
    SplitTail(e, a, b);
    AckDropsBatch(batch, e[b..]);
    assert Next(c, s, Acknowledge).box.t.pending == e[b..];
    HeadLeft(c, s, Next(c, s, Acknowledge), b);
  }

  /** The outbox moves on within what the hub has accepted. */
  lemma HeadLeft(c: Config, s: Sys, u: Sys, b: nat)
    requires UploadOk(c, s) && Acked(s) <= b <= |All(c, s)|
    requires u.upload == Resting && u.log == s.log && u.box.emitted == s.box.emitted
        && u.box.t.pending == s.box.emitted[b..]
    ensures UploadOk(c, u)
  {
  }

  // ---------- Storing ----------

  /** A row among the newest hundred is in the table: the minimum protects it. */
  lemma RecentIsLive(live: seq<Row>, all: seq<Row>, m: nat, i: nat)
    requires KeepsNewest(live, all, m) && m >= BATCH && i < |all| <= i + BATCH
    ensures all[i] in live
  {
    var k := Min(m, |all|);
    assert live[|live| - k..][i - (|all| - k)] == all[|all| - k..][i - (|all| - k)] == all[i];
  }

  /** The part of the head batch that the log already has is still in the table. */
  lemma AcceptedStillStored(c: Config, s: Sys, i: nat)
    requires InOrderOnce(c, s) && KeepsNewest(Live(c, s), All(c, s), c.policy.minEvents) && c.policy.minEvents >= BATCH
    requires Acked(s) <= i < |All(c, s)|
    ensures HasId(s.hub.events, s.box.emitted[i].eventId)
  {
    RecentIsLive(Live(c, s), All(c, s), c.policy.minEvents, i);
    OfMembers(s.hub.events, c.agentId, All(c, s)[i]);
    assert Events(All(c, s))[i] == s.box.emitted[i];
  }

  /** The rest of the emitted events are not in the table. */
  lemma LaterNotStored(c: Config, s: Sys, i: nat)
    requires LogOk(c, s) && UploadOk(c, s)
    requires |All(c, s)| <= i < |s.box.emitted|
    ensures !HasId(s.hub.events, s.box.emitted[i].eventId)
  {
    var e, all := s.box.emitted, All(c, s);
    forall r <- s.hub.events ensures r.event.eventId != e[i].eventId {
      assert r in s.log;
      if r.agentId == c.agentId {
        OfMembers(s.log, c.agentId, r);
        var k :| 0 <= k < |all| && all[k] == r;
        assert Events(all)[k] == e[..|all|][k] == e[k];
      } else {
        assert e[i] in e && e[i].eventId in Ids(e);
      }
    }
  }

  ghost predicate AllStored(rows: seq<Row>, events: seq<Event>) {
    forall i :: 0 <= i < |events| ==> HasId(rows, events[i].eventId)
  }

  ghost predicate AllNew(rows: seq<Row>, events: seq<Event>) {
    DistinctIds(events) && forall i :: 0 <= i < |events| ==> !HasId(rows, events[i].eventId)
  }

  lemma HeadIsStored(c: Config, s: Sys, mid: nat)
    requires InOrderOnce(c, s) && KeepsNewest(Live(c, s), All(c, s), c.policy.minEvents) && c.policy.minEvents >= BATCH
    requires Acked(s) <= mid <= |All(c, s)|
    ensures AllStored(s.hub.events, s.box.emitted[Acked(s)..mid])
  {
    var stored := s.box.emitted[Acked(s)..mid];
    forall i | 0 <= i < |stored| ensures HasId(s.hub.events, stored[i].eventId) {
      AcceptedStillStored(c, s, Acked(s) + i);
    }
  }

  lemma RestIsUnseen(c: Config, s: Sys, mid: nat, b: nat)
    requires LogOk(c, s) && UploadOk(c, s)
    requires |All(c, s)| <= mid <= b <= |s.box.emitted| || mid == b <= |s.box.emitted|
    ensures AllNew(s.hub.events, s.box.emitted[mid..b])
  {
    var unseen := s.box.emitted[mid..b];
    forall i | 0 <= i < |unseen| ensures !HasId(s.hub.events, unseen[i].eventId) {
      LaterNotStored(c, s, mid + i);
    }
    DistinctSlice(s.box.emitted, mid, b);
  }

  /** Where the batch passes from the accepted part of the emitted sequence to the new part. */
  function Boundary(c: Config, s: Sys): nat
    requires |s.box.t.pending| <= |s.box.emitted| && s.upload.Sent?
  {
    var h, b := |All(c, s)|, Acked(s) + |s.upload.batch|;
    if h < b then h else b
  }

  /** The batch on the wire is a stored part followed by a new part, cut where the hub's log ends. */
  ghost predicate InTwo(c: Config, s: Sys)
    requires |s.box.t.pending| <= |s.box.emitted| && s.upload.Sent?
  {
    var e, a, mid, b := s.box.emitted, Acked(s), Boundary(c, s), Acked(s) + |s.upload.batch|;
    && a <= mid <= b <= |e| && s.upload.batch == e[a..mid] + e[mid..b]
    && AllStored(s.hub.events, e[a..mid]) && AllNew(s.hub.events, e[mid..b])
  }

  /** With a minimum covering a batch, the hub still has all of the batch it ever accepted, and none of the rest. */
  lemma BatchInTwo(c: Config, s: Sys)
    requires LogOk(c, s) && UploadOk(c, s) && c.policy.minEvents >= BATCH && s.upload.Sent?
    ensures InTwo(c, s)
  {
    StoredHead(c, s);
    UnseenRest(c, s);
    JoinParts(c, s);
  }

  lemma StoredHead(c: Config, s: Sys)
    requires LogOk(c, s) && UploadOk(c, s) && c.policy.minEvents >= BATCH && s.upload.Sent?
    ensures Acked(s) <= Boundary(c, s) <= |s.box.emitted|
    ensures AllStored(s.hub.events, s.box.emitted[Acked(s)..Boundary(c, s)])
  {
    HeadIsStored(c, s, Boundary(c, s));
  }

  lemma UnseenRest(c: Config, s: Sys)
    requires LogOk(c, s) && UploadOk(c, s) && s.upload.Sent?
    ensures Boundary(c, s) <= Acked(s) + |s.upload.batch| <= |s.box.emitted|
    ensures AllNew(s.hub.events, s.box.emitted[Boundary(c, s)..Acked(s) + |s.upload.batch|])
  {
    RestIsUnseen(c, s, Boundary(c, s), Acked(s) + |s.upload.batch|);
  }

  lemma JoinParts(c: Config, s: Sys)
    requires InOrderOnce(c, s) && s.upload.Sent? && HeadBatch(s, s.upload.batch)
    requires Boundary(c, s) <= Acked(s) + |s.upload.batch| <= |s.box.emitted|
    requires AllStored(s.hub.events, s.box.emitted[Acked(s)..Boundary(c, s)])
    requires AllNew(s.hub.events, s.box.emitted[Boundary(c, s)..Acked(s) + |s.upload.batch|])
    ensures InTwo(c, s)
  {
    SplitSlice(s.box.emitted, Acked(s), Boundary(c, s), Acked(s) + |s.upload.batch|);
  }

  /** A repeated upload adds exactly the part of the batch the hub had not accepted. */
  lemma StoreAppendsRest(c: Config, s: Sys, sentAt: Instant, receivedAt: Instant, gaps: seq<nat>)
    requires |s.box.t.pending| <= |s.box.emitted| && s.upload.Sent? && InTwo(c, s)
    requires |gaps| == |s.upload.batch|
    ensures var u := Stored(s, c.agentId, s.upload.batch, sentAt, receivedAt, gaps);
      Events(NewRows(s.hub.events, u.hub.events)) == s.box.emitted[Boundary(c, s)..Acked(s) + |s.upload.batch|]
  {
    var e, a, mid, b := s.box.emitted, Acked(s), Boundary(c, s), Acked(s) + |s.upload.batch|;
    RestAppended(s, c.agentId, s.upload.batch, e[a..mid], e[mid..b], sentAt, receivedAt, gaps);
  }

  lemma RestAppended(
      s: Sys, agent: string, batch: seq<Event>, stored: seq<Event>, unseen: seq<Event>,
      sentAt: Instant, receivedAt: Instant, gaps: seq<nat>)
    requires |gaps| == |batch| && batch == stored + unseen
    requires AllStored(s.hub.events, stored) && AllNew(s.hub.events, unseen)
    ensures Events(NewRows(s.hub.events, Stored(s, agent, batch, sentAt, receivedAt, gaps).hub.events)) == unseen
  {
    OnlyNewEventsAppear(Upsert(s.hub, agent, sentAt, receivedAt, None), agent, stored, unseen, receivedAt, gaps);
  }

  lemma PrefixGrows(c: Config, s: Sys, u: Sys, rows: seq<Row>)
    requires UploadOk(c, s) && s.upload.Sent? && u.box == s.box
    requires All(c, u) == All(c, s) + rows
    requires Events(rows) == s.box.emitted[Boundary(c, s)..Acked(s) + |s.upload.batch|]
    ensures InOrderOnce(c, u) && Acked(u) + |s.upload.batch| <= |All(c, u)|
  {
    var e, h, b := s.box.emitted, |All(c, s)|, Acked(s) + |s.upload.batch|;
    EventsConcat(All(c, s), rows);
    if h < b {
      assert e[..h] + e[h..b] == e[..b];
    }
  }

  /** What the agent's own upload does to its view: rows of its own, appended. */
  ghost predicate OwnAppended(c: Config, s: Sys, u: Sys) {
    var rows := NewRows(s.hub.events, u.hub.events);
    && u.box == s.box && u.upload == s.upload && u.log == s.log + rows && All(c, u) == All(c, s) + rows
    && (forall i :: 0 <= i < |rows| ==> rows[i].agentId == c.agentId)
  }

  /** The agent's own upload extends its view of the log by the rows appended, and changes nothing else here. */
  lemma OwnRowsAppended(c: Config, s: Sys, batch: seq<Event>, sentAt: Instant, receivedAt: Instant, gaps: seq<nat>)
    requires LogOk(c, s) && |gaps| == |batch| && Fits(s.hub, gaps)
    ensures OwnAppended(c, s, Stored(s, c.agentId, batch, sentAt, receivedAt, gaps))
  {
    StoredKeepsLog(c, s, c.agentId, batch, sentAt, receivedAt, gaps);
    StoredShape(s, c.agentId, batch, sentAt, receivedAt, gaps);
  }

  lemma StoreKeeps(c: Config, s: Sys, sentAt: Instant, receivedAt: Instant, gaps: seq<nat>)
    requires LogOk(c, s) && UploadOk(c, s) && c.policy.minEvents >= BATCH
    requires s.upload.Sent? && |gaps| == |s.upload.batch| && Fits(s.hub, gaps)
    ensures UploadOk(c, Next(c, s, HubStores(sentAt, receivedAt, gaps)))
  {
    OwnRowsAppended(c, s, s.upload.batch, sentAt, receivedAt, gaps);
    BatchInTwo(c, s);
    RestKeeps(c, s, sentAt, receivedAt, gaps);
    StoresNext(c, s, sentAt, receivedAt, gaps);
  }

  lemma StoresNext(c: Config, s: Sys, sentAt: Instant, receivedAt: Instant, gaps: seq<nat>)
    requires Enabled(c, s, HubStores(sentAt, receivedAt, gaps))
    ensures Next(c, s, HubStores(sentAt, receivedAt, gaps))
         == Stored(s, c.agentId, s.upload.batch, sentAt, receivedAt, gaps).(upload := Sent(s.upload.batch, true))
  {
  }

  lemma RestKeeps(c: Config, s: Sys, sentAt: Instant, receivedAt: Instant, gaps: seq<nat>)
    requires UploadOk(c, s) && s.upload.Sent? && |gaps| == |s.upload.batch| && InTwo(c, s)
    requires OwnAppended(c, s, Stored(s, c.agentId, s.upload.batch, sentAt, receivedAt, gaps))
    ensures UploadOk(c,
        Stored(s, c.agentId, s.upload.batch, sentAt, receivedAt, gaps).(upload := Sent(s.upload.batch, true)))
  {
    var u := Stored(s, c.agentId, s.upload.batch, sentAt, receivedAt, gaps);
    StoreAppendsRest(c, s, sentAt, receivedAt, gaps);
    AppendedKeeps(c, s, u, NewRows(s.hub.events, u.hub.events));
  }

  lemma AppendedKeeps(c: Config, s: Sys, u: Sys, rows: seq<Row>)
    requires UploadOk(c, s) && s.upload.Sent? && u.box == s.box && u.upload == s.upload
    requires u.log == s.log + rows && All(c, u) == All(c, s) + rows
    requires forall i :: 0 <= i < |rows| ==> rows[i].agentId == c.agentId
    requires Events(rows) == s.box.emitted[Boundary(c, s)..Acked(s) + |s.upload.batch|]
    ensures UploadOk(c, u.(upload := Sent(s.upload.batch, true)))
  {
    PrefixGrows(c, s, u, rows);
    OthersUnchanged(c, s, u, rows);
    StillHead(c, s, u);
  }

  lemma StillHead(c: Config, s: Sys, u: Sys)
    requires UploadOk(c, s) && s.upload.Sent? && u.box == s.box && u.upload == s.upload
    requires InOrderOnce(c, u) && IdsOk(c, u) && Acked(u) + |s.upload.batch| <= |All(c, u)|
    ensures UploadOk(c, u.(upload := Sent(s.upload.batch, true)))
  {
  }

  lemma OthersUnchanged(c: Config, s: Sys, u: Sys, rows: seq<Row>)
    requires IdsOk(c, s) && u.box == s.box && u.log == s.log + rows
    requires forall i :: 0 <= i < |rows| ==>
        rows[i].agentId == c.agentId || rows[i].event.eventId !in Ids(s.box.emitted)
    ensures IdsOk(c, u)
  {
  }

  lemma OtherIdsOnly(s: Sys, agent: string, batch: seq<Event>, sentAt: Instant, receivedAt: Instant, gaps: seq<nat>)
    requires |gaps| == |batch| && Ids(batch) !! Ids(s.box.emitted)
    ensures var rows := NewRows(s.hub.events, Stored(s, agent, batch, sentAt, receivedAt, gaps).hub.events);
      forall i :: 0 <= i < |rows| ==> rows[i].event.eventId !in Ids(s.box.emitted)
  {
    var base := Upsert(s.hub, agent, sentAt, receivedAt, None);
    var after := InsertBatch(base, agent, batch, receivedAt, gaps);
    var rows := NewRows(s.hub.events, after.events);
    InsertBatchGrew(base, agent, batch, receivedAt, gaps);
    forall i | 0 <= i < |rows| ensures rows[i].event.eventId !in Ids(s.box.emitted) {
      BatchOnly(base, agent, batch, receivedAt, gaps, i);
    }
  }

  lemma OtherUploadKeeps(
      c: Config, s: Sys, agent: string, batch: seq<Event>, sentAt: Instant, receivedAt: Instant, gaps: seq<nat>)
    requires LogOk(c, s) && UploadOk(c, s)
    requires agent != c.agentId && |gaps| == |batch| && Fits(s.hub, gaps) && Ids(batch) !! Ids(s.box.emitted)
    ensures UploadOk(c, Stored(s, agent, batch, sentAt, receivedAt, gaps))
  {
    var u := Stored(s, agent, batch, sentAt, receivedAt, gaps);
    StoredKeepsLog(c, s, agent, batch, sentAt, receivedAt, gaps);
    StoredShape(s, agent, batch, sentAt, receivedAt, gaps);
    OtherIdsOnly(s, agent, batch, sentAt, receivedAt, gaps);
    OthersUnchanged(c, s, u, NewRows(s.hub.events, u.hub.events));
    SameView(c, s, u);
  }

  /** The upload invariant depends only on the outbox, the upload and the agent's own rows in the log. */
  lemma SameView(c: Config, s: Sys, u: Sys)
    requires UploadOk(c, s) && IdsOk(c, u)
    requires u.box.emitted == s.box.emitted && u.box.t.pending == s.box.t.pending
    requires All(c, u) == All(c, s) && (u.upload == s.upload || u.upload == Resting)
    ensures UploadOk(c, u)
  {
  }

  lemma {:induction false} BatchOnly(
      t: Tables, agent: string, batch: seq<Event>, receivedAt: Instant, gaps: seq<nat>, i: nat)
    requires |gaps| == |batch|
    requires |t.events| + i < |InsertBatch(t, agent, batch, receivedAt, gaps).events|
    ensures InsertBatch(t, agent, batch, receivedAt, gaps).events[|t.events| + i].event.eventId in Ids(batch)
  {
    if batch != [] {
      var n := |batch| - 1;
      var mid := InsertBatch(t, agent, batch[..n], receivedAt, gaps[..n]);
      IdsSnoc(batch);
      InsertBatchGrew(t, agent, batch[..n], receivedAt, gaps[..n]);
      if |t.events| + i < |mid.events| {
        BatchOnly(t, agent, batch[..n], receivedAt, gaps[..n], i);
      }
    }
  }

  // ---------- The theorem ----------

  lemma SendKeeps(c: Config, s: Sys)
    requires UploadOk(c, s) && Enabled(c, s, Send)
    ensures UploadOk(c, Next(c, s, Send))
  {
    var e, a, pending := s.box.emitted, Acked(s), s.box.t.pending;
    var batch := Take(pending, BATCH);
    assert batch == pending[..|batch|] == e[a..a + |batch|];
  }

  lemma RespondKeeps(c: Config, s: Sys)
    requires UploadOk(c, s) && Enabled(c, s, Respond2xx)
    ensures UploadOk(c, Next(c, s, Respond2xx))
  {
  }

  /** The other steps leave the log and the outbox's events alone, and at most give up an upload. */
  lemma QuietStep(c: Config, s: Sys, step: Step)
    requires Enabled(c, s, step)
    requires !step.Observe? && !step.Send? && !step.HubStores? && !step.OtherUpload? && !step.Acknowledge?
        && !step.Respond2xx?
    ensures var u := Next(c, s, step);
      && u.log == s.log && u.box.emitted == s.box.emitted && u.box.t.pending == s.box.t.pending
      && (u.upload == s.upload || u.upload == Resting)
  {
  }

  lemma StepKeepsUpload(c: Config, s: Sys, step: Step)
    requires LogOk(c, s) && UploadOk(c, s) && c.policy.minEvents >= BATCH && Enabled(c, s, step)
    ensures UploadOk(c, Next(c, s, step))
  {
    match step
    case Observe(state, at, ids, commits) => ObserveKeeps(c, s, state, at, ids, commits);
    case Send => SendKeeps(c, s);
    case HubStores(sentAt, receivedAt, gaps) => StoreKeeps(c, s, sentAt, receivedAt, gaps);
    case OtherUpload(agent, batch, sentAt, receivedAt, gaps) =>
      OtherUploadKeeps(c, s, agent, batch, sentAt, receivedAt, gaps);
    case Acknowledge => AcknowledgeKeeps(c, s);
    case Respond2xx => RespondKeeps(c, s);
    case _ =>
      QuietStep(c, s, step);
      SameView(c, s, Next(c, s, step));
  }

  lemma {:induction false} UploadIsExactlyOnceFifo(c: Config, steps: seq<Step>)
    requires c.policy.minEvents >= BATCH
    ensures UploadOk(c, Run(c, steps))
    ensures NoDuplicate(c, Run(c, steps))
  {
    if steps != [] {
      var s, step := Run(c, steps[..|steps| - 1]), steps[|steps| - 1];
      UploadIsExactlyOnceFifo(c, steps[..|steps| - 1]);
      RetentionIsSafe(c, steps[..|steps| - 1]);
      if Enabled(c, s, step) {
        StepKeepsUpload(c, s, step);
      }
    }
    OnceInLog(c, Run(c, steps));
  }

  /** No event of the agent was ever given two sequence numbers. */
  ghost predicate NoDuplicate(c: Config, s: Sys) {
    var all := All(c, s);
    forall i, j :: 0 <= i < j < |all| ==> all[i].event.eventId != all[j].event.eventId
  }

  lemma OnceInLog(c: Config, s: Sys)
    requires UploadOk(c, s)
    ensures NoDuplicate(c, s)
  {
    var all, e := All(c, s), s.box.emitted;
    forall i, j | 0 <= i < j < |all| ensures all[i].event.eventId != all[j].event.eventId {
      assert Events(all)[i] == e[i] && Events(all)[j] == e[j];
    }
  }
}
