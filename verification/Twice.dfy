/**
 Events handled twice by the phone: an upload that is repeated after its oldest row was pruned brings the event
 back under a new number, above the phone's cursor. The retention minimum that rules it out is one upload batch.
 */
module Twice {
  import opened Domain
  import opened TimeOrder
  import opened HubStore
  import opened Retention
  import opened Hub
  import opened Feed
  import opened Pipeline
  import opened Delivery
  import opened ExactlyOnce
  import opened EndToEnd
  import opened Sharpness
  import opened Gaps

  // ---------- One batch is stored and the phone takes it ----------

  /** As many rows as numbers: row `k` has number `k + 1`. */
  lemma {:induction false} Dense(rows: seq<Row>, n: nat)
    requires Ascending(rows) && |rows| == n && forall i :: 0 <= i < n ==> 1 <= rows[i].seqNo <= n
    ensures forall k :: 0 <= k < n ==> rows[k].seqNo == k + 1
  {
    if n > 0 {
      FewerRowsThanNumbers(rows[..n - 1], rows[n - 1].seqNo - 1);
      Dense(rows[..n - 1], n - 1);
      assert forall k :: 0 <= k < n - 1 ==> rows[..n - 1][k] == rows[k];
    }
  }

  lemma DenseIsNumbered(c: Config, rows: seq<Row>, n: nat, last: nat)
    requires Ascending(rows) && last <= n && Events(rows) == EventsOf(0, n)
    requires forall i :: 0 <= i < |rows| ==> 1 <= rows[i].seqNo <= last && rows[i].agentId == c.agentId
    ensures Numbered(c, rows, n) && (n > 0 ==> last == n)
  {
    Dense(rows, n);
    forall k | 0 <= k < n ensures rows[k] == Row(k + 1, c.agentId, rows[k].receivedAt, EventOf(k)) {
      assert Events(rows)[k] == rows[k].event;
    }
    if n > 0 {
      assert rows[n - 1].seqNo == n;
    }
  }

  /** The phone has its baseline at zero; the `n` pending events are stored and the response is lost. */
  lemma BatchUp(c: Config, n: nat) returns (s: Sys)
    requires 0 < n <= BATCH
    ensures Reachable(c, s) && WellFormed(s.hub) && s.upload == Resting && s.phone == AT_ZERO
    ensures s.box.t.pending == EventsOf(0, n) && s.hub.lastSeq == n && Numbered(c, s.hub.events, n)
    ensures forall k :: 0 <= k < n ==> s.hub.events[k].receivedAt == NOON
  {
    s := FirstPoll(c);
    s := BaselineSet(c, s);
    s := TasksFinish(c, s, 0, n);
    EventsOfDistinct(0, n);
    assert [] + EventsOf(0, n) == EventsOf(0, n);
    var before := s.hub.events;
    s := BatchStored(c, s);
    var rows := s.hub.events;
    assert NewRows(before, rows) == rows;
    assert forall i :: 0 <= i < |rows| ==> rows[i] in rows;
    DenseIsNumbered(c, rows, n, s.hub.lastSeq);
    ReachNext(c, s, GiveUp);
    s := Next(c, s, GiveUp);
  }

  /** The phone takes the whole table. */
  lemma TableTaken(c: Config, s: Sys, n: nat) returns (u: Sys)
    requires Reachable(c, s) && s.phone == AT_ZERO && Numbered(c, s.hub.events, n) && 0 < n <= BATCH
    ensures Reachable(c, u) && u == s.(phone := Phone(Some(n), NoFetch, n, 0, s.hub.events, true, s.hub.events))
  {
    NumberedAscends(c, s.hub.events, n);
    u := PollReadsFloor(c, s);
    u := PageTaken(c, u, false);
  }

  // ---------- The oldest row goes, and the batch is sent again ----------

  /** All rows of the table are the agent's, and the prune takes the oldest. */
  lemma OldestDeleted(t: Tables, agentId: string, cutoff: Instant, p: Retaining)
    requires WellFormed(t) && |t.events| == p.minEvents + 1 && Before(t.events[0].receivedAt, cutoff)
    requires forall i :: 0 <= i < |t.events| ==> t.events[i].agentId == agentId
    ensures PruneBatch(t.events, agentId, cutoff, p) == t.events[1..]
  {
    var left := PruneBatch(t.events, agentId, cutoff, p);
    OfUniform(t.events, agentId, agentId);
    PruneBatchMeaning(t, agentId, cutoff, p, agentId);
    OldestOnlyGoes(t.events, cutoff, p);
    DeleteFirstSubset(t.events, agentId, FloorsOf(t.events, p), cutoff, p.batchSize);
    OwnTable(agentId, t.events, left);
  }

  lemma OwnTable(agentId: string, before: seq<Row>, after: seq<Row>)
    requires forall r <- after :: r in before
    requires forall i :: 0 <= i < |before| ==> before[i].agentId == agentId
    ensures Of(after, agentId) == after
  {
    assert forall i :: 0 <= i < |after| ==> after[i] in before;
    OfUniform(after, agentId, agentId);
  }

  lemma OldestPruned(c: Config, s: Sys, n: nat) returns (u: Sys)
    requires Reachable(c, s) && WellFormed(s.hub) && Numbered(c, s.hub.events, n) && n == c.policy.minEvents + 1
    requires forall k :: 0 <= k < n ==> s.hub.events[k].receivedAt == NOON
    requires s.phone.fetch.NoFetch?
    ensures Reachable(c, u) && u == s.(hub := s.hub.(events := s.hub.events[1..]))
  {
    NoonBeforeLater();
    OldestDeleted(s.hub, c.agentId, LATER, c.policy);
    ReachNext(c, s, Prune(c.agentId, LATER));
    u := Next(c, s, Prune(c.agentId, LATER));
  }

  lemma OneInserted(t: Tables, agent: string, e: Event, at: Instant)
    requires !HasId(t.events, e.eventId)
    ensures InsertBatch(t, agent, [e], at, [0]).events == t.events + [Row(t.lastSeq + 1, agent, at, e)]
  {
    assert InsertBatch(t, agent, [], at, []) == t;
    assert InsertBatch(t, agent, [e], at, [0]) == InsertEvent(t, agent, e, at, 0);
  }

  lemma StillStored(rows: seq<Row>, more: seq<Row>, events: seq<Event>)
    requires AllStored(rows, events)
    ensures AllStored(rows + more, events)
  {
    forall i | 0 <= i < |events| ensures HasId(rows + more, events[i].eventId) {
      HasIdGrows(rows, more, events[i].eventId);
    }
  }

  /** A batch whose first event is gone and whose others are stored appends the first under the next number. */
  lemma HeadComesBack(t: Tables, agent: string, e: Event, rest: seq<Event>, at: Instant)
    requires !HasId(t.events, e.eventId) && AllStored(t.events, rest)
    ensures InsertBatch(t, agent, [e] + rest, at, Zeros(1 + |rest|)).events
         == t.events + [Row(t.lastSeq + 1, agent, at, e)]
  {
    InsertConcat(t, agent, [e], rest, at, [0], Zeros(|rest|));
    assert [0] + Zeros(|rest|) == Zeros(1 + |rest|);
    OneInserted(t, agent, e, at);
    StillStored(t.events, [Row(t.lastSeq + 1, agent, at, e)], rest);
    StoredAddNothing(InsertBatch(t, agent, [e], at, [0]), agent, rest, at, Zeros(|rest|));
  }

  lemma TailHasRest(c: Config, rows: seq<Row>, n: nat)
    requires Numbered(c, rows, n) && n > 0
    ensures !HasId(rows[1..], EventOf(0).eventId) && AllStored(rows[1..], EventsOf(1, n - 1))
    ensures EventsOf(0, n) == [EventOf(0)] + EventsOf(1, n - 1)
  {
    forall r <- rows[1..] ensures r.event.eventId != EventOf(0).eventId {
      var k :| 0 <= k < |rows[1..]| && rows[1..][k] == r;
      assert rows[k + 1] == r;
      NamesDiffer(0, k + 1);
    }
    var rest := EventsOf(1, n - 1);
    forall i | 0 <= i < |rest| ensures HasId(rows[1..], rest[i].eventId) {
      assert rows[1..][i] == rows[i + 1] && rows[i + 1] in rows[1..];
    }
  }

  lemma SentAgain(c: Config, s: Sys, rows: seq<Row>, n: nat) returns (u: Sys)
    requires Reachable(c, s) && s.upload == Resting && s.box.t.pending == EventsOf(0, n) && 0 < n <= BATCH
    requires Numbered(c, rows, n) && s.hub.events == rows[1..] && s.hub.lastSeq == n
    ensures Reachable(c, u) && u.phone == s.phone
    ensures u.hub.events == rows[1..] + [Row(n + 1, c.agentId, NOON, EventOf(0))]
  {
    ReachNext(c, s, Send);
    u := Next(c, s, Send);
    TailHasRest(c, rows, n);
    u := HeadStored(c, u, EventOf(0), EventsOf(1, n - 1));
  }

  lemma HeadStored(c: Config, s: Sys, e: Event, rest: seq<Event>) returns (u: Sys)
    requires Reachable(c, s) && s.upload == Sent([e] + rest, false) && s.hub.lastSeq + 1 + |rest| < MAX_SEQ
    requires !HasId(s.hub.events, e.eventId) && AllStored(s.hub.events, rest)
    ensures Reachable(c, u) && u.phone == s.phone
    ensures u.hub.events == s.hub.events + [Row(s.hub.lastSeq + 1, c.agentId, NOON, e)]
  {
    ZerosSum(1 + |rest|);
    HeadComesBack(Upsert(s.hub, c.agentId, NOON, NOON, None), c.agentId, e, rest, NOON);
    u := WireInserted(c, s, Zeros(1 + |rest|));
  }

  lemma WireInserted(c: Config, s: Sys, gaps: seq<nat>) returns (u: Sys)
    requires Reachable(c, s) && s.upload.Sent? && |gaps| == |s.upload.batch| && Fits(s.hub, gaps)
    ensures Reachable(c, u) && u.phone == s.phone
    ensures u.hub == RecordEventsTables(s.hub, c.agentId, NOON, s.upload.batch, NOON, gaps)
  {
    ReachNext(c, s, HubStores(NOON, NOON, gaps));
    u := Next(c, s, HubStores(NOON, NOON, gaps));
  }

  // ---------- The phone takes the event again ----------

  /** What is left of the old rows is at or below the cursor; the page has the new row alone and asks for no rebase. */
  lemma PageHasNewRow(c: Config, rows: seq<Row>, n: nat, back: Row)
    requires Numbered(c, rows, n) && n > 0 && back.seqNo == n + 1
    ensures Oldest(rows[1..] + [back]) == 2
    ensures Respond(2, rows[1..] + [back], n, BATCH) == EventPage([back], n + 1, n + 1, 2)
    ensures !RequiresRebase(EventPage([back], n + 1, n + 1, 2), n)
  {
    var live := rows[1..] + [back];
    assert forall i :: 0 <= i < n - 1 ==> live[i] == rows[i + 1];
    SinceIsSlice(live, n, n - 1);
    assert live[n - 1..] == [back];
  }

  /** A whole poll from a cursor, with nothing in between, whose page asks for no rebase. */
  lemma PolledOnce(c: Config, s: Sys, after: nat, page: EventPage) returns (u: Sys)
    requires Reachable(c, s) && s.phone.cursor == Some(after) && s.phone.fetch.NoFetch?
    requires Respond(Oldest(Live(c, s)), Live(c, s), after, BATCH) == page && !RequiresRebase(page, after)
    ensures Reachable(c, u) && u.phone.handled == s.phone.handled + page.events
  {
    var oldest := Oldest(Live(c, s));
    ReachNext(c, s, Poll);
    u := Next(c, s, Poll);
    ReachNext(c, u, ReadFloor);
    u := Next(c, u, ReadFloor);
    assert u == s.(phone := s.phone.(fetch := FloorRead(after, true, oldest, false)));
    u := PageArrives(c, u, page);
  }

  lemma PageArrives(c: Config, s: Sys, page: EventPage) returns (u: Sys)
    requires Reachable(c, s) && s.phone.fetch.FloorRead? && s.phone.fetch.resumed
    requires Respond(s.phone.fetch.oldest, Live(c, s), s.phone.fetch.after, BATCH) == page
    requires !RequiresRebase(page, s.phone.fetch.after)
    ensures Reachable(c, u) && u.phone.handled == s.phone.handled + page.events
  {
    ReachNext(c, s, ReadPage);
    u := Next(c, s, ReadPage);
    ReachNext(c, u, Sync(true, true));
    u := Next(c, u, Sync(true, true));
  }

  lemma NewRowTaken(c: Config, s: Sys, rows: seq<Row>, n: nat, back: Row) returns (u: Sys)
    requires Reachable(c, s) && s.phone.cursor == Some(n) && s.phone.fetch.NoFetch?
    requires Numbered(c, rows, n) && n > 0 && back.seqNo == n + 1 && back.agentId == c.agentId
    requires s.hub.events == rows[1..] + [back]
    ensures Reachable(c, u) && u.phone.handled == s.phone.handled + [back]
  {
    OfUniform(s.hub.events, c.agentId, c.agentId);
    PageHasNewRow(c, rows, n, back);
    u := PolledOnce(c, s, n, EventPage([back], n + 1, n + 1, 2));
  }

  lemma SmallMinimumRepeats(c: Config)
    requires c.policy.minEvents < BATCH
    ensures exists s :: Reachable(c, s) && !EachHandledOnce(s.phone)
  {
    var n := c.policy.minEvents + 1;
    var s := BatchUp(c, n);
    var rows, back := s.hub.events, Row(n + 1, c.agentId, NOON, EventOf(0));
    s := TableTaken(c, s, n);
    s := OldestPruned(c, s, n);
    s := SentAgain(c, s, rows, n);
    s := NewRowTaken(c, s, rows, n, back);
    assert s.phone.handled[0].event == EventOf(0) && s.phone.handled[n].event == EventOf(0);
  }

  /** No run gives the phone's voice an event twice if and only if the retention minimum covers an upload batch. */
  lemma HandledTwiceExactlyBelowBatch(c: Config)
    ensures (forall steps :: EachHandledOnce(Run(c, steps).phone)) <==> c.policy.minEvents >= BATCH
  {
    if c.policy.minEvents >= BATCH {
      forall steps ensures EachHandledOnce(Run(c, steps).phone) {
        PhoneTakesSlicesOfEdges(c, steps);
      }
    } else {
      SmallMinimumRepeats(c);
      var s :| Reachable(c, s) && !EachHandledOnce(s.phone);
      var steps :| Run(c, steps) == s;
      assert !EachHandledOnce(Run(c, steps).phone);
    }
  }
}
