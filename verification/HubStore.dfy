/**
 The hub's tables: events are inserted once per event id under a growing sequence number, listed by
 cursor, and pruned oldest first by age and by count.
 */
module HubStore {
  import opened Domain
  import opened TimeOrder

  datatype Row = Row(seqNo: nat, agentId: string, receivedAt: Instant, event: Event)

  datatype AgentRow = AgentRow(version: Option<string>, lastSeenAt: Instant, lastSentAt: Instant)

  /** `lastSeq` is SQLite's AUTOINCREMENT high-water mark; it survives the deletion of rows. */
  datatype Tables = Tables(
    events: seq<Row>, lastSeq: nat, agents: map<string, AgentRow>, snapshots: map<string, HudState>)

  const MAX_SEQ: nat := 0x7FFF_FFFF_FFFF_FFFF

  const EMPTY_TABLES := Tables([], 0, map[], map[])

  // ---------- Rows of one agent ----------

  function Of(rows: seq<Row>, agentId: string): seq<Row> {
    if rows == [] then []
    else (if rows[0].agentId == agentId then [rows[0]] else []) + Of(rows[1..], agentId)
  }

  ghost predicate Ascending(rows: seq<Row>) {
    forall i, j :: 0 <= i < j < |rows| ==> rows[i].seqNo < rows[j].seqNo
  }

  ghost predicate UniqueIds(rows: seq<Row>) {
    forall i, j :: 0 <= i < j < |rows| ==> rows[i].event.eventId != rows[j].event.eventId
  }

  /** Sequence numbers ascend from 1 to at most `lastSeq`, and no event id occurs twice. */
  ghost predicate WellFormed(t: Tables) {
    && Ascending(t.events)
    && UniqueIds(t.events)
    && (forall r <- t.events :: 1 <= r.seqNo <= t.lastSeq)
    && t.lastSeq < MAX_SEQ
  }

  lemma {:induction false} OfConcat(a: seq<Row>, b: seq<Row>, agentId: string)
    ensures Of(a + b, agentId) == Of(a, agentId) + Of(b, agentId)
  {
    if a == [] {
      assert a + b == b;
    } else {
      var head := if a[0].agentId == agentId then [a[0]] else [];
      assert (a + b)[0] == a[0] && (a + b)[1..] == a[1..] + b;
      OfConcat(a[1..], b, agentId);
      assert head + (Of(a[1..], agentId) + Of(b, agentId)) == (head + Of(a[1..], agentId)) + Of(b, agentId);
    }
  }

  lemma {:induction false} OfMembers(rows: seq<Row>, agentId: string, r: Row)
    ensures r in Of(rows, agentId) <==> r in rows && r.agentId == agentId
  {
    if rows != [] {
      OfMembers(rows[1..], agentId, r);
      assert rows == [rows[0]] + rows[1..];
    }
  }

  lemma {:induction false} OfAscending(rows: seq<Row>, agentId: string)
    requires Ascending(rows)
    ensures Ascending(Of(rows, agentId))
  {
    if rows != [] {
      OfAscending(rows[1..], agentId);
      var rest := Of(rows[1..], agentId);
      forall i | 0 <= i < |rest| ensures rows[0].seqNo < rest[i].seqNo {
        OfMembers(rows[1..], agentId, rest[i]);
      }
    }
  }

  /** A stored id is found among the rows of whichever agent stored it. */
  function HasId(rows: seq<Row>, id: string): bool {
    exists r <- rows :: r.event.eventId == id
  }

  // ---------- Inserting ----------

  /**
   INSERT OR IGNORE of one event. `gap` numbers are skipped first: numbers are shared by all agents and
   ignored inserts may burn one, so nothing may depend on their being consecutive.
   */
  function InsertEvent(t: Tables, agentId: string, e: Event, receivedAt: Instant, gap: nat): Tables {
    if HasId(t.events, e.eventId) then t.(lastSeq := t.lastSeq + gap)
    else t.(events := t.events + [Row(t.lastSeq + gap + 1, agentId, receivedAt, e)], lastSeq := t.lastSeq + gap + 1)
  }

  function InsertBatch(t: Tables, agentId: string, batch: seq<Event>, receivedAt: Instant, gaps: seq<nat>): Tables
    requires |gaps| == |batch|
  {
    if batch == [] then t
    else
      var n := |batch| - 1;
      InsertEvent(InsertBatch(t, agentId, batch[..n], receivedAt, gaps[..n]), agentId, batch[n], receivedAt, gaps[n])
  }

  function Upsert(t: Tables, agentId: string, sentAt: Instant, receivedAt: Instant, version: Option<string>): Tables {
    var kept := if version == None && agentId in t.agents then t.agents[agentId].version else version;
    t.(agents := t.agents[agentId := AgentRow(kept, receivedAt, sentAt)])
  }

  function RecordEventsTables(
      t: Tables, agentId: string, sentAt: Instant, batch: seq<Event>, receivedAt: Instant, gaps: seq<nat>): Tables
    requires |gaps| == |batch|
  {
    InsertBatch(Upsert(t, agentId, sentAt, receivedAt, None), agentId, batch, receivedAt, gaps)
  }

  function Sum(gaps: seq<nat>): nat {
    if gaps == [] then 0 else Sum(gaps[..|gaps| - 1]) + gaps[|gaps| - 1]
  }

  /** The engine refuses the transaction when the numbers run out. */
  predicate Fits(t: Tables, gaps: seq<nat>) {
    t.lastSeq + Sum(gaps) + |gaps| < MAX_SEQ
  }

  /** The rows an insertion appended. */
  function Appended(before: Tables, after: Tables): seq<Row>
    requires before.events <= after.events
  {
    after.events[|before.events|..]
  }

  /** `b` is `a` plus rows of one agent under new, larger numbers; nothing else but the high-water mark moved. */
  ghost predicate Grew(a: Tables, b: Tables, agentId: string, receivedAt: Instant) {
    && a.events <= b.events
    && a.lastSeq <= b.lastSeq
    && a.agents == b.agents && a.snapshots == b.snapshots
    && (forall i :: |a.events| <= i < |b.events| ==>
          && b.events[i].agentId == agentId && b.events[i].receivedAt == receivedAt
          && a.lastSeq < b.events[i].seqNo <= b.lastSeq)
  }

  lemma {:induction false} InsertBatchGrew(
      t: Tables, agentId: string, batch: seq<Event>, receivedAt: Instant, gaps: seq<nat>)
    requires |gaps| == |batch|
    ensures Grew(t, InsertBatch(t, agentId, batch, receivedAt, gaps), agentId, receivedAt)
    ensures InsertBatch(t, agentId, batch, receivedAt, gaps).lastSeq <= t.lastSeq + Sum(gaps) + |gaps|
  {
    if batch != [] {
      var n := |batch| - 1;
      InsertBatchGrew(t, agentId, batch[..n], receivedAt, gaps[..n]);
    }
  }

  lemma InsertEventWellFormed(t: Tables, agentId: string, e: Event, receivedAt: Instant, gap: nat)
    requires WellFormed(t) && t.lastSeq + gap + 1 < MAX_SEQ
    ensures WellFormed(InsertEvent(t, agentId, e, receivedAt, gap))
  {
    var after := InsertEvent(t, agentId, e, receivedAt, gap);
    if !HasId(t.events, e.eventId) {
      forall i | 0 <= i < |t.events| ensures after.events[i].event.eventId != e.eventId {
        assert after.events[i] == t.events[i] && t.events[i] in t.events;
      }
    }
  }

  lemma {:induction false} InsertBatchWellFormed(
      t: Tables, agentId: string, batch: seq<Event>, receivedAt: Instant, gaps: seq<nat>)
    requires WellFormed(t) && |gaps| == |batch| && Fits(t, gaps)
    ensures WellFormed(InsertBatch(t, agentId, batch, receivedAt, gaps))
  {
    if batch != [] {
      var n := |batch| - 1;
      InsertBatchWellFormed(t, agentId, batch[..n], receivedAt, gaps[..n]);
      InsertBatchGrew(t, agentId, batch[..n], receivedAt, gaps[..n]);
      InsertEventWellFormed(InsertBatch(t, agentId, batch[..n], receivedAt, gaps[..n]), agentId, batch[n], receivedAt,
          gaps[n]);
    }
  }

  lemma HasIdGrows(a: seq<Row>, b: seq<Row>, id: string)
    ensures HasId(a + b, id) <==> HasId(a, id) || HasId(b, id)
  {
    forall r <- a + b | r.event.eventId == id ensures HasId(a, id) || HasId(b, id) {
      assert r in a || r in b;
    }
    forall r <- a | r.event.eventId == id ensures HasId(a + b, id) {
      assert r in a + b;
    }
    forall r <- b | r.event.eventId == id ensures HasId(a + b, id) {
      assert r in a + b;
    }
  }

  /** Every id of the batch ends up stored, and an id is stored afterwards only if it was before or the batch has it. */
  lemma {:induction false} InsertBatchStores(
      t: Tables, agentId: string, batch: seq<Event>, receivedAt: Instant, gaps: seq<nat>, id: string)
    requires |gaps| == |batch|
    ensures HasId(InsertBatch(t, agentId, batch, receivedAt, gaps).events, id)
        <==> HasId(t.events, id) || id in Ids(batch)
  {
    if batch != [] {
      var n := |batch| - 1;
      InsertBatchStores(t, agentId, batch[..n], receivedAt, gaps[..n], id);
      var mid := InsertBatch(t, agentId, batch[..n], receivedAt, gaps[..n]);
      IdsSnoc(batch);
      var row := Row(mid.lastSeq + gaps[n] + 1, agentId, receivedAt, batch[n]);
      HasIdGrows(mid.events, [row], id);
      assert HasId([row], id) <==> id == batch[n].eventId by {
        assert row in [row];
      }
    }
  }

  lemma IdsSnoc(batch: seq<Event>)
    requires batch != []
    ensures Ids(batch) == Ids(batch[..|batch| - 1]) + {batch[|batch| - 1].eventId}
  {
    var n := |batch| - 1;
    assert batch == batch[..n] + [batch[n]];
    assert forall e :: e in batch <==> e in batch[..n] || e == batch[n];
  }

  lemma {:induction false} InsertConcat(
      t: Tables, agentId: string, a: seq<Event>, b: seq<Event>, receivedAt: Instant, ga: seq<nat>, gb: seq<nat>)
    requires |ga| == |a| && |gb| == |b|
    ensures InsertBatch(t, agentId, a + b, receivedAt, ga + gb)
         == InsertBatch(InsertBatch(t, agentId, a, receivedAt, ga), agentId, b, receivedAt, gb)
  {
    if b == [] {
      assert a + b == a && ga + gb == ga;
    } else {
      var n := |b| - 1;
      InsertConcat(t, agentId, a, b[..n], receivedAt, ga, gb[..n]);
      AppendLast(a, b);
      AppendLast(ga, gb);
      InsertOneMore(t, agentId, a + b[..n], b[n], receivedAt, ga + gb[..n], gb[n]);
    }
  }

  lemma AppendLast<T>(a: seq<T>, b: seq<T>)
    requires b != []
    ensures a + b == (a + b[..|b| - 1]) + [b[|b| - 1]]
  {
  }

  lemma InsertOneMore(
      t: Tables, agentId: string, batch: seq<Event>, e: Event, receivedAt: Instant, gaps: seq<nat>, gap: nat)
    requires |gaps| == |batch|
    ensures InsertBatch(t, agentId, batch + [e], receivedAt, gaps + [gap])
         == InsertEvent(InsertBatch(t, agentId, batch, receivedAt, gaps), agentId, e, receivedAt, gap)
  {
    assert (batch + [e])[..|batch|] == batch && (gaps + [gap])[..|gaps|] == gaps;
  }

  /** A batch of stored events adds no row. */
  lemma {:induction false} StoredAddNothing(
      t: Tables, agentId: string, batch: seq<Event>, receivedAt: Instant, gaps: seq<nat>)
    requires |gaps| == |batch| && forall i :: 0 <= i < |batch| ==> HasId(t.events, batch[i].eventId)
    ensures InsertBatch(t, agentId, batch, receivedAt, gaps).events == t.events
  {
    if batch != [] {
      StoredAddNothing(t, agentId, batch[..|batch| - 1], receivedAt, gaps[..|batch| - 1]);
    }
  }

  /** A batch of new, distinct events adds a row for each, in order. */
  lemma {:induction false} NewAppendAll(
      t: Tables, agentId: string, batch: seq<Event>, receivedAt: Instant, gaps: seq<nat>)
    requires |gaps| == |batch| && DistinctIds(batch)
    requires forall i :: 0 <= i < |batch| ==> !HasId(t.events, batch[i].eventId)
    ensures t.events <= InsertBatch(t, agentId, batch, receivedAt, gaps).events
    ensures Events(Appended(t, InsertBatch(t, agentId, batch, receivedAt, gaps))) == batch
  {
    if batch != [] {
      var n := |batch| - 1;
      NewAppendAll(t, agentId, batch[..n], receivedAt, gaps[..n]);
      InsertBatchStores(t, agentId, batch[..n], receivedAt, gaps[..n], batch[n].eventId);
      NotAmong(batch);
      LastIsNew(t, agentId, batch[..n], batch[n], receivedAt, gaps, batch[..n]);
      assert batch == batch[..n] + [batch[n]];
    }
  }

  /**
   Idempotence with order: when the batch is a stored part followed by new, distinct events, exactly the
   new part is appended, in order.
   */
  lemma OnlyNewEventsAppear(
      t: Tables, agentId: string, stored: seq<Event>, unseen: seq<Event>, receivedAt: Instant, gaps: seq<nat>)
    requires |gaps| == |stored| + |unseen|
    requires forall i :: 0 <= i < |stored| ==> HasId(t.events, stored[i].eventId)
    requires forall i :: 0 <= i < |unseen| ==> !HasId(t.events, unseen[i].eventId)
    requires DistinctIds(unseen)
    ensures t.events <= InsertBatch(t, agentId, stored + unseen, receivedAt, gaps).events
    ensures Events(Appended(t, InsertBatch(t, agentId, stored + unseen, receivedAt, gaps))) == unseen
  {
    InsertConcat(t, agentId, stored, unseen, receivedAt, gaps[..|stored|], gaps[|stored|..]);
    assert gaps == gaps[..|stored|] + gaps[|stored|..];
    StoredAddNothing(t, agentId, stored, receivedAt, gaps[..|stored|]);
    var mid := InsertBatch(t, agentId, stored, receivedAt, gaps[..|stored|]);
    NewAppendAll(mid, agentId, unseen, receivedAt, gaps[|stored|..]);
  }

  lemma LastIsNew(
      t: Tables, agentId: string, batch: seq<Event>, e: Event, receivedAt: Instant, gaps: seq<nat>, earlier: seq<Event>)
    requires |gaps| == |batch| + 1
    requires var mid := InsertBatch(t, agentId, batch, receivedAt, gaps[..|batch|]);
      t.events <= mid.events && Events(Appended(t, mid)) == earlier && !HasId(mid.events, e.eventId)
    ensures t.events <= InsertBatch(t, agentId, batch + [e], receivedAt, gaps).events
    ensures Events(Appended(t, InsertBatch(t, agentId, batch + [e], receivedAt, gaps))) == earlier + [e]
  {
    var n := |batch|;
    assert gaps == gaps[..n] + [gaps[n]];
    InsertOneMore(t, agentId, batch, e, receivedAt, gaps[..n], gaps[n]);
    NewRowAppended(t, InsertBatch(t, agentId, batch, receivedAt, gaps[..|batch|]), agentId, e, receivedAt,
        gaps[|batch|], earlier);
  }

  lemma NewRowAppended(
      t: Tables, mid: Tables, agentId: string, e: Event, receivedAt: Instant, gap: nat, earlier: seq<Event>)
    requires t.events <= mid.events && Events(Appended(t, mid)) == earlier && !HasId(mid.events, e.eventId)
    ensures t.events <= InsertEvent(mid, agentId, e, receivedAt, gap).events
    ensures Events(Appended(t, InsertEvent(mid, agentId, e, receivedAt, gap))) == earlier + [e]
  {
    AppendOne(t.events, mid.events, Row(mid.lastSeq + gap + 1, agentId, receivedAt, e));
  }

  lemma AppendOne(a: seq<Row>, b: seq<Row>, r: Row)
    requires a <= b
    ensures a <= b + [r]
    ensures Events((b + [r])[|a|..]) == Events(b[|a|..]) + [r.event]
  {
    assert (b + [r])[|a|..] == b[|a|..] + [r];
  }

  lemma NotAmong(batch: seq<Event>)
    requires batch != [] && DistinctIds(batch)
    ensures batch[|batch| - 1].eventId !in Ids(batch[..|batch| - 1])
  {
  }

  function Events(rows: seq<Row>): (events: seq<Event>)
    ensures |events| == |rows|
    ensures forall i :: 0 <= i < |rows| ==> events[i] == rows[i].event
  {
    seq(|rows|, i requires 0 <= i < |rows| => rows[i].event)
  }

  lemma EventsConcat(a: seq<Row>, b: seq<Row>)
    ensures Events(a + b) == Events(a) + Events(b)
  {
  }
}
