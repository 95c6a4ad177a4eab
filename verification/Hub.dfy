/** The hub's store as the program has it: methods over tables, each transaction all or nothing. */
module Hub {
  import opened Domain
  import opened TimeOrder
  import opened HubStore
  import opened Retention

  // ---------- Queries ----------

  /** Rows after a cursor. */
  function Since(mine: seq<Row>, after: int): seq<Row> {
    if mine == [] then []
    else (if mine[0].seqNo > after then [mine[0]] else []) + Since(mine[1..], after)
  }

  /** SELECT ... WHERE agent_id = ? AND seq > ? ORDER BY seq LIMIT ? */
  function Page(rows: seq<Row>, agentId: string, after: int, limit: nat): seq<Row> {
    Take(Since(Of(rows, agentId), after), limit)
  }

  /** COALESCE(MAX(seq), 0) of one agent's rows. */
  function Latest(mine: seq<Row>): nat {
    if mine == [] then 0 else mine[|mine| - 1].seqNo
  }

  /** COALESCE(MIN(seq), 0) of one agent's rows. */
  function Oldest(mine: seq<Row>): nat {
    if mine == [] then 0 else mine[0].seqNo
  }

  function AgentIds(rows: seq<Row>): (ids: seq<string>)
    ensures forall r <- rows :: r.agentId in ids
    ensures forall i, j :: 0 <= i < j < |ids| ==> ids[i] != ids[j]
    ensures |ids| <= |rows|
  {
    if rows == [] then []
    else
      var ids := AgentIds(rows[..|rows| - 1]);
      if rows[|rows| - 1].agentId in ids then ids else ids + [rows[|rows| - 1].agentId]
  }

  lemma {:induction false} NoRows(rows: seq<Row>, agentId: string)
    requires forall r <- rows :: r.agentId != agentId
    ensures Of(rows, agentId) == []
  {
    if rows != [] {
      assert forall r <- rows[1..] :: r in rows;
      NoRows(rows[1..], agentId);
    }
  }

  // ---------- What a page holds ----------

  /** Rows of one agent after the cursor, in order, and every such row up to the last of them. */
  ghost predicate NextAfter(rows: seq<Row>, agentId: string, after: int, items: seq<Row>) {
    && Ascending(items)
    && (forall r <- items :: r in rows && r.agentId == agentId && r.seqNo > after)
    && (forall r <- rows | r.agentId == agentId && r.seqNo > after && items != [] ::
          r.seqNo <= items[|items| - 1].seqNo ==> r in items)
    && (items == [] ==> forall r <- rows | r.agentId == agentId :: r.seqNo <= after)
  }

  /** The agent's greatest number, or zero without rows. */
  ghost predicate HighWater(rows: seq<Row>, agentId: string, latest: nat) {
    && (forall r <- rows | r.agentId == agentId :: r.seqNo <= latest)
    && (latest > 0 ==> exists r <- rows :: r.agentId == agentId && r.seqNo == latest)
  }

  lemma {:induction false} SinceHolds(mine: seq<Row>, after: int, r: Row)
    ensures r in Since(mine, after) <==> r in mine && r.seqNo > after
  {
    if mine != [] {
      SinceHolds(mine[1..], after, r);
      assert mine == [mine[0]] + mine[1..];
    }
  }

  lemma {:induction false} SinceAscends(mine: seq<Row>, after: int)
    requires Ascending(mine)
    ensures Ascending(Since(mine, after))
  {
    if mine != [] {
      var rest := Since(mine[1..], after);
      SinceAscends(mine[1..], after);
      forall i | 0 <= i < |rest| ensures mine[0].seqNo < rest[i].seqNo {
        SinceHolds(mine[1..], after, rest[i]);
      }
    }
  }

  lemma HeadOfSince(since: seq<Row>, limit: nat, r: Row)
    requires Ascending(since) && limit >= 1 && r in since
    ensures Take(since, limit) != []
    ensures r.seqNo <= Take(since, limit)[|Take(since, limit)| - 1].seqNo ==> r in Take(since, limit)
  {
    var k :| 0 <= k < |since| && since[k] == r;
    if k < |Take(since, limit)| {
      assert Take(since, limit)[k] == r;
    }
  }

  lemma LatestIsHighWater(t: Tables, agentId: string)
    requires WellFormed(t)
    ensures HighWater(t.events, agentId, Latest(Of(t.events, agentId)))
  {
    var mine := Of(t.events, agentId);
    OfAscending(t.events, agentId);
    forall r <- t.events | r.agentId == agentId ensures r.seqNo <= Latest(mine) {
      OfMembers(t.events, agentId, r);
    }
    if mine != [] {
      OfMembers(t.events, agentId, mine[|mine| - 1]);
    }
  }

  lemma SinceOfAgent(t: Tables, agentId: string, after: int, r: Row)
    ensures r in Since(Of(t.events, agentId), after) <==> r in t.events && r.agentId == agentId && r.seqNo > after
  {
    OfMembers(t.events, agentId, r);
    SinceHolds(Of(t.events, agentId), after, r);
  }

  lemma PageIsNext(t: Tables, agentId: string, after: int, limit: nat)
    requires WellFormed(t) && limit >= 1
    ensures NextAfter(t.events, agentId, after, Page(t.events, agentId, after, limit))
  {
    OfAscending(t.events, agentId);
    SinceAscends(Of(t.events, agentId), after);
    HeadIsNext(t, agentId, after, limit, Since(Of(t.events, agentId), after));
  }

  lemma HeadIsNext(t: Tables, agentId: string, after: int, limit: nat, since: seq<Row>)
    requires Ascending(since) && limit >= 1 && since == Since(Of(t.events, agentId), after)
    ensures NextAfter(t.events, agentId, after, Take(since, limit))
  {
    var items := Take(since, limit);
    forall r <- items ensures r in t.events && r.agentId == agentId && r.seqNo > after {
      SinceOfAgent(t, agentId, after, r);
    }
    forall r <- t.events | r.agentId == agentId && r.seqNo > after
      ensures items != [] && (r.seqNo <= items[|items| - 1].seqNo ==> r in items)
    {
      SinceOfAgent(t, agentId, after, r);
      HeadOfSince(since, limit, r);
    }
  }

  // ---------- What deletions do to the counts ----------

  lemma {:induction false} DeleteFirstCounts(rows: seq<Row>, agentId: string, f: Floors, cutoff: Instant, limit: nat)
    ensures |rows| - |DeleteFirst(rows, agentId, f, cutoff, limit)|
         == |Of(rows, agentId)| - |Of(DeleteFirst(rows, agentId, f, cutoff, limit), agentId)|
  {
    if rows != [] && limit > 0 {
      var r, rest := rows[0], rows[1..];
      if r.agentId == agentId && Doomed(r, f, cutoff) {
        DeleteFirstCounts(rest, agentId, f, cutoff, limit - 1);
      } else {
        DeleteFirstCounts(rest, agentId, f, cutoff, limit);
        OfCons(r, DeleteFirst(rest, agentId, f, cutoff, limit), agentId);
      }
    }
  }

  class Store {
    var events: seq<Row>
    var lastSeq: nat
    var agents: map<string, AgentRow>
    var snapshots: map<string, HudState>

    ghost function Contents(): Tables
      reads this
    {
      Tables(events, lastSeq, agents, snapshots)
    }

    ghost predicate Valid()
      reads this
    {
      WellFormed(Contents())
    }

    constructor ()
      ensures Valid() && Contents() == EMPTY_TABLES
    {
      events, lastSeq, agents, snapshots := [], 0, map[], map[];
    }

    /**
     Inserts a batch in one transaction. `commits` is whether the engine lets it commit. Every event of a
     committed batch is stored afterwards; `accepted` counts the rows that are new.
     */
    method RecordEvents(
        agentId: string, sentAt: Instant, batch: seq<Event>, receivedAt: Instant, gaps: seq<nat>, commits: bool)
      returns (r: Result<(nat, nat)>)
      requires Valid() && |gaps| == |batch|
      modifies this
      ensures Valid()
      ensures r.Ok? <==> commits && Fits(old(Contents()), gaps)
      ensures r.Err? ==> Contents() == old(Contents())
      ensures r.Ok? ==> Contents() == RecordEventsTables(old(Contents()), agentId, sentAt, batch, receivedAt, gaps)
      ensures r.Ok? ==> r.value.0 == |events| - |old(events)| && r.value.0 + r.value.1 == |batch|
      ensures r.Ok? ==>
        && snapshots == old(snapshots)
        && agents.Keys == old(agents).Keys + {agentId}
        && agents[agentId].lastSeenAt == receivedAt && agents[agentId].lastSentAt == sentAt
        && agents[agentId].version == (if agentId in old(agents) then old(agents)[agentId].version else None)
        && (forall a :: a in agents && a != agentId ==> agents[a] == old(agents)[a])
    {
      var before := Tables(events, lastSeq, agents, snapshots);
      var tx := Upsert(before, agentId, sentAt, receivedAt, None);
      ghost var start := tx;
      var accepted, duplicates, i := 0, 0, 0;
      while i < |batch|
        invariant 0 <= i <= |batch|
        invariant tx == InsertBatch(start, agentId, batch[..i], receivedAt, gaps[..i])
        invariant |tx.events| == |events| + accepted && accepted + duplicates == i
      {
        var rows := |tx.events|;
        tx := InsertEvent(tx, agentId, batch[i], receivedAt, gaps[i]);
        assert batch[..i + 1][..i] == batch[..i] && gaps[..i + 1][..i] == gaps[..i];
        if |tx.events| > rows {
          accepted := accepted + 1;
        } else {
          duplicates := duplicates + 1;
        }
        i := i + 1;
      }
      assert batch[..i] == batch && gaps[..i] == gaps;
      if !commits || !Fits(before, gaps) {
        return Err;
      }
      InsertBatchWellFormed(start, agentId, batch, receivedAt, gaps);
      events, lastSeq, agents := tx.events, tx.lastSeq, tx.agents;
      InsertBatchGrew(start, agentId, batch, receivedAt, gaps);
      return Ok((accepted, duplicates));
    }

    method RecordState(agentId: string, sentAt: Instant, state: HudState, receivedAt: Instant, commits: bool)
      returns (ok: bool)
      requires Valid()
      modifies this`agents, this`snapshots
      ensures Valid() && ok == commits
      ensures !ok ==> Contents() == old(Contents())
      ensures ok ==>
        && snapshots == old(snapshots)[agentId := state]
        && agents == Upsert(old(Contents()), agentId, sentAt, receivedAt, None).agents
        && agents.Keys == old(agents).Keys + {agentId}
        && agents[agentId].lastSeenAt == receivedAt && agents[agentId].lastSentAt == sentAt
        && agents[agentId].version == (if agentId in old(agents) then old(agents)[agentId].version else None)
        && (forall a :: a in agents && a != agentId ==> agents[a] == old(agents)[a])
    {
      if !commits {
        return false;
      }
      agents := Upsert(Tables(events, lastSeq, agents, snapshots), agentId, sentAt, receivedAt, None).agents;
      snapshots := snapshots[agentId := state];
      return true;
    }

    method RecordHeartbeat(
        agentId: string, sentAt: Instant, receivedAt: Instant, version: Option<string>, commits: bool)
      returns (ok: bool)
      requires Valid()
      modifies this`agents
      ensures Valid() && ok == commits
      ensures !ok ==> agents == old(agents)
      ensures ok ==>
        && agents.Keys == old(agents).Keys + {agentId}
        && agents[agentId].lastSeenAt == receivedAt && agents[agentId].lastSentAt == sentAt
        && (version.Some? ==> agents[agentId].version == version)
        && (version.None? ==>
              agents[agentId].version == if agentId in old(agents) then old(agents)[agentId].version else None)
        && (forall a :: a in agents && a != agentId ==> agents[a] == old(agents)[a])
      ensures agents == if ok then Upsert(old(Contents()), agentId, sentAt, receivedAt, version).agents else old(agents)
    {
      if commits {
        agents := Upsert(Tables(events, lastSeq, agents, snapshots), agentId, sentAt, receivedAt, version).agents;
      }
      return commits;
    }

    /** The stored snapshot with the agent's last contact, if the agent ever sent one. */
    method LoadState(agentId: string) returns (r: Option<(HudState, Instant)>)
      ensures r.Some? <==> agentId in snapshots && agentId in agents
      ensures r.Some? ==> r.value == (snapshots[agentId], agents[agentId].lastSeenAt)
    {
      if agentId in snapshots && agentId in agents {
        return Some((snapshots[agentId], agents[agentId].lastSeenAt));
      }
      return None;
    }

    method ListEvents(agentId: string, after: int, limit: int) returns (r: Result<(seq<Row>, nat)>)
      requires Valid()
      ensures r.Ok? <==> after >= 0 && 1 <= limit <= 100
      ensures r.Ok? ==> r.value == (Page(events, agentId, after, limit), Latest(Of(events, agentId)))
      ensures r.Ok? ==> NextAfter(events, agentId, after, r.value.0) && HighWater(events, agentId, r.value.1)
      ensures r.Ok? ==> |r.value.0| == Min(limit, |Since(Of(events, agentId), after)|)
    {
      if after < 0 || limit < 1 || limit > 100 {
        return Err;
      }
      PageIsNext(Contents(), agentId, after, limit);
      LatestIsHighWater(Contents(), agentId);
      return Ok((Page(events, agentId, after, limit), Latest(Of(events, agentId))));
    }

    method EventBounds(agentId: string) returns (oldest: nat, latest: nat, count: nat)
      requires Valid()
      ensures count == |Of(events, agentId)|
      ensures count == 0 ==> oldest == latest == 0 && forall r <- events :: r.agentId != agentId
      ensures count > 0 ==>
        && (exists r <- events :: r.agentId == agentId && r.seqNo == oldest)
        && (exists r <- events :: r.agentId == agentId && r.seqNo == latest)
        && (forall r <- events | r.agentId == agentId :: oldest <= r.seqNo <= latest)
      ensures oldest == Oldest(Of(events, agentId)) && latest == Latest(Of(events, agentId))
    {
      var mine := Of(events, agentId);
      oldest, latest, count := Oldest(mine), Latest(mine), |mine|;
      OfAscending(events, agentId);
      forall r <- events ensures r.agentId == agentId ==> r in mine {
        OfMembers(events, agentId, r);
      }
      if count > 0 {
        OfMembers(events, agentId, mine[0]);
        OfMembers(events, agentId, mine[count - 1]);
      }
    }

    /** One bounded delete transaction: the agent's oldest expendable rows, at most `batchSize` of them. */
    method PruneAgentBatch(agentId: string, cutoff: Instant, p: Retaining, commits: bool) returns (deleted: Option<nat>)
      requires Valid()
      modifies this`events
      ensures Valid()
      ensures deleted.Some? <==> commits
      ensures deleted == None ==> events == old(events)
      ensures deleted.Some? ==>
        && Of(events, agentId) == DropOldest(Of(old(events), agentId), cutoff, p, p.batchSize)
        && deleted.value == |old(events)| - |events| == |Of(old(events), agentId)| - |Of(events, agentId)|
        && deleted.value <= p.batchSize
      ensures forall a :: a != agentId ==> Of(events, a) == Of(old(events), a)
    {
      if !commits {
        return None;
      }
      ghost var t := Contents();
      forall a ensures Of(PruneBatch(events, agentId, cutoff, p), a)
          == if a == agentId then DropOldest(Of(events, agentId), cutoff, p, p.batchSize) else Of(events, a)
      {
        PruneBatchMeaning(t, agentId, cutoff, p, a);
      }
      PruneBatchWellFormed(t, agentId, cutoff, p);
      DeleteFirstCounts(events, agentId, FloorsOf(Of(events, agentId), p), cutoff, p.batchSize);
      DropOldestLength(Of(events, agentId), cutoff, p, p.batchSize);
      var rows := |events|;
      events := PruneBatch(events, agentId, cutoff, p);
      return Some(rows - |events|);
    }

    /** The inner loop of the sweep: batches for one agent until one comes back short. */
    method PruneAgent(id: string, cutoff: Instant, p: Retaining, budget: nat)
      returns (ok: bool, deleted: nat, left: nat)
      requires Valid()
      modifies this`events
      ensures Valid()
      ensures deleted == |old(events)| - |events|
      ensures forall a :: a != id ==> Of(events, a) == Of(old(events), a)
      ensures ok ==> Of(events, id) == Retained(Of(old(events), id), cutoff, p)
      ensures SameFate(old(events), events, id, cutoff, p)
      ensures budget <= left + deleted + (if ok then 1 else 0) && (!ok ==> left == 0)
    {
      ok, deleted, left := false, 0, budget;
      ghost var mine := Of(events, id);
      while !ok
        invariant Valid() && deleted == |old(events)| - |events|
        invariant forall a :: a != id ==> Of(events, a) == Of(old(events), a)
        invariant SameFate(old(events), events, id, cutoff, p)
        invariant ok ==> Of(events, id) == Retained(mine, cutoff, p)
        invariant budget <= left + deleted + (if ok then 1 else 0)
        decreases |events|, !ok
      {
        ghost var now := Of(events, id);
        var batch := PruneAgentBatch(id, cutoff, p, left > 0);
        if batch == None {
          return;
        }
        left := left - 1;
        RetainedAfterBatch(now, cutoff, p, p.batchSize);
        DropOldestLength(now, cutoff, p, p.batchSize);
        deleted := deleted + batch.value;
        ok := batch.value < p.batchSize;
      }
    }

    /** The outer loop of the sweep; `ids` are the agents that had rows when it began. */
    method PruneAgents(ids: seq<string>, cutoff: Instant, p: Retaining, budget: nat) returns (ok: bool, deleted: nat)
      requires Valid()
      requires forall i, j :: 0 <= i < j < |ids| ==> ids[i] != ids[j]
      modifies this`events
      ensures Valid()
      ensures deleted == |old(events)| - |events|
      ensures Progress(old(events), events, ids, if ok then |ids| else 0, cutoff, p)
      ensures budget > |old(events)| + |ids| ==> ok
    {
      ok, deleted := false, 0;
      var left: nat, i := budget, 0;
      ghost var start := events;
      assert Progress(start, events, ids, 0, cutoff, p);
      while i < |ids|
        invariant 0 <= i <= |ids|
        invariant Valid() && deleted == |start| - |events|
        invariant Progress(start, events, ids, i, cutoff, p)
        invariant budget <= left + deleted + i
      {
        ghost var before := events;
        var done, gone, budgetLeft := PruneAgent(ids[i], cutoff, p, left);
        deleted, left := deleted + gone, budgetLeft;
        ProgressStep(start, before, events, ids, i, done, cutoff, p);
        if !done {
          return;
        }
        i := i + 1;
      }
      ok := true;
    }

    /**
     The sweep over all agents. `budget` batches commit before the engine fails or the context ends. However
     it is cut into batches, a finished sweep leaves each agent exactly the rows one unbounded deletion would
     leave, and an interrupted one has not changed what the next sweep will leave. It finishes unless it is
     interrupted: it needs at most one batch for each row and one for each agent.
     */
    method PruneEvents(cutoff: Instant, policy: Policy, budget: nat) returns (ok: bool, deleted: nat)
      requires Valid()
      modifies this`events
      ensures Valid()
      ensures !ValidPolicy(policy) ==> !ok && events == old(events)
      ensures deleted == |old(events)| - |events|
      ensures ok ==> ValidPolicy(policy)
      ensures ValidPolicy(policy) && budget > 2 * |old(events)| ==> ok
      ensures ok ==> forall a :: Of(events, a) == Retained(Of(old(events), a), cutoff, policy)
      ensures ok ==> forall a :: |Of(events, a)| <= policy.maxEvents
      ensures ValidPolicy(policy) ==>
        forall a :: Retained(Of(events, a), cutoff, policy) == Retained(Of(old(events), a), cutoff, policy)
    {
      if !ValidPolicy(policy) {
        return false, 0;
      }
      var ids := AgentIds(events);
      ok, deleted := PruneAgents(ids, cutoff, policy, budget);
      SameFateEverywhere(old(events), events, cutoff, policy);
      if ok {
        AllFinished(old(events), events, ids, cutoff, policy);
        forall a ensures |Of(events, a)| <= policy.maxEvents {
          RetainedWithinMaximum(Of(old(events), a), cutoff, policy);
        }
      }
    }
  }

  /** A sweep that got this far leaves agent `a` what a sweep from the start would; an agent without rows gets none. */
  ghost predicate SameFate(before: seq<Row>, now: seq<Row>, a: string, cutoff: Instant, p: Retaining) {
    && Retained(Of(now, a), cutoff, p) == Retained(Of(before, a), cutoff, p)
    && (Of(before, a) == [] ==> Of(now, a) == [])
  }

  /** No agent's fate has changed, and the first `n` agents are finished. */
  ghost predicate Progress(start: seq<Row>, now: seq<Row>, ids: seq<string>, n: nat, cutoff: Instant, p: Retaining)
    requires n <= |ids|
  {
    && (forall a :: SameFate(start, now, a, cutoff, p))
    && (forall k :: 0 <= k < n ==> Of(now, ids[k]) == Retained(Of(start, ids[k]), cutoff, p))
  }

  lemma ProgressStep(
      start: seq<Row>, before: seq<Row>, now: seq<Row>, ids: seq<string>, n: nat, done: bool, cutoff: Instant,
      p: Retaining)
    requires n < |ids| && Progress(start, before, ids, n, cutoff, p)
    requires forall i, j :: 0 <= i < j < |ids| ==> ids[i] != ids[j]
    requires forall a :: a != ids[n] ==> Of(now, a) == Of(before, a)
    requires SameFate(before, now, ids[n], cutoff, p)
    requires done ==> Of(now, ids[n]) == Retained(Of(before, ids[n]), cutoff, p)
    ensures Progress(start, now, ids, if done then n + 1 else 0, cutoff, p)
  {
    SameFateStep(start, before, now, ids[n], cutoff, p);
    if done {
      forall k | 0 <= k < n + 1 ensures Of(now, ids[k]) == Retained(Of(start, ids[k]), cutoff, p) {
        if k < n {
          assert Of(now, ids[k]) == Of(before, ids[k]);
        }
      }
    }
  }

  lemma SameFateStep(start: seq<Row>, before: seq<Row>, now: seq<Row>, id: string, cutoff: Instant, p: Retaining)
    requires forall a :: SameFate(start, before, a, cutoff, p)
    requires forall a :: a != id ==> Of(now, a) == Of(before, a)
    requires SameFate(before, now, id, cutoff, p)
    ensures forall a :: SameFate(start, now, a, cutoff, p)
    ensures Retained(Of(before, id), cutoff, p) == Retained(Of(start, id), cutoff, p)
  {
    forall a ensures SameFate(start, now, a, cutoff, p) {
      assert SameFate(start, before, a, cutoff, p);
    }
    assert SameFate(start, before, id, cutoff, p);
  }

  lemma AllFinished(start: seq<Row>, now: seq<Row>, ids: seq<string>, cutoff: Instant, p: Retaining)
    requires forall r <- start :: r.agentId in ids
    requires forall k :: 0 <= k < |ids| ==> Of(now, ids[k]) == Retained(Of(start, ids[k]), cutoff, p)
    requires forall a :: SameFate(start, now, a, cutoff, p)
    ensures forall a :: Of(now, a) == Retained(Of(start, a), cutoff, p)
  {
    forall a ensures Of(now, a) == Retained(Of(start, a), cutoff, p) {
      if a !in ids {
        NoRows(start, a);
        assert SameFate(start, now, a, cutoff, p);
      }
    }
  }

  lemma SameFateEverywhere(before: seq<Row>, now: seq<Row>, cutoff: Instant, p: Retaining)
    requires forall a :: SameFate(before, now, a, cutoff, p)
    ensures forall a :: Retained(Of(now, a), cutoff, p) == Retained(Of(before, a), cutoff, p)
  {
    forall a ensures Retained(Of(now, a), cutoff, p) == Retained(Of(before, a), cutoff, p) {
      assert SameFate(before, now, a, cutoff, p);
    }
  }
}
