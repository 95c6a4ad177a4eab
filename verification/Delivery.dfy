/**
 What the pipeline keeps at every reachable state: the hub's log against its table, the outbox against the
 log, and the phone against both.
 */
module Delivery {
  import opened Domain
  import opened TimeOrder
  import opened HubStore
  import opened Retention
  import opened Pipeline

  // ---------- The table against everything ever inserted ----------

  /** The newest `m` inserted rows (or all, if fewer) are all still there, as the newest rows. */
  ghost predicate KeepsNewest(live: seq<Row>, all: seq<Row>, m: nat) {
    var k := Min(m, |all|);
    |live| >= k && live[|live| - k..] == all[|all| - k..]
  }

  ghost predicate CutsPrefix(live: seq<Row>, all: seq<Row>, tight: bool) {
    Steady(all, tight) ==> SuffixOf(live, all)
  }

  ghost predicate LogOk(c: Config, s: Sys) {
    && WellFormed(s.hub)
    && Ascending(s.log)
    && (forall r <- s.log :: 1 <= r.seqNo <= s.hub.lastSeq)
    && (forall r <- s.hub.events :: r in s.log)
    && KeepsNewest(Live(c, s), All(c, s), c.policy.minEvents)
    && CutsPrefix(Live(c, s), All(c, s), Tight(c.policy))
  }

  function Last<T>(s: seq<T>, k: nat): seq<T>
    requires k <= |s|
  {
    s[|s| - k..]
  }

  lemma LastOfConcat<T>(s: seq<T>, t: seq<T>, k: nat)
    requires k <= |s| + |t|
    ensures Last(s + t, k) == if k <= |t| then Last(t, k) else Last(s, k - |t|) + t
  {
  }

  lemma LastOfLast<T>(s: seq<T>, k: nat, j: nat)
    requires j <= k <= |s|
    ensures Last(Last(s, k), j) == Last(s, j)
  {
  }

  lemma NewestAppended(live: seq<Row>, all: seq<Row>, more: seq<Row>, m: nat)
    requires KeepsNewest(live, all, m)
    ensures KeepsNewest(live + more, all + more, m)
  {
    var k, k' := Min(m, |all|), Min(m, |all + more|);
    LastOfConcat(live, more, k');
    LastOfConcat(all, more, k');
    if k' > |more| {
      LastOfLast(live, k, k' - |more|);
      LastOfLast(all, k, k' - |more|);
    }
    assert Last(live + more, k') == Last(all + more, k');
  }

  lemma SuffixAppended<T>(live: seq<T>, all: seq<T>, more: seq<T>)
    requires SuffixOf(live, all)
    ensures SuffixOf(live + more, all + more)
  {
    LastOfConcat(all, more, |live + more|);
    assert Last(all, |live|) == live;
    if live == [] {
      assert Last(more, |more|) == more;
    }
  }

  lemma SteadyBefore(all: seq<Row>, more: seq<Row>, tight: bool)
    requires Steady(all + more, tight)
    ensures Steady(all, tight)
  {
    if !tight {
      forall i, j | 0 <= i < j < |all| ensures NotLater(all, i, j) {
        assert NotLater(all + more, i, j);
      }
    }
  }

  lemma AppendedToBoth(live: seq<Row>, all: seq<Row>, more: seq<Row>, m: nat, tight: bool)
    requires KeepsNewest(live, all, m) && CutsPrefix(live, all, tight)
    ensures KeepsNewest(live + more, all + more, m) && CutsPrefix(live + more, all + more, tight)
  {
    NewestAppended(live, all, more, m);
    if Steady(all + more, tight) {
      SteadyBefore(all, more, tight);
      SuffixAppended(live, all, more);
    }
  }

  /** The rows the agent itself gains when `agent` uploads. */
  function Gained(c: Config, s: Sys, u: Sys, agent: string): seq<Row> {
    if agent == c.agentId then NewRows(s.hub.events, u.hub.events) else []
  }

  lemma StoredShape(s: Sys, agent: string, batch: seq<Event>, sentAt: Instant, receivedAt: Instant, gaps: seq<nat>)
    requires WellFormed(s.hub) && |gaps| == |batch| && Fits(s.hub, gaps)
    ensures var u := Stored(s, agent, batch, sentAt, receivedAt, gaps);
      var rows := NewRows(s.hub.events, u.hub.events);
      && WellFormed(u.hub) && s.hub.lastSeq <= u.hub.lastSeq
      && u.hub.events == s.hub.events + rows && u.log == s.log + rows
      && Ascending(rows)
      && (forall i :: 0 <= i < |rows| ==> rows[i].agentId == agent && s.hub.lastSeq < rows[i].seqNo <= u.hub.lastSeq)
  {
    var u := Stored(s, agent, batch, sentAt, receivedAt, gaps);
    var base := Upsert(s.hub, agent, sentAt, receivedAt, None);
    InsertBatchGrew(base, agent, batch, receivedAt, gaps);
    InsertBatchWellFormed(base, agent, batch, receivedAt, gaps);
    NewRowsNumbered(base, u.hub, agent, receivedAt);
  }

  /** The rows a batch appends are the agent's, numbered in order above all earlier ones. */
  lemma NewRowsNumbered(t: Tables, u: Tables, agent: string, receivedAt: Instant)
    requires Ascending(u.events) && Grew(t, u, agent, receivedAt)
    ensures var rows := NewRows(t.events, u.events);
      && u.events == t.events + rows && Ascending(rows)
      && (forall i :: 0 <= i < |rows| ==> rows[i].agentId == agent && t.lastSeq < rows[i].seqNo <= u.lastSeq)
  {
    var rows, n := NewRows(t.events, u.events), |t.events|;
    forall i | 0 <= i < |rows| ensures rows[i] == u.events[n + i] {
    }
    forall i, j | 0 <= i < j < |rows| ensures rows[i].seqNo < rows[j].seqNo {
      assert u.events[n + i].seqNo < u.events[n + j].seqNo;
    }
  }

  /** What one upload transaction does to table and log, whoever sent it. */
  lemma StoredKeepsLog(
      c: Config, s: Sys, agent: string, batch: seq<Event>, sentAt: Instant, receivedAt: Instant, gaps: seq<nat>)
    requires LogOk(c, s) && |gaps| == |batch| && Fits(s.hub, gaps)
    ensures LogOk(c, Stored(s, agent, batch, sentAt, receivedAt, gaps))
    ensures var u := Stored(s, agent, batch, sentAt, receivedAt, gaps); Extended(c, s, u, Gained(c, s, u, agent))
  {
    var u := Stored(s, agent, batch, sentAt, receivedAt, gaps);
    StoredShape(s, agent, batch, sentAt, receivedAt, gaps);
    var rows := NewRows(s.hub.events, u.hub.events);
    OfConcat(s.hub.events, rows, c.agentId);
    OfConcat(s.log, rows, c.agentId);
    OfUniform(rows, agent, c.agentId);
    AppendedToBoth(Live(c, s), All(c, s), Gained(c, s, u, agent), c.policy.minEvents, Tight(c.policy));
    LogAppend(s.log, rows, s.hub.lastSeq, u.hub.lastSeq);
    TableInLog(s.hub.events, s.log, rows);
  }

  lemma TableInLog(events: seq<Row>, log: seq<Row>, rows: seq<Row>)
    requires forall r <- events :: r in log
    ensures forall r <- events + rows :: r in log + rows
  {
  }

  /** Both views of the agent's rows got the same new rows, numbered above everything before. */
  ghost predicate Extended(c: Config, s: Sys, u: Sys, more: seq<Row>) {
    && Live(c, u) == Live(c, s) + more && All(c, u) == All(c, s) + more
    && (forall i :: 0 <= i < |more| ==> more[i].seqNo > s.hub.lastSeq)
  }

  lemma LogAppend(log: seq<Row>, rows: seq<Row>, last: nat, last': nat)
    requires Ascending(log) && Ascending(rows) && last <= last'
    requires forall r <- log :: 1 <= r.seqNo <= last
    requires forall i :: 0 <= i < |rows| ==> last < rows[i].seqNo <= last'
    ensures Ascending(log + rows)
    ensures forall r <- log + rows :: 1 <= r.seqNo <= last'
  {
    forall i, j | 0 <= i < j < |log + rows| ensures (log + rows)[i].seqNo < (log + rows)[j].seqNo {
      if i < |log| {
        assert log[i] in log;
      }
    }
  }

  lemma {:induction false} OfUniform(rows: seq<Row>, agent: string, agentId: string)
    requires forall i :: 0 <= i < |rows| ==> rows[i].agentId == agent
    ensures Of(rows, agentId) == if agent == agentId then rows else []
  {
    if rows != [] {
      OfUniform(rows[1..], agent, agentId);
    }
  }

  lemma PruneKeepsLog(c: Config, s: Sys, agent: string, cutoff: Instant)
    requires LogOk(c, s)
    ensures LogOk(c, s.(hub := s.hub.(events := PruneBatch(s.hub.events, agent, cutoff, c.policy))))
  {
    var u := s.(hub := s.hub.(events := PruneBatch(s.hub.events, agent, cutoff, c.policy)));
    PruneBatchWellFormed(s.hub, agent, cutoff, c.policy);
    DeleteFirstSubset(s.hub.events, agent, FloorsOf(Of(s.hub.events, agent), c.policy), cutoff, c.policy.batchSize);
    PruneBatchMeaning(s.hub, agent, cutoff, c.policy, c.agentId);
    if agent == c.agentId {
      OfAscending(s.log, c.agentId);
      forall i | 0 <= i < |All(c, s)| ensures 1 <= All(c, s)[i].seqNo <= s.hub.lastSeq {
        OfMembers(s.log, c.agentId, All(c, s)[i]);
      }
      FewerRowsThanNumbers(All(c, s), s.hub.lastSeq);
      PrunedStillTracks(Live(c, s), All(c, s), cutoff, c.policy);
    }
  }

  lemma {:induction false} FewerRowsThanNumbers(rows: seq<Row>, last: nat)
    requires Ascending(rows) && forall i :: 0 <= i < |rows| ==> 1 <= rows[i].seqNo <= last
    ensures |rows| <= last
  {
    if rows != [] {
      FewerRowsThanNumbers(rows[..|rows| - 1], rows[|rows| - 1].seqNo - 1);
    }
  }

  lemma PrunedStillTracks(live: seq<Row>, all: seq<Row>, cutoff: Instant, p: Retaining)
    requires KeepsNewest(live, all, p.minEvents) && CutsPrefix(live, all, Tight(p)) && |all| < MAX_SEQ
    ensures KeepsNewest(DropOldest(live, cutoff, p, p.batchSize), all, p.minEvents)
    ensures CutsPrefix(DropOldest(live, cutoff, p, p.batchSize), all, Tight(p))
  {
    NewestSurvive(live, cutoff, p, p.batchSize, Min(p.minEvents, |all|));
    if Tight(p) {
      TightPruningCutsPrefix(live, cutoff, p, p.batchSize);
    } else if ReceivedInOrder(all) {
      TailInOrder(all, |all| - |live|);
      OrderedPruningCutsPrefix(live, cutoff, p, p.batchSize);
    }
    if Steady(all, Tight(p)) {
      SuffixOfSuffix(DropOldest(live, cutoff, p, p.batchSize), live, all);
    }
  }

  lemma SuffixOfSuffix(a: seq<Row>, b: seq<Row>, d: seq<Row>)
    requires SuffixOf(a, b) && SuffixOf(b, d)
    ensures SuffixOf(a, d)
  {
    assert d[|d| - |a|..] == d[|d| - |b|..][|b| - |a|..];
  }

  lemma StepKeepsLog(c: Config, s: Sys, step: Step)
    requires LogOk(c, s) && Enabled(c, s, step)
    ensures LogOk(c, Next(c, s, step))
  {
    match step
    case HubStores(sentAt, receivedAt, gaps) =>
      StoredKeepsLog(c, s, c.agentId, s.upload.batch, sentAt, receivedAt, gaps);
    case OtherUpload(agent, batch, sentAt, receivedAt, gaps) =>
      StoredKeepsLog(c, s, agent, batch, sentAt, receivedAt, gaps);
    case Prune(agent, cutoff) => PruneKeepsLog(c, s, agent, cutoff);
    case _ =>
  }

  /** Retention is safe over every run of inserts and prune batches. */
  lemma {:induction false} RetentionIsSafe(c: Config, steps: seq<Step>)
    ensures LogOk(c, Run(c, steps))
  {
    if steps != [] {
      var s, step := Run(c, steps[..|steps| - 1]), steps[|steps| - 1];
      RetentionIsSafe(c, steps[..|steps| - 1]);
      if Enabled(c, s, step) {
        StepKeepsLog(c, s, step);
      }
    }
  }
}
