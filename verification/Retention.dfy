/**
 Event retention: each agent's rows are pruned oldest first, by a hard maximum and by age above a
 protected minimum. The SQL statement works with sequence-number floors that are recomputed for every
 batch; the rule it implements counts how many rows of the agent are at least as new.
 */
module Retention {
  import opened TimeOrder
  import opened HubStore

  datatype Policy = Policy(maxAge: int, minEvents: int, maxEvents: int, batchSize: int)

  const DAY_NANOS := 86_400_000_000_000

  predicate ValidPolicy(p: Policy) {
    p.maxAge >= DAY_NANOS && p.minEvents >= 0 && p.maxEvents >= 1 && p.maxEvents >= p.minEvents
    && 1 <= p.batchSize <= 10_000
  }

  type Retaining = p: Policy | ValidPolicy(p) witness Policy(DAY_NANOS, 0, 1, 1)

  // ---------- The statement: floors, WHERE, ORDER BY, LIMIT ----------

  datatype Floors = Floors(force: nat, keep: nat)

  function FloorsOf(mine: seq<Row>, p: Retaining): Floors {
    var n := |mine|;
    Floors(
      if n > p.maxEvents then mine[n - p.maxEvents - 1].seqNo else 0,
      if p.minEvents == 0 then MAX_SEQ
      else if n > p.minEvents then mine[n - p.minEvents].seqNo
      else 0)
  }

  predicate Doomed(r: Row, f: Floors, cutoff: Instant) {
    || (f.force > 0 && r.seqNo <= f.force)
    || (f.keep > 0 && r.seqNo < f.keep && ReceivedBefore(r.receivedAt, cutoff))
  }

  /** The comparison is between the stored texts. */
  predicate ReceivedBefore(receivedAt: Instant, cutoff: Instant)
    ensures ReceivedBefore(receivedAt, cutoff) <==> Before(receivedAt, cutoff)
  {
    TextOrderIsTimeOrder(receivedAt, cutoff);
    TextLess(FormatTime(receivedAt), FormatTime(cutoff))
  }

  /** DELETE of the first `limit` rows of the agent, by sequence number, that meet the WHERE clause. */
  function DeleteFirst(rows: seq<Row>, agentId: string, f: Floors, cutoff: Instant, limit: nat): seq<Row> {
    if rows == [] || limit == 0 then rows
    else if rows[0].agentId == agentId && Doomed(rows[0], f, cutoff) then
      DeleteFirst(rows[1..], agentId, f, cutoff, limit - 1)
    else [rows[0]] + DeleteFirst(rows[1..], agentId, f, cutoff, limit)
  }

  function PruneBatch(rows: seq<Row>, agentId: string, cutoff: Instant, p: Retaining): seq<Row> {
    DeleteFirst(rows, agentId, FloorsOf(Of(rows, agentId), p), cutoff, p.batchSize)
  }

  // ---------- The rule: rank counted from the newest row ----------

  /** `rank` is 1 for the agent's newest row. */
  predicate Expendable(r: Row, rank: nat, cutoff: Instant, p: Retaining) {
    rank > p.maxEvents || (rank > p.minEvents && Before(r.receivedAt, cutoff))
  }

  /** The rows one agent keeps when every expendable row goes at once. */
  function Retained(mine: seq<Row>, cutoff: Instant, p: Retaining): seq<Row> {
    if mine == [] then []
    else (if Expendable(mine[0], |mine|, cutoff, p) then [] else [mine[0]]) + Retained(mine[1..], cutoff, p)
  }

  /** The rows one agent keeps when the oldest `limit` expendable rows go. */
  function DropOldest(mine: seq<Row>, cutoff: Instant, p: Retaining, limit: nat): seq<Row> {
    if mine == [] || limit == 0 then mine
    else if Expendable(mine[0], |mine|, cutoff, p) then DropOldest(mine[1..], cutoff, p, limit - 1)
    else [mine[0]] + DropOldest(mine[1..], cutoff, p, limit)
  }

  // ---------- The statement implements the rule ----------

  lemma DoomedIsExpendable(mine: seq<Row>, i: nat, cutoff: Instant, p: Retaining)
    requires i < |mine| && Ascending(mine)
    requires forall j :: 0 <= j < |mine| ==> 1 <= mine[j].seqNo < MAX_SEQ
    ensures Doomed(mine[i], FloorsOf(mine, p), cutoff) <==> Expendable(mine[i], |mine| - i, cutoff, p)
  {
    var n := |mine|;
    if n > p.maxEvents {
      RankOfSeq(mine, i, n - p.maxEvents - 1);
    }
    if n > p.minEvents > 0 {
      RankOfSeq(mine, i, n - p.minEvents);
    }
  }

  lemma RankOfSeq(mine: seq<Row>, i: nat, j: nat)
    requires Ascending(mine) && i < |mine| && j < |mine|
    ensures mine[i].seqNo < mine[j].seqNo <==> i < j
    ensures mine[i].seqNo <= mine[j].seqNo <==> i <= j
  {
  }

  /** Over one agent's rows the statement with its floors drops what the rank rule drops. */
  lemma {:induction false} DeleteFirstIsDropOldest(
      mine: seq<Row>, i: nat, agentId: string, cutoff: Instant, p: Retaining, limit: nat)
    requires i <= |mine| && Ascending(mine)
    requires forall j :: 0 <= j < |mine| ==> 1 <= mine[j].seqNo < MAX_SEQ && mine[j].agentId == agentId
    ensures DeleteFirst(mine[i..], agentId, FloorsOf(mine, p), cutoff, limit) == DropOldest(mine[i..], cutoff, p, limit)
    decreases |mine| - i
  {
    if i < |mine| && limit > 0 {
      DoomedIsExpendable(mine, i, cutoff, p);
      assert mine[i..][1..] == mine[i + 1..];
      DeleteFirstIsDropOldest(mine, i + 1, agentId, cutoff, p, limit);
      DeleteFirstIsDropOldest(mine, i + 1, agentId, cutoff, p, limit - 1);
    }
  }

  lemma {:induction false} DeleteFirstPerAgent(
      rows: seq<Row>, agentId: string, f: Floors, cutoff: Instant, limit: nat, other: string)
    ensures Of(DeleteFirst(rows, agentId, f, cutoff, limit), other)
         == if other == agentId then DeleteFirst(Of(rows, agentId), agentId, f, cutoff, limit) else Of(rows, other)
  {
    if rows != [] && limit > 0 {
      var r, rest := rows[0], rows[1..];
      if r.agentId != agentId {
        DeleteFirstPerAgent(rest, agentId, f, cutoff, limit, other);
        OfCons(r, DeleteFirst(rest, agentId, f, cutoff, limit), other);
        assert Of(rows, agentId) == Of(rest, agentId);
      } else if Doomed(r, f, cutoff) {
        DeleteFirstPerAgent(rest, agentId, f, cutoff, limit - 1, other);
        assert ([r] + Of(rest, agentId))[1..] == Of(rest, agentId);
      } else {
        DeleteFirstPerAgent(rest, agentId, f, cutoff, limit, other);
        OfCons(r, DeleteFirst(rest, agentId, f, cutoff, limit), other);
        assert ([r] + Of(rest, agentId))[1..] == Of(rest, agentId);
      }
    }
  }

  lemma OfCons(r: Row, rest: seq<Row>, agentId: string)
    ensures Of([r] + rest, agentId) == (if r.agentId == agentId then [r] else []) + Of(rest, agentId)
  {
    assert ([r] + rest)[1..] == rest;
  }

  lemma RowsOfAgent(t: Tables, agentId: string)
    requires WellFormed(t)
    ensures var mine := Of(t.events, agentId);
      Ascending(mine) && forall j :: 0 <= j < |mine| ==> 1 <= mine[j].seqNo < MAX_SEQ && mine[j].agentId == agentId
  {
    var mine := Of(t.events, agentId);
    OfAscending(t.events, agentId);
    forall j | 0 <= j < |mine| ensures 1 <= mine[j].seqNo < MAX_SEQ && mine[j].agentId == agentId {
      OfMembers(t.events, agentId, mine[j]);
    }
  }

  /** One batch drops the agent's oldest expendable rows, at most `batchSize` of them, and no other agent's rows. */
  lemma PruneBatchMeaning(t: Tables, agentId: string, cutoff: Instant, p: Retaining, other: string)
    requires WellFormed(t)
    ensures Of(PruneBatch(t.events, agentId, cutoff, p), other)
         == if other == agentId then DropOldest(Of(t.events, agentId), cutoff, p, p.batchSize) else Of(t.events, other)
  {
    var mine := Of(t.events, agentId);
    RowsOfAgent(t, agentId);
    DeleteFirstPerAgent(t.events, agentId, FloorsOf(mine, p), cutoff, p.batchSize, other);
    assert mine[0..] == mine;
    DeleteFirstIsDropOldest(mine, 0, agentId, cutoff, p, p.batchSize);
  }

  lemma {:induction false} DeleteFirstSubset(rows: seq<Row>, agentId: string, f: Floors, cutoff: Instant, limit: nat)
    ensures |DeleteFirst(rows, agentId, f, cutoff, limit)| <= |rows|
    ensures forall r <- DeleteFirst(rows, agentId, f, cutoff, limit) :: r in rows
  {
    if rows != [] && limit > 0 {
      DeleteFirstSubset(rows[1..], agentId, f, cutoff, limit);
      DeleteFirstSubset(rows[1..], agentId, f, cutoff, limit - 1);
    }
  }

  lemma HeadThenSome(rows: seq<Row>, left: seq<Row>)
    requires rows != [] && Ascending(rows) && UniqueIds(rows) && Ascending(left) && UniqueIds(left)
    requires forall r <- left :: r in rows[1..]
    ensures Ascending([rows[0]] + left) && UniqueIds([rows[0]] + left)
  {
    forall i | 0 <= i < |left|
      ensures rows[0].seqNo < left[i].seqNo && rows[0].event.eventId != left[i].event.eventId
    {
      assert left[i] in rows[1..];
      var j :| 0 <= j < |rows[1..]| && rows[1..][j] == left[i];
      assert rows[j + 1] == left[i];
    }
  }

  lemma {:induction false} DeleteFirstKeepsOrder(
      rows: seq<Row>, agentId: string, f: Floors, cutoff: Instant, limit: nat)
    requires Ascending(rows) && UniqueIds(rows)
    ensures Ascending(DeleteFirst(rows, agentId, f, cutoff, limit))
    ensures UniqueIds(DeleteFirst(rows, agentId, f, cutoff, limit))
  {
    if rows != [] && limit > 0 {
      var rest := rows[1..];
      if rows[0].agentId == agentId && Doomed(rows[0], f, cutoff) {
        DeleteFirstKeepsOrder(rest, agentId, f, cutoff, limit - 1);
      } else {
        DeleteFirstKeepsOrder(rest, agentId, f, cutoff, limit);
        DeleteFirstSubset(rest, agentId, f, cutoff, limit);
        HeadThenSome(rows, DeleteFirst(rest, agentId, f, cutoff, limit));
      }
    }
  }

  lemma PruneBatchWellFormed(t: Tables, agentId: string, cutoff: Instant, p: Retaining)
    requires WellFormed(t)
    ensures WellFormed(t.(events := PruneBatch(t.events, agentId, cutoff, p)))
    ensures |PruneBatch(t.events, agentId, cutoff, p)| <= |t.events|
  {
    DeleteFirstSubset(t.events, agentId, FloorsOf(Of(t.events, agentId), p), cutoff, p.batchSize);
    DeleteFirstKeepsOrder(t.events, agentId, FloorsOf(Of(t.events, agentId), p), cutoff, p.batchSize);
  }

  // ---------- Batching does not matter ----------

  lemma {:induction false} DropOldestLength(mine: seq<Row>, cutoff: Instant, p: Retaining, limit: nat)
    ensures |mine| - limit <= |DropOldest(mine, cutoff, p, limit)| <= |mine|
    ensures |DropOldest(mine, cutoff, p, limit)| > |mine| - limit
        ==> DropOldest(mine, cutoff, p, limit) == Retained(mine, cutoff, p)
    ensures limit >= |mine| ==> DropOldest(mine, cutoff, p, limit) == Retained(mine, cutoff, p)
  {
    if mine != [] && limit > 0 {
      DropOldestLength(mine[1..], cutoff, p, limit);
      DropOldestLength(mine[1..], cutoff, p, limit - 1);
    }
  }

  /** A row that stays never becomes expendable because older rows went. */
  lemma {:induction false} DropTwice(mine: seq<Row>, cutoff: Instant, p: Retaining, n: nat, m: nat)
    ensures DropOldest(DropOldest(mine, cutoff, p, n), cutoff, p, m) == DropOldest(mine, cutoff, p, n + m)
  {
    if mine != [] && n > 0 {
      var rest := mine[1..];
      if Expendable(mine[0], |mine|, cutoff, p) {
        DropTwice(rest, cutoff, p, n - 1, m);
      } else {
        DropTwice(rest, cutoff, p, n, m);
        DropOldestLength(rest, cutoff, p, n);
        var once := DropOldest(rest, cutoff, p, n);
        assert ([mine[0]] + once)[1..] == once;
        if m == 0 {
          assert DropOldest(once, cutoff, p, 0) == once;
        }
      }
    }
  }

  /** Whatever one batch leaves, the rows kept in the end are the same. */
  lemma RetainedAfterBatch(mine: seq<Row>, cutoff: Instant, p: Retaining, n: nat)
    ensures Retained(DropOldest(mine, cutoff, p, n), cutoff, p) == Retained(mine, cutoff, p)
  {
    DropTwice(mine, cutoff, p, n, |mine|);
    DropOldestLength(mine, cutoff, p, n);
    DropOldestLength(DropOldest(mine, cutoff, p, n), cutoff, p, |mine|);
    DropOldestLength(mine, cutoff, p, n + |mine|);
  }

  // ---------- Retention is safe ----------

  /** The newest `k <= MinEvents` rows survive any batch. */
  lemma {:induction false} NewestSurvive(mine: seq<Row>, cutoff: Instant, p: Retaining, n: nat, k: nat)
    requires k <= |mine| && k <= p.minEvents
    ensures |DropOldest(mine, cutoff, p, n)| >= k
    ensures var left := DropOldest(mine, cutoff, p, n); left[|left| - k..] == mine[|mine| - k..]
  {
    if mine != [] && n > 0 && k < |mine| {
      assert mine[|mine| - k..] == mine[1..][|mine| - 1 - k..];
      if Expendable(mine[0], |mine|, cutoff, p) {
        NewestSurvive(mine[1..], cutoff, p, n - 1, k);
      } else {
        NewestSurvive(mine[1..], cutoff, p, n, k);
      }
    } else if k == |mine| {
      ProtectedRows(mine, cutoff, p, n);
    }
  }

  lemma {:induction false} ProtectedRows(mine: seq<Row>, cutoff: Instant, p: Retaining, n: nat)
    requires |mine| <= p.minEvents
    ensures DropOldest(mine, cutoff, p, n) == mine
  {
    if mine != [] && n > 0 {
      ProtectedRows(mine[1..], cutoff, p, n);
    }
  }

  /** Once nothing more is expendable the hard maximum holds. */
  lemma {:induction false} RetainedWithinMaximum(mine: seq<Row>, cutoff: Instant, p: Retaining)
    ensures |Retained(mine, cutoff, p)| <= p.maxEvents
    ensures |Retained(mine, cutoff, p)| <= |mine|
  {
    if mine != [] {
      RetainedWithinMaximum(mine[1..], cutoff, p);
    }
  }

  ghost predicate ReceivedInOrder(mine: seq<Row>) {
    forall i, j :: 0 <= i < j < |mine| ==> NotLater(mine, i, j)
  }

  ghost predicate NotLater(mine: seq<Row>, i: nat, j: nat)
    requires i < |mine| && j < |mine|
  {
    Nanos(mine[i].receivedAt) <= Nanos(mine[j].receivedAt)
  }

  lemma TailInOrder(mine: seq<Row>, k: nat)
    requires ReceivedInOrder(mine) && k <= |mine|
    ensures ReceivedInOrder(mine[k..])
  {
    forall i, j | 0 <= i < j < |mine[k..]| ensures NotLater(mine[k..], i, j) {
      assert NotLater(mine, k + i, k + j);
    }
  }

  ghost predicate SuffixOf<T>(s: seq<T>, whole: seq<T>) {
    |s| <= |whole| && whole[|whole| - |s|..] == s
  }

  /** With receipt times in order, a batch cuts a prefix: what is left is a suffix. */
  lemma {:induction false} OrderedPruningCutsPrefix(mine: seq<Row>, cutoff: Instant, p: Retaining, n: nat)
    requires ReceivedInOrder(mine)
    ensures SuffixOf(DropOldest(mine, cutoff, p, n), mine)
  {
    if mine != [] && n > 0 {
      TailInOrder(mine, 1);
      if Expendable(mine[0], |mine|, cutoff, p) {
        OrderedPruningCutsPrefix(mine[1..], cutoff, p, n - 1);
      } else {
        YoungHeadKeepsAll(mine, cutoff, p, n);
      }
    }
  }

  lemma {:induction false} YoungHeadKeepsAll(mine: seq<Row>, cutoff: Instant, p: Retaining, n: nat)
    requires ReceivedInOrder(mine) && mine != [] && !Expendable(mine[0], |mine|, cutoff, p)
    ensures DropOldest(mine, cutoff, p, n) == mine
  {
    if n > 0 && |mine| > 1 {
      TailInOrder(mine, 1);
      assert NotLater(mine, 0, 1);
      YoungHeadKeepsAll(mine[1..], cutoff, p, n);
    }
  }

  /** At most one rank is left to the age cut: the bounds touch, or there are not enough sequence numbers. */
  predicate Tight(p: Retaining) {
    p.maxEvents <= p.minEvents + 1 || p.minEvents + 2 >= MAX_SEQ
  }

  /** What keeps the table a suffix of everything inserted: receipt times in order, or a tight policy. */
  ghost predicate Steady(all: seq<Row>, tight: bool) {
    tight || ReceivedInOrder(all)
  }

  /** When age decides about one rank only, a batch cuts a prefix whatever the receipt times. */
  lemma {:induction false} TightPruningCutsPrefix(mine: seq<Row>, cutoff: Instant, p: Retaining, n: nat)
    requires p.maxEvents <= p.minEvents + 1 || |mine| <= p.minEvents + 1
    ensures SuffixOf(DropOldest(mine, cutoff, p, n), mine)
  {
    if mine != [] && n > 0 {
      if Expendable(mine[0], |mine|, cutoff, p) {
        TightPruningCutsPrefix(mine[1..], cutoff, p, n - 1);
        SuffixOfTail(DropOldest(mine[1..], cutoff, p, n - 1), mine);
      } else {
        OnlyHeadAtRisk(mine, cutoff, p, n);
      }
    }
  }

  lemma SuffixOfTail<T>(s: seq<T>, whole: seq<T>)
    requires whole != [] && SuffixOf(s, whole[1..])
    ensures SuffixOf(s, whole)
  {
  }

  lemma OnlyHeadAtRisk(mine: seq<Row>, cutoff: Instant, p: Retaining, n: nat)
    requires mine != [] && |mine| <= p.minEvents + 1 && !Expendable(mine[0], |mine|, cutoff, p)
    ensures DropOldest(mine, cutoff, p, n) == mine
  {
    ProtectedRows(mine[1..], cutoff, p, n);
    assert mine == [mine[0]] + mine[1..];
  }

  /** Whether an unbounded sweep takes row `i`. */
  predicate Goes(mine: seq<Row>, i: nat, cutoff: Instant, p: Retaining)
    requires i < |mine|
  {
    Expendable(mine[i], |mine| - i, cutoff, p)
  }

  /** No row that stays is followed by a row that goes. */
  ghost predicate NoHole(mine: seq<Row>, cutoff: Instant, p: Retaining) {
    forall i, j :: 0 <= i < j < |mine| && Goes(mine, j, cutoff, p) ==> Goes(mine, i, cutoff, p)
  }

  /**
   Exactly when an unbounded sweep leaves a suffix: no row that stays is followed by a row that goes.
   Rank never breaks this, so only a receipt time that went backwards can.
   */
  lemma {:induction false} SuffixExactlyWhenNoHole(mine: seq<Row>, cutoff: Instant, p: Retaining)
    requires Ascending(mine)
    ensures SuffixOf(Retained(mine, cutoff, p), mine) <==> NoHole(mine, cutoff, p)
  {
    if mine != [] {
      var rest := mine[1..];
      forall k | 1 <= k < |mine| ensures Goes(mine, k, cutoff, p) == Goes(rest, k - 1, cutoff, p) {
      }
      if Goes(mine, 0, cutoff, p) {
        SuffixExactlyWhenNoHole(rest, cutoff, p);
        HeadGoes(mine, cutoff, p);
        HolesInTail(mine, cutoff, p);
      } else {
        SweepKeepsAllExactly(rest, cutoff, p);
        HeadStays(mine, cutoff, p);
        if exists j :: 1 <= j < |mine| && Goes(mine, j, cutoff, p) {
          var j :| 1 <= j < |mine| && Goes(mine, j, cutoff, p);
          assert Goes(rest, j - 1, cutoff, p);
        } else {
          forall k | 0 <= k < |rest| ensures !Goes(rest, k, cutoff, p) {
            assert !Goes(mine, k + 1, cutoff, p);
          }
        }
      }
    }
  }

  lemma GoesInTail(mine: seq<Row>, k: nat, cutoff: Instant, p: Retaining)
    requires k + 1 < |mine|
    ensures Goes(mine[1..], k, cutoff, p) == Goes(mine, k + 1, cutoff, p)
  {
  }

  lemma HolesInTail(mine: seq<Row>, cutoff: Instant, p: Retaining)
    requires mine != [] && Goes(mine, 0, cutoff, p)
    ensures NoHole(mine, cutoff, p) <==> NoHole(mine[1..], cutoff, p)
  {
    var rest := mine[1..];
    if NoHole(rest, cutoff, p) {
      forall i, j | 0 <= i < j < |mine| && Goes(mine, j, cutoff, p) ensures Goes(mine, i, cutoff, p) {
        if i > 0 {
          GoesInTail(mine, j - 1, cutoff, p);
          GoesInTail(mine, i - 1, cutoff, p);
        }
      }
    }
    if NoHole(mine, cutoff, p) {
      forall i, j | 0 <= i < j < |rest| && Goes(rest, j, cutoff, p) ensures Goes(rest, i, cutoff, p) {
        GoesInTail(mine, j, cutoff, p);
        GoesInTail(mine, i, cutoff, p);
      }
    }
  }

  lemma HeadGoes(mine: seq<Row>, cutoff: Instant, p: Retaining)
    requires mine != [] && Goes(mine, 0, cutoff, p)
    ensures SuffixOf(Retained(mine, cutoff, p), mine) <==> SuffixOf(Retained(mine[1..], cutoff, p), mine[1..])
  {
    var left := Retained(mine[1..], cutoff, p);
    RetainedWithinMaximum(mine[1..], cutoff, p);
    assert mine[|mine| - |left|..] == mine[1..][|mine| - 1 - |left|..];
  }

  lemma HeadStays(mine: seq<Row>, cutoff: Instant, p: Retaining)
    requires Ascending(mine) && mine != [] && !Goes(mine, 0, cutoff, p)
    ensures SuffixOf(Retained(mine, cutoff, p), mine) <==> |Retained(mine[1..], cutoff, p)| == |mine[1..]|
  {
    SweepKeepsAllExactly(mine[1..], cutoff, p);
    var all := Retained(mine, cutoff, p);
    if |all| < |mine| {
      var k := |mine| - |all|;
      assert all[0] == mine[0] && mine[0].seqNo < mine[k].seqNo;
      assert mine[k..][0] == mine[k];
    }
  }

  lemma {:induction false} SweepKeepsAllExactly(mine: seq<Row>, cutoff: Instant, p: Retaining)
    ensures |Retained(mine, cutoff, p)| <= |mine|
    ensures |Retained(mine, cutoff, p)| == |mine| <==> (forall j :: 0 <= j < |mine| ==> !Goes(mine, j, cutoff, p))
    ensures |Retained(mine, cutoff, p)| == |mine| ==> Retained(mine, cutoff, p) == mine
  {
    if mine != [] {
      var rest := mine[1..];
      SweepKeepsAllExactly(rest, cutoff, p);
      forall k | 0 <= k < |rest| ensures Goes(rest, k, cutoff, p) == Goes(mine, k + 1, cutoff, p) {
      }
      assert Goes(mine, 0, cutoff, p) == Expendable(mine[0], |mine|, cutoff, p);
      if forall k :: 0 <= k < |rest| ==> !Goes(rest, k, cutoff, p) {
        forall j | 1 <= j < |mine| ensures !Goes(mine, j, cutoff, p) {
          assert !Goes(rest, j - 1, cutoff, p);
        }
      }
    }
  }

  /**
   Row `i` came after the cutoff and the later row `j` before it: the clock went back across the cutoff between
   them, where neither the hard maximum nor the protected minimum decides.
   */
  predicate ClockWentBack(mine: seq<Row>, i: nat, j: nat, cutoff: Instant, p: Retaining)
    requires i < j < |mine|
  {
    && |mine| - i <= p.maxEvents && |mine| - j > p.minEvents
    && !Before(mine[i].receivedAt, cutoff) && Before(mine[j].receivedAt, cutoff)
  }

  lemma HoleIsClockBack(mine: seq<Row>, i: nat, j: nat, cutoff: Instant, p: Retaining)
    requires i < j < |mine|
    ensures Goes(mine, j, cutoff, p) && !Goes(mine, i, cutoff, p) <==> ClockWentBack(mine, i, j, cutoff, p)
  {
  }

  /** An unbounded deletion leaves a suffix exactly when the clock never went back across the cutoff. */
  lemma HolesExactlyWhereClockWentBack(mine: seq<Row>, cutoff: Instant, p: Retaining)
    requires Ascending(mine)
    ensures SuffixOf(Retained(mine, cutoff, p), mine)
      <==> forall i: nat, j: nat :: i < j < |mine| ==> !ClockWentBack(mine, i, j, cutoff, p)
  {
    SuffixExactlyWhenNoHole(mine, cutoff, p);
    forall i: nat, j: nat | i < j < |mine|
      ensures Goes(mine, j, cutoff, p) && !Goes(mine, i, cutoff, p) <==> ClockWentBack(mine, i, j, cutoff, p)
    {
      HoleIsClockBack(mine, i, j, cutoff, p);
    }
  }
}
