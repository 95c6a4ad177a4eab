/**
 Holes in the table and silent gaps on the phone, with no assumption on the hub's clock: the exact condition on
 the configuration, and runs that show the failures outside it and when a prune tears a page.
 */
module Gaps {
  import opened Domain
  import opened TimeOrder
  import opened HubStore
  import opened Retention
  import opened Hub
  import opened Feed
  import opened Pipeline
  import opened Delivery
  import opened PhoneFeed
  import opened Sharpness

  // ---------- What a prune leaves of a prepared table ----------

  lemma NumberedAscends(c: Config, rows: seq<Row>, n: nat)
    requires Numbered(c, rows, n)
    ensures Ascending(rows) && Of(rows, c.agentId) == rows
  {
    OfUniform(rows, c.agentId, c.agentId);
  }

  /** All rows are old and one is more than the minimum: the oldest goes. */
  lemma OldestOnlyGoes(rows: seq<Row>, cutoff: Instant, p: Retaining)
    requires |rows| == p.minEvents + 1 && Before(rows[0].receivedAt, cutoff)
    ensures DropOldest(rows, cutoff, p, p.batchSize) == rows[1..]
  {
    ProtectedRows(rows[1..], cutoff, p, p.batchSize - 1);
  }

  /** Two rows more than the minimum, the oldest of them young: the second oldest goes. */
  lemma SecondOldestGoes(rows: seq<Row>, cutoff: Instant, p: Retaining)
    requires |rows| == p.minEvents + 2 <= p.maxEvents
    requires !Before(rows[0].receivedAt, cutoff) && Before(rows[1].receivedAt, cutoff)
    ensures DropOldest(rows, cutoff, p, p.batchSize) == [rows[0]] + rows[2..]
  {
    var rest := rows[1..];
    assert rest[1..] == rows[2..];
    ProtectedRows(rows[2..], cutoff, p, p.batchSize - 1);
    assert Expendable(rest[0], |rest|, cutoff, p);
    assert DropOldest(rest, cutoff, p, p.batchSize) == DropOldest(rest[1..], cutoff, p, p.batchSize - 1);
  }

  lemma Pruned(c: Config, s: Sys, cutoff: Instant) returns (u: Sys)
    requires Reachable(c, s) && WellFormed(s.hub)
    ensures Reachable(c, u) && WellFormed(u.hub)
    ensures u == s.(hub := s.hub.(events := u.hub.events), phone := s.phone.(fetch := Torn(s.phone.fetch)))
    ensures Live(c, u) == DropOldest(Live(c, s), cutoff, c.policy, c.policy.batchSize)
  {
    PruneBatchMeaning(s.hub, c.agentId, cutoff, c.policy, c.agentId);
    PruneBatchWellFormed(s.hub, c.agentId, cutoff, c.policy);
    ReachNext(c, s, Prune(c.agentId, cutoff));
    u := Next(c, s, Prune(c.agentId, cutoff));
  }

  // ---------- A clock that was set back leaves a hole ----------

  /** The first row came after the clock was set back; the prune takes the second and leaves the first. */
  lemma ClockBackLeavesHole(c: Config) returns (s: Sys)
    requires !Tight(c.policy)
    ensures Reachable(c, s) && WellFormed(s.hub) && s.phone == AT_ZERO
    ensures Numbered(c, s.log, c.policy.minEvents + 2)
    ensures Live(c, s) == [s.log[0]] + s.log[2..] && All(c, s) == s.log
  {
    var n := c.policy.minEvents + 2;
    var t := Filled(c, n, LATER);
    NumberedAscends(c, t.log, n);
    NoonBeforeLater();
    SecondOldestGoes(t.log, LATER, c.policy);
    s := Pruned(c, t, LATER);
  }

  lemma NotASuffix(c: Config, rows: seq<Row>, n: nat)
    requires Numbered(c, rows, n) && n >= 2
    ensures !SuffixOf([rows[0]] + rows[2..], rows)
  {
    var left := [rows[0]] + rows[2..];
    assert |rows| - |left| == 1 && rows[1..][0] == rows[1] && left[0] == rows[0];
    assert rows[0].seqNo == 1 && rows[1].seqNo == 2;
  }

  /** In every run, whatever the clock does, the table is a suffix of all inserts exactly when the policy is tight. */
  lemma TableIsSuffixExactly(c: Config)
    ensures (forall steps :: SuffixOf(Live(c, Run(c, steps)), All(c, Run(c, steps)))) <==> Tight(c.policy)
  {
    if Tight(c.policy) {
      forall steps ensures SuffixOf(Live(c, Run(c, steps)), All(c, Run(c, steps))) {
        RetentionIsSafe(c, steps);
      }
    } else {
      var s := ClockBackLeavesHole(c);
      NotASuffix(c, s.log, c.policy.minEvents + 2);
      var steps :| Run(c, steps) == s;
      assert !SuffixOf(Live(c, Run(c, steps)), All(c, Run(c, steps)));
    }
  }

  // ---------- A poll from cursor zero ----------

  lemma PollReadsFloor(c: Config, s: Sys) returns (u: Sys)
    requires Reachable(c, s) && s.phone == AT_ZERO
    ensures Reachable(c, u)
    ensures u == s.(phone := AT_ZERO.(fetch := FloorRead(0, true, Oldest(Live(c, s)), false)))
  {
    ReachNext(c, s, Poll);
    u := Next(c, s, Poll);
    ReachNext(c, u, ReadFloor);
    u := Next(c, u, ReadFloor);
  }

  lemma WholePage(live: seq<Row>)
    requires live != [] && forall i :: 0 <= i < |live| ==> live[i].seqNo >= 1
    ensures Respond(1, live, 0, BATCH)
        == EventPage(Take(live, BATCH), Take(live, BATCH)[|Take(live, BATCH)| - 1].seqNo, Latest(live), 1)
    ensures !RequiresRebase(Respond(1, live, 0, BATCH), 0)
  {
    SinceAll(live, 0);
  }

  /** Under floor one no rebase is asked for, and the phone takes the first hundred rows it is shown. */
  lemma PageTaken(c: Config, s: Sys, torn: bool) returns (u: Sys)
    requires Reachable(c, s) && s.phone == AT_ZERO.(fetch := FloorRead(0, true, 1, torn))
    requires Live(c, s) != [] && forall i :: 0 <= i < |Live(c, s)| ==> Live(c, s)[i].seqNo >= 1
    ensures Reachable(c, u) && u == s.(phone := u.phone)
    ensures var taken := Take(Live(c, s), BATCH);
      var mark := taken[|taken| - 1].seqNo;
      u.phone == Phone(Some(mark), NoFetch, mark, 0, taken, !torn, taken)
  {
    WholePage(Live(c, s));
    ReachNext(c, s, ReadPage);
    u := Next(c, s, ReadPage);
    ReachNext(c, u, Sync(true, true));
    var p := u.phone;
    u := Next(c, u, Sync(true, true));
    assert p.adopted + p.fetch.page.events == p.fetch.page.events;
  }

  lemma {:induction false} SegmentHas(mine: seq<Row>, lo: nat, hi: nat, r: Row)
    requires r in mine && lo < r.seqNo <= hi
    ensures r in Segment(mine, lo, hi)
  {
    if r != mine[0] {
      SegmentHas(mine[1..], lo, hi, r);
    }
  }

  /** A page that passes over a row is not the segment it stands for. */
  lemma RowPassedOver(p: Phone, live: seq<Row>, all: seq<Row>, r: Row)
    requires p.adopted == Take(live, BATCH) && r in all && r !in live && p.start < r.seqNo <= p.mark
    ensures p.adopted != Segment(all, p.start, p.mark)
  {
    SegmentHas(all, p.start, p.mark, r);
    assert r !in Take(live, BATCH);
  }

  lemma NotInRest(c: Config, rows: seq<Row>, n: nat, i: nat, left: seq<Row>)
    requires Numbered(c, rows, n) && i < n
    requires forall r <- left :: exists k :: 0 <= k < n && k != i && rows[k] == r
    ensures rows[i] !in left
  {
  }

  // ---------- A clock that was set back makes the phone skip an event ----------

  lemma HoleRows(c: Config, rows: seq<Row>, n: nat)
    requires Numbered(c, rows, n) && n >= 3
    ensures var left := [rows[0]] + rows[2..];
      && rows[1] !in left && rows[1] in rows && left[0].seqNo == 1
      && (forall i :: 0 <= i < |left| ==> left[i].seqNo >= 1)
      && Take(left, BATCH)[|Take(left, BATCH)| - 1].seqNo >= 3
  {
    var left := [rows[0]] + rows[2..];
    forall r <- left ensures exists k :: 0 <= k < n && k != 1 && rows[k] == r {
      var j :| 0 <= j < |left| && left[j] == r;
      assert rows[if j == 0 then 0 else j + 1] == r;
    }
    NotInRest(c, rows, n, 1, left);
    assert forall j :: 1 <= j < |left| ==> left[j] == rows[j + 1];
  }

  lemma ClockBackSkips(c: Config)
    requires c.policy.minEvents >= 1 && !Tight(c.policy)
    ensures exists s :: Reachable(c, s) && !AdoptedOk(s.phone, All(c, s), true)
  {
    var n := c.policy.minEvents + 2;
    var s := ClockBackLeavesHole(c);
    var rows, live := s.log, Live(c, s);
    HoleRows(c, rows, n);
    NumberedAscends(c, rows, n);
    var u := PollReadsFloor(c, s);
    u := PageTaken(c, u, false);
    RowPassedOver(u.phone, live, All(c, u), rows[1]);
  }

  /**
   The exact condition, with no assumption on the clock: no run with whole pages skips an event without a rebase
   if and only if the minimum is at least one and leaves at most one rank to the age cut.
   */
  lemma SilentGapsExactly(c: Config)
    ensures (forall steps :: AdoptedOk(Run(c, steps).phone, All(c, Run(c, steps)), true))
       <==> c.policy.minEvents >= 1 && Tight(c.policy)
  {
    if c.policy.minEvents >= 1 && Tight(c.policy) {
      forall steps ensures AdoptedOk(Run(c, steps).phone, All(c, Run(c, steps)), true) {
        PhoneIsSafe(c, steps);
      }
    } else {
      if c.policy.minEvents >= 1 {
        ClockBackSkips(c);
      } else {
        ZeroMinimumSkips(c);
        var z :| Reachable(c, z) && !AdoptedOk(z.phone, All(c, z), false);
        assert !AdoptedOk(z.phone, All(c, z), true);
      }
      var s :| Reachable(c, s) && !AdoptedOk(s.phone, All(c, s), true);
      var steps :| Run(c, steps) == s;
      assert !AdoptedOk(Run(c, steps).phone, All(c, Run(c, steps)), true);
    }
  }

  // ---------- A prune between the two reads makes the phone skip an event ----------

  lemma TailRows(c: Config, rows: seq<Row>, n: nat)
    requires Numbered(c, rows, n) && n >= 2
    ensures var left := rows[1..];
      && rows[0] !in left && rows[0] in rows
      && (forall i :: 0 <= i < |left| ==> left[i].seqNo >= 1)
      && Take(left, BATCH)[|Take(left, BATCH)| - 1].seqNo >= 2
  {
    var left := rows[1..];
    forall r <- left ensures exists k :: 0 <= k < n && k != 0 && rows[k] == r {
      var j :| 0 <= j < |left| && left[j] == r;
      assert rows[j + 1] == r;
    }
    NotInRest(c, rows, n, 0, left);
    assert forall j :: 0 <= j < |left| ==> left[j] == rows[j + 1];
  }

  lemma NoonInOrder(rows: seq<Row>)
    requires forall k :: 0 <= k < |rows| ==> rows[k].receivedAt == NOON
    ensures ReceivedInOrder(rows)
  {
    forall i, j | 0 <= i < j < |rows| ensures NotLater(rows, i, j) {
    }
  }

  /** Receipt times are in order, and what the phone took since its baseline is not all that was inserted. */
  ghost predicate Skipped(c: Config, s: Sys) {
    ReceivedInOrder(All(c, s)) && s.phone.adopted != Segment(All(c, s), s.phone.start, s.phone.mark)
  }

  /** The phone reads the floor of a table of old rows, a prune takes the oldest, and the phone reads the page. */
  lemma TornPage(c: Config) returns (u: Sys)
    requires 1 <= c.policy.minEvents && c.policy.minEvents + 1 < MAX_SEQ
    ensures Reachable(c, u) && Skipped(c, u)
  {
    var n := c.policy.minEvents + 1;
    var s := Filled(c, n, NOON);
    var rows := s.log;
    NumberedAscends(c, rows, n);
    NoonBeforeLater();
    OldestOnlyGoes(rows, LATER, c.policy);
    TailRows(c, rows, n);
    NoonInOrder(rows);
    u := PollReadsFloor(c, s);
    u := Pruned(c, u, LATER);
    var live := Live(c, u);
    u := PageTaken(c, u, true);
    RowPassedOver(u.phone, live, All(c, u), rows[0]);
  }

  /**
   Under every policy that can ever prune by age, with receipt times in order: a page read in two halves around a
   prune asks for no rebase and passes over an event. At a minimum of zero even a whole page can.
   */
  lemma TornPageSkips(c: Config)
    requires c.policy.minEvents + 1 < MAX_SEQ
    ensures exists s :: Reachable(c, s) && Skipped(c, s)
  {
    if c.policy.minEvents == 0 {
      ZeroMinimumSkips(c);
      var z :| Reachable(c, z) && !AdoptedOk(z.phone, All(c, z), false);
      assert Skipped(c, z);
    } else {
      var u := TornPage(c);
    }
  }
}
