/**
 The phone under any retention policy: no row is handled twice, because a rebase goes to the newest row that is
 left; and the persisted cursor never goes back exactly when the retention minimum keeps that newest row.
 */
module Cursor {
  import opened Domain
  import opened TimeOrder
  import opened HubStore
  import opened Retention
  import opened Hub
  import opened Feed
  import opened Pipeline
  import opened Delivery
  import opened PhoneFeed
  import opened Sharpness
  import opened Gaps

  // ---------- No row is handled twice ----------

  /** All handled rows have smaller numbers. */
  ghost predicate Beyond(handled: seq<Row>, number: nat) {
    forall i :: 0 <= i < |handled| ==> handled[i].seqNo < number
  }

  /** Of these rows, those above the cursor are newer than everything handled. */
  ghost predicate NewAbove(rows: seq<Row>, cursor: nat, handled: seq<Row>) {
    forall i :: 0 <= i < |rows| && rows[i].seqNo > cursor ==> Beyond(handled, rows[i].seqNo)
  }

  ghost predicate FetchNew(p: Phone, live: seq<Row>, last: nat) {
    match p.fetch
    case NoFetch => true
    case Asked(after, resumed) => AfterOk(p, after, resumed)
    case FloorRead(after, resumed, _, _) => AfterOk(p, after, resumed)
    case PageRead(after, resumed, page, _) =>
      && AfterOk(p, after, resumed)
      && NewAbove(page.events, p.mark, p.handled) && Beyond(page.events, last + 1)
      && NewAbove(live, page.latestSeq, p.handled)
  }

  ghost predicate RowsOnce(p: Phone, live: seq<Row>, last: nat) {
    && Ascending(p.handled) && Beyond(p.handled, last + 1)
    && (p.cursor.Some? ==> p.cursor.value == p.mark)
    && NewAbove(live, p.mark, p.handled) && FetchNew(p, live, last)
  }

  lemma NewRowsAbove(live: seq<Row>, more: seq<Row>, cursor: nat, handled: seq<Row>, last: nat)
    requires NewAbove(live, cursor, handled) && Beyond(handled, last + 1)
    requires forall i :: 0 <= i < |more| ==> more[i].seqNo > last
    ensures NewAbove(live + more, cursor, handled)
  {
  }

  lemma InsertKeeps(p: Phone, live: seq<Row>, more: seq<Row>, last: nat, last': nat)
    requires RowsOnce(p, live, last) && last <= last'
    requires forall i :: 0 <= i < |more| ==> more[i].seqNo > last
    ensures RowsOnce(p, live + more, last')
  {
    NewRowsAbove(live, more, p.mark, p.handled, last);
    if p.fetch.PageRead? {
      NewRowsAbove(live, more, p.fetch.page.latestSeq, p.handled, last);
    }
  }

  lemma FewerAbove(live: seq<Row>, left: seq<Row>, cursor: nat, handled: seq<Row>)
    requires NewAbove(live, cursor, handled) && forall i :: 0 <= i < |left| ==> left[i] in live
    ensures NewAbove(left, cursor, handled)
  {
  }

  lemma PruneKeeps(p: Phone, live: seq<Row>, left: seq<Row>, last: nat)
    requires RowsOnce(p, live, last) && forall i :: 0 <= i < |left| ==> left[i] in live
    ensures RowsOnce(p.(fetch := Torn(p.fetch)), left, last)
  {
    FewerAbove(live, left, p.mark, p.handled);
    if p.fetch.PageRead? {
      FewerAbove(live, left, p.fetch.page.latestSeq, p.handled);
    }
  }

  lemma PageKeeps(p: Phone, live: seq<Row>, last: nat, limit: nat)
    requires RowsOnce(p, live, last) && p.fetch.FloorRead? && Ascending(live) && Beyond(live, last + 1)
    ensures var f := p.fetch;
      RowsOnce(p.(fetch := PageRead(f.after, f.resumed, Respond(f.oldest, live, f.after, limit), f.torn)), live, last)
  {
    var f := p.fetch;
    var page := Respond(f.oldest, live, f.after, limit);
    SinceFacts(live, f.after);
    forall i | 0 <= i < |page.events| ensures page.events[i] in live {
      assert page.events[i] in Since(live, f.after);
    }
    FewerAbove(live, page.events, p.mark, p.handled);
  }

  /** A page that is taken goes on above everything handled; a rebase leaves nothing old above the cursor. */
  lemma AdoptKeeps(p: Phone, live: seq<Row>, last: nat, delivered: bool)
    requires RowsOnce(p, live, last) && p.fetch.PageRead? && FitsRequest(p.fetch.page, p.fetch.after)
    ensures RowsOnce(Adopt(p, delivered), live, last)
  {
    var f := p.fetch;
    if f.resumed && !RequiresRebase(f.page, f.after) {
      var events := f.page.events;
      forall i | 0 <= i < |events|
        ensures p.mark < events[i].seqNo <= f.page.nextAfter && Beyond(p.handled, events[i].seqNo)
      {
        assert events[i] in events;
      }
      TakenKeeps(p.handled, events, live, p.mark, f.page.nextAfter, last);
    }
  }

  lemma TakenKeeps(handled: seq<Row>, events: seq<Row>, live: seq<Row>, mark: nat, next: nat, last: nat)
    requires Ascending(handled) && Ascending(events) && Beyond(handled, last + 1) && Beyond(events, last + 1)
    requires forall i :: 0 <= i < |events| ==> events[i].seqNo <= next && Beyond(handled, events[i].seqNo)
    requires NewAbove(live, mark, handled) && mark <= next
    ensures Ascending(handled + events) && Beyond(handled + events, last + 1)
    ensures NewAbove(live, next, handled) && NewAbove(live, next, handled + events)
  {
  }

  ghost predicate RowsOnceIn(c: Config, s: Sys) {
    RowsOnce(s.phone, Live(c, s), s.hub.lastSeq)
  }

  lemma StoredKeepsRows(
      c: Config, s: Sys, agent: string, batch: seq<Event>, sentAt: Instant, receivedAt: Instant, gaps: seq<nat>)
    requires LogOk(c, s) && RowsOnceIn(c, s) && |gaps| == |batch| && Fits(s.hub, gaps)
    ensures RowsOnceIn(c, Stored(s, agent, batch, sentAt, receivedAt, gaps))
  {
    var u := Stored(s, agent, batch, sentAt, receivedAt, gaps);
    StoredKeepsLog(c, s, agent, batch, sentAt, receivedAt, gaps);
    StoredShape(s, agent, batch, sentAt, receivedAt, gaps);
    InsertKeeps(s.phone, Live(c, s), Gained(c, s, u, agent), s.hub.lastSeq, u.hub.lastSeq);
  }

  lemma PhoneStepKeepsRows(c: Config, s: Sys, step: Step)
    requires LogOk(c, s) && AcceptOk(c, s) && RowsOnceIn(c, s) && Enabled(c, s, step)
    requires step.Poll? || step.ReadFloor? || step.ReadPage? || step.Lose? || step.Sync? || step.Forget?
    ensures RowsOnceIn(c, Next(c, s, step))
  {
    LiveFacts(c, s);
    match step
    case ReadPage => PageKeeps(s.phone, Live(c, s), s.hub.lastSeq, if s.phone.fetch.resumed then BATCH else 1);
    case Sync(takesEffect, delivered) =>
      if takesEffect {
        AdoptKeeps(s.phone, Live(c, s), s.hub.lastSeq, delivered);
      }
    case _ =>
  }

  lemma StepKeepsRows(c: Config, s: Sys, step: Step)
    requires LogOk(c, s) && AcceptOk(c, s) && RowsOnceIn(c, s) && Enabled(c, s, step)
    ensures RowsOnceIn(c, Next(c, s, step))
  {
    match step
    case HubStores(sentAt, receivedAt, gaps) =>
      StoredKeepsRows(c, s, c.agentId, s.upload.batch, sentAt, receivedAt, gaps);
    case OtherUpload(agent, batch, sentAt, receivedAt, gaps) =>
      StoredKeepsRows(c, s, agent, batch, sentAt, receivedAt, gaps);
    case Prune(agent, cutoff) =>
      PruneOnlyRemoves(c, s, agent, cutoff);
      PruneKeeps(s.phone, Live(c, s), Live(c, Next(c, s, step)), s.hub.lastSeq);
    case Poll => PhoneStepKeepsRows(c, s, step);
    case ReadFloor => PhoneStepKeepsRows(c, s, step);
    case ReadPage => PhoneStepKeepsRows(c, s, step);
    case Lose => PhoneStepKeepsRows(c, s, step);
    case Sync(_, _) => PhoneStepKeepsRows(c, s, step);
    case Forget => PhoneStepKeepsRows(c, s, step);
    case _ =>
  }

  lemma {:induction false} RowsOnceInvariant(c: Config, steps: seq<Step>)
    ensures RowsOnceIn(c, Run(c, steps))
  {
    if steps != [] {
      var s, step := Run(c, steps[..|steps| - 1]), steps[|steps| - 1];
      RowsOnceInvariant(c, steps[..|steps| - 1]);
      RetentionIsSafe(c, steps[..|steps| - 1]);
      EveryPageIsAccepted(c, steps[..|steps| - 1]);
      if Enabled(c, s, step) {
        StepKeepsRows(c, s, step);
      }
    }
  }

  /** In every run, whatever the policy and the clocks, rows are handled in ascending order: none is handled twice. */
  lemma EachRowHandledOnce(c: Config, steps: seq<Step>)
    ensures Ascending(Run(c, steps).phone.handled)
  {
    RowsOnceInvariant(c, steps);
  }

  // ---------- An up-to-date phone keeps its place ----------

  /** A floor above zero was read from a row. */
  ghost predicate FloorOfRow(p: Phone, all: seq<Row>) {
    match p.fetch
    case FloorRead(_, _, oldest, _) => oldest > 0 ==> all != []
    case PageRead(_, _, page, _) => page.oldestSeq > 0 ==> all != []
    case _ => true
  }

  lemma StepKeepsFloor(c: Config, s: Sys, step: Step)
    requires LogOk(c, s) && FloorOfRow(s.phone, All(c, s)) && Enabled(c, s, step)
    ensures FloorOfRow(Next(c, s, step).phone, All(c, Next(c, s, step)))
  {
    match step
    case HubStores(sentAt, receivedAt, gaps) =>
      StoredKeepsLog(c, s, c.agentId, s.upload.batch, sentAt, receivedAt, gaps);
    case OtherUpload(agent, batch, sentAt, receivedAt, gaps) =>
      StoredKeepsLog(c, s, agent, batch, sentAt, receivedAt, gaps);
    case ReadFloor => TableSubset(c, s);
    case _ =>
  }

  lemma {:induction false} FloorNeedsRow(c: Config, steps: seq<Step>)
    ensures FloorOfRow(Run(c, steps).phone, All(c, Run(c, steps)))
  {
    if steps != [] {
      var s, step := Run(c, steps[..|steps| - 1]), steps[|steps| - 1];
      FloorNeedsRow(c, steps[..|steps| - 1]);
      RetentionIsSafe(c, steps[..|steps| - 1]);
      if Enabled(c, s, step) {
        StepKeepsFloor(c, s, step);
      }
    }
  }

  lemma NothingAbove(p: Phone, all: seq<Row>, tight: bool)
    requires p.fetch.PageRead? && p.fetch.resumed && p.fetch.after == Latest(all) == p.mark && Ascending(all)
    requires PageOk(p.mark, all, p.fetch.after, p.fetch.page, p.fetch.torn, tight) && BoundsConsistent(p.fetch.page)
    requires FloorOfRow(p, all) && forall i :: 0 <= i < |all| ==> all[i].seqNo >= 1
    ensures p.fetch.page.events == [] && p.fetch.page.latestSeq == p.fetch.after == p.fetch.page.nextAfter
    ensures !(p.fetch.page.oldestSeq > 0 && p.fetch.after < p.fetch.page.oldestSeq - 1)
  {
    var events := p.fetch.page.events;
    if events != [] {
      assert events[0] in events;
      LatestIsMax(all, events[0]);
    }
  }

  /**
   With a minimum of at least one: a phone whose cursor is the newest number ever inserted gets an empty page, keeps
   its cursor and its baseline, and is told nothing, whatever was pruned meanwhile.
   */
  lemma UpToDatePhoneStays(c: Config, steps: seq<Step>, delivered: bool)
    requires c.policy.minEvents >= 1
    ensures var s := Run(c, steps);
      var p := s.phone;
      p.fetch.PageRead? && p.fetch.resumed && p.fetch.after == Latest(All(c, s)) ==>
        && p.fetch.page.events == []
        && Adopt(p, delivered).cursor == Some(p.fetch.after) && Adopt(p, delivered).start == p.start
        && Adopt(p, delivered).adopted == p.adopted && Adopt(p, delivered).handled == p.handled
  {
    var s := Run(c, steps);
    PhoneIsSafe(c, steps);
    EveryPageIsAccepted(c, steps);
    RetentionIsSafe(c, steps);
    FloorNeedsRow(c, steps);
    LiveFacts(c, s);
    if s.phone.fetch.PageRead? && s.phone.fetch.resumed && s.phone.fetch.after == Latest(All(c, s)) {
      NothingAbove(s.phone, All(c, s), Tight(c.policy));
      assert s.phone.handled + [] == s.phone.handled && s.phone.adopted + [] == s.phone.adopted;
    }
  }

  // ---------- Exactly when the cursor never goes back ----------

  ghost predicate CursorKept(early: Phone, late: Phone) {
    early.cursor.Some? && late.cursor.Some? ==> early.cursor.value <= late.cursor.value
  }

  /** Some run passes through `s` and ends in `u`. */
  ghost predicate Leads(c: Config, s: Sys, u: Sys) {
    exists steps, k: nat :: Passes(c, s, u, steps, k)
  }

  ghost predicate Passes(c: Config, s: Sys, u: Sys, steps: seq<Step>, k: nat) {
    k <= |steps| && Run(c, steps[..k]) == s && Run(c, steps) == u
  }

  lemma LeadsNext(c: Config, s: Sys, u: Sys, step: Step)
    requires Leads(c, s, u) && Enabled(c, u, step)
    ensures Leads(c, s, Next(c, u, step))
  {
    var steps, k: nat :| Passes(c, s, u, steps, k);
    RunSnoc(c, steps, step);
    assert (steps + [step])[..k] == steps[..k];
    assert Passes(c, s, Next(c, u, step), steps + [step], k);
  }

  lemma LeadsSelf(c: Config, s: Sys)
    requires Reachable(c, s)
    ensures Leads(c, s, s)
  {
    var steps :| Run(c, steps) == s;
    assert steps[..|steps|] == steps;
    assert Passes(c, s, s, steps, |steps|);
  }

  /** The phone has taken the only row. */
  lemma OneRowTaken(c: Config) returns (s: Sys)
    ensures Reachable(c, s) && WellFormed(s.hub) && Numbered(c, s.hub.events, 1) && s.hub.events[0].receivedAt == NOON
    ensures s.phone.cursor == Some(1) && s.phone.fetch == NoFetch
  {
    s := Filled(c, 1, NOON);
    NumberedAscends(c, s.hub.events, 1);
    s := PollReadsFloor(c, s);
    s := PageTaken(c, s, false);
  }

  lemma EmptyFloorRead(c: Config, start: Sys, s: Sys) returns (u: Sys)
    requires Leads(c, start, s) && s.hub.events == [] && s.phone.cursor == Some(1) && s.phone.fetch == NoFetch
    ensures Leads(c, start, u) && u.hub == s.hub && u.phone.fetch == FloorRead(1, true, 0, false)
  {
    LeadsNext(c, start, s, Poll);
    u := Next(c, s, Poll);
    LeadsNext(c, start, u, ReadFloor);
    u := Next(c, u, ReadFloor);
  }

  /** A poll of the empty table rebases the phone to zero. */
  lemma EmptyPageRebases(c: Config, start: Sys, s: Sys) returns (u: Sys)
    requires Leads(c, start, s) && s.hub.events == [] && s.phone.fetch == FloorRead(1, true, 0, false)
    ensures Leads(c, start, u) && u.phone.cursor == Some(0)
  {
    LeadsNext(c, start, s, ReadPage);
    u := Next(c, s, ReadPage);
    assert u.phone.fetch == PageRead(1, true, EventPage([], 1, 0, 0), false);
    LeadsNext(c, start, u, Sync(true, true));
    u := Next(c, u, Sync(true, true));
  }

  lemma ZeroMinimumGoesBack(c: Config) returns (s: Sys, u: Sys)
    requires c.policy.minEvents == 0
    ensures Leads(c, s, u) && !CursorKept(s.phone, u.phone)
  {
    s := OneRowTaken(c);
    NoonBeforeLater();
    OnlyRowGoes(s.hub, c.agentId, LATER, c.policy);
    LeadsSelf(c, s);
    LeadsNext(c, s, s, Prune(c.agentId, LATER));
    u := Next(c, s, Prune(c.agentId, LATER));
    u := EmptyFloorRead(c, s, u);
    u := EmptyPageRebases(c, s, u);
  }

  /** Over all runs the persisted cursor never goes back if and only if the retention minimum is at least one. */
  lemma CursorKeptExactly(c: Config)
    ensures (forall steps, k :: 0 <= k <= |steps| ==> CursorKept(Run(c, steps[..k]).phone, Run(c, steps).phone))
       <==> c.policy.minEvents >= 1
  {
    if c.policy.minEvents >= 1 {
      forall steps, k | 0 <= k <= |steps| ensures CursorKept(Run(c, steps[..k]).phone, Run(c, steps).phone) {
        CursorNeverGoesBack(c, steps, k);
      }
    } else {
      var s, u := ZeroMinimumGoesBack(c);
      var steps, k: nat :| Passes(c, s, u, steps, k);
      assert !CursorKept(Run(c, steps[..k]).phone, Run(c, steps).phone);
    }
  }
}
