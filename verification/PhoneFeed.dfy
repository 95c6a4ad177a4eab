/**
 The phone against the hub: every page is accepted, the cursor never goes back, no event is handled twice,
 and between two baselines the pages taken are one contiguous piece of everything inserted.
 */
module PhoneFeed {
  import opened Domain
  import opened TimeOrder
  import opened HubStore
  import opened Retention
  import opened Hub
  import opened Feed
  import opened Pipeline
  import opened Delivery

  // ---------- Acceptance, under any policy ----------

  ghost predicate AcceptOk(c: Config, s: Sys) {
    match s.phone.fetch
    case FloorRead(_, _, oldest, _) =>
      oldest <= s.hub.lastSeq && forall i :: 0 <= i < |Live(c, s)| ==> Live(c, s)[i].seqNo >= oldest
    case PageRead(after, _, page, _) => BoundsConsistent(page) && FitsRequest(page, after)
    case _ => true
  }

  lemma LiveFacts(c: Config, s: Sys)
    requires LogOk(c, s)
    ensures Ascending(Live(c, s)) && Ascending(All(c, s))
    ensures forall i :: 0 <= i < |Live(c, s)| ==>
        1 <= Live(c, s)[i].seqNo <= s.hub.lastSeq && Live(c, s)[i] in All(c, s)
    ensures forall i :: 0 <= i < |All(c, s)| ==> 1 <= All(c, s)[i].seqNo <= s.hub.lastSeq
  {
    var live, all := Live(c, s), All(c, s);
    OfAscending(s.hub.events, c.agentId);
    OfAscending(s.log, c.agentId);
    forall i | 0 <= i < |live| ensures 1 <= live[i].seqNo <= s.hub.lastSeq && live[i] in all {
      OfMembers(s.hub.events, c.agentId, live[i]);
      OfMembers(s.log, c.agentId, live[i]);
    }
    forall i | 0 <= i < |all| ensures 1 <= all[i].seqNo <= s.hub.lastSeq {
      OfMembers(s.log, c.agentId, all[i]);
    }
  }

  lemma PruneOnlyRemoves(c: Config, s: Sys, agent: string, cutoff: Instant)
    requires LogOk(c, s)
    ensures var u := Next(c, s, Prune(agent, cutoff));
      forall i :: 0 <= i < |Live(c, u)| ==> Live(c, u)[i] in Live(c, s)
  {
    var u := Next(c, s, Prune(agent, cutoff));
    DeleteFirstSubset(s.hub.events, agent, FloorsOf(Of(s.hub.events, agent), c.policy), cutoff, c.policy.batchSize);
    forall i | 0 <= i < |Live(c, u)| ensures Live(c, u)[i] in Live(c, s) {
      OfMembers(u.hub.events, c.agentId, Live(c, u)[i]);
      OfMembers(s.hub.events, c.agentId, Live(c, u)[i]);
    }
  }

  lemma ReadPageAccepted(c: Config, s: Sys)
    requires LogOk(c, s) && AcceptOk(c, s) && s.phone.fetch.FloorRead?
    ensures AcceptOk(c, Next(c, s, ReadPage))
  {
    var f := s.phone.fetch;
    var limit := if f.resumed then BATCH else 1;
    OfAscending(s.hub.events, c.agentId);
    PagesAreAccepted(f.oldest, Live(c, s), f.after, limit);
    assert Next(c, s, ReadPage).phone.fetch
        == PageRead(f.after, f.resumed, Respond(f.oldest, Live(c, s), f.after, limit), f.torn);
  }

  lemma FloorBounds(c: Config, s: Sys)
    requires LogOk(c, s) && s.phone.fetch.Asked?
    ensures AcceptOk(c, Next(c, s, ReadFloor))
  {
    LiveFacts(c, s);
  }

  lemma StepKeepsAccept(c: Config, s: Sys, step: Step)
    requires LogOk(c, s) && AcceptOk(c, s) && Enabled(c, s, step)
    ensures AcceptOk(c, Next(c, s, step))
  {
    match step
    case HubStores(sentAt, receivedAt, gaps) =>
      StoredKeepsLog(c, s, c.agentId, s.upload.batch, sentAt, receivedAt, gaps);
      StoredShape(s, c.agentId, s.upload.batch, sentAt, receivedAt, gaps);
    case OtherUpload(agent, batch, sentAt, receivedAt, gaps) =>
      StoredKeepsLog(c, s, agent, batch, sentAt, receivedAt, gaps);
      StoredShape(s, agent, batch, sentAt, receivedAt, gaps);
    case Prune(agent, cutoff) => PruneOnlyRemoves(c, s, agent, cutoff);
    case ReadFloor => FloorBounds(c, s);
    case ReadPage => ReadPageAccepted(c, s);
    case _ =>
  }

  /** Whatever falls between the two reads, the page that arrives passes every check of the phone. */
  lemma {:induction false} EveryPageIsAccepted(c: Config, steps: seq<Step>)
    ensures AcceptOk(c, Run(c, steps))
    ensures var f := Run(c, steps).phone.fetch;
      f.PageRead? ==> BoundsConsistent(f.page) && FitsRequest(f.page, f.after)
  {
    if steps != [] {
      var s, step := Run(c, steps[..|steps| - 1]), steps[|steps| - 1];
      EveryPageIsAccepted(c, steps[..|steps| - 1]);
      RetentionIsSafe(c, steps[..|steps| - 1]);
      if Enabled(c, s, step) {
        StepKeepsAccept(c, s, step);
      }
    }
  }

  // ---------- Cursor and segments, with a retention minimum of at least one ----------

  ghost predicate CursorOk(p: Phone, all: seq<Row>) {
    && (p.cursor.Some? ==> p.cursor.value == p.mark)
    && p.start <= p.mark <= Latest(all)
  }

  ghost predicate HandledOk(p: Phone, all: seq<Row>) {
    && Ascending(p.handled)
    && (forall i :: 0 <= i < |p.handled| ==> p.handled[i].seqNo <= p.mark && p.handled[i] in all)
  }

  ghost predicate AdoptedOk(p: Phone, all: seq<Row>, tight: bool) {
    p.whole && Steady(all, tight) ==> p.adopted == Segment(all, p.start, p.mark)
  }

  /** A request goes out from the last persisted cursor, or from nowhere. */
  ghost predicate AfterOk(p: Phone, after: nat, resumed: bool) {
    after == if resumed then p.mark else 0
  }

  ghost predicate PageOk(mark: nat, all: seq<Row>, after: nat, page: EventPage, torn: bool, tight: bool) {
    && FitsRequest(page, after)
    && mark <= page.latestSeq <= Latest(all)
    && page.nextAfter <= Latest(all)
    && (forall i :: 0 <= i < |page.events| ==> page.events[i] in all)
    && PageWhole(all, after, page, torn, tight)
  }

  ghost predicate PageWhole(all: seq<Row>, after: nat, page: EventPage, torn: bool, tight: bool) {
    !torn && Steady(all, tight) && !CursorPredatesRetention(page, after)
    ==> page.events == Segment(all, after, page.nextAfter)
  }

  ghost predicate FetchOk(p: Phone, live: seq<Row>, all: seq<Row>, tight: bool) {
    match p.fetch
    case NoFetch => true
    case Asked(after, resumed) => AfterOk(p, after, resumed)
    case FloorRead(after, resumed, oldest, torn) =>
      AfterOk(p, after, resumed) && (!torn ==> FloorHolds(oldest, live, all))
    case PageRead(after, resumed, page, torn) =>
      AfterOk(p, after, resumed) && PageOk(p.mark, all, after, page, torn, tight)
  }

  ghost predicate PhoneOk(p: Phone, live: seq<Row>, all: seq<Row>, tight: bool) {
    CursorOk(p, all) && HandledOk(p, all) && AdoptedOk(p, all, tight) && FetchOk(p, live, all, tight)
  }

  /** With a minimum of one, the newest row is never pruned, so the table's newest is the log's newest. */
  lemma NewestIsLive(live: seq<Row>, all: seq<Row>, m: nat)
    requires KeepsNewest(live, all, m) && m >= 1 && (all == [] ==> live == [])
    ensures Latest(live) == Latest(all) && (live == [] <==> all == [])
  {
    if all != [] {
      var k := Min(m, |all|);
      assert live[|live| - k..][k - 1] == all[|all| - k..][k - 1];
    }
  }

  lemma LatestIsMax(all: seq<Row>, r: Row)
    requires Ascending(all) && r in all
    ensures r.seqNo <= Latest(all)
  {
  }

  // -- new rows --

  lemma PageStable(
      mark: nat, all: seq<Row>, more: seq<Row>, after: nat, page: EventPage, torn: bool, last: nat, tight: bool)
    requires PageOk(mark, all, after, page, torn, tight)
    requires Latest(all) <= last && Latest(all + more) >= Latest(all)
    requires forall i :: 0 <= i < |more| ==> more[i].seqNo > last
    ensures PageOk(mark, all + more, after, page, torn, tight)
  {
    if Steady(all + more, tight) {
      SteadyBefore(all, more, tight);
      SegmentStable(all, more, after, page.nextAfter);
    }
  }

  lemma RowsAdded(p: Phone, live: seq<Row>, all: seq<Row>, more: seq<Row>, last: nat, tight: bool)
    requires PhoneOk(p, live, all, tight) && Latest(all) <= last
    requires forall i :: 0 <= i < |more| ==> more[i].seqNo > last
    ensures PhoneOk(p, live + more, all + more, tight)
  {
    assert more == [] ==> all + more == all;
    if more != [] {
      assert (all + more)[|all + more| - 1] == more[|more| - 1];
    }
    assert Latest(all + more) >= Latest(all);
    if Steady(all + more, tight) {
      SteadyBefore(all, more, tight);
      SegmentStable(all, more, p.start, p.mark);
    }
    match p.fetch {
      case PageRead(after, _, page, torn) => PageStable(p.mark, all, more, after, page, torn, last, tight);
      case FloorRead(_, _, oldest, torn) =>
        if !torn && oldest > 0 {
          assert (live + more)[0] == live[0];
        }
      case _ =>
    }
  }

  // -- reads --

  lemma FloorReadOk(live: seq<Row>, all: seq<Row>, m: nat)
    requires KeepsNewest(live, all, m) && m >= 1 && (all == [] ==> live == [])
    requires forall i :: 0 <= i < |live| ==> live[i].seqNo >= 1
    ensures FloorHolds(Oldest(live), live, all)
  {
    NewestIsLive(live, all, m);
  }

  lemma PageMembers(oldest: nat, live: seq<Row>, all: seq<Row>, after: nat, limit: nat)
    requires Ascending(live) && Ascending(all) && after <= Latest(all)
    requires forall i :: 0 <= i < |live| ==> live[i] in all
    ensures var page := Respond(oldest, live, after, limit);
      (forall i :: 0 <= i < |page.events| ==> page.events[i] in all) && page.nextAfter <= Latest(all)
  {
    var page := Respond(oldest, live, after, limit);
    SinceFacts(live, after);
    forall i | 0 <= i < |page.events| ensures page.events[i] in all && page.events[i].seqNo <= Latest(all) {
      LatestIsMax(all, page.events[i]);
    }
  }

  lemma PageReadOk(
      mark: nat, oldest: nat, live: seq<Row>, all: seq<Row>, after: nat, torn: bool, m: nat, limit: nat, tight: bool)
    requires KeepsNewest(live, all, m) && CutsPrefix(live, all, tight) && m >= 1
    requires after <= Latest(all) && mark <= Latest(all) && (!torn ==> FloorHolds(oldest, live, all))
    requires Ascending(live) && Ascending(all) && limit >= 1 && (all == [] ==> live == [])
    requires forall i :: 0 <= i < |live| ==> live[i].seqNo >= oldest && live[i] in all
    ensures PageOk(mark, all, after, Respond(oldest, live, after, limit), torn, tight)
  {
    PagesAreAccepted(oldest, live, after, limit);
    NewestIsLive(live, all, m);
    PageMembers(oldest, live, all, after, limit);
    PageWholeOk(oldest, live, all, after, torn, limit, tight);
  }

  lemma PageWholeOk(oldest: nat, live: seq<Row>, all: seq<Row>, after: nat, torn: bool, limit: nat, tight: bool)
    requires CutsPrefix(live, all, tight) && (!torn ==> FloorHolds(oldest, live, all)) && Ascending(all) && limit >= 1
    ensures PageWhole(all, after, Respond(oldest, live, after, limit), torn, tight)
  {
    if !torn && Steady(all, tight) && !CursorPredatesRetention(Respond(oldest, live, after, limit), after) {
      NoSilentGap(oldest, live, all, after, limit);
    }
  }

  // -- taking a page --

  lemma HandledExtends(p: Phone, all: seq<Row>, tight: bool)
    requires HandledOk(p, all) && p.fetch.PageRead? && p.fetch.after == p.mark
    requires PageOk(p.mark, all, p.fetch.after, p.fetch.page, p.fetch.torn, tight)
    ensures var more := p.handled + p.fetch.page.events;
      Ascending(more) && forall i :: 0 <= i < |more| ==> more[i].seqNo <= p.fetch.page.nextAfter && more[i] in all
  {
    var events := p.fetch.page.events;
    forall i | 0 <= i < |events| ensures events[i].seqNo <= p.fetch.page.nextAfter {
      LatestIsMax(events, events[i]);
    }
    forall i | 0 <= i < |events| ensures events[i].seqNo > p.mark {
      assert events[i] in events;
    }
    assert p.mark <= p.fetch.page.nextAfter;
  }

  lemma AdoptOk(p: Phone, live: seq<Row>, all: seq<Row>, delivered: bool, tight: bool)
    requires PhoneOk(p, live, all, tight) && Ascending(all) && p.fetch.PageRead?
    ensures PhoneOk(Adopt(p, delivered), live, all, tight)
    ensures Adopt(p, delivered).mark >= p.mark
  {
    var f := p.fetch;
    if !f.resumed || RequiresRebase(f.page, f.after) {
      EmptyAtCursor(all, f.page.latestSeq);
    } else {
      HandledExtends(p, all, tight);
      SegmentsJoin(all, p.start, p.mark, f.page.nextAfter);
    }
  }

  // -- the system --

  ghost predicate PhoneInv(c: Config, s: Sys) {
    PhoneOk(s.phone, Live(c, s), All(c, s), Tight(c.policy))
  }

  lemma TableSubset(c: Config, s: Sys)
    requires LogOk(c, s)
    ensures All(c, s) == [] ==> Live(c, s) == []
    ensures Latest(All(c, s)) <= s.hub.lastSeq
  {
    LiveFacts(c, s);
    if Live(c, s) != [] {
      assert Live(c, s)[0] in All(c, s);
    }
  }

  lemma StoredKeepsPhone(
      c: Config, s: Sys, agent: string, batch: seq<Event>, sentAt: Instant, receivedAt: Instant, gaps: seq<nat>)
    requires LogOk(c, s) && PhoneInv(c, s) && |gaps| == |batch| && Fits(s.hub, gaps)
    ensures PhoneInv(c, Stored(s, agent, batch, sentAt, receivedAt, gaps))
  {
    var u := Stored(s, agent, batch, sentAt, receivedAt, gaps);
    StoredKeepsLog(c, s, agent, batch, sentAt, receivedAt, gaps);
    TableSubset(c, s);
    RowsAdded(s.phone, Live(c, s), All(c, s), Gained(c, s, u, agent), s.hub.lastSeq, Tight(c.policy));
  }

  lemma FloorFacts(c: Config, s: Sys)
    requires LogOk(c, s) && c.policy.minEvents >= 1
    ensures FloorHolds(Oldest(Live(c, s)), Live(c, s), All(c, s))
  {
    LiveFacts(c, s);
    TableSubset(c, s);
    FloorReadOk(Live(c, s), All(c, s), c.policy.minEvents);
  }

  lemma FloorArrives(p: Phone, live: seq<Row>, all: seq<Row>, tight: bool)
    requires PhoneOk(p, live, all, tight) && p.fetch.Asked? && FloorHolds(Oldest(live), live, all)
    ensures PhoneOk(p.(fetch := FloorRead(p.fetch.after, p.fetch.resumed, Oldest(live), false)), live, all, tight)
  {
    FetchArrives(p, FloorRead(p.fetch.after, p.fetch.resumed, Oldest(live), false), live, all, tight);
  }

  lemma ReadFloorKeepsPhone(c: Config, s: Sys)
    requires LogOk(c, s) && PhoneInv(c, s) && c.policy.minEvents >= 1 && s.phone.fetch.Asked?
    ensures PhoneInv(c, Next(c, s, ReadFloor))
  {
    FloorFacts(c, s);
    FloorArrives(s.phone, Live(c, s), All(c, s), Tight(c.policy));
  }

  /** A new stage of the poll changes nothing else. */
  lemma FetchArrives(p: Phone, fetch: Fetch, live: seq<Row>, all: seq<Row>, tight: bool)
    requires PhoneOk(p, live, all, tight) && FetchOk(p.(fetch := fetch), live, all, tight)
    ensures PhoneOk(p.(fetch := fetch), live, all, tight)
  {
  }

  lemma ReadPageKeepsPhone(c: Config, s: Sys)
    requires LogOk(c, s) && AcceptOk(c, s) && PhoneInv(c, s) && c.policy.minEvents >= 1 && s.phone.fetch.FloorRead?
    ensures PhoneInv(c, Next(c, s, ReadPage))
  {
    LiveFacts(c, s);
    TableSubset(c, s);
    var f, live, all := s.phone.fetch, Live(c, s), All(c, s);
    var limit := if f.resumed then BATCH else 1;
    PageReadOk(s.phone.mark, f.oldest, live, all, f.after, f.torn, c.policy.minEvents, limit, Tight(c.policy));
    FetchArrives(s.phone, PageRead(f.after, f.resumed, Respond(f.oldest, live, f.after, limit), f.torn), live, all,
        Tight(c.policy));
    assert Next(c, s, ReadPage).phone
        == s.phone.(fetch := PageRead(f.after, f.resumed, Respond(f.oldest, live, f.after, limit), f.torn));
  }

  lemma PhoneStepsKeep(c: Config, s: Sys, step: Step)
    requires LogOk(c, s) && PhoneInv(c, s) && (step.Poll? || step.Lose? || step.Sync? || step.Forget? || step.Prune?)
    requires Enabled(c, s, step)
    ensures PhoneInv(c, Next(c, s, step))
    ensures Next(c, s, step).phone.mark >= s.phone.mark
  {
    LiveFacts(c, s);
    if step.Sync? && step.takesEffect {
      AdoptOk(s.phone, Live(c, s), All(c, s), step.delivered, Tight(c.policy));
    }
  }

  lemma StepKeepsPhone(c: Config, s: Sys, step: Step)
    requires LogOk(c, s) && AcceptOk(c, s) && PhoneInv(c, s) && c.policy.minEvents >= 1 && Enabled(c, s, step)
    ensures PhoneInv(c, Next(c, s, step))
    ensures Next(c, s, step).phone.mark >= s.phone.mark
  {
    match step
    case HubStores(sentAt, receivedAt, gaps) =>
      StoredKeepsPhone(c, s, c.agentId, s.upload.batch, sentAt, receivedAt, gaps);
    case OtherUpload(agent, batch, sentAt, receivedAt, gaps) =>
      StoredKeepsPhone(c, s, agent, batch, sentAt, receivedAt, gaps);
    case ReadFloor => ReadFloorKeepsPhone(c, s);
    case ReadPage => ReadPageKeepsPhone(c, s);
    case Prune(_, _) => PhoneStepsKeep(c, s, step);
    case Poll => PhoneStepsKeep(c, s, step);
    case Lose => PhoneStepsKeep(c, s, step);
    case Sync(_, _) => PhoneStepsKeep(c, s, step);
    case Forget => PhoneStepsKeep(c, s, step);
    case _ =>
  }

  lemma {:induction false} PhoneIsSafe(c: Config, steps: seq<Step>)
    requires c.policy.minEvents >= 1
    ensures PhoneInv(c, Run(c, steps))
  {
    if steps != [] {
      var s, step := Run(c, steps[..|steps| - 1]), steps[|steps| - 1];
      PhoneIsSafe(c, steps[..|steps| - 1]);
      RetentionIsSafe(c, steps[..|steps| - 1]);
      EveryPageIsAccepted(c, steps[..|steps| - 1]);
      if Enabled(c, s, step) {
        StepKeepsPhone(c, s, step);
      }
    }
  }

  lemma LastStepKeepsMark(c: Config, steps: seq<Step>)
    requires c.policy.minEvents >= 1 && steps != []
    ensures Run(c, steps[..|steps| - 1]).phone.mark <= Run(c, steps).phone.mark
  {
    var s, step := Run(c, steps[..|steps| - 1]), steps[|steps| - 1];
    PhoneIsSafe(c, steps[..|steps| - 1]);
    RetentionIsSafe(c, steps[..|steps| - 1]);
    EveryPageIsAccepted(c, steps[..|steps| - 1]);
    if Enabled(c, s, step) {
      StepKeepsPhone(c, s, step);
    }
  }

  lemma {:induction false} MarkNeverGoesBack(c: Config, steps: seq<Step>, k: nat)
    requires c.policy.minEvents >= 1 && k <= |steps|
    ensures Run(c, steps[..k]).phone.mark <= Run(c, steps).phone.mark
    decreases |steps|
  {
    if k == |steps| {
      assert steps[..k] == steps;
    } else {
      MarkNeverGoesBack(c, steps[..|steps| - 1], k);
      assert steps[..|steps| - 1][..k] == steps[..k];
      LastStepKeepsMark(c, steps);
    }
  }

  lemma CursorIsMark(c: Config, steps: seq<Step>)
    requires c.policy.minEvents >= 1
    ensures CursorOk(Run(c, steps).phone, All(c, Run(c, steps)))
  {
    PhoneIsSafe(c, steps);
  }

  /** Over a whole run the persisted cursor never decreases and never passes the newest inserted event. */
  lemma CursorNeverGoesBack(c: Config, steps: seq<Step>, k: nat)
    requires c.policy.minEvents >= 1 && k <= |steps|
    ensures var early, late := Run(c, steps[..k]).phone, Run(c, steps).phone;
      && (early.cursor.Some? && late.cursor.Some? ==> early.cursor.value <= late.cursor.value)
      && early.mark <= late.mark <= Latest(All(c, Run(c, steps)))
  {
    CursorIsMark(c, steps[..k]);
    CursorIsMark(c, steps);
    MarkNeverGoesBack(c, steps, k);
  }
}
