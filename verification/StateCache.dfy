/**
 The hub's one-entry cache of the primary agent's state. With each handler as one step it agrees with the
 database, except that event batches advance only the stored contact time.
 */
module StateCache {
  import opened Domain
  import opened TimeOrder
  import opened HubStore
  import Hub

  type Snapshot = (HudState, Instant)

  // ---------- The program ----------

  class Server {
    const store: Hub.Store
    const primary: string
    var cached: Option<Snapshot>

    /** A restarted server keeps the database and starts with an empty cache. */
    constructor (store: Hub.Store, primary: string)
      ensures this.store == store && this.primary == primary && cached == None
    {
      this.store, this.primary, cached := store, primary, None;
    }

    ghost function Now(): Cached
      reads this, store
    {
      Cached(store.Contents(), cached)
    }

    method HandleAgentState(agentId: string, sentAt: Instant, state: HudState, receivedAt: Instant, commits: bool)
      requires store.Valid()
      modifies this`cached, store`agents, store`snapshots
      ensures store.Valid()
      ensures Now() == Next(primary, old(Now()), UploadState(agentId, sentAt, state, receivedAt, commits))
    {
      var ok := store.RecordState(agentId, sentAt, state, receivedAt, commits);
      if ok && agentId == primary {
        cached := Some((state, receivedAt));
      }
    }

    method HandleAgentHeartbeat(
        agentId: string, sentAt: Instant, version: Option<string>, receivedAt: Instant, commits: bool)
      requires store.Valid()
      modifies this`cached, store`agents
      ensures store.Valid()
      ensures Now() == Next(primary, old(Now()), Beat(agentId, sentAt, version, receivedAt, commits))
    {
      var ok := store.RecordHeartbeat(agentId, sentAt, receivedAt, version, commits);
      if ok && agentId == primary && cached.Some? {
        cached := Some((cached.value.0, receivedAt));
      }
    }

    method HandleAgentEvents(
        agentId: string, sentAt: Instant, batch: seq<Event>, receivedAt: Instant, gaps: seq<nat>, commits: bool)
      requires store.Valid() && |gaps| == |batch|
      modifies store
      ensures store.Valid()
      ensures Now() == Next(primary, old(Now()), UploadEvents(agentId, sentAt, batch, receivedAt, gaps, commits))
    {
      var _ := store.RecordEvents(agentId, sentAt, batch, receivedAt, gaps, commits);
    }

    method LoadPrimaryState() returns (r: Option<Snapshot>)
      modifies this`cached
      ensures Now() == Next(primary, old(Now()), Fill)
      ensures r == (if old(cached).Some? then old(cached) else StoredState(store.Contents(), primary))
    {
      if cached.Some? {
        return cached;
      }
      r := store.LoadState(primary);
      if r.Some? {
        cached := r;
      }
    }
  }

  // ---------- The handlers as steps ----------

  datatype Cached = Cached(tables: Tables, cache: Option<Snapshot>)

  datatype Step =
    | UploadState(agentId: string, sentAt: Instant, state: HudState, receivedAt: Instant, commits: bool)
    | Beat(agentId: string, sentAt: Instant, version: Option<string>, receivedAt: Instant, commits: bool)
    | UploadEvents(
        agentId: string, sentAt: Instant, batch: seq<Event>, receivedAt: Instant, gaps: seq<nat>, commits: bool)
    | Fill
    | Restart

  /** What the database answers for the primary agent. */
  function StoredState(t: Tables, primary: string): Option<Snapshot> {
    if primary in t.snapshots && primary in t.agents then Some((t.snapshots[primary], t.agents[primary].lastSeenAt))
    else None
  }

  function Next(primary: string, s: Cached, step: Step): Cached {
    var t := s.tables;
    match step
    case UploadState(agentId, sentAt, state, receivedAt, commits) =>
      if !commits then s
      else
        Cached(Upsert(t, agentId, sentAt, receivedAt, None).(snapshots := t.snapshots[agentId := state]),
               if agentId == primary then Some((state, receivedAt)) else s.cache)
    case Beat(agentId, sentAt, version, receivedAt, commits) =>
      if !commits then s
      else
        Cached(Upsert(t, agentId, sentAt, receivedAt, version),
               if agentId == primary && s.cache.Some? then Some((s.cache.value.0, receivedAt)) else s.cache)
    case UploadEvents(agentId, sentAt, batch, receivedAt, gaps, commits) =>
      if !commits || |gaps| != |batch| || !Fits(t, gaps) then s
      else s.(tables := RecordEventsTables(t, agentId, sentAt, batch, receivedAt, gaps))
    case Fill => s.(cache := if s.cache.Some? then s.cache else StoredState(t, primary))
    case Restart => s.(cache := None)
  }

  function Run(primary: string, steps: seq<Step>): Cached {
    if steps == [] then Cached(EMPTY_TABLES, None)
    else Next(primary, Run(primary, steps[..|steps| - 1]), steps[|steps| - 1])
  }

  predicate Contact(step: Step) {
    step.UploadState? || step.Beat? || step.UploadEvents?
  }

  predicate NotAfter(earlier: Step, later: Step) {
    Contact(earlier) && Contact(later) ==> !Before(later.receivedAt, earlier.receivedAt)
  }

  /** The hub's clock never goes back. */
  ghost predicate Monotone(steps: seq<Step>) {
    forall i, j :: 0 <= i < j < |steps| ==> NotAfter(steps[i], steps[j])
  }

  /** An event batch of the primary agent was stored since the cache was last written or filled. */
  function Behind(primary: string, steps: seq<Step>): bool {
    if steps == [] then false
    else
      var s, step := Run(primary, steps[..|steps| - 1]), steps[|steps| - 1];
      match step
      case UploadState(agentId, _, _, _, commits) =>
        if commits && agentId == primary then false else Behind(primary, steps[..|steps| - 1])
      case Beat(agentId, _, _, _, commits) =>
        if commits && agentId == primary then false else Behind(primary, steps[..|steps| - 1])
      case UploadEvents(agentId, _, batch, _, gaps, commits) =>
        (commits && agentId == primary && |gaps| == |batch| && Fits(s.tables, gaps))
            || Behind(primary, steps[..|steps| - 1])
      case Fill => if s.cache.None? then false else Behind(primary, steps[..|steps| - 1])
      case Restart => Behind(primary, steps[..|steps| - 1])
  }

  // ---------- Agreement ----------

  /** The cache holds the stored snapshot, with a contact time no later than the stored one. */
  predicate Agrees(primary: string, s: Cached, behind: bool) {
    s.cache.Some? ==>
      var stored := StoredState(s.tables, primary);
      && stored.Some?
      && s.cache.value.0 == stored.value.0
      && !Before(stored.value.1, s.cache.value.1)
      && (!behind ==> s.cache.value.1 == stored.value.1)
  }

  /** The stored contact time is not in the future of the clock. */
  predicate SeenBy(t: Tables, primary: string, clock: Instant) {
    primary in t.agents ==> !Before(clock, t.agents[primary].lastSeenAt)
  }

  lemma {:induction false} BatchLeavesAgents(
      t: Tables, agentId: string, batch: seq<Event>, receivedAt: Instant, gaps: seq<nat>)
    requires |gaps| == |batch|
    ensures InsertBatch(t, agentId, batch, receivedAt, gaps).agents == t.agents
    ensures InsertBatch(t, agentId, batch, receivedAt, gaps).snapshots == t.snapshots
  {
    if batch != [] {
      BatchLeavesAgents(t, agentId, batch[..|batch| - 1], receivedAt, gaps[..|batch| - 1]);
    }
  }

  lemma {:induction false} LastContactStored(primary: string, steps: seq<Step>, clock: Instant)
    requires forall step :: step in steps && Contact(step) ==> !Before(clock, step.receivedAt)
    ensures SeenBy(Run(primary, steps).tables, primary, clock)
  {
    if steps != [] {
      var step := steps[|steps| - 1];
      assert step in steps;
      LastContactStored(primary, steps[..|steps| - 1], clock);
      if step.UploadEvents? && |step.gaps| == |step.batch| {
        var t := Upsert(Run(primary, steps[..|steps| - 1]).tables, step.agentId, step.sentAt, step.receivedAt, None);
        BatchLeavesAgents(t, step.agentId, step.batch, step.receivedAt, step.gaps);
      }
    }
  }

  lemma StepAgrees(primary: string, steps: seq<Step>, s: Cached, step: Step, behind: bool)
    requires steps != [] && step == steps[|steps| - 1] && s == Run(primary, steps[..|steps| - 1])
    requires behind == Behind(primary, steps[..|steps| - 1])
    requires Agrees(primary, s, behind)
    requires Contact(step) ==> SeenBy(s.tables, primary, step.receivedAt)
    ensures Agrees(primary, Next(primary, s, step), Behind(primary, steps))
  {
    match step
    case UploadEvents(agentId, sentAt, batch, receivedAt, gaps, commits) =>
      if |gaps| == |batch| {
        BatchLeavesAgents(Upsert(s.tables, agentId, sentAt, receivedAt, None), agentId, batch, receivedAt, gaps);
      }
    case _ =>
  }

  /** A committed batch of events is a contact: the stored time is its receipt time, and the snapshot stays. */
  lemma EventBatchIsContact(
      primary: string, s: Cached, sentAt: Instant, batch: seq<Event>, receivedAt: Instant, gaps: seq<nat>)
    requires |gaps| == |batch| && Fits(s.tables, gaps)
    ensures var t, u := s.tables, Next(primary, s, UploadEvents(primary, sentAt, batch, receivedAt, gaps, true)).tables;
      && u.snapshots == t.snapshots && u.agents.Keys == t.agents.Keys + {primary}
      && u.agents[primary].lastSeenAt == receivedAt && u.agents[primary].lastSentAt == sentAt
      && (primary in t.snapshots ==> StoredState(u, primary) == Some((t.snapshots[primary], receivedAt)))
  {
    BatchLeavesAgents(Upsert(s.tables, primary, sentAt, receivedAt, None), primary, batch, receivedAt, gaps);
  }

  /**
   Over every run of whole handlers, failed transactions and restarts: what the server answers is the stored
   snapshot, with a contact time that is late only by event batches.
   */
  lemma {:induction false} CacheRefinesDatabase(primary: string, steps: seq<Step>)
    requires Monotone(steps)
    ensures Agrees(primary, Run(primary, steps), Behind(primary, steps))
  {
    if steps != [] {
      var n := |steps| - 1;
      CacheRefinesDatabase(primary, steps[..n]);
      if Contact(steps[n]) {
        forall step | step in steps[..n] && Contact(step) ensures !Before(steps[n].receivedAt, step.receivedAt) {
          var i :| 0 <= i < n && steps[i] == step;
          assert NotAfter(steps[i], steps[n]);
        }
        LastContactStored(primary, steps[..n], steps[n].receivedAt);
      }
      StepAgrees(primary, steps, Run(primary, steps[..n]), steps[n], Behind(primary, steps[..n]));
    }
  }

  // ---------- What the clients see ----------

  datatype Overall = Live | Degraded

  function Age(lastSeen: Instant, now: Instant): nat {
    if Nanos(now) < Nanos(lastSeen) then 0 else Nanos(now) - Nanos(lastSeen)
  }

  function Stale(status: SourceStatus): SourceStatus {
    if status == SourceOk then SourceStale else status
  }

  /** Both sources go stale with the agent's contact; `staleAfter` is in nanoseconds. */
  function Project(state: HudState, lastSeen: Instant, now: Instant, staleAfter: nat): (HudState, Overall) {
    var shown :=
      if Age(lastSeen, now) > staleAfter
      then state.(zcode := Stale(state.zcode), commandCode := Stale(state.commandCode)) else state;
    (shown, if shown.zcode == SourceOk && shown.commandCode == SourceOk then Live else Degraded)
  }

  /**
   A source that is fine is shown as fine exactly up to `staleAfter` after the contact, and as stale from then on;
   all else is shown as it is. The whole is live when both sources are.
   */
  lemma StaleExactly(state: HudState, lastSeen: Instant, now: Instant, staleAfter: nat)
    ensures var (shown, overall) := Project(state, lastSeen, now, staleAfter);
      var late := Nanos(now) - Nanos(lastSeen) > staleAfter;
      && (shown.zcode == SourceOk <==> state.zcode == SourceOk && !late)
      && (shown.commandCode == SourceOk <==> state.commandCode == SourceOk && !late)
      && (state.zcode == SourceOk && late ==> shown.zcode == SourceStale)
      && (state.commandCode == SourceOk && late ==> shown.commandCode == SourceStale)
      && (state.zcode != SourceOk ==> shown.zcode == state.zcode)
      && (state.commandCode != SourceOk ==> shown.commandCode == state.commandCode)
      && shown.tasks == state.tasks
      && (overall == Live <==> state.zcode == SourceOk && state.commandCode == SourceOk && !late)
  {
  }

  /** The answer from the cache is the answer from the database, or the same state shown as stale too early. */
  lemma CachedAnswerIsConservative(primary: string, steps: seq<Step>, now: Instant, staleAfter: nat)
    requires Monotone(steps) && Run(primary, steps).cache.Some?
    ensures var s := Run(primary, steps);
      var stored := StoredState(s.tables, primary);
      && stored.Some?
      && var fromCache := Project(s.cache.value.0, s.cache.value.1, now, staleAfter);
      var fromStore := Project(stored.value.0, stored.value.1, now, staleAfter);
      && (fromCache.1 == Live ==> fromCache == fromStore)
      && (!Behind(primary, steps) ==> fromCache == fromStore)
      && fromCache.0.tasks == fromStore.0.tasks
  {
    CacheRefinesDatabase(primary, steps);
  }
}
