/**
 Overlapping handlers of the hub's cache. Each uses the database under the store's lock and then writes the cache
 under the cache's own lock, so another one can come between. This module says exactly which schedules leave the
 cached state and the cached contact time right.
 */
module CacheRace {
  import opened Domain
  import opened TimeOrder
  import opened HubStore
  import StateCache

  // ---------- Handlers in two halves ----------

  /** What an unfinished handler will do to the cache: replace the entry, or only its contact time. */
  datatype Write = Entry(state: HudState, seen: Instant) | Touch(seen: Instant)

  /** `open` are the writes of the unfinished handlers, in the order in which they used the database. */
  datatype Fine = Fine(
    state: Option<HudState>, seen: Option<Instant>, cache: Option<StateCache.Snapshot>, open: seq<Write>)

  /**
   Upload, heartbeat, event batch and fill stand for their use of the database; `Fill` comes after a cache miss,
   however the cache looks by then. `Finish(k)`: the unfinished handler number `k` writes the cache.
   */
  datatype Half = Upload | Heartbeat | EventBatch | Fill | Finish(index: nat) | RestartHub

  function Without<T>(s: seq<T>, k: nat): seq<T>
    requires k < |s|
  {
    s[..k] + s[k + 1..]
  }

  function Written(cache: Option<StateCache.Snapshot>, write: Write): Option<StateCache.Snapshot> {
    match write
    case Entry(state, seen) => Some((state, seen))
    case Touch(seen) => if cache.Some? then Some((cache.value.0, seen)) else None
  }

  /** One step; an upload brings `state`, and a contact is received at `at`. */
  function NextFine(f: Fine, half: Half, state: HudState, at: Instant): Fine {
    match half
    case Upload => f.(state := Some(state), seen := Some(at), open := f.open + [Entry(state, at)])
    case Heartbeat => f.(seen := Some(at), open := f.open + [Touch(at)])
    case EventBatch => f.(seen := Some(at))
    case Fill =>
      if f.state.Some? && f.seen.Some? then f.(open := f.open + [Entry(f.state.value, f.seen.value)]) else f
    case Finish(k) =>
      if k < |f.open| then f.(cache := Written(f.cache, f.open[k]), open := Without(f.open, k)) else f
    case RestartHub => f.(cache := None, open := [])
  }

  /**
   What the handlers bring: the upload at step `i` brings `states(i)`, a contact at step `i` was received at
   `times(i)`. Times are drawn before the locks, so nothing orders them.
   */
  datatype Brought = Brought(states: nat -> HudState, times: nat -> Instant)

  function RunFine(halves: seq<Half>, b: Brought): Fine {
    if halves == [] then Fine(None, None, None, [])
    else
      var n := |halves| - 1;
      NextFine(RunFine(halves[..n], b), halves[n], b.states(n), b.times(n))
  }

  // ---------- What can be read off the schedule ----------

  /** When an unfinished handler used the database, and whether it will replace the whole entry. */
  datatype Use = Use(step: nat, entry: bool)

  /**
   The steps of the last upload and the last contact, and for the cached state and the cached time the step at
   which the handler that wrote it last had used the database.
   */
  datatype Trace = Trace(
    uploaded: Option<nat>, contacted: Option<nat>, stateBy: Option<nat>, seenBy: Option<nat>, open: seq<Use>)

  function NextTrace(t: Trace, half: Half, step: nat): Trace {
    match half
    case Upload => t.(uploaded := Some(step), contacted := Some(step), open := t.open + [Use(step, true)])
    case Heartbeat => t.(contacted := Some(step), open := t.open + [Use(step, false)])
    case EventBatch => t.(contacted := Some(step))
    case Fill => if t.uploaded.Some? then t.(open := t.open + [Use(step, true)]) else t
    case Finish(k) => if k < |t.open| then Finished(t, t.open[k]).(open := Without(t.open, k)) else t
    case RestartHub => t.(stateBy := None, seenBy := None, open := [])
  }

  function Finished(t: Trace, use: Use): Trace {
    if use.entry then t.(stateBy := Some(use.step), seenBy := Some(use.step))
    else if t.stateBy.Some? then t.(seenBy := Some(use.step))
    else t
  }

  function TraceOf(halves: seq<Half>): Trace {
    if halves == [] then Trace(None, None, None, None, [])
    else NextTrace(TraceOf(halves[..|halves| - 1]), halves[|halves| - 1], |halves| - 1)
  }

  // ---------- What a use of the database saw ----------

  /** The two things the database holds of the agent. */
  datatype Item = Snap | Seen

  predicate Writes(half: Half, item: Item) {
    half.Upload? || (item == Seen && (half.Heartbeat? || half.EventBatch?))
  }

  /** The last write of the item at or before a step, or the step itself if there is none. */
  function Source(halves: seq<Half>, item: Item, step: nat): (source: nat)
    ensures source <= step
    ensures step < |halves| && Writes(halves[step], item) ==> source == step
  {
    if step == 0 || (step < |halves| && Writes(halves[step], item)) then step
    else
      var earlier := Source(halves, item, step - 1);
      if earlier < |halves| && Writes(halves[earlier], item) then earlier else step
  }

  lemma {:induction false} SourceIsStable(halves: seq<Half>, more: seq<Half>, item: Item, step: nat)
    requires step < |halves|
    ensures Source(halves + more, item, step) == Source(halves, item, step)
  {
    if step > 0 {
      SourceIsStable(halves, more, item, step - 1);
    }
  }

  ghost predicate LastWrite(halves: seq<Half>, item: Item, step: nat) {
    step < |halves| && Writes(halves[step], item) && forall j :: step < j < |halves| ==> !Writes(halves[j], item)
  }

  /** A use of the database at this step saw some write of the item. */
  ghost predicate Saw(halves: seq<Half>, item: Item, step: nat) {
    step < |halves| && Writes(halves[Source(halves, item, step)], item)
  }

  /** After the last write every use of the database sees it. */
  lemma {:induction false} SourceAfterWrite(halves: seq<Half>, item: Item, step: nat, at: nat)
    requires LastWrite(halves, item, at) && at <= step < |halves|
    ensures Source(halves, item, step) == at
  {
    if step > at {
      SourceAfterWrite(halves, item, step - 1, at);
    }
  }

  lemma SawLater(halves: seq<Half>, half: Half, item: Item, step: nat)
    requires Saw(halves, item, step)
    ensures Saw(halves + [half], item, step) && Source(halves + [half], item, step) == Source(halves, item, step)
  {
    SourceIsStable(halves, [half], item, step);
  }

  // ---------- The run follows the trace ----------

  function StateAt(halves: seq<Half>, b: Brought, step: nat): HudState {
    b.states(Source(halves, Snap, step))
  }

  function SeenAt(halves: seq<Half>, b: Brought, step: nat): Instant {
    b.times(Source(halves, Seen, step))
  }

  ghost predicate UseFollows(halves: seq<Half>, b: Brought, w: Write, u: Use) {
    && Saw(halves, Seen, u.step) && w.seen == SeenAt(halves, b, u.step)
    && (w.Entry? <==> u.entry)
    && (w.Entry? ==> Saw(halves, Snap, u.step) && w.state == StateAt(halves, b, u.step))
  }

  ghost predicate OpenFollows(halves: seq<Half>, b: Brought, open: seq<Write>, uses: seq<Use>) {
    |open| == |uses| && forall i :: 0 <= i < |uses| ==> UseFollows(halves, b, open[i], uses[i])
  }

  ghost predicate CacheFollows(halves: seq<Half>, b: Brought, cache: Option<StateCache.Snapshot>, t: Trace) {
    && (cache.Some? <==> t.stateBy.Some?) && (cache.Some? <==> t.seenBy.Some?)
    && (cache.Some? ==>
          && Saw(halves, Snap, t.stateBy.value) && cache.value.0 == StateAt(halves, b, t.stateBy.value)
          && Saw(halves, Seen, t.seenBy.value) && cache.value.1 == SeenAt(halves, b, t.seenBy.value))
  }

  /** The last write of the item, if there is one. */
  ghost predicate LastIs(halves: seq<Half>, item: Item, last: Option<nat>) {
    if last.Some? then LastWrite(halves, item, last.value)
    else forall j :: 0 <= j < |halves| ==> !Writes(halves[j], item)
  }

  ghost predicate StoreFollows(halves: seq<Half>, b: Brought, f: Fine, t: Trace) {
    && LastIs(halves, Snap, t.uploaded) && LastIs(halves, Seen, t.contacted)
    && f.state == (if t.uploaded.Some? then Some(b.states(t.uploaded.value)) else None)
    && f.seen == (if t.contacted.Some? then Some(b.times(t.contacted.value)) else None)
  }

  ghost predicate Follows(halves: seq<Half>, b: Brought, f: Fine, t: Trace) {
    StoreFollows(halves, b, f, t) && CacheFollows(halves, b, f.cache, t) && OpenFollows(halves, b, f.open, t.open)
  }

  lemma UseLater(halves: seq<Half>, half: Half, b: Brought, w: Write, u: Use)
    requires UseFollows(halves, b, w, u)
    ensures UseFollows(halves + [half], b, w, u)
  {
    SawLater(halves, half, Seen, u.step);
    if u.entry {
      SawLater(halves, half, Snap, u.step);
    }
  }

  lemma OpenLater(halves: seq<Half>, half: Half, b: Brought, open: seq<Write>, uses: seq<Use>)
    requires OpenFollows(halves, b, open, uses)
    ensures OpenFollows(halves + [half], b, open, uses)
  {
    forall i | 0 <= i < |uses| ensures UseFollows(halves + [half], b, open[i], uses[i]) {
      UseLater(halves, half, b, open[i], uses[i]);
    }
  }

  lemma CacheLater(halves: seq<Half>, half: Half, b: Brought, cache: Option<StateCache.Snapshot>, t: Trace)
    requires CacheFollows(halves, b, cache, t)
    ensures CacheFollows(halves + [half], b, cache, t)
  {
    if cache.Some? {
      SawLater(halves, half, Snap, t.stateBy.value);
      SawLater(halves, half, Seen, t.seenBy.value);
    }
  }

  lemma LastNext(halves: seq<Half>, half: Half, item: Item, last: Option<nat>)
    requires LastIs(halves, item, last)
    ensures LastIs(halves + [half], item, if Writes(half, item) then Some(|halves|) else last)
  {
  }

  /** The database after a step, as the trace says. */
  lemma StoreNext(halves: seq<Half>, half: Half, b: Brought, f: Fine, t: Trace)
    requires StoreFollows(halves, b, f, t)
    ensures StoreFollows(
              halves + [half], b, NextFine(f, half, b.states(|halves|), b.times(|halves|)),
              NextTrace(t, half, |halves|))
  {
    LastNext(halves, half, Snap, t.uploaded);
    LastNext(halves, half, Seen, t.contacted);
  }

  lemma OneMoreOpen(halves: seq<Half>, b: Brought, open: seq<Write>, uses: seq<Use>, w: Write, u: Use)
    requires OpenFollows(halves, b, open, uses) && UseFollows(halves, b, w, u)
    ensures OpenFollows(halves, b, open + [w], uses + [u])
  {
  }

  /** What a handler that uses the database now will write. */
  lemma UseNow(halves: seq<Half>, b: Brought, f: Fine, t: Trace, entry: bool)
    requires StoreFollows(halves, b, f, t) && halves != [] && t.contacted.Some? && (entry ==> t.uploaded.Some?)
    ensures UseFollows(
              halves, b, if entry then Entry(f.state.value, f.seen.value) else Touch(f.seen.value),
              Use(|halves| - 1, entry))
  {
    SourceAfterWrite(halves, Seen, |halves| - 1, t.contacted.value);
    if entry {
      SourceAfterWrite(halves, Snap, |halves| - 1, t.uploaded.value);
    }
  }

  lemma UploadedIsContacted(halves: seq<Half>, b: Brought, f: Fine, t: Trace)
    requires StoreFollows(halves, b, f, t) && t.uploaded.Some?
    ensures t.contacted.Some? && f.seen.Some? && f.state.Some?
  {
    assert Writes(halves[t.uploaded.value], Seen);
  }

  /** A step that opens a handler. */
  lemma UseOpens(halves: seq<Half>, half: Half, b: Brought, f: Fine, t: Trace)
    requires half.Upload? || half.Heartbeat? || half.Fill?
    requires Follows(halves, b, f, t)
    ensures Follows(
              halves + [half], b, NextFine(f, half, b.states(|halves|), b.times(|halves|)),
              NextTrace(t, half, |halves|))
  {
    var all, u := halves + [half], NextTrace(t, half, |halves|);
    var g := NextFine(f, half, b.states(|halves|), b.times(|halves|));
    StoreNext(halves, half, b, f, t);
    CacheLater(halves, half, b, f.cache, t);
    OpenLater(halves, half, b, f.open, t.open);
    if !half.Fill? || t.uploaded.Some? {
      if u.uploaded.Some? {
        UploadedIsContacted(all, b, g, u);
      }
      UseNow(all, b, g, u, !half.Heartbeat?);
      OneMoreOpen(all, b, f.open, t.open, g.open[|f.open|], Use(|halves|, !half.Heartbeat?));
    }
  }

  lemma WithoutKeeps(halves: seq<Half>, b: Brought, open: seq<Write>, uses: seq<Use>, k: nat)
    requires OpenFollows(halves, b, open, uses) && k < |uses|
    ensures OpenFollows(halves, b, Without(open, k), Without(uses, k))
  {
    var o, u := Without(open, k), Without(uses, k);
    forall i | 0 <= i < |u| ensures UseFollows(halves, b, o[i], u[i]) {
      var j := if i < k then i else i + 1;
      assert u[i] == uses[j] && o[i] == open[j];
    }
  }

  lemma FinishFollows(halves: seq<Half>, b: Brought, cache: Option<StateCache.Snapshot>, t: Trace, w: Write, u: Use)
    requires CacheFollows(halves, b, cache, t) && UseFollows(halves, b, w, u)
    ensures CacheFollows(halves, b, Written(cache, w), Finished(t, u))
  {
  }

  /** A step that opens no handler. */
  lemma OtherStepFollows(halves: seq<Half>, half: Half, b: Brought, f: Fine, t: Trace)
    requires half.EventBatch? || half.Finish? || half.RestartHub?
    requires Follows(halves, b, f, t)
    ensures Follows(
              halves + [half], b, NextFine(f, half, b.states(|halves|), b.times(|halves|)),
              NextTrace(t, half, |halves|))
  {
    var all := halves + [half];
    StoreNext(halves, half, b, f, t);
    CacheLater(halves, half, b, f.cache, t);
    OpenLater(halves, half, b, f.open, t.open);
    if half.Finish? && half.index < |t.open| {
      WithoutKeeps(all, b, f.open, t.open, half.index);
      FinishFollows(all, b, f.cache, t, f.open[half.index], t.open[half.index]);
    }
  }

  lemma {:induction false} RunFollowsTrace(halves: seq<Half>, b: Brought)
    ensures Follows(halves, b, RunFine(halves, b), TraceOf(halves))
  {
    if halves != [] {
      var earlier, half := halves[..|halves| - 1], halves[|halves| - 1];
      RunFollowsTrace(earlier, b);
      assert halves == earlier + [half];
      if half.Upload? || half.Heartbeat? || half.Fill? {
        UseOpens(earlier, half, b, RunFine(earlier, b), TraceOf(earlier));
      } else {
        OtherStepFollows(earlier, half, b, RunFine(earlier, b), TraceOf(earlier));
      }
    }
  }

  // ---------- Exactly when the cache is right ----------

  ghost predicate StateRight(halves: seq<Half>, b: Brought) {
    var f := RunFine(halves, b);
    f.cache.Some? && f.state == Some(f.cache.value.0)
  }

  ghost predicate SeenRight(halves: seq<Half>, b: Brought) {
    var f := RunFine(halves, b);
    f.cache.Some? && f.seen == Some(f.cache.value.1)
  }

  const IDLE_STATE := HudState(SourceOk, SourceOk, None)
  const BUSY_STATE := HudState(SourceOk, SourceOk, Some([]))
  const FIRST_TIME: Instant := ZERO_TIME
  const SECOND_TIME: Instant := Civil(1, 1, 1, 0, 0, 0, 1)

  /** What is brought at one step differs from what is brought at every other. */
  function Marked(at: nat): Brought {
    Brought(i => if i == at then BUSY_STATE else IDLE_STATE, i => if i == at then SECOND_TIME else FIRST_TIME)
  }

  lemma FilledCache(halves: seq<Half>)
    requires TraceOf(halves).stateBy.Some?
    ensures var t := TraceOf(halves); t.uploaded.Some? && t.contacted.Some? && t.seenBy.Some?
  {
    var t := TraceOf(halves);
    RunFollowsTrace(halves, Marked(0));
    var source := Source(halves, Snap, t.stateBy.value);
    assert Writes(halves[source], Snap) && Writes(halves[source], Seen);
  }

  /**
   With the cache filled, a schedule leaves the cached state right, whatever the handlers bring, if and only if the
   handler that wrote it last had used the database at or after the last upload.
   */
  lemma RightExactly(halves: seq<Half>)
    requires TraceOf(halves).stateBy.Some?
    ensures TraceOf(halves).uploaded.Some?
    ensures (forall b: Brought :: StateRight(halves, b))
        <==> TraceOf(halves).stateBy.value >= TraceOf(halves).uploaded.value
  {
    FilledCache(halves);
    var at, writer := TraceOf(halves).uploaded.value, TraceOf(halves).stateBy.value;
    if writer >= at {
      forall b: Brought ensures StateRight(halves, b) {
        RunFollowsTrace(halves, b);
        SourceAfterWrite(halves, Snap, writer, at);
      }
    } else {
      RunFollowsTrace(halves, Marked(at));
      assert !StateRight(halves, Marked(at));
    }
  }

  /**
   And the cached contact time if and only if the handler that wrote the time last had used the database at or
   after the last contact of any kind, event batches included.
   */
  lemma ContactRightExactly(halves: seq<Half>)
    requires TraceOf(halves).stateBy.Some?
    ensures TraceOf(halves).contacted.Some? && TraceOf(halves).seenBy.Some?
    ensures (forall b: Brought :: SeenRight(halves, b))
        <==> TraceOf(halves).seenBy.value >= TraceOf(halves).contacted.value
  {
    FilledCache(halves);
    var at, writer := TraceOf(halves).contacted.value, TraceOf(halves).seenBy.value;
    if writer >= at {
      forall b: Brought ensures SeenRight(halves, b) {
        RunFollowsTrace(halves, b);
        SourceAfterWrite(halves, Seen, writer, at);
      }
    } else {
      RunFollowsTrace(halves, Marked(at));
      assert !SeenRight(halves, Marked(at));
    }
  }

  // ---------- Handlers in turn ----------

  /** Handlers finish in the order in which they used the database. */
  predicate InTurn(halves: seq<Half>) {
    forall half :: half in halves && half.Finish? ==> half.index == 0
  }

  /** The last unfinished handler that will replace the entry. */
  function LastEntry(open: seq<Use>): Option<nat> {
    if open == [] then None
    else if open[|open| - 1].entry then Some(open[|open| - 1].step)
    else LastEntry(open[..|open| - 1])
  }

  lemma {:induction false} LastEntryOfRest(open: seq<Use>)
    requires open != []
    ensures LastEntry(open)
         == if LastEntry(open[1..]).Some? || !open[0].entry then LastEntry(open[1..]) else Some(open[0].step)
  {
    var n := |open| - 1;
    if n > 0 && !open[n].entry {
      LastEntryOfRest(open[..n]);
      assert open[..n][1..] == open[1..][..n - 1];
    }
  }

  /** The last handler that will replace the entry, or else the one that did, saw the last upload. */
  ghost predicate StateQueued(t: Trace) {
    t.uploaded.Some? ==>
      var next := LastEntry(t.open);
      && (next.Some? ==> next.value >= t.uploaded.value)
      && (next.None? && t.stateBy.Some? ==> t.stateBy.value >= t.uploaded.value)
  }

  /** The same for the time and a contact made at step `at`. */
  ghost predicate SeenQueued(t: Trace, at: nat) {
    && (t.open != [] ==> t.open[|t.open| - 1].step >= at)
    && (t.open == [] && t.seenBy.Some? ==> t.seenBy.value >= at)
  }

  lemma LastEntrySnoc(open: seq<Use>, use: Use)
    ensures LastEntry(open + [use]) == if use.entry then Some(use.step) else LastEntry(open)
  {
    assert (open + [use])[..|open|] == open;
  }

  lemma StateQueuedNext(t: Trace, half: Half, step: nat)
    requires StateQueued(t) && (half.Finish? ==> half.index == 0)
    requires t.uploaded.Some? ==> t.uploaded.value <= step
    ensures StateQueued(NextTrace(t, half, step))
  {
    LastEntrySnoc(t.open, Use(step, true));
    LastEntrySnoc(t.open, Use(step, false));
    if half.Finish? && t.open != [] {
      LastEntryOfRest(t.open);
      assert Without(t.open, 0) == t.open[1..];
    }
  }

  lemma SeenQueuedNext(t: Trace, half: Half, step: nat, at: nat)
    requires (half.Finish? ==> half.index == 0) && (t.stateBy.Some? <==> t.seenBy.Some?)
    requires at <= step && (at < step ==> SeenQueued(t, at) && !Writes(half, Seen))
    requires at == step ==> half.Upload? || half.Heartbeat?
    ensures SeenQueued(NextTrace(t, half, step), at)
  {
    if half.Finish? && t.open != [] {
      assert Without(t.open, 0) == t.open[1..];
    }
  }

  /** The last contact was an upload or a heartbeat, so a handler carries it to the cache. */
  ghost predicate Carried(halves: seq<Half>, t: Trace) {
    t.contacted.Some? && t.contacted.value < |halves| && !halves[t.contacted.value].EventBatch?
  }

  lemma TraceFacts(halves: seq<Half>)
    ensures var t := TraceOf(halves);
      && (t.uploaded.Some? ==> t.uploaded.value < |halves|)
      && (t.contacted.Some? ==> LastWrite(halves, Seen, t.contacted.value))
      && (t.stateBy.Some? <==> t.seenBy.Some?)
  {
    RunFollowsTrace(halves, Marked(0));
  }

  /** What the next step keeps of the queue for the time. */
  lemma CarriedNext(halves: seq<Half>, half: Half, t: Trace)
    requires half.Finish? ==> half.index == 0
    requires (t.stateBy.Some? <==> t.seenBy.Some?) && (t.contacted.Some? ==> t.contacted.value < |halves|)
    requires Carried(halves, t) ==> SeenQueued(t, t.contacted.value)
    requires Carried(halves + [half], NextTrace(t, half, |halves|))
    ensures var u := NextTrace(t, half, |halves|); SeenQueued(u, u.contacted.value)
  {
    if Writes(half, Seen) {
      SeenQueuedNext(t, half, |halves|, |halves|);
    } else {
      assert NextTrace(t, half, |halves|).contacted == t.contacted;
      assert Carried(halves, t);
      SeenQueuedNext(t, half, |halves|, t.contacted.value);
    }
  }

  lemma {:induction false} InTurnIsQueued(halves: seq<Half>)
    requires InTurn(halves)
    ensures var t := TraceOf(halves); StateQueued(t) && (Carried(halves, t) ==> SeenQueued(t, t.contacted.value))
  {
    if halves != [] {
      var earlier, half := halves[..|halves| - 1], halves[|halves| - 1];
      assert half in halves && halves == earlier + [half];
      InTurnIsQueued(earlier);
      TraceFacts(earlier);
      StateQueuedNext(TraceOf(earlier), half, |earlier|);
      if Carried(halves, TraceOf(halves)) {
        CarriedNext(earlier, half, TraceOf(earlier));
      }
    }
  }

  /**
   Handlers that finish in turn leave the state right once all have finished, and the contact time too unless the
   last contact was an event batch, which writes no cache.
   */
  lemma InTurnHandlersAgree(halves: seq<Half>, b: Brought)
    requires InTurn(halves) && TraceOf(halves).open == [] && TraceOf(halves).stateBy.Some?
    ensures StateRight(halves, b)
    ensures Carried(halves, TraceOf(halves)) ==> SeenRight(halves, b)
  {
    InTurnIsQueued(halves);
    RightExactly(halves);
    ContactRightExactly(halves);
    assert LastEntry([]) == None;
  }

  // ---------- Handlers overtaken ----------

  lemma TraceOfSnoc(halves: seq<Half>, half: Half)
    ensures TraceOf(halves + [half]) == NextTrace(TraceOf(halves), half, |halves|)
  {
    assert (halves + [half])[..|halves|] == halves;
  }

  /** Two overlapping uploads that finish the other way round leave the older state in the cache. */
  lemma OvertakenHandlerDisagrees(b: Brought)
    ensures var halves := [Upload] + [Upload] + [Finish(1)] + [Finish(0)];
      && TraceOf(halves) == Trace(Some(1), Some(1), Some(0), Some(0), [])
      && RunFine(halves, b).state == Some(b.states(1))
      && RunFine(halves, b).cache == Some((b.states(0), b.times(0)))
  {
    var two := [Upload] + [Upload];
    var halves := two + [Finish(1)] + [Finish(0)];
    assert [] + [Upload] == [Upload];
    TraceOfSnoc([], Upload);
    TraceOfSnoc([Upload], Upload);
    TraceOfSnoc(two, Finish(1));
    TraceOfSnoc(two + [Finish(1)], Finish(0));
    RunFollowsTrace(halves, b);
  }

  /**
   Two overlapping heartbeats do the same to the contact time. The first to use the database may have drawn the
   later time: then the cached contact is later than the stored one, and the agent is called stale too late.
   */
  lemma OvertakenHeartbeatIsAhead(b: Brought)
    ensures var halves := [Upload] + [Finish(0)] + [Heartbeat] + [Heartbeat] + [Finish(1)] + [Finish(0)];
      && TraceOf(halves) == Trace(Some(0), Some(3), Some(0), Some(2), [])
      && RunFine(halves, b).seen == Some(b.times(3))
      && RunFine(halves, b).cache == Some((b.states(0), b.times(2)))
  {
    var one := [Upload] + [Finish(0)];
    var two := one + [Heartbeat] + [Heartbeat];
    var halves := two + [Finish(1)] + [Finish(0)];
    assert [] + [Upload] == [Upload];
    TraceOfSnoc([], Upload);
    TraceOfSnoc([Upload], Finish(0));
    TraceOfSnoc(one, Heartbeat);
    TraceOfSnoc(one + [Heartbeat], Heartbeat);
    TraceOfSnoc(two, Finish(1));
    TraceOfSnoc(two + [Finish(1)], Finish(0));
    RunFollowsTrace(halves, b);
  }

  /**
   The condition looks at the last upload, not at the last use: a fill that read the upload back may finish
   first and the upload's own handler last.
   */
  lemma OvertakenFillIsHarmless(b: Brought)
    ensures var halves := [Upload] + [Fill] + [Finish(1)] + [Finish(0)];
      TraceOf(halves) == Trace(Some(0), Some(0), Some(0), Some(0), []) && StateRight(halves, b) && SeenRight(halves, b)
  {
    var two := [Upload] + [Fill];
    var halves := two + [Finish(1)] + [Finish(0)];
    assert [] + [Upload] == [Upload];
    TraceOfSnoc([], Upload);
    TraceOfSnoc([Upload], Fill);
    TraceOfSnoc(two, Finish(1));
    TraceOfSnoc(two + [Finish(1)], Finish(0));
    RightExactly(halves);
    ContactRightExactly(halves);
  }

  // ---------- One handler at a time ----------

  /** Of the server's state, what the schedules speak of. */
  function View(primary: string, s: StateCache.Cached): Fine {
    Fine(if primary in s.tables.snapshots then Some(s.tables.snapshots[primary]) else None,
         if primary in s.tables.agents then Some(s.tables.agents[primary].lastSeenAt) else None, s.cache, [])
  }

  /** The halves of a whole handler of the primary agent; one whose transaction fails has none. */
  function HalvesOf(s: StateCache.Cached, step: StateCache.Step): seq<Half> {
    match step
    case UploadState(_, _, _, _, commits) => if commits then [Upload, Finish(0)] else []
    case Beat(_, _, _, _, commits) => if commits then [Heartbeat, Finish(0)] else []
    case UploadEvents(_, _, batch, _, gaps, commits) =>
      if commits && |gaps| == |batch| && Fits(s.tables, gaps) then [EventBatch] else []
    case Fill => if s.cache.None? then [Half.Fill, Finish(0)] else []
    case Restart => [RestartHub]
  }

  function After(f: Fine, halves: seq<Half>, state: HudState, at: Instant): Fine
    decreases |halves|
  {
    if halves == [] then f else After(NextFine(f, halves[0], state, at), halves[1..], state, at)
  }

  lemma AfterOne(f: Fine, half: Half, state: HudState, at: Instant)
    ensures After(f, [half], state, at) == NextFine(f, half, state, at)
  {
    assert [half][1..] == [];
  }

  lemma AfterTwo(f: Fine, first: Half, second: Half, state: HudState, at: Instant)
    ensures After(f, [first, second], state, at) == NextFine(NextFine(f, first, state, at), second, state, at)
  {
    assert [first, second][1..] == [second];
    AfterOne(NextFine(f, first, state, at), second, state, at);
  }

  /** What a step brings: a state and a receipt time, if it has them. */
  function Brings(step: StateCache.Step): (HudState, Instant) {
    match step
    case UploadState(_, _, state, receivedAt, _) => (state, receivedAt)
    case Beat(_, _, _, receivedAt, _) => (IDLE_STATE, receivedAt)
    case UploadEvents(_, _, _, receivedAt, _, _) => (IDLE_STATE, receivedAt)
    case _ => (IDLE_STATE, FIRST_TIME)
  }

  predicate OfPrimary(primary: string, step: StateCache.Step) {
    match step
    case UploadState(agentId, _, _, _, _) => agentId == primary
    case Beat(agentId, _, _, _, _) => agentId == primary
    case UploadEvents(agentId, _, _, _, _, _) => agentId == primary
    case _ => true
  }

  /** The whole handlers of the server are the schedules in which each finishes before the next begins. */
  lemma WholeHandlersAreHalves(primary: string, s: StateCache.Cached, step: StateCache.Step)
    requires OfPrimary(primary, step)
    ensures View(primary, StateCache.Next(primary, s, step))
         == After(View(primary, s), HalvesOf(s, step), Brings(step).0, Brings(step).1)
  {
    var f, state, at := View(primary, s), Brings(step).0, Brings(step).1;
    match step
    case UploadState(_, _, _, _, _) => AfterTwo(f, Upload, Finish(0), state, at);
    case Beat(_, _, _, _, _) => AfterTwo(f, Heartbeat, Finish(0), state, at);
    case UploadEvents(_, sentAt, batch, receivedAt, gaps, _) =>
      AfterOne(f, EventBatch, state, at);
      if |gaps| == |batch| && Fits(s.tables, gaps) {
        StateCache.EventBatchIsContact(primary, s, sentAt, batch, receivedAt, gaps);
      }
    case Fill => AfterTwo(f, Half.Fill, Finish(0), state, at);
    case Restart => AfterOne(f, RestartHub, state, at);
  }
}
