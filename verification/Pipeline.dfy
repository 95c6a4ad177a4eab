/**
 The durable event pipeline as one step system: the agent's outbox and delivery loop, the hub's log and
 retention, and the phone's cursor. Requests, responses, acknowledgements and transactions fail at will, the
 agent restarts at will, and prune batches and other agents' uploads fall between any two steps.

 The system carries history that the program does not keep: everything ever emitted, every row ever
 inserted, and what the phone has taken in since its last baseline.
 */
module Pipeline {
  import opened Domain
  import opened TimeOrder
  import opened HubStore
  import opened Retention
  import opened Hub
  import opened Feed
  import Outbox

  const BATCH := 100

  /** `agentId` is the uploading agent and the hub's configured primary agent. */
  datatype Config = Config(agentId: string, policy: Retaining)

  /** The delivery loop between two passes: nothing, a request on the wire, or a 2xx response not yet acked. */
  datatype Upload = Resting | Sent(batch: seq<Event>, stored: bool) | Answered(batch: seq<Event>)

  /** One poll: the request, the floor read, the page read. `torn` is whether a prune fell between the reads. */
  datatype Fetch =
    | NoFetch
    | Asked(after: nat, resumed: bool)
    | FloorRead(after: nat, resumed: bool, oldest: nat, torn: bool)
    | PageRead(after: nat, resumed: bool, page: EventPage, torn: bool)

  /**
   `cursor` is what the phone has persisted. History: `mark` is the last cursor ever persisted, `start` the
   cursor of the last baseline, `adopted` the events of the pages taken since, `whole` whether none of
   those pages was torn, `handled` every event ever given to the voice policy.
   */
  datatype Phone = Phone(
    cursor: Option<nat>, fetch: Fetch, mark: nat, start: nat, adopted: seq<Row>, whole: bool, handled: seq<Row>)

  datatype Sys = Sys(box: Outbox.Ledger, upload: Upload, hub: Tables, log: seq<Row>, phone: Phone)

  const START := Sys(Outbox.NEW_LEDGER, Resting, EMPTY_TABLES, [], Phone(None, NoFetch, 0, 0, [], true, []))

  datatype Step =
    | Observe(state: HudState, at: Instant, ids: seq<string>, commits: bool)
    | Maintain(chosen: set<string>, before: Instant)
    | Send
    | HubStores(sentAt: Instant, receivedAt: Instant, gaps: seq<nat>)
    | Respond2xx
    | GiveUp
    | Acknowledge
    | Restart
    | OtherUpload(agent: string, batch: seq<Event>, sentAt: Instant, receivedAt: Instant, gaps: seq<nat>)
    | Prune(agent: string, cutoff: Instant)
    | Poll
    | ReadFloor
    | ReadPage
    | Lose
    | Sync(takesEffect: bool, delivered: bool)
    | Forget

  // ---------- Steps ----------

  function LogIds(log: seq<Row>): set<string> {
    set r | r in log :: r.event.eventId
  }

  /** Random ids: distinct, and new to the agent and to everything the hub ever stored. */
  ghost predicate NewIds(s: Sys, ids: seq<string>) {
    && (forall i, j :: 0 <= i < j < |ids| ==> ids[i] != ids[j])
    && (forall i :: 0 <= i < |ids| ==> ids[i] !in Ids(s.box.emitted) && ids[i] !in LogIds(s.log))
  }

  /** The upload path of `RecordEvents`; the rows appended also enter the history. */
  function Stored(s: Sys, agent: string, batch: seq<Event>, sentAt: Instant, receivedAt: Instant, gaps: seq<nat>): Sys
    requires |gaps| == |batch|
  {
    var hub := RecordEventsTables(s.hub, agent, sentAt, batch, receivedAt, gaps);
    s.(hub := hub, log := s.log + NewRows(s.hub.events, hub.events))
  }

  function NewRows(before: seq<Row>, after: seq<Row>): seq<Row> {
    if |before| <= |after| then after[|before|..] else []
  }

  function Torn(f: Fetch): Fetch {
    if f.FloorRead? then FloorRead(f.after, f.resumed, f.oldest, true) else f
  }

  /** The persisted cursor and the history after a page is taken. */
  function Adopt(p: Phone, delivered: bool): Phone
    requires p.fetch.PageRead?
  {
    var f := p.fetch;
    if !f.resumed || RequiresRebase(f.page, f.after) then
      p.(cursor := Some(f.page.latestSeq), mark := f.page.latestSeq, start := f.page.latestSeq, adopted := [],
         whole := true, fetch := NoFetch)
    else
      p.(cursor := Some(f.page.nextAfter), mark := f.page.nextAfter, adopted := p.adopted + f.page.events,
         whole := p.whole && !f.torn, handled := if delivered then p.handled + f.page.events else p.handled,
         fetch := NoFetch)
  }

  ghost predicate Enabled(c: Config, s: Sys, step: Step) {
    match step
    case Observe(_, _, ids, _) => NewIds(s, ids)
    case Maintain(_, _) => true
    case Send => s.upload.Resting? && s.box.t.pending != []
    case HubStores(_, _, gaps) => s.upload.Sent? && |gaps| == |s.upload.batch| && Fits(s.hub, gaps)
    case Respond2xx => s.upload.Sent? && s.upload.stored
    case GiveUp => s.upload.Sent? || s.upload.Answered?
    case Acknowledge => s.upload.Answered?
    case Restart => true
    case OtherUpload(agent, batch, _, _, gaps) =>
      agent != c.agentId && |gaps| == |batch| && Fits(s.hub, gaps) && Ids(batch) !! Ids(s.box.emitted)
    case Prune(_, _) => true
    case Poll => s.phone.fetch.NoFetch?
    case ReadFloor => s.phone.fetch.Asked?
    case ReadPage => s.phone.fetch.FloorRead?
    case Lose => true
    case Sync(_, _) => s.phone.fetch.PageRead?
    case Forget => true
  }

  ghost function Next(c: Config, s: Sys, step: Step): Sys
    requires Enabled(c, s, step)
  {
    match step
    case Observe(state, at, ids, commits) => s.(box := Outbox.Apply(s.box, Outbox.Observe(state, at, ids, commits)))
    case Maintain(chosen, before) => s.(box := Outbox.Apply(s.box, Outbox.Maintain(chosen, before)))
    case Send => s.(upload := Sent(Take(s.box.t.pending, BATCH), false))
    case HubStores(sentAt, receivedAt, gaps) =>
      Stored(s, c.agentId, s.upload.batch, sentAt, receivedAt, gaps).(upload := Sent(s.upload.batch, true))
    case Respond2xx => s.(upload := Answered(s.upload.batch))
    case GiveUp => s.(upload := Resting)
    case Acknowledge => s.(upload := Resting, box := Outbox.Apply(s.box, Outbox.Ack(EventIds(s.upload.batch), true)))
    case Restart => s.(upload := Resting)
    case OtherUpload(agent, batch, sentAt, receivedAt, gaps) => Stored(s, agent, batch, sentAt, receivedAt, gaps)
    case Prune(agent, cutoff) =>
      s.(hub := s.hub.(events := PruneBatch(s.hub.events, agent, cutoff, c.policy)),
         phone := s.phone.(fetch := Torn(s.phone.fetch)))
    case Poll => s.(phone := s.phone.(fetch := Asked(s.phone.cursor.GetOr(0), s.phone.cursor.Some?)))
    case ReadFloor =>
      var f := s.phone.fetch;
      s.(phone := s.phone.(fetch := FloorRead(f.after, f.resumed, Oldest(Live(c, s)), false)))
    case ReadPage =>
      var f := s.phone.fetch;
      var page := Respond(f.oldest, Live(c, s), f.after, if f.resumed then BATCH else 1);
      s.(phone := s.phone.(fetch := PageRead(f.after, f.resumed, page, f.torn)))
    case Lose => s.(phone := s.phone.(fetch := NoFetch))
    case Sync(takesEffect, delivered) =>
      s.(phone := if takesEffect then Adopt(s.phone, delivered) else s.phone.(fetch := NoFetch))
    case Forget => s.(phone := s.phone.(cursor := None))
  }

  function EventIds(events: seq<Event>): seq<string> {
    seq(|events|, i requires 0 <= i < |events| => events[i].eventId)
  }

  /** A step that is not possible changes nothing. */
  ghost function Apply(c: Config, s: Sys, step: Step): Sys {
    if Enabled(c, s, step) then Next(c, s, step) else s
  }

  ghost function Run(c: Config, steps: seq<Step>): Sys {
    if steps == [] then START else Apply(c, Run(c, steps[..|steps| - 1]), steps[|steps| - 1])
  }

  /** The agent's rows now in the table, and all of them ever. */
  function Live(c: Config, s: Sys): seq<Row> {
    Of(s.hub.events, c.agentId)
  }

  function All(c: Config, s: Sys): seq<Row> {
    Of(s.log, c.agentId)
  }
}
