/** From the status snapshots the agent sees to what the phone handles. */
module EndToEnd {
  import opened Domain
  import opened HubStore
  import opened Retention
  import opened Feed
  import opened Pipeline
  import opened Delivery
  import opened ExactlyOnce
  import opened PhoneFeed
  import Outbox

  /** In every run of the whole system the emitted events are the terminal changes the agent observed. */
  lemma {:induction false} EmittedAreEdges(c: Config, steps: seq<Step>)
    ensures Outbox.Linked(Run(c, steps).box)
  {
    if steps != [] {
      var s, step := Run(c, steps[..|steps| - 1]), steps[|steps| - 1];
      EmittedAreEdges(c, steps[..|steps| - 1]);
      match step
      case Observe(state, at, ids, commits) => Outbox.ApplyKeepsLinked(s.box, Outbox.Observe(state, at, ids, commits));
      case Maintain(chosen, before) => Outbox.ApplyKeepsLinked(s.box, Outbox.Maintain(chosen, before));
      case Acknowledge =>
        if s.upload.Answered? {
          Outbox.ApplyKeepsLinked(s.box, Outbox.Ack(EventIds(s.upload.batch), true));
        }
      case _ =>
    }
  }

  lemma EventsSlice(rows: seq<Row>, i: nat, j: nat)
    requires i <= j <= |rows|
    ensures Events(rows[i..j]) == Events(rows)[i..j]
  {
  }

  /** A segment of what the hub inserted is a slice of what the agent emitted. */
  lemma SegmentOfEmitted(all: seq<Row>, emitted: seq<Event>, lo: nat, hi: nat)
    requires Ascending(all) && lo <= hi && |all| <= |emitted| && Events(all) == emitted[..|all|]
    ensures exists i, j :: 0 <= i <= j <= |emitted| && Events(Segment(all, lo, hi)) == emitted[i..j]
  {
    SegmentByRank(all, lo, hi);
    var i, j := Rank(all, lo), Rank(all, hi);
    EventsSlice(all, i, j);
    SliceOfPrefix(emitted, |all|, i, j);
  }

  lemma SliceOfPrefix(emitted: seq<Event>, n: nat, i: nat, j: nat)
    requires i <= j <= n <= |emitted|
    ensures emitted[..n][i..j] == emitted[i..j]
  {
  }

  /** No event was given to the voice policy twice. */
  ghost predicate EachHandledOnce(p: Phone) {
    forall i, j :: 0 <= i < j < |p.handled| ==> p.handled[i].event.eventId != p.handled[j].event.eventId
  }

  /**
   With the retention minimum covering an upload batch: the emitted events are the agent's terminal changes;
   nothing the phone handled was handled twice, and all of it was emitted; and with receipt times in order or a
   tight policy, and no page torn, what the phone took since its last baseline is a contiguous slice of the
   emitted events.
   */
  lemma PhoneTakesSlicesOfEdges(c: Config, steps: seq<Step>)
    requires c.policy.minEvents >= BATCH
    ensures var s := Run(c, steps);
      && Outbox.Marks(s.box.emitted) == Outbox.Edges(s.box.seen)
      && EachHandledOnce(s.phone)
      && (forall i :: 0 <= i < |s.phone.handled| ==> s.phone.handled[i].event in s.box.emitted)
      && (s.phone.whole && Steady(All(c, s), Tight(c.policy)) ==>
            exists i, j :: 0 <= i <= j <= |s.box.emitted| && Events(s.phone.adopted) == s.box.emitted[i..j])
  {
    var s := Run(c, steps);
    EmittedAreEdges(c, steps);
    RetentionIsSafe(c, steps);
    UploadIsExactlyOnceFifo(c, steps);
    PhoneIsSafe(c, steps);
    LiveFacts(c, s);
    HandledOnce(s.phone.handled, All(c, s), s.box.emitted);
    if s.phone.whole && Steady(All(c, s), Tight(c.policy)) {
      SegmentOfEmitted(All(c, s), s.box.emitted, s.phone.start, s.phone.mark);
    }
  }

  lemma HandledOnce(handled: seq<Row>, all: seq<Row>, emitted: seq<Event>)
    requires Ascending(handled) && Ascending(all) && |all| <= |emitted| && Events(all) == emitted[..|all|]
    requires forall i :: 0 <= i < |handled| ==> handled[i] in all
    requires forall i, j :: 0 <= i < j < |all| ==> all[i].event.eventId != all[j].event.eventId
    ensures forall i, j :: 0 <= i < j < |handled| ==> handled[i].event.eventId != handled[j].event.eventId
    ensures forall i :: 0 <= i < |handled| ==> handled[i].event in emitted
  {
    forall i | 0 <= i < |handled| ensures handled[i].event in emitted {
      var k :| 0 <= k < |all| && all[k] == handled[i];
      assert Events(all)[k] == emitted[k];
    }
    forall i, j | 0 <= i < j < |handled| ensures handled[i].event.eventId != handled[j].event.eventId {
      var k :| 0 <= k < |all| && all[k] == handled[i];
      var l :| 0 <= l < |all| && all[l] == handled[j];
      assert k != l;
    }
  }
}
