/** One pass of the agent's delivery loop: the head of the outbox is sent, and acknowledged only after a 2xx answer. */
module AgentRuntime {
  import opened Domain
  import AgentOutbox
  import Backoff
  import ExactlyOnce
  import Outbox
  import Pipeline

  class Delivery {
    const outbox: AgentOutbox.OutboxStore
    const interval: int
    const maxBackoff: int
    var failures: nat
    var sent: seq<seq<Event>>

    constructor (outbox: AgentOutbox.OutboxStore, interval: int, maxBackoff: int)
      ensures this.outbox == outbox && this.interval == interval && this.maxBackoff == maxBackoff
      ensures failures == 0 && sent == []
    {
      this.outbox, this.interval, this.maxBackoff, failures, sent := outbox, interval, maxBackoff, 0, [];
    }

    /**
     `readable`: the outbox could be read; `accepted`: the hub answered 2xx; `commits`: the acknowledgement
     committed. `sent` records what went on the wire.
     */
    method DeliverOnce(readable: bool, accepted: bool, commits: bool) returns (delay: int)
      requires interval > 0 && maxBackoff > 0
      modifies this`failures, this`sent, outbox`pending
      ensures var batch := if readable then Take(old(outbox.pending), Pipeline.BATCH) else [];
        && sent == old(sent) + (if batch == [] then [] else [batch])
        && outbox.Contents() == (if batch != [] && accepted && commits
                                 then Outbox.AckTables(old(outbox.Contents()), Pipeline.EventIds(batch))
                                 else old(outbox.Contents()))
        && failures == (if readable && (batch == [] || (accepted && commits)) then 0 else old(failures) + 1)
        && (DistinctIds(old(outbox.pending)) && batch != [] && accepted && commits ==>
              outbox.pending == old(outbox.pending)[|batch|..])
      ensures delay == if failures == 0 then interval else Backoff.Doubled(interval, failures - 1, maxBackoff)
    {
      var failed := !readable;
      assert sent + [] == sent;
      if readable {
        var pending := outbox.Pending(100);
        var batch := pending.value;
        HeadOfOutbox(outbox.pending, batch);
        if |batch| > 0 {
          sent := sent + [batch];
          failed := true;
          if accepted {
            var ids := IdsOf(batch);
            FifoAck(outbox.pending, batch);
            var acked := outbox.Ack(ids, commits);
            failed := !acked;
          }
        }
      }
      failures := if failed then failures + 1 else 0;
      delay := interval;
      if failures > 0 {
        var longer, _ := Backoff.Delay(interval, failures, maxBackoff);
        delay := longer;
      }
    }
  }

  method IdsOf(batch: seq<Event>) returns (ids: seq<string>)
    ensures ids == Pipeline.EventIds(batch)
  {
    ids := [];
    for i := 0 to |batch|
      invariant |ids| == i && forall k :: 0 <= k < i ==> ids[k] == batch[k].eventId
    {
      ids := ids + [batch[i].eventId];
    }
  }

  lemma HeadOfOutbox(pending: seq<Event>, batch: seq<Event>)
    requires batch <= pending && |batch| == Min(Pipeline.BATCH, |pending|)
    ensures batch == Take(pending, Pipeline.BATCH)
  {
  }

  /** Acknowledging the head of an outbox with distinct ids leaves its tail. */
  lemma FifoAck(pending: seq<Event>, batch: seq<Event>)
    requires batch <= pending
    ensures DistinctIds(pending) ==> Outbox.Without(pending, Pipeline.EventIds(batch)) == pending[|batch|..]
  {
    assert pending == batch + pending[|batch|..];
    if DistinctIds(pending) {
      ExactlyOnce.AckDropsBatch(batch, pending[|batch|..]);
    }
  }
}
