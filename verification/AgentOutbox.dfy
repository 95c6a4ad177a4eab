/** The outbox as the agent has it: methods over its tables, each call one transaction. */
module AgentOutbox {
  import opened Domain
  import opened TimeOrder
  import Emission
  import Outbox

  class OutboxStore {
    var initialized: bool
    var tasks: map<string, Outbox.TaskRow>
    var pending: seq<Event>

    ghost function Contents(): Outbox.Tables
      reads this
    {
      Outbox.Tables(initialized, tasks, pending)
    }

    constructor ()
      ensures Contents() == Outbox.EMPTY_TABLES
    {
      initialized, tasks, pending := false, map[], [];
    }

    /**
     Advances the baseline and appends the terminal changes of a trusted snapshot, in one transaction.
     `commits` is whether the engine lets it commit.
     */
    method Observe(state: HudState, at: Instant, ids: seq<string>, commits: bool) returns (ok: bool)
      requires state.tasks.Some? ==> |ids| == |state.tasks.value|
      modifies this
      ensures state.zcode != SourceOk || state.tasks.None? ==> ok && Contents() == old(Contents())
      ensures Outbox.Trusted(state) ==>
        var r := Outbox.ObserveTables(old(Contents()), state, at, ids);
        && ok == (commits && r.Ok?)
        && Contents() == (if ok then r.value else old(Contents()))
      ensures state.zcode == SourceOk && state.tasks.Some? && ok ==>
        && initialized && Emission.Remembered(old(tasks), state.tasks.value, at, tasks)
        && exists who :: Emission.Emits(old(Contents()), state.tasks.value, at, ids, Contents(), who)
    {
      if !Outbox.Trusted(state) {
        return true;
      }
      var list := state.tasks.value;
      var before := Outbox.Tables(initialized, tasks, pending);
      var tx := before;
      var i := 0;
      while i < |list|
        invariant 0 <= i <= |list|
        invariant Outbox.ObserveTasks(before, list[..i], at, ids[..i]) == Ok(tx)
      {
        assert list[..i + 1][..i] == list[..i] && ids[..i + 1][..i] == ids[..i];
        var r := Outbox.ObserveTask(tx, before.tasks, list[i], at, ids[i]);
        if r.Err? {
          ErrorsStick(before, list, at, ids, i + 1);
          return false;
        }
        tx := r.value;
        i := i + 1;
      }
      assert list[..i] == list && ids[..i] == ids;
      if !commits {
        return false;
      }
      Emission.SnapshotIsRemembered(before, list, at, ids);
      ghost var who := Emission.EachChangeIsOneEvent(before, list, at, ids);
      initialized, tasks, pending := true, tx.tasks, tx.pending;
      assert Emission.Emits(before, list, at, ids, Contents(), who);
      return true;
    }

    /** The oldest pending events, never more than asked for. */
    method Pending(limit: int) returns (r: Result<seq<Event>>)
      ensures r.Ok? <==> 1 <= limit <= 100
      ensures r.Ok? ==> r.value <= pending && |r.value| == Min(limit, |pending|)
    {
      if limit <= 0 || limit > 100 {
        return Err;
      }
      return Ok(if limit < |pending| then pending[..limit] else pending);
    }

    method Ack(ids: seq<string>, commits: bool) returns (ok: bool)
      modifies this`pending
      ensures ok == (commits || ids == [])
      ensures Contents() == if ok then Outbox.AckTables(old(Contents()), ids) else old(Contents())
      ensures ok ==> forall e :: e in pending <==> e in old(pending) && e.eventId !in ids
    {
      if ids == [] {
        Outbox.WithoutNothing(pending);
        return true;
      }
      if !commits {
        return false;
      }
      var tx, i := pending, 0;
      Outbox.WithoutNothing(pending);
      while i < |ids|
        invariant 0 <= i <= |ids|
        invariant tx == Outbox.Without(old(pending), ids[..i])
      {
        Outbox.WithoutOneMore(old(pending), ids[..i], ids[i]);
        assert ids[..i + 1] == ids[..i] + [ids[i]];
        tx := Outbox.Without(tx, [ids[i]]);
        i := i + 1;
      }
      assert ids[..i] == ids;
      pending := tx;
      Outbox.WithoutMembers(old(pending), ids);
      return true;
    }

    /**
     Blanks the display fields of the longest unseen terminal baselines, one bounded batch. It may only pick
     what the run model lets it pick, and picks as many as the bound allows, oldest first.
     */
    method Maintain(cutoff: Instant) returns (chosen: set<string>)
      modifies this`tasks
      ensures Outbox.MayCompact(old(Contents()), chosen, cutoff)
      ensures Contents() == Outbox.CompactTables(old(Contents()), chosen)
      ensures forall id <- old(tasks) | Outbox.Compactable(old(tasks)[id], cutoff) && id !in chosen ::
        |chosen| == Outbox.COMPACT_BATCH
        && forall c <- chosen :: !Before(old(tasks)[id].lastSeenAt, old(tasks)[c].lastSeenAt)
      ensures |chosen| <= 1000 && tasks.Keys == old(tasks).Keys && chosen <= tasks.Keys
      ensures forall id <- chosen ::
        && Ended(old(tasks)[id]) && Before(old(tasks)[id].lastSeenAt, cutoff)
        && tasks[id] == Outbox.TaskRow(old(tasks)[id].status, "", None, None, old(tasks)[id].lastSeenAt)
      ensures forall id <- tasks | id !in chosen :: tasks[id] == old(tasks)[id]
      ensures |chosen| < 1000 ==>
        forall id <- tasks | Ended(tasks[id]) && Before(tasks[id].lastSeenAt, cutoff) ::
          tasks[id].title == "" && tasks[id].workspace == None && tasks[id].updatedAt == None
    {
      var times := map id | id in tasks && Outbox.Compactable(tasks[id], cutoff) :: Nanos(tasks[id].lastSeenAt);
      chosen := OldestFirst(times, Outbox.COMPACT_BATCH);
      tasks := Outbox.CompactTables(Outbox.Tables(initialized, tasks, pending), chosen).tasks;
    }
  }

  /** A task that was completed or has failed. */
  predicate Ended(row: Outbox.TaskRow) {
    row.status == Completed || row.status == Failed
  }

  /** ORDER BY time LIMIT: as many keys as the bound allows, none of them newer than a key left out. */
  method OldestFirst(times: map<string, nat>, limit: nat) returns (chosen: set<string>)
    ensures chosen <= times.Keys && |chosen| <= limit
    ensures forall id <- times | id !in chosen :: |chosen| == limit && forall c <- chosen :: times[c] <= times[id]
  {
    var rest := times.Keys;
    chosen := {};
    while |chosen| < limit && rest != {}
      invariant chosen !! rest && chosen + rest == times.Keys
      invariant |chosen| <= limit
      invariant forall c <- chosen, id <- rest :: times[c] <= times[id]
      decreases rest
    {
      LeastExists(times, rest);
      var id :| id in rest && forall other <- rest :: times[id] <= times[other];
      chosen, rest := chosen + {id}, rest - {id};
    }
  }

  lemma {:induction false} ErrorsStick(
      before: Outbox.Tables, list: seq<TaskSummary>, at: Instant, ids: seq<string>, i: nat)
    requires |ids| == |list| && i <= |list|
    requires Outbox.ObserveTasks(before, list[..i], at, ids[..i]).Err?
    ensures Outbox.ObserveTasks(before, list, at, ids).Err?
    decreases |list| - i
  {
    if i < |list| {
      assert list[..i + 1][..i] == list[..i] && ids[..i + 1][..i] == ids[..i];
      ErrorsStick(before, list, at, ids, i + 1);
    } else {
      assert list[..i] == list && ids[..i] == ids;
    }
  }

  lemma {:induction false} LeastExists(times: map<string, nat>, ids: set<string>)
    requires ids != {} && ids <= times.Keys
    ensures exists id <- ids :: forall other <- ids :: times[id] <= times[other]
    decreases ids
  {
    var id :| id in ids;
    var rest := ids - {id};
    var best := id;
    if rest != {} {
      LeastExists(times, rest);
      var least :| least in rest && forall other <- rest :: times[least] <= times[other];
      best := if times[id] <= times[least] then id else least;
    }
    forall other <- ids ensures times[best] <= times[other] {
      assert other == id || other in rest;
    }
  }
}
