/**
 The phone's side of a poll: it persists the new cursor before it acts on a page, and speaks of what arrived.
 Old events are not spoken one by one; a catch-up ends in at most one summary, and owes one exactly when it
 held an old event.
 */
module PhoneApp {
  import opened Domain
  import opened HubStore
  import opened Hub
  import opened Feed
  import Pipeline

  /** What one handled poll depends on besides its page: the switches, the local minute, the clock in milliseconds. */
  datatype Settings = Settings(completedVoice: bool, failedVoice: bool, quietHours: bool, minute: int, now: int)

  datatype EventSync = EventSync(page: EventPage, baseline: bool, rebased: bool, cursor: nat)

  datatype Utterance = Speak(row: Row) | Summary

  const PAGE_LIMIT := 100
  const MAX_SPEECH_AGE := 600_000
  const MAX_SKEW := 300_000

  // ---------- The notification policy ----------

  predicate QuietMinute(minute: int) {
    var m := if minute < 0 then 0 else if minute > 1439 then 1439 else minute;
    m >= 1380 || m < 480
  }

  predicate QuietNow(s: Settings) {
    s.quietHours && QuietMinute(s.minute)
  }

  predicate VoiceOn(s: Settings, row: Row) {
    if row.event.kind == TaskCompleted then s.completedVoice else s.failedVoice
  }

  /** `at` is the phone's reading of occurredAt, in milliseconds. */
  predicate TooOld(s: Settings, row: Row, at: Row -> int) {
    s.now - at(row) > MAX_SPEECH_AGE
  }

  predicate ShouldSpeak(s: Settings, row: Row, at: Row -> int) {
    VoiceOn(s, row) && !QuietNow(s) && !TooOld(s, row, at) && s.now - at(row) >= -MAX_SKEW
  }

  predicate CountsAsOld(s: Settings, row: Row, at: Row -> int) {
    VoiceOn(s, row) && !QuietNow(s) && TooOld(s, row, at)
  }

  predicate HasOld(s: Settings, rows: seq<Row>, at: Row -> int) {
    exists row :: row in rows && CountsAsOld(s, row, at)
  }

  function Items(s: Settings, rows: seq<Row>, at: Row -> int): seq<Utterance> {
    if rows == [] then []
    else
      var n := |rows| - 1;
      Items(s, rows[..n], at) + (if ShouldSpeak(s, rows[n], at) then [Speak(rows[n])] else [])
  }

  lemma OneMoreRow(s: Settings, rows: seq<Row>, i: nat, at: Row -> int)
    requires i < |rows|
    ensures HasOld(s, rows[..i + 1], at) <==> HasOld(s, rows[..i], at) || CountsAsOld(s, rows[i], at)
    ensures Items(s, rows[..i + 1], at)
        == Items(s, rows[..i], at) + (if ShouldSpeak(s, rows[i], at) then [Speak(rows[i])] else [])
  {
    assert rows[..i + 1][..i] == rows[..i] && rows[..i + 1] == rows[..i] + [rows[i]];
  }

  predicate CaughtUp(page: EventPage) {
    page.nextAfter >= page.latestSeq
  }

  // ---------- The program ----------

  class EventClient {
    var cursorServer: Option<string>
    var cursor: Option<int>
    var oldPending: bool
    var spoken: seq<Utterance>

    constructor ()
      ensures cursorServer == None && cursor == None && !oldPending && spoken == []
    {
      cursorServer, cursor, oldPending, spoken := None, None, false, [];
    }

    /** The cursor persisted for a server; a cursor of another server does not count. */
    function Persisted(server: string): Option<nat>
      reads this
    {
      if cursorServer == Some(server) && cursor.Some? then Some(if cursor.value < 0 then 0 else cursor.value) else None
    }

    /**
     One exchange: `fetch` is the hub's answer to a cursor and a limit. `saved` is whether the cursor reached the
     disk; an unsaved one may still be in effect (`kept`).
     */
    method SyncEvents(server: string, fetch: (nat, nat) -> Result<EventPage>, saved: bool, kept: bool)
      returns (r: Result<EventSync>)
      modifies this`cursorServer, this`cursor
      ensures var before := old(Persisted(server));
        var answer := fetch(before.GetOr(0), if before.Some? then PAGE_LIMIT else 1);
        && (r.Ok? <==> answer.Ok? && saved)
        && (answer.Ok? && (saved || kept) ==> Persisted(server) == Some(Exchanged(before, answer.value).cursor))
        && (answer.Err? || (!saved && !kept) ==> cursor == old(cursor) && cursorServer == old(cursorServer))
        && (r.Ok? ==> r.value == Exchanged(before, answer.value))
    {
      var hasCursor := cursorServer == Some(server) && cursor.Some?;
      var after: nat := if hasCursor && cursor.value > 0 then cursor.value else 0;
      var answer := fetch(after, if hasCursor then PAGE_LIMIT else 1);
      if answer.Err? {
        return Err;
      }
      var page := answer.value;
      var rebased := hasCursor && RequiresRebase(page, after);
      var baseline := !hasCursor || rebased;
      var nextCursor := if baseline then page.latestSeq else page.nextAfter;
      if saved || kept {
        cursorServer, cursor := Some(server), Some(nextCursor);
      }
      if !saved {
        return Err;
      }
      return Ok(EventSync(page, baseline, rebased, nextCursor));
    }

    /** The loop over the events of a page. */
    method HandleEvents(rows: seq<Row>, s: Settings, at: Row -> int)
      modifies this`oldPending, this`spoken
      ensures spoken == old(spoken) + Items(s, rows, at)
      ensures oldPending <==> old(oldPending) || HasOld(s, rows, at)
    {
      var quietNow, i := QuietNow(s), 0;
      while i < |rows|
        invariant 0 <= i <= |rows|
        invariant spoken == old(spoken) + Items(s, rows[..i], at)
        invariant oldPending <==> old(oldPending) || HasOld(s, rows[..i], at)
      {
        OneMoreRow(s, rows, i, at);
        var row := rows[i];
        if ShouldSpeak(s, row, at) {
          spoken := spoken + [Speak(row)];
        } else if VoiceOn(s, row) && !quietNow && TooOld(s, row, at) {
          oldPending := true;
        }
        i := i + 1;
      }
      assert rows[..i] == rows;
    }

    method HandleEventSync(sync: EventSync, s: Settings, at: Row -> int)
      modifies this`oldPending, this`spoken
      ensures oldPending == PendingAfter(old(oldPending), sync, s, at)
      ensures spoken == old(spoken) + Said(old(oldPending), sync, s, at)
    {
      if sync.baseline {
        oldPending := false;
        return;
      }
      var quietNow := QuietNow(s);
      HandleEvents(sync.page.events, s, at);
      var caughtUp := sync.page.nextAfter >= sync.page.latestSeq;
      if caughtUp && oldPending && !quietNow {
        spoken := spoken + [Summary];
        oldPending := false;
      }
    }
  }

  predicate Baseline(before: Option<nat>, page: EventPage) {
    before.None? || RequiresRebase(page, before.value)
  }

  function NextCursor(before: Option<nat>, page: EventPage): nat {
    if Baseline(before, page) then page.latestSeq else page.nextAfter
  }

  /** What an exchange hands on to be handled. */
  function Exchanged(before: Option<nat>, page: EventPage): EventSync {
    EventSync(page, Baseline(before, page), before.Some? && Baseline(before, page), NextCursor(before, page))
  }

  predicate Owes(pending: bool, sync: EventSync, s: Settings, at: Row -> int) {
    pending || HasOld(s, sync.page.events, at)
  }

  predicate PendingAfter(pending: bool, sync: EventSync, s: Settings, at: Row -> int) {
    !sync.baseline && Owes(pending, sync, s, at) && !(CaughtUp(sync.page) && !QuietNow(s))
  }

  function Said(pending: bool, sync: EventSync, s: Settings, at: Row -> int): seq<Utterance> {
    if sync.baseline then []
    else
      Items(s, sync.page.events, at)
      + (if CaughtUp(sync.page) && Owes(pending, sync, s, at) && !QuietNow(s) then [Summary] else [])
  }

  // ---------- When the phone keeps its place ----------

  /** First contact: nothing of the page is handled, and the cursor is the newest number. */
  lemma FirstContactStartsAtNewest(page: EventPage)
    ensures Exchanged(None, page) == EventSync(page, true, false, page.latestSeq)
  {
  }

  /**
   A resumed poll starts over, at the newest number, if and only if the table ends below the cursor or begins more
   than one above it. An up-to-date phone therefore never does, however often it polls.
   */
  lemma RebasedExactly(oldest: nat, live: seq<Row>, after: nat, limit: nat)
    requires Ascending(live) && limit >= 1
    ensures var page := Respond(oldest, live, after, limit);
      var sync := Exchanged(Some(after), page);
      && sync.page == page && (sync.rebased <==> sync.baseline)
      && (sync.rebased <==> Latest(live) < after || (oldest > 0 && after < oldest - 1))
      && (sync.rebased ==> sync.cursor == Latest(live))
  {
    RowsAfterExactly(live, after);
  }

  lemma RowsAfterExactly(live: seq<Row>, after: nat)
    requires Ascending(live)
    ensures Since(live, after) == [] <==> Latest(live) <= after
  {
    RankSplits(live, after);
    SinceIsSlice(live, after, Rank(live, after));
  }

  /**
   A resumed poll of a table that ends at or above the cursor, under a floor at most one above it: the cursor moves
   to the last row of the page, or stays, and every row is given to the voice policy. A summary that is owed stays
   owed until the phone has caught up outside quiet hours.
   */
  lemma ResumedPollGoesOn(
      oldest: nat, live: seq<Row>, after: nat, limit: nat, pending: bool, s: Settings, at: Row -> int)
    requires Ascending(live) && limit >= 1 && after <= Latest(live) && (oldest == 0 || after >= oldest - 1)
    ensures var page := Respond(oldest, live, after, limit);
      var sync := Exchanged(Some(after), page);
      && !sync.baseline && !sync.rebased
      && sync.cursor == (if page.events == [] then after else page.events[|page.events| - 1].seqNo)
      && (forall row :: row in page.events && ShouldSpeak(s, row, at) ==> Speak(row) in Said(pending, sync, s, at))
      && (forall row :: row in page.events && CountsAsOld(s, row, at) ==> Owes(pending, sync, s, at))
      && (pending && (sync.cursor < Latest(live) || QuietNow(s)) ==> PendingAfter(pending, sync, s, at))
  {
    RebasedExactly(oldest, live, after, limit);
    forall row | row in Respond(oldest, live, after, limit).events && ShouldSpeak(s, row, at)
      ensures Speak(row) in Items(s, Respond(oldest, live, after, limit).events, at)
    {
      ItemSpoken(s, Respond(oldest, live, after, limit).events, at, row);
    }
  }

  lemma {:induction false} ItemSpoken(s: Settings, rows: seq<Row>, at: Row -> int, row: Row)
    requires row in rows && ShouldSpeak(s, row, at)
    ensures Speak(row) in Items(s, rows, at)
  {
    var n := |rows| - 1;
    if row != rows[n] {
      ItemSpoken(s, rows[..n], at, row);
    }
  }

  // ---------- The policy in minutes and milliseconds ----------

  /** Quiet hours are from 23:00 to 8:00. */
  lemma QuietExactly(minute: int)
    ensures QuietMinute(minute) <==> !(8 * 60 <= minute < 23 * 60)
  {
  }

  /**
   A row of a page that is handled is spoken exactly when its kind is switched on, it is not quiet, and it happened
   at most ten minutes ago and at most five minutes in the future.
   */
  lemma SpokenExactly(pending: bool, sync: EventSync, s: Settings, at: Row -> int, row: Row)
    ensures Speak(row) in Said(pending, sync, s, at) <==>
      && !sync.baseline && row in sync.page.events
      && (row.event.kind == TaskCompleted ==> s.completedVoice) && (row.event.kind == TaskFailed ==> s.failedVoice)
      && (s.quietHours ==> 8 * 60 <= s.minute < 23 * 60)
      && -5 * 60 * 1000 <= s.now - at(row) <= 10 * 60 * 1000
  {
    ItemsAreSpoken(s, sync.page.events, at);
    if row in sync.page.events && ShouldSpeak(s, row, at) {
      ItemSpoken(s, sync.page.events, at, row);
    }
  }

  /** What is spoken of the rows, `who`, comes in their order, each once. */
  lemma {:induction false} SpokenInOrder(s: Settings, rows: seq<Row>, at: Row -> int) returns (who: seq<nat>)
    ensures |who| == |Items(s, rows, at)| && forall j, k :: 0 <= j < k < |who| ==> who[j] < who[k]
    ensures forall k :: 0 <= k < |who| ==> who[k] < |rows| && Items(s, rows, at)[k] == Speak(rows[who[k]])
    ensures forall i :: 0 <= i < |rows| ==> (i in who <==> ShouldSpeak(s, rows[i], at))
  {
    who := [];
    if rows != [] {
      var n := |rows| - 1;
      who := SpokenInOrder(s, rows[..n], at);
      forall i | 0 <= i < n ensures i in who <==> ShouldSpeak(s, rows[i], at) {
        assert rows[..n][i] == rows[i];
      }
      if ShouldSpeak(s, rows[n], at) {
        who := who + [n];
      }
    }
  }

  /** A page makes a summary owed exactly by a row that is not spoken for its age alone. */
  lemma OldExactly(s: Settings, rows: seq<Row>, at: Row -> int)
    ensures HasOld(s, rows, at) <==>
      exists row :: row in rows
        && (row.event.kind == TaskCompleted ==> s.completedVoice) && (row.event.kind == TaskFailed ==> s.failedVoice)
        && (s.quietHours ==> 8 * 60 <= s.minute < 23 * 60) && s.now - at(row) > 10 * 60 * 1000
  {
  }

  // ---------- The exchange is the step of the pipeline ----------

  /** What the phone persists is what the pipeline's step persists. */
  lemma SyncIsAdopt(p: Pipeline.Phone, page: EventPage, torn: bool, delivered: bool)
    requires p.fetch == Pipeline.PageRead(p.cursor.GetOr(0), p.cursor.Some?, page, torn)
    ensures Pipeline.Adopt(p, delivered).cursor == Some(NextCursor(p.cursor, page))
    ensures Baseline(p.cursor, page) ==> Pipeline.Adopt(p, delivered).handled == p.handled
    ensures !Baseline(p.cursor, page) && delivered ==> Pipeline.Adopt(p, delivered).handled == p.handled + page.events
  {
  }

  // ---------- Over a run of polls ----------

  datatype Poll = Poll(sync: EventSync, settings: Settings)

  function PendingOver(polls: seq<Poll>, at: Row -> int): bool {
    if polls == [] then false
    else
      var last := polls[|polls| - 1];
      PendingAfter(PendingOver(polls[..|polls| - 1], at), last.sync, last.settings, at)
  }

  /** A poll after which nothing is owed: a baseline, or the end of a catch-up outside quiet hours. */
  predicate Settles(p: Poll) {
    p.sync.baseline || (CaughtUp(p.sync.page) && !QuietNow(p.settings))
  }

  predicate BringsOld(p: Poll, at: Row -> int) {
    !p.sync.baseline && HasOld(p.settings, p.sync.page.events, at)
  }

  /** An old event came in at poll `k`, and no poll from then on has settled it. */
  ghost predicate OwedSince(polls: seq<Poll>, k: nat, at: Row -> int) {
    k < |polls| && BringsOld(polls[k], at) && forall j :: k <= j < |polls| ==> !Settles(polls[j])
  }

  /** A summary is owed exactly when an old event came in since the last poll that settled. */
  lemma {:induction false} OwedExactly(polls: seq<Poll>, at: Row -> int)
    ensures PendingOver(polls, at) <==> exists k: nat :: OwedSince(polls, k, at)
  {
    if polls != [] {
      var n := |polls| - 1;
      OwedExactly(polls[..n], at);
      if exists k: nat :: OwedSince(polls[..n], k, at) {
        var k: nat :| OwedSince(polls[..n], k, at);
        if !Settles(polls[n]) {
          forall j | k <= j < |polls| ensures !Settles(polls[j]) {
            assert j < n ==> polls[j] == polls[..n][j];
          }
          assert OwedSince(polls, k, at);
        }
      }
      if BringsOld(polls[n], at) && !Settles(polls[n]) {
        assert OwedSince(polls, n, at);
      }
      forall k: nat | OwedSince(polls, k, at) && k < n ensures OwedSince(polls[..n], k, at) {
      }
    }
  }

  /**
   The poll that ends a catch-up outside quiet hours speaks the summary, once, exactly when an old event came in
   with it or since the last settled poll; and no old event is spoken by itself.
   */
  lemma OneSummaryPerCatchUp(polls: seq<Poll>, p: Poll, at: Row -> int)
    ensures var said := Said(PendingOver(polls, at), p.sync, p.settings, at);
      && (Summary in said <==>
            !p.sync.baseline && Settles(p) && (BringsOld(p, at) || exists k: nat :: OwedSince(polls, k, at)))
      && (forall i :: 0 <= i < |said| && said[i] == Summary ==> i == |said| - 1)
      && (forall u :: u in said && u.Speak? ==> u.row in p.sync.page.events && !TooOld(p.settings, u.row, at))
  {
    OwedExactly(polls, at);
    ItemsAreSpoken(p.settings, p.sync.page.events, at);
    var items := Items(p.settings, p.sync.page.events, at);
    forall i | 0 <= i < |items| ensures items[i] != Summary {
      assert items[i] in items;
    }
  }

  lemma {:induction false} ItemsAreSpoken(s: Settings, rows: seq<Row>, at: Row -> int)
    ensures forall u :: u in Items(s, rows, at) ==> u.Speak? && u.row in rows && ShouldSpeak(s, u.row, at)
  {
    if rows != [] {
      ItemsAreSpoken(s, rows[..|rows| - 1], at);
    }
  }
}
