/**
 The paged event feed: what the hub puts in a page, what the phone checks, and when the phone gives up its
 cursor and starts again from the newest event.
 */
module Feed {
  import opened Domain
  import opened TimeOrder
  import opened HubStore
  import opened Retention
  import opened Hub

  datatype EventPage = EventPage(events: seq<Row>, nextAfter: nat, latestSeq: nat, oldestSeq: nat)

  /** The response, from a floor read first and a page read later. */
  function Assemble(oldest: nat, items: seq<Row>, latest: nat, after: nat): EventPage {
    EventPage(items, if items == [] then after else items[|items| - 1].seqNo, latest, oldest)
  }

  /** The response when the floor is `oldest` and the page is read from `live`. */
  function Respond(oldest: nat, live: seq<Row>, after: nat, limit: nat): EventPage {
    Assemble(oldest, Take(Since(live, after), limit), Latest(live), after)
  }

  /**
   The handler reads the floor and then the page, each under its own lock: `before` is the store as the first
   read finds it, `store` as the second does.
   */
  method HandleEvents(before: Store, store: Store, agentId: string, after: int, limit: int)
    returns (r: Result<EventPage>)
    requires before.Valid() && store.Valid()
    ensures r.Ok? <==> after >= 0 && 1 <= limit <= 100
    ensures r.Ok? ==> r.value == Respond(Oldest(Of(before.events, agentId)), Of(store.events, agentId), after, limit)
  {
    if after < 0 || limit < 1 || limit > 100 {
      return Err;
    }
    var oldest, _, _ := before.EventBounds(agentId);
    var listed := store.ListEvents(agentId, after, limit);
    if listed.Err? {
      return Err;
    }
    var items, latest := listed.value.0, listed.value.1;
    var nextAfter := after;
    if |items| > 0 {
      nextAfter := items[|items| - 1].seqNo;
    }
    return Ok(EventPage(items, nextAfter, latest, oldest));
  }

  // ---------- The phone's checks ----------

  predicate BoundsConsistent(page: EventPage) {
    page.oldestSeq > 0 && page.latestSeq > 0 ==> page.oldestSeq <= page.latestSeq
  }

  ghost predicate FitsRequest(page: EventPage, after: int) {
    && after >= 0
    && Ascending(page.events)
    && (forall r <- page.events :: r.seqNo > after)
    && page.nextAfter == (if page.events == [] then after else page.events[|page.events| - 1].seqNo)
    && (page.events != [] ==> page.latestSeq >= page.nextAfter)
  }

  method ValidateForRequest(page: EventPage, after: int) returns (ok: bool)
    ensures ok <==> FitsRequest(page, after)
  {
    if after < 0 {
      return false;
    }
    var previous, i: int := after, 0;
    while i < |page.events|
      invariant 0 <= i <= |page.events|
      invariant previous == if i == 0 then after else page.events[i - 1].seqNo
      invariant Ascending(page.events[..i])
      invariant forall k :: 0 <= k < i ==> after < page.events[k].seqNo <= previous
    {
      if page.events[i].seqNo <= previous {
        return false;
      }
      previous := page.events[i].seqNo;
      i := i + 1;
    }
    assert page.events[..i] == page.events;
    var expected := if page.events == [] then after else previous;
    if page.nextAfter != expected {
      return false;
    }
    return page.events == [] || page.latestSeq >= page.nextAfter;
  }

  predicate CursorPredatesRetention(page: EventPage, after: nat) {
    page.oldestSeq > 0 && after < page.oldestSeq - 1
  }

  predicate RequiresRebase(page: EventPage, after: nat) {
    (page.events == [] && page.latestSeq < after) || CursorPredatesRetention(page, after)
  }

  // ---------- Cursors and segments ----------

  /** How many rows of an ascending list lie at or below a cursor. */
  function Rank(mine: seq<Row>, after: int): (k: nat)
    ensures k <= |mine|
  {
    if mine == [] || mine[|mine| - 1].seqNo <= after then |mine| else Rank(mine[..|mine| - 1], after)
  }

  /** The rows with `lo < seq <= hi`. */
  function Segment(mine: seq<Row>, lo: nat, hi: nat): seq<Row> {
    if mine == [] then []
    else (if lo < mine[0].seqNo <= hi then [mine[0]] else []) + Segment(mine[1..], lo, hi)
  }

  lemma {:induction false} RankSplits(mine: seq<Row>, after: int)
    requires Ascending(mine)
    ensures forall i :: 0 <= i < Rank(mine, after) ==> mine[i].seqNo <= after
    ensures forall i :: Rank(mine, after) <= i < |mine| ==> mine[i].seqNo > after
  {
    if mine != [] && mine[|mine| - 1].seqNo > after {
      RankSplits(mine[..|mine| - 1], after);
    }
  }

  lemma {:induction false} SinceAll(mine: seq<Row>, after: int)
    ensures (forall i :: 0 <= i < |mine| ==> mine[i].seqNo > after) ==> Since(mine, after) == mine
  {
    if mine != [] {
      SinceAll(mine[1..], after);
    }
  }

  lemma {:induction false} SinceIsSlice(mine: seq<Row>, after: int, k: nat)
    requires k <= |mine|
    requires forall i :: 0 <= i < k ==> mine[i].seqNo <= after
    requires forall i :: k <= i < |mine| ==> mine[i].seqNo > after
    ensures Since(mine, after) == mine[k..]
  {
    if k == 0 {
      SinceAll(mine, after);
    } else {
      SinceIsSlice(mine[1..], after, k - 1);
      assert mine[1..][k - 1..] == mine[k..];
    }
  }

  lemma {:induction false} SegmentIsSlice(mine: seq<Row>, lo: nat, hi: nat, i: nat, j: nat)
    requires i <= j <= |mine|
    requires forall k :: 0 <= k < i ==> mine[k].seqNo <= lo
    requires forall k :: i <= k < j ==> lo < mine[k].seqNo <= hi
    requires forall k :: j <= k < |mine| ==> mine[k].seqNo > hi
    ensures Segment(mine, lo, hi) == mine[i..j]
  {
    if mine != [] {
      if i > 0 {
        SegmentIsSlice(mine[1..], lo, hi, i - 1, j - 1);
        assert mine[1..][i - 1..j - 1] == mine[i..j];
      } else if j > 0 {
        SegmentIsSlice(mine[1..], lo, hi, 0, j - 1);
        assert mine[i..j] == [mine[0]] + mine[1..][0..j - 1];
      } else {
        SegmentIsSlice(mine[1..], lo, hi, 0, 0);
      }
    }
  }

  lemma {:induction false} RankMonotone(mine: seq<Row>, lo: int, hi: int)
    requires lo <= hi
    ensures Rank(mine, lo) <= Rank(mine, hi)
  {
    if mine != [] && mine[|mine| - 1].seqNo > hi {
      RankMonotone(mine[..|mine| - 1], lo, hi);
    }
  }

  /** A segment is contiguous. */
  lemma SegmentByRank(mine: seq<Row>, lo: nat, hi: nat)
    requires Ascending(mine) && lo <= hi
    ensures Rank(mine, lo) <= Rank(mine, hi)
    ensures Segment(mine, lo, hi) == mine[Rank(mine, lo)..Rank(mine, hi)]
  {
    RankSplits(mine, lo);
    RankSplits(mine, hi);
    var i, j := Rank(mine, lo), Rank(mine, hi);
    RankMonotone(mine, lo, hi);
    SegmentIsSlice(mine, lo, hi, i, j);
  }

  lemma SegmentsJoin(mine: seq<Row>, lo: nat, mid: nat, hi: nat)
    requires Ascending(mine) && lo <= mid <= hi
    ensures Segment(mine, lo, mid) + Segment(mine, mid, hi) == Segment(mine, lo, hi)
  {
    SegmentByRank(mine, lo, mid);
    SegmentByRank(mine, mid, hi);
    SegmentByRank(mine, lo, hi);
    JoinSlices(mine, Rank(mine, lo), Rank(mine, mid), Rank(mine, hi));
  }

  lemma JoinSlices(mine: seq<Row>, i: nat, j: nat, k: nat)
    requires i <= j <= k <= |mine|
    ensures mine[i..j] + mine[j..k] == mine[i..k]
  {
  }

  lemma {:induction false} SegmentConcat(a: seq<Row>, b: seq<Row>, lo: nat, hi: nat)
    ensures Segment(a + b, lo, hi) == Segment(a, lo, hi) + Segment(b, lo, hi)
  {
    if a == [] {
      assert a + b == b;
    } else {
      assert (a + b)[1..] == a[1..] + b;
      SegmentConcat(a[1..], b, lo, hi);
    }
  }

  lemma {:induction false} SegmentAbove(b: seq<Row>, lo: nat, hi: nat)
    requires forall i :: 0 <= i < |b| ==> b[i].seqNo > hi
    ensures Segment(b, lo, hi) == []
  {
    if b != [] {
      SegmentAbove(b[1..], lo, hi);
    }
  }

  /** Later rows do not change a segment. */
  lemma SegmentStable(mine: seq<Row>, more: seq<Row>, lo: nat, hi: nat)
    requires forall i :: 0 <= i < |more| ==> more[i].seqNo > hi
    ensures Segment(mine + more, lo, hi) == Segment(mine, lo, hi)
  {
    SegmentConcat(mine, more, lo, hi);
    SegmentAbove(more, lo, hi);
  }

  // ---------- Every page the hub can produce passes the phone's checks ----------

  /**
   The floor may be stale: all that is known is that no live row lies below it. That holds whatever was
   inserted or pruned since it was read.
   */
  lemma PagesAreAccepted(oldest: nat, live: seq<Row>, after: nat, limit: nat)
    requires Ascending(live)
    requires forall i :: 0 <= i < |live| ==> live[i].seqNo >= oldest
    ensures BoundsConsistent(Respond(oldest, live, after, limit))
    ensures FitsRequest(Respond(oldest, live, after, limit), after)
  {
    SinceFacts(live, after);
    var items := Since(live, after);
    forall r <- Take(items, limit) ensures r.seqNo > after {
      assert r in items;
    }
    if live != [] && items != [] {
      assert forall r <- items :: r.seqNo <= live[|live| - 1].seqNo;
    }
  }

  lemma SinceFacts(live: seq<Row>, after: int)
    requires Ascending(live)
    ensures Ascending(Since(live, after))
    ensures forall r <- Since(live, after) :: r in live && after < r.seqNo <= Latest(live)
  {
    var k := Rank(live, after);
    RankSplits(live, after);
    SinceIsSlice(live, after, k);
    SuffixFacts(live, k, after);
  }

  lemma SuffixFacts(live: seq<Row>, k: nat, after: int)
    requires Ascending(live) && k <= |live| && forall i :: k <= i < |live| ==> live[i].seqNo > after
    ensures Ascending(live[k..])
    ensures forall r <- live[k..] :: r in live && after < r.seqNo <= Latest(live)
  {
    assert live == live[..k] + live[k..];
    LiveAscending(live[..k], live[k..]);
  }

  /** Some table, read from the cursor up to some limit, gives the page. */
  ghost predicate FromTable(page: EventPage, after: nat) {
    exists live: seq<Row>, limit: nat :: Ascending(live) && page == Respond(page.oldestSeq, live, after, limit)
  }

  /** The phone's check asks for no more and no less than that: a page passes exactly if it could come from a table. */
  lemma AcceptedExactly(page: EventPage, after: nat)
    ensures FitsRequest(page, after) <==> FromTable(page, after)
  {
    if FitsRequest(page, after) {
      var live := TableOf(page, after);
      assert page == Respond(page.oldestSeq, live, after, |page.events|);
    } else if FromTable(page, after) {
      var live: seq<Row>, limit: nat :| Ascending(live) && page == Respond(page.oldestSeq, live, after, limit);
      ResponseFits(page, live, after, limit);
    }
  }

  lemma ResponseFits(page: EventPage, live: seq<Row>, after: nat, limit: nat)
    requires Ascending(live) && page == Respond(page.oldestSeq, live, after, limit)
    ensures FitsRequest(page, after)
  {
    PagesAreAccepted(0, live, after, limit);
  }

  /** The rows of the page, and one more if the newest number is not the page's last. */
  lemma TableOf(page: EventPage, after: nat) returns (live: seq<Row>)
    requires FitsRequest(page, after)
    ensures Ascending(live) && page == Respond(page.oldestSeq, live, after, |page.events|)
  {
    var events, n := page.events, |page.events|;
    forall i | 0 <= i < n ensures events[i].seqNo > after {
      assert events[i] in events;
    }
    if page.latestSeq == (if n == 0 then 0 else events[n - 1].seqNo) {
      live := events;
      SinceAll(live, after);
    } else {
      var newest := Row(page.latestSeq, "", Civil(1, 1, 1, 0, 0, 0, 0), SOME_EVENT);
      live := events + [newest];
      OneMore(events, newest);
      if page.latestSeq > after {
        SinceAll(live, after);
      } else {
        SinceIsSlice(live, after, 1);
      }
    }
  }

  lemma OneMore(rows: seq<Row>, r: Row)
    requires Ascending(rows) && (rows != [] ==> rows[|rows| - 1].seqNo < r.seqNo)
    ensures Ascending(rows + [r]) && Take(rows + [r], |rows|) == rows && Latest(rows + [r]) == r.seqNo
  {
  }

  const SOME_EVENT := Event("", TaskCompleted, Civil(1, 1, 1, 0, 0, 0, 0), EventTask("", "", None, Completed))

  // ---------- No silent gap ----------

  /** What the floor says about the rows a page is read from, when nothing was pruned in between. */
  ghost predicate FloorHolds(oldest: nat, live: seq<Row>, all: seq<Row>) {
    if oldest > 0 then live != [] && live[0].seqNo == oldest else live == all
  }

  lemma {:induction false} SegmentBelow(b: seq<Row>, lo: nat, hi: nat)
    requires forall i :: 0 <= i < |b| ==> b[i].seqNo <= lo
    ensures Segment(b, lo, hi) == []
  {
    if b != [] {
      SegmentBelow(b[1..], lo, hi);
    }
  }

  /** A page is the segment of the retained rows between the old and the new cursor. */
  lemma PageIsSegment(oldest: nat, live: seq<Row>, after: nat, limit: nat)
    requires Ascending(live) && limit >= 1
    ensures Respond(oldest, live, after, limit).nextAfter >= after
    ensures Respond(oldest, live, after, limit).events
        == Segment(live, after, Respond(oldest, live, after, limit).nextAfter)
  {
    RankSplits(live, after);
    var k := Rank(live, after);
    SinceIsSlice(live, after, k);
    var m := if limit < |live| - k then limit else |live| - k;
    TakenSlice(live, k, limit, m);
    if m > 0 {
      NextRows(live, after, k, m);
    } else {
      SegmentBelow(live, after, after);
    }
  }

  lemma TakenSlice(live: seq<Row>, k: nat, limit: nat, m: nat)
    requires k <= |live| && m == if limit < |live| - k then limit else |live| - k
    ensures Take(live[k..], limit) == live[k..k + m]
    ensures m > 0 ==> live[k..k + m][m - 1] == live[k + m - 1]
  {
  }

  lemma NextRows(live: seq<Row>, after: nat, k: nat, m: nat)
    requires Ascending(live) && 0 < m <= |live| - k
    requires forall i :: 0 <= i < k ==> live[i].seqNo <= after
    requires forall i :: k <= i < |live| ==> live[i].seqNo > after
    ensures Segment(live, after, live[k + m - 1].seqNo) == live[k..k + m]
  {
    SegmentIsSlice(live, after, live[k + m - 1].seqNo, k, k + m);
  }

  /**
   With the retained rows a suffix of everything inserted, a page whose cursor does not predate retention is
   exactly the inserted events after the cursor, up to the new cursor.
   */
  lemma NoSilentGap(oldest: nat, live: seq<Row>, all: seq<Row>, after: nat, limit: nat)
    requires Ascending(all) && SuffixOf(live, all) && FloorHolds(oldest, live, all) && limit >= 1
    requires !CursorPredatesRetention(Respond(oldest, live, after, limit), after)
    ensures Respond(oldest, live, after, limit).nextAfter >= after
    ensures Respond(oldest, live, after, limit).events
        == Segment(all, after, Respond(oldest, live, after, limit).nextAfter)
  {
    var page := Respond(oldest, live, after, limit);
    var gone := all[..|all| - |live|];
    assert all == gone + live;
    LiveAscending(gone, live);
    PageIsSegment(oldest, live, after, limit);
    SegmentConcat(gone, live, after, page.nextAfter);
    GoneBelow(oldest, gone, live, after);
    SegmentBelow(gone, after, page.nextAfter);
  }

  lemma GoneBelow(oldest: nat, gone: seq<Row>, live: seq<Row>, after: nat)
    requires Ascending(gone + live) && FloorHolds(oldest, live, gone + live) && (oldest > 0 ==> after >= oldest - 1)
    ensures forall i :: 0 <= i < |gone| ==> gone[i].seqNo <= after
  {
    if oldest > 0 {
      forall i | 0 <= i < |gone| ensures gone[i].seqNo <= after {
        assert (gone + live)[i] == gone[i] && (gone + live)[|gone|] == live[0];
      }
    } else {
      assert |gone + live| == |live|;
    }
  }

  lemma LiveAscending(gone: seq<Row>, live: seq<Row>)
    requires Ascending(gone + live)
    ensures Ascending(live)
  {
    forall i, j | 0 <= i < j < |live| ensures live[i].seqNo < live[j].seqNo {
      assert (gone + live)[|gone| + i] == live[i] && (gone + live)[|gone| + j] == live[j];
    }
  }

  // ---------- When the floor is stale ----------

  /**
   Whatever floor was reported, a page read from what is left of `gone + live` is complete exactly when it is
   empty or the newest pruned row lies at or below the cursor. A prune between the two reads can break this
   with no rebase.
   */
  lemma PageCompleteExactly(page: EventPage, oldest: nat, gone: seq<Row>, live: seq<Row>, after: nat, limit: nat)
    requires Ascending(gone + live) && limit >= 1 && page == Respond(oldest, live, after, limit)
    ensures page.events == Segment(gone + live, after, page.nextAfter)
      <==> page.events == [] || gone == [] || gone[|gone| - 1].seqNo <= after
  {
    CompleteAgainst(page, oldest, gone, live, after, limit);
    if page.events == [] {
      EmptyAtCursor(gone, after);
    } else if gone != [] {
      PageAboveGone(oldest, gone, live, after, limit);
      PrefixAscending(gone, live);
      NewestGoneDecides(gone, after, page.nextAfter);
    }
  }

  lemma CompleteAgainst(page: EventPage, oldest: nat, gone: seq<Row>, live: seq<Row>, after: nat, limit: nat)
    requires Ascending(gone + live) && limit >= 1 && page == Respond(oldest, live, after, limit)
    ensures page.events == Segment(gone + live, after, page.nextAfter) <==> Segment(gone, after, page.nextAfter) == []
    ensures page.events == [] ==> page.nextAfter == after
  {
    LiveAscending(gone, live);
    PageIsSegment(oldest, live, after, limit);
    SegmentConcat(gone, live, after, page.nextAfter);
  }

  lemma PrefixAscending(gone: seq<Row>, live: seq<Row>)
    requires Ascending(gone + live)
    ensures Ascending(gone)
  {
    forall i, j | 0 <= i < j < |gone| ensures gone[i].seqNo < gone[j].seqNo {
      assert (gone + live)[i] == gone[i] && (gone + live)[j] == gone[j];
    }
  }

  lemma {:induction false} EmptyAtCursor(mine: seq<Row>, at: nat)
    ensures Segment(mine, at, at) == []
  {
    if mine != [] {
      EmptyAtCursor(mine[1..], at);
    }
  }

  lemma PageAboveGone(oldest: nat, gone: seq<Row>, live: seq<Row>, after: nat, limit: nat)
    requires Ascending(gone + live) && gone != [] && limit >= 1 && Respond(oldest, live, after, limit).events != []
    ensures gone[|gone| - 1].seqNo < Respond(oldest, live, after, limit).nextAfter
  {
    LiveAscending(gone, live);
    RankSplits(live, after);
    SinceIsSlice(live, after, Rank(live, after));
    var page := Respond(oldest, live, after, limit);
    var k := Rank(live, after) + |page.events| - 1;
    assert page.nextAfter == live[k].seqNo;
    assert (gone + live)[|gone| - 1] == gone[|gone| - 1] && (gone + live)[|gone| + k] == live[k];
  }

  lemma NewestGoneDecides(gone: seq<Row>, lo: nat, hi: nat)
    requires gone != [] && Ascending(gone) && gone[|gone| - 1].seqNo <= hi
    ensures Segment(gone, lo, hi) == [] <==> gone[|gone| - 1].seqNo <= lo
  {
    var n := |gone| - 1;
    assert gone == gone[..n] + [gone[n]];
    SegmentConcat(gone[..n], [gone[n]], lo, hi);
    if gone[n].seqNo <= lo {
      SegmentBelow(gone, lo, hi);
    }
  }
}
