/**
 What the lines of the turn log mean for a session: the event names and status words behind the fold, over all
 lines of all sessions as they come.
 */
module TurnLines {
  import opened Domain
  import opened TurnLog

  /** The state of a session after these lines. */
  function StateOf(lines: seq<Line>, session: string): State {
    Fold(Lines(EntriesOf(lines), session))
  }

  lemma OneMoreLine(lines: seq<Line>, session: string)
    requires lines != []
    ensures var n := |lines| - 1;
      StateOf(lines, session)
      == if lines[n].session == session then Apply(StateOf(lines[..n], session), EntryOf(lines[n]))
         else StateOf(lines[..n], session)
  {
    var n := |lines| - 1;
    assert EntriesOf(lines) == EntriesOf(lines[..n]) + [EntryOf(lines[n])];
    LinesSnoc(EntriesOf(lines[..n]), EntryOf(lines[n]), session);
    FoldOneMore(Lines(EntriesOf(lines[..n]), session), EntryOf(lines[n]));
  }

  /** Line `i` is the last of its kind. */
  ghost predicate LastOf(lines: seq<Line>, kind: Line -> bool, i: nat) {
    i < |lines| && kind(lines[i]) && forall j :: i < j < |lines| ==> !kind(lines[j])
  }

  /** There is a line of the kind, and the last of them is such. */
  ghost predicate LastIs(lines: seq<Line>, kind: Line -> bool, such: Line -> bool) {
    exists i: nat :: LastOf(lines, kind, i) && such(lines[i])
  }

  lemma LastIsSnoc(lines: seq<Line>, kind: Line -> bool, such: Line -> bool)
    requires lines != []
    ensures LastIs(lines, kind, such)
       <==> if kind(lines[|lines| - 1]) then such(lines[|lines| - 1]) else LastIs(lines[..|lines| - 1], kind, such)
  {
    var n := |lines| - 1;
    if kind(lines[n]) {
      assert LastOf(lines, kind, n);
    } else {
      forall i: nat | i < n ensures LastOf(lines, kind, i) <==> LastOf(lines[..n], kind, i) {
        assert forall j :: 0 <= j < n ==> lines[..n][j] == lines[j];
      }
    }
  }

  // ---------- Turns ----------

  predicate StartsTurn(l: Line) {
    l.event == "turn.started"
  }

  predicate FinishesTurn(l: Line) {
    l.event == "turn.completed" || l.event == "turn.failed" || l.event == "turn.cancelled" || l.event == "turn.canceled"
  }

  function TurnLineOf(session: string): Line -> bool {
    (l: Line) => l.session == session && (StartsTurn(l) || FinishesTurn(l))
  }

  /** A turn is open exactly when the session's last line that starts or finishes one starts it. */
  lemma {:induction false} OpenExactly(lines: seq<Line>, session: string)
    ensures StateOf(lines, session).open <==> LastIs(lines, TurnLineOf(session), StartsTurn)
  {
    if lines != [] {
      OpenExactly(lines[..|lines| - 1], session);
      OneMoreLine(lines, session);
      LastIsSnoc(lines, TurnLineOf(session), StartsTurn);
      OpenAfter(StateOf(lines[..|lines| - 1], session), lines[|lines| - 1]);
    }
  }

  lemma OpenAfter(s: State, l: Line)
    ensures Apply(s, EntryOf(l)).open <==> if StartsTurn(l) || FinishesTurn(l) then StartsTurn(l) else s.open
  {
  }

  // ---------- Background tasks ----------

  predicate RunningWord(word: string) {
    Underscored(word) in [
      "running", "in_progress", "inprogress", "active", "working", "executing", "streaming", "in_flight", "inflight"]
  }

  predicate WaitingWord(word: string) {
    Underscored(word) in ["waiting", "queued", "pending", "ready", "todo"]
  }

  predicate FailedWord(word: string) {
    Underscored(word) in ["failed", "failure", "error", "errored"]
  }

  predicate CompletedWord(word: string) {
    Underscored(word) in ["completed", "complete", "done", "success", "succeeded", "finished"]
  }

  predicate StoppedWord(word: string) {
    word in ["cancelled", "canceled", "stopped", "killed", "terminated"]
  }

  predicate WorkWord(word: string) {
    RunningWord(word) || WaitingWord(word)
  }

  predicate EndWord(word: string) {
    FailedWord(word) || CompletedWord(word) || StoppedWord(word)
  }

  lemma WaitingApart(word: string)
    requires WaitingWord(word)
    ensures !RunningWord(word)
  {
  }

  lemma FailedApart(word: string)
    requires FailedWord(word)
    ensures !RunningWord(word) && !WaitingWord(word)
  {
  }

  lemma CompletedApart(word: string)
    requires CompletedWord(word)
    ensures !RunningWord(word) && !WaitingWord(word) && !FailedWord(word)
  {
  }

  lemma StoppedHasNoGap(word: string, i: nat)
    requires StoppedWord(word) && i < |word|
    ensures 'a' <= word[i] <= 'z'
  {
  }

  lemma StoppedIsPlain(word: string)
    requires StoppedWord(word)
    ensures Underscored(word) == word
  {
    forall i | 0 <= i < |word| ensures !IsGap(word[i]) {
      StoppedHasNoGap(word, i);
    }
    Plain(word);
  }

  lemma StoppedApart(word: string)
    requires StoppedWord(word)
    ensures !RunningWord(word) && !WaitingWord(word)
  {
    StoppedIsPlain(word);
    StoppedInNeither(word);
  }

  lemma StoppedInNeither(word: string)
    requires StoppedWord(word)
    ensures word !in [
      "running", "in_progress", "inprogress", "active", "working", "executing", "streaming", "in_flight", "inflight"]
    ensures word !in ["waiting", "queued", "pending", "ready", "todo"]
  {
  }

  /** The words for each status of a task. */
  lemma WordsMean(word: string)
    ensures NormalizeStatus(word) == Running <==> RunningWord(word)
    ensures NormalizeStatus(word) == Waiting <==> WaitingWord(word)
    ensures NormalizeStatus(word) == Failed <==> FailedWord(word)
    ensures NormalizeStatus(word) == Completed <==> CompletedWord(word)
  {
    if WaitingWord(word) {
      WaitingApart(word);
    }
    if FailedWord(word) {
      FailedApart(word);
    }
    if CompletedWord(word) {
      CompletedApart(word);
    }
  }

  /** Which words say that a background task works, and which that it has ended; any other says nothing. */
  lemma SignalsMean(word: string)
    ensures SignalOf(word) == SignalRunning <==> WorkWord(word)
    ensures SignalOf(word) == SignalTerminal <==> EndWord(word)
    ensures !(WorkWord(word) && EndWord(word))
  {
    WordsMean(word);
    if StoppedWord(word) {
      StoppedApart(word);
    }
  }

  predicate IsGap(c: char) {
    c == ' ' || c == '\t' || c == '\n' || c == '\r' || c == '-' || c as int == 12
  }

  lemma {:induction false} Plain(s: string)
    requires forall i :: 0 <= i < |s| ==> !IsGap(s[i])
    ensures Underscored(s) == s
  {
    if s != "" {
      Plain(s[1..]);
      assert s == [s[0]] + s[1..];
    }
  }

  lemma {:induction false} GapIsUnderscore(gap: string, rest: string)
    requires gap != "" && (forall i :: 0 <= i < |gap| ==> IsGap(gap[i])) && (rest != "" ==> !IsGap(rest[0]))
    ensures Underscored(gap + rest) == "_" + Underscored(rest)
  {
    assert (gap + rest)[1..] == gap[1..] + rest;
    if |gap| > 1 {
      GapIsUnderscore(gap[1..], rest);
    } else {
      assert gap[1..] + rest == rest;
    }
  }

  /** A stretch of white space and dashes between words counts as one underscore. */
  lemma {:induction false} GapsAreUnderscores(word: string, gap: string, rest: string)
    requires forall i :: 0 <= i < |word| ==> !IsGap(word[i])
    requires gap != "" && (forall i :: 0 <= i < |gap| ==> IsGap(gap[i])) && (rest != "" ==> !IsGap(rest[0]))
    ensures Underscored(word + gap + rest) == word + "_" + Underscored(rest)
  {
    if word == "" {
      assert word + gap + rest == gap + rest && word + "_" == "_";
      GapIsUnderscore(gap, rest);
    } else {
      var whole := word + gap + rest;
      assert whole[1..] == word[1..] + gap + rest;
      GapsAreUnderscores(word[1..], gap, rest);
      assert word == [word[0]] + word[1..];
    }
  }

  /** The line gives the background task a status that is understood. */
  predicate TaskLine(l: Line, id: string) {
    l.event == "session.updated" && l.taskId == id && id != "" && (WorkWord(l.status) || EndWord(l.status))
  }

  function TaskLineOf(session: string, id: string): Line -> bool {
    (l: Line) => l.session == session && TaskLine(l, id)
  }

  function Works(): Line -> bool {
    (l: Line) => WorkWord(l.status)
  }

  lemma NoWord()
    ensures !WorkWord("") && !EndWord("")
  {
  }

  /** What a status update is to the fold. */
  lemma UpdateMeans(l: Line)
    requires l.event == "session.updated"
    ensures KindOf(l) == if !TaskLine(l, l.taskId) then (if l.taskId == "" || l.status == "" then Touch else Nothing)
                         else if WorkWord(l.status) then TaskRuns(l.taskId) else TaskEnds(l.taskId)
  {
    SignalsMean(l.status);
    NoWord();
  }

  lemma TaskAfter(s: State, l: Line, id: string)
    ensures id in Apply(s, EntryOf(l)).tasks <==> if TaskLine(l, id) then WorkWord(l.status) else id in s.tasks
  {
    if l.event == "session.updated" {
      UpdateMeans(l);
      AdvanceTasks(s, KindOf(l), l.timestamp, id);
    } else {
      assert !KindOf(l).TaskRuns? && !KindOf(l).TaskEnds?;
    }
  }

  lemma AdvanceTasks(s: State, kind: Kind, t: int, id: string)
    ensures id in Advance(s, kind, t).tasks
       <==> kind == TaskRuns(id) || (id in s.tasks && kind != TaskEnds(id))
  {
  }

  /** A background task runs exactly when the last understood status of it is one of work. */
  lemma {:induction false} TaskRunsExactly(lines: seq<Line>, session: string, id: string)
    ensures id in StateOf(lines, session).tasks <==> LastIs(lines, TaskLineOf(session, id), Works())
  {
    if lines != [] {
      TaskRunsExactly(lines[..|lines| - 1], session, id);
      OneMoreLine(lines, session);
      LastIsSnoc(lines, TaskLineOf(session, id), Works());
      TaskAfter(StateOf(lines[..|lines| - 1], session), lines[|lines| - 1], id);
    }
  }

  // ---------- Tracking ----------

  /** The two tracking events count up, to at most 1024, and down, to no less than zero; nothing else counts. */
  lemma TrackedExactly(lines: seq<Line>, session: string)
    requires lines != []
    ensures var n, l := |lines| - 1, lines[|lines| - 1];
      StateOf(lines, session).tracked
      == var before := StateOf(lines[..n], session).tracked;
         if l.session == session && l.event == "background_task.tracking.started"
         then (if before < 1024 then before + 1 else before)
         else if l.session == session && l.event == "background_task.tracking.terminal"
         then (if before > 0 then before - 1 else 0)
         else before
  {
    OneMoreLine(lines, session);
    TrackedAfter(StateOf(lines[..|lines| - 1], session), lines[|lines| - 1]);
  }

  lemma TrackedAfter(s: State, l: Line)
    ensures Apply(s, EntryOf(l)).tracked
         == if l.event == "background_task.tracking.started"
            then (if s.tracked < 1024 then s.tracked + 1 else s.tracked)
            else if l.event == "background_task.tracking.terminal" then (if s.tracked > 0 then s.tracked - 1 else 0)
            else s.tracked
  {
    if l.event == "session.updated" {
      UpdateMeans(l);
    }
  }

  // ---------- Last activity ----------

  /** Lines that are activity whatever the session does. */
  predicate AlwaysActivity(l: Line) {
    || StartsTurn(l) || FinishesTurn(l) || TaskLine(l, l.taskId)
    || l.event == "background_task.tracking.started" || l.event == "background_task.tracking.terminal"
  }

  /** Lines that refresh a session at work, even with an earlier time. */
  predicate Refreshing(l: Line) {
    || (l.event == "session.updated" && (l.taskId == "" || l.status == ""))
    || l.event == "background_task.notification.enqueued"
    || l.event == "background_task.notification.runtime_enqueued"
  }

  /** Lines about something else; they refresh a session at work if they are later than what it has. */
  predicate OtherLine(l: Line) {
    !AlwaysActivity(l) && !Refreshing(l) && l.event != "session.updated"
  }

  predicate AtWork(s: State) {
    s.open || s.tasks != {} || s.tracked > 0
  }

  ghost predicate IsActivity(lines: seq<Line>, session: string, i: nat) {
    i < |lines| && lines[i].session == session &&
    var l, before := lines[i], StateOf(lines[..i], session);
    || AlwaysActivity(l)
    || (AtWork(before) && Refreshing(l))
    || (AtWork(before) && OtherLine(l) && (before.updatedAt == 0 || l.timestamp > before.updatedAt))
  }

  ghost predicate LastActivity(lines: seq<Line>, session: string, i: nat) {
    IsActivity(lines, session, i) && forall j: nat :: i < j < |lines| ==> !IsActivity(lines, session, j)
  }

  /** Kinds of entries that set the time whatever the session does. */
  predicate SetsTime(kind: Kind) {
    kind.TurnStarts? || kind.TurnEnds? || kind.TaskRuns? || kind.TaskEnds? || kind.TrackingStarts? || kind.TrackingEnds?
  }

  lemma AdvanceTime(s: State, kind: Kind, t: int)
    ensures Advance(s, kind, t).updatedAt
         == if SetsTime(kind) || (AtWork(s) && kind.Touch?)
               || (AtWork(s) && kind.Other? && (s.updatedAt == 0 || t > s.updatedAt))
            then t else s.updatedAt
  {
  }

  lemma ActivityMeans(l: Line)
    ensures SetsTime(KindOf(l)) <==> AlwaysActivity(l)
    ensures KindOf(l).Touch? <==> Refreshing(l) && !AlwaysActivity(l)
    ensures KindOf(l).Other? <==> OtherLine(l)
  {
    if l.event == "session.updated" {
      UpdateMeans(l);
    } else {
      assert !TaskLine(l, l.taskId);
    }
  }

  lemma UpdatedAfter(s: State, l: Line)
    ensures Apply(s, EntryOf(l)).updatedAt
         == if AlwaysActivity(l) || (AtWork(s) && Refreshing(l))
               || (AtWork(s) && OtherLine(l) && (s.updatedAt == 0 || l.timestamp > s.updatedAt))
            then l.timestamp else s.updatedAt
  {
    ActivityMeans(l);
    AdvanceTime(s, KindOf(l), l.timestamp);
  }

  lemma EarlierActivity(lines: seq<Line>, session: string, i: nat)
    requires i < |lines| - 1
    ensures IsActivity(lines, session, i) <==> IsActivity(lines[..|lines| - 1], session, i)
  {
    assert lines[..|lines| - 1][..i] == lines[..i];
  }

  lemma LastActivityBefore(lines: seq<Line>, session: string, i: nat)
    requires lines != [] && !IsActivity(lines, session, |lines| - 1) && LastActivity(lines[..|lines| - 1], session, i)
    ensures LastActivity(lines, session, i)
  {
    EarlierActivity(lines, session, i);
    forall j: nat | i < j < |lines| ensures !IsActivity(lines, session, j) {
      if j < |lines| - 1 {
        EarlierActivity(lines, session, j);
      }
    }
  }

  /** The last activity of a session is the time of its last line that is activity; without any it is zero. */
  lemma {:induction false} UpdatedExactly(lines: seq<Line>, session: string)
    ensures
      || (StateOf(lines, session).updatedAt == 0 && forall i: nat :: !IsActivity(lines, session, i))
      || (exists i: nat :: LastActivity(lines, session, i) && StateOf(lines, session).updatedAt == lines[i].timestamp)
  {
    if lines != [] {
      var n := |lines| - 1;
      UpdatedExactly(lines[..n], session);
      OneMoreLine(lines, session);
      UpdatedAfter(StateOf(lines[..n], session), lines[n]);
      if IsActivity(lines, session, n) {
        assert LastActivity(lines, session, n);
      } else if forall i: nat :: !IsActivity(lines[..n], session, i) {
        forall i: nat ensures !IsActivity(lines, session, i) {
          if i < n {
            EarlierActivity(lines, session, i);
          }
        }
      } else {
        var i: nat :| LastActivity(lines[..n], session, i)
                      && StateOf(lines[..n], session).updatedAt == lines[..n][i].timestamp;
        LastActivityBefore(lines, session, i);
      }
    }
  }

  // ---------- Liveness ----------

  /** How long activity counts, in seconds: as configured, half an hour by default, four hours at most. */
  function Window(configured: int): int {
    if configured <= 0 then 1800 else Min(configured, 14400)
  }

  /** A session is live exactly when it is at work and its last activity is within the window, or in the future. */
  lemma LiveExactly(lines: seq<Line>, session: string, now: int, configured: int)
    ensures Active(StateOf(lines, session), now, configured)
       <==> AtWork(StateOf(lines, session)) && StateOf(lines, session).updatedAt != 0
            && now <= StateOf(lines, session).updatedAt + Window(configured) * 1_000_000_000
  {
  }
}
