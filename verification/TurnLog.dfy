/**
 The turn log: interleaved lines fold into one liveness state per session, and only the tail of the two
 newest files is read. Times are nanoseconds since Go's zero time, so 0 is the zero time.
 */
module TurnLog {
  import opened Domain

  const TRACK_CAP := 1024

  /** A decoded line: names are already trimmed and lower-cased; "" stands for a missing field. */
  datatype Line = Line(session: string, timestamp: int, event: string, taskId: string, status: string)

  /** What a line says; `Touch` only refreshes a session that is at work. */
  datatype Kind =
    | TurnStarts | TurnEnds | TaskRuns(id: string) | TaskEnds(id: string)
    | TrackingStarts | TrackingEnds | Touch | Nothing | Other

  datatype Entry = Entry(session: string, timestamp: int, kind: Kind)

  datatype Signal = SignalRunning | SignalTerminal | SignalUnknown

  datatype State = State(open: bool, startedAt: int, updatedAt: int, tasks: set<string>, tracked: nat)

  const IDLE := State(false, 0, 0, {}, 0)

  predicate Busy(s: State) {
    s.open || s.tasks != {} || s.tracked > 0
  }

  // ---------- Status words ----------

  const RUNNING_WORDS := ["running", "in_progress", "inprogress", "active", "working", "executing", "streaming",
      "in_flight", "inflight"]
  const WAITING_WORDS := ["waiting", "queued", "pending", "ready", "todo"]
  const FAILED_WORDS := ["failed", "failure", "error", "errored"]
  const COMPLETED_WORDS := ["completed", "complete", "done", "success", "succeeded", "finished"]
  const STOPPED_WORDS := ["cancelled", "canceled", "stopped", "killed", "terminated"]

  predicate Separator(c: char) {
    c == ' ' || c == '\t' || c == '\n' || c == '\r' || c == '-' || c == 12 as char
  }

  /** Every run of white space and dashes becomes one underscore. */
  function Underscored(s: string): string {
    if s == "" then ""
    else if !Separator(s[0]) then [s[0]] + Underscored(s[1..])
    else if |s| > 1 && Separator(s[1]) then Underscored(s[1..])
    else "_" + Underscored(s[1..])
  }

  function NormalizeStatus(word: string): TaskStatus {
    var w := Underscored(word);
    if w in RUNNING_WORDS then Running
    else if w in WAITING_WORDS then Waiting
    else if w in FAILED_WORDS then Failed
    else if w in COMPLETED_WORDS then Completed
    else Unknown
  }

  function SignalOf(word: string): Signal {
    match NormalizeStatus(word)
    case Running => SignalRunning
    case Waiting => SignalRunning
    case Completed => SignalTerminal
    case Failed => SignalTerminal
    case Unknown => if word in STOPPED_WORDS then SignalTerminal else SignalUnknown
  }

  // ---------- One line ----------

  predicate EndsTurn(event: string) {
    event == "turn.completed" || event == "turn.failed" || event == "turn.cancelled" || event == "turn.canceled"
  }

  predicate Notifies(event: string) {
    event == "background_task.notification.enqueued" || event == "background_task.notification.runtime_enqueued"
  }

  function KindOf(e: Line): Kind {
    if e.event == "turn.started" then TurnStarts
    else if EndsTurn(e.event) then TurnEnds
    else if e.event == "session.updated" then
      if e.taskId != "" && e.status != "" then
        match SignalOf(e.status)
        case SignalRunning => TaskRuns(e.taskId)
        case SignalTerminal => TaskEnds(e.taskId)
        case SignalUnknown => Nothing
      else Touch
    else if e.event == "background_task.tracking.started" then TrackingStarts
    else if e.event == "background_task.tracking.terminal" then TrackingEnds
    else if Notifies(e.event) then Touch
    else Other
  }

  function EntryOf(line: Line): Entry {
    Entry(line.session, line.timestamp, KindOf(line))
  }

  function Advance(s: State, kind: Kind, t: int): State {
    match kind
    case TurnStarts =>
      s.(open := true, startedAt := if !Busy(s) || s.startedAt == 0 then t else s.startedAt, updatedAt := t)
    case TurnEnds => s.(open := false, updatedAt := t)
    case TaskRuns(id) => s.(tasks := s.tasks + {id}, startedAt := if Busy(s) then s.startedAt else t, updatedAt := t)
    case TaskEnds(id) => s.(tasks := s.tasks - {id}, updatedAt := t)
    case TrackingStarts =>
      s.(tracked := if s.tracked < TRACK_CAP then s.tracked + 1 else s.tracked,
         startedAt := if !Busy(s) || s.startedAt == 0 then t else s.startedAt, updatedAt := t)
    case TrackingEnds => s.(tracked := if s.tracked > 0 then s.tracked - 1 else 0, updatedAt := t)
    case Touch => if Busy(s) then s.(updatedAt := t) else s
    case Nothing => s
    case Other => if Busy(s) && (s.updatedAt == 0 || t > s.updatedAt) then s.(updatedAt := t) else s
  }

  function Apply(s: State, e: Entry): State {
    Advance(s, e.kind, e.timestamp)
  }

  /** The state of one session after its lines. */
  function Fold(log: seq<Entry>): State {
    if log == [] then IDLE else Apply(Fold(log[..|log| - 1]), log[|log| - 1])
  }

  /** The lines of one session. */
  function Lines(log: seq<Entry>, session: string): seq<Entry> {
    if log == [] then []
    else
      var n := |log| - 1;
      Lines(log[..n], session) + (if log[n].session == session then [log[n]] else [])
  }

  lemma FoldOneMore(mine: seq<Entry>, e: Entry)
    ensures Fold(mine + [e]) == Apply(Fold(mine), e)
  {
    assert (mine + [e])[..|mine|] == mine;
  }

  /** A session that has lines maps to the fold of its own lines; a session without lines is absent. */
  ghost predicate FoldsAt(states: map<string, State>, log: seq<Entry>, id: string) {
    (id in states <==> Lines(log, id) != []) && (id in states ==> states[id] == Fold(Lines(log, id)))
  }

  ghost predicate FoldsEach(states: map<string, State>, log: seq<Entry>) {
    forall id :: FoldsAt(states, log, id)
  }

  lemma LinesSnoc(log: seq<Entry>, e: Entry, id: string)
    ensures Lines(log + [e], id) == if id == e.session then Lines(log, id) + [e] else Lines(log, id)
  {
    assert (log + [e])[..|log|] == log;
  }

  lemma FoldsOneMore(states: map<string, State>, log: seq<Entry>, e: Entry, next: State)
    requires FoldsEach(states, log)
    requires next == Apply(if e.session in states then states[e.session] else IDLE, e)
    ensures FoldsEach(states[e.session := next], log + [e])
  {
    var after, longer := states[e.session := next], log + [e];
    forall id ensures FoldsAt(after, longer, id) {
      assert FoldsAt(states, log, id);
      LinesSnoc(log, e, id);
      FoldOneMore(Lines(log, id), e);
    }
  }

  function EntriesOf(lines: seq<Line>): (log: seq<Entry>)
    ensures |log| == |lines| && forall i :: 0 <= i < |lines| ==> log[i] == EntryOf(lines[i])
  {
    seq(|lines|, i requires 0 <= i < |lines| => EntryOf(lines[i]))
  }

  /** The loop over the lines of all files. Interleaving does not matter: each session folds its own lines. */
  method ReadTurnStates(lines: seq<Line>) returns (states: map<string, State>)
    ensures FoldsEach(states, EntriesOf(lines))
  {
    ghost var log := EntriesOf(lines);
    states := map[];
    var i := 0;
    while i < |lines|
      invariant 0 <= i <= |lines|
      invariant FoldsEach(states, log[..i])
    {
      var e := EntryOf(lines[i]);
      var next := Apply(if e.session in states then states[e.session] else IDLE, e);
      FoldsOneMore(states, log[..i], e, next);
      assert log[..i] + [e] == log[..i + 1];
      states := states[e.session := next];
      i := i + 1;
    }
    assert log[..i] == log;
  }

  // ---------- Liveness ----------

  function Bounded(value: int, fallback: int, maximum: int): int {
    if value <= 0 then fallback else if value > maximum then maximum else value
  }

  function AgeNanos(now: int, then0: int): nat {
    if then0 > now then 0 else now - then0
  }

  predicate Active(s: State, now: int, freshSeconds: int) {
    Busy(s) && s.updatedAt != 0
    && AgeNanos(now, s.updatedAt) <= Bounded(freshSeconds, 1800, 4 * 3600) * 1_000_000_000
  }

  // ---------- Reading only a tail is conservative ----------

  ghost predicate InOrder(log: seq<Entry>) {
    forall i, j :: 0 <= i < j < |log| ==> log[i].timestamp <= log[j].timestamp
  }

  /** What the folded tail and the folded whole keep between them; `last` bounds every time so far. */
  ghost predicate Simulates(tail: State, whole: State, last: int) {
    && (tail.open ==> whole.open)
    && tail.tasks <= whole.tasks
    && tail.tracked <= whole.tracked <= TRACK_CAP
    && (Busy(tail) ==> tail.updatedAt == whole.updatedAt)
    && (Busy(whole) ==> whole.updatedAt <= last)
  }

  lemma SimulationStep(tail: State, whole: State, last: int, kind: Kind, t: int)
    requires Simulates(tail, whole, last) && last <= t
    ensures Simulates(Advance(tail, kind, t), Advance(whole, kind, t), t)
  {
  }

  lemma {:induction false} WholeIsBounded(log: seq<Entry>, last: int)
    requires InOrder(log) && forall i :: 0 <= i < |log| ==> log[i].timestamp <= last
    ensures Simulates(IDLE, Fold(log), last)
  {
    if log != [] {
      var n := |log| - 1;
      WholeIsBounded(log[..n], log[n].timestamp);
      SimulationStep(IDLE, Fold(log[..n]), log[n].timestamp, log[n].kind, log[n].timestamp);
    }
  }

  lemma {:induction false} TailSimulates(dropped: seq<Entry>, tail: seq<Entry>, last: int)
    requires InOrder(dropped + tail) && forall i :: 0 <= i < |dropped + tail| ==> (dropped + tail)[i].timestamp <= last
    ensures Simulates(Fold(tail), Fold(dropped + tail), last)
    decreases |tail|
  {
    if tail == [] {
      assert dropped + tail == dropped;
      WholeIsBounded(dropped, last);
    } else {
      var n := |tail| - 1;
      var all := dropped + tail;
      assert all[..|all| - 1] == dropped + tail[..n] && all[|all| - 1] == tail[n];
      TailSimulates(dropped, tail[..n], tail[n].timestamp);
      SimulationStep(Fold(tail[..n]), Fold(dropped + tail[..n]), tail[n].timestamp, tail[n].kind, tail[n].timestamp);
    }
  }

  lemma {:induction false} LinesConcat(a: seq<Entry>, b: seq<Entry>, session: string)
    ensures Lines(a + b, session) == Lines(a, session) + Lines(b, session)
  {
    if b == [] {
      assert a + b == a;
    } else {
      assert (a + b)[..|a + b| - 1] == a + b[..|b| - 1];
      LinesConcat(a, b[..|b| - 1], session);
    }
  }

  /** A session the tail calls active is active in the whole log, for any point the tail was cut at. */
  lemma TailIsConservative(dropped: seq<Entry>, tail: seq<Entry>, session: string, now: int, freshSeconds: int)
    requires InOrder(Lines(dropped + tail, session))
    requires Active(Fold(Lines(tail, session)), now, freshSeconds)
    ensures Active(Fold(Lines(dropped + tail, session)), now, freshSeconds)
  {
    LinesConcat(dropped, tail, session);
    var all := Lines(dropped + tail, session);
    var last := if all == [] then 0 else all[|all| - 1].timestamp;
    TailSimulates(Lines(dropped, session), Lines(tail, session), last);
  }

  // ---------- Which bytes are read ----------

  const NEWLINE := '\n'

  function Split(data: string): (lines: seq<string>)
    ensures lines != []
  {
    if data == "" then [""]
    else if data[0] == NEWLINE then [""] + Split(data[1..])
    else
      var rest := Split(data[1..]);
      [[data[0]] + rest[0]] + rest[1..]
  }

  function IndexOfNewline(data: string): (k: nat)
    ensures k <= |data| && (k < |data| ==> data[k] == NEWLINE)
    ensures forall i :: 0 <= i < k ==> data[i] != NEWLINE
  {
    if data == "" || data[0] == NEWLINE then 0 else 1 + IndexOfNewline(data[1..])
  }

  /** The last `limit` bytes, less what precedes the first line break if the file was cut. */
  function ReadTail(data: string, limit: nat): string {
    if |data| <= limit then data
    else
      var cut := data[|data| - limit..];
      var k := IndexOfNewline(cut);
      if k < |cut| then cut[k + 1..] else ""
  }

  /** The lines a decoder accepts. */
  function Decode(lines: seq<string>, parse: string -> Option<Entry>): seq<Entry> {
    if lines == [] then []
    else (match parse(lines[0]) case Some(e) => [e] case None => []) + Decode(lines[1..], parse)
  }

  function Entries(data: string, parse: string -> Option<Entry>): seq<Entry> {
    Decode(Split(data), parse)
  }

  lemma {:induction false} SplitAtNewline(a: string, b: string)
    ensures Split(a + [NEWLINE] + b) == Split(a) + Split(b)
  {
    if a == "" {
      assert a + [NEWLINE] + b == [NEWLINE] + b && ([NEWLINE] + b)[1..] == b;
    } else {
      var whole := a + [NEWLINE] + b;
      assert whole[0] == a[0] && whole[1..] == a[1..] + [NEWLINE] + b;
      SplitAtNewline(a[1..], b);
    }
  }

  lemma {:induction false} DecodeConcat(a: seq<string>, b: seq<string>, parse: string -> Option<Entry>)
    ensures Decode(a + b, parse) == Decode(a, parse) + Decode(b, parse)
  {
    if a == [] {
      assert a + b == b;
    } else {
      assert (a + b)[1..] == a[1..] + b;
      DecodeConcat(a[1..], b, parse);
    }
  }

  ghost predicate EndsWith<T>(whole: seq<T>, tail: seq<T>) {
    |tail| <= |whole| && whole[|whole| - |tail|..] == tail
  }

  /** Cutting bytes and dropping the broken line leaves whole lines: the entries read are the file's last ones. */
  lemma TailReadsLastEntries(data: string, limit: nat, parse: string -> Option<Entry>)
    requires parse("") == None
    ensures EndsWith(Entries(data, parse), Entries(ReadTail(data, limit), parse))
  {
    if |data| > limit {
      var cut := data[|data| - limit..];
      var k := IndexOfNewline(cut);
      if k < |cut| {
        var at := |data| - limit + k;
        assert data == data[..at] + [NEWLINE] + cut[k + 1..];
        SplitAtNewline(data[..at], cut[k + 1..]);
        DecodeConcat(Split(data[..at]), Split(cut[k + 1..]), parse);
      } else {
        assert Split("") == [""];
        assert [""][1..] == [];
        assert Entries("", parse) == [];
      }
    }
  }

  /** The two newest files, oldest first, each cut to its tail; a file that cannot be read counts as empty. */
  function Sampled(older: string, newer: string, limit: nat, parse: string -> Option<Entry>): seq<Entry> {
    Entries(ReadTail(older, limit), parse) + Entries(ReadTail(newer, limit), parse)
  }

  /**
   What the sample calls active is active in the whole log of all files, as long as the newest file fits the
   limit. Files before the two newest and the head of the older one may be missing.
   */
  lemma SampleIsConservative(
      earlier: seq<Entry>, older: string, newer: string, limit: nat, parse: string -> Option<Entry>,
      session: string, now: int, freshSeconds: int)
    requires parse("") == None && |newer| <= limit
    requires InOrder(Lines(earlier + Entries(older, parse) + Entries(newer, parse), session))
    requires Active(Fold(Lines(Sampled(older, newer, limit, parse), session)), now, freshSeconds)
    ensures Active(Fold(Lines(earlier + Entries(older, parse) + Entries(newer, parse), session)), now, freshSeconds)
  {
    TailReadsLastEntries(older, limit, parse);
    var all, tail := Entries(older, parse), Entries(ReadTail(older, limit), parse);
    var cut := all[..|all| - |tail|];
    assert all == cut + tail;
    assert earlier + all + Entries(newer, parse) == (earlier + cut) + Sampled(older, newer, limit, parse);
    TailIsConservative(earlier + cut, Sampled(older, newer, limit, parse), session, now, freshSeconds);
  }

  // ---------- Exactly when the sample is conservative ----------

  /** What the sample of these files calls active, the whole log calls active. */
  ghost predicate ConservativeOn(
      earlier: seq<Entry>, older: string, newer: string, limit: nat, parse: string -> Option<Entry>,
      session: string, now: int, freshSeconds: int)
  {
    var whole := Lines(earlier + Entries(older, parse) + Entries(newer, parse), session);
    parse("") == None && InOrder(whole)
        && Active(Fold(Lines(Sampled(older, newer, limit, parse), session)), now, freshSeconds)
    ==> Active(Fold(whole), now, freshSeconds)
  }

  /** The same for all files, decoders and times, given the size of the newest file. */
  ghost predicate Conservative(size: nat, limit: nat) {
    forall earlier: seq<Entry>, older: string, newer: string, parse: string -> Option<Entry>, session: string, now: int,
        freshSeconds: int ::
      |newer| == size ==> ConservativeOn(earlier, older, newer, limit, parse, session, now, freshSeconds)
  }

  predicate AllBreaks(s: string) {
    forall i :: 0 <= i < |s| ==> s[i] == NEWLINE
  }

  predicate NoBreaks(s: string) {
    forall i :: 0 <= i < |s| ==> s[i] != NEWLINE
  }

  function LineBreaks(n: nat): (s: string)
    ensures |s| == n
  {
    if n == 0 then "" else [NEWLINE] + LineBreaks(n - 1)
  }

  lemma {:induction false} LineBreaksHold(n: nat, parse: string -> Option<Entry>)
    requires parse("") == None
    ensures AllBreaks(LineBreaks(n))
    ensures Entries(LineBreaks(n), parse) == []
  {
    if n > 0 {
      LineBreaksHold(n - 1, parse);
    } else {
      assert Entries("", parse) == Decode([""], parse);
    }
  }

  lemma {:induction false} OnlyBreaks(s: string)
    requires AllBreaks(s)
    ensures s == LineBreaks(|s|)
  {
    if s != "" {
      OnlyBreaks(s[1..]);
    }
  }

  lemma {:induction false} OneLine(line: string)
    requires NoBreaks(line)
    ensures Split(line) == [line]
  {
    if line != "" {
      OneLine(line[1..]);
      assert [line[0]] + line[1..] == line;
    }
  }

  lemma OneEntry(line: string, parse: string -> Option<Entry>)
    requires NoBreaks(line) && parse(line).Some?
    ensures Entries(line, parse) == [parse(line).value]
  {
    OneLine(line);
    assert Decode([line][1..], parse) == [];
  }

  /** A line, then line breaks: one entry. The tail of the line breaks alone: none. */
  lemma LineThenBreaks(line: string, n: nat, limit: nat, parse: string -> Option<Entry>)
    requires NoBreaks(line) && parse("") == None && 0 < limit <= n
    ensures Entries(line + LineBreaks(n), parse) == Entries(line, parse)
    ensures line != "" ==> Entries(ReadTail(line + LineBreaks(n), limit), parse) == []
  {
    var data := line + LineBreaks(n);
    LineBreaksHold(n, parse);
    LineBreaksHold(n - 1, parse);
    assert data == line + [NEWLINE] + LineBreaks(n - 1);
    SplitAtNewline(line, LineBreaks(n - 1));
    DecodeConcat(Split(line), Split(LineBreaks(n - 1)), parse);
    if line != "" {
      TailOfBreaks(data, LineBreaks(n), limit, parse);
    }
  }

  lemma TailOfBreaks(data: string, breaks: string, limit: nat, parse: string -> Option<Entry>)
    requires 0 < limit <= |breaks| < |data| && data[|data| - |breaks|..] == breaks
    requires parse("") == None && AllBreaks(breaks)
    ensures Entries(ReadTail(data, limit), parse) == []
  {
    var cut := data[|data| - limit..];
    assert cut == breaks[|breaks| - limit..];
    assert cut[0] == NEWLINE && ReadTail(data, limit) == cut[1..];
    OnlyBreaks(cut[1..]);
    LineBreaksHold(|cut[1..]|, parse);
  }

  lemma LinesOfOne(e: Entry)
    ensures Lines([e], e.session) == [e] && Fold([e]) == Apply(IDLE, e)
  {
    assert [] + [e] == [e];
    LinesSnoc([], e, e.session);
    FoldOneMore([], e);
  }

  lemma LinesOfTwo(e: Entry, f: Entry)
    requires e.session == f.session
    ensures Lines([e] + [f], e.session) == [e] + [f] && Fold([e] + [f]) == Apply(Apply(IDLE, e), f)
  {
    LinesOfOne(e);
    LinesSnoc([e], f, e.session);
    FoldOneMore([e], f);
  }

  const TURN_START := Entry("s", 1, TurnStarts)
  const TURN_END := Entry("s", 2, TurnEnds)

  lemma StartedIsActive()
    ensures Active(Fold(Lines([TURN_START], "s")), 2, 1800)
  {
    LinesOfOne(TURN_START);
  }

  lemma EndedIsNotActive()
    ensures InOrder(Lines([TURN_START] + [TURN_END], "s"))
    ensures !Active(Fold(Lines([TURN_START] + [TURN_END], "s")), 2, 1800)
  {
    LinesOfTwo(TURN_START, TURN_END);
  }

  /** The sample has the start of the turn only, the whole log its end too. */
  lemma SampleMissesTheEnd(older: string, newer: string, limit: nat, parse: string -> Option<Entry>)
    requires parse("") == None
    requires Entries(older, parse) == Entries(ReadTail(older, limit), parse) == [TURN_START]
    requires Entries(newer, parse) == [TURN_END] && Entries(ReadTail(newer, limit), parse) == []
    ensures !ConservativeOn([], older, newer, limit, parse, "s", 2, 1800)
  {
    assert Sampled(older, newer, limit, parse) == [TURN_START];
    assert [] + Entries(older, parse) + Entries(newer, parse) == [TURN_START] + [TURN_END];
    StartedIsActive();
    EndedIsNotActive();
  }

  /**
   With any decoder that knows a line starting a turn and a line ending it: if the older file holds the start, and
   the newer one the end followed by at least `limit` line breaks, the ended turn is sampled as active.
   */
  lemma CutNewestFileRevives(start: string, end: string, breaks: nat, limit: nat, parse: string -> Option<Entry>)
    requires NoBreaks(start) && NoBreaks(end) && end != "" && |start| <= limit && 0 < limit <= breaks
    requires parse("") == None
    requires parse(start) == Some(TURN_START) && parse(end) == Some(TURN_END)
    ensures !ConservativeOn([], start, end + LineBreaks(breaks), limit, parse, "s", 2, 1800)
  {
    OneEntry(start, parse);
    OneEntry(end, parse);
    LineThenBreaks(end, breaks, limit, parse);
    assert ReadTail(start, limit) == start;
    SampleMissesTheEnd(start, end + LineBreaks(breaks), limit, parse);
  }

  function TwoLetters(line: string): Option<Entry> {
    if line == "s" then Some(TURN_START) else if line == "e" then Some(TURN_END) else None
  }

  lemma NothingReadIsIdle(older: string, newer: string, parse: string -> Option<Entry>, session: string)
    requires parse("") == None
    ensures Fold(Lines(Sampled(older, newer, 0, parse), session)) == IDLE
  {
    assert ReadTail(older, 0) == "" && ReadTail(newer, 0) == "";
    assert Entries("", parse) == Decode([""], parse);
  }

  lemma FitsIsConservative(
      earlier: seq<Entry>, older: string, newer: string, limit: nat, parse: string -> Option<Entry>,
      session: string, now: int, freshSeconds: int)
    requires |newer| <= limit || limit == 0
    ensures ConservativeOn(earlier, older, newer, limit, parse, session, now, freshSeconds)
  {
    var whole := Lines(earlier + Entries(older, parse) + Entries(newer, parse), session);
    if parse("") == None && InOrder(whole)
        && Active(Fold(Lines(Sampled(older, newer, limit, parse), session)), now, freshSeconds) {
      if limit == 0 {
        NothingReadIsIdle(older, newer, parse, session);
      } else {
        SampleIsConservative(earlier, older, newer, limit, parse, session, now, freshSeconds);
      }
    }
  }

  lemma ConservativeWhenItFits(size: nat, limit: nat)
    requires size <= limit || limit == 0
    ensures Conservative(size, limit)
  {
    forall earlier: seq<Entry>, older: string, newer: string, parse: string -> Option<Entry>, session: string, now: int,
        freshSeconds: int | |newer| == size
      ensures ConservativeOn(earlier, older, newer, limit, parse, session, now, freshSeconds)
    {
      FitsIsConservative(earlier, older, newer, limit, parse, session, now, freshSeconds);
    }
  }

  lemma NotConservativeWhenCut(size: nat, limit: nat)
    requires 0 < limit < size
    ensures !Conservative(size, limit)
  {
    var older, newer, parse := CutFiles(size, limit);
    OneFailureIsEnough(size, limit, [], older, newer, parse, "s", 2, 1800);
  }

  lemma CutFiles(size: nat, limit: nat) returns (older: string, newer: string, parse: string -> Option<Entry>)
    requires 0 < limit < size
    ensures |newer| == size && !ConservativeOn([], older, newer, limit, parse, "s", 2, 1800)
  {
    var end;
    older, end, parse := TwoLines();
    newer := end + LineBreaks(size - 1);
    CutNewestFileRevives(older, end, size - 1, limit, parse);
  }

  lemma TwoLines() returns (start: string, end: string, parse: string -> Option<Entry>)
    ensures |start| == |end| == 1 && NoBreaks(start) && NoBreaks(end) && parse("") == None
    ensures parse(start) == Some(TURN_START) && parse(end) == Some(TURN_END)
  {
    start, end, parse := "s", "e", TwoLetters;
  }

  lemma OneFailureIsEnough(
      size: nat, limit: nat, earlier: seq<Entry>, older: string, newer: string, parse: string -> Option<Entry>,
      session: string, now: int, freshSeconds: int)
    requires |newer| == size && !ConservativeOn(earlier, older, newer, limit, parse, session, now, freshSeconds)
    ensures !Conservative(size, limit)
  {
  }

  /** The sample is conservative exactly when the newest file fits the limit, or nothing is read at all. */
  lemma SampleConservativeExactly(size: nat, limit: nat)
    ensures Conservative(size, limit) <==> size <= limit || limit == 0
  {
    if size <= limit || limit == 0 {
      ConservativeWhenItFits(size, limit);
    } else {
      NotConservativeWhenCut(size, limit);
    }
  }

  // ---------- What the state means over a whole log ----------

  /** The last recognised status of a background task. */
  function LastSignal(log: seq<Entry>, id: string): Signal {
    if log == [] then SignalUnknown
    else
      var e := log[|log| - 1];
      match e.kind
      case TaskRuns(task) => if task == id then SignalRunning else LastSignal(log[..|log| - 1], id)
      case TaskEnds(task) => if task == id then SignalTerminal else LastSignal(log[..|log| - 1], id)
      case _ => LastSignal(log[..|log| - 1], id)
  }

  lemma {:induction false} TasksAreTheRunning(log: seq<Entry>, id: string)
    ensures id in Fold(log).tasks <==> LastSignal(log, id) == SignalRunning
  {
    if log != [] {
      TasksAreTheRunning(log[..|log| - 1], id);
    }
  }

  function Delta(e: Entry): int {
    KindDelta(e.kind)
  }

  function KindDelta(kind: Kind): int {
    match kind
    case TrackingStarts => 1
    case TrackingEnds => -1
    case _ => 0
  }

  /** Starts minus terminals among the lines `from..to`. */
  function Net(log: seq<Entry>, from: nat, to: nat): int
    requires from <= to <= |log|
  {
    if from == to then 0 else Net(log, from, to - 1) + Delta(log[to - 1])
  }

  /** No stretch of the log starts so many more trackings than it ends that the cap could be reached. */
  ghost predicate BelowCap(log: seq<Entry>) {
    forall i, j :: 0 <= i <= j <= |log| ==> Net(log, i, j) <= TRACK_CAP
  }

  /** The counter never leaves its range, and below the cap it is the largest net count of a log suffix. */
  lemma {:induction false} TrackedIsLargestSuffix(log: seq<Entry>, n: nat)
    requires n <= |log|
    ensures Fold(log[..n]).tracked <= TRACK_CAP
    ensures BelowCap(log) ==>
      && (exists k :: 0 <= k <= n && Net(log, k, n) == Fold(log[..n]).tracked)
      && (forall k :: 0 <= k <= n ==> Net(log, k, n) <= Fold(log[..n]).tracked)
  {
    if n > 0 {
      TrackedIsLargestSuffix(log, n - 1);
      assert log[..n][..n - 1] == log[..n - 1];
      var before, after := Fold(log[..n - 1]).tracked, Fold(log[..n]).tracked;
      TrackedStep(Fold(log[..n - 1]), log[n - 1].kind, log[n - 1].timestamp);
      if BelowCap(log) {
        var k :| 0 <= k <= n - 1 && Net(log, k, n - 1) == before;
        assert Net(log, k, n) == before + Delta(log[n - 1]) <= TRACK_CAP;
        assert Net(log, n, n) == 0;
        assert after == if before + Delta(log[n - 1]) < 0 then 0 else before + Delta(log[n - 1]);
        forall i | 0 <= i <= n ensures Net(log, i, n) <= after {
          if i < n {
            assert Net(log, i, n - 1) <= before;
          }
        }
      }
    } else {
      assert log[..0] == [];
      assert Net(log, 0, 0) == 0;
    }
  }

  lemma TrackedStep(s: State, kind: Kind, t: int)
    ensures s.tracked + KindDelta(kind) < 0 ==> Advance(s, kind, t).tracked == 0
    ensures 0 <= s.tracked + KindDelta(kind) <= TRACK_CAP ==> Advance(s, kind, t).tracked == s.tracked + KindDelta(kind)
    ensures s.tracked <= TRACK_CAP ==> Advance(s, kind, t).tracked <= TRACK_CAP
  {
  }

  /** Line `k` began the stretch of work that is still unbroken after the first `n` lines. */
  ghost predicate SpanBegins(log: seq<Entry>, k: nat, n: nat)
    requires k < n <= |log|
  {
    !Busy(Fold(log[..k])) && forall j :: k < j <= n ==> Busy(Fold(log[..j]))
  }

  lemma {:induction false} StartedAtBeginsSpan(log: seq<Entry>, n: nat)
    requires n <= |log| && forall i :: 0 <= i < |log| ==> log[i].timestamp != 0
    requires Busy(Fold(log[..n]))
    ensures exists k :: 0 <= k < n && SpanBegins(log, k, n) && Fold(log[..n]).startedAt == log[k].timestamp
  {
    if n > 0 {
      assert log[..n][..n - 1] == log[..n - 1];
      var before := Fold(log[..n - 1]);
      if Busy(before) {
        StartedAtBeginsSpan(log, n - 1);
        var k :| 0 <= k < n - 1 && SpanBegins(log, k, n - 1) && before.startedAt == log[k].timestamp;
        assert SpanBegins(log, k, n);
        assert Fold(log[..n]).startedAt == before.startedAt;
      } else {
        assert SpanBegins(log, n - 1, n);
      }
    }
  }
}
