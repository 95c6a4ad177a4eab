/** Values shared by the agent, the hub and the phone. */
module Domain {
  import opened TimeOrder

  datatype Option<+T> = None | Some(value: T) {
    function GetOr(default: T): T {
      if Some? then value else default
    }
  }

  datatype Result<+T> = Ok(value: T) | Err

  datatype SourceStatus = SourceOk | SourceStale | SourceError | SourceDisabled

  datatype TaskStatus = Running | Waiting | Failed | Completed | Unknown

  datatype TaskSummary = TaskSummary(
    id: string, title: string, workspace: Option<string>, status: TaskStatus, updatedAt: Option<Instant>)

  /** The parts of a HUD snapshot that the event pipeline and the hub cache read. */
  datatype HudState = HudState(zcode: SourceStatus, commandCode: SourceStatus, tasks: Option<seq<TaskSummary>>)

  datatype EventKind = TaskCompleted | TaskFailed

  datatype EventTask = EventTask(id: string, title: string, workspace: Option<string>, status: TaskStatus)

  datatype Event = Event(eventId: string, kind: EventKind, occurredAt: Instant, task: EventTask)

  /** Go's zero time. */
  const ZERO_TIME: Instant := Civil(1, 1, 1, 0, 0, 0, 0)

  predicate ValidEvent(e: Event) {
    && |e.eventId| >= 8
    && e.occurredAt != ZERO_TIME
    && e.task.id != "" && e.task.title != ""
    && e.task.status == (if e.kind == TaskCompleted then Completed else Failed)
  }

  function Min(a: int, b: int): int {
    if a < b then a else b
  }

  /** The first `n` elements, or all. */
  function Take<T>(s: seq<T>, n: nat): seq<T> {
    if n < |s| then s[..n] else s
  }

  function Ids(events: seq<Event>): set<string> {
    set e | e in events :: e.eventId
  }

  predicate DistinctIds(events: seq<Event>) {
    forall i, j :: 0 <= i < j < |events| ==> events[i].eventId != events[j].eventId
  }
}
