/** `fetchTasksForPeriod(startDate, endDate)` of the client
    (static/app.js): the request URL, the defaulting of each event the
    server returns, and the single placeholder record on failure. The
    request itself is an input: `None` stands for a network error, a status
    that is not `ok`, or a body that does not parse. */
module TaskFetch {
  import opened Common

  /** One element of the `/api/events` answer; a field may be missing. */
  datatype RawEvent = RawEvent(
    title: Option<string>, description: Option<string>,
    start: Option<string>, end: Option<string>, kind: Option<string>)

  /** One task of the report. */
  datatype Task = Task(title: string, description: string,
    start: Option<string>, end: Option<string>, kind: string)

  const EventsPath := "/api/events"
  const DefaultTitle := "Без названия"
  const DefaultKind := "task"
  const FailureTitle := "Реальная задача не загрузилась"
  const FailureDescription := "Проверьте подключение к API"
  const FailureKind := "error"

  /** JavaScript `value || fallback` on an optional string: a missing value
      and the empty string are both falsy. */
  function Or(value: Option<string>, fallback: string): (r: string)
    ensures value.Some? && value.value != "" ==> r == value.value
    ensures value.None? || value.value == "" ==> r == fallback
  {
    if value.Some? && value.value != "" then value.value else fallback
  }

  /** The URL requested: the period is added only when both ends are set.
      `encode` stands for `encodeURIComponent`. */
  function RequestUrl(startDate: string, endDate: string, encode: string -> string): (url: string)
    ensures startDate == "" || endDate == "" ==> url == EventsPath
    ensures startDate != "" && endDate != "" ==>
      url == EventsPath + "?start=" + encode(startDate) + "&end=" + encode(endDate)
  {
    if startDate != "" && endDate != "" then
      EventsPath + "?start=" + encode(startDate) + "&end=" + encode(endDate)
    else EventsPath
  }

  /** The mapping applied to each event of a successful answer. */
  function Normalize(e: RawEvent): (t: Task)
    ensures t.title == (if e.title.Some? && e.title.value != "" then e.title.value else DefaultTitle)
    ensures t.kind == (if e.kind.Some? && e.kind.value != "" then e.kind.value else DefaultKind)
    ensures t.title != "" && t.kind != ""
    ensures t.start == e.start && t.end == e.end
    ensures t.description == (if e.description.Some? then e.description.value else "")
  {
    Task(Or(e.title, DefaultTitle), Or(e.description, ""), e.start, e.end, Or(e.kind, DefaultKind))
  }

  /** The placeholder returned on any failure; `now` and `inAnHour` are the
      ISO renderings of the clock at the time of the failure and one hour
      later. */
  function FailureTask(now: string, inAnHour: string): Task {
    Task(FailureTitle, FailureDescription, Some(now), Some(inAnHour), FailureKind)
  }

  function FetchTasksForPeriod(response: Option<seq<RawEvent>>, now: string, inAnHour: string): (tasks: seq<Task>)
    ensures response.None? ==> tasks == [FailureTask(now, inAnHour)]
    ensures response.Some? ==> (|tasks| == |response.value| &&
      forall i :: 0 <= i < |tasks| ==> tasks[i] == Normalize(response.value[i]))
  {
    match response
    case None => [FailureTask(now, inAnHour)]
    case Some(events) => seq(|events|, i requires 0 <= i < |events| => Normalize(events[i]))
  }

  /** Every task the report receives has a title and a type, whether the
      answer was read or the placeholder was substituted. */
  lemma TasksAreLabelled(response: Option<seq<RawEvent>>, now: string, inAnHour: string)
    ensures forall t :: t in FetchTasksForPeriod(response, now, inAnHour) ==> t.title != "" && t.kind != ""
    ensures |FetchTasksForPeriod(response, now, inAnHour)| >= 1 || (response.Some? && response.value == [])
  {
    var tasks := FetchTasksForPeriod(response, now, inAnHour);
    forall t | t in tasks
      ensures t.title != "" && t.kind != ""
    {
      var i :| 0 <= i < |tasks| && tasks[i] == t;
    }
  }

  /** The event a task would be sent back as. */
  function AsRaw(t: Task): RawEvent {
    RawEvent(Some(t.title), Some(t.description), t.start, t.end, Some(t.kind))
  }

  /** Defaulting is idempotent: a normalized task passes through the mapping
      unchanged, and a raw event whose fields are all set is not altered. */
  lemma NormalizeIdempotent(e: RawEvent)
    ensures Normalize(AsRaw(Normalize(e))) == Normalize(e)
    ensures (e.title.Some? && e.title.value != "" && e.description.Some? &&
      e.kind.Some? && e.kind.value != "") ==> AsRaw(Normalize(e)) == e
  {
    if e.description.Some? && e.description.value == "" {
      assert Or(e.description, "") == e.description.value;
    }
  }
}
