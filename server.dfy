/** The HTTP handlers of the server (main.go) with SQLite and JSON taken out:
    a query's outcome is an input, the statement a handler would execute is
    an output, and a response is a status with a body. */
module Server {
  import opened Common
  import opened StatsPanel

  // ----- responses and database calls -----

  datatype Event = Event(id: string, title: string, description: string, start: string, end: string, kind: string)

  /** What a handler writes: a JSON value (`sendError` writes the
      `{"error": message}` object), the plain text of `http.Error` or of a
      raw `w.Write`, or nothing. */
  datatype Body =
    | EventJson(event: Event)
    | EventsJson(events: seq<Event>)
    | StatsJson(stats: seq<StatEntry>)
    | SettingsJson(settings: Settings)
    | ErrorJson(message: string)
    | Text(text: string)
    | NoBody

  datatype Response = Response(status: int, body: Body)

  /** The statement a handler hands to the database, if any. */
  datatype DbCall = NoDb | SelectEvents | InsertEvent(event: Event) | UpdateEvent(id: string, event: Event) | DeleteEvent(id: string)

  const StatusOK := 200
  const StatusCreated := 201
  const StatusNoContent := 204
  const StatusBadRequest := 400
  const StatusMethodNotAllowed := 405
  const StatusInternalServerError := 500

  // ----- settings -----

  /** The settings `GET /api/settings` answers with. */
  function DefaultSettings(): (s: Settings)
    ensures s.workSchedule == "5/2" && s.workHours == WorkHours("09:00", "18:00")
    ensures s.holidays == []
  {
    Settings("5/2", WorkHours("09:00", "18:00"), [])
  }

  /** The server's defaults are the client's initial settings. */
  lemma DefaultsAgreeWithClient()
    ensures DefaultSettings() == ClientDefaultSettings()
  {
  }

  /** `handleSettings`: GET answers the defaults; POST echoes the decoded
      body, or answers 400 with the decoder's message; nothing is stored.
      Any other method writes nothing, which Go sends as an empty 200. */
  function HandleSettings(httpMethod: string, decoded: Option<Settings>, decodeError: string): (resp: Response)
    ensures httpMethod == "GET" ==> resp == Response(StatusOK, SettingsJson(DefaultSettings()))
    ensures httpMethod == "POST" && decoded.Some? ==> resp == Response(StatusOK, SettingsJson(decoded.value))
    ensures httpMethod == "POST" && decoded.None? ==> resp == Response(StatusBadRequest, Text(decodeError))
    ensures httpMethod != "GET" && httpMethod != "POST" ==> resp == Response(StatusOK, NoBody)
  {
    match httpMethod
    case "GET" => Response(StatusOK, SettingsJson(DefaultSettings()))
    case "POST" =>
      if decoded.None? then Response(StatusBadRequest, Text(decodeError))
      else Response(StatusOK, SettingsJson(decoded.value))
    case _ => Response(StatusOK, NoBody)
  }

  // ----- statistics -----

  /** The `typeNames` map of `handleStats`. */
  const TypeNames: map<string, string> := map[
    "task" := "Задачи", "meeting" := "Встречи", "call" := "Звонки",
    "study" := "Учеба", "rest" := "Отдых"]

  /** The `allTypes` slice. */
  const AllTypes: seq<string> := ["task", "meeting", "call", "study", "rest"]

  /** `typeNames[t]`: a Go map lookup gives the zero value `""` for a
      missing key. */
  function NameOf(t: string): (name: string)
    ensures t in TypeNames ==> name == TypeNames[t]
    ensures t !in TypeNames ==> name == ""
  {
    if t in TypeNames then TypeNames[t] else ""
  }

  /** The server's table is the client's: same keys in the same order, same
      labels. */
  lemma TypeTablesAgree(t: string)
    ensures AllTypes == CategoryKeys
    ensures t in TypeNames <==> IsCategory(t)
    ensures NameOf(t) == CategoryName(t)
  {
  }

  /** `math.Round(x)`: to the nearest integer, halves away from zero. */
  function Round(x: real): (n: int)
    ensures x - 0.5 <= n as real <= x + 0.5
    ensures (n as real) - x == 0.5 ==> x >= 0.0
    ensures x - (n as real) == 0.5 ==> x < 0.0
    ensures x >= 0.0 ==> n >= 0
  {
    if x >= 0.0 then (x + 0.5).Floor else -((-x + 0.5).Floor)
  }

  /** `math.Round(h*10) / 10`: hours to one decimal. */
  function RoundTenth(h: real): (r: real)
    ensures ((r * 10.0).Floor as real) == r * 10.0
    ensures h - 0.05 <= r <= h + 0.05
    ensures h >= 0.0 ==> r >= 0.0
  {
    (Round(h * 10.0) as real) / 10.0
  }

  lemma RoundOfInteger(n: int)
    ensures Round(n as real) == n
  {
  }

  /** Rounding a value that already has one decimal changes nothing. */
  lemma RoundTenthIdempotent(h: real)
    ensures RoundTenth(RoundTenth(h)) == RoundTenth(h)
  {
    var n := Round(h * 10.0);
    var r := (n as real) / 10.0;
    assert r * 10.0 == n as real;
    RoundOfInteger(n);
  }

  /** One row of the grouped query: the type and `SUM(...)`, which is NULL
      when no duration could be computed; or a row that fails to scan. */
  datatype ScanRow = Row(kind: string, hours: Option<real>) | Unreadable

  datatype StatsQuery = StatsQueryFailed | StatsRows(rows: seq<ScanRow>, iterationFailed: bool)

  /** The summary built from one readable row: NULL reads as 0. */
  function Summarize(kind: string, hours: Option<real>): (s: StatEntry)
    ensures s.category == kind && s.name == NameOf(kind)
    ensures s.hours == RoundTenth(hours.GetOr(0.0))
  {
    StatEntry(kind, RoundTenth(hours.GetOr(0.0)), NameOf(kind))
  }

  /** The `rows.Next()` loop: a summary per row in order, or `None` at the
      first row that cannot be scanned. */
  method ScanStats(rows: seq<ScanRow>) returns (stats: Option<seq<StatEntry>>)
    ensures stats.None? <==> exists i :: 0 <= i < |rows| && rows[i].Unreadable?
    ensures stats.Some? ==> (|stats.value| == |rows| &&
      forall i :: 0 <= i < |rows| ==> stats.value[i] == Summarize(rows[i].kind, rows[i].hours))
  {
    var acc: seq<StatEntry> := [];
    var i := 0;
    while i < |rows|
      invariant 0 <= i <= |rows|
      invariant |acc| == i
      invariant forall k :: 0 <= k < i ==> rows[k].Row? && acc[k] == Summarize(rows[k].kind, rows[k].hours)
    {
      if rows[i].Unreadable? {
        return None;
      }
      acc := acc + [Summarize(rows[i].kind, rows[i].hours)];
      i := i + 1;
    }
    stats := Some(acc);
  }

  predicate HasKind(stats: seq<StatEntry>, t: string) {
    exists i :: 0 <= i < |stats| && stats[i].category == t
  }

  function ZeroFor(t: string): StatEntry {
    StatEntry(t, 0.0, NameOf(t))
  }

  /** The zero row the completion appends for `t`, if any. */
  function Gap(stats: seq<StatEntry>, t: string): seq<StatEntry> {
    if HasKind(stats, t) then [] else [ZeroFor(t)]
  }

  /** The zero rows the completion appends: one per type of `types` missing
      from `stats`, in the order of `types`. */
  function MissingZeros(stats: seq<StatEntry>, types: seq<string>): (m: seq<StatEntry>)
    ensures |m| <= |types|
  {
    if types == [] then [] else Gap(stats, types[0]) + MissingZeros(stats, types[1..])
  }

  lemma {:induction false} MissingZerosSnoc(stats: seq<StatEntry>, types: seq<string>, t: string)
    ensures MissingZeros(stats, types + [t]) == MissingZeros(stats, types) + Gap(stats, t)
  {
    var all := types + [t];
    if types == [] {
      assert all == [t];
      assert MissingZeros(stats, all) == Gap(stats, t) + MissingZeros(stats, []);
    } else {
      assert all[0] == types[0] && all[1..] == types[1..] + [t];
      MissingZerosSnoc(stats, types[1..], t);
      assert MissingZeros(stats, all) == Gap(stats, types[0]) + MissingZeros(stats, types[1..] + [t]);
    }
  }

  /** What the appended rows are: zero-hour rows for types of `types`, and
      a row for a type exactly when the type is missing. */
  lemma {:induction false} MissingZerosMembers(stats: seq<StatEntry>, types: seq<string>)
    ensures forall e :: e in MissingZeros(stats, types) ==>
      e.category in types && !HasKind(stats, e.category) && e == ZeroFor(e.category)
    ensures forall t :: t in types && !HasKind(stats, t) ==> ZeroFor(t) in MissingZeros(stats, types)
  {
    if types != [] {
      MissingZerosMembers(stats, types[1..]);
    }
  }

  /** The completion of `handleStats`, with its two branches as written;
      `allTypes` is the literal list of known types, which has no repeats.
      The inner scan runs over the growing slice, so rows appended for
      earlier types are looked at too. */
  method CompleteStats(stats: seq<StatEntry>, allTypes: seq<string>) returns (completed: seq<StatEntry>)
    requires DistinctTypes(allTypes)
    ensures completed == stats + MissingZeros(stats, allTypes)
  {
    completed := stats;
    if |stats| == 0 {
      for k := 0 to |allTypes|
        invariant completed == stats + MissingZeros(stats, allTypes[..k])
      {
        CompletionStep(stats, allTypes, k);
        completed := completed + [ZeroFor(allTypes[k])];
      }
    } else {
      for k := 0 to |allTypes|
        invariant completed == stats + MissingZeros(stats, allTypes[..k])
      {
        var t := allTypes[k];
        var found := false;
        var j := 0;
        while j < |completed|
          invariant 0 <= j <= |completed|
          invariant !found ==> forall i :: 0 <= i < j ==> completed[i].category != t
          invariant found ==> HasKind(completed, t)
        {
          if completed[j].category == t {
            found := true;
            break;
          }
          j := j + 1;
        }
        AppendedKindsEarlier(stats, allTypes, k);
        CompletionStep(stats, allTypes, k);
        if !found {
          completed := completed + [ZeroFor(t)];
        }
      }
    }
    assert allTypes[..|allTypes|] == allTypes;
  }

  predicate DistinctTypes(types: seq<string>) {
    forall i, j :: 0 <= i < j < |types| ==> types[i] != types[j]
  }

  lemma AllTypesDistinct()
    ensures DistinctTypes(AllTypes)
  {
  }

  /** Before type `k` is looked for, the slice holds it exactly when the
      query's rows do: the rows appended so far are for earlier types. */
  lemma AppendedKindsEarlier(stats: seq<StatEntry>, types: seq<string>, k: int)
    requires 0 <= k < |types| && DistinctTypes(types)
    ensures HasKind(stats + MissingZeros(stats, types[..k]), types[k]) <==> HasKind(stats, types[k])
  {
    var t := types[k];
    var m := MissingZeros(stats, types[..k]);
    var all := stats + m;
    MissingZerosMembers(stats, types[..k]);
    forall i | |stats| <= i < |all|
      ensures all[i].category != t
    {
      assert all[i] == m[i - |stats|];
      assert m[i - |stats|] in m;
      var j :| 0 <= j < |types[..k]| && types[..k][j] == all[i].category;
      assert types[j] == all[i].category;
    }
    if HasKind(all, t) {
      var i :| 0 <= i < |all| && all[i].category == t;
      assert all[i] == stats[i];
    }
    if HasKind(stats, t) {
      var i :| 0 <= i < |stats| && stats[i].category == t;
      assert all[i] == stats[i];
    }
  }

  /** One turn of the outer loop: the type is appended exactly when the
      query did not return it. */
  lemma CompletionStep(stats: seq<StatEntry>, types: seq<string>, k: int)
    requires 0 <= k < |types|
    ensures stats + MissingZeros(stats, types[..k + 1]) ==
      stats + MissingZeros(stats, types[..k]) + Gap(stats, types[k])
  {
    MissingZerosSnoc(stats, types[..k], types[k]);
    assert types[..k + 1] == types[..k] + [types[k]];
  }

  /** After completion every known type is present. */
  lemma CompletedHasEveryType(stats: seq<StatEntry>, t: string)
    requires t in AllTypes
    ensures HasKind(stats + MissingZeros(stats, AllTypes), t)
  {
    var m := MissingZeros(stats, AllTypes);
    if HasKind(stats, t) {
      var i :| 0 <= i < |stats| && stats[i].category == t;
      assert (stats + m)[i] == stats[i];
    } else {
      MissingZerosMembers(stats, AllTypes);
      var i :| 0 <= i < |m| && m[i] == ZeroFor(t);
      assert (stats + m)[|stats| + i] == m[i];
    }
  }

  predicate DistinctKinds(stats: seq<StatEntry>) {
    forall i, j :: 0 <= i < j < |stats| ==> stats[i].category != stats[j].category
  }

  lemma {:induction false} MissingZerosDistinct(stats: seq<StatEntry>, types: seq<string>)
    requires forall i, j :: 0 <= i < j < |types| ==> types[i] != types[j]
    ensures DistinctKinds(MissingZeros(stats, types))
  {
    if types != [] {
      MissingZerosDistinct(stats, types[1..]);
      MissingZerosMembers(stats, types[1..]);
      var rest := MissingZeros(stats, types[1..]);
      forall e | e in rest
        ensures e.category != types[0]
      {
        var j :| 0 <= j < |types[1..]| && types[1..][j] == e.category;
        assert types[j + 1] == e.category;
      }
    }
  }

  /** With the one-row-per-type result GROUP BY gives, the completed list
      names no type twice. */
  lemma CompletedDistinct(stats: seq<StatEntry>)
    requires DistinctKinds(stats)
    ensures DistinctKinds(stats + MissingZeros(stats, AllTypes))
  {
    var m := MissingZeros(stats, AllTypes);
    MissingZerosDistinct(stats, AllTypes);
    MissingZerosMembers(stats, AllTypes);
    var all := stats + m;
    forall i, j | 0 <= i < j < |all|
      ensures all[i].category != all[j].category
    {
      if j >= |stats| && i < |stats| {
        assert m[j - |stats|] in m;
        assert all[i] == stats[i];
      } else if i >= |stats| {
        assert all[i] == m[i - |stats|] && all[j] == m[j - |stats|];
      }
    }
  }

  /** The number of rows appended is the number of known types the query
      did not return. */
  lemma {:induction false} MissingZerosCount(stats: seq<StatEntry>, types: seq<string>)
    requires forall i, j :: 0 <= i < j < |types| ==> types[i] != types[j]
    ensures |MissingZeros(stats, types)| == |set t | t in types && !HasKind(stats, t)|
  {
    if types != [] {
      MissingZerosCount(stats, types[1..]);
      var now := set t | t in types && !HasKind(stats, t);
      var later := set t | t in types[1..] && !HasKind(stats, t);
      forall j | 0 <= j < |types[1..]|
        ensures types[1..][j] != types[0]
      {
        assert types[1..][j] == types[j + 1];
      }
      assert types[0] !in types[1..];
      if HasKind(stats, types[0]) {
        assert now == later;
      } else {
        assert now == later + {types[0]};
      }
    }
  }

  /** With no rows the completion yields exactly the list the client renders
      when its request fails. */
  lemma EmptyMatchesClientFallback()
    ensures [] + MissingZeros([], AllTypes) == FallbackStats()
  {
    var m := MissingZeros([], AllTypes);
    MissingFromNothing(AllTypes);
    var zeros := [ZeroFor("task"), ZeroFor("meeting"), ZeroFor("call"), ZeroFor("study"), ZeroFor("rest")];
    assert m == zeros;
    assert zeros == [StatEntry("task", 0.0, "Задачи"), StatEntry("meeting", 0.0, "Встречи"),
      StatEntry("call", 0.0, "Звонки"), StatEntry("study", 0.0, "Учеба"), StatEntry("rest", 0.0, "Отдых")];
    assert [] + m == m;
  }

  /** With no rows every type is missing. */
  lemma {:induction false} MissingFromNothing(types: seq<string>)
    ensures |MissingZeros([], types)| == |types|
    ensures forall i :: 0 <= i < |types| ==> MissingZeros([], types)[i] == ZeroFor(types[i])
  {
    if types != [] {
      MissingFromNothing(types[1..]);
      assert Gap([], types[0]) == [ZeroFor(types[0])];
    }
  }

  predicate Readable(rows: seq<ScanRow>) {
    forall i :: 0 <= i < |rows| ==> rows[i].Row?
  }

  /** The summaries of a fully readable result, row by row. */
  function Scanned(rows: seq<ScanRow>): (stats: seq<StatEntry>)
    requires Readable(rows)
  {
    seq(|rows|, i requires 0 <= i < |rows| => Summarize(rows[i].kind, rows[i].hours))
  }

  /** `handleStats` after the query: scan, check the iteration error, then
      complete. The encoder's own failure is not modelled. */
  method HandleStats(query: StatsQuery) returns (resp: Response)
    ensures query.StatsQueryFailed? ==>
      resp == Response(StatusInternalServerError, Text("{\"error\": \"Database error\"}"))
    ensures query.StatsRows? && !Readable(query.rows) ==>
      resp == Response(StatusInternalServerError, Text("{\"error\": \"Data read error\"}"))
    ensures query.StatsRows? && Readable(query.rows) && query.iterationFailed ==>
      resp == Response(StatusInternalServerError, Text("{\"error\": \"Data processing error\"}"))
    ensures query.StatsRows? && Readable(query.rows) && !query.iterationFailed ==>
      resp == Response(StatusOK, StatsJson(Scanned(query.rows) + MissingZeros(Scanned(query.rows), AllTypes)))
  {
    if query.StatsQueryFailed? {
      return Response(StatusInternalServerError, Text("{\"error\": \"Database error\"}"));
    }
    var scanned := ScanStats(query.rows);
    if scanned.None? {
      return Response(StatusInternalServerError, Text("{\"error\": \"Data read error\"}"));
    }
    assert scanned.value == Scanned(query.rows);
    if query.iterationFailed {
      return Response(StatusInternalServerError, Text("{\"error\": \"Data processing error\"}"));
    }
    AllTypesDistinct();
    var completed := CompleteStats(scanned.value, AllTypes);
    resp := Response(StatusOK, StatsJson(completed));
  }

  // ----- events -----

  const DefaultType := "task"
  const EventPathPrefix := "/api/events/"

  /** An empty type becomes `task`; any other type is kept. */
  function WithDefaultType(e: Event): (r: Event)
    ensures r.kind != ""
    ensures e.kind != "" ==> r == e
    ensures e.kind == "" ==> r == e.(kind := DefaultType)
  {
    if e.kind == "" then e.(kind := DefaultType) else e
  }

  /** Defaulting twice is defaulting once, and it only ever touches the
      type. */
  lemma DefaultTypeIdempotent(e: Event)
    ensures WithDefaultType(WithDefaultType(e)) == WithDefaultType(e)
    ensures WithDefaultType(e).(kind := e.kind) == e
  {
  }

  /** `strings.TrimPrefix(s, prefix)`. */
  function TrimPrefix(s: string, prefix: string): (r: string)
    ensures StartsWith(s, prefix) ==> prefix + r == s
    ensures !StartsWith(s, prefix) ==> r == s
  {
    if StartsWith(s, prefix) then s[|prefix|..] else s
  }

  /** The id taken from a path is the segment after the prefix. */
  lemma TrimPrefixRoundTrip(prefix: string, id: string)
    ensures TrimPrefix(prefix + id, prefix) == id
  {
    assert (prefix + id)[..|prefix|] == prefix;
  }

  /** The list query: its failure, or the rows, each of which may fail to
      scan. */
  datatype EventsQuery = EventsQueryFailed | EventRows(rows: seq<Option<Event>>)

  /** The answer to a listing: the query's 500, the first unreadable row's
      500, the literal `[]` for no rows, or every row in order. */
  predicate IsListingFor(resp: Response, query: EventsQuery) {
    (query.EventsQueryFailed? ==> resp == Response(StatusInternalServerError, ErrorJson("Ошибка базы данных"))) &&
    (query.EventRows? && (exists i :: 0 <= i < |query.rows| && query.rows[i].None?) ==>
      resp == Response(StatusInternalServerError, ErrorJson("Ошибка чтения данных"))) &&
    (query.EventRows? && (forall i :: 0 <= i < |query.rows| ==> query.rows[i].Some?) ==>
      resp.status == StatusOK &&
      (|query.rows| == 0 ==> resp.body == Text("[]")) &&
      (|query.rows| > 0 ==> (resp.body.EventsJson? && |resp.body.events| == |query.rows| &&
        forall i :: 0 <= i < |query.rows| ==> resp.body.events[i] == query.rows[i].value)))
  }

  /** The GET branch of `handleEvents`. No rows at all leave the slice nil,
      which the handler answers with the literal `[]` rather than the
      encoder's `null`. The `start` and `end` parameters are not read. */
  method ListEvents(query: EventsQuery) returns (resp: Response)
    ensures IsListingFor(resp, query)
  {
    if query.EventsQueryFailed? {
      return Response(StatusInternalServerError, ErrorJson("Ошибка базы данных"));
    }
    var events: seq<Event> := [];
    var i := 0;
    while i < |query.rows|
      invariant 0 <= i <= |query.rows|
      invariant |events| == i
      invariant forall k :: 0 <= k < i ==> query.rows[k].Some? && events[k] == query.rows[k].value
    {
      if query.rows[i].None? {
        return Response(StatusInternalServerError, ErrorJson("Ошибка чтения данных"));
      }
      events := events + [query.rows[i].value];
      i := i + 1;
    }
    if events == [] {
      return Response(StatusOK, Text("[]"));
    }
    resp := Response(StatusOK, EventsJson(events));
  }

  /** An event listing is never encoded as `null`: an empty result is the
      empty JSON array. */
  method EmptyListing() returns (resp: Response)
    ensures resp == Response(StatusOK, Text("[]"))
  {
    resp := ListEvents(EventRows([]));
  }

  /** `handleEvents`: GET lists (see `ListEvents`); POST decodes the body,
      gives it the id `newId` (the clock's nanoseconds), defaults its type
      and inserts it; `execOk` is the outcome of the statement. */
  method HandleEvents(httpMethod: string, query: EventsQuery, decoded: Option<Event>, newId: string, execOk: bool)
    returns (resp: Response, call: DbCall)
    ensures httpMethod != "GET" && httpMethod != "POST" ==>
      resp == Response(StatusMethodNotAllowed, ErrorJson("Метод не поддерживается")) && call == NoDb
    ensures httpMethod == "GET" ==> call == SelectEvents && IsListingFor(resp, query)
    ensures httpMethod == "POST" && decoded.None? ==>
      resp == Response(StatusBadRequest, ErrorJson("Неверный формат данных")) && call == NoDb
    ensures httpMethod == "POST" && decoded.Some? ==>
      call == InsertEvent(WithDefaultType(decoded.value).(id := newId)) &&
      (execOk ==> resp == Response(StatusCreated, EventJson(call.event))) &&
      (!execOk ==> resp == Response(StatusInternalServerError, ErrorJson("Ошибка сохранения")))
  {
    match httpMethod
    case "GET" =>
      call := SelectEvents;
      resp := ListEvents(query);
    case "POST" =>
      if decoded.None? {
        return Response(StatusBadRequest, ErrorJson("Неверный формат данных")), NoDb;
      }
      var e := decoded.value;
      e := e.(id := newId);
      if e.kind == "" {
        e := e.(kind := DefaultType);
      }
      call := InsertEvent(e);
      if !execOk {
        return Response(StatusInternalServerError, ErrorJson("Ошибка сохранения")), call;
      }
      resp := Response(StatusCreated, EventJson(e));
    case _ =>
      resp, call := Response(StatusMethodNotAllowed, ErrorJson("Метод не поддерживается")), NoDb;
  }

  /** `handleSingleEvent`: the id is the path after `/api/events/`; an
      empty id is refused before the database is touched. PUT decodes the
      body, defaults its type and updates the row with that id (the body's
      own `id` is echoed unchanged); DELETE removes the row. */
  method HandleSingleEvent(httpMethod: string, path: string, decoded: Option<Event>, execOk: bool)
    returns (resp: Response, call: DbCall)
    ensures TrimPrefix(path, EventPathPrefix) == "" ==>
      resp == Response(StatusBadRequest, ErrorJson("Требуется ID события")) && call == NoDb
    ensures call.UpdateEvent? || call.DeleteEvent? ==>
      call.id == TrimPrefix(path, EventPathPrefix) && call.id != ""
    ensures call.UpdateEvent? ==> call.event.kind != ""
    ensures TrimPrefix(path, EventPathPrefix) != "" ==>
      (httpMethod == "PUT" && decoded.Some? ==>
        call == UpdateEvent(TrimPrefix(path, EventPathPrefix), WithDefaultType(decoded.value)) &&
        resp == (if execOk then Response(StatusOK, EventJson(WithDefaultType(decoded.value)))
                 else Response(StatusInternalServerError, ErrorJson("Ошибка обновления")))) &&
      (httpMethod == "PUT" && decoded.None? ==>
        resp == Response(StatusBadRequest, ErrorJson("Неверный формат данных")) && call == NoDb) &&
      (httpMethod == "DELETE" ==>
        call == DeleteEvent(TrimPrefix(path, EventPathPrefix)) &&
        resp == (if execOk then Response(StatusNoContent, NoBody)
                 else Response(StatusInternalServerError, ErrorJson("Ошибка удаления")))) &&
      (httpMethod != "PUT" && httpMethod != "DELETE" ==>
        resp == Response(StatusMethodNotAllowed, ErrorJson("Метод не поддерживается")) && call == NoDb)
  {
    var id := TrimPrefix(path, EventPathPrefix);
    if id == "" {
      return Response(StatusBadRequest, ErrorJson("Требуется ID события")), NoDb;
    }
    match httpMethod
    case "PUT" =>
      if decoded.None? {
        return Response(StatusBadRequest, ErrorJson("Неверный формат данных")), NoDb;
      }
      var e := decoded.value;
      if e.kind == "" {
        e := e.(kind := DefaultType);
      }
      call := UpdateEvent(id, e);
      if !execOk {
        return Response(StatusInternalServerError, ErrorJson("Ошибка обновления")), call;
      }
      resp := Response(StatusOK, EventJson(e));
    case "DELETE" =>
      call := DeleteEvent(id);
      if !execOk {
        return Response(StatusInternalServerError, ErrorJson("Ошибка удаления")), call;
      }
      resp := Response(StatusNoContent, NoBody);
    case _ =>
      resp, call := Response(StatusMethodNotAllowed, ErrorJson("Метод не поддерживается")), NoDb;
  }

  /** A request for `/api/events/` itself is refused without a database
      call, and a request for `/api/events/<id>` deletes that id. */
  method SingleEventExamples(id: string) returns (bare: DbCall, named: DbCall)
    requires id != ""
    ensures bare == NoDb
    ensures named == DeleteEvent(id)
  {
    var resp;
    resp, bare := HandleSingleEvent("DELETE", EventPathPrefix, None, true);
    TrimPrefixRoundTrip(EventPathPrefix, id);
    resp, named := HandleSingleEvent("DELETE", EventPathPrefix + id, None, true);
  }
}
