# Calendar time tracker: business calendar, holidays, statistics and report control

This project models the deterministic core of a small time-tracking
calendar. The core has two halves.

The browser client is `static/app.js`:

- It derives the business calendar (days off, business days, holiday colours) from the settings.
- It maintains the list of holidays: add, remove, keep it sorted by date.
- It shapes the statistics panel, with a fallback when the request fails.
- It escapes task text for the HTML report.
- It runs the report button under a single-flight flag, with a bounded wait for the panel to render.
- It defaults the fields of the tasks it fetches.

The Go server is `main.go`:

- It completes the per-type statistics with zero rows for the known types that are missing.
- It defaults an empty event type to `task`.
- It extracts the event id from the path.
- It answers the default settings.
- It writes an empty event list as `[]`.

Everything outside the core is an input or an output of the model. This includes the DOM, FullCalendar, `fetch`, local storage, SQLite, JSON encoding and the clock:

- a request's outcome is an `Option`;
- the page seen by `waitForRendering` is an oracle `present: nat -> bool`;
- the statement a server handler would execute is returned as a `DbCall`.

Modules:

- `Common` (common.dfy): the category table, shared by both halves, and the settings and holiday records, and the string-prefix test both the escaping and the server use.
- `BusinessCalendar` (business_calendar.dfy): `getWeekendDays`, `getBusinessHours`, `updateCalendarStyles`.
- `DateOrder` (date_order.dfy): the order the holiday sort uses, and its agreement with calendar order.
- `Holidays` (holidays.dfy): the `ClientSettings` class, with the settings form's submit handler, `applySettings`, the add handler, `removeHoliday` and the sort.
- `HtmlEscape` (html_escape.dfy): `escapeHtml` and its inverse.
- `StatsPanel` (stats_panel.dfy): `updateStats` and the fallback of `loadStats`.
- `RenderWait` (render_wait.dfy): `waitForRendering`.
- `TaskFetch` (task_fetch.dfy): `fetchTasksForPeriod`.
- `Report` (report.dfy): the `Session` class for `downloadTimeReport`, plus `generateReportHtml`.
- `Server` (server.dfy): `handleSettings`, `handleStats`, `handleEvents`, `handleSingleEvent`.

## Model

| member | source | states |
|---|---|---|
| Common.CategoryKeysMatchTable | static/app.js:2-8 | the key list and the category table have five entries and agree position by position |
| Common.CategoryName | static/app.js:2-8 | a known key gets its label from the table; any other string gets "" |
| BusinessCalendar.WeekendDays | static/app.js:557-563 | the days off are weekday indices in strictly increasing order |
| BusinessCalendar.BusinessHours | static/app.js:565-572 | start and end times are copied from the settings; days are increasing weekday indices that always include Monday and Friday |
| BusinessCalendar.KnownSchedulePartitionsWeek | static/app.js:557-572 | for 5/2, 6/1 and 7/0 the days off and the business days are disjoint and cover the week; their counts are the two numbers in the schedule's name |
| BusinessCalendar.UnknownScheduleLeavesSaturday | static/app.js:557-572 | any other schedule string gives no day off and Monday to Friday, so Saturday is in neither set |
| BusinessCalendar.ScheduleExamples | static/app.js:557-572 | the exact day lists for 5/2, 6/1 and 7/0 |
| BusinessCalendar.BackgroundFor | static/app.js:589 | the kind "holiday" gets #f8f9fa and every other kind gets #fafafa |
| BusinessCalendar.UpdateCalendarStyles | static/app.js:574-593 | one rule per holiday, in list order, with the holiday's date and its kind's colour |
| BusinessCalendar.StyleOf | static/app.js:588-591 | a date has a rule exactly when some rule names it, and the colour comes from such a rule |
| BusinessCalendar.StyleOfHolidays | static/app.js:574-593 | with unique dates, a date gets a colour exactly when it is a holiday, and that colour is its entry's kind's colour |
| DateOrder.LexTransitive | static/app.js:606 | the string order the sort uses is transitive |
| DateOrder.LexTotal | static/app.js:606 | two different strings are always ordered one way or the other |
| DateOrder.DateLeTransitive | static/app.js:606 | "not later than" is transitive |
| DateOrder.DateLeTotal | static/app.js:606 | any two dates are comparable |
| DateOrder.DigitsOrder | static/app.js:606 | on equal-length digit strings, character order is numeric order, and equality is numeric equality |
| DateOrder.IsoLexOrderIsCalendarOrder | static/app.js:606 | for yyyy-mm-dd dates, string order is (year, month, day) order, the order of subtracting the parsed dates |
| Holidays.InsertByDate | static/app.js:606 | inserting into a sorted list keeps it sorted and adds exactly the one entry |
| Holidays.UniquePermutation | static/app.js:606 | any permutation of a list with unique dates has unique dates |
| Holidays.SortedUniqueDetermined | static/app.js:606 | two sorted permutations of a list with unique dates are equal |
| Holidays.ClientSettings.constructor | static/app.js:12-16 | the initial settings: 5/2, 09:00 to 18:00, no holidays |
| Holidays.ClientSettings.UpdateHolidaysList | static/app.js:595-606 | afterwards the list is sorted by date and is a permutation of the old list; unique dates stay unique |
| Holidays.ClientSettings.AddHoliday | static/app.js:419-436 | an empty date or a date already present is rejected and leaves the list unchanged; otherwise exactly the entry {date, type} is added and the list is re-sorted; unique dates stay unique |
| Holidays.AddTwice | static/app.js:423-433 | from the initial settings, the first add of a date succeeds and the second is rejected as a duplicate |
| Holidays.WithoutDate | static/app.js:636 | the filtered list has no entry with the date and is no longer than the input |
| Holidays.WithoutDateMembers | static/app.js:636 | an entry is kept exactly when it was in the list with another date |
| Holidays.WithoutDateConcat | static/app.js:636 | filtering distributes over concatenation, so relative order is kept |
| Holidays.RemoveFromUnique | static/app.js:636 | with unique dates, removing the date at position k deletes exactly that entry |
| Holidays.RemoveAbsent | static/app.js:636 | removing a date that is not present changes nothing |
| Holidays.WithoutDateKeepsOrder | static/app.js:636 | filtering a sorted list with unique dates keeps it sorted with unique dates |
| Holidays.WithoutDateUnique | static/app.js:636 | filtering keeps dates unique |
| Holidays.ClientSettings.SubmitSettingsForm | static/app.js:446-448 | the schedule and both work hours become the submitted values; the holiday list is kept |
| Holidays.ClientSettings.ApplySettings | static/app.js:538-549 | nothing while the calendar does not exist; otherwise the days off and business hours of the current settings, and one style rule per holiday with its date and its kind's colour |
| Holidays.SixDayWeekSubmitted | static/app.js:443-572 | after submitting 6/1 with 08:00 to 17:00, Sunday is the only day off, Monday to Saturday are business days with those hours, and there are no holiday rules |
| Holidays.ClientSettings.RemoveHoliday | static/app.js:635-640 | afterwards no entry has the date; the list is sorted and is a permutation of the filtered list; a list that was sorted and unique becomes exactly its filtered copy |
| HtmlEscape.EscapeHtml | static/app.js:376-384 | empty input gives ""; the output has no <, >, " or '; every & starts one of the five entities; unescaping the output gives the input back |
| HtmlEscape.ChainIsPerCharacter | static/app.js:378-383 | the five chained replacements, & first, equal escaping each character once, so nothing is escaped twice |
| HtmlEscape.UnescapeInvertsEscape | static/app.js:376-384 | decoding the entities inverts the per-character escape |
| HtmlEscape.PlainTextUnchanged | static/app.js:376-384 | text without special characters is returned unchanged |
| StatsPanel.FirstWithType | static/app.js:737 | the result is None exactly when no entry has the type; otherwise it is the first entry with the type |
| StatsPanel.MaxHours | static/app.js:734 | at least 1, at least every entry's hours, and either 1 or one entry's hours |
| StatsPanel.UpdateStats | static/app.js:730-753 | five items in category order, each with the category's label, the first matching entry's hours (or 0), and a bar of hours/max*100 |
| StatsPanel.ProgressWithinBar | static/app.js:734-747 | with non-negative hours every bar is between 0 and 100 percent |
| StatsPanel.FirstEntryWins | static/app.js:737 | when a type occurs several times, the first occurrence's hours are shown |
| StatsPanel.FallbackStats | static/app.js:721-725 | the fallback has five entries in category order, each with zero hours and its label |
| StatsPanel.StatsToRender | static/app.js:708-727 | a successful answer is rendered as received; a failure renders the fallback |
| StatsPanel.FallbackPanelIsZero | static/app.js:719-726 | after a failed request every category shows 0 hours against a maximum of 1 |
| StatsPanel.SingleCallExample | static/app.js:730-753 | a single one-hour call entry shows 1 for calls and 0 for the other four categories |
| RenderWait.MaxChecks | static/app.js:339-353 | the look budget is attempts+1, or 1 when attempts is not positive |
| RenderWait.WaitForRendering | static/app.js:339-353 | at most attempts+1 looks; resolves at the first look that finds the element, and every earlier look failed; rejects only after attempts+1 failed looks |
| RenderWait.ReportWaitNeverShown | static/app.js:122 | the report's wait (3 attempts) gives up after exactly four looks when the element never appears |
| RenderWait.ReportWaitAlreadyShown | static/app.js:122 | an element already on the page resolves at the first look |
| TaskFetch.Or | static/app.js:198-202 | `value \|\| fallback`: a missing or empty value gives the fallback, any other value is kept |
| TaskFetch.RequestUrl | static/app.js:178-182 | the period is appended to /api/events only when both dates are non-empty |
| TaskFetch.Normalize | static/app.js:197-203 | a set, non-empty title or type is kept and a missing or empty one becomes "Без названия" or "task", so both are never empty; start and end are copied; the description is the given one or "" |
| TaskFetch.FetchTasksForPeriod | static/app.js:176-218 | success maps every event in order; failure gives the single placeholder task of type "error" |
| TaskFetch.TasksAreLabelled | static/app.js:176-218 | every task handed to the report has a title and a type, and the list is empty only for an empty answer |
| TaskFetch.NormalizeIdempotent | static/app.js:197-203 | defaulting a defaulted task changes nothing, and an event with all fields set passes through unchanged |
| Report.SummaryOf | static/app.js:240-243 | one summary row per panel item, in panel order, with its label and hours |
| Report.DetailOf | static/app.js:292-299 | a task row keeps start and end; its title and description cells contain no markup character and decode back to the task's text |
| Report.GenerateReport | static/app.js:239-314 | the report carries the period, the panel's summary, and one escaped row per task in task order |
| Report.ReportSummaryFollowsCategories | static/app.js:239-275 | a report built from a rendered panel lists the five categories in order with their hours |
| Report.ReportCellsDecode | static/app.js:297-298 | every escaped cell of the report decodes to the task's own text |
| Report.Session.constructor | static/app.js:17-36 | the page's starting state: the report flag clear (as declared at line 107), no loader, the period filters as set at startup, no panel, downloads or errors yet, and whether the page has the stats container |
| Report.Session.Trigger | static/app.js:109-115 | a click while a report is being generated changes nothing; otherwise the flag is set and the loader attached before any work |
| Report.Session.Resume | static/app.js:117-142 | on every path the loader is removed and the flag released; with the stats container present, the panel is rendered from the answer or the fallback and exactly one report of that panel and the fetched tasks is downloaded; without it, nothing is rendered or downloaded and one error is shown |
| Report.RenderAndBuild | static/app.js:117-129 | with the stats container the rendered panel is the one for the answer or the fallback, the rendering wait resolves at its first look (one check), and the report is exactly the one for that panel, the period and the fetched tasks |
| Report.Session.DownloadTimeReport | static/app.js:109-143 | an ignored click changes nothing; a handled click keeps the container and the filters and releases the flag, and with the stats container it renders the panel and downloads exactly the report of that panel and the fetched tasks, otherwise it shows one error and downloads nothing |
| Report.DoubleClick | static/app.js:109-142 | a second click during generation is ignored, exactly one report is downloaded, and the button works again afterwards |
| Report.FailedReportReleasesLock | static/app.js:133-142 | on a page without the stats container the report downloads nothing, shows one error and releases the flag |
| Server.DefaultSettings | main.go:56-63 | schedule 5/2, hours 09:00 to 18:00, an empty holiday list |
| Server.DefaultsAgreeWithClient | main.go:56-63 | the server's defaults equal the client's initial settings |
| Server.HandleSettings | main.go:50-76 | GET answers the defaults; POST echoes the decoded settings, or answers 400 with the decoder's message; other methods get an empty 200 |
| Server.NameOf | main.go:156-162 | a known type gets its label; a missing key gives "" |
| Server.TypeTablesAgree | main.go:156-162 | the server's type list and labels are the client's category table |
| Server.Round | main.go:172 | within one half of the argument; a tie goes up for non-negative arguments and down for negative ones, so halves round away from zero |
| Server.RoundTenth | main.go:172 | a whole number of tenths within 0.05 of the hours, never negative for non-negative hours |
| Server.RoundTenthIdempotent | main.go:172 | rounding twice is rounding once |
| Server.Summarize | main.go:164-174 | a row's summary keeps its type, looks up its label, and rounds its hours, with NULL read as 0 |
| Server.ScanStats | main.go:164-175 | None exactly when some row fails to scan; otherwise one summary per row, in order |
| Server.MissingZerosMembers | main.go:183-211 | the appended rows are zero rows for known types the query did not return, and every such type gets one |
| Server.CompleteStats | main.go:183-211 | the completed list is the query's rows, unchanged and in place, followed by a zero row for each missing known type, in allTypes order |
| Server.AppendedKindsEarlier | main.go:195-202 | the inner scan over the growing slice finds a type exactly when the query returned it |
| Server.CompletedHasEveryType | main.go:183-211 | after completion every known type is present |
| Server.CompletedDistinct | main.go:145-210 | if the query's types are distinct, the completed list names no type twice |
| Server.MissingZerosCount | main.go:195-210 | the number of appended rows is the number of known types missing from the query |
| Server.EmptyMatchesClientFallback | main.go:185-192 | with no rows the completion gives exactly the client's fallback list |
| Server.HandleStats | main.go:147-216 | a query failure, a scan failure and an iteration error each give their 500 message; otherwise 200 with the scanned rows completed |
| Server.WithDefaultType | main.go:256-258 | the type is never empty; a non-empty type is kept; an empty one becomes "task" and nothing else changes |
| Server.DefaultTypeIdempotent | main.go:295-297 | defaulting twice is defaulting once, and it only touches the type |
| Server.TrimPrefix | main.go:281 | with the prefix, prefix + result is the path; without it, the path is returned unchanged |
| Server.TrimPrefixRoundTrip | main.go:281 | the id put after the prefix is the id taken out |
| Server.ListEvents | main.go:224-246 | a query failure and a scan failure give their 500 messages; zero rows give the literal [], never null; otherwise every row, in order |
| Server.EmptyListing | main.go:242-244 | an empty table is answered with 200 and [] |
| Server.HandleEvents | main.go:219-275 | GET selects the events and answers exactly as `ListEvents` does; POST with a bad body is 400 and touches no table; otherwise the inserted event has the new id and a defaulted type, and the answer is 201 with it or 500; other methods are 405 |
| Server.HandleSingleEvent | main.go:277-322 | an empty id is 400 with no database call; PUT updates the path's id with the defaulted body; DELETE deletes that id; the status follows the statement's outcome; other methods are 405 |
| Server.SingleEventExamples | main.go:281-285 | a request for /api/events/ makes no database call; /api/events/<id> deletes that id |

## Left out

- Rendering is not modelled:
  - the DOM: modals, the loader's markup, `showError`'s timer, `scrollToWorkHours`;
  - FullCalendar itself and its options other than the business-hours and weekend values;
  - the two fixed style rules of `updateCalendarStyles`.
- The network, storage and database are inputs: `fetch` outcomes, local storage in `loadSettings` and `saveSettings`, the `Blob` download, Go's `net/http` and JSON encoding. The SQL text is not modelled either, including the `julianday` duration and the date-range filter of `handleStats`.
- Real time is not modelled. The delays (500 ms between looks, the 100 ms download delay, the 5 s error banner) become discrete steps, and the clock readings are parameters.
- Report.Session.Resume: the handler runs as one step after `Trigger`. While it waits, any other handler that calls `loadStats` (`eventChange`, `eventRemove`, the filter controls, the event form's submit handler and the delete button) may re-render the panel or change `currentFilters` before the report reads them; those interleavings are not modelled. A re-rendered panel still holds five `.stat-item` elements, so the wait's outcome does not change.
- Report.Session.Resume: `updateStats` is taken to throw only when `#statsContainer` is missing. An answer whose entries lack numeric hours makes `toFixed` throw inside `loadStats`'s `try`; the model counts that among the failed requests that fall back to `emptyStats`.
- Report.Session.Resume: `downloadHtmlFile` and `generateReportHtml` are taken never to throw, since the model has no way for a `Blob` to fail. The file name, built from the locale date, is not modelled.
- Report.SummaryOf: a summary row's value is the panel's hours rather than the text of `toFixed(1)`. No floating point is modelled; hours are exact reals, so `toFixed`, `calculateHours`, `calculateTotalHours` and the total row are left out.
- Report.GenerateReport: the template text, the locale formatting of dates and times, and the durations are not modelled.
- Server.RoundTenth: the rounding is stated on exact reals. The binary rounding of `float64` before and after `math.Round` is not modelled.
- Holidays.ClientSettings.UpdateHolidaysList: the sort compares dates as strings. This matches the comparator on yyyy-mm-dd dates (proved in DateOrder). Strings that `Date` cannot parse make the comparator return NaN; that case is not modelled.
- `formatDate`, `formatDisplayDate`, `getFirstDayOfMonth` and `getLastDayOfMonth` depend on the `Date` library and the locale, and are not part of this model.
- `encodeURIComponent` is a parameter of `TaskFetch.RequestUrl`.
- The URL that `loadStats` builds is not modelled.
- `getMockTasks` is unused by the program.
- Event ids come from the clock's nanoseconds and are a parameter. `initDB`, `main`, the static file server and the CORS headers are not modelled.
- The filter controls (`updateFilters`, `resetFilters`) set `currentFilters` from the date inputs, or from the current month's bounds taken from the clock, and then reload the statistics with `loadStats`; they are not modelled. `applySettings`' scrolling and refetching are not modelled either.
- Where the documented behaviour and the code differ, the model follows the code:
  - the settings commit stores the form's values without checking them;
  - the add handler saves the holiday list before it sorts it;
  - `GET /api/events` ignores any `start` and `end` query parameters, so the report's tasks are not limited to the period.
- `applySettings` passes the array of days off as FullCalendar's `weekends` option. That option is a boolean, and every array is truthy in JavaScript. The model computes the array and does not model what FullCalendar makes of it.
