/** The report button of the client (static/app.js, `downloadTimeReport` and
    `generateReportHtml`). The handler is asynchronous: its synchronous part
    (`Trigger`) checks and sets the single-flight flag and attaches the
    loader; the rest (`Resume`) runs after the first `await`, so clicks may
    be handled in between. The page's state is a `Session` object. */
module Report {
  import opened Common
  import opened StatsPanel
  import opened RenderWait
  import opened TaskFetch
  import opened HtmlEscape

  /** One row of the summary table: the label and the hours read back from a
      `.stat-item`. */
  datatype SummaryRow = SummaryRow(caption: string, hours: real)

  /** One row of the task table; title and description are escaped. */
  datatype DetailRow = DetailRow(start: Option<string>, end: Option<string>, title: string, description: string)

  /** The parts of the report that depend on the data; the template text,
      date formatting and durations are not modelled. */
  datatype ReportDoc = ReportDoc(periodStart: string, periodEnd: string, summary: seq<SummaryRow>, details: seq<DetailRow>)

  function SummaryOf(panel: seq<StatItem>): (rows: seq<SummaryRow>)
    ensures |rows| == |panel|
    ensures forall i :: 0 <= i < |panel| ==> rows[i].caption == panel[i].name && rows[i].hours == panel[i].hours
  {
    seq(|panel|, i requires 0 <= i < |panel| => SummaryRow(panel[i].name, panel[i].hours))
  }

  function DetailOf(t: Task): (row: DetailRow)
    ensures row.start == t.start && row.end == t.end
    ensures Unescape(row.title) == t.title && Unescape(row.description) == t.description
    ensures forall i :: 0 <= i < |row.title| ==> !IsMarkupChar(row.title[i])
    ensures forall i :: 0 <= i < |row.description| ==> !IsMarkupChar(row.description[i])
  {
    DetailRow(t.start, t.end, EscapeHtml(t.title), EscapeHtml(t.description))
  }

  /** `generateReportHtml(tasks)`: the summary lists the panel's items in
      panel order, the detail table one row per task in task order. */
  function GenerateReport(start: string, end: string, panel: seq<StatItem>, tasks: seq<Task>): (r: ReportDoc)
    ensures r.periodStart == start && r.periodEnd == end
    ensures r.summary == SummaryOf(panel)
    ensures |r.details| == |tasks|
    ensures forall i :: 0 <= i < |tasks| ==> r.details[i] == DetailOf(tasks[i])
  {
    ReportDoc(start, end, SummaryOf(panel), seq(|tasks|, i requires 0 <= i < |tasks| => DetailOf(tasks[i])))
  }

  /** A report built after the stats panel was rendered lists the five
      categories in declaration order. */
  lemma ReportSummaryFollowsCategories(start: string, end: string, panel: seq<StatItem>, stats: seq<StatEntry>, tasks: seq<Task>)
    requires IsPanelFor(panel, stats)
    ensures |GenerateReport(start, end, panel, tasks).summary| == |Categories|
    ensures forall i :: 0 <= i < |Categories| ==>
      GenerateReport(start, end, panel, tasks).summary[i] == SummaryRow(Categories[i].name, HoursFor(stats, Categories[i].key))
  {
  }

  /** A report's cells can be read back: every escaped cell decodes to the
      task's own text. */
  lemma ReportCellsDecode(start: string, end: string, panel: seq<StatItem>, tasks: seq<Task>)
    ensures forall i :: 0 <= i < |tasks| ==>
      Unescape(GenerateReport(start, end, panel, tasks).details[i].title) == tasks[i].title &&
      Unescape(GenerateReport(start, end, panel, tasks).details[i].description) == tasks[i].description
  {
  }

  /** The `try` block of `downloadTimeReport` on a page with the stats
      container: `loadStats` renders the panel, the rendering wait finds a
      `.stat-item` at its first look, and the tasks are fetched and the
      report built from the panel and the period `start`..`end`. */
  method RenderAndBuild(statsResponse: Option<seq<StatEntry>>, tasksResponse: Option<seq<RawEvent>>,
                        now: string, inAnHour: string, start: string, end: string)
    returns (rendered: seq<StatItem>, wait: RenderResult, checks: nat, report: ReportDoc)
    ensures IsPanelFor(rendered, StatsToRender(statsResponse))
    ensures wait == Resolved(0) && checks == 1
    ensures report == GenerateReport(start, end, rendered, FetchTasksForPeriod(tasksResponse, now, inAnHour))
  {
    rendered := UpdateStats(StatsToRender(statsResponse));
    var statItemShown: nat -> bool := k => |rendered| > 0;
    wait, checks := WaitForRendering(statItemShown, 3);
    assert statItemShown(0);
    var tasks := FetchTasksForPeriod(tasksResponse, now, inAnHour);
    report := GenerateReport(start, end, rendered, tasks);
  }

  /** The page state the report button works on. `hasStatsContainer` says
      whether the page has the `#statsContainer` element `updateStats`
      renders into. */
  class Session {
    var isGeneratingReport: bool
    var loaderAttached: bool
    var hasStatsContainer: bool
    var filterStart: string
    var filterEnd: string
    var panel: seq<StatItem>
    var downloads: seq<ReportDoc>
    var errorsShown: nat

    constructor(start: string, end: string, container: bool)
      ensures !isGeneratingReport && !loaderAttached && hasStatsContainer == container
      ensures filterStart == start && filterEnd == end
      ensures panel == [] && downloads == [] && errorsShown == 0
    {
      isGeneratingReport := false;
      loaderAttached := false;
      hasStatsContainer := container;
      filterStart := start;
      filterEnd := end;
      panel := [];
      downloads := [];
      errorsShown := 0;
    }

    /** A click: ignored while a report is being generated; otherwise the
        flag is raised and the loader attached before any work. */
    method Trigger() returns (started: bool)
      modifies this
      ensures started <==> !old(isGeneratingReport)
      ensures !started ==> unchanged(this)
      ensures started ==> isGeneratingReport && loaderAttached
      ensures started ==> (hasStatsContainer == old(hasStatsContainer) &&
        filterStart == old(filterStart) && filterEnd == old(filterEnd) &&
        panel == old(panel) && downloads == old(downloads) && errorsShown == old(errorsShown))
    {
      if isGeneratingReport {
        return false;
      }
      isGeneratingReport := true;
      loaderAttached := true;
      started := true;
    }

    /** The body after the first `await`. `statsResponse` and
        `tasksResponse` are the two requests' outcomes, `now` and `inAnHour`
        the clock used by the placeholder task. `loadStats` ends by
        rendering the panel, so the rendering wait finds a `.stat-item` at
        its first look. Without `#statsContainer`, `updateStats` throws in
        `loadStats`'s `try` and again in its `catch`, so `loadStats` rejects
        and the handler's `catch` shows the error. Whichever way the body
        ends, the loader is removed and the flag is released. */
    method Resume(statsResponse: Option<seq<StatEntry>>, tasksResponse: Option<seq<RawEvent>>,
                  now: string, inAnHour: string)
      requires isGeneratingReport
      modifies this
      ensures !isGeneratingReport && !loaderAttached
      ensures hasStatsContainer == old(hasStatsContainer)
      ensures filterStart == old(filterStart) && filterEnd == old(filterEnd)
      ensures hasStatsContainer ==> (IsPanelFor(panel, StatsToRender(statsResponse)) &&
        downloads == old(downloads) + [GenerateReport(filterStart, filterEnd, panel,
          FetchTasksForPeriod(tasksResponse, now, inAnHour))] &&
        errorsShown == old(errorsShown))
      ensures !hasStatsContainer ==>
        panel == old(panel) && downloads == old(downloads) && errorsShown == old(errorsShown) + 1
    {
      if !hasStatsContainer {
        errorsShown := errorsShown + 1;
      } else {
        var rendered, wait, checks, report := RenderAndBuild(statsResponse, tasksResponse, now, inAnHour, filterStart, filterEnd);
        panel := rendered;
        downloads := downloads + [report];
      }
      loaderAttached := false;
      isGeneratingReport := false;
    }

    /** A click handled start to finish with no other click in between. */
    method DownloadTimeReport(statsResponse: Option<seq<StatEntry>>, tasksResponse: Option<seq<RawEvent>>,
                              now: string, inAnHour: string)
      modifies this
      ensures old(isGeneratingReport) ==> unchanged(this)
      ensures !old(isGeneratingReport) ==> (!isGeneratingReport && !loaderAttached &&
        hasStatsContainer == old(hasStatsContainer) &&
        filterStart == old(filterStart) && filterEnd == old(filterEnd))
      ensures !old(isGeneratingReport) && old(hasStatsContainer) ==>
        IsPanelFor(panel, StatsToRender(statsResponse)) &&
        downloads == old(downloads) + [GenerateReport(filterStart, filterEnd, panel,
          FetchTasksForPeriod(tasksResponse, now, inAnHour))] &&
        errorsShown == old(errorsShown)
      ensures !old(isGeneratingReport) && !old(hasStatsContainer) ==>
        panel == old(panel) && downloads == old(downloads) && errorsShown == old(errorsShown) + 1
    {
      var started := Trigger();
      if started {
        Resume(statsResponse, tasksResponse, now, inAnHour);
      }
    }
  }

  /** A double click: the second click arrives while the first is still
      waiting and is ignored, exactly one report is downloaded, and
      afterwards the button works again. */
  method DoubleClick(statsResponse: Option<seq<StatEntry>>, tasksResponse: Option<seq<RawEvent>>,
                     now: string, inAnHour: string) returns (first: bool, second: bool, downloaded: nat, third: bool)
    ensures first && !second && downloaded == 1 && third
  {
    var s := new Session("", "", true);
    first := s.Trigger();
    second := s.Trigger();
    s.Resume(statsResponse, tasksResponse, now, inAnHour);
    downloaded := |s.downloads|;
    third := s.Trigger();
  }

  /** A page without the stats container: the report fails, one error is
      shown, nothing is downloaded, and the lock is still released. */
  method FailedReportReleasesLock(statsResponse: Option<seq<StatEntry>>, tasksResponse: Option<seq<RawEvent>>,
                                  now: string, inAnHour: string) returns (downloaded: nat, errors: nat, again: bool)
    ensures downloaded == 0 && errors == 1 && again
  {
    var s := new Session("", "", false);
    var started := s.Trigger();
    s.Resume(statsResponse, tasksResponse, now, inAnHour);
    downloaded := |s.downloads|;
    errors := s.errorsShown;
    again := s.Trigger();
  }
}
