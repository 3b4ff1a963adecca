/** The statistics panel of the client (static/app.js, `updateStats` and
    the fallback in `loadStats`). Hours are exact reals here; the display's
    `toFixed(1)` is not modelled. */
module StatsPanel {
  import opened Common

  /** One element of the `/api/stats` answer. */
  datatype StatEntry = StatEntry(category: string, hours: real, name: string)

  /** One `.stat-item` appended to the panel: its category, the label from
      the category table, the hours shown and the progress-bar width in
      percent. */
  datatype StatItem = StatItem(category: string, name: string, hours: real, progress: real)

  /** `stats.find(s => s.type === type)`. */
  function FirstWithType(stats: seq<StatEntry>, t: string): (r: Option<StatEntry>)
    ensures r.None? <==> forall i :: 0 <= i < |stats| ==> stats[i].category != t
    ensures r.Some? ==> exists i :: (0 <= i < |stats| && stats[i] == r.value && r.value.category == t &&
      forall j :: 0 <= j < i ==> stats[j].category != t)
  {
    if stats == [] then None
    else if stats[0].category == t then Some(stats[0])
    else
      var r := FirstWithType(stats[1..], t);
      if r.Some? then
        var i :| 0 <= i < |stats[1..]| && stats[1..][i] == r.value && r.value.category == t &&
          forall j :: 0 <= j < i ==> stats[1..][j].category != t;
        assert stats[i + 1] == r.value;
        r
      else r
  }

  /** The hours an item shows: the first matching entry's, or 0. */
  function HoursFor(stats: seq<StatEntry>, t: string): real {
    match FirstWithType(stats, t)
    case Some(s) => s.hours
    case None => 0.0
  }

  /** `Math.max(...stats.map(s => s.hours), 1)`. */
  function MaxHours(stats: seq<StatEntry>): (m: real)
    ensures m >= 1.0
    ensures forall i :: 0 <= i < |stats| ==> stats[i].hours <= m
    ensures m == 1.0 || exists i :: 0 <= i < |stats| && stats[i].hours == m
  {
    if stats == [] then 1.0
    else
      var rest := MaxHours(stats[1..]);
      assert forall i :: 1 <= i < |stats| ==> stats[i] == stats[1..][i - 1];
      if stats[0].hours > rest then stats[0].hours else rest
  }

  /** What the panel shows for an answer: one item per category, in
      declaration order, whatever the answer contained, with the first
      matching entry's hours and a bar relative to the largest hours. */
  predicate IsPanelFor(panel: seq<StatItem>, stats: seq<StatEntry>) {
    |panel| == |Categories| &&
    forall i :: 0 <= i < |Categories| ==>
      panel[i].category == Categories[i].key &&
      panel[i].name == Categories[i].name &&
      panel[i].hours == HoursFor(stats, Categories[i].key) &&
      panel[i].progress == panel[i].hours / MaxHours(stats) * 100.0
  }

  /** `updateStats(stats)`: rebuilds the container item by item. */
  method UpdateStats(stats: seq<StatEntry>) returns (panel: seq<StatItem>)
    ensures IsPanelFor(panel, stats)
  {
    var maxHours := MaxHours(stats);
    panel := [];
    var index := 0;
    while index < |Categories|
      invariant 0 <= index <= |Categories|
      invariant |panel| == index
      invariant forall i :: 0 <= i < index ==>
        panel[i].category == Categories[i].key &&
        panel[i].name == Categories[i].name &&
        panel[i].hours == HoursFor(stats, Categories[i].key) &&
        panel[i].progress == panel[i].hours / maxHours * 100.0
    {
      var config := Categories[index];
      var stat := FirstWithType(stats, config.key).GetOr(StatEntry(config.key, 0.0, ""));
      panel := panel + [StatItem(config.key, config.name, stat.hours, stat.hours / maxHours * 100.0)];
      index := index + 1;
    }
  }

  /** With non-negative hours in the answer every progress bar is between
      empty and full. */
  lemma ProgressWithinBar(stats: seq<StatEntry>, t: string)
    requires forall i :: 0 <= i < |stats| ==> stats[i].hours >= 0.0
    ensures 0.0 <= HoursFor(stats, t) / MaxHours(stats) * 100.0 <= 100.0
  {
    var m := MaxHours(stats);
    HoursWithinMax(stats, t);
    DivideWithin(HoursFor(stats, t), m);
  }

  lemma DivideWithin(h: real, m: real)
    requires 0.0 <= h <= m && m > 0.0
    ensures 0.0 <= h / m * 100.0 <= 100.0
  {
    var q := h / m;
    assert q * m == h;
  }

  /** The hours an item shows lie between zero and the bar's maximum. */
  lemma HoursWithinMax(stats: seq<StatEntry>, t: string)
    requires forall i :: 0 <= i < |stats| ==> stats[i].hours >= 0.0
    ensures 0.0 <= HoursFor(stats, t) <= MaxHours(stats)
  {
    var r := FirstWithType(stats, t);
    if r.Some? {
      var i :| 0 <= i < |stats| && stats[i] == r.value;
    }
  }

  /** An answer that names a category twice shows the first entry's hours:
      entries after it for the same category are ignored. */
  lemma FirstEntryWins(stats: seq<StatEntry>, k: int)
    requires 0 <= k < |stats|
    requires forall j :: 0 <= j < k ==> stats[j].category != stats[k].category
    ensures HoursFor(stats, stats[k].category) == stats[k].hours
  {
    var r := FirstWithType(stats, stats[k].category);
    var i :| 0 <= i < |stats| && stats[i] == r.value && r.value.category == stats[k].category &&
      forall j :: 0 <= j < i ==> stats[j].category != stats[k].category;
    assert i == k;
  }

  /** The list `loadStats` renders when the request fails: every category
      with zero hours, in declaration order. */
  function FallbackStats(): (stats: seq<StatEntry>)
    ensures |stats| == |Categories|
    ensures forall i :: 0 <= i < |Categories| ==>
      stats[i] == StatEntry(Categories[i].key, 0.0, Categories[i].name)
  {
    seq(|Categories|, i requires 0 <= i < |Categories| => StatEntry(Categories[i].key, 0.0, Categories[i].name))
  }

  /** What `loadStats` hands to `updateStats`: the parsed answer, or the
      fallback when the request, its status or its parsing failed. */
  function StatsToRender(response: Option<seq<StatEntry>>): (stats: seq<StatEntry>)
    ensures response.Some? ==> stats == response.value
    ensures response.None? ==> stats == FallbackStats()
  {
    match response
    case Some(s) => s
    case None => FallbackStats()
  }

  /** After a failed request the panel shows every category at zero hours
      with an empty bar. */
  lemma FallbackPanelIsZero(t: string)
    ensures HoursFor(FallbackStats(), t) == 0.0
    ensures MaxHours(FallbackStats()) == 1.0
  {
    var f := FallbackStats();
    match FirstWithType(f, t)
    case Some(s) =>
      assert s in f;
    case None =>
  }

  /** The worked example: a single `call` entry of one hour shows 1.0 for
      calls and 0.0 for the four other categories. */
  lemma SingleCallExample()
    ensures var stats := [StatEntry("call", 1.0, "Звонки")];
      HoursFor(stats, "task") == 0.0 && HoursFor(stats, "meeting") == 0.0 &&
      HoursFor(stats, "call") == 1.0 && HoursFor(stats, "study") == 0.0 &&
      HoursFor(stats, "rest") == 0.0
  {
  }
}
