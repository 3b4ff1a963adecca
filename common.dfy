/** Shared vocabulary of the client (static/app.js) and the server (main.go):
    the closed set of event categories with their display names, and the
    settings object with its holiday list. */
module Common {

  datatype Option<+T> = None | Some(value: T) {
    function GetOr(default: T): T {
      match this
      case Some(v) => v
      case None => default
    }
  }

  /** `p` is a prefix of `s`. */
  predicate StartsWith(s: string, p: string) {
    |p| <= |s| && s[..|p|] == p
  }

  /** One entry of the category table: its key and the Russian label shown
      in the statistics panel and in the report. */
  datatype Category = Category(key: string, name: string)

  /** The category table in declaration order (the `eventTypes` object of the
      client; object keys keep insertion order, so this is also the order of
      `Object.keys` and `Object.entries`). */
  const Categories: seq<Category> := [
    Category("task", "Задачи"),
    Category("meeting", "Встречи"),
    Category("call", "Звонки"),
    Category("study", "Учеба"),
    Category("rest", "Отдых")
  ]

  /** The category keys alone, in the same order: the client's
      `Object.keys(eventTypes)`. */
  const CategoryKeys: seq<string> := ["task", "meeting", "call", "study", "rest"]

  lemma CategoryKeysMatchTable()
    ensures |CategoryKeys| == |Categories| == 5
    ensures forall i :: 0 <= i < 5 ==> CategoryKeys[i] == Categories[i].key
  {
  }

  predicate IsCategory(t: string) {
    t in CategoryKeys
  }

  /** Label of a known category; `""` for anything else. */
  function CategoryName(t: string): (name: string)
    ensures !IsCategory(t) ==> name == ""
    ensures forall i :: 0 <= i < |Categories| && Categories[i].key == t ==> name == Categories[i].name
  {
    if t == "task" then "Задачи"
    else if t == "meeting" then "Встречи"
    else if t == "call" then "Звонки"
    else if t == "study" then "Учеба"
    else if t == "rest" then "Отдых"
    else ""
  }

  /** A holiday entry: an ISO calendar date and its kind (`holiday` or a
      pre-holiday). */
  datatype Holiday = Holiday(date: string, kind: string)

  datatype WorkHours = WorkHours(start: string, end: string)

  /** The settings object shared by client and server. */
  datatype Settings = Settings(workSchedule: string, workHours: WorkHours, holidays: seq<Holiday>)

  /** The initial value of the client's `currentSettings`. */
  function ClientDefaultSettings(): Settings {
    Settings("5/2", WorkHours("09:00", "18:00"), [])
  }

  function Dates(hs: seq<Holiday>): (ds: seq<string>)
    ensures |ds| == |hs|
    ensures forall i :: 0 <= i < |hs| ==> ds[i] == hs[i].date
  {
    seq(|hs|, i requires 0 <= i < |hs| => hs[i].date)
  }

  /** The holiday-list invariant: at most one entry per date. */
  predicate UniqueDates(hs: seq<Holiday>) {
    forall i, j :: 0 <= i < j < |hs| ==> hs[i].date != hs[j].date
  }
}
