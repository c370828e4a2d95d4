/**
 * The task list screen for one dashboard bucket: unwrapping of the list
 * response, the status filter, the 0–100 percentage of each task, the status
 * chip colours and label, and the "DD Mon" and "time ago" formatters.
 */
module CardsData {
  import opened Optional
  import opened JsText
  import opened Calendar
  import opened Arith
  import opened DprSlice

  /** The shapes of response the screen accepts: nothing, a bare array, or
      an object whose `data` and `items` members are arrays or not. */
  datatype TasksResponse =
    | NoResponse
    | ArrayResponse(tasks: seq<DprItem>)
    | ObjectResponse(data: Option<seq<DprItem>>, items: Option<seq<DprItem>>)

  /** `tasks`: `data` when it is an array, else the response itself when it is
      an array, else `items` when it is an array, else `[]`. */
  function Tasks(res: TasksResponse): (tasks: seq<DprItem>)
    ensures res.ObjectResponse? && res.data.Some? ==> tasks == res.data.value
    ensures res.ArrayResponse? ==> tasks == res.tasks
    ensures res.ObjectResponse? && res.data.None? && res.items.Some? ==> tasks == res.items.value
    ensures res.NoResponse? || (res.ObjectResponse? && res.data.None? && res.items.None?) ==> tasks == []
  {
    match res
    case NoResponse => []
    case ArrayResponse(ts) => ts
    case ObjectResponse(data, items) =>
      if data.Some? then data.value else if items.Some? then items.value else []
  }

  /** `t.current_status?.status?.toLowerCase() === filter.toLowerCase()`: a
      task without a status never matches. */
  predicate MatchesFilter(t: DprItem, filter: string) {
    t.currentStatus.Some? && ToLower(t.currentStatus.value) == ToLower(filter)
  }

  function FilterByStatus(tasks: seq<DprItem>, filter: string): (r: seq<DprItem>)
    ensures |r| <= |tasks|
    ensures forall t :: t in r ==> t in tasks && MatchesFilter(t, filter)
    ensures forall t :: t in tasks && MatchesFilter(t, filter) ==> t in r
  {
    if tasks == [] then []
    else if MatchesFilter(tasks[0], filter) then [tasks[0]] + FilterByStatus(tasks[1..], filter)
    else FilterByStatus(tasks[1..], filter)
  }

  /** `filteredTasks`: "all" keeps the list as it is; any other filter keeps
      exactly the tasks whose status matches it. */
  function FilteredTasks(tasks: seq<DprItem>, filter: string): (r: seq<DprItem>)
    ensures filter == "all" ==> r == tasks
    ensures filter != "all" ==> forall t :: t in r <==> t in tasks && MatchesFilter(t, filter)
    ensures |r| <= |tasks|
  {
    if filter == "all" then tasks else FilterByStatus(tasks, filter)
  }

  /** Filtering keeps the relative order: filtering a concatenation filters
      each part. */
  lemma {:induction false} FilterAppend(a: seq<DprItem>, b: seq<DprItem>, filter: string)
    ensures FilterByStatus(a + b, filter) == FilterByStatus(a, filter) + FilterByStatus(b, filter)
  {
    if a == [] {
      assert a + b == b;
    } else {
      assert (a + b)[0] == a[0];
      assert (a + b)[1..] == a[1..] + b;
      FilterAppend(a[1..], b, filter);
    }
  }

  /** The number of tasks with a matching status. */
  function CountMatching(tasks: seq<DprItem>, filter: string): nat {
    if tasks == [] then 0
    else (if MatchesFilter(tasks[0], filter) then 1 else 0) + CountMatching(tasks[1..], filter)
  }

  /** `filteredCount` counts exactly the matching tasks, and never exceeds
      `totalCount`. */
  lemma {:induction false} FilteredCount(tasks: seq<DprItem>, filter: string)
    requires filter != "all"
    ensures |FilteredTasks(tasks, filter)| == CountMatching(tasks, filter) <= |tasks|
  {
    if tasks != [] {
      FilteredCount(tasks[1..], filter);
    }
  }

  /** Filtering is idempotent. */
  lemma {:induction false} FilterIdempotent(tasks: seq<DprItem>, filter: string)
    ensures FilteredTasks(FilteredTasks(tasks, filter), filter) == FilteredTasks(tasks, filter)
  {
    if filter != "all" && tasks != [] {
      FilterIdempotent(tasks[1..], filter);
      if MatchesFilter(tasks[0], filter) {
        var r := FilterByStatus(tasks, filter);
        assert r[0] == tasks[0] && r[1..] == FilterByStatus(tasks[1..], filter);
      }
    }
  }

  /** `Math.round` on a real: the nearest integer, halves rounding up. */
  function Round(x: real): (n: int)
    ensures n as real - 0.5 <= x < n as real + 0.5
  {
    (x + 0.5).Floor
  }

  /** `rawPct`: `percent_complete`, else `work_completion.value` when it is
      not null or undefined, else 0; the unit is not looked at. */
  function RawPct(item: DprItem): real {
    if item.percentComplete.Some? then item.percentComplete.value
    else if item.workCompletion.Some? && item.workCompletion.value.value.Some? then item.workCompletion.value.value.value
    else 0.0
  }

  /** `pct`: the raw percentage rounded and clamped into 0..100. */
  function Pct(item: DprItem): (pct: int)
    ensures 0 <= pct <= 100
    ensures -0.5 <= RawPct(item) < 100.5 ==> pct as real - 0.5 <= RawPct(item) < pct as real + 0.5
    ensures RawPct(item) < -0.5 ==> pct == 0
    ensures RawPct(item) >= 100.5 ==> pct == 100
  {
    var n := Round(RawPct(item));
    if n < 0 then 0 else if n > 100 then 100 else n
  }

  /** Unlike the project screen's progress, the card percentage ignores the
      unit of `work_completion`. */
  lemma PctIgnoresUnit(item: DprItem, unit: Option<string>)
    requires item.workCompletion.Some?
    ensures Pct(item.(workCompletion := Some(item.workCompletion.value.(unit := unit)))) == Pct(item)
  {
  }

  /** The chip colours. */
  datatype StatusStyle = StatusStyle(bg: string, text: string)

  const NeutralStyle: StatusStyle := StatusStyle("#F3F4F6", "#4B5563")

  /** `getStatusStyle`: a colour pair per known status, regardless of letter
      case; "complete" and "completed" share one; anything else, and a missing
      status, is neutral. */
  function StyleFor(status: Option<string>): (style: StatusStyle)
    ensures var s := if status.Some? then ToLower(status.value) else "";
      && (s == "pending" ==> style == StatusStyle("#FFF4E5", "#F2994A"))
      && (s == "in progress" ==> style == StatusStyle("#E8F4FF", "#2F80ED"))
      && (s == "completed" || s == "complete" ==> style == StatusStyle("#E6F9ED", "#219653"))
      && (s == "idle" ==> style == StatusStyle("#F3F4F6", "#6B7280"))
      && (style == NeutralStyle <==> s !in {"pending", "in progress", "completed", "complete", "idle"})
  {
    var s := if status.Some? then ToLower(status.value) else "";
    if s == "pending" then StatusStyle("#FFF4E5", "#F2994A")
    else if s == "in progress" then StatusStyle("#E8F4FF", "#2F80ED")
    else if s == "completed" || s == "complete" then StatusStyle("#E6F9ED", "#219653")
    else if s == "idle" then StatusStyle("#F3F4F6", "#6B7280")
    else NeutralStyle
  }

  /** Letter case does not change the style. */
  lemma StyleIgnoresCase(status: string)
    ensures StyleFor(Some(ToLower(status))) == StyleFor(Some(status))
  {
    assert ToLower(ToLower(status)) == ToLower(status);
  }

  /** `item.current_status?.status || "pending"`. */
  function DisplayStatus(item: DprItem): (s: string)
    ensures s != ""
    ensures item.currentStatus.Some? && item.currentStatus.value != "" ==> s == item.currentStatus.value
    ensures item.currentStatus.None? || item.currentStatus.value == "" ==> s == "pending"
  {
    if item.currentStatus.Some? && item.currentStatus.value != "" then item.currentStatus.value else "pending"
  }

  /** The chip of a task: its colours and its upper-cased label. */
  function Chip(item: DprItem): (chip: (StatusStyle, string))
    ensures chip.0 == StyleFor(Some(DisplayStatus(item)))
    ensures chip.1 == ToUpper(DisplayStatus(item)) && chip.1 != ""
  {
    (StyleFor(Some(DisplayStatus(item))), ToUpper(DisplayStatus(item)))
  }

  /** A task without a status shows the pending chip. */
  lemma MissingStatusIsPending(item: DprItem)
    requires item.currentStatus.None?
    ensures Chip(item) == (StatusStyle("#FFF4E5", "#F2994A"), "PENDING")
  {
    assert ToLower("pending") == "pending";
    assert ToUpper("pending") == "PENDING";
  }

  /** `formatDate`: "-" when the date is missing or invalid, otherwise the
      two-digit day of the month, a space and the month's abbreviation. */
  function FormatDate(date: Option<CalendarDay>): (r: string)
    requires date.Some? ==> ValidDay(date.value)
    ensures date.None? ==> r == "-"
    ensures date.Some? ==> |r| == 6 && r[2] == ' ' && r[3..] == MonthNames[date.value.monthIndex]
    ensures date.Some? ==> AllDigits(r[..2]) && ParseDigits(r[..2]) == date.value.day
  {
    if date.None? then "-"
    else
      var d := date.value;
      var day := Pad2(d.day);
      assert |NatToString(d.day)| <= 2 by { DayDigits(d.day); }
      var r := day + " " + MonthName(d.monthIndex);
      assert r[..2] == day;
      r
  }

  lemma DayDigits(n: nat)
    requires n <= 31
    ensures |NatToString(n)| <= 2
  {
    if n >= 10 {
      assert NatToString(n) == NatToString(n / 10) + [DigitChar(n % 10)];
    }
  }

  /** "s" after a count other than one. */
  function Plural(n: int): string {
    if n > 1 then "s" else ""
  }

  /** The minute, hour and day counts of a difference, as `timeAgo` derives
      each from the previous one, agree with direct division. */
  lemma TimeUnits(diffMs: int)
    ensures (diffMs / MinuteMs) / 60 == diffMs / HourMs
    ensures ((diffMs / MinuteMs) / 60) / 24 == diffMs / DayMs
    ensures diffMs / MinuteMs < 1 <==> diffMs < MinuteMs
    ensures diffMs / MinuteMs < 60 <==> diffMs < HourMs
    ensures diffMs / HourMs < 24 <==> diffMs < DayMs
    ensures diffMs / DayMs > 1 <==> diffMs >= 2 * DayMs
  {
    FloorDivDiv(diffMs, MinuteMs, 60);
    FloorDivDiv(diffMs, HourMs, 24);
  }

  /** "N <unit> ago" never reads "Just now". */
  lemma AgoIsNotJustNow(prefix: string)
    ensures prefix + " ago" != "Just now"
  {
    assert (prefix + " ago")[|prefix| + 3] == 'o';
  }

  /** `timeAgo` at time `now`, for a time value `t` (`None` for a missing or
      unparseable date). */
  function TimeAgo(t: Option<int>, now: int): (r: string)
    ensures t.None? ==> r == ""
    ensures t.Some? ==> var diff := now - t.value;
      && (diff < MinuteMs <==> r == "Just now")
      && (MinuteMs <= diff < HourMs ==> r == NatToString(diff / MinuteMs) + " min ago")
      && (HourMs <= diff < DayMs ==> r == NatToString(diff / HourMs) + " hr ago")
      && (DayMs <= diff ==> r == NatToString(diff / DayMs) + " day" + Plural(diff / DayMs) + " ago")
      && (DayMs <= diff ==> (Plural(diff / DayMs) == "s" <==> diff >= 2 * DayMs))
  {
    if t.None? then ""
    else
      var diffMs := now - t.value;
      var diffMin := diffMs / MinuteMs;
      var diffHr := diffMin / 60;
      var diffDay := diffHr / 24;
      TimeUnits(diffMs);
      if diffMin < 1 then
        assert diffMs < MinuteMs;
        "Just now"
      else if diffMin < 60 then
        assert MinuteMs <= diffMs < HourMs;
        AgoIsNotJustNow(NatToString(diffMin) + " min");
        NatToString(diffMin) + " min ago"
      else if diffHr < 24 then
        assert HourMs <= diffMs < DayMs && diffHr == diffMs / HourMs;
        AgoIsNotJustNow(NatToString(diffHr) + " hr");
        NatToString(diffHr) + " hr ago"
      else
        assert DayMs <= diffMs && diffDay == diffMs / DayMs;
        AgoIsNotJustNow(NatToString(diffDay) + " day" + Plural(diffDay));
        NatToString(diffDay) + " day" + Plural(diffDay) + " ago"
  }
}
