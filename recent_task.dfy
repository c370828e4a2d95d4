/**
 * The "Recents" list: a newest-first copy of the tasks, cut to the first
 * `maxItems`, each row showing its title and a relative time.
 */
module RecentTask {
  import opened Optional
  import opened JsText
  import opened Calendar
  import opened Arith
  import opened Order

  /** A recents entry; `updatedAt` is the time value its date string parses to. */
  datatype RecentTask = RecentTask(id: string, title: string, updatedAt: int)

  function UpdatedAt(t: RecentTask): int {
    t.updatedAt
  }

  /** `sorted`: a newest-first copy of `tasks || []`, tasks with the same time
      in their original order; the argument itself is a value and so cannot
      be changed. */
  function Sorted(tasks: Option<seq<RecentTask>>): (r: seq<RecentTask>)
    ensures multiset(r) == multiset(tasks.GetOr([])) && |r| == |tasks.GetOr([])|
    ensures NewestFirst(r, UpdatedAt)
    ensures forall k :: WithKey(r, UpdatedAt, k) == WithKey(tasks.GetOr([]), UpdatedAt, k)
  {
    var r := SortNewestFirst(tasks.GetOr([]), UpdatedAt);
    assert forall k :: WithKey(r, UpdatedAt, k) == WithKey(tasks.GetOr([]), UpdatedAt, k) by {
      forall k {
        SortStable(tasks.GetOr([]), UpdatedAt, k);
      }
    }
    r
  }

  /** The end index `slice(0, k)` uses on a sequence of length `len`: a
      negative `k` counts back from the end. */
  function SliceEnd(len: nat, k: int): (e: nat)
    ensures e <= len
    ensures k >= 0 ==> e == if k < len then k else len
    ensures k < 0 ==> e == if len + k > 0 then len + k else 0
  {
    if k >= 0 then (if k < len then k else len)
    else if len + k > 0 then len + k else 0
  }

  /** `visible = sorted.slice(0, maxItems)`, with `maxItems` defaulting to 6. */
  function Visible(tasks: Option<seq<RecentTask>>, maxItems: Option<int>): (r: seq<RecentTask>)
    ensures |r| <= |Sorted(tasks)| && r == Sorted(tasks)[..|r|]
    ensures var n := |tasks.GetOr([])|; var m := maxItems.GetOr(6);
      m >= 0 ==> |r| == if m < n then m else n
    ensures var n := |tasks.GetOr([])|; var m := maxItems.GetOr(6);
      m < 0 ==> |r| == if n + m > 0 then n + m else 0
    ensures NewestFirst(r, UpdatedAt)
  {
    var s := Sorted(tasks);
    s[..SliceEnd(|s|, maxItems.GetOr(6))]
  }

  /** No task left out of the visible list is newer than a visible one. */
  lemma VisibleAreNewest(tasks: Option<seq<RecentTask>>, maxItems: Option<int>, v: RecentTask, t: RecentTask)
    requires v in Visible(tasks, maxItems)
    requires t in tasks.GetOr([]) && t !in Visible(tasks, maxItems)
    ensures v.updatedAt >= t.updatedAt
  {
    var s := Sorted(tasks);
    var r := Visible(tasks, maxItems);
    assert t in multiset(s);
    var j :| 0 <= j < |s| && s[j] == t;
    var i :| 0 <= i < |r| && r[i] == v;
    assert s[i] == v;
  }

  /** `item.title || "Untitled"`. */
  function DisplayTitle(t: RecentTask): (s: string)
    ensures s != ""
    ensures t.title != "" ==> s == t.title
  {
    if t.title != "" then t.title else "Untitled"
  }

  /** The date text of an older entry:
      `d.toDateString().split(" ").slice(1).join(" ")`. */
  function DateText(d: CalendarDay): (s: string)
    requires ValidDay(d)
    ensures s == MonthName(d.monthIndex) + " " + Pad2(d.day) + " " + YearText(d.year)
  {
    DropWeekday(d);
    Join(SplitOn(ToDateString(d), ' ')[1..], ' ')
  }

  /** Dropping the first word of `toDateString` leaves month, day and year. */
  lemma DropWeekday(d: CalendarDay)
    requires ValidDay(d)
    ensures Join(SplitOn(ToDateString(d), ' ')[1..], ' ')
      == MonthName(d.monthIndex) + " " + Pad2(d.day) + " " + YearText(d.year)
  {
    var words := DateWords(d);
    SplitJoin(words, ' ');
    assert SplitOn(ToDateString(d), ' ')[1..] == [words[1], words[2], words[3]];
    JoinThree(words[1], words[2], words[3]);
  }

  lemma JoinThree(a: string, b: string, c: string)
    ensures Join([a, b, c], ' ') == a + " " + b + " " + c
  {
    assert [a, b, c][1..] == [b, c];
    assert [b, c][1..] == [c];
    assert Join([c], ' ') == c;
    assert Join([b, c], ' ') == b + [' '] + c;
    assert Join([a, b, c], ' ') == a + [' '] + (b + [' '] + c);
  }

  /** The second, minute, hour and day counts of `formatRelative`, each derived
      from the previous one, agree with direct division. */
  lemma RelativeUnits(diff: int)
    ensures ((diff / SecondMs) / 60) == diff / MinuteMs
    ensures ((diff / SecondMs) / 60) / 60 == diff / HourMs
    ensures (((diff / SecondMs) / 60) / 60) / 24 == diff / DayMs
    ensures diff / SecondMs < 60 <==> diff < MinuteMs
    ensures diff / MinuteMs < 60 <==> diff < HourMs
    ensures diff / HourMs < 24 <==> diff < DayMs
    ensures diff / DayMs < 7 <==> diff < 7 * DayMs
  {
    FloorDivDiv(diff, SecondMs, 60);
    FloorDivDiv(diff, MinuteMs, 60);
    FloorDivDiv(diff, HourMs, 24);
  }

  /** `formatRelative` at time `now` for a parsed date (`None` when the
      string does not parse). */
  function FormatRelative(d: Option<Instant>, now: int): (r: string)
    requires d.Some? ==> ValidDay(d.value.date)
    ensures d.None? ==> r == ""
    ensures d.Some? ==> var diff := now - d.value.ms;
      && (diff < MinuteMs ==> r == "just now")
      && (MinuteMs <= diff < HourMs ==> r == NatToString(diff / MinuteMs) + "m ago")
      && (HourMs <= diff < DayMs ==> r == NatToString(diff / HourMs) + "h ago")
      && (DayMs <= diff < 7 * DayMs ==> r == NatToString(diff / DayMs) + "d ago")
      && (7 * DayMs <= diff ==> r == DateText(d.value.date))
  {
    if d.None? then ""
    else
      var diff := now - d.value.ms;
      RelativeUnits(diff);
      var s := diff / SecondMs;
      if s < 60 then "just now"
      else
        var m := s / 60;
        if m < 60 then NatToString(m) + "m ago"
        else
          var h := m / 60;
          if h < 24 then NatToString(h) + "h ago"
          else
            var days := h / 24;
            if days < 7 then NatToString(days) + "d ago"
            else DateText(d.value.date)
  }
}
