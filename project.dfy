/**
 * The project overview screen: the backend status normaliser, the 0–1
 * progress fraction of each DPR record, the project cards and "recent" rows
 * built from the list response, and the newest-first direct messages.
 */
module Project {
  import opened Optional
  import opened JsText
  import opened Order
  import opened DprSlice

  /** The five canonical statuses of the recents list. */
  datatype Status = Idle | Pending | WorkStopped | Completed | InProgress {
    /** The `StatusKey` string. */
    function Key(): string {
      match this
      case Idle => "idle"
      case Pending => "pending"
      case WorkStopped => "work stopped"
      case Completed => "completed"
      case InProgress => "in progress"
    }
  }

  /** The `switch` on the lower-cased, trimmed status text. */
  function Classify(s: string): Status {
    if s == "pending" then Pending
    else if s == "idle" || s == "ideal" then Idle
    else if s == "work stopped" || s == "work_stopped" then WorkStopped
    else if s == "completed" || s == "complete" then Completed
    else InProgress
  }

  /** `normalizeStatusFromBackend`: null, undefined and "" are idle; any other
      text is lower-cased and trimmed, then matched against the known
      spellings, anything unrecognised counting as in progress. */
  function Normalize(raw: Option<string>): (st: Status)
    ensures raw.None? || raw == Some("") ==> st == Idle
    ensures raw.Some? && raw.value != "" ==>
      var s := Trim(ToLower(raw.value));
      && (st == Idle <==> s == "idle" || s == "ideal")
      && (st == Pending <==> s == "pending")
      && (st == WorkStopped <==> s == "work stopped" || s == "work_stopped")
      && (st == Completed <==> s == "completed" || s == "complete")
  {
    if raw.None? || raw.value == "" then Idle else Classify(Trim(ToLower(raw.value)))
  }

  /** Text that is already lower case and trimmed is matched as it is. */
  lemma NormalizeVia(raw: string, s: string)
    requires raw != "" && ToLower(raw) == s && IsTrimmed(s)
    ensures Normalize(Some(raw)) == Classify(s)
  {
    TrimOfTrimmed(s);
  }

  /** Normalising a status's own key gives that status back. */
  lemma NormalizeKey(st: Status)
    ensures Normalize(Some(st.Key())) == st
  {
    KeySpelling(st);
    NormalizeVia(st.Key(), st.Key());
  }

  /** Every key is lower case, trimmed and matched to its own status. */
  lemma KeySpelling(st: Status)
    ensures st.Key() != "" && ToLower(st.Key()) == st.Key() && IsTrimmed(st.Key()) && Classify(st.Key()) == st
  {
    var k := st.Key();
    LowerOf(k, k);
  }

  /** Normalisation is idempotent. */
  lemma NormalizeIdempotent(raw: Option<string>)
    ensures Normalize(Some(Normalize(raw).Key())) == Normalize(raw)
  {
    NormalizeKey(Normalize(raw));
  }

  lemma ToLowerIdempotent(s: string)
    ensures ToLower(ToLower(s)) == ToLower(s)
  {
  }

  /** Matching ignores letter case. */
  lemma NormalizeIgnoresCase(raw: string)
    ensures Normalize(Some(ToLower(raw))) == Normalize(Some(raw))
  {
    ToLowerIdempotent(raw);
  }

  /** Matching ignores surrounding whitespace, as long as something is left. */
  lemma NormalizeIgnoresPadding(raw: string)
    requires Trim(raw) != ""
    ensures Normalize(Some(Trim(raw))) == Normalize(Some(raw))
  {
    TrimOfLower(raw);
    TrimOfLower(Trim(raw));
    TrimIdempotent(raw);
  }

  /** Whitespace-only text is not "empty" to the `!raw` test, trims to "",
      and so falls through to in progress. */
  lemma NormalizeWhitespaceOnly(raw: string)
    requires raw != "" && forall i :: 0 <= i < |raw| ==> IsWhitespace(raw[i])
    ensures Normalize(Some(raw)) == InProgress
  {
    TrimEmptyIff(raw);
    TrimOfLower(raw);
  }

  /** One spelling, given with its lower-case form. */
  lemma Spelling(raw: string, lower: string, st: Status)
    requires raw != "" && ToLower(raw) == lower && IsTrimmed(lower) && Classify(lower) == st
    ensures Normalize(Some(raw)) == st
  {
    NormalizeVia(raw, lower);
  }

  /** The accepted alternative spellings, in any letter case, and a near
      miss that is not recognised and so counts as in progress. */
  lemma NormalizeSpellings()
    ensures Normalize(Some("Ideal")) == Idle
    ensures Normalize(Some("In-Progress")) == InProgress
    ensures Normalize(Some("Work_Stopped")) == WorkStopped
    ensures Normalize(Some("COMPLETE")) == Completed
    ensures Normalize(Some("work-stopped")) == InProgress
  {
    SpellingIdeal(); SpellingHyphenated(); SpellingUnderscored(); SpellingComplete(); SpellingNearMiss();
  }

  lemma SpellingIdeal()
    ensures Normalize(Some("Ideal")) == Idle
  {
    LowerOf("Ideal", "ideal");
    Spelling("Ideal", "ideal", Idle);
  }

  lemma SpellingHyphenated()
    ensures Normalize(Some("In-Progress")) == InProgress
  {
    LowerOf("In-Progress", "in-progress");
    Spelling("In-Progress", "in-progress", InProgress);
  }

  lemma SpellingUnderscored()
    ensures Normalize(Some("Work_Stopped")) == WorkStopped
  {
    LowerOf("Work_Stopped", "work_stopped");
    Spelling("Work_Stopped", "work_stopped", WorkStopped);
  }

  lemma SpellingComplete()
    ensures Normalize(Some("COMPLETE")) == Completed
  {
    LowerOf("COMPLETE", "complete");
    Spelling("COMPLETE", "complete", Completed);
  }

  lemma SpellingNearMiss()
    ensures Normalize(Some("work-stopped")) == InProgress
  {
    LowerOf("work-stopped", "work-stopped");
    Spelling("work-stopped", "work-stopped", InProgress);
  }

  /** `ToLower` on a literal, proved character by character. */
  lemma LowerOf(raw: string, lower: string)
    requires |raw| == |lower| && forall i :: 0 <= i < |raw| ==> LowerChar(raw[i]) == lower[i]
    ensures ToLower(raw) == lower
  {
  }

  /** Padding around a spelling is ignored. */
  lemma NormalizePadded()
    ensures Normalize(Some("  IDLE ")) == Idle
  {
    var lower := "  idle ";
    LowerOf("  IDLE ", lower);
    assert lower[2..6] == "idle";
    TrimAt(lower, 2, 4);
  }

  /** `Math.max(0, Math.min(1, x))`. */
  function Clamp01(x: real): (r: real)
    ensures 0.0 <= r <= 1.0
    ensures 0.0 <= x <= 1.0 ==> r == x
    ensures x < 0.0 ==> r == 0.0
    ensures x > 1.0 ==> r == 1.0
  {
    if x < 0.0 then 0.0 else if x > 1.0 then 1.0 else x
  }

  /** The progress fraction of a card and a recent row: a numeric
      `percent_complete` wins; otherwise `work_completion.value` (0 when
      missing) counts, but only when its unit is "percentage"; otherwise 0. */
  function Progress(item: DprItem): (p: real)
    ensures 0.0 <= p <= 1.0
    ensures item.percentComplete.Some? ==> p == Clamp01(item.percentComplete.value / 100.0)
    ensures item.percentComplete.None? && item.workCompletion.Some? && item.workCompletion.value.unit == Some("percentage")
      ==> p == Clamp01(item.workCompletion.value.value.GetOr(0.0) / 100.0)
    ensures item.percentComplete.None? && !(item.workCompletion.Some? && item.workCompletion.value.unit == Some("percentage"))
      ==> p == 0.0
  {
    if item.percentComplete.Some? then Clamp01(item.percentComplete.value / 100.0)
    else if item.workCompletion.Some? && item.workCompletion.value.unit == Some("percentage") then
      Clamp01(item.workCompletion.value.value.GetOr(0.0) / 100.0)
    else 0.0
  }

  /** A card or row title: a text, or (when `activity_id` is an object with no
      name) the object itself. */
  datatype Title = TitleText(text: string) | TitleObject(objectId: string)

  /** `item?.activity_id?.name || item?.activity_id || '-'`. */
  function CardTitle(a: ActivityRef): (t: Title)
    ensures a.NoActivity? ==> t == TitleText("-")
    ensures a.ActivityId? ==> t == TitleText(if a.id != "" then a.id else "-")
    ensures a.ActivityObject? && a.name.Some? && a.name.value != "" ==> t == TitleText(a.name.value)
    ensures a.ActivityObject? && (a.name.None? || a.name.value == "") ==> t == TitleObject(a.objectId)
    ensures t.TitleText? ==> t.text != ""
  {
    match a
    case NoActivity => TitleText("-")
    case ActivityId(id) => TitleText(if id != "" then id else "-")
    case ActivityObject(oid, name) => if name.Some? && name.value != "" then TitleText(name.value) else TitleObject(oid)
  }

  /** `(t?.activity_id?.name || t?.activity_id) ?? 'Activity'`: unlike the card
      title, an empty id string stays "" because `??` only replaces
      null and undefined. */
  function RecentTitle(a: ActivityRef): (t: Title)
    ensures a.NoActivity? ==> t == TitleText("Activity")
    ensures a.ActivityId? ==> t == TitleText(a.id)
    ensures a.ActivityObject? ==> t == CardTitle(a)
  {
    match a
    case NoActivity => TitleText("Activity")
    case ActivityId(id) => TitleText(id)
    case ActivityObject(oid, name) => if name.Some? && name.value != "" then TitleText(name.value) else TitleObject(oid)
  }

  /** The `companyPayload`/card object: title, project code ("" when
      missing or empty) and progress. */
  datatype CardData = CardData(title: Title, code: string, progress: real)

  /** One "recent" row. */
  datatype RecentRow = RecentRow(id: string, title: Title, updatedAt: Option<string>, status: Status, payload: CardData)

  function CardOf(item: DprItem, title: Title): (c: CardData)
    ensures c.title == title && 0.0 <= c.progress <= 1.0 && c.progress == Progress(item)
    ensures c.code == item.projectCode.GetOr("")
  {
    CardData(title, item.projectCode.GetOr(""), Progress(item))
  }

  /** `apiRes?.data ?? []`. */
  function ListOf(res: Option<GetAllDprResponse>): (items: seq<DprItem>)
    ensures res.Some? && res.value.data.Some? ==> items == res.value.data.value
    ensures res.None? || res.value.data.None? ==> items == []
  {
    if res.Some? && res.value.data.Some? then res.value.data.value else []
  }

  /** `cards`: one card per item, in order. */
  function Cards(res: Option<GetAllDprResponse>): (cards: seq<CardData>)
    ensures |cards| == |ListOf(res)|
    ensures forall i :: 0 <= i < |cards| ==>
      cards[i] == CardOf(ListOf(res)[i], CardTitle(ListOf(res)[i].activity))
  {
    var items := ListOf(res);
    seq(|items|, i requires 0 <= i < |items| => CardOf(items[i], CardTitle(items[i].activity)))
  }

  function RowOf(item: DprItem): (row: RecentRow)
    ensures row.id == item.id && row.updatedAt == item.updatedAt
    ensures row.status == Normalize(item.currentStatus)
    ensures row.title == RecentTitle(item.activity) && row.payload == CardOf(item, row.title)
  {
    var title := RecentTitle(item.activity);
    RecentRow(item.id, title, item.updatedAt, Normalize(item.currentStatus), CardOf(item, title))
  }

  /** `recentData`: exactly one row per item, in the same order, its status
      the normalised `current_status.status`. */
  function RecentData(res: Option<GetAllDprResponse>): (rows: seq<RecentRow>)
    ensures |rows| == |ListOf(res)|
    ensures forall i :: 0 <= i < |rows| ==> rows[i] == RowOf(ListOf(res)[i])
  {
    var items := ListOf(res);
    seq(|items|, i requires 0 <= i < |items| => RowOf(items[i]))
  }

  /** Every derived progress lies in [0, 1]. */
  lemma RecentProgressBounded(res: Option<GetAllDprResponse>)
    ensures forall r :: r in RecentData(res) ==> 0.0 <= r.payload.progress <= 1.0
  {
  }

  /** A direct-message preview; `updatedAt` is the parsed time in ms. */
  datatype DirectMessage = DirectMessage(id: string, name: string, updatedAt: Option<int>)

  /** `new Date(dm.updatedAt || 0).getTime()`: a missing time counts as epoch 0. */
  function DmTime(dm: DirectMessage): int {
    dm.updatedAt.GetOr(0)
  }

  /** `demo.sort(...)`: newest first, a permutation of the previews that keeps
      previews with the same time in their order. */
  function SortDirectMessages(dms: seq<DirectMessage>): (r: seq<DirectMessage>)
    ensures multiset(r) == multiset(dms)
    ensures NewestFirst(r, DmTime)
    ensures forall k :: WithKey(r, DmTime, k) == WithKey(dms, DmTime, k)
  {
    var r := SortNewestFirst(dms, DmTime);
    assert forall k :: WithKey(r, DmTime, k) == WithKey(dms, DmTime, k) by {
      forall k {
        SortStable(dms, DmTime, k);
      }
    }
    r
  }

  /** 2025-11-24T10:20:00Z in ms since the epoch. */
  const SecondDemoTime: int := 1763979600000

  /** The two demo previews before sorting. */
  function DemoMessages(now: int): seq<DirectMessage> {
    [DirectMessage("dm-1", "Rahul", Some(now)), DirectMessage("dm-2", "Gagan", Some(SecondDemoTime))]
  }

  /** The two demo previews: `dm-1` stamped with the current time, `dm-2` with
      a fixed date. */
  function DirectMessages(now: int): (r: seq<DirectMessage>)
    ensures |r| == 2
    ensures now >= SecondDemoTime ==> r[0].id == "dm-1" && r[1].id == "dm-2"
    ensures now < SecondDemoTime ==> r[0].id == "dm-2" && r[1].id == "dm-1"
  {
    DemoOrder(now);
    SortDirectMessages(DemoMessages(now))
  }

  /** The sort of the two demo previews, written out: `dm-1` stays in front
      unless it is older than `dm-2`. */
  lemma DemoOrder(now: int)
    ensures var d1 := DemoMessages(now)[0]; var d2 := DemoMessages(now)[1];
      SortDirectMessages(DemoMessages(now)) == if now >= SecondDemoTime then [d1, d2] else [d2, d1]
  {
    var demo := DemoMessages(now);
    var d1 := demo[0];
    var d2 := demo[1];
    assert demo[1..] == [d2];
    assert [d2][1..] == [];
    assert SortNewestFirst([d2], DmTime) == InsertNewest(d2, [], DmTime) == [d2];
    assert SortNewestFirst(demo, DmTime) == InsertNewest(d1, [d2], DmTime);
    if now < SecondDemoTime {
      assert InsertNewest(d1, [d2], DmTime) == [d2] + InsertNewest(d1, [], DmTime);
    }
  }

  /** A preview without a time sorts after every preview with a positive time. */
  lemma MissingTimeSortsLast(dms: seq<DirectMessage>, i: nat, j: nat)
    requires var r := SortDirectMessages(dms); i < |r| && j < |r| && r[i].updatedAt.None? && DmTime(r[j]) > 0
    ensures j < i
  {
  }
}
