/**
 * The "My Task" dashboard: four bucket counts from the status summary, their
 * total, the five cards built from them, and the navigation a card press
 * triggers.
 */
module MyTask {
  import opened Optional
  import opened DprSlice

  /** `data.data`: the four counts, each possibly null or undefined. */
  datatype Stats = Stats(today: Option<int>, overdue: Option<int>, upcoming: Option<int>, completed: Option<int>)

  const ZeroStats: Stats := Stats(Some(0), Some(0), Some(0), Some(0))

  /** `data?.data || {today: 0, ...}`: a missing summary gives four zeros. */
  function StatsOf(summary: Option<Stats>): (s: Stats)
    ensures summary.None? ==> s == ZeroStats
    ensures summary.Some? ==> s == summary.value
  {
    if summary.Some? then summary.value else ZeroStats
  }

  /** `stats.x || 0` and `stats.x ?? 0`, which agree on integers. */
  function CountOf(c: Option<int>): int {
    c.GetOr(0)
  }

  /** `totalTasks`: the four counts added up, a missing one counting 0. */
  function TotalTasks(s: Stats): int {
    CountOf(s.today) + CountOf(s.overdue) + CountOf(s.upcoming) + CountOf(s.completed)
  }

  /** One dashboard card. */
  datatype Item = Item(id: string, title: string, count: int, iconName: string, iconBg: string)

  /** `items`. */
  function Items(s: Stats): (items: seq<Item>)
    ensures |items| == 5
    ensures items[0].id == "today" && items[1].id == "overdue" && items[2].id == "upcoming"
    ensures items[3].id == "completed" && items[4].id == "myTasks"
    ensures items[0].count == CountOf(s.today) && items[1].count == CountOf(s.overdue)
    ensures items[2].count == CountOf(s.upcoming) && items[3].count == CountOf(s.completed)
    ensures items[4].count == items[0].count + items[1].count + items[2].count + items[3].count
  {
    [ Item("today", "Today", CountOf(s.today), "calendar", "#6C5CE7"),
      Item("overdue", "Overdue", CountOf(s.overdue), "bell", "#FF4B5C"),
      Item("upcoming", "Upcoming", CountOf(s.upcoming), "clock", "#F6C744"),
      Item("completed", "Completed", CountOf(s.completed), "check-circle", "#24A36B"),
      Item("myTasks", "My Tasks", TotalTasks(s), "check-square", "#2F9BFF") ]
  }

  /** With no summary every card shows 0. */
  lemma NoSummaryAllZero()
    ensures forall i :: 0 <= i < 5 ==> Items(StatsOf(None))[i].count == 0
  {
  }

  /** The cards have distinct ids, so a bucket names one card. */
  lemma ItemIdsDistinct(s: Stats, i: int, j: int)
    requires 0 <= i < 5 && 0 <= j < 5 && Items(s)[i].id == Items(s)[j].id
    ensures i == j
  {
  }

  /** The parameters the `CardsData` screen is opened with. */
  datatype CardsDataParams = CardsDataParams(bucket: string, title: string)

  /** `handleCardPress`. */
  function CardPress(item: Item): (p: CardsDataParams)
    ensures p.bucket == item.id && p.title == item.title
  {
    CardsDataParams(item.id, item.title)
  }

  /** The list query the opened screen issues for the pressed card:
      page 1, limit 20, the bucket as `cardStatus`. */
  function BucketQueryArgs(p: CardsDataParams): GetAllDprArgs {
    GetAllDprArgs(Some(1), Some(20), None, None, Some(p.bucket))
  }

  /** Every card opens the same list: the query string does not depend on the
      bucket, since the list query ignores `cardStatus`. */
  lemma EveryBucketSameQuery(s: Stats, i: int, j: int)
    requires 0 <= i < 5 && 0 <= j < 5
    ensures QueryPairs(Some(BucketQueryArgs(CardPress(Items(s)[i]))))
         == QueryPairs(Some(BucketQueryArgs(CardPress(Items(s)[j]))))
  {
    var a := BucketQueryArgs(CardPress(Items(s)[i]));
    CardStatusIgnored(a, Some(Items(s)[j].id));
  }
}
