/**
 * The task detail screen's activity tab: a seeded feed of events, a comment
 * box whose text is appended to the feed as a comment, and the status
 * editor, whose rows set the task's status.
 */
module Company {
  import opened Optional
  import opened JsText

  /** The editor's three statuses, and the chip label of each. */
  datatype StatusKey = Todo | InProgress | Complete {
    function Label(): (text: string)
      ensures text != "" && HasNoAsciiLower(text)
    {
      match this
      case Todo => "TO DO"
      case InProgress => "IN PROGRESS"
      case Complete => "COMPLETE"
    }

    /** The chip icon of `renderStatusChip`: every status has its own, so the
        fallback "circle" is never drawn. */
    function Icon(): (icon: string)
      ensures icon != "" && icon != "circle"
    {
      match this
      case Todo => "clock"
      case InProgress => "loader"
      case Complete => "check-circle"
    }
  }

  /** Distinct statuses have distinct labels, so the label identifies the
      status. */
  lemma LabelsDistinct(a: StatusKey, b: StatusKey)
    requires a.Label() == b.Label()
    ensures a == b
  {
  }

  /** Distinct statuses have distinct chip icons. */
  lemma IconsDistinct(a: StatusKey, b: StatusKey)
    requires a.Icon() == b.Icon()
    ensures a == b
  {
  }

  datatype EventKind = System | StatusChange | Comment

  /** One entry of the activity feed. */
  datatype ActivityEvent = ActivityEvent(
    id: string,
    kind: EventKind,
    createdAt: string,
    message: Option<string>,
    author: Option<string>,
    fromStatus: Option<StatusKey>,
    toStatus: Option<StatusKey>)

  function StatusEvent(id: string, at: string, from: StatusKey, to: StatusKey): ActivityEvent {
    ActivityEvent(id, StatusChange, at, Some("You changed status to"), None, Some(from), Some(to))
  }

  /** `initialActivity`. */
  const InitialActivity: seq<ActivityEvent> := [
    ActivityEvent("1", System, "Thursday, 8:20 PM", Some("You created this task"), None, None, None),
    StatusEvent("2", "Thursday, 8:20 PM", Todo, InProgress),
    ActivityEvent("3", Comment, "Thursday, 8:25 PM", Some("Hi"), Some("Devashish"), None, None),
    StatusEvent("4", "Thursday, 8:26 PM", InProgress, Complete),
    StatusEvent("5", "Thursday, 8:30 PM", Complete, InProgress)
  ]

  /** A feed entry is well formed when a comment has an author and a
      non-empty trimmed message, and a status change names both statuses. */
  predicate WellFormed(e: ActivityEvent) {
    && (e.kind == Comment ==> e.author.Some? && e.message.Some? && e.message.value != "" && IsTrimmed(e.message.value))
    && (e.kind == StatusChange ==> e.fromStatus.Some? && e.toStatus.Some?)
  }

  predicate WellFormedFeed(feed: seq<ActivityEvent>) {
    forall i :: 0 <= i < |feed| ==> WellFormed(feed[i])
  }

  /** The seed feed has five events with ids "1" to "5", all well formed,
      and its status changes chain: each starts where the previous ended. */
  lemma InitialActivityFacts()
    ensures |InitialActivity| == 5
    ensures forall i :: 0 <= i < 5 ==> InitialActivity[i].id == [DigitChar(i + 1)]
    ensures WellFormedFeed(InitialActivity)
    ensures InitialActivity[1].toStatus == InitialActivity[3].fromStatus
    ensures InitialActivity[3].toStatus == InitialActivity[4].fromStatus
  {
    assert IsTrimmed("Hi");
  }

  /** The event `handleSendComment` appends for the trimmed text `message`;
      `id` stands for `Date.now().toString()`. */
  function CommentEvent(id: string, message: string): ActivityEvent {
    ActivityEvent(id, Comment, "Just now", Some(message), Some("You"), None, None)
  }

  /** The feed and the comment box after a send: whitespace-only text changes
      nothing; otherwise exactly one comment event carrying the trimmed text
      is appended after the unchanged earlier events, and the box is
      cleared. */
  function Sent(feed: seq<ActivityEvent>, text: string, id: string): (r: (seq<ActivityEvent>, string))
    ensures Trim(text) == "" ==> r == (feed, text)
    ensures Trim(text) != "" ==>
      && |r.0| == |feed| + 1 && r.0[..|feed|] == feed
      && r.0[|feed|].kind == Comment && r.0[|feed|].author == Some("You")
      && r.0[|feed|].createdAt == "Just now" && r.0[|feed|].message == Some(Trim(text))
      && r.0[|feed|].id == id && r.1 == ""
    ensures WellFormedFeed(feed) ==> WellFormedFeed(r.0)
  {
    var trimmed := Trim(text);
    if trimmed == "" then (feed, text) else (feed + [CommentEvent(id, trimmed)], "")
  }

  /** Sending twice appends both comments, in order. */
  lemma SendTwice(feed: seq<ActivityEvent>, a: string, b: string, id1: string, id2: string)
    requires Trim(a) != "" && Trim(b) != ""
    ensures var first := Sent(feed, a, id1).0;
      Sent(first, b, id2).0 == feed + [CommentEvent(id1, Trim(a)), CommentEvent(id2, Trim(b))]
  {
  }

  /** The state of the activity screen that its handlers change. */
  class TaskActivity {
    var activity: seq<ActivityEvent>
    var commentText: string
    var status: StatusKey

    ghost predicate Valid()
      reads this
    {
      WellFormedFeed(activity)
    }

    /** The initial state: the seed feed, an empty box, status in progress. */
    constructor()
      ensures Valid()
      ensures activity == InitialActivity && commentText == "" && status == InProgress
    {
      activity := InitialActivity;
      commentText := "";
      status := InProgress;
      InitialActivityFacts();
    }

    /** `onChangeText={setCommentText}`. */
    method SetCommentText(text: string)
      requires Valid()
      modifies this
      ensures Valid()
      ensures commentText == text && activity == old(activity) && status == old(status)
    {
      commentText := text;
    }

    /** `handleSendComment`, with the clock's id passed in. */
    method SendComment(id: string)
      requires Valid()
      modifies this
      ensures Valid()
      ensures (activity, commentText) == Sent(old(activity), old(commentText), id)
      ensures status == old(status)
    {
      var trimmed := Trim(commentText);
      if trimmed == "" {
        return;
      }
      var event := CommentEvent(id, trimmed);
      activity := activity + [event];
      commentText := "";
    }

    /** A status row's `onPress`: only the status changes, and no feed event
        is recorded. */
    method SetStatus(k: StatusKey)
      requires Valid()
      modifies this
      ensures Valid()
      ensures status == k && activity == old(activity) && commentText == old(commentText)
    {
      status := k;
    }

    /** `selected={status === variant}` of each status row. */
    function Selected(variant: StatusKey): (b: bool)
      reads this
      ensures b <==> variant == status
    {
      status == variant
    }
  }

  /** At most one status row is selected at a time; `Selected` itself says
      that the row of the current status is. */
  lemma OneRowSelected(t: TaskActivity, a: StatusKey, b: StatusKey)
    requires t.Selected(a) && t.Selected(b)
    ensures a == b
  {
  }
}
