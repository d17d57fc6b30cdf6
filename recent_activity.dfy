/**
  The review feed (app/api/carms-corner/recent-activity/route.ts): the viewer-only guard, the
  keyword urgency classifier and the transform that turns each stored product mention into a
  feed row.
*/
module RecentActivity {
  import opened Wrappers
  import opened Strings
  import opened Auth
  import Seqs

  /** The three urgency tiers, ordered low < medium < high. */
  datatype Urgency = Low | Medium | High

  function Rank(u: Urgency): nat {
    match u
    case Low => 0
    case Medium => 1
    case High => 2
  }

  const HighPriorityWords: seq<string> := [
    "urgent", "critical", "emergency", "asap", "immediately",
    "broken", "down", "error", "bug", "issue", "problem",
    "help", "stuck", "blocker", "failing"
  ]

  const MediumPriorityWords: seq<string> := [
    "question", "need", "should", "could", "request",
    "update", "change", "modify", "improve"
  ]

  /** `words.some(word => content.includes(word) || context.includes(word))`. */
  function SomeWordIn(words: seq<string>, content: string, context: string): (r: bool)
    ensures r <==> exists i | 0 <= i < |words| :: Contains(content, words[i]) || Contains(context, words[i])
    decreases |words|
  {
    if words == [] then false
    else (Contains(content, words[0]) || Contains(context, words[0])
      || SomeWordIn(words[1..], content, context))
  }

  /** `mention.context?.toLowerCase() || ''`. */
  function LowerContext(context: Option<string>): string {
    match context
    case None => ""
    case Some(c) => Lower(c)
  }

  /** `getUrgencyLevel`: high when a high-priority keyword is a substring of the lower-cased
      content or context, else medium when a medium-priority keyword is, else low. */
  function GetUrgencyLevel(content: string, context: Option<string>): (u: Urgency)
    ensures u == High <==> SomeWordIn(HighPriorityWords, Lower(content), LowerContext(context))
    ensures u == Medium <==> (!SomeWordIn(HighPriorityWords, Lower(content), LowerContext(context))
      && SomeWordIn(MediumPriorityWords, Lower(content), LowerContext(context)))
    ensures u == Low <==> (!SomeWordIn(HighPriorityWords, Lower(content), LowerContext(context))
      && !SomeWordIn(MediumPriorityWords, Lower(content), LowerContext(context)))
  {
    var lowerContent := Lower(content);
    var lowerContext := LowerContext(context);
    if SomeWordIn(HighPriorityWords, lowerContent, lowerContext) then High
    else if SomeWordIn(MediumPriorityWords, lowerContent, lowerContext) then Medium
    else Low
  }

  /** High exactly when some high-priority keyword occurs in the lower-cased content or
      context. */
  lemma HighIff(content: string, context: Option<string>)
    ensures GetUrgencyLevel(content, context) == High <==>
      exists i | 0 <= i < |HighPriorityWords| ::
        Contains(Lower(content), HighPriorityWords[i])
        || Contains(LowerContext(context), HighPriorityWords[i])
  {
  }

  /** Medium exactly when no high-priority keyword occurs and some medium-priority one does. */
  lemma MediumIff(content: string, context: Option<string>)
    ensures GetUrgencyLevel(content, context) == Medium <==>
      (forall i | 0 <= i < |HighPriorityWords| ::
        !Contains(Lower(content), HighPriorityWords[i])
        && !Contains(LowerContext(context), HighPriorityWords[i]))
      && exists i | 0 <= i < |MediumPriorityWords| ::
        Contains(Lower(content), MediumPriorityWords[i])
        || Contains(LowerContext(context), MediumPriorityWords[i])
  {
  }

  /** A missing context is classified exactly like an empty one. */
  lemma MissingContextIsEmpty(content: string)
    ensures GetUrgencyLevel(content, None) == GetUrgencyLevel(content, Some(""))
  {
    assert Lower("") == "";
  }

  /** A keyword occurring in some text still occurs once more text is appended. */
  lemma SomeWordInAppend(words: seq<string>, content: string, more: string, context: string)
    requires SomeWordIn(words, content, context)
    ensures SomeWordIn(words, content + more, context)
  {
    var i :| 0 <= i < |words| && (Contains(content, words[i]) || Contains(context, words[i]));
    if Contains(content, words[i]) {
      ContainsAppend(content, more, words[i]);
    }
  }

  /** Appending text to the content never lowers the tier. */
  lemma UrgencyMonotone(content: string, more: string, context: Option<string>)
    ensures Rank(GetUrgencyLevel(content, context)) <= Rank(GetUrgencyLevel(content + more, context))
  {
    var ctx := LowerContext(context);
    LowerAppend(content, more);
    if SomeWordIn(HighPriorityWords, Lower(content), ctx) {
      SomeWordInAppend(HighPriorityWords, Lower(content), Lower(more), ctx);
    }
    if SomeWordIn(MediumPriorityWords, Lower(content), ctx) {
      SomeWordInAppend(MediumPriorityWords, Lower(content), Lower(more), ctx);
    }
  }

  /** Plain substring matching: "download" is high through "down". */
  lemma DownloadIsHigh()
    ensures GetUrgencyLevel("download", None) == High
  {
    var text := "download";
    assert Lower(text) == text;
    assert OccursAt(text, HighPriorityWords[6], 0);
    ContainsAt(text, HighPriorityWords[6], 0);
  }

  /** "needed" is medium through "need", since no high-priority keyword occurs in it. */
  lemma NeededIsMedium()
    ensures GetUrgencyLevel("needed", None) == Medium
  {
    var text := "needed";
    assert Lower(text) == text;
    // each high-priority keyword holds a letter other than n, e and d
    var missing := [0, 0, 1, 0, 0, 0, 1, 1, 0, 0, 0, 0, 0, 0, 0];
    forall i | 0 <= i < |HighPriorityWords|
      ensures !Contains(text, HighPriorityWords[i]) && !Contains("", HighPriorityWords[i])
    {
      MissingCharNotContained(text, HighPriorityWords[i], missing[i]);
      MissingCharNotContained("", HighPriorityWords[i], missing[i]);
    }
    assert OccursAt(text, MediumPriorityWords[1], 0);
    ContainsAt(text, MediumPriorityWords[1], 0);
  }

  // ---------------------------------------------------------------------------------------
  // The feed row

  /** A task linked to the mention's activity, reduced to its status. */
  datatype TaskRef = TaskRef(status: string)

  /** A stored mention with what the feed reads of its activity. */
  datatype StoredMention = StoredMention(
    id: string, product: string, mentionText: string, context: Option<string>,
    content: string, tasks: seq<TaskRef>)

  datatype FeedRow = FeedRow(
    id: string, product: string, mentionText: string, context: Option<string>, content: string,
    urgency: Urgency, hasTask: bool, taskStatus: Option<string>)

  /** One mention's feed row: `hasTask` when the activity has a task, and `taskStatus` the first
      task's status, with an empty status read as null. */
  function ToFeedRow(m: StoredMention): (r: FeedRow)
    ensures r.id == m.id && r.product == m.product && r.mentionText == m.mentionText
    ensures r.context == m.context && r.content == m.content
    ensures r.urgency == GetUrgencyLevel(m.content, m.context)
    ensures r.hasTask <==> |m.tasks| > 0
    ensures r.taskStatus.Some? ==> |m.tasks| > 0 && r.taskStatus.value == m.tasks[0].status
    ensures |m.tasks| > 0 && m.tasks[0].status != "" ==> r.taskStatus == Some(m.tasks[0].status)
    ensures |m.tasks| == 0 ==> r.taskStatus == None
  {
    FeedRow(m.id, m.product, m.mentionText, m.context, m.content,
      GetUrgencyLevel(m.content, m.context),
      |m.tasks| > 0,
      if |m.tasks| > 0 then OrNull(Some(m.tasks[0].status)) else None)
  }

  /** The reply of the GET handler. */
  datatype FeedReply = Unauthorized | Forbidden | Rows(rows: seq<FeedRow>)

  /** How many mentions the feed fetches. */
  const FeedSize: nat := 10

  /** GET: 401 without a signed-in user, 403 for anyone but a viewer, else the ten most recent
      of the stored mentions (`mentions` is in creation order) turned into feed rows one for
      one. */
  function GetRecentActivity(session: Session, mentions: seq<StoredMention>): (r: FeedReply)
    ensures r == Unauthorized <==> !SignedIn(session)
    ensures r == Forbidden <==> SignedIn(session) && session.value.role != Viewer
    ensures r.Rows? ==> |r.rows| == (if |mentions| < FeedSize then |mentions| else FeedSize)
    ensures r.Rows? ==> forall k | 0 <= k < |r.rows| ::
      r.rows[k] == ToFeedRow(mentions[|mentions| - 1 - k])
  {
    if !SignedIn(session) then Unauthorized
    else if session.value.role != Viewer then Forbidden
    else
      var recent := Seqs.Take(Seqs.Reverse(mentions), FeedSize);
      Rows(seq(|recent|, k requires 0 <= k < |recent| => ToFeedRow(recent[k])))
  }
}
