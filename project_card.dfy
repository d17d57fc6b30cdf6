/**
  The project card (components/features/projects/ProjectCard.tsx): the progress bar's gradient,
  chosen by status and, for projects in progress, by progress band; and the progress shown
  on the card, which follows the slider at once and falls back when storing it fails.
*/
module ProjectCard {

  const CompletedGradient := "bg-gradient-to-r from-green-400 via-green-500 to-emerald-600"
  const NearlyDoneGradient := "bg-gradient-to-r from-blue-400 via-blue-500 to-indigo-600"
  const PastHalfGradient := "bg-gradient-to-r from-blue-400 via-cyan-500 to-blue-600"
  const StartedGradient := "bg-gradient-to-r from-cyan-400 via-blue-500 to-blue-600"
  const EarlyGradient := "bg-gradient-to-r from-slate-400 via-blue-400 to-blue-500"
  const OnHoldGradient := "bg-gradient-to-r from-amber-400 via-yellow-500 to-orange-500"
  const NotStartedGradient := "bg-gradient-to-r from-slate-300 via-slate-400 to-slate-500"
  const CancelledGradient := "bg-gradient-to-r from-red-400 via-red-500 to-red-600"
  const DefaultGradient := "bg-gradient-to-r from-primary-400 via-primary-500 to-primary-600"

  /** The statuses with a gradient of their own. */
  const KnownStatuses: set<string> := {"COMPLETED", "IN_PROGRESS", "ON_HOLD", "NOT_STARTED", "CANCELLED"}

  /** `getProjectProgressColor` of the card. */
  function ProgressGradient(status: string, progress: int): string {
    match status
    case "COMPLETED" => CompletedGradient
    case "IN_PROGRESS" =>
      if progress > 75 then NearlyDoneGradient
      else if progress > 50 then PastHalfGradient
      else if progress > 25 then StartedGradient
      else EarlyGradient
    case "ON_HOLD" => OnHoldGradient
    case "NOT_STARTED" => NotStartedGradient
    case "CANCELLED" => CancelledGradient
    case _ => DefaultGradient
  }

  /** The same function as written a second time on the dashboard home page. */
  function DashboardProgressGradient(status: string, progress: int): string {
    if status == "COMPLETED" then CompletedGradient
    else if status == "IN_PROGRESS" then
      (if progress > 75 then NearlyDoneGradient
       else if progress > 50 then PastHalfGradient
       else if progress > 25 then StartedGradient
       else EarlyGradient)
    else if status == "ON_HOLD" then OnHoldGradient
    else if status == "NOT_STARTED" then NotStartedGradient
    else if status == "CANCELLED" then CancelledGradient
    else DefaultGradient
  }

  /** The two copies agree on every input. */
  lemma CopiesAgree(status: string, progress: int)
    ensures ProgressGradient(status, progress) == DashboardProgressGradient(status, progress)
  {
  }

  /** Only projects in progress depend on their progress. */
  lemma GradientIgnoresProgress(status: string, p: int, q: int)
    requires status != "IN_PROGRESS"
    ensures ProgressGradient(status, p) == ProgressGradient(status, q)
  {
  }

  /** Two projects in progress share a gradient exactly when their progress lies on the same
      side of each of the thresholds 75, 50 and 25. */
  lemma InProgressBands(p: int, q: int)
    ensures ProgressGradient("IN_PROGRESS", p) == ProgressGradient("IN_PROGRESS", q) <==>
      (p > 75 <==> q > 75) && (p > 50 <==> q > 50) && (p > 25 <==> q > 25)
  {
    assert NearlyDoneGradient[35] == 'b' && PastHalfGradient[35] == 'c';
    assert NearlyDoneGradient[22] == 'b' && PastHalfGradient[22] == 'b';
    assert StartedGradient[22] == 'c' && EarlyGradient[22] == 's';
  }

  /** Different known statuses never share a gradient, whatever the progress, and every other
      status gets the default one, which no known status uses. */
  lemma GradientIdentifiesStatus(s1: string, p1: int, s2: string, p2: int)
    ensures (s1 in KnownStatuses && s2 in KnownStatuses
      && ProgressGradient(s1, p1) == ProgressGradient(s2, p2)) ==> s1 == s2
    ensures s1 !in KnownStatuses ==> ProgressGradient(s1, p1) == DefaultGradient
    ensures s1 in KnownStatuses ==> ProgressGradient(s1, p1) != DefaultGradient
  {
    assert CompletedGradient[22] == 'g' && OnHoldGradient[22] == 'a' && NotStartedGradient[22] == 's';
    assert CancelledGradient[22] == 'r' && DefaultGradient[22] == 'p';
    assert NearlyDoneGradient[22] == 'b' && PastHalfGradient[22] == 'b';
    assert StartedGradient[22] == 'c' && EarlyGradient[22] == 's';
    assert EarlyGradient[28] == '4' && NotStartedGradient[28] == '3';
  }

  /** The card's progress state; `stored` is the `project.progress` prop. */
  class Card {
    const status: string
    const stored: int
    var localProgress: int
    /** The progress values handed to `onUpdate`, oldest first. */
    var sent: seq<int>
    /** The titles handed to `onUpdate`, oldest first. */
    var titles: seq<string>

    constructor(status: string, stored: int)
      ensures this.status == status && this.stored == stored
      ensures localProgress == stored && sent == [] && titles == []
    {
      this.status := status;
      this.stored := stored;
      localProgress := stored;
      sent := [];
      titles := [];
    }

    /** `progressGradient`: the gradient follows the progress shown, not the stored one. */
    function Gradient(): string
      reads this
    {
      ProgressGradient(status, localProgress)
    }

    /** `handleProgressUpdate`: the new value is shown at once and, when there is a handler,
        sent; if the handler throws the card shows the stored progress again, whatever it
        showed before. */
    method ProgressUpdate(newProgress: int, hasHandler: bool, fails: bool)
      modifies this
      ensures hasHandler ==> sent == old(sent) + [newProgress]
      ensures !hasHandler ==> sent == old(sent)
      ensures localProgress == if hasHandler && fails then stored else newProgress
      ensures titles == old(titles)
    {
      localProgress := newProgress;
      if hasHandler {
        sent := sent + [newProgress];
        if fails {
          localProgress := stored;
        }
      }
    }

    /** `handleTitleUpdate`: the new title is sent when there is a handler; a failure only
        shows a message, and the card's progress is untouched. */
    method TitleUpdate(newTitle: string, hasHandler: bool)
      modifies this
      ensures titles == old(titles) + (if hasHandler then [newTitle] else [])
      ensures localProgress == old(localProgress) && sent == old(sent)
    {
      if hasHandler {
        titles := titles + [newTitle];
      }
    }
  }

  /** A failed change after an earlier unsaved one shows the stored value, not the earlier
      one. */
  method RevertGoesToStored() returns (shown: int, gradient: string)
    ensures shown == 10 && gradient == EarlyGradient
  {
    var card := new Card("IN_PROGRESS", 10);
    card.ProgressUpdate(60, false, false);
    card.ProgressUpdate(90, true, true);
    shown := card.localProgress;
    gradient := card.Gradient();
  }
}
