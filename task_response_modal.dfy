/**
  The viewer's answer to a task (components/features/carms-corner/TaskResponseModal.tsx): the
  chosen status and notes, the submit guard, the request sent to the responses route, and the
  reset on close.
*/
module TaskResponseModal {
  import opened Wrappers
  import opened Strings
  import opened Auth
  import Seqs
  import RR = ResponsesRoute

  /** The status selected when the form opens and after each close. */
  const InitialStatus := "APPROVED"

  /** The hidden status: a viewer cannot answer with it. */
  const Pending := "PENDING"

  function NotPending(): string -> bool {
    (k: string) => k != Pending
  }

  /** The status buttons: the keys of the status configuration, in order, without PENDING.
      The configuration is not part of this model, so its keys are a parameter. */
  function Choices(keys: seq<string>): (r: seq<string>)
    ensures Seqs.IsSubseq(r, keys)
    ensures Pending !in r
    ensures forall k | k in keys && k != Pending :: k in r
  {
    Seqs.FilterIsSubseq(keys, NotPending());
    Seqs.Filter(keys, NotPending())
  }

  /** The body `handleSubmit` sends: no content, and empty notes sent as null. */
  function RequestBody(taskId: string, status: string, notes: string): (b: RR.PostBody)
    ensures b.taskId == Some(taskId) && b.status == Some(status) && b.content.None?
    ensures b.notes.Some? <==> notes != ""
    ensures b.notes.Some? ==> b.notes.value == notes
  {
    RR.PostBody(Some(taskId), None, Some(status), if notes != "" then Some(notes) else None)
  }

  /** How the request ended: a 2xx answer, an error answer, or a thrown fetch. */
  datatype Answer = Created | Refused | Threw

  class ResponseModal {
    /** `isViewer` from the session. */
    const isViewer: bool
    /** The id of the task being answered, `None` for no task. */
    const taskId: Option<string>
    /** The keys of the status configuration. */
    const statusKeys: seq<string>
    var status: string
    var notes: string
    var loading: bool
    /** Requests sent, oldest first. */
    var requests: seq<RR.PostBody>
    /** Responses handed to `onResponseCreated`, alerts shown, and calls of `onClose`. */
    var created: nat
    var alerts: nat
    var closes: nat

    /** The invariant the buttons keep: the selected status is APPROVED or one of the
        choices, so never PENDING. */
    predicate Valid()
      reads this
    {
      status == InitialStatus || status in Choices(statusKeys)
    }

    constructor(isViewer: bool, taskId: Option<string>, statusKeys: seq<string>)
      ensures Valid()
      ensures this.isViewer == isViewer && this.taskId == taskId && this.statusKeys == statusKeys
      ensures status == InitialStatus && notes == "" && !loading
      ensures requests == [] && created == 0 && alerts == 0 && closes == 0
    {
      this.isViewer := isViewer;
      this.taskId := taskId;
      this.statusKeys := statusKeys;
      status := InitialStatus;
      notes := "";
      loading := false;
      requests := [];
      created := 0;
      alerts := 0;
      closes := 0;
    }

    /** A click on a status button, which only the choices have. */
    method SelectStatus(key: string)
      modifies this
      requires key in Choices(statusKeys)
      ensures Valid() && status == key && status != Pending
      ensures notes == old(notes) && loading == old(loading) && requests == old(requests)
      ensures created == old(created) && alerts == old(alerts) && closes == old(closes)
    {
      status := key;
    }

    /** Typing in the notes. */
    method ChangeNotes(text: string)
      modifies this
      ensures notes == text && status == old(status)
      ensures loading == old(loading) && requests == old(requests)
      ensures created == old(created) && alerts == old(alerts) && closes == old(closes)
    {
      notes := text;
    }

    /** The submit button's enabled state: not loading, and notes that are not blank unless
        the answer is APPROVED. */
    function SubmitEnabled(): (enabled: bool)
      reads this
      ensures enabled <==> !loading && (status == InitialStatus || !AllSpace(notes))
    {
      TrimEmptyIff(notes);
      !loading && (status == InitialStatus || Trim(notes) != [])
    }

    /** `handleClose`: back to APPROVED with empty notes, and `onClose` is called. */
    method Close()
      modifies this
      ensures Valid() && status == InitialStatus && notes == "" && closes == old(closes) + 1
      ensures loading == old(loading) && requests == old(requests)
      ensures created == old(created) && alerts == old(alerts)
    {
      status := InitialStatus;
      notes := "";
      closes := closes + 1;
    }

    /** `handleSubmit`, `answer` standing for how the request ends. Nothing happens for a
        non-viewer or without a task. Otherwise one request is sent; a created response is
        reported and the form closes, and any failure shows an alert and keeps the form.
        Loading is off at the end. */
    method Submit(answer: Answer)
      modifies this
      requires Valid()
      ensures Valid()
      ensures !isViewer || taskId.None? ==>
        && requests == old(requests) && loading == old(loading) && status == old(status)
        && notes == old(notes) && created == old(created) && alerts == old(alerts)
        && closes == old(closes)
      ensures isViewer && taskId.Some? ==>
        && requests == old(requests) + [RequestBody(taskId.value, old(status), old(notes))]
        && !loading
      ensures isViewer && taskId.Some? && answer == Created ==>
        && created == old(created) + 1 && closes == old(closes) + 1 && alerts == old(alerts)
        && status == InitialStatus && notes == ""
      ensures isViewer && taskId.Some? && answer != Created ==>
        && alerts == old(alerts) + 1 && created == old(created) && closes == old(closes)
        && status == old(status) && notes == old(notes)
    {
      if !isViewer || taskId.None? {
        return;
      }
      loading := true;
      requests := requests + [RequestBody(taskId.value, status, notes)];
      if answer == Created {
        created := created + 1;
        Close();
      } else {
        alerts := alerts + 1;
      }
      loading := false;
    }
  }

  /** The request a viewer sends for an existing task passes every guard of the responses
      route, and the stored response carries the chosen status and the notes, null when
      empty. */
  lemma RequestAccepted(session: Session, tasks: map<string, string>, taskId: string,
                        status: string, notes: string)
    requires SignedInWithId(session) && session.value.role == Viewer
    requires taskId != "" && status != "" && taskId in tasks
    ensures var body := RequestBody(taskId, status, notes);
      && RR.PostRejection(session, body, tasks).None?
      && RR.NewResponse(session.value.id, body).status == status
      && RR.NewResponse(session.value.id, body).taskId == taskId
      && (RR.NewResponse(session.value.id, body).notes.Some? <==> notes != "")
  {
  }

  /** The modal never sends PENDING: every status it sends is APPROVED or a configured
      choice. */
  lemma NeverSendsPending(keys: seq<string>, status: string)
    requires status == InitialStatus || status in Choices(keys)
    ensures status != Pending && (status == InitialStatus || status in keys)
  {
    Seqs.FilterIsSubseq(keys, NotPending());
  }

  /** A failed request can be sent again with the same status and notes; a created one
      resets the form. */
  method RetryAfterRefusal() returns (first: RR.PostBody, second: RR.PostBody, after: string)
    ensures first == second && first.status == Some("REJECTED") && first.notes == Some("dup")
    ensures after == InitialStatus
  {
    var m := new ResponseModal(true, Some("t1"), ["REJECTED", "PENDING"]);
    assert "REJECTED" in Choices(m.statusKeys) by {
      assert m.statusKeys[0] == "REJECTED";
    }
    m.SelectStatus("REJECTED");
    m.ChangeNotes("dup");
    m.Submit(Refused);
    first := m.requests[0];
    m.Submit(Created);
    second := m.requests[1];
    after := m.status;
  }
}
