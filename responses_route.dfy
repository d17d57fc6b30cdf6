/**
  Responses to viewer tasks (app/api/carms-corner/responses/route.ts): POST appends a response
  after a guard chain that consults the task table and applies the ownership rule; GET lists
  responses newest first, optionally for one task.
*/
module ResponsesRoute {
  import opened Wrappers
  import opened Auth
  import Seqs

  /** A stored response; the table keeps insertion (creation) order. */
  datatype Response = Response(
    taskId: string, status: string, content: Option<string>, notes: Option<string>, userId: string)

  /** The JSON body of POST; an absent field is `None`. */
  datatype PostBody = PostBody(
    taskId: Option<string>, content: Option<string>, status: Option<string>, notes: Option<string>)

  /** Who may respond to a task owned by `owner`: anyone but a contributor, and a contributor
      only to their own task. */
  predicate MayRespond(user: User, owner: string) {
    user.role != Contributor || owner == user.id
  }

  /** The status the guards reject with, in the order they run, given the task table `tasks`
      (task id to owner id); `None` when all pass. */
  function PostRejection(session: Session, body: PostBody, tasks: map<string, string>): (r: Option<nat>)
    ensures r == Some(401) <==> !SignedInWithId(session)
    ensures r == Some(400) <==>
      SignedInWithId(session) && !(Truthy(body.taskId) && Truthy(body.status))
    ensures r == Some(404) <==>
      SignedInWithId(session) && Truthy(body.taskId) && Truthy(body.status)
      && body.taskId.value !in tasks
    ensures r == Some(403) <==>
      SignedInWithId(session) && Truthy(body.taskId) && Truthy(body.status)
      && body.taskId.value in tasks && !MayRespond(session.value, tasks[body.taskId.value])
    ensures r.None? <==>
      SignedInWithId(session) && Truthy(body.taskId) && Truthy(body.status)
      && body.taskId.value in tasks && MayRespond(session.value, tasks[body.taskId.value])
  {
    if !SignedInWithId(session) then Some(401)
    else if !(Truthy(body.taskId) && Truthy(body.status)) then Some(400)
    else if body.taskId.value !in tasks then Some(404)
    else if !MayRespond(session.value, tasks[body.taskId.value]) then Some(403)
    else None
  }

  /** The response stored for an accepted request: empty content and notes become null. */
  function NewResponse(userId: string, body: PostBody): (r: Response)
    requires body.taskId.Some? && body.status.Some?
    ensures r.taskId == body.taskId.value && r.status == body.status.value && r.userId == userId
    ensures r.content == OrNull(body.content) && r.notes == OrNull(body.notes)
  {
    Response(body.taskId.value, body.status.value, OrNull(body.content), OrNull(body.notes), userId)
  }

  /** The table after one POST: one response more when the guards pass, unchanged otherwise. */
  function AfterPost(responses: seq<Response>, session: Session, body: PostBody,
                     tasks: map<string, string>): (r: seq<Response>)
    ensures PostRejection(session, body, tasks).Some? ==> r == responses
    ensures PostRejection(session, body, tasks).None? ==>
      r == responses + [NewResponse(session.value.id, body)]
  {
    if PostRejection(session, body, tasks).Some? then responses
    else responses + [NewResponse(session.value.id, body)]
  }

  /** The responses table. */
  class ResponseTable {
    var responses: seq<Response>

    constructor()
      ensures responses == []
    {
      responses := [];
    }

    /** POST: the guards, then one new response with 201. */
    method Post(session: Session, body: PostBody, tasks: map<string, string>) returns (status: nat)
      modifies this
      ensures responses == AfterPost(old(responses), session, body, tasks)
      ensures status == PostRejection(session, body, tasks).GetOr(201)
    {
      var rejection := PostRejection(session, body, tasks);
      if rejection.Some? {
        return rejection.value;
      }
      responses := responses + [NewResponse(session.value.id, body)];
      return 201;
    }
  }

  /** Responses to the task `taskId`. */
  function ForTask(responses: seq<Response>, taskId: string): seq<Response> {
    Seqs.Filter(responses, (r: Response) => r.taskId == taskId)
  }

  /** Viewers may respond to any existing task, contributors only to their own. */
  lemma OwnershipRule(user: User, body: PostBody, tasks: map<string, string>)
    requires user.id != "" && Truthy(body.taskId) && Truthy(body.status) && body.taskId.value in tasks
    ensures user.role == Viewer ==> PostRejection(Some(user), body, tasks).None?
    ensures user.role == Contributor ==>
      (PostRejection(Some(user), body, tasks).None? <==> tasks[body.taskId.value] == user.id)
  {
  }

  /** There is no uniqueness check: two accepted posts for one task add two responses to it. */
  lemma ResponsesAccumulate(responses: seq<Response>, session: Session, body: PostBody,
                            tasks: map<string, string>)
    requires PostRejection(session, body, tasks).None?
    ensures var twice := AfterPost(AfterPost(responses, session, body, tasks), session, body, tasks);
      |ForTask(twice, body.taskId.value)| == |ForTask(responses, body.taskId.value)| + 2
  {
    var r := NewResponse(session.value.id, body);
    var p := (x: Response) => x.taskId == body.taskId.value;
    Seqs.FilterAppend(responses + [r], [r], p);
    Seqs.FilterAppend(responses, [r], p);
    assert Seqs.Filter([r], p) == [r];
  }

  /** The reply of GET. */
  datatype GetReply = GetUnauthorized | Responses(responses: seq<Response>)

  /** `where.taskId = taskId` when the task id is truthy; no condition otherwise. */
  function TaskFilter(taskId: Option<string>): Response -> bool {
    (r: Response) => !Truthy(taskId) || r.taskId == taskId.value
  }

  /** GET: the responses to the task when one is given (all otherwise), newest first. */
  function Get(session: Session, responses: seq<Response>, taskId: Option<string>): (r: GetReply)
    ensures r == GetUnauthorized <==> !SignedInWithId(session)
    ensures r.Responses? ==> r.responses == Seqs.Filter(Seqs.Reverse(responses), TaskFilter(taskId))
    ensures r.Responses? && Truthy(taskId) ==>
      forall k | 0 <= k < |r.responses| :: r.responses[k].taskId == taskId.value
  {
    if !SignedInWithId(session) then GetUnauthorized
    else
      Seqs.FilterReverse(responses, TaskFilter(taskId));
      Responses(Seqs.Reverse(Seqs.Filter(responses, TaskFilter(taskId))))
  }
}
