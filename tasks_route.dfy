/**
  Viewer tasks (app/api/carms-corner/tasks/route.ts): the response-status filter of GET and the
  guard chain and defaults of POST.
*/
module TasksRoute {
  import opened Wrappers
  import opened Auth
  import Seqs

  /** A fetched task with the statuses of its responses. */
  datatype Task = Task(
    title: string, description: string, product: string, priority: string,
    dueDate: Option<string>, userId: string, activityId: Option<string>,
    responseStatuses: seq<string>)

  /** Some response of the task has status `s`. */
  predicate HasResponse(t: Task, s: string) {
    exists i | 0 <= i < |t.responseStatuses| :: t.responseStatuses[i] == s
  }

  /** The filter's test for one task: PENDING keeps tasks without responses or with a pending
      response; any other status keeps tasks with a response of that status. */
  predicate KeepsTask(status: string, t: Task) {
    if status == "PENDING" then |t.responseStatuses| == 0 || HasResponse(t, "PENDING")
    else HasResponse(t, status)
  }

  /** The tasks GET returns for the `status` parameter (a falsy one filters nothing). */
  function FilterByStatus(tasks: seq<Task>, status: Option<string>): (r: seq<Task>)
    ensures !Truthy(status) ==> r == tasks
    ensures Seqs.IsSubseq(r, tasks)
    ensures Truthy(status) ==>
      (forall i | 0 <= i < |r| :: KeepsTask(status.value, r[i]))
      && (forall i | 0 <= i < |tasks| && KeepsTask(status.value, tasks[i]) :: tasks[i] in r)
  {
    if !Truthy(status) then
      Seqs.SubseqRefl(tasks);
      tasks
    else
      var keep := (t: Task) => KeepsTask(status.value, t);
      Seqs.FilterIsSubseq(tasks, keep);
      Seqs.Filter(tasks, keep)
  }

  /** Without a status every task is returned, in order. */
  lemma NoStatusKeepsAll(tasks: seq<Task>)
    ensures FilterByStatus(tasks, None) == tasks && FilterByStatus(tasks, Some("")) == tasks
  {
  }

  /** With `status=PENDING` a task survives exactly when it has no response or a pending
      one. */
  lemma PendingFilter(tasks: seq<Task>, t: Task)
    requires t in tasks
    ensures t in FilterByStatus(tasks, Some("PENDING")) <==>
      |t.responseStatuses| == 0 || HasResponse(t, "PENDING")
  {
  }

  /** With any other status a task survives exactly when some response has that status, so a
      task without responses is dropped. */
  lemma OtherStatusFilter(tasks: seq<Task>, s: string, t: Task)
    requires s != "" && s != "PENDING" && t in tasks
    ensures t in FilterByStatus(tasks, Some(s)) <==> HasResponse(t, s)
    ensures |t.responseStatuses| == 0 ==> t !in FilterByStatus(tasks, Some(s))
  {
  }

  /** The reply of GET. */
  datatype GetReply = GetUnauthorized | Tasks(tasks: seq<Task>)

  /** `where.product = product` when the product is truthy; no condition otherwise. */
  function ProductFilter(product: Option<string>): Task -> bool {
    (t: Task) => !Truthy(product) || t.product == product.value
  }

  /** GET: 401 without a signed-in user id; otherwise the tasks of the product when one is
      given (all tasks otherwise, in the order fetched), filtered by status. */
  function GetTasks(session: Session, tasks: seq<Task>, product: Option<string>, status: Option<string>)
    : (r: GetReply)
    ensures r == GetUnauthorized <==> !SignedInWithId(session)
    ensures r.Tasks? ==> r.tasks == FilterByStatus(Seqs.Filter(tasks, ProductFilter(product)), status)
    ensures r.Tasks? ==> Seqs.IsSubseq(r.tasks, tasks)
    ensures r.Tasks? && Truthy(product) ==> forall i | 0 <= i < |r.tasks| :: r.tasks[i].product == product.value
  {
    if !SignedInWithId(session) then GetUnauthorized
    else
      var selected := Seqs.Filter(tasks, ProductFilter(product));
      Seqs.FilterIsSubseq(tasks, ProductFilter(product));
      if Truthy(status) then
        var both := (t: Task) => ProductFilter(product)(t) && KeepsTask(status.value, t);
        Seqs.FilterFilter(tasks, ProductFilter(product), (t: Task) => KeepsTask(status.value, t), both);
        Seqs.FilterIsSubseq(tasks, both);
        Tasks(FilterByStatus(selected, status))
      else
        Tasks(FilterByStatus(selected, status))
  }

  // ---------------------------------------------------------------------------------------
  // POST

  /** The JSON body of POST; an absent field is `None`. */
  datatype PostBody = PostBody(
    title: Option<string>, description: Option<string>, product: Option<string>,
    priority: Option<string>, dueDate: Option<string>, activityId: Option<string>)

  /** The status the guards reject with, in the order they run; `None` when all pass. */
  function PostRejection(session: Session, body: PostBody): (r: Option<nat>)
    ensures r == Some(401) <==> !SignedInWithId(session)
    ensures r == Some(403) <==> SignedInWithId(session) && session.value.role != Contributor
    ensures r == Some(400) <==> (SignedInWithId(session) && session.value.role == Contributor
      && !(Truthy(body.title) && Truthy(body.description) && Truthy(body.product)))
    ensures r.None? <==> (SignedInWithId(session) && session.value.role == Contributor
      && Truthy(body.title) && Truthy(body.description) && Truthy(body.product))
  {
    if !SignedInWithId(session) then Some(401)
    else if session.value.role != Contributor then Some(403)
    else if !(Truthy(body.title) && Truthy(body.description) && Truthy(body.product)) then Some(400)
    else None
  }

  /** The task POST stores: priority MEDIUM unless given, due date and activity null unless
      given, no responses yet. */
  function NewTask(userId: string, body: PostBody): (t: Task)
    requires body.title.Some? && body.description.Some? && body.product.Some?
    ensures t.title == body.title.value && t.description == body.description.value
    ensures t.product == body.product.value && t.userId == userId
    ensures Truthy(body.priority) ==> t.priority == body.priority.value
    ensures !Truthy(body.priority) ==> t.priority == "MEDIUM"
    ensures t.dueDate == OrNull(body.dueDate) && t.activityId == OrNull(body.activityId)
    ensures t.responseStatuses == []
  {
    Task(body.title.value, body.description.value, body.product.value,
      OrNull(body.priority).GetOr("MEDIUM"), OrNull(body.dueDate), userId,
      OrNull(body.activityId), [])
  }

  /** The reply of POST. */
  datatype PostReply = Rejected(status: nat) | Created(task: Task)

  /** POST: the status of the first guard that fails, else 201 with the stored task, owned by
      the signed-in user. */
  function PostTask(session: Session, body: PostBody): (r: PostReply)
    ensures r.Rejected? <==> PostRejection(session, body).Some?
    ensures r.Rejected? ==> r.status == PostRejection(session, body).value && r.status in {400, 401, 403}
    ensures r.Created? ==> SignedInWithId(session) && session.value.role == Contributor
    ensures r.Created? ==> r.task == NewTask(session.value.id, body)
    ensures r.Created? ==> r.task.userId == session.value.id && r.task.responseStatuses == []
  {
    match PostRejection(session, body)
    case Some(status) => Rejected(status)
    case None => Created(NewTask(session.value.id, body))
  }

  /** A freshly created task is kept by the PENDING filter. */
  lemma NewTaskIsPending(session: Session, body: PostBody)
    requires PostTask(session, body).Created?
    ensures KeepsTask("PENDING", PostTask(session, body).task)
  {
  }
}
