/**
  The project board (components/features/projects/KanbanBoard.tsx): projects grouped into four
  status columns, and the drag handlers that turn a drop onto another column into a status
  update for the parent.
*/
module KanbanBoard {
  import opened Wrappers
  import Seqs

  /** The fields the board consults. */
  datatype Project = Project(id: string, status: string, progress: int)

  /** The column ids, in display order. */
  const ColumnIds: seq<string> := ["NOT_STARTED", "IN_PROGRESS", "ON_HOLD", "COMPLETED"]

  function HasStatus(status: string): Project -> bool {
    (p: Project) => p.status == status
  }

  /** `projects.filter(project => project.status === column.id)`. */
  function Column(projects: seq<Project>, column: string): (r: seq<Project>)
    ensures Seqs.IsSubseq(r, projects)
    ensures forall p | p in r :: p.status == column
    ensures forall p | p in projects && p.status == column :: p in r
  {
    Seqs.FilterIsSubseq(projects, HasStatus(column));
    Seqs.Filter(projects, HasStatus(column))
  }

  /** `projectsByStatus`: the reduce over the columns, writing one entry per column into the
      accumulator. */
  method GroupByStatus(projects: seq<Project>) returns (groups: map<string, seq<Project>>)
    ensures groups.Keys == set c | c in ColumnIds
    ensures forall c | c in groups :: groups[c] == Column(projects, c)
  {
    groups := map[];
    for k := 0 to |ColumnIds|
      invariant groups.Keys == set c | c in ColumnIds[..k]
      invariant forall c | c in groups :: groups[c] == Column(projects, c)
    {
      assert ColumnIds[..k + 1] == ColumnIds[..k] + [ColumnIds[k]];
      groups := groups[ColumnIds[k] := Column(projects, ColumnIds[k])];
    }
    assert ColumnIds[..|ColumnIds|] == ColumnIds;
  }

  /** No project sits in two columns. */
  lemma ColumnsDisjoint(projects: seq<Project>, c1: string, c2: string, p: Project)
    requires c1 != c2
    ensures !(p in Column(projects, c1) && p in Column(projects, c2))
  {
  }

  /** A project is shown in its own status's column when that status is a column id, and in no
      column otherwise (CANCELLED projects are not on the board). */
  lemma ShownIffColumnStatus(projects: seq<Project>, p: Project)
    requires p in projects
    ensures p.status in ColumnIds ==> p in Column(projects, p.status)
    ensures (exists c | c in ColumnIds :: p in Column(projects, c)) <==> p.status in ColumnIds
  {
    if p.status in ColumnIds {
      assert p in Column(projects, p.status);
    }
  }

  /** A cancelled project appears in no column. */
  lemma CancelledHidden(projects: seq<Project>, p: Project)
    requires p in projects && p.status == "CANCELLED"
    ensures forall c | c in ColumnIds :: p !in Column(projects, c)
  {
  }

  /** `projects.find(p => p.id === id)`: the first project with that id. */
  function FindById(projects: seq<Project>, id: string): (r: Option<Project>)
    ensures r.None? <==> forall p | p in projects :: p.id != id
    ensures r.Some? ==> exists k | 0 <= k < |projects| ::
      projects[k] == r.value && r.value.id == id && forall j | 0 <= j < k :: projects[j].id != id
    decreases |projects|
  {
    if projects == [] then None
    else if projects[0].id == id then Some(projects[0])
    else
      var r := FindById(projects[1..], id);
      if r.Some? then
        assert forall k | 0 <= k < |projects[1..]| :: projects[1..][k] == projects[k + 1];
        r
      else r
  }

  /** The update handed to `onProjectUpdate`: the project id and `{status: newStatus}`. */
  datatype StatusPatch = StatusPatch(projectId: string, status: string)

  /** The decision of `handleDragEnd` once a target exists: an update exactly when the target
      is a column, the project is found, and its status differs from the target. */
  function DropPatch(projects: seq<Project>, projectId: string, target: string): (r: Option<StatusPatch>)
    ensures r.Some? <==> (target in ColumnIds && FindById(projects, projectId).Some?
      && FindById(projects, projectId).value.status != target)
    ensures r.Some? ==> r.value == StatusPatch(projectId, target)
  {
    if target in ColumnIds then
      var project := FindById(projects, projectId);
      if project.Some? && project.value.status != target then Some(StatusPatch(projectId, target))
      else None
    else None
  }

  /** Dropping a project on its own column, or anywhere but a column, asks for nothing. */
  lemma NoPatchWithoutMove(projects: seq<Project>, p: Project, target: string)
    requires p in projects && forall q | q in projects && q.id == p.id :: q == p
    requires target == p.status || target !in ColumnIds
    ensures DropPatch(projects, p.id, target).None?
  {
  }

  /** The projects once the parent has stored a status patch. */
  function ApplyPatch(projects: seq<Project>, patch: StatusPatch): (r: seq<Project>)
    ensures |r| == |projects|
    ensures forall i | 0 <= i < |r| :: r[i].id == projects[i].id
    ensures forall i | 0 <= i < |r| && projects[i].id != patch.projectId :: r[i] == projects[i]
    ensures forall i | 0 <= i < |r| && projects[i].id == patch.projectId ::
      r[i].status == patch.status && r[i].(status := projects[i].status) == projects[i]
  {
    seq(|projects|, i requires 0 <= i < |projects| =>
      if projects[i].id == patch.projectId then projects[i].(status := patch.status) else projects[i])
  }

  /** Once a requested move is stored, the moved project shows in the target column and in no
      other. */
  lemma MoveLandsInTarget(projects: seq<Project>, projectId: string, target: string)
    requires DropPatch(projects, projectId, target).Some?
    ensures var moved := FindById(projects, projectId).value.(status := target);
      var after := ApplyPatch(projects, DropPatch(projects, projectId, target).value);
      && moved in Column(after, target)
      && forall c | c in ColumnIds && c != target :: moved !in Column(after, c)
  {
    var p := FindById(projects, projectId).value;
    var after := ApplyPatch(projects, DropPatch(projects, projectId, target).value);
    var k :| 0 <= k < |projects| && projects[k] == p;
    assert after[k] == p.(status := target);
  }

  /** The board's drag state and the updates it has requested, oldest first. */
  class Board {
    var activeId: Option<string>
    var requested: seq<StatusPatch>

    constructor()
      ensures activeId == None && requested == []
    {
      activeId := None;
      requested := [];
    }

    /** `handleDragStart`. */
    method DragStart(id: string)
      modifies this
      ensures activeId == Some(id) && requested == old(requested)
    {
      activeId := Some(id);
    }

    /** `handleDragEnd`: without a target nothing happens, not even the reset of `activeId`;
        with one, the update is requested when `DropPatch` gives one, and `activeId` clears. */
    method DragEnd(projects: seq<Project>, projectId: string, over: Option<string>)
      returns (patch: Option<StatusPatch>)
      modifies this
      ensures over.None? ==> patch.None? && activeId == old(activeId)
      ensures over.Some? ==> patch == DropPatch(projects, projectId, over.value) && activeId == None
      ensures requested == old(requested) + (if patch.Some? then [patch.value] else [])
    {
      if over.None? {
        return None;
      }
      patch := DropPatch(projects, projectId, over.value);
      if patch.Some? {
        requested := requested + [patch.value];
      }
      activeId := None;
    }

    /** `activeProject`: the dragged project, for the overlay; an empty id is falsy and shows
        nothing. */
    function ActiveProject(projects: seq<Project>): (r: Option<Project>)
      reads this
      ensures r.Some? <==> activeId.Some? && activeId.value != "" && exists p | p in projects :: p.id == activeId.value
      ensures r.Some? ==> r.value in projects && r.value.id == activeId.value
    {
      if activeId.Some? && activeId.value != "" then FindById(projects, activeId.value) else None
    }
  }
}
