/**
 * The request gates of core/mixins.py. Each mixin reads the project id
 * from the URL keyword arguments as `kwargs.get('pk') or
 * kwargs.get('project_pk')`, does nothing when that is falsy, answers
 * NotFound for a missing project, and otherwise checks one permission
 * predicate before handing the request on.
 */
module Mixins {
  import opened Models
  import opened Store
  import opened Permissions

  /** The integer URL keyword arguments a route supplies (absent = None). */
  datatype Kwargs = Kwargs(pk: Option<nat>, projectPk: Option<nat>)

  /** The three mixins. */
  datatype Guard = MemberRequired | EditorRequired | OwnerRequired

  datatype Dispatch = Proceed | NotFound | PermissionDenied

  /**
   * `kwargs.get('pk') or kwargs.get('project_pk')`, then `if project_pk:`:
   * the id that is checked, or None when no check is made (absent or 0).
   */
  function CheckedProjectId(kw: Kwargs): (r: Option<nat>)
    ensures r.Some? ==> r.value != 0
    ensures HasPk(kw.pk) ==> r == kw.pk
    ensures !HasPk(kw.pk) && HasPk(kw.projectPk) ==> r == kw.projectPk
    ensures r.None? <==> !HasPk(kw.pk) && !HasPk(kw.projectPk)
  {
    var chosen := if HasPk(kw.pk) then kw.pk else kw.projectPk;
    if HasPk(chosen) then chosen else None
  }

  /** The permission each mixin requires. */
  predicate Allows(g: Guard, members: MemberTable, u: UserId, pid: ProjectId, p: Project)
  {
    match g
    case MemberRequired => HasViewAccess(members, u, pid)
    case EditorRequired => HasEditAccess(members, u, pid)
    case OwnerRequired => IsProjectOwner(u, p)
  }

  /** `dispatch` of the three mixins. */
  function DispatchGate(g: Guard, projects: map<ProjectId, Project>, members: MemberTable,
                        u: UserId, kw: Kwargs): (r: Dispatch)
    ensures CheckedProjectId(kw).None? ==> r == Proceed
    ensures r == NotFound <==> CheckedProjectId(kw).Some? && CheckedProjectId(kw).value !in projects
    ensures r == PermissionDenied <==>
      var id := CheckedProjectId(kw);
      id.Some? && id.value in projects && !Allows(g, members, u, id.value, projects[id.value])
  {
    var id := CheckedProjectId(kw);
    if id.None? then Proceed
    else if id.value !in projects then NotFound
    else if !Allows(g, members, u, id.value, projects[id.value]) then PermissionDenied
    else Proceed
  }

  /** Each mixin proceeds past an existing project iff its predicate holds. */
  lemma GatesMatchPermissions(projects: map<ProjectId, Project>, members: MemberTable, u: UserId,
                              kw: Kwargs, pid: ProjectId)
    requires CheckedProjectId(kw) == Some(pid) && pid in projects
    ensures DispatchGate(MemberRequired, projects, members, u, kw) == Proceed <==> (pid, u) in members
    ensures DispatchGate(EditorRequired, projects, members, u, kw) == Proceed <==>
              (pid, u) in members && members[(pid, u)] != Viewer
    ensures DispatchGate(OwnerRequired, projects, members, u, kw) == Proceed <==> projects[pid].owner == u
  {
  }

  /**
   * On task routes (`<project_pk>/tasks/<pk>/`) the task's own id is taken
   * as the project id: the project named in the URL plays no part.
   */
  lemma TaskRoutesCheckTaskId(g: Guard, projects: map<ProjectId, Project>, members: MemberTable,
                              u: UserId, taskId: TaskId, projectPk: ProjectId)
    requires taskId != 0
    ensures CheckedProjectId(Kwargs(Some(taskId), Some(projectPk))) == Some(taskId)
    ensures DispatchGate(g, projects, members, u, Kwargs(Some(taskId), Some(projectPk)))
         == DispatchGate(g, projects, members, u, Kwargs(Some(taskId), None))
  {
  }

  /**
   * Consequently a member of the URL's project is refused a task page when
   * no project has the task's id, even if it can see the task's project.
   */
  lemma TaskPageNotFoundForMember(g: Guard, projects: map<ProjectId, Project>, members: MemberTable,
                                  u: UserId, taskId: TaskId, projectPk: ProjectId)
    requires taskId != 0 && taskId !in projects
    requires projectPk in projects && (projectPk, u) in members
    ensures DispatchGate(g, projects, members, u, Kwargs(Some(taskId), Some(projectPk))) == NotFound
  {
  }

  /** A viewer is refused task creation (`<project_pk>/tasks/create/` under the editor mixin). */
  lemma ViewerCannotCreateTask(projects: map<ProjectId, Project>, members: MemberTable,
                               u: UserId, pid: ProjectId)
    requires pid != 0 && pid in projects && (pid, u) in members && members[(pid, u)] == Viewer
    ensures DispatchGate(EditorRequired, projects, members, u, Kwargs(None, Some(pid))) == PermissionDenied
    ensures DispatchGate(MemberRequired, projects, members, u, Kwargs(None, Some(pid))) == Proceed
  {
  }

  /** With no project id in the URL no check is made. */
  lemma NoKwargsNoCheck(g: Guard, projects: map<ProjectId, Project>, members: MemberTable, u: UserId)
    ensures DispatchGate(g, projects, members, u, Kwargs(None, None)) == Proceed
  {
  }

  /** The editor gate is at least as strict as the member gate. */
  lemma EditorGateImpliesMemberGate(projects: map<ProjectId, Project>, members: MemberTable, u: UserId, kw: Kwargs)
    requires DispatchGate(EditorRequired, projects, members, u, kw) == Proceed
    ensures DispatchGate(MemberRequired, projects, members, u, kw) == Proceed
  {
  }
}
