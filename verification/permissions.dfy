/**
 * The permission resolver (projects/permissions.py). Every predicate reads
 * only the membership table and the project's `owner` field. View and edit
 * access are decided by the membership row alone; manage access by the
 * owner field alone. The two can disagree: an owner-field holder without a
 * membership row can neither view nor edit, and an `owner`-role member who
 * is not the owner field cannot manage.
 */
module Permissions {
  import opened Models
  import opened Store

  /** `get_user_role`: the membership's role, or None when there is no membership. */
  function GetUserRole(members: MemberTable, u: UserId, pid: ProjectId): (r: Option<Role>)
    ensures r.Some? <==> (pid, u) in members
    ensures r.Some? ==> r.value == members[(pid, u)]
  {
    if (pid, u) in members then Some(members[(pid, u)]) else None
  }

  /** `is_project_owner`: the owner field, whatever the membership table says. */
  predicate IsProjectOwner(u: UserId, p: Project)
  {
    p.owner == u
  }

  /** `is_project_owner` holds for exactly one user of a project: the one its owner field names. */
  lemma OneOwnerPerProject(p: Project, u: UserId, v: UserId)
    requires IsProjectOwner(u, p) && IsProjectOwner(v, p)
    ensures u == v && u == p.owner
  {
  }

  /** `is_project_member`: a membership row exists, of any role. */
  predicate IsProjectMember(members: MemberTable, u: UserId, pid: ProjectId)
    ensures IsProjectMember(members, u, pid) <==> GetUserRole(members, u, pid).Some?
  {
    (pid, u) in members
  }

  /** `has_project_view_access`. */
  predicate HasViewAccess(members: MemberTable, u: UserId, pid: ProjectId)
    ensures HasViewAccess(members, u, pid) <==> GetUserRole(members, u, pid).Some?
  {
    IsProjectMember(members, u, pid)
  }

  /** `has_project_edit_access`: the role is `owner` or `editor`. */
  predicate HasEditAccess(members: MemberTable, u: UserId, pid: ProjectId)
    ensures HasEditAccess(members, u, pid) ==> HasViewAccess(members, u, pid)
    ensures HasEditAccess(members, u, pid) <==> (pid, u) in members && members[(pid, u)] != Viewer
  {
    GetUserRole(members, u, pid) in {Some(Owner), Some(Editor)}
  }

  /** `has_project_manage_access`. */
  predicate HasManageAccess(u: UserId, p: Project)
    ensures HasManageAccess(u, p) <==> p.owner == u
  {
    IsProjectOwner(u, p)
  }

  /** `can_assign_task`. */
  predicate CanAssignTask(members: MemberTable, u: UserId, pid: ProjectId)
    ensures CanAssignTask(members, u, pid) <==> (pid, u) in members && members[(pid, u)] in {Owner, Editor}
  {
    HasEditAccess(members, u, pid)
  }

  /** `can_manage_members`. */
  predicate CanManageMembers(u: UserId, p: Project)
    ensures CanManageMembers(u, p) <==> p.owner == u
  {
    IsProjectOwner(u, p)
  }

  /** Fail-closed: with no membership and no ownership, every predicate is false. */
  lemma FailClosed(members: MemberTable, u: UserId, pid: ProjectId, p: Project)
    requires (pid, u) !in members && p.owner != u
    ensures GetUserRole(members, u, pid) == None
    ensures !HasViewAccess(members, u, pid) && !HasEditAccess(members, u, pid)
    ensures !HasManageAccess(u, p) && !CanAssignTask(members, u, pid) && !CanManageMembers(u, p)
  {
  }

  /** The owner field without a membership row grants manage access only. */
  lemma OwnerFieldWithoutMembership(members: MemberTable, u: UserId, pid: ProjectId, p: Project)
    requires p.owner == u && (pid, u) !in members
    ensures HasManageAccess(u, p) && CanManageMembers(u, p)
    ensures !HasViewAccess(members, u, pid) && !HasEditAccess(members, u, pid) && !CanAssignTask(members, u, pid)
  {
  }

  /** An `owner` role held by someone other than the owner field grants edit but not manage. */
  lemma OwnerRoleWithoutOwnerField(members: MemberTable, u: UserId, pid: ProjectId, p: Project)
    requires (pid, u) in members && members[(pid, u)] == Owner && p.owner != u
    ensures HasViewAccess(members, u, pid) && HasEditAccess(members, u, pid)
    ensures !HasManageAccess(u, p) && !CanManageMembers(u, p)
  {
  }

  /** A viewer may view and nothing more (unless it is the owner field). */
  lemma ViewerOnlyViews(members: MemberTable, u: UserId, pid: ProjectId, p: Project)
    requires (pid, u) in members && members[(pid, u)] == Viewer && p.owner != u
    ensures HasViewAccess(members, u, pid)
    ensures !HasEditAccess(members, u, pid) && !CanAssignTask(members, u, pid) && !HasManageAccess(u, p)
  {
  }

  /**
   * Access depends only on the user's own row: changing or removing another
   * user's membership leaves the user's view and edit access as they were.
   */
  lemma AccessIsPerRow(members: MemberTable, u: UserId, pid: ProjectId, k: (ProjectId, UserId), r: Option<Role>)
    requires k != (pid, u)
    ensures var m := if r.Some? then members[k := r.value] else members - {k};
      && (HasViewAccess(m, u, pid) <==> HasViewAccess(members, u, pid))
      && (HasEditAccess(m, u, pid) <==> HasEditAccess(members, u, pid))
  {
  }
}
