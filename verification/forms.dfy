/**
 * The form-level checks of projects/forms.py: the assignee-count limit of
 * `TaskForm`, the restriction of its assignee choices to project members,
 * and the user and role choices of `AddMemberForm` and
 * `ChangeMemberRoleForm`, which never offer the `owner` role.
 */
module Forms {
  import opened Models
  import opened Store

  /** A cleaned value, or the field's validation error. */
  datatype Cleaned<T> = Valid(value: T) | Invalid

  /**
   * `TaskForm.clean_assignees`: more than `maxAssignees` selected users are
   * refused; otherwise the selection passes through unchanged. An empty
   * selection is falsy and always passes.
   */
  function CleanAssignees(assignees: set<UserId>, maxAssignees: nat): (r: Cleaned<set<UserId>>)
    ensures r.Invalid? <==> |assignees| > maxAssignees
    ensures r.Valid? ==> r.value == assignees
  {
    if assignees != {} && |assignees| > maxAssignees then Invalid else Valid(assignees)
  }

  /** The form check and the model check agree on a saved task: both refuse exactly the same counts. */
  lemma FormAndModelLimitsAgree(pk: TaskId, assignees: set<UserId>, maxAssignees: nat)
    requires pk != 0
    ensures CleanAssignees(assignees, maxAssignees).Invalid? <==>
            TaskClean(Some(pk), |assignees|, maxAssignees) == ValidationError
  {
  }

  /** Exactly the default maximum passes; one more fails; nothing selected passes. */
  lemma AssigneeLimitAtDefault(assignees: set<UserId>, extra: UserId)
    requires |assignees| == DefaultMaxTaskAssignees && extra !in assignees
    ensures CleanAssignees(assignees, DefaultMaxTaskAssignees) == Valid(assignees)
    ensures CleanAssignees(assignees + {extra}, DefaultMaxTaskAssignees) == Invalid
    ensures CleanAssignees({}, DefaultMaxTaskAssignees) == Valid({})
  {
  }

  /**
   * The assignee choices of `TaskForm`: the project's members when a project
   * is given, otherwise every user.
   */
  function AssigneeChoices(users: map<UserId, string>, members: MemberTable, project: Option<ProjectId>): (r: set<UserId>)
    ensures project.Some? ==> forall u :: u in r <==> (project.value, u) in members
    ensures project.None? ==> r == users.Keys
  {
    if project.Some? then set k | k in members && k.0 == project.value :: k.1 else users.Keys
  }

  /** The user choices of `AddMemberForm` for a project: every user not already a member. */
  function AddMemberUserChoices(users: map<UserId, string>, members: MemberTable, project: Option<ProjectId>): (r: set<UserId>)
    ensures forall u :: u in r <==> u in users && (project.Some? ==> (project.value, u) !in members)
  {
    if project.Some? then set u | u in users && (project.value, u) !in members else users.Keys
  }

  /** `ROLE_CHOICES[1:]`: the roles the member forms offer. */
  const OfferedRoles: seq<Role> := RoleChoices[1..]

  /** A `ChoiceField` over `ROLE_CHOICES[1:]`: only the stored values `editor` and `viewer` are accepted. */
  function ParseRoleChoice(v: string): (r: Option<Role>)
    ensures r.Some? <==> v in {"editor", "viewer"}
    ensures r.Some? ==> r.value in OfferedRoles && RoleValue(r.value) == v
  {
    if v == "editor" then Some(Editor) else if v == "viewer" then Some(Viewer) else None
  }

  /** The member forms never yield the owner role, and they accept every role they offer. */
  lemma OwnerNeverOffered(r: Role)
    ensures Owner !in OfferedRoles
    ensures ParseRoleChoice(RoleValue(Owner)) == None
    ensures r != Owner ==> r in OfferedRoles && ParseRoleChoice(RoleValue(r)) == Some(r)
  {
  }

  /** `AddMemberForm(data, project=project).is_valid()`: the chosen user and role, or the form's errors. */
  function CleanAddMember(users: map<UserId, string>, members: MemberTable, pid: ProjectId,
                          user: UserId, role: string): (r: Cleaned<(UserId, Role)>)
    ensures r.Valid? <==> user in AddMemberUserChoices(users, members, Some(pid)) && ParseRoleChoice(role).Some?
    ensures r.Valid? ==> r.value.0 == user && r.value.1 != Owner && (pid, user) !in members && user in users
  {
    var parsed := ParseRoleChoice(role);
    if user in AddMemberUserChoices(users, members, Some(pid)) && parsed.Some? then Valid((user, parsed.value))
    else Invalid
  }

  /** `ChangeMemberRoleForm(data).is_valid()`. */
  function CleanChangeRole(role: string): (r: Cleaned<Role>)
    ensures r.Valid? <==> role in {"editor", "viewer"}
    ensures r.Valid? ==> r.value != Owner && RoleValue(r.value) == role
  {
    var parsed := ParseRoleChoice(role);
    if parsed.Some? then Valid(parsed.value) else Invalid
  }
}
