/**
 * The model saves that fire the handlers: inserting a row runs its
 * `post_save` handler with `created` true, and updating an existing row
 * runs it with `created` false. The id of a new row is chosen by the
 * database and is a parameter here.
 */
module Orm {
  import opened Models
  import opened Store
  import opened Signals

  /** The state after a membership row is inserted and `notify_member_added` has run. */
  function AddMembership(t: Tables, pid: ProjectId, u: UserId, role: Role): (r: Tables)
    requires pid in t.projects
    ensures r.members == t.members[(pid, u) := role]
    ensures r.(members := t.members, notifications := t.notifications, activities := t.activities) == t
    ensures u == t.projects[pid].owner ==> r.notifications == t.notifications && r.activities == t.activities
    ensures u != t.projects[pid].owner ==>
      && r.notifications == t.notifications + [MemberAddedNote(pid, t.projects[pid], u, role)]
      && r.activities == t.activities + [MemberAddedActivity(pid, u, role)]
  {
    var t1 := t.(members := t.members[(pid, u) := role]);
    if u == t.projects[pid].owner then t1
    else t1.(notifications := t.notifications + [MemberAddedNote(pid, t.projects[pid], u, role)],
             activities := t.activities + [MemberAddedActivity(pid, u, role)])
  }

  /** `Project.objects.create` (or the first `save()` of a new project). */
  method CreateProject(s: Database, pid: ProjectId, p: Project)
    requires s.Valid() && pid !in s.projects && p.owner in s.users
    modifies s
    ensures s.Valid()
    ensures s.State() == old(s.State()).(projects := old(s.projects)[pid := p],
                                         activities := old(s.activities) + [ProjectCreatedActivity(pid, p)])
  {
    PutProjectPreservesWellFormed(s.State(), pid, p);
    s.projects := s.projects[pid := p];
    CreateProjectActivity(s, pid, true);
  }

  /** A later `project.save()`: the row is rewritten and the handler does nothing. */
  method SaveProject(s: Database, pid: ProjectId, p: Project)
    requires s.Valid() && pid in s.projects && p.owner in s.users
    modifies s
    ensures s.Valid()
    ensures s.State() == old(s.State()).(projects := old(s.projects)[pid := p])
  {
    PutProjectPreservesWellFormed(s.State(), pid, p);
    s.projects := s.projects[pid := p];
    CreateProjectActivity(s, pid, false);
  }

  /**
   * `ProjectMembership.objects.create`: refused, with nothing written, when
   * the (project, user) pair already has a row (the `unique_together`
   * constraint raises IntegrityError).
   */
  method CreateMembership(s: Database, pid: ProjectId, u: UserId, role: Role) returns (ok: bool)
    requires s.Valid() && pid in s.projects && u in s.users
    modifies s
    ensures s.Valid()
    ensures ok <==> (pid, u) !in old(s.members)
    ensures s.State() == if ok then AddMembership(old(s.State()), pid, u, role) else old(s.State())
  {
    if (pid, u) in s.members {
      return false;
    }
    ghost var before := s.State();
    PutMemberPreservesWellFormed(s.State(), pid, u, role);
    s.members := s.members[(pid, u) := role];
    NotifyMemberAdded(s, pid, u, true);
    ok := true;
  }

  /** `membership.role = ...; membership.save()`: an update, so the handler does nothing. */
  method SaveMembershipRole(s: Database, pid: ProjectId, u: UserId, role: Role)
    requires s.Valid() && (pid, u) in s.members
    modifies s
    ensures s.Valid()
    ensures s.State() == old(s.State()).(members := old(s.members)[(pid, u) := role])
  {
    PutMemberPreservesWellFormed(s.State(), pid, u, role);
    s.members := s.members[(pid, u) := role];
    NotifyMemberAdded(s, pid, u, false);
  }

  /** `Task.save()` of a new task. */
  method CreateTask(s: Database, tid: TaskId, t: Task)
    requires s.Valid() && tid !in s.tasks && t.project in s.projects
    requires t.assignees <= s.users.Keys && (t.createdBy.Some? ==> t.createdBy.value in s.users)
    modifies s
    ensures s.Valid()
    ensures s.State() == old(s.State()).(tasks := old(s.tasks)[tid := t],
      activities := old(s.activities) + [TaskCreatedActivity(t, old(s.projects[t.project].owner))])
  {
    PutTaskPreservesWellFormed(s.State(), tid, t);
    s.tasks := s.tasks[tid := t];
    CreateTaskActivity(s, tid, true);
  }

  /** `Comment.save()` of a new comment. */
  method CreateComment(s: Database, cid: CommentId, c: Comment) returns (ghost added: seq<Notification>)
    requires s.Valid() && cid !in s.comments && c.user in s.users
    requires TargetResolves(c.project, c.task, s.projects, s.tasks)
    modifies s
    ensures s.Valid()
    ensures var pid := TargetProject(c.project, c.task, old(s.projects), old(s.tasks));
      && IsMentionFanout(added, old(s.users), old(s.members), old(s.notifications), c, pid,
                         old(s.users[c.user]), MentionParser.MentionedUsernames(c.text))
      && s.State() == old(s.State()).(comments := old(s.comments)[cid := c],
           activities := old(s.activities) + [CommentActivity(c, pid)],
           notifications := old(s.notifications) + added)
  {
    PutCommentPreservesWellFormed(s.State(), cid, c);
    s.comments := s.comments[cid := c];
    added := HandleCommentCreated(s, cid, true);
  }

  /**
   * `File.save()` of a new file: the instance's empty fields are filled in
   * place, the row is written, and the handler logs the upload.
   */
  method CreateFile(s: Database, fid: FileId, inst: Models.FileInstance)
    requires s.Valid() && fid !in s.files && inst.uploadedBy in s.users
    requires TargetResolves(inst.project, inst.task, s.projects, s.tasks)
    modifies s, inst
    ensures s.Valid()
    ensures inst.Record() == WithDefaults(old(inst.Record()))
    ensures s.State() == old(s.State()).(files := old(s.files)[fid := inst.Record()],
      activities := old(s.activities) + [FileActivity(inst.Record(),
        TargetProject(inst.project, inst.task, old(s.projects), old(s.tasks)))])
  {
    inst.FillDefaults();
    var f := inst.Record();
    PutFilePreservesWellFormed(s.State(), fid, f);
    s.files := s.files[fid := f];
    CreateFileActivity(s, fid, true);
  }

  /** Creating a membership for the project's owner field writes the row and nothing else. */
  lemma OwnerMembershipIsSilent(t: Tables, pid: ProjectId, role: Role)
    requires pid in t.projects
    ensures AddMembership(t, pid, t.projects[pid].owner, role) == t.(members := t.members[(pid, t.projects[pid].owner) := role])
  {
  }

  /**
   * Adding any other user logs exactly one `member_added` notification, to
   * that user, about that project, and one `member_added` activity.
   */
  lemma OtherMembershipNotifies(t: Tables, pid: ProjectId, u: UserId, role: Role)
    requires pid in t.projects && u != t.projects[pid].owner
    ensures var r := AddMembership(t, pid, u, role);
      && |r.notifications| == |t.notifications| + 1
      && r.notifications[|t.notifications|].user == u
      && r.notifications[|t.notifications|].kind == NotificationType.MemberAdded
      && r.notifications[|t.notifications|].relatedProject == Some(pid)
      && !r.notifications[|t.notifications|].isRead
      && |r.activities| == |t.activities| + 1
      && r.activities[|t.activities|].action == ActionType.MemberAdded
      && r.activities[|t.activities|].user == u
  {
  }
}
