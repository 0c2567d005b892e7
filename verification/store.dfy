/**
 * The relational state the portal's core runs over: one table per model,
 * with integer primary keys. The membership table is keyed by the pair
 * (project, user), which is the `unique_together` constraint of
 * `ProjectMembership`. Activities and notifications are append-only
 * sequences: a record's position is its creation order and a notification's
 * position is its primary key.
 */
module Store {
  import opened Models

  type MemberTable = map<(ProjectId, UserId), Role>

  datatype Tables = Tables(
    users: map<UserId, string>,
    projects: map<ProjectId, Project>,
    members: MemberTable,
    tasks: map<TaskId, Task>,
    comments: map<CommentId, Comment>,
    files: map<FileId, FileRecord>,
    activities: seq<Activity>,
    notifications: seq<Notification>)

  /** Django's `User.username` is unique. */
  ghost predicate UniqueUsernames(users: map<UserId, string>)
  {
    forall a, b :: a in users && b in users && users[a] == users[b] ==> a == b
  }

  /** `User.objects.get(username=name)`: the one user with that name, or DoesNotExist. */
  function UserByName(users: map<UserId, string>, name: string): (r: Option<UserId>)
    requires UniqueUsernames(users)
    ensures r.Some? ==> r.value in users && users[r.value] == name
    ensures r.None? <==> forall u :: u in users ==> users[u] != name
  {
    if exists u :: u in users && users[u] == name then
      var u :| u in users && users[u] == name; Some(u)
    else None
  }

  /** The comment/file target the source dereferences: `project or task.project` must resolve. */
  predicate TargetResolves(project: Option<ProjectId>, task: Option<TaskId>,
                           projects: map<ProjectId, Project>, tasks: map<TaskId, Task>)
  {
    && (project.Some? || task.Some?)
    && (project.Some? ==> project.value in projects)
    && (task.Some? ==> task.value in tasks && tasks[task.value].project in projects)
  }

  /** `instance.project or instance.task.project`. */
  function TargetProject(project: Option<ProjectId>, task: Option<TaskId>,
                         projects: map<ProjectId, Project>, tasks: map<TaskId, Task>): (pid: ProjectId)
    requires TargetResolves(project, task, projects, tasks)
    ensures pid in projects
    ensures project.Some? ==> pid == project.value
    ensures project.None? ==> pid == tasks[task.value].project
  {
    if project.Some? then project.value else tasks[task.value].project
  }

  ghost predicate NotificationOk(n: Notification, t: Tables)
  {
    && n.user in t.users
    && (n.relatedProject.Some? ==> n.relatedProject.value in t.projects)
    && (n.relatedTask.Some? ==> n.relatedTask.value in t.tasks)
    && (n.kind == NotificationType.Mention ==> n.relatedProject.Some?)
  }

  ghost predicate ActivityOk(a: Activity, t: Tables)
  {
    a.project in t.projects && a.user in t.users
  }

  /** Projects, memberships and tasks reference existing rows. */
  ghost predicate RowsOk(users: map<UserId, string>, projects: map<ProjectId, Project>, members: MemberTable,
                         tasks: map<TaskId, Task>)
  {
    && (forall pid :: pid in projects ==> projects[pid].owner in users)
    && (forall k :: k in members ==> k.0 in projects && k.1 in users)
    && (forall tid :: tid in tasks ==> tasks[tid].project in projects)
    && (forall tid :: tid in tasks ==> tasks[tid].assignees <= users.Keys)
    && (forall tid :: tid in tasks && tasks[tid].createdBy.Some? ==> tasks[tid].createdBy.value in users)
  }

  /** Comments and files have an existing author and a target that resolves to a project. */
  ghost predicate TargetsOk(users: map<UserId, string>, projects: map<ProjectId, Project>, tasks: map<TaskId, Task>,
                            comments: map<CommentId, Comment>, files: map<FileId, FileRecord>)
  {
    && (forall cid :: cid in comments ==>
          comments[cid].user in users && TargetResolves(comments[cid].project, comments[cid].task, projects, tasks))
    && (forall fid :: fid in files ==>
          files[fid].uploadedBy in users && TargetResolves(files[fid].project, files[fid].task, projects, tasks))
  }

  /** Every activity and notification references existing rows. */
  ghost predicate LogsOk(t: Tables)
  {
    && (forall i :: 0 <= i < |t.activities| ==> ActivityOk(t.activities[i], t))
    && (forall i :: 0 <= i < |t.notifications| ==> NotificationOk(t.notifications[i], t))
  }

  /** Referential integrity of the tables, as the foreign keys guarantee it. */
  ghost predicate WellFormed(t: Tables)
  {
    && UniqueUsernames(t.users)
    && RowsOk(t.users, t.projects, t.members, t.tasks)
    && TargetsOk(t.users, t.projects, t.tasks, t.comments, t.files)
    && LogsOk(t)
  }

  /** The logs stay well-formed when no referenced row disappears. */
  lemma LogsGrow(t: Tables, t': Tables)
    requires LogsOk(t)
    requires t'.activities == t.activities && t'.notifications == t.notifications
    requires t.users.Keys <= t'.users.Keys && t.projects.Keys <= t'.projects.Keys && t.tasks.Keys <= t'.tasks.Keys
    ensures LogsOk(t')
  {
    assert forall i :: 0 <= i < |t.activities| ==> ActivityOk(t.activities[i], t');
    assert forall i :: 0 <= i < |t.notifications| ==> NotificationOk(t.notifications[i], t');
  }

  /** Comment and file targets keep resolving when no referenced row disappears or moves. */
  lemma TargetsGrow(t: Tables, t': Tables)
    requires TargetsOk(t.users, t.projects, t.tasks, t.comments, t.files)
    requires t'.comments == t.comments && t'.files == t.files
    requires t.users.Keys <= t'.users.Keys && t.projects.Keys <= t'.projects.Keys
    requires forall tid :: tid in t.tasks ==> tid in t'.tasks && t'.tasks[tid].project == t.tasks[tid].project
    ensures TargetsOk(t'.users, t'.projects, t'.tasks, t'.comments, t'.files)
  {
    forall cid | cid in t.comments
      ensures TargetResolves(t.comments[cid].project, t.comments[cid].task, t'.projects, t'.tasks)
    {
      assert TargetResolves(t.comments[cid].project, t.comments[cid].task, t.projects, t.tasks);
    }
    forall fid | fid in t.files
      ensures TargetResolves(t.files[fid].project, t.files[fid].task, t'.projects, t'.tasks)
    {
      assert TargetResolves(t.files[fid].project, t.files[fid].task, t.projects, t.tasks);
    }
  }

  /** Appending well-formed activities and notifications keeps the tables well-formed. */
  lemma AppendPreservesWellFormed(t: Tables, acts: seq<Activity>, notes: seq<Notification>)
    requires WellFormed(t)
    requires forall k :: 0 <= k < |acts| ==> ActivityOk(acts[k], t)
    requires forall k :: 0 <= k < |notes| ==> NotificationOk(notes[k], t)
    ensures WellFormed(t.(activities := t.activities + acts, notifications := t.notifications + notes))
  {
    var t' := t.(activities := t.activities + acts, notifications := t.notifications + notes);
    forall i | 0 <= i < |t'.activities| ensures ActivityOk(t'.activities[i], t') {
      if i < |t.activities| {
        assert t'.activities[i] == t.activities[i];
      } else {
        assert t'.activities[i] == acts[i - |t.activities|];
      }
    }
    forall i | 0 <= i < |t'.notifications| ensures NotificationOk(t'.notifications[i], t') {
      if i < |t.notifications| {
        assert t'.notifications[i] == t.notifications[i];
      } else {
        assert t'.notifications[i] == notes[i - |t.notifications|];
      }
    }
  }

  /** Writing a project whose owner is a user keeps the tables well-formed. */
  lemma PutProjectPreservesWellFormed(t: Tables, pid: ProjectId, p: Project)
    requires WellFormed(t) && p.owner in t.users
    ensures WellFormed(t.(projects := t.projects[pid := p]))
  {
    var t' := t.(projects := t.projects[pid := p]);
    LogsGrow(t, t');
    TargetsGrow(t, t');
  }

  /** Writing a membership row between an existing project and user keeps the tables well-formed. */
  lemma PutMemberPreservesWellFormed(t: Tables, pid: ProjectId, u: UserId, role: Role)
    requires WellFormed(t) && pid in t.projects && u in t.users
    ensures WellFormed(t.(members := t.members[(pid, u) := role]))
  {
    var t' := t.(members := t.members[(pid, u) := role]);
    LogsGrow(t, t');
    TargetsGrow(t, t');
  }

  /** Deleting a membership row, which nothing references, keeps the tables well-formed. */
  lemma DeleteMemberPreservesWellFormed(t: Tables, k: (ProjectId, UserId))
    requires WellFormed(t)
    ensures WellFormed(t.(members := t.members - {k}))
  {
    LogsGrow(t, t.(members := t.members - {k}));
  }

  /** Deleting a comment row, which nothing references, keeps the tables well-formed. */
  lemma DeleteCommentPreservesWellFormed(t: Tables, cid: CommentId)
    requires WellFormed(t)
    ensures WellFormed(t.(comments := t.comments - {cid}))
  {
    LogsGrow(t, t.(comments := t.comments - {cid}));
  }

  /** Deleting a file row, which nothing references, keeps the tables well-formed. */
  lemma DeleteFilePreservesWellFormed(t: Tables, fid: FileId)
    requires WellFormed(t)
    ensures WellFormed(t.(files := t.files - {fid}))
  {
    LogsGrow(t, t.(files := t.files - {fid}));
  }

  /** Inserting a task of an existing project, with existing assignees and creator, keeps the tables well-formed. */
  lemma PutTaskPreservesWellFormed(t: Tables, tid: TaskId, task: Task)
    requires WellFormed(t) && tid !in t.tasks
    requires task.project in t.projects && task.assignees <= t.users.Keys
    requires task.createdBy.Some? ==> task.createdBy.value in t.users
    ensures WellFormed(t.(tasks := t.tasks[tid := task]))
  {
    var t' := t.(tasks := t.tasks[tid := task]);
    forall id | id in t'.tasks
      ensures t'.tasks[id].project in t.projects && t'.tasks[id].assignees <= t.users.Keys
      ensures t'.tasks[id].createdBy.Some? ==> t'.tasks[id].createdBy.value in t.users
    {
      if id != tid {
        assert t'.tasks[id] == t.tasks[id];
      }
    }
    LogsGrow(t, t');
    TargetsGrow(t, t');
  }

  /** Inserting a comment by an existing user on a resolvable target keeps the tables well-formed. */
  lemma PutCommentPreservesWellFormed(t: Tables, cid: CommentId, c: Comment)
    requires WellFormed(t) && c.user in t.users && TargetResolves(c.project, c.task, t.projects, t.tasks)
    ensures WellFormed(t.(comments := t.comments[cid := c]))
  {
    var t' := t.(comments := t.comments[cid := c]);
    forall id | id in t'.comments
      ensures t'.comments[id].user in t.users && TargetResolves(t'.comments[id].project, t'.comments[id].task, t.projects, t.tasks)
    {
      if id != cid {
        assert t'.comments[id] == t.comments[id];
      }
    }
    LogsGrow(t, t');
  }

  /** Inserting a file uploaded by an existing user on a resolvable target keeps the tables well-formed. */
  lemma PutFilePreservesWellFormed(t: Tables, fid: FileId, f: FileRecord)
    requires WellFormed(t) && f.uploadedBy in t.users && TargetResolves(f.project, f.task, t.projects, t.tasks)
    ensures WellFormed(t.(files := t.files[fid := f]))
  {
    var t' := t.(files := t.files[fid := f]);
    forall id | id in t'.files
      ensures t'.files[id].uploadedBy in t.users && TargetResolves(t'.files[id].project, t'.files[id].task, t.projects, t.tasks)
    {
      if id != fid {
        assert t'.files[id] == t.files[id];
      }
    }
    LogsGrow(t, t');
  }

  /** Marking a notification read keeps the tables well-formed. */
  lemma MarkReadPreservesWellFormed(t: Tables, i: nat)
    requires WellFormed(t) && i < |t.notifications|
    ensures WellFormed(t.(notifications := t.notifications[i := t.notifications[i].(isRead := true)]))
  {
    var t' := t.(notifications := t.notifications[i := t.notifications[i].(isRead := true)]);
    assert forall j :: 0 <= j < |t'.notifications| ==> NotificationOk(t'.notifications[j], t');
  }

  /** The database: each table is a field that the operations reassign. */
  class Database {
    var users: map<UserId, string>
    var projects: map<ProjectId, Project>
    var members: MemberTable
    var tasks: map<TaskId, Task>
    var comments: map<CommentId, Comment>
    var files: map<FileId, FileRecord>
    var activities: seq<Activity>
    var notifications: seq<Notification>

    /** An empty database with the given user accounts. */
    constructor (users: map<UserId, string>)
      requires UniqueUsernames(users)
      ensures Valid()
      ensures State() == Tables(users, map[], map[], map[], map[], map[], [], [])
    {
      this.users := users;
      this.projects := map[];
      this.members := map[];
      this.tasks := map[];
      this.comments := map[];
      this.files := map[];
      this.activities := [];
      this.notifications := [];
    }

    function State(): Tables
      reads this
    {
      Tables(users, projects, members, tasks, comments, files, activities, notifications)
    }

    ghost predicate Valid()
      reads this
    {
      WellFormed(State())
    }

    /** Appends activity and notification records that reference existing rows. */
    method Append(acts: seq<Activity>, notes: seq<Notification>)
      requires Valid()
      requires forall k :: 0 <= k < |acts| ==> ActivityOk(acts[k], State())
      requires forall k :: 0 <= k < |notes| ==> NotificationOk(notes[k], State())
      modifies this
      ensures Valid()
      ensures State() == old(State()).(activities := old(activities) + acts, notifications := old(notifications) + notes)
    {
      AppendPreservesWellFormed(State(), acts, notes);
      activities := activities + acts;
      notifications := notifications + notes;
    }

    /** Deletes one membership row. */
    method RemoveMemberRow(k: (ProjectId, UserId))
      requires Valid()
      modifies this
      ensures Valid()
      ensures State() == old(State()).(members := old(members) - {k})
    {
      DeleteMemberPreservesWellFormed(State(), k);
      members := members - {k};
    }

    /** Deletes one comment row. */
    method RemoveCommentRow(cid: CommentId)
      requires Valid()
      modifies this
      ensures Valid()
      ensures State() == old(State()).(comments := old(comments) - {cid})
    {
      DeleteCommentPreservesWellFormed(State(), cid);
      comments := comments - {cid};
    }

    /** Deletes one file row. */
    method RemoveFileRow(fid: FileId)
      requires Valid()
      modifies this
      ensures Valid()
      ensures State() == old(State()).(files := old(files) - {fid})
    {
      DeleteFilePreservesWellFormed(State(), fid);
      files := files - {fid};
    }
  }
}
