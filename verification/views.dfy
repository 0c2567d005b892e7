/**
 * The state-changing views of projects/views.py and the inbox queries.
 * A view either writes through the model saves of `Orm` (so the handlers
 * run), deletes rows, or leaves the database as it was. Redirects,
 * flash messages and templates are not modelled; what a view does is
 * summarised by its `Outcome`.
 */
module Views {
  import opened Models
  import opened Store
  import opened Permissions
  import opened Validators
  import opened Forms
  import opened Orm
  import Signals
  import Strings

  /**
   * `Changed`: the view wrote to the database. `Unchanged`: a GET, or a
   * form that did not validate. `Refused`: an error message and a redirect.
   * `NotFound`: `get_object_or_404` raised.
   */
  datatype Outcome = Changed | Unchanged | Refused | NotFound

  // ------------------------------------------------------------ projects

  /**
   * `ProjectCreateView.form_valid`: the requester becomes the owner field,
   * the project is saved, and an `owner` membership is created for the
   * requester. The membership handler stays silent because its user is the
   * owner, so the only log entry is the `project_created` activity.
   */
  method CreateProjectView(s: Database, requester: UserId, pid: ProjectId, name: string, status: ProjectStatus)
    requires s.Valid() && requester in s.users && pid !in s.projects
    modifies s
    ensures s.Valid()
    ensures var p := Project(requester, name, status);
      s.State() == old(s.State()).(projects := old(s.projects)[pid := p],
                                   members := old(s.members)[(pid, requester) := Owner],
                                   activities := old(s.activities) + [Signals.ProjectCreatedActivity(pid, p)])
  {
    var p := Project(requester, name, status);
    assert (pid, requester) !in s.members;
    CreateProject(s, pid, p);
    var ok := CreateMembership(s, pid, requester, Owner);
  }

  // ------------------------------------------------------------ members

  /**
   * `manage_members`: only the owner field may add members; a valid POST of
   * `AddMemberForm` creates exactly one membership with the chosen role.
   */
  method ManageMembers(s: Database, requester: UserId, pid: ProjectId, isPost: bool, user: UserId, role: string)
    returns (o: Outcome)
    requires s.Valid()
    modifies s
    ensures s.Valid()
    ensures o == NotFound <==> pid !in old(s.projects)
    ensures o == Refused <==> pid in old(s.projects) && old(s.projects[pid].owner) != requester
    ensures o == Changed <==>
      && pid in old(s.projects) && old(s.projects[pid].owner) == requester && isPost
      && CleanAddMember(old(s.users), old(s.members), pid, user, role).Valid?
    ensures o == Changed ==>
      && (pid, user) !in old(s.members)
      && s.State() == AddMembership(old(s.State()), pid, user,
                                    CleanAddMember(old(s.users), old(s.members), pid, user, role).value.1)
    ensures o != Changed ==> s.State() == old(s.State())
  {
    if pid !in s.projects {
      return NotFound;
    }
    if !IsProjectOwner(requester, s.projects[pid]) {
      return Refused;
    }
    if !isPost {
      return Unchanged;
    }
    var form := CleanAddMember(s.users, s.members, pid, user, role);
    if form.Invalid? {
      return Unchanged;
    }
    var ok := CreateMembership(s, pid, form.value.0, form.value.1);
    o := Changed;
  }

  /**
   * `remove_member`: only the owner field may remove; the owner field's own
   * membership is never removed; otherwise exactly the one membership row
   * is deleted. There is no POST check.
   */
  method RemoveMember(s: Database, requester: UserId, pid: ProjectId, target: UserId) returns (o: Outcome)
    requires s.Valid()
    modifies s
    ensures s.Valid()
    ensures o == NotFound <==>
      || pid !in old(s.projects)
      || (old(s.projects[pid].owner) == requester
          && (target !in old(s.users) || (target != requester && (pid, target) !in old(s.members))))
    ensures o == Refused <==>
      pid in old(s.projects) && (old(s.projects[pid].owner) != requester || (target == requester && target in old(s.users)))
    ensures o == Changed <==>
      && pid in old(s.projects) && old(s.projects[pid].owner) == requester && target != requester
      && target in old(s.users) && (pid, target) in old(s.members)
    ensures o == Changed ==> s.State() == old(s.State()).(members := old(s.members) - {(pid, target)})
    ensures o != Changed ==> s.State() == old(s.State())
  {
    if pid !in s.projects {
      return NotFound;
    }
    var owner := s.projects[pid].owner;
    if !IsProjectOwner(requester, s.projects[pid]) {
      return Refused;
    }
    if target !in s.users {
      return NotFound;
    }
    if target == owner {
      return Refused;
    }
    if (pid, target) !in s.members {
      return NotFound;
    }
    s.RemoveMemberRow((pid, target));
    o := Changed;
  }

  /**
   * `change_member_role`: only the owner field may change roles; the
   * membership must exist (checked before the owner guard); the owner
   * field's membership is never changed; a valid POST sets that one row's
   * role to `editor` or `viewer`.
   */
  method ChangeMemberRole(s: Database, requester: UserId, pid: ProjectId, target: UserId, isPost: bool, role: string)
    returns (o: Outcome)
    requires s.Valid()
    modifies s
    ensures s.Valid()
    ensures o == NotFound <==>
      || pid !in old(s.projects)
      || (old(s.projects[pid].owner) == requester && (target !in old(s.users) || (pid, target) !in old(s.members)))
    ensures o == Refused <==>
      && pid in old(s.projects)
      && (old(s.projects[pid].owner) != requester
          || (target == requester && target in old(s.users) && (pid, target) in old(s.members)))
    ensures o == Changed <==>
      && pid in old(s.projects) && old(s.projects[pid].owner) == requester && target != requester
      && target in old(s.users) && (pid, target) in old(s.members) && isPost && CleanChangeRole(role).Valid?
    ensures o == Changed ==>
      && CleanChangeRole(role).value != Owner
      && s.State() == old(s.State()).(members := old(s.members)[(pid, target) := CleanChangeRole(role).value])
    ensures o != Changed ==> s.State() == old(s.State())
  {
    if pid !in s.projects {
      return NotFound;
    }
    var owner := s.projects[pid].owner;
    if !IsProjectOwner(requester, s.projects[pid]) {
      return Refused;
    }
    if target !in s.users || (pid, target) !in s.members {
      return NotFound;
    }
    if target == owner {
      return Refused;
    }
    if isPost {
      var form := CleanChangeRole(role);
      if form.Valid? {
        SaveMembershipRole(s, pid, target, form.value);
        return Changed;
      }
    }
    o := Unchanged;
  }

  /**
   * Whatever the owner field does through the member views, its own
   * membership row keeps its role: remove and change-role refuse it, and
   * add only creates rows for non-members.
   */
  lemma OwnerRowUntouched(t: Tables, t': Tables, pid: ProjectId, target: UserId, r: Role)
    requires pid in t.projects && target != t.projects[pid].owner
    requires t' == t.(members := t.members - {(pid, target)}) || t' == t.(members := t.members[(pid, target) := r])
    ensures var k := (pid, t.projects[pid].owner);
      (k in t'.members <==> k in t.members) && (k in t.members ==> t'.members[k] == t.members[k])
  {
  }

  // ------------------------------------------------------------ comments and files

  /** The project a comment or file belongs to: `instance.project or instance.task.project`. */
  function CommentProject(t: Tables, cid: CommentId): ProjectId
    requires cid in t.comments && TargetResolves(t.comments[cid].project, t.comments[cid].task, t.projects, t.tasks)
  {
    TargetProject(t.comments[cid].project, t.comments[cid].task, t.projects, t.tasks)
  }

  function FileProject(t: Tables, fid: FileId): ProjectId
    requires fid in t.files && TargetResolves(t.files[fid].project, t.files[fid].task, t.projects, t.tasks)
  {
    TargetProject(t.files[fid].project, t.files[fid].task, t.projects, t.tasks)
  }

  /** The delete guard of `delete_comment` and `delete_file`: the author, or the owner field of the project. */
  predicate MayDelete(requester: UserId, author: UserId, p: Project)
  {
    requester == author || IsProjectOwner(requester, p)
  }

  /** `delete_comment`: the author or the owner field may delete, and only by POST. */
  method DeleteComment(s: Database, requester: UserId, cid: CommentId, isPost: bool) returns (o: Outcome)
    requires s.Valid()
    modifies s
    ensures s.Valid()
    ensures o == NotFound <==> cid !in old(s.comments)
    ensures cid in old(s.comments) ==>
      (o == Refused <==>
        !MayDelete(requester, old(s.comments[cid].user), old(s.projects[CommentProject(s.State(), cid)])))
    ensures o == Changed <==>
      cid in old(s.comments) && isPost &&
      MayDelete(requester, old(s.comments[cid].user), old(s.projects[CommentProject(s.State(), cid)]))
    ensures o == Changed ==> s.State() == old(s.State()).(comments := old(s.comments) - {cid})
    ensures o != Changed ==> s.State() == old(s.State())
  {
    if cid !in s.comments {
      return NotFound;
    }
    var pid := CommentProject(s.State(), cid);
    if !MayDelete(requester, s.comments[cid].user, s.projects[pid]) {
      return Refused;
    }
    if !isPost {
      return Unchanged;
    }
    s.RemoveCommentRow(cid);
    o := Changed;
  }

  /** `delete_file`: the uploader or the owner field may delete, and only by POST. */
  method DeleteFile(s: Database, requester: UserId, fid: FileId, isPost: bool) returns (o: Outcome)
    requires s.Valid()
    modifies s
    ensures s.Valid()
    ensures o == NotFound <==> fid !in old(s.files)
    ensures fid in old(s.files) ==>
      (o == Refused <==>
        !MayDelete(requester, old(s.files[fid].uploadedBy), old(s.projects[FileProject(s.State(), fid)])))
    ensures o == Changed <==>
      fid in old(s.files) && isPost &&
      MayDelete(requester, old(s.files[fid].uploadedBy), old(s.projects[FileProject(s.State(), fid)]))
    ensures o == Changed ==> s.State() == old(s.State()).(files := old(s.files) - {fid})
    ensures o != Changed ==> s.State() == old(s.State())
  {
    if fid !in s.files {
      return NotFound;
    }
    var pid := FileProject(s.State(), fid);
    if !MayDelete(requester, s.files[fid].uploadedBy, s.projects[pid]) {
      return Refused;
    }
    if !isPost {
      return Unchanged;
    }
    s.RemoveFileRow(fid);
    o := Changed;
  }

  /**
   * The delete guard ignores roles: an editor, or an `owner`-role member who
   * is not the owner field, may not delete what someone else wrote, while
   * the owner field may delete without any membership at all.
   */
  lemma DeleteGuardIgnoresRoles(members: MemberTable, requester: UserId, author: UserId, pid: ProjectId, p: Project)
    requires requester != author
    ensures MayDelete(requester, author, p) <==> p.owner == requester
    ensures (pid, requester) in members && p.owner != requester ==> !MayDelete(requester, author, p)
    ensures p.owner == requester && (pid, requester) !in members ==>
              MayDelete(requester, author, p) && !HasViewAccess(members, requester, pid)
  {
  }

  /** `FileUploadForm.is_valid()`: both validators of the `file` field accept the upload. */
  predicate UploadAccepted(upload: Upload, maxSize: int, allowed: seq<string>)
  {
    ValidateFileSize(upload.size, maxSize) == Accepted && ValidateFileExtension(upload.name, allowed) == Accepted
  }

  /**
   * The validators judge the name without regard to case, and an upload
   * over the size limit is never accepted, whatever its name.
   */
  lemma UploadAcceptedIgnoresCase(upload: Upload, maxSize: int)
    ensures UploadAccepted(upload.(name := Strings.Lower(upload.name)), maxSize, DefaultAllowedExtensions)
        == UploadAccepted(upload, maxSize, DefaultAllowedExtensions)
    ensures upload.size > maxSize ==> !UploadAccepted(upload, maxSize, DefaultAllowedExtensions)
  {
    ExtensionIgnoresCase(upload.name);
  }

  /** The row a form upload saves: `File(file=upload)` with its defaults filled in. */
  function UploadRecord(requester: UserId, project: Option<ProjectId>, task: Option<TaskId>, upload: Upload): (f: FileRecord)
    ensures f.uploadedBy == requester && f.project == project && f.task == task && f.file == upload
    ensures upload.name != "" ==> f.originalFilename == upload.name
    ensures upload.name != "" ==> f.size == upload.size
    ensures upload.name == "" ==> f.originalFilename == "" && f.size == 0
  {
    WithDefaults(FileRecord(requester, project, task, upload, "", 0))
  }

  /** `upload_project_file`: edit access on the project, then a valid POST saves the file. */
  method UploadProjectFile(s: Database, requester: UserId, pid: ProjectId, isPost: bool, upload: Upload,
                           maxSize: int, allowed: seq<string>, fid: FileId) returns (o: Outcome)
    requires s.Valid() && requester in s.users && fid !in s.files
    modifies s
    ensures s.Valid()
    ensures o == NotFound <==> pid !in old(s.projects)
    ensures o == Refused <==> pid in old(s.projects) && !HasEditAccess(old(s.members), requester, pid)
    ensures o == Changed <==>
      pid in old(s.projects) && HasEditAccess(old(s.members), requester, pid) && isPost
      && UploadAccepted(upload, maxSize, allowed)
    ensures o == Changed ==>
      var f := UploadRecord(requester, Some(pid), None, upload);
      s.State() == old(s.State()).(files := old(s.files)[fid := f],
                                   activities := old(s.activities) + [Signals.FileActivity(f, pid)])
    ensures o != Changed ==> s.State() == old(s.State())
  {
    if pid !in s.projects {
      return NotFound;
    }
    if !HasEditAccess(s.members, requester, pid) {
      return Refused;
    }
    if !isPost || !UploadAccepted(upload, maxSize, allowed) {
      return Unchanged;
    }
    var inst := new FileInstance(requester, Some(pid), None, upload);
    CreateFile(s, fid, inst);
    o := Changed;
  }

  /** `upload_task_file`: edit access on the task's project, then a valid POST saves the file. */
  method UploadTaskFile(s: Database, requester: UserId, tid: TaskId, isPost: bool, upload: Upload,
                        maxSize: int, allowed: seq<string>, fid: FileId) returns (o: Outcome)
    requires s.Valid() && requester in s.users && fid !in s.files
    modifies s
    ensures s.Valid()
    ensures o == NotFound <==> tid !in old(s.tasks)
    ensures o == Refused <==> tid in old(s.tasks) && !HasEditAccess(old(s.members), requester, old(s.tasks[tid].project))
    ensures o == Changed <==>
      tid in old(s.tasks) && HasEditAccess(old(s.members), requester, old(s.tasks[tid].project)) && isPost
      && UploadAccepted(upload, maxSize, allowed)
    ensures o == Changed ==>
      var f := UploadRecord(requester, None, Some(tid), upload);
      s.State() == old(s.State()).(files := old(s.files)[fid := f],
                                   activities := old(s.activities) + [Signals.FileActivity(f, old(s.tasks[tid].project))])
    ensures o != Changed ==> s.State() == old(s.State())
  {
    if tid !in s.tasks {
      return NotFound;
    }
    if !HasEditAccess(s.members, requester, s.tasks[tid].project) {
      return Refused;
    }
    if !isPost || !UploadAccepted(upload, maxSize, allowed) {
      return Unchanged;
    }
    var inst := new FileInstance(requester, None, Some(tid), upload);
    CreateFile(s, fid, inst);
    o := Changed;
  }

  /** What `download_file` answers. */
  datatype Download = Serve(filename: string) | DownloadRefused | DownloadNotFound

  /** `download_file`: served, under its original name, iff the requester is a member of the file's project. */
  function DownloadFile(t: Tables, requester: UserId, fid: FileId): (r: Download)
    requires fid in t.files ==> TargetResolves(t.files[fid].project, t.files[fid].task, t.projects, t.tasks)
    ensures r == DownloadNotFound <==> fid !in t.files
    ensures r.Serve? <==> fid in t.files && HasViewAccess(t.members, requester, FileProject(t, fid))
    ensures r.Serve? ==> r.filename == t.files[fid].originalFilename
  {
    if fid !in t.files then DownloadNotFound
    else if (FileProject(t, fid), requester) in t.members then Serve(t.files[fid].originalFilename)
    else DownloadRefused
  }

  /**
   * Upload and download use different tests: an uploader keeps the right to
   * download its file only while it stays a member, and a viewer may
   * download what it could not upload.
   */
  lemma UploadImpliesDownload(t: Tables, requester: UserId, fid: FileId)
    requires fid in t.files && TargetResolves(t.files[fid].project, t.files[fid].task, t.projects, t.tasks)
    ensures HasEditAccess(t.members, requester, FileProject(t, fid)) ==> DownloadFile(t, requester, fid).Serve?
    ensures GetUserRole(t.members, requester, FileProject(t, fid)) == Some(Viewer) ==>
              DownloadFile(t, requester, fid).Serve? && !HasEditAccess(t.members, requester, FileProject(t, fid))
    ensures (FileProject(t, fid), requester) !in t.members ==> DownloadFile(t, requester, fid) == DownloadRefused
  {
  }

  // ------------------------------------------------------------ task page

  /** `TaskDetailView`'s `can_edit`: the owner field, the creator, or edit access. */
  predicate TaskCanEdit(t: Tables, u: UserId, tid: TaskId)
    requires tid in t.tasks && t.tasks[tid].project in t.projects
  {
    var task := t.tasks[tid];
    IsProjectOwner(u, t.projects[task.project]) || task.createdBy == Some(u)
    || HasEditAccess(t.members, u, task.project)
  }

  /**
   * `can_edit` is wider than edit access: a viewer who created the task, or
   * the owner field without a membership, sees the edit controls although
   * the editor gate would refuse them; edit access alone always suffices.
   */
  lemma TaskCanEditWiderThanEditAccess(t: Tables, u: UserId, tid: TaskId)
    requires tid in t.tasks && t.tasks[tid].project in t.projects
    ensures HasEditAccess(t.members, u, t.tasks[tid].project) ==> TaskCanEdit(t, u, tid)
    ensures t.tasks[tid].createdBy == Some(u) && GetUserRole(t.members, u, t.tasks[tid].project) == Some(Viewer) ==>
              TaskCanEdit(t, u, tid) && !HasEditAccess(t.members, u, t.tasks[tid].project)
    ensures t.projects[t.tasks[tid].project].owner == u && (t.tasks[tid].project, u) !in t.members ==>
              TaskCanEdit(t, u, tid) && !HasEditAccess(t.members, u, t.tasks[tid].project)
    ensures !TaskCanEdit(t, u, tid) <==>
              t.projects[t.tasks[tid].project].owner != u && t.tasks[tid].createdBy != Some(u)
              && GetUserRole(t.members, u, t.tasks[tid].project) in {None, Some(Viewer)}
  {
  }

  // ------------------------------------------------------------ notifications

  /**
   * `mark_notification_read`: only the requester's own notification is
   * found; it alone is set read, and the redirect goes to its link.
   */
  method MarkNotificationRead(s: Database, requester: UserId, i: nat) returns (link: Option<Link>)
    requires s.Valid()
    modifies s
    ensures s.Valid()
    ensures link.None? <==> i >= |old(s.notifications)| || old(s.notifications[i].user) != requester
    ensures link.None? ==> s.State() == old(s.State())
    ensures link.Some? ==>
      && s.State() == old(s.State()).(notifications := MarkRead(old(s.notifications), i))
      && link.value == GetLink(old(s.notifications[i]), old(s.tasks))
  {
    if i >= |s.notifications| || s.notifications[i].user != requester {
      return None;
    }
    var n := s.notifications[i];
    assert NotificationOk(n, s.State());
    MarkReadPreservesWellFormed(s.State(), i);
    s.notifications := MarkRead(s.notifications, i);
    link := Some(GetLink(n, s.tasks));
  }

  /** The notification table after `notification.is_read = True; notification.save()`. */
  function MarkRead(notes: seq<Notification>, i: nat): (r: seq<Notification>)
    requires i < |notes|
    ensures |r| == |notes| && r[i].isRead
    ensures r[i] == notes[i].(isRead := true)
    ensures forall j :: 0 <= j < |notes| && j != i ==> r[j] == notes[j]
  {
    notes[i := notes[i].(isRead := true)]
  }

  /** Marking read twice is marking read once. */
  lemma MarkReadIdempotent(notes: seq<Notification>, i: nat)
    requires i < |notes|
    ensures MarkRead(MarkRead(notes, i), i) == MarkRead(notes, i)
  {
  }

  /** `Notification.objects.filter(user=u, is_read=False).count()`. */
  function UnreadCount(notes: seq<Notification>, u: UserId): (n: nat)
    ensures n <= |notes|
  {
    if notes == [] then 0
    else
      var last := notes[|notes| - 1];
      UnreadCount(notes[..|notes| - 1], u) + (if last.user == u && !last.isRead then 1 else 0)
  }

  /** The positions of `u`'s unread notifications. */
  function UnreadPositions(notes: seq<Notification>, u: UserId): set<nat>
  {
    set i: nat | i < |notes| && notes[i].user == u && !notes[i].isRead
  }

  /** The count is the number of the user's unread notifications. */
  lemma {:induction false} UnreadCountIsCardinality(notes: seq<Notification>, u: UserId)
    ensures UnreadCount(notes, u) == |UnreadPositions(notes, u)|
    decreases |notes|
  {
    if notes != [] {
      var k := |notes| - 1;
      var init := notes[..k];
      UnreadCountIsCardinality(init, u);
      var last := notes[k];
      if last.user == u && !last.isRead {
        assert UnreadPositions(notes, u) == UnreadPositions(init, u) + {k};
      } else {
        assert UnreadPositions(notes, u) == UnreadPositions(init, u);
      }
    }
  }

  /**
   * Marking one of `u`'s unread notifications read lowers `u`'s count by
   * one; any other mark-read leaves it as it was.
   */
  lemma MarkReadCount(notes: seq<Notification>, u: UserId, i: nat)
    requires i < |notes|
    ensures UnreadCount(MarkRead(notes, i), u) ==
      if notes[i].user == u && !notes[i].isRead then UnreadCount(notes, u) - 1 else UnreadCount(notes, u)
  {
    var r := MarkRead(notes, i);
    UnreadCountIsCardinality(notes, u);
    UnreadCountIsCardinality(r, u);
    if notes[i].user == u && !notes[i].isRead {
      assert UnreadPositions(notes, u) == UnreadPositions(r, u) + {i};
    } else {
      assert UnreadPositions(notes, u) == UnreadPositions(r, u);
    }
  }

  /**
   * `NotificationListView.get_queryset` under `ordering = ['-created_at']`:
   * the positions of `u`'s notifications, newest first.
   */
  function Inbox(notes: seq<Notification>, u: UserId): (inbox: seq<nat>)
    ensures forall k :: 0 <= k < |inbox| ==> inbox[k] < |notes| && notes[inbox[k]].user == u
    ensures forall i :: 0 <= i < |notes| && notes[i].user == u ==> i in inbox
    ensures forall k, l :: 0 <= k < l < |inbox| ==> inbox[k] > inbox[l]
  {
    if notes == [] then []
    else
      var k := |notes| - 1;
      var rest := Inbox(notes[..k], u);
      if notes[k].user == u then [k] + rest else rest
  }

  /** The inbox has one entry per notification of the user, and the unread count is bounded by it. */
  lemma InboxCountsUnread(notes: seq<Notification>, u: UserId)
    ensures UnreadCount(notes, u) <= |Inbox(notes, u)|
    ensures forall i :: i in UnreadPositions(notes, u) ==> i in Inbox(notes, u)
  {
    var inbox := Inbox(notes, u);
    var all := set k | 0 <= k < |inbox| :: inbox[k];
    assert UnreadPositions(notes, u) <= all;
    UnreadCountIsCardinality(notes, u);
    SetOfDistinctSeq(inbox);
    assert |UnreadPositions(notes, u)| <= |all|;
  }

  /** A sequence in strictly decreasing order has as many distinct elements as entries. */
  lemma {:induction false} SetOfDistinctSeq(xs: seq<nat>)
    requires forall k, l :: 0 <= k < l < |xs| ==> xs[k] > xs[l]
    ensures |set k | 0 <= k < |xs| :: xs[k]| == |xs|
    decreases |xs|
  {
    if xs != [] {
      var tail := xs[1..];
      SetOfDistinctSeq(tail);
      var s := set k | 0 <= k < |xs| :: xs[k];
      var st := set k | 0 <= k < |tail| :: tail[k];
      assert s == st + {xs[0]};
      assert xs[0] !in st;
    }
  }
}
