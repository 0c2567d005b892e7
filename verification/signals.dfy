/**
 * The event fan-out (projects/signals.py): handlers that run after a row is
 * saved, or after users are added to a task's assignees, and append
 * Activity and Notification records. A handler receives the saved row by
 * its id, and `created` tells a first insert from a later save.
 *
 * The two loops of the source (over the added assignee ids and over the
 * mentioned usernames) walk a Python set in an unspecified order. They are
 * modelled by methods that build the notifications to append, specified by
 * the set of recipients: every recipient gets exactly one notification and
 * nobody else gets one, in whatever order the set was walked.
 */
module Signals {
  import opened Models
  import opened Store
  import opened Strings
  import opened Enumeration
  import opened MentionParser

  // ------------------------------------------------------------ the records

  function ProjectCreatedActivity(pid: ProjectId, p: Project): Activity
  {
    Activity(pid, p.owner, ProjectCreated, "created project \"" + p.name + "\"")
  }

  function MemberAddedNote(pid: ProjectId, p: Project, u: UserId, role: Role): Notification
  {
    NewNotification(u, "You were added to project \"" + p.name + "\" as " + RoleDisplay(role),
                    NotificationType.MemberAdded, Some(pid), None)
  }

  function MemberAddedActivity(pid: ProjectId, u: UserId, role: Role): Activity
  {
    Activity(pid, u, ActionType.MemberAdded, "was added to the project as " + RoleDisplay(role))
  }

  /** `created_by or project.owner`: a user object is always truthy, so only a null creator falls back. */
  function TaskCreatedActivity(t: Task, owner: UserId): Activity
  {
    var who := if t.createdBy.Some? then t.createdBy.value else owner;
    Activity(t.project, who, TaskCreated, "created task \"" + t.title + "\"")
  }

  function TaskAssignedNote(tid: TaskId, t: Task, u: UserId): Notification
  {
    NewNotification(u, "You were assigned to task \"" + t.title + "\"",
                    TaskAssigned, Some(t.project), Some(tid))
  }

  function CommentActivity(c: Comment, pid: ProjectId): Activity
  {
    Activity(pid, c.user, ActionType.CommentAdded, "commented on " + (if c.project.Some? then "project" else "task"))
  }

  function MentionMessage(author: string): string
  {
    author + " mentioned you in a comment"
  }

  function MentionNote(author: string, u: UserId, pid: ProjectId, task: Option<TaskId>): Notification
  {
    NewNotification(u, MentionMessage(author), NotificationType.Mention, Some(pid), task)
  }

  function FileActivity(f: FileRecord, pid: ProjectId): Activity
  {
    Activity(pid, f.uploadedBy, ActionType.FileUploaded, "uploaded file \"" + f.originalFilename + "\"")
  }

  /** The recipients of a run of notifications, in order. */
  function Recipients(ns: seq<Notification>): (us: seq<nat>)
    ensures |us| == |ns|
    ensures forall k :: 0 <= k < |ns| ==> us[k] == ns[k].user
  {
    seq(|ns|, k requires 0 <= k < |ns| => ns[k].user)
  }

  lemma RecipientsSnoc(ns: seq<Notification>, n: Notification)
    ensures Recipients(ns + [n]) == Recipients(ns) + [n.user]
  {
  }

  // ------------------------------------------------------------ task assignment

  /** The `m2m_changed` actions. */
  datatype M2MAction = PreAdd | PostAdd | PreRemove | PostRemove | PreClear | PostClear

  /** The added users other than the task's creator (a null creator excludes nobody). */
  function AssignTargets(pkSet: set<UserId>, createdBy: Option<UserId>): (r: set<UserId>)
    ensures forall u :: u in r <==> u in pkSet && Some(u) != createdBy
  {
    if createdBy.Some? then pkSet - {createdBy.value} else pkSet
  }

  /** One `task_assigned` notification for each target and no other notification. */
  ghost predicate IsAssignFanout(added: seq<Notification>, tid: TaskId, t: Task, pkSet: set<UserId>)
  {
    && (forall k :: 0 <= k < |added| ==> added[k] == TaskAssignedNote(tid, t, added[k].user))
    && Enumerates(Recipients(added), AssignTargets(pkSet, t.createdBy))
  }

  /** One iteration of the loop below keeps its invariant. */
  lemma AssignStep(added: seq<Notification>, done: set<UserId>, u: UserId, tid: TaskId, t: Task)
    requires forall k :: 0 <= k < |added| ==> added[k] == TaskAssignedNote(tid, t, added[k].user)
    requires Enumerates(Recipients(added), AssignTargets(done, t.createdBy))
    requires u !in done
    ensures var next := if Some(u) != t.createdBy then added + [TaskAssignedNote(tid, t, u)] else added;
      && (forall k :: 0 <= k < |next| ==> next[k] == TaskAssignedNote(tid, t, next[k].user))
      && Enumerates(Recipients(next), AssignTargets(done + {u}, t.createdBy))
  {
    if Some(u) != t.createdBy {
      var n := TaskAssignedNote(tid, t, u);
      EnumeratesSnoc(Recipients(added), AssignTargets(done, t.createdBy), u);
      RecipientsSnoc(added, n);
      assert AssignTargets(done + {u}, t.createdBy) == AssignTargets(done, t.createdBy) + {u};
    } else {
      assert AssignTargets(done + {u}, t.createdBy) == AssignTargets(done, t.createdBy);
    }
  }

  /** The loop of `notify_task_assigned` over `pk_set`. */
  method AssignmentNotes(tid: TaskId, t: Task, pkSet: set<UserId>) returns (added: seq<Notification>)
    ensures IsAssignFanout(added, tid, t, pkSet)
  {
    added := [];
    var done: set<UserId> := {};
    var remaining := pkSet;
    while remaining != {}
      invariant remaining <= pkSet && done == pkSet - remaining
      invariant forall k :: 0 <= k < |added| ==> added[k] == TaskAssignedNote(tid, t, added[k].user)
      invariant Enumerates(Recipients(added), AssignTargets(done, t.createdBy))
      decreases |remaining|
    {
      var u :| u in remaining;
      TakeOne(pkSet, remaining, done, u);
      AssignStep(added, done, u, tid, t);
      if Some(u) != t.createdBy {
        added := added + [TaskAssignedNote(tid, t, u)];
      }
      done := done + {u};
      remaining := remaining - {u};
    }
    assert done == pkSet;
  }

  /** Each added user other than the creator is notified exactly once; nobody else is, members or not. */
  lemma AssignedOncePerUser(added: seq<Notification>, tid: TaskId, t: Task, pkSet: set<UserId>, u: UserId)
    requires IsAssignFanout(added, tid, t, pkSet)
    ensures Occurrences(Recipients(added), u) == if u in pkSet && Some(u) != t.createdBy then 1 else 0
  {
    OccursOnce(Recipients(added), AssignTargets(pkSet, t.createdBy), u);
  }

  /** Every assignment notification names the task and its project and is unread. */
  lemma AssignmentNotesShape(added: seq<Notification>, tid: TaskId, t: Task, pkSet: set<UserId>)
    requires IsAssignFanout(added, tid, t, pkSet)
    ensures forall k :: 0 <= k < |added| ==>
      && added[k].user in pkSet && Some(added[k].user) != t.createdBy
      && added[k].kind == TaskAssigned && !added[k].isRead
      && added[k].relatedProject == Some(t.project) && added[k].relatedTask == Some(tid)
  {
    forall k | 0 <= k < |added|
      ensures added[k].user in pkSet && Some(added[k].user) != t.createdBy
    {
      assert Recipients(added)[k] in Recipients(added);
    }
  }

  // ------------------------------------------------------------ mentions

  /**
   * The "already notified" query: a `mention` notification to `u` with the
   * given related project and task whose message contains the author's
   * username (a substring test, as `message__contains` is).
   */
  predicate AlreadyMentioned(notes: seq<Notification>, u: UserId, project: Option<ProjectId>,
                             task: Option<TaskId>, author: string)
  {
    exists i :: 0 <= i < |notes| && notes[i].user == u && notes[i].kind == NotificationType.Mention
      && notes[i].relatedProject == project && notes[i].relatedTask == task
      && Contains(notes[i].message, author)
  }

  /**
   * The checks a mentioned user must pass: member of the comment's project,
   * not the author, and not already notified. The query compares
   * `related_project` with the comment's own `project` field, which is
   * null for a task comment.
   */
  predicate MentionQualifies(members: MemberTable, notes: seq<Notification>, c: Comment,
                             pid: ProjectId, author: string, u: UserId)
  {
    (pid, u) in members && u != c.user && !AlreadyMentioned(notes, u, c.project, c.task, author)
  }

  /** The users whose username was mentioned and who pass the checks. */
  ghost function MentionTargets(users: map<UserId, string>, members: MemberTable, notes: seq<Notification>,
                                c: Comment, pid: ProjectId, author: string, names: set<string>): set<UserId>
  {
    set u | u in users && users[u] in names && MentionQualifies(members, notes, c, pid, author, u)
  }

  /** One `mention` notification for each target and no other notification. */
  ghost predicate IsMentionFanout(added: seq<Notification>, users: map<UserId, string>, members: MemberTable,
                                  notes: seq<Notification>, c: Comment, pid: ProjectId, author: string,
                                  names: set<string>)
  {
    && (forall k :: 0 <= k < |added| ==> added[k] == MentionNote(author, added[k].user, pid, c.task))
    && Enumerates(Recipients(added), MentionTargets(users, members, notes, c, pid, author, names))
  }

  /** Notifications to other users do not change whether `u` was already notified. */
  lemma AlreadyMentionedIgnoresOthers(notes: seq<Notification>, added: seq<Notification>, u: UserId,
                                      project: Option<ProjectId>, task: Option<TaskId>, author: string)
    requires forall k :: 0 <= k < |added| ==> added[k].user != u
    ensures AlreadyMentioned(notes + added, u, project, task, author) == AlreadyMentioned(notes, u, project, task, author)
  {
    if AlreadyMentioned(notes + added, u, project, task, author) {
      var i :| 0 <= i < |notes + added| && (notes + added)[i].user == u
        && (notes + added)[i].kind == NotificationType.Mention
        && (notes + added)[i].relatedProject == project && (notes + added)[i].relatedTask == task
        && Contains((notes + added)[i].message, author);
      assert (notes + added)[i] == notes[i];
    }
    if AlreadyMentioned(notes, u, project, task, author) {
      var i :| 0 <= i < |notes| && notes[i].user == u && notes[i].kind == NotificationType.Mention
        && notes[i].relatedProject == project && notes[i].relatedTask == task
        && Contains(notes[i].message, author);
      assert (notes + added)[i] == notes[i];
    }
  }

  /** Handling one more username adds at most its user to the targets. */
  lemma MentionTargetsStep(users: map<UserId, string>, members: MemberTable, notes: seq<Notification>,
                           c: Comment, pid: ProjectId, author: string, done: set<string>, name: string)
    requires UniqueUsernames(users)
    ensures var r := UserByName(users, name);
      MentionTargets(users, members, notes, c, pid, author, done + {name}) ==
        MentionTargets(users, members, notes, c, pid, author, done)
        + (if r.Some? && MentionQualifies(members, notes, c, pid, author, r.value) then {r.value} else {})
  {
    var r := UserByName(users, name);
    var before := MentionTargets(users, members, notes, c, pid, author, done);
    var after := MentionTargets(users, members, notes, c, pid, author, done + {name});
    var extra: set<UserId> := if r.Some? && MentionQualifies(members, notes, c, pid, author, r.value) then {r.value} else {};
    forall v ensures v in after <==> v in before + extra {
      if v in after && users[v] == name {
        assert r.Some? && r.value == v;
      }
    }
  }

  /** The outcome of handling one username: the notification to add, if any. */
  function MentionFor(users: map<UserId, string>, members: MemberTable, notes: seq<Notification>,
                      c: Comment, pid: ProjectId, author: string, name: string): seq<Notification>
    requires UniqueUsernames(users)
  {
    var r := UserByName(users, name);
    if r.Some? && MentionQualifies(members, notes, c, pid, author, r.value)
    then [MentionNote(author, r.value, pid, c.task)] else []
  }

  /** One iteration of the loop below keeps its invariant. */
  lemma MentionStep(users: map<UserId, string>, members: MemberTable, notes: seq<Notification>,
                    c: Comment, pid: ProjectId, author: string, added: seq<Notification>,
                    done: set<string>, remaining: set<string>, name: string)
    requires UniqueUsernames(users)
    requires name in remaining && done !! remaining
    requires forall k :: 0 <= k < |added| ==> added[k] == MentionNote(author, added[k].user, pid, c.task)
    requires forall k :: 0 <= k < |added| ==> added[k].user in users && users[added[k].user] in done
    requires Enumerates(Recipients(added), MentionTargets(users, members, notes, c, pid, author, done))
    ensures var next := added + MentionFor(users, members, notes + added, c, pid, author, name);
      && (forall k :: 0 <= k < |next| ==> next[k] == MentionNote(author, next[k].user, pid, c.task))
      && (forall k :: 0 <= k < |next| ==> next[k].user in users && users[next[k].user] in done + {name})
      && Enumerates(Recipients(next), MentionTargets(users, members, notes, c, pid, author, done + {name}))
  {
    MentionTargetsStep(users, members, notes, c, pid, author, done, name);
    var r := UserByName(users, name);
    if r.Some? {
      var u := r.value;
      AlreadyMentionedIgnoresOthers(notes, added, u, c.project, c.task, author);
      if MentionQualifies(members, notes, c, pid, author, u) {
        var n := MentionNote(author, u, pid, c.task);
        EnumeratesSnoc(Recipients(added), MentionTargets(users, members, notes, c, pid, author, done), u);
        RecipientsSnoc(added, n);
      } else {
        assert added + [] == added;
      }
    } else {
      assert added + [] == added;
    }
  }

  /** The loop of `handle_comment_created` over the mentioned usernames. */
  method MentionNotes(users: map<UserId, string>, members: MemberTable, notes: seq<Notification>,
                      c: Comment, pid: ProjectId, author: string, names: set<string>)
    returns (added: seq<Notification>)
    requires UniqueUsernames(users)
    ensures IsMentionFanout(added, users, members, notes, c, pid, author, names)
  {
    added := [];
    var done: set<string> := {};
    var remaining := names;
    assert MentionTargets(users, members, notes, c, pid, author, done) == {};
    while remaining != {}
      invariant remaining <= names && done == names - remaining
      invariant forall k :: 0 <= k < |added| ==> added[k] == MentionNote(author, added[k].user, pid, c.task)
      invariant forall k :: 0 <= k < |added| ==> added[k].user in users && users[added[k].user] in done
      invariant Enumerates(Recipients(added), MentionTargets(users, members, notes, c, pid, author, done))
      decreases |remaining|
    {
      var name :| name in remaining;
      TakeOne(names, remaining, done, name);
      MentionStep(users, members, notes, c, pid, author, added, done, remaining, name);
      var user := UserByName(users, name);
      if user.Some? {
        var u := user.value;
        if (pid, u) in members && u != c.user && !AlreadyMentioned(notes + added, u, c.project, c.task, author) {
          added := added + [MentionNote(author, u, pid, c.task)];
        }
      }
      done := done + {name};
      remaining := remaining - {name};
    }
    assert done == names;
  }

  /**
   * Each mention notification goes to a mentioned member other than the
   * author, is unread, points at the comment's project (and task), and
   * carries the author's username in its message.
   */
  lemma MentionNotesShape(added: seq<Notification>, users: map<UserId, string>, members: MemberTable,
                          notes: seq<Notification>, c: Comment, pid: ProjectId, author: string, names: set<string>)
    requires IsMentionFanout(added, users, members, notes, c, pid, author, names)
    ensures forall k :: 0 <= k < |added| ==>
      && added[k].user in users && users[added[k].user] in names
      && (pid, added[k].user) in members && added[k].user != c.user
      && added[k].kind == NotificationType.Mention && !added[k].isRead
      && added[k].relatedProject == Some(pid) && added[k].relatedTask == c.task
      && Contains(added[k].message, author)
  {
    forall k | 0 <= k < |added|
      ensures added[k].user in users && users[added[k].user] in names
      ensures (pid, added[k].user) in members && added[k].user != c.user
      ensures Contains(added[k].message, author)
    {
      assert Recipients(added)[k] in Recipients(added);
      assert added[k].message == author + " mentioned you in a comment";
      assert author <= added[k].message;
    }
  }

  /** Each qualifying mentioned user is notified exactly once per comment, however often it was mentioned. */
  lemma MentionedOncePerUser(added: seq<Notification>, users: map<UserId, string>, members: MemberTable,
                             notes: seq<Notification>, c: Comment, pid: ProjectId, author: string,
                             names: set<string>, u: UserId)
    requires IsMentionFanout(added, users, members, notes, c, pid, author, names)
    ensures Occurrences(Recipients(added), u) ==
      if u in MentionTargets(users, members, notes, c, pid, author, names) then 1 else 0
  {
    OccursOnce(Recipients(added), MentionTargets(users, members, notes, c, pid, author, names), u);
  }

  /** The author never notifies itself, and a non-member is never notified. */
  lemma NoSelfOrOutsiderMention(added: seq<Notification>, users: map<UserId, string>, members: MemberTable,
                                notes: seq<Notification>, c: Comment, pid: ProjectId, author: string,
                                names: set<string>, u: UserId)
    requires IsMentionFanout(added, users, members, notes, c, pid, author, names)
    requires u == c.user || (pid, u) !in members
    ensures Occurrences(Recipients(added), u) == 0
  {
    MentionedOncePerUser(added, users, members, notes, c, pid, author, names, u);
  }

  /**
   * On a task comment the dedupe query looks for `related_project = null`,
   * while every mention notification carries a project: nothing is ever
   * suppressed, and every mentioned member other than the author is a target.
   */
  lemma TaskCommentMentionsNeverSuppressed(users: map<UserId, string>, members: MemberTable,
                                           notes: seq<Notification>, c: Comment, pid: ProjectId,
                                           author: string, names: set<string>)
    requires c.project.None?
    requires forall i :: 0 <= i < |notes| && notes[i].kind == NotificationType.Mention ==> notes[i].relatedProject.Some?
    ensures forall u :: u in MentionTargets(users, members, notes, c, pid, author, names) <==>
      u in users && users[u] in names && (pid, u) in members && u != c.user
  {
  }

  /**
   * A second project comment by the same author mentioning a user already
   * notified by the first is suppressed for that user.
   */
  lemma RepeatProjectMentionSuppressed(added: seq<Notification>, users: map<UserId, string>, members: MemberTable,
                                       notes: seq<Notification>, c1: Comment, c2: Comment, pid: ProjectId,
                                       author: string, names1: set<string>, names2: set<string>, u: UserId)
    requires IsMentionFanout(added, users, members, notes, c1, pid, author, names1)
    requires c1.project == Some(pid) && c2.project == c1.project && c2.task == c1.task
    requires u in MentionTargets(users, members, notes, c1, pid, author, names1)
    ensures u !in MentionTargets(users, members, notes + added, c2, pid, author, names2)
  {
    assert u in Recipients(added);
    var k :| 0 <= k < |added| && Recipients(added)[k] == u;
    var all := notes + added;
    assert all[|notes| + k] == added[k];
    assert added[k].message == author + " mentioned you in a comment";
    assert author <= added[k].message;
    assert AlreadyMentioned(all, u, c2.project, c2.task, author);
  }

  /**
   * A second task comment by the same author mentioning the same user
   * notifies that user again: the dedupe never matches on task comments.
   */
  lemma RepeatTaskMentionNotSuppressed(added: seq<Notification>, users: map<UserId, string>, members: MemberTable,
                                       notes: seq<Notification>, c1: Comment, c2: Comment, pid: ProjectId,
                                       author: string, names1: set<string>, names2: set<string>, u: UserId)
    requires IsMentionFanout(added, users, members, notes, c1, pid, author, names1)
    requires forall i :: 0 <= i < |notes| && notes[i].kind == NotificationType.Mention ==> notes[i].relatedProject.Some?
    requires c1.project.None? && c2.project.None? && c2.task == c1.task && c2.user == c1.user
    requires u in MentionTargets(users, members, notes, c1, pid, author, names1)
    requires users[u] in names2
    ensures u in MentionTargets(users, members, notes + added, c2, pid, author, names2)
  {
    var all := notes + added;
    forall i | 0 <= i < |all| && all[i].kind == NotificationType.Mention
      ensures all[i].relatedProject.Some?
    {
      if i >= |notes| {
        assert all[i] == added[i - |notes|];
      } else {
        assert all[i] == notes[i];
      }
    }
  }

  /**
   * The dedupe matches the author's username as a substring: an earlier
   * mention by `alice` suppresses a mention of the same user by `al` on
   * the same project.
   */
  lemma SubstringAuthorSuppressed(notes: seq<Notification>, i: nat, longer: string, shorter: string,
                                  u: UserId, pid: ProjectId, task: Option<TaskId>)
    requires i < |notes| && notes[i] == MentionNote(longer, u, pid, task)
    requires Contains(longer, shorter)
    ensures AlreadyMentioned(notes, u, Some(pid), task, shorter)
  {
    ContainsInPrefix(longer, " mentioned you in a comment", shorter);
  }

  // ------------------------------------------------------------ the handlers

  /** `create_project_activity`. */
  method CreateProjectActivity(s: Database, pid: ProjectId, created: bool)
    requires s.Valid() && pid in s.projects
    modifies s
    ensures s.Valid()
    ensures s.State() == if created
      then old(s.State()).(activities := old(s.activities) + [ProjectCreatedActivity(pid, old(s.projects[pid]))])
      else old(s.State())
  {
    if created {
      var a := ProjectCreatedActivity(pid, s.projects[pid]);
      assert ActivityOk(a, s.State());
      s.Append([a], []);
    }
  }

  /** `notify_member_added`: nothing for the project's owner field. */
  method NotifyMemberAdded(s: Database, pid: ProjectId, u: UserId, created: bool)
    requires s.Valid() && (pid, u) in s.members
    modifies s
    ensures s.Valid()
    ensures s.State() == if created && u != old(s.projects[pid].owner)
      then old(s.State()).(
        notifications := old(s.notifications) + [MemberAddedNote(pid, old(s.projects[pid]), u, old(s.members[(pid, u)]))],
        activities := old(s.activities) + [MemberAddedActivity(pid, u, old(s.members[(pid, u)]))])
      else old(s.State())
  {
    if created && u != s.projects[pid].owner {
      var role := s.members[(pid, u)];
      var n := MemberAddedNote(pid, s.projects[pid], u, role);
      var a := MemberAddedActivity(pid, u, role);
      assert ActivityOk(a, s.State()) && NotificationOk(n, s.State());
      s.Append([a], [n]);
    }
  }

  /** `create_task_activity`. */
  method CreateTaskActivity(s: Database, tid: TaskId, created: bool)
    requires s.Valid() && tid in s.tasks
    modifies s
    ensures s.Valid()
    ensures s.State() == if created
      then old(s.State()).(activities := old(s.activities)
             + [TaskCreatedActivity(old(s.tasks[tid]), old(s.projects[s.tasks[tid].project].owner))])
      else old(s.State())
  {
    if created {
      var t := s.tasks[tid];
      var a := TaskCreatedActivity(t, s.projects[t.project].owner);
      ghost var before := s.State();
      assert ActivityOk(a, before) by {
        assert t.project in before.projects;
        assert t.createdBy.Some? ==> t.createdBy.value in before.users;
        assert before.projects[t.project].owner in before.users;
      }
      s.Append([a], []);
    }
  }

  /**
   * `notify_task_assigned`: acts only on `post_add` with a non-empty set of
   * added user ids; there is no membership check.
   */
  method NotifyTaskAssigned(s: Database, tid: TaskId, action: M2MAction, pkSet: set<UserId>)
    returns (ghost added: seq<Notification>)
    requires s.Valid() && tid in s.tasks && pkSet <= s.users.Keys
    modifies s
    ensures s.Valid()
    ensures action == PostAdd && pkSet != {} ==> IsAssignFanout(added, tid, old(s.tasks[tid]), pkSet)
    ensures !(action == PostAdd && pkSet != {}) ==> added == []
    ensures s.State() == old(s.State()).(notifications := old(s.notifications) + added)
  {
    added := [];
    if action == PostAdd && pkSet != {} {
      var t := s.tasks[tid];
      var notes := AssignmentNotes(tid, t, pkSet);
      ghost var before := s.State();
      AssignmentNotesShape(notes, tid, t, pkSet);
      assert t.project in before.projects;
      assert forall k :: 0 <= k < |notes| ==> NotificationOk(notes[k], before);
      s.Append([], notes);
      added := notes;
    } else {
      assert s.notifications + added == s.notifications;
    }
  }

  /** The records the comment handler appends reference existing rows. */
  lemma CommentLogsOk(t: Tables, c: Comment, pid: ProjectId, author: string, names: set<string>,
                      added: seq<Notification>)
    requires WellFormed(t) && c.user in t.users && pid in t.projects
    requires IsMentionFanout(added, t.users, t.members, t.notifications, c, pid, author, names)
    requires c.task.Some? ==> c.task.value in t.tasks
    ensures ActivityOk(CommentActivity(c, pid), t)
    ensures forall k :: 0 <= k < |added| ==> NotificationOk(added[k], t)
  {
    MentionNotesShape(added, t.users, t.members, t.notifications, c, pid, author, names);
  }

  /**
   * `handle_comment_created`: one `comment_added` activity on the comment's
   * project (or its task's project), then one `mention` notification for
   * each mentioned username that passes the checks.
   */
  method HandleCommentCreated(s: Database, cid: CommentId, created: bool)
    returns (ghost added: seq<Notification>)
    requires s.Valid() && cid in s.comments
    modifies s
    ensures s.Valid()
    ensures !created ==> s.State() == old(s.State()) && added == []
    ensures created ==>
      var c := old(s.comments[cid]);
      var pid := TargetProject(c.project, c.task, old(s.projects), old(s.tasks));
      && IsMentionFanout(added, old(s.users), old(s.members), old(s.notifications), c, pid, old(s.users[c.user]),
                         MentionedUsernames(c.text))
      && s.State() == old(s.State()).(
           activities := old(s.activities) + [CommentActivity(c, pid)],
           notifications := old(s.notifications) + added)
  {
    added := [];
    if created {
      var c := s.comments[cid];
      ghost var before := s.State();
      assert c.user in before.users && TargetResolves(c.project, c.task, before.projects, before.tasks);
      var pid := TargetProject(c.project, c.task, s.projects, s.tasks);
      var author := s.users[c.user];
      var names := MentionedUsernames(c.text);
      var a := CommentActivity(c, pid);
      var notes := MentionNotes(s.users, s.members, s.notifications, c, pid, author, names);
      CommentLogsOk(before, c, pid, author, names, notes);
      s.Append([a], notes);
      added := notes;
    }
  }

  /** `create_file_activity`. */
  method CreateFileActivity(s: Database, fid: FileId, created: bool)
    requires s.Valid() && fid in s.files
    modifies s
    ensures s.Valid()
    ensures s.State() == if created
      then old(s.State()).(activities := old(s.activities) + [FileActivity(old(s.files[fid]),
             TargetProject(old(s.files[fid].project), old(s.files[fid].task), old(s.projects), old(s.tasks)))])
      else old(s.State())
  {
    if created {
      var f := s.files[fid];
      ghost var before := s.State();
      assert f.uploadedBy in before.users && TargetResolves(f.project, f.task, before.projects, before.tasks);
      var a := FileActivity(f, TargetProject(f.project, f.task, s.projects, s.tasks));
      assert ActivityOk(a, before);
      s.Append([a], []);
    }
  }
}
