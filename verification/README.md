# Collaboration portal: access control and event fan-out

This project models the core of a Django project-collaboration portal. The
state is a small relational database:

- users with unique usernames;
- projects, each with an authoritative `owner` field;
- a membership table from `(project, user)` to a role (`owner`, `editor`,
  `viewer`);
- tasks with a nullable creator and a set of assignees;
- comments and files that target a project or a task;
- append-only activity and notification logs.

The database is the class `Store.Database`, one field per table. Its
`State()` gives the tables as one `Tables` value. Every operation keeps
`Valid()`, which is referential integrity as the foreign keys guarantee it.

On top of the state the model has:

- the permission predicates (`Permissions`);
- the post-save and m2m handlers that write the logs (`Signals`), with the
  `@mention` tokenizer (`MentionParser`);
- the model saves that trigger those handlers (`Orm`);
- the state-changing views and the inbox queries (`Views`);
- the request gates of the three mixins (`Mixins`);
- the form checks (`Forms`) and the upload validators (`Validators`);
- the two maintenance scripts that reconcile memberships and owners
  (`AddMeToProjects`, `FixOwnership`).

A loop over a Python set or a queryset picks its elements in an order the
model leaves open. A ghost sequence records the order taken. The
contracts say that this sequence lists every element exactly once
(`Enumeration.Enumerates`).

Two quirks of the code are modelled as written.

- The mention dedupe compares `related_project` with the comment's own
  `project` field. That field is null on a task comment, while every stored
  mention carries a project, so a task-comment mention is never suppressed.
- The dedupe matches the author's username as a case-sensitive substring of
  the message.

Lemmas exhibit both quirks.

Where the code and the intended behaviour differ, the model follows the
code:

- `Comment` defines no `clean`, so "exactly one of project or task" is not
  enforced by the code. The model only requires that a comment's or file's
  target resolves to a project.
- Task routes carry both `project_pk` and `pk`, and the mixins check `pk`.
  So on a task page the task's id is looked up as a project id.

## Model

| member | source | states |
|---|---|---|
| Permissions.GetUserRole | projects/permissions.py:5-14 | the role of the (project, user) row when one exists, None exactly when there is none |
| Permissions.OneOwnerPerProject | projects/permissions.py:17-21 | `is_project_owner` (`IsProjectOwner`) holds for exactly one user of a project, the one its owner field names |
| Permissions.IsProjectMember | projects/permissions.py:24-28 | membership iff `get_user_role` returns a role, whatever the role |
| Permissions.HasViewAccess | projects/permissions.py:24-35 | view access holds iff a membership row exists, i.e. iff `get_user_role` is not None |
| Permissions.HasEditAccess | projects/permissions.py:38-43 | edit access iff a row exists whose role is not `viewer`; edit access implies view access |
| Permissions.HasManageAccess | projects/permissions.py:46-50 | manage access iff the user is the project's owner field |
| Permissions.CanAssignTask | projects/permissions.py:60-65 | iff the user's role is `owner` or `editor` |
| Permissions.CanManageMembers | projects/permissions.py:68-73 | iff the user is the owner field |
| Permissions.FailClosed | projects/permissions.py:5-73 | with neither a row nor the owner field, every predicate is false |
| Permissions.OwnerFieldWithoutMembership | projects/permissions.py:31-50 | the owner field without a row manages but can neither view nor edit |
| Permissions.OwnerRoleWithoutOwnerField | projects/permissions.py:38-50 | an `owner` role without the owner field grants view and edit but not manage |
| Permissions.ViewerOnlyViews | projects/permissions.py:31-50 | a viewer that is not the owner field views but cannot edit, assign or manage |
| Permissions.AccessIsPerRow | projects/permissions.py:5-43 | changing or deleting another row leaves a user's view and edit access unchanged |
| Models.RoleValue | projects/models.py:42-46 | a role's stored value is one of `owner`, `editor`, `viewer` |
| Models.RoleDisplay | projects/models.py:42-46 | a role's label is one of `Owner`, `Editor`, `Viewer` |
| Models.RoleValueInjective | projects/models.py:42-50 | distinct roles are stored as distinct strings |
| Models.NewNotification | projects/models.py:192-197 | a created notification keeps the given fields and is unread |
| Models.TaskClean | projects/models.py:94-102 | refused iff the task has a truthy pk and more assignees than the maximum; an unsaved task always passes |
| Models.TaskCleanAtDefaultLimit | projects/models.py:98-99 | five assignees pass the default limit of a saved task; a sixth fails it |
| Models.StatusBadgeClass | projects/models.py:104-111 | `in_progress` and `done` map to their classes, anything else to `bg-secondary` |
| Models.PriorityBadgeClass | projects/models.py:113-120 | `low`, `medium` and `high` map to their classes; `bg-secondary` exactly for any other value |
| Models.GetLink | projects/models.py:206-212 | task link (through the task's project) iff a related task; else the project link iff a related project; else the inbox |
| Models.TaskLinkIgnoresRelatedProject | projects/models.py:208-209 | with a related task, the related project plays no part in the link |
| Models.WithDefaults | projects/models.py:162-168 | an empty filename or zero size takes the upload's value only when a file is attached; set fields and all other fields are kept |
| Models.WithDefaultsIdempotent | projects/models.py:162-168 | filling the defaults twice is filling them once |
| Models.FileInstance.FillDefaults | projects/models.py:162-167 | updates the instance in place to the defaulted record |
| Store.UserByName | add_me_to_projects.py:20 | the user with that username, or None exactly when no user has it |
| Store.Database.Append | projects/signals.py:11-16 | appends activities and notifications that reference existing rows, keeping integrity |
| Orm.AddMembership | projects/signals.py:19-36 | a new row writes the role, and logs one `member_added` notification and activity unless the user is the owner field |
| Orm.CreateProject | projects/signals.py:7-16 | inserting a project adds the row and exactly one `project_created` activity by the owner field |
| Orm.SaveProject | projects/signals.py:10 | re-saving a project rewrites the row and logs nothing |
| Orm.CreateMembership | projects/models.py:53-54 | refused with nothing written iff the (project, user) row exists; otherwise `AddMembership` |
| Orm.SaveMembershipRole | projects/signals.py:22 | re-saving a membership rewrites its role and logs nothing |
| Orm.CreateTask | projects/signals.py:39-48 | inserts the task and one `task_created` activity by the creator, or by the owner field when there is no creator |
| Orm.CreateComment | projects/signals.py:69-120 | inserts the comment, one `comment_added` activity and exactly the mention fan-out |
| Orm.CreateFile | projects/models.py:162-168 | fills the instance's defaults in place, inserts it and logs one `file_uploaded` activity |
| Orm.OwnerMembershipIsSilent | projects/signals.py:22 | a membership for the owner field writes the row and nothing else |
| Orm.OtherMembershipNotifies | projects/signals.py:22-36 | any other user gets one unread `member_added` notification about the project, plus one activity |
| Signals.CreateProjectActivity | projects/signals.py:7-16 | on create, one `project_created` activity by the owner field; otherwise no change |
| Signals.NotifyMemberAdded | projects/signals.py:19-36 | on create of a non-owner row, one notification and one activity with the row's role; otherwise no change |
| Signals.CreateTaskActivity | projects/signals.py:39-48 | on create, one `task_created` activity by `created_by or project.owner` |
| Signals.AssignTargets | projects/signals.py:56-59 | the added users other than the creator |
| Signals.AssignmentNotes | projects/signals.py:56-66 | one `task_assigned` notification per added non-creator, each exactly once, in the order the set was walked |
| Signals.AssignedOncePerUser | projects/signals.py:56-66 | each added non-creator is notified once and nobody else, member or not |
| Signals.AssignmentNotesShape | projects/signals.py:60-66 | every assignment notification is unread and names the task and its project |
| Signals.NotifyTaskAssigned | projects/signals.py:51-66 | only `post_add` with a non-empty set notifies; exactly the assignment fan-out is appended |
| Signals.MentionNotes | projects/signals.py:92-117 | one `mention` notification per mentioned username whose user qualifies, each exactly once |
| Signals.MentionNotesShape | projects/signals.py:96-117 | each mention goes to a mentioned member other than the author, is unread, points at the project and task, and contains the author's name |
| Signals.MentionedOncePerUser | projects/signals.py:90-117 | a qualifying user is notified exactly once per comment however often mentioned |
| Signals.AlreadyMentionedIgnoresOthers | projects/signals.py:101-107 | the dedupe query (`AlreadyMentioned`) for a user is unaffected by notifications to other users, so earlier mentions in the same loop cannot suppress it |
| Signals.MentionTargetsStep | projects/signals.py:92-109 | handling one more username adds its user to the targets (`MentionTargets`) exactly when the user exists and qualifies (`MentionQualifies`: a member, not the author, not already notified) |
| Signals.NoSelfOrOutsiderMention | projects/signals.py:97-99 | the author and non-members are never notified |
| Signals.TaskCommentMentionsNeverSuppressed | projects/signals.py:101-107 | on a task comment, every mentioned member other than the author is notified |
| Signals.RepeatProjectMentionSuppressed | projects/signals.py:101-109 | a second project comment by the same author does not notify an already-notified user again |
| Signals.RepeatTaskMentionNotSuppressed | projects/signals.py:104 | a second task comment by the same author notifies the same user again |
| Signals.SubstringAuthorSuppressed | projects/signals.py:106 | a mention by an author whose name contains another's suppresses the other's mention |
| Signals.HandleCommentCreated | projects/signals.py:69-120 | on create, one `comment_added` activity on `project or task.project`, then exactly the mention fan-out |
| Signals.CreateFileActivity | projects/signals.py:123-133 | on create, one `file_uploaded` activity by the uploader on the file's project |
| MentionParser.WordRun | projects/signals.py:84 | the greedy `\w+`: the longest prefix of word characters |
| MentionParser.FindMentions | projects/signals.py:84 | every token of `re.findall(r'@(\w+)')` is a non-empty word |
| MentionParser.MentionedUsernames | projects/signals.py:90 | the set of tokens, each username once |
| MentionParser.MentionRoundTrip | projects/signals.py:84 | `@name` followed by a non-word character or the end yields `name`, then the rest's tokens |
| MentionParser.MentionsOccurInText | projects/signals.py:84 | every token occurs in the text right after an `@` |
| MentionParser.NoAtNoMentions | projects/signals.py:84-85 | a text without `@` mentions nobody |
| MentionParser.MentionAfterText | projects/signals.py:84 | plain text before a mention adds no token |
| MentionParser.TwoMentions | projects/signals.py:84 | two mentions separated by plain text give the two names, in order |
| MentionParser.TwoMentionsExample | projects/signals.py:84 | `Hey @bob, @charlie check this` gives `bob` then `charlie` |
| MentionParser.BareAtIgnored | projects/signals.py:84 | an `@` not followed by a word character captures nothing |
| Mixins.CheckedProjectId | core/mixins.py:18-19 | the truthy `pk`, else the truthy `project_pk`, else no check |
| Mixins.DispatchGate | core/mixins.py:16-49 | proceeds with no id; NotFound iff the id names no project; PermissionDenied iff it does and the mixin's predicate fails |
| Mixins.GatesMatchPermissions | core/mixins.py:16-49 | the predicate each mixin checks (`Allows`): member, editor and owner gates pass iff a row, a non-viewer row, the owner field |
| Mixins.TaskRoutesCheckTaskId | projects/urls.py:23-25 | on task routes the task's pk is the id checked and `project_pk` plays no part |
| Mixins.TaskPageNotFoundForMember | core/mixins.py:18-20 | a member gets NotFound on a task page when no project has the task's id |
| Mixins.ViewerCannotCreateTask | core/mixins.py:34-35 | the editor gate refuses a viewer on the task-create route's kwargs, although the member gate admits it |
| Mixins.NoKwargsNoCheck | core/mixins.py:19 | without a project id the request proceeds |
| Mixins.EditorGateImpliesMemberGate | core/mixins.py:21-35 | passing the editor gate implies passing the member gate |
| Forms.CleanAssignees | projects/forms.py:69-78 | refused iff more than the maximum are selected; otherwise the selection is returned unchanged |
| Forms.FormAndModelLimitsAgree | projects/forms.py:69-76 | on a saved task the form and `Task.clean` refuse exactly the same counts |
| Forms.AssigneeLimitAtDefault | projects/forms.py:71-76 | exactly five pass, six fail, none passes |
| Forms.AssigneeChoices | projects/forms.py:61-66 | with a project, the choices are exactly its members; otherwise all users |
| Forms.AddMemberUserChoices | projects/forms.py:139-145 | the user choices are exactly the users who are not yet members |
| Forms.ParseRoleChoice | projects/forms.py:131-137 | only `editor` and `viewer` are accepted, each as its own role |
| Forms.OwnerNeverOffered | projects/forms.py:151-156 | `owner` is never offered nor accepted; every other role is |
| Forms.CleanAddMember | projects/forms.py:120-145 | valid iff a non-member user and an offered role; the role is never `owner` |
| Forms.CleanChangeRole | projects/forms.py:148-156 | valid iff `editor` or `viewer`; never `owner` |
| Validators.ValidateFileSize | projects/validators.py:6-13 | rejected iff strictly larger than the limit |
| Validators.SizeLimitIsInclusive | projects/validators.py:10-11 | exactly 5 MiB passes, one byte more and 6 MiB fail |
| Validators.LastIndexOf | projects/validators.py:23 | the last position of the character, or -1 when it does not occur |
| Validators.ExtensionStart | projects/validators.py:23 | the cut point of `splitext`: a `.` with no `.` or `/` after it, or the end; `ExtensionStartComplete` and `ExtensionStartSound` pin it to the last `.` exactly when a non-dot character of the final component precedes it |
| Validators.SplitExt | projects/validators.py:23 | root and extension concatenate back to the name; the extension is empty or a single leading `.`; `ExtensionIsTextAfterLastDot` and `ExtensionStartSound` say it starts at the last `.` exactly when a cut is made |
| Validators.Extension | projects/validators.py:23 | the extension holds no `.`, `/` or capital letter, and is empty when `splitext` finds none; `ExtensionIsTextAfterLastDot` gives its value whenever a cut is made |
| Validators.ExtensionStartComplete | projects/validators.py:23 | whenever the final path component has a `.` with a non-dot character before it, `splitext` cuts, and at the last `.` of the name |
| Validators.ExtensionIsTextAfterLastDot | projects/validators.py:23 | in that case the split-off extension is the text from the last `.`, and the extension is the lower-cased text after it |
| Validators.ExtensionStartSound | projects/validators.py:23 | a cut is made only at the last `.` of the name, and only when a non-dot character of the final component precedes it (the leading-dot rule) |
| Validators.DotsOnlyBasenameHasNoExtension | projects/validators.py:23 | a final component made only of dots, such as `.` or `..`, yields no extension |
| Validators.ValidateFileExtension | projects/validators.py:16-28 | accepted iff the extension is in the allowed list |
| Validators.ExtensionIgnoresCase | projects/validators.py:23-25 | the extension and the verdict are the same for a name and its lower-cased form |
| Validators.ExecutableRefused | projects/validators.py:20-28 | `malware.exe` has extension `exe` and is refused |
| Validators.UpperCasePdfAccepted | projects/validators.py:20-28 | `A.PDF` has extension `pdf` and is accepted |
| Validators.NoExtensionRefused | projects/validators.py:20-28 | `README` and `.pdf` have no extension and are refused |
| Views.CreateProjectView | projects/views.py:36-48 | adds the project, an `owner` row for the requester and one `project_created` activity, and no notification |
| Views.ManageMembers | projects/views.py:114-149 | NotFound, Refused for a non-owner, and a change only for a valid POST, which creates exactly one row with the chosen role |
| Views.RemoveMember | projects/views.py:152-174 | NotFound for a missing project; Refused for anyone but the owner field, and for the owner field removing itself; NotFound for a missing user or row; otherwise exactly that row is deleted and nothing else changes |
| Views.ChangeMemberRole | projects/views.py:177-204 | NotFound for a missing project; Refused for anyone but the owner field; then NotFound for a missing user or row, which is checked before the owner's own row is refused; a valid POST sets exactly that row to `editor` or `viewer` |
| Views.OwnerRowUntouched | projects/views.py:166-168 | the member views never change the owner field's own row |
| Views.DeleteComment | projects/views.py:379-400 | deletes only on POST by the author or the owner field; nothing changes otherwise |
| Views.DeleteFile | projects/views.py:473-494 | deletes only on POST by the uploader or the owner field; nothing changes otherwise |
| Views.DeleteGuardIgnoresRoles | projects/views.py:379-400 | the delete guard (`MayDelete`, also at line 482): for another's comment or file, only the owner field may delete, whatever the roles, even without a membership |
| Views.UploadRecord | projects/models.py:162-168 | for a non-empty upload name, the saved row takes the upload's name and size; with an empty name both stay empty and zero |
| Views.UploadAcceptedIgnoresCase | projects/models.py:148-151 | the field's two validators (`UploadAccepted`) give the same verdict for a name and its lower-cased form, and never accept an upload over the size limit |
| Views.UploadProjectFile | projects/views.py:403-426 | edit access is required; a valid POST stores the file and logs its upload; nothing changes otherwise |
| Views.UploadTaskFile | projects/views.py:429-452 | the same gate on the task's project |
| Views.DownloadFile | projects/views.py:455-470 | served under its original name iff the requester is a member of the file's project |
| Views.UploadImpliesDownload | projects/views.py:410-464 | edit access implies download; a viewer downloads what it could not upload; a non-member is refused |
| Views.TaskCanEditWiderThanEditAccess | projects/views.py:264-274 | of `can_edit` (`TaskCanEdit`): edit access implies `can_edit`; a viewer who created the task, and the owner field without a row, get `can_edit` without edit access; `can_edit` fails exactly for a non-owner, non-creator viewer or non-member |
| Views.MarkNotificationRead | projects/views.py:510-520 | NotFound for another user's notification; otherwise only it is marked read, and the link is its `get_link` |
| Views.MarkRead | projects/views.py:515-517 | sets only that notification's read flag |
| Views.MarkReadIdempotent | projects/views.py:515-517 | marking read twice is marking read once |
| Views.UnreadCount | projects/views.py:523-529 | the badge count never exceeds the number of notifications (its meaning is stated by `UnreadCountIsCardinality`) |
| Views.UnreadCountIsCardinality | projects/views.py:528 | the count is the number of the user's unread notifications |
| Views.MarkReadCount | projects/views.py:515-528 | marking an own unread notification lowers the count by one; otherwise it is unchanged |
| Views.Inbox | projects/views.py:506-507 | exactly the user's notifications, newest first |
| Views.InboxCountsUnread | projects/views.py:506-529 | every unread notification of the user is in the inbox, so the badge count never exceeds the inbox length |
| AddMeToProjects.AddAsEditor | add_me_to_projects.py:42-46 | adding memberships changes nothing but memberships and logs |
| AddMeToProjects.AddAsEditorMembers | add_me_to_projects.py:29-47 | the rows afterwards: every earlier row, and an `editor` row for each project added to |
| AddMeToProjects.AddAsEditorLogs | add_me_to_projects.py:42-46 | each addition logs one `member_added` notification and activity, in order |
| AddMeToProjects.AddMe | add_me_to_projects.py:19-57 | a missing username changes nothing; otherwise every project not owned and not yet joined gains an `editor` row, and the count is the number added |
| AddMeToProjects.AddToAll | add_me_to_projects.py:28-48 | the loop visits every project once and adds exactly the targets |
| AddMeToProjects.VisitProject | add_me_to_projects.py:30-47 | owned or joined projects are skipped unchanged; otherwise one `editor` row is created |
| AddMeToProjects.AddMeMemberships | add_me_to_projects.py:28-48 | afterwards the user is in every project it does not own, earlier rows keep their roles, and no other user gains a row |
| AddMeToProjects.AddMeCountAndLog | add_me_to_projects.py:47-50 | the count equals the number of targets, and each addition notifies the user once |
| FixOwnership.TakeOver | fix_ownership.py:26-43 | taking over changes only the projects' owner fields and the memberships |
| FixOwnership.TakeOverProjects | fix_ownership.py:26-27 | each project taken over has the user as owner field and is otherwise unchanged |
| FixOwnership.TakeOverMembers | fix_ownership.py:31-43 | the user gets an `owner` row in each project taken over; every other row is unchanged |
| FixOwnership.FixOwnership | fix_ownership.py:19-52 | a missing username changes nothing; otherwise every project is taken over once |
| FixOwnership.TakeOverAll | fix_ownership.py:21-43 | the loop visits every project exactly once |
| FixOwnership.TakeOverProject | fix_ownership.py:26-43 | one project: owner field set, then the `owner` row created, upgraded, or left as it is |
| FixOwnership.FixOwnershipOutcome | fix_ownership.py:21-43 | afterwards every owner field is the user, the user has an `owner` row everywhere, other users' rows are unchanged, and nothing is logged |
| FixOwnership.PreviousOwnerDemoted | fix_ownership.py:26-38 | the previous owner keeps its `owner` row and edit access but loses manage access |

## Left out

- HTTP plumbing is not modelled: requests, redirects, flash messages, templates, pagination and login checks. A view's effect is summarised by an outcome value.
- Printing is not modelled.
- The Django ORM is modelled as maps and sequences. A queryset's iteration order is left open and recorded as a ghost sequence.
- Fresh primary keys are parameters that must be unused.
- A notification's primary key is its position in the notification sequence.
- Creation time is position in the append-only sequences. `added_at` and `uploaded_at` are not modelled.
- Settings (`MAX_TASK_ASSIGNEES`, `MAX_FILE_SIZE`, `ALLOWED_FILE_EXTENSIONS`) are parameters, and the defaults are constants.
- The username the scripts hard-code is a parameter.
- `pk_set` of the m2m signal is the given set of added user ids. How Django computes it is not modelled.
- Signals.NotifyTaskAssigned requires every added id to name a user. A missing one would raise `DoesNotExist` in the source, which the foreign key prevents.
- `os.path.splitext` is modelled for POSIX paths (`/` separator only).
- `\w` and `lower()` are ASCII only.
- A link is a datatype, not a URL string.
- Human-readable messages are modelled as strings, except the float MB figures in the validator messages, which are not modelled. `File.get_size_display` (floating point) is not modelled either.
- The form machinery for required fields and empty uploads is not modelled. An upload is accepted when both validators accept it.
- Signals.AlreadyMentioned models `message__contains` as a case-sensitive substring test, which is what PostgreSQL does. SQLite and MySQL's default collation match case-insensitively, so on those backends an author whose name differs only in case also suppresses a repeat mention. The database settings are not part of this model.
- Concurrency and transactions are not modelled. Each operation runs alone, so the read-then-write race in the mention dedupe is not represented.
- `mark_project_completed`, `reopen_project` and the completed-project check of `TaskCreateView.dispatch` are not modelled. They call project methods that the project model does not define.
- Because `TaskCreateView.dispatch` reads `project.is_completed` before the editor mixin runs, every request to the task-create route fails there as the code is written. `Mixins.ViewerCannotCreateTask` therefore states only what the editor gate would decide.
- `Comment.clean` does not exist in the model source. The "exactly one target" rule is therefore not claimed; handlers only require a target that resolves to a project.
- The generic create, update and delete views for projects and tasks are not modelled beyond `ProjectCreateView.form_valid`. Neither are their cascading deletes, nor `add_project_comment` and `add_task_comment`. Those two only save a comment, which `Orm.CreateComment` models.
- The read-only projections are not modelled: `get_user_projects`, `DashboardView`, `get_project_members_json` and the detail pages' context.
- The unused `guardian` import is not modelled.
- AddMeToProjects.AddMeCountAndLog states each new notification's recipient and type. The full record is in AddMeToProjects.AddAsEditorLogs.
