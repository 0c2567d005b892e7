/**
 * The records of the collaboration portal (projects/models.py): users are
 * identified by integer ids and carry a username; projects carry the
 * authoritative `owner` field; memberships give a role per (project, user);
 * tasks, comments, files, activities and notifications reference them.
 * Also the pure model methods: `Task.clean`, the badge lookups,
 * `Notification.get_link`, and the field defaulting done by `File.save`.
 */
module Models {

  type UserId = nat
  type ProjectId = nat
  type TaskId = nat
  type CommentId = nat
  type FileId = nat

  datatype Option<T> = None | Some(value: T)

  /** `ProjectMembership.ROLE_CHOICES`, in declaration order. */
  datatype Role = Owner | Editor | Viewer

  const RoleChoices: seq<Role> := [Owner, Editor, Viewer]

  /** The stored value of a role choice. */
  function RoleValue(r: Role): (v: string)
    ensures v in {"owner", "editor", "viewer"}
  {
    match r
    case Owner => "owner"
    case Editor => "editor"
    case Viewer => "viewer"
  }

  /** `get_role_display()`: the human-readable label of a role choice. */
  function RoleDisplay(r: Role): (d: string)
    ensures d in {"Owner", "Editor", "Viewer"}
  {
    match r
    case Owner => "Owner"
    case Editor => "Editor"
    case Viewer => "Viewer"
  }

  /** Distinct roles are stored as distinct strings. */
  lemma RoleValueInjective(a: Role, b: Role)
    requires RoleValue(a) == RoleValue(b)
    ensures a == b
  {
  }

  datatype ProjectStatus = Active | Archived

  datatype Project = Project(owner: UserId, name: string, status: ProjectStatus)

  /**
   * A task. `status` and `priority` are the stored strings (a CharField
   * with choices does not stop other strings from being stored);
   * `createdBy` is the nullable `created_by` foreign key.
   */
  datatype Task = Task(
    project: ProjectId,
    title: string,
    status: string,
    priority: string,
    assignees: set<UserId>,
    createdBy: Option<UserId>)

  /** A comment: `project` and `task` are both nullable foreign keys. */
  datatype Comment = Comment(
    user: UserId,
    text: string,
    project: Option<ProjectId>,
    task: Option<TaskId>)

  /** The uploaded file object behind a `File` row: its name and its size in bytes. */
  datatype Upload = Upload(name: string, size: nat)

  datatype FileRecord = FileRecord(
    uploadedBy: UserId,
    project: Option<ProjectId>,
    task: Option<TaskId>,
    file: Upload,
    originalFilename: string,
    size: int)

  /** `Notification.TYPE_CHOICES`. */
  datatype NotificationType = Mention | TaskAssigned | MemberAdded | CommentAdded | FileUploaded

  datatype Notification = Notification(
    user: UserId,
    message: string,
    kind: NotificationType,
    relatedProject: Option<ProjectId>,
    relatedTask: Option<TaskId>,
    isRead: bool)

  /** `Activity.ACTION_CHOICES`. */
  datatype ActionType = ProjectCreated | TaskCreated | TaskUpdated | CommentAdded | FileUploaded | MemberAdded

  datatype Activity = Activity(project: ProjectId, user: UserId, action: ActionType, description: string)

  /** A notification as `Notification.objects.create` stores it: `is_read` defaults to false. */
  function NewNotification(
    user: UserId, message: string, kind: NotificationType,
    relatedProject: Option<ProjectId>, relatedTask: Option<TaskId>): (n: Notification)
    ensures !n.isRead
    ensures n.user == user && n.message == message && n.kind == kind
    ensures n.relatedProject == relatedProject && n.relatedTask == relatedTask
  {
    Notification(user, message, kind, relatedProject, relatedTask, false)
  }

  // ---------------------------------------------------------------- Task.clean

  const DefaultMaxTaskAssignees: nat := 5

  datatype Validation = Accepted | ValidationError

  /** Python truthiness of a primary key: unsaved (None) and 0 are false. */
  predicate HasPk(pk: Option<nat>)
  {
    pk.Some? && pk.value != 0
  }

  /** `Task.clean`: a saved task may not have more than the maximum number of assignees. */
  function TaskClean(pk: Option<TaskId>, assigneeCount: nat, maxAssignees: nat): (r: Validation)
    ensures r == ValidationError <==> HasPk(pk) && assigneeCount > maxAssignees
    ensures !HasPk(pk) ==> r == Accepted
    ensures assigneeCount <= maxAssignees ==> r == Accepted
  {
    if HasPk(pk) && assigneeCount > maxAssignees then ValidationError else Accepted
  }

  /** Five assignees pass the default limit; a sixth on a saved task fails it. */
  lemma TaskCleanAtDefaultLimit(pk: TaskId, assignees: set<UserId>, extra: UserId)
    requires pk != 0 && |assignees| == DefaultMaxTaskAssignees && extra !in assignees
    ensures TaskClean(Some(pk), |assignees|, DefaultMaxTaskAssignees) == Accepted
    ensures TaskClean(Some(pk), |assignees + {extra}|, DefaultMaxTaskAssignees) == ValidationError
  {
  }

  // ------------------------------------------------------------ badge classes

  /** `Task.get_status_badge_class`. */
  function StatusBadgeClass(status: string): (c: string)
    ensures c in {"bg-secondary", "bg-primary", "bg-success"}
    ensures status == "in_progress" <==> c == "bg-primary"
    ensures status == "done" <==> c == "bg-success"
    ensures status !in {"in_progress", "done"} ==> c == "bg-secondary"
  {
    if status == "todo" then "bg-secondary"
    else if status == "in_progress" then "bg-primary"
    else if status == "done" then "bg-success"
    else "bg-secondary"
  }

  /** `Task.get_priority_badge_class`. */
  function PriorityBadgeClass(priority: string): (c: string)
    ensures c in {"bg-info", "bg-warning", "bg-danger", "bg-secondary"}
    ensures priority == "low" <==> c == "bg-info"
    ensures priority == "medium" <==> c == "bg-warning"
    ensures priority == "high" <==> c == "bg-danger"
    ensures priority !in {"low", "medium", "high"} <==> c == "bg-secondary"
  {
    if priority == "low" then "bg-info"
    else if priority == "medium" then "bg-warning"
    else if priority == "high" then "bg-danger"
    else "bg-secondary"
  }

  // ------------------------------------------------------------------ get_link

  /** The three URL shapes `get_link` produces. */
  datatype Link =
    | TaskPage(project: ProjectId, task: TaskId)  // /projects/<project>/tasks/<task>/
    | ProjectPage(project: ProjectId)             // /projects/<project>/
    | InboxPage                                   // /notifications/

  /** `Notification.get_link`: the related task wins over the related project. */
  function GetLink(n: Notification, tasks: map<TaskId, Task>): (l: Link)
    requires n.relatedTask.Some? ==> n.relatedTask.value in tasks
    ensures l.TaskPage? <==> n.relatedTask.Some?
    ensures l.TaskPage? ==> l.task == n.relatedTask.value && l.project == tasks[l.task].project
    ensures l.ProjectPage? <==> n.relatedTask.None? && n.relatedProject.Some?
    ensures l.ProjectPage? ==> l.project == n.relatedProject.value
    ensures l.InboxPage? <==> n.relatedTask.None? && n.relatedProject.None?
  {
    if n.relatedTask.Some? then TaskPage(tasks[n.relatedTask.value].project, n.relatedTask.value)
    else if n.relatedProject.Some? then ProjectPage(n.relatedProject.value)
    else InboxPage
  }

  /**
   * The task link is taken from the task's own project, so a notification
   * whose related project disagrees with its task's project still links
   * into the task's project.
   */
  lemma TaskLinkIgnoresRelatedProject(n: Notification, tasks: map<TaskId, Task>, p: ProjectId)
    requires n.relatedTask.Some? && n.relatedTask.value in tasks
    ensures GetLink(n.(relatedProject := Some(p)), tasks) == GetLink(n.(relatedProject := None), tasks)
  {
  }

  // ---------------------------------------------------------------- File.save

  /**
   * The field defaulting `File.save` does before writing the row: an empty
   * `original_filename` takes the uploaded file's name and a zero `size`
   * takes the uploaded file's size, each only when a file is attached
   * (a file object is truthy iff its name is non-empty).
   */
  function WithDefaults(f: FileRecord): (r: FileRecord)
    ensures r.uploadedBy == f.uploadedBy && r.project == f.project && r.task == f.task && r.file == f.file
    ensures f.originalFilename != "" ==> r.originalFilename == f.originalFilename
    ensures f.size != 0 ==> r.size == f.size
    ensures f.file.name != "" && f.originalFilename == "" ==> r.originalFilename == f.file.name
    ensures f.file.name != "" && f.size == 0 ==> r.size == f.file.size
    ensures f.file.name == "" ==> r == f
  {
    var named := if f.originalFilename == "" && f.file.name != "" then f.(originalFilename := f.file.name) else f;
    if named.size == 0 && named.file.name != "" then named.(size := named.file.size) else named
  }

  /** Saving twice fills in nothing more than saving once. */
  lemma WithDefaultsIdempotent(f: FileRecord)
    ensures WithDefaults(WithDefaults(f)) == WithDefaults(f)
  {
  }

  /** A `File` model instance before it is saved: its fields are updated in place. */
  class FileInstance {
    var uploadedBy: UserId
    var project: Option<ProjectId>
    var task: Option<TaskId>
    var file: Upload
    var originalFilename: string
    var size: int

    /** A `File(...)` built by a form: `original_filename` empty and `size` unset. */
    constructor (uploadedBy: UserId, project: Option<ProjectId>, task: Option<TaskId>, file: Upload)
      ensures Record() == FileRecord(uploadedBy, project, task, file, "", 0)
    {
      this.uploadedBy := uploadedBy;
      this.project := project;
      this.task := task;
      this.file := file;
      this.originalFilename := "";
      this.size := 0;
    }

    function Record(): FileRecord
      reads this
    {
      FileRecord(uploadedBy, project, task, file, originalFilename, size)
    }

    /** The in-place part of `File.save`, before the row is written. */
    method FillDefaults()
      modifies this
      ensures Record() == WithDefaults(old(Record()))
    {
      if originalFilename == "" && file.name != "" {
        originalFilename := file.name;
      }
      if size == 0 && file.name != "" {
        size := file.size;
      }
    }
  }
}
