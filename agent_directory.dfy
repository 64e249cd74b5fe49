/** The agent's on-disk layout: a root directory holding `tasks/<id>`, `logs`,
    `projects/<id>` and `actions/<name…>/<version>`. Every directory is a pure
    function of the root and the identifier, so the same task id always names
    the same directory. */
module AgentDirectory {
  import opened Wrappers
  import opened Values
  import opened PosixPath

  /** `AgentDirectory.path()` (also the `dir` property): the value of the
      `DATATORCH_AGENT_PATH` environment variable when it is set, otherwise
      `agent` inside the application directory. The third clause needs a
      trimmed application directory: for `appDir == ""` the result is the
      bare `agent`, whose parent is also `""`, and for an `appDir` ending in
      `/` only the leaf is stated. */
  function AgentPath(agentPathVar: Option<Path>, appDir: Path): (root: Path)
    ensures agentPathVar.Some? ==> root == agentPathVar.value
    ensures agentPathVar.None? ==> Leaf(root) == "agent"
    ensures agentPathVar.None? && Trimmed(appDir) ==> ChildOf(root, appDir, "agent")
  {
    match agentPathVar
    case Some(p) => p
    case None => JoinChild(appDir, "agent"); Join(appDir, "agent")
  }

  function TasksDir(root: Path): (d: Path)
    ensures d != [] && Trimmed(d) && Leaf(d) == "tasks"
    ensures Trimmed(root) ==> ChildOf(d, root, "tasks")
  {
    JoinChild(root, "tasks");
    Join(root, "tasks")
  }

  /** Directory where the agent's own logs are stored. */
  function LogsDir(root: Path): (d: Path)
    ensures d != [] && Trimmed(d) && Leaf(d) == "logs"
    ensures Trimmed(root) ==> ChildOf(d, root, "logs")
  {
    JoinChild(root, "logs");
    Join(root, "logs")
  }

  /** Directory where project data (annotations, files) is cached. */
  function ProjectsDir(root: Path): (d: Path)
    ensures d != [] && Trimmed(d) && Leaf(d) == "projects"
    ensures Trimmed(root) ==> ChildOf(d, root, "projects")
  {
    JoinChild(root, "projects");
    Join(root, "projects")
  }

  /** Directory where actions are stored. */
  function ActionsDir(root: Path): (d: Path)
    ensures d != [] && Trimmed(d) && Leaf(d) == "actions"
    ensures Trimmed(root) ==> ChildOf(d, root, "actions")
  {
    JoinChild(root, "actions");
    Join(root, "actions")
  }

  /** The four top-level directories are pairwise different. */
  lemma TopLevelDirsDistinct(root: Path)
    ensures |{TasksDir(root), LogsDir(root), ProjectsDir(root), ActionsDir(root)}| == 4
  {
    var t, l, p, a := TasksDir(root), LogsDir(root), ProjectsDir(root), ActionsDir(root);
    assert Leaf(t) != Leaf(l) && Leaf(t) != Leaf(p) && Leaf(t) != Leaf(a);
    assert Leaf(l) != Leaf(p) && Leaf(l) != Leaf(a) && Leaf(p) != Leaf(a);
  }

  /** The identifier `task_dir` and `project_dir` accept: a string is the id
      itself, a dict carries it under `"id"`. Anything else makes the source
      raise (`.get` on a non-dict, or `os.path.join` on a non-string id). */
  function IdOf(ref: Value): (id: Option<Path>)
    ensures ref.Text? ==> id == Some(ref.s)
    ensures ref.Dict? ==> (id.Some? <==> Get(ref.fields, "id").Text?)
    ensures ref.Dict? && id.Some? ==> id.value == Get(ref.fields, "id").s
    ensures id.Some? ==> ref.Text? || ref.Dict?
  {
    match ref
    case Text(s) => Some(s)
    case Dict(fields) =>
      (match Get(fields, "id")
       case Text(s) => Some(s)
       case _ => None)
    case _ => None
  }

  /** `task_dir(task)`: the task's id joined onto `tasks_dir`. */
  function TaskDir(root: Path, task: Value): (r: Result<Path>)
    ensures r.Ok? <==> IdOf(task).Some?
    ensures r.Ok? && '/' !in IdOf(task).value ==> ChildOf(r.value, TasksDir(root), IdOf(task).value)
    ensures r.Ok? && IsAbsolute(IdOf(task).value) ==> r.value == IdOf(task).value
  {
    match IdOf(task)
    case None => Err("task reference carries no string id")
    case Some(id) => JoinChild(TasksDir(root), id); Ok(Join(TasksDir(root), id))
  }

  /** `project_dir(project)`: the project's id joined onto `projects_dir`. */
  function ProjectDir(root: Path, project: Value): (r: Result<Path>)
    ensures r.Ok? <==> IdOf(project).Some?
    ensures r.Ok? && '/' !in IdOf(project).value ==> ChildOf(r.value, ProjectsDir(root), IdOf(project).value)
    ensures r.Ok? && IsAbsolute(IdOf(project).value) ==> r.value == IdOf(project).value
  {
    match IdOf(project)
    case None => Err("project reference carries no string id")
    case Some(id) => JoinChild(ProjectsDir(root), id); Ok(Join(ProjectsDir(root), id))
  }

  /** A task named by its id and a task record carrying the same id share one directory. */
  lemma TaskDirByIdOrRecord(root: Path, id: string, record: map<string, Value>)
    requires Get(record, "id") == Text(id)
    ensures TaskDir(root, Text(id)) == TaskDir(root, Dict(record)) == Ok(Join(TasksDir(root), id))
  {
  }

  lemma ProjectDirByIdOrRecord(root: Path, id: string, record: map<string, Value>)
    requires Get(record, "id") == Text(id)
    ensures ProjectDir(root, Text(id)) == ProjectDir(root, Dict(record)) == Ok(Join(ProjectsDir(root), id))
  {
  }

  /** Distinct relative task ids give distinct task path strings. */
  lemma TaskDirInjective(root: Path, id1: string, id2: string)
    requires !IsAbsolute(id1) && !IsAbsolute(id2)
    requires id1 != id2
    ensures TaskDir(root, Text(id1)) != TaskDir(root, Text(id2))
  {
    if TaskDir(root, Text(id1)) == TaskDir(root, Text(id2)) {
      JoinInjective(TasksDir(root), id1, id2);
    }
  }

  /** For separator-free ids a task path string never equals a project path
      string. */
  lemma TaskAndProjectPathsDiffer(root: Path, taskId: string, projectId: string)
    requires '/' !in taskId && '/' !in projectId
    ensures TaskDir(root, Text(taskId)) != ProjectDir(root, Text(projectId))
  {
    assert Leaf(TasksDir(root)) != Leaf(ProjectsDir(root));
  }

  /** `action_dir(name, version)`: the lower-cased name split at `/` into
      nested directories under `actions_dir`, then the version. */
  function ActionDir(root: Path, name: string, version: string): (d: Path)
    ensures '/' !in version ==> Leaf(d) == version
    ensures !IsAbsolute(version) ==> |d| >= |version| && d[|d| - |version|..] == version
  {
    var parts := Split(Lower(name), '/') + [version];
    assert parts[..|parts| - 1] == Split(Lower(name), '/');
    JoinChild(JoinAll(ActionsDir(root), Split(Lower(name), '/')), version);
    JoinAll(ActionsDir(root), parts)
  }

  /** For a well-formed name and a plain version the action directory is
      `actions/<lower-cased name>/<version>`, so the name's own separators
      become directory levels. */
  lemma ActionDirLayout(root: Path, name: string, version: string)
    requires WellFormedName(name, '/')
    requires version != [] && '/' !in version
    ensures ActionDir(root, name, version) == ActionsDir(root) + "/" + Lower(name) + "/" + version
    ensures ChildOf(ActionDir(root, name, version), ActionsDir(root) + "/" + Lower(name), version)
  {
    var lowered := Lower(name);
    LowerProperties(name);
    JoinAllSplitNames(ActionsDir(root), lowered, version);
    LeafAfterSeparator(ActionsDir(root) + "/" + lowered, version);
  }

  /** Action names that differ only in letter case share one directory. */
  lemma ActionDirIgnoresCase(root: Path, name1: string, name2: string, version: string)
    requires Lower(name1) == Lower(name2)
    ensures ActionDir(root, name1, version) == ActionDir(root, name2, version)
    ensures ActionDir(root, name1, version) == ActionDir(root, Lower(name1), version)
  {
    LowerProperties(name1);
  }
}
