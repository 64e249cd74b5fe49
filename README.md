# datatorch agent: job pipeline and directory layout

A Dafny model of two pieces of the datatorch agent.

- **The job step pipeline.** A `Job` is built from a task config. It is bound
  to a working directory, and when its config has a truthy id it saves a
  snapshot of that config there. Its `run`
  reports RUNNING to the server and then runs the config's steps in order on a
  data-flow map that starts empty. Each step's returned outputs are merged
  over the map, so later keys win. The first step that raises gets a failure
  log line, an upload of its logs and a FAILED status, and ends the run. The
  job then reports FAILED, or SUCCESS when every step returned. A "raise"
  here is an `Exception`, the only kind the job catches. A job without
  an agent makes no reports.
- **The agent directory layout.** The agent keeps a root directory (the
  `DATATORCH_AGENT_PATH` variable, or `agent` inside the application
  directory). Under it are `tasks/<id>`, `logs`, `projects/<id>` and
  `actions/<lower-cased name pieces>/<version>`.

Modules:

- `Wrappers`: `Option` and `Result`.
- `Values`: the Python values in configs and task records, truthiness and `dict.get`.
- `PosixPath`: `os.path.join` with POSIX rules, including the reset when a
  component is absolute. It also holds `str.split`, `sep.join` and ASCII `str.lower`.
- `AgentDirectory`: the path functions of `AgentDirectory`, as pure functions of the root.
- `StepPipeline`: the specification of one run. `Pipeline` gives the events,
  the outputs, the final map and the failing index.
- `Jobs`: the class `Job` with `Update` and `Run`. `Run` is a loop proved
  against `StepPipeline.RunEvents`.

Effects are recorded as an event trace in the field `Job.trace`:

- the config snapshot written;
- job status reports;
- step invocations with the map each step received;
- step log lines;
- step log uploads;
- step status updates.

The job's agent is the flag `hasAgent`. The agent root is a parameter, not a
module-level singleton. Each step is an abstract function from the current map
to either returned outputs or a raised error.

The gate on reports follows the code: it is `agent is None`, not a missing id.
So a job that has an agent but no id still reports, with the id `None`. The
status PENDING is never reported.

## Model

| member | source | states |
|---|---|---|
| AgentDirectory.AgentPath | datatorch/agent/directory.py:9-12 | The root is the `DATATORCH_AGENT_PATH` value when that is set. Otherwise it is the entry `agent` directly inside the application directory. |
| AgentDirectory.TasksDir | datatorch/agent/directory.py:27-29 | The tasks directory is the entry `tasks` directly inside the root. It is non-empty and has no trailing separator. |
| AgentDirectory.LogsDir | datatorch/agent/directory.py:31-34 | The logs directory is the entry `logs` directly inside the root. |
| AgentDirectory.ProjectsDir | datatorch/agent/directory.py:36-43 | The projects directory is the entry `projects` directly inside the root. |
| AgentDirectory.ActionsDir | datatorch/agent/directory.py:45-48 | The actions directory is the entry `actions` directly inside the root. |
| AgentDirectory.TopLevelDirsDistinct | datatorch/agent/directory.py:27-48 | For any root, the four top-level directories are pairwise different. |
| AgentDirectory.IdOf | datatorch/agent/directory.py:58-61 | A string argument is its own id. A dict yields an id exactly when its `id` entry is a string, and then that string. Any other argument yields none. |
| AgentDirectory.TaskDir | datatorch/agent/directory.py:56-62 | A task directory exists exactly when the argument is a string or a dict with a string `id`. For a separator-free id it is the entry `<id>` inside the tasks directory. An absolute id replaces the whole path. |
| AgentDirectory.ProjectDir | datatorch/agent/directory.py:64-70 | The same as `TaskDir`, rooted at the projects directory. |
| AgentDirectory.TaskDirByIdOrRecord | datatorch/agent/directory.py:56-62 | A task given as its id string and a task record carrying that id give the same directory: the tasks directory joined with the id. |
| AgentDirectory.ProjectDirByIdOrRecord | datatorch/agent/directory.py:64-70 | A project given as its id string and a project record carrying that id give the same directory. |
| AgentDirectory.TaskDirInjective | datatorch/agent/directory.py:56-62 | Distinct relative task ids give distinct task path strings. |
| AgentDirectory.TaskAndProjectPathsDiffer | datatorch/agent/directory.py:56-70 | For separator-free ids, a task path string never equals a project path string. |
| AgentDirectory.ActionDir | datatorch/agent/directory.py:53-54 | A separator-free version is the leaf of the action directory. Any relative version ends the path. |
| AgentDirectory.ActionDirLayout | datatorch/agent/directory.py:53-54 | For a well-formed name and a plain version, the action directory is `actions/<lower-cased name>/<version>`. The name's own `/` become directory levels, and the version is the entry directly inside them. |
| AgentDirectory.ActionDirIgnoresCase | datatorch/agent/directory.py:53-54 | Action names that differ only in letter case share one directory, namely that of the lower-cased name. |
| PosixPath.Lower | datatorch/agent/directory.py:54 | Lower-casing keeps the length and leaves no ASCII capital letter. Each capital becomes its small letter, and every other character is unchanged. |
| PosixPath.Join | datatorch/agent/directory.py:29 | An absolute component replaces the path. A relative one is appended, with a separator inserted exactly when the path is non-empty and does not already end in one. |
| PosixPath.JoinAll | datatorch/agent/directory.py:54 | An absolute last component is the whole result. When no component is absolute, the result starts with the base path. |
| PosixPath.JoinChild | datatorch/agent/directory.py:29 | Joining a separator-free name onto a path makes that name the leaf. When the path has no trailing separator, the result is directly inside that path. |
| PosixPath.JoinInjective | datatorch/agent/directory.py:62 | Joining different relative components onto the same directory gives different paths. |
| PosixPath.Split | datatorch/agent/directory.py:54 | `split` yields at least one piece, and no piece contains the separator. |
| PosixPath.ConcatSplit | datatorch/agent/directory.py:54 | Joining the pieces of `s.split(sep)` with `sep` gives back `s`. |
| PosixPath.JoinAllPlainNames | datatorch/agent/directory.py:54 | Joining non-empty, separator-free components onto a trimmed directory puts exactly one separator before each of them. |
| Values.Truthy | datatorch/agent/flows/job/job.py:22-24 | A value is false exactly when it is `None`, `False`, `0`, `""`, `[]` or `{}`. |
| Values.Get | datatorch/agent/flows/job/job.py:21 | `dict.get` gives the stored value for a present key and `None` for an absent one. A non-`None` result is always a stored value. |
| Jobs.JobDir | datatorch/agent/flows/job/job.py:21-22 | A job without a truthy id works in `./`. A job whose id is a plain name works in `tasks/<id>`. Choosing the directory fails exactly when the id is truthy but carries no string id. |
| Jobs.StepsOf | datatorch/agent/flows/job/job.py:37 | A config without `steps` has no steps. A list of descriptors gives one step per descriptor, in the declared order: step `i` is built from descriptor `i`. |
| Jobs.Job.constructor | datatorch/agent/flows/job/job.py:17-27 | The job keeps its config and agent. Its id is `config.get("id")` and its directory is the directory chosen for that id. The config snapshot is saved to `<dir>/job.yaml` exactly when the id is truthy. |
| Jobs.Job.Update | datatorch/agent/flows/job/job.py:29-33 | It appends one status report for the job's id, or nothing when the job has no agent. |
| Jobs.Job.Run | datatorch/agent/flows/job/job.py:35-56 | The loop appends exactly the effects of the specified run: RUNNING, the pipeline's events from an empty map, and the terminal status. |
| StepPipeline.Pipeline | datatorch/agent/flows/job/job.py:41-49 | With no failure, every step from `k` on returned one output. On a failure at `j`, exactly the steps before `j` returned. |
| StepPipeline.Merge | datatorch/agent/flows/job/job.py:43 | Merging keeps every key of the initial map and adds every key of every output. A key of the last output holds that output's value. |
| StepPipeline.MergeAppend | datatorch/agent/flows/job/job.py:43 | Merging one more output map is the same as laying it over the map merged so far. |
| StepPipeline.MergeLastWriterWins | datatorch/agent/flows/job/job.py:43 | After the merges, a key is present exactly when the initial map or some output has it. Its value is that of the last output that has it, or the initial value when no output has it. |
| StepPipeline.PipelineFinal | datatorch/agent/flows/job/job.py:41-49 | The final map is the initial map with the returned outputs merged in order. A step that raised contributes nothing. |
| StepPipeline.StepInvocation | datatorch/agent/flows/job/job.py:41-43 | The `j`-th event invokes step `k + j` on the initial map merged with the outputs of the `j` steps before it. |
| StepPipeline.StepOutcome | datatorch/agent/flows/job/job.py:41-49 | On the map of its invocation event, step `k + j` returned the `j`-th output. Or, when there is no `j`-th output, it is the step that raised and the run failed there. |
| StepPipeline.PipelineOrder | datatorch/agent/flows/job/job.py:41-49 | Steps are invoked once each in declared order: all of them, or up to and including the first that raises. No step after a failure is invoked. |
| StepPipeline.FailureHandling | datatorch/agent/flows/job/job.py:44-49 | A failed run ends with four events, in order: the failing step's invocation on the map built so far, its `Step failed <error>.` log line, its log upload and its FAILED status. |
| StepPipeline.RunEvents | datatorch/agent/flows/job/job.py:35-56 | With an agent, a run's effects begin with the RUNNING report and end with the terminal report, with exactly the pipeline's events from an empty map in between. Without an agent they are exactly the pipeline's events. |
| StepPipeline.PipelineReportsNoJobStatus | datatorch/agent/flows/job/job.py:41-49 | Steps never report a job-level status. |
| StepPipeline.JobReports | datatorch/agent/flows/job/job.py:29-56 | A job with an agent reports exactly RUNNING and then one terminal status, with RUNNING first. A job without an agent reports nothing. The terminal status is SUCCESS exactly when every step returned, in particular when there are no steps. |

## Left out

- `datatorch/agent/agent.py` is not part of this model. It holds signal handling, the Docker client, the log handler upload, the system-stats thread, the event loop and the GraphQL subscription: I/O and concurrency.
- The `mkdir_exists` calls in `AgentDirectory.__init__` (directory.py:17-21) are filesystem side effects.
- `AgentSettings` (directory.py:73-99) is persisted settings read through a `Settings` class that is not part of this model.
- `AgentDirectory.open` (directory.py:50-51) is file I/O. As written it would raise, because `os.join` and `self.directory` do not exist.
- The module-level `agent_directory` singleton (directory.py:102) is replaced by passing the root explicitly. The application directory and the environment variable are parameters of `AgentPath`.
- The contents of the yaml dump are not modelled. Saving the snapshot is a `ConfigSaved` event.
- The logger calls are not modelled.
- The server call in `update` is not modelled. It appears only as a `JobStatus` event.
- The `api` property (job.py:58-60) is an accessor for the agent's client and takes part in no modelled behaviour.
- `Step` and `Step.from_dict_list` are not part of this model. A step is an abstract function from the map to returned outputs or a raised error. The descriptor-to-step conversion is a parameter `build`. A `steps` value that is not a list is treated as no steps.
- Exceptions raised inside `Step.from_dict_list`, `update`, `step.log`, `step.upload_logs` or `step.update` are not modelled. The model assumes those calls succeed. In the source, a raise in `Step.from_dict_list` (job.py:37) happens before RUNNING is reported and escapes `run` with no report at all.
- Jobs.StepsOf: building steps cannot fail, because `build` is total. `JobReports`' "exactly RUNNING and then one terminal status" relies on this.
- StepPipeline.PipelineReportsNoJobStatus: steps are assumed to act only through their return value. In the source each step is built with `job=self` (job.py:37), so it could reach the job and its `api` (job.py:58-60) and report a job status itself. Steps here have no effects of their own.
- `async`/`await` is modelled as plain sequential execution. A job runs its steps one after another.
- `Lower` lower-cases ASCII letters only. Python's `str.lower` also maps non-ASCII letters.
- Jobs.Job.constructor: requires that choosing the job directory succeeds. When the id is truthy but no string id can be read from it, `task_dir` raises inside the source's `__init__`. That error path is modelled by `JobDir`, not by the constructor.
- Jobs.Job.constructor: assumes that writing `<dir>/job.yaml` succeeds. No modelled code creates the task directory `tasks/<id>`: directory.py:17-21 creates only the top-level directories. So in the source, the write for a fresh id would raise `FileNotFoundError` inside `__init__`. That outcome is not modelled.
- AgentDirectory.TaskDirInjective: paths are compared as strings and are not normalised. Distinct ids such as `a` and `a/` give distinct strings that name one directory. The source gives no directory isolation for such ids.
- AgentDirectory.TaskAndProjectPathsDiffer: paths are compared as strings and are not normalised. The id `..` gives distinct task and project strings that both name the root, and the empty id gives the tasks directory itself.
- StepPipeline.StepResult: `Raised` stands for an `Exception` raised by `step.run`, the only kind `run` catches (job.py:44). A `BaseException` such as `KeyboardInterrupt`, `SystemExit` or `asyncio.CancelledError` escapes `run` with no step log, no FAILED and no terminal report. That outcome is not modelled.
- StepPipeline.Step: steps are assumed not to mutate the map they receive. The source passes its live `inputs` dict to `step.run` (job.py:43), so a step that mutated it would change the data flow. A step here is a pure function of the map.
