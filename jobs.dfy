/** A job: one task's config bound to its directory, whose `Run` executes the
    step pipeline and reports to the server. The server, the job.yaml file and
    the steps' own log buffers are observed only through the event trace. */
module Jobs {
  import opened Wrappers
  import opened Values
  import opened PosixPath
  import opened AgentDirectory
  import opened StepPipeline

  /** The job's working directory: its task directory when the config has a
      truthy id, the current directory otherwise. A job without a truthy id
      works in `./`; a job whose id is a plain, non-empty name works in
      `tasks/<id>` under the agent root; choosing fails (the source raises
      while constructing the job) exactly when a truthy id carries no string
      id that `task_dir` accepts. */
  function JobDir(root: Path, config: map<string, Value>): (r: Result<Path>)
    ensures !Truthy(Get(config, "id")) ==> r == Ok("./")
    ensures r.Err? <==> Truthy(Get(config, "id")) && IdOf(Get(config, "id")).None?
    ensures Get(config, "id").Text? && Get(config, "id").s != [] && '/' !in Get(config, "id").s ==>
      r.Ok? && ChildOf(r.value, TasksDir(root), Get(config, "id").s)
  {
    var id := Get(config, "id");
    if Truthy(id) then TaskDir(root, id) else Ok("./")
  }

  /** The steps built from `config.get("steps", [])`, one per descriptor. */
  function StepsOf(config: map<string, Value>, build: Value -> Step): (steps: seq<Step>)
    ensures "steps" !in config ==> steps == []
    ensures Get(config, "steps").List? ==> |steps| == |Get(config, "steps").items|
    ensures Get(config, "steps").List? ==>
      forall i :: 0 <= i < |steps| ==> steps[i] == build(Get(config, "steps").items[i])
    ensures !Get(config, "steps").List? ==> steps == []
  {
    match Get(config, "steps")
    case List(descriptors) => seq(|descriptors|, i requires 0 <= i < |descriptors| => build(descriptors[i]))
    case _ => []
  }

  // The two lemmas below, like `Assoc`, only regroup sequence concatenations for the
  // solver inside `Job.Run`; they model nothing of their own.

  lemma RunEventsAfter(prior: seq<Event>, hasAgent: bool, id: Value, steps: seq<Step>)
    ensures var r := Pipeline(steps, 0, map[]);
      prior + RunEvents(hasAgent, id, steps)
        == prior + Reports(hasAgent, id, Running) + r.events + Reports(hasAgent, id, Terminal(r))
  {
    var r := Pipeline(steps, 0, map[]);
    var running, terminal := Reports(hasAgent, id, Running), Reports(hasAgent, id, Terminal(r));
    assert RunEvents(hasAgent, id, steps) == (running + r.events) + terminal;
    Assoc(prior, running + r.events, terminal);
    Assoc(prior, running, r.events);
  }

  lemma AppendFour(s: seq<Event>, e1: Event, e2: Event, e3: Event, e4: Event)
    ensures s + [e1] + [e2] + [e3] + [e4] == s + [e1, e2, e3, e4]
  {
  }


  class Job {
    const config: map<string, Value>
    /** `agent is not None`: whether status reports reach a server. */
    const hasAgent: bool
    /** Builds one step from its descriptor. */
    const build: Value -> Step
    const id: Value
    const dir: Path
    /** Every effect the job has had, oldest first. */
    var trace: seq<Event>

    /** `Job.__init__`: the config snapshot is saved to `<dir>/job.yaml` only
        when the job has an id. */
    constructor (config: map<string, Value>, hasAgent: bool, build: Value -> Step, root: Path)
      requires JobDir(root, config).Ok?
      ensures this.config == config && this.hasAgent == hasAgent && this.build == build
      ensures id == Get(config, "id") && dir == JobDir(root, config).value
      ensures trace == if Truthy(id) then [ConfigSaved(Join(dir, "job.yaml"), config)] else []
    {
      this.config := config;
      this.hasAgent := hasAgent;
      this.build := build;
      var id := Get(config, "id");
      this.id := id;
      this.dir := JobDir(root, config).value;
      if Truthy(id) {
        trace := [ConfigSaved(Join(JobDir(root, config).value, "job.yaml"), config)];
      } else {
        trace := [];
      }
    }

    /** `Job.update(status)`: report the status for this job's id, or nothing
        when the job has no agent. */
    method Update(status: Status)
      modifies this`trace
      ensures trace == old(trace) + Reports(hasAgent, id, status)
    {
      if !hasAgent {
        return;
      }
      trace := trace + [JobStatus(id, status)];
    }

    /** `Job.run`: report RUNNING, run the steps in order on a data-flow map
        that starts empty and absorbs each step's outputs, stop at the first
        step that raises (logging the failure onto it, uploading its logs and
        marking it FAILED), and report FAILED in that case and SUCCESS when
        the loop ran to its end. */
    method Run()
      modifies this`trace
      ensures trace == old(trace) + RunEvents(hasAgent, id, StepsOf(config, build))
    {
      var steps := StepsOf(config, build);
      var inputs: Inputs := map[];
      Update(Running);
      ghost var start := trace;
      ghost var whole := Pipeline(steps, 0, map[]);
      var failed := false;
      var i := 0;
      while i < |steps|
        invariant 0 <= i <= |steps|
        invariant start + whole.events == trace + Pipeline(steps, i, inputs).events
        invariant whole.failedAt == Pipeline(steps, i, inputs).failedAt
      {
        var step := steps[i];
        ghost var before := trace;
        trace := trace + [StepInvoked(i, inputs)];
        match step.run(inputs) {
          case Returned(outputs) =>
            Assoc(before, [StepInvoked(i, inputs)], Pipeline(steps, i + 1, inputs + outputs).events);
            inputs := inputs + outputs;
          case Raised(error) =>
            trace := trace + [StepLog(i, FailureMessage(error))];
            trace := trace + [StepLogsUploaded(i)];
            trace := trace + [StepStatus(i, Failed)];
            AppendFour(before, StepInvoked(i, inputs), StepLog(i, FailureMessage(error)), StepLogsUploaded(i), StepStatus(i, Failed));
            assert Pipeline(steps, i, inputs).events
              == [StepInvoked(i, inputs), StepLog(i, FailureMessage(error)), StepLogsUploaded(i), StepStatus(i, Failed)];
            failed := true;
            break;
        }
        i := i + 1;
      }
      if failed {
        Update(Failed);
      } else {
        Update(Success);
      }
      RunEventsAfter(old(trace), hasAgent, id, steps);
    }
  }
}
