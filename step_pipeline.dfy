/** What one run of a job's step pipeline does, as a function of its steps:
    steps run in declared order on a data-flow map that starts empty, each
    returned output map is merged over it (later keys win), and the first step
    that raises is logged, has its logs uploaded, is marked FAILED and ends the
    run. The job reports RUNNING before the first step and one terminal status
    after the last; both reports are skipped when the job has no agent. */
module StepPipeline {
  import opened Wrappers
  import opened Values

  /** The data-flow map threaded through the steps. */
  type Inputs = map<string, Value>

  /** What `step.run(inputs)` does: return a map of outputs, or raise. */
  datatype StepResult = Returned(outputs: Inputs) | Raised(error: string)

  /** A step as far as the pipeline sees it: its outcome on the current map. */
  datatype Step = Step(run: Inputs -> StepResult)

  datatype Status = Running | Success | Failed

  /** The externally visible effects of a job, in the order they happen. */
  datatype Event =
    | ConfigSaved(path: string, config: map<string, Value>)  // job.yaml written
    | JobStatus(id: Value, status: Status)                   // api.update_job({"id", "status"})
    | StepInvoked(index: nat, inputs: Inputs)                 // steps[index].run(inputs)
    | StepLog(index: nat, message: string)                    // steps[index].log(message)
    | StepLogsUploaded(index: nat)                            // steps[index].upload_logs()
    | StepStatus(index: nat, status: Status)                  // steps[index].update(status=…)

  /** The line logged onto a step whose `run` raised `error`. */
  function FailureMessage(error: string): string {
    "Step failed " + error + "."
  }

  /** The outcome of running the steps from some index on: the events they
      produced, the outputs of the steps that returned, the final data-flow
      map and the index of the step that raised, if any. */
  datatype PipelineRun = PipelineRun(
    events: seq<Event>,
    outputs: seq<Inputs>,
    final: Inputs,
    failedAt: Option<nat>)

  /** Runs `steps[k..]` on the map `inputs`. Exactly the steps before the
      failing one (or all of them) return, and each returns one output map. */
  function Pipeline(steps: seq<Step>, k: nat, inputs: Inputs): (r: PipelineRun)
    requires k <= |steps|
    ensures r.failedAt.None? ==> |r.outputs| == |steps| - k
    ensures r.failedAt.Some? ==> k <= r.failedAt.value < |steps| && |r.outputs| == r.failedAt.value - k
    decreases |steps| - k
  {
    if k == |steps| then PipelineRun([], [], inputs, None)
    else
      match steps[k].run(inputs)
      case Returned(outputs) =>
        var rest := Pipeline(steps, k + 1, inputs + outputs);
        PipelineRun([StepInvoked(k, inputs)] + rest.events, [outputs] + rest.outputs, rest.final, rest.failedAt)
      case Raised(error) =>
        PipelineRun(
          [StepInvoked(k, inputs), StepLog(k, FailureMessage(error)), StepLogsUploaded(k), StepStatus(k, Failed)],
          [], inputs, Some(k))
  }

  /** `{**inputs, **outputs}` applied for each output map in turn. */
  function Merge(inputs: Inputs, outputs: seq<Inputs>): (m: Inputs)
    ensures inputs.Keys <= m.Keys
    ensures forall j :: 0 <= j < |outputs| ==> outputs[j].Keys <= m.Keys
    ensures outputs != [] ==>
      forall key :: key in outputs[|outputs| - 1] ==> m[key] == outputs[|outputs| - 1][key]
    decreases |outputs|
  {
    if outputs == [] then inputs
    else
      var m := Merge(inputs + outputs[0], outputs[1..]);
      assert forall j :: 1 <= j < |outputs| ==> outputs[j] == outputs[1..][j - 1];
      m
  }

  /** Merging a first output map and then the rest is merging them all. */
  lemma MergeFirst(inputs: Inputs, first: Inputs, rest: seq<Inputs>)
    ensures Merge(inputs, [first] + rest) == Merge(inputs + first, rest)
  {
    assert ([first] + rest)[1..] == rest;
  }

  /** Merging one more output map is the same as merging it last. */
  lemma {:induction false} MergeAppend(inputs: Inputs, outputs: seq<Inputs>, last: Inputs)
    ensures Merge(inputs, outputs + [last]) == Merge(inputs, outputs) + last
    decreases |outputs|
  {
    if outputs != [] {
      assert (outputs + [last])[1..] == outputs[1..] + [last];
      MergeAppend(inputs + outputs[0], outputs[1..], last);
    }
  }

  /** After merging, a key is present exactly when the initial map or some
      output has it, and it holds the value of the LAST output that has it. */
  lemma {:induction false} MergeLastWriterWins(inputs: Inputs, outputs: seq<Inputs>, key: string)
    ensures key in Merge(inputs, outputs) <==>
      key in inputs || exists j :: 0 <= j < |outputs| && key in outputs[j]
    ensures forall j :: (0 <= j < |outputs| && key in outputs[j] &&
                         (forall j' :: j < j' < |outputs| ==> key !in outputs[j']))
                        ==> Merge(inputs, outputs)[key] == outputs[j][key]
    ensures key in inputs && (forall j :: 0 <= j < |outputs| ==> key !in outputs[j]) ==>
      Merge(inputs, outputs)[key] == inputs[key]
    decreases |outputs|
  {
    if outputs != [] {
      var rest := outputs[1..];
      MergeLastWriterWins(inputs + outputs[0], rest, key);
      assert forall j :: 1 <= j < |outputs| ==> outputs[j] == rest[j - 1];
      if key in inputs + outputs[0] {
      } else {
        assert forall j :: 0 <= j < |outputs| && key in outputs[j] ==> 1 <= j && key in rest[j - 1];
      }
      forall j | 0 <= j < |outputs| && key in outputs[j] &&
        (forall j' :: j < j' < |outputs| ==> key !in outputs[j'])
        ensures Merge(inputs, outputs)[key] == outputs[j][key]
      {
        if j > 0 {
          assert key in rest[j - 1];
          assert forall j' :: j - 1 < j' < |rest| ==> key !in rest[j'] by {
            forall j' | j - 1 < j' < |rest| ensures key !in rest[j'] {
              assert rest[j'] == outputs[j' + 1];
            }
          }
        } else {
          assert forall j' :: 0 <= j' < |rest| ==> key !in rest[j'] by {
            forall j' | 0 <= j' < |rest| ensures key !in rest[j'] {
              assert rest[j'] == outputs[j' + 1];
            }
          }
        }
      }
    }
  }

  /** The final map is the initial one with every returned output merged in
      order; a step that raised contributes nothing. */
  lemma {:induction false} PipelineFinal(steps: seq<Step>, k: nat, inputs: Inputs)
    requires k <= |steps|
    ensures Pipeline(steps, k, inputs).final == Merge(inputs, Pipeline(steps, k, inputs).outputs)
    decreases |steps| - k
  {
    if k < |steps| && steps[k].run(inputs).Returned? {
      var outputs := steps[k].run(inputs).outputs;
      PipelineFinal(steps, k + 1, inputs + outputs);
      assert ([outputs] + Pipeline(steps, k + 1, inputs + outputs).outputs)[1..]
        == Pipeline(steps, k + 1, inputs + outputs).outputs;
    }
  }

  /** The `j`-th event of a run that has not failed before step `k + j` is
      the invocation of step `k + j` on the initial map merged with the
      outputs of the `j` steps before it. */
  lemma {:induction false} StepInvocation(steps: seq<Step>, k: nat, inputs: Inputs, j: nat)
    requires k <= |steps|
    requires j < |Pipeline(steps, k, inputs).events| && j <= |Pipeline(steps, k, inputs).outputs|
    ensures var r := Pipeline(steps, k, inputs);
      k + j < |steps| && r.events[j] == StepInvoked(k + j, Merge(inputs, r.outputs[..j]))
    decreases j
  {
    var r := Pipeline(steps, k, inputs);
    assert r.outputs[..0] == [];
    match steps[k].run(inputs)
    case Raised(_) =>
      assert j == 0 && r.events[0] == StepInvoked(k, inputs);
    case Returned(outputs) =>
      var rest := Pipeline(steps, k + 1, inputs + outputs);
      assert r.events == [StepInvoked(k, inputs)] + rest.events;
      assert r.outputs == [outputs] + rest.outputs;
      if j > 0 {
        StepInvocation(steps, k + 1, inputs + outputs, j - 1);
        assert r.events[j] == rest.events[j - 1];
        assert r.outputs[..j] == [outputs] + rest.outputs[..j - 1];
        MergeFirst(inputs, outputs, rest.outputs[..j - 1]);
      }
  }

  /** Step `k + j`, on the map it was invoked with in the `j`-th event,
      returned the `j`-th output; when no `j`-th output exists but the step
      was invoked, it is the step that raised. */
  lemma {:induction false} StepOutcome(steps: seq<Step>, k: nat, inputs: Inputs, j: nat)
    requires k <= |steps|
    requires j < |Pipeline(steps, k, inputs).events| && j <= |Pipeline(steps, k, inputs).outputs|
    ensures var r := Pipeline(steps, k, inputs);
      && k + j < |steps|
      && r.events[j].StepInvoked?
      && (j < |r.outputs| ==> steps[k + j].run(r.events[j].inputs) == Returned(r.outputs[j]))
      && (j == |r.outputs| ==> r.failedAt == Some(k + j) && steps[k + j].run(r.events[j].inputs).Raised?)
    decreases j
  {
    var r := Pipeline(steps, k, inputs);
    match steps[k].run(inputs)
    case Raised(_) =>
      assert j == 0 && r.events[0] == StepInvoked(k, inputs);
    case Returned(outputs) =>
      var rest := Pipeline(steps, k + 1, inputs + outputs);
      assert r.events == [StepInvoked(k, inputs)] + rest.events;
      assert r.outputs == [outputs] + rest.outputs;
      assert r.failedAt == rest.failedAt;
      if j == 0 {
        assert r.events[0] == StepInvoked(k, inputs) && r.outputs[0] == outputs;
      } else {
        StepOutcome(steps, k + 1, inputs + outputs, j - 1);
        assert r.events[j] == rest.events[j - 1];
        assert j < |r.outputs| ==> r.outputs[j] == rest.outputs[j - 1];
      }
  }

  /** What `pick` extracts from each event, concatenated in event order. */
  function Collect<T>(events: seq<Event>, pick: Event -> seq<T>): seq<T> {
    if events == [] then []
    else pick(events[0]) + Collect(events[1..], pick)
  }

  lemma {:induction false} CollectAppend<T>(a: seq<Event>, b: seq<Event>, pick: Event -> seq<T>)
    ensures Collect(a + b, pick) == Collect(a, pick) + Collect(b, pick)
    decreases |a|
  {
    if a != [] {
      assert (a + b)[1..] == a[1..] + b;
      CollectAppend(a[1..], b, pick);
    } else {
      assert a + b == b;
    }
  }

  function InvokedIndex(e: Event): seq<nat> {
    if e.StepInvoked? then [e.index] else []
  }

  /** The indices of the invoked steps, in the order of invocation. */
  function Invoked(events: seq<Event>): seq<nat> {
    Collect(events, InvokedIndex)
  }

  /** `[lo, lo + 1, …, hi - 1]`. */
  function Range(lo: nat, hi: nat): seq<nat>
    decreases hi - lo
  {
    if lo >= hi then [] else [lo] + Range(lo + 1, hi)
  }

  /** Steps are invoked one at a time in declared order, starting at `k`: all
      of them when none raises, and up to and including the failing one
      otherwise, so no step after a failure is ever invoked. */
  lemma {:induction false} PipelineOrder(steps: seq<Step>, k: nat, inputs: Inputs)
    requires k <= |steps|
    ensures var r := Pipeline(steps, k, inputs);
      Invoked(r.events) == Range(k, match r.failedAt case None => |steps| case Some(j) => j + 1)
    decreases |steps| - k
  {
    if k < |steps| {
      match steps[k].run(inputs)
      case Returned(outputs) =>
        var rest := Pipeline(steps, k + 1, inputs + outputs);
        PipelineOrder(steps, k + 1, inputs + outputs);
        CollectAppend([StepInvoked(k, inputs)], rest.events, InvokedIndex);
      case Raised(error) =>
        var tail := [StepLog(k, FailureMessage(error)), StepLogsUploaded(k), StepStatus(k, Failed)];
        CollectAppend([StepInvoked(k, inputs)], tail, InvokedIndex);
        CollectAppend([StepLog(k, FailureMessage(error))], tail[1..], InvokedIndex);
        CollectAppend([StepLogsUploaded(k)], tail[2..], InvokedIndex);
        assert Invoked(tail[2..]) == [];
    }
  }

  /** A failed run ends with the failing step's invocation, its failure log
      line, the upload of its logs and its FAILED status, in that order; the
      step raised on the map built by the steps before it. */
  lemma {:induction false} FailureHandling(steps: seq<Step>, k: nat, inputs: Inputs)
    requires k <= |steps|
    requires Pipeline(steps, k, inputs).failedAt.Some?
    ensures var r := Pipeline(steps, k, inputs);
      var j := r.failedAt.value;
      && steps[j].run(r.final).Raised?
      && |r.events| >= 4
      && r.events[|r.events| - 4..] == [
           StepInvoked(j, r.final),
           StepLog(j, FailureMessage(steps[j].run(r.final).error)),
           StepLogsUploaded(j),
           StepStatus(j, Failed)]
    decreases |steps| - k
  {
    if steps[k].run(inputs).Returned? {
      var outputs := steps[k].run(inputs).outputs;
      var rest := Pipeline(steps, k + 1, inputs + outputs);
      FailureHandling(steps, k + 1, inputs + outputs);
      var e := [StepInvoked(k, inputs)] + rest.events;
      assert e[|e| - 4..] == rest.events[|rest.events| - 4..];
    }
  }

  /** The terminal status a job reports after its pipeline. */
  function Terminal(r: PipelineRun): Status {
    if r.failedAt.None? then Success else Failed
  }

  /** `Job.update(status)`: one report, unless the job has no agent. */
  function Reports(hasAgent: bool, id: Value, status: Status): seq<Event> {
    if hasAgent then [JobStatus(id, status)] else []
  }

  /** Everything `Job.run` does: report RUNNING, run the steps on an empty
      map, report the terminal status. */
  function RunEvents(hasAgent: bool, id: Value, steps: seq<Step>): (e: seq<Event>)
    ensures var r := Pipeline(steps, 0, map[]);
      hasAgent ==>
        && |e| == |r.events| + 2
        && e[0] == JobStatus(id, Running)
        && e[1..|e| - 1] == r.events
        && e[|e| - 1] == JobStatus(id, Terminal(r))
    ensures !hasAgent ==> e == Pipeline(steps, 0, map[]).events
  {
    var r := Pipeline(steps, 0, map[]);
    Reports(hasAgent, id, Running) + r.events + Reports(hasAgent, id, Terminal(r))
  }

  function ReportedStatus(e: Event): seq<Status> {
    if e.JobStatus? then [e.status] else []
  }

  /** The statuses a job reports about itself, in order. */
  function JobStatuses(events: seq<Event>): seq<Status> {
    Collect(events, ReportedStatus)
  }

  /** Steps never report a job status of their own. */
  lemma {:induction false} PipelineReportsNoJobStatus(steps: seq<Step>, k: nat, inputs: Inputs)
    requires k <= |steps|
    ensures JobStatuses(Pipeline(steps, k, inputs).events) == []
    decreases |steps| - k
  {
    if k < |steps| {
      match steps[k].run(inputs)
      case Returned(outputs) =>
        PipelineReportsNoJobStatus(steps, k + 1, inputs + outputs);
        CollectAppend([StepInvoked(k, inputs)], Pipeline(steps, k + 1, inputs + outputs).events, ReportedStatus);
      case Raised(error) =>
        NoJobStatusIn([StepInvoked(k, inputs), StepLog(k, FailureMessage(error)), StepLogsUploaded(k), StepStatus(k, Failed)]);
    }
  }

  lemma {:induction false} NoJobStatusIn(events: seq<Event>)
    requires forall i :: 0 <= i < |events| ==> !events[i].JobStatus?
    ensures JobStatuses(events) == []
    decreases |events|
  {
    if events != [] {
      NoJobStatusIn(events[1..]);
    }
  }

  /** A job with an agent reports exactly RUNNING and then one terminal status,
      RUNNING before any step is invoked; a job without an agent reports
      nothing. The terminal status is SUCCESS exactly when every step returned
      (in particular when there are no steps). */
  lemma JobReports(hasAgent: bool, id: Value, steps: seq<Step>)
    ensures var r := Pipeline(steps, 0, map[]);
      JobStatuses(RunEvents(hasAgent, id, steps))
        == if hasAgent then [Running, Terminal(r)] else []
    ensures hasAgent ==> RunEvents(hasAgent, id, steps)[0] == JobStatus(id, Running)
    ensures var r := Pipeline(steps, 0, map[]);
      Terminal(r) == Success <==> |r.outputs| == |steps|
    ensures steps == [] ==> Terminal(Pipeline(steps, 0, map[])) == Success
  {
    var r := Pipeline(steps, 0, map[]);
    PipelineReportsNoJobStatus(steps, 0, map[]);
    CollectAppend(Reports(hasAgent, id, Running), r.events, ReportedStatus);
    CollectAppend(Reports(hasAgent, id, Running) + r.events, Reports(hasAgent, id, Terminal(r)), ReportedStatus);
  }
}
