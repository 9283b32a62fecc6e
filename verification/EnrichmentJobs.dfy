/**
  The enrichment job registry (src-tauri/src/enrichment_jobs.rs): one slot for a
  running job, the last few jobs remembered for polling, and the abort handles of
  spawned tasks.

  `RegistryState` is the value of the mutex-protected registry and carries one
  specification function per locked section.  The class `Registry` is the registry
  itself, updated in place; each method is proved to do what the function says.
  The functions' own properties are proved in module `EnrichmentJobRuns`, over every
  interleaving of every step.
*/
module EnrichmentJobs {
  import opened Wrappers

  const MAX_REMEMBERED_JOBS: nat := 8

  /** The number in the identifier "job-<number>". */
  type JobId = nat

  /** A task is named by the job it was spawned for. */
  type TaskId = nat

  /** A report, as the JSON text that pollers receive. */
  type Json = string

  datatype Kind = AdultMetadata | LibraryEnrichment {
    function StartingMessage(): string {
      match this
      case AdultMetadata => "Starting adult metadata gather..."
      case LibraryEnrichment => "Starting library enrichment..."
    }

    function ProgressTask(): string {
      match this
      case AdultMetadata => "adult_metadata_gather"
      case LibraryEnrichment => "library_enrichment"
    }
  }

  datatype Phase = Running | Completed | Failed | Cancelled

  datatype JobStatus = JobStatus(
    jobId: JobId,
    kind: Kind,
    phase: Phase,
    current: nat,
    total: nat,
    percent: nat,
    message: string,
    result: Option<Json>,
    error: Option<string>)
  {
    function Complete(report: Json): JobStatus {
      this.(phase := Completed, percent := 100, message := "Enrichment job complete",
            result := Some(report), error := None)
    }

    function Fail(reason: string): JobStatus {
      this.(phase := Failed, message := "Enrichment job failed: " + reason, error := Some(reason))
    }

    function Cancel(note: string): JobStatus {
      this.(phase := Cancelled, message := note, error := Some("Stopped by user"))
    }
  }

  datatype JobRecord = JobRecord(status: JobStatus, stopPending: bool)

  /** The answer to a refused claim: the job that holds the slot. */
  datatype Busy = Busy(jobId: JobId, kind: Kind)

  /** The live progress snapshot that a poll lays over a running job. */
  datatype Progress = Progress(
    active: bool, task: string, current: nat, total: nat, percent: nat, message: string)

  /** `Idle` is the status returned when the poll finds no job record. */
  datatype PollReply = Idle | Known(status: JobStatus)

  function FreshRecord(id: JobId, kind: Kind): JobRecord {
    JobRecord(JobStatus(id, kind, Running, 0, 0, 0, kind.StartingMessage(), None, None), false)
  }

  const STOPPED_BEFORE_START := "Stopped by user before the job started"
  const STOPPED := "Stopped by user"

  datatype RegistryState = RegistryState(
    jobs: map<JobId, JobRecord>,
    order: seq<JobId>,
    active: Option<JobId>,
    handles: map<JobId, TaskId>,
    counter: nat,
    aborted: set<TaskId>)
  {
    predicate IsRunning(id: JobId) {
      id in jobs && jobs[id].status.phase.Running?
    }

    /** The registry with the slot given up, if `id` holds it, and without the handle of `id`. */
    function Released(id: JobId): RegistryState {
      this.(active := if active == Some(id) then None else active, handles := handles - {id})
    }

    function Pruned(): RegistryState
      decreases |order|
    {
      if |order| > MAX_REMEMBERED_JOBS && active != Some(order[0]) then
        this.(order := order[1..], jobs := jobs - {order[0]}, handles := handles - {order[0]}).Pruned()
      else
        this
    }

    function ClaimJob(kind: Kind): (RegistryState, Result<JobId, Busy>) {
      if active.Some? && IsRunning(active.value) then
        (this, Err(Busy(active.value, jobs[active.value].status.kind)))
      else
        var id := counter + 1;
        var claimed := this.(jobs := jobs[id := FreshRecord(id, kind)], order := order + [id],
                             active := Some(id), counter := id);
        (claimed.Pruned(), Ok(id))
    }

    function RegisterAbortHandle(id: JobId, task: TaskId): RegistryState {
      if IsRunning(id) then this.(handles := handles[id := task]) else this
    }

    /** The flag says that the task must exit without running. */
    function TakePendingStop(id: JobId): (RegistryState, bool) {
      if !IsRunning(id) then
        (this, true)
      else if jobs[id].stopPending then
        var status := jobs[id].status.Cancel(STOPPED_BEFORE_START);
        (this.(jobs := jobs[id := jobs[id].(status := status)]).Released(id), true)
      else
        (this, false)
    }

    function FinishJob(id: JobId, outcome: Result<Json, string>): RegistryState {
      if !IsRunning(id) then
        this
      else
        var status := match outcome
          case Ok(result) => jobs[id].status.Complete(result)
          case Err(error) => jobs[id].status.Fail(error);
        this.(jobs := jobs[id := jobs[id].(status := status)]).Released(id)
    }

    function RequestStop(): RegistryState {
      if active.None? then
        this
      else
        var id := active.value;
        if id in handles then
          this.(jobs := if IsRunning(id)
                        then jobs[id := jobs[id].(status := jobs[id].status.Cancel(STOPPED))]
                        else jobs,
                active := None,
                handles := handles - {id},
                aborted := aborted + {handles[id]})
        else if IsRunning(id) then
          this.(jobs := jobs[id := jobs[id].(stopPending := true)])
        else
          this
    }

    function ActiveJobRunning(): bool {
      active.Some? && IsRunning(active.value)
    }

    function Poll(jobId: Option<JobId>, progress: Progress): PollReply {
      var wanted :=
        if jobId.Some? then jobId
        else if active.Some? then active
        else if order != [] then Some(order[|order| - 1])
        else None;
      if wanted.None? || wanted.value !in jobs then
        Idle
      else
        var status := jobs[wanted.value].status;
        if status.phase.Running? && progress.active && progress.task == status.kind.ProgressTask() then
          Known(status.(current := progress.current, total := progress.total,
                        percent := progress.percent, message := progress.message))
        else
          Known(status)
    }
  }

  const EMPTY_REGISTRY := RegistryState(map[], [], None, map[], 0, {})

  /**
    The registry behind the mutex.  `counter` is the job number source, and `aborted`
    holds the tasks on which `abort` has been called through their handles.
  */
  class Registry {
    var jobs: map<JobId, JobRecord>
    var order: seq<JobId>
    var activeJobId: Option<JobId>
    var abortHandles: map<JobId, TaskId>
    var counter: nat
    var aborted: set<TaskId>

    ghost function State(): RegistryState
      reads this
    {
      RegistryState(jobs, order, activeJobId, abortHandles, counter, aborted)
    }

    constructor ()
      ensures State() == EMPTY_REGISTRY
    {
      jobs, order, activeJobId, abortHandles, counter, aborted := map[], [], None, map[], 0, {};
    }

    method PruneRememberedJobs()
      modifies this
      ensures State() == old(State()).Pruned()
    {
      while |order| > MAX_REMEMBERED_JOBS
        invariant State().Pruned() == old(State()).Pruned()
        decreases |order|
      {
        var oldest := order[0];
        if activeJobId == Some(oldest) {
          break;
        }
        order := order[1..];
        jobs := jobs - {oldest};
        abortHandles := abortHandles - {oldest};
      }
    }

    method ClaimJob(kind: Kind) returns (r: Result<JobId, Busy>)
      modifies this
      ensures (State(), r) == old(State()).ClaimJob(kind)
    {
      if activeJobId.Some? {
        var activeId := activeJobId.value;
        if activeId in jobs {
          var record := jobs[activeId];
          if record.status.phase.Running? {
            return Err(Busy(activeId, record.status.kind));
          }
        }
        activeJobId := None;
      }
      counter := counter + 1;
      var jobId := counter;
      jobs := jobs[jobId := FreshRecord(jobId, kind)];
      order := order + [jobId];
      activeJobId := Some(jobId);
      PruneRememberedJobs();
      r := Ok(jobId);
    }

    method RegisterAbortHandle(jobId: JobId, task: TaskId)
      modifies this`abortHandles
      ensures State() == old(State()).RegisterAbortHandle(jobId, task)
    {
      if jobId in jobs {
        if jobs[jobId].status.phase.Running? {
          abortHandles := abortHandles[jobId := task];
        }
      }
    }

    method TakePendingStop(jobId: JobId) returns (exit: bool)
      modifies this
      ensures (State(), exit) == old(State()).TakePendingStop(jobId)
    {
      if jobId !in jobs {
        return true;
      }
      var record := jobs[jobId];
      if !record.status.phase.Running? {
        return true;
      }
      if record.stopPending {
        jobs := jobs[jobId := record.(status := record.status.Cancel(STOPPED_BEFORE_START))];
        if activeJobId == Some(jobId) {
          activeJobId := None;
        }
        abortHandles := abortHandles - {jobId};
        return true;
      }
      exit := false;
    }

    method FinishJob(jobId: JobId, outcome: Result<Json, string>)
      modifies this
      ensures State() == old(State()).FinishJob(jobId, outcome)
    {
      if jobId !in jobs {
        return;
      }
      var record := jobs[jobId];
      if !record.status.phase.Running? {
        return;
      }
      match outcome {
        case Ok(result) => record := record.(status := record.status.Complete(result));
        case Err(error) => record := record.(status := record.status.Fail(error));
      }
      jobs := jobs[jobId := record];
      if activeJobId == Some(jobId) {
        activeJobId := None;
      }
      abortHandles := abortHandles - {jobId};
    }

    method RequestStopActiveJob()
      modifies this
      ensures State() == old(State()).RequestStop()
    {
      if activeJobId.None? {
        return;
      }
      var activeId := activeJobId.value;
      if activeId in abortHandles {
        var task := abortHandles[activeId];
        abortHandles := abortHandles - {activeId};
        aborted := aborted + {task};
        if activeId in jobs {
          var record := jobs[activeId];
          if record.status.phase.Running? {
            jobs := jobs[activeId := record.(status := record.status.Cancel(STOPPED))];
          }
        }
        activeJobId := None;
      } else if activeId in jobs {
        var record := jobs[activeId];
        if record.status.phase.Running? {
          jobs := jobs[activeId := record.(stopPending := true)];
        }
      }
    }

    method ActiveJobRunning() returns (running: bool)
      ensures running == State().ActiveJobRunning()
    {
      match activeJobId
      case Some(id) => running := id in jobs && jobs[id].status.phase.Running?;
      case None => running := false;
    }

    method GetEnrichmentJobStatus(jobId: Option<JobId>, progress: Progress) returns (reply: PollReply)
      ensures reply == State().Poll(jobId, progress)
    {
      var wanted := jobId;
      if wanted.None? {
        wanted := activeJobId;
        if wanted.None? && order != [] {
          wanted := Some(order[|order| - 1]);
        }
      }
      if wanted.None? || wanted.value !in jobs {
        return Idle;
      }
      var status := jobs[wanted.value].status;
      if status.phase.Running? && progress.active && progress.task == status.kind.ProgressTask() {
        status := status.(current := progress.current, total := progress.total,
                          percent := progress.percent, message := progress.message);
      }
      reply := Known(status);
    }
  }
}
