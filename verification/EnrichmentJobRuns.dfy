/**
  Every interleaving of the threads that share the job registry.

  A run is any sequence of actions.  An action names one locked section, or one
  step outside the lock, of some thread: a starter claims, spawns its task and
  registers the handle; a task makes its start check, works and finishes; a
  stopper asks for a stop.  An action that its thread is not ready for changes
  nothing, so a statement about all sequences of actions is a statement about all
  interleavings.  An aborted task may be dropped at any time, but may also keep
  running until then: the results do not rely on an abort taking effect promptly.
*/
module EnrichmentJobRuns {
  import opened Wrappers
  import opened EnrichmentJobs

  datatype TaskPc = NotSpawned | Spawned | Working | Exited

  datatype StarterPc = Claimed | HoldsHandle | Returned

  datatype Action =
    | Start(kind: Kind)
    | Spawn(id: JobId)
    | Register(id: JobId)
    | StartCheck(id: JobId)
    | Finish(id: JobId, outcome: Result<Json, string>)
    | Stop
    | Drop(id: JobId)

  /**
    `ended` lists the jobs in the order in which they left the running phase, and
    `stoppedEarly` holds the jobs that were active when a stop arrived before their
    task's start check.  Both only record history.
  */
  datatype System = System(
    reg: RegistryState,
    task: map<JobId, TaskPc>,
    starter: map<JobId, StarterPc>,
    ended: seq<JobId>,
    stoppedEarly: set<JobId>)
  {
    predicate TaskAt(id: JobId, pc: TaskPc) {
      id in task && task[id] == pc
    }

    predicate StarterAt(id: JobId, pc: StarterPc) {
      id in starter && starter[id] == pc
    }

    predicate BeforeStartCheck(id: JobId) {
      TaskAt(id, NotSpawned) || TaskAt(id, Spawned)
    }

    /** The task is past its start check, has not exited, and has not been aborted. */
    predicate WorksUnaborted(id: JobId) {
      TaskAt(id, Working) && id !in reg.aborted
    }

    /** The system with a new registry value, noting whether `id` has just ended. */
    function WithRegistry(id: JobId, after: RegistryState): System {
      this.(reg := after,
            ended := if reg.IsRunning(id) && !after.IsRunning(id) then ended + [id] else ended)
    }

    function DoStart(kind: Kind): System {
      var (after, claim) := reg.ClaimJob(kind);
      if claim.Ok? then
        this.(reg := after, task := task[claim.value := NotSpawned],
              starter := starter[claim.value := Claimed])
      else
        this.(reg := after)
    }

    function DoSpawn(id: JobId): System {
      if StarterAt(id, Claimed) then
        this.(task := task[id := Spawned], starter := starter[id := HoldsHandle])
      else
        this
    }

    function DoRegister(id: JobId): System {
      if StarterAt(id, HoldsHandle) then
        this.(reg := reg.RegisterAbortHandle(id, id), starter := starter[id := Returned])
      else
        this
    }

    function DoStartCheck(id: JobId): System {
      if TaskAt(id, Spawned) then
        var (after, exit) := reg.TakePendingStop(id);
        WithRegistry(id, after).(task := task[id := if exit then Exited else Working])
      else
        this
    }

    function DoFinish(id: JobId, outcome: Result<Json, string>): System {
      if TaskAt(id, Working) then
        WithRegistry(id, reg.FinishJob(id, outcome)).(task := task[id := Exited])
      else
        this
    }

    function DoStop(): System {
      if reg.active.None? then
        this.(reg := reg.RequestStop())
      else
        var id := reg.active.value;
        WithRegistry(id, reg.RequestStop())
          .(stoppedEarly := if BeforeStartCheck(id) then stoppedEarly + {id} else stoppedEarly)
    }

    function DoDrop(id: JobId): System {
      if id in reg.aborted && (TaskAt(id, Spawned) || TaskAt(id, Working)) then
        this.(task := task[id := Exited])
      else
        this
    }

    function Step(a: Action): System {
      match a
      case Start(kind) => DoStart(kind)
      case Spawn(id) => DoSpawn(id)
      case Register(id) => DoRegister(id)
      case StartCheck(id) => DoStartCheck(id)
      case Finish(id, outcome) => DoFinish(id, outcome)
      case Stop => DoStop()
      case Drop(id) => DoDrop(id)
    }

    function Run(actions: seq<Action>): System
      decreases |actions|
    {
      if actions == [] then this else Step(actions[0]).Run(actions[1..])
    }
  }

  const START := System(EMPTY_REGISTRY, map[], map[], [], {})

  // ---- The inductive invariant ----

  function Remembered(counter: nat): nat {
    if counter < MAX_REMEMBERED_JOBS then counter else MAX_REMEMBERED_JOBS
  }

  /** The result is present exactly when completed, the error exactly when failed or cancelled. */
  predicate Consistent(id: JobId, status: JobStatus) {
    && status.jobId == id
    && (status.result.Some? <==> status.phase.Completed?)
    && (status.error.Some? <==> status.phase.Failed? || status.phase.Cancelled?)
  }

  /** What the registry keeps for one job number: the slot is held exactly by the running job. */
  ghost predicate Entry(r: RegistryState, id: JobId) {
    && (id in r.jobs <==> r.counter - Remembered(r.counter) < id <= r.counter)
    && (id in r.jobs ==> Consistent(id, r.jobs[id].status))
    && (r.IsRunning(id) <==> r.active == Some(id))
    && (id in r.handles ==> r.active == Some(id) && r.handles[id] == id)
    && (id in r.aborted ==> 1 <= id <= r.counter && r.active != Some(id))
  }

  /** The remembered jobs are the last eight claimed, in claim order; the slot can only hold the last. */
  ghost predicate RegistryInv(r: RegistryState) {
    && |r.order| == Remembered(r.counter)
    && (forall i :: 0 <= i < |r.order| ==> r.order[i] == r.counter - |r.order| + 1 + i)
    && (r.active.Some? ==> r.active.value == r.counter)
    && (forall id: JobId :: Entry(r, id))
  }

  /** How far the threads of one job can be, given the registry. */
  ghost predicate Threads(s: System, id: JobId) {
    && (id in s.task <==> 1 <= id <= s.reg.counter)
    && (id in s.starter <==> 1 <= id <= s.reg.counter)
    && (s.TaskAt(id, NotSpawned) <==> s.StarterAt(id, Claimed))
    && (id in s.reg.handles ==> s.StarterAt(id, Returned))
    && (s.reg.active == Some(id) && s.StarterAt(id, Returned) ==> id in s.reg.handles)
    && (s.WorksUnaborted(id) ==> s.reg.active == Some(id))
    && (s.reg.active == Some(id) ==> !s.TaskAt(id, Exited))
    && (id in s.stoppedEarly ==> EarlyStopKept(s, id))
  }

  /** An early stop is not lost: the work has not begun, and the job is cancelled or about to be. */
  ghost predicate EarlyStopKept(s: System, id: JobId) {
    && 1 <= id <= s.reg.counter
    && !s.TaskAt(id, Working)
    && (s.reg.active == Some(id) ==> id in s.reg.jobs && s.reg.jobs[id].stopPending && s.BeforeStartCheck(id))
    && (s.reg.active != Some(id) && id in s.reg.jobs ==> s.reg.jobs[id].status.phase.Cancelled?)
  }

  /** Jobs end in claim order, each once. */
  ghost predicate EndedInOrder(s: System) {
    && |s.ended| == (if s.reg.active.Some? then s.reg.counter - 1 else s.reg.counter)
    && (forall i :: 0 <= i < |s.ended| ==> s.ended[i] == i + 1)
  }

  ghost predicate Inv(s: System) {
    RegistryInv(s.reg) && EndedInOrder(s) && forall id: JobId :: Threads(s, id)
  }

  lemma {:induction false} PruneOnce(r: RegistryState)
    requires |r.order| == MAX_REMEMBERED_JOBS + 1
    requires r.active == Some(r.order[MAX_REMEMBERED_JOBS]) && r.order[0] != r.order[MAX_REMEMBERED_JOBS]
    ensures r.Pruned() == r.(order := r.order[1..], jobs := r.jobs - {r.order[0]},
                             handles := r.handles - {r.order[0]})
  {
    var shorter := r.(order := r.order[1..], jobs := r.jobs - {r.order[0]}, handles := r.handles - {r.order[0]});
    assert shorter.Pruned() == shorter;
  }

  /** Pruning a registry, reachable or not, spares the active job, and stops only at it or at eight jobs. */
  lemma {:induction false} PruningSparesTheActiveJob(r: RegistryState)
    ensures var after := r.Pruned();
            && after.active == r.active
            && (r.active.Some? && r.active.value in r.order ==> r.active.value in after.order)
            && (|after.order| <= 8 || after.active == Some(after.order[0]))
    decreases |r.order|
  {
    if |r.order| > MAX_REMEMBERED_JOBS && r.active != Some(r.order[0]) {
      var oldest := r.order[0];
      assert r.order == [oldest] + r.order[1..];
      PruningSparesTheActiveJob(r.(order := r.order[1..], jobs := r.jobs - {oldest}, handles := r.handles - {oldest}));
    }
  }

  /** A claim on a free slot keeps what it remembers, except the job that falls out of the window. */
  lemma ClaimOnFreeSlot(r: RegistryState, kind: Kind)
    requires RegistryInv(r) && r.active.None?
    ensures var id := r.counter + 1;
            var (after, claim) := r.ClaimJob(kind);
            var recorded := r.jobs[id := FreshRecord(id, kind)];
            claim == Ok(id)
            && after == if |r.order| < MAX_REMEMBERED_JOBS
                        then r.(jobs := recorded, order := r.order + [id], active := Some(id), counter := id)
                        else r.(jobs := recorded - {r.order[0]}, order := r.order[1..] + [id],
                                active := Some(id), counter := id)
  {
    var id := r.counter + 1;
    var claimed := r.(jobs := r.jobs[id := FreshRecord(id, kind)], order := r.order + [id],
                      active := Some(id), counter := id);
    if |r.order| == MAX_REMEMBERED_JOBS {
      PruneOnce(claimed);
      assert claimed.order[1..] == r.order[1..] + [id];
      assert forall id: JobId :: id in r.handles ==> Entry(r, id);
      assert r.handles == map[];
      assert claimed.handles - {r.order[0]} == claimed.handles;
    }
  }

  /** While a job runs, a claim changes nothing and names that job; the branch for a stale slot is dead. */
  lemma ClaimOnTakenSlot(r: RegistryState, kind: Kind)
    requires RegistryInv(r) && r.active.Some?
    ensures r.IsRunning(r.active.value)
    ensures r.ClaimJob(kind) == (r, Err(Busy(r.active.value, r.jobs[r.active.value].status.kind)))
  {
    assert Entry(r, r.active.value);
  }

  lemma ClaimOnFreeSlotKeepsInv(r: RegistryState, kind: Kind)
    requires RegistryInv(r) && r.active.None?
    ensures RegistryInv(r.ClaimJob(kind).0)
  {
    ClaimOnFreeSlot(r, kind);
    var after := r.ClaimJob(kind).0;
    forall id: JobId ensures Entry(after, id) {
      assert Entry(r, id);
    }
  }

  lemma StartKeepsInv(s: System, kind: Kind)
    requires Inv(s)
    ensures Inv(s.DoStart(kind))
  {
    if s.reg.active.Some? {
      ClaimOnTakenSlot(s.reg, kind);
    } else {
      ClaimOnFreeSlot(s.reg, kind);
      ClaimOnFreeSlotKeepsInv(s.reg, kind);
      var after := s.DoStart(kind);
      forall j: JobId
        ensures Threads(after, j)
      {
        assert Entry(s.reg, j) && Threads(s, j);
      }
    }
  }

  lemma SpawnKeepsInv(s: System, id: JobId)
    requires Inv(s)
    ensures Inv(s.DoSpawn(id))
  {
    var after := s.DoSpawn(id);
    forall j: JobId
      ensures Entry(after.reg, j) && Threads(after, j)
    {
      assert Entry(s.reg, j) && Threads(s, j);
    }
  }

  lemma RegisterKeepsInv(s: System, id: JobId)
    requires Inv(s)
    ensures Inv(s.DoRegister(id))
  {
    var after := s.DoRegister(id);
    forall j: JobId
      ensures Entry(after.reg, j) && Threads(after, j)
    {
      assert Entry(s.reg, j) && Threads(s, j);
    }
  }

  lemma StartCheckKeepsInv(s: System, id: JobId)
    requires Inv(s)
    ensures Inv(s.DoStartCheck(id))
  {
    var after := s.DoStartCheck(id);
    assert Entry(s.reg, id) && Threads(s, id);
    forall j: JobId
      ensures Entry(after.reg, j) && Threads(after, j)
    {
      assert Entry(s.reg, j) && Threads(s, j);
    }
  }

  lemma FinishKeepsInv(s: System, id: JobId, outcome: Result<Json, string>)
    requires Inv(s)
    ensures Inv(s.DoFinish(id, outcome))
  {
    var after := s.DoFinish(id, outcome);
    assert Entry(s.reg, id) && Threads(s, id);
    forall j: JobId
      ensures Entry(after.reg, j) && Threads(after, j)
    {
      assert Entry(s.reg, j) && Threads(s, j);
    }
  }

  lemma StopKeepsInv(s: System)
    requires Inv(s)
    ensures Inv(s.DoStop())
  {
    var after := s.DoStop();
    if s.reg.active.Some? {
      assert Entry(s.reg, s.reg.active.value) && Threads(s, s.reg.active.value);
    }
    forall j: JobId
      ensures Entry(after.reg, j) && Threads(after, j)
    {
      assert Entry(s.reg, j) && Threads(s, j);
    }
  }

  lemma DropKeepsInv(s: System, id: JobId)
    requires Inv(s)
    ensures Inv(s.DoDrop(id))
  {
    var after := s.DoDrop(id);
    forall j: JobId
      ensures Entry(after.reg, j) && Threads(after, j)
    {
      assert Entry(s.reg, j) && Threads(s, j);
    }
  }

  lemma StepKeepsInv(s: System, a: Action)
    requires Inv(s)
    ensures Inv(s.Step(a))
  {
    match a
    case Start(kind) => StartKeepsInv(s, kind);
    case Spawn(id) => SpawnKeepsInv(s, id);
    case Register(id) => RegisterKeepsInv(s, id);
    case StartCheck(id) => StartCheckKeepsInv(s, id);
    case Finish(id, outcome) => FinishKeepsInv(s, id, outcome);
    case Stop => StopKeepsInv(s);
    case Drop(id) => DropKeepsInv(s, id);
  }

  lemma {:induction false} RunKeepsInv(s: System, actions: seq<Action>)
    requires Inv(s)
    ensures Inv(s.Run(actions))
    decreases |actions|
  {
    if actions != [] {
      StepKeepsInv(s, actions[0]);
      RunKeepsInv(s.Step(actions[0]), actions[1..]);
    }
  }

  lemma {:induction false} Reachable(actions: seq<Action>)
    ensures Inv(START.Run(actions))
  {
    RunKeepsInv(START, actions);
  }

  // ---- What the invariant means for every run ----

  /**
    At every moment of every run: the slot names exactly the running job, at most one
    job runs, abort handles belong to it only, and the registry remembers exactly the
    jobs in `order`, at most eight, in increasing number.
  */
  lemma {:induction false} SlotIsTheRunningJob(actions: seq<Action>)
    ensures var r := START.Run(actions).reg;
            && (forall id: JobId :: r.active == Some(id) <==> r.IsRunning(id))
            && (forall a: JobId, b: JobId :: r.IsRunning(a) && r.IsRunning(b) ==> a == b)
            && (forall id: JobId :: id in r.handles ==> r.IsRunning(id) && r.handles[id] == id)
            && (forall id: JobId :: id in r.jobs <==> id in r.order)
            && (forall i, j :: 0 <= i < j < |r.order| ==> r.order[i] < r.order[j])
            && |r.order| <= MAX_REMEMBERED_JOBS
            && (forall id: JobId :: id in r.jobs ==> Consistent(id, r.jobs[id].status))
  {
    Reachable(actions);
    var r := START.Run(actions).reg;
    forall id: JobId
      ensures r.active == Some(id) <==> r.IsRunning(id)
      ensures id in r.handles ==> r.IsRunning(id) && r.handles[id] == id
      ensures id in r.jobs <==> id in r.order
      ensures id in r.jobs ==> Consistent(id, r.jobs[id].status)
    {
      assert Entry(r, id);
      if id in r.jobs {
        assert r.order[id - (r.counter - |r.order| + 1)] == id;
      }
    }
  }

  /**
    A claim at any moment of any run is refused exactly when a job runs, and otherwise takes
    a number larger than that of every job ever claimed: each of them has its task.
  */
  lemma {:induction false} ClaimIsRefusedExactlyWhileRunning(actions: seq<Action>, kind: Kind)
    ensures var s := START.Run(actions);
            var r := s.reg;
            match r.ClaimJob(kind).1
            case Ok(id) => (forall a: JobId :: !r.IsRunning(a)) && (forall a: JobId :: a in r.jobs || a in s.task ==> a < id)
            case Err(busy) => r.IsRunning(busy.jobId) && r.jobs[busy.jobId].status.kind == busy.kind
                              && r.ClaimJob(kind).0 == r
  {
    Reachable(actions);
    var s := START.Run(actions);
    var r := s.reg;
    if r.active.Some? {
      ClaimOnTakenSlot(r, kind);
    } else {
      ClaimOnFreeSlot(r, kind);
      forall a: JobId
        ensures !r.IsRunning(a) && (a in r.jobs || a in s.task ==> a < r.counter + 1)
      {
        assert Entry(r, a) && Threads(s, a);
      }
    }
  }

  /** Two tasks that have not been aborted are never both at work, and the one at work owns the slot. */
  lemma {:induction false} WorkIsExclusive(actions: seq<Action>, a: JobId, b: JobId)
    ensures var s := START.Run(actions);
            s.WorksUnaborted(a) ==> s.reg.IsRunning(a) && (s.WorksUnaborted(b) ==> a == b)
  {
    Reachable(actions);
    var s := START.Run(actions);
    assert Threads(s, a) && Threads(s, b) && Entry(s.reg, a);
  }

  /** The name under which a kind of job reports its progress, and its first message. */
  function TaskName(kind: Kind): string {
    if kind == AdultMetadata then "adult_metadata_gather" else "library_enrichment"
  }

  function FirstMessage(kind: Kind): string {
    "Starting " + (if kind == AdultMetadata then "adult metadata gather" else "library enrichment") + "..."
  }

  lemma FirstMessageStarts(kind: Kind)
    ensures kind.StartingMessage() == FirstMessage(kind)
  {
    assert FirstMessage(AdultMetadata) == "Starting adult metadata gather...";
    assert FirstMessage(LibraryEnrichment) == "Starting library enrichment...";
  }

  lemma ClaimRecords(r: RegistryState, kind: Kind)
    requires RegistryInv(r) && r.active.None?
    ensures var id, after := r.counter + 1, r.ClaimJob(kind).0;
            after.active == Some(id) && id in after.jobs && after.jobs[id] == FreshRecord(id, kind)
  {
    ClaimOnFreeSlot(r, kind);
  }

  /** A claimed job starts out running, of the kind that was claimed, without progress, outcome or stop. */
  lemma {:induction false} ClaimedJobIsFresh(actions: seq<Action>, kind: Kind)
    requires START.Run(actions).reg.active.None?
    ensures var after := START.Run(actions).Step(Start(kind)).reg;
            && after.active.Some? && after.active.value in after.jobs
            && var record := after.jobs[after.active.value];
               record.status == JobStatus(after.active.value, kind, Running, 0, 0, 0, FirstMessage(kind), None, None)
               && !record.stopPending
  {
    Reachable(actions);
    ClaimRecords(START.Run(actions).reg, kind);
    FirstMessageStarts(kind);
  }

  // ---- Terminal states ----

  /** `later` shows the job as `now` does, or has forgotten it. */
  predicate KeepsVerdict(now: RegistryState, later: RegistryState, id: JobId) {
    id in later.jobs ==> id in now.jobs && later.jobs[id].status == now.jobs[id].status
  }

  lemma StepKeepsVerdict(s: System, a: Action, id: JobId)
    requires Inv(s) && 1 <= id <= s.reg.counter && !s.reg.IsRunning(id)
    ensures var t := s.Step(a);
            s.reg.counter <= t.reg.counter && !t.reg.IsRunning(id) && KeepsVerdict(s.reg, t.reg, id)
  {
    assert Entry(s.reg, id);
    if s.reg.active.Some? {
      assert Entry(s.reg, s.reg.active.value);
    }
    match a
    case Start(kind) =>
      if s.reg.active.Some? {
        ClaimOnTakenSlot(s.reg, kind);
      } else {
        ClaimOnFreeSlot(s.reg, kind);
      }
    case _ =>
  }

  /**
    The first of finish, stop and pending stop to reach a job fixes its status, result
    and error: whatever happens afterwards, the job shows exactly that until it is
    pruned, and a pruned job never comes back.
  */
  lemma {:induction false} TerminalStatesAbsorb(s: System, more: seq<Action>, id: JobId)
    requires Inv(s) && 1 <= id <= s.reg.counter && !s.reg.IsRunning(id)
    ensures !s.Run(more).reg.IsRunning(id) && KeepsVerdict(s.reg, s.Run(more).reg, id)
    decreases |more|
  {
    if more != [] {
      StepKeepsInv(s, more[0]);
      StepKeepsVerdict(s, more[0], id);
      TerminalStatesAbsorb(s.Step(more[0]), more[1..], id);
    }
  }

  /** The status says what the work came to. */
  predicate Shows(status: JobStatus, outcome: Result<Json, string>) {
    match outcome
    case Ok(report) =>
      && status.phase.Completed? && status.percent == 100 && status.result == Some(report) && status.error.None?
      && status.message == "Enrichment job complete"
    case Err(reason) =>
      && status.phase.Failed? && status.error == Some(reason) && status.result.None?
      && status.message == "Enrichment job failed: " + reason
  }

  /** Work that ends while its job still runs frees the slot, and its outcome is what every later poll finds. */
  lemma {:induction false} FinishedWorkKeepsItsOutcome(
    actions: seq<Action>, id: JobId, outcome: Result<Json, string>, more: seq<Action>)
    requires var s := START.Run(actions); s.reg.active == Some(id) && s.TaskAt(id, Working)
    ensures var finished := START.Run(actions).Step(Finish(id, outcome));
            var later := finished.Run(more).reg;
            finished.reg.active.None? && (id in later.jobs ==> Shows(later.jobs[id].status, outcome))
  {
    var s := START.Run(actions);
    Reachable(actions);
    assert Entry(s.reg, id);
    StepKeepsInv(s, Finish(id, outcome));
    TerminalStatesAbsorb(s.Step(Finish(id, outcome)), more, id);
  }

  // ---- Stops ----

  lemma {:induction false} EarlyStopsAreRemembered(s: System, more: seq<Action>, id: JobId)
    requires id in s.stoppedEarly
    ensures id in s.Run(more).stoppedEarly
    decreases |more|
  {
    if more != [] {
      EarlyStopsAreRemembered(s.Step(more[0]), more[1..], id);
    }
  }

  /** The job has finished its work and its outcome stands, in spite of any stop. */
  predicate OutcomeStands(r: RegistryState, id: JobId) {
    id in r.jobs && (r.jobs[id].status.phase.Completed? || r.jobs[id].status.phase.Failed?)
  }

  /**
    A stop that lands before the task's start check always wins, in whatever order the
    handle registration, further stops and the start check follow: the work never
    begins, and once the task is gone the job shows as cancelled.
  */
  lemma {:induction false} EarlyStopWins(before: seq<Action>, more: seq<Action>, id: JobId)
    requires var s := START.Run(before); s.reg.active == Some(id) && s.BeforeStartCheck(id)
    ensures var t := START.Run(before).Step(Stop).Run(more);
            && !t.TaskAt(id, Working)
            && !OutcomeStands(t.reg, id)
            && (t.TaskAt(id, Exited) && id in t.reg.jobs ==> t.reg.jobs[id].status.phase.Cancelled?)
  {
    var s := START.Run(before);
    Reachable(before);
    StepKeepsInv(s, Stop);
    EarlyStopsAreRemembered(s.Step(Stop), more, id);
    RunKeepsInv(s.Step(Stop), more);
    var t := s.Step(Stop).Run(more);
    assert Threads(t, id) && Entry(t.reg, id);
  }

  /**
    Once the starter has registered the handle of the running job, a stop takes effect at
    once: it frees the slot, aborts the task and shows the job as cancelled.
  */
  lemma {:induction false} RegisteredStopCancels(actions: seq<Action>, id: JobId)
    requires var s := START.Run(actions); s.reg.active == Some(id) && s.StarterAt(id, Returned)
    ensures START.Run(actions).reg.handles == map[id := id]
    ensures var after := START.Run(actions).Step(Stop).reg;
            && after.active.None? && after.handles == map[] && id in after.aborted && id in after.jobs
            && after.jobs[id].status.phase.Cancelled? && after.jobs[id].status.error == Some("Stopped by user")
            && after.jobs[id].status.message == "Stopped by user"
  {
    Reachable(actions);
    var s := START.Run(actions);
    assert Threads(s, id) && Entry(s.reg, id);
    assert forall other: JobId :: other in s.reg.handles ==> Entry(s.reg, other);
    assert s.reg.handles == map[id := id];
    assert s.Step(Stop).reg.handles == map[];
  }

  /** Before that a stop is only noted, with the running job. */
  lemma {:induction false} EarlierStopIsNoted(actions: seq<Action>, id: JobId)
    requires var s := START.Run(actions); s.reg.active == Some(id) && !s.StarterAt(id, Returned)
    ensures var r := START.Run(actions).reg;
            id in r.jobs
            && START.Run(actions).Step(Stop).reg == r.(jobs := r.jobs[id := JobRecord(r.jobs[id].status, true)])
  {
    Reachable(actions);
    var s := START.Run(actions);
    assert Threads(s, id) && Entry(s.reg, id);
  }

  /**
    What the start check decides.  A task whose job runs without a stop goes to work, and
    nothing else changes; a noted stop cancels the job, frees the slot and ends the task; the
    task of any other job ends.
  */
  lemma {:induction false} StartCheckDecides(actions: seq<Action>, id: JobId)
    requires START.Run(actions).TaskAt(id, Spawned)
    ensures var s := START.Run(actions);
            var t := s.Step(StartCheck(id));
            if s.reg.active != Some(id) then
              t.TaskAt(id, Exited) && t.reg == s.reg
            else
              && id in s.reg.jobs && id in t.reg.jobs
              && if s.reg.jobs[id].stopPending then
                   && t.TaskAt(id, Exited) && t.reg.active.None? && id !in t.reg.handles
                   && t.reg.jobs[id].status.phase.Cancelled? && t.reg.jobs[id].status.error == Some("Stopped by user")
                   && t.reg.jobs[id].status.message == "Stopped by user before the job started"
                 else
                   t.TaskAt(id, Working) && t.reg == s.reg
  {
    Reachable(actions);
    assert Entry(START.Run(actions).reg, id);
  }

  /** A job is reported as active exactly while one runs. */
  lemma {:induction false} ActiveExactlyWhileRunning(actions: seq<Action>)
    ensures var r := START.Run(actions).reg;
            r.ActiveJobRunning() <==> exists id: JobId :: r.IsRunning(id)
  {
    SlotIsTheRunningJob(actions);
    var r := START.Run(actions).reg;
    if id: JobId :| r.IsRunning(id) {
      assert r.active == Some(id);
    }
  }

  /** A stop now, and then these actions, leave the job with an outcome of its own. */
  predicate StandsAfterStop(s: System, id: JobId, more: seq<Action>) {
    OutcomeStands(s.Step(Stop).Run(more).reg, id)
  }

  lemma {:induction false} HonouredStop(actions: seq<Action>, id: JobId, more: seq<Action>)
    requires var s := START.Run(actions);
             s.reg.active == Some(id) && (s.StarterAt(id, Returned) || s.BeforeStartCheck(id))
    ensures !StandsAfterStop(START.Run(actions), id, more)
  {
    var s := START.Run(actions);
    Reachable(actions);
    if s.BeforeStartCheck(id) {
      EarlyStopWins(actions, more, id);
    } else {
      RegisteredStopCancels(actions, id);
      assert Entry(s.reg, id);
      StepKeepsInv(s, Stop);
      TerminalStatesAbsorb(s.Step(Stop), more, id);
    }
  }

  lemma LostStop(s: System, id: JobId)
    requires Inv(s) && s.reg.active == Some(id) && !s.StarterAt(id, Returned) && !s.BeforeStartCheck(id)
    ensures StandsAfterStop(s, id, [Finish(id, Ok("{}"))])
  {
    assert Threads(s, id) && Entry(s.reg, id);
    var stopped, finish := s.Step(Stop), Finish(id, Ok("{}"));
    assert stopped.TaskAt(id, Working) && stopped.reg.IsRunning(id);
    assert stopped.Run([finish]) == stopped.Step(finish).Run([]);
  }

  /**
    Exactly which stops are honoured.  A stop of the running job prevents every later
    completion or failure if and only if the starter has registered the abort handle or the
    task has not made its start check.  Between the start check and the registration the
    stop only sets a flag that nobody reads again.
  */
  lemma {:induction false} StopIsHonouredExactlyWhen(actions: seq<Action>, id: JobId)
    requires START.Run(actions).reg.active == Some(id)
    ensures var s := START.Run(actions);
            (forall more: seq<Action> :: !StandsAfterStop(s, id, more))
            <==> s.StarterAt(id, Returned) || s.BeforeStartCheck(id)
  {
    var s := START.Run(actions);
    if s.StarterAt(id, Returned) || s.BeforeStartCheck(id) {
      forall more: seq<Action> ensures !StandsAfterStop(s, id, more) {
        HonouredStop(actions, id, more);
      }
    } else {
      Reachable(actions);
      LostStop(s, id);
    }
  }

  /** The start of a job whose starter has not come to registering the handle when its task begins to work. */
  function EarlyWork(kind: Kind): seq<Action> {
    [Start(kind), Spawn(1), StartCheck(1)]
  }

  lemma EarlyWorkRuns(kind: Kind)
    ensures var s := START.Run(EarlyWork(kind));
            && s.reg.active == Some(1) && s.TaskAt(1, Working)
            && s.reg.handles == map[] && s.StarterAt(1, HoldsHandle)
  {
    var claimed := START.Step(Start(kind));
    ClaimOnFreeSlot(EMPTY_REGISTRY, kind) by { EmptyRegistryIsValid(); }
    var spawned := claimed.Step(Spawn(1));
    assert EarlyWork(kind)[1..] == [Spawn(1), StartCheck(1)] && [Spawn(1), StartCheck(1)][1..] == [StartCheck(1)];
    assert spawned.Run([StartCheck(1)]) == spawned.Step(StartCheck(1)).Run([]);
    assert claimed.Run([Spawn(1), StartCheck(1)]) == spawned.Run([StartCheck(1)]);
  }

  lemma EmptyRegistryIsValid()
    ensures RegistryInv(EMPTY_REGISTRY)
  {
  }

  /**
    Stops do get lost: in the run that starts a job and lets its task pass the start check
    before the handle is registered, a stop only sets the flag, and the work then completes.
  */
  lemma AStopCanBeLost(kind: Kind)
    ensures var s := START.Run(EarlyWork(kind));
            && s.reg.active == Some(1) && !s.StarterAt(1, Returned) && !s.BeforeStartCheck(1)
            && s.Step(Stop).reg.IsRunning(1) && s.Step(Stop).reg.jobs[1].stopPending
            && StandsAfterStop(s, 1, [Finish(1, Ok("{}"))])
  {
    EarlyWorkRuns(kind);
    Reachable(EarlyWork(kind));
    var s := START.Run(EarlyWork(kind));
    assert Entry(s.reg, 1);
    LostStop(s, 1);
  }

  // ---- Order and polling ----

  /** Jobs leave the running phase in the order in which they were claimed, each exactly once. */
  lemma {:induction false} JobsEndInClaimOrder(actions: seq<Action>, i: nat)
    requires i < |START.Run(actions).ended|
    ensures var s := START.Run(actions);
            s.ended[i] == i + 1 && !s.reg.IsRunning(i + 1)
            && s.reg.counter == |s.ended| + (if s.reg.active.Some? then 1 else 0)
  {
    Reachable(actions);
    assert Entry(START.Run(actions).reg, i + 1);
  }

  /**
    A poll without an id returns the running job, else the job that ended last, and is
    idle only if nothing was ever claimed.
  */
  lemma {:induction false} PollWithoutIdIsTheLatestJob(actions: seq<Action>, progress: Progress)
    ensures var s := START.Run(actions);
            match s.reg.Poll(None, progress)
            case Idle => s.reg.counter == 0 && s.ended == []
            case Known(status) =>
              if s.reg.ActiveJobRunning() then
                status.phase.Running? && s.reg.IsRunning(status.jobId)
              else
                s.ended != [] && s.ended[|s.ended| - 1] in s.reg.jobs
                && status == s.reg.jobs[s.ended[|s.ended| - 1]].status
  {
    Reachable(actions);
    var s := START.Run(actions);
    assert Entry(s.reg, s.reg.counter);
  }

  /** What a poll shows of a recorded status: live progress over it while its own task reports some. */
  predicate Polled(shown: JobStatus, recorded: JobStatus, progress: Progress) {
    if recorded.phase.Running? && progress.active && progress.task == TaskName(recorded.kind) then
      && (shown.current, shown.total, shown.percent, shown.message)
         == (progress.current, progress.total, progress.percent, progress.message)
      && (shown.jobId, shown.kind, shown.phase) == (recorded.jobId, recorded.kind, recorded.phase)
      && shown.result.None? && shown.error.None?
    else
      shown == recorded
  }

  /** A poll by id is idle exactly when the id is not among the last eight claimed, whatever else is remembered. */
  lemma {:induction false} PollByIdKnowsTheLastEight(actions: seq<Action>, id: JobId, progress: Progress)
    ensures var r := START.Run(actions).reg;
            var reply := r.Poll(Some(id), progress);
            match reply
            case Idle => id == 0 || id > r.counter || id + MAX_REMEMBERED_JOBS <= r.counter
            case Known(status) => 1 <= id <= r.counter < id + MAX_REMEMBERED_JOBS && status.jobId == id
                                  && id in r.jobs && Polled(status, r.jobs[id].status, progress)
  {
    Reachable(actions);
    assert Entry(START.Run(actions).reg, id);
  }

  // ---- Progress ----

  /** The slot never leaks: from every reachable state with a running job, some schedule ends that job. */
  lemma SlotCanBeFreed(actions: seq<Action>, id: JobId) returns (rest: seq<Action>)
    requires START.Run(actions).reg.active == Some(id)
    ensures START.Run(actions).Run(rest).reg.active.None?
  {
    var s := START.Run(actions);
    Reachable(actions);
    assert Threads(s, id) && Entry(s.reg, id);
    rest := [Spawn(id), StartCheck(id), Finish(id, Ok("{}"))];
    var s1 := s.Step(rest[0]);
    var s2 := s1.Step(rest[1]);
    assert s.Run(rest) == s1.Run(rest[1..]) == s2.Run(rest[1..][1..]);
    assert rest[1..][1..] == [rest[2]];
    assert s2.Run([rest[2]]) == s2.Step(rest[2]).Run([]);
  }
}
