/**
  The build runner as interleaved steps: submissions against one lock, the worker
  thread's individual assignments, the success callback that arms reboots machine by
  machine, and a clock that may advance anywhere in between.
*/
module BuildRunner {
  import opened Architectures
  import opened ProfileTree
  import opened BuildCascade
  import opened Options

  type Mac = string

  datatype JobState = Queued | Running | Succeeded | Failed | Skipped

  // `calls` and `callsEnded` count the runs of the success callback and `lead` is the
  // first job of the submission this job belongs to; the rest are the job's own fields.
  datatype Job = Job(
    profile: Name, architecture: string, autoReboot: bool, cascadeRoot: Option<Name>,
    state: JobState, startedAt: Option<int>, finishedAt: Option<int>, exitCode: Option<int>,
    autoRebootArmed: Option<nat>,
    lead: nat, calls: nat, callsEnded: nat)

  datatype Machine = Machine(profile: Name, architecture: string, pending: bool)

  // What was asked for: one profile, or a profile and everything downstream of it. The
  // list of builds is computed once, when the lock has been acquired.
  datatype Submission = Submission(
    profiles: Option<Tree>, root: Name, downstream: bool, architecture: string, autoReboot: bool,
    first: nat, plan: seq<Name>)

  // Where the holder of the running lock stands. `Working` runs jobs[first..], one after
  // another; everything before `at` is done.
  datatype Worker =
    | Idle
    | Creating(submission: Submission)
    | Working(first: nat, at: nat, phase: Phase)

  datatype Phase =
    | Begin
    | MarkedRunning
    | Building
    | Exited(outcome: JobState)
    | Sweeping(todo: set<Mac>, armed: nat)
    | Recording(outcome: JobState)
    | Publishing(outcome: JobState)
    | MarkedSkipped

  datatype State = State(
    hasCallback: bool, clock: int, jobs: seq<Job>, worker: Worker,
    machines: map<Mac, Machine>, submissions: seq<Submission>)

  datatype Step =
    | Submit(submission: Submission)
    | CreateJob
    | Spawn
    | MarkRunning
    | StampStart
    | BuildExits(code: int)
    | BuildCrashes
    | SkipCallback
    | CallbackStarts
    | ArmMachine(mac: Mac)
    | CallbackReturns
    | CallbackRaises
    | StampFinish
    | Publish
    | MarkSkipped
    | StampSkipped
    | ReleaseLock
    | Tick(elapsed: nat)

  // ---- The fleet sweep ---------------------------------------------------------

  predicate Matches(m: Machine, job: Job) {
    m.profile == job.profile && m.architecture in ArchitectureAliases(job.architecture)
  }

  function Matching(machines: map<Mac, Machine>, job: Job): set<Mac> {
    set mac | mac in machines && Matches(machines[mac], job)
  }

  // The job rebuilt the image the machine boots.
  ghost predicate MeantFor(m: Machine, job: Job) {
    m.profile == job.profile && SameArchitecture(m.architecture, job.architecture)
  }

  lemma MatchesIff(m: Machine, job: Job)
    ensures Matches(m, job) <==> MeantFor(m, job)
  {
    AliasesAre(m.architecture, job.architecture);
  }

  // ---- Steps -----------------------------------------------------------------

  ghost predicate Planned(submission: Submission) {
    submission.plan ==
      if submission.downstream && submission.profiles.Some? then
        CascadeOrder(submission.profiles.value, submission.root)
      else
        [submission.root]
  }

  function NewJob(submission: Submission, i: nat): Job
    requires i < |submission.plan|
  {
    Job(submission.plan[i], submission.architecture, submission.autoReboot,
        if |submission.plan| > 1 then Some(submission.root) else None,
        Queued, None, None, None, None, submission.first, 0, 0)
  }

  // What a job of the submission says while it waits.
  ghost predicate QueuedFor(job: Job, submission: Submission, i: nat) {
    && i < |submission.plan| && job.profile == submission.plan[i]
    && job.architecture == submission.architecture && job.autoReboot == submission.autoReboot
    && job.cascadeRoot == (if |submission.plan| == 1 then None else Some(submission.root))
    && job.state.Queued? && job.startedAt.None? && job.finishedAt.None? && job.exitCode.None? && job.autoRebootArmed.None?
  }

  // The jobs from the submission's first on are its own, as far as they go.
  ghost predicate QueueOf(jobs: seq<Job>, submission: Submission) {
    && submission.first <= |jobs| <= submission.first + |submission.plan|
    && forall j :: submission.first <= j < |jobs| ==> QueuedFor(jobs[j], submission, j - submission.first)
  }

  lemma QueueSnoc(jobs: seq<Job>, submission: Submission)
    requires QueueOf(jobs, submission) && |jobs| < submission.first + |submission.plan|
    ensures QueueOf(jobs + [NewJob(submission, |jobs| - submission.first)], submission)
  {
  }

  // The worker is at a job and `phase` is where it stands in it.
  ghost predicate At(s: State, phase: Phase) {
    s.worker.Working? && s.worker.at < |s.jobs| && s.worker.phase == phase
  }

  ghost predicate Terminal(job: Job) {
    job.state.Succeeded? || job.state.Failed? || job.state.Skipped?
  }

  // `root_ok`: the worker decides to skip by the state its first job ended in.
  ghost predicate RootFailed(s: State)
    requires s.worker.Working? && s.worker.first < |s.jobs|
  {
    s.worker.at > s.worker.first && s.jobs[s.worker.first].state != Succeeded
  }

  ghost predicate Enabled(s: State, step: Step) {
    match step
    case Submit(submission) => s.worker.Idle? && submission.first == |s.jobs| && Planned(submission)
    case CreateJob =>
      s.worker.Creating? && s.worker.submission.first <= |s.jobs|
      && |s.jobs| < s.worker.submission.first + |s.worker.submission.plan|
    case Spawn =>
      s.worker.Creating? && |s.jobs| == s.worker.submission.first + |s.worker.submission.plan|
    case MarkRunning => At(s, Begin) && s.worker.first < |s.jobs| && !RootFailed(s)
    case StampStart => At(s, MarkedRunning)
    case BuildExits(_) => At(s, Building)
    case BuildCrashes => At(s, Building)
    case SkipCallback =>
      s.worker.Working? && s.worker.at < |s.jobs| && s.worker.phase.Exited?
      && !(s.worker.phase.outcome.Succeeded? && s.hasCallback)
    case CallbackStarts =>
      s.worker.Working? && s.worker.at < |s.jobs| && s.worker.phase.Exited?
      && s.worker.phase.outcome.Succeeded? && s.hasCallback
    case ArmMachine(mac) =>
      s.worker.Working? && s.worker.at < |s.jobs| && s.worker.phase.Sweeping?
      && mac in s.worker.phase.todo && mac in s.machines
    case CallbackReturns =>
      s.worker.Working? && s.worker.at < |s.jobs| && s.worker.phase.Sweeping? && s.worker.phase.todo == {}
    case CallbackRaises => s.worker.Working? && s.worker.at < |s.jobs| && s.worker.phase.Sweeping?
    case StampFinish => s.worker.Working? && s.worker.at < |s.jobs| && s.worker.phase.Recording?
    case Publish => s.worker.Working? && s.worker.at < |s.jobs| && s.worker.phase.Publishing?
    case MarkSkipped => At(s, Begin) && s.worker.first < |s.jobs| && RootFailed(s)
    case StampSkipped => At(s, MarkedSkipped)
    case ReleaseLock => s.worker.Working? && s.worker.at == |s.jobs|
    case Tick(_) => true
  }

  // The job the worker is at becomes `job`; the worker moves on to `phase`.
  ghost function Update(s: State, job: Job, phase: Phase): State
    requires s.worker.Working? && s.worker.at < |s.jobs|
  {
    s.(jobs := s.jobs[s.worker.at := job], worker := s.worker.(phase := phase))
  }

  // The job the worker is at becomes `job`, which ends it.
  ghost function Advance(s: State, job: Job): State
    requires s.worker.Working? && s.worker.at < |s.jobs|
  {
    s.(jobs := s.jobs[s.worker.at := job], worker := s.worker.(at := s.worker.at + 1, phase := Begin))
  }

  ghost function Next(s: State, step: Step): State
    requires Enabled(s, step)
  {
    match step
    case Submit(submission) =>
      s.(worker := Creating(submission), submissions := s.submissions + [submission])
    case CreateJob =>
      s.(jobs := s.jobs + [NewJob(s.worker.submission, |s.jobs| - s.worker.submission.first)])
    case Spawn =>
      s.(worker := Working(s.worker.submission.first, s.worker.submission.first, Begin))
    case MarkRunning =>
      Update(s, s.jobs[s.worker.at].(state := Running), MarkedRunning)
    case StampStart =>
      Update(s, s.jobs[s.worker.at].(startedAt := Some(s.clock)), Building)
    case BuildExits(code) =>
      Update(s, s.jobs[s.worker.at].(exitCode := Some(code)), Exited(if code == 0 then Succeeded else Failed))
    case BuildCrashes =>
      Update(s, s.jobs[s.worker.at].(exitCode := Some(-1)), Exited(Failed))
    case SkipCallback =>
      Update(s, s.jobs[s.worker.at], Recording(s.worker.phase.outcome))
    case CallbackStarts =>
      var job := s.jobs[s.worker.at];
      Update(s, job.(calls := job.calls + 1),
             Sweeping(if job.autoReboot then Matching(s.machines, job) else {}, 0))
    case ArmMachine(mac) =>
      Update(s, s.jobs[s.worker.at], Sweeping(s.worker.phase.todo - {mac}, s.worker.phase.armed + 1))
      .(machines := s.machines[mac := s.machines[mac].(pending := true)])
    case CallbackReturns =>
      var job := s.jobs[s.worker.at];
      Update(s, job.(callsEnded := job.callsEnded + 1,
                     autoRebootArmed := if job.autoReboot then Some(s.worker.phase.armed) else job.autoRebootArmed),
             Recording(Succeeded))
    case CallbackRaises =>
      var job := s.jobs[s.worker.at];
      Update(s, job.(callsEnded := job.callsEnded + 1), Recording(Succeeded))
    case StampFinish =>
      Update(s, s.jobs[s.worker.at].(finishedAt := Some(s.clock)), Publishing(s.worker.phase.outcome))
    case Publish =>
      Advance(s, s.jobs[s.worker.at].(state := s.worker.phase.outcome))
    case MarkSkipped =>
      Update(s, s.jobs[s.worker.at].(state := Skipped), MarkedSkipped)
    case StampSkipped =>
      Advance(s, s.jobs[s.worker.at].(finishedAt := Some(s.clock)))
    case ReleaseLock => s.(worker := Idle)
    case Tick(elapsed) => s.(clock := s.clock + elapsed)
  }

  // ---- The invariant ---------------------------------------------------------

  ghost predicate Fresh(job: Job) {
    && job.state.Queued? && job.startedAt.None? && job.finishedAt.None? && job.exitCode.None?
    && job.autoRebootArmed.None? && job.calls == 0 && job.callsEnded == 0
  }

  // A job that will never run again, with everything a poller may rely on.
  ghost predicate Finished(hasCallback: bool, job: Job) {
    && job.finishedAt.Some?
    && match job.state
       case Succeeded =>
         && job.startedAt.Some? && job.exitCode == Some(0)
         && job.calls == job.callsEnded == if hasCallback then 1 else 0
       case Failed =>
         && job.startedAt.Some? && job.exitCode.Some? && job.exitCode != Some(0)
         && job.calls == job.callsEnded == 0 && job.autoRebootArmed.None?
       case Skipped =>
         && job.startedAt.None? && job.exitCode.None?
         && job.calls == job.callsEnded == 0 && job.autoRebootArmed.None?
       case _ => false
  }

  // A job is skipped exactly when it is not the first of its submission and the first
  // one did not succeed.
  ghost predicate SkippedRight(jobs: seq<Job>, j: nat)
    requires j < |jobs| && jobs[j].lead <= j
  {
    jobs[j].state.Skipped? <==> jobs[j].lead != j && jobs[jobs[j].lead].state != Succeeded
  }

  // What the fields of the job being worked on look like in each phase.
  ghost predicate InPhase(hasCallback: bool, job: Job, phase: Phase) {
    match phase
    case Begin => Fresh(job)
    case MarkedRunning => Fresh(job.(state := Queued)) && job.state.Running?
    case Building =>
      && job.state.Running? && job.startedAt.Some? && Fresh(job.(state := Queued, startedAt := None))
    case Exited(outcome) =>
      && Ran(job, outcome) && job.finishedAt.None? && job.calls == job.callsEnded == 0 && job.autoRebootArmed.None?
    case Sweeping(_, _) =>
      && Ran(job, Succeeded) && job.finishedAt.None? && hasCallback
      && job.calls == 1 && job.callsEnded == 0 && job.autoRebootArmed.None?
    case Recording(outcome) => Ran(job, outcome) && job.finishedAt.None? && Called(hasCallback, job, outcome)
    case Publishing(outcome) => Ran(job, outcome) && job.finishedAt.Some? && Called(hasCallback, job, outcome)
    case MarkedSkipped => job.state.Skipped? && Fresh(job.(state := Queued))
  }

  ghost predicate Ran(job: Job, outcome: JobState) {
    && job.state.Running? && job.startedAt.Some? && job.exitCode.Some?
    && outcome == if job.exitCode == Some(0) then Succeeded else Failed
  }

  ghost predicate Called(hasCallback: bool, job: Job, outcome: JobState) {
    && job.calls == job.callsEnded == (if outcome.Succeeded? && hasCallback then 1 else 0)
    && (job.autoRebootArmed.Some? ==> outcome.Succeeded?)
  }

  // How many jobs are over and done with.
  ghost function Frontier(s: State): int {
    match s.worker
    case Idle => |s.jobs|
    case Creating(submission) => submission.first
    case Working(_, at, _) => at
  }

  ghost predicate Leads(s: State) {
    && (forall j :: 0 <= j < |s.jobs| ==> s.jobs[j].lead <= j && s.jobs[s.jobs[j].lead].lead == s.jobs[j].lead)
    && match s.worker
       case Idle => true
       case Creating(submission) =>
         && submission.first <= |s.jobs|
         && forall j :: submission.first <= j < |s.jobs| ==> s.jobs[j].lead == submission.first
       case Working(first, at, _) =>
         && first <= at <= |s.jobs| && first < |s.jobs|
         && forall j :: first <= j < |s.jobs| ==> s.jobs[j].lead == first
  }

  ghost predicate Inv(s: State) {
    && Leads(s)
    && (forall j :: 0 <= j < Frontier(s) ==> Finished(s.hasCallback, s.jobs[j]) && SkippedRight(s.jobs, j))
    && (forall j :: Frontier(s) < j < |s.jobs| ==> Fresh(s.jobs[j]))
    && (s.worker.Creating? ==> s.worker.submission.plan != [])
    && (s.worker.Creating? ==> forall j :: Frontier(s) <= j < |s.jobs| ==> Fresh(s.jobs[j]))
    && (s.worker.Working? && s.worker.at < |s.jobs| ==>
          && InPhase(s.hasCallback, s.jobs[s.worker.at], s.worker.phase)
          && (s.worker.phase.MarkedSkipped? ==> RootFailed(s))
          && (!s.worker.phase.MarkedSkipped? && !s.worker.phase.Begin? ==> !RootFailed(s)))
    && (s.worker.Working? && s.worker.at == |s.jobs| ==> s.worker.phase.Begin?)
  }

  lemma PlanIsNotEmpty(submission: Submission)
    requires Planned(submission)
    ensures submission.plan != []
  {
    if submission.downstream && submission.profiles.Some? {
      RootFirst(submission.profiles.value, submission.root);
    }
  }

  lemma InvUpdate(s: State, job: Job, phase: Phase)
    requires Inv(s) && s.worker.Working? && s.worker.at < |s.jobs|
    requires job.lead == s.jobs[s.worker.at].lead && InPhase(s.hasCallback, job, phase)
    requires phase.MarkedSkipped? ==> RootFailed(s)
    requires !phase.MarkedSkipped? ==> !RootFailed(s) && !phase.Begin?
    ensures Inv(Update(s, job, phase))
  {
  }

  lemma InvAdvance(s: State, job: Job)
    requires Inv(s) && s.worker.Working? && s.worker.at < |s.jobs|
    requires job.lead == s.jobs[s.worker.at].lead && Finished(s.hasCallback, job)
    requires job.state.Skipped? <==> RootFailed(s)
    ensures Inv(Advance(s, job))
  {
  }

  lemma InvBuild(s: State, step: Step)
    requires step.MarkRunning? || step.StampStart? || step.BuildExits? || step.BuildCrashes? || step.SkipCallback?
    requires Inv(s) && Enabled(s, step)
    ensures Inv(Next(s, step))
  {
    var s', at := Next(s, step), s.worker.at;
    InvUpdate(s, s'.jobs[at], s'.worker.phase);
    assert s' == Update(s, s'.jobs[at], s'.worker.phase);
  }

  lemma InvFinish(s: State, step: Step)
    requires step.StampFinish? || step.Publish? || step.MarkSkipped? || step.StampSkipped?
    requires Inv(s) && Enabled(s, step)
    ensures Inv(Next(s, step))
  {
    match step
    case StampFinish =>
      InvUpdate(s, s.jobs[s.worker.at].(finishedAt := Some(s.clock)), Publishing(s.worker.phase.outcome));
    case Publish => InvAdvance(s, s.jobs[s.worker.at].(state := s.worker.phase.outcome));
    case MarkSkipped => InvUpdate(s, s.jobs[s.worker.at].(state := Skipped), MarkedSkipped);
    case StampSkipped => InvAdvance(s, s.jobs[s.worker.at].(finishedAt := Some(s.clock)));
  }

  lemma InvSubmit(s: State, step: Step)
    requires step.Submit? || step.Spawn? || step.ReleaseLock? || step.Tick?
    requires Inv(s) && Enabled(s, step)
    ensures Inv(Next(s, step))
  {
    if step.Submit? {
      PlanIsNotEmpty(step.submission);
    }
  }

  lemma InvAppend(s: State, job: Job)
    requires Inv(s) && s.worker.Creating? && Fresh(job) && job.lead == s.worker.submission.first
    ensures Inv(s.(jobs := s.jobs + [job]))
  {
    var s' := s.(jobs := s.jobs + [job]);
    assert forall j :: 0 <= j < |s.jobs| ==> s'.jobs[j] == s.jobs[j];
    assert Leads(s');
    forall j | 0 <= j < Frontier(s')
      ensures Finished(s'.hasCallback, s'.jobs[j]) && SkippedRight(s'.jobs, j)
    {
      assert SkippedRight(s.jobs, j);
    }
  }

  lemma InvCreateJob(s: State)
    requires Inv(s) && Enabled(s, CreateJob)
    ensures Inv(Next(s, CreateJob))
  {
    InvAppend(s, NewJob(s.worker.submission, |s.jobs| - s.worker.submission.first));
  }

  lemma InvCallback(s: State, step: Step)
    requires step.CallbackStarts? || step.ArmMachine? || step.CallbackReturns? || step.CallbackRaises?
    requires Inv(s) && Enabled(s, step)
    ensures Inv(Next(s, step))
  {
    var s', at := Next(s, step), s.worker.at;
    InvUpdate(s, s'.jobs[at], s'.worker.phase);
    assert Inv(s'.(machines := s.machines)) ==> Inv(s');
  }

  // Every step keeps the invariant.
  lemma InvNext(s: State, step: Step)
    requires Inv(s) && Enabled(s, step)
    ensures Inv(Next(s, step))
  {
    match step
    case MarkRunning | StampStart | BuildExits(_) | BuildCrashes | SkipCallback => InvBuild(s, step);
    case CallbackStarts | ArmMachine(_) | CallbackReturns | CallbackRaises => InvCallback(s, step);
    case StampFinish | Publish | MarkSkipped | StampSkipped => InvFinish(s, step);
    case Submit(_) | Spawn | ReleaseLock | Tick(_) => InvSubmit(s, step);
    case CreateJob => InvCreateJob(s);
  }

  // ---- Whole runs ------------------------------------------------------------

  ghost predicate Initial(s: State) {
    s.jobs == [] && s.worker.Idle? && s.submissions == []
  }

  ghost predicate Takes(s: State, step: Step, s': State) {
    Enabled(s, step) && s' == Next(s, step)
  }

  // `states[i + 1]` is `states[i]` after `steps[i]`.
  ghost predicate IsRun(states: seq<State>, steps: seq<Step>) {
    && |states| == |steps| + 1 && Initial(states[0])
    && forall i :: 0 <= i < |steps| ==> Takes(states[i], steps[i], states[i + 1])
  }

  lemma InvTakes(s: State, step: Step, s': State)
    requires Inv(s) && Takes(s, step, s')
    ensures Inv(s')
  {
    InvNext(s, step);
  }

  lemma {:induction false} RunInv(states: seq<State>, steps: seq<Step>, i: nat)
    requires IsRun(states, steps) && i < |states|
    ensures Inv(states[i])
  {
    if i == 0 {
    } else {
      RunInv(states, steps, i - 1);
      InvTakes(states[i - 1], steps[i - 1], states[i]);
    }
  }

  // At most one build is running, and builds start in the order they were queued.
  ghost predicate OneAtATime(jobs: seq<Job>) {
    && (forall j, k :: 0 <= j < |jobs| && 0 <= k < |jobs| && jobs[j].state.Running? && jobs[k].state.Running? ==>
          j == k)
    && (forall j, k :: 0 <= j < k < |jobs| && !jobs[k].state.Queued? ==> Terminal(jobs[j]))
  }

  // A build that is over was skipped exactly when it is not the first of its submission
  // and the first did not succeed.
  ghost predicate SkippedExactly(jobs: seq<Job>) {
    forall j :: 0 <= j < |jobs| && Terminal(jobs[j]) ==> jobs[j].lead <= j && SkippedRight(jobs, j)
  }

  // The callback ran once, and has ended, for every succeeded build and for no other
  // build that is over.
  ghost predicate CallbackOnce(hasCallback: bool, jobs: seq<Job>) {
    forall j :: 0 <= j < |jobs| && Terminal(jobs[j]) ==>
      jobs[j].calls == jobs[j].callsEnded == if jobs[j].state.Succeeded? && hasCallback then 1 else 0
  }

  // Only a build just being skipped shows that it is over before it shows when.
  ghost predicate EndIsStamped(s: State) {
    forall j :: 0 <= j < |s.jobs| && Terminal(s.jobs[j]) ==>
      (s.jobs[j].finishedAt.None? <==> At(s, MarkedSkipped) && s.worker.at == j)
  }

  lemma InvOneAtATime(s: State)
    requires Inv(s)
    ensures OneAtATime(s.jobs)
  {
  }

  lemma InvSkipsRight(s: State)
    requires Inv(s)
    ensures SkippedExactly(s.jobs)
  {
  }

  lemma InvEndsRight(s: State)
    requires Inv(s)
    ensures CallbackOnce(s.hasCallback, s.jobs) && EndIsStamped(s)
    ensures s.worker.Idle? ==> forall j :: 0 <= j < |s.jobs| ==> Terminal(s.jobs[j])
  {
  }

  // What every poller sees, at any moment of any run.
  lemma RunnerIsSafe(states: seq<State>, steps: seq<Step>, i: nat)
    requires IsRun(states, steps) && i < |states|
    ensures OneAtATime(states[i].jobs) && SkippedExactly(states[i].jobs)
    ensures CallbackOnce(states[i].hasCallback, states[i].jobs) && EndIsStamped(states[i])
    ensures states[i].worker.Idle? ==> forall j :: 0 <= j < |states[i].jobs| ==> Terminal(states[i].jobs[j])
  {
    RunInv(states, steps, i);
    InvOneAtATime(states[i]);
    InvSkipsRight(states[i]);
    InvEndsRight(states[i]);
  }

  // The worker is never at a build that has succeeded or failed.
  ghost predicate AtUnfinished(s: State) {
    s.worker.Working? && s.worker.at < |s.jobs| ==>
      !s.jobs[s.worker.at].state.Succeeded? && !s.jobs[s.worker.at].state.Failed?
  }

  lemma RunAtUnfinished(states: seq<State>, steps: seq<Step>, i: nat)
    requires IsRun(states, steps) && i < |states|
    ensures AtUnfinished(states[i])
  {
    RunInv(states, steps, i);
  }

  ghost predicate HasFinished(s: State, j: nat, job: Job) {
    j < |s.jobs| && s.jobs[j] == job && (job.state.Succeeded? || job.state.Failed?)
  }

  // A build that has succeeded or failed never changes again.
  lemma FinishedForGood(states: seq<State>, steps: seq<Step>, i: nat, k: nat, j: nat, job: Job)
    requires IsRun(states, steps) && i <= k < |states| && HasFinished(states[i], j, job)
    ensures HasFinished(states[k], j, job)
  {
    for m := i to k
      invariant HasFinished(states[m], j, job)
    {
      FinishedStep(states, steps, m, j, job);
    }
  }

  lemma FinishedStep(states: seq<State>, steps: seq<Step>, i: nat, j: nat, job: Job)
    requires IsRun(states, steps) && i < |steps| && HasFinished(states[i], j, job)
    ensures HasFinished(states[i + 1], j, job)
  {
    RunAtUnfinished(states, steps, i);
    var step := steps[i];
  }
}
