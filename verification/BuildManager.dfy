/**
  The build job manager itself: submissions that take the running lock, and the worker
  that executes the jobs one assignment at a time. It keeps a record of the run it has
  made, which is what the theorems about every moment of a run speak about.
*/
module BuildManager {
  import opened Architectures
  import opened Options
  import opened ProfileTree
  import opened ResolveProfile
  import opened BuildCascade
  import opened BuildRunner
  import opened FleetReboot

  // Steps that take or release the lock, create jobs, or let time pass.
  predicate Administers(step: Step) {
    step.Submit? || step.CreateJob? || step.Spawn? || step.ReleaseLock? || step.Tick?
  }

  // Steps of the success callback.
  predicate CallsBack(step: Step) {
    step.SkipCallback? || step.CallbackStarts? || step.ArmMachine? || step.CallbackReturns? || step.CallbackRaises?
  }

  // The machines the callback is to arm, and the fleet with some machines armed.
  function Targets(machines: map<Mac, Machine>, job: Job): set<Mac> {
    if job.autoReboot then Matching(machines, job) else {}
  }

  function ArmAll(machines: map<Mac, Machine>, macs: set<Mac>): map<Mac, Machine> {
    map mac | mac in machines :: if mac in macs then machines[mac].(pending := true) else machines[mac]
  }

  // The signal of these machines is raised, and nothing else has changed.
  ghost predicate ArmedOnly(before: map<Mac, Machine>, after: map<Mac, Machine>, armed: set<Mac>) {
    && armed <= before.Keys && after.Keys == before.Keys
    && forall mac :: mac in before ==> after[mac] == if mac in armed then before[mac].(pending := true) else before[mac]
  }

  lemma ArmedAre(machines: map<Mac, Machine>, job: Job, armed: set<Mac>)
    requires armed <= Targets(machines, job)
    ensures ArmedOnly(machines, ArmAll(machines, armed), armed)
    ensures forall mac :: mac in armed ==> job.autoReboot && MeantFor(machines[mac], job)
    ensures armed == Targets(machines, job) && job.autoReboot ==>
              forall mac :: mac in machines && MeantFor(machines[mac], job) ==> mac in armed
  {
    forall mac | mac in machines
      ensures mac in Targets(machines, job) <==> job.autoReboot && MeantFor(machines[mac], job)
    {
      MatchesIff(machines[mac], job);
    }
  }

  lemma NoneArmed(machines: map<Mac, Machine>, targets: set<Mac>)
    ensures ArmAll(machines, {}) == machines && targets - {} == targets
  {
  }

  lemma OneMoreArmed(machines: map<Mac, Machine>, targets: set<Mac>, armed: set<Mac>, mac: Mac)
    requires mac in targets - armed && armed <= targets <= machines.Keys
    ensures ArmAll(machines, armed)[mac := ArmAll(machines, armed)[mac].(pending := true)] == ArmAll(machines, armed + {mac})
    ensures targets - armed - {mac} == targets - (armed + {mac}) && |armed + {mac}| == |armed| + 1
    ensures armed + {mac} <= targets && targets - (armed + {mac}) < targets - armed
  {
    assert mac !in targets - (armed + {mac});
  }

  lemma NoneLeft(targets: set<Mac>, armed: set<Mac>)
    requires armed <= targets && targets - armed == {}
    ensures armed == targets
  {
    assert forall mac :: mac in targets ==> mac in armed || mac in targets - armed;
  }

  lemma Extend(states: seq<State>, steps: seq<Step>, step: Step, after: State)
    requires IsRun(states, steps) && Takes(states[|steps|], step, after)
    ensures IsRun(states + [after], steps + [step])
  {
    var states', steps' := states + [after], steps + [step];
    forall i | 0 <= i < |steps'|
      ensures Takes(states'[i], steps'[i], states'[i + 1])
    {
      if i < |steps| {
        assert Takes(states[i], steps[i], states[i + 1]);
      }
    }
  }

  class BuildJobManager {
    const hasCallback: bool
    var clock: int
    var jobs: seq<Job>
    // Who holds the running lock, and where it stands.
    var worker: Worker
    var machines: map<Mac, Machine>
    var submissions: seq<Submission>

    // The fleet as it was at the start, and the run since.
    ghost const fleet: map<Mac, Machine>
    ghost var states: seq<State>
    ghost var steps: seq<Step>

    ghost function View(): State
      reads this
    {
      State(hasCallback, clock, jobs, worker, machines, submissions)
    }

    ghost predicate Valid()
      reads this
    {
      IsRun(states, steps) && states[|steps|] == View() && states[0].machines == fleet
    }

    constructor (hasCallback: bool, fleet: map<Mac, Machine>, now: int)
      ensures Valid() && worker.Idle? && jobs == [] && submissions == [] && machines == fleet
      ensures this.hasCallback == hasCallback && this.fleet == fleet
    {
      this.hasCallback, this.fleet := hasCallback, fleet;
      clock, jobs, worker, machines, submissions := now, [], Idle, fleet, [];
      states, steps := [State(hasCallback, now, [], Idle, fleet, [])], [];
    }

    // ---- One assignment --------------------------------------------------------

    method Perform(step: Step)
      requires Valid() && Enabled(View(), step)
      modifies this
      ensures Valid() && View() == Next(old(View()), step)
    {
      ghost var before := View();
      if Administers(step) {
        Administer(step);
      } else if CallsBack(step) {
        CallBack(step);
      } else {
        Work(step);
      }
      Extend(states, steps, step, View());
      states, steps := states + [View()], steps + [step];
    }

    method Administer(step: Step)
      requires Enabled(View(), step) && Administers(step)
      modifies this`clock, this`jobs, this`worker, this`submissions
      ensures View() == Next(old(View()), step)
    {
      match step {
        case Submit(submission) =>
          worker := Creating(submission);
          submissions := submissions + [submission];
        case CreateJob =>
          jobs := jobs + [NewJob(worker.submission, |jobs| - worker.submission.first)];
        case Spawn =>
          worker := Working(worker.submission.first, worker.submission.first, Begin);
        case ReleaseLock => worker := Idle;
        case Tick(elapsed) => clock := clock + elapsed;
      }
    }

    method CallBack(step: Step)
      requires Enabled(View(), step) && CallsBack(step)
      modifies this`jobs, this`worker, this`machines
      ensures View() == Next(old(View()), step)
    {
      var job := jobs[worker.at];
      match step {
        case SkipCallback =>
          Set(job, Recording(worker.phase.outcome));
        case CallbackStarts =>
          Set(job.(calls := job.calls + 1), Sweeping(if job.autoReboot then Matching(machines, job) else {}, 0));
        case ArmMachine(mac) =>
          Set(job, Sweeping(worker.phase.todo - {mac}, worker.phase.armed + 1));
          machines := machines[mac := machines[mac].(pending := true)];
        case CallbackReturns =>
          Set(job.(callsEnded := job.callsEnded + 1,
                   autoRebootArmed := if job.autoReboot then Some(worker.phase.armed) else job.autoRebootArmed),
              Recording(Succeeded));
        case CallbackRaises =>
          Set(job.(callsEnded := job.callsEnded + 1), Recording(Succeeded));
      }
    }

    method Work(step: Step)
      requires Enabled(View(), step) && !Administers(step) && !CallsBack(step)
      modifies this`jobs, this`worker
      ensures View() == Next(old(View()), step)
    {
      var job := jobs[worker.at];
      match step {
        case MarkRunning => Set(job.(state := Running), MarkedRunning);
        case StampStart => Set(job.(startedAt := Some(clock)), Building);
        case BuildExits(code) => Set(job.(exitCode := Some(code)), Exited(if code == 0 then Succeeded else Failed));
        case BuildCrashes => Set(job.(exitCode := Some(-1)), Exited(Failed));
        case StampFinish => Set(job.(finishedAt := Some(clock)), Publishing(worker.phase.outcome));
        case Publish => Leave(job.(state := worker.phase.outcome));
        case MarkSkipped => Set(job.(state := Skipped), MarkedSkipped);
        case StampSkipped => Leave(job.(finishedAt := Some(clock)));
      }
    }

    method Set(job: Job, phase: Phase)
      requires worker.Working? && worker.at < |jobs|
      modifies this`jobs, this`worker
      ensures View() == Update(old(View()), job, phase)
    {
      jobs := jobs[worker.at := job];
      worker := worker.(phase := phase);
    }

    method Leave(job: Job)
      requires worker.Working? && worker.at < |jobs|
      modifies this`jobs, this`worker
      ensures View() == Advance(old(View()), job)
    {
      jobs := jobs[worker.at := job];
      worker := worker.(at := worker.at + 1, phase := Begin);
    }

    // Time passes, and pollers may look.
    method Pass()
      requires Valid()
      modifies this
      ensures Valid() && View() == old(View()).(clock := clock)
    {
      var elapsed: nat :| elapsed >= 0;
      Perform(Tick(elapsed));
    }

    // ---- Submissions -----------------------------------------------------------

    // `start` and `start_with_downstream`; None where another build holds the lock.
    method Start(profiles: Option<Tree>, root: Name, downstream: bool, architecture: string, autoReboot: bool)
      returns (lead: Option<nat>)
      requires Valid()
      modifies this
      ensures Valid() && machines == old(machines)
      ensures lead.None? <==> !old(worker).Idle?
      ensures lead.None? ==> View() == old(View())
      ensures lead.Some? ==>
                && lead.value == |old(jobs)| && worker == Working(lead.value, lead.value, Begin)
                && |submissions| == |old(submissions)| + 1 && submissions[..|old(submissions)|] == old(submissions)
                && var asked := submissions[|old(submissions)|];
                   && asked == Submission(profiles, root, downstream, architecture, autoReboot, lead.value, asked.plan)
                   && Planned(asked) && |jobs| == lead.value + |asked.plan| && jobs[..lead.value] == old(jobs)
                   && QueueOf(jobs, asked)
    {
      if !worker.Idle? {
        lead := None;
      } else {
        var plan := PlanBuilds(profiles, root, downstream);
        var submission := Submission(profiles, root, downstream, architecture, autoReboot, |jobs|, plan);
        Perform(Submit(submission));
        CreateJobs(submission);
        lead := Some(submission.first);
      }
    }

    method PlanBuilds(profiles: Option<Tree>, root: Name, downstream: bool) returns (plan: seq<Name>)
      ensures plan == if downstream && profiles.Some? then CascadeOrder(profiles.value, root) else [root]
    {
      plan := [root];
      if downstream {
        plan := ComputeBuildCascade(profiles, root);
      }
    }

    // One job for each build planned, all of them queued; then the worker starts.
    method CreateJobs(submission: Submission)
      requires Valid() && worker == Creating(submission) && submission.first == |jobs|
      modifies this
      ensures Valid() && machines == old(machines) && submissions == old(submissions)
      ensures worker == Working(submission.first, submission.first, Begin)
      ensures |jobs| == submission.first + |submission.plan| && jobs[..submission.first] == old(jobs)
      ensures QueueOf(jobs, submission)
    {
      for i := 0 to |submission.plan|
        invariant Valid() && machines == old(machines) && submissions == old(submissions)
        invariant worker == Creating(submission)
        invariant |jobs| == submission.first + i && jobs[..submission.first] == old(jobs)
        invariant QueueOf(jobs, submission)
      {
        QueueSnoc(jobs, submission);
        Perform(CreateJob);
      }
      Perform(Spawn);
    }

    // ---- The worker ------------------------------------------------------------

    ghost predicate AtBegin()
      reads this
    {
      Valid() && worker.Working? && worker.first < |jobs| && worker.first <= worker.at && worker.phase.Begin?
    }

    // Runs every job of the submission, or skips all but the first; then lets go of the lock.
    method RunCascade()
      requires AtBegin() && worker.at == worker.first
      modifies this
      ensures Valid() && worker.Idle? && submissions == old(submissions)
      ensures |jobs| == |old(jobs)| && jobs[..old(worker).first] == old(jobs)[..old(worker).first]
      ensures forall j :: 0 <= j < |jobs| ==> Finished(hasCallback, jobs[j]) && jobs[j].lead <= j && SkippedRight(jobs, j)
    {
      var first := worker.first;
      ExecuteJob();
      var rootOk := jobs[first].state.Succeeded?;
      while worker.at < |jobs|
        invariant AtBegin() && submissions == old(submissions)
        invariant worker.first == first < worker.at <= |jobs| && |jobs| == |old(jobs)|
        invariant jobs[..first] == old(jobs)[..first]
        invariant rootOk == jobs[first].state.Succeeded?
        decreases |jobs| - worker.at
      {
        if rootOk {
          ExecuteJob();
        } else {
          SkipJob();
        }
      }
      Perform(ReleaseLock);
      RunInv(states, steps, |steps|);
    }

    // The worker is past one more job, and no other job has changed.
    twostate predicate OneFurther()
      reads this
    {
      && AtBegin() && old(worker).Working? && worker.first == old(worker).first && worker.at == old(worker).at + 1
      && submissions == old(submissions)
      && |jobs| == |old(jobs)| && forall j :: 0 <= j < |jobs| && j != old(worker).at ==> jobs[j] == old(jobs)[j]
    }

    method SkipJob()
      requires AtBegin() && worker.at < |jobs| && RootFailed(View())
      modifies this
      ensures OneFurther()
    {
      Perform(MarkSkipped);
      Pass();
      Perform(StampSkipped);
    }

    method ExecuteJob()
      requires AtBegin() && worker.at < |jobs| && !RootFailed(View())
      modifies this
      ensures OneFurther()
    {
      BuildImage();
      if worker.phase.outcome.Succeeded? && hasCallback {
        var _, _ := OnSuccess();
      } else {
        Perform(SkipCallback);
      }
      Pass();
      Perform(StampFinish);
      Pass();
      Perform(Publish);
    }

    // The worker is still at the same job, and no other job has changed.
    twostate predicate SameJob()
      reads this
    {
      && Valid() && worker.Working? && old(worker).Working? && worker.first == old(worker).first && worker.at == old(worker).at < |jobs|
      && submissions == old(submissions)
      && |jobs| == |old(jobs)| && forall j :: 0 <= j < |jobs| && j != worker.at ==> jobs[j] == old(jobs)[j]
    }

    // The `make image` run: its exit code, or a crash on the way, is not up to us.
    method BuildImage()
      requires AtBegin() && worker.at < |jobs| && !RootFailed(View())
      modifies this
      ensures SameJob() && worker.phase.Exited?
    {
      Perform(MarkRunning);
      Pass();
      Perform(StampStart);
      Pass();
      var code: Option<int> := *;
      if code.Some? {
        Perform(BuildExits(code.value));
      } else {
        Perform(BuildCrashes);
      }
    }

    // The success callback: the sweep over the fleet, which may raise anywhere. It arms
    // machines meant to be armed and no others; all of them, and counted, unless it raises.
    method OnSuccess() returns (raised: bool, ghost armed: set<Mac>)
      requires Valid() && worker.Working? && worker.at < |jobs| && hasCallback
      requires worker.phase.Exited? && worker.phase.outcome.Succeeded?
      modifies this
      ensures SameJob() && worker.phase == Recording(Succeeded)
      ensures var job := old(jobs[worker.at]);
              && ArmedOnly(old(machines), machines, armed)
              && (forall mac :: mac in armed ==> job.autoReboot && MeantFor(old(machines)[mac], job))
              && (!raised && job.autoReboot ==> forall mac :: mac in old(machines) && MeantFor(old(machines)[mac], job) ==> mac in armed)
              && jobs[worker.at].autoRebootArmed == if !raised && job.autoReboot then Some(|armed|) else job.autoRebootArmed
    {
      ghost var fleet0, job := machines, jobs[worker.at];
      Perform(CallbackStarts);
      raised, armed := Sweep(fleet0, job);
      ArmedAre(fleet0, job, armed);
      if raised {
        Perform(CallbackRaises);
      } else {
        Perform(CallbackReturns);
      }
    }

    // The loop of the sweep, over a fleet none of which it has armed yet.
    method Sweep(ghost fleet0: map<Mac, Machine>, ghost job: Job) returns (raised: bool, ghost armed: set<Mac>)
      requires Valid() && worker.Working? && worker.at < |jobs| && machines == fleet0
      requires worker.phase == Sweeping(Targets(fleet0, job), 0) && jobs[worker.at] == job.(calls := job.calls + 1)
      modifies this
      ensures SameJob() && jobs[worker.at] == job.(calls := job.calls + 1)
      ensures armed <= Targets(fleet0, job) && machines == ArmAll(fleet0, armed)
      ensures worker.phase == Sweeping(Targets(fleet0, job) - armed, |armed|)
      ensures !raised ==> armed == Targets(fleet0, job)
    {
      ghost var targets := Targets(fleet0, job);
      armed := {};
      NoneArmed(fleet0, targets);
      raised := *;
      while !raised && worker.phase.todo != {}
        invariant SameJob() && worker.phase == Sweeping(targets - armed, |armed|) && armed <= targets
        invariant machines == ArmAll(fleet0, armed) && jobs[worker.at] == job.(calls := job.calls + 1)
        decreases !raised, targets - armed
      {
        var mac :| mac in worker.phase.todo;
        OneMoreArmed(fleet0, targets, armed, mac);
        ArmOne(mac);
        armed := armed + {mac};
        raised := *;
      }
      if !raised {
        NoneLeft(targets, armed);
      }
    }

    method ArmOne(mac: Mac)
      requires Valid() && worker.Working? && worker.at < |jobs| && worker.phase.Sweeping?
      requires mac in worker.phase.todo && mac in machines
      modifies this
      ensures SameJob() && jobs == old(jobs) && machines == old(machines)[mac := old(machines)[mac].(pending := true)]
      ensures worker.phase == Sweeping(old(worker).phase.todo - {mac}, old(worker).phase.armed + 1)
    {
      Pass();
      Perform(ArmMachine(mac));
    }

    // After one cascade that went through, the machines armed are those that were before
    // and those whose image it replaced.
    lemma StaleMachinesArmed(t: Tree, mac: Mac)
      requires Valid() && AllSwept(View()) && |submissions| == 1 && mac in fleet
      requires submissions[0].downstream && submissions[0].autoReboot && submissions[0].profiles == Some(t)
      requires submissions[0].root in t && forall p :: p in t ==> Resolvable(t, p)
      ensures mac in machines
      ensures machines[mac].pending <==>
              fleet[mac].pending
              || (SameArchitecture(fleet[mac].architecture, submissions[0].architecture)
                  && fleet[mac].profile in t && submissions[0].root in Chain(t, fleet[mac].profile))
    {
      CascadeArmsStaleMachines(states, steps, |steps|, t, submissions[0].root, mac);
    }
  }
}
