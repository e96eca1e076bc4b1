/**
  Which machines a run of the build runner arms for a reboot: following a fully
  successful cascade, exactly those whose image went stale.
*/
module FleetReboot {
  import opened Architectures
  import opened ProfileTree
  import opened ResolveProfile
  import opened BuildCascade
  import opened Options
  import opened Ordering
  import opened BuildRunner

  // The fields of a job that are fixed when it is created.
  ghost predicate SameTarget(a: Job, b: Job) {
    a.profile == b.profile && a.architecture == b.architecture && a.autoReboot == b.autoReboot
  }

  // Job `j` is one of those submission `k` asked for.
  ghost predicate AskedBy(s: State, j: nat, k: nat) {
    && j < |s.jobs| && k < |s.submissions|
    && s.submissions[k].first <= j < s.submissions[k].first + |s.submissions[k].plan|
    && SameTarget(s.jobs[j], NewJob(s.submissions[k], j - s.submissions[k].first))
  }

  ghost predicate HasOrigin(s: State, j: nat) {
    exists k: nat :: AskedBy(s, j, k)
  }

  // Submission `k` has its jobs, except that the newest may still be creating them.
  ghost predicate HasJobs(s: State, k: nat) {
    && k < |s.submissions|
    && (forall j: nat :: s.submissions[k].first <= j < s.submissions[k].first + |s.submissions[k].plan| && j < |s.jobs|
          ==> AskedBy(s, j, k))
    && (s.submissions[k].first + |s.submissions[k].plan| <= |s.jobs|
        || (s.worker == Creating(s.submissions[k]) && k == |s.submissions| - 1))
  }

  ghost predicate Accounted(s: State) {
    && (forall j: nat :: j < |s.jobs| ==> HasOrigin(s, j))
    && (forall k: nat :: k < |s.submissions| ==> HasJobs(s, k))
    && (s.worker.Creating? ==> s.submissions != [] && s.worker.submission == s.submissions[|s.submissions| - 1])
  }

  // Job `j` had its callback run and would sweep `mac`.
  ghost predicate Sweeps(s: State, m0: map<Mac, Machine>, mac: Mac, j: nat)
    requires mac in m0
  {
    j < |s.jobs| && s.jobs[j].autoReboot && s.jobs[j].calls > 0 && Matches(m0[mac], s.jobs[j])
  }

  // Only the pending flags differ from the fleet as it was, and only upwards.
  ghost predicate OnlyArmed(m0: map<Mac, Machine>, machines: map<Mac, Machine>) {
    && machines.Keys == m0.Keys
    && forall mac :: mac in m0 ==>
         machines[mac] == m0[mac].(pending := machines[mac].pending) && (m0[mac].pending ==> machines[mac].pending)
  }

  ghost predicate AllArmed(machines: map<Mac, Machine>, macs: set<Mac>) {
    forall mac :: mac in macs && mac in machines ==> machines[mac].pending
  }

  ghost predicate FleetInv(s: State, m0: map<Mac, Machine>) {
    && OnlyArmed(m0, s.machines)
    && (forall mac :: mac in m0 && s.machines[mac].pending && !m0[mac].pending ==> exists j :: Sweeps(s, m0, mac, j))
    && (forall j :: 0 <= j < |s.jobs| && s.jobs[j].autoRebootArmed.Some? ==>
          && s.jobs[j].autoReboot && s.jobs[j].autoRebootArmed.value == |Matching(m0, s.jobs[j])|
          && AllArmed(s.machines, Matching(m0, s.jobs[j])))
    && (s.worker.Working? && s.worker.at < |s.jobs| && s.worker.phase.Sweeping? ==>
          SweepInv(s.machines, m0, s.jobs[s.worker.at], s.worker.phase.todo, s.worker.phase.armed))
  }

  // Midway through a sweep: what is not left to do is armed and counted.
  ghost predicate SweepInv(machines: map<Mac, Machine>, m0: map<Mac, Machine>, job: Job, todo: set<Mac>, armed: nat) {
    && job.calls > 0
    && (todo != {} ==> job.autoReboot)
    && (job.autoReboot ==>
          && todo <= Matching(m0, job) && armed + |todo| == |Matching(m0, job)|
          && AllArmed(machines, Matching(m0, job) - todo))
  }

  lemma MatchingUnchanged(m0: map<Mac, Machine>, machines: map<Mac, Machine>, job: Job)
    requires OnlyArmed(m0, machines)
    ensures Matching(machines, job) == Matching(m0, job)
  {
  }

  lemma MatchingSameTarget(m0: map<Mac, Machine>, a: Job, b: Job)
    requires SameTarget(a, b)
    ensures Matching(m0, a) == Matching(m0, b)
  {
  }

  // Steps that leave the machines alone and the job's target, count and callback marks.
  lemma FleetUpdate(s: State, m0: map<Mac, Machine>, s': State)
    requires FleetInv(s, m0) && s'.machines == s.machines && |s'.jobs| == |s.jobs|
    requires forall j :: 0 <= j < |s.jobs| ==>
               && SameTarget(s'.jobs[j], s.jobs[j]) && s'.jobs[j].calls >= s.jobs[j].calls
               && s'.jobs[j].autoRebootArmed == s.jobs[j].autoRebootArmed
    requires !(s'.worker.Working? && s'.worker.phase.Sweeping?)
    ensures FleetInv(s', m0)
  {
    forall mac | mac in m0 && s'.machines[mac].pending && !m0[mac].pending
      ensures exists j :: Sweeps(s', m0, mac, j)
    {
      var j :| Sweeps(s, m0, mac, j);
      assert Sweeps(s', m0, mac, j);
    }
    forall j | 0 <= j < |s'.jobs|
      ensures Matching(m0, s'.jobs[j]) == Matching(m0, s.jobs[j])
    {
      MatchingSameTarget(m0, s'.jobs[j], s.jobs[j]);
    }
  }

  lemma FleetCreateJob(s: State, m0: map<Mac, Machine>, job: Job)
    requires FleetInv(s, m0) && Fresh(job) && !s.worker.Working?
    ensures FleetInv(s.(jobs := s.jobs + [job]), m0)
  {
    var s' := s.(jobs := s.jobs + [job]);
    assert forall j :: 0 <= j < |s.jobs| ==> s'.jobs[j] == s.jobs[j];
    forall mac | mac in m0 && s'.machines[mac].pending && !m0[mac].pending
      ensures exists j :: Sweeps(s', m0, mac, j)
    {
      var j :| Sweeps(s, m0, mac, j);
      assert Sweeps(s', m0, mac, j);
    }
  }

  // A sweep step: only the job being worked on and the machines change.
  ghost predicate SweepStep(s: State, s': State) {
    && s.worker.Working? && s.worker.at < |s.jobs|
    && s'.worker.Working? && s'.worker == s.worker.(phase := s'.worker.phase)
    && |s'.jobs| == |s.jobs| && s'.jobs == s.jobs[s.worker.at := s'.jobs[s.worker.at]]
    && SameTarget(s'.jobs[s.worker.at], s.jobs[s.worker.at])
    && s'.jobs[s.worker.at].calls >= s.jobs[s.worker.at].calls
  }

  lemma SweepsKept(s: State, m0: map<Mac, Machine>, s': State)
    requires OnlyArmed(m0, s.machines) && SweepStep(s, s')
    requires forall mac :: mac in m0 && s.machines[mac].pending && !m0[mac].pending ==> exists j :: Sweeps(s, m0, mac, j)
    ensures forall mac :: mac in m0 && s.machines[mac].pending && !m0[mac].pending ==> exists j :: Sweeps(s', m0, mac, j)
  {
    forall mac | mac in m0 && s.machines[mac].pending && !m0[mac].pending
      ensures exists j :: Sweeps(s', m0, mac, j)
    {
      var j :| Sweeps(s, m0, mac, j);
      assert Sweeps(s', m0, mac, j);
    }
  }

  lemma FleetCallback(s: State, m0: map<Mac, Machine>, step: Step)
    requires step.CallbackStarts? || step.CallbackReturns?
    requires FleetInv(s, m0) && Enabled(s, step)
    ensures FleetInv(Next(s, step), m0)
  {
    var s', at := Next(s, step), s.worker.at;
    SweepsKept(s, m0, s');
    MatchingUnchanged(m0, s.machines, s.jobs[at]);
    MatchingSameTarget(m0, s'.jobs[at], s.jobs[at]);
  }

  lemma FleetArm(s: State, m0: map<Mac, Machine>, mac: Mac)
    requires FleetInv(s, m0) && Enabled(s, ArmMachine(mac))
    ensures FleetInv(Next(s, ArmMachine(mac)), m0)
  {
    var s', at := Next(s, ArmMachine(mac)), s.worker.at;
    SweepsKept(s, m0, s');
    assert s'.jobs == s.jobs;
    assert Sweeps(s', m0, mac, at);
    forall other | other in m0 && s'.machines[other].pending && !m0[other].pending
      ensures exists j :: Sweeps(s', m0, other, j)
    {
      if other != mac {
        assert s.machines[other].pending;
      }
    }
    var todo := s.worker.phase.todo;
    assert |todo - {mac}| == |todo| - 1;
  }

  lemma FleetTick(s: State, m0: map<Mac, Machine>, step: Step)
    requires step.Tick? && FleetInv(s, m0)
    ensures FleetInv(Next(s, step), m0)
  {
    var s' := Next(s, step);
    forall mac | mac in m0 && s'.machines[mac].pending && !m0[mac].pending
      ensures exists j :: Sweeps(s', m0, mac, j)
    {
      var j :| Sweeps(s, m0, mac, j);
      assert Sweeps(s', m0, mac, j);
    }
  }

  lemma FleetAppend(s: State, m0: map<Mac, Machine>)
    requires FleetInv(s, m0) && Enabled(s, CreateJob)
    ensures FleetInv(Next(s, CreateJob), m0)
  {
    FleetCreateJob(s, m0, NewJob(s.worker.submission, |s.jobs| - s.worker.submission.first));
  }

  lemma FleetWork(s: State, m0: map<Mac, Machine>, step: Step)
    requires step.MarkRunning? || step.StampStart? || step.BuildExits? || step.BuildCrashes? || step.SkipCallback?
             || step.CallbackRaises? || step.StampFinish? || step.Publish? || step.MarkSkipped? || step.StampSkipped?
    requires FleetInv(s, m0) && Enabled(s, step)
    ensures FleetInv(Next(s, step), m0)
  {
    FleetUpdate(s, m0, Next(s, step));
  }

  lemma FleetLock(s: State, m0: map<Mac, Machine>, step: Step)
    requires step.Submit? || step.Spawn? || step.ReleaseLock?
    requires FleetInv(s, m0) && Enabled(s, step)
    ensures FleetInv(Next(s, step), m0)
  {
    FleetUpdate(s, m0, Next(s, step));
  }

  lemma FleetNext(s: State, m0: map<Mac, Machine>, step: Step)
    requires FleetInv(s, m0) && Enabled(s, step)
    ensures FleetInv(Next(s, step), m0)
  {
    match step
    case CallbackStarts | CallbackReturns => FleetCallback(s, m0, step);
    case ArmMachine(mac) => FleetArm(s, m0, mac);
    case CreateJob => FleetAppend(s, m0);
    case Tick(_) => FleetTick(s, m0, step);
    case Submit(_) | Spawn | ReleaseLock => FleetLock(s, m0, step);
    case _ => FleetWork(s, m0, step);
  }

  // ---- Every job is accounted for --------------------------------------------

  // Submissions and jobs are only added to, and no job's target changes.
  ghost predicate OnlyAdds(s: State, s': State) {
    && s.submissions <= s'.submissions && |s.jobs| <= |s'.jobs|
    && forall j :: 0 <= j < |s.jobs| ==> SameTarget(s'.jobs[j], s.jobs[j])
  }

  lemma AskedKept(s: State, s': State, j: nat, k: nat)
    requires OnlyAdds(s, s') && AskedBy(s, j, k)
    ensures AskedBy(s', j, k)
  {
  }

  lemma OriginKept(s: State, s': State, j: nat)
    requires OnlyAdds(s, s') && HasOrigin(s, j)
    ensures HasOrigin(s', j)
  {
    var k: nat :| AskedBy(s, j, k);
    AskedKept(s, s', j, k);
  }

  // The jobs a submission has got it keeps; `added` is whether it has just got one more.
  lemma HasJobsKept(s: State, s': State, k: nat, added: bool)
    requires OnlyAdds(s, s') && HasJobs(s, k)
    requires |s'.jobs| == |s.jobs| + (if added then 1 else 0)
    requires added ==> s.submissions[k].first + |s.submissions[k].plan| <= |s.jobs| || AskedBy(s', |s.jobs|, k)
    requires s.submissions[k].first + |s.submissions[k].plan| <= |s'.jobs|
             || (s'.worker == s.worker && |s'.submissions| == |s.submissions|)
    ensures HasJobs(s', k)
  {
    forall j: nat | s.submissions[k].first <= j < s.submissions[k].first + |s.submissions[k].plan| && j < |s'.jobs|
      ensures AskedBy(s', j, k)
    {
      if j < |s.jobs| {
        AskedKept(s, s', j, k);
      }
    }
  }

  // Steps that add neither submissions nor jobs.
  lemma AccountedUpdate(s: State, s': State)
    requires Accounted(s) && OnlyAdds(s, s') && s'.submissions == s.submissions && |s'.jobs| == |s.jobs|
    requires s.worker.Creating? && s'.worker != s.worker ==>
               s.worker.submission.first + |s.worker.submission.plan| <= |s.jobs|
    requires s'.worker.Creating? ==> s'.worker == s.worker
    ensures Accounted(s')
  {
    forall j: nat | j < |s'.jobs|
      ensures HasOrigin(s', j)
    {
      OriginKept(s, s', j);
    }
    forall k: nat | k < |s'.submissions|
      ensures HasJobs(s', k)
    {
      assert HasJobs(s, k);
      HasJobsKept(s, s', k, false);
    }
  }

  lemma AccountedSubmit(s: State, submission: Submission)
    requires Accounted(s) && Enabled(s, Submit(submission))
    ensures Accounted(Next(s, Submit(submission)))
  {
    var s' := Next(s, Submit(submission));
    forall j: nat | j < |s'.jobs|
      ensures HasOrigin(s', j)
    {
      OriginKept(s, s', j);
    }
    forall k: nat | k < |s'.submissions|
      ensures HasJobs(s', k)
    {
      if k < |s.submissions| {
        assert HasJobs(s, k);
        HasJobsKept(s, s', k, false);
      }
    }
  }

  lemma AccountedCreateJob(s: State)
    requires Accounted(s) && Enabled(s, CreateJob)
    ensures Accounted(Next(s, CreateJob))
  {
    var s', newest := Next(s, CreateJob), |s.submissions| - 1;
    assert AskedBy(s', |s.jobs|, newest);
    forall j: nat | j < |s'.jobs|
      ensures HasOrigin(s', j)
    {
      if j < |s.jobs| {
        OriginKept(s, s', j);
      }
    }
    forall k: nat | k < |s'.submissions|
      ensures HasJobs(s', k)
    {
      assert HasJobs(s, k);
      HasJobsKept(s, s', k, true);
    }
  }

  // A step of the worker, the callback or the clock, or the one that starts the worker.
  lemma AccountedWork(s: State, step: Step)
    requires Accounted(s) && Enabled(s, step) && !step.Submit? && !step.CreateJob?
    ensures Accounted(Next(s, step))
  {
    TargetsKept(s, step);
    AccountedUpdate(s, Next(s, step));
  }

  lemma TargetsKept(s: State, step: Step)
    requires Enabled(s, step) && !step.Submit? && !step.CreateJob?
    ensures OnlyAdds(s, Next(s, step)) && Next(s, step).submissions == s.submissions && |Next(s, step).jobs| == |s.jobs|
  {
    var s' := Next(s, step);
    if !(step.Tick? || step.Spawn? || step.ReleaseLock?) {
      assert SameTarget(s'.jobs[s.worker.at], s.jobs[s.worker.at]);
      assert forall j :: 0 <= j < |s.jobs| && j != s.worker.at ==> s'.jobs[j] == s.jobs[j];
    }
  }

  lemma AccountedNext(s: State, step: Step)
    requires Accounted(s) && Enabled(s, step)
    ensures Accounted(Next(s, step))
  {
    match step
    case Submit(submission) => AccountedSubmit(s, submission);
    case CreateJob => AccountedCreateJob(s);
    case _ => AccountedWork(s, step);
  }

  // ---- Whole runs ------------------------------------------------------------

  lemma {:induction false} RunFleet(states: seq<State>, steps: seq<Step>, i: nat)
    requires IsRun(states, steps) && i < |states|
    ensures FleetInv(states[i], states[0].machines)
  {
    if i == 0 {
    } else {
      RunFleet(states, steps, i - 1);
      FleetTakes(states[i - 1], states[0].machines, steps[i - 1], states[i]);
    }
  }

  lemma FleetTakes(s: State, m0: map<Mac, Machine>, step: Step, s': State)
    requires FleetInv(s, m0) && Takes(s, step, s')
    ensures FleetInv(s', m0)
  {
    FleetNext(s, m0, step);
  }

  lemma {:induction false} RunAccounted(states: seq<State>, steps: seq<Step>, i: nat)
    requires IsRun(states, steps) && i < |states|
    ensures Accounted(states[i])
  {
    if i == 0 {
    } else {
      RunAccounted(states, steps, i - 1);
      AccountedTakes(states[i - 1], steps[i - 1], states[i]);
    }
  }

  lemma AccountedTakes(s: State, step: Step, s': State)
    requires Accounted(s) && Takes(s, step, s')
    ensures Accounted(s')
  {
    AccountedNext(s, step);
  }

  lemma {:induction false} RunPlanned(states: seq<State>, steps: seq<Step>, i: nat, k: nat)
    requires IsRun(states, steps) && i < |states| && k < |states[i].submissions|
    ensures Planned(states[i].submissions[k])
  {
    assert i > 0;
    assert Takes(states[i - 1], steps[i - 1], states[i]);
    if k < |states[i - 1].submissions| {
      RunPlanned(states, steps, i - 1, k);
    }
  }

  lemma JobFollowsPlan(s: State, k: nat, n: nat)
    requires Accounted(s) && k < |s.submissions|
    requires n < |s.submissions[k].plan| && s.submissions[k].first + n < |s.jobs|
    ensures s.jobs[s.submissions[k].first + n].profile == s.submissions[k].plan[n]
  {
    assert HasJobs(s, k);
    assert AskedBy(s, s.submissions[k].first + n, k);
  }

  // The jobs of a cascade are its profiles in cascade order. The one that decides whether
  // the others are skipped is therefore the root's only if the root comes first, which it
  // does unless it inherits from itself and some other name is smaller.
  lemma CascadeJobs(states: seq<State>, steps: seq<Step>, i: nat, k: nat, n: nat, t: Tree)
    requires IsRun(states, steps) && i < |states| && k < |states[i].submissions|
    requires states[i].submissions[k].downstream && states[i].submissions[k].profiles == Some(t)
    requires n < |states[i].submissions[k].plan| && states[i].submissions[k].first + n < |states[i].jobs|
    ensures var asked := states[i].submissions[k];
            && asked.plan == CascadeOrder(t, asked.root)
            && states[i].jobs[asked.first + n].profile == CascadeOrder(t, asked.root)[n]
            && (states[i].jobs[asked.first].profile == asked.root <==>
                !OnCycle(t, asked.root) || forall m :: Reaches(t, m, asked.root) ==> LexLe(asked.root, m))
  {
    var asked := states[i].submissions[k];
    RunPlanned(states, steps, i, k);
    RunAccounted(states, steps, i);
    JobFollowsPlan(states[i], k, n);
    JobFollowsPlan(states[i], k, 0);
    RootFirst(t, asked.root);
  }

  // The machine is one a submission means to reboot.
  ghost predicate Wanted(m: Machine, submission: Submission) {
    && submission.autoReboot && m.profile in submission.plan
    && SameArchitecture(m.architecture, submission.architecture)
  }

  // Everything that was asked for was built, and every sweep went through.
  ghost predicate AllSwept(s: State) {
    && s.worker.Idle?
    && forall j :: 0 <= j < |s.jobs| ==> s.jobs[j].state.Succeeded? && (s.jobs[j].autoReboot ==> s.jobs[j].autoRebootArmed.Some?)
  }

  lemma WantedIsArmed(s: State, m0: map<Mac, Machine>, mac: Mac, k: nat)
    requires FleetInv(s, m0) && Accounted(s) && AllSwept(s)
    requires mac in m0 && k < |s.submissions| && Wanted(m0[mac], s.submissions[k])
    ensures s.machines[mac].pending
  {
    var submission := s.submissions[k];
    var i: nat :| i < |submission.plan| && submission.plan[i] == m0[mac].profile;
    assert HasJobs(s, k);
    var j := submission.first + i;
    assert AskedBy(s, j, k);
    MatchesIff(m0[mac], s.jobs[j]);
    assert mac in Matching(m0, s.jobs[j]);
  }

  lemma ArmedWasWanted(s: State, m0: map<Mac, Machine>, mac: Mac) returns (k: nat)
    requires FleetInv(s, m0) && Accounted(s)
    requires mac in m0 && s.machines[mac].pending && !m0[mac].pending
    ensures k < |s.submissions| && Wanted(m0[mac], s.submissions[k])
  {
    var j: nat :| Sweeps(s, m0, mac, j);
    assert HasOrigin(s, j);
    MatchesIff(m0[mac], s.jobs[j]);
    k :| AskedBy(s, j, k);
  }

  // At the end of a run in which everything was built and swept, the machines armed are
  // those armed before and those some submission meant to reboot.
  lemma RunArmsWanted(states: seq<State>, steps: seq<Step>, i: nat, mac: Mac)
    requires IsRun(states, steps) && i < |states| && AllSwept(states[i]) && mac in states[0].machines
    ensures mac in states[i].machines
    ensures states[i].machines[mac].pending <==>
            states[0].machines[mac].pending
            || exists k: nat :: k < |states[i].submissions| && Wanted(states[0].machines[mac], states[i].submissions[k])
  {
    var s, m0 := states[i], states[0].machines;
    RunFleet(states, steps, i);
    RunAccounted(states, steps, i);
    if s.machines[mac].pending && !m0[mac].pending {
      var k := ArmedWasWanted(s, m0, mac);
    }
    forall k: nat | k < |s.submissions| && Wanted(m0[mac], s.submissions[k])
      ensures s.machines[mac].pending
    {
      WantedIsArmed(s, m0, mac, k);
    }
  }

  // The end-to-end property: on a tree whose profiles all resolve, after a fully
  // successful cascade from `root` with auto-reboot and nothing else writing to the
  // registry, the machines armed are those armed before and exactly those, of a matching
  // architecture, whose profile's chain contains `root`.
  lemma CascadeArmsStaleMachines(states: seq<State>, steps: seq<Step>, i: nat, t: Tree, root: Name, mac: Mac)
    requires IsRun(states, steps) && i < |states| && AllSwept(states[i]) && mac in states[0].machines
    requires |states[i].submissions| == 1
    requires var asked := states[i].submissions[0];
             asked.downstream && asked.autoReboot && asked.profiles == Some(t) && asked.root == root
    requires root in t && forall p :: p in t ==> Resolvable(t, p)
    ensures
      var m, asked := states[0].machines[mac], states[i].submissions[0];
      && mac in states[i].machines
      && (states[i].machines[mac].pending <==>
          m.pending
          || (SameArchitecture(m.architecture, asked.architecture)
              && m.profile in t && root in Chain(t, m.profile)))
  {
    RunArmsWanted(states, steps, i, mac);
    RunPlanned(states, steps, i, 0);
    CascadeIsStale(t, root, states[0].machines[mac].profile);
    OneWanted(states[0].machines[mac], states[i].submissions, t, root);
  }

  lemma OneWanted(m: Machine, submissions: seq<Submission>, t: Tree, root: Name)
    requires |submissions| == 1 && submissions[0].autoReboot && submissions[0].plan == CascadeOrder(t, root)
    ensures (exists k: nat :: k < |submissions| && Wanted(m, submissions[k])) <==>
            SameArchitecture(m.architecture, submissions[0].architecture) && m.profile in CascadeOrder(t, root)
  {
    assert Wanted(m, submissions[0]) <==>
           SameArchitecture(m.architecture, submissions[0].architecture) && m.profile in CascadeOrder(t, root);
  }

  // A profile is rebuilt exactly when its own chain embeds the root.
  lemma CascadeIsStale(t: Tree, root: Name, p: Name)
    requires root in t && forall n :: n in t ==> Resolvable(t, n)
    ensures p in CascadeOrder(t, root) <==> p in t && root in Chain(t, p)
  {
    if p in t {
      WalksAgree(t, root, p);
    } else {
      CascadeMembers(t, root);
      if Reaches(t, p, root) {
        var q := ReachesFirstEdge(t, p, root);
      }
    }
  }
}
