/**
  From the build runner's sweeps to the machines they reboot: how often a run arms a
  machine, and so how many of its boots the signal can end.
*/
module CascadeReboots {
  import opened Architectures
  import opened Options
  import opened Sequences
  import opened ProfileTree
  import opened ResolveProfile
  import opened BuildCascade
  import opened BuildRunner
  import opened FleetReboot
  import SoftReboot

  // How often the first `n` steps arm the machine.
  ghost function Armings(steps: seq<Step>, mac: Mac, n: nat): nat
    requires n <= |steps|
  {
    if n == 0 then 0
    else Armings(steps, mac, n - 1) + if steps[n - 1] == ArmMachine(mac) then 1 else 0
  }

  // ---- Each sweep arms a machine at most once --------------------------------

  // The sweep of job `j` has the machine still to do.
  ghost predicate StillDue(s: State, mac: Mac, j: nat) {
    s.worker.Working? && s.worker.at == j && s.worker.phase.Sweeping? && mac in s.worker.phase.todo
  }

  // The jobs that sweep the machine and have come past it.
  ghost function Passed(s: State, m0: map<Mac, Machine>, mac: Mac): set<nat>
    requires mac in m0
  {
    set j: nat | j < |s.jobs| && Sweeps(s, m0, mac, j) && !StillDue(s, mac, j)
  }

  lemma TargetKept(s: State, step: Step, s': State, j: nat)
    requires Takes(s, step, s') && j < |s.jobs|
    ensures j < |s'.jobs| && SameTarget(s'.jobs[j], s.jobs[j]) && s'.jobs[j].calls >= s.jobs[j].calls
  {
  }

  // A sweep takes up a machine only when its job had not swept yet.
  lemma DueComesFrom(s: State, step: Step, s': State, mac: Mac, j: nat)
    requires Inv(s) && Takes(s, step, s') && StillDue(s', mac, j)
    ensures StillDue(s, mac, j) || (j < |s.jobs| && s.jobs[j].calls == 0)
  {
  }

  lemma PassedKept(s: State, m0: map<Mac, Machine>, step: Step, s': State, mac: Mac)
    requires mac in m0 && Inv(s) && Takes(s, step, s')
    ensures Passed(s, m0, mac) <= Passed(s', m0, mac)
  {
    forall j | j in Passed(s, m0, mac)
      ensures j in Passed(s', m0, mac)
    {
      TargetKept(s, step, s', j);
      if StillDue(s', mac, j) {
        DueComesFrom(s, step, s', mac, j);
      }
      assert Sweeps(s', m0, mac, j);
    }
  }

  // Arming the machine brings one more sweep past it.
  lemma ArmingPasses(s: State, m0: map<Mac, Machine>, s': State, mac: Mac)
    requires mac in m0 && FleetInv(s, m0) && Takes(s, ArmMachine(mac), s')
    ensures s.worker.Working? && s.worker.at !in Passed(s, m0, mac) && s.worker.at in Passed(s', m0, mac)
  {
    assert Sweeps(s', m0, mac, s.worker.at);
  }

  lemma PassedStep(states: seq<State>, steps: seq<Step>, i: nat, mac: Mac)
    requires IsRun(states, steps) && i < |steps| && mac in states[0].machines
    ensures var m0 := states[0].machines;
            |Passed(states[i], m0, mac)| + (if steps[i] == ArmMachine(mac) then 1 else 0) <= |Passed(states[i + 1], m0, mac)|
  {
    var m0 := states[0].machines;
    var before, after := Passed(states[i], m0, mac), Passed(states[i + 1], m0, mac);
    RunInv(states, steps, i);
    PassedKept(states[i], m0, steps[i], states[i + 1], mac);
    if steps[i] == ArmMachine(mac) {
      RunFleet(states, steps, i);
      ArmingPasses(states[i], m0, states[i + 1], mac);
      SubsetSize(before + {states[i].worker.at}, after);
    } else {
      SubsetSize(before, after);
    }
  }

  lemma {:induction false} SubsetSize(a: set<nat>, b: set<nat>)
    requires a <= b
    ensures |a| <= |b|
  {
    if a == {} {
    } else {
      var x :| x in a;
      SubsetSize(a - {x}, b - {x});
    }
  }

  lemma ArmingsBounded(states: seq<State>, steps: seq<Step>, n: nat, mac: Mac)
    requires IsRun(states, steps) && n < |states| && mac in states[0].machines
    ensures Armings(steps, mac, n) <= |Passed(states[n], states[0].machines, mac)|
  {
    for i := 0 to n
      invariant Armings(steps, mac, i) <= |Passed(states[i], states[0].machines, mac)|
    {
      PassedStep(states, steps, i, mac);
    }
  }

  // ---- Each submission sweeps a machine at most once -------------------------

  ghost function WantedBy(s: State, m: Machine): set<nat> {
    set k: nat | k < |s.submissions| && Wanted(m, s.submissions[k])
  }

  lemma PlanOnce(submission: Submission)
    requires Planned(submission)
    ensures NoDuplicates(submission.plan)
  {
    if submission.downstream && submission.profiles.Some? {
      CascadeMembers(submission.profiles.value, submission.root);
    }
  }

  // Two jobs of one submission that sweep the same machine are the same job.
  lemma OneJobEach(s: State, m0: map<Mac, Machine>, mac: Mac, j: nat, j': nat, k: nat)
    requires mac in m0 && k < |s.submissions| && Planned(s.submissions[k])
    requires Sweeps(s, m0, mac, j) && Sweeps(s, m0, mac, j') && AskedBy(s, j, k) && AskedBy(s, j', k)
    ensures j == j'
  {
    PlanOnce(s.submissions[k]);
    AskedProfile(s, j, k);
    AskedProfile(s, j', k);
    var plan, first := s.submissions[k].plan, s.submissions[k].first;
    OnePlace(plan, j - first, j' - first);
  }

  lemma AskedProfile(s: State, j: nat, k: nat)
    requires AskedBy(s, j, k)
    ensures var asked := s.submissions[k];
            0 <= j - asked.first < |asked.plan| && s.jobs[j].profile == asked.plan[j - asked.first]
  {
  }

  lemma OnePlace(plan: seq<Name>, a: nat, b: nat)
    requires NoDuplicates(plan) && a < |plan| && b < |plan| && plan[a] == plan[b]
    ensures a == b
  {
  }

  lemma SweeperIsWanted(s: State, m0: map<Mac, Machine>, mac: Mac, j: nat) returns (k: nat)
    requires mac in m0 && Accounted(s) && Sweeps(s, m0, mac, j)
    ensures k in WantedBy(s, m0[mac]) && AskedBy(s, j, k)
  {
    assert HasOrigin(s, j);
    MatchesIff(m0[mac], s.jobs[j]);
    k :| AskedBy(s, j, k);
  }

  // As many submissions as jobs, each job asked for by its own.
  lemma {:induction false} OwnSubmissions(s: State, jobs: set<nat>, submissions: set<nat>)
    requires forall j :: j in jobs ==> exists k: nat :: k in submissions && AskedBy(s, j, k)
    requires forall j, j', k: nat :: j in jobs && j' in jobs && AskedBy(s, j, k) && AskedBy(s, j', k) ==> j == j'
    ensures |jobs| <= |submissions|
    decreases jobs
  {
    if jobs == {} {
    } else {
      var j :| j in jobs;
      var k: nat :| k in submissions && AskedBy(s, j, k);
      OwnSubmissions(s, jobs - {j}, submissions - {k});
    }
  }

  // Over any run a machine is armed at most once for each submission that means to
  // reboot it.
  lemma RunArmsOncePerSubmission(states: seq<State>, steps: seq<Step>, n: nat, mac: Mac)
    requires IsRun(states, steps) && n < |states| && mac in states[0].machines
    ensures Armings(steps, mac, n) <= |WantedBy(states[n], states[0].machines[mac])|
  {
    var s, m0 := states[n], states[0].machines;
    ArmingsBounded(states, steps, n, mac);
    RunAccounted(states, steps, n);
    forall j | j in Passed(s, m0, mac)
      ensures exists k: nat :: k in WantedBy(s, m0[mac]) && AskedBy(s, j, k)
    {
      var k := SweeperIsWanted(s, m0, mac, j);
    }
    forall j, j', k: nat | j in Passed(s, m0, mac) && j' in Passed(s, m0, mac) && AskedBy(s, j, k) && AskedBy(s, j', k)
      ensures j == j'
    {
      RunPlanned(states, steps, n, k);
      OneJobEach(s, m0, mac, j, j', k);
    }
    OwnSubmissions(s, Passed(s, m0, mac), WantedBy(s, m0[mac]));
  }

  // ---- What that does to the machine -----------------------------------------

  // How often steps `i` to `j` of a machine's run raise the signal.
  ghost function Raises(steps: seq<SoftReboot.Step>, i: nat, j: nat): nat
    requires i <= j <= |steps|
    decreases j
  {
    if i == j then 0
    else Raises(steps, i, j - 1) + if steps[j - 1].Arm? then 1 else 0
  }

  lemma RaisesCounted(run: seq<SoftReboot.State>, steps: seq<SoftReboot.Step>, i: nat, j: nat)
    requires SoftReboot.IsRun(run, steps) && i <= j < |run|
    ensures run[j].arms - run[i].arms <= Raises(steps, i, j)
  {
    for m := i to j
      invariant run[m].arms - run[i].arms <= Raises(steps, i, m)
    {
      assert SoftReboot.Takes(run[m], steps[m], run[m + 1]);
    }
  }

  // When nothing but the sweeps of a build run raises a machine's signal, no more of its
  // boots are ended by it than there are submissions that mean to reboot it, plus the one
  // that may already have been under way.
  lemma SweptRebootsBounded(states: seq<State>, steps: seq<Step>, n: nat, mac: Mac,
                            run: seq<SoftReboot.State>, taken: seq<SoftReboot.Step>, i: nat, j: nat)
    requires IsRun(states, steps) && n < |states| && mac in states[0].machines
    requires SoftReboot.IsRun(run, taken) && run[0] == SoftReboot.INITIAL && i <= j < |run|
    requires Raises(taken, i, j) <= Armings(steps, mac, n)
    ensures run[j].softEnds - run[i].softEnds
            <= |WantedBy(states[n], states[0].machines[mac])| + if SoftReboot.Doomed(run[i]) then 1 else 0
  {
    RunArmsOncePerSubmission(states, steps, n, mac);
    RaisesCounted(run, taken, i, j);
    SoftReboot.NoRebootLoop(run, taken, i, j);
  }

  // The machine's image goes stale when `root` is rebuilt for this architecture.
  ghost predicate Stale(m: Machine, t: Tree, root: Name, architecture: string)
    requires forall p :: p in t ==> Resolvable(t, p)
  {
    SameArchitecture(m.architecture, architecture) && m.profile in t && root in Chain(t, m.profile)
  }

  // One cascade ends at most one boot of a machine whose image went stale, and none of
  // any other machine.
  lemma OneBootPerCascade(states: seq<State>, steps: seq<Step>, n: nat, t: Tree, root: Name, mac: Mac,
                          run: seq<SoftReboot.State>, taken: seq<SoftReboot.Step>, i: nat, j: nat)
    requires IsRun(states, steps) && n < |states| && mac in states[0].machines && |states[n].submissions| == 1
    requires var asked := states[n].submissions[0]; asked.downstream && asked.profiles == Some(t) && asked.root == root
    requires root in t && forall p :: p in t ==> Resolvable(t, p)
    requires SoftReboot.IsRun(run, taken) && run[0] == SoftReboot.INITIAL && i <= j < |run| && !SoftReboot.Doomed(run[i])
    requires Raises(taken, i, j) <= Armings(steps, mac, n)
    ensures run[j].softEnds - run[i].softEnds
            <= if Stale(states[0].machines[mac], t, root, states[n].submissions[0].architecture) then 1 else 0
  {
    var m, asked := states[0].machines[mac], states[n].submissions[0];
    SweptRebootsBounded(states, steps, n, mac, run, taken, i, j);
    RunPlanned(states, steps, n, 0);
    CascadeIsStale(t, root, m.profile);
    SubsetSize(WantedBy(states[n], m), {0});
    if !Stale(m, t, root, asked.architecture) {
      assert !Wanted(m, asked);
      SubsetSize(WantedBy(states[n], m), {});
    }
  }
}
