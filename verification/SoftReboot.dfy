/**
  The soft-reboot signal of one machine, as interleaved steps of the server, the boot
  loader and the reporters running in the booted image. The server only ever raises the
  signal in a status reply; it is cleared when the machine's next boot mints a session.
*/
module SoftReboot {

  // One call of the reporter, up to the next thing it waits for.
  datatype Task =
    | Sent                    // a report is on its way
    | Replied(told: bool)     // its reply, with or without the signal, is on its way back
    | AckSent                 // told to reboot: the acknowledgement is on its way
    | AckReplied(again: bool) // the reply to it, which repeats the signal
    | Triggering              // about to start the reboot
    | Done

  // Where the machine is between two boots. A boot ends in the running image only after
  // the mint request that rendered its config was answered, and so cleared the signal.
  datatype Phase = Down | Minted | Cleared | Up(rebooting: bool)

  datatype State = State(
    enrolled: bool, pending: bool, phase: Phase, tasks: seq<Task>,
    // Counted, not stored: the times the signal was raised and the boots it ended.
    arms: nat, softEnds: nat)

  datatype Step =
    | Arm | Disarm | Enroll | Remove
    | Mint | Clear | StrayClear | Boot
    | Report | Answer(i: nat) | Refuse(i: nat) | Read(i: nat) | Trigger(i: nat) | TriggerFails(i: nat)
    | SoftEnd | HardEnd

  const INITIAL := State(false, false, Down, [], 0, 0)

  predicate At(s: State, i: nat, waiting: set<Task>) {
    i < |s.tasks| && s.tasks[i] in waiting
  }

  predicate Enabled(s: State, step: Step) {
    match step
    case Arm | Disarm | Enroll | Remove | StrayClear | HardEnd => true
    case Mint => s.phase == Down
    case Clear => s.phase == Minted
    case Boot => s.phase == Cleared
    case Report => s.phase.Up?
    case Answer(i) => s.phase.Up? && At(s, i, {Sent, AckSent})
    case Refuse(i) => s.phase.Up? && At(s, i, {Sent, AckSent})
    case Read(i) => s.phase.Up? && i < |s.tasks| && (s.tasks[i].Replied? || s.tasks[i].AckReplied?)
    case Trigger(i) => s.phase.Up? && At(s, i, {Triggering})
    case TriggerFails(i) => s.phase.Up? && At(s, i, {Triggering})
    case SoftEnd => s.phase == Up(true)
  }

  function Next(s: State, step: Step): State
    requires Enabled(s, step)
  {
    match step
    // An UPDATE of a row that does not exist changes nothing.
    case Arm => if s.enrolled then s.(pending := true, arms := s.arms + 1) else s
    case Disarm | StrayClear => s.(pending := false)
    case Enroll => s.(enrolled := true, pending := false)
    case Remove => s.(enrolled := false, pending := false)
    case Mint => s.(phase := Minted)
    case Clear => s.(phase := Cleared, pending := false)
    case Boot => s.(phase := Up(false), tasks := [])
    case Report => s.(tasks := s.tasks + [Sent])
    case Answer(i) => s.(tasks := s.tasks[i := if s.tasks[i] == Sent then Replied(s.pending) else AckReplied(s.pending)])
    // An error reply, or none: the report ends, but a failed acknowledgement is ignored.
    case Refuse(i) => s.(tasks := s.tasks[i := if s.tasks[i] == Sent then Done else Triggering])
    case Read(i) =>
      s.(tasks := s.tasks[i := if s.tasks[i].AckReplied? then Triggering else if s.tasks[i].told then AckSent else Done])
    case Trigger(i) => s.(tasks := s.tasks[i := Done], phase := Up(true))
    case TriggerFails(i) => s.(tasks := s.tasks[i := Done])
    case SoftEnd => s.(phase := Down, tasks := [], softEnds := s.softEnds + 1)
    case HardEnd => s.(phase := Down, tasks := [])
  }

  // Steps of the machine and its reporters, which leave the server's row alone.
  predicate IsMachines(step: Step) {
    || step.Boot? || step.Report? || step.Refuse? || step.Read? || step.Trigger? || step.TriggerFails?
    || step.SoftEnd? || step.HardEnd?
  }

  // ---- Runs ------------------------------------------------------------------

  ghost predicate Takes(s: State, step: Step, t: State) {
    Enabled(s, step) && t == Next(s, step)
  }

  ghost predicate IsRun(run: seq<State>, steps: seq<Step>) {
    && |run| == |steps| + 1
    && forall i :: 0 <= i < |steps| ==> Takes(run[i], steps[i], run[i + 1])
  }

  // A run from the beginning, as the server keeps one for every machine.
  datatype History = History(states: seq<State>, steps: seq<Step>)

  ghost predicate Recorded(h: History) {
    IsRun(h.states, h.steps) && h.states[0] == INITIAL
  }

  ghost function Last(h: History): State
    requires Recorded(h)
  {
    h.states[|h.steps|]
  }

  ghost function Extend(h: History, step: Step): History
    requires Recorded(h) && Enabled(Last(h), step)
  {
    History(h.states + [Next(Last(h), step)], h.steps + [step])
  }

  // The run goes on.
  ghost predicate Grown(h: History, later: History) {
    h.states <= later.states && h.steps <= later.steps
  }

  const NO_HISTORY := History([INITIAL], [])

  lemma ExtendRecorded(h: History, step: Step)
    requires Recorded(h) && Enabled(Last(h), step)
    ensures Recorded(Extend(h, step)) && Last(Extend(h, step)) == Next(Last(h), step) && Grown(h, Extend(h, step))
  {
    var after := Next(Last(h), step);
    ExtendRun(h.states, h.steps, step, after);
  }

  lemma ExtendRun(run: seq<State>, steps: seq<Step>, step: Step, after: State)
    requires IsRun(run, steps) && Takes(run[|steps|], step, after)
    ensures IsRun(run + [after], steps + [step])
  {
    var run', steps' := run + [after], steps + [step];
    forall i | 0 <= i < |steps'|
      ensures Takes(run'[i], steps'[i], run'[i + 1])
    {
      if i < |steps| {
        assert Takes(run[i], steps[i], run[i + 1]);
      }
    }
  }

  // ---- The invariant ---------------------------------------------------------

  // The task carries the signal on to the reboot.
  predicate CarriesSignal(t: Task) {
    t == Replied(true) || t.AckSent? || t.AckReplied? || t.Triggering?
  }

  ghost predicate Signalled(s: State) {
    exists i :: 0 <= i < |s.tasks| && CarriesSignal(s.tasks[i])
  }

  // The current boot may still be ended by the signal.
  ghost predicate Doomed(s: State) {
    s.phase == Up(true) || (s.phase.Cleared? && s.pending) || (s.phase.Up? && (s.pending || Signalled(s)))
  }

  ghost function Debt(s: State): nat {
    s.softEnds + if Doomed(s) then 1 else 0
  }

  ghost predicate Inv(s: State) {
    && (s.pending ==> s.enrolled)
    && (!s.phase.Up? ==> s.tasks == [])
    && Debt(s) <= s.arms
  }

  // Only arming lets one more boot be ended: every other step leaves the number of boots
  // that were, or may yet be, ended by the signal no larger.
  lemma DebtNext(s: State, step: Step)
    requires Inv(s) && Enabled(s, step)
    ensures var t := Next(s, step);
            && (t.pending ==> t.enrolled) && (!t.phase.Up? ==> t.tasks == [])
            && Debt(t) - Debt(s) <= t.arms - s.arms
            && s.arms <= t.arms && s.softEnds <= t.softEnds
  {
    var t := Next(s, step);
    if Signalled(t) {
      var i :| 0 <= i < |t.tasks| && CarriesSignal(t.tasks[i]);
      SignalComesFrom(s, step, i);
    }
  }

  lemma SignalComesFrom(s: State, step: Step, i: nat)
    requires Enabled(s, step) && i < |Next(s, step).tasks| && CarriesSignal(Next(s, step).tasks[i])
    ensures Signalled(s) || (step == Answer(i) && s.pending)
  {
    if i < |s.tasks| && CarriesSignal(s.tasks[i]) {
      assert Signalled(s);
    }
  }

  lemma InvNext(s: State, step: Step)
    requires Inv(s) && Enabled(s, step)
    ensures Inv(Next(s, step))
  {
  }

  lemma {:induction false} RunInv(run: seq<State>, steps: seq<Step>, i: nat)
    requires IsRun(run, steps) && Inv(run[0]) && i < |run|
    ensures Inv(run[i])
  {
    if i == 0 {
    } else {
      RunInv(run, steps, i - 1);
      assert Takes(run[i - 1], steps[i - 1], run[i]);
      InvNext(run[i - 1], steps[i - 1]);
    }
  }

  // ---- No reboot loop --------------------------------------------------------

  // Between any two moments of a run, no more boots are ended by the signal than it was
  // raised, plus the one that may already have been under way.
  lemma {:induction false} NoRebootLoop(run: seq<State>, steps: seq<Step>, i: nat, j: nat)
    requires IsRun(run, steps) && run[0] == INITIAL && i <= j < |run|
    ensures Debt(run[j]) - Debt(run[i]) <= run[j].arms - run[i].arms
    ensures run[j].softEnds - run[i].softEnds <= run[j].arms - run[i].arms + if Doomed(run[i]) then 1 else 0
    ensures run[j].softEnds <= run[j].arms
    decreases j - i
  {
    RunInv(run, steps, j);
    if i == j {
    } else {
      NoRebootLoop(run, steps, i, j - 1);
      RunInv(run, steps, j - 1);
      assert Takes(run[j - 1], steps[j - 1], run[j]);
      DebtNext(run[j - 1], steps[j - 1]);
    }
  }

  // A machine is only ever ending its boot because a reporter of that boot started a reboot.
  lemma {:induction false} EndingIsTriggered(run: seq<State>, steps: seq<Step>, k: nat) returns (j: nat)
    requires IsRun(run, steps) && run[0] == INITIAL && k < |run| && run[k].phase == Up(true)
    ensures j < k && steps[j].Trigger? && forall m :: j < m <= k ==> run[m].phase == Up(true)
  {
    assert k > 0;
    assert Takes(run[k - 1], steps[k - 1], run[k]);
    if run[k - 1].phase == Up(true) && !steps[k - 1].Trigger? {
      j := EndingIsTriggered(run, steps, k - 1);
    } else {
      j := k - 1;
    }
  }

  // The bound is met: a machine armed in every boot ends each of them by the signal.
  lemma {:induction false} ArmedEveryBoot(n: nat) returns (h: History)
    ensures Recorded(h) && Last(h) == State(true, true, Down, [], n + 1, n + 1)
  {
    if n == 0 {
      h := Performed(NO_HISTORY, Enroll);
    } else {
      h := ArmedEveryBoot(n - 1);
    }
    h := OneBoot(h);
  }

  // Mint, boot, report, be armed, be told, fail to acknowledge, reboot.
  lemma OneBoot(before: History) returns (h: History)
    requires Recorded(before) && Last(before).enrolled && Last(before).phase.Down? && Last(before).tasks == []
    ensures Recorded(h)
    ensures Last(h) == State(true, true, Down, [], Last(before).arms + 1, Last(before).softEnds + 1)
  {
    h := BootAndReport(before);
    h := Performed(h, Arm);
    h := LearnAndReboot(h);
  }

  lemma BootAndReport(before: History) returns (h: History)
    requires Recorded(before) && Last(before).enrolled && Last(before).phase.Down? && Last(before).tasks == []
    ensures Recorded(h)
    ensures Last(h) == State(true, false, Up(false), [Sent], Last(before).arms, Last(before).softEnds)
  {
    h := Performed(before, Mint);
    h := Performed(h, Clear);
    h := Performed(h, Boot);
    h := Performed(h, Report);
  }

  lemma LearnAndReboot(before: History) returns (h: History)
    requires Recorded(before) && Last(before).phase.Up? && Last(before).pending && Last(before).tasks == [Sent]
    ensures Recorded(h)
    ensures Last(h) == Last(before).(phase := Down, tasks := [], softEnds := Last(before).softEnds + 1)
  {
    h := Performed(before, Answer(0));
    h := Performed(h, Read(0));
    assert Last(h) == Last(before).(tasks := [AckSent]);
    h := Performed(h, Refuse(0));
    h := Performed(h, Trigger(0));
    h := Performed(h, SoftEnd);
  }

  lemma Performed(h: History, step: Step) returns (later: History)
    requires Recorded(h) && Enabled(Last(h), step)
    ensures Recorded(later) && Last(later) == Next(Last(h), step)
  {
    later := Extend(h, step);
    ExtendRecorded(h, step);
  }

  // A machine whose new boot has minted its session does not end it by itself again
  // unless it is armed again.
  lemma MintEndsIt(run: seq<State>, steps: seq<Step>, i: nat, j: nat)
    requires IsRun(run, steps) && run[0] == INITIAL && i <= j < |steps|
    requires steps[i] == Clear && forall k :: i < k < j ==> !steps[k].Arm?
    ensures !steps[j].SoftEnd?
  {
    NotDoomed(run, steps, i, j);
  }

  lemma {:induction false} NotDoomed(run: seq<State>, steps: seq<Step>, i: nat, j: nat)
    requires IsRun(run, steps) && run[0] == INITIAL && i <= j < |steps|
    requires steps[i] == Clear && forall k :: i < k < j ==> !steps[k].Arm?
    ensures i < j ==> !Doomed(run[j])
    ensures steps[j].SoftEnd? ==> j > i && Doomed(run[j])
    decreases j
  {
    assert Takes(run[j], steps[j], run[j + 1]);
    if i + 1 < j {
      NotDoomed(run, steps, i, j - 1);
      RunInv(run, steps, j - 1);
      assert Takes(run[j - 1], steps[j - 1], run[j]);
      StaysClear(run[j - 1], steps[j - 1]);
    } else if i + 1 == j {
      assert Takes(run[i], steps[i], run[j]);
      RunInv(run, steps, i);
    }
  }

  lemma StaysClear(s: State, step: Step)
    requires Inv(s) && Enabled(s, step) && !Doomed(s) && !step.Arm?
    ensures !Doomed(Next(s, step))
  {
  }

  // ---- The signal is not lost ------------------------------------------------

  predicate LowersSignal(step: Step) {
    step in {Disarm, Enroll, Remove, Clear, StrayClear}
  }

  // If the step answers a report, the reply carries the signal.
  ghost predicate Tells(s: State, step: Step, t: State) {
    step.Answer? && At(s, step.i, {Sent}) ==> At(t, step.i, {Replied(true)})
  }

  // Until something lowers it, every report of an armed machine is answered with it.
  lemma {:induction false} ArmedIsTold(run: seq<State>, steps: seq<Step>, i: nat, j: nat)
    requires IsRun(run, steps) && i < j < |steps| && steps[i].Arm? && run[i].enrolled
    requires forall k :: i < k < j ==> !LowersSignal(steps[k])
    ensures run[j].pending
    ensures Tells(run[j], steps[j], run[j + 1])
    decreases j
  {
    assert Takes(run[j], steps[j], run[j + 1]);
    assert Takes(run[j - 1], steps[j - 1], run[j]);
    if i + 1 < j {
      ArmedIsTold(run, steps, i, j - 1);
    }
  }
}
