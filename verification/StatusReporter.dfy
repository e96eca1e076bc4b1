/**
  One report of the in-image reporter: post, remember, and, when told to, acknowledge once
  and reboot. The reporter talks to the server itself, over a network that may lose either
  direction, while everything else goes on in between.
*/
module StatusReporter {
  import opened Options
  import Sequences
  import opened SoftReboot
  import opened StatusServer

  // What comes back for a POST: nothing, or a status code and the signal in the body.
  datatype Response = TransportError | Reply(status: nat, pendingReboot: bool)

  // What starting a command comes to.
  datatype Spawn = Started | NotFound

  // What a report leaves behind, in order.
  datatype Event =
    | Posted(state: string, detail: Option<string>)
    | Remembered(state: string)
    | Spawned(command: seq<string>)

  datatype Outcome = Reported | Failed

  const ACK_STATE := "rebooting"
  const ACK_DETAIL := "soft-reboot signal acknowledged"
  const SYSTEMCTL: seq<string> := ["systemctl", "reboot"]
  const REBOOT: seq<string> := ["reboot"]

  predicate Accepted(r: Response) {
    r.Reply? && r.status < 400
  }

  predicate IsTold(r: Response) {
    Accepted(r) && r.pendingReboot
  }

  // One post, and the state remembered where it was accepted.
  function ReportEvents(state: string, detail: Option<string>, r: Response): seq<Event> {
    [Posted(state, detail)] + if Accepted(r) then [Remembered(state)] else []
  }

  // The acknowledgement's share of the events.
  function AckEvents(r: Response): seq<Event> {
    ReportEvents(ACK_STATE, Some(ACK_DETAIL), r)
  }

  // The commands tried: the fallback only where the first cannot be started.
  function RebootEvents(spawn: Spawn): seq<Event> {
    if spawn.Started? then [Spawned(SYSTEMCTL)] else [Spawned(SYSTEMCTL), Spawned(REBOOT)]
  }

  // Everything a top-level report does, from the two answers and the spawn alone.
  function TopLevelEvents(state: string, detail: Option<string>, first: Response, second: Response, spawn: Spawn): seq<Event> {
    ReportEvents(state, detail, first) + if IsTold(first) then AckEvents(second) + RebootEvents(spawn) else []
  }

  // The run had the server answer report `i` at step `k`, with the signal as told.
  ghost predicate AnsweredAt(h: History, k: nat, i: nat, told: bool) {
    k < |h.steps| && k < |h.states| && h.steps[k] == SoftReboot.Answer(i) && h.states[k].pending == told
  }

  // Some step of the run from `from` on answered report `i` that way.
  ghost predicate Answered(h: History, from: nat, i: nat, told: bool) {
    exists k: nat :: from <= k && AnsweredAt(h, k, i, told)
  }

  lemma StillAnswered(h: History, later: History, from: nat, i: nat, told: bool)
    requires Answered(h, from, i, told) && Grown(h, later)
    ensures Answered(later, from, i, told)
  {
    var k: nat :| from <= k && AnsweredAt(h, k, i, told);
    assert AnsweredAt(later, k, i, told);
  }

  // Steps of the server and of other reporters that leave report `i` and its boot alone.
  predicate Harmless(step: Step, i: nat) {
    match step
    case Arm | Disarm | Enroll | Remove | StrayClear | Report => true
    case Answer(j) => j != i
    case Refuse(j) => j != i
    case Read(j) => j != i
    case Trigger(j) => j != i
    case TriggerFails(j) => j != i
    case _ => false
  }

  ghost predicate StillDoing(s: State, later: State, i: nat) {
    && i < |s.tasks| && i < |later.tasks| && later.tasks[i] == s.tasks[i]
    && later.phase.Up? && (s.phase == Up(true) ==> later.phase == Up(true))
  }

  lemma HarmlessStep(s: State, step: Step, i: nat)
    requires s.phase.Up? && i < |s.tasks| && Enabled(s, step) && Harmless(step, i)
    ensures StillDoing(s, Next(s, step), i)
  {
  }

  // What a machine's run has come to after one more step of some machine's.
  lemma TookStep(before: map<Mac, History>, m: Mac, step: Step, after: map<Mac, History>, mac: Mac)
    requires Took(before, m, [step], after) && Recorded(RunOf(before, mac)) && Recorded(RunOf(after, mac))
    ensures Grown(RunOf(before, mac), RunOf(after, mac))
    ensures m != mac ==> RunOf(after, mac) == RunOf(before, mac)
    ensures m == mac ==> Takes(Last(RunOf(before, mac)), step, Last(RunOf(after, mac)))
  {
    var h, h' := RunOf(before, mac), RunOf(after, mac);
    if m == mac {
      assert Takes(h'.states[|h.steps|], h'.steps[|h.steps|], h'.states[|h.steps| + 1]);
    }
  }

  lemma TookHarmless(before: map<Mac, History>, m: Mac, step: Step, after: map<Mac, History>, mac: Mac, i: nat)
    requires Took(before, m, [step], after) && Recorded(RunOf(before, mac)) && Recorded(RunOf(after, mac))
    requires Last(RunOf(before, mac)).phase.Up? && i < |Last(RunOf(before, mac)).tasks|
    requires m != mac || Harmless(step, i)
    ensures Grown(RunOf(before, mac), RunOf(after, mac))
    ensures StillDoing(Last(RunOf(before, mac)), Last(RunOf(after, mac)), i)
  {
    TookStep(before, m, step, after, mac);
    if m == mac {
      HarmlessStep(Last(RunOf(before, mac)), step, i);
    }
  }

  lemma EarlierAnswered(h: History, from: nat, earlier: nat, i: nat, told: bool)
    requires Answered(h, from, i, told) && earlier <= from
    ensures Answered(h, earlier, i, told)
  {
    var k: nat :| from <= k && AnsweredAt(h, k, i, told);
    assert AnsweredAt(h, k, i, told);
  }

  class Reporter {
    const server: Server
    const mac: Mac
    const token: Token
    // What starting either command comes to.
    const systemctl: Spawn
    const reboot: Spawn
    // What was done so far, and what came back for each post.
    var events: seq<Event>
    var answers: seq<Response>

    constructor (server: Server, mac: Mac, token: Token, systemctl: Spawn, reboot: Spawn)
      ensures this.server == server && this.mac == mac && this.token == token
      ensures this.systemctl == systemctl && this.reboot == reboot && events == [] && answers == []
    {
      this.server, this.mac, this.token, this.systemctl, this.reboot := server, mac, token, systemctl, reboot;
      events, answers := [], [];
    }

    // The image is up, and its token, while it is known, is its machine's.
    ghost predicate Running()
      reads this, server, server.log
    {
      server.Valid() && server.Now(mac).phase.Up? && (token in server.sessions ==> server.sessions[token] == mac)
    }

    // Report `i` of the image has come to `task`.
    ghost predicate Doing(i: nat, task: Task)
      reads this, server, server.log
    {
      Running() && i < |server.Now(mac).tasks| && server.Now(mac).tasks[i] == task
    }

    ghost predicate Rebooting()
      reads this, server, server.log
    {
      Running() && server.Now(mac).phase == Up(true)
    }

    // Report `i` takes a step of its own.
    ghost method Move(i: nat, step: Step)
      requires Running() && i < |server.Now(mac).tasks| && Enabled(server.Now(mac), step)
      requires step == Refuse(i) || step == Read(i) || step == Trigger(i) || step == TriggerFails(i)
      modifies server`histories
      ensures Running() && Took(old(server.histories), mac, [step], server.histories)
      ensures server.Now(mac) == Next(old(server.Now(mac)), step)
      ensures Grown(old(server.Run(mac)), server.Run(mac))
    {
      server.MachineStep(mac, step);
    }

    // ---- Everything else that goes on ------------------------------------------

    // Report `i` is where it was, and the run has only gone on.
    twostate predicate Undisturbed(i: nat)
      reads this, server, server.log
    {
      && old(Running()) && Running()
      && StillDoing(old(server.Now(mac)), server.Now(mac), i) && Grown(old(server.Run(mac)), server.Run(mac))
    }

    method OtherWrite(ghost i: nat)
      requires Running() && i < |server.Now(mac).tasks|
      modifies server, server.log
      ensures Undisturbed(i)
    {
      ghost var before := server.histories;
      server.Recordable(mac);
      var other: Mac, pending: bool, choice: int := *, *, *;
      ghost var step;
      if choice == 0 {
        server.SetPendingReboot(other, pending);
        step := if pending then Arm else Disarm;
      } else if choice == 1 {
        server.EnrollMachine(other);
        step := Enroll;
      } else {
        server.RemoveMachine(other);
        step := Remove;
      }
      server.Recordable(mac);
      TookHarmless(before, other, step, server.histories, mac, i);
    }

    method OtherMint(ghost i: nat)
      requires Running() && i < |server.Now(mac).tasks|
      modifies server
      ensures Undisturbed(i)
    {
      ghost var before := server.histories;
      server.Recordable(mac);
      var other: Mac, theirs: Token := *, *;
      if theirs !in server.sessions && theirs != token {
        server.MintSession(other, theirs);
        server.Recordable(mac);
        if other == mac {
          TookHarmless(before, other, StrayClear, server.histories, mac, i);
        } else {
          assert server.Run(mac) == RunOf(before, mac);
        }
      }
    }

    method OtherPost(ghost i: nat)
      requires Running() && i < |server.Now(mac).tasks|
      modifies server`histories, server.log
      ensures Undisturbed(i)
    {
      ghost var before := server.histories;
      server.Recordable(mac);
      var theirs: Token, state: string, detail: Option<string>, wait: nat, pause: nat :| wait >= 0 && pause >= 0;
      ghost var j: nat :| j >= 0;
      ghost var answers := theirs in server.sessions && Enabled(server.Now(server.sessions[theirs]), Answer(j))
                           && (server.sessions[theirs] != mac || j != i);
      ghost var task := if answers then Some(j) else None;
      var _ := server.PostStatus(theirs, state, detail, wait, pause, task);
      server.Recordable(mac);
      if answers {
        TookHarmless(before, server.sessions[theirs], Answer(j), server.histories, mac, i);
      }
    }

    ghost method OtherMachines(i: nat)
      requires Running() && i < |server.Now(mac).tasks|
      modifies server`histories
      ensures Undisturbed(i)
    {
      var before := server.histories;
      server.Recordable(mac);
      var other: Mac, step: Step := *, *;
      if IsMachines(step) && Enabled(server.Now(other), step) && (other != mac || Harmless(step, i)) {
        server.MachineStep(other, step);
        server.Recordable(mac);
        TookHarmless(before, other, step, server.histories, mac, i);
      }
    }

    // Any number of such things, in any order.
    method Elsewhere(ghost i: nat)
      requires Running() && i < |server.Now(mac).tasks|
      modifies server, server.log
      ensures Undisturbed(i)
    {
      var times: nat :| times >= 0;
      for n := 0 to times
        invariant Undisturbed(i)
      {
        var choice: int := *;
        if choice == 0 {
          OtherWrite(i);
        } else if choice == 1 {
          OtherMint(i);
        } else if choice == 2 {
          OtherPost(i);
        } else {
          OtherMachines(i);
        }
      }
    }

    // ---- The report ------------------------------------------------------------

    // What a reply with this code and signal makes of the report waiting for it.
    ghost function Heard(waiting: Task, r: Response): Task {
      if Accepted(r) then (if waiting.Sent? then Replied(r.pendingReboot) else AckReplied(r.pendingReboot))
      else if waiting.Sent? then Done
      else Triggering
    }

    // POST /status. The request or the reply may be lost, or refused on the way.
    method Post(state: string, detail: Option<string>, ghost i: nat, ghost waiting: Task) returns (r: Response)
      requires Doing(i, waiting) && (waiting.Sent? || waiting.AckSent?)
      modifies this`events, this`answers, server, server.log
      ensures Doing(i, Heard(waiting, r)) && Grown(old(server.Run(mac)), server.Run(mac))
      ensures old(Rebooting()) ==> Rebooting()
      ensures events == old(events) + [Posted(state, detail)] && answers == old(answers) + [r]
      ensures Accepted(r) ==> Answered(server.Run(mac), |old(server.Run(mac)).steps|, i, r.pendingReboot)
    {
      events := events + [Posted(state, detail)];
      Elsewhere(i);
      var delivered: bool := *;
      if delivered && token in server.sessions {
        r := Acknowledge(state, detail, i, waiting);
      } else {
        r := Lose(state, detail, i, waiting);
      }
      answers := answers + [r];
    }

    // The server answers, and the answer arrives.
    method Acknowledge(state: string, detail: Option<string>, ghost i: nat, ghost waiting: Task) returns (r: Response)
      requires Doing(i, waiting) && (waiting.Sent? || waiting.AckSent?) && token in server.sessions
      modifies server`histories, server.log
      ensures Accepted(r) && Doing(i, Heard(waiting, r)) && Grown(old(server.Run(mac)), server.Run(mac))
      ensures old(Rebooting()) ==> Rebooting()
      ensures AnsweredAt(server.Run(mac), |old(server.Run(mac)).steps|, i, r.pendingReboot)
    {
      ghost var before := server.histories;
      server.Recordable(mac);
      var wait: nat, pause: nat :| wait >= 0 && pause >= 0;
      var reply := server.PostStatus(token, state, detail, wait, pause, Some(i));
      server.Recordable(mac);
      TookStep(before, mac, SoftReboot.Answer(i), server.histories, mac);
      r := Reply(200, reply.pendingReboot);
    }

    // The server may still log the report, or not know the token; the reporter hears
    // nothing, or an error.
    method Lose(state: string, detail: Option<string>, ghost i: nat, ghost waiting: Task) returns (r: Response)
      requires Doing(i, waiting) && (waiting.Sent? || waiting.AckSent?)
      modifies server`histories, server.log
      ensures !Accepted(r) && Doing(i, Heard(waiting, r)) && Grown(old(server.Run(mac)), server.Run(mac))
      ensures old(Rebooting()) ==> Rebooting()
    {
      r := TransportError;
      var arrives: bool, failure: nat := *, *;
      if arrives {
        var wait: nat, pause: nat :| wait >= 0 && pause >= 0;
        var reply := server.PostStatus(token, state, detail, wait, pause, None);
        if reply.Unauthorised? {
          r := Reply(401, false);
        } else if failure >= 400 {
          r := Reply(failure, false);
        }
      }
      Move(i, Refuse(i));
    }

    method StartReboot() returns (started: bool)
      modifies this`events
      ensures events == old(events) + RebootEvents(systemctl)
      ensures started <==> systemctl.Started? || reboot.Started?
    {
      events := events + [Spawned(SYSTEMCTL)];
      started := systemctl.Started?;
      if !started {
        events := events + [Spawned(REBOOT)];
        started := reboot.Started?;
      }
    }

    // What reading the reply makes of the report: told to reboot, it has an acknowledgement
    // to send; acknowledged or not, the reboot is next.
    ghost function AfterPost(waiting: Task, r: Response): Task {
      if waiting.AckSent? then Triggering else if IsTold(r) then AckSent else Done
    }

    // The post, and what is remembered and read of an accepted one.
    method Send(state: string, detail: Option<string>, ghost i: nat, ghost waiting: Task) returns (r: Response)
      requires Doing(i, waiting) && (waiting.Sent? || waiting.AckSent?)
      modifies this`events, this`answers, server, server.log
      ensures Doing(i, AfterPost(waiting, r)) && Grown(old(server.Run(mac)), server.Run(mac))
      ensures old(Rebooting()) ==> Rebooting()
      ensures events == old(events) + ReportEvents(state, detail, r) && answers == old(answers) + [r]
      ensures Accepted(r) ==> Answered(server.Run(mac), |old(server.Run(mac)).steps|, i, r.pendingReboot)
    {
      r := Post(state, detail, i, waiting);
      if Accepted(r) {
        ghost var answered := server.Run(mac);
        events := events + [Remembered(state)];
        Move(i, Read(i));
        StillAnswered(answered, server.Run(mac), |old(server.Run(mac)).steps|, i, r.pendingReboot);
      }
    }

    // `report_state`: raises where its own post fails, and ignores a failed acknowledgement.
    method ReportState(state: string, detail: Option<string>, handlePendingReboot: bool, ghost i: nat)
      returns (out: Outcome, ghost first: Response, ghost second: Response)
      requires Doing(i, if handlePendingReboot then Sent else AckSent)
      modifies this`events, this`answers, server, server.log
      ensures Doing(i, if handlePendingReboot then Done else Triggering) && Grown(old(server.Run(mac)), server.Run(mac))
      ensures old(Rebooting()) ==> Rebooting()
      ensures answers == old(answers) + [first] + if handlePendingReboot && IsTold(first) then [second] else []
      ensures out.Failed? <==> first.TransportError? || first.status >= 400
      ensures Accepted(first) ==> Answered(server.Run(mac), |old(server.Run(mac)).steps|, i, first.pendingReboot)
      ensures events == old(events)
                        + if handlePendingReboot then TopLevelEvents(state, detail, first, second, systemctl)
                          else ReportEvents(state, detail, first)
      ensures handlePendingReboot && IsTold(first) && (systemctl.Started? || reboot.Started?) ==> Rebooting()
      decreases handlePendingReboot, 1
    {
      var response := Send(state, detail, i, if handlePendingReboot then Sent else AckSent);
      first, second := response, TransportError;
      out := if Accepted(response) then Reported else Failed;
      Sequences.NothingConcat(answers);
      if handlePendingReboot && IsTold(response) {
        ghost var answered := server.Run(mac);
        second := Obey(i);
        StillAnswered(answered, server.Run(mac), |old(server.Run(mac)).steps|, i, response.pendingReboot);
        Sequences.ConcatAssociative(old(events), ReportEvents(state, detail, first), AckEvents(second) + RebootEvents(systemctl));
      } else {
        Sequences.NothingConcat(ReportEvents(state, detail, first));
      }
    }

    // Told to reboot: acknowledge, whatever comes of it, and then reboot.
    method Obey(ghost i: nat) returns (ghost answer: Response)
      requires Doing(i, AckSent)
      modifies this`events, this`answers, server, server.log
      ensures Doing(i, Done) && Grown(old(server.Run(mac)), server.Run(mac))
      ensures old(Rebooting()) || systemctl.Started? || reboot.Started? ==> Rebooting()
      ensures answers == old(answers) + [answer]
      ensures events == old(events) + (AckEvents(answer) + RebootEvents(systemctl))
      decreases true, 0
    {
      ghost var unused;
      var out;
      out, answer, unused := ReportState(ACK_STATE, Some(ACK_DETAIL), false, i);
      Sequences.NothingConcat(answers);
      var started := StartReboot();
      Sequences.ConcatAssociative(old(events), AckEvents(answer), RebootEvents(systemctl));
      if started {
        Move(i, Trigger(i));
      } else {
        Move(i, TriggerFails(i));
      }
    }

    // A report of the running image, from the command line or the heartbeat timer.
    method Report(state: string, detail: Option<string>)
      returns (out: Outcome, ghost i: nat, ghost first: Response, ghost second: Response)
      requires Running()
      modifies this`events, this`answers, server, server.log
      ensures Doing(i, Done) && Grown(old(server.Run(mac)), server.Run(mac))
      ensures answers == old(answers) + [first] + if IsTold(first) then [second] else []
      ensures out.Failed? <==> first.TransportError? || first.status >= 400
      ensures events == old(events) + TopLevelEvents(state, detail, first, second, systemctl)
      ensures Accepted(first) ==> Answered(server.Run(mac), |old(server.Run(mac)).steps|, i, first.pendingReboot)
      ensures IsTold(first) && (systemctl.Started? || reboot.Started?) ==> Rebooting()
    {
      i := |server.Now(mac).tasks|;
      ghost var before := server.histories;
      server.Recordable(mac);
      server.MachineStep(mac, SoftReboot.Report);
      server.Recordable(mac);
      TookStep(before, mac, SoftReboot.Report, server.histories, mac);
      ghost var started := server.Run(mac);
      out, first, second := ReportState(state, detail, true, i);
      if Accepted(first) {
        EarlierAnswered(server.Run(mac), |started.steps|, |RunOf(before, mac).steps|, i, first.pendingReboot);
      }
    }
  }

  // ---- What one report does, and may do --------------------------------------

  // The server took the post.
  ghost predicate Taken(r: Response) {
    r.Reply? && r.status < 400
  }

  // Everything a report does, told one by one.
  lemma EventsAre(state: string, detail: Option<string>, first: Response, second: Response, spawn: Spawn)
    ensures var events := TopLevelEvents(state, detail, first, second, spawn);
            && (!Taken(first) ==> events == [Posted(state, detail)])
            && (Taken(first) && !first.pendingReboot ==> events == [Posted(state, detail), Remembered(state)])
            && (Taken(first) && first.pendingReboot ==>
                  events == [Posted(state, detail), Remembered(state), Posted("rebooting", Some("soft-reboot signal acknowledged"))]
                            + (if Taken(second) then [Remembered("rebooting")] else [])
                            + ([Spawned(["systemctl", "reboot"])] + if spawn.NotFound? then [Spawned(["reboot"])] else []))
  {
    var head, ack := [Posted(state, detail), Remembered(state)], [Posted(ACK_STATE, Some(ACK_DETAIL))];
    var taken := if Taken(second) then [Remembered(ACK_STATE)] else [];
    if Taken(first) && first.pendingReboot {
      assert RebootEvents(spawn) == [Spawned(SYSTEMCTL)] + if spawn.NotFound? then [Spawned(REBOOT)] else [];
      assert ReportEvents(state, detail, first) == head && AckEvents(second) == ack + taken;
      Sequences.ConcatInside(head, ack, taken, RebootEvents(spawn), []);
      assert head + ack == [Posted(state, detail), Remembered(state), Posted(ACK_STATE, Some(ACK_DETAIL))];
    } else if Taken(first) {
      Sequences.NothingConcat(head);
    } else {
      Sequences.NothingConcat([Posted(state, detail)]);
    }
  }

  function CountPosts(events: seq<Event>): nat {
    if events == [] then 0 else (if events[0].Posted? then 1 else 0) + CountPosts(events[1..])
  }

  lemma {:induction false} CountPostsConcat(a: seq<Event>, b: seq<Event>)
    ensures CountPosts(a + b) == CountPosts(a) + CountPosts(b)
  {
    if a == [] {
      assert a + b == b;
    } else {
      CountPostsConcat(a[1..], b);
      assert (a + b)[1..] == a[1..] + b;
    }
  }

  lemma CountParts(state: string, detail: Option<string>, second: Response, spawn: Spawn)
    ensures CountPosts([Posted(state, detail)]) == 1 && CountPosts([Remembered(state)]) == 0
    ensures CountPosts(AckEvents(second)) == 1 && CountPosts(RebootEvents(spawn)) == 0
  {
    var tries := RebootEvents(spawn);
    assert tries[1..] == [] || tries[1..] == [Spawned(REBOOT)];
    assert CountPosts([Spawned(REBOOT)]) == 0;
    var ack := Posted(ACK_STATE, Some(ACK_DETAIL));
    CountPostsConcat([ack], [Remembered(ACK_STATE)]);
    assert [ack] + [] == [ack];
  }

  // Two posts at most, the second only when the server raised the signal.
  lemma AtMostTwoPosts(state: string, detail: Option<string>, first: Response, second: Response, spawn: Spawn)
    ensures CountPosts(TopLevelEvents(state, detail, first, second, spawn))
         == if Accepted(first) && first.pendingReboot then 2 else 1
  {
    CountParts(state, detail, second, spawn);
    var remembered := if Accepted(first) then [Remembered(state)] else [];
    var rest := if Accepted(first) && first.pendingReboot then AckEvents(second) + RebootEvents(spawn) else [];
    CountPostsConcat([Posted(state, detail)] + remembered, rest);
    CountPostsConcat([Posted(state, detail)], remembered);
    CountPostsConcat(AckEvents(second), RebootEvents(spawn));
  }

  ghost predicate IsReboot(e: Event) {
    e.Spawned?
  }

  // A reboot is tried exactly when an accepted reply raised the signal, whatever becomes
  // of the acknowledgement, and only after that was posted.
  lemma RebootsIff(state: string, detail: Option<string>, first: Response, second: Response, spawn: Spawn, i: nat)
    requires i < |TopLevelEvents(state, detail, first, second, spawn)|
    ensures var events := TopLevelEvents(state, detail, first, second, spawn);
            && (IsReboot(events[|events| - 1]) <==> Accepted(first) && first.pendingReboot)
            && (IsReboot(events[i]) ==> Accepted(first) && first.pendingReboot
                                        && i >= 3 && events[2] == Posted(ACK_STATE, Some(ACK_DETAIL)))
  {
    var head := [Posted(state, detail)] + if Accepted(first) then [Remembered(state)] else [];
    if Accepted(first) && first.pendingReboot {
      var tail := AckEvents(second) + RebootEvents(spawn);
      var events := TopLevelEvents(state, detail, first, second, spawn);
      assert events == head + tail;
      assert tail[|tail| - 1] == RebootEvents(spawn)[|RebootEvents(spawn)| - 1];
      assert i >= 2 ==> events[i] == tail[i - 2];
    }
  }

  // The state the heartbeat will repeat: that of the last post the server accepted.
  function LastRemembered(events: seq<Event>): Option<string> {
    if events == [] then None
    else if events[|events| - 1].Remembered? then Some(events[|events| - 1].state)
    else LastRemembered(events[..|events| - 1])
  }

  lemma {:induction false} LastRememberedConcat(a: seq<Event>, b: seq<Event>)
    ensures LastRemembered(a + b) == if LastRemembered(b).Some? then LastRemembered(b) else LastRemembered(a)
  {
    if b == [] {
      assert a + b == a;
    } else {
      LastRememberedConcat(a, b[..|b| - 1]);
      assert (a + b)[..|a + b| - 1] == a + b[..|b| - 1];
    }
  }

  lemma HeartbeatState(state: string, detail: Option<string>, first: Response, second: Response, spawn: Spawn)
    ensures LastRemembered(TopLevelEvents(state, detail, first, second, spawn))
         == if !Accepted(first) then None
            else if first.pendingReboot && Accepted(second) then Some(ACK_STATE)
            else Some(state)
  {
    var posted, ack := [Posted(state, detail)], [Posted(ACK_STATE, Some(ACK_DETAIL))];
    var remembered := if Accepted(first) then [Remembered(state)] else [];
    var acked := if Accepted(second) then [Remembered(ACK_STATE)] else [];
    var rest := if Accepted(first) && first.pendingReboot then AckEvents(second) + RebootEvents(spawn) else [];
    LastRememberedConcat(posted + remembered, rest);
    LastRememberedConcat(posted, remembered);
    LastRememberedConcat(AckEvents(second), RebootEvents(spawn));
    LastRememberedConcat(ack, acked);
    var tries := RebootEvents(spawn);
    assert tries[..|tries| - 1] == [] || tries[..|tries| - 1] == [Spawned(SYSTEMCTL)];
    assert [Spawned(SYSTEMCTL)][..0] == [];
    assert LastRemembered([Spawned(SYSTEMCTL)]) == None;
  }
}
