/**
  The server's side of the soft-reboot signal: the session store, the machine rows and the
  boot log that minting a session and answering a status report change. The server keeps
  a record of every machine's run, in which the machine's own steps appear too.
*/
module StatusServer {
  import opened Options
  import BootLog
  import opened SoftReboot

  type Mac = BootLog.Mac
  type Token = string

  datatype Reply = Unauthorised | Acknowledged(mac: Mac, state: string, pendingReboot: bool)

  ghost function RunOf(histories: map<Mac, History>, mac: Mac): History {
    if mac in histories then histories[mac] else NO_HISTORY
  }

  ghost predicate Agree(machines: map<Mac, bool>, histories: map<Mac, History>) {
    forall mac: Mac :: AgreesOn(machines, mac, RunOf(histories, mac))
  }

  // The machine's row holds what its run has brought it to.
  ghost predicate AgreesOn(machines: map<Mac, bool>, mac: Mac, h: History) {
    Recorded(h) && RowFollows(machines, mac, Last(h))
  }

  ghost predicate RowFollows(machines: map<Mac, bool>, mac: Mac, s: State) {
    && (s.enrolled <==> mac in machines)
    && (s.pending <==> mac in machines && machines[mac])
  }

  // The machine's run has gone on by these steps, and no other run has.
  ghost predicate Took(before: map<Mac, History>, mac: Mac, steps: seq<Step>, after: map<Mac, History>) {
    && (forall m :: m != mac ==> RunOf(after, m) == RunOf(before, m))
    && RunOf(after, mac).steps == RunOf(before, mac).steps + steps
    && RunOf(before, mac).states <= RunOf(after, mac).states
  }

  lemma TookTwo(before: map<Mac, History>, midway: map<Mac, History>, after: map<Mac, History>, mac: Mac, first: Step, second: Step)
    requires Took(before, mac, [first], midway) && Took(midway, mac, [second], after)
    ensures Took(before, mac, [first, second], after)
  {
    var steps := RunOf(before, mac).steps;
    assert steps + [first] + [second] == steps + [first, second];
  }

  lemma NothingAgrees()
    ensures Agree(map[], map[])
  {
    forall mac: Mac
      ensures AgreesOn(map[], mac, RunOf(map[], mac))
    {
    }
  }

  // One machine takes a step and its row follows: the others still agree.
  lemma StillAgree(rows: map<Mac, bool>, histories: map<Mac, History>, machines: map<Mac, bool>, mac: Mac, h: History)
    requires Agree(rows, histories) && AgreesOn(machines, mac, h) && machines - {mac} == rows - {mac}
    ensures Agree(machines, histories[mac := h])
  {
    var after := histories[mac := h];
    forall m
      ensures AgreesOn(machines, m, RunOf(after, m))
    {
      if m != mac {
        assert AgreesOn(rows, m, RunOf(histories, m));
        SameRow(rows, machines, mac, m);
      }
    }
  }

  lemma SameRow(rows: map<Mac, bool>, machines: map<Mac, bool>, mac: Mac, m: Mac)
    requires machines - {mac} == rows - {mac} && m != mac
    ensures (m in machines <==> m in rows) && (m in rows ==> machines[m] == rows[m])
  {
    assert m in machines <==> m in machines - {mac};
    assert m in rows <==> m in rows - {mac};
    assert m in rows ==> machines[m] == (machines - {mac})[m] == (rows - {mac})[m] == rows[m];
  }

  lemma TookOne(histories: map<Mac, History>, mac: Mac, step: Step)
    requires Recorded(RunOf(histories, mac)) && Enabled(Last(RunOf(histories, mac)), step)
    ensures Took(histories, mac, [step], histories[mac := Extend(RunOf(histories, mac), step)])
  {
  }

  class Server {
    // The MAC of each session, and the pending_reboot column of each enrolled machine.
    var sessions: map<Token, Mac>
    var machines: map<Mac, bool>
    const log: BootLog.Log
    // The run of every machine something has happened to.
    ghost var histories: map<Mac, History>

    ghost predicate Valid()
      reads this, log
    {
      log.Valid() && Agree(machines, histories)
    }

    ghost function Run(mac: Mac): History
      reads this
    {
      RunOf(histories, mac)
    }

    // Where the machine stands in the protocol.
    ghost function Now(mac: Mac): State
      requires Valid()
      reads this, log
    {
      assert AgreesOn(machines, mac, RunOf(histories, mac));
      Last(RunOf(histories, mac))
    }

    constructor ()
      ensures Valid() && fresh(log) && sessions == map[] && machines == map[] && histories == map[]
    {
      log := new BootLog.Log(0);
      sessions, machines, histories := map[], map[], map[];
      new;
      NothingAgrees();
    }

    // ---- The server's operations -----------------------------------------------

    // POST /sessions: the session first, then the signal is lowered. `token` is fresh.
    method MintSession(mac: Mac, token: Token)
      requires Valid() && token !in sessions
      modifies this`sessions, this`machines, this`histories
      ensures Valid() && sessions == old(sessions)[token := mac]
      ensures machines == if mac in old(machines) then old(machines)[mac := false] else old(machines)
      ensures old(Now(mac)).phase.Down? ==>
                && Took(old(histories), mac, [Mint, Clear], histories)
                && Now(mac) == old(Now(mac)).(phase := Cleared, pending := false)
      ensures !old(Now(mac)).phase.Down? ==> Took(old(histories), mac, [StrayClear], histories)
    {
      sessions := sessions[token := mac];
      ghost var before := histories;
      ghost var starts := StartBoot(mac);
      ghost var midway := histories;
      LowerAs(mac, if starts then Clear else StrayClear);
      if starts {
        TookTwo(before, midway, histories, mac, Mint, Clear);
      }
    }

    // A mint between two boots starts one.
    ghost method StartBoot(mac: Mac) returns (starts: bool)
      requires Valid()
      modifies this`histories
      ensures Valid() && starts == old(Now(mac)).phase.Down?
      ensures starts ==> Took(old(histories), mac, [Mint], histories) && Now(mac) == old(Now(mac)).(phase := Minted)
      ensures !starts ==> histories == old(histories)
    {
      starts := Now(mac).phase.Down?;
      if starts {
        Record(mac, Mint, machines);
      }
    }

    // set_pending_reboot(mac, False), as the protocol's `step`.
    method LowerAs(mac: Mac, ghost step: Step)
      requires Valid() && (step == Clear || step == StrayClear || step == Disarm) && Enabled(Now(mac), step)
      modifies this`machines, this`histories
      ensures Valid() && Took(old(histories), mac, [step], histories) && Now(mac) == Next(old(Now(mac)), step)
      ensures machines == if mac in old(machines) then old(machines)[mac := false] else old(machines)
    {
      ghost var rows := machines;
      if mac in machines {
        machines := machines[mac := false];
      }
      Record(mac, step, rows);
    }

    method SetPendingReboot(mac: Mac, pending: bool)
      requires Valid()
      modifies this`machines, this`histories
      ensures Valid() && Took(old(histories), mac, [if pending then Arm else Disarm], histories)
      ensures Now(mac) == Next(old(Now(mac)), if pending then Arm else Disarm)
      ensures machines == if mac in old(machines) then old(machines)[mac := pending] else old(machines)
    {
      if pending {
        ghost var rows := machines;
        if mac in machines {
          machines := machines[mac := true];
        }
        Record(mac, Arm, rows);
      } else {
        LowerAs(mac, Disarm);
      }
    }

    // POST /status. `task` is the report of the running image this answers, if it is one.
    method PostStatus(token: Token, state: string, detail: Option<string>, wait: nat, pause: nat, ghost task: Option<nat>)
      returns (reply: Reply)
      requires Valid()
      requires task.Some? ==> token in sessions && Enabled(Now(sessions[token]), Answer(task.value))
      modifies log, this`histories
      ensures Valid()
      ensures token !in sessions ==> reply == Unauthorised && log.reports == old(log.reports) && log.rows == old(log.rows)
      ensures token in sessions ==>
                && reply == Acknowledged(sessions[token], state, old(Now(sessions[token])).pending)
                && log.reports == old(log.reports) + [BootLog.Report(sessions[token], state, detail, log.now)]
      ensures if task.None? then histories == old(histories)
              else Took(old(histories), sessions[token], [Answer(task.value)], histories)
                   && Now(sessions[token]) == Next(old(Now(sessions[token])), Answer(task.value))
    {
      if token !in sessions {
        reply := Unauthorised;
      } else {
        var mac := sessions[token];
        log.LogBootEvent(mac, state, detail, wait, pause);
        var pendingReboot := mac in machines && machines[mac];
        reply := Acknowledged(mac, state, pendingReboot);
        assert AgreesOn(machines, mac, Run(mac));
        if task.Some? {
          Record(mac, Answer(task.value), machines);
        }
      }
    }

    // A new or replaced machine row: every column at its default.
    method EnrollMachine(mac: Mac)
      requires Valid()
      modifies this`machines, this`histories
      ensures Valid() && machines == old(machines)[mac := false]
      ensures Took(old(histories), mac, [Enroll], histories) && Now(mac) == Next(old(Now(mac)), Enroll)
    {
      ghost var rows := machines;
      machines := machines[mac := false];
      Record(mac, Enroll, rows);
    }

    // The machine's events, its sessions and its row, in that order.
    method RemoveMachine(mac: Mac)
      requires Valid()
      modifies this`sessions, this`machines, this`histories, log
      ensures Valid() && machines == old(machines) - {mac} && Took(old(histories), mac, [Remove], histories)
      ensures sessions == map t | t in old(sessions) && old(sessions)[t] != mac :: old(sessions)[t]
      ensures log.rows == BootLog.OthersThan(old(log.rows), mac)
    {
      log.RemoveEvents(mac);
      sessions := map t | t in sessions && sessions[t] != mac :: sessions[t];
      ghost var rows := machines;
      machines := machines - {mac};
      Record(mac, Remove, rows);
    }

    // ---- The record ------------------------------------------------------------

    // The machine does something by itself: it boots, its reporters go on, its boot ends.
    ghost method MachineStep(mac: Mac, step: Step)
      requires Valid() && IsMachines(step) && Enabled(Now(mac), step)
      modifies this`histories
      ensures Valid() && Took(old(histories), mac, [step], histories) && Now(mac) == Next(old(Now(mac)), step)
    {
      Record(mac, step, machines);
    }

    // Adds a step to the record of a machine whose row has just followed it; `rows` are
    // the rows before.
    ghost method Record(mac: Mac, step: Step, rows: map<Mac, bool>)
      requires log.Valid() && Agree(rows, histories) && machines - {mac} == rows - {mac}
      requires Recorded(Run(mac)) && Enabled(Last(Run(mac)), step) && RowFollows(machines, mac, Next(Last(Run(mac)), step))
      modifies this`histories
      ensures Valid() && Took(old(histories), mac, [step], histories)
      ensures Now(mac) == Next(Last(old(Run(mac))), step)
    {
      assert AgreesOn(rows, mac, Run(mac));
      ExtendRecorded(Run(mac), step);
      StillAgree(rows, histories, machines, mac, Extend(Run(mac), step));
      TookOne(histories, mac, step);
      histories := histories[mac := Extend(Run(mac), step)];
    }

    // ---- What holds of the server's own runs -----------------------------------

    lemma Recordable(mac: Mac)
      requires Valid()
      ensures Recorded(Run(mac)) && Inv(Now(mac))
    {
      assert AgreesOn(machines, mac, Run(mac));
      RunInv(Run(mac).states, Run(mac).steps, |Run(mac).steps|);
    }

    // No machine is ever rebooted by the signal more often than the server raised it.
    lemma NeverLoops(mac: Mac, i: nat, j: nat)
      requires Valid() && i <= j < |Run(mac).states|
      ensures Run(mac).states[j].softEnds <= Run(mac).states[j].arms
      ensures Run(mac).states[j].softEnds - Run(mac).states[i].softEnds
              <= Run(mac).states[j].arms - Run(mac).states[i].arms + if Doomed(Run(mac).states[i]) then 1 else 0
    {
      Recordable(mac);
      NoRebootLoop(Run(mac).states, Run(mac).steps, i, j);
    }

    // Once a mint has lowered the signal, no boot of the machine ends by it until the
    // server raises it again.
    lemma QuietUntilArmed(mac: Mac, i: nat, j: nat)
      requires Valid() && i <= j < |Run(mac).steps| && Run(mac).steps[i] == Clear
      requires forall k :: i < k < j ==> !Run(mac).steps[k].Arm?
      ensures !Run(mac).steps[j].SoftEnd?
    {
      Recordable(mac);
      MintEndsIt(Run(mac).states, Run(mac).steps, i, j);
    }
  }

  // Told to reboot, the machine loses its acknowledgement and reboots.
  ghost method Obeys(server: Server, mac: Mac)
    requires server.Valid() && server.Now(mac).phase.Up? && server.Now(mac).tasks == [Replied(true)]
    modifies server`histories
    ensures server.Valid() && server.Now(mac).softEnds == old(server.Now(mac)).softEnds + 1
    ensures server.Now(mac).arms == old(server.Now(mac)).arms
  {
    server.MachineStep(mac, Read(0));
    server.MachineStep(mac, Refuse(0));
    server.MachineStep(mac, Trigger(0));
    server.MachineStep(mac, SoftEnd);
  }

  method Booted(mac: Mac, token: Token) returns (server: Server)
    ensures fresh(server) && fresh(server.log) && server.Valid() && server.sessions == map[token := mac] && mac in server.machines
    ensures server.Now(mac) == INITIAL.(enrolled := true, phase := Up(false))
  {
    server := new Server();
    server.EnrollMachine(mac);
    server.MintSession(mac, token);
    server.MachineStep(mac, Boot);
  }

  // The bound is met: a server whose machine was armed once and rebooted by it once.
  method OneSoftReboot(mac: Mac, token: Token) returns (server: Server)
    ensures fresh(server) && fresh(server.log) && server.Valid()
    ensures server.Now(mac).arms == 1 && server.Now(mac).softEnds == 1
  {
    server := Booted(mac, token);
    server.MachineStep(mac, Report);
    server.SetPendingReboot(mac, true);
    var reply := server.PostStatus(token, "network_up", None, 0, 0, Some(0));
    assert reply.pendingReboot;
    Obeys(server, mac);
  }
}
