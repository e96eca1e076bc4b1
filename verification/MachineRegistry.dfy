/**
  The registry's reservation methods. Each issues its SQL statements one by one, with
  the clock advancing in between, and keeps a record of the run it has executed; that
  run is what the whole-run theorems speak about.
*/
module MachineRegistry {
  import opened Options
  import opened Architectures
  import opened LeaseSweeps
  import opened Ordering
  import opened Sequences
  import opened Text
  import opened Reservations
  import opened ReservationRuns

  datatype Exception = ValueError | AssertionError

  // A machine row as looked up.
  datatype Found = Found(mac: Mac, machine: Machine)

  predicate OnMachines(st: Statement) {
    || st.EnrollNew? || st.EnrollReplace? || st.EnrollCarry?
    || st.SetProfile? || st.SetPending? || st.ReserveSwitch? || st.RemoveMachine?
  }

  lemma NoLeaseLater(rows: seq<Reservation>, macs: seq<Mac>, before: int, now: int)
    requires before <= now && forall m :: m in macs ==> !HasActiveLease(rows, m, before)
    ensures forall m :: m in macs ==> !HasActiveLease(rows, m, now)
  {
  }

  // The machines `reserve` may choose from: no active hold, and of the architecture
  // asked for, if any.
  function Available(machines: map<Mac, Machine>, rows: seq<Reservation>, architecture: Option<string>, now: int): set<Mac> {
    set mac | mac in machines && !HasActive(rows, mac, now)
              && (architecture.None? || architecture.value == ""
                  || machines[mac].architecture in ArchitectureAliases(architecture.value))
  }

  // ORDER BY mac LIMIT count
  function FirstOf(macs: set<Mac>, count: int): seq<Mac> {
    var sorted := Sorted(macs);
    if count <= 0 then [] else if count <= |sorted| then sorted[..count] else sorted
  }

  // No unreleased reservation but an expired one, and of the architecture asked for, if
  // any, by whatever name.
  ghost predicate IsAvailable(machines: map<Mac, Machine>, rows: seq<Reservation>, architecture: Option<string>, now: int, mac: Mac) {
    && mac in machines
    && (forall i :: 0 <= i < |rows| && rows[i].mac == mac ==>
          rows[i].released.Some? || (rows[i].expiresAt.Some? && rows[i].expiresAt.value <= now))
    && (architecture.Some? && architecture.value != "" ==> SameArchitecture(machines[mac].architecture, architecture.value))
  }

  lemma AvailableIff(machines: map<Mac, Machine>, rows: seq<Reservation>, architecture: Option<string>, now: int, mac: Mac)
    ensures mac in Available(machines, rows, architecture, now) <==> IsAvailable(machines, rows, architecture, now, mac)
  {
    if mac in machines && architecture.Some? {
      AliasesAre(machines[mac].architecture, architecture.value);
    }
    assert HasActive(rows, mac, now) <==> exists i :: 0 <= i < |rows| && rows[i].mac == mac && Active(rows[i], now);
  }

  // As many as asked for, if there are so many, and the first of them by MAC.
  ghost predicate Chosen(leased: seq<Mac>, machines: map<Mac, Machine>, rows: seq<Reservation>, architecture: Option<string>,
                         now: int, count: int)
  {
    && NoDuplicates(leased) && InNameOrder(leased)
    && (forall k :: 0 <= k < |leased| ==> IsAvailable(machines, rows, architecture, now, leased[k]))
    && |leased| <= (if count < 0 then 0 else count)
    && forall mac :: IsAvailable(machines, rows, architecture, now, mac) && mac !in leased ==>
         |leased| == (if count < 0 then 0 else count) && forall k :: 0 <= k < |leased| ==> LexLe(leased[k], mac)
  }

  lemma FirstAreChosen(machines: map<Mac, Machine>, rows: seq<Reservation>, architecture: Option<string>, now: int, count: int)
    ensures Chosen(FirstOf(Available(machines, rows, architecture, now), count), machines, rows, architecture, now, count)
  {
    var available := Available(machines, rows, architecture, now);
    var all, leased := Sorted(available), FirstOf(available, count);
    SortedNoDuplicates(available);
    SortedInNameOrder(available);
    SortedWithin(available);
    forall k | 0 <= k < |leased|
      ensures IsAvailable(machines, rows, architecture, now, leased[k])
    {
      assert all[k] in available;
      AvailableIff(machines, rows, architecture, now, leased[k]);
    }
    forall mac | IsAvailable(machines, rows, architecture, now, mac) && mac !in leased
      ensures |leased| == (if count < 0 then 0 else count) && forall k :: 0 <= k < |leased| ==> LexLe(leased[k], mac)
    {
      AvailableIff(machines, rows, architecture, now, mac);
      var i :| 0 <= i < |all| && all[i] == mac;
      assert i >= |leased|;
    }
  }

  function AllSwitched(machines: map<Mac, Machine>, macs: seq<Mac>, profile: string): map<Mac, Machine> {
    map mac | mac in machines :: if mac in macs then machines[mac].(profile := profile) else machines[mac]
  }

  lemma NoneSwitched(machines: map<Mac, Machine>, profile: string)
    ensures AllSwitched(machines, [], profile) == machines
  {
  }

  lemma NotDoneYet(macs: seq<Mac>, i: nat)
    requires NoDuplicates(macs) && i < |macs|
    ensures macs[i] !in macs[..i]
  {
  }

  lemma FirstAvailable(machines: map<Mac, Machine>, rows: seq<Reservation>, architecture: Option<string>, now: int, count: int)
    ensures var chosen := FirstOf(Available(machines, rows, architecture, now), count);
            && NoDuplicates(chosen)
            && forall i :: 0 <= i < |chosen| ==> chosen[i] in machines && !HasActive(rows, chosen[i], now)
  {
    var available := Available(machines, rows, architecture, now);
    SortedNoDuplicates(available);
    SortedWithin(available);
  }

  // The machine switched to the profile it is pinned for, if that names one.
  function Switched(machines: map<Mac, Machine>, mac: Mac, profile: Option<string>): map<Mac, Machine>
    requires mac in machines
  {
    if profile.Some? && Strip(profile.value) != "" then
      machines[mac := machines[mac].(profile := Strip(profile.value))]
    else
      machines
  }

  // A permanent hold just written.
  ghost predicate IsNewHold(r: Reservation, mac: Mac, owner: string, profile: Option<string>, from: int, to: int) {
    && r.mac == mac && r.holder == owner && r.kind == Permanent && r.profile == profile
    && from <= r.acquiredAt <= to && r.expiresAt.None? && Unreleased(r)
  }

  // What the migration has done: every machine without an unreleased reservation has a
  // new permanent hold, and no other reservation was written or changed.
  ghost predicate Migrated(s: State, s': State) {
    && s'.machines == s.machines && s.rows <= s'.rows
    && (forall i :: |s.rows| <= i < |s'.rows| ==> MigratedFor(s, s'.rows[i]))
    && (forall mac :: mac in s.machines && !HasUnreleased(s.rows, mac) ==> HasHold(s'.rows, mac))
  }

  ghost predicate MigratedFor(s: State, r: Reservation) {
    && r.mac in s.machines && !HasUnreleased(s.rows, r.mac)
    && r.kind == Permanent && r.holder == s.machines[r.mac].enrolledBy && r.profile == Some(s.machines[r.mac].profile)
    && Unreleased(r)
  }

  lemma MigrationHolds(s: State, macs: seq<Mac>)
    requires Sound(s) && (s.holder.MigratingOnce? || s.holder.Free?)
    requires macs == Sorted(set mac | mac in s.machines && !HasUnreleased(s.rows, mac))
    ensures Enabled(s, MigrateInsert(macs)) && Migrated(s, Next(s, MigrateInsert(macs)))
  {
    SortedNoDuplicates(set mac | mac in s.machines && !HasUnreleased(s.rows, mac));
    SoundMigrate(s, macs);
    MigratedRows(s, macs);
  }

  lemma MigratedRows(s: State, macs: seq<Mac>)
    requires Enabled(s, MigrateInsert(macs))
    ensures s.rows <= Next(s, MigrateInsert(macs)).rows
    ensures forall i :: |s.rows| <= i < |Next(s, MigrateInsert(macs)).rows| ==>
              MigratedFor(s, Next(s, MigrateInsert(macs)).rows[i])
  {
    var rows, more := s.rows, MigrationRows(s.machines, macs, s.nextId, s.clock);
    forall i | |rows| <= i < |rows + more|
      ensures MigratedFor(s, (rows + more)[i])
    {
      ConcatIndex(rows, more, i);
      assert macs[i - |rows|] in macs;
    }
  }

  // Migrating again, as after a crash before the flag was set, writes nothing more.
  lemma MigratesOnce(s: State, s': State, s'': State)
    requires Migrated(s, s') && Migrated(s', s'')
    ensures s''.rows == s'.rows
  {
    forall mac | mac in s.machines
      ensures HasUnreleased(s'.rows, mac)
    {
      if HasUnreleased(s.rows, mac) {
        var i :| 0 <= i < |s.rows| && s.rows[i].mac == mac && Unreleased(s.rows[i]);
        assert s'.rows[i] == s.rows[i];
      }
    }
    assert |s''.rows| > |s'.rows| ==> MigratedFor(s', s''.rows[|s'.rows|]);
  }

  // `r` is the one active reservation of the machine, or None when there is none.
  ghost predicate IsActiveHold(r: Option<Reservation>, rows: seq<Reservation>, mac: Mac, now: int) {
    && (r.Some? <==> HasActive(rows, mac, now))
    && (r.Some? ==> r.value in rows && r.value.mac == mac && Active(r.value, now))
    && (r.Some? ==> forall x :: x in rows && x.mac == mac && Active(x, now) ==> x == r.value)
  }

  // What `enroll` has done when it drops the lock.
  ghost predicate EnrolledAs(s: State, s': State, mac: Mac, machine: Machine) {
    && s'.machines == s.machines[mac := machine.(carried := if mac in s.machines then s.machines[mac].carried else None)]
    && (mac in s.machines ==> s'.rows == s.rows)
    && (mac !in s.machines ==>
          exists row :: s'.rows == s.rows + [row]
                        && IsNewHold(row, mac, machine.enrolledBy, Some(machine.profile), s.clock, s'.clock))
  }

  // What `pin` has done when it drops the lock: ended whatever hold there was and written
  // the permanent one `row`.
  ghost predicate PinnedAs(s: State, s': State, mac: Mac, owner: string, profile: Option<string>, row: Reservation) {
    && mac in s.machines && s'.machines == Switched(s.machines, mac, profile)
    && IsNewHold(row, mac, owner, profile, s.clock, s'.clock)
    && exists t :: s.clock <= t <= s'.clock && s'.rows == EndWhere(s.rows, UnreleasedOf(mac), t, ByPin) + [row]
  }

  // What `reserve` has done when it drops the lock: of the machines available at `at` the
  // first `count` by MAC are leased and switched to `profile`.
  ghost predicate ReservedAs(s: State, s': State, profile: string, count: int, owner: string, ttl: int,
                             architecture: Option<string>, leased: seq<Mac>, at: int)
  {
    && s.clock <= at <= s'.clock
    && Chosen(leased, s.machines, s.rows, architecture, at, count)
    && s'.machines == AllSwitched(s.machines, leased, profile)
    && Claimed(s.rows, s'.rows, leased, owner, profile, ttl, at, s'.clock)
  }

  lemma LeasedAreEnrolled(s: State, s': State, profile: string, count: int, owner: string, ttl: int,
                          architecture: Option<string>, leased: seq<Mac>, at: int)
    requires ReservedAs(s, s', profile, count, owner, ttl, architecture, leased, at)
    ensures forall k :: 0 <= k < |leased| ==> leased[k] in s'.machines
  {
    assert forall k :: 0 <= k < |leased| ==> IsAvailable(s.machines, s.rows, architecture, at, leased[k]);
  }

  // ---- Looking machines up ---------------------------------------------------

  ghost function LookedUp(s: State, mac: Mac): seq<Found> {
    if mac in s.machines then [Found(mac, s.machines[mac])] else []
  }

  // The rows found for `macs`, each looked up in the state seen then.
  ghost function Lookups(seen: seq<State>, macs: seq<Mac>): seq<Found>
    requires |seen| == |macs|
  {
    if macs == [] then []
    else
      var k := |macs| - 1;
      Lookups(seen[..k], macs[..k]) + LookedUp(seen[k], macs[k])
  }

  // `seen` are the states of a run at these moments, one after the other.
  ghost predicate SeenInTurn(states: seq<State>, from: nat, moments: seq<nat>, seen: seq<State>) {
    && |moments| == |seen|
    && (forall k :: 0 <= k < |seen| ==> from <= moments[k] < |states| && seen[k] == states[moments[k]])
    && forall i, j :: 0 <= i < j < |moments| ==> moments[i] <= moments[j]
  }

  lemma SeenLater(states: seq<State>, states': seq<State>, from: nat, moments: seq<nat>, seen: seq<State>)
    requires states <= states' && from < |states| && SeenInTurn(states, from, moments, seen)
    ensures SeenInTurn(states', from, moments + [|states'| - 1], seen + [states'[|states'| - 1]])
  {
  }

  lemma LookupsSnoc(seen: seq<State>, macs: seq<Mac>, s: State, mac: Mac)
    requires |seen| == |macs|
    ensures Lookups(seen + [s], macs + [mac]) == Lookups(seen, macs) + LookedUp(s, mac)
  {
    assert (seen + [s])[..|macs|] == seen;
    assert (macs + [mac])[..|macs|] == macs;
  }

  lemma {:induction false} AllFound(seen: seq<State>, macs: seq<Mac>)
    requires |seen| == |macs| && forall k :: 0 <= k < |macs| ==> macs[k] in seen[k].machines
    ensures |Lookups(seen, macs)| == |macs|
    ensures forall k :: 0 <= k < |macs| ==> Lookups(seen, macs)[k] == Found(macs[k], seen[k].machines[macs[k]])
  {
    if macs == [] {
    } else {
      AllFound(seen[..|macs| - 1], macs[..|macs| - 1]);
    }
  }

  // Machines that no one removes are all found again.
  lemma NoneRemoved(states: seq<State>, sts: seq<Statement>, n: nat, moments: seq<nat>, seen: seq<State>, macs: seq<Mac>)
    requires IsRun(states, sts) && n <= |sts| && SeenInTurn(states, n, moments, seen) && |seen| == |macs|
    requires forall k :: 0 <= k < |macs| ==> macs[k] in states[n].machines
    requires forall j :: n <= j < |sts| && sts[j].RemoveMachine? ==> sts[j].mac !in macs
    ensures |Lookups(seen, macs)| == |macs|
    ensures forall k :: 0 <= k < |macs| ==> Lookups(seen, macs)[k].mac == macs[k]
  {
    forall k | 0 <= k < |macs|
      ensures macs[k] in seen[k].machines
    {
      if macs[k] !in states[moments[k]].machines {
        var j := RemovedBetween(states, sts, n, moments[k], macs[k]);
        assert false;
      }
    }
    AllFound(seen, macs);
  }

  lemma ActiveSnoc(rows: seq<Reservation>, i: nat, now: int)
    requires i < |rows|
    ensures forall mac :: HasActive(rows[..i + 1], mac, now) <==>
              HasActive(rows[..i], mac, now) || (rows[i].mac == mac && Active(rows[i], now))
  {
    assert rows[..i + 1] == rows[..i] + [rows[i]];
    forall mac
      ensures HasActive(rows[..i + 1], mac, now) <==>
              HasActive(rows[..i], mac, now) || (rows[i].mac == mac && Active(rows[i], now))
    {
      if HasActive(rows[..i], mac, now) {
        var j :| 0 <= j < i && rows[..i][j].mac == mac && Active(rows[..i][j], now);
        assert rows[..i + 1][j] == rows[..i][j];
      }
      if rows[i].mac == mac && Active(rows[i], now) {
        assert rows[..i + 1][i] == rows[i];
      }
    }
  }

  class Registry {
    var machines: map<Mac, Machine>
    var reservations: seq<Reservation>
    var nextId: nat
    var clock: int
    var pinnedExisting: bool

    ghost var holder: Holder
    ghost var deleted: set<nat>
    ghost var pooled: set<Mac>
    ghost var states: seq<State>
    ghost var statements: seq<Statement>

    ghost function View(): State
      reads this
    {
      State(machines, reservations, nextId, clock, holder, deleted, pooled)
    }

    // The tables are where the recorded run has brought them.
    ghost predicate Valid()
      reads this
    {
      IsRun(states, statements) && states[|statements|] == View()
    }

    // The run recorded so far is only ever added to.
    twostate predicate Continues()
      reads this
    {
      && old(states) <= states && old(statements) <= statements && old(clock) <= clock
      && pinnedExisting == old(pinnedExisting)
    }

    // Between two methods: the write lock is free.
    ghost predicate Ready()
      reads this
    {
      Valid() && holder.Free?
    }

    // A new process opening a database that predates reservations.
    constructor (existing: map<Mac, Machine>, now: int)
      ensures Valid() && holder.MigratingOnce? && !pinnedExisting
      ensures machines == existing && reservations == [] && clock == now
    {
      machines, reservations, nextId, clock, pinnedExisting := existing, [], 1, now, false;
      holder, deleted, pooled := MigratingOnce, {}, {};
      states, statements := [State(existing, [], 1, now, MigratingOnce, {}, {})], [];
    }

    // Executes one statement.
    method Execute(st: Statement)
      requires Valid() && Enabled(View(), st)
      modifies this
      ensures Valid() && Continues() && View() == Next(old(View()), st)
    {
      ghost var before := View();
      if st.Tick? || OnMachines(st) {
        UpdateMachines(st);
      } else {
        UpdateReservations(st);
      }
      Record(before, st);
    }

    // Adds the executed statement to the record of the run.
    ghost method Record(before: State, st: Statement)
      requires IsRun(states, statements) && states[|statements|] == before && Enabled(before, st)
      requires Next(before, st) == State(machines, reservations, nextId, clock, Next(before, st).holder,
                                         Next(before, st).deleted, Next(before, st).pooled)
      modifies this`holder, this`deleted, this`pooled, this`states, this`statements
      ensures Valid() && View() == Next(before, st)
      ensures old(states) <= states && old(statements) <= statements
    {
      var after := Next(before, st);
      holder, deleted, pooled := after.holder, after.deleted, after.pooled;
      ExtendRun(states, statements, st);
      states, statements := states + [after], statements + [st];
    }

    // The effect of a statement on the machines table, or of time passing.
    method UpdateMachines(st: Statement)
      requires Enabled(View(), st) && (st.Tick? || OnMachines(st))
      modifies this`machines, this`clock
      ensures machines == Next(old(View()), st).machines && clock == Next(old(View()), st).clock
    {
      match st {
        case Tick(elapsed) => clock := clock + elapsed;
        case EnrollNew(mac, machine) => machines := machines[mac := machine];
        case EnrollReplace(mac, machine) => machines := machines[mac := machine];
        case EnrollCarry(mac, previous) => machines := machines[mac := machines[mac].(carried := previous)];
        case SetProfile(mac, profile) => machines := machines[mac := machines[mac].(profile := profile)];
        case SetPending(mac, pending) =>
          if mac in machines {
            machines := machines[mac := machines[mac].(pendingReboot := pending)];
          }
        case ReserveSwitch(mac, profile) => machines := machines[mac := machines[mac].(profile := profile)];
        case RemoveMachine(mac) => machines := machines - {mac};
      }
    }

    // The effect of a statement on the reservations table.
    method UpdateReservations(st: Statement)
      requires Enabled(View(), st) && !st.Tick? && !OnMachines(st)
      modifies this`reservations, this`nextId
      ensures reservations == Next(old(View()), st).rows && nextId == Next(old(View()), st).nextId
    {
      match st {
        case MigrateInsert(macs) =>
          reservations := reservations + MigrationRows(machines, macs, nextId, clock);
          nextId := nextId + |macs|;
        case EnrollPin(mac, owner) =>
          var profile := if mac in machines then Some(machines[mac].profile) else None;
          AddRow(mac, owner, Permanent, profile, None);
        case PinRelease(mac) => reservations := EndWhere(reservations, UnreleasedOf(mac), clock, ByPin);
        case PinInsert(mac, owner, profile) => AddRow(mac, owner, Permanent, profile, None);
        case ReserveRelease(mac) => reservations := EndWhere(reservations, UnreleasedOf(mac), clock, ByReserve);
        case ReserveInsert(mac, owner, profile, ttl) => AddRow(mac, owner, Lease, Some(profile), ExpiryAfter(clock, ttl));
        case Renew(mac, ttl) => reservations := ExtendWhere(reservations, ActiveOf(mac, Lease), clock, ExpiryAfter(clock, ttl));
        case Release(mac) => reservations := EndWhere(reservations, ActiveOf(mac, Lease), clock, ByRelease);
        case ReleaseToPool(mac) => reservations := EndWhere(reservations, ActiveOf(mac, Permanent), clock, ToPool);
        case Reap(mac) => reservations := EndWhere(reservations, UnreleasedOf(mac), clock, ByReaper);
        case RemoveRows(mac) => reservations := DeleteOf(reservations, mac);
      }
    }

    method AddRow(mac: Mac, owner: string, kind: Kind, profile: Option<string>, expiry: Option<int>)
      modifies this`reservations, this`nextId
      ensures reservations == old(reservations)
                              + [Reservation(old(nextId), mac, owner, kind, profile, clock, expiry, None)]
      ensures nextId == old(nextId) + 1
    {
      reservations := reservations + [Reservation(nextId, mac, owner, kind, profile, clock, expiry, None)];
      nextId := nextId + 1;
    }

    // Other threads may run, and time may pass, before the next statement.
    method Pass()
      requires Valid()
      modifies this
      ensures Valid() && Continues() && View() == old(View()).(clock := clock)
    {
      var elapsed: nat :| elapsed >= 0;
      ghost var before := View();
      Execute(Tick(elapsed));
      assert View().clock == before.clock + elapsed;
    }

    // The facts every reachable state has, for the methods below.
    lemma StaysSound()
      requires Valid()
      ensures Sound(View())
    {
      RunSound(states, statements, |statements|);
    }

    // Gives every machine without a hold a permanent one, the first time only. A process
    // that crashes before it has set the flag does so again when it restarts.
    method PinExistingMachinesOnce() returns (crashed: bool)
      requires Valid() && (holder.Free? || (holder.MigratingOnce? && !pinnedExisting))
      modifies this
      ensures Ready() && pinnedExisting == (old(pinnedExisting) || !crashed)
      ensures old(pinnedExisting) ==> !crashed && View() == old(View())
      ensures !old(pinnedExisting) ==> Migrated(old(View()), View())
    {
      crashed := false;
      if pinnedExisting {
        return;
      }
      PinAllUnheld();
      crashed := *;
      if !crashed {
        pinnedExisting := true;
      }
    }

    method PinAllUnheld()
      requires Valid() && (holder.Free? || holder.MigratingOnce?)
      modifies this
      ensures Ready() && Continues() && Migrated(old(View()), View())
    {
      var macs := Sorted(set mac | mac in machines && !HasUnreleased(reservations, mac));
      StaysSound();
      MigrationHolds(View(), macs);
      Execute(MigrateInsert(macs));
    }

    // ---- Reading -------------------------------------------------------------

    // The machine's current hold: the newest active row, and the only one.
    method ActiveReservation(mac: Mac) returns (r: Option<Reservation>)
      requires Valid()
      ensures IsActiveHold(r, reservations, mac, clock)
    {
      StaysSound();
      var i := |reservations|;
      while i > 0
        invariant 0 <= i <= |reservations|
        invariant forall j :: i <= j < |reservations| ==> !(reservations[j].mac == mac && Active(reservations[j], clock))
      {
        i := i - 1;
        if reservations[i].mac == mac && Active(reservations[i], clock) {
          return Some(reservations[i]);
        }
      }
      r := None;
    }

    // Every machine's active hold, keyed by MAC.
    method AllActiveReservations() returns (active: map<Mac, Reservation>)
      requires Valid()
      ensures forall mac :: mac in active <==> HasActive(reservations, mac, clock)
      ensures forall mac :: mac in active ==>
                active[mac] in reservations && active[mac].mac == mac && Active(active[mac], clock)
    {
      active := map[];
      for i := 0 to |reservations|
        invariant forall mac :: mac in active <==> HasActive(reservations[..i], mac, clock)
        invariant forall mac :: mac in active ==>
                    active[mac] in reservations && active[mac].mac == mac && Active(active[mac], clock)
      {
        ActiveSnoc(reservations, i, clock);
        if Active(reservations[i], clock) {
          active := active[reservations[i].mac := reservations[i]];
        }
      }
      assert reservations[..|reservations|] == reservations;
    }

    // ---- Enrolment, pinning and the pool ---------------------------------------

    // Writes the machine's row under the lock: a new machine is also pinned, and a row
    // that is replaced keeps the carried columns.
    method EnrollLocked(mac: Mac, machine: Machine)
      requires Ready() && machine.carried.None?
      modifies this
      ensures Ready() && Continues() && EnrolledAs(old(View()), View(), mac, machine)
    {
      Pass();
      if mac in machines {
        var previous := machines[mac].carried;
        Execute(EnrollReplace(mac, machine));
        Pass();
        Execute(EnrollCarry(mac, previous));
      } else {
        Execute(EnrollNew(mac, machine));
        Pass();
        ghost var before := reservations;
        Execute(EnrollPin(mac, machine.enrolledBy));
        assert IsNewHold(reservations[|before|], mac, machine.enrolledBy, Some(machine.profile), old(clock), clock);
      }
    }

    // Enrols a machine and, with the lock dropped at moment `n` of the run, looks it up,
    // which fails only if it has been removed meanwhile.
    method Enroll(mac: Mac, profile: string, architecture: string, scratchMode: string, enrolledBy: string)
      returns (r: Result<Machine, Exception>, ghost n: nat)
      requires Ready()
      modifies this
      ensures Ready() && Continues()
      ensures r == Err(ValueError) <==> scratchMode !in {"volatile", "persistent", "off"}
      ensures r == Err(ValueError) ==> View() == old(View())
      ensures r != Err(ValueError) ==>
                |old(statements)| <= n <= |statements|
                && EnrolledAs(old(View()), states[n], mac, Machine(profile, architecture, scratchMode, enrolledBy, false, None))
      ensures r.Ok? ==> mac in machines && r.value == machines[mac]
      ensures r == Err(AssertionError) ==> exists j :: n <= j < |statements| && statements[j] == RemoveMachine(mac)
    {
      if scratchMode !in {"volatile", "persistent", "off"} {
        return Err(ValueError), 0;
      }
      EnrollLocked(mac, Machine(profile, architecture, scratchMode, enrolledBy, false, None));
      n := |statements|;
      Others();
      if mac in machines {
        r := Ok(machines[mac]);
      } else {
        ghost var j := RemovedBetween(states, statements, n, |statements|, mac);
        r := Err(AssertionError);
      }
    }

    // Moves a machine onto a profile in place.
    method SetProfile(mac: Mac, profile: string) returns (r: Result<bool, Exception>)
      requires Ready()
      modifies this
      ensures Ready() && Continues() && reservations == old(reservations)
      ensures r == if Strip(profile) == "" then Err(ValueError) else Ok(mac in old(machines))
      ensures machines == if r == Ok(true) then old(machines)[mac := old(machines)[mac].(profile := Strip(profile))]
                          else old(machines)
    {
      if Strip(profile) == "" {
        return Err(ValueError);
      }
      Pass();
      if mac in machines {
        Execute(Reservations.SetProfile(mac, Strip(profile)));
        r := Ok(true);
      } else {
        r := Ok(false);
      }
    }

    // Arms or disarms the soft-reboot signal of a machine, if there is such a machine.
    method SetPendingReboot(mac: Mac, pending: bool)
      requires Ready()
      modifies this
      ensures Ready() && Continues() && reservations == old(reservations)
      ensures machines == if mac in old(machines) then old(machines)[mac := old(machines)[mac].(pendingReboot := pending)]
                          else old(machines)
    {
      Pass();
      Execute(SetPending(mac, pending));
    }

    // Takes a machine out of the pool: ends whatever hold it has, writes a permanent one
    // and, with the lock dropped at moment `n` of the run, reads the active hold back. That
    // is the one written, `row`, unless another thread has ended it.
    method Pin(mac: Mac, owner: string, profile: Option<string>)
      returns (r: Result<Option<Reservation>, Exception>, ghost n: nat, ghost row: Reservation)
      requires Ready()
      modifies this
      ensures Ready() && Continues()
      ensures if Strip(owner) == "" then r == Err(ValueError) else r.Ok?
      ensures r == Err(ValueError) || mac !in old(machines) ==> machines == old(machines) && reservations == old(reservations)
      ensures r.Ok? && mac !in old(machines) ==> r.value.None?
      ensures r.Ok? && mac in old(machines) ==>
                |old(statements)| <= n <= |statements|
                && PinnedAs(old(View()), states[n], mac, Strip(owner), profile, row)
                && IsActiveHold(r.value, reservations, mac, clock)
      ensures r.Ok? && mac in old(machines) && (forall j :: n <= j < |statements| ==> !EndsHold(statements[j], mac)) ==>
                r.value == Some(row)
    {
      row := Reservation(0, mac, owner, Permanent, profile, clock, None, None);
      if Strip(owner) == "" {
        return Err(ValueError), 0, row;
      }
      var known := mac in machines;
      if !known {
        Pass();
        return Ok(None), 0, row;
      }
      row := PinLocked(mac, Strip(owner), profile);
      n := |statements|;
      assert HeldBy(states[n], row);
      Others();
      var current := ActiveReservation(mac);
      if forall j :: n <= j < |statements| ==> !EndsHold(statements[j], mac) {
        HoldLasts(states, statements, n, |statements|, row);
        assert Active(row, clock);
      }
      r := Ok(current);
    }

    method PinLocked(mac: Mac, owner: string, profile: Option<string>) returns (ghost row: Reservation)
      requires Ready() && mac in machines
      modifies this
      ensures Ready() && Continues() && PinnedAs(old(View()), View(), mac, owner, profile, row)
    {
      Pass();
      row := PinRow(mac, owner, profile);
      if profile.Some? && Strip(profile.value) != "" {
        Pass();
        Execute(Reservations.SetProfile(mac, Strip(profile.value)));
      }
    }

    method PinRow(mac: Mac, owner: string, profile: Option<string>) returns (ghost row: Reservation)
      requires Ready() && mac in machines
      modifies this
      ensures Ready() && Continues() && machines == old(machines)
      ensures IsNewHold(row, mac, owner, profile, old(clock), clock)
      ensures reservations == EndWhere(old(reservations), UnreleasedOf(mac), old(clock), ByPin) + [row]
    {
      Execute(PinRelease(mac));
      Pass();
      Execute(PinInsert(mac, owner, profile));
      row := reservations[|reservations| - 1];
    }

    // Ends a permanent hold, which opts the machine into the pool.
    method ReleaseHold(mac: Mac) returns (released: bool)
      requires Ready()
      modifies this
      ensures Ready() && Continues() && machines == old(machines)
      ensures released <==> HasHold(old(reservations), mac)
      ensures reservations == EndWhere(old(reservations), ActiveOf(mac, Permanent), clock, ToPool)
      ensures !released ==> reservations == old(reservations)
    {
      Pass();
      released := HasHold(reservations, mac);
      HoldIsActive(mac);
      Execute(Reservations.ReleaseToPool(mac));
    }

    lemma HoldIsActive(mac: Mac)
      requires Valid()
      ensures !HasHold(reservations, mac) ==>
                EndWhere(reservations, ActiveOf(mac, Permanent), clock, ToPool) == reservations
    {
    }

    // Gives an active lease `ttl` seconds from now, which may be less than it had.
    method Renew(mac: Mac, ttl: int) returns (r: Result<bool, Exception>)
      requires Ready()
      modifies this
      ensures Ready() && Continues() && machines == old(machines)
      ensures if ttl <= 0 then r == Err(ValueError) else r.Ok?
      ensures r.Ok? ==> (r.value <==> exists x :: x in old(reservations) && x.mac == mac && x.kind == Lease && Active(x, clock))
      ensures r == Ok(true) ==> Renewed(old(reservations), reservations, mac, clock, ttl)
      ensures r != Ok(true) ==> reservations == old(reservations)
    {
      if ttl <= 0 {
        return Err(ValueError);
      }
      Pass();
      var found := HasActiveLease(reservations, mac, clock);
      ExtendRenews(reservations, mac, clock, ttl);
      Execute(Reservations.Renew(mac, ttl));
      r := Ok(found);
    }

    // Ends every lease that has expired; `at` is the instant they were selected.
    method ReapExpired() returns (freed: seq<Mac>, ghost at: int)
      requires Ready()
      modifies this
      ensures Ready() && Continues() && machines == old(machines)
      ensures old(clock) <= at <= clock && freed == ExpiredMacs(old(reservations), at) && NoDuplicates(freed)
      ensures Reaped(old(reservations), reservations, freed, at, clock)
      ensures forall i :: 0 <= i < |reservations| ==> (Unreleased(reservations[i]) <==> Active(reservations[i], at))
    {
      ghost var rows0 := reservations;
      StaysSound();
      Pass();
      at := clock;
      var expired := ExpiredMacs(reservations, clock);
      ExpiredOnce(reservations, clock);
      freed := [];
      for i := 0 to |expired|
        invariant Ready() && Continues() && machines == old(machines)
        invariant at <= clock && freed == expired[..i]
        invariant Reaped(rows0, reservations, freed, at, clock)
      {
        ReapOne(rows0, expired, i, at);
        TakeSnoc(expired, i);
        freed := freed + [expired[i]];
      }
      TakeAll(expired);
      forall i | 0 <= i < |reservations|
        ensures Unreleased(reservations[i]) <==> Active(reservations[i], at)
      {
        ReapedCoincide(rows0, reservations, at, clock, i);
      }
    }

    method ReapOne(ghost rows0: seq<Reservation>, expired: seq<Mac>, i: nat, ghost at: int)
      requires Ready() && i < |expired| && at <= clock
      requires OneUnreleased(rows0) && NoDuplicates(expired) && expired == ExpiredMacs(rows0, at)
      requires Reaped(rows0, reservations, expired[..i], at, clock)
      modifies this
      ensures Ready() && Continues() && machines == old(machines)
      ensures Reaped(rows0, reservations, expired[..i] + [expired[i]], at, clock)
    {
      ghost var before := clock;
      Pass();
      ReapedLater(rows0, reservations, expired[..i], at, before, clock);
      ReapStep(rows0, reservations, expired[..i], expired[i], at, clock);
      Execute(Reap(expired[i]));
    }

    // Releases active leases: of the machines named, or else all of a holder's. Whose
    // lease it is does not matter when machines are named.
    method ReleaseLeases(macs: Option<seq<Mac>>, owner: Option<string>) returns (freed: seq<Mac>)
      requires Ready()
      modifies this
      ensures Ready() && Continues() && machines == old(machines)
      ensures Freed(old(reservations), reservations, freed, old(clock), clock)
      ensures macs.Some? && macs.value != [] ==>
                forall mac :: mac in macs.value ==> !HasActiveLease(reservations, mac, clock)
      ensures macs.Some? && macs.value != [] ==> forall mac :: mac in freed ==> mac in macs.value
      ensures !(macs.Some? && macs.value != []) && owner.Some? && owner.value != "" ==>
                exists at :: old(clock) <= at <= clock && FreedOwner(old(reservations), reservations, freed, owner.value, at, clock)
      ensures !(macs.Some? && macs.value != []) && !(owner.Some? && owner.value != "") ==> freed == []
    {
      StaysSound();
      Pass();
      if macs.Some? && macs.value != [] {
        freed := ReleaseEach(macs.value);
      } else if owner.Some? && owner.value != "" {
        ghost var at := clock;
        freed := ReleaseEach(LeasedTo(reservations, owner.value, clock));
        OnlyOwnersChange(old(reservations), reservations, freed, owner.value, at, at, clock);
        assert FreedOwner(old(reservations), reservations, freed, owner.value, at, clock);
      } else {
        freed := [];
      }
    }

    method ReleaseEach(targets: seq<Mac>) returns (freed: seq<Mac>)
      requires Ready()
      modifies this
      ensures Ready() && Continues() && machines == old(machines)
      ensures Freed(old(reservations), reservations, freed, old(clock), clock)
      ensures forall mac :: mac in targets ==> !HasActiveLease(reservations, mac, clock)
      ensures forall mac :: mac in freed ==> mac in targets
    {
      ghost var rows0, from := reservations, clock;
      StaysSound();
      freed := [];
      for i := 0 to |targets|
        invariant Ready() && Continues() && machines == old(machines)
        invariant from <= clock && Freed(rows0, reservations, freed, from, clock)
        invariant forall mac :: mac in targets[..i] ==> !HasActiveLease(reservations, mac, clock)
        invariant forall mac :: mac in freed ==> mac in targets
      {
        TakeSnoc(targets, i);
        freed := ReleaseOne(rows0, targets[..i], targets[i], freed, from);
      }
      TakeAll(targets);
    }

    method ReleaseOne(ghost rows0: seq<Reservation>, ghost done: seq<Mac>, mac: Mac, freed0: seq<Mac>, ghost from: int)
      returns (freed: seq<Mac>)
      requires Ready() && OneUnreleased(rows0) && from <= clock && Freed(rows0, reservations, freed0, from, clock)
      requires forall m :: m in done ==> !HasActiveLease(reservations, m, clock)
      modifies this
      ensures Ready() && Continues() && machines == old(machines) && from <= clock
      ensures Freed(rows0, reservations, freed, from, clock)
      ensures forall m :: m in done + [mac] ==> !HasActiveLease(reservations, m, clock)
      ensures freed == freed0 || freed == freed0 + [mac]
    {
      ghost var before := clock;
      Pass();
      FreedLater(rows0, reservations, freed0, from, before, clock);
      NoLeaseLater(reservations, done, before, clock);
      var hit := HasActiveLease(reservations, mac, clock);
      FreedStep(rows0, reservations, freed0, mac, from, clock);
      NoLeaseAfterRelease(reservations, mac, clock);
      Execute(Reservations.Release(mac));
      freed := if hit then freed0 + [mac] else freed0;
    }

    // Leases up to `count` available machines and, with the lock dropped at moment `n` of
    // the run, looks each of them up. Those `leased` are all returned unless another thread
    // has removed one.
    method Reserve(profile: string, count: int, owner: string, ttl: int, architecture: Option<string>)
      returns (r: Result<seq<Found>, Exception>, ghost at: int, ghost leased: seq<Mac>, ghost n: nat,
               ghost moments: seq<nat>, ghost seen: seq<State>)
      requires Ready()
      modifies this
      ensures Ready() && Continues()
      ensures if Strip(profile) == "" || Strip(owner) == "" || (count > 0 && ttl <= 0) then r == Err(ValueError) else r.Ok?
      ensures r == Err(ValueError) || count <= 0 ==> View() == old(View())
      ensures r.Ok? ==>
                |old(statements)| <= n <= |statements|
                && ReservedAs(old(View()), states[n], Strip(profile), count, Strip(owner), ttl, architecture, leased, at)
      ensures r.Ok? ==> SeenInTurn(states, n, moments, seen) && |seen| == |leased| && r.value == Lookups(seen, leased)
      ensures r.Ok? && (forall j :: n <= j < |statements| && statements[j].RemoveMachine? ==> statements[j].mac !in leased) ==>
                |r.value| == |leased| && forall k :: 0 <= k < |leased| ==> r.value[k].mac == leased[k]
    {
      at, leased, n, moments, seen := clock, [], |statements|, [], [];
      if Strip(profile) == "" || Strip(owner) == "" {
        return Err(ValueError), at, leased, n, moments, seen;
      }
      if count <= 0 {
        return Ok([]), at, leased, n, moments, seen;
      }
      if ttl <= 0 {
        return Err(ValueError), at, leased, n, moments, seen;
      }
      var claimed: seq<Mac>;
      claimed, at := ReserveLocked(Strip(profile), count, Strip(owner), ttl, architecture);
      leased, n := claimed, |statements|;
      LeasedAreEnrolled(old(View()), View(), Strip(profile), count, Strip(owner), ttl, architecture, leased, at);
      var found: seq<Found>;
      found, moments, seen := LookupEach(claimed);
      if forall j :: n <= j < |statements| && statements[j].RemoveMachine? ==> statements[j].mac !in leased {
        NoneRemoved(states, statements, n, moments, seen, leased);
      }
      r := Ok(found);
    }

    method ReserveLocked(profile: string, count: int, owner: string, ttl: int, architecture: Option<string>)
      returns (leased: seq<Mac>, ghost at: int)
      requires Ready() && count > 0 && ttl > 0
      modifies this
      ensures Ready() && Continues()
      ensures ReservedAs(old(View()), View(), profile, count, owner, ttl, architecture, leased, at)
    {
      Pass();
      at := clock;
      leased := FirstOf(Available(machines, reservations, architecture, clock), count);
      FirstAreChosen(machines, reservations, architecture, clock, count);
      ClaimEach(leased, owner, profile, ttl, architecture, count);
    }

    method LookupEach(macs: seq<Mac>) returns (found: seq<Found>, ghost moments: seq<nat>, ghost seen: seq<State>)
      requires Ready()
      modifies this
      ensures Ready() && Continues()
      ensures SeenInTurn(states, |old(statements)|, moments, seen) && |seen| == |macs| && found == Lookups(seen, macs)
    {
      ghost var from, done := |statements|, macs[..0];
      found, moments, seen := [], [], [];
      for i := 0 to |macs|
        invariant Ready() && Continues() && done == macs[..i]
        invariant SeenInTurn(states, from, moments, seen) && |seen| == |done| && found == Lookups(seen, done)
      {
        TakeSnoc(macs, i);
        found, moments, seen := LookupOne(macs[i], found, done, from, moments, seen);
        done := done + [macs[i]];
      }
      TakeAll(macs);
    }

    method LookupOne(mac: Mac, found0: seq<Found>, ghost done: seq<Mac>, ghost from: nat, ghost moments0: seq<nat>,
                     ghost seen0: seq<State>)
      returns (found: seq<Found>, ghost moments: seq<nat>, ghost seen: seq<State>)
      requires Ready() && from <= |statements| && SeenInTurn(states, from, moments0, seen0)
      requires |seen0| == |done| && found0 == Lookups(seen0, done)
      modifies this
      ensures Ready() && Continues()
      ensures SeenInTurn(states, from, moments, seen)
      ensures |seen| == |done + [mac]| && found == Lookups(seen, done + [mac])
    {
      Others();
      SeenLater(old(states), states, from, moments0, seen0);
      LookupsSnoc(seen0, done, View(), mac);
      moments, seen := moments0 + [|statements|], seen0 + [View()];
      found := found0 + if mac in machines then [Found(mac, machines[mac])] else [];
    }

    method ClaimEach(candidates: seq<Mac>, owner: string, profile: string, ttl: int,
                     ghost architecture: Option<string>, ghost count: int)
      requires Ready() && ttl > 0 && count > 0
      requires candidates == FirstOf(Available(machines, reservations, architecture, clock), count)
      modifies this
      ensures Ready() && Continues()
      ensures machines == AllSwitched(old(machines), candidates, profile)
      ensures Claimed(old(reservations), reservations, candidates, owner, profile, ttl, old(clock), clock)
    {
      ghost var rows0, machines0, from, done := reservations, machines, clock, candidates[..0];
      StaysSound();
      FirstAvailable(machines, reservations, architecture, clock, count);
      NoneSwitched(machines, profile);
      for i := 0 to |candidates|
        invariant Ready() && Continues() && from <= clock && done == candidates[..i]
        invariant machines == AllSwitched(machines0, done, profile)
        invariant Claimed(rows0, reservations, done, owner, profile, ttl, from, clock)
      {
        TakeSnoc(candidates, i);
        NotDoneYet(candidates, i);
        ClaimOne(rows0, machines0, done, candidates[i], owner, profile, ttl, from);
        done := done + [candidates[i]];
      }
      TakeAll(candidates);
    }

    method ClaimOne(ghost rows0: seq<Reservation>, ghost machines0: map<Mac, Machine>, ghost leased: seq<Mac>, mac: Mac,
                    owner: string, profile: string, ttl: int, ghost from: int)
      requires Ready() && AllWellFormed(rows0) && ttl > 0 && from <= clock
      requires mac in machines0 && mac !in leased && !HasActive(rows0, mac, from)
      requires machines == AllSwitched(machines0, leased, profile)
      requires Claimed(rows0, reservations, leased, owner, profile, ttl, from, clock)
      modifies this
      ensures Ready() && Continues() && from <= clock
      ensures machines == AllSwitched(machines0, leased + [mac], profile)
      ensures Claimed(rows0, reservations, leased + [mac], owner, profile, ttl, from, clock)
    {
      ghost var start := clock;
      Pass();
      ClaimedLater(rows0, reservations, leased, owner, profile, ttl, from, start, clock);
      StillAvailable(rows0, reservations, leased, mac, owner, profile, ttl, from, clock);
      ghost var before, now := reservations, clock;
      var row := WriteLease(mac, owner, profile, ttl);
      ClaimStep(rows0, before, leased, mac, owner, profile, ttl, from, now, clock, row);
      ghost var written := clock;
      Pass();
      ClaimedLater(rows0, reservations, leased + [mac], owner, profile, ttl, from, written, clock);
      Execute(ReserveSwitch(mac, profile));
    }

    method WriteLease(mac: Mac, owner: string, profile: string, ttl: int) returns (row: Reservation)
      requires Ready() && ttl > 0 && mac in machines && !HasActive(reservations, mac, clock)
      modifies this
      ensures Valid() && Continues() && holder == MustSwitch(mac) && machines == old(machines)
      ensures IsNewLease(row, mac, owner, profile, ttl, old(clock), clock)
      ensures reservations == EndWhere(old(reservations), UnreleasedOf(mac), old(clock), ByReserve) + [row]
    {
      Execute(ReserveRelease(mac));
      Pass();
      Execute(ReserveInsert(mac, owner, profile, ttl));
      row := reservations[|reservations| - 1];
      RunsOut(row, row.acquiredAt, ttl);
    }

    // Deletes a machine and its reservations.
    method Remove(mac: Mac) returns (removed: bool)
      requires Ready()
      modifies this
      ensures Ready() && Continues()
      ensures removed <==> mac in old(machines)
      ensures machines == old(machines) - {mac} && reservations == DeleteOf(old(reservations), mac)
    {
      Pass();
      Execute(RemoveRows(mac));
      Pass();
      removed := mac in machines;
      Execute(RemoveMachine(mac));
    }

    // ---- Other threads -------------------------------------------------------

    // Other threads run any number of whole operations.
    method Others()
      requires Ready()
      modifies this
      ensures Ready() && Continues()
    {
      var operations: nat :| operations >= 0;
      for i := 0 to operations
        invariant Ready() && Continues()
      {
        Other();
      }
    }

    // One operation of another thread, up to where it drops the lock.
    method Other()
      requires Ready()
      modifies this
      ensures Ready() && Continues()
    {
      var mac: Mac, macs: Option<seq<Mac>> := *, *;
      var owner: string, profile: string, text: string := *, *, *;
      var holder: Option<string>, architecture: Option<string> := *, *;
      var pending: bool, count: int, ttl: int := *, *, *;
      if {
        case true => Pass();
        case true => EnrollLocked(mac, Machine(profile, text, "volatile", owner, false, None));
        case true => var _ := SetProfile(mac, profile);
        case true => SetPendingReboot(mac, pending);
        case mac in machines => var _ := PinLocked(mac, owner, holder);
        case true => var _ := ReleaseHold(mac);
        case count > 0 && ttl > 0 => var _, _ := ReserveLocked(profile, count, owner, ttl, architecture);
        case true => var _ := Renew(mac, ttl);
        case true => var _ := ReleaseLeases(macs, holder);
        case true => var _, _ := ReapExpired();
        case true => var _ := Remove(mac);
      }
    }
  }
}
