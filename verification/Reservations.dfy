/**
  Machine reservations, one SQL statement at a time. Connections are autocommit, so
  under the write lock a registry method is a run of these statements, with the clock
  ticking and other threads reading in between.
*/
module Reservations {
  import opened Options
  import Calendar

  type Mac = string

  datatype Kind = Permanent | Lease

  // Why a reservation ended. The table stores only when; which statement set
  // `released_at` is kept here to account for it.
  datatype Cause = ByRelease | ByReaper | ByPin | ByReserve | ToPool

  datatype Ending = Ending(at: int, cause: Cause)

  datatype Reservation = Reservation(
    id: nat, mac: Mac, holder: string, kind: Kind, profile: Option<string>,
    acquiredAt: int, expiresAt: Option<int>, released: Option<Ending>)

  // The columns of a machine that reservations and enrolment read or write; `carried`
  // stands for the power wiring and hardware spec that re-enrolment copies across.
  datatype Machine = Machine(
    profile: string, architecture: string, scratchMode: string, enrolledBy: string, pendingReboot: bool,
    carried: Option<string>)

  // What the holder of the write lock has left to do to the machine it is changing.
  datatype Holder =
    | Free
    | MigratingOnce
    | MustPinNew(mac: Mac)
    | MustCarry(mac: Mac, previous: Option<string>)
    | MustPin(mac: Mac)
    | MustLease(mac: Mac)
    | MustSwitch(mac: Mac)
    | MustDelete(mac: Mac)

  // `deleted` are the ids of reservations removed with their machine and `pooled` the
  // machines released to the pool since they were last enrolled, pinned or migrated:
  // both only record history.
  datatype State = State(
    machines: map<Mac, Machine>, rows: seq<Reservation>, nextId: nat, clock: int, holder: Holder,
    deleted: set<nat>, pooled: set<Mac>)

  datatype Statement =
    | Tick(elapsed: nat)
    | MigrateInsert(macs: seq<Mac>)
    | EnrollNew(mac: Mac, machine: Machine)
    | EnrollPin(mac: Mac, owner: string)
    | EnrollReplace(mac: Mac, machine: Machine)
    | EnrollCarry(mac: Mac, previous: Option<string>)
    | PinRelease(mac: Mac)
    | PinInsert(mac: Mac, owner: string, heldFor: Option<string>)
    | SetProfile(mac: Mac, profile: string)
    | SetPending(mac: Mac, pending: bool)
    | ReserveRelease(mac: Mac)
    | ReserveInsert(mac: Mac, owner: string, profile: string, ttl: int)
    | ReserveSwitch(mac: Mac, profile: string)
    | Renew(mac: Mac, ttl: int)
    | Release(mac: Mac)
    | ReleaseToPool(mac: Mac)
    | Reap(mac: Mac)
    | RemoveRows(mac: Mac)
    | RemoveMachine(mac: Mac)

  // ---- Which rows a WHERE clause selects -------------------------------------

  predicate Unreleased(r: Reservation) {
    r.released.None?
  }

  // `_ACTIVE_RESERVATION_WHERE`: not released and, for a lease, not expired.
  predicate Active(r: Reservation, now: int) {
    Unreleased(r) && (r.expiresAt.None? || r.expiresAt.value > now)
  }

  predicate Expired(r: Reservation, now: int) {
    Unreleased(r) && r.kind == Lease && r.expiresAt.Some? && r.expiresAt.value <= now
  }

  datatype Where =
    | UnreleasedOf(mac: Mac)
    | ActiveOf(mac: Mac, kind: Kind)

  predicate Selects(w: Where, r: Reservation, now: int) {
    r.mac == w.mac &&
    match w
    case UnreleasedOf(_) => Unreleased(r)
    case ActiveOf(_, kind) => r.kind == kind && Active(r, now)
  }

  // UPDATE reservations SET released_at = now WHERE ...
  function EndWhere(rows: seq<Reservation>, w: Where, now: int, cause: Cause): (rows': seq<Reservation>)
    ensures |rows'| == |rows|
    ensures forall i :: 0 <= i < |rows| ==>
              rows'[i] == if Selects(w, rows[i], now) then rows[i].(released := Some(Ending(now, cause))) else rows[i]
  {
    seq(|rows|, i requires 0 <= i < |rows| =>
      if Selects(w, rows[i], now) then rows[i].(released := Some(Ending(now, cause))) else rows[i])
  }

  // The last instant `datetime` can tell, 9999-12-31 23:59:59, in seconds since 1970.
  const LAST_INSTANT := 253402300799

  // datetime('now', '+ttl seconds'): NULL past the year 9999, and a NULL expiry is none.
  function ExpiryAfter(now: int, ttl: int): Option<int> {
    if now + ttl <= LAST_INSTANT then Some(now + ttl) else None
  }

  // That instant is the last second of the year 9999.
  lemma LastInstantIs(year: nat)
    requires year == 10000
    ensures LAST_INSTANT == Calendar.DaysBefore(year) * 24 * 60 * 60 - 1
  {
    Calendar.LastSecond(year);
  }

  // UPDATE reservations SET expires_at = ... WHERE ...
  function ExtendWhere(rows: seq<Reservation>, w: Where, now: int, expiry: Option<int>): (rows': seq<Reservation>)
    ensures |rows'| == |rows|
    ensures forall i :: 0 <= i < |rows| ==>
              rows'[i] == if Selects(w, rows[i], now) then rows[i].(expiresAt := expiry) else rows[i]
  {
    seq(|rows|, i requires 0 <= i < |rows| =>
      if Selects(w, rows[i], now) then rows[i].(expiresAt := expiry) else rows[i])
  }

  // DELETE FROM reservations WHERE mac = ?
  function DeleteOf(rows: seq<Reservation>, mac: Mac): seq<Reservation> {
    if rows == [] then []
    else DeleteOf(rows[..|rows| - 1], mac) + if rows[|rows| - 1].mac == mac then [] else [rows[|rows| - 1]]
  }

  function IdsOf(rows: seq<Reservation>, mac: Mac): set<nat> {
    set i | 0 <= i < |rows| && rows[i].mac == mac :: rows[i].id
  }

  // One permanent row per machine of `macs`, numbered on from `id`.
  function MigrationRows(machines: map<Mac, Machine>, macs: seq<Mac>, id: nat, now: int): (rows: seq<Reservation>)
    requires forall mac :: mac in macs ==> mac in machines
    ensures |rows| == |macs|
    ensures forall i :: 0 <= i < |macs| ==>
              rows[i] == Reservation(id + i, macs[i], machines[macs[i]].enrolledBy, Permanent,
                                     Some(machines[macs[i]].profile), now, None, None)
  {
    seq(|macs|, i requires 0 <= i < |macs| =>
      Reservation(id + i, macs[i], machines[macs[i]].enrolledBy, Permanent, Some(machines[macs[i]].profile), now, None, None))
  }

  predicate HasUnreleased(rows: seq<Reservation>, mac: Mac) {
    exists i :: 0 <= i < |rows| && rows[i].mac == mac && Unreleased(rows[i])
  }

  predicate HasActive(rows: seq<Reservation>, mac: Mac, now: int) {
    exists i :: 0 <= i < |rows| && rows[i].mac == mac && Active(rows[i], now)
  }

  predicate HasActiveLease(rows: seq<Reservation>, mac: Mac, now: int) {
    exists i :: 0 <= i < |rows| && Selects(ActiveOf(mac, Lease), rows[i], now)
  }

  // The machine is held permanently.
  predicate HasHold(rows: seq<Reservation>, mac: Mac) {
    exists i :: 0 <= i < |rows| && rows[i].mac == mac && rows[i].kind == Permanent && Unreleased(rows[i])
  }

  // The lease is active at every instant before `end` and expired from then on; an end
  // that cannot be told never comes.
  ghost predicate RunsUntil(r: Reservation, end: int) {
    forall t: int ::
      && (Active(r, t) <==> t < end || end > LAST_INSTANT)
      && (Expired(r, t) <==> t >= end && end <= LAST_INSTANT)
  }

  lemma RunsOut(r: Reservation, now: int, ttl: int)
    requires r.kind == Lease && Unreleased(r) && r.expiresAt == ExpiryAfter(now, ttl)
    ensures RunsUntil(r, now + ttl)
  {
  }

  // The active lease of `mac` now runs for `ttl` seconds from `now`; nothing else changed.
  ghost predicate Renewed(rows: seq<Reservation>, rows': seq<Reservation>, mac: Mac, now: int, ttl: int) {
    && |rows'| == |rows|
    && forall i :: 0 <= i < |rows| ==>
         if rows[i].mac == mac && rows[i].kind == Lease && Active(rows[i], now) then
           RunsUntil(rows'[i], now + ttl) && rows'[i] == rows[i].(expiresAt := rows'[i].expiresAt)
         else
           rows'[i] == rows[i]
  }

  lemma ExtendRenews(rows: seq<Reservation>, mac: Mac, now: int, ttl: int)
    ensures Renewed(rows, ExtendWhere(rows, ActiveOf(mac, Lease), now, ExpiryAfter(now, ttl)), mac, now, ttl)
  {
    var rows' := ExtendWhere(rows, ActiveOf(mac, Lease), now, ExpiryAfter(now, ttl));
    forall i | 0 <= i < |rows| && Selects(ActiveOf(mac, Lease), rows[i], now)
      ensures RunsUntil(rows'[i], now + ttl)
    {
      RunsOut(rows'[i], now, ttl);
    }
  }

  // ---- The statements --------------------------------------------------------

  // When the methods issue a statement. No guard mentions the unique index: that the
  // inserts respect it is what is proved.
  ghost predicate Enabled(s: State, st: Statement) {
    match st
    case Tick(_) => true
    case MigrateInsert(macs) =>
      && (s.holder.MigratingOnce? || s.holder.Free?)
      && (forall i, j :: 0 <= i < j < |macs| ==> macs[i] != macs[j])
      && (forall mac :: mac in macs <==> mac in s.machines && !HasUnreleased(s.rows, mac))
    case EnrollNew(mac, _) => s.holder.Free? && mac !in s.machines
    case EnrollPin(mac, _) => s.holder == MustPinNew(mac)
    case EnrollReplace(mac, _) => s.holder.Free? && mac in s.machines
    case EnrollCarry(mac, previous) => s.holder == MustCarry(mac, previous) && mac in s.machines
    case PinRelease(mac) => s.holder.Free? && mac in s.machines
    case PinInsert(mac, _, _) => s.holder == MustPin(mac)
    case SetProfile(mac, _) => s.holder.Free? && mac in s.machines
    case SetPending(_, _) => s.holder.Free?
    case ReserveRelease(mac) => s.holder.Free? && mac in s.machines && !HasActive(s.rows, mac, s.clock)
    case ReserveInsert(mac, _, _, ttl) => s.holder == MustLease(mac) && ttl > 0
    case ReserveSwitch(mac, _) => s.holder == MustSwitch(mac) && mac in s.machines
    case Renew(_, ttl) => s.holder.Free? && ttl > 0
    case Release(_) => s.holder.Free?
    case ReleaseToPool(_) => s.holder.Free?
    case Reap(mac) => s.holder.Free? && exists i :: 0 <= i < |s.rows| && s.rows[i].mac == mac && Expired(s.rows[i], s.clock)
    case RemoveRows(_) => s.holder.Free?
    case RemoveMachine(mac) => s.holder == MustDelete(mac)
  }

  ghost predicate Inserts(st: Statement) {
    st.EnrollPin? || st.PinInsert? || st.ReserveInsert?
  }

  // The statement inserts a row for `mac`.
  ghost predicate InsertsFor(st: Statement, mac: Mac) {
    (Inserts(st) && st.mac == mac) || (st.MigrateInsert? && mac in st.macs)
  }

  // No row inserted meets an unreleased reservation of its machine, and no two rows
  // inserted at once are for the same machine.
  ghost predicate RespectsIndex(s: State, st: Statement) {
    && (forall mac :: InsertsFor(st, mac) ==> !HasUnreleased(s.rows, mac))
    && (st.MigrateInsert? ==> forall i, j :: 0 <= i < j < |st.macs| ==> st.macs[i] != st.macs[j])
  }

  // INSERT INTO reservations, autoincrementing the id.
  ghost function Insert(s: State, mac: Mac, owner: string, kind: Kind, profile: Option<string>, expiry: Option<int>): State {
    s.(rows := s.rows + [Reservation(s.nextId, mac, owner, kind, profile, s.clock, expiry, None)], nextId := s.nextId + 1)
  }

  ghost function Next(s: State, st: Statement): State
    requires Enabled(s, st)
  {
    match st
    case Tick(elapsed) => s.(clock := s.clock + elapsed)
    case MigrateInsert(macs) =>
      s.(rows := s.rows + MigrationRows(s.machines, macs, s.nextId, s.clock), nextId := s.nextId + |macs|,
         pooled := s.pooled - (set mac | mac in macs), holder := Free)
    case EnrollNew(mac, machine) =>
      s.(machines := s.machines[mac := machine], holder := MustPinNew(mac), pooled := s.pooled - {mac})
    case EnrollPin(mac, owner) =>
      Insert(s, mac, owner, Permanent, if mac in s.machines then Some(s.machines[mac].profile) else None, None).(holder := Free)
    case EnrollReplace(mac, machine) =>
      s.(machines := s.machines[mac := machine], holder := MustCarry(mac, s.machines[mac].carried))
    case EnrollCarry(mac, previous) =>
      s.(machines := s.machines[mac := s.machines[mac].(carried := previous)], holder := Free)
    case PinRelease(mac) =>
      s.(rows := EndWhere(s.rows, UnreleasedOf(mac), s.clock, ByPin), holder := MustPin(mac))
    case PinInsert(mac, owner, profile) =>
      Insert(s, mac, owner, Permanent, profile, None).(holder := Free, pooled := s.pooled - {mac})
    case SetProfile(mac, profile) => s.(machines := s.machines[mac := s.machines[mac].(profile := profile)])
    case SetPending(mac, pending) =>
      if mac in s.machines then s.(machines := s.machines[mac := s.machines[mac].(pendingReboot := pending)]) else s
    case ReserveRelease(mac) =>
      s.(rows := EndWhere(s.rows, UnreleasedOf(mac), s.clock, ByReserve), holder := MustLease(mac))
    case ReserveInsert(mac, owner, profile, ttl) =>
      Insert(s, mac, owner, Lease, Some(profile), ExpiryAfter(s.clock, ttl)).(holder := MustSwitch(mac))
    case ReserveSwitch(mac, profile) =>
      s.(machines := s.machines[mac := s.machines[mac].(profile := profile)], holder := Free)
    case Renew(mac, ttl) => s.(rows := ExtendWhere(s.rows, ActiveOf(mac, Lease), s.clock, ExpiryAfter(s.clock, ttl)))
    case Release(mac) => s.(rows := EndWhere(s.rows, ActiveOf(mac, Lease), s.clock, ByRelease))
    case ReleaseToPool(mac) =>
      s.(rows := EndWhere(s.rows, ActiveOf(mac, Permanent), s.clock, ToPool),
         pooled := if HasHold(s.rows, mac) then s.pooled + {mac} else s.pooled)
    case Reap(mac) => s.(rows := EndWhere(s.rows, UnreleasedOf(mac), s.clock, ByReaper))
    case RemoveRows(mac) =>
      s.(rows := DeleteOf(s.rows, mac), deleted := s.deleted + IdsOf(s.rows, mac), holder := MustDelete(mac),
         pooled := s.pooled - {mac})
    case RemoveMachine(mac) => s.(machines := s.machines - {mac}, holder := Free)
  }

  // ---- What holds after every statement --------------------------------------

  // The unique index: at most one unreleased reservation per machine.
  ghost predicate OneUnreleased(rows: seq<Reservation>) {
    forall i, j :: 0 <= i < j < |rows| && rows[i].mac == rows[j].mac ==> !Unreleased(rows[i]) || !Unreleased(rows[j])
  }

  ghost predicate Enrolled(rows: seq<Reservation>, machines: map<Mac, Machine>) {
    forall i :: 0 <= i < |rows| ==> rows[i].mac in machines
  }

  // Ids are given out in order and never again.
  ghost predicate Numbered(rows: seq<Reservation>, nextId: nat, deleted: set<nat>) {
    && (forall i :: 0 <= i < |rows| ==> rows[i].id < nextId && rows[i].id !in deleted)
    && (forall i, j :: 0 <= i < j < |rows| ==> rows[i].id < rows[j].id)
    && (forall d :: d in deleted ==> d < nextId)
  }

  // A permanent hold has no expiry; and each reservation ended the way its cause allows:
  // `release` and the admin's release only end what is active, the reaper and a later
  // `reserve` only what has expired.
  ghost predicate WellFormed(r: Reservation) {
    && (r.kind == Permanent ==> r.expiresAt.None?)
    && (r.released.Some? ==>
          match r.released.value.cause
          case ByRelease => r.kind == Lease && (r.expiresAt.Some? ==> r.released.value.at < r.expiresAt.value)
          case ByReaper => r.kind == Lease && r.expiresAt.Some? && r.expiresAt.value <= r.released.value.at
          case ByReserve => r.kind == Lease && r.expiresAt.Some? && r.expiresAt.value <= r.released.value.at
          case ByPin => true
          case ToPool => r.kind == Permanent)
  }

  ghost predicate AllWellFormed(rows: seq<Reservation>) {
    forall i :: 0 <= i < |rows| ==> WellFormed(rows[i])
  }

  ghost predicate NoRows(rows: seq<Reservation>, mac: Mac) {
    forall i :: 0 <= i < |rows| ==> rows[i].mac != mac
  }

  ghost predicate HolderOk(s: State) {
    match s.holder
    case Free => true
    case MigratingOnce => s.rows == []
    case MustPinNew(mac) => mac in s.machines && NoRows(s.rows, mac)
    case MustCarry(mac, _) => mac in s.machines
    case MustPin(mac) => mac in s.machines && !HasUnreleased(s.rows, mac)
    case MustLease(mac) => mac in s.machines && !HasUnreleased(s.rows, mac) && mac in s.pooled
    case MustSwitch(mac) => mac in s.machines && !HasHold(s.rows, mac)
    case MustDelete(mac) => NoRows(s.rows, mac)
  }

  // The machine is between two statements of a method that is about to pin or delete it.
  ghost predicate Pending(holder: Holder, mac: Mac) {
    holder.MigratingOnce? || holder == MustPinNew(mac) || holder == MustPin(mac) || holder == MustDelete(mac)
  }

  // Every other machine is held permanently unless it was released to the pool, and only
  // machines released to the pool are leased.
  ghost predicate HeldOrPooled(s: State) {
    && (forall mac :: mac in s.machines && !Pending(s.holder, mac) ==> HasHold(s.rows, mac) || mac in s.pooled)
    && LeasesPooled(s.rows, s.pooled)
  }

  ghost predicate LeasesPooled(rows: seq<Reservation>, pooled: set<Mac>) {
    forall i :: 0 <= i < |rows| && rows[i].kind == Lease && Unreleased(rows[i]) ==> rows[i].mac in pooled
  }

  ghost predicate Sound(s: State) {
    && OneUnreleased(s.rows) && Enrolled(s.rows, s.machines)
    && Numbered(s.rows, s.nextId, s.deleted) && AllWellFormed(s.rows)
    && HolderOk(s) && HeldOrPooled(s)
  }

  lemma EndKeeps(rows: seq<Reservation>, w: Where, now: int, cause: Cause)
    requires OneUnreleased(rows) && AllWellFormed(rows)
    requires forall i :: 0 <= i < |rows| && Selects(w, rows[i], now) ==>
               WellFormed(rows[i].(released := Some(Ending(now, cause))))
    ensures OneUnreleased(EndWhere(rows, w, now, cause)) && AllWellFormed(EndWhere(rows, w, now, cause))
    ensures w.UnreleasedOf? ==> !HasUnreleased(EndWhere(rows, w, now, cause), w.mac)
  {
  }

  lemma HoldsKept(s: State, w: Where, cause: Cause, mac: Mac)
    requires forall i :: 0 <= i < |s.rows| && Selects(w, s.rows[i], s.clock) ==> s.rows[i].kind == Lease
    ensures HasHold(s.rows, mac) ==> HasHold(EndWhere(s.rows, w, s.clock, cause), mac)
  {
  }

  // Ending leases leaves every machine held or released to the pool.
  lemma EndedLeasesPool(s: State, w: Where, cause: Cause)
    requires HeldOrPooled(s)
    requires forall i :: 0 <= i < |s.rows| && Selects(w, s.rows[i], s.clock) ==> s.rows[i].kind == Lease
    ensures HeldOrPooled(s.(rows := EndWhere(s.rows, w, s.clock, cause)))
  {
    forall m
      ensures HasHold(s.rows, m) ==> HasHold(EndWhere(s.rows, w, s.clock, cause), m)
    {
      HoldsKept(s, w, cause, m);
    }
  }

  lemma EndKeepsNumbers(s: State, w: Where, cause: Cause)
    requires Enrolled(s.rows, s.machines) && Numbered(s.rows, s.nextId, s.deleted)
    ensures Enrolled(EndWhere(s.rows, w, s.clock, cause), s.machines)
    ensures Numbered(EndWhere(s.rows, w, s.clock, cause), s.nextId, s.deleted)
  {
  }

  // The reaper and `reserve` may end what has expired.
  lemma ExpiredEndsWell(r: Reservation, now: int, cause: Cause)
    requires WellFormed(r) && Expired(r, now) && (cause.ByReaper? || cause.ByReserve?)
    ensures WellFormed(r.(released := Some(Ending(now, cause))))
  {
  }

  lemma EndExpiredKeeps(s: State, mac: Mac, cause: Cause)
    requires Sound(s) && (cause.ByReaper? || cause.ByReserve?)
    requires forall i :: 0 <= i < |s.rows| && Selects(UnreleasedOf(mac), s.rows[i], s.clock) ==> Expired(s.rows[i], s.clock)
    ensures var rows := EndWhere(s.rows, UnreleasedOf(mac), s.clock, cause);
            && OneUnreleased(rows) && AllWellFormed(rows) && Enrolled(rows, s.machines) && Numbered(rows, s.nextId, s.deleted)
            && !HasUnreleased(rows, mac) && HeldOrPooled(s.(rows := rows))
  {
    forall i | 0 <= i < |s.rows| && Selects(UnreleasedOf(mac), s.rows[i], s.clock)
      ensures WellFormed(s.rows[i].(released := Some(Ending(s.clock, cause))))
    {
      ExpiredEndsWell(s.rows[i], s.clock, cause);
    }
    EndKeeps(s.rows, UnreleasedOf(mac), s.clock, cause);
    EndKeepsNumbers(s, UnreleasedOf(mac), cause);
    EndedLeasesPool(s, UnreleasedOf(mac), cause);
  }

  lemma InsertKeeps(s: State, mac: Mac, owner: string, kind: Kind, profile: Option<string>, expiry: Option<int>)
    requires OneUnreleased(s.rows) && Enrolled(s.rows, s.machines)
    requires Numbered(s.rows, s.nextId, s.deleted) && AllWellFormed(s.rows)
    requires mac in s.machines && !HasUnreleased(s.rows, mac) && (kind == Permanent ==> expiry.None?)
    ensures var s' := Insert(s, mac, owner, kind, profile, expiry);
            && OneUnreleased(s'.rows) && Enrolled(s'.rows, s'.machines)
            && Numbered(s'.rows, s'.nextId, s'.deleted) && AllWellFormed(s'.rows)
  {
  }

  lemma {:induction false} DeleteMembers(rows: seq<Reservation>, mac: Mac)
    ensures forall r :: r in DeleteOf(rows, mac) <==> r in rows && r.mac != mac
  {
    if rows == [] {
    } else {
      DeleteMembers(rows[..|rows| - 1], mac);
      assert rows == rows[..|rows| - 1] + [rows[|rows| - 1]];
    }
  }

  lemma {:induction false} DeleteKeepsOne(rows: seq<Reservation>, mac: Mac)
    requires OneUnreleased(rows)
    ensures OneUnreleased(DeleteOf(rows, mac))
  {
    if rows == [] {
    } else {
      var front, last := rows[..|rows| - 1], rows[|rows| - 1];
      DeleteKeepsOne(front, mac);
      var kept := DeleteOf(front, mac);
      forall i | 0 <= i < |kept|
        ensures kept[i].mac == last.mac ==> !Unreleased(kept[i]) || !Unreleased(last)
      {
        DeletedFrom(front, mac, i);
      }
    }
  }

  lemma DeletedFrom(rows: seq<Reservation>, mac: Mac, i: nat)
    requires i < |DeleteOf(rows, mac)|
    ensures exists k :: 0 <= k < |rows| && rows[k] == DeleteOf(rows, mac)[i]
  {
  }

  lemma {:induction false} DeleteKeepsNumbered(rows: seq<Reservation>, mac: Mac, nextId: nat, deleted: set<nat>)
    requires Numbered(rows, nextId, deleted)
    ensures Numbered(DeleteOf(rows, mac), nextId, deleted)
  {
    if rows == [] {
    } else {
      var front, last := rows[..|rows| - 1], rows[|rows| - 1];
      DeleteKeepsNumbered(front, mac, nextId, deleted);
      var kept := DeleteOf(front, mac);
      forall i | 0 <= i < |kept|
        ensures kept[i].id < last.id
      {
        DeletedFrom(front, mac, i);
      }
    }
  }

  lemma DeletedIdsAreGone(rows: seq<Reservation>, mac: Mac, nextId: nat, deleted: set<nat>)
    requires Numbered(rows, nextId, deleted)
    ensures Numbered(DeleteOf(rows, mac), nextId, deleted + IdsOf(rows, mac))
  {
    DeleteKeepsNumbered(rows, mac, nextId, deleted);
    DeleteMembers(rows, mac);
    var kept := DeleteOf(rows, mac);
    forall i | 0 <= i < |kept|
      ensures kept[i].id !in IdsOf(rows, mac)
    {
      assert kept[i] in kept;
      DeletedFrom(rows, mac, i);
      var k :| 0 <= k < |rows| && rows[k] == kept[i];
      assert forall j :: 0 <= j < |rows| && rows[j].id == rows[k].id ==> j == k;
    }
  }

  // ---- Every statement keeps it ----------------------------------------------

  lemma SoundPinRelease(s: State, mac: Mac)
    requires Sound(s) && Enabled(s, PinRelease(mac))
    ensures Sound(Next(s, PinRelease(mac)))
  {
    EndKeeps(s.rows, UnreleasedOf(mac), s.clock, ByPin);
    OthersHeld(s, UnreleasedOf(mac), ByPin);
  }

  lemma SoundReserveRelease(s: State, mac: Mac)
    requires Sound(s) && Enabled(s, ReserveRelease(mac))
    ensures Sound(Next(s, ReserveRelease(mac)))
  {
    NotActiveIsExpired(s, mac);
    EndExpiredKeeps(s, mac, ByReserve);
  }

  // Every machine but the one a statement ends rows of stays held or pooled.
  lemma OthersHeld(s: State, w: Where, cause: Cause)
    requires HeldOrPooled(s)
    ensures forall mac :: mac in s.machines && mac != w.mac && !Pending(s.holder, mac) ==>
              HasHold(EndWhere(s.rows, w, s.clock, cause), mac) || mac in s.pooled
    ensures LeasesPooled(EndWhere(s.rows, w, s.clock, cause), s.pooled)
  {
  }

  // What is unreleased but not active is a lease past its expiry, and its machine had
  // been released to the pool.
  lemma NotActiveIsExpired(s: State, mac: Mac)
    requires Sound(s) && s.holder.Free? && mac in s.machines && !HasActive(s.rows, mac, s.clock)
    ensures forall i :: 0 <= i < |s.rows| && s.rows[i].mac == mac && Unreleased(s.rows[i]) ==> Expired(s.rows[i], s.clock)
    ensures mac in s.pooled && !HasHold(s.rows, mac)
  {
  }

  lemma SoundRelease(s: State, mac: Mac)
    requires Sound(s) && Enabled(s, Release(mac))
    ensures Sound(Next(s, Release(mac)))
  {
    EndKeeps(s.rows, ActiveOf(mac, Lease), s.clock, ByRelease);
    EndedLeasesPool(s, ActiveOf(mac, Lease), ByRelease);
  }

  lemma SoundReleaseToPool(s: State, mac: Mac)
    requires Sound(s) && Enabled(s, ReleaseToPool(mac))
    ensures Sound(Next(s, ReleaseToPool(mac)))
  {
    EndKeeps(s.rows, ActiveOf(mac, Permanent), s.clock, ToPool);
    OthersHeld(s, ActiveOf(mac, Permanent), ToPool);
  }

  // The reaper's update names only the machine; that it ends the expired lease and
  // nothing else is due to the index.
  lemma ReapEndsOnlyExpired(s: State, mac: Mac)
    requires OneUnreleased(s.rows)
    requires exists i :: 0 <= i < |s.rows| && s.rows[i].mac == mac && Expired(s.rows[i], s.clock)
    ensures forall i :: 0 <= i < |s.rows| && Selects(UnreleasedOf(mac), s.rows[i], s.clock) ==> Expired(s.rows[i], s.clock)
  {
  }

  lemma SoundReap(s: State, mac: Mac)
    requires Sound(s) && Enabled(s, Reap(mac))
    ensures Sound(Next(s, Reap(mac)))
  {
    ReapEndsOnlyExpired(s, mac);
    EndExpiredKeeps(s, mac, ByReaper);
  }

  lemma SoundEnrollPin(s: State, mac: Mac, owner: string)
    requires Sound(s) && Enabled(s, EnrollPin(mac, owner))
    ensures !HasUnreleased(s.rows, mac)
    ensures Sound(Next(s, EnrollPin(mac, owner)))
  {
    InsertKeeps(s, mac, owner, Permanent, Some(s.machines[mac].profile), None);
    InsertKeepsHolds(s, mac, owner, Permanent, Some(s.machines[mac].profile), None);
  }

  lemma SoundPinInsert(s: State, mac: Mac, owner: string, profile: Option<string>)
    requires Sound(s) && Enabled(s, PinInsert(mac, owner, profile))
    ensures !HasUnreleased(s.rows, mac)
    ensures Sound(Next(s, PinInsert(mac, owner, profile)))
  {
    InsertKeeps(s, mac, owner, Permanent, profile, None);
    InsertKeepsHolds(s, mac, owner, Permanent, profile, None);
  }

  lemma SoundReserveInsert(s: State, mac: Mac, owner: string, profile: string, ttl: int)
    requires Sound(s) && Enabled(s, ReserveInsert(mac, owner, profile, ttl))
    ensures !HasUnreleased(s.rows, mac)
    ensures Sound(Next(s, ReserveInsert(mac, owner, profile, ttl)))
  {
    InsertKeeps(s, mac, owner, Lease, Some(profile), ExpiryAfter(s.clock, ttl));
    LeaseIsPooled(s, mac, owner, profile, ttl);
  }

  lemma LeaseIsPooled(s: State, mac: Mac, owner: string, profile: string, ttl: int)
    requires HolderOk(s) && HeldOrPooled(s) && Enabled(s, ReserveInsert(mac, owner, profile, ttl))
    ensures HeldOrPooled(Next(s, ReserveInsert(mac, owner, profile, ttl)))
    ensures HolderOk(Next(s, ReserveInsert(mac, owner, profile, ttl)))
  {
    var s' := Next(s, ReserveInsert(mac, owner, profile, ttl));
    InsertKeepsHolds(s, mac, owner, Lease, Some(profile), ExpiryAfter(s.clock, ttl));
    forall m | m in s'.machines && !Pending(s'.holder, m)
      ensures HasHold(s'.rows, m) || m in s'.pooled
    {
      assert !Pending(s.holder, m);
    }
    assert forall i :: 0 <= i < |s.rows| ==> s'.rows[i] == s.rows[i];
  }

  lemma InsertKeepsHolds(s: State, mac: Mac, owner: string, kind: Kind, profile: Option<string>, expiry: Option<int>)
    ensures var rows' := Insert(s, mac, owner, kind, profile, expiry).rows;
            && (forall m :: HasHold(s.rows, m) ==> HasHold(rows', m))
            && (kind == Permanent ==> HasHold(rows', mac))
  {
    var rows' := Insert(s, mac, owner, kind, profile, expiry).rows;
    forall m | HasHold(s.rows, m)
      ensures HasHold(rows', m)
    {
      var i :| 0 <= i < |s.rows| && s.rows[i].mac == m && s.rows[i].kind == Permanent && Unreleased(s.rows[i]);
      assert rows'[i] == s.rows[i];
    }
    assert rows'[|s.rows|].mac == mac;
  }

  lemma MigrationKeeps(machines: map<Mac, Machine>, macs: seq<Mac>, id: nat, now: int)
    requires forall mac :: mac in macs ==> mac in machines
    requires forall i, j :: 0 <= i < j < |macs| ==> macs[i] != macs[j]
    ensures var more := MigrationRows(machines, macs, id, now);
            OneUnreleased(more) && Enrolled(more, machines) && AllWellFormed(more)
  {
  }

  // Rows for machines without an unreleased reservation may join the others.
  lemma JoinedKeep(rows: seq<Reservation>, more: seq<Reservation>, machines: map<Mac, Machine>)
    requires OneUnreleased(rows) && Enrolled(rows, machines) && AllWellFormed(rows)
    requires OneUnreleased(more) && Enrolled(more, machines) && AllWellFormed(more)
    requires forall i :: 0 <= i < |more| ==> !HasUnreleased(rows, more[i].mac)
    ensures OneUnreleased(rows + more) && Enrolled(rows + more, machines) && AllWellFormed(rows + more)
  {
    var all := rows + more;
    forall i, j | 0 <= i < j < |all| && all[i].mac == all[j].mac
      ensures !Unreleased(all[i]) || !Unreleased(all[j])
    {
      if i < |rows| <= j {
        assert !HasUnreleased(rows, more[j - |rows|].mac);
      }
    }
  }

  lemma JoinedNumbered(rows: seq<Reservation>, machines: map<Mac, Machine>, macs: seq<Mac>, id: nat, now: int, deleted: set<nat>)
    requires Numbered(rows, id, deleted) && forall mac :: mac in macs ==> mac in machines
    ensures Numbered(rows + MigrationRows(machines, macs, id, now), id + |macs|, deleted)
  {
  }

  lemma JoinedHolds(rows: seq<Reservation>, more: seq<Reservation>, mac: Mac)
    ensures HasHold(rows, mac) || HasHold(more, mac) ==> HasHold(rows + more, mac)
  {
    var all := rows + more;
    if i :| 0 <= i < |rows| && rows[i].mac == mac && rows[i].kind == Permanent && Unreleased(rows[i]) {
      assert all[i] == rows[i];
    }
    if i :| 0 <= i < |more| && more[i].mac == mac && more[i].kind == Permanent && Unreleased(more[i]) {
      assert all[|rows| + i] == more[i];
    }
  }

  lemma MigrationIsHeld(machines: map<Mac, Machine>, macs: seq<Mac>, id: nat, now: int, mac: Mac)
    requires (forall m :: m in macs ==> m in machines) && mac in macs
    ensures HasHold(MigrationRows(machines, macs, id, now), mac)
  {
    var rows := MigrationRows(machines, macs, id, now);
    var i :| 0 <= i < |macs| && macs[i] == mac;
    assert rows[i].mac == mac && rows[i].kind == Permanent && Unreleased(rows[i]);
  }

  // The migration holds every machine that had no unreleased reservation, whatever else
  // is in the table.
  lemma MigrationHeldOrPooled(s: State, macs: seq<Mac>)
    requires Sound(s) && Enabled(s, MigrateInsert(macs))
    ensures HeldOrPooled(Next(s, MigrateInsert(macs)))
    ensures forall mac :: mac in macs ==> HasHold(Next(s, MigrateInsert(macs)).rows, mac)
  {
    var more := MigrationRows(s.machines, macs, s.nextId, s.clock);
    var s' := Next(s, MigrateInsert(macs));
    assert s'.rows == s.rows + more;
    forall mac | mac in macs
      ensures HasHold(s'.rows, mac)
    {
      MigrationIsHeld(s.machines, macs, s.nextId, s.clock, mac);
      JoinedHolds(s.rows, more, mac);
    }
    forall mac | mac in s'.machines
      ensures HasHold(s'.rows, mac) || mac in s'.pooled
    {
      if mac !in macs {
        assert HasUnreleased(s.rows, mac) && !Pending(s.holder, mac);
        JoinedHolds(s.rows, more, mac);
      }
    }
    assert forall i :: 0 <= i < |s.rows| && Unreleased(s.rows[i]) ==> HasUnreleased(s.rows, s.rows[i].mac);
    assert forall i :: 0 <= i < |s.rows| && Unreleased(s.rows[i]) ==> s.rows[i].mac !in macs;
  }

  lemma SoundMigrate(s: State, macs: seq<Mac>)
    requires Sound(s) && Enabled(s, MigrateInsert(macs))
    ensures Sound(Next(s, MigrateInsert(macs)))
    ensures forall mac :: mac in macs ==> HasHold(Next(s, MigrateInsert(macs)).rows, mac)
  {
    var more := MigrationRows(s.machines, macs, s.nextId, s.clock);
    MigrationKeeps(s.machines, macs, s.nextId, s.clock);
    JoinedKeep(s.rows, more, s.machines);
    JoinedNumbered(s.rows, s.machines, macs, s.nextId, s.clock, s.deleted);
    MigrationHeldOrPooled(s, macs);
  }

  lemma SoundRenew(s: State, mac: Mac, ttl: int)
    requires Sound(s) && Enabled(s, Renew(mac, ttl))
    ensures Sound(Next(s, Renew(mac, ttl)))
  {
    var expiry := ExpiryAfter(s.clock, ttl);
    ExtendKeeps(s.rows, mac, s.clock, expiry);
    ExtendPools(s, mac, expiry);
  }

  lemma ExtendKeeps(rows: seq<Reservation>, mac: Mac, now: int, expiry: Option<int>)
    requires OneUnreleased(rows) && AllWellFormed(rows)
    ensures OneUnreleased(ExtendWhere(rows, ActiveOf(mac, Lease), now, expiry))
    ensures AllWellFormed(ExtendWhere(rows, ActiveOf(mac, Lease), now, expiry))
  {
  }

  lemma ExtendPools(s: State, mac: Mac, expiry: Option<int>)
    requires HeldOrPooled(s)
    ensures HeldOrPooled(s.(rows := ExtendWhere(s.rows, ActiveOf(mac, Lease), s.clock, expiry)))
  {
    forall m
      ensures HasHold(s.rows, m) ==> HasHold(ExtendWhere(s.rows, ActiveOf(mac, Lease), s.clock, expiry), m)
    {
      ExtendHolds(s, mac, expiry, m);
    }
  }

  lemma ExtendHolds(s: State, mac: Mac, expiry: Option<int>, m: Mac)
    ensures HasHold(s.rows, m) ==> HasHold(ExtendWhere(s.rows, ActiveOf(mac, Lease), s.clock, expiry), m)
  {
  }

  // Statements on the machines table, and the clock.
  lemma SoundMachines(s: State, st: Statement)
    requires st.Tick? || st.EnrollNew? || st.EnrollReplace? || st.EnrollCarry? || st.SetProfile?
             || st.SetPending? || st.ReserveSwitch?
    requires Sound(s) && Enabled(s, st)
    ensures Sound(Next(s, st))
  {
  }

  lemma SoundRemoveRows(s: State, mac: Mac)
    requires Sound(s) && Enabled(s, RemoveRows(mac))
    ensures Sound(Next(s, RemoveRows(mac)))
  {
    DeleteKeepsOne(s.rows, mac);
    DeletedIdsAreGone(s.rows, mac, s.nextId, s.deleted);
    DeleteKeepsRest(s.rows, mac);
  }

  lemma DeleteKeepsRest(rows: seq<Reservation>, mac: Mac)
    ensures forall i :: 0 <= i < |DeleteOf(rows, mac)| ==>
              exists k :: 0 <= k < |rows| && rows[k] == DeleteOf(rows, mac)[i] && rows[k].mac != mac
    ensures forall m :: m != mac && HasHold(rows, m) ==> HasHold(DeleteOf(rows, mac), m)
  {
    var rows' := DeleteOf(rows, mac);
    DeleteMembers(rows, mac);
    forall i | 0 <= i < |rows'|
      ensures exists k :: 0 <= k < |rows| && rows[k] == rows'[i] && rows[k].mac != mac
    {
      assert rows'[i] in rows';
      DeletedFrom(rows, mac, i);
    }
    forall m | m != mac && HasHold(rows, m)
      ensures HasHold(rows', m)
    {
      var i :| 0 <= i < |rows| && rows[i].mac == m && rows[i].kind == Permanent && Unreleased(rows[i]);
      assert rows[i] in rows';
    }
  }

  lemma SoundRemoveMachine(s: State, mac: Mac)
    requires Sound(s) && Enabled(s, RemoveMachine(mac))
    ensures Sound(Next(s, RemoveMachine(mac)))
  {
  }

  ghost predicate Updates(st: Statement) {
    st.PinRelease? || st.ReserveRelease? || st.Renew? || st.Release? || st.ReleaseToPool? || st.Reap?
  }

  lemma SoundInsert(s: State, st: Statement)
    requires Sound(s) && Enabled(s, st) && (Inserts(st) || st.MigrateInsert?)
    ensures Sound(Next(s, st))
  {
    match st
    case MigrateInsert(macs) => SoundMigrate(s, macs);
    case EnrollPin(mac, owner) => SoundEnrollPin(s, mac, owner);
    case PinInsert(mac, owner, profile) => SoundPinInsert(s, mac, owner, profile);
    case ReserveInsert(mac, owner, profile, ttl) => SoundReserveInsert(s, mac, owner, profile, ttl);
  }

  lemma SoundUpdate(s: State, st: Statement)
    requires Sound(s) && Enabled(s, st) && Updates(st)
    ensures Sound(Next(s, st))
  {
    match st
    case PinRelease(mac) => SoundPinRelease(s, mac);
    case ReserveRelease(mac) => SoundReserveRelease(s, mac);
    case Renew(mac, ttl) => SoundRenew(s, mac, ttl);
    case Release(mac) => SoundRelease(s, mac);
    case ReleaseToPool(mac) => SoundReleaseToPool(s, mac);
    case Reap(mac) => SoundReap(s, mac);
  }

  lemma RespectsNext(s: State, st: Statement)
    requires Sound(s) && Enabled(s, st)
    ensures RespectsIndex(s, st)
  {
    match st
    case EnrollPin(mac, owner) => SoundEnrollPin(s, mac, owner);
    case PinInsert(mac, owner, profile) => SoundPinInsert(s, mac, owner, profile);
    case ReserveInsert(mac, owner, profile, ttl) => SoundReserveInsert(s, mac, owner, profile, ttl);
    case _ =>
  }

  // Whatever the next statement is, it keeps the unique index, the reference from
  // reservations to machines and everything else.
  lemma SoundNext(s: State, st: Statement)
    requires Sound(s) && Enabled(s, st)
    ensures Sound(Next(s, st)) && RespectsIndex(s, st)
  {
    RespectsNext(s, st);
    if Inserts(st) || st.MigrateInsert? {
      SoundInsert(s, st);
    } else if Updates(st) {
      SoundUpdate(s, st);
    } else if st.RemoveRows? {
      SoundRemoveRows(s, st.mac);
    } else if st.RemoveMachine? {
      SoundRemoveMachine(s, st.mac);
    } else {
      SoundMachines(s, st);
    }
  }

  // A lease or renewal given out at `now` ever expires exactly when its end can still be
  // told; past that the lease has no expiry, is active for good and is never reaped.
  lemma ExpiresIff(r: Reservation, now: int, ttl: int)
    requires r.kind == Lease && Unreleased(r) && r.expiresAt == ExpiryAfter(now, ttl) && ttl > 0
    ensures (exists at: int :: Expired(r, at)) <==> now + ttl <= LAST_INSTANT
    ensures (forall at: int :: Active(r, at)) <==> now + ttl > LAST_INSTANT
  {
    if now + ttl <= LAST_INSTANT {
      assert Expired(r, now + ttl) && !Active(r, now + ttl);
    }
  }

  // Without the index, the reaper's update would end a permanent hold along with an
  // expired lease of the same machine.
  lemma ReaperNeedsIndex(mac: Mac, now: int)
    ensures exists rows: seq<Reservation> ::
              && AllWellFormed(rows) && HasHold(rows, mac)
              && (exists i :: 0 <= i < |rows| && rows[i].mac == mac && Expired(rows[i], now))
              && !HasHold(EndWhere(rows, UnreleasedOf(mac), now, ByReaper), mac)
  {
    var rows := [Reservation(1, mac, "agent", Lease, None, now - 2, Some(now - 1), None),
                 Reservation(2, mac, "school", Permanent, None, now - 2, None, None)];
    assert Expired(rows[0], now);
    assert HasHold(rows, mac) by {
      assert rows[1].kind == Permanent && Unreleased(rows[1]);
    }
    assert AllWellFormed(rows);
  }
}
