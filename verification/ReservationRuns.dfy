/** What holds over whole runs of reservation statements, in any interleaving. */
module ReservationRuns {
  import opened Options
  import opened Reservations

  ghost predicate Takes(s: State, st: Statement, s': State) {
    Enabled(s, st) && s' == Next(s, st)
  }

  // A database that predates reservations: machines, but no reservation yet.
  ghost predicate Initial(s: State) {
    s.rows == [] && s.nextId == 1 && s.holder.MigratingOnce? && s.deleted == {} && s.pooled == {}
  }

  ghost predicate IsRun(states: seq<State>, sts: seq<Statement>) {
    && |states| == |sts| + 1 && Initial(states[0])
    && forall i :: 0 <= i < |sts| ==> Takes(states[i], sts[i], states[i + 1])
  }

  lemma ExtendRun(states: seq<State>, sts: seq<Statement>, st: Statement)
    requires IsRun(states, sts) && Enabled(states[|sts|], st)
    ensures IsRun(states + [Next(states[|sts|], st)], sts + [st])
  {
  }

  lemma SoundTakes(s: State, st: Statement, s': State)
    requires Sound(s) && Takes(s, st, s')
    ensures Sound(s') && RespectsIndex(s, st)
  {
    SoundNext(s, st);
  }

  // In every reachable state, between any two statements of any method: at most one
  // unreleased reservation per machine, every reservation names an enrolled machine, and
  // no insert ever meets an unreleased reservation of its machine.
  lemma {:induction false} RunSound(states: seq<State>, sts: seq<Statement>, i: nat)
    requires IsRun(states, sts) && i < |states|
    ensures Sound(states[i])
  {
    if i == 0 {
    } else {
      RunSound(states, sts, i - 1);
      SoundTakes(states[i - 1], sts[i - 1], states[i]);
    }
  }

  lemma RunRespectsIndex(states: seq<State>, sts: seq<Statement>, i: nat)
    requires IsRun(states, sts) && i < |sts|
    ensures RespectsIndex(states[i], sts[i])
  {
    RunSound(states, sts, i);
    SoundTakes(states[i], sts[i], states[i + 1]);
  }

  // ---- What becomes of a reservation -----------------------------------------

  datatype Fate = Unwritten | Live | Ended(ending: Ending) | Removed

  ghost predicate IsRow(s: State, id: nat, i: nat) {
    i < |s.rows| && s.rows[i].id == id
  }

  ghost function RowFate(r: Reservation): Fate {
    if r.released.None? then Live else Ended(r.released.value)
  }

  ghost function FateOf(s: State, id: nat): Fate {
    if id in s.deleted then Removed
    else if exists i: nat :: IsRow(s, id, i) then
      var i: nat :| IsRow(s, id, i);
      RowFate(s.rows[i])
    else Unwritten
  }

  lemma FateOfRow(s: State, i: nat)
    requires Numbered(s.rows, s.nextId, s.deleted) && i < |s.rows|
    ensures FateOf(s, s.rows[i].id) == RowFate(s.rows[i])
  {
    assert IsRow(s, s.rows[i].id, i);
  }

  lemma NoRowUnwritten(s: State, id: nat)
    requires forall i: nat :: !IsRow(s, id, i)
    ensures FateOf(s, id) == if id in s.deleted then Removed else Unwritten
  {
  }

  // A reservation is written once, ends at most once and is removed at most once.
  ghost predicate Later(f: Fate, g: Fate) {
    f == g || f.Unwritten? || (f.Live? && !g.Unwritten?) || (f.Ended? && g.Removed?)
  }

  // The statement that ends reservations of `mac` for `cause`.
  ghost predicate Ends(st: Statement, cause: Cause, mac: Mac) {
    match cause
    case ByRelease => st == Release(mac)
    case ByReaper => st == Reap(mac)
    case ByPin => st == PinRelease(mac)
    case ByReserve => st == ReserveRelease(mac)
    case ToPool => st == ReleaseToPool(mac)
  }

  // What one statement may do to the reservation `id`.
  ghost predicate FateStep(s: State, st: Statement, s': State, id: nat) {
    && Later(FateOf(s, id), FateOf(s', id))
    && (FateOf(s, id).Unwritten? ==> FateOf(s', id).Unwritten? || FateOf(s', id).Live?)
    && (FateOf(s, id).Live? && FateOf(s', id).Ended? ==>
          && FateOf(s', id).ending.at == s.clock
          && exists i: nat :: IsRow(s, id, i) && Ends(st, FateOf(s', id).ending.cause, s.rows[i].mac))
  }

  // An update in place: ids stay, and rows already released stay as they are.
  ghost predicate UpdatesInPlace(rows: seq<Reservation>, rows': seq<Reservation>) {
    && |rows'| == |rows|
    && forall i :: 0 <= i < |rows| ==>
         rows'[i].id == rows[i].id && rows'[i].mac == rows[i].mac && rows'[i].kind == rows[i].kind
         && (rows[i].released.Some? ==> rows'[i] == rows[i])
  }

  lemma FateInPlace(s: State, st: Statement, s': State, id: nat)
    requires Numbered(s.rows, s.nextId, s.deleted) && UpdatesInPlace(s.rows, s'.rows)
    requires s'.nextId == s.nextId && s'.deleted == s.deleted
    requires forall i :: 0 <= i < |s.rows| && s.rows[i].released.None? && s'.rows[i].released.Some? ==>
               s'.rows[i].released.value.at == s.clock && Ends(st, s'.rows[i].released.value.cause, s.rows[i].mac)
    ensures FateStep(s, st, s', id)
  {
    if i: nat :| IsRow(s, id, i) {
      FateOfRow(s, i);
      FateOfRow(s', i);
    } else {
      assert forall i: nat :: IsRow(s', id, i) ==> IsRow(s, id, i);
      NoRowUnwritten(s, id);
      NoRowUnwritten(s', id);
    }
  }

  lemma FateAppend(s: State, st: Statement, s': State, id: nat)
    requires Numbered(s.rows, s.nextId, s.deleted) && Numbered(s'.rows, s'.nextId, s'.deleted)
    requires s'.deleted == s.deleted && |s'.rows| >= |s.rows|
    requires forall i :: 0 <= i < |s.rows| ==> s'.rows[i] == s.rows[i]
    requires forall i :: |s.rows| <= i < |s'.rows| ==> s'.rows[i].released.None?
    ensures FateStep(s, st, s', id)
  {
    if i: nat :| IsRow(s, id, i) {
      FateOfRow(s, i);
      FateOfRow(s', i);
    } else {
      NoRowUnwritten(s, id);
      if i: nat :| IsRow(s', id, i) {
        assert i < |s.rows| ==> IsRow(s, id, i);
        FateOfRow(s', i);
      } else {
        NoRowUnwritten(s', id);
      }
    }
  }

  lemma KeptRow(rows: seq<Reservation>, mac: Mac, i: nat) returns (k: nat)
    requires i < |rows| && rows[i].mac != mac
    ensures k < |DeleteOf(rows, mac)| && DeleteOf(rows, mac)[k] == rows[i]
  {
    DeleteMembers(rows, mac);
    assert rows[i] in DeleteOf(rows, mac);
    k :| 0 <= k < |DeleteOf(rows, mac)| && DeleteOf(rows, mac)[k] == rows[i];
  }

  lemma FateDelete(s: State, st: Statement, s': State, mac: Mac, id: nat)
    requires Numbered(s.rows, s.nextId, s.deleted) && s'.rows == DeleteOf(s.rows, mac)
    requires s'.nextId == s.nextId && s'.deleted == s.deleted + IdsOf(s.rows, mac)
    ensures FateStep(s, st, s', id)
  {
    DeletedIdsAreGone(s.rows, mac, s.nextId, s.deleted);
    if i: nat :| IsRow(s, id, i) {
      FateOfRow(s, i);
      if s.rows[i].mac != mac {
        var k := KeptRow(s.rows, mac, i);
        FateOfRow(s', k);
      } else {
        assert id in IdsOf(s.rows, mac);
      }
    } else {
      NoRowUnwritten(s, id);
      NoneKept(s, s', mac, id);
      assert id !in IdsOf(s.rows, mac) by {
        assert forall i: nat :: i < |s.rows| && s.rows[i].id == id ==> IsRow(s, id, i);
      }
      NoRowUnwritten(s', id);
    }
  }

  lemma NoneKept(s: State, s': State, mac: Mac, id: nat)
    requires s'.rows == DeleteOf(s.rows, mac) && forall i: nat :: !IsRow(s, id, i)
    ensures forall k: nat :: !IsRow(s', id, k)
  {
    forall k: nat
      ensures !IsRow(s', id, k)
    {
      if k < |s'.rows| {
        DeletedFrom(s.rows, mac, k);
        var i: nat :| i < |s.rows| && s.rows[i] == s'.rows[k];
        assert !IsRow(s, id, i);
      }
    }
  }

  ghost predicate Appends(st: Statement) {
    st.MigrateInsert? || Inserts(st)
  }

  lemma AppendOnly(s: State, st: Statement, s': State)
    requires Takes(s, st, s') && Appends(st)
    ensures s'.deleted == s.deleted && |s'.rows| >= |s.rows|
    ensures forall i :: 0 <= i < |s.rows| ==> s'.rows[i] == s.rows[i]
    ensures forall i :: |s.rows| <= i < |s'.rows| ==> s'.rows[i].released.None?
  {
  }

  lemma InPlace(s: State, st: Statement, s': State)
    requires Takes(s, st, s') && !Appends(st) && !st.RemoveRows?
    ensures UpdatesInPlace(s.rows, s'.rows) && s'.nextId == s.nextId && s'.deleted == s.deleted
    ensures forall i :: 0 <= i < |s.rows| && s.rows[i].released.None? && s'.rows[i].released.Some? ==>
              s'.rows[i].released.value.at == s.clock && Ends(st, s'.rows[i].released.value.cause, s.rows[i].mac)
  {
  }

  lemma FateNext(s: State, st: Statement, s': State, id: nat)
    requires Sound(s) && Sound(s') && Takes(s, st, s')
    ensures FateStep(s, st, s', id)
  {
    if st.RemoveRows? {
      FateDelete(s, st, s', st.mac, id);
    } else if Appends(st) {
      AppendOnly(s, st, s');
      FateAppend(s, st, s', id);
    } else {
      InPlace(s, st, s');
      FateInPlace(s, st, s', id);
    }
  }

  lemma RunFateStep(states: seq<State>, sts: seq<Statement>, i: nat, id: nat)
    requires IsRun(states, sts) && i < |sts|
    ensures FateStep(states[i], sts[i], states[i + 1], id)
  {
    RunSound(states, sts, i);
    RunSound(states, sts, i + 1);
    FateNext(states[i], sts[i], states[i + 1], id);
  }

  // Over any run a reservation goes from unwritten to live to ended to removed, never
  // back, and never from one ending to another: it is returned at most once.
  lemma FateOnlyAdvances(states: seq<State>, sts: seq<Statement>, i: nat, k: nat, id: nat)
    requires IsRun(states, sts) && i <= k < |states|
    ensures Later(FateOf(states[i], id), FateOf(states[k], id))
  {
    for m := i to k
      invariant Later(FateOf(states[i], id), FateOf(states[m], id))
    {
      RunFateStep(states, sts, m, id);
    }
  }

  // The statement found the reservation live and ended it for its cause, then and there.
  ghost predicate EndedBy(s: State, st: Statement, s': State, id: nat, ending: Ending) {
    && FateOf(s, id).Live? && FateOf(s', id) == Ended(ending) && s.clock == ending.at
    && exists r: nat :: IsRow(s, id, r) && Ends(st, ending.cause, s.rows[r].mac)
  }

  lemma EndsHere(s: State, st: Statement, s': State, id: nat)
    requires FateStep(s, st, s', id) && !FateOf(s, id).Ended? && FateOf(s', id).Ended?
    ensures EndedBy(s, st, s', id, FateOf(s', id).ending)
  {
  }

  // Every ending is accounted for by one statement of the run: the one of that cause,
  // for that machine, at that time, which found the reservation live.
  lemma {:induction false} EndedByStatement(states: seq<State>, sts: seq<Statement>, i: nat, id: nat) returns (j: nat)
    requires IsRun(states, sts) && i < |states| && FateOf(states[i], id).Ended?
    ensures j < i && EndedBy(states[j], sts[j], states[j + 1], id, FateOf(states[i], id).ending)
  {
    InitiallyUnwritten(states[0], id);
    assert i > 0;
    j := i - 1;
    if FateOf(states[j], id).Ended? {
      RunFateStep(states, sts, j, id);
      assert FateOf(states[j], id) == FateOf(states[i], id);
      j := EndedByStatement(states, sts, j, id);
    } else {
      RunFateStep(states, sts, j, id);
      EndsHere(states[j], sts[j], states[j + 1], id);
    }
  }

  lemma InitiallyUnwritten(s: State, id: nat)
    requires Initial(s)
    ensures FateOf(s, id).Unwritten?
  {
  }

  // Every id given out is a reservation that is live, has ended or was removed.
  ghost predicate Complete(s: State) {
    forall id: nat :: 1 <= id < s.nextId ==> !FateOf(s, id).Unwritten?
  }

  lemma CompleteNext(s: State, st: Statement, s': State)
    requires Complete(s) && Takes(s, st, s') && Sound(s) && Sound(s')
    ensures Complete(s')
  {
    forall id: nat | 1 <= id < s'.nextId
      ensures !FateOf(s', id).Unwritten?
    {
      if id < s.nextId {
        FateNext(s, st, s', id);
      } else {
        NewRowHasId(s, st, s', id);
      }
    }
  }

  lemma NewRowHasId(s: State, st: Statement, s': State, id: nat)
    requires Takes(s, st, s') && s.nextId <= id < s'.nextId && Sound(s')
    ensures FateOf(s', id).Live?
  {
    var i := |s.rows| + (id - s.nextId);
    assert s'.rows[i].id == id && s'.rows[i].released.None?;
    FateOfRow(s', i);
  }

  lemma {:induction false} RunComplete(states: seq<State>, sts: seq<Statement>, i: nat)
    requires IsRun(states, sts) && i < |states|
    ensures Complete(states[i])
  {
    if i == 0 {
    } else {
      RunComplete(states, sts, i - 1);
      RunSound(states, sts, i - 1);
      RunSound(states, sts, i);
      CompleteNext(states[i - 1], sts[i - 1], states[i]);
    }
  }

  // ---- Leased again ----------------------------------------------------------

  // Row `x` is the unreleased lease `id` of `mac`.
  ghost predicate IsLeaseOf(s: State, x: nat, id: nat, mac: Mac) {
    IsRow(s, id, x) && s.rows[x].mac == mac && s.rows[x].kind == Lease && Unreleased(s.rows[x])
  }

  ghost predicate LiveLease(s: State, id: nat, mac: Mac) {
    exists x: nat :: IsLeaseOf(s, x, id, mac)
  }

  ghost predicate HasLease(s: State, mac: Mac) {
    exists id: nat :: LiveLease(s, id, mac)
  }

  ghost predicate LeasesTo(st: Statement, mac: Mac) {
    st.ReserveInsert? && st.mac == mac
  }

  // An unreleased lease was one before the statement, or the statement wrote it.
  lemma LeaseBefore(s: State, st: Statement, s': State, id: nat, mac: Mac)
    requires Sound(s) && Takes(s, st, s') && LiveLease(s', id, mac)
    ensures LiveLease(s, id, mac) || (LeasesTo(st, mac) && id == s.nextId)
  {
    var x: nat :| IsLeaseOf(s', x, id, mac);
    if st.RemoveRows? {
      DeletedFrom(s.rows, st.mac, x);
      var y: nat :| y < |s.rows| && s.rows[y] == s'.rows[x];
      assert IsLeaseOf(s, y, id, mac);
    } else if Appends(st) {
      AppendOnly(s, st, s');
      if x < |s.rows| {
        assert IsLeaseOf(s, x, id, mac);
      }
    } else {
      InPlace(s, st, s');
      assert IsLeaseOf(s, x, id, mac);
    }
  }

  lemma RunLeaseBefore(states: seq<State>, sts: seq<Statement>, k: nat, id: nat, mac: Mac)
    requires IsRun(states, sts) && k < |sts| && LiveLease(states[k + 1], id, mac)
    ensures LiveLease(states[k], id, mac) || (LeasesTo(sts[k], mac) && id == states[k].nextId)
  {
    RunSound(states, sts, k);
    LeaseBefore(states[k], sts[k], states[k + 1], id, mac);
  }

  // The reservation a statement writes for `reserve`.
  lemma LeaseWritten(s: State, st: Statement, s': State, mac: Mac)
    requires Sound(s) && Takes(s, st, s') && LeasesTo(st, mac)
    ensures Keeps(s', s.nextId, mac, Lease)
  {
    assert s'.rows[|s.rows|].id == s.nextId;
    assert forall x :: 0 <= x < |s.rows| ==> s.rows[x].id < s.nextId;
  }

  // The reservation `id`, wherever it stands, is one of `mac` of this kind.
  ghost predicate Keeps(s: State, id: nat, mac: Mac, kind: Kind) {
    id < s.nextId && forall x: nat :: IsRow(s, id, x) ==> s.rows[x].mac == mac && s.rows[x].kind == kind
  }

  lemma KeepsNext(s: State, st: Statement, s': State, id: nat, mac: Mac, kind: Kind)
    requires Sound(s) && Takes(s, st, s') && Keeps(s, id, mac, kind)
    ensures Keeps(s', id, mac, kind)
  {
    forall x: nat | IsRow(s', id, x)
      ensures s'.rows[x].mac == mac && s'.rows[x].kind == kind
    {
      if st.RemoveRows? {
        DeletedFrom(s.rows, st.mac, x);
        var y: nat :| y < |s.rows| && s.rows[y] == s'.rows[x];
        assert IsRow(s, id, y);
      } else if Appends(st) {
        AppendOnly(s, st, s');
        if x >= |s.rows| {
          AppendedIdsAreNew(s, st, s', x);
          assert false;
        }
        assert IsRow(s, id, x);
      } else {
        InPlace(s, st, s');
        assert IsRow(s, id, x);
      }
    }
    NextIdGrows(s, st, s');
  }

  lemma AppendedIdsAreNew(s: State, st: Statement, s': State, x: nat)
    requires Takes(s, st, s') && Appends(st) && |s.rows| <= x < |s'.rows|
    ensures s'.rows[x].id >= s.nextId
  {
  }

  lemma NextIdGrows(s: State, st: Statement, s': State)
    requires Takes(s, st, s')
    ensures s'.nextId >= s.nextId
  {
  }

  lemma RunKeepsOnce(states: seq<State>, sts: seq<Statement>, i: nat, id: nat, mac: Mac, kind: Kind)
    requires IsRun(states, sts) && i < |sts| && Keeps(states[i], id, mac, kind)
    ensures Keeps(states[i + 1], id, mac, kind)
  {
    RunSound(states, sts, i);
    KeepsNext(states[i], sts[i], states[i + 1], id, mac, kind);
  }

  lemma RunKeeps(states: seq<State>, sts: seq<Statement>, i: nat, k: nat, id: nat, mac: Mac, kind: Kind)
    requires IsRun(states, sts) && i <= k < |states| && Keeps(states[i], id, mac, kind)
    ensures Keeps(states[k], id, mac, kind)
  {
    for m := i to k
      invariant Keeps(states[m], id, mac, kind)
    {
      RunKeepsOnce(states, sts, m, id, mac, kind);
    }
  }

  // Statement `j` wrote a lease of `mac` that is still live in `s`.
  ghost predicate WroteLive(states: seq<State>, sts: seq<Statement>, j: nat, s: State, mac: Mac) {
    j < |sts| && j < |states| && LeasesTo(sts[j], mac) && FateOf(s, states[j].nextId).Live?
  }

  lemma LeaseComesFrom(states: seq<State>, sts: seq<Statement>, i: nat, k: nat, id: nat, mac: Mac) returns (j: nat)
    requires IsRun(states, sts) && i <= k < |states| && !HasLease(states[i], mac) && LiveLease(states[k], id, mac)
    ensures i <= j < k && LeasesTo(sts[j], mac) && states[j].nextId == id
  {
    j := k;
    while j > i && LiveLease(states[j - 1], id, mac)
      invariant i <= j <= k && LiveLease(states[j], id, mac)
    {
      j := j - 1;
    }
    assert j > i;
    j := j - 1;
    RunLeaseBefore(states, sts, j, id, mac);
  }

  lemma LiveLeaseIsLive(s: State, id: nat, mac: Mac)
    requires Sound(s) && LiveLease(s, id, mac)
    ensures FateOf(s, id).Live?
  {
    var x: nat :| IsLeaseOf(s, x, id, mac);
    FateOfRow(s, x);
  }

  // A machine without a lease at one moment is leased at a later one exactly when some
  // `reserve` in between wrote it a lease that is still live.
  lemma LeasedAgainIff(states: seq<State>, sts: seq<Statement>, i: nat, k: nat, mac: Mac)
    requires IsRun(states, sts) && i <= k < |states| && !HasLease(states[i], mac)
    ensures HasLease(states[k], mac) <==> exists j: nat :: i <= j < k && WroteLive(states, sts, j, states[k], mac)
  {
    RunSound(states, sts, k);
    if HasLease(states[k], mac) {
      var id: nat :| LiveLease(states[k], id, mac);
      var j := LeaseComesFrom(states, sts, i, k, id, mac);
      LiveLeaseIsLive(states[k], id, mac);
      assert WroteLive(states, sts, j, states[k], mac);
    }
    if j: nat :| i <= j < k && WroteLive(states, sts, j, states[k], mac) {
      WrittenIsLeased(states, sts, j, k, mac);
    }
  }

  lemma RunLeaseWritten(states: seq<State>, sts: seq<Statement>, j: nat, mac: Mac)
    requires IsRun(states, sts) && j < |sts| && LeasesTo(sts[j], mac)
    ensures Keeps(states[j + 1], states[j].nextId, mac, Lease)
  {
    RunSound(states, sts, j);
    LeaseWritten(states[j], sts[j], states[j + 1], mac);
  }

  lemma KeptIsLeased(s: State, id: nat, mac: Mac)
    requires Sound(s) && Keeps(s, id, mac, Lease) && FateOf(s, id).Live?
    ensures LiveLease(s, id, mac)
  {
    var x: nat :| IsRow(s, id, x);
    FateOfRow(s, x);
    assert IsLeaseOf(s, x, id, mac);
  }

  lemma WrittenIsLeased(states: seq<State>, sts: seq<Statement>, j: nat, k: nat, mac: Mac)
    requires IsRun(states, sts) && j < k < |states| && WroteLive(states, sts, j, states[k], mac)
    ensures HasLease(states[k], mac)
  {
    var id := states[j].nextId;
    RunLeaseWritten(states, sts, j, mac);
    RunKeeps(states, sts, j + 1, k, id, mac, Lease);
    RunSound(states, sts, k);
    KeptIsLeased(states[k], id, mac);
    assert LiveLease(states[k], id, mac);
  }

  lemma FreeHasNoLease(s: State, mac: Mac)
    requires !HasUnreleased(s.rows, mac)
    ensures !HasLease(s, mac)
  {
  }

  // ---- Exclusivity of a lease ------------------------------------------------

  // `id` is an active lease of `mac` held by `owner`.
  ghost predicate Leased(s: State, id: nat, mac: Mac, owner: string) {
    exists i: nat :: IsRow(s, id, i) && IsLease(s.rows[i], mac, owner) && Active(s.rows[i], s.clock)
  }

  ghost predicate IsLease(r: Reservation, mac: Mac, owner: string) {
    r.kind == Lease && r.mac == mac && r.holder == owner
  }

  // The reservation has not reached its expiry, wherever that stands now.
  ghost predicate BeforeExpiry(s: State, id: nat) {
    forall i: nat :: IsRow(s, id, i) && s.rows[i].expiresAt.Some? ==> s.clock < s.rows[i].expiresAt.value
  }

  // The three things that can end a lease early: all of them about its own machine.
  ghost predicate EndsEarly(st: Statement, mac: Mac) {
    st == Release(mac) || st == PinRelease(mac) || st == RemoveRows(mac)
  }

  // The two statements by which `reserve` gives out `mac`.
  ghost predicate Leases(st: Statement, mac: Mac) {
    (st.ReserveRelease? || st.ReserveInsert?) && st.mac == mac
  }

  // Nobody is given a machine that is leased.
  lemma NotLeasedAgain(s: State, st: Statement, s': State, id: nat, mac: Mac, owner: string)
    requires Sound(s) && Takes(s, st, s') && Leased(s, id, mac, owner)
    ensures !Leases(st, mac)
  {
  }

  lemma LeaseInPlace(s: State, st: Statement, s': State, i: nat)
    requires Sound(s) && Takes(s, st, s') && !Appends(st) && !st.RemoveRows?
    requires i < |s.rows| && s.rows[i].kind == Lease && Active(s.rows[i], s.clock)
    requires !EndsEarly(st, s.rows[i].mac) && !Leases(st, s.rows[i].mac)
    ensures |s'.rows| == |s.rows| && s'.rows[i] == s.rows[i].(expiresAt := s'.rows[i].expiresAt)
  {
    if st.Reap? {
      ReapEndsOnlyExpired(s, st.mac);
    }
  }

  lemma LeaseKept(s: State, st: Statement, s': State, id: nat, mac: Mac, owner: string)
    requires Sound(s) && Sound(s') && Takes(s, st, s') && Leased(s, id, mac, owner)
    requires !EndsEarly(st, mac) && BeforeExpiry(s', id)
    ensures Leased(s', id, mac, owner) && !Leases(st, mac)
  {
    NotLeasedAgain(s, st, s', id, mac, owner);
    var i: nat :| IsRow(s, id, i) && IsLease(s.rows[i], mac, owner) && Active(s.rows[i], s.clock);
    if st.RemoveRows? {
      var k := KeptRow(s.rows, st.mac, i);
      assert IsRow(s', id, k);
    } else if Appends(st) {
      AppendOnly(s, st, s');
      assert IsRow(s', id, i);
    } else {
      LeaseInPlace(s, st, s', i);
      assert IsRow(s', id, i);
    }
  }

  // Once leased, a machine stays leased to the same holder through any statements that
  // stay before the lease's expiry and do not release, pin or remove that machine; and
  // nobody else is given a lease of it meanwhile.
  lemma LeaseIsExclusive(states: seq<State>, sts: seq<Statement>, i: nat, k: nat, id: nat, mac: Mac, owner: string)
    requires IsRun(states, sts) && i <= k < |states| && Leased(states[i], id, mac, owner)
    requires forall m :: i <= m < k ==> !EndsEarly(sts[m], mac)
    requires forall m :: i < m <= k ==> BeforeExpiry(states[m], id)
    ensures Leased(states[k], id, mac, owner)
    ensures forall m :: i <= m < k ==> !Leases(sts[m], mac)
  {
    for m := i to k
      invariant Leased(states[m], id, mac, owner)
      invariant forall x :: i <= x < m ==> !Leases(sts[x], mac)
    {
      RunKeepsLease(states, sts, m, id, mac, owner);
    }
  }

  lemma RunKeepsLease(states: seq<State>, sts: seq<Statement>, m: nat, id: nat, mac: Mac, owner: string)
    requires IsRun(states, sts) && m < |sts| && Leased(states[m], id, mac, owner)
    requires !EndsEarly(sts[m], mac) && BeforeExpiry(states[m + 1], id)
    ensures Leased(states[m + 1], id, mac, owner) && !Leases(sts[m], mac)
  {
    RunSound(states, sts, m);
    RunSound(states, sts, m + 1);
    LeaseKept(states[m], sts[m], states[m + 1], id, mac, owner);
  }

  // One more statement at the end of a run.
  lemma Issue(states: seq<State>, sts: seq<Statement>, st: Statement) returns (states': seq<State>, sts': seq<Statement>)
    requires IsRun(states, sts) && Enabled(states[|sts|], st)
    ensures IsRun(states', sts') && states' == states + [Next(states[|sts|], st)] && sts' == sts + [st]
    ensures states'[|sts'|] == Next(states[|sts|], st)
  {
    ExtendRun(states, sts, st);
    states', sts' := states + [Next(states[|sts|], st)], sts + [st];
  }

  // Whenever a machine of the pool has no active hold and the lock is free, the next
  // statements may lease it.
  lemma MayBeLeased(states: seq<State>, sts: seq<Statement>, mac: Mac, owner: string, profile: string, ttl: int)
    returns (states': seq<State>, sts': seq<Statement>)
    requires IsRun(states, sts) && states[|sts|].holder.Free? && mac in states[|sts|].machines
    requires !HasActive(states[|sts|].rows, mac, states[|sts|].clock) && ttl > 0
    ensures IsRun(states', sts') && states <= states' && sts <= sts'
    ensures FreshlyLeased(states[|sts|], states'[|sts'|], mac, owner, profile, ttl) && HasLease(states'[|sts'|], mac)
  {
    var last := states[|sts|];
    states', sts' := Issue(states, sts, ReserveRelease(mac));
    states', sts' := Issue(states', sts', ReserveInsert(mac, owner, profile, ttl));
    states', sts' := Issue(states', sts', ReserveSwitch(mac, profile));
    assert IsLeaseOf(states'[|sts'|], |last.rows|, last.nextId, mac);
    assert LiveLease(states'[|sts'|], last.nextId, mac);
  }

  // `s'` is `s` with the machine leased, and whatever was left of an old lease ended.
  ghost predicate FreshlyLeased(s: State, s': State, mac: Mac, owner: string, profile: string, ttl: int) {
    && s'.holder.Free? && s'.clock == s.clock && s'.machines.Keys == s.machines.Keys
    && s'.rows == EndWhere(s.rows, UnreleasedOf(mac), s.clock, ByReserve)
                  + [Reservation(s.nextId, mac, owner, Lease, Some(profile), s.clock, ExpiryAfter(s.clock, ttl), None)]
  }

  // A newly migrated machine may be released to the pool.
  lemma MayBePooled(mac: Mac, machine: Machine) returns (states: seq<State>, sts: seq<Statement>)
    ensures IsRun(states, sts) && states[|sts|].holder.Free? && mac in states[|sts|].machines
    ensures states[|sts|].clock == 0 && !HasActive(states[|sts|].rows, mac, 0)
  {
    states, sts := [State(map[mac := machine], [], 1, 0, MigratingOnce, {}, {})], [];
    states, sts := Issue(states, sts, MigrateInsert([mac]));
    states, sts := Issue(states, sts, ReleaseToPool(mac));
  }

  // A lease that has an expiry may be reaped.
  lemma MayBeReaped(states: seq<State>, sts: seq<Statement>, x: nat) returns (states': seq<State>, sts': seq<Statement>)
    requires IsRun(states, sts) && states[|sts|].holder.Free? && x < |states[|sts|].rows|
    requires var r := states[|sts|].rows[x]; Unreleased(r) && r.kind == Lease && r.expiresAt.Some?
    ensures IsRun(states', sts') && |sts'| > 0 && sts'[|sts'| - 1] == Reap(states[|sts|].rows[x].mac)
    ensures states'[|sts'|].holder.Free? && states'[|sts'|].machines == states[|sts|].machines
    ensures !HasUnreleased(states'[|sts'|].rows, states[|sts|].rows[x].mac)
  {
    var r, now := states[|sts|].rows[x], states[|sts|].clock;
    states', sts' := Issue(states, sts, Tick(if r.expiresAt.value < now then 0 else r.expiresAt.value - now));
    assert states'[|sts'|].rows[x] == r && Expired(r, states'[|sts'|].clock);
    states', sts' := Issue(states', sts', Reap(r.mac));
  }

  // A machine is released to the pool, leased, reaped when its lease expires, and leased
  // again before anyone has powered it off.
  lemma LeasedAfterReap(mac: Mac, machine: Machine) returns (states: seq<State>, sts: seq<Statement>, n: nat)
    ensures IsRun(states, sts) && 0 < n <= |sts| && sts[n - 1] == Reap(mac)
    ensures !HasLease(states[n], mac) && HasLease(states[|sts|], mac)
  {
    states, sts := MayBePooled(mac, machine);
    ghost var s := states[|sts|];
    states, sts := MayBeLeased(states, sts, mac, "agent", machine.profile, 60);
    assert states[|sts|].rows[|s.rows|].mac == mac;
    states, sts := MayBeReaped(states, sts, |s.rows|);
    n := |sts|;
    FreeHasNoLease(states[n], mac);
    states, sts := MayBeLeased(states, sts, mac, "other", machine.profile, 60);
  }

  // ---- Enrolment -------------------------------------------------------------

  lemma EnrolledStep(states: seq<State>, sts: seq<Statement>, m: nat, mac: Mac)
    requires IsRun(states, sts) && m < |sts| && mac in states[m].machines && sts[m] != RemoveMachine(mac)
    ensures mac in states[m + 1].machines
  {
  }

  // Only its removal takes an enrolled machine out of the table.
  lemma RemovedBetween(states: seq<State>, sts: seq<Statement>, i: nat, k: nat, mac: Mac) returns (j: nat)
    requires IsRun(states, sts) && i <= k < |states| && mac in states[i].machines && mac !in states[k].machines
    ensures i <= j < k && sts[j] == RemoveMachine(mac)
  {
    j := i;
    while sts[j] != RemoveMachine(mac)
      invariant i <= j < k && mac in states[j].machines
      decreases k - j
    {
      EnrolledStep(states, sts, j, mac);
      j := j + 1;
    }
  }

  // ---- Permanent holds and the pool ------------------------------------------

  // What a pool client, the reaper and the clock can do.
  ghost predicate PoolSide(st: Statement) {
    || st.Tick? || st.ReserveRelease? || st.ReserveInsert? || st.ReserveSwitch?
    || st.Renew? || st.Release? || st.Reap?
  }

  ghost predicate HeldBy(s: State, r: Reservation) {
    r in s.rows && r.kind == Permanent && Unreleased(r)
  }

  lemma HoldKept(s: State, st: Statement, s': State, r: Reservation)
    requires Sound(s) && Takes(s, st, s') && PoolSide(st) && HeldBy(s, r)
    ensures HeldBy(s', r) && r.mac in s.machines && r.mac in s'.machines && s'.machines[r.mac] == s.machines[r.mac]
  {
    var i: nat :| i < |s.rows| && s.rows[i] == r;
    assert HasHold(s.rows, r.mac);
    HoldRowKept(s, st, s', i);
    HeldMachineKept(s, st, s', r.mac);
    assert s'.rows[i] == r;
  }

  lemma HoldRowKept(s: State, st: Statement, s': State, i: nat)
    requires Sound(s) && Takes(s, st, s') && PoolSide(st)
    requires i < |s.rows| && s.rows[i].kind == Permanent && Unreleased(s.rows[i])
    ensures i < |s'.rows| && s'.rows[i] == s.rows[i]
  {
    if st.Reap? {
      ReapEndsOnlyExpired(s, st.mac);
    }
    assert WellFormed(s.rows[i]);
  }

  lemma HeldMachineKept(s: State, st: Statement, s': State, mac: Mac)
    requires HolderOk(s) && Takes(s, st, s') && PoolSide(st) && HasHold(s.rows, mac) && mac in s.machines
    ensures mac in s'.machines && s'.machines[mac] == s.machines[mac]
  {
  }

  // From the pool side a permanent hold cannot be touched: neither the reservation nor
  // the machine's row changes.
  lemma {:induction false} HoldIsUntouchable(states: seq<State>, sts: seq<Statement>, i: nat, k: nat, r: Reservation)
    requires IsRun(states, sts) && i <= k < |states| && HeldBy(states[i], r)
    requires forall m :: i <= m < k ==> PoolSide(sts[m])
    ensures HeldBy(states[k], r) && r.mac in states[i].machines && r.mac in states[k].machines
    ensures states[k].machines[r.mac] == states[i].machines[r.mac]
    decreases k
  {
    if i < k {
      HoldIsUntouchable(states, sts, i, k - 1, r);
      RunSound(states, sts, k - 1);
      HoldKept(states[k - 1], sts[k - 1], states[k], r);
    } else {
      RunSound(states, sts, k);
    }
  }

  // The three statements that end a permanent hold.
  ghost predicate EndsHold(st: Statement, mac: Mac) {
    st == PinRelease(mac) || st == ReleaseToPool(mac) || st == RemoveRows(mac)
  }

  lemma HoldOutlasts(s: State, st: Statement, s': State, r: Reservation)
    requires Sound(s) && Takes(s, st, s') && HeldBy(s, r) && !EndsHold(st, r.mac)
    ensures HeldBy(s', r)
  {
    if PoolSide(st) {
      HoldKept(s, st, s', r);
    } else {
      var i: nat :| i < |s.rows| && s.rows[i] == r;
      if st.RemoveRows? {
        var _ := KeptRow(s.rows, st.mac, i);
      } else {
        assert s'.rows[i] == r;
      }
    }
  }

  lemma RunHoldStep(states: seq<State>, sts: seq<Statement>, m: nat, r: Reservation)
    requires IsRun(states, sts) && m < |sts| && HeldBy(states[m], r) && !EndsHold(sts[m], r.mac)
    ensures HeldBy(states[m + 1], r)
  {
    RunSound(states, sts, m);
    HoldOutlasts(states[m], sts[m], states[m + 1], r);
  }

  // A permanent hold lasts until its machine is pinned again, released to the pool or
  // removed.
  lemma HoldLasts(states: seq<State>, sts: seq<Statement>, i: nat, k: nat, r: Reservation)
    requires IsRun(states, sts) && i <= k < |states| && HeldBy(states[i], r)
    requires forall m :: i <= m < k ==> !EndsHold(sts[m], r.mac)
    ensures HeldBy(states[k], r)
  {
    for m := i to k
      invariant HeldBy(states[m], r)
    {
      RunHoldStep(states, sts, m, r);
    }
  }

  // The admin releases a permanent hold of `mac` to the pool.
  ghost predicate Pools(s: State, st: Statement, mac: Mac) {
    st == ReleaseToPool(mac) && HasHold(s.rows, mac)
  }

  // The machine is newly enrolled, pinned, migrated or removed.
  ghost predicate Resets(st: Statement, mac: Mac) {
    || ((st.EnrollNew? || st.PinInsert? || st.RemoveRows?) && st.mac == mac)
    || (st.MigrateInsert? && mac in st.macs)
  }

  lemma PooledStep(s: State, st: Statement, s': State, mac: Mac)
    requires Takes(s, st, s') && mac in s'.pooled
    ensures Pools(s, st, mac) || (mac in s.pooled && !Resets(st, mac))
  {
  }

  lemma {:induction false} PooledByRelease(states: seq<State>, sts: seq<Statement>, i: nat, mac: Mac) returns (j: nat)
    requires IsRun(states, sts) && i < |states| && mac in states[i].pooled
    ensures j < i && Pools(states[j], sts[j], mac)
    ensures forall m :: j < m < i ==> !Resets(sts[m], mac)
  {
    assert i > 0;
    PooledStep(states[i - 1], sts[i - 1], states[i], mac);
    if Pools(states[i - 1], sts[i - 1], mac) {
      j := i - 1;
    } else {
      j := PooledByRelease(states, sts, i - 1, mac);
    }
  }

  // A machine is only ever leased if the admin released it to the pool after it was last
  // enrolled, pinned, migrated or removed.
  lemma LeasedOnlyFromPool(states: seq<State>, sts: seq<Statement>, i: nat, r: Reservation) returns (j: nat)
    requires IsRun(states, sts) && i < |states|
    requires r in states[i].rows && r.kind == Lease && Unreleased(r)
    ensures j < i && Pools(states[j], sts[j], r.mac)
    ensures forall m :: j < m < i ==> !Resets(sts[m], r.mac)
  {
    RunSound(states, sts, i);
    j := PooledByRelease(states, sts, i, r.mac);
  }
}
