/**
  What a loop of reservation statements does to the table as a whole: the sweeps of
  `reap_expired` and `release` and the claims of `reserve`.
*/
module LeaseSweeps {
  import opened Options
  import opened Sequences
  import opened Reservations

  // `r` is `r0` ended for `cause`, some time between `from` and `to`.
  ghost predicate EndedAs(r0: Reservation, r: Reservation, cause: Cause, from: int, to: int) {
    && r.released.Some? && r.released.value.cause == cause && from <= r.released.value.at <= to
    && r == r0.(released := r.released)
  }

  // ---- reap_expired ----------------------------------------------------------

  // The SELECT of `reap_expired`.
  function ExpiredMacs(rows: seq<Reservation>, now: int): seq<Mac> {
    if rows == [] then []
    else
      var last := rows[|rows| - 1];
      ExpiredMacs(rows[..|rows| - 1], now) + if Expired(last, now) then [last.mac] else []
  }

  lemma {:induction false} ExpiredMember(rows: seq<Reservation>, now: int, mac: Mac)
    ensures mac in ExpiredMacs(rows, now) <==> exists i :: 0 <= i < |rows| && rows[i].mac == mac && Expired(rows[i], now)
  {
    if rows == [] {
    } else {
      var front, last := rows[..|rows| - 1], rows[|rows| - 1];
      ExpiredMember(front, now, mac);
      assert forall i :: 0 <= i < |front| ==> front[i] == rows[i];
      if mac in ExpiredMacs(front, now) {
        var i :| 0 <= i < |front| && front[i].mac == mac && Expired(front[i], now);
        assert rows[i].mac == mac;
      }
    }
  }

  lemma {:induction false} ExpiredOnce(rows: seq<Reservation>, now: int)
    requires OneUnreleased(rows)
    ensures NoDuplicates(ExpiredMacs(rows, now))
  {
    if rows == [] {
    } else {
      var front, last := rows[..|rows| - 1], rows[|rows| - 1];
      ExpiredOnce(front, now);
      ExpiredMember(front, now, last.mac);
    }
  }

  // The leases that had expired at `from` have been ended for the machines in `done`;
  // nothing else has changed.
  ghost predicate Reaped(rows0: seq<Reservation>, rows: seq<Reservation>, done: seq<Mac>, from: int, to: int) {
    && |rows| == |rows0|
    && forall i :: 0 <= i < |rows0| ==>
         if Expired(rows0[i], from) && rows0[i].mac in done then EndedAs(rows0[i], rows[i], ByReaper, from, to)
         else rows[i] == rows0[i]
  }

  lemma ReapStep(rows0: seq<Reservation>, rows: seq<Reservation>, done: seq<Mac>, mac: Mac, from: int, now: int)
    requires OneUnreleased(rows0) && Reaped(rows0, rows, done, from, now) && from <= now
    requires mac !in done && mac in ExpiredMacs(rows0, from)
    ensures exists i :: 0 <= i < |rows| && rows[i].mac == mac && Expired(rows[i], now)
    ensures Reaped(rows0, EndWhere(rows, UnreleasedOf(mac), now, ByReaper), done + [mac], from, now)
  {
    ExpiredMember(rows0, from, mac);
    var k :| 0 <= k < |rows0| && rows0[k].mac == mac && Expired(rows0[k], from);
    assert rows[k] == rows0[k];
  }

  lemma ReapedLater(rows0: seq<Reservation>, rows: seq<Reservation>, done: seq<Mac>, from: int, to: int, now: int)
    requires Reaped(rows0, rows, done, from, to) && to <= now
    ensures Reaped(rows0, rows, done, from, now)
  {
  }

  // Right after a reap, unreleased and active mean the same at the instant it selected.
  lemma ReapedCoincide(rows0: seq<Reservation>, rows: seq<Reservation>, from: int, to: int, i: nat)
    requires AllWellFormed(rows0) && Reaped(rows0, rows, ExpiredMacs(rows0, from), from, to) && i < |rows|
    ensures Unreleased(rows[i]) <==> Active(rows[i], from)
  {
    ExpiredMember(rows0, from, rows0[i].mac);
    assert WellFormed(rows0[i]);
  }

  // A machine that was reaped holds no unreleased reservation at all.
  lemma ReapedIsFree(rows0: seq<Reservation>, rows: seq<Reservation>, done: seq<Mac>, from: int, to: int, mac: Mac)
    requires OneUnreleased(rows0) && Reaped(rows0, rows, done, from, to)
    requires mac in done && mac in ExpiredMacs(rows0, from)
    ensures !HasUnreleased(rows, mac)
  {
    ExpiredMember(rows0, from, mac);
    var k :| 0 <= k < |rows0| && rows0[k].mac == mac && Expired(rows0[k], from);
    forall i | 0 <= i < |rows| && rows[i].mac == mac
      ensures !Unreleased(rows[i])
    {
      assert rows0[i].mac == mac;
      assert i != k ==> !Unreleased(rows0[i]);
    }
  }

  // ---- release ---------------------------------------------------------------

  // The SELECT of `release` by holder.
  function LeasedTo(rows: seq<Reservation>, owner: string, now: int): seq<Mac> {
    if rows == [] then []
    else
      var last := rows[|rows| - 1];
      LeasedTo(rows[..|rows| - 1], owner, now)
      + if last.holder == owner && last.kind == Lease && Active(last, now) then [last.mac] else []
  }

  // Leases of the machines in `freed`, each listed once, have been ended; nothing else.
  ghost predicate Freed(rows0: seq<Reservation>, rows: seq<Reservation>, freed: seq<Mac>, from: int, to: int) {
    && |rows| == |rows0| && NoDuplicates(freed)
    && (forall i :: 0 <= i < |rows0| ==>
          rows[i] == rows0[i]
          || (rows0[i].mac in freed && rows0[i].kind == Lease && Unreleased(rows0[i])
              && EndedAs(rows0[i], rows[i], ByRelease, from, to)))
    && (forall mac :: mac in freed ==> EndedOne(rows0, rows, mac))
  }

  ghost predicate EndedOne(rows0: seq<Reservation>, rows: seq<Reservation>, mac: Mac)
    requires |rows| == |rows0|
  {
    exists i :: 0 <= i < |rows0| && rows0[i].mac == mac && Unreleased(rows0[i]) && rows[i] != rows0[i]
  }

  lemma {:induction false} LeasedToMember(rows: seq<Reservation>, owner: string, now: int, mac: Mac)
    ensures mac in LeasedTo(rows, owner, now) <==>
            exists i :: 0 <= i < |rows| && rows[i].mac == mac && IsActiveLeaseOf(rows[i], owner, now)
  {
    if rows == [] {
    } else {
      var front, last := rows[..|rows| - 1], rows[|rows| - 1];
      LeasedToMember(front, owner, now, mac);
      assert forall i :: 0 <= i < |front| ==> front[i] == rows[i];
      if mac in LeasedTo(front, owner, now) {
        var i :| 0 <= i < |front| && front[i].mac == mac && IsActiveLeaseOf(front[i], owner, now);
        assert rows[i].mac == mac;
      }
    }
  }

  ghost predicate IsActiveLeaseOf(r: Reservation, owner: string, now: int) {
    r.holder == owner && r.kind == Lease && Active(r, now)
  }

  // A release by holder, which selected at `at`: it frees only that holder's machines,
  // ends only that holder's leases and leaves none of those machines leased.
  ghost predicate FreedOwner(rows0: seq<Reservation>, rows: seq<Reservation>, freed: seq<Mac>, owner: string, at: int, now: int) {
    && |rows| == |rows0|
    && (forall mac :: mac in freed ==> mac in LeasedTo(rows0, owner, at))
    && (forall i :: 0 <= i < |rows0| && rows[i] != rows0[i] ==> IsActiveLeaseOf(rows0[i], owner, at))
    && (forall mac :: mac in LeasedTo(rows0, owner, at) ==> !HasActiveLease(rows, mac, now))
  }

  lemma OnlyOwnersChange(rows0: seq<Reservation>, rows: seq<Reservation>, freed: seq<Mac>, owner: string, at: int, from: int, to: int)
    requires OneUnreleased(rows0) && Freed(rows0, rows, freed, from, to)
    requires forall mac :: mac in freed ==> mac in LeasedTo(rows0, owner, at)
    ensures forall i :: 0 <= i < |rows0| && rows[i] != rows0[i] ==> IsActiveLeaseOf(rows0[i], owner, at)
  {
    forall i | 0 <= i < |rows0| && rows[i] != rows0[i]
      ensures IsActiveLeaseOf(rows0[i], owner, at)
    {
      LeasedToMember(rows0, owner, at, rows0[i].mac);
      var j :| 0 <= j < |rows0| && rows0[j].mac == rows0[i].mac && IsActiveLeaseOf(rows0[j], owner, at);
      assert Unreleased(rows0[j]) && i == j;
    }
  }

  lemma FreedStep(rows0: seq<Reservation>, rows: seq<Reservation>, freed: seq<Mac>, mac: Mac, from: int, now: int)
    requires OneUnreleased(rows0) && Freed(rows0, rows, freed, from, now) && from <= now
    ensures var rows' := EndWhere(rows, ActiveOf(mac, Lease), now, ByRelease);
            if HasActiveLease(rows, mac, now) then Freed(rows0, rows', freed + [mac], from, now)
            else rows' == rows
  {
    var rows' := EndWhere(rows, ActiveOf(mac, Lease), now, ByRelease);
    if HasActiveLease(rows, mac, now) {
      var k :| 0 <= k < |rows| && Selects(ActiveOf(mac, Lease), rows[k], now);
      assert rows[k] == rows0[k] && rows'[k] != rows0[k];
      assert mac in freed ==> EndedOne(rows0, rows, mac);
      forall m | m in freed + [mac]
        ensures EndedOne(rows0, rows', m)
      {
        if m in freed {
          assert EndedOne(rows0, rows, m);
          var i :| 0 <= i < |rows0| && rows0[i].mac == m && Unreleased(rows0[i]) && rows[i] != rows0[i];
          assert rows'[i] == rows[i];
        }
      }
    }
  }

  lemma FreedLater(rows0: seq<Reservation>, rows: seq<Reservation>, freed: seq<Mac>, from: int, to: int, now: int)
    requires Freed(rows0, rows, freed, from, to) && to <= now
    ensures Freed(rows0, rows, freed, from, now)
  {
  }

  lemma NoLeaseAfterRelease(rows: seq<Reservation>, mac: Mac, now: int)
    ensures !HasActiveLease(EndWhere(rows, ActiveOf(mac, Lease), now, ByRelease), mac, now)
    ensures forall m :: !HasActiveLease(rows, m, now) ==>
              !HasActiveLease(EndWhere(rows, ActiveOf(mac, Lease), now, ByRelease), m, now)
  {
  }

  // ---- reserve ---------------------------------------------------------------

  // The lease `reserve` writes for the k-th machine it claims.
  ghost predicate IsNewLease(r: Reservation, mac: Mac, owner: string, profile: string, ttl: int, from: int, to: int) {
    && r.mac == mac && r.holder == owner && r.kind == Lease && r.profile == Some(profile)
    && from <= r.acquiredAt <= to && RunsUntil(r, r.acquiredAt + ttl) && Unreleased(r)
  }

  // The machines in `leased` have each had whatever was left of an old lease ended and
  // been given a new one; no other reservation has changed.
  ghost predicate Claimed(rows0: seq<Reservation>, rows: seq<Reservation>, leased: seq<Mac>,
                          owner: string, profile: string, ttl: int, from: int, to: int)
  {
    && |rows| == |rows0| + |leased|
    && (forall i :: 0 <= i < |rows0| ==>
          if rows0[i].mac in leased && Unreleased(rows0[i]) then
            Expired(rows0[i], from) && EndedAs(rows0[i], rows[i], ByReserve, from, to)
          else
            rows[i] == rows0[i])
    && (forall k :: 0 <= k < |leased| ==> IsNewLease(rows[|rows0| + k], leased[k], owner, profile, ttl, from, to))
  }

  lemma ClaimStep(rows0: seq<Reservation>, rows: seq<Reservation>, leased: seq<Mac>, mac: Mac,
                  owner: string, profile: string, ttl: int, from: int, now: int, later: int, row: Reservation)
    requires AllWellFormed(rows0) && Claimed(rows0, rows, leased, owner, profile, ttl, from, now)
    requires from <= now <= later && mac !in leased && !HasActive(rows0, mac, from)
    requires IsNewLease(row, mac, owner, profile, ttl, from, later)
    ensures Claimed(rows0, EndWhere(rows, UnreleasedOf(mac), now, ByReserve) + [row], leased + [mac],
                    owner, profile, ttl, from, later)
  {
    var rows' := EndWhere(rows, UnreleasedOf(mac), now, ByReserve) + [row];
    forall i | 0 <= i < |rows0| && rows0[i].mac == mac && Unreleased(rows0[i])
      ensures Expired(rows0[i], from)
    {
      assert WellFormed(rows0[i]) && !Active(rows0[i], from);
    }
    assert forall k :: 0 <= k < |leased| ==> leased[k] in leased;
  }

  // A machine not claimed yet is as available as when it was selected.
  lemma StillAvailable(rows0: seq<Reservation>, rows: seq<Reservation>, leased: seq<Mac>, mac: Mac,
                       owner: string, profile: string, ttl: int, from: int, now: int)
    requires Claimed(rows0, rows, leased, owner, profile, ttl, from, now)
    requires mac !in leased && !HasActive(rows0, mac, from) && from <= now
    ensures !HasActive(rows, mac, now)
  {
    assert forall k :: 0 <= k < |leased| ==> leased[k] in leased;
    forall i | 0 <= i < |rows|
      ensures !(rows[i].mac == mac && Active(rows[i], now))
    {
      if i < |rows0| {
        assert rows0[i].mac == mac ==> !Active(rows0[i], from);
      } else {
        assert rows[i].mac == leased[i - |rows0|];
      }
    }
  }

  lemma ClaimedLater(rows0: seq<Reservation>, rows: seq<Reservation>, leased: seq<Mac>,
                     owner: string, profile: string, ttl: int, from: int, to: int, now: int)
    requires Claimed(rows0, rows, leased, owner, profile, ttl, from, to) && to <= now
    ensures Claimed(rows0, rows, leased, owner, profile, ttl, from, now)
  {
  }
}
