/** The periodic sweep that returns expired leases and powers their machines off. */
module ReservationReaper {
  import opened Sequences
  import opened Reservations
  import opened LeaseSweeps
  import opened MachineRegistry
  import opened ReservationRuns

  // One attempt to power a machine off, and whether the power layer raised.
  datatype Attempt = Attempt(mac: Mac, raised: bool)

  // The machines whose power-off failed, which the sweep warns about.
  function Failed(attempts: seq<Attempt>): seq<Mac> {
    if attempts == [] then []
    else
      var last := attempts[|attempts| - 1];
      Failed(attempts[..|attempts| - 1]) + if last.raised then [last.mac] else []
  }

  // One attempt for each machine, in order.
  ghost predicate Of(attempts: seq<Attempt>, macs: seq<Mac>) {
    |attempts| == |macs| && forall k :: 0 <= k < |macs| ==> attempts[k].mac == macs[k]
  }

  // A sweep has made the attempts `made` on these machines and warned about the failures.
  ghost predicate Swept(attempts0: seq<Attempt>, warned0: seq<Mac>, attempts: seq<Attempt>, warned: seq<Mac>,
                        made: seq<Attempt>, macs: seq<Mac>)
  {
    attempts == attempts0 + made && Of(made, macs) && warned == warned0 + Failed(made)
  }

  lemma SweptSnoc(attempts0: seq<Attempt>, warned0: seq<Mac>, attempts: seq<Attempt>, warned: seq<Mac>,
                  made: seq<Attempt>, macs: seq<Mac>, a: Attempt)
    requires Swept(attempts0, warned0, attempts, warned, made, macs)
    ensures Swept(attempts0, warned0, attempts + [a], warned + if a.raised then [a.mac] else [], made + [a], macs + [a.mac])
  {
    var more := if a.raised then [a.mac] else [];
    ConcatAssociative(attempts0, made, [a]);
    ConcatAssociative(warned0, Failed(made), more);
    assert (made + [a])[..|made|] == made;
  }

  // Each of `macs` at its moment, one after the other from moment `n` on.
  ghost predicate TriedAt(states: seq<State>, n: nat, moments: seq<nat>, macs: seq<Mac>) {
    && |moments| == |macs|
    && (forall k :: 0 <= k < |moments| ==> n <= moments[k] < |states|)
    && forall i, j :: 0 <= i < j < |moments| ==> moments[i] <= moments[j]
  }

  lemma TriedSnoc(states: seq<State>, states': seq<State>, n: nat, moments: seq<nat>, macs: seq<Mac>, mac: Mac)
    requires states <= states' && n < |states| && TriedAt(states, n, moments, macs)
    ensures TriedAt(states', n, moments + [|states'| - 1], macs + [mac])
  {
  }

  // The machine, free at moment `n`, is leased at moment `m` exactly when a `reserve` in
  // between wrote it a lease that is still live.
  ghost predicate LeasedIffReserved(states: seq<State>, sts: seq<Statement>, n: nat, m: nat, mac: Mac)
    requires m < |states|
  {
    HasLease(states[m], mac) <==> exists j: nat :: n <= j < m && WroteLive(states, sts, j, states[m], mac)
  }

  lemma FreedHaveNoLease(rows0: seq<Reservation>, s: State, freed: seq<Mac>, at: int)
    requires OneUnreleased(rows0) && freed == ExpiredMacs(rows0, at) && Reaped(rows0, s.rows, freed, at, s.clock)
    ensures forall k :: 0 <= k < |freed| ==> !HasLease(s, freed[k])
  {
    forall k | 0 <= k < |freed|
      ensures !HasLease(s, freed[k])
    {
      ReapedIsFree(rows0, s.rows, freed, at, s.clock, freed[k]);
      FreeHasNoLease(s, freed[k]);
    }
  }

  lemma AllLeasedIffReserved(states: seq<State>, sts: seq<Statement>, n: nat, moments: seq<nat>, macs: seq<Mac>)
    requires IsRun(states, sts) && n < |states| && TriedAt(states, n, moments, macs)
    requires forall k :: 0 <= k < |macs| ==> !HasLease(states[n], macs[k])
    ensures forall k :: 0 <= k < |macs| ==> LeasedIffReserved(states, sts, n, moments[k], macs[k])
  {
    forall k | 0 <= k < |macs|
      ensures LeasedIffReserved(states, sts, n, moments[k], macs[k])
    {
      LeasedAgainIff(states, sts, n, moments[k], macs[k]);
    }
  }

  class Reaper {
    const registry: Registry
    var attempts: seq<Attempt>
    var warned: seq<Mac>

    constructor (r: Registry)
      ensures registry == r && attempts == [] && warned == []
    {
      registry, attempts, warned := r, [], [];
    }

    // The power layer, which may raise.
    method PowerOff(mac: Mac) returns (raised: bool)
      modifies this`attempts
      ensures attempts == old(attempts) + [Attempt(mac, raised)]
    {
      raised := *;
      attempts := attempts + [Attempt(mac, raised)];
    }

    // Reaps and, with the lock dropped at moment `n` of the run, tries to power off each
    // freed machine exactly once, in order: an attempt that raises is warned about and does
    // not stop the sweep. Other threads go on, so a machine may be leased again by then.
    method ReapOnce() returns (freed: seq<Mac>, ghost at: int, ghost n: nat, ghost moments: seq<nat>)
      requires registry.Ready()
      modifies this, registry
      ensures registry.Ready() && registry.Continues()
      ensures freed == ExpiredMacs(old(registry.reservations), at) && NoDuplicates(freed)
      ensures |old(registry.statements)| <= n <= |registry.statements|
      ensures old(registry.clock) <= at <= registry.states[n].clock
      ensures Reaped(old(registry.reservations), registry.states[n].rows, freed, at, registry.states[n].clock)
      ensures old(attempts) <= attempts && Of(attempts[|old(attempts)|..], freed)
      ensures warned == old(warned) + Failed(attempts[|old(attempts)|..])
      ensures TriedAt(registry.states, n, moments, freed)
      ensures forall k :: 0 <= k < |freed| ==>
                LeasedIffReserved(registry.states, registry.statements, n, moments[k], freed[k])
    {
      registry.StaysSound();
      freed, at := registry.ReapExpired();
      n := |registry.statements|;
      ghost var after := registry.View();
      FreedHaveNoLease(old(registry.reservations), after, freed, at);
      moments := PowerOffEach(freed);
      AllLeasedIffReserved(registry.states, registry.statements, n, moments, freed);
    }

    method PowerOffEach(freed: seq<Mac>) returns (ghost moments: seq<nat>)
      requires registry.Ready()
      modifies this`attempts, this`warned, registry
      ensures registry.Ready() && registry.Continues()
      ensures old(attempts) <= attempts && Of(attempts[|old(attempts)|..], freed)
      ensures warned == old(warned) + Failed(attempts[|old(attempts)|..])
      ensures TriedAt(registry.states, |old(registry.statements)|, moments, freed)
    {
      ghost var n, made, done := |registry.statements|, [], freed[..0];
      moments := [];
      NothingConcat(attempts);
      NothingConcat(warned);
      for i := 0 to |freed|
        invariant registry.Ready() && registry.Continues() && done == freed[..i]
        invariant Swept(old(attempts), old(warned), attempts, warned, made, done)
        invariant TriedAt(registry.states, n, moments, done)
      {
        TakeSnoc(freed, i);
        made, moments := PowerOffOne(freed[i], old(attempts), old(warned), made, done, n, moments);
        done := done + [freed[i]];
      }
      TakeAll(freed);
      assert attempts[|old(attempts)|..] == made;
    }

    // Other threads may run before the attempt.
    method PowerOffOne(mac: Mac, ghost attempts0: seq<Attempt>, ghost warned0: seq<Mac>, ghost made0: seq<Attempt>,
                       ghost done: seq<Mac>, ghost n: nat, ghost moments0: seq<nat>)
      returns (ghost made: seq<Attempt>, ghost moments: seq<nat>)
      requires registry.Ready() && Swept(attempts0, warned0, attempts, warned, made0, done)
      requires n <= |registry.statements| && TriedAt(registry.states, n, moments0, done)
      modifies this`attempts, this`warned, registry
      ensures registry.Ready() && registry.Continues()
      ensures Swept(attempts0, warned0, attempts, warned, made, done + [mac])
      ensures TriedAt(registry.states, n, moments, done + [mac])
    {
      registry.Others();
      TriedSnoc(old(registry.states), registry.states, n, moments0, done, mac);
      moments := moments0 + [|registry.statements|];
      var raised := PowerOff(mac);
      if raised {
        warned := warned + [mac];
      }
      made := made0 + [Attempt(mac, raised)];
      SweptSnoc(attempts0, warned0, old(attempts), old(warned), made0, done, Attempt(mac, raised));
    }
  }
}
