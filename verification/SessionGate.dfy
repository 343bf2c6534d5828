/**
 * The counters behind credential mutation, authentication and session readiness: three
 * count maps, two sets of drain waiters and the stopping flag. An absent key counts as
 * zero; a waiter set is dropped as a whole when its counter reaches zero.
 */
module SessionGate {
  import opened DeviceCredential
  import opened DeviceCredentialLifecycle

  type Counts = map<DeviceId, nat>
  type Waiters = map<DeviceId, set<Ticket>>

  datatype Gate = Gate(
    stopping: bool,
    mutations: Counts,
    authentications: Counts,
    ready: Counts,
    authWaiters: Waiters,
    readyWaiters: Waiters)

  const OPEN_GATE := Gate(false, map[], map[], map[], map[], map[])

  function Count(m: Counts, d: DeviceId): nat {
    if d in m then m[d] else 0
  }

  function WaitersOf(w: Waiters, d: DeviceId): set<Ticket> {
    if d in w then w[d] else {}
  }

  function Increment(m: Counts, d: DeviceId): Counts {
    m[d := Count(m, d) + 1]
  }

  function Decrement(m: Counts, d: DeviceId): Counts {
    var held: int := if d in m then m[d] else 1;
    var remaining := held - 1;
    if remaining <= 0 then m - {d} else m[d := remaining]
  }

  predicate MutationActive(g: Gate, d: DeviceId) {
    Count(g.mutations, d) > 0
  }

  function BeginMutation(g: Gate, d: DeviceId): Gate {
    g.(mutations := Increment(g.mutations, d))
  }

  function EndMutation(g: Gate, d: DeviceId): Gate {
    g.(mutations := Decrement(g.mutations, d))
  }

  function CountAuthentication(g: Gate, d: DeviceId): Gate {
    g.(authentications := Increment(g.authentications, d))
  }

  function UncountAuthentication(g: Gate, d: DeviceId): Gate {
    var counts := Decrement(g.authentications, d);
    g.(authentications := counts,
       authWaiters := if d in counts then g.authWaiters else g.authWaiters - {d})
  }

  function TakeLease(g: Gate, d: DeviceId): Gate {
    g.(ready := Increment(g.ready, d))
  }

  function ReleaseLease(g: Gate, d: DeviceId): Gate {
    var counts := Decrement(g.ready, d);
    g.(ready := counts, readyWaiters := if d in counts then g.readyWaiters else g.readyWaiters - {d})
  }

  /** A waiter joins its set unless the drain is already complete (or the server is stopping). */
  function AwaitAuthentications(g: Gate, d: DeviceId, t: Ticket): Gate {
    if g.stopping || Count(g.authentications, d) == 0 then g
    else g.(authWaiters := g.authWaiters[d := WaitersOf(g.authWaiters, d) + {t}])
  }

  function AwaitLeases(g: Gate, d: DeviceId, t: Ticket): Gate {
    if g.stopping || Count(g.ready, d) == 0 then g
    else g.(readyWaiters := g.readyWaiters[d := WaitersOf(g.readyWaiters, d) + {t}])
  }

  function StopGate(g: Gate): Gate {
    g.(stopping := true, authWaiters := map[], readyWaiters := map[])
  }

  function ClearGate(g: Gate): Gate {
    g.(mutations := map[], authentications := map[], ready := map[])
  }

  // --- Counts and waiters ------------------------------------------------------------------------------

  /** No key counts zero, and a waiter waits only while its counter is up. */
  predicate WellKept(g: Gate) {
    && (forall d <- g.mutations :: g.mutations[d] > 0)
    && (forall d <- g.authentications :: g.authentications[d] > 0)
    && (forall d <- g.ready :: g.ready[d] > 0)
    && (forall d <- g.authWaiters :: d in g.authentications)
    && (forall d <- g.readyWaiters :: d in g.ready)
  }

  lemma CountsStayPositive(m: Counts, d: DeviceId)
    requires forall e <- m :: m[e] > 0
    ensures forall e <- Increment(m, d) :: Increment(m, d)[e] > 0
    ensures forall e <- Decrement(m, d) :: Decrement(m, d)[e] > 0
    ensures m.Keys <= Increment(m, d).Keys && m.Keys - {d} <= Decrement(m, d).Keys
  {
  }

  /** Every closure keeps the maps free of zeros, and no waiter outlives what it waits for. */
  lemma MutationsStayWellKept(g: Gate, d: DeviceId)
    requires WellKept(g)
    ensures WellKept(BeginMutation(g, d)) && WellKept(EndMutation(g, d))
    ensures WellKept(StopGate(g)) && WellKept(ClearGate(StopGate(g)))
  {
    CountsStayPositive(g.mutations, d);
  }

  lemma AuthenticationsStayWellKept(g: Gate, d: DeviceId, t: Ticket)
    requires WellKept(g)
    ensures WellKept(CountAuthentication(g, d)) && WellKept(UncountAuthentication(g, d))
    ensures WellKept(AwaitAuthentications(g, d, t))
  {
    CountsStayPositive(g.authentications, d);
  }

  lemma LeasesStayWellKept(g: Gate, d: DeviceId, t: Ticket)
    requires WellKept(g)
    ensures WellKept(TakeLease(g, d)) && WellKept(ReleaseLease(g, d))
    ensures WellKept(AwaitLeases(g, d, t))
  {
    CountsStayPositive(g.ready, d);
  }

  /** What is begun and ended leaves no trace: leases, authentications and mutations are each undone exactly. */
  lemma EndUndoesBegin(g: Gate, d: DeviceId)
    requires WellKept(g)
    ensures EndMutation(BeginMutation(g, d), d) == g
    ensures UncountAuthentication(CountAuthentication(g, d), d) == g
    ensures ReleaseLease(TakeLease(g, d), d) == g
  {
    CountRestored(g.mutations, d);
    CountRestored(g.authentications, d);
    CountRestored(g.ready, d);
    assert d !in g.authWaiters || d in g.authentications;
    assert d !in g.readyWaiters || d in g.ready;
    assert d !in g.authWaiters ==> g.authWaiters - {d} == g.authWaiters;
    assert d !in g.readyWaiters ==> g.readyWaiters - {d} == g.readyWaiters;
  }

  lemma CountRestored(m: Counts, d: DeviceId)
    requires forall e <- m :: m[e] > 0
    ensures Decrement(Increment(m, d), d) == m
    ensures d in Decrement(Increment(m, d), d) <==> d in m
  {
  }

  /** A waiter is let go exactly when the last holder of its device leaves. */
  lemma LastHolderReleasesWaiters(g: Gate, d: DeviceId, e: DeviceId)
    requires WellKept(g)
    ensures WaitersOf(UncountAuthentication(g, d).authWaiters, e)
         == if e == d && Count(g.authentications, d) <= 1 then {} else WaitersOf(g.authWaiters, e)
    ensures WaitersOf(ReleaseLease(g, d).readyWaiters, e)
         == if e == d && Count(g.ready, d) <= 1 then {} else WaitersOf(g.readyWaiters, e)
  {
  }

  /** The closures of the server runtime, updating the shared maps in place. */
  class CredentialGate {
    var stopping: bool
    var credentialMutationCounts: Counts
    var authenticationCounts: Counts
    var sessionReadyCounts: Counts
    var authenticationDrainWaiters: Waiters
    var sessionReadyDrainWaiters: Waiters

    function Contents(): Gate
      reads this
    {
      Gate(stopping, credentialMutationCounts, authenticationCounts, sessionReadyCounts,
           authenticationDrainWaiters, sessionReadyDrainWaiters)
    }

    constructor ()
      ensures Contents() == OPEN_GATE
    {
      stopping := false;
      credentialMutationCounts, authenticationCounts, sessionReadyCounts := map[], map[], map[];
      authenticationDrainWaiters, sessionReadyDrainWaiters := map[], map[];
    }

    method BeginCredentialMutation(d: DeviceId) returns (begun: bool)
      modifies this
      ensures begun == !old(stopping)
      ensures Contents() == if begun then BeginMutation(old(Contents()), d) else old(Contents())
    {
      begun := !stopping;
      if begun {
        credentialMutationCounts := credentialMutationCounts[d := Count(credentialMutationCounts, d) + 1];
      }
    }

    method EndCredentialMutation(d: DeviceId)
      modifies this
      ensures Contents() == EndMutation(old(Contents()), d)
    {
      var held: int := if d in credentialMutationCounts then credentialMutationCounts[d] else 1;
      var remaining := held - 1;
      if remaining <= 0 {
        credentialMutationCounts := credentialMutationCounts - {d};
        return;
      }
      credentialMutationCounts := credentialMutationCounts[d := remaining];
    }

    method BeginAuthentication(d: DeviceId)
      modifies this
      ensures Contents() == CountAuthentication(old(Contents()), d)
    {
      authenticationCounts := authenticationCounts[d := Count(authenticationCounts, d) + 1];
    }

    /** Ends one authentication and returns the waiters it resolves. */
    method EndAuthentication(d: DeviceId) returns (resolved: set<Ticket>)
      modifies this
      ensures Contents() == UncountAuthentication(old(Contents()), d)
      ensures resolved == WaitersOf(old(authenticationDrainWaiters), d) - WaitersOf(authenticationDrainWaiters, d)
    {
      resolved := {};
      var held: int := if d in authenticationCounts then authenticationCounts[d] else 1;
      var remaining := held - 1;
      if remaining > 0 {
        authenticationCounts := authenticationCounts[d := remaining];
        return;
      }
      authenticationCounts := authenticationCounts - {d};
      resolved := WaitersOf(authenticationDrainWaiters, d);
      authenticationDrainWaiters := authenticationDrainWaiters - {d};
    }

    method WaitForAuthenticationDrain(d: DeviceId, t: Ticket)
      modifies this
      ensures Contents() == AwaitAuthentications(old(Contents()), d, t)
    {
      if stopping || Count(authenticationCounts, d) == 0 {
        return;
      }
      authenticationDrainWaiters :=
        authenticationDrainWaiters[d := WaitersOf(authenticationDrainWaiters, d) + {t}];
    }

    method BeginSessionReady(d: DeviceId) returns (granted: bool)
      modifies this
      ensures granted == !(old(stopping) || MutationActive(old(Contents()), d))
      ensures Contents() == if granted then TakeLease(old(Contents()), d) else old(Contents())
    {
      if stopping || Count(credentialMutationCounts, d) > 0 {
        return false;
      }
      sessionReadyCounts := sessionReadyCounts[d := Count(sessionReadyCounts, d) + 1];
      return true;
    }

    method ReleaseSessionReady(d: DeviceId) returns (resolved: set<Ticket>)
      modifies this
      ensures Contents() == ReleaseLease(old(Contents()), d)
      ensures resolved == WaitersOf(old(sessionReadyDrainWaiters), d) - WaitersOf(sessionReadyDrainWaiters, d)
    {
      resolved := {};
      var held: int := if d in sessionReadyCounts then sessionReadyCounts[d] else 1;
      var remaining := held - 1;
      if remaining > 0 {
        sessionReadyCounts := sessionReadyCounts[d := remaining];
        return;
      }
      sessionReadyCounts := sessionReadyCounts - {d};
      resolved := WaitersOf(sessionReadyDrainWaiters, d);
      sessionReadyDrainWaiters := sessionReadyDrainWaiters - {d};
    }

    method WaitForSessionReadyDrain(d: DeviceId, t: Ticket)
      modifies this
      ensures Contents() == AwaitLeases(old(Contents()), d, t)
    {
      if stopping || Count(sessionReadyCounts, d) == 0 {
        return;
      }
      sessionReadyDrainWaiters :=
        sessionReadyDrainWaiters[d := WaitersOf(sessionReadyDrainWaiters, d) + {t}];
    }

    method BeginStop()
      modifies this
      ensures Contents() == StopGate(old(Contents()))
    {
      stopping := true;
      authenticationDrainWaiters := map[];
      sessionReadyDrainWaiters := map[];
    }

    method EndStop()
      modifies this
      ensures Contents() == ClearGate(old(Contents()))
    {
      authenticationCounts := map[];
      sessionReadyCounts := map[];
      credentialMutationCounts := map[];
    }
  }
}
