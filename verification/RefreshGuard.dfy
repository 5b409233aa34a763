/**
 * The single-flight refresh guard: concurrent callers share one refresh, and the slot
 * is cleared when it settles. A promise is identified by the number of its flight.
 */
module RefreshGuard {
  import opened Common

  /** An error as the program sees it: a gRPC service error, its mapped form, or anything else. */
  datatype Error =
    | Opaque(id: int)
    | Service(code: Option<int>, message: Option<string>)
    | Mapped(status: int, text: string)

  /**
   * A refresh is `Running` until `doRefresh` settles; it stays in the slot, `Settled`, until
   * its `finally` callback has cleared the slot. A settled refresh without fault succeeded.
   */
  datatype Stage = Running | Settled(fault: Option<Error>) | Cleared(fault: Option<Error>)

  /** The starter is the call that began the flight; none if it was begun from outside those calls. */
  datatype Flight = Flight(starter: Option<nat>, stage: Stage)

  datatype Guard = Guard(slot: Option<nat>, flights: seq<Flight>)

  /** The flight a caller gets: the one in the slot, or a new one. */
  function FlightFor(g: Guard): nat {
    if g.slot.Some? then g.slot.value else |g.flights|
  }

  function AfterCall(g: Guard, caller: Option<nat>): Guard {
    if g.slot.Some? then g
    else Guard(Some(|g.flights|), g.flights + [Flight(caller, Running)])
  }

  function AfterSettle(g: Guard, f: nat, fault: Option<Error>): Guard
    requires f < |g.flights|
  {
    g.(flights := g.flights[f := g.flights[f].(stage := Settled(fault))])
  }

  function AfterFinally(g: Guard, f: nat): Guard
    requires f < |g.flights| && g.flights[f].stage.Settled?
  {
    Guard(None, g.flights[f := g.flights[f].(stage := Cleared(g.flights[f].stage.fault))])
  }

  /** Only the newest flight can be in the slot, and it is there exactly until it is cleared. */
  ghost predicate Sound(g: Guard) {
    && (forall f :: 0 <= f < |g.flights| - 1 ==> g.flights[f].stage.Cleared?)
    && (g.flights == [] ==> g.slot.None?)
    && (g.flights != [] ==>
          var last := |g.flights| - 1;
          g.slot == if g.flights[last].stage.Cleared? then None else Some(last))
  }

  class RefreshGuard {
    var refreshPromise: Option<nat>
    var flights: seq<Flight>

    ghost function Now(): Guard
      reads this
    {
      Guard(refreshPromise, flights)
    }

    constructor ()
      ensures Now() == Guard(None, [])
    {
      refreshPromise, flights := None, [];
    }

    /** The guard itself: start a refresh unless one is in the slot, and hand out the slot's promise. */
    method Call(caller: Option<nat>) returns (flight: nat)
      requires Sound(Now())
      modifies this
      ensures flight == FlightFor(old(Now())) && Now() == AfterCall(old(Now()), caller)
      ensures Sound(Now()) && flight < |flights| && !flights[flight].stage.Cleared?
    {
      if refreshPromise.None? {
        refreshPromise, flights := Some(|flights|), flights + [Flight(caller, Running)];
      }
      flight := refreshPromise.value;
    }

    method Settle(f: nat, fault: Option<Error>)
      requires Sound(Now()) && f < |flights| && flights[f].stage.Running?
      modifies this
      ensures Now() == AfterSettle(old(Now()), f, fault) && Sound(Now())
    {
      flights := flights[f := flights[f].(stage := Settled(fault))];
    }

    method Finally(f: nat)
      requires Sound(Now()) && f < |flights| && flights[f].stage.Settled?
      modifies this
      ensures Now() == AfterFinally(old(Now()), f) && Sound(Now())
    {
      flights := flights[f := flights[f].(stage := Cleared(flights[f].stage.fault))];
      refreshPromise := None;
    }
  }
}
