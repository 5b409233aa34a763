/**
 * Calls that retry once after a refresh shared through one guard. Any number of calls
 * interleave; every `await` of the program is a point where others may run.
 */
module CallWithRefresh {
  import opened Common
  import opened RefreshGuard

  const UNAUTHENTICATED := 16

  datatype Outcome<V> = Returned(value: V) | Threw(error: Error)

  function ToAxiamError(error: Error): Error {
    if error.Service? && error.code.Some?
    then Mapped(error.code.value, if error.message.Some? then error.message.value else "gRPC call failed")
    else error
  }

  function Surfaced<V>(outcome: Outcome<V>): Outcome<V> {
    match outcome
    case Returned(_) => outcome
    case Threw(error) => Threw(ToAxiamError(error))
  }

  predicate Unauthenticated<V>(outcome: Outcome<V>) {
    outcome.Threw? && outcome.error.Service? && outcome.error.code == Some(UNAUTHENTICATED)
  }

  datatype Phase = Idle | Trying | Waiting | Syncing | Retrying | Done

  /** One call with its history; `refreshed` and `synced` hold the fault of a settled await, if any. */
  datatype Call<V> = Call(
    phase: Phase,
    attempts: nat,
    first: Option<Outcome<V>>,
    onDevice: bool,
    joined: Option<nat>,
    refreshed: Option<Option<Error>>,
    synced: Option<Option<Error>>,
    second: Option<Outcome<V>>,
    result: Option<Outcome<V>>)

  /** `outside` counts how often others, such as the REST transport, entered the same guard. */
  datatype State<V> = State(guard: Guard, calls: seq<Call<V>>, outside: nat)

  datatype Step<V> =
    | Begin(call: nat)
    | OutsideEnters
    | FirstSettles(call: nat, outcome: Outcome<V>, onDevice: bool)
    | RefreshSettles(flight: nat, fault: Option<Error>)
    | SlotClears(flight: nat)
    | Resumes(call: nat)
    | SyncSettles(call: nat, fault: Option<Error>)
    | SecondSettles(call: nat, outcome: Outcome<V>)

  function NewCall<V>(): Call<V> {
    Call(Idle, 0, None, false, None, None, None, None, None)
  }

  function Init<V>(n: nat): State<V> {
    State(Guard(None, []), seq(n, _ => NewCall()), 0)
  }

  predicate InPhase<V>(s: State<V>, call: nat, phase: Phase) {
    call < |s.calls| && s.calls[call].phase == phase
  }

  predicate Enabled<V>(s: State<V>, step: Step<V>) {
    match step
    case Begin(c) => InPhase(s, c, Idle)
    case OutsideEnters => true
    case FirstSettles(c, _, _) => InPhase(s, c, Trying)
    case RefreshSettles(f, _) => f < |s.guard.flights| && s.guard.flights[f].stage.Running?
    case SlotClears(f) => f < |s.guard.flights| && s.guard.flights[f].stage.Settled?
    // What is awaited is the promise of `finally`, which settles after its callback has cleared the slot.
    case Resumes(c) =>
      && InPhase(s, c, Waiting)
      && s.calls[c].joined.Some? && s.calls[c].joined.value < |s.guard.flights|
      && s.guard.flights[s.calls[c].joined.value].stage.Cleared?
    case SyncSettles(c, _) => InPhase(s, c, Syncing)
    case SecondSettles(c, _) => InPhase(s, c, Retrying)
  }

  function AfterFirst<V>(call: Call<V>, outcome: Outcome<V>, onDevice: bool, flight: nat): Call<V> {
    var heard := call.(first := Some(outcome), onDevice := onDevice);
    if Unauthenticated(outcome) && !onDevice
    then heard.(phase := Waiting, joined := Some(flight))
    else heard.(phase := Done, result := Some(Surfaced(outcome)))
  }

  function AfterRefresh<V>(call: Call<V>, fault: Option<Error>): Call<V> {
    var heard := call.(refreshed := Some(fault));
    if fault.None? then heard.(phase := Syncing)
    else heard.(phase := Done, result := Some(Threw(fault.value)))
  }

  function AfterSync<V>(call: Call<V>, fault: Option<Error>): Call<V> {
    var heard := call.(synced := Some(fault));
    if fault.None? then heard.(phase := Retrying, attempts := call.attempts + 1)
    else heard.(phase := Done, result := Some(Threw(fault.value)))
  }

  function Take<V>(s: State<V>, step: Step<V>): State<V>
    requires Enabled(s, step)
  {
    match step
    case Begin(c) => s.(calls := s.calls[c := s.calls[c].(phase := Trying, attempts := 1)])
    case OutsideEnters => s.(guard := AfterCall(s.guard, None), outside := s.outside + 1)
    case FirstSettles(c, outcome, onDevice) =>
      s.(guard := if Unauthenticated(outcome) && !onDevice then AfterCall(s.guard, Some(c)) else s.guard,
         calls := s.calls[c := AfterFirst(s.calls[c], outcome, onDevice, FlightFor(s.guard))])
    case RefreshSettles(f, fault) => s.(guard := AfterSettle(s.guard, f, fault))
    case SlotClears(f) => s.(guard := AfterFinally(s.guard, f))
    case Resumes(c) =>
      s.(calls := s.calls[c := AfterRefresh(s.calls[c], s.guard.flights[s.calls[c].joined.value].stage.fault)])
    case SyncSettles(c, fault) => s.(calls := s.calls[c := AfterSync(s.calls[c], fault)])
    case SecondSettles(c, outcome) =>
      s.(calls := s.calls[c := s.calls[c].(phase := Done, second := Some(outcome), result := Some(Surfaced(outcome)))])
  }

  /** The states after each prefix of some run of `n` calls. */
  ghost predicate Behaviour<V(!new)>(n: nat, steps: seq<Step<V>>, states: seq<State<V>>) {
    && |states| == |steps| + 1
    && states[0] == Init(n)
    && forall i :: 0 <= i < |steps| ==> Enabled(states[i], steps[i]) && states[i + 1] == Take(states[i], steps[i])
  }

  // ---------- The session, updated in place ----------

  class Session<V> {
    const guard: RefreshGuard
    var calls: seq<Call<V>>
    ghost var outside: nat

    ghost function Now(): State<V>
      reads this, guard
    {
      State(guard.Now(), calls, outside)
    }

    constructor (n: nat)
      ensures fresh(guard) && Now() == Init(n) && Sound(guard.Now())
    {
      guard := new RefreshGuard();
      calls := seq(n, _ => NewCall());
      outside := 0;
    }

    method BeginCall(c: nat)
      requires Enabled(Now(), Begin(c))
      modifies this
      ensures Now() == Take(old(Now()), Begin(c))
    {
      calls := calls[c := calls[c].(phase := Trying, attempts := 1)];
    }

    /** Someone else who holds the session enters its guard. */
    method OutsideEnter() returns (flight: nat)
      requires Sound(guard.Now())
      modifies this, guard
      ensures Now() == Take(old(Now()), OutsideEnters)
      ensures Sound(guard.Now()) && guard.refreshPromise == Some(flight)
    {
      flight := guard.Call(None);
      outside := outside + 1;
    }

    /** The first attempt settles; on UNAUTHENTICATED the call enters the guard. */
    method HearFirst(c: nat, outcome: Outcome<V>, onDevice: bool)
      requires Sound(guard.Now()) && Enabled(Now(), FirstSettles(c, outcome, onDevice))
      modifies this, guard
      ensures Now() == Take(old(Now()), FirstSettles(c, outcome, onDevice))
    {
      var call := calls[c].(first := Some(outcome), onDevice := onDevice);
      if outcome.Returned? {
        calls := calls[c := call.(phase := Done, result := Some(outcome))];
        return;
      }
      if Unauthenticated(outcome) && !onDevice {
        var flight := guard.Call(Some(c));
        calls := calls[c := call.(phase := Waiting, joined := Some(flight))];
        return;
      }
      calls := calls[c := call.(phase := Done, result := Some(Threw(ToAxiamError(outcome.error))))];
    }

    method HearRefresh(c: nat)
      requires Enabled(Now(), Resumes(c))
      modifies this
      ensures Now() == Take(old(Now()), Resumes(c))
    {
      var fault := guard.flights[calls[c].joined.value].stage.fault;
      if fault.Some? {
        calls := calls[c := calls[c].(refreshed := Some(fault), phase := Done, result := Some(Threw(fault.value)))];
        return;
      }
      calls := calls[c := calls[c].(refreshed := Some(fault), phase := Syncing)];
    }

    method HearSync(c: nat, fault: Option<Error>)
      requires Enabled(Now(), SyncSettles(c, fault))
      modifies this
      ensures Now() == Take(old(Now()), SyncSettles(c, fault))
    {
      if fault.Some? {
        calls := calls[c := calls[c].(synced := Some(fault), phase := Done, result := Some(Threw(fault.value)))];
        return;
      }
      calls := calls[c := calls[c].(synced := Some(fault), phase := Retrying, attempts := calls[c].attempts + 1)];
    }

    method HearSecond(c: nat, outcome: Outcome<V>)
      requires Enabled(Now(), SecondSettles(c, outcome))
      modifies this
      ensures Now() == Take(old(Now()), SecondSettles(c, outcome))
    {
      var call := calls[c].(phase := Done, second := Some(outcome));
      if outcome.Returned? {
        calls := calls[c := call.(result := Some(outcome))];
        return;
      }
      calls := calls[c := call.(result := Some(Threw(ToAxiamError(outcome.error))))];
    }
  }

  // ---------- What every interleaving keeps ----------

  /** The first attempt failed in the one way that leads to a refresh. */
  predicate Qualifies<V>(call: Call<V>) {
    call.first.Some? && Unauthenticated(call.first.value) && !call.onDevice
  }

  /** Errors of an attempt surface mapped; a fault of the refresh or of the sync surfaces as it is. */
  ghost predicate ResultExplained<V>(call: Call<V>) {
    && call.first.Some?
    && if !Qualifies(call) then call.result == Some(Surfaced(call.first.value))
       else
         && call.refreshed.Some?
         && if call.refreshed.value.Some? then call.result == Some(Threw(call.refreshed.value.value))
            else
              && call.synced.Some?
              && if call.synced.value.Some? then call.result == Some(Threw(call.synced.value.value))
                 else call.second.Some? && call.result == Some(Surfaced(call.second.value))
  }

  ghost predicate CallSound<V>(call: Call<V>, flights: seq<Flight>) {
    && (call.joined.Some? <==> Qualifies(call))
    && (call.joined.Some? ==> call.joined.value < |flights|)
    && (call.refreshed.Some? ==>
          call.joined.Some? && flights[call.joined.value].stage == Cleared(call.refreshed.value))
    && (call.synced.Some? ==> call.refreshed == Some(None))
    && (call.result.Some? <==> call.phase.Done?)
    && (call.first.Some? <==> !call.phase.Idle? && !call.phase.Trying?)
    && (call.phase.Waiting? ==> Qualifies(call) && call.refreshed.None?)
    && (call.phase.Syncing? ==> call.refreshed == Some(None) && call.synced.None?)
    && (call.phase.Retrying? ==> call.synced == Some(None))
    && (call.second.Some? ==> call.phase.Done? && call.synced == Some(None))
    && (call.result.Some? ==> ResultExplained(call))
    && call.attempts ==
       if call.phase.Idle? then 0 else if call.synced == Some(None) then 2 else 1
  }

  /** Each flight was started from outside, or by a call that joined it and qualifies. */
  predicate StarterSound<V>(s: State<V>, f: nat)
    requires f < |s.guard.flights|
  {
    var starter := s.guard.flights[f].starter;
    starter.Some? ==> starter.value < |s.calls| && s.calls[starter.value].joined == Some(f)
  }

  ghost predicate Inv<V>(s: State<V>) {
    && Sound(s.guard)
    && (forall c :: 0 <= c < |s.calls| ==> CallSound(s.calls[c], s.guard.flights))
    && (forall f :: 0 <= f < |s.guard.flights| ==> StarterSound(s, f))
    && StartedOutside(s.guard.flights) <= s.outside
  }

  function StartedOutside(flights: seq<Flight>): nat {
    if flights == [] then 0
    else StartedOutside(flights[..|flights| - 1]) + if flights[|flights| - 1].starter.None? then 1 else 0
  }

  lemma StartingOne(flights: seq<Flight>, flight: Flight)
    ensures StartedOutside(flights + [flight]) == StartedOutside(flights) + if flight.starter.None? then 1 else 0
  {
    assert (flights + [flight])[..|flights|] == flights;
  }

  lemma {:induction false} SameStarters(flights: seq<Flight>, f: nat, flight: Flight)
    requires f < |flights| && flight.starter == flights[f].starter
    ensures StartedOutside(flights[f := flight]) == StartedOutside(flights)
  {
    var before := flights[..|flights| - 1];
    if f < |before| {
      SameStarters(before, f, flight);
      assert flights[f := flight][..|before|] == before[f := flight];
    } else {
      assert flights[f := flight][..|before|] == before;
    }
  }

  lemma GuardStepsKeepInv<V>(s: State<V>, step: Step<V>)
    requires Inv(s) && Enabled(s, step) && (step.RefreshSettles? || step.SlotClears?)
    ensures Inv(Take(s, step))
  {
    var s' := Take(s, step);
    SameStarters(s.guard.flights, step.flight, s'.guard.flights[step.flight]);
    forall f | 0 <= f < |s'.guard.flights|
      ensures StarterSound(s', f)
    {
      assert StarterSound(s, f);
    }
  }

  /** Entering a sound guard may add one flight, and keeps the guard sound. */
  lemma EnteringGuard(g: Guard, caller: Option<nat>)
    requires Sound(g)
    ensures var g' := AfterCall(g, caller);
            && Sound(g') && g.flights <= g'.flights && FlightFor(g) < |g'.flights|
            && (forall f :: |g.flights| <= f < |g'.flights| ==>
                  f == FlightFor(g) && g'.flights[f] == Flight(caller, Running))
            && StartedOutside(g'.flights) <= StartedOutside(g.flights) + if caller.None? then 1 else 0
  {
    StartingOne(g.flights, Flight(caller, Running));
  }

  lemma CallsStaySound<V>(call: Call<V>, flights: seq<Flight>, flights': seq<Flight>)
    requires CallSound(call, flights) && flights <= flights'
    ensures CallSound(call, flights')
  {
  }

  lemma OutsideKeepsInv<V>(s: State<V>)
    requires Inv(s)
    ensures Inv(Take(s, OutsideEnters))
  {
    var s' := Take(s, OutsideEnters);
    EnteringGuard(s.guard, None);
    forall c | 0 <= c < |s'.calls|
      ensures CallSound(s'.calls[c], s'.guard.flights)
    {
      CallsStaySound(s.calls[c], s.guard.flights, s'.guard.flights);
    }
    forall f | 0 <= f < |s'.guard.flights|
      ensures StarterSound(s', f)
    {
      assert f < |s.guard.flights| ==> StarterSound(s, f);
    }
  }

  lemma CallStepsKeepInv<V>(s: State<V>, step: Step<V>)
    requires Inv(s) && Enabled(s, step)
    requires !step.RefreshSettles? && !step.SlotClears? && !step.FirstSettles? && !step.OutsideEnters?
    ensures Inv(Take(s, step))
  {
    var s' := Take(s, step);
    forall f | 0 <= f < |s'.guard.flights|
      ensures StarterSound(s', f)
    {
      assert StarterSound(s, f);
    }
  }

  lemma FirstLeavesSound<V>(call: Call<V>, outcome: Outcome<V>, onDevice: bool, flights: seq<Flight>,
                            flights': seq<Flight>, flight: nat)
    requires CallSound(call, flights) && call.phase.Trying? && flights <= flights'
    requires Unauthenticated(outcome) && !onDevice ==> flight < |flights'|
    ensures CallSound(AfterFirst(call, outcome, onDevice, flight), flights')
  {
  }

  /** A first attempt that settles enters the guard, or leaves it alone. */
  lemma FirstAndTheGuard<V>(s: State<V>, step: Step<V>)
    requires Sound(s.guard) && Enabled(s, step) && step.FirstSettles?
    ensures var g, g' := s.guard, Take(s, step).guard;
            && Sound(g') && g.flights <= g'.flights && StartedOutside(g'.flights) <= StartedOutside(g.flights)
            && (Unauthenticated(step.outcome) && !step.onDevice ==> FlightFor(g) < |g'.flights|)
            && forall f :: |g.flights| <= f < |g'.flights| ==>
                 && Unauthenticated(step.outcome) && !step.onDevice
                 && f == FlightFor(g) && g'.flights[f].starter == Some(step.call)
  {
    if Unauthenticated(step.outcome) && !step.onDevice {
      EnteringGuard(s.guard, Some(step.call));
    }
  }

  lemma FirstKeepsCalls<V>(s: State<V>, step: Step<V>, c: nat)
    requires Inv(s) && Enabled(s, step) && step.FirstSettles? && c < |s.calls|
    ensures CallSound(Take(s, step).calls[c], Take(s, step).guard.flights)
  {
    var flights, flights' := s.guard.flights, Take(s, step).guard.flights;
    FirstAndTheGuard(s, step);
    assert CallSound(s.calls[c], flights);
    if c == step.call {
      FirstLeavesSound(s.calls[c], step.outcome, step.onDevice, flights, flights', FlightFor(s.guard));
    } else {
      CallsStaySound(s.calls[c], flights, flights');
    }
  }

  lemma FirstKeepsStarters<V>(s: State<V>, step: Step<V>, f: nat)
    requires Inv(s) && Enabled(s, step) && step.FirstSettles? && f < |Take(s, step).guard.flights|
    ensures StarterSound(Take(s, step), f)
  {
    FirstAndTheGuard(s, step);
    if f < |s.guard.flights| {
      assert StarterSound(s, f);
      assert s.calls[step.call].joined.None?;
    }
  }

  lemma FirstKeepsInv<V>(s: State<V>, step: Step<V>)
    requires Inv(s) && Enabled(s, step) && step.FirstSettles?
    ensures Inv(Take(s, step))
  {
    var s' := Take(s, step);
    FirstAndTheGuard(s, step);
    forall c: nat | c < |s'.calls|
      ensures CallSound(s'.calls[c], s'.guard.flights)
    {
      FirstKeepsCalls(s, step, c);
    }
    forall f: nat | f < |s'.guard.flights|
      ensures StarterSound(s', f)
    {
      FirstKeepsStarters(s, step, f);
    }
  }

  lemma {:induction false} InvHolds<V(!new)>(n: nat, steps: seq<Step<V>>, states: seq<State<V>>, i: nat)
    requires Behaviour(n, steps, states) && i <= |steps|
    ensures Inv(states[i]) && |states[i].calls| == n
  {
    if i > 0 {
      InvHolds(n, steps, states, i - 1);
      var step := steps[i - 1];
      assert states[i - 1 + 1] == Take(states[i - 1], step);
      if step.RefreshSettles? || step.SlotClears? {
        GuardStepsKeepInv(states[i - 1], step);
      } else if step.OutsideEnters? {
        OutsideKeepsInv(states[i - 1]);
      } else if step.FirstSettles? {
        FirstKeepsInv(states[i - 1], step);
      } else {
        CallStepsKeepInv(states[i - 1], step);
      }
    }
  }

  // ---------- Single flight ----------

  ghost function InFlight(g: Guard): set<nat> {
    set f: nat | f < |g.flights| && !g.flights[f].stage.Cleared?
  }

  ghost function Finished(g: Guard): set<nat> {
    set f: nat | f < |g.flights| && g.flights[f].stage.Cleared?
  }

  ghost function UpTo(n: nat): (numbers: set<nat>)
    ensures forall f: nat :: f in numbers <==> f < n
    ensures |numbers| == n
  {
    if n == 0 then {} else UpTo(n - 1) + {n - 1}
  }

  /** At most one refresh is ever in flight, the slot names it, and started equals settled plus in flight. */
  lemma AtMostOneInFlight<V(!new)>(n: nat, steps: seq<Step<V>>, states: seq<State<V>>, i: nat)
    requires Behaviour(n, steps, states) && i <= |steps|
    ensures var g := states[i].guard;
            && InFlight(g) == (if g.slot.Some? then {g.slot.value} else {})
            && |g.flights| == |Finished(g)| + |InFlight(g)|
            && |InFlight(g)| <= 1
  {
    InvHolds(n, steps, states, i);
    SoundGuardsFlyOne(states[i].guard);
  }

  lemma SoundGuardsFlyOne(g: Guard)
    requires Sound(g)
    ensures InFlight(g) == (if g.slot.Some? then {g.slot.value} else {})
    ensures |g.flights| == |Finished(g)| + |InFlight(g)| && |InFlight(g)| <= 1
  {
    InFlightIsSlot(g);
    FinishedOrInFlight(g);
  }

  lemma InFlightIsSlot(g: Guard)
    requires Sound(g)
    ensures InFlight(g) == (if g.slot.Some? then {g.slot.value} else {})
  {
  }

  lemma FinishedOrInFlight(g: Guard)
    ensures |g.flights| == |Finished(g)| + |InFlight(g)|
  {
    assert UpTo(|g.flights|) == Finished(g) + InFlight(g);
  }

  /**
   * Whoever joined a flight hears the outcome of exactly that flight, and hears it only
   * after the flight has left the slot.
   */
  lemma JoinersHearTheirFlight<V(!new)>(n: nat, steps: seq<Step<V>>, states: seq<State<V>>, i: nat, c: nat)
    requires Behaviour(n, steps, states) && i <= |steps| && c < n
    ensures |states[i].calls| == n
    ensures var s := states[i];
            var call := s.calls[c];
            && (call.joined.Some? <==> Qualifies(call))
            && (call.refreshed.Some? ==>
                  && call.joined.Some? && call.joined.value < |s.guard.flights|
                  && s.guard.flights[call.joined.value].stage == Cleared(call.refreshed.value)
                  && s.guard.slot != call.joined)
  {
    InvHolds(n, steps, states, i);
    assert CallSound(states[i].calls[c], states[i].guard.flights);
  }

  /**
   * A second attempt happens only after an UNAUTHENTICATED first one, a successful refresh and a sync;
   * never a third.
   */
  lemma SecondAttemptIsEarned<V(!new)>(n: nat, steps: seq<Step<V>>, states: seq<State<V>>, i: nat, c: nat)
    requires Behaviour(n, steps, states) && i <= |steps| && c < n
    ensures |states[i].calls| == n
    ensures var call := states[i].calls[c];
            && call.attempts <= 2
            && (call.attempts == 2 <==> call.synced == Some(None))
            && (call.attempts == 2 ==>
                  && Qualifies(call)
                  && call.refreshed == Some(None)
                  && call.joined.Some? && call.joined.value < |states[i].guard.flights|
                  && states[i].guard.flights[call.joined.value].stage == Cleared(None))
  {
    InvHolds(n, steps, states, i);
    assert CallSound(states[i].calls[c], states[i].guard.flights);
  }

  /** How a finished call ended, told from the settlements it awaited. */
  lemma ResultTellsTheStory<V(!new)>(n: nat, steps: seq<Step<V>>, states: seq<State<V>>, i: nat, c: nat)
    requires Behaviour(n, steps, states) && i <= |steps| && c < n
    ensures |states[i].calls| == n
    ensures states[i].calls[c].result.Some? <==> states[i].calls[c].phase.Done?
    ensures states[i].calls[c].result.Some? ==> ResultExplained(states[i].calls[c])
  {
    InvHolds(n, steps, states, i);
    assert CallSound(states[i].calls[c], states[i].guard.flights);
  }

  lemma OneMoreStep<V(!new)>(n: nat, steps: seq<Step<V>>, states: seq<State<V>>, step: Step<V>)
    returns (states': seq<State<V>>)
    requires Behaviour(n, steps, states) && Enabled(states[|steps|], step)
    ensures Behaviour(n, steps + [step], states')
    ensures states'[|steps| + 1] == Take(states[|steps|], step)
  {
    states' := states + [Take(states[|steps|], step)];
  }

  /** A service error with a status, as it came: the form that mapping takes away. */
  predicate Unmapped(fault: Option<Error>) {
    fault.Some? && fault.value.Service? && fault.value.code.Some?
  }

  predicate SurfacesUnmapped<V>(call: Call<V>) {
    call.result.Some? && call.result.value.Threw? && Unmapped(Some(call.result.value.error))
  }

  /**
   * A finished call surfaces a service error unmapped exactly when its first attempt asked for a
   * refresh and that refresh, or after a good one the sync, failed with such an error.
   */
  lemma SurfacesUnmappedIff<V(!new)>(n: nat, steps: seq<Step<V>>, states: seq<State<V>>, i: nat, c: nat)
    requires Behaviour(n, steps, states) && i <= |steps| && c < n
    ensures |states[i].calls| == n
    ensures var call := states[i].calls[c];
            call.result.Some? ==>
              (SurfacesUnmapped(call) <==>
               && Qualifies(call) && call.refreshed.Some?
               && (Unmapped(call.refreshed.value) ||
                   (call.refreshed.value.None? && call.synced.Some? && Unmapped(call.synced.value))))
  {
    ResultTellsTheStory(n, steps, states, i, c);
    InvHolds(n, steps, states, i);
    assert CallSound(states[i].calls[c], states[i].guard.flights);
  }

  /** It does occur: a refresh that ends UNAVAILABLE. */
  lemma UnavailableRefreshSurfaces() returns (steps: seq<Step<int>>, states: seq<State<int>>)
    ensures Behaviour(1, steps, states) && |steps| == 5
    ensures |states[5].calls| == 1 && SurfacesUnmapped(states[5].calls[0])
  {
    var unavailable := Service(Some(14), None);
    var first := FirstSettles(0, Threw(Service(Some(UNAUTHENTICATED), None)), false);
    var s1 := OneMoreStep(1, [], [Init(1)], Begin(0));
    var s2 := OneMoreStep(1, [Begin(0)], s1, first);
    var s3 := OneMoreStep(1, [Begin(0), first], s2, RefreshSettles(0, Some(unavailable)));
    var s4 := OneMoreStep(1, [Begin(0), first, RefreshSettles(0, Some(unavailable))], s3, SlotClears(0));
    steps := [Begin(0), first, RefreshSettles(0, Some(unavailable)), SlotClears(0)];
    states := OneMoreStep(1, steps, s4, Resumes(0));
    steps := steps + [Resumes(0)];
  }

  // ---------- In plain terms ----------

  /** What a call and a flight keep of their history is what the steps said. */
  ghost predicate Told<V(!new)>(s: State<V>, steps: seq<Step<V>>) {
    && (forall c :: 0 <= c < |s.calls| ==> CallTold(s.calls[c], c, steps))
    && (forall f :: 0 <= f < |s.guard.flights| ==> FlightTold(s.guard.flights[f], f, steps))
  }

  ghost predicate CallTold<V(!new)>(call: Call<V>, c: nat, steps: seq<Step<V>>) {
    && (call.first.Some? ==> FirstSettles(c, call.first.value, call.onDevice) in steps)
    && (call.synced.Some? ==> SyncSettles(c, call.synced.value) in steps)
    && (call.second.Some? ==> SecondSettles(c, call.second.value) in steps)
  }

  ghost predicate FlightTold<V(!new)>(flight: Flight, f: nat, steps: seq<Step<V>>) {
    !flight.stage.Running? ==> RefreshSettles(f, flight.stage.fault) in steps
  }

  lemma StepIsTold<V(!new)>(s: State<V>, steps: seq<Step<V>>, step: Step<V>)
    requires Told(s, steps) && Enabled(s, step)
    ensures Told(Take(s, step), steps + [step])
  {
    var s', steps' := Take(s, step), steps + [step];
    assert step in steps' && forall x :: x in steps ==> x in steps';
    forall c: nat | c < |s'.calls|
      ensures CallTold(s'.calls[c], c, steps')
    {
      assert CallTold(s.calls[c], c, steps);
    }
    forall f: nat | f < |s'.guard.flights|
      ensures FlightTold(s'.guard.flights[f], f, steps')
    {
      assert f < |s.guard.flights| ==> FlightTold(s.guard.flights[f], f, steps);
    }
  }

  /** In every behaviour each call's history, and the fault of each flight, is that of the steps so far. */
  lemma {:induction false} HistoryIsOfSteps<V(!new)>(n: nat, steps: seq<Step<V>>, states: seq<State<V>>, i: nat)
    requires Behaviour(n, steps, states) && i <= |steps|
    ensures Told(states[i], steps[..i])
  {
    if i > 0 {
      HistoryIsOfSteps(n, steps, states, i - 1);
      StepIsTold(states[i - 1], steps[..i - 1], steps[i - 1]);
      assert states[i - 1 + 1] == Take(states[i - 1], steps[i - 1]);
      assert steps[..i] == steps[..i - 1] + [steps[i - 1]];
    }
  }

  /**
   * A call asks for a refresh exactly when its first attempt threw a service error with the status
   * UNAUTHENTICATED, 16, and the session had no device token; only then is there a second attempt.
   */
  lemma JoinsIffUnauthenticated<V(!new)>(n: nat, steps: seq<Step<V>>, states: seq<State<V>>, i: nat, c: nat)
    requires Behaviour(n, steps, states) && i <= |steps| && c < n
    ensures |states[i].calls| == n
    ensures var call := states[i].calls[c];
            && (call.joined.Some? <==>
                  && call.first.Some? && call.first.value.Threw? && call.first.value.error.Service?
                  && call.first.value.error.code == Some(16) && !call.onDevice)
            && (call.attempts == 2 ==> call.joined.Some?)
  {
    JoinersHearTheirFlight(n, steps, states, i, c);
    SecondAttemptIsEarned(n, steps, states, i, c);
  }

  /** And it joins the flight that is in the slot from then on. */
  lemma JoinsTheFlightInTheSlot<V(!new)>(n: nat, steps: seq<Step<V>>, states: seq<State<V>>, i: nat, c: nat)
    requires Behaviour(n, steps, states) && i < |steps| && c < n
    ensures |states[i].calls| == |states[i + 1].calls| == n
    ensures states[i].calls[c].joined.None? && states[i + 1].calls[c].joined.Some? ==>
              && states[i + 1].calls[c].joined == states[i + 1].guard.slot
              && (states[i].guard.slot.Some? ==> states[i].guard.slot == states[i + 1].guard.slot)
  {
    InvHolds(n, steps, states, i);
    InvHolds(n, steps, states, i + 1);
    assert states[i + 1] == Take(states[i], steps[i]);
  }

  /** What may happen next, told from the histories: each thing that is awaited, with any outcome, once. */
  predicate MayCome<V>(s: State<V>, next: Step<V>) {
    match next
    case Begin(c) => c < |s.calls| && s.calls[c].attempts == 0
    case OutsideEnters => true
    case FirstSettles(c, _, _) => c < |s.calls| && s.calls[c].attempts == 1 && s.calls[c].first.None?
    case RefreshSettles(f, _) => f < |s.guard.flights| && s.guard.flights[f].stage.Running?
    case SlotClears(f) => f < |s.guard.flights| && s.guard.flights[f].stage.Settled?
    case Resumes(c) =>
      && c < |s.calls| && s.calls[c].joined.Some? && s.calls[c].refreshed.None?
      && s.calls[c].joined.value < |s.guard.flights| && s.guard.flights[s.calls[c].joined.value].stage.Cleared?
    case SyncSettles(c, _) => c < |s.calls| && s.calls[c].refreshed == Some(None) && s.calls[c].synced.None?
    case SecondSettles(c, _) => c < |s.calls| && s.calls[c].synced == Some(None) && s.calls[c].second.None?
  }

  lemma WhatMayComeIsEnabled<V(!new)>(s: State<V>, next: Step<V>)
    requires Inv(s) && MayCome(s, next)
    ensures Enabled(s, next)
  {
    if next.Resumes? || next.SyncSettles? || next.SecondSettles? || next.FirstSettles? || next.Begin? {
      assert CallSound(s.calls[next.call], s.guard.flights);
    }
  }

  /** Nothing ever blocks: whatever may happen next continues the behaviour. */
  lemma NothingBlocks<V(!new)>(n: nat, steps: seq<Step<V>>, states: seq<State<V>>, next: Step<V>)
    returns (states': seq<State<V>>)
    requires Behaviour(n, steps, states) && MayCome(states[|steps|], next)
    ensures Behaviour(n, steps + [next], states')
  {
    InvHolds(n, steps, states, |steps|);
    WhatMayComeIsEnabled(states[|steps|], next);
    states' := OneMoreStep(n, steps, states, next);
  }

  /** What an error of an attempt surfaces as: its status and text if it is a service error, or itself. */
  ghost predicate SurfacesAs<V(!new)>(outcome: Outcome<V>, result: Outcome<V>) {
    match outcome
    case Threw(Service(Some(code), Some(text))) => result == Threw(Mapped(code, text))
    case Threw(Service(Some(code), None)) => result == Threw(Mapped(code, "gRPC call failed"))
    case _ => result == outcome
  }

  /** What a finished call gives: its last attempt, or the fault for which there was no second one, as it came. */
  lemma ResultInPlainTerms<V(!new)>(n: nat, steps: seq<Step<V>>, states: seq<State<V>>, i: nat, c: nat)
    requires Behaviour(n, steps, states) && i <= |steps| && c < n
    ensures |states[i].calls| == n
    ensures states[i].calls[c].result.Some? ==> PlainResult(states[i].calls[c], c, steps[..i])
  {
    InvHolds(n, steps, states, i);
    HistoryIsOfSteps(n, steps, states, i);
    if states[i].calls[c].result.Some? {
      SoundResult(states[i], c, steps[..i]);
    }
  }

  ghost predicate PlainResult<V(!new)>(call: Call<V>, c: nat, steps: seq<Step<V>>)
    requires call.result.Some?
  {
    if call.second.Some? then SurfacesAs(call.second.value, call.result.value)
    else if call.joined.None? then call.first.Some? && SurfacesAs(call.first.value, call.result.value)
    else call.result.value.Threw? && FaultOf(call.joined.value, c, call.result.value.error, steps)
  }

  /** The flight, or the sync of the call, failed with this error. */
  ghost predicate FaultOf<V(!new)>(f: nat, c: nat, error: Error, steps: seq<Step<V>>) {
    RefreshSettles(f, Some(error)) in steps || SyncSettles(c, Some(error)) in steps
  }

  lemma SoundResult<V(!new)>(s: State<V>, c: nat, steps: seq<Step<V>>)
    requires Inv(s) && Told(s, steps) && c < |s.calls| && s.calls[c].result.Some?
    ensures PlainResult(s.calls[c], c, steps)
  {
    var call := s.calls[c];
    assert CallSound(call, s.guard.flights) && CallTold(call, c, steps);
    if call.second.Some? {
      SurfacedSurfaces(call.second.value);
    } else if call.joined.None? {
      SurfacedSurfaces(call.first.value);
    } else {
      assert FlightTold(s.guard.flights[call.joined.value], call.joined.value, steps);
    }
  }

  lemma SurfacedSurfaces<V(!new)>(outcome: Outcome<V>)
    ensures SurfacesAs(outcome, Surfaced(outcome))
  {
  }

  ghost function Qualifying<V>(s: State<V>): set<nat> {
    set c: nat | c < |s.calls| && Qualifies(s.calls[c])
  }

  ghost function Starters(flights: seq<Flight>): set<nat> {
    if flights == [] then {}
    else
      var last := flights[|flights| - 1].starter;
      Starters(flights[..|flights| - 1]) + if last.Some? then {last.value} else {}
  }

  lemma {:induction false} StartersMembers(flights: seq<Flight>, c: nat)
    ensures c in Starters(flights) <==> exists f :: 0 <= f < |flights| && flights[f].starter == Some(c)
  {
    if flights != [] {
      var before := flights[..|flights| - 1];
      StartersMembers(before, c);
      assert forall f :: 0 <= f < |before| ==> before[f] == flights[f];
      assert c in Starters(before) ==> exists f :: 0 <= f < |before| && flights[f].starter == Some(c);
    }
  }

  /** Distinct starters are as many as the flights that were not started from outside. */
  lemma {:induction false} StartersCount(flights: seq<Flight>)
    requires forall f, g :: 0 <= f < g < |flights| && flights[f].starter.Some? ==>
                              flights[f].starter != flights[g].starter
    ensures |Starters(flights)| + StartedOutside(flights) == |flights|
  {
    if flights != [] {
      var before, last := flights[..|flights| - 1], flights[|flights| - 1].starter;
      StartersCount(before);
      if last.Some? {
        StartersMembers(before, last.value);
      }
    }
  }

  lemma StartersQualify<V>(s: State<V>)
    requires Inv(s)
    ensures Starters(s.guard.flights) <= Qualifying(s)
    ensures |s.guard.flights| <= |Starters(s.guard.flights)| + s.outside
  {
    var flights := s.guard.flights;
    forall f, g | 0 <= f < g < |flights| && flights[f].starter.Some?
      ensures flights[f].starter != flights[g].starter
    {
      assert StarterSound(s, f) && StarterSound(s, g);
    }
    StartersCount(flights);
    forall c | c in Starters(flights)
      ensures c in Qualifying(s)
    {
      StartersMembers(flights, c);
      var f :| 0 <= f < |flights| && flights[f].starter == Some(c);
      assert StarterSound(s, f) && CallSound(s.calls[c], flights);
    }
  }

  /**
   * There are never more refreshes than calls whose first attempt asked for one, and entries from
   * outside.
   */
  lemma RefreshesAreEarned<V(!new)>(n: nat, steps: seq<Step<V>>, states: seq<State<V>>, i: nat)
    requires Behaviour(n, steps, states) && i <= |steps|
    ensures |states[i].guard.flights| <= |Qualifying(states[i])| + states[i].outside
    ensures |Qualifying(states[i])| <= n && states[i].outside == OutsideSteps(steps[..i])
  {
    InvHolds(n, steps, states, i);
    OutsideCounted(n, steps, states, i);
    var s := states[i];
    StartersQualify(s);
    SubsetSize(Starters(s.guard.flights), Qualifying(s));
    SubsetSize(Qualifying(s), UpTo(n));
  }

  function OutsideSteps<V>(steps: seq<Step<V>>): nat {
    if steps == [] then 0
    else OutsideSteps(steps[..|steps| - 1]) + if steps[|steps| - 1].OutsideEnters? then 1 else 0
  }

  lemma {:induction false} OutsideCounted<V(!new)>(n: nat, steps: seq<Step<V>>, states: seq<State<V>>, i: nat)
    requires Behaviour(n, steps, states) && i <= |steps|
    ensures states[i].outside == OutsideSteps(steps[..i])
  {
    if i > 0 {
      OutsideCounted(n, steps, states, i - 1);
      assert steps[..i][..i - 1] == steps[..i - 1];
      assert states[i - 1 + 1] == Take(states[i - 1], steps[i - 1]);
    }
  }

  // ---------- Every call comes to an end ----------

  function CallWeight(phase: Phase): nat {
    match phase
    case Idle => 7 case Trying => 6 case Waiting => 3 case Syncing => 2 case Retrying => 1 case Done => 0
  }

  function StageWeight(stage: Stage): nat {
    match stage case Running => 2 case Settled(_) => 1 case Cleared(_) => 0
  }

  function CallsWeight<V>(calls: seq<Call<V>>): nat {
    if calls == [] then 0 else CallWeight(calls[0].phase) + CallsWeight(calls[1..])
  }

  function FlightsWeight(flights: seq<Flight>): nat {
    if flights == [] then 0 else StageWeight(flights[0].stage) + FlightsWeight(flights[1..])
  }

  function Weight<V>(s: State<V>): nat {
    CallsWeight(s.calls) + FlightsWeight(s.guard.flights)
  }

  lemma {:induction false} CallsWeightUpdate<V>(calls: seq<Call<V>>, c: nat, call: Call<V>)
    requires c < |calls|
    ensures CallsWeight(calls[c := call]) ==
            CallsWeight(calls) - CallWeight(calls[c].phase) + CallWeight(call.phase)
  {
    if c > 0 {
      CallsWeightUpdate(calls[1..], c - 1, call);
      assert calls[c := call][1..] == calls[1..][c - 1 := call];
    } else {
      assert calls[c := call][1..] == calls[1..];
    }
  }

  lemma {:induction false} FlightsWeightUpdate(flights: seq<Flight>, f: nat, flight: Flight)
    requires f < |flights|
    ensures FlightsWeight(flights[f := flight]) ==
            FlightsWeight(flights) - StageWeight(flights[f].stage) + StageWeight(flight.stage)
  {
    if f > 0 {
      FlightsWeightUpdate(flights[1..], f - 1, flight);
      assert flights[f := flight][1..] == flights[1..][f - 1 := flight];
    } else {
      assert flights[f := flight][1..] == flights[1..];
    }
  }

  lemma {:induction false} FlightsWeightAppend(flights: seq<Flight>, flight: Flight)
    ensures FlightsWeight(flights + [flight]) == FlightsWeight(flights) + StageWeight(flight.stage)
  {
    if flights != [] {
      FlightsWeightAppend(flights[1..], flight);
      assert (flights + [flight])[1..] == flights[1..] + [flight];
    }
  }

  /** A step of the guard moves one flight a stage on. */
  lemma GuardStepLightens<V>(s: State<V>, step: Step<V>)
    requires Enabled(s, step) && (step.RefreshSettles? || step.SlotClears?)
    ensures Weight(Take(s, step)) < Weight(s)
  {
    FlightsWeightUpdate(s.guard.flights, step.flight, Take(s, step).guard.flights[step.flight]);
  }

  /** A first attempt that settles may start a flight, but leaves a lighter call. */
  lemma FirstStepLightens<V>(s: State<V>, step: Step<V>)
    requires Enabled(s, step) && step.FirstSettles?
    ensures Weight(Take(s, step)) < Weight(s)
  {
    var s', flight := Take(s, step), Flight(Some(step.call), Running);
    CallsWeightUpdate(s.calls, step.call, s'.calls[step.call]);
    FlightsWeightAppend(s.guard.flights, flight);
    assert s'.guard.flights == s.guard.flights || s'.guard.flights == s.guard.flights + [flight];
  }

  lemma CallStepLightens<V>(s: State<V>, step: Step<V>)
    requires Enabled(s, step) && !step.OutsideEnters?
    requires !step.RefreshSettles? && !step.SlotClears? && !step.FirstSettles?
    ensures Weight(Take(s, step)) < Weight(s)
  {
    var s' := Take(s, step);
    CallsWeightUpdate(s.calls, step.call, s'.calls[step.call]);
    assert s'.guard == s.guard;
  }

  /** An entry from outside may start a flight, which is two steps more. */
  lemma OutsideAdds<V>(s: State<V>)
    ensures Weight(Take(s, OutsideEnters)) <= Weight(s) + 2
  {
    FlightsWeightAppend(s.guard.flights, Flight(None, Running));
  }

  lemma StepLightens<V>(s: State<V>, step: Step<V>)
    requires Enabled(s, step) && !step.OutsideEnters?
    ensures Weight(Take(s, step)) < Weight(s)
  {
    if step.RefreshSettles? || step.SlotClears? {
      GuardStepLightens(s, step);
    } else if step.FirstSettles? {
      FirstStepLightens(s, step);
    } else {
      CallStepLightens(s, step);
    }
  }

  lemma {:induction false} InitWeight<V(!new)>(n: nat)
    ensures Weight(Init<V>(n)) == 7 * n
  {
    if n > 0 {
      InitWeight<V>(n - 1);
      assert Init<V>(n).calls[1..] == Init<V>(n - 1).calls;
    }
  }

  lemma {:induction false} RunsAreShort<V(!new)>(n: nat, steps: seq<Step<V>>, states: seq<State<V>>, i: nat)
    requires Behaviour(n, steps, states) && i <= |steps|
    ensures Weight(states[i]) + i <= 7 * n + 3 * states[i].outside
  {
    if i == 0 {
      InitWeight<V>(n);
    } else {
      RunsAreShort(n, steps, states, i - 1);
      if steps[i - 1].OutsideEnters? {
        OutsideAdds(states[i - 1]);
      } else {
        StepLightens(states[i - 1], steps[i - 1]);
      }
      assert states[i - 1 + 1] == Take(states[i - 1], steps[i - 1]);
    }
  }

  /** Nothing can happen but another entry from outside. */
  ghost predicate Stuck<V(!new)>(s: State<V>) {
    forall step: Step<V> :: Enabled(s, step) ==> step.OutsideEnters?
  }

  /**
   * No run is longer than seven steps a call and three an entry from outside, and one that can go no
   * further has settled every call.
   */
  lemma EveryCallEnds<V(!new)>(n: nat, steps: seq<Step<V>>, states: seq<State<V>>)
    requires Behaviour(n, steps, states)
    ensures |steps| <= 7 * n + 3 * OutsideSteps(steps)
    ensures Stuck(states[|steps|]) ==>
              forall c :: 0 <= c < |states[|steps|].calls| ==> states[|steps|].calls[c].result.Some?
  {
    RunsAreShort(n, steps, states, |steps|);
    InvHolds(n, steps, states, |steps|);
    OutsideCounted(n, steps, states, |steps|);
    assert steps[..|steps|] == steps;
    var s := states[|steps|];
    if Stuck(s) {
      forall c: nat | c < |s.calls|
        ensures s.calls[c].result.Some?
      {
        UnfinishedCanMove(s, c);
      }
    }
  }

  lemma UnfinishedCanMove<V(!new)>(s: State<V>, c: nat)
    requires Inv(s) && c < |s.calls|
    ensures s.calls[c].result.Some? || !Stuck(s)
  {
    var call := s.calls[c];
    assert CallSound(call, s.guard.flights);
    match call.phase
    case Idle => assert Enabled(s, Begin(c));
    case Trying => assert Enabled(s, FirstSettles(c, Threw(Opaque(0)), false));
    case Waiting =>
      var f := call.joined.value;
      match s.guard.flights[f].stage {
        case Running => assert Enabled(s, RefreshSettles(f, None));
        case Settled(_) => assert Enabled(s, SlotClears(f));
        case Cleared(_) => assert Enabled(s, Resumes(c));
      }
    case Syncing => assert Enabled(s, SyncSettles(c, None));
    case Retrying => assert Enabled(s, SecondSettles(c, Threw(Opaque(0))));
    case Done =>
  }
}
