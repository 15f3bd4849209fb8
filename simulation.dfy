/** The transition engine as the source runs it: `Environment.step` copies the state and
    then updates the copy phase by phase, in place. Every phase method is proved to compute
    the matching function of module Transition, and `Step` to compute `StepSpec`. */
module Simulation {
  import opened Wrappers
  import opened Grid
  import opened Domain
  import opened Transition
  import opened Observing
  import opened Rewards

  /** A world state. The taxi list has a fixed length and its entries are updated in
      place; the request list is replaced as requests come and go. */
  class State {
    var taxis: array<Taxi>
    var requests: seq<Request>
    var time: int
    var trafficLevel: real

    constructor (taxis: array<Taxi>, requests: seq<Request>, time: int, trafficLevel: real)
      ensures this.taxis == taxis && this.requests == requests
      ensures this.time == time && this.trafficLevel == trafficLevel
    {
      this.taxis := taxis;
      this.requests := requests;
      this.time := time;
      this.trafficLevel := trafficLevel;
    }

    /** Taxi ids equal list positions, and busy taxis carry what the step reads. */
    ghost predicate Valid()
      reads this, taxis
    {
      WellFormed(taxis[..])
    }

    /** The value this state holds. */
    function View(): Snapshot
      reads this, taxis
    {
      Snapshot(taxis[..], requests, time, trafficLevel)
    }
  }

  /** Helper facts about the movement-phase bookkeeping, one taxi at a time. */
  lemma PickedUpIdsSnoc(taxis: seq<Taxi>, i: int)
    requires 0 <= i < |taxis| && AllDispatchable(taxis)
    ensures PickedUpIds(taxis[..i + 1]) == PickedUpIds(taxis[..i]) + AsSeq(PickedUp(taxis[i]))
    ensures CompletedIds(taxis[..i + 1]) == CompletedIds(taxis[..i]) + AsSeq(Completed(taxis[i]))
  {
    assert taxis[..i + 1][..i] == taxis[..i];
  }

  lemma AppendAssoc<T>(a: seq<T>, b: seq<T>, c: seq<T>)
    ensures a + (b + c) == (a + b) + c
  {
  }

  /** The taxi list part way through the movement loop: the first `i` taxis advanced. */
  ghost function AdvancedUpTo(taxis: seq<Taxi>, i: int, trafficLevel: real, delay: nat -> real): seq<Taxi>
    requires 0 <= i <= |taxis| && AllDispatchable(taxis)
  {
    AdvanceAll(taxis[..i], trafficLevel, delay) + taxis[i..]
  }

  lemma AdvancedUpToEnds(taxis: seq<Taxi>, trafficLevel: real, delay: nat -> real)
    requires AllDispatchable(taxis)
    ensures AdvancedUpTo(taxis, 0, trafficLevel, delay) == taxis
    ensures AdvancedUpTo(taxis, |taxis|, trafficLevel, delay) == AdvanceAll(taxis, trafficLevel, delay)
  {
    assert taxis[0..] == taxis && taxis[..|taxis|] == taxis && taxis[|taxis|..] == [];
  }

  lemma AdvancedUpToStep(taxis: seq<Taxi>, i: int, trafficLevel: real, delay: nat -> real)
    requires 0 <= i < |taxis| && AllDispatchable(taxis)
    ensures AdvancedUpTo(taxis, i, trafficLevel, delay)[i] == taxis[i]
    ensures AdvancedUpTo(taxis, i + 1, trafficLevel, delay) ==
      AdvancedUpTo(taxis, i, trafficLevel, delay)[i := Advance(taxis[i], Delayed(trafficLevel, delay(i)))]
  {
    var a := AdvancedUpTo(taxis, i + 1, trafficLevel, delay);
    var b := AdvancedUpTo(taxis, i, trafficLevel, delay)[i := Advance(taxis[i], Delayed(trafficLevel, delay(i)))];
    assert |a| == |b|;
    forall j | 0 <= j < |a|
      ensures a[j] == b[j]
    {
      if j < i {
        assert taxis[..i + 1][j] == taxis[..i][j];
      }
    }
  }

  /** One more taxi's pickup leaves the request list as one more id filter does. */
  lemma PickupStep(rs: seq<Request>, taxis: seq<Taxi>, i: int)
    requires 0 <= i < |taxis| && AllDispatchable(taxis)
    ensures var before := WithoutIds(rs, SetOf(PickedUpIds(taxis[..i])));
      WithoutIds(rs, SetOf(PickedUpIds(taxis[..i + 1]))) ==
        if PickedUp(taxis[i]).Some? then WithoutId(before, PickedUp(taxis[i]).value) else before
  {
    PickedUpIdsSnoc(taxis, i);
    var ids := PickedUpIds(taxis[..i]);
    var o := PickedUp(taxis[i]);
    if o.Some? {
      assert SetOf(ids + [o.value]) == SetOf(ids) + {o.value};
      WithoutIdStep(rs, SetOf(ids), o.value);
    } else {
      assert ids + [] == ids;
    }
  }

  lemma FirstOffOriginAt(origin: Pos, candidates: seq<Pos>, j: int)
    requires 0 <= j < |candidates| && candidates[j] != origin
    requires forall m :: 0 <= m < j ==> candidates[m] == origin
    ensures FirstOffOrigin(origin, candidates) == candidates[j]
    decreases j
  {
    if j > 0 {
      FirstOffOriginAt(origin, candidates[1..], j - 1);
    }
  }

  lemma NewRequestsSnoc(counter: int, time: int, arrivals: seq<RequestDraw>, k: int)
    requires ArrivalsEnd(arrivals) && 0 <= k < |arrivals|
    ensures ArrivalsEnd(arrivals[..k]) && ArrivalsEnd(arrivals[..k + 1])
    ensures NewRequests(counter, time, arrivals[..k + 1]) ==
      NewRequests(counter, time, arrivals[..k]) +
      [NewRequest(counter + k, arrivals[k].origin, FirstOffOrigin(arrivals[k].origin, arrivals[k].destinations), time)]
  {
    var a := NewRequests(counter, time, arrivals[..k + 1]);
    var b := NewRequests(counter, time, arrivals[..k]);
    assert |a| == |b| + 1;
    forall m | 0 <= m < k
      ensures a[m] == b[m]
    {
      assert arrivals[..k + 1][m] == arrivals[..k][m];
    }
  }

  lemma FiredIdsSnoc(rs: seq<Request>, k: int, base: real, cancel: nat -> real)
    requires 0 <= k < |rs|
    ensures FiredIds(rs[..k + 1], base, cancel) ==
      FiredIds(rs[..k], base, cancel) + (if Fires(base, rs[k].waitingTime + 1, cancel(k)) then [rs[k].id] else [])
  {
    assert rs[..k + 1][..k] == rs[..k];
  }

  class Environment {
    const gridSize: int
    const numTaxis: int
    const requestRate: real
    const cancellationProb: real
    /** The id the next generated request gets. */
    var requestCounter: int
    var lastCompletedRides: seq<int>
    var lastCancelledRequests: seq<int>
    var lastPickedUpRequests: seq<int>
    /** The summary of the last step, None before the first one. */
    var lastStepInfo: Option<StepInfo>

    constructor (gridSize: int, numTaxis: int, requestRate: real, cancellationProb: real)
      ensures this.gridSize == gridSize && this.numTaxis == numTaxis
      ensures this.requestRate == requestRate && this.cancellationProb == cancellationProb
      ensures requestCounter == 0 && lastStepInfo == None
      ensures lastCompletedRides == [] && lastCancelledRequests == [] && lastPickedUpRequests == []
      ensures LogsMatch()
    {
      this.gridSize := gridSize;
      this.numTaxis := numTaxis;
      this.requestRate := requestRate;
      this.cancellationProb := cancellationProb;
      requestCounter := 0;
      lastCompletedRides := [];
      lastCancelledRequests := [];
      lastPickedUpRequests := [];
      lastStepInfo := None;
    }

    /** The three event lists are those of the last step's summary, and all empty before
        the first step. */
    ghost predicate LogsMatch()
      reads this
    {
      match lastStepInfo
      case None => lastCompletedRides == [] && lastCancelledRequests == [] && lastPickedUpRequests == []
      case Some(info) =>
        && lastCompletedRides == info.completedRides && lastCancelledRequests == info.cancelledRequests
        && lastPickedUpRequests == info.pickedUpRequests
    }

    /** `create_initial_state`: one idle taxi per id at the drawn cell, no requests, tick 0,
        normal traffic. */
    method CreateInitialState(positions: seq<Pos>) returns (s: State)
      requires |positions| == Max(numTaxis, 0)
      ensures fresh(s) && fresh(s.taxis) && s.Valid()
      ensures s.View() == Snapshot(seq(|positions|, i requires 0 <= i < |positions| => NewTaxi(i, positions[i])), [], 0, 1.0)
    {
      var taxis := new Taxi[|positions|];
      for i := 0 to |positions|
        invariant forall j :: 0 <= j < i ==> taxis[j] == NewTaxi(j, positions[j])
      {
        taxis[i] := NewTaxi(i, positions[i]);
      }
      s := new State(taxis, [], 0, 1.0);
    }

    /** `_copy_state`: a new state with new taxi and request records holding the same values. */
    method CopyState(state: State) returns (c: State)
      ensures fresh(c) && fresh(c.taxis)
      ensures c.View() == state.View()
    {
      var n := state.taxis.Length;
      var taxis := new Taxi[n];
      for i := 0 to n
        invariant forall j :: 0 <= j < i ==> taxis[j] == state.taxis[j]
      {
        var t := state.taxis[i];
        var copy := NewTaxi(t.id, t.position);
        copy := copy.(status := t.status, assignedRequest := t.assignedRequest,
                      destination := t.destination, remainingTravelTime := t.remainingTravelTime);
        taxis[i] := copy;
      }
      var requests: seq<Request> := [];
      for k := 0 to |state.requests|
        invariant requests == state.requests[..k]
      {
        var r := state.requests[k];
        var copy := NewRequest(r.id, r.origin, r.destination, r.arrivalTime);
        copy := copy.(waitingTime := r.waitingTime, isCancelled := r.isCancelled);
        requests := requests + [copy];
      }
      assert taxis[..] == state.taxis[..];
      assert requests == state.requests;
      c := new State(taxis, requests, state.time, state.trafficLevel);
    }

    /** `_process_taxi_actions`: each action in turn, on the taxi its id names. */
    method ProcessTaxiActions(s: State, actions: JointAction)
      requires ActionsInRange(actions, s.taxis.Length)
      modifies s.taxis
      ensures s.taxis[..] == ApplyActions(old(s.taxis[..]), actions)
    {
      ghost var orig := s.taxis[..];
      for k := 0 to |actions|
        invariant ActionsInRange(actions[..k], |orig|)
        invariant s.taxis[..] == ApplyActions(orig, actions[..k])
      {
        var action := actions[k];
        var taxi := s.taxis[action.taxiId];
        if action.kind.Assign? && taxi.status == Idle {
          var request := action.kind.request;
          if request.Some? && !request.value.isCancelled {
            s.taxis[action.taxiId] := taxi.(status := EnRouteToPickup, assignedRequest := request,
                                            destination := Some(request.value.origin),
                                            remainingTravelTime := Manhattan(taxi.position, request.value.origin));
          }
        } else if action.kind.Move? && taxi.status == Idle {
          var target := action.kind.target;
          if target.Some? {
            s.taxis[action.taxiId] := taxi.(destination := target,
                                            remainingTravelTime := Manhattan(taxi.position, target.value));
          }
        }
        assert actions[..k + 1][..k] == actions[..k];
      }
      assert actions[..|actions|] == actions;
    }

    /** `_update_taxi_positions`: every busy taxi in list order is picked up, dropped off or
        moved; pickups leave the request list and are logged, completions are logged. */
    method UpdateTaxiPositions(s: State, delay: nat -> real)
      requires AllDispatchable(s.taxis[..])
      modifies s.taxis, s`requests, this`lastPickedUpRequests, this`lastCompletedRides
      ensures s.taxis[..] == AdvanceAll(old(s.taxis[..]), s.trafficLevel, delay)
      ensures s.requests == WithoutIds(old(s.requests), SetOf(PickedUpIds(old(s.taxis[..]))))
      ensures lastPickedUpRequests == old(lastPickedUpRequests) + PickedUpIds(old(s.taxis[..]))
      ensures lastCompletedRides == old(lastCompletedRides) + CompletedIds(old(s.taxis[..]))
    {
      ghost var orig := s.taxis[..];
      ghost var origRequests := s.requests;
      WithoutNothing(origRequests);
      assert PickedUpIds(orig[..0]) == [] && SetOf([]) == {};
      AdvancedUpToEnds(orig, s.trafficLevel, delay);
      for i := 0 to s.taxis.Length
        invariant MovedThrough(s, i, orig, origRequests, delay, old(lastPickedUpRequests), old(lastCompletedRides))
      {
        MoveOne(s, i, orig, origRequests, delay, old(lastPickedUpRequests), old(lastCompletedRides));
      }
      assert orig[..|orig|] == orig;
    }

    /** The invariant of the movement loop: the first `i` taxis of `orig` have been advanced,
        and the request list and the two logs reflect exactly their pickups and completions. */
    ghost predicate MovedThrough(s: State, i: int, orig: seq<Taxi>, origRequests: seq<Request>, delay: nat -> real,
                                 picked0: seq<int>, completed0: seq<int>)
      reads this, s, s.taxis
    {
      && 0 <= i <= |orig| && AllDispatchable(orig)
      && s.taxis[..] == AdvancedUpTo(orig, i, s.trafficLevel, delay)
      && s.requests == WithoutIds(origRequests, SetOf(PickedUpIds(orig[..i])))
      && lastPickedUpRequests == picked0 + PickedUpIds(orig[..i])
      && lastCompletedRides == completed0 + CompletedIds(orig[..i])
    }

    /** The movement loop's request list and logs, one taxi further, on values. */
    static lemma MovedStep(orig: seq<Taxi>, i: int, origRequests: seq<Request>, picked0: seq<int>, completed0: seq<int>,
                           requests: seq<Request>, picked: seq<int>, completed: seq<int>)
      requires 0 <= i < |orig| && AllDispatchable(orig)
      requires requests == WithoutIds(origRequests, SetOf(PickedUpIds(orig[..i])))
      requires picked == picked0 + PickedUpIds(orig[..i]) && completed == completed0 + CompletedIds(orig[..i])
      ensures WithoutIds(origRequests, SetOf(PickedUpIds(orig[..i + 1])))
           == if PickedUp(orig[i]).Some? then WithoutId(requests, PickedUp(orig[i]).value) else requests
      ensures picked0 + PickedUpIds(orig[..i + 1]) == picked + AsSeq(PickedUp(orig[i]))
      ensures completed0 + CompletedIds(orig[..i + 1]) == completed + AsSeq(Completed(orig[i]))
    {
      PickedUpIdsSnoc(orig, i);
      PickupStep(origRequests, orig, i);
      AppendAssoc(picked0, PickedUpIds(orig[..i]), AsSeq(PickedUp(orig[i])));
      AppendAssoc(completed0, CompletedIds(orig[..i]), AsSeq(Completed(orig[i])));
    }

    /** One iteration of the movement loop keeps its invariant. */
    method MoveOne(s: State, i: int, ghost orig: seq<Taxi>, ghost origRequests: seq<Request>, delay: nat -> real,
                   ghost picked0: seq<int>, ghost completed0: seq<int>)
      requires i < |orig| && MovedThrough(s, i, orig, origRequests, delay, picked0, completed0)
      modifies s.taxis, s`requests, this`lastPickedUpRequests, this`lastCompletedRides
      ensures MovedThrough(s, i + 1, orig, origRequests, delay, picked0, completed0)
    {
      MovedStep(orig, i, origRequests, picked0, completed0, s.requests, lastPickedUpRequests, lastCompletedRides);
      AdvancedUpToStep(orig, i, s.trafficLevel, delay);
      assert s.taxis[i] == s.taxis[..][i] == orig[i];
      AdvanceTaxi(s, i, delay(i));
    }

    /** The body of the movement loop for the taxi at index `i`. */
    method AdvanceTaxi(s: State, i: int, u: real)
      requires 0 <= i < s.taxis.Length && Dispatchable(s.taxis[i])
      modifies s.taxis, s`requests, this`lastPickedUpRequests, this`lastCompletedRides
      ensures s.taxis[..] == old(s.taxis[..])[i := Advance(old(s.taxis[i]), Delayed(s.trafficLevel, u))]
      ensures s.requests == if PickedUp(old(s.taxis[i])).Some?
                            then WithoutId(old(s.requests), PickedUp(old(s.taxis[i])).value)
                            else old(s.requests)
      ensures lastPickedUpRequests == old(lastPickedUpRequests) + AsSeq(PickedUp(old(s.taxis[i])))
      ensures lastCompletedRides == old(lastCompletedRides) + AsSeq(Completed(old(s.taxis[i])))
    {
      var taxi := s.taxis[i];
      if taxi.status == Idle {
        return;
      }
      if taxi.remainingTravelTime <= 0 {
        if taxi.status == EnRouteToPickup {
          var request := taxi.assignedRequest.value;
          s.taxis[i] := taxi.(position := request.origin, status := Occupied,
                              destination := Some(request.destination),
                              remainingTravelTime := Manhattan(request.origin, request.destination));
          lastPickedUpRequests := lastPickedUpRequests + [request.id];
          s.requests := WithoutId(s.requests, request.id);
        } else if taxi.status == Occupied {
          var completedId: Option<int> := None;
          if taxi.assignedRequest.Some? {
            completedId := Some(taxi.assignedRequest.value.id);
          }
          s.taxis[i] := taxi.(position := taxi.destination.value, status := Idle, assignedRequest := None,
                              destination := None, remainingTravelTime := 0);
          if completedId.Some? {
            lastCompletedRides := lastCompletedRides + [completedId.value];
          }
        }
      } else {
        var moved := taxi.(position := MoveToward(taxi.position, taxi.destination.value),
                           remainingTravelTime := taxi.remainingTravelTime - 1);
        if u < s.trafficLevel * 0.1 {
          moved := moved.(remainingTravelTime := moved.remainingTravelTime + 1);
        }
        s.taxis[i] := moved;
      }
    }

    /** The Poisson mean of the arrivals at a tick: the request rate times the demand
        multiplier of the hour (the count itself is the length of the arrival draws). */
    function ArrivalRate(time: int): (rate: real)
      ensures requestRate >= 0.0 ==> 0.5 * requestRate <= rate <= 2.0 * requestRate
      ensures IsRushHour(time) ==> rate == 2.0 * requestRate
      ensures IsLateNight(time) ==> rate == 0.5 * requestRate
    {
      DayBands(time);
      requestRate * DemandMultiplier(time)
    }

    /** `_generate_new_requests`: one request per arrival draw, the destination drawn again
        while it equals the origin, ids taken from the counter. */
    method GenerateNewRequests(s: State, arrivals: seq<RequestDraw>)
      requires ArrivalsEnd(arrivals)
      modifies s`requests, this`requestCounter
      ensures s.taxis[..] == old(s.taxis[..])
      ensures s.requests == old(s.requests) + NewRequests(old(requestCounter), s.time, arrivals)
      ensures requestCounter == old(requestCounter) + |arrivals|
    {
      for k := 0 to |arrivals|
        invariant s.requests == old(s.requests) + NewRequests(old(requestCounter), s.time, arrivals[..k])
        invariant requestCounter == old(requestCounter) + k
      {
        var origin := arrivals[k].origin;
        var destination := RedrawDestination(arrivals[k]);
        NewRequestsSnoc(old(requestCounter), s.time, arrivals, k);
        var request := NewRequest(requestCounter, origin, destination, s.time);
        requestCounter := requestCounter + 1;
        s.requests := s.requests + [request];
      }
      assert arrivals[..|arrivals|] == arrivals;
    }

    /** The destination loop of `_generate_new_requests`: the candidates are drawn in turn
        until one differs from the origin. */
    method RedrawDestination(draw: RequestDraw) returns (destination: Pos)
      requires RedrawEnds(draw)
      ensures destination == FirstOffOrigin(draw.origin, draw.destinations)
      ensures destination != draw.origin && destination in draw.destinations
    {
      var candidates := draw.destinations;
      var j := 0;
      destination := candidates[0];
      while destination == draw.origin
        invariant 0 <= j < |candidates| && destination == candidates[j]
        invariant forall m :: 0 <= m < j ==> candidates[m] == draw.origin
        decreases |candidates| - j
      {
        j := j + 1;
        destination := candidates[j];
      }
      FirstOffOriginAt(draw.origin, candidates, j);
    }

    /** `_update_requests`: every request waits one tick more and may be cancelled by its
        draw, with a probability that grows with the wait; then the cancelled ones leave. */
    method UpdateRequests(s: State, cancel: nat -> real)
      modifies s`requests, this`lastCancelledRequests
      ensures s.taxis[..] == old(s.taxis[..])
      ensures s.requests == Active(AgeAll(old(s.requests), cancellationProb, cancel))
      ensures lastCancelledRequests == old(lastCancelledRequests) + FiredIds(old(s.requests), cancellationProb, cancel)
    {
      ghost var orig := s.requests;
      for k := 0 to |s.requests|
        invariant |s.requests| == |orig|
        invariant forall j :: 0 <= j < k ==> s.requests[j] == Age(orig[j], cancellationProb, cancel(j))
        invariant forall j :: k <= j < |orig| ==> s.requests[j] == orig[j]
        invariant lastCancelledRequests == old(lastCancelledRequests) + FiredIds(orig[..k], cancellationProb, cancel)
      {
        FiredIdsSnoc(orig, k, cancellationProb, cancel);
        var request := s.requests[k];
        request := request.(waitingTime := request.waitingTime + 1);
        var cancelProb := cancellationProb + (request.waitingTime as real) * 0.01;
        if cancelProb > 0.5 {
          cancelProb := 0.5;
        }
        if cancel(k) < cancelProb {
          request := request.(isCancelled := true);
          lastCancelledRequests := lastCancelledRequests + [request.id];
        }
        s.requests := s.requests[k := request];
      }
      assert orig[..|orig|] == orig;
      assert s.requests == AgeAll(orig, cancellationProb, cancel);
      s.requests := Active(s.requests);
    }

    /** `_update_traffic`: the hour's baseline plus the perturbation, clamped to [0.8, 2.0]. */
    method UpdateTraffic(s: State, change: real)
      modifies s`trafficLevel
      ensures s.taxis[..] == old(s.taxis[..])
      ensures s.trafficLevel == TrafficLevel(s.time, change)
    {
      var hour := ((s.time % 288) as real) / 12.0;
      var baseTraffic := 1.0;
      if (7.0 <= hour < 9.0) || (17.0 <= hour < 19.0) {
        baseTraffic := 1.5;
      } else if hour >= 23.0 || hour < 5.0 {
        baseTraffic := 0.8;
      }
      s.trafficLevel := MaxReal(0.8, MinReal(2.0, baseTraffic + change));
    }

    /** `step`: the input state is left as it was; the result is a new state obtained from a
        copy by the phases in order, and the event summary of the step is recorded. */
    method Step(state: State, actions: JointAction, draws: StepDraws) returns (next: State)
      requires state.Valid() && ActionsInRange(actions, state.taxis.Length) && ArrivalsEnd(draws.arrivals)
      modifies this
      ensures unchanged(state, state.taxis)
      ensures fresh(next) && fresh(next.taxis) && next.Valid()
      ensures var o := StepSpec(old(state.View()), actions, draws, old(requestCounter), cancellationProb);
        && next.View() == o.next && requestCounter == o.counter && lastStepInfo == Some(o.info)
        && lastCompletedRides == o.info.completedRides && lastCancelledRequests == o.info.cancelledRequests
        && lastPickedUpRequests == o.info.pickedUpRequests
    {
      ghost var s0 := state.View();
      ghost var counter0 := requestCounter;
      assert CanStep(s0, actions, draws);
      lastCompletedRides := [];
      lastCancelledRequests := [];
      lastPickedUpRequests := [];
      next := CopyState(state);
      ghost var acted, before := StepInPlace(next, actions, draws);
      StepOutcome(s0, actions, draws, counter0, cancellationProb, acted, AdvanceAll(acted, s0.trafficLevel, draws.delay), before);
    }

    /** `step` on the copy `s`: the phases, the clock and the event summary. */
    method StepInPlace(s: State, actions: JointAction, draws: StepDraws) returns (ghost acted: seq<Taxi>, ghost before: seq<Request>)
      requires CanStep(s.View(), actions, draws)
      requires lastCompletedRides == [] && lastCancelledRequests == [] && lastPickedUpRequests == []
      modifies s, s.taxis, this`requestCounter, this`lastCompletedRides, this`lastCancelledRequests, this`lastPickedUpRequests,
               this`lastStepInfo
      ensures acted == Acted(old(s.View()), actions)
      ensures before == WithoutIds(old(s.requests), SetOf(PickedUpIds(acted))) +
                        NewRequests(old(requestCounter), old(s.time), draws.arrivals)
      ensures var moved := AdvanceAll(acted, old(s.trafficLevel), draws.delay);
        && s.taxis == old(s.taxis) && s.Valid()
        && s.View() == Snapshot(moved, Active(AgeAll(before, cancellationProb, draws.cancel)), old(s.time) + 1,
                                TrafficLevel(old(s.time), draws.trafficChange))
        && requestCounter == old(requestCounter) + |draws.arrivals|
        && lastStepInfo == Some(StepInfo(CompletedIds(acted), FiredIds(before, cancellationProb, draws.cancel),
                                         PickedUpIds(acted), MovingIds(moved), IdleIds(moved)))
        && lastCompletedRides == CompletedIds(acted) && lastPickedUpRequests == PickedUpIds(acted)
        && lastCancelledRequests == FiredIds(before, cancellationProb, draws.cancel)
    {
      ghost var s0 := s.View();
      acted, before := RunPhases(s, actions, draws);
      MovedWellFormed(s0, actions, draws, acted, s.taxis[..]);
      lastStepInfo := Some(StepInfo(lastCompletedRides, lastCancelledRequests, lastPickedUpRequests,
                                    MovingIds(s.taxis[..]), IdleIds(s.taxis[..])));
    }

    /** The body of `step` after the copy: the phases and the clock, on `s` in place.
        `acted` is the taxi list after the action phase, `before` the request list the
        ageing phase starts from. */
    method RunPhases(s: State, actions: JointAction, draws: StepDraws) returns (ghost acted: seq<Taxi>, ghost before: seq<Request>)
      requires CanStep(s.View(), actions, draws)
      requires lastCompletedRides == [] && lastCancelledRequests == [] && lastPickedUpRequests == []
      modifies s, s.taxis, this`requestCounter, this`lastCompletedRides, this`lastCancelledRequests, this`lastPickedUpRequests
      ensures acted == Acted(old(s.View()), actions)
      ensures before == WithoutIds(old(s.requests), SetOf(PickedUpIds(acted))) +
                        NewRequests(old(requestCounter), old(s.time), draws.arrivals)
      ensures s.taxis == old(s.taxis) && s.taxis[..] == AdvanceAll(acted, old(s.trafficLevel), draws.delay)
      ensures s.requests == Active(AgeAll(before, cancellationProb, draws.cancel))
      ensures s.time == old(s.time) + 1 && s.trafficLevel == TrafficLevel(old(s.time), draws.trafficChange)
      ensures requestCounter == old(requestCounter) + |draws.arrivals|
      ensures lastCompletedRides == CompletedIds(acted) && lastPickedUpRequests == PickedUpIds(acted)
      ensures lastCancelledRequests == FiredIds(before, cancellationProb, draws.cancel)
    {
      acted := ActAndMove(s, actions, draws.delay);
      before := GenerateAndAge(s, draws);
    }

    /** The generation, ageing and traffic phases, then the clock. */
    method GenerateAndAge(s: State, draws: StepDraws) returns (ghost before: seq<Request>)
      requires ArrivalsEnd(draws.arrivals) && lastCancelledRequests == []
      modifies s`requests, s`trafficLevel, s`time, this`requestCounter, this`lastCancelledRequests
      ensures before == old(s.requests) + NewRequests(old(requestCounter), old(s.time), draws.arrivals)
      ensures s.taxis[..] == old(s.taxis[..])
      ensures s.requests == Active(AgeAll(before, cancellationProb, draws.cancel))
      ensures s.trafficLevel == TrafficLevel(old(s.time), draws.trafficChange) && s.time == old(s.time) + 1
      ensures requestCounter == old(requestCounter) + |draws.arrivals|
      ensures lastCancelledRequests == FiredIds(before, cancellationProb, draws.cancel)
    {
      GenerateNewRequests(s, draws.arrivals);
      before := s.requests;
      UpdateRequests(s, draws.cancel);
      UpdateTraffic(s, draws.trafficChange);
      s.time := s.time + 1;
    }

    /** The action and movement phases. */
    method ActAndMove(s: State, actions: JointAction, delay: nat -> real) returns (ghost acted: seq<Taxi>)
      requires WellFormed(s.taxis[..]) && ActionsInRange(actions, s.taxis.Length)
      requires lastCompletedRides == [] && lastPickedUpRequests == []
      modifies s.taxis, s`requests, this`lastCompletedRides, this`lastPickedUpRequests
      ensures acted == Acted(old(s.View()), actions)
      ensures s.taxis[..] == AdvanceAll(acted, s.trafficLevel, delay)
      ensures s.requests == WithoutIds(old(s.requests), SetOf(PickedUpIds(acted)))
      ensures lastCompletedRides == CompletedIds(acted) && lastPickedUpRequests == PickedUpIds(acted)
    {
      ProcessTaxiActions(s, actions);
      acted := s.taxis[..];
      assert acted == Acted(old(s.View()), actions);
      UpdateTaxiPositions(s, delay);
    }

    /** `get_observation`: the state is only read; each taxi's position may slip by one
        step, each request may go unseen. */
    method GetObservation(state: State, draws: ObservationDraws) returns (obs: Observation)
      ensures obs == Observe(state.View(), gridSize, draws)
    {
      var trafficEstimate := state.trafficLevel + draws.trafficNoise;
      var taxis: seq<TaxiView> := [];
      for i := 0 to state.taxis.Length
        invariant taxis == ObservedTaxis(state.taxis[..i], gridSize, draws)
      {
        var taxi := state.taxis[i];
        var noisyPosition := taxi.position;
        if draws.slip(i) < 0.1 {
          var noise := Offset(draws.direction(i));
          noisyPosition := Pos(Max(0, Min(gridSize - 1, taxi.position.x + noise.x)),
                               Max(0, Min(gridSize - 1, taxi.position.y + noise.y)));
        }
        taxis := taxis + [TaxiView(taxi.id, noisyPosition, taxi.status)];
      }
      assert state.taxis[..state.taxis.Length] == state.taxis[..];
      var requests: seq<RequestView> := [];
      for k := 0 to |state.requests|
        invariant requests == SeenRequests(state.requests[..k], draws.seen)
      {
        assert state.requests[..k + 1][..k] == state.requests[..k];
        if draws.seen(k) < 0.9 {
          var request := state.requests[k];
          requests := requests + [RequestView(request.id, request.origin, request.destination, request.waitingTime)];
        }
      }
      assert state.requests[..|state.requests|] == state.requests;
      obs := Observation(state.time, taxis, requests, trafficEstimate);
    }

    /** `get_reward`: the weighted count of the last step's events and of the waiting time
        of the requests of `state`. */
    function GetReward(state: State): (r: real)
      reads this, state
      ensures lastStepInfo == None ==> r == 0.0 - WaitPenaltyPerStep * (TotalWaiting(state.requests) as real)
      ensures lastStepInfo != None ==> r <= ProfitPerRide * (|lastStepInfo.value.completedRides| as real)
                                           - WaitPenaltyPerStep * (TotalWaiting(state.requests) as real)
    {
      Reward(LastStepInfo(), state.requests)
    }

    /** `get_last_step_info`: the summary of the last step, or an empty one before any step. */
    function LastStepInfo(): (info: StepInfo)
      reads this
      ensures lastStepInfo == None ==> info == EmptyInfo
      ensures lastStepInfo != None ==> info == lastStepInfo.value
    {
      lastStepInfo.GetOr(EmptyInfo)
    }
  }

  /** `StepSpec` assembled from the values the phases compute one after another. */
  lemma StepOutcome(s: Snapshot, actions: JointAction, d: StepDraws, counter: int, p: real,
                    acted: seq<Taxi>, moved: seq<Taxi>, before: seq<Request>)
    requires CanStep(s, actions, d)
    requires acted == Acted(s, actions)
    requires moved == AdvanceAll(acted, s.trafficLevel, d.delay)
    requires before == WithoutIds(s.requests, SetOf(PickedUpIds(acted))) + NewRequests(counter, s.time, d.arrivals)
    ensures StepSpec(s, actions, d, counter, p) ==
      Outcome(Snapshot(moved, Active(AgeAll(before, p, d.cancel)), s.time + 1, TrafficLevel(s.time, d.trafficChange)),
              counter + |d.arrivals|,
              StepInfo(CompletedIds(acted), FiredIds(before, p, d.cancel), PickedUpIds(acted),
                       MovingIds(moved), IdleIds(moved)))
  {
    var o := StepSpec(s, actions, d, counter, p);
    assert o.next.taxis == moved;
    assert o.next.requests == Active(AgeAll(before, p, d.cancel));
    assert o.info.cancelledRequests == FiredIds(before, p, d.cancel);
  }

  /** The taxis after the movement phase are well formed again. */
  lemma MovedWellFormed(s: Snapshot, actions: JointAction, d: StepDraws, acted: seq<Taxi>, moved: seq<Taxi>)
    requires CanStep(s, actions, d)
    requires acted == Acted(s, actions)
    requires moved == AdvanceAll(acted, s.trafficLevel, d.delay)
    ensures WellFormed(moved)
  {
    ApplyActionsFrame(s.taxis, actions);
    forall i | 0 <= i < |moved|
      ensures moved[i].id == i && Dispatchable(moved[i])
    {
      assert moved[i] == Advance(acted[i], Delayed(s.trafficLevel, d.delay(i)));
    }
  }
}
