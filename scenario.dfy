/** The state-transition scenario of test_environment.py, stated on `StepSpec`: a 5 x 5
    grid, taxi 0 at (0, 0), taxi 1 at (4, 4), one request from (2, 2) to (3, 3), and no
    delay, arrival or cancellation draw firing. */
module Scenario {
  import opened Wrappers
  import opened Grid
  import opened Domain
  import opened Transition
  import opened StepLemmas

  const Rider := NewRequest(0, Pos(2, 2), Pos(3, 3), 0)

  /** Draws under which nothing random happens: no delay, no arrival, no cancellation. */
  const Calm := StepDraws(i => 1.0, [], k => 1.0, 0.0)

  const Start := Snapshot([NewTaxi(0, Pos(0, 0)), NewTaxi(1, Pos(4, 4))], [Rider], 0, 1.0)

  const AssignRider: JointAction := [Action(0, Assign(Some(Rider))), Action(1, Stay)]

  const Waiting: JointAction := [Action(0, Stay), Action(1, Stay)]

  predicate Calmable(s: Snapshot) {
    |s.taxis| == 2 && WellFormed(s.taxis) && s.trafficLevel <= 2.0
  }

  /** One calm tick in which every taxi stays put. */
  function Tick(s: Snapshot): (r: Snapshot)
    requires Calmable(s)
    ensures Calmable(r)
  {
    StepKeepsWellFormed(s, Waiting, Calm);
    StepSpec(s, Waiting, Calm, 1, 0.05).next
  }

  /** A calm tick leaves an idle taxi alone and takes a busy one through `Advance`. */
  lemma TickTaxi(s: Snapshot, i: int)
    requires Calmable(s) && 0 <= i < 2
    ensures Tick(s).taxis[i] == Advance(s.taxis[i], false)
  {
    ApplyOnePerTaxi(s.taxis, Waiting);
    var acted := Acted(s, Waiting);
    assert acted[i] == Act(s.taxis[i], Stay) == s.taxis[i];
    assert !Delayed(s.trafficLevel, Calm.delay(i));
    assert NextTaxis(s, Waiting, Calm)[i] == Advance(acted[i], false);
  }

  /** Under calm draws, when nobody is picked up, every active request just waits one tick more. */
  lemma CalmRequests(s: Snapshot, actions: JointAction, counter: int)
    requires CanStep(s, actions, Calm) && PickedUpIds(Acted(s, actions)) == []
    requires forall k :: 0 <= k < |s.requests| ==> !s.requests[k].isCancelled
    ensures NextRequests(s, actions, Calm, counter, 0.05) == Waited(s.requests)
  {
    WithoutNothing(s.requests);
    var pending := BeforeAgeing(s, actions, Calm, counter);
    assert SetOf([]) == {};
    assert NewRequests(counter, s.time, []) == [];
    assert pending == s.requests;
    var aged := AgeAll(pending, 0.05, Calm.cancel);
    forall k | 0 <= k < |aged|
      ensures !aged[k].isCancelled && aged[k] == Waited(s.requests)[k]
    {
      HighDrawNeverCancels(0.05, pending[k].waitingTime + 1, Calm.cancel(k));
    }
    AllActive(aged);
  }

  function Waited(rs: seq<Request>): (r: seq<Request>)
    ensures |r| == |rs|
  {
    seq(|rs|, k requires 0 <= k < |rs| => rs[k].(waitingTime := rs[k].waitingTime + 1))
  }

  lemma {:induction false} NoPickups(taxis: seq<Taxi>)
    requires AllDispatchable(taxis)
    requires forall i :: 0 <= i < |taxis| ==> PickedUp(taxis[i]).None?
    ensures PickedUpIds(taxis) == []
    decreases |taxis|
  {
    if taxis != [] {
      NoPickups(taxis[..|taxis| - 1]);
    }
  }

  lemma {:induction false} AllActive(rs: seq<Request>)
    requires forall k :: 0 <= k < |rs| ==> !rs[k].isCancelled
    ensures Active(rs) == rs
    decreases |rs|
  {
    if rs != [] {
      AllActive(rs[1..]);
      assert [rs[0]] + rs[1..] == rs;
    }
  }

  /** A calm tick in which nobody is picked up: every taxi goes through `Advance` undelayed
      and every request waits one tick more. */
  lemma QuietTick(s: Snapshot)
    requires Calmable(s)
    requires forall i :: 0 <= i < 2 ==> PickedUp(s.taxis[i]).None?
    requires forall k :: 0 <= k < |s.requests| ==> !s.requests[k].isCancelled
    ensures Tick(s).taxis == [Advance(s.taxis[0], false), Advance(s.taxis[1], false)]
    ensures Tick(s).requests == Waited(s.requests)
  {
    TickTaxi(s, 0);
    TickTaxi(s, 1);
    QuietRequests(s);
  }

  lemma QuietRequests(s: Snapshot)
    requires Calmable(s)
    requires forall i :: 0 <= i < 2 ==> PickedUp(s.taxis[i]).None?
    requires forall k :: 0 <= k < |s.requests| ==> !s.requests[k].isCancelled
    ensures Tick(s).requests == Waited(s.requests)
  {
    ApplyOnePerTaxi(s.taxis, Waiting);
    assert Acted(s, Waiting) == s.taxis;
    NoPickups(s.taxis);
    CalmRequests(s, Waiting, 1);
  }

  /** Taxi 0 on its way to the request, `k` cells before its origin... */
  const Bound := Taxi(0, Pos(0, 0), EnRouteToPickup, Some(Rider), Some(Pos(2, 2)), 4)

  const Parked := NewTaxi(1, Pos(4, 4))

  /** The assignment is effective: taxi 0 is bound for the rider, taxi 1 stays parked. */
  lemma FirstActed()
    ensures CanStep(Start, AssignRider, Calm) && Acted(Start, AssignRider) == [Bound, Parked]
  {
    ApplyOnePerTaxi(Start.taxis, AssignRider);
  }

  /** The assignment sets the travel time to the distance 4, and the same tick already
      moves the taxi one cell. */
  lemma FirstMoved()
    ensures CanStep(Start, AssignRider, Calm)
    ensures NextTaxis(Start, AssignRider, Calm) == [Bound.(position := Pos(1, 0), remainingTravelTime := 3), Parked]
  {
    FirstActed();
    var moved := NextTaxis(Start, AssignRider, Calm);
    assert !Delayed(Start.trafficLevel, Calm.delay(0)) && !Delayed(Start.trafficLevel, Calm.delay(1));
    assert moved[0] == Advance(Bound, false);
    assert moved[1] == Advance(Parked, false);
  }

  /** Nobody is picked up on the first tick, so the rider just waits. */
  lemma FirstWaits()
    ensures CanStep(Start, AssignRider, Calm)
    ensures NextRequests(Start, AssignRider, Calm, 0, 0.05) == [Rider.(waitingTime := 1)]
  {
    FirstActed();
    NoPickups([Bound, Parked]);
    CalmRequests(Start, AssignRider, 0);
  }

  /** The state after the first tick. */
  lemma FirstTick()
    ensures CanStep(Start, AssignRider, Calm)
    ensures var s1 := StepSpec(Start, AssignRider, Calm, 0, 0.05).next;
      && Calmable(s1)
      && s1.taxis == [Bound.(position := Pos(1, 0), remainingTravelTime := 3), Parked]
      && s1.requests == [Rider.(waitingTime := 1)]
  {
    FirstMoved();
    FirstWaits();
    StepKeepsWellFormed(Start, AssignRider, Calm);
  }

  /** One quiet tick of the approach: one cell closer to (2, 2), one tick less to travel. */
  lemma ApproachTick(s: Snapshot, p: Pos, r: int, w: int)
    requires Calmable(s) && r > 0
    requires s.taxis == [Bound.(position := p, remainingTravelTime := r), Parked]
    requires s.requests == [Rider.(waitingTime := w)]
    ensures Tick(s).taxis == [Bound.(position := MoveToward(p, Pos(2, 2)), remainingTravelTime := r - 1), Parked]
    ensures Tick(s).requests == [Rider.(waitingTime := w + 1)]
  {
    QuietTick(s);
  }

  /** Three quiet ticks bring the taxi onto the origin with nothing left to travel; it is
      still en route and the request is still active. */
  lemma ApproachTicks(s1: Snapshot)
    requires Calmable(s1)
    requires s1.taxis == [Bound.(position := Pos(1, 0), remainingTravelTime := 3), Parked]
    requires s1.requests == [Rider.(waitingTime := 1)]
    ensures Tick(Tick(Tick(s1))).taxis == [Bound.(position := Pos(2, 2), remainingTravelTime := 0), Parked]
    ensures Tick(Tick(Tick(s1))).requests == [Rider.(waitingTime := 4)]
  {
    ApproachTick(s1, Pos(1, 0), 3, 1);
    ApproachTick(Tick(s1), Pos(2, 0), 2, 2);
    ApproachTick(Tick(Tick(s1)), Pos(2, 1), 1, 3);
  }

  /** On the next tick the arrival is seen: the taxi is occupied at (2, 2), 2 ticks from
      (3, 3), and the request has left the active list. */
  lemma PickupTick(s4: Snapshot)
    requires Calmable(s4)
    requires s4.taxis == [Bound.(position := Pos(2, 2), remainingTravelTime := 0), Parked]
    requires s4.requests == [Rider.(waitingTime := 4)]
    ensures Tick(s4).taxis[0] == Bound.(position := Pos(2, 2), status := Occupied, destination := Some(Pos(3, 3)),
                                        remainingTravelTime := 2)
    ensures Tick(s4).requests == []
  {
    TickTaxi(s4, 0);
    PickupRequests(s4);
  }

  lemma PickupRequests(s4: Snapshot)
    requires Calmable(s4)
    requires s4.taxis == [Bound.(position := Pos(2, 2), remainingTravelTime := 0), Parked]
    requires s4.requests == [Rider.(waitingTime := 4)]
    ensures Tick(s4).requests == []
  {
    ApplyOnePerTaxi(s4.taxis, Waiting);
    assert Acted(s4, Waiting) == s4.taxis;
    assert PickedUpIds(s4.taxis) == [0] by {
      assert PickedUp(s4.taxis[0]) == Some(0) && PickedUp(Parked) == None;
      assert s4.taxis[..1] == [s4.taxis[0]];
      assert [s4.taxis[0]][..0] == [];
      assert PickedUpIds([s4.taxis[0]]) == [0];
    }
    assert SetOf([0]) == {0};
    assert NewRequests(1, s4.time, []) == [];
    assert BeforeAgeing(s4, Waiting, Calm, 1) == [];
  }

  /** The whole scenario: picked up on the fifth tick after the assignment, not the fourth,
      because arrival is checked before moving. */
  lemma AssignmentScenario()
    ensures CanStep(Start, AssignRider, Calm)
    ensures var s1 := StepSpec(Start, AssignRider, Calm, 0, 0.05).next;
      && Calmable(s1)
      && s1.taxis[0].status == EnRouteToPickup && s1.taxis[0].remainingTravelTime == 3
      && var s4 := Tick(Tick(Tick(s1)));
      && s4.taxis[0].status == EnRouteToPickup && s4.taxis[0].position == Pos(2, 2)
      && s4.taxis[0].remainingTravelTime == 0 && |s4.requests| == 1
      && var s5 := Tick(s4);
      && s5.taxis[0].status == Occupied && s5.taxis[0].position == Pos(2, 2)
      && s5.taxis[0].remainingTravelTime == 2 && s5.requests == []
  {
    FirstTick();
    var s1 := StepSpec(Start, AssignRider, Calm, 0, 0.05).next;
    ApproachTicks(s1);
    PickupTick(Tick(Tick(Tick(s1))));
  }
}
