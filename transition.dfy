/** The transition engine of `Environment.step` stated on values, phase by phase: the
    imperative methods of module Simulation are proved to compute exactly these functions,
    and the lemmas here state what a step promises. */
module Transition {
  import opened Wrappers
  import opened Grid
  import opened Domain

  // ---------------------------------------------------------------------------------
  // Phase 1: taxi actions

  /** The effect of one action on its taxi. Only an idle taxi reacts: `assign` with a
      request that is not cancelled sends it to the pickup, `move` with a cell sets a
      destination and a travel time but leaves it idle. */
  function Act(t: Taxi, kind: ActionKind): (r: Taxi)
    ensures t.status != Idle ==> r == t
    ensures r.id == t.id && r.position == t.position
    ensures r.status == EnRouteToPickup <==>
      (t.status == EnRouteToPickup ||
       (t.status == Idle && kind.Assign? && kind.request.Some? && !kind.request.value.isCancelled))
    ensures r.status == EnRouteToPickup && t.status == Idle ==>
      var q := kind.request.value;
      r.assignedRequest == Some(q) && r.destination == Some(q.origin) &&
      r.remainingTravelTime == Manhattan(t.position, q.origin)
    ensures r.status == Idle && r != t ==>
      kind.Move? && kind.target.Some? && r.destination == kind.target &&
      r.remainingTravelTime == Manhattan(t.position, kind.target.value)
  {
    match kind
    case Assign(req) =>
      if t.status == Idle && req.Some? && !req.value.isCancelled then
        t.(status := EnRouteToPickup, assignedRequest := req, destination := Some(req.value.origin),
           remainingTravelTime := Manhattan(t.position, req.value.origin))
      else t
    case Move(target) =>
      if t.status == Idle && target.Some? then
        t.(destination := target, remainingTravelTime := Manhattan(t.position, target.value))
      else t
    case Stay => t
  }

  function ApplyAction(taxis: seq<Taxi>, a: Action): (r: seq<Taxi>)
    requires 0 <= a.taxiId < |taxis|
  {
    taxis[a.taxiId := Act(taxis[a.taxiId], a.kind)]
  }

  /** `_process_taxi_actions`: the actions applied one after another, in list order. */
  function ApplyActions(taxis: seq<Taxi>, actions: JointAction): (r: seq<Taxi>)
    requires ActionsInRange(actions, |taxis|)
    ensures |r| == |taxis|
    decreases |actions|
  {
    if actions == [] then taxis
    else ApplyAction(ApplyActions(taxis, actions[..|actions| - 1]), actions[|actions| - 1])
  }

  /** Actions never change a busy taxi, nor any taxi's id or position, and they keep every
      taxi dispatchable and on its route. */
  lemma {:induction false} ApplyActionsFrame(taxis: seq<Taxi>, actions: JointAction)
    requires ActionsInRange(actions, |taxis|)
    ensures var r := ApplyActions(taxis, actions);
      forall i :: 0 <= i < |taxis| ==>
        && r[i].id == taxis[i].id && r[i].position == taxis[i].position
        && (taxis[i].status != Idle ==> r[i] == taxis[i])
        && (r[i].status != Idle ==> taxis[i].status == Idle || r[i] == taxis[i])
        && (Dispatchable(taxis[i]) ==> Dispatchable(r[i]))
        && (OnRoute(taxis[i]) ==> OnRoute(r[i]))
        && (r[i].status != Occupied || r[i] == taxis[i])
    decreases |actions|
  {
    if actions != [] {
      ApplyActionsFrame(taxis, actions[..|actions| - 1]);
    }
  }

  /** With exactly one action per taxi, at the index of its id (the shape every policy
      produces), each taxi gets exactly the effect of its own action. */
  lemma ApplyOnePerTaxi(taxis: seq<Taxi>, actions: JointAction)
    requires |actions| == |taxis|
    requires forall i :: 0 <= i < |actions| ==> actions[i].taxiId == i
    ensures ActionsInRange(actions, |taxis|)
    ensures forall i :: 0 <= i < |taxis| ==> ApplyActions(taxis, actions)[i] == Act(taxis[i], actions[i].kind)
  {
    ApplyPrefix(taxis, actions, |actions|);
  }

  lemma {:induction false} ApplyPrefix(taxis: seq<Taxi>, actions: JointAction, n: nat)
    requires n <= |actions| == |taxis|
    requires forall i :: 0 <= i < |actions| ==> actions[i].taxiId == i
    ensures ActionsInRange(actions[..n], |taxis|)
    ensures forall i :: 0 <= i < |taxis| ==>
      ApplyActions(taxis, actions[..n])[i] == if i < n then Act(taxis[i], actions[i].kind) else taxis[i]
    decreases n
  {
    if n > 0 {
      ApplyPrefix(taxis, actions, n - 1);
      assert actions[..n][..n - 1] == actions[..n - 1];
    }
  }

  // ---------------------------------------------------------------------------------
  // Phase 2: taxi movement, pickup and drop-off

  /** `random.random() < traffic_level * 0.1`: the draw `u` delays a moving taxi. */
  predicate Delayed(trafficLevel: real, u: real) {
    u < trafficLevel * 0.1
  }

  /** One taxi's movement phase. Arrival is checked before moving: a busy taxi whose
      remaining time is already at most 0 is picked up or dropped off; otherwise it takes
      one step and its remaining time drops by 1, unless the delay draw fires. */
  function Advance(t: Taxi, delayed: bool): (r: Taxi)
    requires Dispatchable(t)
    ensures r.id == t.id && Dispatchable(r)
    ensures t.status == Idle ==> r == t
    ensures t.status != Idle && t.remainingTravelTime > 0 ==>
      && r.status == t.status && r.assignedRequest == t.assignedRequest && r.destination == t.destination
      && Manhattan(t.position, r.position) <= 1
      && (t.position != t.destination.value ==>
            Manhattan(r.position, t.destination.value) == Manhattan(t.position, t.destination.value) - 1)
      && r.remainingTravelTime == if delayed then t.remainingTravelTime else t.remainingTravelTime - 1
    ensures t.status == EnRouteToPickup && t.remainingTravelTime <= 0 ==>
      var q := t.assignedRequest.value;
      && r.status == Occupied && r.position == q.origin && r.assignedRequest == t.assignedRequest
      && r.destination == Some(q.destination) && r.remainingTravelTime == Manhattan(q.origin, q.destination)
    ensures t.status == Occupied && t.remainingTravelTime <= 0 ==>
      && r.status == Idle && r.position == t.destination.value
      && r.assignedRequest == None && r.destination == None && r.remainingTravelTime == 0
    ensures OnRoute(t) ==> OnRoute(r)
  {
    if t.status == Idle then t
    else if t.remainingTravelTime <= 0 then
      if t.status == EnRouteToPickup then
        var q := t.assignedRequest.value;
        t.(position := q.origin, status := Occupied, destination := Some(q.destination),
           remainingTravelTime := Manhattan(q.origin, q.destination))
      else
        t.(position := t.destination.value, status := Idle, assignedRequest := None,
           destination := None, remainingTravelTime := 0)
    else
      t.(position := MoveToward(t.position, t.destination.value),
         remainingTravelTime := t.remainingTravelTime - 1 + (if delayed then 1 else 0))
  }

  /** The id of the request a taxi picks up in its movement phase, if any. */
  function PickedUp(t: Taxi): Option<int>
    requires Dispatchable(t)
  {
    if t.status == EnRouteToPickup && t.remainingTravelTime <= 0 then Some(t.assignedRequest.value.id)
    else None
  }

  /** The id of the request whose ride a taxi completes in its movement phase, if any. */
  function Completed(t: Taxi): Option<int> {
    if t.status == Occupied && t.remainingTravelTime <= 0 && t.assignedRequest.Some? then
      Some(t.assignedRequest.value.id)
    else None
  }

  predicate AllDispatchable(taxis: seq<Taxi>) {
    forall i :: 0 <= i < |taxis| ==> Dispatchable(taxis[i])
  }

  function AsSeq(o: Option<int>): seq<int> {
    if o.Some? then [o.value] else []
  }

  /** The requests picked up by the taxis, in taxi order (`last_picked_up_requests`). */
  function PickedUpIds(taxis: seq<Taxi>): (ids: seq<int>)
    requires AllDispatchable(taxis)
    ensures |ids| <= |taxis|
  {
    if taxis == [] then [] else PickedUpIds(taxis[..|taxis| - 1]) + AsSeq(PickedUp(taxis[|taxis| - 1]))
  }

  /** An id is in the pickup log iff some taxi picks up the request with that id. */
  lemma {:induction false} PickedUpIdsMembers(taxis: seq<Taxi>)
    requires AllDispatchable(taxis)
    ensures forall x :: x in PickedUpIds(taxis) <==> exists k :: 0 <= k < |taxis| && PickedUp(taxis[k]) == Some(x)
    decreases |taxis|
  {
    if taxis != [] {
      var n := |taxis| - 1;
      PickedUpIdsMembers(taxis[..n]);
      forall x | x in PickedUpIds(taxis)
        ensures exists k :: 0 <= k < |taxis| && PickedUp(taxis[k]) == Some(x)
      {
        if x in PickedUpIds(taxis[..n]) {
          var k :| 0 <= k < n && PickedUp(taxis[..n][k]) == Some(x);
          assert taxis[..n][k] == taxis[k];
        } else {
          assert PickedUp(taxis[n]) == Some(x);
        }
      }
      forall x, k | 0 <= k < |taxis| && PickedUp(taxis[k]) == Some(x)
        ensures x in PickedUpIds(taxis)
      {
        if k < n {
          assert taxis[..n][k] == taxis[k];
        }
      }
    }
  }

  /** The rides completed by the taxis, in taxi order (`last_completed_rides`). */
  function CompletedIds(taxis: seq<Taxi>): (ids: seq<int>)
    ensures |ids| <= |taxis|
  {
    if taxis == [] then [] else CompletedIds(taxis[..|taxis| - 1]) + AsSeq(Completed(taxis[|taxis| - 1]))
  }

  /** An id is in the completion log iff some taxi completes the ride of the request with that id. */
  lemma {:induction false} CompletedIdsMembers(taxis: seq<Taxi>)
    ensures forall x :: x in CompletedIds(taxis) <==> exists k :: 0 <= k < |taxis| && Completed(taxis[k]) == Some(x)
    decreases |taxis|
  {
    if taxis != [] {
      var n := |taxis| - 1;
      CompletedIdsMembers(taxis[..n]);
      forall x | x in CompletedIds(taxis)
        ensures exists k :: 0 <= k < |taxis| && Completed(taxis[k]) == Some(x)
      {
        if x in CompletedIds(taxis[..n]) {
          var k :| 0 <= k < n && Completed(taxis[..n][k]) == Some(x);
          assert taxis[..n][k] == taxis[k];
        } else {
          assert Completed(taxis[n]) == Some(x);
        }
      }
      forall x, k | 0 <= k < |taxis| && Completed(taxis[k]) == Some(x)
        ensures x in CompletedIds(taxis)
      {
        if k < n {
          assert taxis[..n][k] == taxis[k];
        }
      }
    }
  }

  /** `[r for r in requests if r.id != id]`. */
  function WithoutId(rs: seq<Request>, id: int): (r: seq<Request>)
    ensures |r| <= |rs|
  {
    if rs == [] then []
    else (if rs[0].id != id then [rs[0]] else []) + WithoutId(rs[1..], id)
  }

  /** The requests kept by `WithoutId` are exactly those of another id. */
  lemma {:induction false} WithoutIdMembers(rs: seq<Request>, id: int)
    ensures forall q :: q in WithoutId(rs, id) <==> q in rs && q.id != id
    decreases |rs|
  {
    if rs != [] {
      WithoutIdMembers(rs[1..], id);
      assert rs == [rs[0]] + rs[1..];
    }
  }

  /** `[r for r in requests if r.id not in ids]`. */
  function WithoutIds(rs: seq<Request>, ids: set<int>): (r: seq<Request>)
    ensures |r| <= |rs|
  {
    if rs == [] then []
    else (if rs[0].id !in ids then [rs[0]] else []) + WithoutIds(rs[1..], ids)
  }

  /** The requests kept by `WithoutIds` are exactly those whose id is not listed. */
  lemma {:induction false} WithoutIdsMembers(rs: seq<Request>, ids: set<int>)
    ensures forall q :: q in WithoutIds(rs, ids) <==> q in rs && q.id !in ids
    decreases |rs|
  {
    if rs != [] {
      WithoutIdsMembers(rs[1..], ids);
      assert rs == [rs[0]] + rs[1..];
    }
  }

  /** Removing ids one filter at a time is removing them all at once. */
  lemma {:induction false} WithoutIdStep(rs: seq<Request>, ids: set<int>, id: int)
    ensures WithoutId(WithoutIds(rs, ids), id) == WithoutIds(rs, ids + {id})
    decreases |rs|
  {
    if rs != [] {
      WithoutIdStep(rs[1..], ids, id);
      var tail := WithoutIds(rs[1..], ids);
      if rs[0].id !in ids {
        assert WithoutIds(rs, ids) == [rs[0]] + tail;
        assert ([rs[0]] + tail)[1..] == tail;
      } else {
        assert WithoutIds(rs, ids) == tail;
      }
    }
  }

  lemma {:induction false} WithoutNothing(rs: seq<Request>)
    ensures WithoutIds(rs, {}) == rs
    decreases |rs|
  {
    if rs != [] {
      WithoutNothing(rs[1..]);
      assert [rs[0]] + rs[1..] == rs;
    }
  }

  function SetOf(s: seq<int>): set<int> {
    set k | k in s
  }

  /** The taxi list after the movement phase. */
  function AdvanceAll(taxis: seq<Taxi>, trafficLevel: real, delay: nat -> real): (r: seq<Taxi>)
    requires AllDispatchable(taxis)
    ensures |r| == |taxis|
  {
    seq(|taxis|, i requires 0 <= i < |taxis| => Advance(taxis[i], Delayed(trafficLevel, delay(i))))
  }

  // ---------------------------------------------------------------------------------
  // Phase 3: request generation

  /** The destination the redraw loop settles on: the first candidate off the origin. */
  function FirstOffOrigin(origin: Pos, candidates: seq<Pos>): (p: Pos)
    requires exists k :: 0 <= k < |candidates| && candidates[k] != origin
    ensures p != origin && p in candidates
    ensures exists k :: 0 <= k < |candidates| && candidates[k] == p && forall j :: 0 <= j < k ==> candidates[j] == origin
  {
    if candidates[0] != origin then candidates[0] else FirstOffOrigin(origin, candidates[1..])
  }

  /** The requests generated from the draws: consecutive ids from `counter`, all arriving now. */
  function NewRequests(counter: int, time: int, arrivals: seq<RequestDraw>): (rs: seq<Request>)
    requires ArrivalsEnd(arrivals)
    ensures |rs| == |arrivals|
    ensures forall k :: 0 <= k < |rs| ==>
      && rs[k].id == counter + k && rs[k].arrivalTime == time
      && rs[k].origin == arrivals[k].origin && rs[k].origin != rs[k].destination
      && rs[k].destination in arrivals[k].destinations
      && rs[k].waitingTime == 0 && !rs[k].isCancelled
  {
    seq(|arrivals|, k requires 0 <= k < |arrivals| =>
      var d := arrivals[k];
      NewRequest(counter + k, d.origin, FirstOffOrigin(d.origin, d.destinations), time))
  }

  /** The hour of the day: `(time % 288) / 12.0` (288 ticks of five minutes per day). */
  function HourOfDay(time: int): real {
    ((time % 288) as real) / 12.0
  }

  predicate IsRushHour(time: int) {
    var h := HourOfDay(time);
    (7.0 <= h < 9.0) || (17.0 <= h < 19.0)
  }

  predicate IsLateNight(time: int) {
    var h := HourOfDay(time);
    h >= 23.0 || h < 5.0
  }

  /** The two bands as tick ranges of the day: rush is [84, 108) or [204, 228), late night
      is from 276 on or before 60. */
  lemma DayBands(time: int)
    ensures IsRushHour(time) <==> (84 <= time % 288 < 108 || 204 <= time % 288 < 228)
    ensures IsLateNight(time) <==> (time % 288 >= 276 || time % 288 < 60)
    ensures !(IsRushHour(time) && IsLateNight(time))
  {
  }

  /** The demand multiplier of the Poisson arrival rate, by tick of the day: doubled in
      the two rush bands, halved late at night, 1.0 in between. */
  function DemandMultiplier(time: int): (m: real)
    ensures m == 2.0 <==> (84 <= time % 288 < 108 || 204 <= time % 288 < 228)
    ensures m == 0.5 <==> (time % 288 >= 276 || time % 288 < 60)
    ensures m == 1.0 || m == 2.0 || m == 0.5
  {
    DayBands(time);
    if IsRushHour(time) then 2.0 else if IsLateNight(time) then 0.5 else 1.0
  }

  // ---------------------------------------------------------------------------------
  // Phase 4: request ageing and cancellation

  /** `min(cancellation_prob + waiting_time * 0.01, 0.5)`. */
  function CancelProbability(base: real, waitingTime: int): (p: real)
    ensures p <= 0.5
    ensures p <= base + (waitingTime as real) * 0.01
    ensures p == 0.5 || p == base + (waitingTime as real) * 0.01
  {
    var p := base + (waitingTime as real) * 0.01;
    if p <= 0.5 then p else 0.5
  }

  /** The cancellation probability never decreases as a request waits longer. */
  lemma CancelProbabilityMonotone(base: real, w1: int, w2: int)
    requires w1 <= w2
    ensures CancelProbability(base, w1) <= CancelProbability(base, w2)
  {
  }

  /** Whether the draw `u` cancels a request that has waited `waitingTime` ticks. */
  predicate Fires(base: real, waitingTime: int, u: real) {
    u < CancelProbability(base, waitingTime)
  }

  /** A draw of at least one half never cancels, however long the request waited. */
  lemma HighDrawNeverCancels(base: real, waitingTime: int, u: real)
    requires u >= 0.5
    ensures !Fires(base, waitingTime, u)
  {
  }

  /** One request's ageing: one more tick of waiting, then the cancellation draw. */
  function Age(r: Request, base: real, u: real): (a: Request)
    ensures a.id == r.id && a.origin == r.origin && a.destination == r.destination
    ensures a.arrivalTime == r.arrivalTime && a.waitingTime == r.waitingTime + 1
    ensures a.isCancelled <==> r.isCancelled || Fires(base, r.waitingTime + 1, u)
  {
    var w := r.waitingTime + 1;
    r.(waitingTime := w, isCancelled := r.isCancelled || Fires(base, w, u))
  }

  function AgeAll(rs: seq<Request>, base: real, cancel: nat -> real): (a: seq<Request>)
    ensures |a| == |rs|
    ensures forall k :: 0 <= k < |rs| ==> a[k] == Age(rs[k], base, cancel(k))
  {
    seq(|rs|, k requires 0 <= k < |rs| => Age(rs[k], base, cancel(k)))
  }

  /** The ids whose cancellation draw fired, in list order (`last_cancelled_requests`). */
  function FiredIds(rs: seq<Request>, base: real, cancel: nat -> real): (ids: seq<int>)
    ensures |ids| <= |rs|
  {
    if rs == [] then []
    else
      var k := |rs| - 1;
      FiredIds(rs[..k], base, cancel) + (if Fires(base, rs[k].waitingTime + 1, cancel(k)) then [rs[k].id] else [])
  }

  /** An id is in the cancellation log iff some request with that id has a cancellation draw
      that fires at its new waiting time. */
  lemma {:induction false} FiredIdsMembers(rs: seq<Request>, base: real, cancel: nat -> real)
    ensures forall x :: x in FiredIds(rs, base, cancel) <==>
      exists k :: 0 <= k < |rs| && rs[k].id == x && Fires(base, rs[k].waitingTime + 1, cancel(k))
    decreases |rs|
  {
    if rs != [] {
      var n := |rs| - 1;
      FiredIdsMembers(rs[..n], base, cancel);
      forall x | x in FiredIds(rs, base, cancel)
        ensures exists k :: 0 <= k < |rs| && rs[k].id == x && Fires(base, rs[k].waitingTime + 1, cancel(k))
      {
        if x in FiredIds(rs[..n], base, cancel) {
          var k :| 0 <= k < n && rs[..n][k].id == x && Fires(base, rs[..n][k].waitingTime + 1, cancel(k));
          assert rs[..n][k] == rs[k];
        } else {
          assert rs[n].id == x && Fires(base, rs[n].waitingTime + 1, cancel(n));
        }
      }
      forall x, k | 0 <= k < |rs| && rs[k].id == x && Fires(base, rs[k].waitingTime + 1, cancel(k))
        ensures x in FiredIds(rs, base, cancel)
      {
        if k < n {
          assert rs[..n][k] == rs[k];
        }
      }
    }
  }

  /** `[r for r in requests if not r.is_cancelled]`. */
  function Active(rs: seq<Request>): (r: seq<Request>)
    ensures |r| <= |rs|
  {
    if rs == [] then []
    else (if !rs[0].isCancelled then [rs[0]] else []) + Active(rs[1..])
  }

  /** The requests kept by `Active` are exactly the ones not cancelled. */
  lemma {:induction false} ActiveMembers(rs: seq<Request>)
    ensures forall q :: q in Active(rs) <==> q in rs && !q.isCancelled
    decreases |rs|
  {
    if rs != [] {
      ActiveMembers(rs[1..]);
      assert rs == [rs[0]] + rs[1..];
    }
  }

  /** `a` is `b` with some elements left out, in the same order. */
  predicate IsSubsequence<T(==)>(a: seq<T>, b: seq<T>)
    decreases |b|
  {
    if b == [] then a == []
    else (a != [] && a[0] == b[0] && IsSubsequence(a[1..], b[1..])) || IsSubsequence(a, b[1..])
  }

  /** The survivors of the cancellation filter keep their order. */
  lemma {:induction false} ActiveIsSubsequence(rs: seq<Request>)
    ensures IsSubsequence(Active(rs), rs)
    decreases |rs|
  {
    if rs != [] {
      ActiveIsSubsequence(rs[1..]);
      if !rs[0].isCancelled {
        assert Active(rs)[1..] == Active(rs[1..]);
      } else {
        assert Active(rs) == Active(rs[1..]);
      }
    }
  }

  // ---------------------------------------------------------------------------------
  // Phase 5: traffic

  /** The time-of-day traffic baseline: 1.5 in the rush bands, 0.8 late at night, else 1.0. */
  function BaseTraffic(time: int): (b: real)
    ensures b == 1.5 <==> (84 <= time % 288 < 108 || 204 <= time % 288 < 228)
    ensures b == 0.8 <==> (time % 288 >= 276 || time % 288 < 60)
    ensures b == 1.5 || b == 0.8 || b == 1.0
  {
    DayBands(time);
    if IsRushHour(time) then 1.5 else if IsLateNight(time) then 0.8 else 1.0
  }

  function MinReal(a: real, b: real): real { if a <= b then a else b }

  function MaxReal(a: real, b: real): real { if a >= b then a else b }

  /** `max(0.8, min(2.0, base_traffic + change))`: always within [0.8, 2.0], and within 0.1
      of the baseline (cut at 0.8) when the perturbation is. */
  function TrafficLevel(time: int, change: real): (level: real)
    ensures 0.8 <= level <= 2.0
    ensures -0.1 <= change <= 0.1 ==>
      MaxReal(0.8, BaseTraffic(time) - 0.1) <= level <= BaseTraffic(time) + 0.1
  {
    MaxReal(0.8, MinReal(2.0, BaseTraffic(time) + change))
  }

  // ---------------------------------------------------------------------------------
  // The whole step

  /** The ids of the busy and of the idle taxis, in taxi order. */
  function MovingIds(taxis: seq<Taxi>): seq<int> {
    if taxis == [] then []
    else MovingIds(taxis[..|taxis| - 1]) + (if taxis[|taxis| - 1].status != Idle then [taxis[|taxis| - 1].id] else [])
  }

  function IdleIds(taxis: seq<Taxi>): seq<int> {
    if taxis == [] then []
    else IdleIds(taxis[..|taxis| - 1]) + (if taxis[|taxis| - 1].status == Idle then [taxis[|taxis| - 1].id] else [])
  }

  /** What one step produces: the next world state, the new request counter and the event
      summary. */
  datatype Outcome = Outcome(next: Snapshot, counter: int, info: StepInfo)

  /** The preconditions of `step` on its input. */
  predicate CanStep(s: Snapshot, actions: JointAction, d: StepDraws) {
    WellFormed(s.taxis) && ActionsInRange(actions, |s.taxis|) && ArrivalsEnd(d.arrivals)
  }

  /** The taxis after the action phase. */
  function Acted(s: Snapshot, actions: JointAction): (r: seq<Taxi>)
    requires WellFormed(s.taxis) && ActionsInRange(actions, |s.taxis|)
    ensures |r| == |s.taxis| && AllDispatchable(r)
  {
    ApplyActionsFrame(s.taxis, actions);
    ApplyActions(s.taxis, actions)
  }

  /** The request list after pickups and generation, as the ageing phase sees it. */
  function BeforeAgeing(s: Snapshot, actions: JointAction, d: StepDraws, counter: int): seq<Request>
    requires CanStep(s, actions, d)
  {
    WithoutIds(s.requests, SetOf(PickedUpIds(Acted(s, actions)))) + NewRequests(counter, s.time, d.arrivals)
  }

  /** The taxis after a step. */
  function NextTaxis(s: Snapshot, actions: JointAction, d: StepDraws): (r: seq<Taxi>)
    requires CanStep(s, actions, d)
    ensures |r| == |s.taxis|
  {
    AdvanceAll(Acted(s, actions), s.trafficLevel, d.delay)
  }

  /** The active requests after a step. */
  function NextRequests(s: Snapshot, actions: JointAction, d: StepDraws, counter: int, p: real): seq<Request>
    requires CanStep(s, actions, d)
  {
    Active(AgeAll(BeforeAgeing(s, actions, d, counter), p, d.cancel))
  }

  /** `Environment.step`: actions, movement, generation, ageing, traffic, then the clock. */
  function StepSpec(s: Snapshot, actions: JointAction, d: StepDraws, counter: int, cancellationProb: real): (o: Outcome)
    requires CanStep(s, actions, d)
    ensures o.next.time == s.time + 1 && o.counter == counter + |d.arrivals|
    ensures |o.next.taxis| == |s.taxis| && 0.8 <= o.next.trafficLevel <= 2.0
  {
    var acted := Acted(s, actions);
    var moved := NextTaxis(s, actions, d);
    var next := Snapshot(moved, NextRequests(s, actions, d, counter, cancellationProb), s.time + 1,
                         TrafficLevel(s.time, d.trafficChange));
    Outcome(next, counter + |d.arrivals|,
            StepInfo(CompletedIds(acted),
                     FiredIds(BeforeAgeing(s, actions, d, counter), cancellationProb, d.cancel),
                     PickedUpIds(acted), MovingIds(moved), IdleIds(moved)))
  }
}
