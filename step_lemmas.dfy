/** What one `Environment.step` promises, proved about its specification `StepSpec`. */
module StepLemmas {
  import opened Wrappers
  import opened Grid
  import opened Domain
  import opened Transition

  /** A step keeps taxi ids equal to list positions and every busy taxi dispatchable, so
      its result can be stepped again. */
  lemma StepKeepsWellFormed(s: Snapshot, actions: JointAction, d: StepDraws)
    requires CanStep(s, actions, d)
    ensures WellFormed(NextTaxis(s, actions, d))
  {
    ApplyActionsFrame(s.taxis, actions);
    var acted := Acted(s, actions);
    var r := NextTaxis(s, actions, d);
    forall i | 0 <= i < |r|
      ensures r[i].id == i && Dispatchable(r[i])
    {
      assert r[i] == Advance(acted[i], Delayed(s.trafficLevel, d.delay(i)));
    }
  }

  /** A step keeps every busy taxi heading for its request's origin before pickup and for
      its destination after it. */
  lemma StepKeepsOnRoute(s: Snapshot, actions: JointAction, d: StepDraws)
    requires CanStep(s, actions, d)
    requires forall i :: 0 <= i < |s.taxis| ==> OnRoute(s.taxis[i])
    ensures var t := NextTaxis(s, actions, d);
      forall i :: 0 <= i < |t| ==> OnRoute(t[i])
  {
    ApplyActionsFrame(s.taxis, actions);
    var acted := Acted(s, actions);
    var r := NextTaxis(s, actions, d);
    forall i | 0 <= i < |r|
      ensures OnRoute(r[i])
    {
      assert r[i] == Advance(acted[i], Delayed(s.trafficLevel, d.delay(i)));
    }
  }

  /** Actions do not reach a busy taxi: it only goes through its movement phase. */
  lemma StepBusyTaxi(s: Snapshot, actions: JointAction, d: StepDraws, i: int)
    requires CanStep(s, actions, d)
    requires 0 <= i < |s.taxis| && s.taxis[i].status != Idle
    ensures NextTaxis(s, actions, d)[i] == Advance(s.taxis[i], Delayed(s.trafficLevel, d.delay(i)))
  {
    ApplyActionsFrame(s.taxis, actions);
  }

  /** An idle taxi that gets no effective assignment does not move, whatever `move`
      actions it receives: `move` leaves it idle and idle taxis are skipped. */
  lemma StepIdleStays(s: Snapshot, actions: JointAction, d: StepDraws, i: int)
    requires CanStep(s, actions, d)
    requires 0 <= i < |s.taxis| && Acted(s, actions)[i].status == Idle
    ensures NextTaxis(s, actions, d)[i].position == s.taxis[i].position
    ensures NextTaxis(s, actions, d)[i].status == Idle
  {
    ApplyActionsFrame(s.taxis, actions);
    assert NextTaxis(s, actions, d)[i] == Advance(Acted(s, actions)[i], Delayed(s.trafficLevel, d.delay(i)));
  }

  /** Every request still active after a step is not cancelled and has waited exactly one
      tick more: either it was active before, with the same id, cells and arrival time,
      and was not picked up; or it is new, arrived at the step's tick with an id from the
      counter on. The survivors keep the order of the aged list. */
  lemma StepRequests(s: Snapshot, actions: JointAction, d: StepDraws, counter: int, p: real)
    requires CanStep(s, actions, d)
    ensures var picked := PickedUpIds(Acted(s, actions));
      forall q :: q in NextRequests(s, actions, d, counter, p) ==>
        && !q.isCancelled
        && ((exists r :: r in s.requests && r.id !in picked && q == r.(waitingTime := r.waitingTime + 1))
            || (counter <= q.id < counter + |d.arrivals| && q.arrivalTime == s.time && q.waitingTime == 1))
    ensures IsSubsequence(NextRequests(s, actions, d, counter, p), AgeAll(BeforeAgeing(s, actions, d, counter), p, d.cancel))
  {
    forall q | q in NextRequests(s, actions, d, counter, p)
      ensures !q.isCancelled
      ensures (exists r :: r in s.requests && r.id !in PickedUpIds(Acted(s, actions)) && q == r.(waitingTime := r.waitingTime + 1))
              || (counter <= q.id < counter + |d.arrivals| && q.arrivalTime == s.time && q.waitingTime == 1)
    {
      StepRequestOrigin(s, actions, d, counter, p, q);
    }
    var aged := AgeAll(BeforeAgeing(s, actions, d, counter), p, d.cancel);
    assert Active(aged) == NextRequests(s, actions, d, counter, p);
    ActiveIsSubsequence(aged);
  }

  /** Where one request active after a step comes from. */
  lemma StepRequestOrigin(s: Snapshot, actions: JointAction, d: StepDraws, counter: int, p: real, q: Request)
    requires CanStep(s, actions, d) && q in NextRequests(s, actions, d, counter, p)
    ensures !q.isCancelled
    ensures (exists r :: r in s.requests && r.id !in PickedUpIds(Acted(s, actions)) && q == r.(waitingTime := r.waitingTime + 1))
            || (counter <= q.id < counter + |d.arrivals| && q.arrivalTime == s.time && q.waitingTime == 1)
  {
    var picked := PickedUpIds(Acted(s, actions));
    var kept := WithoutIds(s.requests, SetOf(picked));
    var created := NewRequests(counter, s.time, d.arrivals);
    var pending := kept + created;
    assert pending == BeforeAgeing(s, actions, d, counter);
    var aged := AgeAll(pending, p, d.cancel);
    assert Active(aged) == NextRequests(s, actions, d, counter, p);
    ActiveMembers(aged);
    WithoutIdsMembers(s.requests, SetOf(picked));
    assert q in aged && !q.isCancelled;
    var k :| 0 <= k < |aged| && aged[k] == q;
    AgedOrigin(kept, created, p, d.cancel, k);
    if k < |kept| {
      assert kept[k] in s.requests && kept[k].id !in SetOf(picked);
    }
  }

  /** Where an aged request comes from: an entry of the kept list or a new request. */
  lemma AgedOrigin(kept: seq<Request>, created: seq<Request>, p: real, cancel: nat -> real, k: int)
    requires 0 <= k < |kept| + |created|
    ensures var q := AgeAll(kept + created, p, cancel)[k];
      if k < |kept| then q.(isCancelled := false) == kept[k].(waitingTime := kept[k].waitingTime + 1, isCancelled := false)
                         && (kept[k].isCancelled ==> q.isCancelled)
                         && (!q.isCancelled ==> q == kept[k].(waitingTime := kept[k].waitingTime + 1))
      else var r := created[k - |kept|];
        q.id == r.id && q.arrivalTime == r.arrivalTime && q.waitingTime == r.waitingTime + 1
  {
  }

  /** With no arrivals the active request list never grows: requests only leave it. */
  lemma StepNoArrivalsNoGrowth(s: Snapshot, actions: JointAction, d: StepDraws, counter: int, p: real)
    requires CanStep(s, actions, d) && |d.arrivals| == 0
    ensures |NextRequests(s, actions, d, counter, p)| <= |s.requests|
  {
    var pending := BeforeAgeing(s, actions, d, counter);
    assert |pending| <= |s.requests|;
  }

  /** A request picked up in a step is no longer active after it; only a request created
      in the same step, with an id from the counter on, could carry its id. */
  lemma StepPickedUpLeave(s: Snapshot, actions: JointAction, d: StepDraws, counter: int, p: real)
    requires CanStep(s, actions, d)
    ensures forall q :: q in NextRequests(s, actions, d, counter, p) && q.id in PickedUpIds(Acted(s, actions)) ==>
      q.id >= counter
  {
    StepRequests(s, actions, d, counter, p);
  }
}
