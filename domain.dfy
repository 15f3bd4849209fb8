/** The passive value types of the dispatch simulation: taxis, requests, actions, world
    snapshots, the per-step event summary and the random draws that drive one step. */
module Domain {
  import opened Wrappers
  import opened Grid

  /** The three taxi states `"idle"`, `"en_route_to_pickup"` and `"occupied"`. */
  datatype Status = Idle | EnRouteToPickup | Occupied

  /** A ride request; `waitingTime` counts the ticks it has spent in the active set. */
  datatype Request = Request(
    id: int,
    origin: Pos,
    destination: Pos,
    arrivalTime: int,
    waitingTime: int,
    isCancelled: bool)

  /** A request as its constructor creates it: not yet waited, not cancelled. */
  function NewRequest(id: int, origin: Pos, destination: Pos, arrivalTime: int): (r: Request)
    ensures r.id == id && r.origin == origin && r.destination == destination
    ensures r.arrivalTime == arrivalTime && r.waitingTime == 0 && !r.isCancelled
  {
    Request(id, origin, destination, arrivalTime, 0, false)
  }

  datatype Taxi = Taxi(
    id: int,
    position: Pos,
    status: Status,
    assignedRequest: Option<Request>,
    destination: Option<Pos>,
    remainingTravelTime: int)

  /** A taxi as its constructor creates it: idle, with nothing assigned and nowhere to go. */
  function NewTaxi(id: int, position: Pos): (t: Taxi)
    ensures t.id == id && t.position == position && t.status == Idle
    ensures t.assignedRequest == None && t.destination == None && t.remainingTravelTime == 0
  {
    Taxi(id, position, Idle, None, None, 0)
  }

  /** What an action asks of one taxi: `"idle"` (here `Stay`), `"assign"` with a request
      target (possibly None) or `"move"` with a target cell (possibly None). */
  datatype ActionKind = Stay | Assign(request: Option<Request>) | Move(target: Option<Pos>)

  datatype Action = Action(taxiId: int, kind: ActionKind)

  /** One decision per taxi, applied in list order. */
  type JointAction = seq<Action>

  /** The fields of a world state: taxis, active requests, the tick and the traffic level. */
  datatype Snapshot = Snapshot(taxis: seq<Taxi>, requests: seq<Request>, time: int, trafficLevel: real)

  /** The per-step event summary returned by `get_last_step_info`. */
  datatype StepInfo = StepInfo(
    completedRides: seq<int>,
    cancelledRequests: seq<int>,
    pickedUpRequests: seq<int>,
    movingTaxis: seq<int>,
    idleTaxis: seq<int>)

  const EmptyInfo := StepInfo([], [], [], [], [])

  /** The draws `random.randint` makes for one new request: the origin, then destination
      candidates, drawn again for as long as they equal the origin. */
  datatype RequestDraw = RequestDraw(origin: Pos, destinations: seq<Pos>)

  /** Every random draw of one `step`:
      - `delay(i)`: the `random.random()` value compared with the traffic delay for taxi i;
      - `arrivals`: one draw per new request, so the Poisson count is `|arrivals|`;
      - `cancel(k)`: the `random.random()` value drawn for the k-th request when it ages;
      - `trafficChange`: the `random.uniform(-0.1, 0.1)` perturbation of the traffic level. */
  datatype StepDraws = StepDraws(
    delay: nat -> real,
    arrivals: seq<RequestDraw>,
    cancel: nat -> real,
    trafficChange: real)

  /** The destination redraw loop of a request draw ends: some candidate differs from the origin. */
  predicate RedrawEnds(d: RequestDraw) {
    exists k :: 0 <= k < |d.destinations| && d.destinations[k] != d.origin
  }

  predicate ArrivalsEnd(arrivals: seq<RequestDraw>) {
    forall k :: 0 <= k < |arrivals| ==> RedrawEnds(arrivals[k])
  }

  /** Taxi ids equal list positions: actions and policies index `state.taxis` by taxi id. */
  predicate IdsAreIndices(taxis: seq<Taxi>) {
    forall i :: 0 <= i < |taxis| ==> taxis[i].id == i
  }

  /** The fields a busy taxi needs for the step not to fail: an en-route taxi reads its
      request and destination, an occupied one its destination. */
  predicate Dispatchable(t: Taxi) {
    && (t.status == EnRouteToPickup ==> t.assignedRequest.Some? && t.destination.Some?)
    && (t.status == Occupied ==> t.destination.Some?)
  }

  predicate WellFormed(taxis: seq<Taxi>) {
    IdsAreIndices(taxis) && forall i :: 0 <= i < |taxis| ==> Dispatchable(taxis[i])
  }

  /** Every action names a taxi of the state (an out-of-range id makes `step` fail). */
  predicate ActionsInRange(actions: JointAction, n: int) {
    forall k :: 0 <= k < |actions| ==> 0 <= actions[k].taxiId < n
  }

  /** A busy taxi heads where its request says: the origin before pickup, the
      destination after it. The engine keeps this, though it does not need it. */
  predicate OnRoute(t: Taxi) {
    && (t.status == EnRouteToPickup ==>
          t.assignedRequest.Some? && t.destination == Some(t.assignedRequest.value.origin))
    && (t.status == Occupied ==>
          t.assignedRequest.Some? && t.destination == Some(t.assignedRequest.value.destination))
  }

  /** The ids of a request list, in order. */
  function Ids(rs: seq<Request>): (ids: seq<int>)
    ensures |ids| == |rs| && forall k :: 0 <= k < |rs| ==> ids[k] == rs[k].id
  {
    seq(|rs|, k requires 0 <= k < |rs| => rs[k].id)
  }
}
