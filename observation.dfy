/** `get_observation`: a noisy, read-only view of a world state. Each taxi's position is
    off by one grid step (clamped to the grid) when its slip draw is below 0.1; each request
    is seen when its draw is below 0.9; the traffic estimate carries an additive noise draw. */
module Observing {
  import opened Grid
  import opened Domain

  datatype TaxiView = TaxiView(id: int, position: Pos, status: Status)

  datatype RequestView = RequestView(id: int, origin: Pos, destination: Pos, waitingTime: int)

  datatype Observation = Observation(time: int, taxis: seq<TaxiView>, requests: seq<RequestView>, trafficEstimate: real)

  /** The draws of one observation: the traffic noise (uniform in [-0.1, 0.1]), and per taxi
      index a slip draw and a direction choice, and per request index a sighting draw. */
  datatype ObservationDraws = ObservationDraws(trafficNoise: real, slip: nat -> real, direction: nat -> nat, seen: nat -> real)

  /** `max(0, min(size - 1, v))`. */
  function Clamp(v: int, size: int): (c: int)
    ensures size >= 1 ==> 0 <= c < size
    ensures 0 <= v < size ==> c == v
  {
    Max(0, Min(size - 1, v))
  }

  /** The unit step `random.choice` picks from `[(-1, 0), (1, 0), (0, -1), (0, 1)]`. */
  function Offset(direction: nat): (o: Pos)
    ensures Abs(o.x) + Abs(o.y) == 1
  {
    match direction % 4
    case 0 => Pos(-1, 0)
    case 1 => Pos(1, 0)
    case 2 => Pos(0, -1)
    case _ => Pos(0, 1)
  }

  function NoisyPosition(p: Pos, size: int, slip: real, direction: nat): (q: Pos)
    ensures slip >= 0.1 ==> q == p
    ensures slip < 0.1 && size >= 1 ==> InGrid(q, size)
  {
    if slip < 0.1 then
      var o := Offset(direction);
      Pos(Clamp(p.x + o.x, size), Clamp(p.y + o.y, size))
    else p
  }

  /** The observed position of a taxi on the grid is on the grid and at most one step from
      the true one; it is the true one when the slip draw does not fire. */
  lemma NoisyPositionNear(p: Pos, size: int, slip: real, direction: nat)
    requires InGrid(p, size)
    ensures var q := NoisyPosition(p, size, slip, direction);
      InGrid(q, size) && Manhattan(p, q) <= 1 && (slip >= 0.1 ==> q == p)
  {
  }

  function ViewOf(r: Request): RequestView {
    RequestView(r.id, r.origin, r.destination, r.waitingTime)
  }

  function ObservedTaxis(taxis: seq<Taxi>, size: int, d: ObservationDraws): (vs: seq<TaxiView>)
    ensures |vs| == |taxis|
  {
    seq(|taxis|, i requires 0 <= i < |taxis| =>
      TaxiView(taxis[i].id, NoisyPosition(taxis[i].position, size, d.slip(i), d.direction(i)), taxis[i].status))
  }

  /** The requests whose sighting draw is below 0.9, in list order. */
  function SeenRequests(rs: seq<Request>, seen: nat -> real): (vs: seq<RequestView>)
    ensures |vs| <= |rs|
  {
    if rs == [] then []
    else
      var k := |rs| - 1;
      SeenRequests(rs[..k], seen) + (if seen(k) < 0.9 then [ViewOf(rs[k])] else [])
  }

  /** Every observed request is the view of an active one, and an active request whose
      draw is below 0.9 is observed. */
  lemma {:induction false} SeenRequestsExactly(rs: seq<Request>, seen: nat -> real)
    ensures forall v :: v in SeenRequests(rs, seen) ==> exists k :: 0 <= k < |rs| && seen(k) < 0.9 && v == ViewOf(rs[k])
    ensures forall k :: 0 <= k < |rs| && seen(k) < 0.9 ==> ViewOf(rs[k]) in SeenRequests(rs, seen)
    decreases |rs|
  {
    if rs != [] {
      var k := |rs| - 1;
      SeenRequestsExactly(rs[..k], seen);
      forall v | v in SeenRequests(rs, seen)
        ensures exists j :: 0 <= j < |rs| && seen(j) < 0.9 && v == ViewOf(rs[j])
      {
        if v in SeenRequests(rs[..k], seen) {
          var j :| 0 <= j < k && seen(j) < 0.9 && v == ViewOf(rs[..k][j]);
          assert rs[..k][j] == rs[j];
        }
      }
      forall j | 0 <= j < |rs| && seen(j) < 0.9
        ensures ViewOf(rs[j]) in SeenRequests(rs, seen)
      {
        if j < k {
          assert rs[..k][j] == rs[j];
        }
      }
    }
  }

  /** With every sighting draw below 0.9 all requests are observed, in order. */
  lemma {:induction false} SeenAll(rs: seq<Request>, seen: nat -> real)
    requires forall k :: 0 <= k < |rs| ==> seen(k) < 0.9
    ensures |SeenRequests(rs, seen)| == |rs|
    ensures forall k :: 0 <= k < |rs| ==> SeenRequests(rs, seen)[k] == ViewOf(rs[k])
    decreases |rs|
  {
    if rs != [] {
      var k := |rs| - 1;
      SeenAll(rs[..k], seen);
    }
  }

  function Observe(s: Snapshot, size: int, d: ObservationDraws): (o: Observation)
    ensures o.time == s.time && |o.taxis| == |s.taxis| && |o.requests| <= |s.requests|
    ensures forall i :: 0 <= i < |s.taxis| ==> o.taxis[i].id == s.taxis[i].id && o.taxis[i].status == s.taxis[i].status
  {
    Observation(s.time, ObservedTaxis(s.taxis, size, d), SeenRequests(s.requests, d.seen), s.trafficLevel + d.trafficNoise)
  }

  /** What an observation tells: the true tick; per taxi its id and status and a position at
      most one step off on the grid; only active requests, each with its true fields; the
      traffic level up to the noise. */
  lemma ObserveFaithful(s: Snapshot, size: int, d: ObservationDraws)
    requires forall i :: 0 <= i < |s.taxis| ==> InGrid(s.taxis[i].position, size)
    requires -0.1 <= d.trafficNoise <= 0.1
    ensures var o := Observe(s, size, d);
      && o.time == s.time && |o.taxis| == |s.taxis|
      && (forall i :: 0 <= i < |s.taxis| ==>
            && o.taxis[i].id == s.taxis[i].id && o.taxis[i].status == s.taxis[i].status
            && InGrid(o.taxis[i].position, size) && Manhattan(o.taxis[i].position, s.taxis[i].position) <= 1)
      && (forall v :: v in o.requests ==> exists r :: r in s.requests && v == ViewOf(r))
      && s.trafficLevel - 0.1 <= o.trafficEstimate <= s.trafficLevel + 0.1
  {
    var o := Observe(s, size, d);
    forall i | 0 <= i < |s.taxis|
      ensures InGrid(o.taxis[i].position, size) && Manhattan(o.taxis[i].position, s.taxis[i].position) <= 1
    {
      NoisyPositionNear(s.taxis[i].position, size, d.slip(i), d.direction(i));
      ManhattanSymmetric(o.taxis[i].position, s.taxis[i].position);
    }
    SeenRequestsExactly(s.requests, d.seen);
  }
}
