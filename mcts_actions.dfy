/** The pure parts of the tree search: the joint actions a node is expanded with, and the
    UCB score with its floating-point exploration term left abstract. */
module MctsActions {
  import opened Wrappers
  import opened Domain

  /** A UCB score: `float('inf')` for an unvisited child, a finite value otherwise. */
  datatype Score = Infinite | Finite(value: real)

  /** `a < b` on scores, with infinity above every finite value and not above itself. */
  predicate Below(a: Score, b: Score) {
    match (a, b)
    case (Finite(x), Finite(y)) => x < y
    case (Finite(_), Infinite) => true
    case (Infinite, _) => false
  }

  /** `ucb_score`: infinite for an unvisited child, otherwise the mean value plus the
      exploration term `explore(parent visits, child visits)`, which stands for
      `c * sqrt(log(parent visits) / child visits)`. The logarithm needs a visited parent. */
  function Ucb(parentVisits: nat, visits: nat, value: real, explore: (nat, nat) -> real): (s: Score)
    requires visits > 0 ==> parentVisits > 0
    ensures s == Infinite <==> visits == 0
    ensures visits > 0 ==> s == Finite(value / (visits as real) + explore(parentVisits, visits))
  {
    if visits == 0 then Infinite else Finite(value / (visits as real) + explore(parentVisits, visits))
  }

  /** An unvisited child outranks every visited one, and two unvisited children tie, so
      the first of them wins. */
  lemma UnvisitedFirst(parentVisits: nat, visits: nat, value: real, value2: real, explore: (nat, nat) -> real)
    requires parentVisits > 0
    ensures visits > 0 ==> Below(Ucb(parentVisits, visits, value, explore), Ucb(parentVisits, 0, value2, explore))
    ensures !Below(Ucb(parentVisits, 0, value, explore), Ucb(parentVisits, 0, value2, explore))
  {
  }

  /** Every taxi idles: the first legal joint action, and the fallback of the search. */
  function AllIdle(taxis: seq<Taxi>): (a: JointAction)
    ensures |a| == |taxis|
    ensures forall i :: 0 <= i < |a| ==> a[i] == Action(taxis[i].id, Stay)
  {
    seq(|taxis|, i requires 0 <= i < |taxis| => Action(taxis[i].id, Stay))
  }

  /** `[t for t in taxis if t.status == "idle"]`. */
  function IdleTaxis(taxis: seq<Taxi>): (r: seq<Taxi>)
    ensures |r| <= |taxis|
    ensures forall t :: t in r ==> t in taxis && t.status == Idle
  {
    if taxis == [] then []
    else (if taxis[0].status == Idle then [taxis[0]] else []) + IdleTaxis(taxis[1..])
  }

  lemma {:induction false} IdleTaxisComplete(taxis: seq<Taxi>, i: int)
    requires 0 <= i < |taxis| && taxis[i].status == Idle
    ensures taxis[i] in IdleTaxis(taxis)
    decreases |taxis|
  {
    if i > 0 {
      IdleTaxisComplete(taxis[1..], i - 1);
    }
  }

  /** The all-idle joint action with taxi `t` assigned to request `r`. */
  function AssignOne(taxis: seq<Taxi>, t: Taxi, r: Request): (a: JointAction)
    requires 0 <= t.id < |taxis|
    ensures |a| == |taxis| && a[t.id].kind == Assign(Some(r))
    ensures forall i :: 0 <= i < |a| && i != t.id ==> a[i] == Action(taxis[i].id, Stay)
  {
    AllIdle(taxis)[t.id := Action(t.id, Assign(Some(r)))]
  }

  function AssignRow(taxis: seq<Taxi>, t: Taxi, rs: seq<Request>): (acts: seq<JointAction>)
    requires 0 <= t.id < |taxis|
    ensures |acts| == |rs|
  {
    seq(|rs|, j requires 0 <= j < |rs| => AssignOne(taxis, t, rs[j]))
  }

  /** The assignments of every taxi of `idle` to every request, taxi by taxi. */
  function AssignAll(taxis: seq<Taxi>, idle: seq<Taxi>, rs: seq<Request>): (acts: seq<JointAction>)
    requires forall t :: t in idle ==> 0 <= t.id < |taxis|
    ensures |acts| == |idle| * |rs|
    decreases |idle|
  {
    if idle == [] then []
    else
      var rest := AssignAll(taxis, idle[1..], rs);
      assert |idle| * |rs| == |rs| + (|idle| - 1) * |rs|;
      AssignRow(taxis, idle[0], rs) + rest
  }

  /** `get_legal_actions`: all idle first, then one action per idle taxi and request. */
  function LegalActions(s: Snapshot): (acts: seq<JointAction>)
    requires IdsAreIndices(s.taxis)
    ensures |acts| == 1 + |IdleTaxis(s.taxis)| * |s.requests|
    ensures acts[0] == AllIdle(s.taxis)
  {
    IdsIndexTaxis(s.taxis);
    [AllIdle(s.taxis)] + AssignAll(s.taxis, IdleTaxis(s.taxis), s.requests)
  }

  lemma IdsIndexTaxis(taxis: seq<Taxi>)
    requires IdsAreIndices(taxis)
    ensures forall t :: t in taxis ==> 0 <= t.id < |taxis| && taxis[t.id] == t
  {
  }

  /** At most one taxi is assigned. */
  predicate AtMostOneAssign(a: JointAction) {
    forall i, j :: 0 <= i < |a| && 0 <= j < |a| && a[i].kind.Assign? && a[j].kind.Assign? ==> i == j
  }

  /** One action per taxi, at its index; each either idles or assigns an idle taxi to an
      active request; at most one assigns. */
  predicate Shaped(a: JointAction, s: Snapshot) {
    && |a| == |s.taxis|
    && (forall i :: 0 <= i < |a| ==>
          && a[i].taxiId == i
          && (a[i].kind == Stay ||
              (a[i].kind.Assign? && s.taxis[i].status == Idle &&
               a[i].kind.request.Some? && a[i].kind.request.value in s.requests)))
    && AtMostOneAssign(a)
  }

  lemma AssignOneShaped(s: Snapshot, t: Taxi, r: Request)
    requires IdsAreIndices(s.taxis) && t in s.taxis && t.status == Idle && r in s.requests
    ensures 0 <= t.id < |s.taxis| && Shaped(AssignOne(s.taxis, t, r), s)
  {
    IdsIndexTaxis(s.taxis);
  }

  lemma {:induction false} AssignAllShaped(s: Snapshot, idle: seq<Taxi>)
    requires IdsAreIndices(s.taxis)
    requires forall t :: t in idle ==> t in s.taxis && t.status == Idle
    ensures forall t :: t in idle ==> 0 <= t.id < |s.taxis|
    ensures forall a :: a in AssignAll(s.taxis, idle, s.requests) ==> Shaped(a, s)
    decreases |idle|
  {
    IdsIndexTaxis(s.taxis);
    if idle != [] {
      AssignAllShaped(s, idle[1..]);
      var row := AssignRow(s.taxis, idle[0], s.requests);
      forall j | 0 <= j < |row|
        ensures Shaped(row[j], s)
      {
        AssignOneShaped(s, idle[0], s.requests[j]);
      }
    }
  }

  /** Every legal joint action is shaped, hence names only taxis of the state. */
  lemma LegalActionsShaped(s: Snapshot)
    requires IdsAreIndices(s.taxis)
    ensures forall a :: a in LegalActions(s) ==> Shaped(a, s) && ActionsInRange(a, |s.taxis|)
  {
    AssignAllShaped(s, IdleTaxis(s.taxis));
    var acts := LegalActions(s);
    forall a | a in acts
      ensures Shaped(a, s) && ActionsInRange(a, |s.taxis|)
    {
      if a == acts[0] {
        assert AtMostOneAssign(a);
      } else {
        assert a in AssignAll(s.taxis, IdleTaxis(s.taxis), s.requests);
      }
    }
  }

  /** Every idle taxi paired with every request is among the legal actions. */
  lemma LegalActionsComplete(s: Snapshot, i: int, j: int)
    requires IdsAreIndices(s.taxis)
    requires 0 <= i < |s.taxis| && s.taxis[i].status == Idle && 0 <= j < |s.requests|
    ensures AssignOne(s.taxis, s.taxis[i], s.requests[j]) in LegalActions(s)
  {
    IdleTaxisComplete(s.taxis, i);
    AssignAllComplete(s.taxis, IdleTaxis(s.taxis), s.requests, s.taxis[i], j);
  }

  lemma {:induction false} AssignAllComplete(taxis: seq<Taxi>, idle: seq<Taxi>, rs: seq<Request>, t: Taxi, j: int)
    requires forall u :: u in idle ==> 0 <= u.id < |taxis|
    requires t in idle && 0 <= j < |rs|
    ensures AssignOne(taxis, t, rs[j]) in AssignAll(taxis, idle, rs)
    decreases |idle|
  {
    if idle[0] == t {
      assert AssignRow(taxis, t, rs)[j] == AssignOne(taxis, t, rs[j]);
    } else {
      AssignAllComplete(taxis, idle[1..], rs, t, j);
    }
  }
}
