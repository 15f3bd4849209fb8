/** The greedy baseline policy: requests are served longest-waiting first, each by the
    nearest idle taxi still free, and every other taxi idles. `SelectAction` runs the
    source's loops (a bubble sort in place, a nearest-taxi scan, a rebuilt idle list) and
    is proved to compute `Dispatch`; the lemmas below say what `Dispatch` promises. */
module Greedy {
  import opened Wrappers
  import opened Grid
  import opened Domain
  import opened Simulation

  // ---------------------------------------------------------------------------------------
  // Specification

  /** One `"idle"` action per taxi, in list order. */
  function Defaults(taxis: seq<Taxi>): (acts: JointAction)
    ensures |acts| == |taxis|
    ensures forall i :: 0 <= i < |taxis| ==> acts[i] == Action(taxis[i].id, Stay)
  {
    seq(|taxis|, i requires 0 <= i < |taxis| => Action(taxis[i].id, Stay))
  }

  /** The idle taxis of a list, in list order. */
  function IdleOf(taxis: seq<Taxi>): (idle: seq<Taxi>)
    ensures |idle| <= |taxis|
    ensures forall t :: t in idle <==> t in taxis && t.status == Idle
  {
    if taxis == [] then []
    else
      var last := taxis[|taxis| - 1];
      IdleOf(taxis[..|taxis| - 1]) + (if last.status == Idle then [last] else [])
  }

  /** The number of idle taxis in a list. */
  function CountIdle(taxis: seq<Taxi>): nat {
    if taxis == [] then 0
    else CountIdle(taxis[..|taxis| - 1]) + (if taxis[|taxis| - 1].status == Idle then 1 else 0)
  }

  /** Requests sorted longest-waiting first. */
  predicate NonIncreasing(rs: seq<Request>) {
    forall i, j :: 0 <= i < j < |rs| ==> rs[i].waitingTime >= rs[j].waitingTime
  }

  /** The index of the idle taxi nearest to `origin`: no taxi is nearer, and every taxi
      before it is strictly farther (the scan keeps the first of equally near taxis). */
  function Nearest(idle: seq<Taxi>, origin: Pos): (j: nat)
    requires |idle| > 0
    ensures j < |idle|
    ensures forall k :: 0 <= k < |idle| ==>
      Manhattan(idle[j].position, origin) <= Manhattan(idle[k].position, origin)
    ensures forall k :: 0 <= k < j ==>
      Manhattan(idle[j].position, origin) < Manhattan(idle[k].position, origin)
  {
    if |idle| == 1 then 0
    else
      var j := Nearest(idle[..|idle| - 1], origin);
      var last := |idle| - 1;
      if Manhattan(idle[last].position, origin) < Manhattan(idle[j].position, origin) then last else j
  }

  /** The list without its `j`-th entry: exactly that entry goes, the rest keep their order. */
  function Without(xs: seq<Taxi>, j: int): (r: seq<Taxi>)
    requires 0 <= j < |xs|
    ensures |r| == |xs| - 1
    ensures forall k :: 0 <= k < |r| ==> r[k] == if k < j then xs[k] else xs[k + 1]
    ensures multiset(r) + multiset{xs[j]} == multiset(xs)
  {
    assert xs == xs[..j] + [xs[j]] + xs[j + 1..];
    xs[..j] + xs[j + 1..]
  }

  /** The greedy matching: each request in turn, while idle taxis remain, is paired with
      the nearest of them, which then leaves the pool. */
  function Matching(rs: seq<Request>, idle: seq<Taxi>): (m: seq<(Taxi, Request)>)
    ensures |m| == Min(|rs|, |idle|)
    decreases |rs|
  {
    if rs == [] || idle == [] then []
    else
      var j := Nearest(idle, rs[0].origin);
      [(idle[j], rs[0])] + Matching(rs[1..], Without(idle, j))
  }

  /** The actions after the assignments so far: each pair overwrites its taxi's entry. */
  function Apply(acts: JointAction, pairs: seq<(Taxi, Request)>): (r: JointAction)
    requires IdsInRange(pairs, |acts|)
    ensures |r| == |acts|
  {
    if pairs == [] then acts
    else
      var last := pairs[|pairs| - 1];
      Apply(acts, pairs[..|pairs| - 1])[last.0.id := Action(last.0.id, Assign(Some(last.1)))]
  }

  /** Every pair names a taxi index below `n`. */
  predicate IdsInRange(pairs: seq<(Taxi, Request)>, n: int) {
    forall k :: 0 <= k < |pairs| ==> 0 <= pairs[k].0.id < n
  }

  /** The taxi ids a list of pairs names. */
  function TaxiIds(pairs: seq<(Taxi, Request)>): set<int> {
    set k | 0 <= k < |pairs| :: pairs[k].0.id
  }

  /** The indices of a joint action that hold an assignment. */
  function AssignedTaxis(acts: JointAction): set<int> {
    set i | 0 <= i < |acts| && acts[i].kind.Assign?
  }

  /** The ids in a list of taxis are pairwise distinct. */
  predicate DistinctIds(ts: seq<Taxi>) {
    forall i, j :: 0 <= i < j < |ts| ==> ts[i].id != ts[j].id
  }

  /** The joint action of the greedy rule for a state's taxis and its sorted requests. */
  function Dispatch(taxis: seq<Taxi>, sorted: seq<Request>): (acts: JointAction)
    requires IdsAreIndices(taxis)
    ensures |acts| == |taxis|
  {
    MatchingFromIdle(sorted, taxis);
    Apply(Defaults(taxis), Matching(sorted, IdleOf(taxis)))
  }

  // ---------------------------------------------------------------------------------------
  // What the matching promises

  /** The matching serves the requests in list order, as many as there are taxis. */
  lemma {:induction false} MatchingServes(rs: seq<Request>, idle: seq<Taxi>)
    ensures forall k :: 0 <= k < |Matching(rs, idle)| ==> Matching(rs, idle)[k].1 == rs[k]
    decreases |rs|
  {
    if rs != [] && idle != [] {
      var j := Nearest(idle, rs[0].origin);
      var tail := Matching(rs[1..], Without(idle, j));
      MatchingServes(rs[1..], Without(idle, j));
      var m := Matching(rs, idle);
      assert m == [(idle[j], rs[0])] + tail;
      forall k | 0 < k < |m|
        ensures m[k].1 == rs[k]
      {
        assert m[k] == tail[k - 1] && rs[k] == rs[1..][k - 1];
      }
    }
  }

  /** Every matched taxi comes from the pool. */
  lemma {:induction false} MatchingFromPool(rs: seq<Request>, idle: seq<Taxi>)
    ensures forall k :: 0 <= k < |Matching(rs, idle)| ==> Matching(rs, idle)[k].0 in idle
    decreases |rs|
  {
    if rs != [] && idle != [] {
      var j := Nearest(idle, rs[0].origin);
      var rest := Without(idle, j);
      var tail := Matching(rs[1..], rest);
      MatchingFromPool(rs[1..], rest);
      var m := Matching(rs, idle);
      assert m == [(idle[j], rs[0])] + tail;
      forall k | 0 <= k < |m|
        ensures m[k].0 in idle
      {
        if k > 0 {
          assert m[k] == tail[k - 1];
          assert tail[k - 1].0 in multiset(rest);
        }
      }
    }
  }

  /** No taxi is matched twice when the pool's ids are distinct. */
  lemma {:induction false} MatchingDistinct(rs: seq<Request>, idle: seq<Taxi>)
    requires DistinctIds(idle)
    ensures forall k, l :: 0 <= k < l < |Matching(rs, idle)| ==>
      Matching(rs, idle)[k].0.id != Matching(rs, idle)[l].0.id
    decreases |rs|
  {
    if rs != [] && idle != [] {
      var j := Nearest(idle, rs[0].origin);
      var rest := Without(idle, j);
      WithoutDistinct(idle, j);
      MatchingDistinct(rs[1..], rest);
      MatchingFromPool(rs[1..], rest);
      var tail := Matching(rs[1..], rest);
      forall l | 0 <= l < |tail|
        ensures tail[l].0.id != idle[j].id
      {
        WithoutDropsId(idle, j, tail[l].0);
      }
      ConsDistinct((idle[j], rs[0]), tail);
    }
  }

  /** A pair put in front of pairs with distinct taxi ids, none its own, keeps them distinct. */
  lemma ConsDistinct(first: (Taxi, Request), tail: seq<(Taxi, Request)>)
    requires forall k, l :: 0 <= k < l < |tail| ==> tail[k].0.id != tail[l].0.id
    requires forall l :: 0 <= l < |tail| ==> tail[l].0.id != first.0.id
    ensures var m := [first] + tail;
      forall k, l :: 0 <= k < l < |m| ==> m[k].0.id != m[l].0.id
  {
    var m := [first] + tail;
    forall k, l | 0 <= k < l < |m|
      ensures m[k].0.id != m[l].0.id
    {
      assert m[l] == tail[l - 1];
      if k > 0 {
        assert m[k] == tail[k - 1];
      }
    }
  }

  /** The taxis of the first `k` pairs of a list that starts with `first`. */
  lemma ConsIds(first: (Taxi, Request), tail: seq<(Taxi, Request)>, k: int)
    requires 1 <= k <= |tail| + 1
    ensures TaxiIds(([first] + tail)[..k]) == {first.0.id} + TaxiIds(tail[..k - 1])
  {
    var m := [first] + tail;
    forall x | x in TaxiIds(tail[..k - 1])
      ensures x in TaxiIds(m[..k])
    {
      var q :| 0 <= q < k - 1 && tail[..k - 1][q].0.id == x;
      assert m[..k][q + 1] == tail[..k - 1][q];
    }
    forall x | x in TaxiIds(m[..k])
      ensures x in {first.0.id} + TaxiIds(tail[..k - 1])
    {
      var q :| 0 <= q < k && m[..k][q].0.id == x;
      if q > 0 {
        assert m[..k][q] == tail[..k - 1][q - 1];
      }
    }
    assert m[..k][0] == first;
  }

  /** Each matched taxi is, among the taxis still free when its request comes up, one
      nearest to that request's origin. */
  lemma {:induction false} MatchingNearest(rs: seq<Request>, idle: seq<Taxi>, k: int, t: Taxi)
    requires DistinctIds(idle)
    requires 0 <= k < |Matching(rs, idle)|
    requires t in idle && t.id !in TaxiIds(Matching(rs, idle)[..k])
    ensures Manhattan(Matching(rs, idle)[k].0.position, rs[k].origin) <= Manhattan(t.position, rs[k].origin)
    decreases |rs|
  {
    var j := Nearest(idle, rs[0].origin);
    var rest := Without(idle, j);
    var tail := Matching(rs[1..], rest);
    assert Matching(rs, idle) == [(idle[j], rs[0])] + tail;
    if k > 0 {
      ConsIds((idle[j], rs[0]), tail, k);
      WithoutKeeps(idle, j, t);
      WithoutDistinct(idle, j);
      MatchingNearest(rs[1..], rest, k - 1, t);
      assert rs[1..][k - 1] == rs[k];
    } else {
      var q :| 0 <= q < |idle| && idle[q] == t;
    }
  }

  /** The scan keeps the first of equally near taxis: a taxi still free when request `k`
      comes up that stands before the matched one in the pool is strictly farther. */
  lemma {:induction false} MatchingFirstNearest(rs: seq<Request>, idle: seq<Taxi>, k: int, q: int, p: int)
    requires DistinctIds(idle)
    requires 0 <= k < |Matching(rs, idle)|
    requires 0 <= q < p < |idle| && idle[p] == Matching(rs, idle)[k].0
    requires idle[q].id !in TaxiIds(Matching(rs, idle)[..k])
    ensures Manhattan(Matching(rs, idle)[k].0.position, rs[k].origin) < Manhattan(idle[q].position, rs[k].origin)
    decreases |rs|
  {
    var m := Matching(rs, idle);
    var j := Nearest(idle, rs[0].origin);
    var rest := Without(idle, j);
    var tail := Matching(rs[1..], rest);
    assert m == [(idle[j], rs[0])] + tail;
    if k == 0 {
      assert idle[p].id == idle[j].id;
    } else {
      assert m[k] == tail[k - 1] && rs[k] == rs[1..][k - 1];
      MatchedDiffer(rs, idle, 0, k);
      ConsIds((idle[j], rs[0]), tail, k);
      assert idle[q].id != idle[j].id && idle[q].id !in TaxiIds(tail[..k - 1]);
      WithoutDistinct(idle, j);
      WithoutIndex(idle, j, q);
      WithoutIndex(idle, j, p);
      MatchingFirstNearest(rs[1..], rest, k - 1, if q < j then q else q - 1, if p < j then p else p - 1);
    }
  }

  /** Two pairs of a matching hold different taxis. */
  lemma MatchedDiffer(rs: seq<Request>, idle: seq<Taxi>, a: int, b: int)
    requires DistinctIds(idle) && 0 <= a < b < |Matching(rs, idle)|
    ensures Matching(rs, idle)[a].0.id != Matching(rs, idle)[b].0.id
  {
    MatchingDistinct(rs, idle);
  }

  /** Where an entry other than the removed one sits after the removal. */
  lemma WithoutIndex(xs: seq<Taxi>, j: int, i: int)
    requires 0 <= j < |xs| && 0 <= i < |xs| && i != j
    ensures Without(xs, j)[if i < j then i else i - 1] == xs[i]
  {
  }

  lemma WithoutDistinct(xs: seq<Taxi>, j: int)
    requires 0 <= j < |xs| && DistinctIds(xs)
    ensures DistinctIds(Without(xs, j))
  {
    var r := Without(xs, j);
    forall a, b | 0 <= a < b < |r|
      ensures r[a].id != r[b].id
    {
      var a' := if a < j then a else a + 1;
      var b' := if b < j then b else b + 1;
      assert r[a] == xs[a'] && r[b] == xs[b'];
    }
  }

  /** No taxi left after a removal shares the removed taxi's id. */
  lemma WithoutDropsId(xs: seq<Taxi>, j: int, t: Taxi)
    requires 0 <= j < |xs| && DistinctIds(xs) && t in Without(xs, j)
    ensures t.id != xs[j].id
  {
    var r := Without(xs, j);
    var q :| 0 <= q < |r| && r[q] == t;
    var q' := if q < j then q else q + 1;
    assert r[q] == xs[q'];
  }

  /** A taxi of the pool whose id differs from the removed one's stays in the pool. */
  lemma WithoutKeeps(xs: seq<Taxi>, j: int, t: Taxi)
    requires 0 <= j < |xs| && t in xs && t.id != xs[j].id
    ensures t in Without(xs, j)
  {
    var q :| 0 <= q < |xs| && xs[q] == t;
    assert Without(xs, j)[if q < j then q else q - 1] == t;
  }

  /** Idle taxis of a list whose ids are its indices have distinct ids, all in range. */
  lemma {:induction false} IdleOfIndices(taxis: seq<Taxi>)
    requires IdsAreIndices(taxis)
    ensures DistinctIds(IdleOf(taxis))
    ensures forall k :: 0 <= k < |IdleOf(taxis)| ==> 0 <= IdleOf(taxis)[k].id < |taxis|
    ensures |IdleOf(taxis)| == CountIdle(taxis)
    decreases |taxis|
  {
    if taxis != [] {
      var init := taxis[..|taxis| - 1];
      IdleOfIndices(init);
      var last := taxis[|taxis| - 1];
      forall k | 0 <= k < |IdleOf(init)|
        ensures IdleOf(init)[k].id < |taxis| - 1
      {
      }
    }
  }

  /** A taxi of a list whose ids are its indices sits at the index its id names. */
  lemma IndexedMember(taxis: seq<Taxi>, t: Taxi)
    requires IdsAreIndices(taxis) && t in taxis
    ensures 0 <= t.id < |taxis| && taxis[t.id] == t
  {
    var q :| 0 <= q < |taxis| && taxis[q] == t;
  }

  /** The taxis matched from a state's idle taxis are idle taxis of the state, at the
      index their id names. */
  lemma MatchingFromIdle(rs: seq<Request>, taxis: seq<Taxi>)
    requires IdsAreIndices(taxis)
    ensures forall k :: 0 <= k < |Matching(rs, IdleOf(taxis))| ==>
      var t := Matching(rs, IdleOf(taxis))[k].0;
      0 <= t.id < |taxis| && taxis[t.id] == t && t.status == Idle
  {
    var m := Matching(rs, IdleOf(taxis));
    MatchingFromPool(rs, IdleOf(taxis));
    forall k | 0 <= k < |m|
      ensures 0 <= m[k].0.id < |taxis| && taxis[m[k].0.id] == m[k].0 && m[k].0.status == Idle
    {
      IndexedMember(taxis, m[k].0);
    }
  }

  /** Applying pairs with distinct taxi ids puts each pair's assignment at its taxi's index
      and leaves every other entry as it was. */
  lemma {:induction false} ApplyAssigns(acts: JointAction, pairs: seq<(Taxi, Request)>)
    requires forall k :: 0 <= k < |pairs| ==> 0 <= pairs[k].0.id < |acts|
    requires forall k, l :: 0 <= k < l < |pairs| ==> pairs[k].0.id != pairs[l].0.id
    ensures forall k :: 0 <= k < |pairs| ==>
      Apply(acts, pairs)[pairs[k].0.id] == Action(pairs[k].0.id, Assign(Some(pairs[k].1)))
    ensures forall i :: 0 <= i < |acts| && i !in TaxiIds(pairs) ==> Apply(acts, pairs)[i] == acts[i]
    decreases |pairs|
  {
    if pairs != [] {
      var init := pairs[..|pairs| - 1];
      ApplyAssigns(acts, init);
      assert TaxiIds(pairs) == TaxiIds(init) + {pairs[|pairs| - 1].0.id};
      forall k | 0 <= k < |pairs| - 1
        ensures Apply(acts, pairs)[pairs[k].0.id] == Action(pairs[k].0.id, Assign(Some(pairs[k].1)))
      {
        assert init[k] == pairs[k];
      }
    }
  }

  /** What the greedy joint action is, taxi by taxi: an idle action for every taxi except
      the matched ones, which are exactly idle taxis, each assigned its matched request.
      As many taxis are assigned as there are idle taxis or requests, whichever is fewer,
      and the assigned requests are the first ones of the sorted list. */
  lemma DispatchMeaning(taxis: seq<Taxi>, sorted: seq<Request>)
    requires IdsAreIndices(taxis)
    ensures var acts := Dispatch(taxis, sorted);
      var m := Matching(sorted, IdleOf(taxis));
      && |m| == Min(|sorted|, CountIdle(taxis))
      && (forall k :: 0 <= k < |m| ==> m[k].1 == sorted[k])
      && (forall k :: 0 <= k < |m| ==>
            && 0 <= m[k].0.id < |taxis| && taxis[m[k].0.id] == m[k].0 && m[k].0.status == Idle
            && acts[m[k].0.id] == Action(m[k].0.id, Assign(Some(m[k].1))))
      && (forall i :: 0 <= i < |taxis| && i !in TaxiIds(m) ==> acts[i] == Action(i, Stay))
      && (forall k, l :: 0 <= k < l < |m| ==> m[k].0.id != m[l].0.id)
  {
    var idle := IdleOf(taxis);
    IdleOfIndices(taxis);
    MatchingServes(sorted, idle);
    MatchingDistinct(sorted, idle);
    MatchingFromIdle(sorted, taxis);
    ApplyAssigns(Defaults(taxis), Matching(sorted, idle));
  }

  /** Only taxis idle in the input are assigned, every assignment carries a request, and
      the entry at index `i` is always taxi `i`'s. */
  lemma DispatchOnlyIdle(taxis: seq<Taxi>, sorted: seq<Request>, i: int)
    requires IdsAreIndices(taxis) && 0 <= i < |taxis|
    ensures Dispatch(taxis, sorted)[i].taxiId == i
    ensures Dispatch(taxis, sorted)[i].kind == Stay ||
      (Dispatch(taxis, sorted)[i].kind.Assign? && Dispatch(taxis, sorted)[i].kind.request.Some? &&
       taxis[i].status == Idle && Dispatch(taxis, sorted)[i].kind.request.value in sorted)
  {
    DispatchMeaning(taxis, sorted);
    var m := Matching(sorted, IdleOf(taxis));
    if i in TaxiIds(m) {
      var k :| 0 <= k < |m| && m[k].0.id == i;
      assert m[k].1 == sorted[k];
      assert m[k].0 in taxis;
      var q :| 0 <= q < |taxis| && taxis[q] == m[k].0;
    }
  }

  /** The number of assigned taxis is the smaller of the idle-taxi and request counts. */
  lemma DispatchCount(taxis: seq<Taxi>, sorted: seq<Request>)
    requires IdsAreIndices(taxis)
    ensures |AssignedTaxis(Dispatch(taxis, sorted))| == Min(|sorted|, CountIdle(taxis))
  {
    var m := Matching(sorted, IdleOf(taxis));
    IdleOfIndices(taxis);
    MatchingDistinct(sorted, IdleOf(taxis));
    MatchingFromIdle(sorted, taxis);
    ApplyCount(Defaults(taxis), m);
  }

  /** Applying pairs with distinct taxi ids to actions without assignments leaves exactly
      one assignment per pair. */
  lemma ApplyCount(acts: JointAction, pairs: seq<(Taxi, Request)>)
    requires forall i :: 0 <= i < |acts| ==> !acts[i].kind.Assign?
    requires forall k :: 0 <= k < |pairs| ==> 0 <= pairs[k].0.id < |acts|
    requires forall k, l :: 0 <= k < l < |pairs| ==> pairs[k].0.id != pairs[l].0.id
    ensures |AssignedTaxis(Apply(acts, pairs))| == |pairs|
  {
    ApplyAssigns(acts, pairs);
    var r := Apply(acts, pairs);
    var chosen := AssignedTaxis(r);
    forall i | i in TaxiIds(pairs)
      ensures i in chosen
    {
      var k :| 0 <= k < |pairs| && pairs[k].0.id == i;
      assert r[i] == Action(i, Assign(Some(pairs[k].1)));
    }
    assert chosen == TaxiIds(pairs);
    DistinctIdsCount(pairs);
  }

  lemma {:induction false} DistinctIdsCount(pairs: seq<(Taxi, Request)>)
    requires forall k, l :: 0 <= k < l < |pairs| ==> pairs[k].0.id != pairs[l].0.id
    ensures |TaxiIds(pairs)| == |pairs|
    decreases |pairs|
  {
    if pairs != [] {
      var init := pairs[..|pairs| - 1];
      DistinctIdsCount(init);
      var last := pairs[|pairs| - 1].0.id;
      assert TaxiIds(pairs) == TaxiIds(init) + {last};
      assert last !in TaxiIds(init);
    }
  }

  // ---------------------------------------------------------------------------------------
  // The policy as the source runs it

  /** `GreedyPolicy.selectAction`. Reads the state and changes nothing in it; returns the
      greedy joint action for the requests in the order the sort leaves them, which is
      returned as `sorted`: the state's requests, longest-waiting first, requests of equal
      waiting time in the state's order (`SortedUnique` shows this fixes `sorted`). */
  method SelectAction(state: State) returns (actions: JointAction, ghost sorted: seq<Request>)
    requires IdsAreIndices(state.taxis[..])
    ensures NonIncreasing(sorted) && multiset(sorted) == multiset(state.requests)
    ensures SameTies(sorted, state.requests)
    ensures actions == Dispatch(state.taxis[..], sorted)
  {
    var taxis := state.taxis;
    actions := [];
    var i := 0;
    while i < taxis.Length
      invariant 0 <= i <= taxis.Length
      invariant |actions| == i && forall k :: 0 <= k < i ==> actions[k] == Action(taxis[k].id, Stay)
    {
      actions := actions + [Action(taxis[i].id, Stay)];
      i := i + 1;
    }
    assert actions == Defaults(taxis[..]);

    var idleTaxis := [];
    i := 0;
    while i < taxis.Length
      invariant 0 <= i <= taxis.Length
      invariant idleTaxis == IdleOf(taxis[..i])
    {
      assert taxis[..i + 1][..i] == taxis[..i];
      if taxis[i].status == Idle {
        idleTaxis := idleTaxis + [taxis[i]];
      }
      i := i + 1;
    }
    assert taxis[..i] == taxis[..];

    var requests := new Request[|state.requests|];
    i := 0;
    while i < |state.requests|
      invariant 0 <= i <= |state.requests|
      invariant requests[..i] == state.requests[..i]
    {
      requests[i] := state.requests[i];
      i := i + 1;
    }
    assert requests[..] == state.requests;
    SortByWaitingTime(requests);
    sorted := requests[..];

    actions := AssignRequests(taxis[..], actions, idleTaxis, requests);
  }

  /** The bubble sort of `selectAction`, in place: `n` passes, each swapping neighbours
      whose waiting times are in increasing order. It swaps only on a strict `<`, so it is
      stable: requests of equal waiting time keep their order. */
  method SortByWaitingTime(requests: array<Request>)
    modifies requests
    ensures NonIncreasing(requests[..])
    ensures multiset(requests[..]) == multiset(old(requests[..]))
    ensures SameTies(requests[..], old(requests[..]))
  {
    var n := requests.Length;
    var a := 0;
    while a < n
      invariant 0 <= a <= n
      invariant Settled(requests[..], n - a)
      invariant multiset(requests[..]) == multiset(old(requests[..]))
      invariant SameTies(requests[..], old(requests[..]))
    {
      BubblePass(requests, n - a);
      a := a + 1;
    }
    assert requests[0..] == requests[..];
  }

  /** The waiting-time attribute the bubble sort reads at greedy_policy.py:47, under the
      given spelling: `Request` defines it as `waiting_time`, and a read under any other
      spelling raises `AttributeError` (here `None`). */
  function ReadWaitingTime(r: Request, name: string): (v: Option<int>)
    ensures v.Some? <==> name == "waiting_time"
    ensures v.Some? ==> v.value == r.waitingTime
  {
    if name == "waiting_time" then Some(r.waitingTime) else None
  }

  /** The bubble sort as written, with the attribute name it reads as a parameter; the
      source reads `waitingTime`. The first comparison raises whenever the name is not
      `waiting_time`, and a comparison happens exactly when there are two or more requests.
      It raises before any swap, so a sort that raises leaves the requests as they were. */
  method SortAsWritten(requests: array<Request>, name: string) returns (raised: bool)
    modifies requests
    ensures raised <==> requests.Length >= 2 && name != "waiting_time"
    ensures raised ==> requests[..] == old(requests[..])
  {
    var n := requests.Length;
    var a := 0;
    while a < n
      invariant 0 <= a <= n
      invariant a > 0 ==> n <= 1 || name == "waiting_time"
      invariant name != "waiting_time" ==> requests[..] == old(requests[..])
    {
      var b := 0;
      while b < n - 1
        invariant 0 <= b && (b == 0 || b <= n - 1)
        invariant b > 0 ==> name == "waiting_time"
        invariant name != "waiting_time" ==> requests[..] == old(requests[..])
      {
        var left := ReadWaitingTime(requests[b], name);
        var right := ReadWaitingTime(requests[b + 1], name);
        if left.None? || right.None? {
          return true;
        }
        if left.value < right.value {
          var temp := requests[b];
          requests[b] := requests[b + 1];
          requests[b + 1] := temp;
        }
        b := b + 1;
      }
      a := a + 1;
    }
    return false;
  }

  /** The requests of `rs` that have waited exactly `w` ticks, in their order in `rs`. */
  function WithWait(rs: seq<Request>, w: int): (r: seq<Request>)
    ensures |r| <= |rs|
  {
    if rs == [] then [] else Kept(rs[0], w) + WithWait(rs[1..], w)
  }

  function Kept(r: Request, w: int): seq<Request> {
    if r.waitingTime == w then [r] else []
  }

  /** For every waiting time, `s` and `t` hold the same requests of that waiting time in
      the same order. */
  ghost predicate SameTies(s: seq<Request>, t: seq<Request>) {
    forall w :: WithWait(s, w) == WithWait(t, w)
  }

  /** A request is kept exactly when it is one of `rs` with waiting time `w`. */
  lemma {:induction false} WithWaitMembers(rs: seq<Request>, w: int, x: Request)
    ensures x in WithWait(rs, w) <==> x in rs && x.waitingTime == w
    decreases |rs|
  {
    if rs != [] {
      WithWaitMembers(rs[1..], w, x);
      assert rs == [rs[0]] + rs[1..];
    }
  }

  lemma {:induction false} WithWaitAppend(a: seq<Request>, b: seq<Request>, w: int)
    ensures WithWait(a + b, w) == WithWait(a, w) + WithWait(b, w)
    decreases |a|
  {
    if a == [] {
      assert a + b == b;
    } else {
      var ab := a + b;
      assert ab[0] == a[0] && ab[1..] == a[1..] + b;
      WithWaitAppend(a[1..], b, w);
      calc {
        WithWait(ab, w);
        Kept(a[0], w) + WithWait(a[1..] + b, w);
        Kept(a[0], w) + (WithWait(a[1..], w) + WithWait(b, w));
        (Kept(a[0], w) + WithWait(a[1..], w)) + WithWait(b, w);
      }
    }
  }

  lemma DropCommonHead(h: seq<Request>, x: seq<Request>, y: seq<Request>)
    requires h + x == h + y
    ensures x == y
  {
    assert x == (h + x)[|h|..] && y == (h + y)[|h|..];
  }

  /** Swapping two neighbours of different waiting times keeps every tie's order. */
  lemma SwapKeepsTies(s: seq<Request>, b: int)
    requires 0 <= b < |s| - 1 && s[b].waitingTime != s[b + 1].waitingTime
    ensures SameTies(s[b := s[b + 1]][b + 1 := s[b]], s)
  {
    forall w
      ensures WithWait(s[b := s[b + 1]][b + 1 := s[b]], w) == WithWait(s, w)
    {
      SwapKeepsTie(s, b, w);
    }
  }

  lemma SwapKeepsTie(s: seq<Request>, b: int, w: int)
    requires 0 <= b < |s| - 1 && s[b].waitingTime != s[b + 1].waitingTime
    ensures WithWait(s[b := s[b + 1]][b + 1 := s[b]], w) == WithWait(s, w)
  {
    var x, y, front, back := s[b], s[b + 1], s[..b], s[b + 2..];
    assert s == (front + [x, y]) + back;
    assert s[b := y][b + 1 := x] == (front + [y, x]) + back;
    WithWaitAppend(front + [x, y], back, w);
    WithWaitAppend(front, [x, y], w);
    WithWaitAppend(front + [y, x], back, w);
    WithWaitAppend(front, [y, x], w);
    PairTie(x, y, w);
  }

  lemma PairTie(x: Request, y: Request, w: int)
    requires x.waitingTime != y.waitingTime
    ensures WithWait([x, y], w) == WithWait([y, x], w)
  {
    assert [x, y][1..] == [y] && [y, x][1..] == [x];
    assert [y][1..] == [] && [x][1..] == [];
  }

  /** Ordering by waiting time and keeping every tie's order fix the result: two sorted
      sequences with the same ties are equal, so the sort's outcome, and with it the greedy
      joint action, is determined by the input. */
  lemma {:induction false} SortedUnique(s: seq<Request>, t: seq<Request>)
    requires NonIncreasing(s) && NonIncreasing(t) && SameTies(s, t)
    ensures s == t
    decreases |s| + |t|
  {
    if s == [] || t == [] {
      if s != [] {
        WithWaitMembers(t, s[0].waitingTime, s[0]);
        WithWaitMembers(s, s[0].waitingTime, s[0]);
      } else if t != [] {
        WithWaitMembers(s, t[0].waitingTime, t[0]);
        WithWaitMembers(t, t[0].waitingTime, t[0]);
      }
    } else {
      var ws, wt := s[0].waitingTime, t[0].waitingTime;
      WithWaitMembers(s, ws, s[0]);
      assert s[0] in WithWait(t, ws) by { assert WithWait(s, ws) == WithWait(t, ws); }
      WithWaitMembers(t, ws, s[0]);
      WithWaitMembers(t, wt, t[0]);
      assert t[0] in WithWait(s, wt) by { assert WithWait(s, wt) == WithWait(t, wt); }
      WithWaitMembers(s, wt, t[0]);
      assert ws == wt;
      assert WithWait(s, ws) == [s[0]] + WithWait(s[1..], ws);
      assert WithWait(t, ws) == [t[0]] + WithWait(t[1..], ws);
      assert s[0] == t[0] by { assert WithWait(s, ws)[0] == WithWait(t, ws)[0]; }
      forall w
        ensures WithWait(s[1..], w) == WithWait(t[1..], w)
      {
        assert Kept(s[0], w) + WithWait(s[1..], w) == Kept(t[0], w) + WithWait(t[1..], w) by {
          assert WithWait(s, w) == WithWait(t, w);
        }
        assert Kept(s[0], w) == Kept(t[0], w);
        DropCommonHead(Kept(s[0], w), WithWait(s[1..], w), WithWait(t[1..], w));
      }
      SortedUnique(s[1..], t[1..]);
      assert s == [s[0]] + s[1..] && t == [t[0]] + t[1..];
    }
  }

  /** The first `m` entries all wait at least as long as the rest, which are sorted. */
  ghost predicate Settled(rs: seq<Request>, m: int)
    requires 0 <= m <= |rs|
  {
    && NonIncreasing(rs[m..])
    && forall i, j :: 0 <= i < m <= j < |rs| ==> rs[i].waitingTime >= rs[j].waitingTime
  }

  /** Entry `Min(b, m - 1)` waits no longer than any entry before it. */
  ghost predicate LeastSoFar(rs: seq<Request>, m: int, b: int)
    requires 1 <= m <= |rs| && 0 <= b
  {
    forall k :: 0 <= k <= Min(b, m - 1) ==> rs[k].waitingTime >= rs[Min(b, m - 1)].waitingTime
  }

  /** One pass of the inner loop: the least waiting time of the unsettled prefix moves to
      its end, so one more entry is settled. */
  method BubblePass(requests: array<Request>, m: int)
    requires 1 <= m <= requests.Length && Settled(requests[..], m)
    modifies requests
    ensures Settled(requests[..], m - 1)
    ensures multiset(requests[..]) == multiset(old(requests[..]))
    ensures SameTies(requests[..], old(requests[..]))
  {
    var n := requests.Length;
    var b := 0;
    while b < n - 1
      invariant 0 <= b && (b == 0 || b <= n - 1)
      invariant Settled(requests[..], m) && LeastSoFar(requests[..], m, b)
      invariant multiset(requests[..]) == multiset(old(requests[..]))
      invariant SameTies(requests[..], old(requests[..]))
    {
      ghost var before := requests[..];
      if requests[b].waitingTime < requests[b + 1].waitingTime {
        SwapNext(requests, b);
        SwapKeepsTies(before, b);
      }
      CompareStep(before, requests[..], m, b);
      b := b + 1;
    }
    PassEnds(requests[..], m, b);
  }

  /** The swap through a temporary of entries `b` and `b + 1`. */
  method SwapNext(requests: array<Request>, b: int)
    requires 0 <= b < requests.Length - 1
    modifies requests
    ensures requests[..] == old(requests[..])[b := old(requests[b + 1])][b + 1 := old(requests[b])]
  {
    var temp := requests[b];
    requests[b] := requests[b + 1];
    requests[b + 1] := temp;
  }

  /** One compare-and-swap of the inner loop keeps the settled part and moves the least
      waiting time seen so far one place on. */
  lemma CompareStep(s: seq<Request>, t: seq<Request>, m: int, b: int)
    requires 1 <= m <= |s| && 0 <= b < |s| - 1
    requires Settled(s, m) && LeastSoFar(s, m, b)
    requires t == if s[b].waitingTime < s[b + 1].waitingTime then s[b := s[b + 1]][b + 1 := s[b]] else s
    ensures |t| == |s| && multiset(t) == multiset(s)
    ensures Settled(t, m) && LeastSoFar(t, m, b + 1)
  {
    CompareKeepsSettled(s, t, m, b);
    CompareMovesLeast(s, t, m, b);
  }

  lemma CompareKeepsSettled(s: seq<Request>, t: seq<Request>, m: int, b: int)
    requires 1 <= m <= |s| && 0 <= b < |s| - 1
    requires Settled(s, m)
    requires t == if s[b].waitingTime < s[b + 1].waitingTime then s[b := s[b + 1]][b + 1 := s[b]] else s
    ensures |t| == |s| && multiset(t) == multiset(s)
    ensures Settled(t, m)
  {
    if b < m - 1 && s[b].waitingTime < s[b + 1].waitingTime {
      assert t[m..] == s[m..];
    } else if b >= m {
      assert s[m..][b - m].waitingTime >= s[m..][b + 1 - m].waitingTime;
    }
  }

  lemma CompareMovesLeast(s: seq<Request>, t: seq<Request>, m: int, b: int)
    requires 1 <= m <= |s| && 0 <= b < |s| - 1
    requires Settled(s, m) && LeastSoFar(s, m, b)
    requires t == if s[b].waitingTime < s[b + 1].waitingTime then s[b := s[b + 1]][b + 1 := s[b]] else s
    ensures LeastSoFar(t, m, b + 1)
  {
    if b == m - 1 {
      assert s[b].waitingTime >= s[b + 1].waitingTime;
    } else if b >= m {
      assert s[m..][b - m].waitingTime >= s[m..][b + 1 - m].waitingTime;
    }
  }

  /** After a full pass the least waiting time of the prefix sits at its end. */
  lemma PassEnds(s: seq<Request>, m: int, b: int)
    requires 1 <= m <= |s| && 0 <= b && (b == 0 || b <= |s| - 1) && b >= |s| - 1
    requires Settled(s, m) && LeastSoFar(s, m, b)
    ensures Settled(s, m - 1)
  {
    var settled, rest := s[m - 1..], s[m..];
    forall i, j | 0 <= i < j < |settled|
      ensures settled[i].waitingTime >= settled[j].waitingTime
    {
      if i > 0 {
        assert settled[i] == rest[i - 1] && settled[j] == rest[j - 1];
      }
    }
  }

  /** The assignment loop of `selectAction`: for each request in the sorted order, stop
      once no idle taxi is left, otherwise assign the nearest one and drop it from the pool. */
  method AssignRequests(ghost taxis: seq<Taxi>, defaults: JointAction, idle: seq<Taxi>, requests: array<Request>)
    returns (actions: JointAction)
    requires IdsAreIndices(taxis) && defaults == Defaults(taxis) && idle == IdleOf(taxis)
    ensures actions == Dispatch(taxis, requests[..])
  {
    MatchingFromIdle(requests[..], taxis);
    assert IdsInRange(Matching(requests[..], idle), |taxis|);
    ghost var target := Matching(requests[..], idle);
    ghost var done: seq<(Taxi, Request)> := [];
    actions := defaults;
    var idleTaxis := idle;
    var rIndex := 0;
    while rIndex < requests.Length
      invariant 0 <= rIndex <= requests.Length
      invariant done + Matching(requests[rIndex..], idleTaxis) == target
      invariant IdsInRange(done, |defaults|)
      invariant actions == Apply(defaults, done)
    {
      var r := requests[rIndex];
      if |idleTaxis| == 0 {
        break;
      }
      var bestIndex := FindNearest(idleTaxis, r.origin);
      var bestTaxi := idleTaxis[bestIndex];
      AssignRound(defaults, done, target, requests[..], rIndex, idleTaxis);
      actions := actions[bestTaxi.id := Action(bestTaxi.id, Assign(Some(r)))];
      done := done + [(bestTaxi, r)];
      idleTaxis := RemoveIndex(idleTaxis, bestIndex);
      rIndex := rIndex + 1;
    }
    assert done == target;
  }

  /** One round of the assignment loop takes the next pair of the matching and writes its
      assignment over the actions so far. */
  lemma AssignRound(defaults: JointAction, done: seq<(Taxi, Request)>, target: seq<(Taxi, Request)>,
                    rs: seq<Request>, i: int, idle: seq<Taxi>)
    requires 0 <= i < |rs| && idle != [] && done + Matching(rs[i..], idle) == target
    requires IdsInRange(target, |defaults|) && IdsInRange(done, |defaults|)
    ensures var j := Nearest(idle, rs[i].origin);
      var done' := done + [(idle[j], rs[i])];
      && 0 <= idle[j].id < |defaults|
      && done' + Matching(rs[i + 1..], Without(idle, j)) == target
      && IdsInRange(done', |defaults|)
      && Apply(defaults, done') == Apply(defaults, done)[idle[j].id := Action(idle[j].id, Assign(Some(rs[i])))]
  {
    var j := Nearest(idle, rs[i].origin);
    var rest := Matching(rs[i + 1..], Without(idle, j));
    assert rs[i..][1..] == rs[i + 1..];
    assert Matching(rs[i..], idle) == [(idle[j], rs[i])] + rest;
    AppendAssoc(done, [(idle[j], rs[i])], rest);
    assert target[|done|] == (idle[j], rs[i]);
    var done' := done + [(idle[j], rs[i])];
    assert done'[..|done|] == done;
  }

  /** The nearest-taxi scan: the best distance starts at infinity (`None`) and is replaced
      only by a strictly smaller one. */
  method FindNearest(idleTaxis: seq<Taxi>, origin: Pos) returns (bestIndex: int)
    requires |idleTaxis| > 0
    ensures bestIndex == Nearest(idleTaxis, origin)
  {
    bestIndex := 0;
    var bestDistance: Option<nat> := None;
    var j := 0;
    while j < |idleTaxis|
      invariant 0 <= j <= |idleTaxis|
      invariant j == 0 ==> bestIndex == 0 && bestDistance == None
      invariant j > 0 ==>
        bestIndex == Nearest(idleTaxis[..j], origin) &&
        bestDistance == Some(Manhattan(idleTaxis[bestIndex].position, origin))
    {
      var distance := Manhattan(idleTaxis[j].position, origin);
      if bestDistance.None? || distance < bestDistance.value {
        bestDistance := Some(distance);
        bestIndex := j;
      }
      assert idleTaxis[..j + 1][..j] == idleTaxis[..j];
      j := j + 1;
    }
    assert idleTaxis[..j] == idleTaxis;
  }

  /** The rebuilt idle list: every taxi but the chosen one, in order. */
  method RemoveIndex(idleTaxis: seq<Taxi>, bestIndex: int) returns (newIdle: seq<Taxi>)
    requires 0 <= bestIndex < |idleTaxis|
    ensures newIdle == Without(idleTaxis, bestIndex)
  {
    newIdle := [];
    var j := 0;
    while j < |idleTaxis|
      invariant 0 <= j <= |idleTaxis|
      invariant newIdle == if j <= bestIndex then idleTaxis[..j] else Without(idleTaxis, bestIndex)[..j - 1]
    {
      if j != bestIndex {
        newIdle := newIdle + [idleTaxis[j]];
      }
      j := j + 1;
    }
  }
}
