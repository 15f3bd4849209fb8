/** The Monte Carlo tree search planner of mcts_policy.py. The tree is an arena: node `i`
    lives at `nodes[i]` and refers to its parent and children by index, and its world state
    is `states[i]`. Every random choice comes from an oracle of draws read at a cursor. */
module Mcts {
  import opened Wrappers
  import opened Domain
  import opened Transition
  import opened StepLemmas
  import opened Rewards
  import opened Simulation
  import opened MctsActions

  /** The draws of one random event: `pick` chooses among the candidates of a
      `random.choice`, `step` drives the `step` call made next. */
  datatype Draw = Draw(pick: nat, step: StepDraws)

  type Oracle = nat -> Draw

  /** Every request draw of the oracle ends its destination redraw loop. */
  ghost predicate Feasible(draws: Oracle) {
    forall n: nat :: ArrivalsEnd(draws(n).step.arrivals)
  }

  /** `rollout`'s default depth. */
  const Depth: nat := 10

  /** An `MCTSNode` without its state: parent, the joint action leading to it, children,
      visit count and accumulated value. */
  datatype Node = Node(parent: Option<nat>, action: Option<JointAction>, children: seq<nat>, visits: nat, value: real)

  function Parents(nodes: seq<Node>): (ps: seq<Option<nat>>)
    ensures |ps| == |nodes| && forall i :: 0 <= i < |nodes| ==> ps[i] == nodes[i].parent
  {
    seq(|nodes|, i requires 0 <= i < |nodes| => nodes[i].parent)
  }

  /** A parent always comes before its child in the arena. */
  predicate ParentsBefore(ps: seq<Option<nat>>) {
    forall i :: 0 <= i < |ps| && ps[i].Some? ==> ps[i].value < i
  }

  /** Node `a` lies on the parent chain from `d` to the root, `d` itself included. */
  predicate Above(ps: seq<Option<nat>>, a: int, d: int)
    requires ParentsBefore(ps) && 0 <= d < |ps|
    decreases d
  {
    a == d || (ps[d].Some? && Above(ps, a, ps[d].value))
  }

  /** The tree's shape: node 0 is the root, every other node has an earlier parent, every
      child points back to its parent, and no child has more visits than its parent. */
  predicate Shape(nodes: seq<Node>) {
    && |nodes| > 0
    && nodes[0].parent == None
    && (forall i :: 0 < i < |nodes| ==> nodes[i].parent.Some? && nodes[i].parent.value < i)
    && (forall i, k :: 0 <= i < |nodes| && 0 <= k < |nodes[i].children| ==>
          i < nodes[i].children[k] < |nodes| && nodes[nodes[i].children[k]].parent == Some(i))
    && (forall i :: 0 < i < |nodes| ==> nodes[i].visits <= nodes[nodes[i].parent.value].visits)
  }

  lemma ShapeParents(nodes: seq<Node>)
    requires Shape(nodes)
    ensures ParentsBefore(Parents(nodes))
  {
  }

  /** Every node descends from the root. */
  lemma {:induction false} RootAbove(ps: seq<Option<nat>>, d: int)
    requires ParentsBefore(ps) && 0 <= d < |ps|
    requires forall i :: 0 < i < |ps| ==> ps[i].Some?
    ensures Above(ps, 0, d)
    decreases d
  {
    if d > 0 {
      RootAbove(ps, ps[d].value);
    }
  }

  /** The chain from `d` is closed upwards: with a node, it holds the node's parent. */
  lemma {:induction false} AboveParent(ps: seq<Option<nat>>, c: int, d: int)
    requires ParentsBefore(ps) && 0 <= d < |ps| && 0 <= c < |ps| && ps[c].Some?
    requires Above(ps, c, d)
    ensures Above(ps, ps[c].value, d)
    decreases d
  {
    if c != d {
      AboveParent(ps, c, ps[d].value);
    }
  }

  /** A node with one more visit and `reward` more value. */
  function Visited(n: Node, reward: real): Node {
    n.(visits := n.visits + 1, value := n.value + reward)
  }

  /** `backpropagate` as a function: the nodes on the chain from `start` to the root are
      visited once more, the others are left as they were. */
  function Backpropagated(nodes: seq<Node>, start: int, reward: real): (r: seq<Node>)
    requires ParentsBefore(Parents(nodes)) && 0 <= start < |nodes|
    ensures |r| == |nodes| && r[start] == Visited(nodes[start], reward)
  {
    seq(|nodes|, i requires 0 <= i < |nodes| =>
      if Above(Parents(nodes), i, start) then Visited(nodes[i], reward) else nodes[i])
  }

  /** Nothing lies on the chain from `d` below `d`. */
  lemma {:induction false} AboveIsEarlier(ps: seq<Option<nat>>, a: int, d: int)
    requires ParentsBefore(ps) && 0 <= d < |ps| && Above(ps, a, d)
    ensures a <= d
    decreases d
  {
    if a != d {
      AboveIsEarlier(ps, a, ps[d].value);
    }
  }

  /** `backpropagate`'s loop has visited the chain from `start` up to, not including,
      `node`. */
  ghost predicate PartlyBackpropagated(orig: seq<Node>, start: int, node: Option<nat>, reward: real, nodes: seq<Node>)
    requires ParentsBefore(Parents(orig)) && 0 <= start < |orig|
  {
    var ps := Parents(orig);
    && |nodes| == |orig|
    && (node.Some? ==> node.value < |orig| && Above(ps, node.value, start))
    && forall i :: 0 <= i < |orig| ==>
         nodes[i] == if Above(ps, i, start) && !(node.Some? && Above(ps, i, node.value)) then Visited(orig[i], reward) else orig[i]
  }

  /** One round of `backpropagate`'s loop visits `node` and moves to its parent. */
  lemma BackpropagateStep(orig: seq<Node>, start: int, x: nat, reward: real, nodes: seq<Node>)
    requires ParentsBefore(Parents(orig)) && 0 <= start < |orig|
    requires PartlyBackpropagated(orig, start, Some(x), reward, nodes)
    ensures nodes[x] == orig[x]
    ensures PartlyBackpropagated(orig, start, orig[x].parent, reward, nodes[x := Visited(nodes[x], reward)])
  {
    var ps := Parents(orig);
    var after := nodes[x := Visited(nodes[x], reward)];
    var up := orig[x].parent;
    if up.Some? {
      AboveParent(ps, x, start);
    }
    forall i | 0 <= i < |orig|
      ensures after[i] == if Above(ps, i, start) && !(up.Some? && Above(ps, i, up.value)) then Visited(orig[i], reward) else orig[i]
    {
      if i == x && up.Some? && Above(ps, i, up.value) {
        AboveIsEarlier(ps, i, up.value);
      }
    }
  }

  /** When `backpropagate`'s loop ends, the whole chain has been visited. */
  lemma BackpropagateDone(orig: seq<Node>, start: int, reward: real, nodes: seq<Node>)
    requires ParentsBefore(Parents(orig)) && 0 <= start < |orig|
    requires PartlyBackpropagated(orig, start, None, reward, nodes)
    ensures nodes == Backpropagated(orig, start, reward)
  {
  }

  /** Backpropagation reaches the root and keeps the tree's shape; only visits and value
      change, and only on the chain from `start`. */
  lemma BackpropagatedShape(nodes: seq<Node>, start: int, reward: real)
    requires Shape(nodes) && 0 <= start < |nodes|
    ensures ParentsBefore(Parents(nodes))
    ensures var r := Backpropagated(nodes, start, reward);
      && Shape(r) && Parents(r) == Parents(nodes)
      && r[0] == Visited(nodes[0], reward) && r[start] == Visited(nodes[start], reward)
      && (forall i :: 0 <= i < |nodes| ==>
            r[i].parent == nodes[i].parent && r[i].action == nodes[i].action && r[i].children == nodes[i].children)
  {
    var ps := Parents(nodes);
    var r := Backpropagated(nodes, start, reward);
    RootAbove(ps, start);
    forall i | 0 < i < |nodes|
      ensures r[i].visits <= r[nodes[i].parent.value].visits
    {
      if Above(ps, i, start) {
        AboveParent(ps, i, start);
      }
    }
    assert Parents(r) == ps;
  }

  /** `|nodes[..]|` grown by `m` children of `leaf`, the j-th one reached by `acts[j]`. */
  predicate Grown(before: seq<Node>, after: seq<Node>, leaf: int, acts: seq<JointAction>, m: int)
    requires 0 <= leaf < |before| && 0 <= m <= |acts|
  {
    && |after| == |before| + m
    && (forall i :: 0 <= i < |before| && i != leaf ==> after[i] == before[i])
    && after[leaf] == before[leaf].(children := Range(|before|, m))
    && (forall j :: 0 <= j < m ==> after[|before| + j] == Node(Some(leaf), Some(acts[j]), [], 0, 0.0))
  }

  function Range(lo: int, m: nat): (r: seq<nat>)
    requires lo >= 0
    ensures |r| == m && forall j :: 0 <= j < m ==> r[j] == lo + j
  {
    seq(m, j requires 0 <= j < m => lo + j)
  }

  /** Node `i` after growing: an old node, the leaf with its new children, or a new child. */
  lemma GrownAt(before: seq<Node>, after: seq<Node>, leaf: int, acts: seq<JointAction>, m: int, i: int)
    requires 0 <= leaf < |before| && 0 <= m <= |acts| && Grown(before, after, leaf, acts, m)
    requires 0 <= i < |after|
    ensures i < |before| && i != leaf ==> after[i] == before[i]
    ensures i == leaf ==> after[i] == before[i].(children := Range(|before|, m))
    ensures i >= |before| ==> after[i] == Node(Some(leaf), Some(acts[i - |before|]), [], 0, 0.0)
  {
    if i >= |before| {
      assert after[|before| + (i - |before|)] == Node(Some(leaf), Some(acts[i - |before|]), [], 0, 0.0);
    }
  }

  /** Appending fresh children to a leaf keeps the tree's shape. */
  lemma GrownShape(before: seq<Node>, after: seq<Node>, leaf: int, acts: seq<JointAction>, m: int)
    requires Shape(before) && 0 <= leaf < |before| && before[leaf].children == [] && 0 <= m <= |acts|
    requires Grown(before, after, leaf, acts, m)
    ensures Shape(after)
  {
    forall i | 0 <= i < |after|
      ensures after[i].parent == (if i < |before| then before[i].parent else Some(leaf))
      ensures after[i].visits == (if i < |before| then before[i].visits else 0)
      ensures after[i].children == (if i == leaf then Range(|before|, m) else if i < |before| then before[i].children else [])
    {
      GrownAt(before, after, leaf, acts, m, i);
    }
    forall i, k | 0 <= i < |after| && 0 <= k < |after[i].children|
      ensures i < after[i].children[k] < |after| && after[after[i].children[k]].parent == Some(i)
    {
      if i < |before| && i != leaf {
        assert after[i].children[k] < |before|;
      }
    }
  }

  /** The views of the states are well formed, so their legal actions are defined. */
  predicate ViewsWellFormed(views: seq<Snapshot>) {
    forall i :: 0 <= i < |views| ==> WellFormed(views[i].taxis)
  }

  /** Node `n` was fully expanded by `acts`, or not at all: its k-th child is reached by
      `acts[k]`. */
  predicate ExpandedBy(n: Node, nodes: seq<Node>, acts: seq<JointAction>) {
    n.children != [] ==>
      && |n.children| == |acts|
      && forall k :: 0 <= k < |n.children| ==> 0 <= n.children[k] < |nodes| && nodes[n.children[k]].action == Some(acts[k])
  }

  /** The root, once it has children, was expanded by the legal joint actions of its
      state: its k-th child is reached by the k-th of them. */
  predicate RootLegal(nodes: seq<Node>, views: seq<Snapshot>)
    requires |nodes| > 0 && |views| > 0 && WellFormed(views[0].taxis)
  {
    ExpandedBy(nodes[0], nodes, LegalActions(views[0]))
  }

  lemma GrownExpandedBy(before: seq<Node>, after: seq<Node>, leaf: int, acts: seq<JointAction>, i: int, other: seq<JointAction>)
    requires Shape(before) && 0 <= leaf < |before| && before[leaf].children == []
    requires Grown(before, after, leaf, acts, |acts|) && 0 <= i < |after|
    requires i < |before| && i != leaf ==> ExpandedBy(before[i], before, other)
    requires i == leaf ==> other == acts
    ensures ExpandedBy(after[i], after, other)
  {
    GrownAt(before, after, leaf, acts, |acts|, i);
    if i < |before| && i != leaf && after[i].children != [] {
      forall k | 0 <= k < |after[i].children|
        ensures after[after[i].children[k]].action == before[before[i].children[k]].action
      {
        var c := before[i].children[k];
        GrownAt(before, after, leaf, acts, |acts|, c);
      }
    } else if i == leaf {
      forall k | 0 <= k < |after[i].children|
        ensures after[after[i].children[k]].action == Some(acts[k])
      {
        GrownAt(before, after, leaf, acts, |acts|, |before| + k);
      }
    }
  }

  /** Changing only visit counts and values keeps every expansion in place. */
  lemma RelabelledExpandedBy(before: seq<Node>, after: seq<Node>, i: int, acts: seq<JointAction>)
    requires |before| == |after| && 0 <= i < |before| && ExpandedBy(before[i], before, acts)
    requires forall j :: 0 <= j < |before| ==> after[j].action == before[j].action && after[j].children == before[j].children
    ensures ExpandedBy(after[i], after, acts)
  {
  }

  /** The states of the arena: held in `S`, their arrays in `A`, valid, and of value `vs`. */
  ghost predicate StatesMatch(ss: seq<State>, vs: seq<Snapshot>, S: set<State>, A: set<array<Taxi>>)
    reads S, A
  {
    && |ss| == |vs|
    && forall i :: 0 <= i < |ss| ==>
         ss[i] in S && ss[i].taxis in A && ss[i].Valid() && ss[i].View() == vs[i]
  }

  /** A new valid state joins the tree's states, together with its view. */
  lemma StatesMatchSnoc(ss: seq<State>, vs: seq<Snapshot>, S: set<State>, A: set<array<Taxi>>, n: State)
    requires StatesMatch(ss, vs, S, A) && n.Valid()
    ensures StatesMatch(ss + [n], vs + [n.View()], S + {n}, A + {n.taxis})
  {
    var ss', vs' := ss + [n], vs + [n.View()];
    forall i | 0 <= i < |ss'|
      ensures ss'[i] in S + {n} && ss'[i].taxis in A + {n.taxis} && ss'[i].Valid() && ss'[i].View() == vs'[i]
    {
      if i < |ss| {
        assert ss'[i] == ss[i] && vs'[i] == vs[i];
      }
    }
  }

  lemma StatesMatchWellFormed(ss: seq<State>, vs: seq<Snapshot>, S: set<State>, A: set<array<Taxi>>)
    requires StatesMatch(ss, vs, S, A)
    ensures ViewsWellFormed(vs)
  {
    forall i | 0 <= i < |vs|
      ensures WellFormed(vs[i].taxis)
    {
      assert ss[i].Valid();
    }
  }

  /** `random.choice(actions)` on the legal joint actions of `s`. */
  function Pick(s: Snapshot, d: Draw): (a: JointAction)
    requires WellFormed(s.taxis)
    ensures a in LegalActions(s) && ActionsInRange(a, |s.taxis|)
  {
    var acts := LegalActions(s);
    LegalActionsShaped(s);
    acts[d.pick % |acts|]
  }

  /** One rollout step: the outcome of `step` by the picked action. */
  function Playout(s: Snapshot, counter: int, p: real, d: Draw): (o: Outcome)
    requires WellFormed(s.taxis) && ArrivalsEnd(d.step.arrivals)
    ensures WellFormed(o.next.taxis)
  {
    var a := Pick(s, d);
    StepKeepsWellFormed(s, a, d.step);
    StepSpec(s, a, d.step, counter, p)
  }

  /** The state the k-th step of trace `t` starts from: `s`, or where step `k - 1` left. */
  function From(s: Snapshot, t: seq<Outcome>, k: int): Snapshot
    requires 0 <= k <= |t|
  {
    if k == 0 then s else t[k - 1].next
  }

  /** The request counter the k-th step of trace `t` starts with. */
  function CounterAt(counter: int, t: seq<Outcome>, k: int): int
    requires 0 <= k <= |t|
  {
    if k == 0 then counter else t[k - 1].counter
  }

  /** The k-th outcome of `t` is `step` from where the trace stood, by the draw at
      `cursor + k`. */
  ghost predicate StepOf(step: (Snapshot, int, Draw) -> Outcome, s: Snapshot, counter: int, draws: Oracle, cursor: nat,
                         t: seq<Outcome>, k: int)
  {
    && 0 <= k < |t|
    && t[k] == step(From(s, t, k), CounterAt(counter, t, k), draws(cursor + k))
  }

  /** `t` is a trace of `step` from `s` with request counter `counter`, reading the draws
      from `cursor` on. */
  ghost predicate IsTrace(step: (Snapshot, int, Draw) -> Outcome, s: Snapshot, counter: int, draws: Oracle, cursor: nat,
                          t: seq<Outcome>)
  {
    forall k :: 0 <= k < |t| ==> StepOf(step, s, counter, draws, cursor, t, k)
  }

  /** Extending a trace changes none of its earlier steps. */
  lemma StepOfSnoc(step: (Snapshot, int, Draw) -> Outcome, s: Snapshot, counter: int, draws: Oracle, cursor: nat,
                   t: seq<Outcome>, o: Outcome, k: int)
    requires 0 <= k < |t|
    ensures StepOf(step, s, counter, draws, cursor, t + [o], k) == StepOf(step, s, counter, draws, cursor, t, k)
  {
    var t' := t + [o];
    assert t'[k] == t[k];
    if k > 0 {
      assert t'[k - 1] == t[k - 1];
    }
  }

  /** A trace extended by the step from where it ends is a trace. */
  lemma {:induction false} IsTraceSnoc(step: (Snapshot, int, Draw) -> Outcome, s: Snapshot, counter: int, draws: Oracle,
                                       cursor: nat, t: seq<Outcome>)
    requires IsTrace(step, s, counter, draws, cursor, t)
    ensures IsTrace(step, s, counter, draws, cursor, t + [step(From(s, t, |t|), CounterAt(counter, t, |t|), draws(cursor + |t|))])
  {
    var o := step(From(s, t, |t|), CounterAt(counter, t, |t|), draws(cursor + |t|));
    var t' := t + [o];
    forall k | 0 <= k < |t'|
      ensures StepOf(step, s, counter, draws, cursor, t', k)
    {
      if k < |t| {
        StepOfSnoc(step, s, counter, draws, cursor, t, o, k);
      } else {
        assert From(s, t', k) == From(s, t, k) && CounterAt(counter, t', k) == CounterAt(counter, t, k);
      }
    }
  }

  /** Every prefix of a trace is a trace. */
  lemma IsTracePrefix(step: (Snapshot, int, Draw) -> Outcome, s: Snapshot, counter: int, draws: Oracle, cursor: nat,
                      t: seq<Outcome>)
    requires IsTrace(step, s, counter, draws, cursor, t) && t != []
    ensures IsTrace(step, s, counter, draws, cursor, t[..|t| - 1])
  {
    var n := |t| - 1;
    assert t == t[..n] + [t[n]];
    forall k | 0 <= k < n
      ensures StepOf(step, s, counter, draws, cursor, t[..n], k)
    {
      StepOfSnoc(step, s, counter, draws, cursor, t[..n], t[n], k);
      assert StepOf(step, s, counter, draws, cursor, t, k);
    }
  }

  /** A trace is determined by where it starts and by its draws: two traces of the same
      length from the same state, counter and draws are equal. */
  lemma {:induction false} TraceDeterministic(step: (Snapshot, int, Draw) -> Outcome, s: Snapshot, counter: int,
                                              draws: Oracle, cursor: nat, t: seq<Outcome>, u: seq<Outcome>)
    requires IsTrace(step, s, counter, draws, cursor, t) && IsTrace(step, s, counter, draws, cursor, u)
    requires |t| == |u|
    ensures t == u
    decreases |t|
  {
    if t != [] {
      var n := |t| - 1;
      IsTracePrefix(step, s, counter, draws, cursor, t);
      IsTracePrefix(step, s, counter, draws, cursor, u);
      TraceDeterministic(step, s, counter, draws, cursor, t[..n], u[..n]);
      assert StepOf(step, s, counter, draws, cursor, t, n) && StepOf(step, s, counter, draws, cursor, u, n);
      if n > 0 {
        assert t[n - 1] == t[..n][n - 1] && u[n - 1] == u[..n][n - 1];
      }
      assert From(s, t, n) == From(s, u, n) && CounterAt(counter, t, n) == CounterAt(counter, u, n);
      assert t == t[..n] + [t[n]] && u == u[..n] + [u[n]];
    }
  }

  /** A trace reads the draws at `cursor .. cursor + |t| - 1` and no other: it is a trace
      for any oracle that agrees there. */
  lemma TraceReadsItsDraws(step: (Snapshot, int, Draw) -> Outcome, s: Snapshot, counter: int, draws: Oracle,
                           other: Oracle, cursor: nat, t: seq<Outcome>)
    requires IsTrace(step, s, counter, draws, cursor, t)
    requires forall n: nat :: cursor <= n < cursor + |t| ==> draws(n) == other(n)
    ensures IsTrace(step, s, counter, other, cursor, t)
  {
    forall k | 0 <= k < |t|
      ensures StepOf(step, s, counter, other, cursor, t, k)
    {
      assert StepOf(step, s, counter, draws, cursor, t, k);
      assert draws(cursor + k) == other(cursor + k);
    }
  }

  /** The step of `rollout`: a random legal joint action, then `step`. Outside the states
      a rollout can reach it leaves everything as it was. */
  ghost function Playouts(p: real): (Snapshot, int, Draw) -> Outcome {
    (s: Snapshot, counter: int, d: Draw) =>
      if WellFormed(s.taxis) && ArrivalsEnd(d.step.arrivals) then Playout(s, counter, p, d)
      else Outcome(s, counter + |d.step.arrivals|, StepInfo([], [], [], [], []))
  }

  /** `t` is the trace of a rollout from a well-formed state. */
  ghost predicate IsRollout(s: Snapshot, counter: int, p: real, draws: Oracle, cursor: nat, t: seq<Outcome>) {
    WellFormed(s.taxis) && Feasible(draws) && IsTrace(Playouts(p), s, counter, draws, cursor, t)
  }

  /** A property of states that every step keeps holds all along a trace. */
  lemma {:induction false} TraceKeeps(step: (Snapshot, int, Draw) -> Outcome, inv: Snapshot -> bool, s: Snapshot,
                                      counter: int, draws: Oracle, cursor: nat, t: seq<Outcome>, k: int)
    requires IsTrace(step, s, counter, draws, cursor, t) && 0 <= k <= |t| && inv(s)
    requires forall x, c, d :: inv(x) ==> inv(step(x, c, d).next)
    ensures inv(From(s, t, k))
    decreases k
  {
    if k > 0 {
      TraceKeeps(step, inv, s, counter, draws, cursor, t, k - 1);
      assert StepOf(step, s, counter, draws, cursor, t, k - 1);
    }
  }

  lemma PlayoutsKeepWellFormed(p: real)
    ensures forall x: Snapshot, c: int, d: Draw :: WellFormed(x.taxis) ==> WellFormed(Playouts(p)(x, c, d).next.taxis)
  {
  }

  lemma PlayoutsAt(p: real, x: Snapshot, c: int, d: Draw)
    requires WellFormed(x.taxis) && ArrivalsEnd(d.step.arrivals)
    ensures Playouts(p)(x, c, d) == Playout(x, c, p, d)
  {
  }

  /** Every state a rollout passes through is well formed, and each of its steps is a
      playout from there. */
  lemma RolloutWellFormed(s: Snapshot, counter: int, p: real, draws: Oracle, cursor: nat, t: seq<Outcome>, k: int)
    requires IsRollout(s, counter, p, draws, cursor, t) && 0 <= k < |t|
    ensures WellFormed(From(s, t, k).taxis) && ArrivalsEnd(draws(cursor + k).step.arrivals)
    ensures t[k] == Playout(From(s, t, k), CounterAt(counter, t, k), p, draws(cursor + k))
  {
    PlayoutsKeepWellFormed(p);
    TraceKeeps(Playouts(p), (x: Snapshot) => WellFormed(x.taxis), s, counter, draws, cursor, t, k);
    assert ArrivalsEnd(draws(cursor + k).step.arrivals);
    assert StepOf(Playouts(p), s, counter, draws, cursor, t, k);
    PlayoutsAt(p, From(s, t, k), CounterAt(counter, t, k), draws(cursor + k));
  }

  /** Along a trace of a step that advances the counter by the requests its draw creates,
      the counter advances by all the requests the draws read so far create. */
  lemma {:induction false} TraceCounter(step: (Snapshot, int, Draw) -> Outcome, s: Snapshot, counter: int,
                                        draws: Oracle, cursor: nat, t: seq<Outcome>, k: int)
    requires IsTrace(step, s, counter, draws, cursor, t) && 0 <= k <= |t|
    requires forall x, c, d :: step(x, c, d).counter == c + |d.step.arrivals|
    ensures CounterAt(counter, t, k) == counter + Arrivals(draws, cursor, k)
    decreases k
  {
    if k > 0 {
      TraceCounter(step, s, counter, draws, cursor, t, k - 1);
      assert StepOf(step, s, counter, draws, cursor, t, k - 1);
    }
  }

  /** A rollout step advances the counter by the requests its draw creates. */
  lemma PlayoutsClock(p: real)
    ensures forall x: Snapshot, c: int, d: Draw :: Playouts(p)(x, c, d).counter == c + |d.step.arrivals|
  {
    forall x: Snapshot, c: int, d: Draw | WellFormed(x.taxis) && ArrivalsEnd(d.step.arrivals)
      ensures Playouts(p)(x, c, d).counter == c + |d.step.arrivals|
    {
      assert Playouts(p)(x, c, d) == Playout(x, c, p, d);
    }
  }

  /** The request counter after a rollout is the one it started with plus every request
      the draws of its steps created. */
  lemma RolloutCounter(s: Snapshot, counter: int, p: real, draws: Oracle, cursor: nat, t: seq<Outcome>)
    requires IsRollout(s, counter, p, draws, cursor, t)
    ensures CounterAt(counter, t, |t|) == counter + Arrivals(draws, cursor, |t|)
  {
    PlayoutsClock(p);
    TraceCounter(Playouts(p), s, counter, draws, cursor, t, |t|);
  }

  /** `rollout`: `Depth` steps from `state`, by random legal actions, summing the rewards.
      `trace` holds the outcome of each step. The loop's early exit on an empty action list
      cannot happen and is not modelled. */
  method Rollout(env: Environment, state: State, draws: Oracle, cursor: nat) returns (total: real, ghost trace: seq<Outcome>)
    requires state.Valid() && Feasible(draws)
    modifies env
    ensures |trace| == Depth && IsRollout(old(state.View()), old(env.requestCounter), env.cancellationProb, draws, cursor, trace)
    ensures total == TotalReward(trace) && env.requestCounter == trace[Depth - 1].counter
    ensures env.lastStepInfo == Some(trace[Depth - 1].info) && env.LogsMatch()
  {
    ghost var s0 := state.View();
    ghost var c0 := env.requestCounter;
    total := 0.0;
    trace := [];
    var current := state;
    var i := 0;
    while i < Depth
      invariant 0 <= i <= Depth && |trace| == i && current.Valid()
      invariant IsRollout(s0, c0, env.cancellationProb, draws, cursor, trace)
      invariant current.View() == From(s0, trace, i) && env.requestCounter == CounterAt(c0, trace, i)
      invariant total == TotalReward(trace)
      invariant i > 0 ==> env.lastStepInfo == Some(trace[i - 1].info) && env.LogsMatch()
    {
      var reward;
      ghost var o;
      current, reward, o := RolloutStep(env, current, draws(cursor + i), s0, c0, draws, cursor, trace);
      TotalRewardSnoc(trace, o);
      trace := trace + [o];
      total := total + reward;
      i := i + 1;
    }
  }

  /** One round of `rollout`'s loop: pick a legal joint action, step, read the reward.
      The round extends the rollout's trace by its outcome `o`. */
  method RolloutStep(env: Environment, current: State, d: Draw,
                     ghost s0: Snapshot, ghost c0: int, ghost draws: Oracle, ghost cursor: nat, ghost trace: seq<Outcome>)
    returns (next: State, reward: real, ghost o: Outcome)
    requires current.Valid() && Feasible(draws) && d == draws(cursor + |trace|)
    requires IsRollout(s0, c0, env.cancellationProb, draws, cursor, trace)
    requires current.View() == From(s0, trace, |trace|) && env.requestCounter == CounterAt(c0, trace, |trace|)
    modifies env
    ensures next.Valid() && IsRollout(s0, c0, env.cancellationProb, draws, cursor, trace + [o])
    ensures next.View() == o.next && env.requestCounter == o.counter && reward == Reward(o.info, o.next.requests)
    ensures env.lastStepInfo == Some(o.info) && env.LogsMatch()
  {
    ghost var from := From(s0, trace, |trace|);
    o := Playout(from, CounterAt(c0, trace, |trace|), env.cancellationProb, d);
    IsTraceSnoc(Playouts(env.cancellationProb), s0, c0, draws, cursor, trace);
    var actions := LegalActions(current.View());
    var action := actions[d.pick % |actions|];
    assert action == Pick(from, d);
    next := env.Step(current, action, d.step);
    reward := env.GetReward(next);
  }

  /** The rewards of a trace, summed in order. */
  function TotalReward(t: seq<Outcome>): real {
    if t == [] then 0.0 else TotalReward(t[..|t| - 1]) + Reward(t[|t| - 1].info, t[|t| - 1].next.requests)
  }

  lemma TotalRewardSnoc(t: seq<Outcome>, o: Outcome)
    ensures TotalReward(t + [o]) == TotalReward(t) + Reward(o.info, o.next.requests)
  {
    assert (t + [o])[..|t|] == t;
  }

  /** The number of requests the draws at `cursor .. cursor + k - 1` create. */
  function Arrivals(draws: Oracle, cursor: nat, k: nat): nat {
    if k == 0 then 0 else Arrivals(draws, cursor, k - 1) + |draws(cursor + k - 1).step.arrivals|
  }

  /** The request counter after the first `k` draws from `cursor` on. */
  function ArrivedBy(draws: Oracle, cursor: nat, counter: int, k: nat): int {
    counter + Arrivals(draws, cursor, k)
  }

  /** The k-th legal joint action names only taxis of the state. */
  lemma LegalActionInRange(s: Snapshot, k: nat)
    requires IdsAreIndices(s.taxis) && k < |LegalActions(s)|
    ensures ActionsInRange(LegalActions(s)[k], |s.taxis|)
  {
    LegalActionsShaped(s);
    assert LegalActions(s)[k] in LegalActions(s);
  }

  /** The outcome of expanding `s` by its k-th legal joint action, the k-th step of the
      expansion: the draws before it have already advanced the request counter. */
  function Expanded(s: Snapshot, k: nat, draws: Oracle, cursor: nat, counter: int, p: real): Outcome
    requires WellFormed(s.taxis) && Feasible(draws) && k < |LegalActions(s)|
  {
    LegalActionInRange(s, k);
    StepSpec(s, LegalActions(s)[k], draws(cursor + k).step, ArrivedBy(draws, cursor, counter, k), p)
  }

  /** A child of an expansion is well formed again. */
  lemma ExpandedWellFormed(s: Snapshot, k: nat, draws: Oracle, cursor: nat, counter: int, p: real)
    requires WellFormed(s.taxis) && Feasible(draws) && k < |LegalActions(s)|
    ensures WellFormed(Expanded(s, k, draws, cursor, counter, p).next.taxis)
  {
    LegalActionInRange(s, k);
    StepKeepsWellFormed(s, LegalActions(s)[k], draws(cursor + k).step);
  }

  /** The k-th child of an expansion is the step by the k-th legal joint action, with the
      k-th draws, from the request counter the earlier draws leave (the action names only
      taxis of `s`, as `LegalActionInRange` shows). */
  lemma ExpandedStep(s: Snapshot, k: nat, draws: Oracle, cursor: nat, counter: int, p: real)
    requires WellFormed(s.taxis) && Feasible(draws) && k < |LegalActions(s)|
    requires ActionsInRange(LegalActions(s)[k], |s.taxis|)
    ensures Expanded(s, k, draws, cursor, counter, p) ==
      StepSpec(s, LegalActions(s)[k], draws(cursor + k).step, ArrivedBy(draws, cursor, counter, k), p)
  {
  }


  /** `f(0), ..., f(m - 1)`. */
  ghost function Listing<T>(f: nat -> T, m: nat): (vs: seq<T>)
    ensures |vs| == m
  {
    if m == 0 then [] else Listing(f, m - 1) + [f(m - 1)]
  }

  lemma {:induction false} ListingAt<T>(f: nat -> T, m: nat, j: nat)
    requires j < m
    ensures Listing(f, m)[j] == f(j)
    decreases m
  {
    if j < m - 1 {
      ListingAt(f, m - 1, j);
    }
  }

  /** The state of child `j` of an expansion of `s`: `s` stepped by its j-th legal joint
      action; `s` itself past the last one. */
  ghost function ChildOf(s: Snapshot, draws: Oracle, cursor: nat, counter: int, p: real): nat -> Snapshot {
    (j: nat) => if WellFormed(s.taxis) && Feasible(draws) && j < |LegalActions(s)| then Expanded(s, j, draws, cursor, counter, p).next else s
  }

  /** The states of the first `m` children `expand` creates for `s`, in order. */
  ghost function ExpandedStates(s: Snapshot, m: nat, draws: Oracle, cursor: nat, counter: int, p: real): seq<Snapshot> {
    Listing(ChildOf(s, draws, cursor, counter, p), m)
  }

  /** Child `j` of the expansion is `s` stepped by its j-th legal joint action. */
  lemma ExpandedStatesAt(s: Snapshot, m: nat, draws: Oracle, cursor: nat, counter: int, p: real, j: nat)
    requires WellFormed(s.taxis) && Feasible(draws) && j < m <= |LegalActions(s)|
    ensures |ExpandedStates(s, m, draws, cursor, counter, p)| == m
    ensures ExpandedStates(s, m, draws, cursor, counter, p)[j] == Expanded(s, j, draws, cursor, counter, p).next
  {
    ListingAt(ChildOf(s, draws, cursor, counter, p), m, j);
  }


  /** The event summary of step `j` of an expansion of `s`; none past the last one. */
  ghost function InfoOf(s: Snapshot, draws: Oracle, cursor: nat, counter: int, p: real): nat -> StepInfo {
    (j: nat) => if WellFormed(s.taxis) && Feasible(draws) && j < |LegalActions(s)| then Expanded(s, j, draws, cursor, counter, p).info
                else StepInfo([], [], [], [], [])
  }

  /** The event summaries of the first `m` steps of an expansion of `s`, in order. */
  ghost function ExpandedInfos(s: Snapshot, m: nat, draws: Oracle, cursor: nat, counter: int, p: real): seq<StepInfo> {
    Listing(InfoOf(s, draws, cursor, counter, p), m)
  }

  /** Summary `j` of the expansion is that of `s` stepped by its j-th legal joint action. */
  lemma ExpandedInfosAt(s: Snapshot, m: nat, draws: Oracle, cursor: nat, counter: int, p: real, j: nat)
    requires WellFormed(s.taxis) && Feasible(draws) && j < m <= |LegalActions(s)|
    ensures |ExpandedInfos(s, m, draws, cursor, counter, p)| == m
    ensures ExpandedInfos(s, m, draws, cursor, counter, p)[j] == Expanded(s, j, draws, cursor, counter, p).info
  {
    ListingAt(InfoOf(s, draws, cursor, counter, p), m, j);
  }

  /** `targets` and `infos` are the states and the event summaries of the first steps of an
      expansion of `s`, step by step. */
  ghost predicate IsExpansion(s: Snapshot, targets: seq<Snapshot>, infos: seq<StepInfo>, draws: Oracle, cursor: nat,
                              counter: int, p: real)
  {
    && WellFormed(s.taxis) && Feasible(draws) && |targets| == |infos| <= |LegalActions(s)|
    && forall j {:trigger targets[j]} :: 0 <= j < |targets| ==>
         targets[j] == Expanded(s, j, draws, cursor, counter, p).next && infos[j] == Expanded(s, j, draws, cursor, counter, p).info
  }

  /** The listed states and summaries of an expansion are one. */
  lemma ExpandedIsExpansion(s: Snapshot, m: nat, draws: Oracle, cursor: nat, counter: int, p: real)
    requires WellFormed(s.taxis) && Feasible(draws) && m <= |LegalActions(s)|
    ensures IsExpansion(s, ExpandedStates(s, m, draws, cursor, counter, p), ExpandedInfos(s, m, draws, cursor, counter, p),
                        draws, cursor, counter, p)
  {
    var targets, infos := ExpandedStates(s, m, draws, cursor, counter, p), ExpandedInfos(s, m, draws, cursor, counter, p);
    forall j | 0 <= j < |targets|
      ensures targets[j] == Expanded(s, j, draws, cursor, counter, p).next && infos[j] == Expanded(s, j, draws, cursor, counter, p).info
    {
      ExpandedStatesAt(s, m, draws, cursor, counter, p, j);
      ExpandedInfosAt(s, m, draws, cursor, counter, p, j);
    }
  }

  lemma SplitLast<T>(xs: seq<T>)
    requires xs != []
    ensures xs == xs[..|xs| - 1] + [xs[|xs| - 1]]
  {
  }

  lemma TakeOneMore<T>(xs: seq<T>, k: nat)
    requires k < |xs|
    ensures xs[..k + 1] == xs[..k] + [xs[k]]
  {
  }

  /** The step of `expand`'s loop: the leaf's state `s` stepped by its k-th legal joint
      action, leaving `s` as it was. */
  method ExpandStep(env: Environment, s: State, ghost view: Snapshot, k: nat, draws: Oracle, cursor: nat,
                    ghost counter0: int)
    returns (next: State)
    requires s.Valid() && s.View() == view && Feasible(draws) && k < |LegalActions(view)|
    requires env.requestCounter == counter0 + Arrivals(draws, cursor, k)
    modifies env
    ensures unchanged(s, s.taxis) && fresh(next) && fresh(next.taxis) && next.Valid()
    ensures next.View() == Expanded(view, k, draws, cursor, counter0, env.cancellationProb).next
    ensures env.requestCounter == counter0 + Arrivals(draws, cursor, k + 1)
    ensures env.lastStepInfo == Some(Expanded(view, k, draws, cursor, counter0, env.cancellationProb).info)
    ensures env.LogsMatch()
  {
    var acts := LegalActions(s.View());
    var a, d := acts[k], draws(cursor + k).step;
    LegalActionInRange(view, k);
    ExpandedStep(view, k, draws, cursor, counter0, env.cancellationProb);
    next := env.Step(s, a, d);
  }

  /** Growing by one more child. */
  lemma GrownStep(before: seq<Node>, mid: seq<Node>, after: seq<Node>, leaf: int, acts: seq<JointAction>, k: int)
    requires 0 <= leaf < |before| && 0 <= k < |acts| && Grown(before, mid, leaf, acts, k)
    requires after == mid[leaf := mid[leaf].(children := mid[leaf].children + [|mid|])]
                      + [Node(Some(leaf), Some(acts[k]), [], 0, 0.0)]
    ensures Grown(before, after, leaf, acts, k + 1)
  {
    assert Range(|before|, k) + [|before| + k] == Range(|before|, k + 1);
    forall j | 0 <= j < k + 1
      ensures after[|before| + j] == Node(Some(leaf), Some(acts[j]), [], 0, 0.0)
    {
      if j < k {
        assert after[|before| + j] == mid[|before| + j];
      }
    }
  }

  /** What one iteration of the search did, for its contract: the selected `leaf`, the
      tree `grown` before the back-up, the node `from` rolled out from, the rollout's
      `trace`, the cursors of the child pick and of the rollout, and the request counter
      when the rollout starts. */
  datatype Round = Round(leaf: nat, grown: seq<Node>, from: nat, trace: seq<Outcome>,
                         pickAt: nat, rolloutAt: nat, midCounter: int)

  /** A rollout from the unvisited `r.leaf`, on values: the tree is not grown, the rollout
      starts at `cursor` from the leaf's state, and the counter ends past the requests the
      rollout created. */
  ghost predicate RolledOut(nodes: seq<Node>, views: seq<Snapshot>, counter: int, p: real, draws: Oracle, cursor: nat,
                            views': seq<Snapshot>, counter': int, next: int, r: Round)
  {
    && r.leaf < |nodes| && r.leaf < |views|
    && r.grown == nodes && r.from == r.leaf && views' == views
    && r.pickAt == cursor && r.rolloutAt == cursor && r.midCounter == counter
    && IsRollout(views[r.leaf], counter, p, draws, cursor, r.trace)
    && counter' == counter + Arrivals(draws, cursor, Depth)
    && next == cursor + Depth
  }

  /** An expansion of `r.leaf` followed by a rollout, on values: `r.grown` is `nodes` with
      one child of the leaf per legal joint action of its state, and `views'` is `views`
      with the children's states; `r.from` is the new child the draw at `r.pickAt`, right
      after the expansion's draws, picks; the rollout starts from its state at the next
      draw. The counter ends past the requests the expansion and the rollout created. */
  ghost predicate ExpandedRollout(nodes: seq<Node>, views: seq<Snapshot>, counter: int, p: real, draws: Oracle, cursor: nat,
                                  views': seq<Snapshot>, counter': int, next: int, r: Round)
  {
    && r.leaf < |nodes| && r.leaf < |views| && WellFormed(views[r.leaf].taxis)
    && var acts := LegalActions(views[r.leaf]);
       && |acts| > 0 && Grown(nodes, r.grown, r.leaf, acts, |acts|)
       && views' == views + ExpandedStates(views[r.leaf], |acts|, draws, cursor, counter, p)
       && r.pickAt == cursor + |acts| && r.rolloutAt == r.pickAt + 1
       && r.from == |nodes| + draws(r.pickAt).pick % |acts| && r.from < |views'|
       && r.midCounter == counter + Arrivals(draws, cursor, |acts|)
       && IsRollout(views'[r.from], r.midCounter, p, draws, r.rolloutAt, r.trace)
       && counter' == r.midCounter + Arrivals(draws, r.rolloutAt, Depth)
       && next == r.rolloutAt + Depth
  }

  /** The search between two iterations: the tree's nodes and their states, the request
      counter of the environment, and the cursor into the oracle. */
  datatype Stage = Stage(nodes: seq<Node>, views: seq<Snapshot>, counter: int, cursor: nat)

  /** `ucb_score` of the `m`-th child of node `p`. */
  function ChildScore(nodes: seq<Node>, p: int, m: int, explore: (nat, nat) -> real): Score
    requires Shape(nodes) && 0 <= p < |nodes| && 0 <= m < |nodes[p].children|
  {
    var c := nodes[p].children[m];
    Ucb(nodes[p].visits, nodes[c].visits, nodes[c].value, explore)
  }

  /** The position of the first child of maximal score among the first `j` children of
      `p`: where the scan of `max(node.children, key=ucb_score)` stands after `j` of them. */
  function BestAmong(nodes: seq<Node>, p: int, j: int, explore: (nat, nat) -> real): (k: nat)
    requires Shape(nodes) && 0 <= p < |nodes| && 0 < j <= |nodes[p].children|
    ensures k < j
    ensures forall m :: 0 <= m < j ==> !Below(ChildScore(nodes, p, k, explore), ChildScore(nodes, p, m, explore))
    ensures forall m :: 0 <= m < k ==> Below(ChildScore(nodes, p, m, explore), ChildScore(nodes, p, k, explore))
    decreases j
  {
    if j == 1 then 0
    else
      var b := BestAmong(nodes, p, j - 1, explore);
      if Below(ChildScore(nodes, p, b, explore), ChildScore(nodes, p, j - 1, explore)) then j - 1 else b
  }

  /** The first maximal child is the only position whose score nothing beats and that
      beats every earlier sibling. */
  lemma BestAmongUnique(nodes: seq<Node>, p: int, explore: (nat, nat) -> real, k: int)
    requires Shape(nodes) && 0 <= p < |nodes| && 0 <= k < |nodes[p].children|
    requires forall m :: 0 <= m < |nodes[p].children| ==>
      !Below(ChildScore(nodes, p, k, explore), ChildScore(nodes, p, m, explore))
    requires forall m :: 0 <= m < k ==> Below(ChildScore(nodes, p, m, explore), ChildScore(nodes, p, k, explore))
    ensures k == BestAmong(nodes, p, |nodes[p].children|, explore)
  {
  }

  /** Below a visited node, the first unvisited child is the best one when every child
      before it has been visited: `ucb_score` is infinite for it and finite before it. */
  lemma FirstUnvisitedIsBest(nodes: seq<Node>, p: int, explore: (nat, nat) -> real, k: int)
    requires Shape(nodes) && 0 <= p < |nodes| && 0 <= k < |nodes[p].children|
    requires nodes[nodes[p].children[k]].visits == 0
    requires forall m :: 0 <= m < k ==> nodes[nodes[p].children[m]].visits > 0
    ensures BestAmong(nodes, p, |nodes[p].children|, explore) == k
  {
    BestAmongUnique(nodes, p, explore, k);
  }

  /** `select` as a function: from `p`, follow the first child of maximal score down to a
      node without children. */
  function Descend(nodes: seq<Node>, p: int, explore: (nat, nat) -> real): (leaf: nat)
    requires Shape(nodes) && 0 <= p < |nodes|
    ensures p <= leaf < |nodes| && nodes[leaf].children == []
    decreases |nodes| - p
  {
    var children := nodes[p].children;
    if children == [] then p else Descend(nodes, children[BestAmong(nodes, p, |children|, explore)], explore)
  }

  /** One iteration of `mcts_policy`'s loop, on values: round `r` takes the search from
      stage `a` to stage `b`. It selects the leaf `select` reaches from the root, rolls out
      from it if it was never visited and otherwise expands it and rolls out from a new
      child, and backs the rollout's total reward up from where the rollout started. */
  ghost predicate Advanced(a: Stage, b: Stage, r: Round, p: real, draws: Oracle, explore: (nat, nat) -> real) {
    && Shape(a.nodes)
    && r.leaf == Descend(a.nodes, 0, explore)
    && (a.nodes[r.leaf].visits == 0 ==>
          RolledOut(a.nodes, a.views, a.counter, p, draws, a.cursor, b.views, b.counter, b.cursor, r))
    && (a.nodes[r.leaf].visits > 0 ==>
          ExpandedRollout(a.nodes, a.views, a.counter, p, draws, a.cursor, b.views, b.counter, b.cursor, r))
    && |r.trace| == Depth && r.from < |r.grown| && ParentsBefore(Parents(r.grown))
    && b.nodes == Backpropagated(r.grown, r.from, TotalReward(r.trace))
  }

  /** The stages of a search from a lone root holding state `s`, with the request counter
      at `counter` and the cursor at the oracle's start: each round advances one stage to
      the next. */
  ghost predicate Searched(s: Snapshot, counter: int, stages: seq<Stage>, rounds: seq<Round>, p: real, draws: Oracle,
                           explore: (nat, nat) -> real)
    decreases |rounds|
  {
    && |stages| == |rounds| + 1
    && if rounds == [] then stages[0] == Stage([Node(None, None, [], 0, 0.0)], [s], counter, 0)
       else
         var n := |rounds| - 1;
         && Searched(s, counter, stages[..n + 1], rounds[..n], p, draws, explore)
         && Advanced(stages[n], stages[n + 1], rounds[n], p, draws, explore)
  }

  /** The summary of the last step of the last round's rollout, if there is one. */
  function LastStepOf(rounds: seq<Round>): Option<StepInfo> {
    if rounds == [] || rounds[|rounds| - 1].trace == [] then None
    else
      var t := rounds[|rounds| - 1].trace;
      Some(t[|t| - 1].info)
  }

  /** One more round leaves its rollout's last summary as the last one. */
  lemma LastStepOfSnoc(rounds: seq<Round>, r: Round)
    requires |r.trace| == Depth
    ensures LastStepOf(rounds + [r]) == Some(r.trace[Depth - 1].info)
  {
    assert (rounds + [r])[|rounds|] == r;
  }

  /** A search one round longer: the last stage advanced by round `r` to stage `b`. */
  lemma SearchedSnoc(s: Snapshot, counter: int, stages: seq<Stage>, rounds: seq<Round>, p: real, draws: Oracle,
                     explore: (nat, nat) -> real, b: Stage, r: Round)
    requires Searched(s, counter, stages, rounds, p, draws, explore)
    requires Advanced(stages[|rounds|], b, r, p, draws, explore)
    ensures Searched(s, counter, stages + [b], rounds + [r], p, draws, explore)
  {
    var stages', rounds', n := stages + [b], rounds + [r], |rounds|;
    assert stages'[..n + 1] == stages && rounds'[..n] == rounds;
    assert stages'[n] == stages[n] && stages'[n + 1] == b && rounds'[n] == r;
  }

  /** Growing a leaf by the same actions gives one tree. */
  lemma GrownUnique(before: seq<Node>, after: seq<Node>, after': seq<Node>, leaf: int, acts: seq<JointAction>, m: int)
    requires 0 <= leaf < |before| && 0 <= m <= |acts|
    requires Grown(before, after, leaf, acts, m) && Grown(before, after', leaf, acts, m)
    ensures after == after'
  {
    forall i | 0 <= i < |after|
      ensures after[i] == after'[i]
    {
      if i >= |before| {
        var j := i - |before|;
        assert after[|before| + j] == Node(Some(leaf), Some(acts[j]), [], 0, 0.0) == after'[|before| + j];
      }
    }
  }

  /** A rollout from an unvisited leaf is determined by the stage it starts from. */
  lemma RolledOutDeterministic(a: Stage, b: Stage, r: Round, b': Stage, r': Round, p: real, draws: Oracle)
    requires r.leaf == r'.leaf && |r.trace| == |r'.trace|
    requires RolledOut(a.nodes, a.views, a.counter, p, draws, a.cursor, b.views, b.counter, b.cursor, r)
    requires RolledOut(a.nodes, a.views, a.counter, p, draws, a.cursor, b'.views, b'.counter, b'.cursor, r')
    ensures r == r' && b.views == b'.views && b.counter == b'.counter && b.cursor == b'.cursor
  {
    TraceDeterministic(Playouts(p), a.views[r.leaf], a.counter, draws, a.cursor, r.trace, r'.trace);
  }

  /** So is an expansion of a visited leaf followed by a rollout from the picked child. */
  lemma ExpandedRolloutDeterministic(a: Stage, b: Stage, r: Round, b': Stage, r': Round, p: real, draws: Oracle)
    requires r.leaf == r'.leaf && |r.trace| == |r'.trace|
    requires ExpandedRollout(a.nodes, a.views, a.counter, p, draws, a.cursor, b.views, b.counter, b.cursor, r)
    requires ExpandedRollout(a.nodes, a.views, a.counter, p, draws, a.cursor, b'.views, b'.counter, b'.cursor, r')
    ensures r == r' && b.views == b'.views && b.counter == b'.counter && b.cursor == b'.cursor
  {
    var acts := LegalActions(a.views[r.leaf]);
    GrownUnique(a.nodes, r.grown, r'.grown, r.leaf, acts, |acts|);
    assert r.pickAt == r'.pickAt && r.rolloutAt == r'.rolloutAt && r.from == r'.from;
    assert b.views == b'.views && r.midCounter == r'.midCounter;
    TraceDeterministic(Playouts(p), b.views[r.from], r.midCounter, draws, r.rolloutAt, r.trace, r'.trace);
  }

  /** One round of the search is determined by the stage it starts from: the stage it
      reaches and the round itself. */
  lemma AdvancedDeterministic(a: Stage, b: Stage, r: Round, b': Stage, r': Round, p: real, draws: Oracle,
                              explore: (nat, nat) -> real)
    requires Advanced(a, b, r, p, draws, explore) && Advanced(a, b', r', p, draws, explore)
    ensures b == b' && r == r'
  {
    if a.nodes[r.leaf].visits == 0 {
      RolledOutDeterministic(a, b, r, b', r', p, draws);
    } else {
      ExpandedRolloutDeterministic(a, b, r, b', r', p, draws);
    }
  }

  /** A search of a given number of rounds from a given state has one history: its stages,
      and so the tree it ends with, are determined by the state, the counter, the draws and
      the exploration term. */
  lemma {:induction false} SearchedDeterministic(s: Snapshot, counter: int, stages: seq<Stage>, rounds: seq<Round>,
                                                 stages': seq<Stage>, rounds': seq<Round>, p: real, draws: Oracle,
                                                 explore: (nat, nat) -> real)
    requires Searched(s, counter, stages, rounds, p, draws, explore)
    requires Searched(s, counter, stages', rounds', p, draws, explore)
    requires |rounds| == |rounds'|
    ensures stages == stages' && rounds == rounds'
    decreases |rounds|
  {
    if rounds != [] {
      var n := |rounds| - 1;
      SearchedDeterministic(s, counter, stages[..n + 1], rounds[..n], stages'[..n + 1], rounds'[..n], p, draws, explore);
      assert stages[n] == stages[..n + 1][n] == stages'[..n + 1][n] == stages'[n];
      AdvancedDeterministic(stages[n], stages[n + 1], rounds[n], stages'[n + 1], rounds'[n], p, draws, explore);
      SplitLast(stages);
      SplitLast(stages');
      SplitLast(rounds);
      SplitLast(rounds');
    }
  }

  /** The tree `mcts_policy` grows. */
  class SearchTree {
    var nodes: seq<Node>
    var states: seq<State>
    ghost var views: seq<Snapshot>
    ghost var States: set<State>
    ghost var Arrays: set<array<Taxi>>

    ghost predicate Valid()
      reads this, States, Arrays
    {
      && Shape(nodes)
      && |states| == |nodes| && |views| == |nodes|
      && StatesMatch(states, views, States, Arrays)
      && ViewsWellFormed(views)
      && RootLegal(nodes, views)
    }

    /** `MCTSNode(state)`: a lone root. */
    constructor (state: State)
      requires state.Valid()
      ensures Valid()
      ensures nodes == [Node(None, None, [], 0, 0.0)] && states == [state] && views == [state.View()]
    {
      StatesMatchSnoc([], [], {}, {}, state);
      nodes := [Node(None, None, [], 0, 0.0)];
      states := [state];
      views := [state.View()];
      States := {state};
      Arrays := {state.taxis};
      new;
      StatesMatchWellFormed(states, views, States, Arrays);
    }

    /** `max(node.children, key=ucb_score)`: the first child of maximal score, at position
        `k` among the children. */
    method BestChild(p: nat, explore: (nat, nat) -> real) returns (best: nat, ghost k: nat)
      requires Shape(nodes) && p < |nodes| && nodes[p].children != []
      ensures k == BestAmong(nodes, p, |nodes[p].children|, explore) && best == nodes[p].children[k]
    {
      var children := nodes[p].children;
      best, k := children[0], 0;
      var bestScore := ChildScore(nodes, p, 0, explore);
      var j := 1;
      while j < |children|
        invariant 1 <= j <= |children| && k == BestAmong(nodes, p, j, explore) && best == children[k]
        invariant bestScore == ChildScore(nodes, p, k, explore)
      {
        var score := ChildScore(nodes, p, j, explore);
        if Below(bestScore, score) {
          best, k, bestScore := children[j], j, score;
        }
        j := j + 1;
      }
    }

    /** `select`: walk down by best children to a node without children, a descendant of
        `start`. */
    method Select(start: nat, explore: (nat, nat) -> real) returns (leaf: nat)
      requires Shape(nodes) && start < |nodes|
      ensures leaf == Descend(nodes, start, explore)
      ensures leaf < |nodes| && nodes[leaf].children == []
      ensures ParentsBefore(Parents(nodes)) && Above(Parents(nodes), start, leaf)
    {
      ShapeParents(nodes);
      leaf := start;
      while nodes[leaf].children != []
        invariant leaf < |nodes| && Above(Parents(nodes), start, leaf)
        invariant Descend(nodes, leaf, explore) == Descend(nodes, start, explore)
        decreases |nodes| - leaf
      {
        ghost var k;
        leaf, k := BestChild(leaf, explore);
      }
    }

    /** `backpropagate`: one more visit and `reward` more value on every node from `start`
        to the root, following parent links. */
    method Backpropagate(start: nat, reward: real)
      requires Valid() && start < |nodes|
      modifies this
      ensures Valid()
      ensures ParentsBefore(Parents(old(nodes))) && nodes == Backpropagated(old(nodes), start, reward)
      ensures nodes[0].visits == old(nodes[0].visits) + 1 && nodes[0].children == old(nodes[0].children)
      ensures states == old(states) && views == old(views) && States == old(States) && Arrays == old(Arrays)
    {
      ShapeParents(nodes);
      ghost var orig := nodes;
      var node: Option<nat> := Some(start);
      while node.Some?
        invariant PartlyBackpropagated(orig, start, node, reward, nodes)
        invariant states == old(states) && views == old(views) && States == old(States) && Arrays == old(Arrays)
        decreases if node.Some? then node.value + 1 else 0
      {
        var x := node.value;
        BackpropagateStep(orig, start, x, reward, nodes);
        nodes := nodes[x := Visited(nodes[x], reward)];
        node := nodes[x].parent;
      }
      BackpropagateDone(orig, start, reward, nodes);
      BackpropagatedShape(orig, start, reward);
      RelabelledExpandedBy(orig, nodes, 0, LegalActions(views[0]));
    }

    /** `expand`: one new child of `leaf` per legal joint action of its state, in order,
        each holding the state `step` returns for that action. */
    method Expand(leaf: nat, env: Environment, draws: Oracle, cursor: nat) returns (children: seq<nat>)
      requires Valid() && leaf < |nodes| && nodes[leaf].children == [] && Feasible(draws)
      modifies this, env
      ensures Valid()
      ensures var acts := LegalActions(old(views[leaf]));
        && Grown(old(nodes), nodes, leaf, acts, |acts|)
        && children == nodes[leaf].children && |children| == |acts| > 0
      ensures views == old(views) + ExpandedStates(old(views[leaf]), |LegalActions(old(views[leaf]))|, draws, cursor,
                                                    old(env.requestCounter), env.cancellationProb)
      ensures env.requestCounter == old(env.requestCounter) + Arrivals(draws, cursor, |LegalActions(old(views[leaf]))|)
      ensures env.lastStepInfo == Some(ExpandedInfos(old(views[leaf]), |children|, draws, cursor, old(env.requestCounter),
                                                     env.cancellationProb)[|children| - 1])
      ensures env.LogsMatch()
      ensures states[..old(|states|)] == old(states)
      ensures nodes[0].visits == old(nodes[0].visits)
      ensures nodes[0].children == if leaf == 0 then children else old(nodes[0].children)
    {
      var s := states[leaf];
      var acts := LegalActions(s.View());
      ghost var view := views[leaf];
      StatesMatchWellFormed(states, views, States, Arrays);
      ghost var targets := ExpandedStates(view, |acts|, draws, cursor, env.requestCounter, env.cancellationProb);
      ghost var infos := ExpandedInfos(view, |acts|, draws, cursor, env.requestCounter, env.cancellationProb);
      ExpandedIsExpansion(view, |acts|, draws, cursor, env.requestCounter, env.cancellationProb);
      AddChildren(leaf, s, acts, env, draws, cursor, view, targets, infos);
      assert targets[..|acts|] == targets;
      children := nodes[leaf].children;
      StatesMatchWellFormed(states, views, States, Arrays);
      GrownShape(old(nodes), nodes, leaf, acts, |acts|);
      assert views[0] == old(views)[0];
      GrownExpandedBy(old(nodes), nodes, leaf, acts, 0, LegalActions(views[0]));
    }

    /** `expand`'s loop: one child of `leaf` per joint action in `acts`, in order. */
    method AddChildren(leaf: nat, s: State, acts: seq<JointAction>, env: Environment, draws: Oracle, cursor: nat,
                       ghost view: Snapshot, ghost targets: seq<Snapshot>, ghost infos: seq<StepInfo>)
      requires leaf < |nodes| && |states| == |nodes| && |views| == |nodes|
      requires StatesMatch(states, views, States, Arrays) && s.Valid() && Feasible(draws)
      requires s.View() == view && WellFormed(view.taxis) && acts == LegalActions(view) && nodes[leaf].children == []
      requires IsExpansion(view, targets, infos, draws, cursor, env.requestCounter, env.cancellationProb) && |targets| == |acts|
      modifies this, env
      ensures Grown(old(nodes), nodes, leaf, acts, |acts|)
      ensures |states| == |views| == |nodes| && states[..old(|states|)] == old(states)
      ensures StatesMatch(states, views, States, Arrays)
      ensures views == old(views) + targets[..|acts|]
      ensures env.requestCounter == old(env.requestCounter) + Arrivals(draws, cursor, |acts|)
      ensures |acts| > 0 ==> env.lastStepInfo == Some(infos[|acts| - 1]) && env.LogsMatch()
    {
      ghost var n0, nodes0, views0, states0, c0 := |nodes|, nodes, views, states, env.requestCounter;
      assert Grown(nodes0, nodes, leaf, acts, 0);
      var k := 0;
      while k < |acts|
        invariant 0 <= k <= |acts| && leaf < n0
        invariant Grown(nodes0, nodes, leaf, acts, k)
        invariant |states| == |nodes| && |views| == |nodes| && states[..n0] == states0
        invariant StatesMatch(states, views, States, Arrays)
        invariant views == views0 + targets[..k]
        invariant env.requestCounter == c0 + Arrivals(draws, cursor, k)
        invariant k > 0 ==> env.lastStepInfo == Some(infos[k - 1]) && env.LogsMatch()
      {
        ExpandRound(leaf, s, acts, k, env, draws, cursor, view, c0, nodes0, views0, targets, infos);
        k := k + 1;
      }
    }

    /** One round of `expand`'s loop, as the loop sees it: the tree grown by one more
        child, whose state is the next one of the expansion. */
    method ExpandRound(leaf: nat, s: State, acts: seq<JointAction>, k: nat, env: Environment, draws: Oracle, cursor: nat,
                       ghost view: Snapshot, ghost counter0: int, ghost nodes0: seq<Node>, ghost views0: seq<Snapshot>,
                       ghost targets: seq<Snapshot>, ghost infos: seq<StepInfo>)
      requires leaf < |nodes0| && k < |acts| && Grown(nodes0, nodes, leaf, acts, k)
      requires |states| == |nodes| && |views| == |nodes|
      requires StatesMatch(states, views, States, Arrays) && s.Valid() && Feasible(draws)
      requires s.View() == view && WellFormed(view.taxis) && acts == LegalActions(view)
      requires IsExpansion(view, targets, infos, draws, cursor, counter0, env.cancellationProb) && |targets| == |acts|
      requires views == views0 + targets[..k]
      requires env.requestCounter == counter0 + Arrivals(draws, cursor, k)
      modifies this, env
      ensures Grown(nodes0, nodes, leaf, acts, k + 1)
      ensures |states| == |views| == |nodes| && states[..old(|states|)] == old(states)
      ensures StatesMatch(states, views, States, Arrays)
      ensures views == views0 + targets[..k + 1]
      ensures env.requestCounter == counter0 + Arrivals(draws, cursor, k + 1)
      ensures env.lastStepInfo == Some(infos[k]) && env.LogsMatch()
    {
      ghost var mid := nodes;
      ExpandOne(leaf, s, acts, k, env, draws, cursor, view, counter0);
      assert targets[k] == Expanded(view, k, draws, cursor, counter0, env.cancellationProb).next;
      TakeOneMore(targets, k);
      GrownStep(nodes0, mid, nodes, leaf, acts, k);
    }

    /** One round of `expand`'s loop: step the leaf's state by `acts[k]` and append the
        result as the leaf's next child. */
    method ExpandOne(leaf: nat, s: State, acts: seq<JointAction>, k: nat, env: Environment, draws: Oracle, cursor: nat,
                     ghost view: Snapshot, ghost counter0: int)
      requires leaf < |nodes| && |states| == |nodes| && |views| == |nodes|
      requires StatesMatch(states, views, States, Arrays) && s.Valid() && Feasible(draws)
      requires s.View() == view && acts == LegalActions(view) && k < |acts|
      requires env.requestCounter == counter0 + Arrivals(draws, cursor, k)
      modifies this, env
      ensures nodes == old(nodes)[leaf := old(nodes[leaf]).(children := old(nodes[leaf].children) + [|old(nodes)|])]
                       + [Node(Some(leaf), Some(acts[k]), [], 0, 0.0)]
      ensures StatesMatch(states, views, States, Arrays)
      ensures |states| == |views| == |nodes| && states[..old(|states|)] == old(states)
      ensures views == old(views) + [Expanded(view, k, draws, cursor, counter0, env.cancellationProb).next]
      ensures env.requestCounter == counter0 + Arrivals(draws, cursor, k + 1)
      ensures env.lastStepInfo == Some(Expanded(view, k, draws, cursor, counter0, env.cancellationProb).info)
      ensures env.LogsMatch()
    {
      var next := ExpandStep(env, s, view, k, draws, cursor, counter0);
      AddChild(leaf, acts[k], next);
    }

    /** Append a new child of `leaf`, reached by `action`, holding state `next`. */
    method AddChild(leaf: nat, action: JointAction, next: State)
      requires leaf < |nodes| && |states| == |nodes| && StatesMatch(states, views, States, Arrays) && next.Valid()
      modifies this
      ensures nodes == old(nodes)[leaf := old(nodes[leaf]).(children := old(nodes[leaf].children) + [|old(nodes)|])]
                       + [Node(Some(leaf), Some(action), [], 0, 0.0)]
      ensures states == old(states) + [next] && views == old(views) + [next.View()]
      ensures StatesMatch(states, views, States, Arrays)
    {
      StatesMatchSnoc(states, views, States, Arrays, next);
      nodes := nodes[leaf := nodes[leaf].(children := nodes[leaf].children + [|nodes|])]
               + [Node(Some(leaf), Some(action), [], 0, 0.0)];
      states := states + [next];
      views := views + [next.View()];
      States := States + {next};
      Arrays := Arrays + {next.taxis};
    }

    /** `max(root.children, key=visits)`: the first child of `p` with the most visits. */
    method MostVisitedChild(p: nat) returns (best: nat, ghost k: nat)
      requires Shape(nodes) && p < |nodes| && nodes[p].children != []
      ensures k < |nodes[p].children| && best == nodes[p].children[k] && best < |nodes|
      ensures forall j :: 0 <= j < |nodes[p].children| ==> nodes[nodes[p].children[j]].visits <= nodes[best].visits
      ensures forall j :: 0 <= j < k ==> nodes[nodes[p].children[j]].visits < nodes[best].visits
    {
      var children := nodes[p].children;
      best, k := children[0], 0;
      var j := 1;
      while j < |children|
        invariant 1 <= j <= |children| && k < j && best == children[k]
        invariant forall m :: 0 <= m < j ==> nodes[children[m]].visits <= nodes[best].visits
        invariant forall m :: 0 <= m < k ==> nodes[children[m]].visits < nodes[best].visits
      {
        if nodes[children[j]].visits > nodes[best].visits {
          best, k := children[j], j;
        }
        j := j + 1;
      }
    }

    /** The end of `mcts_policy`: the joint action of the root's first most visited child,
        or every taxi idle when the root has no children. */
    method RootAction() returns (action: JointAction)
      requires Valid()
      ensures nodes[0].children == [] ==> action == AllIdle(views[0].taxis)
      ensures nodes[0].children != [] ==>
        exists k :: FirstMostVisited(nodes, 0, k) && nodes[nodes[0].children[k]].action == Some(action)
      ensures action in LegalActions(views[0])
    {
      if nodes[0].children == [] {
        assert states[0].View() == views[0];
        action := AllIdle(states[0].taxis[..]);
        assert action == LegalActions(views[0])[0];
      } else {
        var best, k := MostVisitedChild(0);
        action := nodes[best].action.value;
        assert action == LegalActions(views[0])[k];
        assert FirstMostVisited(nodes, 0, k);
      }
    }

    /** One iteration of `mcts_policy`'s loop: select a leaf; roll out from it if it was
        never visited, otherwise expand it and roll out from one random child; back the
        reward up from where the rollout started. Returns the cursor past the draws used;
        `r` records the round. */
    method Iterate(env: Environment, draws: Oracle, cursor: nat, explore: (nat, nat) -> real)
      returns (next: nat, ghost r: Round)
      requires Valid() && Feasible(draws)
      modifies this, env
      ensures Valid()
      ensures Advanced(Stage(old(nodes), old(views), old(env.requestCounter), cursor),
                       Stage(nodes, views, env.requestCounter, next), r, env.cancellationProb, draws, explore)
      ensures ParentsBefore(Parents(old(nodes))) && Above(Parents(old(nodes)), 0, r.leaf)
      ensures |r.trace| == Depth
      ensures env.lastStepInfo == Some(r.trace[Depth - 1].info) && env.LogsMatch()
      ensures nodes[0].visits == old(nodes[0].visits) + 1
      ensures states[0] == old(states[0]) && views[0] == old(views[0])
      ensures old(nodes[0].children) != [] ==> nodes[0].children == old(nodes[0].children)
      ensures old(nodes[0].children) == [] ==> (nodes[0].children != [] <==> old(nodes[0].visits) > 0)
    {
      var leaf := Select(0, explore);
      if nodes[leaf].visits == 0 {
        ghost var nodes0, views0, counter0 := nodes, views, env.requestCounter;
        ghost var trace;
        next, trace := RolloutLeaf(leaf, env, draws, cursor);
        r := Round(leaf, nodes0, leaf, trace, cursor, cursor, counter0);
        assert RolledOut(nodes0, views0, counter0, env.cancellationProb, draws, cursor, views, env.requestCounter, next, r);
      } else {
        next, r := ExpandLeaf(leaf, env, draws, cursor);
      }
    }

    /** An iteration of the loop of `mcts_policy` that extends the search's history: the
        round taken from the last of `stages` is appended to `rounds`, the stage it
        reaches to `stages`. */
    method SearchRound(env: Environment, draws: Oracle, cursor: nat, explore: (nat, nat) -> real, ghost s: Snapshot,
                       ghost counter: int, ghost stages: seq<Stage>, ghost rounds: seq<Round>)
      returns (next: nat, ghost stages': seq<Stage>, ghost rounds': seq<Round>)
      requires Valid() && Feasible(draws)
      requires Searched(s, counter, stages, rounds, env.cancellationProb, draws, explore)
      requires stages[|rounds|] == Stage(nodes, views, env.requestCounter, cursor)
      modifies this, env
      ensures Valid()
      ensures |rounds'| == |rounds| + 1 && |stages'| == |rounds'| + 1 && rounds'[..|rounds|] == rounds && stages'[..|rounds| + 1] == stages
      ensures Searched(s, counter, stages', rounds', env.cancellationProb, draws, explore)
      ensures stages'[|rounds'|] == Stage(nodes, views, env.requestCounter, next)
      ensures env.lastStepInfo == LastStepOf(rounds') && env.lastStepInfo.Some? && env.LogsMatch()
      ensures env.requestCounter >= old(env.requestCounter)
      ensures nodes[0].visits == old(nodes[0].visits) + 1
      ensures states[0] == old(states[0]) && views[0] == old(views[0])
      ensures old(nodes[0].children) != [] ==> nodes[0].children == old(nodes[0].children)
      ensures old(nodes[0].children) == [] ==> (nodes[0].children != [] <==> old(nodes[0].visits) > 0)
    {
      ghost var r;
      next, r := Iterate(env, draws, cursor, explore);
      ghost var b := Stage(nodes, views, env.requestCounter, next);
      SearchedSnoc(s, counter, stages, rounds, env.cancellationProb, draws, explore, b, r);
      LastStepOfSnoc(rounds, r);
      stages', rounds' := stages + [b], rounds + [r];
      assert rounds'[..|rounds|] == rounds && stages'[..|rounds| + 1] == stages;
    }

    /** The first branch of an iteration, and the end of the second: roll out from `leaf`
        and back the total reward of the rollout's `trace` up from `leaf`. */
    method RolloutLeaf(leaf: nat, env: Environment, draws: Oracle, cursor: nat) returns (next: nat, ghost trace: seq<Outcome>)
      requires Valid() && leaf < |nodes| && Feasible(draws)
      modifies this, env
      ensures Valid()
      ensures |trace| == Depth && IsRollout(old(views)[leaf], old(env.requestCounter), env.cancellationProb, draws, cursor, trace)
      ensures ParentsBefore(Parents(old(nodes))) && nodes == Backpropagated(old(nodes), leaf, TotalReward(trace))
      ensures states == old(states) && views == old(views)
      ensures env.requestCounter == old(env.requestCounter) + Arrivals(draws, cursor, Depth)
      ensures env.lastStepInfo == Some(trace[Depth - 1].info) && env.LogsMatch()
      ensures next == cursor + Depth
      ensures nodes[0].visits == old(nodes[0].visits) + 1 && nodes[0].children == old(nodes[0].children)
    {
      var reward;
      assert states[leaf].View() == views[leaf];
      reward, trace := Rollout(env, states[leaf], draws, cursor);
      RolloutCounter(views[leaf], old(env.requestCounter), env.cancellationProb, draws, cursor, trace);
      Backpropagate(leaf, reward);
      next := cursor + Depth;
    }

    /** The second branch of an iteration: expand `leaf`, roll out from one of its new
        children picked by the next draw, and back the reward up from that child. */
    method ExpandLeaf(leaf: nat, env: Environment, draws: Oracle, cursor: nat) returns (next: nat, ghost r: Round)
      requires Valid() && leaf < |nodes| && nodes[leaf].children == [] && Feasible(draws)
      modifies this, env
      ensures Valid() && r.leaf == leaf
      ensures ExpandedRollout(old(nodes), old(views), old(env.requestCounter), env.cancellationProb, draws, cursor,
                              views, env.requestCounter, next, r)
      ensures |r.trace| == Depth && r.from < |r.grown| && ParentsBefore(Parents(r.grown))
      ensures nodes == Backpropagated(r.grown, r.from, TotalReward(r.trace))
      ensures env.lastStepInfo == Some(r.trace[Depth - 1].info) && env.LogsMatch()
      ensures nodes[0].visits == old(nodes[0].visits) + 1
      ensures leaf != 0 ==> nodes[0].children == old(nodes[0].children)
      ensures leaf == 0 ==> nodes[0].children != []
      ensures states[0] == old(states[0]) && views[0] == old(views[0])
    {
      ghost var nodes0, views0, c0 := nodes, views, env.requestCounter;
      StatesMatchWellFormed(states, views, States, Arrays);
      ghost var acts := LegalActions(views[leaf]);
      var children := Expand(leaf, env, draws, cursor);
      ghost var grown, views1, c1 := nodes, views, env.requestCounter;
      assert children == Range(|nodes0|, |acts|);
      var c := cursor + |children|;
      var picked := children[draws(c).pick % |children|];
      assert picked == |nodes0| + draws(c).pick % |acts|;
      var rc := c + 1;
      ghost var trace;
      next, trace := RolloutLeaf(picked, env, draws, rc);
      r := Round(leaf, grown, picked, trace, c, rc, c1);
      assert views == views1;
    }
  }

  /** Child `k` of node `p` is the first of its children with the most visits. */
  predicate FirstMostVisited(nodes: seq<Node>, p: int, k: int)
    requires Shape(nodes) && 0 <= p < |nodes|
  {
    && 0 <= k < |nodes[p].children|
    && (forall j :: 0 <= j < |nodes[p].children| ==>
          nodes[nodes[p].children[j]].visits <= nodes[nodes[p].children[k]].visits)
    && (forall j :: 0 <= j < k ==> nodes[nodes[p].children[j]].visits < nodes[nodes[p].children[k]].visits)
  }

  /** The loop of `mcts_policy`: a tree grown from a lone root holding `state` by
      `iterations` rounds, the last of the `stages` the `rounds` went through. The root's
      visits count the rounds, and the root is expanded from the second round on. */
  method Search(state: State, env: Environment, iterations: nat, draws: Oracle, explore: (nat, nat) -> real)
    returns (tree: SearchTree, ghost stages: seq<Stage>, ghost rounds: seq<Round>)
    requires state.Valid() && Feasible(draws)
    modifies env
    ensures |rounds| == iterations
    ensures Searched(state.View(), old(env.requestCounter), stages, rounds, env.cancellationProb, draws, explore)
    ensures fresh(tree) && tree.Valid() && tree.states[0] == state && tree.views[0] == state.View()
    ensures tree.nodes == stages[iterations].nodes && tree.views == stages[iterations].views
    ensures env.requestCounter == stages[iterations].counter
    ensures iterations >= 1 ==> env.lastStepInfo == LastStepOf(rounds) && env.lastStepInfo.Some? && env.LogsMatch()
    ensures iterations == 0 ==> unchanged(env)
    ensures tree.nodes[0].visits == iterations
    ensures tree.nodes[0].children != [] <==> iterations >= 2
    ensures env.requestCounter >= old(env.requestCounter)
  {
    tree := new SearchTree(state);
    var cursor := 0;
    stages, rounds := [Stage(tree.nodes, tree.views, env.requestCounter, cursor)], [];
    var i := 0;
    while i < iterations
      invariant 0 <= i <= iterations && fresh(tree) && tree.Valid()
      invariant |rounds| == i
      invariant Searched(state.View(), old(env.requestCounter), stages, rounds, env.cancellationProb, draws, explore)
      invariant stages[i] == Stage(tree.nodes, tree.views, env.requestCounter, cursor)
      invariant tree.nodes[0].visits == i && tree.states[0] == state && tree.views[0] == state.View()
      invariant tree.nodes[0].children != [] <==> i >= 2
      invariant env.requestCounter >= old(env.requestCounter)
      invariant i >= 1 ==> env.lastStepInfo == LastStepOf(rounds) && env.lastStepInfo.Some? && env.LogsMatch()
      invariant i == 0 ==> unchanged(env)
      modifies tree, env
    {
      cursor, stages, rounds := tree.SearchRound(env, draws, cursor, explore, state.View(), old(env.requestCounter), stages, rounds);
      i := i + 1;
    }
  }

  /** `mcts_policy`: grow a tree from `state` for `iterations` rounds and return the joint
      action of the root's most visited child, or every taxi idle when the root was never
      expanded. The tree is the last of the `stages` the `rounds` of the search went
      through, and the result is always one of the state's legal joint actions. */
  method MctsPolicy(state: State, env: Environment, iterations: nat, draws: Oracle, explore: (nat, nat) -> real)
    returns (action: JointAction, ghost tree: SearchTree, ghost stages: seq<Stage>, ghost rounds: seq<Round>)
    requires state.Valid() && Feasible(draws)
    modifies env
    ensures |rounds| == iterations
    ensures Searched(state.View(), old(env.requestCounter), stages, rounds, env.cancellationProb, draws, explore)
    ensures fresh(tree) && tree.Valid() && tree.states[0] == state
    ensures tree.nodes == stages[iterations].nodes && tree.views == stages[iterations].views
    ensures env.requestCounter == stages[iterations].counter
    ensures iterations >= 1 ==> env.lastStepInfo == LastStepOf(rounds) && env.lastStepInfo.Some? && env.LogsMatch()
    ensures iterations == 0 ==> unchanged(env)
    ensures tree.nodes[0].visits == iterations
    ensures tree.nodes[0].children != [] <==> iterations >= 2
    ensures iterations <= 1 ==> action == AllIdle(state.View().taxis)
    ensures iterations >= 2 ==>
      exists k :: FirstMostVisited(tree.nodes, 0, k) && tree.nodes[tree.nodes[0].children[k]].action == Some(action)
    ensures action in LegalActions(state.View())
    ensures env.requestCounter >= old(env.requestCounter)
  {
    var t;
    t, stages, rounds := Search(state, env, iterations, draws, explore);
    action := t.RootAction();
    tree := t;
  }

  /** `MCTSPolicy`: the planner with its environment and its number of iterations. */
  class MctsPlanner {
    const env: Environment
    const iterations: nat

    constructor (env: Environment, iterations: nat)
      ensures this.env == env && this.iterations == iterations
    {
      this.env := env;
      this.iterations := iterations;
    }

    /** `selectAction`: `mcts_policy` on the planner's environment and iteration count. */
    method SelectAction(state: State, draws: Oracle, explore: (nat, nat) -> real)
      returns (action: JointAction, ghost tree: SearchTree, ghost stages: seq<Stage>, ghost rounds: seq<Round>)
      requires state.Valid() && Feasible(draws)
      modifies env
      ensures |rounds| == iterations
      ensures Searched(state.View(), old(env.requestCounter), stages, rounds, env.cancellationProb, draws, explore)
      ensures fresh(tree) && tree.Valid() && tree.states[0] == state
      ensures tree.nodes == stages[iterations].nodes && tree.views == stages[iterations].views
      ensures env.requestCounter == stages[iterations].counter
      ensures iterations >= 1 ==> env.lastStepInfo == LastStepOf(rounds) && env.lastStepInfo.Some? && env.LogsMatch()
      ensures iterations == 0 ==> unchanged(env)
      ensures tree.nodes[0].visits == iterations
      ensures iterations <= 1 ==> action == AllIdle(state.View().taxis)
      ensures iterations >= 2 ==>
        exists k :: FirstMostVisited(tree.nodes, 0, k) && tree.nodes[tree.nodes[0].children[k]].action == Some(action)
      ensures action in LegalActions(state.View())
    {
      action, tree, stages, rounds := MctsPolicy(state, env, iterations, draws, explore);
    }
  }
}
