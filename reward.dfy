/** `get_reward`: a weighted count over the last step's summary and the waiting requests,
    with the weights of `RewardConfiguration`. */
module Rewards {
  import opened Domain

  const ProfitPerRide: real := 10.0
  const TravelCostPerStep: real := 0.1
  const WaitPenaltyPerStep: real := 2.0
  const IdlePenaltyPerStep: real := 0.02
  const CancelPenalty: real := 5.0

  /** `sum(req.waiting_time for req in requests)`. */
  function TotalWaiting(rs: seq<Request>): int {
    if rs == [] then 0 else TotalWaiting(rs[..|rs| - 1]) + rs[|rs| - 1].waitingTime
  }

  lemma {:induction false} TotalWaitingNonNegative(rs: seq<Request>)
    requires forall k :: 0 <= k < |rs| ==> rs[k].waitingTime >= 0
    ensures TotalWaiting(rs) >= 0
    decreases |rs|
  {
    if rs != [] {
      TotalWaitingNonNegative(rs[..|rs| - 1]);
    }
  }

  /** The reward of a step: the profit of the completed rides less the penalties. Each
      event penalty only lowers it below the profit less the waiting penalty. */
  function Reward(info: StepInfo, rs: seq<Request>): (r: real)
    ensures r <= ProfitPerRide * (|info.completedRides| as real) - WaitPenaltyPerStep * (TotalWaiting(rs) as real)
    ensures info.cancelledRequests == [] && info.movingTaxis == [] && info.idleTaxis == [] ==>
      r == ProfitPerRide * (|info.completedRides| as real) - WaitPenaltyPerStep * (TotalWaiting(rs) as real)
  {
    ProfitPerRide * (|info.completedRides| as real)
    - WaitPenaltyPerStep * (TotalWaiting(rs) as real)
    - CancelPenalty * (|info.cancelledRequests| as real)
    - TravelCostPerStep * (|info.movingTaxis| as real)
    - IdlePenaltyPerStep * (|info.idleTaxis| as real)
  }

  /** Only completed rides earn: with non-negative waiting times the reward never exceeds
      the profit of the rides completed. */
  lemma RewardAtMostProfit(info: StepInfo, rs: seq<Request>)
    requires forall k :: 0 <= k < |rs| ==> rs[k].waitingTime >= 0
    ensures Reward(info, rs) <= ProfitPerRide * (|info.completedRides| as real)
  {
    TotalWaitingNonNegative(rs);
  }

  /** One more tick of waiting on one request costs exactly the wait penalty. */
  lemma {:induction false} RewardWaitPenalty(info: StepInfo, rs: seq<Request>, k: int)
    requires 0 <= k < |rs|
    ensures Reward(info, rs[k := rs[k].(waitingTime := rs[k].waitingTime + 1)]) == Reward(info, rs) - WaitPenaltyPerStep
  {
    TotalWaitingBump(rs, k);
  }

  lemma {:induction false} TotalWaitingBump(rs: seq<Request>, k: int)
    requires 0 <= k < |rs|
    ensures TotalWaiting(rs[k := rs[k].(waitingTime := rs[k].waitingTime + 1)]) == TotalWaiting(rs) + 1
    decreases |rs|
  {
    var bumped := rs[k := rs[k].(waitingTime := rs[k].waitingTime + 1)];
    var n := |rs| - 1;
    if k < n {
      TotalWaitingBump(rs[..n], k);
      assert bumped[..n] == rs[..n][k := rs[k].(waitingTime := rs[k].waitingTime + 1)];
    } else {
      assert bumped[..n] == rs[..n];
    }
  }
}
