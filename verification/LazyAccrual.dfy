/**
 The incentives handler (modules/incentives/src/lib.rs) pays a fixed rate per block, and the pool
 accrues it lazily: only when an operation touches the pool. Here lazy accrual is shown to be
 indistinguishable from accruing at any other blocks as well.
 */
module LazyAccrual {
  import opened Primitives
  import opened FixedPoint
  import opened RewardPool

  /** `caculate_reward`: the rate is `None` when the pool has no entry in the rate map. */
  function CalculateReward(rate: Option<nat>, totalShares: nat, last: nat, now: nat): nat {
    if totalShares == 0 then 0
    else if rate.None? || last >= now then 0
    else if rate.value == 0 then 0
    else Min(rate.value * (now - last), U128_MAX)
  }

  function IncentiveConfig(mulDiv: MulDiv, existentialReward: nat, rate: Option<nat>): Config {
    Config(mulDiv, existentialReward, (shares, last, now) => CalculateReward(rate, shares, last, now))
  }

  function RateOf(rate: Option<nat>): nat {
    if rate.Some? then rate.value else 0
  }

  /** The reward owed at `now`, without machine limits. */
  function Owed(rate: Option<nat>, pool: PoolInfo, now: nat): nat {
    if pool.totalShares == 0 || now <= pool.lastUpdateBlock then 0
    else RateOf(rate) * (now - pool.lastUpdateBlock)
  }

  /** The reward owed at `now` can be credited to the sub-account in one signed amount. */
  predicate CreditFits(rate: Option<nat>, pool: PoolInfo, now: nat) {
    Owed(rate, pool, now) <= I128_MAX
  }

  /** The totals of the pool brought to `now` are u128 values. */
  predicate TotalsFit(rate: Option<nat>, pool: PoolInfo, now: nat) {
    var owed := Owed(rate, pool, now);
    pool.totalRewards + owed <= U128_MAX && pool.totalRewardsUseable + owed <= U128_MAX
  }

  /** The pool at `now`, without machine limits. */
  function Synced(rate: Option<nat>, s: PoolState, now: nat): PoolState {
    if now <= s.info.lastUpdateBlock then s
    else
      var owed := Owed(rate, s.info, now);
      s.(info := s.info.(totalRewards := s.info.totalRewards + owed,
                         totalRewardsUseable := s.info.totalRewardsUseable + owed,
                         lastUpdateBlock := now),
         balance := s.balance + owed)
  }

  /** An update adds rate times blocks, or fails and changes nothing when the totals would overflow. */
  lemma UpdateIsSync(mulDiv: MulDiv, er: nat, rate: Option<nat>, s: PoolState, now: nat)
    requires TotalsFit(rate, s.info, s.info.lastUpdateBlock) && CreditFits(rate, s.info, now)
    ensures UpdatePoolReward(IncentiveConfig(mulDiv, er, rate), s, now)
         == if TotalsFit(rate, s.info, now) then Ok(Synced(rate, s, now)) else Err(RewardCalculationError)
  {
    if rate.Some? && rate.value > 0 && now > s.info.lastUpdateBlock {
      MulMonotone(1, rate.value, now - s.info.lastUpdateBlock);
    }
  }

  /**
   Every update with the incentives handler, machine limits included: the reward saturates at u128, the update fails
   exactly when a total would leave u128, and the credit to the sub-account saturates at i128.
   */
  lemma UpdateOutcome(mulDiv: MulDiv, er: nat, rate: Option<nat>, s: PoolState, now: nat)
    requires s.info.totalRewards <= U128_MAX && s.info.totalRewardsUseable <= U128_MAX
    ensures var pool, reward := s.info, Min(Owed(rate, s.info, now), U128_MAX);
            UpdatePoolReward(IncentiveConfig(mulDiv, er, rate), s, now) ==
              if pool.totalRewards + reward > U128_MAX || pool.totalRewardsUseable + reward > U128_MAX
              then Err(RewardCalculationError)
              else Ok(s.(info := PoolInfo(pool.totalShares, pool.totalRewards + reward,
                                          pool.totalRewardsUseable + reward,
                                          if now <= pool.lastUpdateBlock then pool.lastUpdateBlock else now),
                         balance := s.balance + Min(reward, I128_MAX)))
  {
    if rate.Some? && rate.value > 0 && now > s.info.lastUpdateBlock {
      MulMonotone(1, rate.value, now - s.info.lastUpdateBlock);
    }
  }

  /** Accruing in two steps owes what accruing in one step owes, and fits exactly when that fits. */
  lemma SyncComposes(rate: Option<nat>, s: PoolState, mid: nat, now: nat)
    requires mid <= now
    ensures Synced(rate, Synced(rate, s, mid), now) == Synced(rate, s, now)
    ensures Owed(rate, s.info, now) == Owed(rate, s.info, mid) + Owed(rate, Synced(rate, s, mid).info, now)
    ensures TotalsFit(rate, Synced(rate, s, mid).info, now) <==> TotalsFit(rate, s.info, now)
  {
    var last := s.info.lastUpdateBlock;
    if last < mid {
      SplitBlocks(RateOf(rate), last, mid, now);
    }
  }

  lemma SplitBlocks(rate: nat, last: nat, mid: nat, now: nat)
    requires last <= mid <= now
    ensures rate * (mid - last) + rate * (now - mid) == rate * (now - last)
    ensures rate * (mid - last) <= rate * (now - last)
    ensures rate * (now - mid) <= rate * (now - last)
  {
  }

  /** Every operation sees only the pool brought to its own block, also when bringing it there overflows. */
  lemma ExecuteSeesSynced(mulDiv: MulDiv, er: nat, rate: Option<nat>, s: PoolState, mid: nat, call: Call)
    requires mid <= call.block && TotalsFit(rate, s.info, mid) && CreditFits(rate, s.info, call.block)
    ensures var c := IncentiveConfig(mulDiv, er, rate);
            Execute(c, Synced(rate, s, mid), call) == Execute(c, s, call)
  {
    SyncComposes(rate, s, mid, call.block);
    UpdateIsSync(mulDiv, er, rate, s, call.block);
    UpdateIsSync(mulDiv, er, rate, Synced(rate, s, mid), call.block);
  }

  /**
   The bound on the credit is exact. With totals in u128, an update on the way changes nothing iff the reward owed
   can be credited at once, or the update is not strictly between the last one and `now`.
   */
  lemma EarlyUpdateIsInvisibleIff(mulDiv: MulDiv, er: nat, rate: Option<nat>, s: PoolState, mid: nat, now: nat)
    requires mid <= now && TotalsFit(rate, s.info, now)
    ensures var c := IncentiveConfig(mulDiv, er, rate);
            Next(c, Next(c, s, Call(mid, Update)), Call(now, Update)) == Next(c, s, Call(now, Update)) <==>
              CreditFits(rate, s.info, now) || mid <= s.info.lastUpdateBlock || mid == now
  {
    var c, last := IncentiveConfig(mulDiv, er, rate), s.info.lastUpdateBlock;
    SyncComposes(rate, s, mid, now);
    UpdateCredits(mulDiv, er, rate, s, now);
    UpdateCredits(mulDiv, er, rate, s, mid);
    UpdateCredits(mulDiv, er, rate, Next(c, s, Call(mid, Update)), now);
    if last < mid < now && !CreditFits(rate, s.info, now) {
      SplitBlocks(RateOf(rate), last, mid, now);
      MulStrictlyMonotone(0, RateOf(rate), mid - last);
      MulStrictlyMonotone(0, RateOf(rate), now - mid);
    }
  }

  /** With totals in u128, an update differs from the unlimited one in the saturated credit only. */
  lemma UpdateCredits(mulDiv: MulDiv, er: nat, rate: Option<nat>, s: PoolState, now: nat)
    requires TotalsFit(rate, s.info, now)
    ensures Next(IncentiveConfig(mulDiv, er, rate), s, Call(now, Update))
         == Synced(rate, s, now).(balance := s.balance + Credit(Owed(rate, s.info, now)))
  {
    if rate.Some? && rate.value > 0 && now > s.info.lastUpdateBlock {
      MulMonotone(1, rate.value, now - s.info.lastUpdateBlock);
    }
  }

  // ---------- Runs with extra updates ----------

  function Erase(calls: seq<Call>): seq<Call> {
    if calls == [] then []
    else if calls[0].op.Update? then Erase(calls[1..])
    else [calls[0]] + Erase(calls[1..])
  }

  /** Blocks never go back, and the run ends by block `end`. */
  predicate Ordered(calls: seq<Call>, start: nat, end: nat) {
    if calls == [] then start <= end
    else start <= calls[0].block && Ordered(calls[1..], calls[0].block, end)
  }

  /** In the run of the calls other than updates, every gap up to a call or to block `end` can be credited at once. */
  predicate CreditsFit(c: Config, rate: Option<nat>, s: PoolState, calls: seq<Call>, end: nat)
    decreases |calls|
  {
    if calls == [] then CreditFits(rate, s.info, end)
    else if calls[0].op.Update? then CreditsFit(c, rate, s, calls[1..], end)
    else CreditFits(rate, s.info, calls[0].block) && CreditsFit(c, rate, Next(c, s, calls[0]), calls[1..], end)
  }

  /** What every call other than an update answered: new storage, returned value and payout, or the error. */
  function Replies(c: Config, s: PoolState, calls: seq<Call>): seq<Result<Done, Error>>
    decreases |calls|
  {
    if calls == [] then []
    else (if calls[0].op.Update? then [] else [Execute(c, s, calls[0])])
         + Replies(c, Next(c, s, calls[0]), calls[1..])
  }

  /** The credit fits at least up to the block where the next call happens, or the end. */
  lemma {:induction false} CreditFitsNow(
    c: Config, rate: Option<nat>, s: PoolState, calls: seq<Call>, now: nat, end: nat)
    requires Ordered(calls, now, end) && CreditsFit(c, rate, s, calls, end)
    ensures CreditFits(rate, s.info, now)
    decreases |calls|
  {
    if calls == [] {
      SyncComposes(rate, s, now, end);
    } else if calls[0].op.Update? {
      CreditFitsNow(c, rate, s, calls[1..], calls[0].block, end);
      SyncComposes(rate, s, now, calls[0].block);
    } else {
      SyncComposes(rate, s, now, calls[0].block);
    }
  }

  lemma {:induction false} ErasedRun(c: Config, s: PoolState, calls: seq<Call>)
    ensures calls != [] && calls[0].op.Update? ==> Erase(calls) == Erase(calls[1..])
    ensures calls != [] && !calls[0].op.Update? ==>
              Replies(c, s, Erase(calls))
                == [Execute(c, s, calls[0])] + Replies(c, Next(c, s, calls[0]), Erase(calls[1..]))
              && Final(c, s, Erase(calls)) == Final(c, Next(c, s, calls[0]), Erase(calls[1..]))
  {
    if calls != [] && !calls[0].op.Update? {
      assert Erase(calls)[0] == calls[0] && Erase(calls)[1..] == Erase(calls[1..]);
    }
  }

  /**
   Updates are invisible, also to runs whose totals overflow. The lazily kept pool `s` brought to a block `at` where
   its totals still fit is what the other run has; the run with its updates then answers every other call exactly as the
   run without them answers from `s`, and both end in the same pool once brought to block `end`.
   */
  lemma {:induction false} UpdatesAreInvisible(
    mulDiv: MulDiv, er: nat, rate: Option<nat>, s: PoolState, at: nat, mid: nat, calls: seq<Call>, end: nat)
    requires at <= mid && TotalsFit(rate, s.info, at) && Ordered(calls, mid, end)
    requires CreditsFit(IncentiveConfig(mulDiv, er, rate), rate, s, calls, end)
    ensures var c, ahead := IncentiveConfig(mulDiv, er, rate), Synced(rate, s, at);
            && Replies(c, ahead, calls) == Replies(c, s, Erase(calls))
            && Synced(rate, Final(c, ahead, calls), end) == Synced(rate, Final(c, s, Erase(calls)), end)
    decreases |calls|
  {
    var c, ahead := IncentiveConfig(mulDiv, er, rate), Synced(rate, s, at);
    if calls == [] {
      SyncComposes(rate, s, at, end);
    } else {
      var call, rest := calls[0], calls[1..];
      ErasedRun(c, s, calls);
      if call.op.Update? {
        CreditFitsNow(c, rate, s, rest, call.block, end);
        UpdateOfSynced(mulDiv, er, rate, s, at, call.block);
        var next := if TotalsFit(rate, s.info, call.block) then call.block else at;
        UpdatesAreInvisible(mulDiv, er, rate, s, next, call.block, rest, end);
      } else {
        ExecuteSeesSynced(mulDiv, er, rate, s, at, call);
        if Execute(c, s, call).Ok? {
          SucceededAt(mulDiv, er, rate, s, at, call);
          UpdatesAreInvisible(mulDiv, er, rate, Next(c, s, call), call.block, call.block, rest, end);
        } else {
          UpdatesAreInvisible(mulDiv, er, rate, s, at, call.block, rest, end);
        }
      }
    }
  }

  /** Updating the synced pool brings it on to `now`, or leaves it where it is if that overflows. */
  lemma UpdateOfSynced(mulDiv: MulDiv, er: nat, rate: Option<nat>, s: PoolState, at: nat, now: nat)
    requires at <= now && TotalsFit(rate, s.info, at) && CreditFits(rate, s.info, now)
    ensures Next(IncentiveConfig(mulDiv, er, rate), Synced(rate, s, at), Call(now, Update))
         == Synced(rate, s, if TotalsFit(rate, s.info, now) then now else at)
  {
    SyncComposes(rate, s, at, now);
    UpdateIsSync(mulDiv, er, rate, Synced(rate, s, at), now);
  }

  lemma RemovalKeepsTotals(c: Config, pool: PoolInfo, account: PoolAccountInfo, amount: nat)
    requires GetRewardsByAccountShares(c, pool, account, amount).Ok?
    ensures var info := GetRewardsByAccountShares(c, pool, account, amount).value.0;
            && info.lastUpdateBlock == pool.lastUpdateBlock
            && info.totalRewards <= pool.totalRewards && info.totalRewardsUseable <= pool.totalRewardsUseable
  {
  }

  /** A successful call keeps the block of its update, and u128 totals stay u128. */
  lemma ExecuteKeepsTotals(c: Config, s: PoolState, call: Call, u: PoolState)
    requires UpdatePoolReward(c, s, call.block) == Ok(u) && Execute(c, s, call).Ok?
    requires u.info.totalRewards <= U128_MAX && u.info.totalRewardsUseable <= U128_MAX
    ensures var info := Execute(c, s, call).value.state.info;
            && info.lastUpdateBlock == u.info.lastUpdateBlock
            && info.totalRewards <= U128_MAX && info.totalRewardsUseable <= U128_MAX
  {
    if call.op.Remove? {
      RemovalKeepsTotals(c, u.info, Member(u.members, call.op.who), call.op.amount);
    }
  }

  /** A successful call leaves the pool at its own block, with totals in u128. */
  lemma SucceededAt(mulDiv: MulDiv, er: nat, rate: Option<nat>, s: PoolState, at: nat, call: Call)
    requires at <= call.block && TotalsFit(rate, s.info, at) && CreditFits(rate, s.info, call.block)
    requires Execute(IncentiveConfig(mulDiv, er, rate), s, call).Ok?
    ensures var next := Next(IncentiveConfig(mulDiv, er, rate), s, call);
            Synced(rate, next, call.block) == next && TotalsFit(rate, next.info, call.block)
  {
    UpdateIsSync(mulDiv, er, rate, s, call.block);
    if TotalsFit(rate, s.info, call.block) {
      ExecuteKeepsTotals(IncentiveConfig(mulDiv, er, rate), s, call, Synced(rate, s, call.block));
    }
  }

  /**
   Two runs that differ only in where the pool is updated answer alike and end alike, provided the totals start in
   u128 and every gap of the lazy run can be credited at once.
   */
  lemma LazyAccrualRefinesAnySchedule(
    mulDiv: MulDiv, er: nat, rate: Option<nat>, s: PoolState, calls: seq<Call>, calls': seq<Call>, end: nat)
    requires s.info.totalRewards <= U128_MAX && s.info.totalRewardsUseable <= U128_MAX
    requires Ordered(calls, s.info.lastUpdateBlock, end) && Ordered(calls', s.info.lastUpdateBlock, end)
    requires Erase(calls) == Erase(calls')
    requires CreditsFit(IncentiveConfig(mulDiv, er, rate), rate, s, Erase(calls), end)
    ensures var c := IncentiveConfig(mulDiv, er, rate);
            && Replies(c, s, calls) == Replies(c, s, calls')
            && Synced(rate, Final(c, s, calls), end) == Synced(rate, Final(c, s, calls'), end)
  {
    var c, start := IncentiveConfig(mulDiv, er, rate), s.info.lastUpdateBlock;
    CreditsFitErased(c, rate, s, calls, end);
    CreditsFitErased(c, rate, s, calls', end);
    UpdatesAreInvisible(mulDiv, er, rate, s, start, start, calls, end);
    UpdatesAreInvisible(mulDiv, er, rate, s, start, start, calls', end);
  }

  lemma {:induction false} CreditsFitErased(c: Config, rate: Option<nat>, s: PoolState, calls: seq<Call>, end: nat)
    ensures CreditsFit(c, rate, s, Erase(calls), end) == CreditsFit(c, rate, s, calls, end)
    decreases |calls|
  {
    if calls != [] {
      if calls[0].op.Update? {
        CreditsFitErased(c, rate, s, calls[1..], end);
      } else {
        assert Erase(calls)[0] == calls[0] && Erase(calls)[1..] == Erase(calls[1..]);
        CreditsFitErased(c, rate, Next(c, s, calls[0]), calls[1..], end);
      }
    }
  }
}
