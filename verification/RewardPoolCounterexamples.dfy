/** Concrete runs on which a law one might expect of the reward pool fails. */
module RewardPoolCounterexamples {
  import opened Primitives
  import opened FixedPoint
  import opened RewardPool
  import opened RewardPoolLaws
  import opened RewardPoolProperties
  import opened LazyAccrual

  function Truncate(a: nat, b: nat, c: nat): nat {
    if c == 0 then 0 else
      var product: nat := a * b;
      product / c
  }

  lemma TruncateTruncates()
    ensures Truncates(Truncate)
  {
  }

  /** `rate` per block, rewards up to 500 are not sent. */
  function Sample(rate: nat): Config {
    IncentiveConfig(Truncate, 500, Some(rate))
  }

  lemma Divide(a: nat, b: nat, c: nat, q: nat)
    requires c > 0 && q * c <= a * b < (q + 1) * c
    ensures Truncate(a, b, c) == q
  {
    QuotientBounds(a * b, c);
    if Truncate(a, b, c) < q {
      MulMonotone(Truncate(a, b, c) + 1, q, c);
    } else if Truncate(a, b, c) > q {
      MulMonotone(q + 1, Truncate(a, b, c), c);
    }
  }

  /** One holder of 100 shares after one block at 1000 per block. */
  lemma OneHolder(g: PoolState, alice: AccountId)
    requires IsGenesis(g)
    ensures var c := Sample(1000);
            && AddShare(c, g, 10, alice, 100).Ok?
            && UpdatePoolReward(c, AddShare(c, g, 10, alice, 100).value.state, 11)
               == Ok(PoolState(PoolInfo(100, 1000, 1000, 11), map[alice := PoolAccountInfo(100, 0)], 1000))
  {
    Divide(0, 100, ONE, 0);
    assert g.members == map[];
  }

  lemma Joins(s: PoolState, alice: AccountId, bob: AccountId)
    requires alice != bob
    requires s == PoolState(PoolInfo(100, 1000, 1000, 11), map[alice := PoolAccountInfo(100, 0)], 1000)
    ensures AddShare(Sample(1000), s, 11, bob, 100)
         == Ok(Done(PoolState(PoolInfo(200, 2000, 1000, 11),
                              s.members[bob := PoolAccountInfo(100, 1000)], 1000), 100, 0))
  {
    Divide(1000, ONE, 100, 10 * ONE);
    Divide(10 * ONE, 100, ONE, 1000);
  }

  lemma Leaves(s: PoolState, bob: AccountId)
    requires s.info == PoolInfo(200, 2000, 1000, 11) && Member(s.members, bob) == PoolAccountInfo(100, 1000)
    ensures RemoveShare(Sample(1000), s, 11, bob, 100)
         == Ok(Done(PoolState(PoolInfo(100, 2000, 1000, 11),
                              s.members[bob := PoolAccountInfo(0, 0)], s.balance), 0, 0))
  {
    Divide(100, ONE, 200, ONE / 2);
    Divide(ONE / 2, 2000, ONE, 1000);
    Divide(100, ONE, 100, ONE);
    Divide(ONE, 1000, ONE, 1000);
  }

  lemma Stranded(s: PoolState, alice: AccountId)
    requires s.info == PoolInfo(100, 2000, 1000, 11) && Member(s.members, alice) == PoolAccountInfo(100, 0)
    ensures RemoveShare(Sample(1000), s, 11, alice, 100) == Err(RewardCalculationError)
    ensures ClaimRewards(Sample(1000), s, 11, alice) == Err(RewardCalculationError)
  {
    Divide(100, ONE, 100, ONE);
    Divide(ONE, 2000, ONE, 2000);
    Divide(ONE, 0, ONE, 0);
  }

  lemma HalfLeaves(s: PoolState, alice: AccountId)
    requires s.info == PoolInfo(100, 2000, 1000, 11) && Member(s.members, alice) == PoolAccountInfo(100, 0)
    requires s.balance == 1000
    ensures RemoveShare(Sample(1000), s, 11, alice, 50).Ok?
    ensures RemoveShare(Sample(1000), s, 11, alice, 50).value.payout == 1000
  {
    Divide(50, ONE, 100, ONE / 2);
    Divide(ONE / 2, 2000, ONE, 1000);
    Divide(ONE / 2, 0, ONE, 0);
  }

  /** A second holder joins and leaves in the same block. */
  function JoinAndLeave(alice: AccountId, bob: AccountId): seq<Call> {
    [Call(10, Add(alice, 100)), Call(11, Update), Call(11, Add(bob, 100)), Call(11, Remove(bob, 100))]
  }

  lemma JoinAndLeaveReaches(c: Config, g: PoolState, alice: AccountId, bob: AccountId,
                            s0: PoolState, s1: PoolState, s2: PoolState, s3: PoolState)
    requires Next(c, g, Call(10, Add(alice, 100))) == s0 && Next(c, s0, Call(11, Update)) == s1
    requires Next(c, s1, Call(11, Add(bob, 100))) == s2 && Next(c, s2, Call(11, Remove(bob, 100))) == s3
    ensures Final(c, g, JoinAndLeave(alice, bob)) == s3
  {
    FourSteps(c, g, Call(10, Add(alice, 100)), Call(11, Update), Call(11, Add(bob, 100)), Call(11, Remove(bob, 100)));
  }

  lemma JoinAndLeaveState(g: PoolState, alice: AccountId, bob: AccountId) returns (s: PoolState)
    requires IsGenesis(g) && alice != bob
    ensures s == Final(Sample(1000), g, JoinAndLeave(alice, bob))
    ensures s.info == PoolInfo(100, 2000, 1000, 11) && s.balance == 1000
    ensures Member(s.members, alice) == PoolAccountInfo(100, 0) && Member(s.members, bob) == PoolAccountInfo(0, 0)
    ensures s.members.Keys == {alice, bob}
  {
    var c := Sample(1000);
    OneHolder(g, alice);
    var s0 := AddShare(c, g, 10, alice, 100).value.state;
    var s1 := UpdatePoolReward(c, s0, 11).value;
    Joins(s1, alice, bob);
    var s2 := AddShare(c, s1, 11, bob, 100).value.state;
    Leaves(s2, bob);
    s := RemoveShare(c, s2, 11, bob, 100).value.state;
    JoinAndLeaveReaches(c, g, alice, bob, s0, s1, s2, s);
  }

  lemma WrittenOff(r: Books)
    requires Balanced(r) && r.state.info == PoolInfo(100, 2000, 1000, 11)
    requires forall a :: a in r.state.members ==> r.state.members[a].borrowedAmount == 0
    ensures r.writtenOff == 1000
  {
    ZeroSum(Borrows(r.state.members));
  }

  /**
   The documented identity `total_rewards_useable == total_rewards - virtual rewards` is lost when a joiner
   leaves in the block of joining: its borrow is written off. The remaining sole holder can then neither remove all
   shares nor claim; removing half of them takes all the useable rewards.
   */
  lemma WriteOffStrandsTheLastHolder(b: Books, alice: AccountId, bob: AccountId)
    requires IsNew(b) && alice != bob
    ensures var c, r := Sample(1000), Run(Sample(1000), b, JoinAndLeave(alice, bob));
            && r.state.info == PoolInfo(100, 2000, 1000, 11)
            && Member(r.state.members, alice) == PoolAccountInfo(100, 0)
            && Member(r.state.members, bob) == PoolAccountInfo(0, 0)
            && SoleHolder(r.state, alice) && r.writtenOff == 1000
            && RemoveShare(c, r.state, 11, alice, 100) == Err(RewardCalculationError)
            && ClaimRewards(c, r.state, 11, alice) == Err(RewardCalculationError)
            && RemoveShare(c, r.state, 11, alice, 50).Ok?
            && RemoveShare(c, r.state, 11, alice, 50).value.payout == 1000
  {
    var c, calls := Sample(1000), JoinAndLeave(alice, bob);
    var s := JoinAndLeaveState(b.state, alice, bob);
    RunFollowsStorage(c, b, calls);
    TruncateTruncates();
    TruncatingRounds(c.mulDiv);
    NewBooksBalanced(b);
    RunKeepsBalance(c, b, calls);
    var r := Run(c, b, calls);
    WrittenOff(r);
    Stranded(r.state, alice);
    HalfLeaves(r.state, alice);
  }

  lemma FourSteps(c: Config, s: PoolState, w: Call, x: Call, y: Call, z: Call)
    ensures Final(c, s, [w, x, y, z]) == Next(c, Next(c, Next(c, Next(c, s, w), x), y), z)
  {
    assert [w, x, y, z][1..] == [x, y, z] && [x, y, z][1..] == [y, z] && [y, z][1..] == [z] && [z][1..] == [];
    var s1 := Next(c, s, w);
    var s2 := Next(c, s1, x);
    var s3 := Next(c, s2, y);
    assert Final(c, s, [w, x, y, z]) == Final(c, s1, [x, y, z]) == Final(c, s2, [y, z]);
    assert Final(c, s2, [y, z]) == Final(c, s3, [z]) == Final(c, Next(c, s3, z), []);
  }

  lemma TwoSteps(c: Config, s: PoolState, x: Call, y: Call)
    ensures Final(c, s, [x, y]) == Next(c, Next(c, s, x), y)
  {
    assert [x, y][1..] == [y] && [y][1..] == [];
    assert Final(c, s, [x, y]) == Final(c, Next(c, s, x), [y]) == Final(c, Next(c, Next(c, s, x), y), []);
  }

  lemma FirstJoiner(g: PoolState, rate: nat, now: nat, alice: AccountId, amount: nat)
    requires IsGenesis(g) && 0 < amount <= U128_MAX
    ensures AddShare(Sample(rate), g, now, alice, amount)
         == Ok(Done(PoolState(PoolInfo(amount, 0, 0, now), map[alice := PoolAccountInfo(amount, 0)], 0), amount, 0))
  {
    Divide(0, amount, ONE, 0);
    assert g.members == map[];
  }

  /** Truncation can leave a joiner uncovered: claiming or leaving right after joining is an error. */
  lemma JoinerMayBeUncovered(g: PoolState, alice: AccountId, bob: AccountId)
    requires IsGenesis(g) && alice != bob
    ensures var c := Sample(2);
            var joined := AddShare(c, Final(c, g, [Call(0, Add(alice, 2)), Call(1, Update)]), 1, bob, 1);
            && joined.Ok?
            && ClaimRewards(c, joined.value.state, 1, bob) == Err(RewardCalculationError)
            && RemoveShare(c, joined.value.state, 1, bob, 1) == Err(RewardCalculationError)
  {
    var c := Sample(2);
    FirstJoiner(g, 2, 0, alice, 2);
    TwoSteps(c, g, Call(0, Add(alice, 2)), Call(1, Update));
    var s := Final(c, g, [Call(0, Add(alice, 2)), Call(1, Update)]);
    assert s == PoolState(PoolInfo(2, 2, 2, 1), map[alice := PoolAccountInfo(2, 0)], 2);
    Divide(2, ONE, 2, ONE);
    Divide(ONE, 1, ONE, 1);
    var s1 := AddShare(c, s, 1, bob, 1).value.state;
    assert s1.info == PoolInfo(3, 3, 2, 1);
    Divide(1, ONE, 3, ONE / 3);
    Divide(ONE / 3, 3, ONE, 0);
    Divide(1, ONE, 1, ONE);
  }

  lemma AtExistentialReward(s: PoolState, alice: AccountId)
    requires s.info == PoolInfo(100, 500, 500, 11) && Member(s.members, alice) == PoolAccountInfo(100, 0)
    requires s.balance == 500
    ensures var r := GetRewardsByAccountShares(Sample(500), s.info, PoolAccountInfo(100, 0), 100);
            r.Ok? && r.value.2 == 0
    ensures CalcRewardByShares(Sample(500), s.info, 100) == Ok(500)
  {
    Divide(100, ONE, 100, ONE);
    Divide(ONE, 500, ONE, 500);
    Divide(ONE, 0, ONE, 0);
  }

  /** At exactly the existential reward the preview shows nothing and the claim pays. */
  lemma PreviewMissesExistentialReward(g: PoolState, alice: AccountId)
    requires IsGenesis(g)
    ensures var c, joined := Sample(500), AddShare(Sample(500), g, 10, alice, 100);
            && joined.Ok?
            && GetAccumulatedRewards(c, joined.value.state, 11, alice) == 0
            && var r := ClaimRewards(c, joined.value.state, 11, alice);
               r.Ok? && r.value.returned == r.value.payout == 500
  {
    var c := Sample(500);
    FirstJoiner(g, 500, 10, alice, 100);
    var s := AddShare(c, g, 10, alice, 100).value.state;
    var u := PoolState(PoolInfo(100, 500, 500, 11), s.members, 500);
    assert UpdatePoolReward(c, s, 11) == Ok(u);
    AtExistentialReward(u, alice);
  }

  /** An only holder without borrow who leaves a reward too little to send leaves it in the pool. */
  lemma LeavesReward(c: Config, s: PoolState, u: PoolState, now: nat, who: AccountId) returns (left: PoolState)
    requires Rounds(c.mulDiv) && UpdatePoolReward(c, s, now) == Ok(u)
    requires u.info.totalShares > 0 && Member(u.members, who) == PoolAccountInfo(u.info.totalShares, 0)
    requires u.info.totalRewards == u.info.totalRewardsUseable <= c.existentialReward
    requires u.info.totalRewards <= U128_MAX
    ensures RemoveShare(c, s, now, who, u.info.totalShares) == Ok(Done(left, 0, 0))
    ensures left.info == u.info.(totalShares := 0) && left.balance == u.balance
    ensures forall a :: a != who ==> Member(left.members, a) == Member(u.members, a)
  {
    ScaleByOne(c.mulDiv, u.info.totalShares, u.info.totalRewards);
    ScaleByOne(c.mulDiv, u.info.totalShares, 0);
    RemovalOutcome(c, u.info, Member(u.members, who), u.info.totalShares);
    left := PoolState(u.info.(totalShares := 0), u.members[who := PoolAccountInfo(0, 0)], u.balance);
  }

  lemma TakesReward(s: PoolState, bob: AccountId)
    requires s.info == PoolInfo(0, 500, 500, 11) && s.balance == 500
    requires Member(s.members, bob) == PoolAccountInfo(0, 0)
    ensures var joined := AddShare(Sample(500), s, 11, bob, 1);
            && joined.Ok?
            && var r := ClaimRewards(Sample(500), joined.value.state, 11, bob);
               r.Ok? && r.value.payout == 500
  {
    Divide(0, 1, ONE, 0);
    Divide(1, ONE, 1, ONE);
    Divide(ONE, 500, ONE, 500);
  }

  /**
   Rewards are not always allocated to the blocks after joining: what an unpaid exit leaves in an emptied pool goes to
   the next joiner, here in the block of joining.
   */
  lemma LeftoverGoesToNextJoiner(g: PoolState, alice: AccountId, bob: AccountId)
    requires IsGenesis(g) && alice != bob
    ensures var c := Sample(500);
            var s := Final(c, g, [Call(10, Add(alice, 100)), Call(11, Remove(alice, 100))]);
            var joined := AddShare(c, s, 11, bob, 1);
            && s.info == PoolInfo(0, 500, 500, 11)
            && joined.Ok?
            && ClaimRewards(c, joined.value.state, 11, bob).Ok?
            && ClaimRewards(c, joined.value.state, 11, bob).value.payout == 500
  {
    var c := Sample(500);
    FirstJoiner(g, 500, 10, alice, 100);
    var s1 := AddShare(c, g, 10, alice, 100).value.state;
    var u := PoolState(PoolInfo(100, 500, 500, 11), s1.members, 500);
    assert UpdatePoolReward(c, s1, 11) == Ok(u);
    TruncateTruncates();
    TruncatingRounds(c.mulDiv);
    var s2 := LeavesReward(c, s1, u, 11, alice);
    TwoSteps(c, g, Call(10, Add(alice, 100)), Call(11, Remove(alice, 100)));
    TakesReward(s2, bob);
  }

  /** The bound on credits is needed: beyond it one late update credits less than two timely ones. */
  lemma SaturationBreaksLaziness(g: PoolState, alice: AccountId)
    requires IsGenesis(g)
    ensures var c := Sample(I128_MAX);
            var late := Final(c, g, [Call(0, Add(alice, 1)), Call(2, Update)]);
            var timely := Next(c, Final(c, g, [Call(0, Add(alice, 1)), Call(1, Update)]), Call(2, Update));
            && late.balance == I128_MAX && late.info.totalRewardsUseable == 2 * I128_MAX
            && timely.balance == 2 * I128_MAX && timely.info == late.info
  {
    var c := Sample(I128_MAX);
    FirstJoiner(g, I128_MAX, 0, alice, 1);
    TwoSteps(c, g, Call(0, Add(alice, 1)), Call(2, Update));
    TwoSteps(c, g, Call(0, Add(alice, 1)), Call(1, Update));
  }
}
