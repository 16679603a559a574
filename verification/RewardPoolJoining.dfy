/** What joining and leaving mean for the one who does it and for everyone else. */
module RewardPoolJoining {
  import opened Primitives
  import opened MapSum
  import opened FixedPoint
  import opened RewardPool
  import opened RewardPoolLaws
  import opened RewardPoolProperties
  import LazyAccrual

  // ---------- The joiner ----------

  /** The pool and the account after a first join. */
  lemma JoinOutcome(c: Config, b: Books, now: nat, who: AccountId, amount: nat, joined: Done)
    requires Rounds(c.mulDiv) && Ready(c, b, now)
    requires Member(b.state.members, who).shares == 0
    requires AddShare(c, b.state, now, who, amount) == Ok(joined)
    ensures var u, s := Updated(c, b, now).info, joined.state;
            var v := Virtual(c, u, amount);
            && s.info == u.(totalRewards := u.totalRewards + v, totalShares := u.totalShares + amount)
            && who in s.members && s.members[who] == PoolAccountInfo(amount, v)
            && UpdatePoolReward(c, s, now) == Ok(s)
            && amount > 0
  {
    RoundedExact(0, amount, ONE, c.mulDiv(0, amount, ONE), 0);
    assert Member(b.state.members, who) == PoolAccountInfo(0, 0);
  }

  /** How far the joiner's entitlement is ahead of its borrow. */
  function Lead(c: Config, joined: PoolState, who: AccountId): int {
    var account := Member(joined.members, who);
    Entitlement(c, joined.info, account.shares) - account.borrowedAmount
  }

  /**
   A joiner starts even in a pool with shares: right after joining, its entitlement and its borrow differ by rounding
   only, and under truncation the entitlement is ahead by less than S/S' * (1 + amount/10^18), with S and S' the old
   and new total shares. In an empty pool it starts ahead by all the rewards that were left there.
   */
  lemma JoinerStartsEven(c: Config, b: Books, now: nat, who: AccountId, amount: nat, joined: Done)
    requires Rounds(c.mulDiv) && Ready(c, b, now)
    requires Member(b.state.members, who).shares == 0
    requires AddShare(c, b.state, now, who, amount) == Ok(joined)
    ensures var u, v, lead := Updated(c, b, now).info, joined.state.info, Lead(c, joined.state, who);
            if u.totalShares == 0 then lead == u.totalRewards
            else
              && Abs(lead) * v.totalShares * ONE
                   < u.totalShares * (ONE + amount) + v.totalShares * (ONE + v.totalRewards)
              && (Truncates(c.mulDiv) ==> lead * v.totalShares * ONE < u.totalShares * (ONE + amount))
  {
    var u := Updated(c, b, now).info;
    JoinOutcome(c, b, now, who, amount, joined);
    if u.totalShares == 0 {
      ScaleByOne(c.mulDiv, amount, u.totalRewards);
    } else {
      LeadFrom(c.mulDiv, u.totalRewards, u.totalShares, amount);
    }
  }

  /** Joining an empty pool: nothing is borrowed, everything is owned, and the start is even iff nothing was left. */
  lemma JoinEmptyPool(c: Config, b: Books, now: nat, who: AccountId, amount: nat, joined: Done)
    requires Rounds(c.mulDiv) && Ready(c, b, now) && Updated(c, b, now).info.totalShares == 0
    requires AddShare(c, b.state, now, who, amount) == Ok(joined)
    ensures var u := Updated(c, b, now).info;
            && Member(joined.state.members, who) == PoolAccountInfo(amount, 0)
            && Entitlement(c, joined.state.info, amount) == u.totalRewards
            && (Lead(c, joined.state, who) == 0 <==> u.totalRewards == 0)
  {
    ReadyPool(c, b, now, who);
    JoinOutcome(c, b, now, who, amount, joined);
    JoinerStartsEven(c, b, now, who, amount, joined);
  }

  /** Leaving in the block of joining pays the joiner's lead, or nothing. */
  lemma SameBlockPaysLead(c: Config, b: Books, now: nat, who: AccountId, amount: nat, joined: Done, left: Done)
    requires Rounds(c.mulDiv) && Ready(c, b, now)
    requires Member(b.state.members, who).shares == 0
    requires AddShare(c, b.state, now, who, amount) == Ok(joined)
    requires RemoveShare(c, joined.state, now, who, amount) == Ok(left)
    ensures left.payout == 0 || left.payout == Lead(c, joined.state, who)
  {
    JoinOutcome(c, b, now, who, amount, joined);
    AddKeepsLaw(c, b.state, now, who, amount, b.writtenOff, b.unbacked);
    MemberBounds(joined.state.members, who);
    LeaveOutcome(c, joined.state, now, who, joined.state.members[who]);
  }

  /** Joining a pool with shares and leaving in one block therefore earns rounding only. */
  lemma SameBlockEarnsOnlyRounding(
    c: Config, b: Books, now: nat, who: AccountId, amount: nat, joined: Done, left: Done)
    requires Rounds(c.mulDiv) && Ready(c, b, now)
    requires Member(b.state.members, who).shares == 0
    requires AddShare(c, b.state, now, who, amount) == Ok(joined)
    requires RemoveShare(c, joined.state, now, who, amount) == Ok(left)
    ensures var u, v := Updated(c, b, now).info, joined.state.info;
            if u.totalShares == 0 then left.payout == 0 || left.payout == u.totalRewards
            else
              && left.payout * v.totalShares * ONE
                   < u.totalShares * (ONE + amount) + v.totalShares * (ONE + v.totalRewards)
              && (Truncates(c.mulDiv) ==> left.payout * v.totalShares * ONE < u.totalShares * (ONE + amount))
  {
    var u, v := Updated(c, b, now).info, joined.state.info;
    JoinerStartsEven(c, b, now, who, amount, joined);
    SameBlockPaysLead(c, b, now, who, amount, joined, left);
    if u.totalShares > 0 {
      EarnedBound(left.payout, Lead(c, joined.state, who), v.totalShares, u.totalShares, amount, v.totalRewards);
    }
  }

  lemma EarnedBound(earned: nat, lead: int, newShares: nat, shares: nat, amount: nat, rewards: nat)
    requires shares > 0 && (earned == 0 || earned == lead)
    requires Abs(lead) * newShares * ONE < shares * (ONE + amount) + newShares * (ONE + rewards)
    ensures earned * newShares * ONE < shares * (ONE + amount) + newShares * (ONE + rewards)
    ensures lead * newShares * ONE < shares * (ONE + amount) ==> earned * newShares * ONE < shares * (ONE + amount)
  {
    MulStrictlyMonotone(0, shares, ONE + amount);
    MulMonotone(0, newShares, ONE + rewards);
  }

  lemma LeadFrom(mulDiv: MulDiv, R: nat, S: nat, amount: nat)
    requires Rounds(mulDiv) && S > 0
    ensures var v := Scale(mulDiv, R, S, amount);
            var lead := Scale(mulDiv, amount, S + amount, R + v) - v;
            && Abs(lead) * (S + amount) * ONE < S * (ONE + amount) + (S + amount) * (ONE + (R + v))
            && (Truncates(mulDiv) ==> lead * (S + amount) * ONE < S * (ONE + amount))
  {
    var v := Scale(mulDiv, R, S, amount);
    var e := Scale(mulDiv, amount, S + amount, R + v);
    ScaleError(mulDiv, R, S, amount);
    ScaleError(mulDiv, amount, S + amount, R + v);
    LeadIdentity(R, S, amount, v, e);
    if Truncates(mulDiv) {
      TruncatedScale(mulDiv, amount, S + amount, R + v);
      MulMonotone(e * (S + amount) - amount * (R + v), 0, ONE);
    }
    AbsTimes(e - v, S + amount);
  }

  lemma AbsTimes(x: int, k: nat)
    ensures Abs(x) * k * ONE == x * k * ONE || Abs(x) * k * ONE == 0 - x * k * ONE
  {
  }

  lemma LeaveOutcome(c: Config, s: PoolState, now: nat, who: AccountId, account: PoolAccountInfo)
    requires Rounds(c.mulDiv) && UpdatePoolReward(c, s, now) == Ok(s)
    requires Member(s.members, who) == account && 0 < account.shares <= s.info.totalShares
    requires account.borrowedAmount <= s.info.totalRewards <= U128_MAX
    requires RemoveShare(c, s, now, who, account.shares).Ok?
    ensures var earned := RemoveShare(c, s, now, who, account.shares).value.payout;
            earned == 0 || earned == Entitlement(c, s.info, account.shares) - account.borrowedAmount
  {
    RemovalOutcome(c, s.info, account, account.shares);
    ScaleByOne(c.mulDiv, account.shares, account.borrowedAmount);
  }

  lemma LeadIdentity(R: int, S: int, a: int, v: int, e: int)
    ensures (e - v) * (S + a) * ONE == (e * (S + a) - a * (R + v)) * ONE + (R * a - v * S) * ONE
  {
  }

  lemma TruncatedScale(mulDiv: MulDiv, n: nat, d: nat, x: nat)
    requires Truncates(mulDiv) && d > 0
    ensures Scale(mulDiv, n, d, x) * d <= n * x
  {
    var q := n * ONE / d;
    var r := q * x / ONE;
    QuotientBounds(n * ONE, d);
    QuotientBounds(q * x, ONE);
    MulMonotone(r * ONE, q * x, d);
    MulMonotone(q * d, n * ONE, x);
    assert r * d * ONE <= n * x * ONE;
  }

  // ---------- An emptied pool ----------

  /** The handler pays nothing to a pool without shares, as the incentives handler does. */
  ghost predicate PaysSharesOnly(c: Config) {
    forall last, now :: c.handler(0, last, now) == 0
  }

  lemma IncentivesPaySharesOnly(mulDiv: MulDiv, er: nat, rate: Option<nat>)
    ensures PaysSharesOnly(LazyAccrual.IncentiveConfig(mulDiv, er, rate))
  {
  }

  /** A pool without shares holds at most the existential reward. */
  ghost predicate EmptyHoldsLittle(c: Config, pool: PoolInfo) {
    pool.totalShares == 0 ==> pool.totalRewardsUseable <= c.existentialReward
  }

  lemma UpdateOfEmpty(c: Config, s: PoolState, now: nat)
    requires PaysSharesOnly(c) && EmptyHoldsLittle(c, s.info) && UpdatePoolReward(c, s, now).Ok?
    ensures EmptyHoldsLittle(c, UpdatePoolReward(c, s, now).value.info)
    ensures s.info.totalShares == 0 ==>
              UpdatePoolReward(c, s, now).value.info == s.info.(lastUpdateBlock :=
                if now <= s.info.lastUpdateBlock then s.info.lastUpdateBlock else now)
  {
  }

  /** The removal of the last shares takes all rewards out, or leaves no more than was too little to send. */
  lemma EmptyingLeavesLittle(c: Config, b: Books, now: nat, who: AccountId, amount: nat, left: Done)
    requires Rounds(c.mulDiv) && Ready(c, b, now)
    requires RemoveShare(c, b.state, now, who, amount) == Ok(left) && left.state.info.totalShares == 0
    ensures left.state.info.totalRewardsUseable <= c.existentialReward
  {
    ReadyPool(c, b, now, who);
    var account, u := Member(b.state.members, who), Updated(c, b, now).info;
    RemovalOutcome(c, u, account, amount);
    ScaleByOne(c.mulDiv, amount, u.totalRewards);
    ScaleByOne(c.mulDiv, amount, account.borrowedAmount);
    MemberBounds(b.state.members, who);
  }

  lemma AdvanceKeepsEmptyLittle(c: Config, b: Books, call: Call)
    requires Rounds(c.mulDiv) && PaysSharesOnly(c) && Balanced(b) && EmptyHoldsLittle(c, b.state.info)
    ensures EmptyHoldsLittle(c, Advance(c, b, call).state.info)
  {
    var r := Execute(c, b.state, call);
    if r.Ok? {
      UpdateOfEmpty(c, b.state, call.block);
      if call.op.Remove? && r.value.state.info.totalShares == 0 {
        EmptyingLeavesLittle(c, b, call.block, call.op.who, call.op.amount, r.value);
      } else if call.op.Claim? {
        ClaimOutcome(c, b, call.block, call.op.who);
      }
    }
  }

  /** After every run from empty storage, a pool without shares holds at most the existential reward. */
  lemma {:induction false} EmptiedPoolHoldsLittle(c: Config, b: Books, calls: seq<Call>)
    requires Rounds(c.mulDiv) && PaysSharesOnly(c) && Balanced(b) && EmptyHoldsLittle(c, b.state.info)
    ensures EmptyHoldsLittle(c, Run(c, b, calls).state.info)
    decreases |calls|
  {
    if calls != [] {
      AdvanceKeepsBalance(c, b, calls[0]);
      AdvanceKeepsEmptyLittle(c, b, calls[0]);
      EmptiedPoolHoldsLittle(c, Advance(c, b, calls[0]), calls[1..]);
    }
  }

  /**
   What joining an emptied pool can earn in its block, after any run from empty storage: no removal pays anything, and
   a claim pays nothing or exactly the existential reward.
   */
  lemma EmptyPoolEarnsLittle(
    c: Config, b: Books, calls: seq<Call>, now: nat, who: AccountId, amount: nat, joined: Done, part: nat)
    requires Rounds(c.mulDiv) && PaysSharesOnly(c) && IsNew(b)
    requires Ready(c, Run(c, b, calls), now) && Run(c, b, calls).state.info.totalShares == 0
    requires AddShare(c, Run(c, b, calls).state, now, who, amount) == Ok(joined)
    ensures var r := RemoveShare(c, joined.state, now, who, part);
            r.Ok? ==> r.value.payout == 0
    ensures var r := ClaimRewards(c, joined.state, now, who);
            r.Ok? ==> r.value.payout == 0 || r.value.payout == c.existentialReward
  {
    var r := Run(c, b, calls);
    NewBooksBalanced(b);
    RunKeepsBalance(c, b, calls);
    EmptiedPoolHoldsLittle(c, b, calls);
    UpdateOfEmpty(c, r.state, now);
    ReadyPool(c, r, now, who);
    JoinOutcome(c, r, now, who, amount, joined);
    LittleIsNotSent(c, joined.state, now, who, part);
  }

  /** A claim in the block of joining an emptied pool pays iff exactly the existential reward was left, all useable. */
  lemma EmptyPoolClaimIff(c: Config, b: Books, now: nat, who: AccountId, amount: nat, joined: Done)
    requires Rounds(c.mulDiv) && PaysSharesOnly(c) && Funded(c, b, now)
    requires b.state.info.totalShares == 0 && EmptyHoldsLittle(c, b.state.info)
    requires AddShare(c, b.state, now, who, amount) == Ok(joined)
    ensures var pool, r := b.state.info, ClaimRewards(c, joined.state, now, who);
            (r.Ok? && r.value.payout > 0) <==>
              c.existentialReward > 0 && pool.totalRewards == pool.totalRewardsUseable == c.existentialReward
  {
    UpdateOfEmpty(c, b.state, now);
    ReadyPool(c, b, now, who);
    JoinOutcome(c, b, now, who, amount, joined);
    JoinEmptyPool(c, b, now, who, amount, joined);
    var next := Advance(c, b, Call(now, Add(who, amount)));
    AdvanceKeepsBalance(c, b, Call(now, Add(who, amount)));
    ClaimOutcome(c, next, now, who);
  }

  /** A pool whose useable rewards are at most the existential reward sends nothing to leavers. */
  lemma LittleIsNotSent(c: Config, s: PoolState, now: nat, who: AccountId, part: nat)
    requires UpdatePoolReward(c, s, now) == Ok(s) && s.info.totalRewardsUseable <= c.existentialReward
    ensures var r := RemoveShare(c, s, now, who, part);
            r.Ok? ==> r.value.payout == 0
    ensures var r := ClaimRewards(c, s, now, who);
            r.Ok? ==> r.value.payout == 0 || r.value.payout == c.existentialReward
  {
  }

  // ---------- Everyone else ----------

  /** How the entitlement of `s` shares follows the pool, up to the rounding of the two entitlements. */
  lemma EntitlementFollowsPrice(c: Config, u: PoolInfo, v: PoolInfo, s: nat)
    requires Rounds(c.mulDiv) && u.totalShares > 0 && v.totalShares > 0
    ensures var change := Entitlement(c, v, s) - Entitlement(c, u, s);
            var drift := v.totalRewards * u.totalShares - u.totalRewards * v.totalShares;
            Abs(change * u.totalShares * v.totalShares - s * drift) * ONE
              < u.totalShares * v.totalShares * (2 * ONE + u.totalRewards + v.totalRewards)
  {
    ScaleError(c.mulDiv, s, u.totalShares, u.totalRewards);
    ScaleError(c.mulDiv, s, v.totalShares, v.totalRewards);
    FollowFrom(s, u.totalRewards, u.totalShares, v.totalRewards, v.totalShares,
               Entitlement(c, u, s), Entitlement(c, v, s));
  }

  lemma FollowFrom(s: nat, R: nat, S: nat, R': nat, S': nat, e: nat, e': nat)
    requires S > 0 && S' > 0
    requires (s * R - e * S) * ONE < S * (ONE + R) && (e * S - s * R) * ONE < S * (ONE + R)
    requires (s * R' - e' * S') * ONE < S' * (ONE + R') && (e' * S' - s * R') * ONE < S' * (ONE + R')
    ensures Abs((e' - e) * S * S' - s * (R' * S - R * S')) * ONE < S * S' * (2 * ONE + R + R')
  {
    var x, y := (e' * S' - s * R') * ONE, (e * S - s * R) * ONE;
    FollowIdentity(s, R, S, R', S', e, e');
    var mx, my := S' * (ONE + R'), S * (ONE + R);
    MulStrictlyMonotone(x, mx, S);
    MulStrictlyMonotone(0 - mx, x, S);
    MulStrictlyMonotone(y, my, S');
    MulStrictlyMonotone(0 - my, y, S');
    AbsBound((e' - e) * S * S' - s * (R' * S - R * S'), ONE, x * S, 0 - y * S', mx * S, my * S');
    BoundIdentity(R, S, R', S');
  }

  lemma FollowIdentity(s: int, R: int, S: int, R': int, S': int, e: int, e': int)
    ensures ((e' - e) * S * S' - s * (R' * S - R * S')) * ONE
         == ((e' * S' - s * R') * ONE) * S - ((e * S - s * R) * ONE) * S'
  {
  }

  lemma BoundIdentity(R: int, S: int, R': int, S': int)
    ensures S' * (ONE + R') * S + S * (ONE + R) * S' == S * S' * (2 * ONE + R + R')
  {
  }

  /** The change of an entitlement when the price drifts by less than `S * bound / 10^18`. */
  lemma ChangeFrom(change: int, s: nat, S: nat, S': nat, drift: int, bound: nat, noise: nat)
    requires S > 0
    requires Abs(change * S * S' - s * drift) * ONE < S * S' * noise
    requires Abs(drift) * ONE < S * bound
    ensures Abs(change) * S' * ONE < S' * noise + s * bound
  {
    var k, w, x := change * S' * ONE, drift * ONE, S' * noise + s * bound;
    ChangeIdentity(change, s, S, S', drift);
    MulMonotone(w, S * bound, s);
    MulMonotone(0 - S * bound, w, s);
    SpreadIdentity(s, S, S', bound, noise);
    assert 0 - x * S < k * S < x * S by {
      AbsOne(change * S * S' - s * drift);
    }
    if k >= x {
      MulMonotone(x, k, S);
    } else if k <= 0 - x {
      MulMonotone(k, 0 - x, S);
    }
    AbsTimes(change, S');
  }

  lemma AbsOne(z: int)
    ensures Abs(z) * ONE >= z * ONE && Abs(z) * ONE >= 0 - z * ONE
  {
  }

  lemma ChangeIdentity(change: int, s: int, S: int, S': int, drift: int)
    ensures (change * S * S' - s * drift) * ONE == change * S' * ONE * S - drift * ONE * s
  {
  }

  lemma SpreadIdentity(s: int, S: int, S': int, bound: int, noise: int)
    ensures (S' * noise + s * bound) * S == S * S' * noise + S * bound * s
  {
  }

  /** Someone else joining moves the entitlement of `s` shares by rounding only. */
  lemma JoinMovesOthersByRounding(
    c: Config, b: Books, now: nat, who: AccountId, amount: nat, joined: Done, s: nat)
    requires Rounds(c.mulDiv) && Ready(c, b, now) && Updated(c, b, now).info.totalShares > 0
    requires AddShare(c, b.state, now, who, amount) == Ok(joined)
    ensures var u, v := Updated(c, b, now).info, joined.state.info;
            Abs(Entitlement(c, v, s) - Entitlement(c, u, s)) * v.totalShares * ONE
              < v.totalShares * (2 * ONE + u.totalRewards + v.totalRewards) + s * (ONE + amount)
  {
    var u, v := Updated(c, b, now).info, joined.state.info;
    assert v.totalShares == u.totalShares + amount;
    AddSharePriceDrift(c, b.state, now, who, amount);
    EntitlementFollowsPrice(c, u, v, s);
    ChangeFrom(Entitlement(c, v, s) - Entitlement(c, u, s), s, u.totalShares, v.totalShares,
               v.totalRewards * u.totalShares - u.totalRewards * v.totalShares,
               ONE + amount, 2 * ONE + u.totalRewards + v.totalRewards);
  }

  /** So does someone else's paid removal, as long as shares remain. */
  lemma PaidRemovalMovesOthersByRounding(
    c: Config, b: Books, now: nat, who: AccountId, amount: nat, left: Done, s: nat)
    requires Rounds(c.mulDiv) && Ready(c, b, now)
    requires RemoveShare(c, b.state, now, who, amount) == Ok(left)
    requires left.payout > 0 && left.state.info.totalShares > 0
    ensures var u, v := Updated(c, b, now).info, left.state.info;
            Abs(Entitlement(c, v, s) - Entitlement(c, u, s)) * v.totalShares * ONE
              < v.totalShares * (2 * ONE + u.totalRewards + v.totalRewards) + s * (ONE + u.totalRewards)
  {
    var u, v := Updated(c, b, now).info, left.state.info;
    assert v.totalShares < u.totalShares by {
      RemovalShrinks(c, b, now, who, amount, left);
    }
    RemoveSharePriceDrift(c, b, now, who, amount);
    EntitlementFollowsPrice(c, u, v, s);
    ChangeFrom(Entitlement(c, v, s) - Entitlement(c, u, s), s, u.totalShares, v.totalShares,
               v.totalRewards * u.totalShares - u.totalRewards * v.totalShares,
               ONE + u.totalRewards, 2 * ONE + u.totalRewards + v.totalRewards);
  }

  /** An unpaid removal leaves its part to the others: `s` shares gain `s * amount * R / (S * S')`, up to rounding. */
  lemma UnpaidRemovalGain(c: Config, b: Books, now: nat, who: AccountId, amount: nat, left: Done, s: nat)
    requires Rounds(c.mulDiv) && Ready(c, b, now)
    requires RemoveShare(c, b.state, now, who, amount) == Ok(left)
    requires left.payout == 0 && left.state.info.totalShares > 0
    ensures var u, v := Updated(c, b, now).info, left.state.info;
            var gain := Entitlement(c, v, s) - Entitlement(c, u, s);
            && v.totalRewards == u.totalRewards && v.totalShares == u.totalShares - amount
            && Abs(gain * u.totalShares * v.totalShares - s * (u.totalRewards * amount)) * ONE
                 < u.totalShares * v.totalShares * (2 * ONE + 2 * u.totalRewards)
  {
    var u, v := Updated(c, b, now).info, left.state.info;
    RemovalShrinks(c, b, now, who, amount, left);
    EntitlementFollowsPrice(c, u, v, s);
    UnpaidDrift(u.totalRewards, u.totalShares, amount);
  }

  lemma UnpaidDrift(R: int, S: int, amount: int)
    ensures R * S - R * (S - amount) == R * amount
  {
  }

  lemma RemovalShrinks(c: Config, b: Books, now: nat, who: AccountId, amount: nat, left: Done)
    requires Rounds(c.mulDiv) && Ready(c, b, now)
    requires RemoveShare(c, b.state, now, who, amount) == Ok(left)
    ensures var u, v := Updated(c, b, now).info, left.state.info;
            && 0 < amount && v.totalShares == u.totalShares - amount
            && (left.payout == 0 ==> v.totalRewards == u.totalRewards)
  {
    ReadyPool(c, b, now, who);
    RemovalOutcome(c, Updated(c, b, now).info, Member(b.state.members, who), amount);
  }

  /** Between two updates an account's entitlement grows by its share of the accrued reward, up to rounding. */
  lemma AccrualIsProRata(c: Config, pool: PoolInfo, reward: nat, shares: nat)
    requires Rounds(c.mulDiv) && pool.totalShares > 0
    ensures var grown := pool.(totalRewards := pool.totalRewards + reward);
            var gain := Entitlement(c, grown, shares) - Entitlement(c, pool, shares);
            Abs(gain * pool.totalShares - shares * reward) * ONE < pool.totalShares * (2 * ONE + reward)
  {
    var S, R := pool.totalShares, pool.totalRewards;
    var q := c.mulDiv(shares, ONE, S);
    var before, after := c.mulDiv(q, R, ONE), c.mulDiv(q, R + reward, ONE);
    assert IsRounded(shares, ONE, S, q) && IsRounded(q, R, ONE, before) && IsRounded(q, R + reward, ONE, after);
    ProRataFrom(ONE, shares, S, R, reward, q, before, after);
  }

  lemma ProRataFrom(one: nat, s: nat, S: nat, R: nat, r: nat, q: nat, before: nat, after: nat)
    requires S > 0 && one > 0
    requires IsRounded(s, one, S, q) && IsRounded(q, R, one, before) && IsRounded(q, R + r, one, after)
    ensures Abs((after - before) * S - s * r) * one < S * (2 * one + r)
  {
    var e1, e2 := q * S - s * one, (after * one - q * (R + r)) - (before * one - q * R);
    ProRataIdentity(one, s, S, R, r, q, before, after);
    MulMonotone(e1, S, r);
    MulMonotone(0 - S, e1, r);
    MulStrictlyMonotone(e2, 2 * one, S);
    MulStrictlyMonotone(0 - 2 * one, e2, S);
    AbsBound((after - before) * S - s * r, one, e1 * r, e2 * S, S * r, 2 * one * S);
    assert S * (2 * one + r) == S * r + 2 * one * S;
  }

  lemma AbsBound(z: int, one: nat, y1: int, y2: int, m1: int, m2: int)
    requires z * one == y1 + y2 && 0 - m1 <= y1 <= m1 && 0 - m2 < y2 < m2
    ensures Abs(z) * one < m1 + m2
  {
  }

  lemma ProRataIdentity(one: int, s: int, S: int, R: int, r: int, q: int, before: int, after: int)
    ensures ((after - before) * S - s * r) * one
         == (q * S - s * one) * r + ((after * one - q * (R + r)) - (before * one - q * R)) * S
  {
  }
}
