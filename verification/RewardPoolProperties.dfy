/** What the reward pool's operations promise in every state a run can reach. */
module RewardPoolProperties {
  import opened Primitives
  import opened MapSum
  import opened FixedPoint
  import opened RewardPool
  import opened RewardPoolLaws

  // ---------- Solvency over runs ----------

  /** No successful call of the run accrues more than a signed amount can carry. */
  predicate AccrualsFit(c: Config, b: Books, calls: seq<Call>)
    decreases |calls|
  {
    calls == [] ||
    (&& (Execute(c, b.state, calls[0]).Ok? ==> Accrued(c, b.state.info, calls[0].block) <= I128_MAX)
     && AccrualsFit(c, Advance(c, b, calls[0]), calls[1..]))
  }

  /** The sub-account holds exactly the useable rewards after a run iff every accrual fitted. */
  lemma {:induction false} BackedIffAccrualsFit(c: Config, b: Books, calls: seq<Call>)
    requires Rounds(c.mulDiv) && Balanced(b) && b.unbacked == 0
    ensures var s := Run(c, b, calls).state;
            s.balance == s.info.totalRewardsUseable <==> AccrualsFit(c, b, calls)
    decreases |calls|
  {
    if calls != [] {
      AdvanceKeepsBalance(c, b, calls[0]);
      var next := Advance(c, b, calls[0]);
      RunKeepsBalance(c, next, calls[1..]);
      if next.unbacked == 0 {
        BackedIffAccrualsFit(c, next, calls[1..]);
      }
    }
  }

  /** The books are lawful and the update that opens an operation in block `now` succeeds. */
  ghost predicate Ready(c: Config, b: Books, now: nat) {
    Balanced(b) && UpdatePoolReward(c, b.state, now).Ok?
  }

  /** Moreover, the updated pool is backed by the sub-account. */
  ghost predicate Funded(c: Config, b: Books, now: nat) {
    && Ready(c, b, now)
    && b.unbacked == 0
    && Accrued(c, b.state.info, now) <= I128_MAX
  }

  function Updated(c: Config, b: Books, now: nat): PoolState
    requires UpdatePoolReward(c, b.state, now).Ok?
  {
    UpdatePoolReward(c, b.state, now).value
  }

  lemma ReadyPool(c: Config, b: Books, now: nat, who: AccountId)
    requires Ready(c, b, now)
    ensures var reward := Accrued(c, b.state.info, now);
            Lawful(Updated(c, b, now), b.writtenOff, b.unbacked + (reward - Credit(reward)))
    ensures Updated(c, b, now).members == b.state.members
    ensures var account, u := Member(b.state.members, who), Updated(c, b, now);
            account.shares <= u.info.totalShares && account.borrowedAmount <= u.info.totalRewards
  {
    UpdateKeepsLaw(c, b.state, now, b.writtenOff, b.unbacked);
    MemberBounds(b.state.members, who);
  }

  /** No payout of a funded pool lacks funds. */
  lemma PayoutsAreFunded(c: Config, b: Books, call: Call)
    requires Rounds(c.mulDiv) && Funded(c, b, call.block)
    ensures Execute(c, b.state, call) != Err(InsufficientBalance)
  {
    var u := Updated(c, b, call.block);
    if call.op.Remove? || call.op.Claim? {
      ReadyPool(c, b, call.block, call.op.who);
      var account := Member(b.state.members, call.op.who);
      if call.op.Remove? && 0 < call.op.amount <= account.shares {
        RemovalOutcome(c, u.info, account, call.op.amount);
      }
    }
  }

  /** Over a run whose successful accruals fit, no call whose own accrual fits is refused for lack of funds. */
  lemma {:induction false} RunPayoutsAreFunded(c: Config, b: Books, calls: seq<Call>, i: nat)
    requires Rounds(c.mulDiv) && Balanced(b) && b.unbacked == 0
    requires i < |calls| && AccrualsFit(c, b, calls)
    ensures var s := Run(c, b, calls[..i]).state;
            Accrued(c, s.info, calls[i].block) <= I128_MAX ==> Execute(c, s, calls[i]) != Err(InsufficientBalance)
    decreases |calls|
  {
    if i == 0 {
      if UpdatePoolReward(c, b.state, calls[0].block).Ok? && Accrued(c, b.state.info, calls[0].block) <= I128_MAX {
        PayoutsAreFunded(c, b, calls[0]);
      }
    } else {
      AdvanceKeepsBalance(c, b, calls[0]);
      RunPayoutsAreFunded(c, Advance(c, b, calls[0]), calls[1..], i - 1);
      assert calls[..i][0] == calls[0] && calls[..i][1..] == calls[1..][..i - 1];
    }
  }

  /** An update that fails refuses every operation with its own error, except a join of nothing. */
  lemma UpdateErrorPropagates(c: Config, s: PoolState, call: Call)
    requires UpdatePoolReward(c, s, call.block).Err?
    ensures Execute(c, s, call)
         == if call.op.Add? && call.op.amount == 0 then Err(InvalidAmount)
            else Err(UpdatePoolReward(c, s, call.block).error)
  {
  }

  // ---------- Joining ----------

  /** What a joiner borrows: shares cost nothing in an empty pool. */
  function Virtual(c: Config, u: PoolInfo, amount: nat): nat {
    if u.totalShares == 0 then 0 else Scale(c.mulDiv, u.totalRewards, u.totalShares, amount)
  }

  /**
   Joining, for every holder: it succeeds exactly when the update does and the share price, the borrow and the new
   totals are u128 values. It then moves exactly the amount and the borrow, and no other account.
   */
  lemma JoinSucceedsIff(c: Config, b: Books, now: nat, who: AccountId, amount: nat)
    requires Rounds(c.mulDiv) && Balanced(b)
    ensures var r, update := AddShare(c, b.state, now, who, amount), UpdatePoolReward(c, b.state, now);
            if amount == 0 then r == Err(InvalidAmount)
            else if update.Err? then r == Err(update.error)
            else
              var u, account := update.value, Member(b.state.members, who);
              var v := Virtual(c, u.info, amount);
              if || (u.info.totalShares > 0 && c.mulDiv(u.info.totalRewards, ONE, u.info.totalShares) > U128_MAX)
                 || v > U128_MAX || u.info.totalShares + amount > U128_MAX || u.info.totalRewards + v > U128_MAX
              then r == Err(RewardCalculationError)
              else
                r == Ok(Done(
                  PoolState(u.info.(totalShares := u.info.totalShares + amount,
                                    totalRewards := u.info.totalRewards + v),
                            b.state.members[
                              who := PoolAccountInfo(account.shares + amount, account.borrowedAmount + v)],
                            u.balance),
                  account.shares + amount, 0))
  {
    if UpdatePoolReward(c, b.state, now).Ok? {
      ReadyPool(c, b, now, who);
      RoundedExact(0, amount, ONE, c.mulDiv(0, amount, ONE), 0);
    }
  }

  // ---------- Removals ----------

  /**
   A removal succeeds exactly when it is within the shares, covers its borrow and is within the useable rewards;
   only an unbacked pool can also lack the funds. On success it moves exactly these amounts and no other account.
   */
  lemma RemoveSucceedsIff(c: Config, b: Books, now: nat, who: AccountId, amount: nat)
    requires Rounds(c.mulDiv) && Ready(c, b, now)
    ensures var account, u := Member(b.state.members, who), Updated(c, b, now);
            var r := RemoveShare(c, b.state, now, who, amount);
            if amount == 0 || account.shares < amount then r == Err(InsufficientShares)
            else
              var e, l := Entitlement(c, u.info, amount), Released(c, account, amount);
              var payout := if e - l <= c.existentialReward then 0 else e - l;
              if e < l || u.info.totalRewardsUseable + l < e then r == Err(RewardCalculationError)
              else if u.balance < payout then r == Err(InsufficientBalance)
              else
                && r.Ok? && r.value.payout == payout && r.value.returned == account.shares - amount
                && r.value.state.members
                     == u.members[who := PoolAccountInfo(account.shares - amount, account.borrowedAmount - l)]
                && r.value.state.balance == u.balance - payout
                && r.value.state.info == u.info.(
                     totalShares := u.info.totalShares - amount,
                     totalRewards := if payout == 0 then u.info.totalRewards else u.info.totalRewards - e,
                     totalRewardsUseable := u.info.totalRewardsUseable - payout)
    ensures Funded(c, b, now) ==> RemoveShare(c, b.state, now, who, amount) != Err(InsufficientBalance)
  {
    ReadyPool(c, b, now, who);
    var account, u := Member(b.state.members, who), Updated(c, b, now);
    if 0 < amount <= account.shares {
      RemovalOutcome(c, u.info, account, amount);
    }
  }

  ghost predicate SoleHolder(s: PoolState, who: AccountId) {
    && Member(s.members, who).shares > 0
    && forall a :: a in s.members && a != who ==> s.members[a].shares == 0
  }

  lemma SoleHolderHoldsAll(s: PoolState, who: AccountId, writtenOff: nat, unbacked: nat)
    requires Lawful(s, writtenOff, unbacked) && SoleHolder(s, who)
    ensures s.info.totalShares == Member(s.members, who).shares
    ensures s.info.totalRewards
         == s.info.totalRewardsUseable + Member(s.members, who).borrowedAmount + writtenOff
  {
    ZeroSum(Shares(s.members) - {who});
    ZeroSum(Borrows(s.members) - {who});
    SumMinus(Shares(s.members), who);
    SumMinus(Borrows(s.members), who);
  }

  lemma {:induction false} ZeroSum(m: map<AccountId, nat>)
    requires forall a :: a in m ==> m[a] == 0
    ensures Sum(m) == 0
    decreases |m|
  {
    if m != map[] {
      var k :| k in m;
      SumMinus(m, k);
      ZeroSum(m - {k});
    }
  }

  /** A sole holder is entitled to everything, which exceeds the borrow by the useable rewards and the write-offs. */
  lemma SoleHolderEntitlement(c: Config, b: Books, now: nat, who: AccountId)
    requires Rounds(c.mulDiv) && Ready(c, b, now) && SoleHolder(b.state, who)
    ensures var account, u := Member(b.state.members, who), Updated(c, b, now).info;
            && account.shares == u.totalShares
            && Entitlement(c, u, account.shares) == u.totalRewards
            && Released(c, account, account.shares) == account.borrowedAmount
            && u.totalRewards == u.totalRewardsUseable + account.borrowedAmount + b.writtenOff
  {
    ReadyPool(c, b, now, who);
    var account, u := Member(b.state.members, who), Updated(c, b, now);
    var reward := Accrued(c, b.state.info, now);
    SoleHolderHoldsAll(u, who, b.writtenOff, b.unbacked + (reward - Credit(reward)));
    ScaleByOne(c.mulDiv, account.shares, u.info.totalRewards);
    ScaleByOne(c.mulDiv, account.shares, account.borrowedAmount);
  }

  /**
   Clean exit. The last holder can leave with all shares iff no borrow was ever written off, which the stored pool
   shows: total rewards are the useable rewards plus the holder's borrow. Leaving through the paid branch then takes
   every useable reward and empties the books despite all rounding.
   */
  lemma SoleHolderExit(c: Config, b: Books, now: nat, who: AccountId)
    requires Rounds(c.mulDiv) && Funded(c, b, now) && SoleHolder(b.state, who)
    ensures var u := Updated(c, b, now).info;
            var r := RemoveShare(c, b.state, now, who, Member(b.state.members, who).shares);
            && (r.Ok? <==> b.writtenOff == 0)
            && (r.Ok? <==> u.totalRewards == u.totalRewardsUseable + Member(b.state.members, who).borrowedAmount)
            && (r.Ok? ==>
                  var s, useable := r.value.state, u.totalRewardsUseable;
                  && s.info.totalShares == 0 && s.members[who] == PoolAccountInfo(0, 0)
                  && r.value.payout == (if useable <= c.existentialReward then 0 else useable)
                  && (r.value.payout > 0 ==>
                        s.info.totalRewards == s.info.totalRewardsUseable == s.balance == 0))
  {
    ReadyPool(c, b, now, who);
    SoleHolderEntitlement(c, b, now, who);
    var account, u := Member(b.state.members, who), Updated(c, b, now);
    RemovalOutcome(c, u.info, account, account.shares);
  }

  /** The last holder's claim succeeds iff nothing was written off or there is too little to send. */
  lemma SoleHolderClaim(c: Config, b: Books, now: nat, who: AccountId)
    requires Rounds(c.mulDiv) && Funded(c, b, now) && SoleHolder(b.state, who)
    ensures var account, u := Member(b.state.members, who), Updated(c, b, now).info;
            var r := ClaimRewards(c, b.state, now, who);
            && (r.Ok? <==> b.writtenOff == 0 || u.totalRewards < account.borrowedAmount + c.existentialReward)
            && (r.Ok? && r.value.payout > 0 ==> r.value.payout == u.totalRewardsUseable)
  {
    ReadyPool(c, b, now, who);
    SoleHolderEntitlement(c, b, now, who);
    ClaimOutcome(c, b, now, who);
  }

  /** A write-off is for good: after it, no run reaches a state where a sole holder can remove all shares. */
  lemma WriteOffIsPermanent(c: Config, b: Books, calls: seq<Call>, now: nat, who: AccountId)
    requires Rounds(c.mulDiv) && Balanced(b) && b.writtenOff > 0
    requires SoleHolder(Run(c, b, calls).state, who)
    ensures var s := Run(c, b, calls).state;
            RemoveShare(c, s, now, who, Member(s.members, who).shares) == Err(RewardCalculationError)
  {
    var r := Run(c, b, calls);
    RunKeepsBalance(c, b, calls);
    if UpdatePoolReward(c, r.state, now).Ok? {
      SoleHolderEntitlement(c, r, now, who);
      RemoveSucceedsIff(c, r, now, who, Member(r.state.members, who).shares);
    }
  }

  // ---------- The preview ----------

  /** Claiming, in the quantities of the updated pool; a funded pool never lacks the balance. */
  lemma ClaimOutcome(c: Config, b: Books, now: nat, who: AccountId)
    requires Rounds(c.mulDiv) && Ready(c, b, now)
    ensures var account, u := Member(b.state.members, who), Updated(c, b, now);
            var r := ClaimRewards(c, b.state, now, who);
            if account.shares == 0 then r == Ok(Done(u, 0, 0))
            else
              var e := Entitlement(c, u.info, account.shares);
              if e < account.borrowedAmount then r == Err(RewardCalculationError)
              else if e - account.borrowedAmount < c.existentialReward then r == Ok(Done(u, 0, 0))
              else if u.info.totalRewardsUseable < e - account.borrowedAmount then r == Err(RewardCalculationError)
              else if u.balance < e - account.borrowedAmount then r == Err(InsufficientBalance)
              else
                var due := e - account.borrowedAmount;
                r == Ok(Done(PoolState(u.info.(totalRewardsUseable := u.info.totalRewardsUseable - due),
                                       u.members[who := PoolAccountInfo(account.shares, e)],
                                       u.balance - due),
                             due, due))
  {
    ReadyPool(c, b, now, who);
    var account, u := Member(b.state.members, who), Updated(c, b, now);
    if account.shares > 0 {
      ScaleByFraction(c.mulDiv, account.shares, u.info.totalShares, u.info.totalRewards);
    }
  }

  /**
   A removal of everything in the same block pays what the preview shows; in a funded pool the preview shows zero if
   that removal fails.
   */
  lemma PreviewIsFullRemoval(c: Config, b: Books, now: nat, who: AccountId)
    requires Rounds(c.mulDiv) && Ready(c, b, now)
    ensures var preview := GetAccumulatedRewards(c, b.state, now, who);
            var r := RemoveShare(c, b.state, now, who, Member(b.state.members, who).shares);
            && (r.Ok? ==> preview == r.value.payout)
            && (Funded(c, b, now) && r.Err? ==> preview == 0)
  {
    ReadyPool(c, b, now, who);
    var account, u := Member(b.state.members, who), Updated(c, b, now);
    if account.shares > 0 {
      RemovalOutcome(c, u.info, account, account.shares);
    }
  }

  /**
   A successful claim returns the preview, except exactly when the reward is a nonzero existential reward; the preview
   shows zero if the update fails, and in a funded pool whenever the claim fails.
   */
  lemma PreviewIsClaim(c: Config, b: Books, now: nat, who: AccountId)
    requires Rounds(c.mulDiv) && Balanced(b)
    ensures var preview, r := GetAccumulatedRewards(c, b.state, now, who), ClaimRewards(c, b.state, now, who);
            && (r.Ok? ==> preview == if r.value.returned == c.existentialReward then 0 else r.value.returned)
            && (r.Ok? ==> (preview == r.value.returned <==>
                             c.existentialReward == 0 || r.value.returned != c.existentialReward))
            && (Funded(c, b, now) && r.Err? ==> preview == 0)
            && (UpdatePoolReward(c, b.state, now).Err? ==> preview == 0)
  {
    if UpdatePoolReward(c, b.state, now).Err? {
      return;
    }
    ReadyPool(c, b, now, who);
    ClaimOutcome(c, b, now, who);
    var account, u := Member(b.state.members, who), Updated(c, b, now);
    if account.shares > 0 {
      RemovalOutcome(c, u.info, account, account.shares);
      ScaleByOne(c.mulDiv, account.shares, account.borrowedAmount);
    }
  }

  // ---------- The share price ----------

  function Abs(x: int): nat {
    if x < 0 then -x else x
  }

  /** Joining moves the share price by rounding only. */
  lemma AddSharePriceDrift(c: Config, s: PoolState, now: nat, who: AccountId, amount: nat)
    requires Rounds(c.mulDiv) && AddShare(c, s, now, who, amount).Ok?
    requires UpdatePoolReward(c, s, now).value.info.totalShares > 0
    ensures var u, v := UpdatePoolReward(c, s, now).value.info, AddShare(c, s, now, who, amount).value.state.info;
            Abs(v.totalRewards * u.totalShares - u.totalRewards * v.totalShares) * ONE
              < u.totalShares * (ONE + amount)
  {
    var u := UpdatePoolReward(c, s, now).value.info;
    ScaleError(c.mulDiv, u.totalRewards, u.totalShares, amount);
    JoinGap(u.totalRewards, u.totalShares, Scale(c.mulDiv, u.totalRewards, u.totalShares, amount), amount);
  }

  lemma JoinGap(rewards: int, shares: int, virtual: int, amount: int)
    ensures (rewards + virtual) * shares - rewards * (shares + amount) == virtual * shares - rewards * amount
  {
  }

  lemma LeaveGap(rewards: int, shares: int, e: int, amount: int)
    ensures (rewards - e) * shares - rewards * (shares - amount) == amount * rewards - e * shares
  {
  }

  /** A removal that pays moves the share price by rounding only. */
  lemma RemoveSharePriceDrift(c: Config, b: Books, now: nat, who: AccountId, amount: nat)
    requires Rounds(c.mulDiv) && Ready(c, b, now)
    requires RemoveShare(c, b.state, now, who, amount).Ok?
    requires RemoveShare(c, b.state, now, who, amount).value.payout > 0
    ensures var u, v := Updated(c, b, now).info, RemoveShare(c, b.state, now, who, amount).value.state.info;
            Abs(v.totalRewards * u.totalShares - u.totalRewards * v.totalShares) * ONE
              < u.totalShares * (ONE + u.totalRewards)
  {
    ReadyPool(c, b, now, who);
    var account, u := Member(b.state.members, who), Updated(c, b, now).info;
    var v := RemoveShare(c, b.state, now, who, amount).value.state.info;
    var e := Entitlement(c, u, amount);
    assert v.totalRewards == u.totalRewards - e && v.totalShares == u.totalShares - amount by {
      RemovalOutcome(c, u, account, amount);
    }
    ScaleError(c.mulDiv, amount, u.totalShares, u.totalRewards);
    LeaveGap(u.totalRewards, u.totalShares, e, amount);
  }
}
