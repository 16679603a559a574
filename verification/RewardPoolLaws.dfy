/** What every run of the reward pool keeps: the virtual-reward law and solvency. */
module RewardPoolLaws {
  import opened Primitives
  import opened MapSum
  import opened FixedPoint
  import opened RewardPool

  /**
   The storage together with running totals that the pallet does not store:
   - `writtenOff`: borrow dropped by removals whose reward was too small to send
   - `credited`: what the pool's sub-account received
   - `paid`: what it sent out
   - `unbacked`: accrued rewards lost when the credited amount saturated
   */
  datatype Books = Books(state: PoolState, writtenOff: nat, credited: nat, paid: nat, unbacked: nat)

  predicate IsNew(b: Books) {
    IsGenesis(b.state) && b.writtenOff == b.credited == b.paid == b.unbacked == 0
  }

  function Accrued(c: Config, pool: PoolInfo, now: nat): nat {
    match CalcPoolRewardAtBlock(c, pool, now)
    case Ok((_, reward)) => reward
    case Err(_) => 0
  }

  /** The borrow written off by a successful call: only a removal that pays nothing drops any. */
  function WrittenOffBy(c: Config, s: PoolState, call: Call, done: Done): nat {
    if call.op.Remove? && done.payout == 0
    then Released(c, Member(s.members, call.op.who), call.op.amount)
    else 0
  }

  function Advance(c: Config, b: Books, call: Call): Books {
    match Execute(c, b.state, call)
    case Err(_) => b
    case Ok(done) =>
      var reward := Accrued(c, b.state.info, call.block);
      Books(done.state,
            b.writtenOff + WrittenOffBy(c, b.state, call, done),
            b.credited + Credit(reward),
            b.paid + done.payout,
            b.unbacked + (reward - Credit(reward)))
  }

  function Run(c: Config, b: Books, calls: seq<Call>): Books
    decreases |calls|
  {
    if calls == [] then b else Run(c, Advance(c, b, calls[0]), calls[1..])
  }

  ghost function Shares(members: map<AccountId, PoolAccountInfo>): map<AccountId, nat> {
    map a | a in members :: members[a].shares
  }

  ghost function Borrows(members: map<AccountId, PoolAccountInfo>): map<AccountId, nat> {
    map a | a in members :: members[a].borrowedAmount
  }

  ghost predicate Lawful(s: PoolState, writtenOff: nat, unbacked: nat) {
    && s.info.totalRewards == s.info.totalRewardsUseable + Sum(Borrows(s.members)) + writtenOff
    && s.info.totalShares == Sum(Shares(s.members))
    && s.info.totalRewardsUseable == s.balance + unbacked
    && s.info.totalRewards <= U128_MAX
    && s.info.totalShares <= U128_MAX
    && forall a :: a in s.members && s.members[a].shares == 0 ==> s.members[a].borrowedAmount == 0
  }

  ghost predicate Balanced(b: Books) {
    && Lawful(b.state, b.writtenOff, b.unbacked)
    && b.paid + b.state.balance == b.credited
  }

  // ---------- One entry of the member map ----------

  lemma WriteMember(members: map<AccountId, PoolAccountInfo>, who: AccountId, info: PoolAccountInfo)
    ensures Sum(Shares(members[who := info])) + Member(members, who).shares == Sum(Shares(members)) + info.shares
    ensures Sum(Borrows(members[who := info])) + Member(members, who).borrowedAmount
         == Sum(Borrows(members)) + info.borrowedAmount
  {
    assert Shares(members[who := info]) == Shares(members)[who := info.shares];
    assert Borrows(members[who := info]) == Borrows(members)[who := info.borrowedAmount];
    SumUpdate(Shares(members), who, info.shares);
    SumUpdate(Borrows(members), who, info.borrowedAmount);
  }

  lemma MemberBounds(members: map<AccountId, PoolAccountInfo>, who: AccountId)
    ensures Member(members, who).shares <= Sum(Shares(members))
    ensures Member(members, who).borrowedAmount <= Sum(Borrows(members))
  {
    SumBoundsEntry(Shares(members), who);
    SumBoundsEntry(Borrows(members), who);
  }

  // ---------- Each operation keeps the law ----------

  lemma UpdateKeepsLaw(c: Config, s: PoolState, now: nat, writtenOff: nat, unbacked: nat)
    requires Lawful(s, writtenOff, unbacked)
    requires UpdatePoolReward(c, s, now).Ok?
    ensures var u := UpdatePoolReward(c, s, now).value;
            var reward := Accrued(c, s.info, now);
            && Lawful(u, writtenOff, unbacked + (reward - Credit(reward)))
            && u.balance == s.balance + Credit(reward)
            && u.members == s.members
  {
  }

  /** What a removal does once the amounts `e` and `l` it moves are known. */
  function RemovalResult(c: Config, pool: PoolInfo, account: PoolAccountInfo, amount: nat, e: nat, l: nat)
    : Result<(PoolInfo, PoolAccountInfo, nat), Error>
    requires amount <= account.shares <= pool.totalShares
    requires e <= pool.totalRewards && l <= account.borrowedAmount
  {
    var left := PoolAccountInfo(account.shares - amount, account.borrowedAmount - l);
    var shares := pool.totalShares - amount;
    if e < l || pool.totalRewardsUseable + l < e then Err(RewardCalculationError)
    else if e - l <= c.existentialReward then Ok((pool.(totalShares := shares), left, 0))
    else Ok((pool.(totalShares := shares,
                   totalRewards := pool.totalRewards - e,
                   totalRewardsUseable := pool.totalRewardsUseable - (e - l)),
             left, e - l))
  }

  lemma RemovalResultHolds(c: Config, pool: PoolInfo, account: PoolAccountInfo, amount: nat, e: nat, l: nat)
    requires 0 < amount <= account.shares <= pool.totalShares
    requires e <= pool.totalRewards && l <= account.borrowedAmount
    requires CheckedScale(c.mulDiv, amount, pool.totalShares, pool.totalRewards) == Some(e)
    requires CheckedScale(c.mulDiv, amount, account.shares, account.borrowedAmount) == Some(l)
    ensures GetRewardsByAccountShares(c, pool, account, amount) == RemovalResult(c, pool, account, amount, e, l)
  {
    assert CalcRewardByShares(c, pool, amount) == Ok(e);
  }

  /**
   The guards marked "should not happen" never fire: a removal within the account's shares can
   only fail because its released borrow exceeds the entitlement or the reward exceeds what is useable.
   */
  lemma RemovalOutcome(c: Config, pool: PoolInfo, account: PoolAccountInfo, amount: nat)
    requires Rounds(c.mulDiv)
    requires 0 < amount <= account.shares <= pool.totalShares
    requires pool.totalRewards <= U128_MAX && account.borrowedAmount <= U128_MAX
    ensures Entitlement(c, pool, amount) <= pool.totalRewards
    ensures Released(c, account, amount) <= account.borrowedAmount
    ensures GetRewardsByAccountShares(c, pool, account, amount)
         == RemovalResult(c, pool, account, amount, Entitlement(c, pool, amount), Released(c, account, amount))
  {
    ScaleByFraction(c.mulDiv, amount, pool.totalShares, pool.totalRewards);
    ScaleByFraction(c.mulDiv, amount, account.shares, account.borrowedAmount);
    RemovalResultHolds(c, pool, account, amount, Entitlement(c, pool, amount), Released(c, account, amount));
  }

  lemma RemoveKeepsLaw(c: Config, s: PoolState, now: nat, who: AccountId, amount: nat, writtenOff: nat, unbacked: nat)
    requires Rounds(c.mulDiv) && Lawful(s, writtenOff, unbacked)
    requires RemoveShare(c, s, now, who, amount).Ok?
    ensures var done := RemoveShare(c, s, now, who, amount).value;
            var reward := Accrued(c, s.info, now);
            && Lawful(done.state,
                      writtenOff + WrittenOffBy(c, s, Call(now, Remove(who, amount)), done),
                      unbacked + (reward - Credit(reward)))
            && done.payout + done.state.balance == s.balance + Credit(reward)
  {
    UpdateKeepsLaw(c, s, now, writtenOff, unbacked);
    var u := UpdatePoolReward(c, s, now).value;
    var account := Member(u.members, who);
    MemberBounds(u.members, who);
    RemovalOutcome(c, u.info, account, amount);
    var (info, left, reward) := GetRewardsByAccountShares(c, u.info, account, amount).value;
    WriteMember(u.members, who, left);
    if amount == account.shares {
      ScaleByOne(c.mulDiv, amount, account.borrowedAmount);
    }
  }

  lemma AddKeepsLaw(c: Config, s: PoolState, now: nat, who: AccountId, amount: nat, writtenOff: nat, unbacked: nat)
    requires Lawful(s, writtenOff, unbacked)
    requires AddShare(c, s, now, who, amount).Ok?
    ensures var done := AddShare(c, s, now, who, amount).value;
            var reward := Accrued(c, s.info, now);
            && Lawful(done.state, writtenOff, unbacked + (reward - Credit(reward)))
            && done.state.balance == s.balance + Credit(reward)
            && done.payout == 0
  {
    UpdateKeepsLaw(c, s, now, writtenOff, unbacked);
    var u := UpdatePoolReward(c, s, now).value;
    var done := AddShare(c, s, now, who, amount).value;
    WriteMember(u.members, who, done.state.members[who]);
  }

  lemma ClaimKeepsLaw(c: Config, s: PoolState, now: nat, who: AccountId, writtenOff: nat, unbacked: nat)
    requires Lawful(s, writtenOff, unbacked)
    requires ClaimRewards(c, s, now, who).Ok?
    ensures var done := ClaimRewards(c, s, now, who).value;
            var reward := Accrued(c, s.info, now);
            && Lawful(done.state, writtenOff, unbacked + (reward - Credit(reward)))
            && done.payout + done.state.balance == s.balance + Credit(reward)
  {
    UpdateKeepsLaw(c, s, now, writtenOff, unbacked);
    var u := UpdatePoolReward(c, s, now).value;
    var account := Member(u.members, who);
    if account.shares > 0 {
      WriteMember(u.members, who, account.(borrowedAmount := CalcRewardByShares(c, u.info, account.shares).value));
    }
  }

  lemma AdvanceKeepsBalance(c: Config, b: Books, call: Call)
    requires Rounds(c.mulDiv) && Balanced(b)
    ensures Balanced(Advance(c, b, call))
    ensures b.writtenOff <= Advance(c, b, call).writtenOff
    ensures b.unbacked <= Advance(c, b, call).unbacked
    ensures b.writtenOff < Advance(c, b, call).writtenOff ==>
              call.op.Remove? && Execute(c, b.state, call).Ok? && Execute(c, b.state, call).value.payout == 0
  {
    if Execute(c, b.state, call).Ok? {
      match call.op
      case Update => UpdateKeepsLaw(c, b.state, call.block, b.writtenOff, b.unbacked);
      case Add(who, amount) => AddKeepsLaw(c, b.state, call.block, who, amount, b.writtenOff, b.unbacked);
      case Remove(who, amount) => RemoveKeepsLaw(c, b.state, call.block, who, amount, b.writtenOff, b.unbacked);
      case Claim(who) => ClaimKeepsLaw(c, b.state, call.block, who, b.writtenOff, b.unbacked);
    }
  }

  // ---------- Main results over whole runs ----------

  /** The books follow the storage. */
  lemma {:induction false} RunFollowsStorage(c: Config, b: Books, calls: seq<Call>)
    ensures Run(c, b, calls).state == Final(c, b.state, calls)
    decreases |calls|
  {
    if calls != [] {
      RunFollowsStorage(c, Advance(c, b, calls[0]), calls[1..]);
    }
  }

  /** Lawful books stay lawful over every run. */
  lemma {:induction false} RunKeepsBalance(c: Config, b: Books, calls: seq<Call>)
    requires Rounds(c.mulDiv) && Balanced(b)
    ensures Balanced(Run(c, b, calls))
    ensures b.writtenOff <= Run(c, b, calls).writtenOff
    ensures b.unbacked <= Run(c, b, calls).unbacked
    decreases |calls|
  {
    if calls != [] {
      AdvanceKeepsBalance(c, b, calls[0]);
      RunKeepsBalance(c, Advance(c, b, calls[0]), calls[1..]);
    }
  }

  lemma NewBooksBalanced(b: Books)
    requires IsNew(b)
    ensures Balanced(b)
  {
    assert Shares(b.state.members) == map[] && Borrows(b.state.members) == map[];
  }

  /**
   After every run by any accounts from empty storage: the exact virtual-reward law, the share total,
   the solvency equation and the conservation of what was credited.
   */
  lemma EveryRunIsLawful(c: Config, b: Books, calls: seq<Call>)
    requires Rounds(c.mulDiv) && IsNew(b)
    ensures var r := Run(c, b, calls);
            var pool, members := r.state.info, r.state.members;
            && pool.totalRewards == pool.totalRewardsUseable + Sum(Borrows(members)) + r.writtenOff
            && pool.totalShares == Sum(Shares(members))
            && (forall a :: a in members && members[a].shares == 0 ==> members[a].borrowedAmount == 0)
            && pool.totalRewardsUseable == r.state.balance + r.unbacked
            && r.paid + r.state.balance == r.credited
  {
    NewBooksBalanced(b);
    RunKeepsBalance(c, b, calls);
  }
}
