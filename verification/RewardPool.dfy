/**
 The reward pool (modules/reward-pool/src/lib.rs): one pool's books and the calculations on them.

 Joining adds "virtual" rewards at the current share price, which the joiner borrows;
 leaving and claiming net the borrow off.
 */
module RewardPool {
  import opened Primitives
  import opened FixedPoint

  datatype PoolInfo = PoolInfo(
    totalShares: nat,
    totalRewards: nat,
    totalRewardsUseable: nat,
    lastUpdateBlock: nat)

  datatype PoolAccountInfo = PoolAccountInfo(shares: nat, borrowedAmount: nat)

  datatype Error = RewardCalculationError | InsufficientShares | InvalidAmount | InsufficientBalance

  /** What a pool is configured with; `handler(totalShares, last, now)` is the reward for `(last, now]`. */
  datatype Config = Config(mulDiv: MulDiv, existentialReward: nat, handler: (nat, nat, nat) -> nat)

  /** The storage of one pool, with the native balance of its sub-account. */
  datatype PoolState = PoolState(info: PoolInfo, members: map<AccountId, PoolAccountInfo>, balance: nat)

  /** A successful operation: the new storage, the value returned, and what was sent to the caller. */
  datatype Done = Done(state: PoolState, returned: nat, payout: nat)

  /** Storage before the first call: every value is its default. */
  predicate IsGenesis(s: PoolState) {
    s.info == PoolInfo(0, 0, 0, 0) && |s.members| == 0 && s.balance == 0
  }

  function Member(members: map<AccountId, PoolAccountInfo>, who: AccountId): PoolAccountInfo {
    if who in members then members[who] else PoolAccountInfo(0, 0)
  }

  function OrCalculationError<T>(o: Option<T>): Result<T, Error> {
    match o
    case Some(v) => Ok(v)
    case None => Err(RewardCalculationError)
  }

  function CheckedAdd(x: nat, y: nat): Option<nat> {
    if x + y > U128_MAX then None else Some(x + y)
  }

  function CheckedSub(x: nat, y: nat): Option<nat> {
    if x < y then None else Some(x - y)
  }

  function CalcRewardByShares(c: Config, pool: PoolInfo, amount: nat): Result<nat, Error> {
    if pool.totalShares == 0 || amount == 0 then Ok(0)
    else if amount > pool.totalShares then Err(InsufficientShares)
    else
      var rewardWithVirtual :- OrCalculationError(
        CheckedScale(c.mulDiv, amount, pool.totalShares, pool.totalRewards));
      if rewardWithVirtual > pool.totalRewards then Err(RewardCalculationError)
      else Ok(rewardWithVirtual)
  }

  function GetRewardsByAccountShares(c: Config, pool: PoolInfo, account: PoolAccountInfo, amount: nat)
    : Result<(PoolInfo, PoolAccountInfo, nat), Error>
  {
    if amount == 0 || pool.totalShares < amount || account.shares < amount then Err(InsufficientShares)
    else
      var rewardWithVirtual :- CalcRewardByShares(c, pool, amount);
      var released :- OrCalculationError(
        CheckedScale(c.mulDiv, amount, account.shares, account.borrowedAmount));
      var newBorrow :- OrCalculationError(CheckedSub(account.borrowedAmount, released));
      var reward :- OrCalculationError(CheckedSub(rewardWithVirtual, released));
      if reward > pool.totalRewardsUseable || newBorrow > account.borrowedAmount then
        Err(RewardCalculationError)
      else
        var sent: Option<(nat, nat, nat)> :=
          if reward <= c.existentialReward then Some((0, pool.totalRewards, pool.totalRewardsUseable))
          else
            match (CheckedSub(pool.totalRewards, rewardWithVirtual), CheckedSub(pool.totalRewardsUseable, reward))
            case (Some(rewards), Some(useable)) => Some((reward, rewards, useable))
            case _ => None;
        match (CheckedSub(pool.totalShares, amount), sent, CheckedSub(account.shares, amount))
        case (None, _, _) => Err(InsufficientShares)
        case (Some(shares), Some((paid, rewards, useable)), Some(ownShares)) =>
          Ok((pool.(totalShares := shares, totalRewards := rewards, totalRewardsUseable := useable),
              PoolAccountInfo(ownShares, newBorrow), paid))
        case _ => Err(RewardCalculationError)
  }

  /** The pool brought up to `now`, and the reward that accrued on the way. */
  function CalcPoolRewardAtBlock(c: Config, pool: PoolInfo, now: nat): Result<(PoolInfo, nat), Error> {
    if now <= pool.lastUpdateBlock then Ok((pool, 0))
    else
      var reward := c.handler(pool.totalShares, pool.lastUpdateBlock, now);
      if reward == 0 then Ok((pool.(lastUpdateBlock := now), 0))
      else
        var rewards :- OrCalculationError(CheckedAdd(pool.totalRewards, reward));
        var useable :- OrCalculationError(CheckedAdd(pool.totalRewardsUseable, reward));
        Ok((pool.(totalRewards := rewards, totalRewardsUseable := useable, lastUpdateBlock := now), reward))
  }

  /** The sub-account is credited through a signed amount, which saturates. */
  function Credit(reward: nat): nat {
    Min(reward, I128_MAX)
  }

  function UpdatePoolReward(c: Config, s: PoolState, now: nat): Result<PoolState, Error> {
    var (info, reward) :- CalcPoolRewardAtBlock(c, s.info, now);
    Ok(s.(info := info, balance := s.balance + Credit(reward)))
  }

  function AddShare(c: Config, s: PoolState, now: nat, who: AccountId, amount: nat): Result<Done, Error> {
    if amount == 0 then Err(InvalidAmount)
    else
      var u :- UpdatePoolReward(c, s, now);
      var price :- OrCalculationError(
        if u.info.totalShares == 0 then Some(0)
        else CheckedFromRational(c.mulDiv, u.info.totalRewards, u.info.totalShares));
      var virtualReward :- OrCalculationError(CheckedMulInt(c.mulDiv, price, amount));
      var shares :- OrCalculationError(CheckedAdd(u.info.totalShares, amount));
      var rewards :- OrCalculationError(CheckedAdd(u.info.totalRewards, virtualReward));
      var account := Member(u.members, who);
      var ownShares :- OrCalculationError(CheckedAdd(account.shares, amount));
      var borrow :- OrCalculationError(CheckedAdd(account.borrowedAmount, virtualReward));
      Ok(Done(u.(info := u.info.(totalShares := shares, totalRewards := rewards),
                 members := u.members[who := PoolAccountInfo(ownShares, borrow)]),
              ownShares, 0))
  }

  function RemoveShare(c: Config, s: PoolState, now: nat, who: AccountId, amount: nat): Result<Done, Error> {
    var u :- UpdatePoolReward(c, s, now);
    var account := Member(u.members, who);
    if account.shares < amount then Err(InsufficientShares)
    else
      var (info, left, reward) :- GetRewardsByAccountShares(c, u.info, account, amount);
      if u.balance < reward then Err(InsufficientBalance)
      else Ok(Done(PoolState(info, u.members[who := left], u.balance - reward), left.shares, reward))
  }

  function ClaimRewards(c: Config, s: PoolState, now: nat, who: AccountId): Result<Done, Error> {
    var u :- UpdatePoolReward(c, s, now);
    var account := Member(u.members, who);
    if account.shares == 0 then Ok(Done(u, 0, 0))
    else
      var rewardWithVirtual :- CalcRewardByShares(c, u.info, account.shares);
      var actual :- OrCalculationError(CheckedSub(rewardWithVirtual, account.borrowedAmount));
      if actual < c.existentialReward then Ok(Done(u, 0, 0))
      else
        var useable :- OrCalculationError(CheckedSub(u.info.totalRewardsUseable, actual));
        if account.borrowedAmount > rewardWithVirtual then Err(RewardCalculationError)
        else if u.balance < actual then Err(InsufficientBalance)
        else
          Ok(Done(PoolState(u.info.(totalRewardsUseable := useable),
                            u.members[who := account.(borrowedAmount := rewardWithVirtual)],
                            u.balance - actual),
                  actual, actual))
  }

  /** The read-only preview; every failure reads as zero. */
  function GetAccumulatedRewards(c: Config, s: PoolState, now: nat, who: AccountId): nat {
    var account := Member(s.members, who);
    if account.shares == 0 then 0
    else
      match CalcPoolRewardAtBlock(c, s.info, now)
      case Err(_) => 0
      case Ok((info, _)) =>
        match GetRewardsByAccountShares(c, info, account, account.shares)
        case Err(_) => 0
        case Ok((_, _, reward)) => reward
  }

  datatype Op =
    | Update
    | Add(who: AccountId, amount: nat)
    | Remove(who: AccountId, amount: nat)
    | Claim(who: AccountId)

  /** An operation executed in a block. */
  datatype Call = Call(block: nat, op: Op)

  function Execute(c: Config, s: PoolState, call: Call): Result<Done, Error> {
    match call.op
    case Update =>
      var u :- UpdatePoolReward(c, s, call.block);
      Ok(Done(u, 0, 0))
    case Add(who, amount) => AddShare(c, s, call.block, who, amount)
    case Remove(who, amount) => RemoveShare(c, s, call.block, who, amount)
    case Claim(who) => ClaimRewards(c, s, call.block, who)
  }

  /** Every operation runs in a storage transaction: an error leaves no trace. */
  function Next(c: Config, s: PoolState, call: Call): PoolState {
    match Execute(c, s, call)
    case Ok(done) => done.state
    case Err(_) => s
  }

  /** The storage after a run. */
  function Final(c: Config, s: PoolState, calls: seq<Call>): PoolState
    decreases |calls|
  {
    if calls == [] then s else Final(c, Next(c, s, calls[0]), calls[1..])
  }

  // ---------- Quantities the laws speak about ----------

  /** What `amount` shares stand for, virtual rewards included. */
  function Entitlement(c: Config, pool: PoolInfo, amount: nat): nat {
    Scale(c.mulDiv, amount, pool.totalShares, pool.totalRewards)
  }

  /** The part of an account's borrow that leaves with `amount` of its shares. */
  function Released(c: Config, account: PoolAccountInfo, amount: nat): nat {
    Scale(c.mulDiv, amount, account.shares, account.borrowedAmount)
  }
}
