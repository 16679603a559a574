/**
 The storage of the reward pool pallet and the operations that update it in place.

 Each operation is proved against its function in module `RewardPool`; the laws proved about those
 functions therefore hold of the storage.
 */
module RewardPoolPallet {
  import opened Primitives
  import opened FixedPoint
  import Spec = RewardPool
  import opened RewardPool

  class Pallet<PoolId(==, !new)> {
    const mulDiv: MulDiv
    const existentialReward: nat
    const handler: (PoolId, nat, nat, nat) -> nat

    var pools: map<PoolId, PoolInfo>
    var accountData: map<PoolId, map<AccountId, PoolAccountInfo>>
    /** Native balances: of each pool's sub-account, and of everyone else. */
    var subAccounts: map<PoolId, nat>
    var wallets: map<AccountId, nat>

    constructor (mulDiv: MulDiv, existentialReward: nat, handler: (PoolId, nat, nat, nat) -> nat,
                 wallets: map<AccountId, nat>)
      ensures this.mulDiv == mulDiv && this.existentialReward == existentialReward && this.handler == handler
      ensures this.wallets == wallets
      ensures forall p :: IsGenesis(View(p))
    {
      this.mulDiv, this.existentialReward, this.handler := mulDiv, existentialReward, handler;
      this.wallets := wallets;
      pools, accountData, subAccounts := map[], map[], map[];
    }

    function ConfigOf(p: PoolId): (c: Config)
      ensures c.mulDiv == mulDiv && c.existentialReward == existentialReward
      ensures forall shares, last, now :: c.handler(shares, last, now) == handler(p, shares, last, now)
    {
      Config(mulDiv, existentialReward, (shares, last, now) => handler(p, shares, last, now))
    }

    function InfoOf(p: PoolId): PoolInfo
      reads this
    {
      if p in pools then pools[p] else PoolInfo(0, 0, 0, 0)
    }

    function MembersOf(p: PoolId): map<AccountId, PoolAccountInfo>
      reads this
    {
      if p in accountData then accountData[p] else map[]
    }

    function View(p: PoolId): PoolState
      reads this
    {
      PoolState(InfoOf(p), MembersOf(p), ReadOrZero(subAccounts, p))
    }

    /** Only pool `p` and the wallet of `who`, by exactly `payout`, may have changed. */
    twostate predicate Only(p: PoolId, who: AccountId, payout: nat)
      reads this
    {
      && (forall q: PoolId :: q != p ==> View(q) == old(View(q)))
      && (forall a: AccountId :: a != who ==> ReadOrZero(wallets, a) == ReadOrZero(old(wallets), a))
      && ReadOrZero(wallets, who) == ReadOrZero(old(wallets), who) + payout
    }

    twostate predicate Unchanged()
      reads this
    {
      && pools == old(pools) && accountData == old(accountData)
      && subAccounts == old(subAccounts) && wallets == old(wallets)
    }

    /** The storage and the answer `r` are those of the specification's result `spec`. */
    twostate predicate Follows(p: PoolId, who: AccountId, new r: Result<nat, Error>, spec: Result<Done, Error>)
      reads this
    {
      match spec
      case Ok(done) => r == Ok(done.returned) && View(p) == done.state && Only(p, who, done.payout)
      case Err(e) => r == Err(e)
    }

    method UpdatePoolReward(p: PoolId, now: nat) returns (r: Result<PoolInfo, Error>)
      modifies this
      ensures wallets == old(wallets)
      ensures forall q: PoolId :: q != p ==> View(q) == old(View(q))
      ensures match Spec.UpdatePoolReward(ConfigOf(p), old(View(p)), now)
              case Ok(u) => r == Ok(u.info) && View(p) == u
              case Err(e) => r == Err(e) && Unchanged()
    {
      var accrued :- CalcPoolRewardAtBlock(ConfigOf(p), InfoOf(p), now);
      var (info, change) := accrued;
      if change != 0 {
        subAccounts := subAccounts[p := ReadOrZero(subAccounts, p) + Credit(change)];
      }
      pools := pools[p := info];
      return Ok(info);
    }

    method Transfer(p: PoolId, who: AccountId, amount: nat) returns (r: Result<(), Error>)
      modifies this`subAccounts, this`wallets
      ensures r == if ReadOrZero(old(subAccounts), p) < amount then Err(InsufficientBalance) else Ok(())
      ensures r.Err? ==> Unchanged()
      ensures r.Ok? ==> Only(p, who, amount)
                        && View(p) == old(View(p)).(balance := ReadOrZero(old(subAccounts), p) - amount)
    {
      if ReadOrZero(subAccounts, p) < amount {
        return Err(InsufficientBalance);
      }
      subAccounts := subAccounts[p := ReadOrZero(subAccounts, p) - amount];
      wallets := wallets[who := ReadOrZero(wallets, who) + amount];
      return Ok(());
    }

    method TryAddShare(p: PoolId, now: nat, who: AccountId, amount: nat) returns (r: Result<nat, Error>)
      modifies this
      ensures Follows(p, who, r, Spec.AddShare(ConfigOf(p), old(View(p)), now, who, amount))
    {
      if amount == 0 {
        return Err(InvalidAmount);
      }
      var info :- UpdatePoolReward(p, now);
      var price :- OrCalculationError(
        if info.totalShares == 0 then Some(0)
        else CheckedFromRational(mulDiv, info.totalRewards, info.totalShares));
      var virtualReward :- OrCalculationError(CheckedMulInt(mulDiv, price, amount));
      var shares :- OrCalculationError(CheckedAdd(info.totalShares, amount));
      var rewards :- OrCalculationError(CheckedAdd(info.totalRewards, virtualReward));
      pools := pools[p := info.(totalShares := shares, totalRewards := rewards)];
      var data := Member(MembersOf(p), who);
      var ownShares :- OrCalculationError(CheckedAdd(data.shares, amount));
      var borrow :- OrCalculationError(CheckedAdd(data.borrowedAmount, virtualReward));
      accountData := accountData[p := MembersOf(p)[who := PoolAccountInfo(ownShares, borrow)]];
      return Ok(ownShares);
    }

    method TryRemoveShare(p: PoolId, now: nat, who: AccountId, amount: nat) returns (r: Result<nat, Error>)
      modifies this
      ensures Follows(p, who, r, Spec.RemoveShare(ConfigOf(p), old(View(p)), now, who, amount))
    {
      var info :- UpdatePoolReward(p, now);
      var data := Member(MembersOf(p), who);
      if data.shares < amount {
        return Err(InsufficientShares);
      }
      var removed :- GetRewardsByAccountShares(ConfigOf(p), info, data, amount);
      var (newInfo, newData, reward) := removed;
      pools := pools[p := newInfo];
      accountData := accountData[p := MembersOf(p)[who := newData]];
      var _ :- Transfer(p, who, reward);
      return Ok(newData.shares);
    }

    method TryClaimRewards(p: PoolId, now: nat, who: AccountId) returns (r: Result<nat, Error>)
      modifies this
      ensures Follows(p, who, r, Spec.ClaimRewards(ConfigOf(p), old(View(p)), now, who))
    {
      var info :- UpdatePoolReward(p, now);
      var data := Member(MembersOf(p), who);
      if data.shares == 0 {
        return Ok(0);
      }
      var rewardWithVirtual :- CalcRewardByShares(ConfigOf(p), info, data.shares);
      var actual :- OrCalculationError(CheckedSub(rewardWithVirtual, data.borrowedAmount));
      if actual < existentialReward {
        return Ok(0);
      }
      var useable :- OrCalculationError(CheckedSub(info.totalRewardsUseable, actual));
      if data.borrowedAmount > rewardWithVirtual {
        return Err(RewardCalculationError);
      }
      var _ :- Transfer(p, who, actual);
      pools := pools[p := info.(totalRewardsUseable := useable)];
      accountData := accountData[p := MembersOf(p)[who := data.(borrowedAmount := rewardWithVirtual)]];
      return Ok(actual);
    }

    method AddShare(p: PoolId, now: nat, who: AccountId, amount: nat) returns (r: Result<nat, Error>)
      modifies this
      ensures Follows(p, who, r, Spec.AddShare(ConfigOf(p), old(View(p)), now, who, amount))
      ensures r.Err? ==> Unchanged()
    {
      var p0, a0, s0, w0 := pools, accountData, subAccounts, wallets;
      r := TryAddShare(p, now, who, amount);
      if r.Err? {
        pools, accountData, subAccounts, wallets := p0, a0, s0, w0;
      }
    }

    method RemoveShare(p: PoolId, now: nat, who: AccountId, amount: nat) returns (r: Result<nat, Error>)
      modifies this
      ensures Follows(p, who, r, Spec.RemoveShare(ConfigOf(p), old(View(p)), now, who, amount))
      ensures r.Err? ==> Unchanged()
    {
      var p0, a0, s0, w0 := pools, accountData, subAccounts, wallets;
      r := TryRemoveShare(p, now, who, amount);
      if r.Err? {
        pools, accountData, subAccounts, wallets := p0, a0, s0, w0;
      }
    }

    method ClaimRewards(p: PoolId, now: nat, who: AccountId) returns (r: Result<nat, Error>)
      modifies this
      ensures Follows(p, who, r, Spec.ClaimRewards(ConfigOf(p), old(View(p)), now, who))
      ensures r.Err? ==> Unchanged()
    {
      var p0, a0, s0, w0 := pools, accountData, subAccounts, wallets;
      r := TryClaimRewards(p, now, who);
      if r.Err? {
        pools, accountData, subAccounts, wallets := p0, a0, s0, w0;
      }
    }
  }
}
