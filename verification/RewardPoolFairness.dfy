/** Who can claim, and that truncation leaves enough for everyone. */
module RewardPoolFairness {
  import opened Primitives
  import opened MapSum
  import opened FixedPoint
  import opened RewardPool
  import opened RewardPoolLaws
  import opened RewardPoolProperties

  // ---------- Claims of many accounts in one block ----------

  /** The claims of `order`, one after the other in block `now`, and what each returned. */
  function ClaimAll(c: Config, s: PoolState, now: nat, order: seq<AccountId>): Result<(PoolState, seq<nat>), Error>
    decreases |order|
  {
    if order == [] then Ok((s, []))
    else
      var done :- ClaimRewards(c, s, now, order[0]);
      var (last, paid) :- ClaimAll(c, done.state, now, order[1..]);
      Ok((last, [done.returned] + paid))
  }

  /** The account's entitlement is at least its borrow. */
  predicate Covered(c: Config, u: PoolState, who: AccountId) {
    var account := Member(u.members, who);
    account.shares > 0 ==> account.borrowedAmount <= Entitlement(c, u.info, account.shares)
  }

  /** Entitlement minus borrow, or zero below the threshold. */
  function Due(c: Config, u: PoolState, who: AccountId): nat {
    var account := Member(u.members, who);
    var e := Entitlement(c, u.info, account.shares);
    if account.shares == 0 || e < account.borrowedAmount + c.existentialReward then 0
    else e - account.borrowedAmount
  }

  function DueTotal(c: Config, u: PoolState, order: seq<AccountId>): nat {
    if order == [] then 0 else Due(c, u, order[0]) + DueTotal(c, u, order[1..])
  }

  predicate Distinct(order: seq<AccountId>) {
    forall i, j :: 0 <= i < j < |order| ==> order[i] != order[j]
  }

  function AfterClaim(c: Config, b: Books, now: nat, who: AccountId): Books {
    Advance(c, b, Call(now, Claim(who)))
  }

  /** One claim: when it succeeds, what it returns, and that nobody else's due moves. */
  lemma ClaimStep(c: Config, b: Books, now: nat, who: AccountId)
    requires Rounds(c.mulDiv) && Funded(c, b, now)
    ensures var u := Updated(c, b, now);
            ClaimRewards(c, b.state, now, who).Ok? <==>
              Covered(c, u, who) && Due(c, u, who) <= u.info.totalRewardsUseable
    ensures ClaimRewards(c, b.state, now, who).Ok? ==>
              var u, n := Updated(c, b, now), AfterClaim(c, b, now, who);
              && ClaimRewards(c, b.state, now, who).value.returned == Due(c, u, who)
              && ClaimRewards(c, b.state, now, who).value.state == n.state
              && Funded(c, n, now) && Updated(c, n, now) == n.state && n.writtenOff == b.writtenOff
              && n.state.info == u.info.(totalRewardsUseable := u.info.totalRewardsUseable - Due(c, u, who))
              && Due(c, n.state, who) == 0
              && forall a :: a != who ==> Member(n.state.members, a) == Member(u.members, a)
  {
    ClaimOutcome(c, b, now, who);
    AdvanceKeepsBalance(c, b, Call(now, Claim(who)));
  }

  lemma {:induction false} DueTotalUnmoved(c: Config, u: PoolState, v: PoolState, order: seq<AccountId>)
    requires forall a :: a in order ==> Due(c, u, a) == Due(c, v, a)
    ensures DueTotal(c, u, order) == DueTotal(c, v, order)
    decreases |order|
  {
    if order != [] {
      DueTotalUnmoved(c, u, v, order[1..]);
    }
  }

  /**
   Any set of accounts can all claim in one block, in any order, exactly when each is covered and
   their dues together are within the useable rewards; each is then paid exactly its due.
   */
  lemma {:induction false} ClaimAllIff(c: Config, b: Books, now: nat, order: seq<AccountId>)
    requires Rounds(c.mulDiv) && Funded(c, b, now) && Distinct(order)
    ensures var u := Updated(c, b, now);
            var r := ClaimAll(c, b.state, now, order);
            && (r.Ok? <==> (forall a :: a in order ==> Covered(c, u, a))
                           && DueTotal(c, u, order) <= u.info.totalRewardsUseable)
            && (r.Ok? ==> |r.value.1| == |order|
                          && forall i :: 0 <= i < |order| ==> r.value.1[i] == Due(c, u, order[i]))
    decreases |order|
  {
    if order != [] {
      var u, who, rest := Updated(c, b, now), order[0], order[1..];
      ClaimStep(c, b, now, who);
      if ClaimRewards(c, b.state, now, who).Ok? {
        var n := AfterClaim(c, b, now, who);
        forall a | a in rest
          ensures Due(c, n.state, a) == Due(c, u, a) && Covered(c, n.state, a) == Covered(c, u, a)
        {
        }
        DueTotalUnmoved(c, n.state, u, rest);
        ClaimAllIff(c, n, now, rest);
      }
    }
  }

  // ---------- Truncation leaves enough for everyone ----------

  function FloorScale(x: nat, k: nat, d: nat): nat
    requires d > 0
  {
    var product: nat := x * k;
    product / d
  }

  ghost function Scaled<K>(m: map<K, nat>, k: nat, d: nat): map<K, nat>
    requires d > 0
  {
    map a | a in m :: FloorScale(m[a], k, d)
  }

  lemma {:induction false} SumOfFloors<K(!new)>(m: map<K, nat>, k: nat, d: nat)
    requires d > 0
    ensures Sum(Scaled(m, k, d)) * d <= Sum(m) * k
    decreases |m|
  {
    if m == map[] {
      assert Scaled(m, k, d) == map[];
    } else {
      var a :| a in m;
      var rest := m - {a};
      SumOfFloors(rest, k, d);
      SumMinus(m, a);
      SumMinus(Scaled(m, k, d), a);
      assert Scaled(m, k, d) - {a} == Scaled(rest, k, d);
      AddFloor(m[a], Sum(rest), Sum(Scaled(rest, k, d)), k, d);
    }
  }

  lemma AddFloor(x: nat, s: nat, t: nat, k: nat, d: nat)
    requires d > 0 && t * d <= s * k
    ensures (x * k / d + t) * d <= (x + s) * k
  {
    QuotientBounds(x * k, d);
  }

  ghost function Entitlements(c: Config, u: PoolState): map<AccountId, nat> {
    map a | a in u.members :: Entitlement(c, u.info, u.members[a].shares)
  }

  /** Truncated entitlements never add up to more than the rewards they divide. */
  lemma EntitlementsWithinRewards(c: Config, u: PoolState)
    requires Truncates(c.mulDiv) && u.info.totalShares == Sum(Shares(u.members)) > 0
    ensures Sum(Entitlements(c, u)) <= u.info.totalRewards
  {
    var shares, total, rewards := Shares(u.members), u.info.totalShares, u.info.totalRewards;
    var ratios := Scaled(shares, ONE, total);
    assert Entitlements(c, u) == Scaled(ratios, rewards, ONE);
    SumOfFloors(shares, ONE, total);
    assert Sum(ratios) <= ONE by {
      if Sum(ratios) > ONE {
        MulMonotone(ONE + 1, Sum(ratios), total);
      }
    }
    SumOfFloors(ratios, rewards, ONE);
    MulMonotone(Sum(ratios), ONE, rewards);
    assert Sum(Entitlements(c, u)) * ONE <= rewards * ONE;
  }

  /** Raising the borrows of `order` to the entitlements costs their dues. */
  lemma {:induction false} DuesWithinEntitlements(
    c: Config, u: PoolState, borrows: map<AccountId, nat>, order: seq<AccountId>)
    requires Distinct(order) && borrows.Keys == u.members.Keys
    requires forall a :: a in borrows ==> borrows[a] <= Entitlements(c, u)[a]
    requires forall a :: a in order && a in borrows ==> borrows[a] == u.members[a].borrowedAmount
    ensures DueTotal(c, u, order) + Sum(borrows) <= Sum(Entitlements(c, u))
    decreases |order|
  {
    if order == [] {
      SumMonotone(borrows, Entitlements(c, u));
    } else {
      var who, rest := order[0], order[1..];
      assert forall a :: a in rest ==> a in order && a != who;
      if Due(c, u, who) == 0 {
        DuesWithinEntitlements(c, u, borrows, rest);
      } else {
        var raised := borrows[who := Entitlements(c, u)[who]];
        SumUpdate(borrows, who, Entitlements(c, u)[who]);
        DuesWithinEntitlements(c, u, raised, rest);
      }
    }
  }

  /** With truncation and everyone covered, dues exceed the useable rewards by at most the write-offs. */
  lemma DuesWithinUseable(c: Config, u: PoolState, writtenOff: nat, unbacked: nat, order: seq<AccountId>)
    requires Truncates(c.mulDiv) && Lawful(u, writtenOff, unbacked) && Distinct(order)
    requires forall a :: a in u.members ==> Covered(c, u, a)
    ensures DueTotal(c, u, order) <= u.info.totalRewardsUseable + writtenOff
  {
    if u.info.totalShares == 0 {
      forall a | a in order ensures Due(c, u, a) == 0 {
        MemberBounds(u.members, a);
      }
      NothingDue(c, u, order);
    } else {
      EntitlementsWithinRewards(c, u);
      DuesWithinEntitlements(c, u, Borrows(u.members), order);
    }
  }

  /**
   Everyone can claim. With truncation, nothing written off and every account covered, any accounts
   may claim in one block in any order: all claims succeed and each pays exactly its due.
   */
  lemma EveryoneCanClaim(c: Config, b: Books, now: nat, order: seq<AccountId>)
    requires Truncates(c.mulDiv) && Funded(c, b, now) && Distinct(order)
    requires b.writtenOff == 0
    requires forall a :: a in b.state.members ==> Covered(c, Updated(c, b, now), a)
    ensures var u := Updated(c, b, now);
            var r := ClaimAll(c, b.state, now, order);
            && r.Ok? && |r.value.1| == |order|
            && forall i :: 0 <= i < |order| ==> r.value.1[i] == Due(c, u, order[i])
  {
    TruncatingRounds(c.mulDiv);
    UpdateKeepsLaw(c, b.state, now, b.writtenOff, b.unbacked);
    DuesWithinUseable(c, Updated(c, b, now), 0, 0, order);
    ClaimAllIff(c, b, now, order);
  }

  /** With truncation, a covered account stays covered through updates. */
  lemma CoverageSurvivesUpdates(c: Config, s: PoolState, now: nat, who: AccountId)
    requires Truncates(c.mulDiv) && UpdatePoolReward(c, s, now).Ok? && Covered(c, s, who)
    ensures Covered(c, UpdatePoolReward(c, s, now).value, who)
  {
    var before, after := s.info.totalRewards, UpdatePoolReward(c, s, now).value.info.totalRewards;
    assert before <= after;
    var ratio := c.mulDiv(Member(s.members, who).shares, ONE, s.info.totalShares);
    FloorMonotone(ratio, before, after, ONE);
  }

  lemma FloorMonotone(k: nat, x: nat, y: nat, d: nat)
    requires x <= y && d > 0
    ensures k * x / d <= k * y / d
  {
    MulMonotone(x, y, k);
    QuotientBounds(k * x, d);
    QuotientBounds(k * y, d);
    if k * x / d > k * y / d {
      MulMonotone(k * y / d + 1, k * x / d, d);
    }
  }

  lemma {:induction false} NothingDue(c: Config, u: PoolState, order: seq<AccountId>)
    requires forall a :: a in order ==> Due(c, u, a) == 0
    ensures DueTotal(c, u, order) == 0
    decreases |order|
  {
    if order != [] {
      NothingDue(c, u, order[1..]);
    }
  }
}
