/** Limits, the independence of networks, and the storage migration of the claims pallet. */
module ClaimsNetworks {
  import opened Primitives
  import opened SignableMessage
  import opened Claims
  import opened ClaimsLaws

  // ---------- Limits are budgets ----------

  /** The limit last set for a network, and the claim amounts minted on it since. */
  datatype Budget = Budget(granted: nat, spent: nat)

  function NextBudget(c: Config, s: Store, step: Step, n: Network, b: Budget): Budget {
    var event := EventOf(c, s, step);
    if step == RuntimeUpgrade then
      if n == BSC && s.version < 2 && s.legacy.limit > 0 then Budget(s.legacy.limit, 0) else b
    else if step.call.SetClaimLimit? && step.call.network == n && event.Configured? then Budget(step.call.limit, 0)
    else if event.Minted? && event.key.0 == n then b.(spent := b.spent + event.amount)
    else b
  }

  function RunBudget(c: Config, s: Store, steps: seq<Step>, n: Network, b: Budget): Budget
    decreases |steps|
  {
    if steps == [] then b
    else RunBudget(c, Next(c, s, steps[0]), steps[1..], n, NextBudget(c, s, steps[0], n, b))
  }

  ghost predicate WithinBudget(s: Store, n: Network, b: Budget) {
    ReadOrZero(s.limits, n) + b.spent == b.granted
  }

  lemma MintSpends(c: Config, s: Store, from: AccountId, network: Network, tx: TxHash, address: EthereumAddress,
                   value: nat, n: Network)
    requires DoMintClaim(c, s, from, network, tx, address, value).Ok?
    ensures var (t, amount) := DoMintClaim(c, s, from, network, tx, address, value).value;
            && amount <= ReadOrZero(s.limits, network)
            && ReadOrZero(t.limits, n) == ReadOrZero(s.limits, n) - if n == network then amount else 0
  {
  }

  lemma CallKeepsBudget(c: Config, s: Store, origin: Origin, call: Call, n: Network, b: Budget)
    requires WithinBudget(s, n, b)
    ensures WithinBudget(Next(c, s, Dispatch(origin, call)), n, NextBudget(c, s, Dispatch(origin, call), n, b))
  {
    if DispatchCall(c, s, origin, call).Ok? && call.Mint? {
      MintSpends(c, s, origin.who, call.network, call.tx, call.address, call.value, n);
    }
  }

  /** At every point of every run, the limit plus what was minted since it was set is the limit that was set. */
  lemma {:induction false} LimitIsBudget(c: Config, s: Store, steps: seq<Step>, n: Network, b: Budget)
    requires WithinBudget(s, n, b)
    ensures WithinBudget(Run(c, s, steps), n, RunBudget(c, s, steps, n, b))
    decreases |steps|
  {
    if steps != [] {
      if steps[0].Dispatch? {
        CallKeepsBudget(c, s, steps[0].origin, steps[0].call, n, b);
      }
      LimitIsBudget(c, Next(c, s, steps[0]), steps[1..], n, NextBudget(c, s, steps[0], n, b));
    }
  }

  // ---------- Networks do not interfere ----------

  /** What one network stores. */
  datatype NetworkView = NetworkView(
    claims: map<Key, ClaimRecord>, limit: Option<nat>, fees: Option<Fees>, bridge: Option<AccountId>)

  function Lookup<K, V>(m: map<K, V>, k: K): Option<V> {
    if k in m then Some(m[k]) else None
  }

  function ClaimsOn(claims: map<Key, ClaimRecord>, n: Network): map<Key, ClaimRecord> {
    map k | k in claims && k.0 == n :: claims[k]
  }

  function Project(s: Store, n: Network): NetworkView {
    NetworkView(ClaimsOn(s.claims, n),
                Lookup(s.limits, n), Lookup(s.fees, n), Lookup(s.bridges, n))
  }

  /** The migration is a step of BSC. */
  predicate Names(step: Step, n: Network) {
    match step
    case RuntimeUpgrade => n == BSC
    case Dispatch(_, call) => call.network == n
  }

  function Only(steps: seq<Step>, n: Network): seq<Step> {
    if steps == [] then []
    else (if Names(steps[0], n) then [steps[0]] else []) + Only(steps[1..], n)
  }

  /** Two stores agree on all that steps of network `n` depend on or change, balances aside. */
  ghost predicate Agree(s: Store, t: Store, n: Network) {
    && Project(s, n) == Project(t, n)
    && (n == BSC ==> s.legacy == t.legacy && s.version == t.version)
  }

  lemma SameRecord(s: Store, t: Store, n: Network, tx: TxHash)
    requires ClaimsOn(s.claims, n) == ClaimsOn(t.claims, n)
    ensures (n, tx) in s.claims <==> (n, tx) in t.claims
    ensures (n, tx) in s.claims ==> s.claims[(n, tx)] == t.claims[(n, tx)]
  {
    var k := (n, tx);
    assert k in ClaimsOn(s.claims, n) <==> k in s.claims;
    assert k in ClaimsOn(t.claims, n) <==> k in t.claims;
    assert k in s.claims ==> ClaimsOn(s.claims, n)[k] == s.claims[k] && ClaimsOn(t.claims, n)[k] == t.claims[k];
  }

  lemma WriteOn(claims: map<Key, ClaimRecord>, k: Key, record: ClaimRecord, n: Network)
    ensures ClaimsOn(claims[k := record], n)
         == if k.0 == n then ClaimsOn(claims, n)[k := record] else ClaimsOn(claims, n)
  {
  }

  lemma ImportOn(s: Store, n: Network)
    ensures ClaimsOn(s.claims + Imported(s.claims, s.legacy.claims), n)
         == if n == BSC then ClaimsOn(s.claims, n) + Imported(s.claims, s.legacy.claims) else ClaimsOn(s.claims, n)
  {
  }

  /** A call that names another network leaves this network's storage alone. */
  lemma ForeignCall(c: Config, s: Store, origin: Origin, call: Call, n: Network)
    requires call.network != n
    ensures Agree(s, Next(c, s, Dispatch(origin, call)), n)
  {
    if DispatchCall(c, s, origin, call).Ok? {
      var t := DispatchCall(c, s, origin, call).value.0;
      if call.Mint? || call.Claim? {
        var k := (call.network, call.tx);
        assert t.claims == s.claims[k := t.claims[k]];
        WriteOn(s.claims, k, t.claims[k], n);
      }
    }
  }

  lemma ForeignStep(c: Config, s: Store, step: Step, n: Network)
    requires !Names(step, n)
    ensures Agree(s, Next(c, s, step), n)
  {
    match step
    case RuntimeUpgrade => ImportOn(s, n);
    case Dispatch(origin, call) => ForeignCall(c, s, origin, call, n);
  }

  /** The storage of network `n` after a mint that `s` accepts. */
  lemma MintedView(c: Config, s: Store, from: AccountId, n: Network, tx: TxHash, address: EthereumAddress, value: nat)
    requires DoMintClaim(c, s, from, n, tx, address, value).Ok?
    ensures var (t, amount) := DoMintClaim(c, s, from, n, tx, address, value).value;
            && TakeFee(value, FeesOf(s, n).mint) == Some(amount)
            && Project(t, n) == Project(s, n).(
                 claims := ClaimsOn(s.claims, n)[(n, tx) := ClaimRecord(address, amount, false)],
                 limit := Some(SaturatingSub(ReadOrZero(s.limits, n), amount)))
            && t.legacy == s.legacy && t.version == s.version
  {
    var (t, amount) := DoMintClaim(c, s, from, n, tx, address, value).value;
    WriteOn(s.claims, (n, tx), ClaimRecord(address, amount, false), n);
  }

  lemma MintAgrees(
    c: Config, s: Store, t: Store, from: AccountId, n: Network, tx: TxHash, address: EthereumAddress, value: nat)
    requires Agree(s, t, n)
    ensures var r, q := DoMintClaim(c, s, from, n, tx, address, value), DoMintClaim(c, t, from, n, tx, address, value);
            && r.Ok? == q.Ok?
            && (r.Ok? ==> Agree(r.value.0, q.value.0, n))
  {
    SameRecord(s, t, n, tx);
    assert Lookup(s.limits, n) == Lookup(t.limits, n) && Lookup(s.fees, n) == Lookup(t.fees, n)
           && Lookup(s.bridges, n) == Lookup(t.bridges, n);
    if DoMintClaim(c, s, from, n, tx, address, value).Ok? {
      MintedView(c, s, from, n, tx, address, value);
      MintedView(c, t, from, n, tx, address, value);
    }
  }

  lemma ClaimAgrees(c: Config, s: Store, t: Store, n: Network, dest: AccountId, tx: TxHash, sig: Signature)
    requires Agree(s, t, n)
    ensures var r, q := DoClaim(c, s, n, dest, tx, sig), DoClaim(c, t, n, dest, tx, sig);
            && r.Ok? == q.Ok?
            && (r.Ok? ==> Agree(r.value.0, q.value.0, n))
  {
    SameRecord(s, t, n, tx);
    if (n, tx) in s.claims {
      WriteOn(s.claims, (n, tx), s.claims[(n, tx)].(claimed := true), n);
      WriteOn(t.claims, (n, tx), s.claims[(n, tx)].(claimed := true), n);
    }
  }

  lemma ImportAgrees(s: Store, t: Store)
    requires ClaimsOn(s.claims, BSC) == ClaimsOn(t.claims, BSC) && s.legacy == t.legacy
    ensures ClaimsOn(s.claims + Imported(s.claims, s.legacy.claims), BSC)
         == ClaimsOn(t.claims + Imported(t.claims, t.legacy.claims), BSC)
  {
    forall tx: TxHash ensures (BSC, tx) in s.claims <==> (BSC, tx) in t.claims {
      SameRecord(s, t, BSC, tx);
    }
    assert Imported(s.claims, s.legacy.claims) == Imported(t.claims, t.legacy.claims);
    ImportOn(s, BSC);
    ImportOn(t, BSC);
  }

  lemma CopiedConfigAgrees(s: Store, t: Store, v1: Legacy)
    requires Lookup(s.limits, BSC) == Lookup(t.limits, BSC)
    requires Lookup(s.fees, BSC) == Lookup(t.fees, BSC)
    requires Lookup(s.bridges, BSC) == Lookup(t.bridges, BSC)
    ensures Lookup(CopyLimit(s.limits, v1.limit), BSC) == Lookup(CopyLimit(t.limits, v1.limit), BSC)
    ensures Lookup(CopyBridge(s.bridges, v1.bridge), BSC) == Lookup(CopyBridge(t.bridges, v1.bridge), BSC)
    ensures Lookup(CopyFees(s.fees, v1.mintFee, v1.burnFee), BSC)
         == Lookup(CopyFees(t.fees, v1.mintFee, v1.burnFee), BSC)
  {
  }

  lemma MigrationAgrees(s: Store, t: Store)
    requires Agree(s, t, BSC)
    ensures Agree(Migrate(s), Migrate(t), BSC)
  {
    ImportAgrees(s, t);
    CopiedConfigAgrees(s, t, s.legacy);
  }

  lemma SetterAgrees(c: Config, s: Store, t: Store, origin: Origin, call: Call)
    requires Agree(s, t, call.network)
    requires call.SetBridgeAccount? || call.SetClaimLimit? || call.SetBridgeFee?
    ensures Agree(Next(c, s, Dispatch(origin, call)), Next(c, t, Dispatch(origin, call)), call.network)
  {
  }

  lemma BurnAgrees(c: Config, s: Store, who: AccountId, network: Network, amount: nat, n: Network)
    requires DoBurn(c, s, who, network, amount).Ok?
    ensures Agree(s, DoBurn(c, s, who, network, amount).value.0, n)
  {
  }

  lemma OwnCallAgrees(c: Config, s: Store, t: Store, origin: Origin, call: Call)
    requires Agree(s, t, call.network)
    ensures Agree(Next(c, s, Dispatch(origin, call)), Next(c, t, Dispatch(origin, call)), call.network)
  {
    match call
    case Mint(n, tx, address, value) =>
      if origin.Signed? {
        MintAgrees(c, s, t, origin.who, n, tx, address, value);
      }
    case Claim(n, dest, tx, sig) => ClaimAgrees(c, s, t, n, dest, tx, sig);
    case Burn(n, _, amount) =>
      if origin.Signed? {
        if DoBurn(c, s, origin.who, n, amount).Ok? {
          BurnAgrees(c, s, origin.who, n, amount, n);
        }
        if DoBurn(c, t, origin.who, n, amount).Ok? {
          BurnAgrees(c, t, origin.who, n, amount, n);
        }
      }
    case _ => SetterAgrees(c, s, t, origin, call);
  }

  lemma OwnStepAgrees(c: Config, s: Store, t: Store, step: Step, n: Network)
    requires Names(step, n) && Agree(s, t, n)
    ensures Agree(Next(c, s, step), Next(c, t, step), n)
  {
    match step
    case RuntimeUpgrade => MigrationAgrees(s, t);
    case Dispatch(origin, call) => OwnCallAgrees(c, s, t, origin, call);
  }

  /**
   After any interleaving, a network's claims, limit, fees and bridge account are those produced by
   the steps that name this network alone.
   */
  lemma {:induction false} NetworksAreIndependent(c: Config, s: Store, t: Store, steps: seq<Step>, n: Network)
    requires Agree(s, t, n)
    ensures Agree(Run(c, s, steps), Run(c, t, Only(steps, n)), n)
    decreases |steps|
  {
    if steps != [] {
      var step, rest := steps[0], steps[1..];
      if Names(step, n) {
        OwnStepAgrees(c, s, t, step, n);
        NetworksAreIndependent(c, Next(c, s, step), Next(c, t, step), rest, n);
        assert Only(steps, n)[0] == step && Only(steps, n)[1..] == Only(rest, n);
      } else {
        ForeignStep(c, s, step, n);
        NetworksAreIndependent(c, Next(c, s, step), t, rest, n);
        assert Only(steps, n) == Only(rest, n);
      }
    }
  }

  // ---------- The migration ----------

  /** Migrating again changes nothing, whatever ran in between. */
  lemma {:induction false} MigrationIsOneShot(c: Config, s: Store, steps: seq<Step>)
    ensures var t := Run(c, Migrate(s), steps);
            t.version >= 2 && Migrate(t) == t
    decreases |steps|
  {
    MigratedStaysMigrated(c, Migrate(s), steps);
  }

  lemma {:induction false} MigratedStaysMigrated(c: Config, s: Store, steps: seq<Step>)
    requires s.version >= 2
    ensures Run(c, s, steps).version >= 2
    decreases |steps|
  {
    if steps != [] {
      MigratedStaysMigrated(c, Next(c, s, steps[0]), steps[1..]);
    }
  }

  /** A legacy transaction that the migration copies is never minted again, and if settled never paid again. */
  lemma MigratedClaimsStaySettled(c: Config, s: Store, steps: seq<Step>, tx: TxHash)
    requires s.version < 2 && (BSC, tx) in Imported(s.claims, s.legacy.claims)
    ensures var events, record := Events(c, Migrate(s), steps), s.legacy.claims[tx].value;
            && Mintings(events, (BSC, tx)) == 0
            && (record.claimed ==> PaidOn(events, (BSC, tx)) == 0)
            && (!record.claimed ==> PaidOn(events, (BSC, tx)) <= record.amount)
  {
    assert (BSC, tx) in Migrate(s).claims && Migrate(s).claims[(BSC, tx)] == s.legacy.claims[tx].value;
    MintedAtMostOnce(c, Migrate(s), steps, (BSC, tx));
    PaidAtMostOnce(c, Migrate(s), steps, (BSC, tx));
    RunExtends(c, Migrate(s), steps);
  }
}
