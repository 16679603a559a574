/** The outcome of every call of the claims pallet, read off the storage, and who may change the configuration. */
module ClaimsOutcomes {
  import opened Primitives
  import opened SignableMessage
  import opened Claims
  import opened ClaimsLaws
  import opened ClaimsNetworks

  // ---------- Mint, claim, burn ----------

  /** What `a` holds after `loser` loses one amount and `winner` gains another. */
  function Moved(balances: map<AccountId, nat>, loser: AccountId, loss: nat, winner: AccountId, gain: nat, a: AccountId)
    : int
  {
    ReadOrZero(balances, a) - (if a == loser then loss else 0) + (if a == winner then gain else 0)
  }

  /** Everything that a mint, a claim or a burn leaves alone, besides records, limits and balances. */
  ghost predicate SameConfiguration(s: Store, t: Store) {
    t.fees == s.fees && t.bridges == s.bridges && t.legacy == s.legacy && t.version == s.version
  }

  /**
   A mint takes the mint fee configured for its network, and succeeds exactly when the bridge account sends it for a new
   transaction, within the limit and above a nonzero fee.
   */
  lemma MintOutcome(c: Config, s: Store, origin: Origin, n: Network, tx: TxHash, address: EthereumAddress, value: nat)
    ensures var r := DispatchCall(c, s, origin, Mint(n, tx, address, value));
            var fee := if n in s.fees then s.fees[n].mint else 0;
            if !origin.Signed? then r == Err(BadOrigin)
            else if Lookup(s.bridges, n) != Some(origin.who) then r == Err(NoPermission)
            else if (n, tx) in s.claims then r == Err(AlreadyMinted)
            else if value > ReadOrZero(s.limits, n) then r == Err(ClaimLimitExceeded)
            else if fee > 0 && value <= fee then r == Err(InvalidAmount)
            else
              && r.Ok? && r.value.1 == Minted((n, tx), address, value, value - fee)
              && var t := r.value.0;
              && SameConfiguration(s, t)
              && t.claims == s.claims[(n, tx) := ClaimRecord(address, value - fee, false)]
              && t.limits == s.limits[n := ReadOrZero(s.limits, n) - (value - fee)]
              && forall a :: ReadOrZero(t.balances, a) == Moved(s.balances, a, 0, c.feeAccount, fee, a)
  {
  }

  /** A claim succeeds exactly for an open record whose address signed this account and transaction. */
  lemma ClaimOutcome(c: Config, s: Store, origin: Origin, n: Network, dest: AccountId, tx: TxHash, sig: Signature)
    ensures var r := DispatchCall(c, s, origin, Claim(n, dest, tx, sig));
            var signer := c.recover(sig, ClaimMessage(c.prefix, dest, tx));
            if !origin.Unsigned? then r == Err(BadOrigin)
            else if (n, tx) !in s.claims then r == Err(TxNotMinted)
            else if Settled(s, (n, tx)) then r == Err(AlreadyClaimed)
            else if signer == None then r == Err(InvalidEthereumSignature)
            else if signer != Some(s.claims[(n, tx)].address) then r == Err(SignatureNotMatch)
            else
              var amount := s.claims[(n, tx)].amount;
              && r.Ok? && r.value.1 == Claimed((n, tx), dest, signer.value, amount)
              && var t := r.value.0;
              && SameConfiguration(s, t) && t.limits == s.limits
              && t.claims == s.claims[(n, tx) := ClaimRecord(signer.value, amount, true)]
              && forall a :: ReadOrZero(t.balances, a) == Moved(s.balances, a, 0, dest, amount, a)
  {
  }

  /** A burn takes the burn fee configured for its network, and needs the whole amount and more than a nonzero fee. */
  lemma BurnOutcome(c: Config, s: Store, origin: Origin, n: Network, recipient: EthereumAddress, amount: nat)
    ensures var r := DispatchCall(c, s, origin, Burn(n, recipient, amount));
            var fee := if n in s.fees then s.fees[n].burn else 0;
            if !origin.Signed? then r == Err(BadOrigin)
            else if fee > 0 && amount <= fee then r == Err(InvalidAmount)
            else if ReadOrZero(s.balances, origin.who) < amount then r == Err(InsufficientBalance)
            else
              && r.Ok? && r.value.1 == Burned(n, origin.who, recipient, amount, amount - fee)
              && var t := r.value.0;
              && SameConfiguration(s, t) && t.limits == s.limits && t.claims == s.claims
              && forall a :: ReadOrZero(t.balances, a) == Moved(s.balances, origin.who, amount, c.feeAccount, fee, a)
  {
  }

  /** Why validation refuses, in the order it looks. */
  lemma ValidateOutcome(c: Config, s: Store, n: Network, account: AccountId, tx: TxHash, sig: Signature)
    ensures var r, signer := DoValidate(c, s, n, account, tx, sig), c.recover(sig, ClaimMessage(c.prefix, account, tx));
            if signer == None then r == Err(BadSignature)
            else if (n, tx) !in s.claims then r == Err(SignerHasNoClaim)
            else if Some(s.claims[(n, tx)].address) != signer then r == Err(NotSigner)
            else if Settled(s, (n, tx)) then r == Err(TxClaimed)
            else r == Ok(signer.value)
  {
  }

  // ---------- Setters ----------

  predicate IsSetter(call: Call) {
    call.SetBridgeAccount? || call.SetClaimLimit? || call.SetBridgeFee?
  }

  /** Only root sets anything; what it sets is what the network then has, and nothing else changes. */
  lemma SetterOutcome(c: Config, s: Store, origin: Origin, call: Call, n: Network)
    requires IsSetter(call)
    ensures var step := Dispatch(origin, call);
            var t := Next(c, s, step);
            if !origin.Root? then t == s && EventOf(c, s, step) == Failed(BadOrigin)
            else
              && EventOf(c, s, step) == Configured
              && t.claims == s.claims && t.balances == s.balances && t.legacy == s.legacy && t.version == s.version
              && Lookup(t.bridges, n)
                   == (if call.SetBridgeAccount? && n == call.network then Some(call.to) else Lookup(s.bridges, n))
              && Lookup(t.limits, n)
                   == (if call.SetClaimLimit? && n == call.network then Some(call.limit) else Lookup(s.limits, n))
              && Lookup(t.fees, n)
                   == (if call.SetBridgeFee? && n == call.network then Some(call.fees) else Lookup(s.fees, n))
  {
  }

  // ---------- The migration ----------

  /** The migration, item by item: records, limit, bridge account and fees of BSC; the legacy items are cleared. */
  lemma MigrationOutcome(s: Store, k: Key, n: Network)
    requires s.version < 2
    ensures var t, v1 := Migrate(s), s.legacy;
            && t.version == 2 && t.balances == s.balances
            && t.legacy == Legacy(map[], v1.limit, None, None, None)
            && Lookup(t.claims, k)
                 == (if k !in s.claims && k.0 == BSC && k.1 in v1.claims then v1.claims[k.1] else Lookup(s.claims, k))
            && Lookup(t.limits, n)
                 == (if n == BSC && v1.limit > 0 then Some(v1.limit) else Lookup(s.limits, n))
            && Lookup(t.bridges, n)
                 == (if n == BSC && BSC !in s.bridges then v1.bridge else Lookup(s.bridges, n))
            && var mint, burn := if v1.mintFee.Some? then v1.mintFee.value else 0,
                                 if v1.burnFee.Some? then v1.burnFee.value else 0;
               Lookup(t.fees, n)
                 == (if n == BSC && BSC !in s.fees && mint + burn > 0 then Some(Fees(mint, burn))
                     else Lookup(s.fees, n))
  {
  }

  // ---------- Authority over runs ----------

  /** Root sets the bridge account of `n`, or the first migration runs and `n` is BSC. */
  predicate MaySetBridge(s: Store, step: Step, n: Network) {
    match step
    case RuntimeUpgrade => n == BSC && s.version < 2
    case Dispatch(origin, call) => origin.Root? && call.SetBridgeAccount? && call.network == n
  }

  predicate MaySetFees(s: Store, step: Step, n: Network) {
    match step
    case RuntimeUpgrade => n == BSC && s.version < 2
    case Dispatch(origin, call) => origin.Root? && call.SetBridgeFee? && call.network == n
  }

  predicate MaySetLimit(s: Store, step: Step, n: Network) {
    match step
    case RuntimeUpgrade => n == BSC && s.version < 2
    case Dispatch(origin, call) => origin.Root? && call.SetClaimLimit? && call.network == n
  }

  /** What an event mints on network `n`. */
  function MintedBy(event: Event, n: Network): nat {
    if event.Minted? && event.key.0 == n then event.amount else 0
  }

  function MintedOn(events: seq<Event>, n: Network): nat {
    if events == [] then 0 else MintedBy(events[0], n) + MintedOn(events[1..], n)
  }

  lemma CallAuthority(c: Config, s: Store, origin: Origin, call: Call, n: Network)
    ensures var step := Dispatch(origin, call);
            var t := Next(c, s, step);
            && (!MaySetBridge(s, step, n) ==> Lookup(t.bridges, n) == Lookup(s.bridges, n))
            && (!MaySetFees(s, step, n) ==> Lookup(t.fees, n) == Lookup(s.fees, n))
            && (!MaySetLimit(s, step, n) ==>
                  ReadOrZero(t.limits, n) + MintedBy(EventOf(c, s, step), n) == ReadOrZero(s.limits, n))
  {
    match call
    case Mint(m, tx, address, value) => MintOutcome(c, s, origin, m, tx, address, value);
    case Claim(m, dest, tx, sig) => ClaimOutcome(c, s, origin, m, dest, tx, sig);
    case Burn(m, recipient, amount) => BurnOutcome(c, s, origin, m, recipient, amount);
    case _ => SetterOutcome(c, s, origin, call, n);
  }

  lemma StepAuthority(c: Config, s: Store, step: Step, n: Network)
    ensures var t := Next(c, s, step);
            && (!MaySetBridge(s, step, n) ==> Lookup(t.bridges, n) == Lookup(s.bridges, n))
            && (!MaySetFees(s, step, n) ==> Lookup(t.fees, n) == Lookup(s.fees, n))
            && (!MaySetLimit(s, step, n) ==>
                  ReadOrZero(t.limits, n) + MintedBy(EventOf(c, s, step), n) == ReadOrZero(s.limits, n))
  {
    if step.Dispatch? {
      CallAuthority(c, s, step.origin, step.call, n);
    }
  }

  /** A network's bridge account changes only by root or the first migration. */
  lemma {:induction false} BridgeAuthority(c: Config, s: Store, steps: seq<Step>, n: Network) returns (i: nat)
    requires Lookup(Run(c, s, steps).bridges, n) != Lookup(s.bridges, n)
    ensures i < |steps| && MaySetBridge(Run(c, s, steps[..i]), steps[i], n)
    decreases |steps|
  {
    if MaySetBridge(s, steps[0], n) {
      return 0;
    }
    StepAuthority(c, s, steps[0], n);
    var j := BridgeAuthority(c, Next(c, s, steps[0]), steps[1..], n);
    i := j + 1;
    assert steps[..i][0] == steps[0] && steps[..i][1..] == steps[1..][..j];
  }

  /** A network's fees change only by root or the first migration. */
  lemma {:induction false} FeesAuthority(c: Config, s: Store, steps: seq<Step>, n: Network) returns (i: nat)
    requires Lookup(Run(c, s, steps).fees, n) != Lookup(s.fees, n)
    ensures i < |steps| && MaySetFees(Run(c, s, steps[..i]), steps[i], n)
    decreases |steps|
  {
    if MaySetFees(s, steps[0], n) {
      return 0;
    }
    StepAuthority(c, s, steps[0], n);
    var j := FeesAuthority(c, Next(c, s, steps[0]), steps[1..], n);
    i := j + 1;
    assert steps[..i][0] == steps[0] && steps[..i][1..] == steps[1..][..j];
  }

  /** A limit changes by more than what was minted only by root or the first migration. */
  lemma {:induction false} LimitAuthority(c: Config, s: Store, steps: seq<Step>, n: Network) returns (i: nat)
    requires ReadOrZero(Run(c, s, steps).limits, n) + MintedOn(Events(c, s, steps), n) != ReadOrZero(s.limits, n)
    ensures i < |steps| && MaySetLimit(Run(c, s, steps[..i]), steps[i], n)
    decreases |steps|
  {
    if MaySetLimit(s, steps[0], n) {
      return 0;
    }
    StepAuthority(c, s, steps[0], n);
    EventsCons(c, s, steps);
    assert Events(c, s, steps)[1..] == Events(c, Next(c, s, steps[0]), steps[1..]);
    var j := LimitAuthority(c, Next(c, s, steps[0]), steps[1..], n);
    i := j + 1;
    assert steps[..i][0] == steps[0] && steps[..i][1..] == steps[1..][..j];
  }
}
