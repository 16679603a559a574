/** The effect of each step of the claims pallet, read off the event it emits. */
module ClaimsEffects {
  import opened Primitives
  import opened SignableMessage
  import opened Claims

  /** `t` is `s` after a step that emitted `event`, in all but limits, fees and bridge accounts. */
  ghost predicate Effect(c: Config, s: Store, t: Store, event: Event) {
    match event
    case Failed(_) => t == s
    case Configured => t.claims == s.claims && t.balances == s.balances
    case Minted(k, address, value, amount) =>
      && k !in s.claims && amount <= value
      && t.claims == s.claims[k := ClaimRecord(address, amount, false)]
      && t.balances == if amount < value then Deposit(s.balances, c.feeAccount, value - amount) else s.balances
    case Claimed(k, dest, signer, amount) =>
      && k in s.claims && s.claims[k] == ClaimRecord(signer, amount, false)
      && t.claims == s.claims[k := ClaimRecord(signer, amount, true)]
      && t.balances == Deposit(s.balances, dest, amount)
    case Burned(_, who, _, gross, net) =>
      && net <= gross <= ReadOrZero(s.balances, who)
      && t.claims == s.claims
      && var withdrawn := s.balances[who := ReadOrZero(s.balances, who) - gross];
         t.balances == if net < gross then Deposit(withdrawn, c.feeAccount, gross - net) else withdrawn
    case Migrated(imported) =>
      && (forall k :: k in imported ==> k !in s.claims)
      && t.claims == s.claims + imported
      && t.balances == s.balances
  }

  lemma MintEffect(
    c: Config, s: Store, from: AccountId, network: Network, tx: TxHash, address: EthereumAddress, value: nat)
    requires DoMintClaim(c, s, from, network, tx, address, value).Ok?
    ensures var (t, amount) := DoMintClaim(c, s, from, network, tx, address, value).value;
            Effect(c, s, t, Minted((network, tx), address, value, amount))
  {
  }

  lemma ClaimEffect(c: Config, s: Store, network: Network, dest: AccountId, tx: TxHash, sig: Signature)
    requires DoClaim(c, s, network, dest, tx, sig).Ok?
    ensures var (t, signer, amount) := DoClaim(c, s, network, dest, tx, sig).value;
            Effect(c, s, t, Claimed((network, tx), dest, signer, amount))
  {
  }

  lemma BurnEffect(c: Config, s: Store, who: AccountId, network: Network, recipient: EthereumAddress, amount: nat)
    requires DoBurn(c, s, who, network, amount).Ok?
    ensures var (t, net) := DoBurn(c, s, who, network, amount).value;
            Effect(c, s, t, Burned(network, who, recipient, amount, net))
  {
  }

  lemma MigrationEffect(c: Config, s: Store)
    ensures Effect(c, s, Migrate(s), Migrated(if s.version >= 2 then map[] else Imported(s.claims, s.legacy.claims)))
  {
    if s.version >= 2 {
      assert s.claims + map[] == s.claims;
    }
  }

  lemma CallEffect(c: Config, s: Store, origin: Origin, call: Call)
    requires DispatchCall(c, s, origin, call).Ok?
    ensures var (t, event) := DispatchCall(c, s, origin, call).value;
            Effect(c, s, t, event)
  {
    match call
    case Mint(network, tx, address, value) => MintEffect(c, s, origin.who, network, tx, address, value);
    case Claim(network, dest, tx, sig) => ClaimEffect(c, s, network, dest, tx, sig);
    case Burn(network, recipient, amount) => BurnEffect(c, s, origin.who, network, recipient, amount);
    case _ =>
  }

  lemma StepEffect(c: Config, s: Store, step: Step)
    ensures Effect(c, s, Next(c, s, step), EventOf(c, s, step))
  {
    match step
    case RuntimeUpgrade => MigrationEffect(c, s);
    case Dispatch(origin, call) =>
      if DispatchCall(c, s, origin, call).Ok? {
        CallEffect(c, s, origin, call);
      }
  }
}
