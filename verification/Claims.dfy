/**
 The bridge claims pallet (modules/claims/src/lib.rs) as a state machine over its storage.

 Signature recovery is an uninterpreted function of the signature and the signed message. Balances
 form an exact ledger with no existential deposit.
 */
module Claims {
  import opened Primitives
  import opened SignableMessage

  datatype Network = BSC | Ethereum

  type Key = (Network, TxHash)

  datatype ClaimRecord = ClaimRecord(address: EthereumAddress, amount: nat, claimed: bool)

  datatype Fees = Fees(mint: nat, burn: nat)

  /** The storage of version 1, before networks were told apart. */
  datatype Legacy = Legacy(
    claims: map<TxHash, Option<ClaimRecord>>,
    limit: nat,
    mintFee: Option<nat>,
    burnFee: Option<nat>,
    bridge: Option<AccountId>)

  datatype Store = Store(
    claims: map<Key, ClaimRecord>,
    limits: map<Network, nat>,
    fees: map<Network, Fees>,
    bridges: map<Network, AccountId>,
    legacy: Legacy,
    version: nat,
    balances: map<AccountId, nat>)

  datatype Config = Config(
    recover: (Signature, seq<byte>) -> Option<EthereumAddress>,
    prefix: seq<byte>,
    feeAccount: AccountId)

  datatype Error =
    | BadOrigin | NoPermission | AlreadyMinted | AlreadyClaimed | ClaimLimitExceeded | TxNotMinted
    | InvalidEthereumSignature | SignatureNotMatch | InvalidAmount | InsufficientBalance

  datatype ValidityError = BadSignature | SignerHasNoClaim | NotSigner | TxClaimed

  datatype Origin = Root | Signed(who: AccountId) | Unsigned

  datatype Call =
    | SetBridgeAccount(network: Network, to: AccountId)
    | SetClaimLimit(network: Network, limit: nat)
    | SetBridgeFee(network: Network, fees: Fees)
    | Mint(network: Network, tx: TxHash, address: EthereumAddress, value: nat)
    | Claim(network: Network, dest: AccountId, tx: TxHash, sig: Signature)
    | Burn(network: Network, recipient: EthereumAddress, amount: nat)

  datatype Step = Dispatch(origin: Origin, call: Call) | RuntimeUpgrade

  /** What a step did: `value` and `gross` are what the caller asked for, `amount` and `net` what is left after fees. */
  datatype Event =
    | Configured
    | Minted(key: Key, address: EthereumAddress, value: nat, amount: nat)
    | Claimed(key: Key, dest: AccountId, signer: EthereumAddress, amount: nat)
    | Burned(network: Network, who: AccountId, recipient: EthereumAddress, gross: nat, net: nat)
    | Migrated(imported: map<Key, ClaimRecord>)
    | Failed(error: Error)

  function SaturatingSub(x: nat, y: nat): nat {
    if x < y then 0 else x - y
  }

  function FeesOf(s: Store, network: Network): Fees {
    if network in s.fees then s.fees[network] else Fees(0, 0)
  }

  function Deposit(balances: map<AccountId, nat>, who: AccountId, amount: nat): map<AccountId, nat> {
    balances[who := ReadOrZero(balances, who) + amount]
  }

  /** `Some(left)` is what remains of `value` after the fee; a nonzero fee must leave something. */
  function TakeFee(value: nat, fee: nat): Option<nat> {
    if fee == 0 then Some(value)
    else if value <= fee then None
    else Some(SaturatingSub(value, fee))
  }

  function DoMintClaim(
    c: Config, s: Store, from: AccountId, network: Network, tx: TxHash, address: EthereumAddress, value: nat)
    : Result<(Store, nat), Error>
  {
    if network !in s.bridges || s.bridges[network] != from then Err(NoPermission)
    else if (network, tx) in s.claims then Err(AlreadyMinted)
    else if ReadOrZero(s.limits, network) < value then Err(ClaimLimitExceeded)
    else
      var fee := FeesOf(s, network).mint;
      match TakeFee(value, fee)
      case None => Err(InvalidAmount)
      case Some(amount) =>
        Ok((s.(claims := s.claims[(network, tx) := ClaimRecord(address, amount, false)],
               limits := s.limits[network := SaturatingSub(ReadOrZero(s.limits, network), amount)],
               balances := if fee > 0 then Deposit(s.balances, c.feeAccount, fee) else s.balances),
            amount))
  }

  function DoClaim(c: Config, s: Store, network: Network, dest: AccountId, tx: TxHash, sig: Signature)
    : Result<(Store, EthereumAddress, nat), Error>
  {
    if (network, tx) !in s.claims then Err(TxNotMinted)
    else
      var record := s.claims[(network, tx)];
      if record.claimed then Err(AlreadyClaimed)
      else
        match c.recover(sig, ClaimMessage(c.prefix, dest, tx))
        case None => Err(InvalidEthereumSignature)
        case Some(signer) =>
          if record.address != signer then Err(SignatureNotMatch)
          else
            Ok((s.(claims := s.claims[(network, tx) := record.(claimed := true)],
                   balances := Deposit(s.balances, dest, record.amount)),
                signer, record.amount))
  }

  function DoBurn(c: Config, s: Store, who: AccountId, network: Network, amount: nat): Result<(Store, nat), Error> {
    var fee := FeesOf(s, network).burn;
    match TakeFee(amount, fee)
    case None => Err(InvalidAmount)
    case Some(net) =>
      if ReadOrZero(s.balances, who) < amount then Err(InsufficientBalance)
      else
        var withdrawn := s.balances[who := ReadOrZero(s.balances, who) - amount];
        Ok((s.(balances := if fee > 0 then Deposit(withdrawn, c.feeAccount, fee) else withdrawn), net))
  }

  /** `do_validate`: the transaction pool's view of a claim; it names the signer it provides. */
  function DoValidate(c: Config, s: Store, network: Network, account: AccountId, tx: TxHash, sig: Signature)
    : Result<EthereumAddress, ValidityError>
  {
    match c.recover(sig, ClaimMessage(c.prefix, account, tx))
    case None => Err(BadSignature)
    case Some(signer) =>
      if (network, tx) !in s.claims then Err(SignerHasNoClaim)
      else if s.claims[(network, tx)].address != signer then Err(NotSigner)
      else if s.claims[(network, tx)].claimed then Err(TxClaimed)
      else Ok(signer)
  }

  function DispatchCall(c: Config, s: Store, origin: Origin, call: Call): Result<(Store, Event), Error> {
    match call
    case SetBridgeAccount(network, to) =>
      if !origin.Root? then Err(BadOrigin)
      else Ok((s.(bridges := s.bridges[network := to]), Configured))
    case SetClaimLimit(network, limit) =>
      if !origin.Root? then Err(BadOrigin)
      else Ok((s.(limits := s.limits[network := limit]), Configured))
    case SetBridgeFee(network, fees) =>
      if !origin.Root? then Err(BadOrigin)
      else Ok((s.(fees := s.fees[network := fees]), Configured))
    case Mint(network, tx, address, value) =>
      if !origin.Signed? then Err(BadOrigin)
      else
        var (t, amount) :- DoMintClaim(c, s, origin.who, network, tx, address, value);
        Ok((t, Minted((network, tx), address, value, amount)))
    case Claim(network, dest, tx, sig) =>
      if !origin.Unsigned? then Err(BadOrigin)
      else
        var (t, signer, amount) :- DoClaim(c, s, network, dest, tx, sig);
        Ok((t, Claimed((network, tx), dest, signer, amount)))
    case Burn(network, recipient, amount) =>
      if !origin.Signed? then Err(BadOrigin)
      else
        var (t, net) :- DoBurn(c, s, origin.who, network, amount);
        Ok((t, Burned(network, origin.who, recipient, amount, net)))
  }

  /** The BSC keys of a set of transactions. */
  function KeysOf(txs: set<TxHash>): (keys: set<Key>)
    ensures forall k: Key :: k in keys <==> k.0 == BSC && k.1 in txs
  {
    set tx | tx in txs :: (BSC, tx)
  }

  /** The legacy claims that the migration copies: those whose transaction has no BSC record yet. */
  function Imported(claims: map<Key, ClaimRecord>, legacy: map<TxHash, Option<ClaimRecord>>): map<Key, ClaimRecord> {
    map k | k in KeysOf(legacy.Keys) && k !in claims && legacy[k.1].Some? :: legacy[k.1].value
  }

  function CopyLimit(limits: map<Network, nat>, limit: nat): map<Network, nat> {
    if limit > 0 then limits[BSC := limit] else limits
  }

  function CopyBridge(bridges: map<Network, AccountId>, bridge: Option<AccountId>): map<Network, AccountId> {
    if bridge.Some? && BSC !in bridges then bridges[BSC := bridge.value] else bridges
  }

  function CopyFees(fees: map<Network, Fees>, mint: Option<nat>, burn: Option<nat>): map<Network, Fees> {
    var v1 := Fees(if mint.Some? then mint.value else 0, if burn.Some? then burn.value else 0);
    if (v1.mint > 0 || v1.burn > 0) && BSC !in fees then fees[BSC := v1] else fees
  }

  /** `on_runtime_upgrade`. The legacy limit is copied but, unlike the rest, not removed. */
  function Migrate(s: Store): Store {
    if s.version >= 2 then s
    else
      s.(claims := s.claims + Imported(s.claims, s.legacy.claims),
         limits := CopyLimit(s.limits, s.legacy.limit),
         bridges := CopyBridge(s.bridges, s.legacy.bridge),
         fees := CopyFees(s.fees, s.legacy.mintFee, s.legacy.burnFee),
         legacy := Legacy(map[], s.legacy.limit, None, None, None),
         version := 2)
  }

  /** A step on the store; every call is transactional. */
  function Apply(c: Config, s: Store, step: Step): (Store, Event) {
    match step
    case RuntimeUpgrade => (Migrate(s), Migrated(if s.version >= 2 then map[] else Imported(s.claims, s.legacy.claims)))
    case Dispatch(origin, call) =>
      match DispatchCall(c, s, origin, call)
      case Ok((t, event)) => (t, event)
      case Err(e) => (s, Failed(e))
  }

  function Next(c: Config, s: Store, step: Step): Store {
    Apply(c, s, step).0
  }

  function EventOf(c: Config, s: Store, step: Step): Event {
    Apply(c, s, step).1
  }

  function Run(c: Config, s: Store, steps: seq<Step>): Store
    decreases |steps|
  {
    if steps == [] then s else Run(c, Next(c, s, steps[0]), steps[1..])
  }

  function Events(c: Config, s: Store, steps: seq<Step>): (events: seq<Event>)
    ensures |events| == |steps|
    decreases |steps|
  {
    if steps == [] then [] else [EventOf(c, s, steps[0])] + Events(c, Next(c, s, steps[0]), steps[1..])
  }
}
