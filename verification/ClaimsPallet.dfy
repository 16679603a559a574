/**
 The storage of the claims pallet and the calls that update it in place, each proved against its
 function in module `Claims`.
 */
module ClaimsPallet {
  import opened Primitives
  import opened SignableMessage
  import opened Claims

  /** What has been copied once the legacy transactions in `done` were visited, in whatever order. */
  function Copied(claims: map<Key, ClaimRecord>, legacy: map<TxHash, Option<ClaimRecord>>, done: set<TxHash>)
    : map<Key, ClaimRecord>
  {
    claims + map k | k in KeysOf(done * legacy.Keys) && k !in claims && legacy[k.1].Some? :: legacy[k.1].value
  }

  lemma CopyOne(claims: map<Key, ClaimRecord>, legacy: map<TxHash, Option<ClaimRecord>>, done: set<TxHash>, tx: TxHash)
    requires tx in legacy && tx !in done
    ensures var r := Copied(claims, legacy, done);
            Copied(claims, legacy, done + {tx}) ==
              if (BSC, tx) !in r && legacy[tx].Some? then r[(BSC, tx) := legacy[tx].value] else r
  {
  }

  lemma CopyStep(
    claims: map<Key, ClaimRecord>, legacy: map<TxHash, Option<ClaimRecord>>, pending: set<TxHash>, tx: TxHash)
    requires tx in pending && pending <= legacy.Keys
    ensures var r := Copied(claims, legacy, legacy.Keys - pending);
            Copied(claims, legacy, legacy.Keys - (pending - {tx})) ==
              if (BSC, tx) !in r && legacy[tx].Some? then r[(BSC, tx) := legacy[tx].value] else r
  {
    CopyOne(claims, legacy, legacy.Keys - pending, tx);
    assert legacy.Keys - (pending - {tx}) == legacy.Keys - pending + {tx};
  }

  lemma CopyEnds(claims: map<Key, ClaimRecord>, legacy: map<TxHash, Option<ClaimRecord>>)
    ensures Copied(claims, legacy, legacy.Keys - legacy.Keys) == claims
    ensures Copied(claims, legacy, legacy.Keys - {}) == claims + Imported(claims, legacy)
  {
    assert (legacy.Keys - {}) * legacy.Keys == legacy.Keys;
  }

  class Pallet {
    const config: Config

    var elasticClaims: map<Key, ClaimRecord>
    var elasticClaimLimits: map<Network, nat>
    var bridgeFees: map<Network, Fees>
    var elasticBridgeAccounts: map<Network, AccountId>
    /** The version 1 items: claims, limit, fees and bridge account. */
    var legacy: Legacy
    var storageVersion: nat
    var balances: map<AccountId, nat>

    constructor (config: Config, legacy: Legacy, balances: map<AccountId, nat>)
      ensures this.config == config
      ensures View() == Store(map[], map[], map[], map[], legacy, 1, balances)
    {
      this.config := config;
      elasticClaims, elasticClaimLimits, bridgeFees, elasticBridgeAccounts := map[], map[], map[], map[];
      this.legacy := legacy;
      storageVersion := 1;
      this.balances := balances;
    }

    function View(): Store
      reads this
    {
      Store(elasticClaims, elasticClaimLimits, bridgeFees, elasticBridgeAccounts,
            legacy, storageVersion, balances)
    }

    /** The storage and the answer are those of dispatching `call`; an error changes nothing. */
    twostate predicate Follows(origin: Origin, call: Call, new r: Result<Event, Error>)
      reads this
    {
      match DispatchCall(config, old(View()), origin, call)
      case Ok((t, event)) => r == Ok(event) && View() == t
      case Err(e) => r == Err(e) && View() == old(View())
    }

    method SetBridgeAccountElastic(origin: Origin, network: Network, to: AccountId) returns (r: Result<Event, Error>)
      modifies this
      ensures Follows(origin, SetBridgeAccount(network, to), r)
    {
      if !origin.Root? {
        return Err(BadOrigin);
      }
      elasticBridgeAccounts := elasticBridgeAccounts[network := to];
      return Ok(Configured);
    }

    method SetClaimLimitElastic(origin: Origin, network: Network, limit: nat) returns (r: Result<Event, Error>)
      modifies this
      ensures Follows(origin, SetClaimLimit(network, limit), r)
    {
      if !origin.Root? {
        return Err(BadOrigin);
      }
      elasticClaimLimits := elasticClaimLimits[network := limit];
      return Ok(Configured);
    }

    method SetBridgeFeeElastic(origin: Origin, network: Network, fees: Fees) returns (r: Result<Event, Error>)
      modifies this
      ensures Follows(origin, SetBridgeFee(network, fees), r)
    {
      if !origin.Root? {
        return Err(BadOrigin);
      }
      bridgeFees := bridgeFees[network := fees];
      return Ok(Configured);
    }

    method MintClaimElastic(origin: Origin, network: Network, tx: TxHash, address: EthereumAddress, value: nat)
      returns (r: Result<Event, Error>)
      modifies this
      ensures Follows(origin, Mint(network, tx, address, value), r)
    {
      if !origin.Signed? {
        return Err(BadOrigin);
      }
      if network !in elasticBridgeAccounts || elasticBridgeAccounts[network] != origin.who {
        return Err(NoPermission);
      }
      if (network, tx) in elasticClaims {
        return Err(AlreadyMinted);
      }
      if ReadOrZero(elasticClaimLimits, network) < value {
        return Err(ClaimLimitExceeded);
      }
      var amount, fee := value, if network in bridgeFees then bridgeFees[network].mint else 0;
      if fee > 0 {
        if value <= fee {
          return Err(InvalidAmount);
        }
        amount := SaturatingSub(value, fee);
      }
      elasticClaims := elasticClaims[(network, tx) := ClaimRecord(address, amount, false)];
      elasticClaimLimits :=
        elasticClaimLimits[network := SaturatingSub(ReadOrZero(elasticClaimLimits, network), amount)];
      if fee > 0 {
        balances := Deposit(balances, config.feeAccount, fee);
      }
      return Ok(Minted((network, tx), address, value, amount));
    }

    /** The signer recovered from the signature of a claim message. */
    method EthRecover(sig: Signature, dest: AccountId, tx: TxHash) returns (signer: Option<EthereumAddress>)
      ensures signer == config.recover(sig, ClaimMessage(config.prefix, dest, tx))
    {
      var data := ToAsciiHex(dest);
      var txData := ToAsciiHex(tx);
      var message := EthereumSignableMessage(config.prefix, data, txData);
      signer := config.recover(sig, message);
    }

    method ClaimElastic(origin: Origin, network: Network, dest: AccountId, tx: TxHash, sig: Signature)
      returns (r: Result<Event, Error>)
      modifies this
      ensures Follows(origin, Claim(network, dest, tx, sig), r)
    {
      if !origin.Unsigned? {
        return Err(BadOrigin);
      }
      if (network, tx) !in elasticClaims {
        return Err(TxNotMinted);
      }
      var record := elasticClaims[(network, tx)];
      if record.claimed {
        return Err(AlreadyClaimed);
      }
      var signer := EthRecover(sig, dest, tx);
      if signer.None? {
        return Err(InvalidEthereumSignature);
      }
      if record.address != signer.value {
        return Err(SignatureNotMatch);
      }
      balances := Deposit(balances, dest, record.amount);
      elasticClaims := elasticClaims[(network, tx) := record.(claimed := true)];
      return Ok(Claimed((network, tx), dest, signer.value, record.amount));
    }

    method BurnElastic(origin: Origin, network: Network, recipient: EthereumAddress, amount: nat)
      returns (r: Result<Event, Error>)
      modifies this
      ensures Follows(origin, Burn(network, recipient, amount), r)
    {
      if !origin.Signed? {
        return Err(BadOrigin);
      }
      var net, fee := amount, if network in bridgeFees then bridgeFees[network].burn else 0;
      if fee > 0 {
        if amount <= fee {
          return Err(InvalidAmount);
        }
        net := SaturatingSub(amount, fee);
      }
      var who := origin.who;
      if ReadOrZero(balances, who) < amount {
        return Err(InsufficientBalance);
      }
      balances := balances[who := ReadOrZero(balances, who) - amount];
      if fee > 0 {
        balances := Deposit(balances, config.feeAccount, fee);
      }
      return Ok(Burned(network, who, recipient, amount, net));
    }

    /** `validate_unsigned` for a claim: reads only. */
    method Validate(network: Network, account: AccountId, tx: TxHash, sig: Signature)
      returns (r: Result<EthereumAddress, ValidityError>)
      ensures r == DoValidate(config, View(), network, account, tx, sig)
    {
      var signer := EthRecover(sig, account, tx);
      if signer.None? {
        return Err(BadSignature);
      }
      if (network, tx) !in elasticClaims {
        return Err(SignerHasNoClaim);
      }
      var record := elasticClaims[(network, tx)];
      if record.address != signer.value {
        return Err(NotSigner);
      }
      if record.claimed {
        return Err(TxClaimed);
      }
      return Ok(signer.value);
    }

    /** The migration runs once; everything it copies, it copies to BSC. */
    method OnRuntimeUpgrade()
      modifies this
      ensures View() == Migrate(old(View()))
    {
      if storageVersion >= 2 {
        return;
      }
      elasticClaims := CopyClaims(elasticClaims, legacy.claims);
      MoveConfiguration();
    }

    method MoveConfiguration()
      modifies this
      ensures var s := old(View());
              View() == s.(limits := CopyLimit(s.limits, s.legacy.limit),
                           bridges := CopyBridge(s.bridges, s.legacy.bridge),
                           fees := CopyFees(s.fees, s.legacy.mintFee, s.legacy.burnFee),
                           legacy := Legacy(map[], s.legacy.limit, None, None, None),
                           version := 2)
    {
      if legacy.limit > 0 {
        elasticClaimLimits := elasticClaimLimits[BSC := legacy.limit];
      }
      if legacy.bridge.Some? && BSC !in elasticBridgeAccounts {
        elasticBridgeAccounts := elasticBridgeAccounts[BSC := legacy.bridge.value];
      }
      var mintFee := if legacy.mintFee.Some? then legacy.mintFee.value else 0;
      var burnFee := if legacy.burnFee.Some? then legacy.burnFee.value else 0;
      if (mintFee > 0 || burnFee > 0) && BSC !in bridgeFees {
        bridgeFees := bridgeFees[BSC := Fees(mintFee, burnFee)];
      }
      legacy := Legacy(map[], legacy.limit, None, None, None);
      storageVersion := 2;
    }
  }

  /** Visits the legacy claims in an arbitrary order; the outcome does not depend on it. */
  method CopyClaims(elastic: map<Key, ClaimRecord>, legacy: map<TxHash, Option<ClaimRecord>>)
    returns (r: map<Key, ClaimRecord>)
    ensures r == elastic + Imported(elastic, legacy)
  {
    r := elastic;
    var pending := legacy.Keys;
    CopyEnds(elastic, legacy);
    while pending != {}
      invariant pending <= legacy.Keys
      invariant r == Copied(elastic, legacy, legacy.Keys - pending)
      decreases |pending|
    {
      var tx :| tx in pending;
      CopyStep(elastic, legacy, pending, tx);
      if (BSC, tx) !in r && legacy[tx].Some? {
        r := r[(BSC, tx) := legacy[tx].value];
      }
      pending := pending - {tx};
    }
  }
}
