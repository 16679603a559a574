# Clover pallets: reward pool, bridge claims, EVM accounts

A Dafny model of the stateful core of the Clover chain, with proofs of what it promises over whole runs.

* **Reward pool** (`RewardPool*.dfy`, `LazyAccrual.dfy`, `FixedPoint.dfy`). A pool divides native rewards among
  shares. A joiner adds "virtual" rewards at the current share price and borrows them; leaving and claiming net the
  borrow off. Arithmetic is 18-decimal fixed point with two roundings per operation.
* **Bridge claims** (`Claims*.dfy`). The bridge account of a network mints claim records, whose owners claim them with
  an Ethereum signature; tokens can be burned back; a one-shot migration imports the records of storage version 1.
* **EVM accounts** (`EvmAccounts.dfy`). Two maps bind Substrate accounts and EVM addresses.
* **Signable messages** (`SignableMessage.dfy`). The `personal_sign` framing (version byte `0x45` in the section
  "Specification" of EIP-191), the decimal-length loop and the hex loop that both pallets use.

`dafny verify dfyconfig.toml` checks everything.

## How the model is built

Each pallet has a value-level specification (one function per operation, same branches and same errors as the source)
and a class `Pallet` whose fields are the storage and whose methods update it in place. Every method is proved against
its function, so what is proved about the functions holds of the storage. Operations are transactional: an error leaves
the storage as it was.

Decisions that matter when reading the theorems:

* *Rounding.* The library routine behind `checked_from_rational` and `checked_mul_int` is a parameter `mulDiv`. `Rounds`
  says it stays between floor and ceiling; `Truncates` says it is the floor. Nearly everything holds for all roundings;
  truncation is assumed only where a lemma says so.
* *Ledger.* Balances are exact, with existential deposit 0 as in the runtime. The sub-account of a pool is not a user.
  Crediting it goes through a signed 128-bit amount that saturates; the model keeps the saturation.
* *Books.* `Books` adds to a pool's storage four running totals that the pallet does not store: `writtenOff`,
  `credited`, `paid`, `unbacked`. `Lawful` and `Balanced` are the invariants over them. `Ready` and `Funded` describe
  a lawful pool just before an operation.
* *Recovery.* Keccak and secp256k1 recovery are one uninterpreted function of the signature and the signed message.

## Main results

* The virtual-reward law of the pool holds exactly once the borrow dropped by unpaid removals is counted
  (`EveryRunIsLawful`). The doc comment on `total_rewards_useable` says it equals total rewards minus virtual rewards;
  the code does not keep that when a removal is too small to pay.
* Consequently the last holder can leave with all shares **iff** nothing was ever written off (`SoleHolderExit`), and
  a write-off is for good (`WriteOffIsPermanent`). A short run reaches a state where the only holder can neither remove
  all shares nor claim (`WriteOffStrandsTheLastHolder`).
* Any accounts can claim in one block, in any order, **iff** each is covered and the dues fit (`ClaimAllIff`); with
  truncation and no write-off, covered accounts always can (`EveryoneCanClaim`); with write-offs, at most that much is
  missing (`DuesWithinUseable`). A fresh joiner may be uncovered (`JoinerMayBeUncovered`).
* A comment in the source allocates rewards to the blocks after joining. In a pool with shares that holds up to rounding:
  a joiner starts even (`JoinerStartsEven`), leaving at once pays rounding only (`SameBlockEarnsOnlyRounding`), and
  nobody else's entitlement moves by more than rounding (`JoinMovesOthersByRounding`). In an emptied pool it does not:
  the joiner owns what an unpaid exit left there, and starts even **iff** nothing was left (`JoinEmptyPool`,
  `LeftoverGoesToNextJoiner`). What can be earned that way is at most the existential reward, and only by a claim
  (`EmptyPoolEarnsLittle`, `EmptyPoolClaimIff`).
* Lazy accrual is indistinguishable from accrual at any schedule (`LazyAccrualRefinesAnySchedule`), also for runs whose
  totals overflow, as long as each gap can be credited in one signed amount. That bound is exact
  (`EarlyUpdateIsInvisibleIff`); `SaturationBreaksLaziness` is a run beyond it.
* Claims are minted once and paid once, on a signature of exactly that account and transaction; value is conserved
  and every balance is explained by the events; networks do not interfere; limits are budgets; a claim the
  transaction pool accepts stays valid exactly until it is paid. The signed message does not name the network, so one
  signature serves every network that holds an open record of the same transaction and address
  (`SignatureServesEveryNetwork`, with a run in `OneSignaturePaidTwice`). The outcome of each call is fixed by the
  storage (`ClaimsOutcomes`), and only root or the first migration changes the configuration.
* The two EVM maps stay inverse, and an address comes back from its account **iff** it is mapped or its padded account
  is not; `PaddedSignerShadowsAddress` is a run where it does not.
* Framed messages determine their payload, whatever its bytes.

## Model

| member | source | states |
|---|---|---|
| FixedPoint.ScaleByFraction | modules/reward-pool/src/lib.rs:226-236 | scaling by a fraction at most one never overflows and never exceeds what is scaled, for any rounding |
| FixedPoint.ScaleByOne | modules/reward-pool/src/lib.rs:168-170 | scaling by `n / n` is exact, for any rounding |
| FixedPoint.ScaleError | modules/reward-pool/src/lib.rs:320-326 | the two roundings move `n / d * x` by less than `d * (10^18 + x) / 10^18` once cleared of `d` |
| RewardPoolLaws.UpdateKeepsLaw | modules/reward-pool/src/lib.rs:242-258 | an update keeps the law; the sub-account receives the saturated reward and the excess is unbacked |
| RewardPoolLaws.RemovalOutcome | modules/reward-pool/src/lib.rs:147-210 | a removal within the shares fails only on the borrow subtraction or the useable check, and otherwise moves exactly the entitlement and the released borrow |
| RewardPoolLaws.AddKeepsLaw | modules/reward-pool/src/lib.rs:310-348 | joining keeps the virtual-reward law, the share total and the solvency equation |
| RewardPoolLaws.RemoveKeepsLaw | modules/reward-pool/src/lib.rs:351-374 | leaving keeps them with the write-off of the unpaid branch counted, and what leaves the sub-account is the payout |
| RewardPoolLaws.ClaimKeepsLaw | modules/reward-pool/src/lib.rs:406-449 | claiming keeps them, and what leaves the sub-account is the payout |
| RewardPoolLaws.AdvanceKeepsBalance | modules/reward-pool/src/lib.rs:300-449 | every call keeps the books balanced; write-offs never shrink and grow only in a removal that pays nothing |
| RewardPoolLaws.RunKeepsBalance | modules/reward-pool/src/lib.rs:300-449 | the same over every run from balanced books |
| RewardPoolLaws.EveryRunIsLawful | modules/reward-pool/src/lib.rs:46-55 | after every run from empty storage: total rewards = useable + borrows + write-offs, shares add up, no shares means no borrow, useable = balance + unbacked, paid + balance = credited |
| RewardPoolLaws.RunFollowsStorage | modules/reward-pool/src/lib.rs:302-309 | the books of a run carry exactly the storage that the run leaves |
| RewardPoolProperties.BackedIffAccrualsFit | modules/reward-pool/src/lib.rs:246-252 | the sub-account holds exactly the useable rewards after a run iff every accrual fitted the signed amount |
| RewardPoolProperties.PayoutsAreFunded | modules/reward-pool/src/lib.rs:370-371 | no payout of a funded pool lacks funds |
| RewardPoolProperties.RunPayoutsAreFunded | modules/reward-pool/src/lib.rs:426-446 | over a run from backed books whose successful accruals fit, no call whose own accrual fits is refused for lack of funds |
| RewardPoolProperties.UpdateErrorPropagates | modules/reward-pool/src/lib.rs:315-316 | a failing update refuses every operation with its own error, except a join of nothing |
| RewardPoolProperties.JoinSucceedsIff | modules/reward-pool/src/lib.rs:310-348 | for every holder: when joining succeeds, which error refuses it, and that it moves exactly the amount and the borrow, returns the holder's new shares and touches no other account |
| RewardPoolProperties.RemoveSucceedsIff | modules/reward-pool/src/lib.rs:157-201 | when a removal succeeds and which error refuses it; on success its payout, the shares it returns, the new totals and balance, and that no other account is touched |
| RewardPoolProperties.SoleHolderExit | modules/reward-pool/src/lib.rs:351-374 | the last holder can remove all shares iff nothing was written off, equivalently iff total rewards are useable rewards plus the holder's borrow; a paid exit takes all useable rewards and leaves shares, rewards, useable rewards and balance at zero |
| RewardPoolProperties.SoleHolderClaim | modules/reward-pool/src/lib.rs:406-449 | the last holder's claim succeeds iff nothing was written off or there is too little to send; it then pays all useable rewards or nothing |
| RewardPoolProperties.WriteOffIsPermanent | modules/reward-pool/src/lib.rs:174-182 | after a write-off no run reaches a state where a sole holder can remove all shares |
| RewardPoolProperties.ClaimOutcome | modules/reward-pool/src/lib.rs:406-449 | the exact result and new storage of a claim, in terms of entitlement, borrow, useable rewards and balance |
| RewardPoolProperties.PreviewIsFullRemoval | modules/reward-pool/src/lib.rs:384-404 | a successful removal of everything in the same block pays the preview; in a funded pool a failing one previews zero |
| RewardPoolProperties.PreviewIsClaim | modules/reward-pool/src/lib.rs:384-424 | a successful claim returns the preview, except exactly at a nonzero existential reward; a failing update previews zero, and in a funded pool so does a failing claim |
| RewardPoolProperties.AddSharePriceDrift | modules/reward-pool/src/lib.rs:315-331 | joining moves the share price by less than the stated rounding bound |
| RewardPoolProperties.RemoveSharePriceDrift | modules/reward-pool/src/lib.rs:183-198 | a paid removal moves the share price by less than the stated rounding bound |
| RewardPoolFairness.ClaimStep | modules/reward-pool/src/lib.rs:406-449 | a claim succeeds iff covered and within the useable rewards, returns the due, and moves nobody else's due |
| RewardPoolFairness.ClaimAllIff | modules/reward-pool/src/lib.rs:406-449 | distinct accounts can all claim in a block in any order iff each is covered and the dues fit; each is paid its due |
| RewardPoolFairness.EntitlementsWithinRewards | modules/reward-pool/src/lib.rs:213-239 | truncated entitlements of all accounts add up to at most the total rewards |
| RewardPoolFairness.EveryoneCanClaim | modules/reward-pool/src/lib.rs:406-449 | with truncation, no write-off and everyone covered, all claims in a block succeed in any order and pay exactly the due |
| RewardPoolFairness.DuesWithinUseable | modules/reward-pool/src/lib.rs:213-239 | with truncation and everyone covered, dues exceed the useable rewards by at most the write-offs |
| RewardPoolFairness.CoverageSurvivesUpdates | modules/reward-pool/src/lib.rs:242-258 | with truncation a covered account stays covered through updates |
| RewardPoolJoining.JoinerStartsEven | modules/reward-pool/src/lib.rs:302-331 | right after joining a pool with shares, entitlement and borrow differ by rounding only, in both directions; in an empty pool the joiner is ahead by all rewards left there |
| RewardPoolJoining.JoinEmptyPool | modules/reward-pool/src/lib.rs:317-331 | joining an empty pool borrows nothing and owns all rewards left there; the start is even iff there are none |
| RewardPoolJoining.SameBlockPaysLead | modules/reward-pool/src/lib.rs:302-309 | leaving in the block of joining pays the entitlement minus the borrow, or nothing |
| RewardPoolJoining.SameBlockEarnsOnlyRounding | modules/reward-pool/src/lib.rs:302-309 | joining a pool with shares and leaving in one block pays less than a bound made of rounding errors only; in an empty pool it pays nothing or all that was left |
| RewardPoolJoining.EmptyingLeavesLittle | modules/reward-pool/src/lib.rs:185-194 | the removal of the last shares leaves at most the existential reward useable |
| RewardPoolJoining.EmptiedPoolHoldsLittle | modules/reward-pool/src/lib.rs:185-194 | over every run a pool without shares holds at most the existential reward useable, if the handler pays shares only |
| RewardPoolJoining.IncentivesPaySharesOnly | modules/incentives/src/lib.rs:143-146 | the incentives handler pays shares only |
| RewardPoolJoining.EmptyPoolEarnsLittle | modules/reward-pool/src/lib.rs:302-309 | after every run, in the block of joining an emptied pool no removal pays anything and a claim pays nothing or exactly the existential reward |
| RewardPoolJoining.EmptyPoolClaimIff | modules/reward-pool/src/lib.rs:406-449 | that claim pays iff exactly a nonzero existential reward was left, all of it useable |
| RewardPoolJoining.EntitlementFollowsPrice | modules/reward-pool/src/lib.rs:213-239 | an entitlement follows the share price up to the rounding of the two entitlements |
| RewardPoolJoining.JoinMovesOthersByRounding | modules/reward-pool/src/lib.rs:315-331 | someone else joining moves the entitlement of any number of shares by rounding only |
| RewardPoolJoining.PaidRemovalMovesOthersByRounding | modules/reward-pool/src/lib.rs:189-194 | so does someone else's paid removal |
| RewardPoolJoining.UnpaidRemovalGain | modules/reward-pool/src/lib.rs:185-187 | an unpaid removal raises the entitlement of the remaining shares by their part of what it left, up to rounding |
| RewardPoolJoining.AccrualIsProRata | modules/reward-pool/src/lib.rs:213-239 | an accrued reward raises an account's entitlement by its share of it, up to rounding |
| RewardPoolCounterexamples.WriteOffStrandsTheLastHolder | modules/reward-pool/src/lib.rs:185-187 | a four-call run from empty storage writes off 1000 and breaks the documented identity; the sole holder can then neither remove all shares nor claim, while removing half of them pays all useable rewards |
| RewardPoolCounterexamples.LeftoverGoesToNextJoiner | modules/reward-pool/src/lib.rs:317-318 | from empty storage, a reward left by an unpaid exit is claimed in the block of joining by the next joiner |
| RewardPoolCounterexamples.JoinerMayBeUncovered | modules/reward-pool/src/lib.rs:420-421 | from empty storage, truncation can make claiming or leaving right after joining an error |
| RewardPoolCounterexamples.PreviewMissesExistentialReward | modules/reward-pool/src/lib.rs:185-187 | from empty storage, a reward of exactly the existential reward is previewed as nothing and claimed in full |
| RewardPoolCounterexamples.SaturationBreaksLaziness | modules/reward-pool/src/lib.rs:250-251 | from empty storage, beyond the signed limit one late update credits less than two timely ones |
| LazyAccrual.UpdateIsSync | modules/incentives/src/lib.rs:139-157 | with the incentives handler and a creditable reward, an update adds rate times blocks, or nothing without shares, and fails exactly when a total would leave u128 |
| LazyAccrual.UpdateOutcome | modules/reward-pool/src/lib.rs:242-297 | every update with the incentives handler, with saturation at u128, failure on overflow and the credit saturated at i128 |
| LazyAccrual.SyncComposes | modules/reward-pool/src/lib.rs:269-297 | accruing to a middle block and then on equals accruing at once, and the totals fit exactly when they fit at once |
| LazyAccrual.ExecuteSeesSynced | modules/reward-pool/src/lib.rs:310-449 | an operation answers the same, errors included, from a pool already brought to any earlier block where its totals fit |
| LazyAccrual.EarlyUpdateIsInvisibleIff | modules/reward-pool/src/lib.rs:246-256 | with totals in u128, an update on the way to a block leaves the pool there unchanged iff the whole reward can be credited at once, or the update is not strictly in between |
| LazyAccrual.UpdatesAreInvisible | modules/reward-pool/src/lib.rs:242-297 | erasing all updates from a run changes no other answer and no final pool brought to the same block, also when totals overflow on the way |
| LazyAccrual.LazyAccrualRefinesAnySchedule | modules/reward-pool/src/lib.rs:242-297 | two runs that differ only in their updates give every other call the same storage, value, payout or error, provided each gap of the lazy run can be credited at once |
| RewardPoolPallet.Pallet.constructor | modules/reward-pool/src/lib.rs:114-122 | every pool starts with default storage |
| RewardPoolPallet.Pallet.UpdatePoolReward | modules/reward-pool/src/lib.rs:242-258 | stores the accrued pool and credits the sub-account as specified; other pools and wallets untouched |
| RewardPoolPallet.Pallet.Transfer | modules/reward-pool/src/lib.rs:370-371 | moves the amount from the sub-account to the wallet, or refuses and changes nothing |
| RewardPoolPallet.Pallet.AddShare | modules/reward-pool/src/lib.rs:310-348 | storage and answer follow the specification; other pools and wallets untouched; an error rolls back |
| RewardPoolPallet.Pallet.RemoveShare | modules/reward-pool/src/lib.rs:351-374 | as above, and the caller's wallet grows by exactly the payout |
| RewardPoolPallet.Pallet.ClaimRewards | modules/reward-pool/src/lib.rs:406-449 | as above, and the caller's wallet grows by exactly the payout |
| SignableMessage.HexRoundTrip | modules/claims/src/ethereum_address.rs:73-82 | hex encoding can be decoded, so it is injective |
| SignableMessage.ToAsciiHex | modules/evm-accounts/src/lib.rs:234-244 | the nibble loop computes the hex encoding |
| SignableMessage.DecimalIsNumeral | modules/claims/src/lib.rs:503-508 | the digits are the decimal numeral of the length: digits only, no leading zero, reads back |
| SignableMessage.EthereumSignableMessage | modules/claims/src/lib.rs:501-515 | the loop builds header, decimal length and payload |
| SignableMessage.FrameLayout | modules/claims/src/lib.rs:509-514 | the signed message byte by byte: header, numeral of the payload's length, payload |
| SignableMessage.PrefixBytes | runtime/src/lib.rs:1021 | the two payload prefixes byte by byte |
| SignableMessage.ClaimMessageLayout | modules/claims/src/lib.rs:461-465 | a claim signs the prefix, then the account in hex, then the transaction in hex |
| SignableMessage.BindingMessageLayout | modules/evm-accounts/src/lib.rs:109-110 | a binding signs "clover evm:" and the account in hex |
| SignableMessage.FrameInjective | modules/claims/src/lib.rs:501-515 | a framed message determines its payload for all payloads |
| SignableMessage.PrefixesCollideIff | modules/evm-accounts/src/lib.rs:149-163 | two prefixes can lead to one message iff one extends the other |
| SignableMessage.ClaimMessageInjective | modules/claims/src/lib.rs:461-465 | a claim message determines account and transaction |
| SignableMessage.BindingMessageInjective | modules/evm-accounts/src/lib.rs:109-110 | a binding message determines the account |
| SignableMessage.ClaimIsNotBinding | runtime/src/lib.rs:1021 | no claim message of the runtime is an account-binding message |
| EvmAccounts.KillKeepsInverse | modules/evm-accounts/src/lib.rs:190-196 | the kill hook keeps the two maps inverse |
| EvmAccounts.KillOutcome | modules/evm-accounts/src/lib.rs:190-196 | for every account: a kill unmaps it and its address, which then resolves to its padded account, and no other pair |
| EvmAccounts.UnmappedUntilClaim | modules/evm-accounts/src/lib.rs:131-136 | over every run an unmapped account becomes mapped only by a successful claim of its own |
| EvmAccounts.KilledUntilClaim | modules/evm-accounts/src/lib.rs:190-196 | a killed account is mapped again only by a later successful claim of its own |
| EvmAccounts.NextKeepsInverse | modules/evm-accounts/src/lib.rs:101-141 | so does a claim, whatever the merge of the padded account does |
| EvmAccounts.RunKeepsInverse | modules/evm-accounts/src/lib.rs:86-91 | the two maps are mutual inverses after every run |
| EvmAccounts.PaddedBytes | modules/evm-accounts/src/lib.rs:208-211 | the padded account byte by byte: "evm:", the address, eight zeros |
| EvmAccounts.AddressOfAccount | modules/evm-accounts/src/lib.rs:215-224 | which accounts have an address, and which address |
| EvmAccounts.AddressRoundTripIff | modules/evm-accounts/src/lib.rs:204-224 | an address comes back from its account iff it is mapped or its padded account is not |
| EvmAccounts.AccountRoundTripIff | modules/evm-accounts/src/lib.rs:204-224 | an account comes back from its address iff it is mapped or is the padded account of an unmapped address |
| EvmAccounts.SharedAccountIff | modules/evm-accounts/src/lib.rs:204-213 | exactly when two addresses resolve to one account |
| EvmAccounts.PaddedSignerShadowsAddress | modules/evm-accounts/src/lib.rs:204-224 | from empty maps, a claim by a padded account makes two addresses share it, and its own address comes back as the other |
| EvmAccounts.AddressesResolveUniquely | modules/evm-accounts/src/lib.rs:199-225 | if no account with the "evm:" prefix signs a claim, after every run addresses come back and resolve to distinct accounts |
| EvmAccounts.ClaimOutcome | modules/evm-accounts/src/lib.rs:101-141 | a successful claim is signed by the address, binds exactly the claimed pair, and what other addresses resolve to afterwards |
| EvmAccounts.ClaimSucceedsIff | modules/evm-accounts/src/lib.rs:104-117 | when a claim succeeds, and which error refuses it |
| EvmAccounts.Pallet.Killed | modules/evm-accounts/src/lib.rs:190-196 | storage after the hook |
| EvmAccounts.Pallet.Claim | modules/evm-accounts/src/lib.rs:101-141 | storage and answer follow the specification, an error changes nothing, and inverse maps stay inverse |
| ClaimsEffects.MintEffect | modules/claims/src/lib.rs:403-447 | a mint adds one new open record and deposits exactly the fee, the rest of the value |
| ClaimsEffects.ClaimEffect | modules/claims/src/lib.rs:449-472 | a claim settles an open record of the signer and deposits its amount |
| ClaimsEffects.BurnEffect | modules/claims/src/lib.rs:474-498 | a burn withdraws the gross amount and deposits exactly the fee |
| ClaimsEffects.MigrationEffect | modules/claims/src/lib.rs:52-99 | the migration adds only records whose key was absent and moves no balance |
| ClaimsLaws.RunExtends | modules/claims/src/lib.rs:418-440 | over every run records stay, with address and amount, and settled ones stay settled |
| ClaimsLaws.PaidAtMostOnce | modules/claims/src/lib.rs:455-470 | over every run a record is paid at most once, never once settled, by exactly its amount, and exactly when an open record becomes settled |
| ClaimsLaws.MintedAtMostOnce | modules/claims/src/lib.rs:417-421 | over every run a transaction is minted at most once, and never when it has a record |
| ClaimsLaws.EventsAreRecorded | modules/claims/src/lib.rs:435-440 | what a run minted and paid is what its final storage records |
| ClaimsLaws.RecordProvenance | modules/claims/src/lib.rs:410-426 | every new record was minted by the network's bridge account within its limit, or imported |
| ClaimsLaws.PaymentProvenance | modules/claims/src/lib.rs:461-467 | every payment rests on a signature by the recorded address of that account and transaction |
| ClaimsLaws.ValidateMatchesDispatch | modules/claims/src/lib.rs:369-401 | validation accepts exactly what dispatch executes, for the same signer |
| ClaimsLaws.ValidUntilPaid | modules/claims/src/lib.rs:394-400 | an accepted claim stays acceptable through every run, exactly until its record is paid |
| ClaimsLaws.SignatureServesEveryNetwork | modules/claims/src/lib.rs:461-467 | after a claim and any run, the same account, transaction and signature succeed on a network iff it holds an open record of the transaction with the same address, and never again on the first network |
| ClaimsLaws.SecondPaymentIff | modules/claims/src/lib.rs:455-470 | for a record the other network already holds: iff it is open, has the same address and the run does not pay it |
| ClaimsLaws.OneSignaturePaidTwice | modules/claims/src/lib.rs:449-472 | a run that mints one transaction to one address on both networks pays the same signature twice |
| ClaimsLaws.RunConserves | modules/claims/src/lib.rs:427-497 | issuance and unclaimed amounts move by exactly the minted, paid, burned and imported totals, fees included |
| ClaimsLaws.RunExplainsBalance | modules/claims/src/lib.rs:443-496 | each balance moves by exactly its payments, its burns and the fees it collects |
| ClaimsNetworks.LimitIsBudget | modules/claims/src/lib.rs:423-442 | limit plus amounts minted since it was set equals the limit set, at every point of every run |
| ClaimsNetworks.MintSpends | modules/claims/src/lib.rs:423-442 | the saturating subtraction from the limit never saturates |
| ClaimsNetworks.NetworksAreIndependent | modules/claims/src/lib.rs:237-281 | a network's claims, limit, fees and bridge account are those of the sub-run that names it, the migration being a BSC step |
| ClaimsNetworks.MigrationIsOneShot | modules/claims/src/lib.rs:52-56 | migrating again changes nothing, whatever ran in between |
| ClaimsNetworks.MigratedClaimsStaySettled | modules/claims/src/lib.rs:60-68 | an imported transaction is never minted again, and never paid again if it was settled |
| ClaimsOutcomes.MintOutcome | modules/claims/src/lib.rs:403-447 | from the storage: when a mint succeeds, every refusal in order, and the record, limit and fee it moves with the configured mint fee |
| ClaimsOutcomes.ClaimOutcome | modules/claims/src/lib.rs:449-472 | from the storage: when a claim succeeds, every refusal in order, and the record and balance it moves |
| ClaimsOutcomes.BurnOutcome | modules/claims/src/lib.rs:474-498 | from the storage: when a burn succeeds, every refusal in order, and the balances it moves with the configured burn fee |
| ClaimsOutcomes.ValidateOutcome | modules/claims/src/lib.rs:369-401 | why validation refuses, in the order it looks |
| ClaimsOutcomes.SetterOutcome | modules/claims/src/lib.rs:237-281 | only root sets anything, and what it sets is what the network then has; every other item is unchanged |
| ClaimsOutcomes.MigrationOutcome | modules/claims/src/lib.rs:58-96 | the migration item by item: records, limit, bridge account, fees, and the cleared legacy items |
| ClaimsOutcomes.BridgeAuthority | modules/claims/src/lib.rs:242-244 | over every run a bridge account changes only by root or the first migration |
| ClaimsOutcomes.FeesAuthority | modules/claims/src/lib.rs:274-276 | over every run fees change only by root or the first migration |
| ClaimsOutcomes.LimitAuthority | modules/claims/src/lib.rs:258-260 | over every run a limit changes beyond what was minted only by root or the first migration |
| ClaimsPallet.CopyClaims | modules/claims/src/lib.rs:59-68 | whatever the iteration order, the result is the BSC records plus every legacy claim whose key was absent |
| ClaimsPallet.Pallet.OnRuntimeUpgrade | modules/claims/src/lib.rs:52-99 | the storage after the upgrade is the specified migration |
| ClaimsPallet.Pallet.SetBridgeAccountElastic | modules/claims/src/lib.rs:237-249 | storage and answer follow the specification; an error changes nothing |
| ClaimsPallet.Pallet.SetClaimLimitElastic | modules/claims/src/lib.rs:253-264 | as above |
| ClaimsPallet.Pallet.SetBridgeFeeElastic | modules/claims/src/lib.rs:268-281 | as above |
| ClaimsPallet.Pallet.MintClaimElastic | modules/claims/src/lib.rs:285-298 | as above |
| ClaimsPallet.Pallet.ClaimElastic | modules/claims/src/lib.rs:302-315 | as above |
| ClaimsPallet.Pallet.BurnElastic | modules/claims/src/lib.rs:319-329 | as above, and the event names the recipient |
| ClaimsPallet.Pallet.EthRecover | modules/claims/src/lib.rs:519-526 | the signer is recovered from the framed claim message |
| ClaimsPallet.Pallet.Validate | modules/claims/src/lib.rs:369-401 | the read-only validation gives the specified answer |

## Left out

- Library rounding: which of floor and ceiling `FixedU128` takes for given operands is not modelled; results hold for both unless a lemma assumes truncation.
- Issuance overflow: deposits are exact and balances unbounded; the currency pallet's behaviour at the 128-bit limit is not modelled.
- Transfers by others into a pool's sub-account are not modelled; they would only raise its balance.
- Keccak hashing and secp256k1 recovery are one uninterpreted function.
- The merge of a padded account in `claim_account`, and account nonces, are reduced to whether the merge fails and whether it fires the kill hook.
- `PairKey`, genesis configuration, `get_all_pools` and the forwarding calls of the incentives pallet are not modelled.
- Serialization of `EthereumAddress` and `EthereumTxHash` rests on a hex library that is not modelled.
- Priority, longevity and tags of a valid unsigned transaction, events as chain output, logging and weights.
- Node, RPC, key tool, EVM interoperability and runtime configuration.
- The storage items of the version 1 claims pallet are kept as one record field of the class.
