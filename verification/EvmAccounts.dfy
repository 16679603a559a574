/**
 The two-way mapping between Substrate accounts and EVM addresses (modules/evm-accounts/src/lib.rs).

 Signature recovery is an uninterpreted function of the signature and the signed message.
 */
module EvmAccounts {
  import opened Primitives
  import opened SignableMessage

  type Recover = (Signature, seq<byte>) -> Option<EthereumAddress>

  datatype Mapping = Mapping(
    accounts: map<EthereumAddress, AccountId>,
    evmAddresses: map<AccountId, EthereumAddress>)

  datatype Error = AccountIdHasMapped | EthAddressHasMapped | BadSignature | InvalidSignature | MergeFailed

  /** What the system does with the padded account of a claimed address: merging may fire the kill hook on it. */
  datatype Merge = NoAccount | MergeFails | Merges(kills: bool)

  const EVM_PREFIX: seq<byte> := Ascii("evm:")

  /** The account that stands for an address nobody has claimed. */
  function Padded(e: EthereumAddress): AccountId {
    EVM_PREFIX + e + seq(8, _ => 0)
  }

  predicate HasEvmPrefix(a: AccountId) {
    EVM_PREFIX <= a
  }

  function IntoAccountId(m: Mapping, e: EthereumAddress): AccountId {
    if e in m.accounts then m.accounts[e] else Padded(e)
  }

  function ToEvmAddress(m: Mapping, a: AccountId): Option<EthereumAddress> {
    if a in m.evmAddresses then Some(m.evmAddresses[a])
    else if HasEvmPrefix(a) then Some(a[4..24])
    else None
  }

  function OnKilledAccount(m: Mapping, who: AccountId): Mapping {
    if who in m.evmAddresses
    then Mapping(m.accounts - {m.evmAddresses[who]}, m.evmAddresses - {who})
    else m
  }

  /** Writes the pair, dropping the address that `who` was mapped to before. */
  function Bind(m: Mapping, who: AccountId, e: EthereumAddress): Mapping {
    var accounts := if who in m.evmAddresses then m.accounts - {m.evmAddresses[who]} else m.accounts;
    Mapping(accounts[e := who], m.evmAddresses[who := e])
  }

  function ClaimAccount(recover: Recover, m: Mapping, who: AccountId, e: EthereumAddress, sig: Signature, merge: Merge)
    : Result<Mapping, Error>
  {
    if who in m.evmAddresses then Err(AccountIdHasMapped)
    else if e in m.accounts then Err(EthAddressHasMapped)
    else
      match recover(sig, BindingMessage(who))
      case None => Err(BadSignature)
      case Some(signer) =>
        if signer != e then Err(InvalidSignature)
        else if merge.MergeFails? then Err(MergeFailed)
        else
          var m1 := if merge == Merges(true) then OnKilledAccount(m, IntoAccountId(m, e)) else m;
          Ok(Bind(m1, who, e))
  }

  datatype Step =
    | Claim(who: AccountId, address: EthereumAddress, sig: Signature, merge: Merge)
    | Kill(who: AccountId)

  function Next(recover: Recover, m: Mapping, step: Step): Mapping {
    match step
    case Kill(who) => OnKilledAccount(m, who)
    case Claim(who, e, sig, merge) =>
      match ClaimAccount(recover, m, who, e, sig, merge)
      case Ok(n) => n
      case Err(_) => m
  }

  function Run(recover: Recover, m: Mapping, steps: seq<Step>): Mapping
    decreases |steps|
  {
    if steps == [] then m else Run(recover, Next(recover, m, steps[0]), steps[1..])
  }

  // ---------- The two maps stay mutual inverses ----------

  ghost predicate Inverse(m: Mapping) {
    && (forall e :: e in m.accounts ==> m.accounts[e] in m.evmAddresses && m.evmAddresses[m.accounts[e]] == e)
    && (forall a :: a in m.evmAddresses ==> m.evmAddresses[a] in m.accounts && m.accounts[m.evmAddresses[a]] == a)
  }

  lemma KillKeepsInverse(m: Mapping, who: AccountId)
    requires Inverse(m)
    ensures Inverse(OnKilledAccount(m, who))
  {
  }

  /** A kill unmaps the account and its address, whoever is killed, and no other pair. */
  lemma KillOutcome(m: Mapping, who: AccountId)
    requires Inverse(m)
    ensures var n := OnKilledAccount(m, who);
            && who !in n.evmAddresses
            && (forall e :: e in n.accounts ==> n.accounts[e] != who)
            && (who in m.evmAddresses ==>
                  var e := m.evmAddresses[who];
                  e !in n.accounts && IntoAccountId(n, e) == Padded(e))
            && (forall e :: (e in n.accounts <==> e in m.accounts && m.accounts[e] != who)
                            && (e in n.accounts ==> n.accounts[e] == m.accounts[e]))
            && (forall a :: (a in n.evmAddresses <==> a in m.evmAddresses && a != who)
                            && (a in n.evmAddresses ==> n.evmAddresses[a] == m.evmAddresses[a]))
  {
  }

  /** An unmapped account becomes mapped only by a successful claim of its own. */
  lemma {:induction false} UnmappedUntilClaim(recover: Recover, m: Mapping, steps: seq<Step>, who: AccountId)
    returns (i: nat)
    requires who !in m.evmAddresses && who in Run(recover, m, steps).evmAddresses
    ensures i < |steps| && steps[i].Claim? && steps[i].who == who
    ensures ClaimAccount(recover, Run(recover, m, steps[..i]), who, steps[i].address, steps[i].sig, steps[i].merge).Ok?
    decreases |steps|
  {
    var n := Next(recover, m, steps[0]);
    if who in n.evmAddresses {
      return 0;
    }
    var j := UnmappedUntilClaim(recover, n, steps[1..], who);
    i := j + 1;
    assert steps[..i][0] == steps[0] && steps[..i][1..] == steps[1..][..j];
  }

  /** After a kill, the account is mapped again only by a later successful claim of its own. */
  lemma KilledUntilClaim(recover: Recover, m: Mapping, who: AccountId, steps: seq<Step>) returns (i: nat)
    requires Inverse(m) && who in Run(recover, OnKilledAccount(m, who), steps).evmAddresses
    ensures i < |steps| && steps[i].Claim? && steps[i].who == who
    ensures ClaimAccount(recover, Run(recover, OnKilledAccount(m, who), steps[..i]), who, steps[i].address,
                         steps[i].sig, steps[i].merge).Ok?
  {
    KillOutcome(m, who);
    i := UnmappedUntilClaim(recover, OnKilledAccount(m, who), steps, who);
  }

  lemma NextKeepsInverse(recover: Recover, m: Mapping, step: Step)
    requires Inverse(m)
    ensures Inverse(Next(recover, m, step))
  {
    if step.Claim? {
      KillKeepsInverse(m, IntoAccountId(m, step.address));
    }
  }

  lemma {:induction false} RunKeepsInverse(recover: Recover, m: Mapping, steps: seq<Step>)
    requires Inverse(m)
    ensures Inverse(Run(recover, m, steps))
    decreases |steps|
  {
    if steps != [] {
      NextKeepsInverse(recover, m, steps[0]);
      RunKeepsInverse(recover, Next(recover, m, steps[0]), steps[1..]);
    }
  }

  // ---------- Addresses resolve and come back ----------

  lemma PaddedForm(e: EthereumAddress)
    ensures HasEvmPrefix(Padded(e)) && Padded(e)[4..24] == e
  {
    assert |EVM_PREFIX| == 4;
    assert Padded(e)[..4] == EVM_PREFIX;
  }

  /** The padded account, byte by byte: "evm:", the address, eight zeros. */
  lemma PaddedBytes(e: EthereumAddress)
    ensures Padded(e)[..4] == [101, 118, 109, 58] && Padded(e)[4..24] == e
    ensures forall i :: 24 <= i < 32 ==> Padded(e)[i] == 0
  {
    assert EVM_PREFIX == [101, 118, 109, 58];
    PaddedForm(e);
  }

  /** Which accounts have an address, and which: the mapped ones, and those that start with "evm:". */
  lemma AddressOfAccount(m: Mapping, a: AccountId)
    ensures ToEvmAddress(m, a) ==
            if a in m.evmAddresses then Some(m.evmAddresses[a])
            else if a[0] == 101 && a[1] == 118 && a[2] == 109 && a[3] == 58 then Some(a[4..24])
            else None
  {
    assert EVM_PREFIX == [101, 118, 109, 58];
  }

  lemma PaddedInjective(e: EthereumAddress, f: EthereumAddress)
    requires Padded(e) == Padded(f)
    ensures e == f
  {
    PaddedForm(e);
    PaddedForm(f);
  }

  /** An address comes back from its account iff it is mapped or its padded account is not. */
  lemma AddressRoundTripIff(m: Mapping, e: EthereumAddress)
    requires Inverse(m)
    ensures ToEvmAddress(m, IntoAccountId(m, e)) == Some(e) <==> e in m.accounts || Padded(e) !in m.evmAddresses
  {
    PaddedForm(e);
  }

  /** An account comes back from its address iff it is mapped, or is the padded account of an unmapped address. */
  lemma AccountRoundTripIff(m: Mapping, a: AccountId)
    requires Inverse(m) && ToEvmAddress(m, a).Some?
    ensures var e := ToEvmAddress(m, a).value;
            IntoAccountId(m, e) == a <==> a in m.evmAddresses || (e !in m.accounts && a == Padded(e))
  {
  }

  /** Two addresses share an account iff one is mapped to the padded account of the other, unmapped one. */
  lemma SharedAccountIff(m: Mapping, e: EthereumAddress, f: EthereumAddress)
    requires Inverse(m) && e != f
    ensures IntoAccountId(m, e) == IntoAccountId(m, f) <==>
              (|| (e in m.accounts && f !in m.accounts && m.accounts[e] == Padded(f))
               || (f in m.accounts && e !in m.accounts && m.accounts[f] == Padded(e)))
  {
    if Padded(e) == Padded(f) {
      PaddedInjective(e, f);
    }
  }

  /** A run that breaks both: a padded account claims, and its address then resolves to the claimed one. */
  lemma PaddedSignerShadowsAddress(recover: Recover, e: EthereumAddress, f: EthereumAddress, sig: Signature)
    requires e != f && recover(sig, BindingMessage(Padded(f))) == Some(e)
    ensures var n := Run(recover, Mapping(map[], map[]), [Claim(Padded(f), e, sig, NoAccount)]);
            && IntoAccountId(n, e) == IntoAccountId(n, f) == Padded(f)
            && ToEvmAddress(n, IntoAccountId(n, f)) == Some(e)
  {
    var m, step := Mapping(map[], map[]), Claim(Padded(f), e, sig, NoAccount);
    assert [step][1..] == [];
    assert Run(recover, m, [step]) == Run(recover, Next(recover, m, step), []);
  }

  /** No padded-looking account has claimed an address. */
  ghost predicate OnlyNativeMapped(m: Mapping) {
    forall a :: a in m.evmAddresses ==> !HasEvmPrefix(a)
  }

  predicate OnlyNativeSigners(steps: seq<Step>) {
    forall i :: 0 <= i < |steps| && steps[i].Claim? ==> !HasEvmPrefix(steps[i].who)
  }

  lemma {:induction false} RunKeepsNative(recover: Recover, m: Mapping, steps: seq<Step>)
    requires OnlyNativeMapped(m) && OnlyNativeSigners(steps)
    ensures OnlyNativeMapped(Run(recover, m, steps))
    decreases |steps|
  {
    if steps != [] {
      var n := Next(recover, m, steps[0]);
      forall a | a in n.evmAddresses ensures !HasEvmPrefix(a) {
      }
      RunKeepsNative(recover, n, steps[1..]);
    }
  }

  /**
   If no account with the "evm:" prefix ever signs a claim, then after every run each address comes back
   from its account, and distinct addresses resolve to distinct accounts.
   */
  lemma AddressesResolveUniquely(recover: Recover, m: Mapping, steps: seq<Step>, e: EthereumAddress, f: EthereumAddress)
    requires Inverse(m) && OnlyNativeMapped(m) && OnlyNativeSigners(steps)
    ensures var n := Run(recover, m, steps);
            && ToEvmAddress(n, IntoAccountId(n, e)) == Some(e)
            && (e != f ==> IntoAccountId(n, e) != IntoAccountId(n, f))
  {
    var n := Run(recover, m, steps);
    RunKeepsInverse(recover, m, steps);
    RunKeepsNative(recover, m, steps);
    PaddedForm(e);
    PaddedForm(f);
    AddressRoundTripIff(n, e);
    AddressRoundTripIff(n, f);
  }

  /** A successful claim maps exactly the claimed pair; only a killed padded account can lose its own mapping. */
  lemma ClaimOutcome(
    recover: Recover, m: Mapping, who: AccountId, e: EthereumAddress, sig: Signature, merge: Merge, f: EthereumAddress)
    requires Inverse(m) && ClaimAccount(recover, m, who, e, sig, merge).Ok?
    ensures var n := ClaimAccount(recover, m, who, e, sig, merge).value;
            && recover(sig, BindingMessage(who)) == Some(e)
            && IntoAccountId(n, e) == who && ToEvmAddress(n, who) == Some(e)
            && (f != e && IntoAccountId(m, f) != Padded(e) ==> IntoAccountId(n, f) == IntoAccountId(m, f))
            && (f != e && IntoAccountId(m, f) == Padded(e) ==>
                  f in m.accounts && IntoAccountId(n, f) == if merge == Merges(true) then Padded(f) else Padded(e))
  {
    if Padded(e) == Padded(f) {
      PaddedInjective(e, f);
    }
  }

  /** When a claim succeeds, and which error refuses it. */
  lemma ClaimSucceedsIff(
    recover: Recover, m: Mapping, who: AccountId, e: EthereumAddress, sig: Signature, merge: Merge)
    ensures var r, signer := ClaimAccount(recover, m, who, e, sig, merge), recover(sig, BindingMessage(who));
            && (r.Ok? <==> who !in m.evmAddresses && e !in m.accounts && signer == Some(e) && !merge.MergeFails?)
            && (r == Err(AccountIdHasMapped) <==> who in m.evmAddresses)
            && (r == Err(EthAddressHasMapped) <==> who !in m.evmAddresses && e in m.accounts)
            && (r == Err(BadSignature) <==> who !in m.evmAddresses && e !in m.accounts && signer == None)
            && (r == Err(InvalidSignature) <==>
                  who !in m.evmAddresses && e !in m.accounts && signer.Some? && signer.value != e)
  {
  }

  /** The pallet's storage, updated in place. */
  class Pallet {
    const recover: Recover
    var accounts: map<EthereumAddress, AccountId>
    var evmAddresses: map<AccountId, EthereumAddress>

    constructor (recover: Recover)
      ensures this.recover == recover && View() == Mapping(map[], map[])
    {
      this.recover := recover;
      accounts, evmAddresses := map[], map[];
    }

    function View(): Mapping
      reads this
    {
      Mapping(accounts, evmAddresses)
    }

    /** The hook that runs when the system reaps an account. */
    method Killed(who: AccountId)
      modifies this
      ensures View() == OnKilledAccount(old(View()), who)
    {
      if who in evmAddresses {
        var e := evmAddresses[who];
        accounts := accounts - {e};
        evmAddresses := evmAddresses - {who};
      }
    }

    method Claim(who: AccountId, e: EthereumAddress, sig: Signature, merge: Merge) returns (r: Result<(), Error>)
      modifies this
      ensures match ClaimAccount(recover, old(View()), who, e, sig, merge)
              case Ok(n) => r == Ok(()) && View() == n
              case Err(error) => r == Err(error) && View() == old(View())
      ensures old(Inverse(View())) ==> Inverse(View())
    {
      if Inverse(View()) {
        NextKeepsInverse(recover, View(), Step.Claim(who, e, sig, merge));
      }
      if who in evmAddresses {
        return Err(AccountIdHasMapped);
      }
      if e in accounts {
        return Err(EthAddressHasMapped);
      }
      var hex := ToAsciiHex(who);
      var message := EthereumSignableMessage(BINDING_PREFIX, hex, []);
      var signer := recover(sig, message);
      if signer.None? {
        return Err(BadSignature);
      }
      if signer.value != e {
        return Err(InvalidSignature);
      }
      if merge.MergeFails? {
        return Err(MergeFailed);
      }
      if merge == Merges(true) {
        Killed(IntoAccountId(View(), e));
      }
      BindPair(who, e);
      return Ok(());
    }

    method BindPair(who: AccountId, e: EthereumAddress)
      modifies this
      ensures View() == Bind(old(View()), who, e)
    {
      if who in evmAddresses {
        accounts := accounts - {evmAddresses[who]};
      }
      accounts := accounts[e := who];
      evmAddresses := evmAddresses[who := e];
    }
  }
}
