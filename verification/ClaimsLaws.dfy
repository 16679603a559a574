/** What every run of the claims pallet keeps. */
module ClaimsLaws {
  import opened Primitives
  import opened MapSum
  import opened SignableMessage
  import opened Claims
  import opened ClaimsEffects

  // ---------- Records are written once and settled once ----------

  /** `t` has every record of `s`, with the same address and amount, and settled if it was settled. */
  ghost predicate Extends(s: Store, t: Store) {
    forall k :: k in s.claims ==>
      && k in t.claims
      && t.claims[k].address == s.claims[k].address
      && t.claims[k].amount == s.claims[k].amount
      && (s.claims[k].claimed ==> t.claims[k].claimed)
  }

  lemma EffectExtends(c: Config, s: Store, t: Store, event: Event)
    requires Effect(c, s, t, event)
    ensures Extends(s, t)
  {
  }

  lemma StepExtends(c: Config, s: Store, step: Step)
    ensures Extends(s, Next(c, s, step))
  {
    StepEffect(c, s, step);
    EffectExtends(c, s, Next(c, s, step), EventOf(c, s, step));
  }

  /** The recorded address and amount never change, and a settled claim stays settled. */
  lemma {:induction false} RunExtends(c: Config, s: Store, steps: seq<Step>)
    ensures Extends(s, Run(c, s, steps))
    decreases |steps|
  {
    if steps != [] {
      StepExtends(c, s, steps[0]);
      RunExtends(c, Next(c, s, steps[0]), steps[1..]);
    }
  }

  predicate Settled(s: Store, k: Key) {
    k in s.claims && s.claims[k].claimed
  }

  /** What a run deposited on account of record `k`. */
  function PaidOn(events: seq<Event>, k: Key): nat {
    if events == [] then 0 else (if Pays(events[0], k) then events[0].amount else 0) + PaidOn(events[1..], k)
  }

  predicate Mints(event: Event, k: Key) {
    event.Minted? && event.key == k
  }

  predicate Pays(event: Event, k: Key) {
    event.Claimed? && event.key == k
  }

  function Payments(events: seq<Event>, k: Key): nat {
    if events == [] then 0 else (if Pays(events[0], k) then 1 else 0) + Payments(events[1..], k)
  }

  function Mintings(events: seq<Event>, k: Key): nat {
    if events == [] then 0 else (if Mints(events[0], k) then 1 else 0) + Mintings(events[1..], k)
  }

  /** How one step touches record `k`. */
  lemma EffectOnRecord(c: Config, s: Store, t: Store, event: Event, k: Key)
    requires Effect(c, s, t, event)
    ensures Pays(event, k) ==> k in s.claims && !Settled(s, k) && Settled(t, k) && event.amount == s.claims[k].amount
    ensures Mints(event, k) ==> k !in s.claims && k in t.claims
    ensures k in s.claims && !Pays(event, k) ==> k in t.claims && t.claims[k] == s.claims[k]
  {
  }

  /**
   Over every run, record `k` is paid at most once, never after it is settled, and by exactly its recorded
   amount; a record that is open at the start is paid exactly when the run settles it.
   */
  lemma {:induction false} PaidAtMostOnce(c: Config, s: Store, steps: seq<Step>, k: Key)
    ensures var t, events := Run(c, s, steps), Events(c, s, steps);
            && Payments(events, k) <= (if Settled(s, k) then 0 else 1)
            && (Payments(events, k) == 1 ==> Settled(t, k))
            && (k in s.claims && !Settled(s, k) && Settled(t, k) ==> Payments(events, k) == 1)
            && PaidOn(events, k) == (if Payments(events, k) == 1 then t.claims[k].amount else 0)
    decreases |steps|
  {
    if steps != [] {
      var n, rest := Next(c, s, steps[0]), steps[1..];
      StepEffect(c, s, steps[0]);
      EffectOnRecord(c, s, n, EventOf(c, s, steps[0]), k);
      StepExtends(c, s, steps[0]);
      RunExtends(c, n, rest);
      PaidAtMostOnce(c, n, rest, k);
      EventsCons(c, s, steps);
      PaidCons(EventOf(c, s, steps[0]), Events(c, n, rest), k);
    }
  }

  lemma EventsCons(c: Config, s: Store, steps: seq<Step>)
    requires steps != []
    ensures Events(c, s, steps) == [EventOf(c, s, steps[0])] + Events(c, Next(c, s, steps[0]), steps[1..])
  {
  }

  lemma PaidCons(event: Event, events: seq<Event>, k: Key)
    ensures Payments([event] + events, k) == (if Pays(event, k) then 1 else 0) + Payments(events, k)
    ensures Mintings([event] + events, k) == (if Mints(event, k) then 1 else 0) + Mintings(events, k)
    ensures PaidOn([event] + events, k) == (if Pays(event, k) then event.amount else 0) + PaidOn(events, k)
  {
    assert ([event] + events)[1..] == events;
  }

  /** Over every run, a transaction is minted at most once, and never once it has a record. */
  lemma {:induction false} MintedAtMostOnce(c: Config, s: Store, steps: seq<Step>, k: Key)
    ensures Mintings(Events(c, s, steps), k) <= if k in s.claims then 0 else 1
    decreases |steps|
  {
    if steps != [] {
      var n, rest := Next(c, s, steps[0]), steps[1..];
      StepEffect(c, s, steps[0]);
      EffectOnRecord(c, s, n, EventOf(c, s, steps[0]), k);
      StepExtends(c, s, steps[0]);
      MintedAtMostOnce(c, n, rest, k);
      EventsCons(c, s, steps);
      PaidCons(EventOf(c, s, steps[0]), Events(c, n, rest), k);
    }
  }

  /** The record that an event speaks of, as store `t` has it. */
  ghost predicate Recorded(t: Store, event: Event) {
    && (event.Minted? ==> event.key in t.claims && t.claims[event.key].address == event.address
                          && t.claims[event.key].amount == event.amount)
    && (event.Claimed? ==> event.key in t.claims
                           && t.claims[event.key] == ClaimRecord(event.signer, event.amount, true))
  }

  lemma RecordedStays(c: Config, s: Store, t: Store, u: Store, event: Event)
    requires Effect(c, s, t, event) && Extends(t, u)
    ensures Recorded(u, event)
  {
  }

  /** What is minted and what is paid is what stays recorded. */
  lemma {:induction false} EventsAreRecorded(c: Config, s: Store, steps: seq<Step>, i: nat)
    requires i < |steps|
    ensures Recorded(Run(c, s, steps), Events(c, s, steps)[i])
    decreases |steps|
  {
    var n := Next(c, s, steps[0]);
    EventsCons(c, s, steps);
    if i == 0 {
      StepEffect(c, s, steps[0]);
      RunExtends(c, n, steps[1..]);
      RecordedStays(c, s, n, Run(c, n, steps[1..]), EventOf(c, s, steps[0]));
    } else {
      EventsAreRecorded(c, n, steps[1..], i - 1);
    }
  }

  // ---------- Where records and payments come from ----------

  /** Step `step` in store `s` created record `k`: a mint by the network's bridge account, or the migration. */
  predicate Creates(c: Config, s: Store, step: Step, k: Key) {
    match EventOf(c, s, step)
    case Minted(key, _, value, _) =>
      && key == k && k.0 in s.bridges && value <= ReadOrZero(s.limits, k.0)
      && step.Dispatch? && step.origin == Signed(s.bridges[k.0])
    case Migrated(imported) => k in imported
    case _ => false
  }

  lemma MintIsPermitted(c: Config, s: Store, origin: Origin, call: Call)
    requires EventOf(c, s, Dispatch(origin, call)).Minted?
    ensures Creates(c, s, Dispatch(origin, call), EventOf(c, s, Dispatch(origin, call)).key)
  {
    assert call.Mint?;
  }

  lemma CallIsNotMigration(c: Config, s: Store, origin: Origin, call: Call)
    ensures !EventOf(c, s, Dispatch(origin, call)).Migrated?
  {
  }

  lemma NewRecordIsCreated(c: Config, s: Store, step: Step, k: Key)
    requires k !in s.claims && k in Next(c, s, step).claims
    ensures Creates(c, s, step, k)
  {
    StepEffect(c, s, step);
    var event := EventOf(c, s, step);
    if step.Dispatch? {
      CallIsNotMigration(c, s, step.origin, step.call);
      assert event.Minted? && event.key == k;
      MintIsPermitted(c, s, step.origin, step.call);
    }
  }

  /** Every record that a run adds was created by one of its steps, with permission. */
  lemma {:induction false} RecordProvenance(c: Config, s: Store, steps: seq<Step>, k: Key) returns (i: nat)
    requires k !in s.claims && k in Run(c, s, steps).claims
    ensures i < |steps| && Creates(c, Run(c, s, steps[..i]), steps[i], k)
    decreases |steps|
  {
    var n := Next(c, s, steps[0]);
    if k in n.claims {
      NewRecordIsCreated(c, s, steps[0], k);
      return 0;
    }
    var j := RecordProvenance(c, n, steps[1..], k);
    i := j + 1;
    assert steps[..i][0] == steps[0] && steps[..i][1..] == steps[1..][..j];
  }

  /** Step `step` in store `s` pays record `k` on its address's signature of exactly this account and transaction. */
  predicate PaysOnSignature(c: Config, s: Store, step: Step, k: Key, dest: AccountId) {
    && step.Dispatch? && step.origin.Unsigned? && step.call.Claim?
    && (step.call.network, step.call.tx) == k && step.call.dest == dest
    && k in s.claims
    && c.recover(step.call.sig, ClaimMessage(c.prefix, dest, k.1)) == Some(s.claims[k].address)
  }

  lemma PaymentIsSigned(c: Config, s: Store, step: Step)
    requires EventOf(c, s, step).Claimed?
    ensures PaysOnSignature(c, s, step, EventOf(c, s, step).key, EventOf(c, s, step).dest)
  {
    assert step.Dispatch? && step.call.Claim?;
  }

  /** Every payment of a run rests on such a signature. */
  lemma {:induction false} PaymentProvenance(c: Config, s: Store, steps: seq<Step>, i: nat)
    requires i < |steps| && Events(c, s, steps)[i].Claimed?
    ensures var event := Events(c, s, steps)[i];
            PaysOnSignature(c, Run(c, s, steps[..i]), steps[i], event.key, event.dest)
    decreases |steps|
  {
    EventsCons(c, s, steps);
    if i == 0 {
      PaymentIsSigned(c, s, steps[0]);
    } else {
      PaymentProvenance(c, Next(c, s, steps[0]), steps[1..], i - 1);
      assert steps[..i][0] == steps[0] && steps[..i][1..] == steps[1..][..i - 1];
    }
  }

  // ---------- Validation ----------

  /** The pool accepts exactly the claims that dispatch executes, for the same signer. */
  lemma ValidateMatchesDispatch(c: Config, s: Store, network: Network, dest: AccountId, tx: TxHash, sig: Signature)
    ensures var v, r := DoValidate(c, s, network, dest, tx, sig), DoClaim(c, s, network, dest, tx, sig);
            && (v.Ok? <==> r.Ok?)
            && (v.Ok? ==> r.value.1 == v.value)
  {
  }

  /** An accepted claim stays acceptable through every run, exactly until its own record is paid. */
  lemma ValidUntilPaid(
    c: Config, s: Store, steps: seq<Step>, network: Network, dest: AccountId, tx: TxHash, sig: Signature)
    requires DoValidate(c, s, network, dest, tx, sig).Ok?
    ensures DoValidate(c, Run(c, s, steps), network, dest, tx, sig).Ok?
            <==> Payments(Events(c, s, steps), (network, tx)) == 0
  {
    RunExtends(c, s, steps);
    PaidAtMostOnce(c, s, steps, (network, tx));
  }

  // ---------- One signature, two networks ----------

  /**
   The signed message does not name the network. After a claim succeeds on network `n`, and after any run from there,
   the same account, transaction and signature succeed on network `m` iff `m` holds an open record of the transaction
   with the same address; on `n` itself, never.
   */
  lemma SignatureServesEveryNetwork(
    c: Config, s: Store, n: Network, m: Network, dest: AccountId, tx: TxHash, sig: Signature, steps: seq<Step>)
    requires DoClaim(c, s, n, dest, tx, sig).Ok?
    ensures var t := Run(c, DoClaim(c, s, n, dest, tx, sig).value.0, steps);
            && (DoClaim(c, t, m, dest, tx, sig).Ok? <==>
                  (m, tx) in t.claims && !Settled(t, (m, tx)) && t.claims[(m, tx)].address == s.claims[(n, tx)].address)
            && DoClaim(c, t, n, dest, tx, sig) == Err(AlreadyClaimed)
  {
    var s1 := DoClaim(c, s, n, dest, tx, sig).value.0;
    assert Settled(s1, (n, tx));
    RunExtends(c, s1, steps);
  }

  /** For a record that `m` already holds: iff it is open, has the same address, and the run does not pay it. */
  lemma SecondPaymentIff(
    c: Config, s: Store, n: Network, m: Network, dest: AccountId, tx: TxHash, sig: Signature, steps: seq<Step>)
    requires n != m && DoClaim(c, s, n, dest, tx, sig).Ok? && (m, tx) in s.claims
    ensures var s1 := DoClaim(c, s, n, dest, tx, sig).value.0;
            DoClaim(c, Run(c, s1, steps), m, dest, tx, sig).Ok? <==>
              && !Settled(s, (m, tx)) && s.claims[(m, tx)].address == s.claims[(n, tx)].address
              && Payments(Events(c, s1, steps), (m, tx)) == 0
  {
    var s1 := DoClaim(c, s, n, dest, tx, sig).value.0;
    assert (m, tx) in s1.claims && s1.claims[(m, tx)] == s.claims[(m, tx)];
    SignatureServesEveryNetwork(c, s, n, m, dest, tx, sig, steps);
    RunExtends(c, s1, steps);
    PaidAtMostOnce(c, s1, steps, (m, tx));
  }

  lemma {:induction false} RunAppend(c: Config, s: Store, xs: seq<Step>, ys: seq<Step>)
    ensures Run(c, s, xs + ys) == Run(c, Run(c, s, xs), ys)
    decreases |xs|
  {
    if xs == [] {
      assert xs + ys == ys;
    } else {
      assert (xs + ys)[0] == xs[0] && (xs + ys)[1..] == xs[1..] + ys;
      RunAppend(c, Next(c, s, xs[0]), xs[1..], ys);
    }
  }

  /** A network is configured, the transaction minted on it, and claimed. */
  function MintAndClaim(
    n: Network, bridge: AccountId, tx: TxHash, address: EthereumAddress, value: nat, dest: AccountId, sig: Signature)
    : seq<Step>
  {
    [Dispatch(Root, SetBridgeAccount(n, bridge)), Dispatch(Root, SetClaimLimit(n, value)),
     Dispatch(Signed(bridge), Mint(n, tx, address, value)), Dispatch(Unsigned, Claim(n, dest, tx, sig))]
  }

  lemma MintAndClaimPays(c: Config, s: Store, n: Network, bridge: AccountId, tx: TxHash, address: EthereumAddress,
                         value: nat, dest: AccountId, sig: Signature)
    requires (n, tx) !in s.claims && n !in s.fees
    requires c.recover(sig, ClaimMessage(c.prefix, dest, tx)) == Some(address)
    ensures var t := Run(c, s, MintAndClaim(n, bridge, tx, address, value, dest, sig));
            && t.claims == s.claims[(n, tx) := ClaimRecord(address, value, true)]
            && t.balances == Deposit(s.balances, dest, value) && t.fees == s.fees
  {
    var steps := MintAndClaim(n, bridge, tx, address, value, dest, sig);
    var s1 := s.(bridges := s.bridges[n := bridge]);
    var s2 := s1.(limits := s1.limits[n := value]);
    assert Next(c, s, steps[0]) == s1 && Next(c, s1, steps[1]) == s2;
    var s3 := s2.(claims := s2.claims[(n, tx) := ClaimRecord(address, value, false)], limits := s2.limits[n := 0]);
    assert Next(c, s2, steps[2]) == s3;
    var s4 := Next(c, s3, steps[3]);
    assert s4.claims == s.claims[(n, tx) := ClaimRecord(address, value, true)];
    FourSteps(c, s, steps[0], steps[1], steps[2], steps[3]);
  }

  lemma FourSteps(c: Config, s: Store, w: Step, x: Step, y: Step, z: Step)
    ensures Run(c, s, [w, x, y, z]) == Next(c, Next(c, Next(c, Next(c, s, w), x), y), z)
  {
    assert [w, x, y, z][1..] == [x, y, z] && [x, y, z][1..] == [y, z] && [y, z][1..] == [z] && [z][1..] == [];
    var s1 := Next(c, s, w);
    var s2 := Next(c, s1, x);
    var s3 := Next(c, s2, y);
    assert Run(c, s, [w, x, y, z]) == Run(c, s1, [x, y, z]) == Run(c, s2, [y, z]);
    assert Run(c, s2, [y, z]) == Run(c, s3, [z]) == Run(c, Next(c, s3, z), []);
  }

  /** A run that pays one signature twice: the same transaction is minted to the same address on both networks. */
  lemma OneSignaturePaidTwice(c: Config, s: Store, bridge: AccountId, tx: TxHash, address: EthereumAddress, value: nat,
                              dest: AccountId, sig: Signature)
    requires (BSC, tx) !in s.claims && (Ethereum, tx) !in s.claims && BSC !in s.fees && Ethereum !in s.fees
    requires c.recover(sig, ClaimMessage(c.prefix, dest, tx)) == Some(address)
    ensures var steps := MintAndClaim(BSC, bridge, tx, address, value, dest, sig)
                         + MintAndClaim(Ethereum, bridge, tx, address, value, dest, sig);
            ReadOrZero(Run(c, s, steps).balances, dest) == ReadOrZero(s.balances, dest) + 2 * value
  {
    var first := MintAndClaim(BSC, bridge, tx, address, value, dest, sig);
    var second := MintAndClaim(Ethereum, bridge, tx, address, value, dest, sig);
    RunAppend(c, s, first, second);
    MintAndClaimPays(c, s, BSC, bridge, tx, address, value, dest, sig);
    MintAndClaimPays(c, Run(c, s, first), Ethereum, bridge, tx, address, value, dest, sig);
  }

  // ---------- Conservation ----------

  ghost function Unclaimed(claims: map<Key, ClaimRecord>): map<Key, nat> {
    map k | k in claims :: if claims[k].claimed then 0 else claims[k].amount
  }

  ghost function Issuance(s: Store): nat {
    Sum(s.balances)
  }

  ghost function Outstanding(s: Store): nat {
    Sum(Unclaimed(s.claims))
  }

  /** Totals over the events of a run: mints before and after fees, payments, burns before and after fees, imports. */
  datatype Totals = Totals(minted: nat, recorded: nat, paid: nat, gross: nat, net: nat, imported: nat)

  ghost function Tally(event: Event): Totals {
    match event
    case Minted(_, _, value, amount) => Totals(value, amount, 0, 0, 0, 0)
    case Claimed(_, _, _, amount) => Totals(0, 0, amount, 0, 0, 0)
    case Burned(_, _, _, gross, net) => Totals(0, 0, 0, gross, net, 0)
    case Migrated(imported) => Totals(0, 0, 0, 0, 0, Sum(Unclaimed(imported)))
    case _ => Totals(0, 0, 0, 0, 0, 0)
  }

  ghost function Plus(x: Totals, y: Totals): Totals {
    Totals(x.minted + y.minted, x.recorded + y.recorded, x.paid + y.paid, x.gross + y.gross, x.net + y.net,
           x.imported + y.imported)
  }

  ghost function Total(events: seq<Event>): Totals {
    if events == [] then Totals(0, 0, 0, 0, 0, 0) else Plus(Tally(events[0]), Total(events[1..]))
  }

  lemma TotalCons(event: Event, events: seq<Event>)
    ensures Total([event] + events) == Plus(Tally(event), Total(events))
  {
    assert ([event] + events)[1..] == events;
  }

  /** The books of `t` are those of `s` moved by the totals `x`. */
  ghost predicate Conserved(s: Store, t: Store, x: Totals) {
    && x.recorded <= x.minted && x.net <= x.gross
    && Issuance(t) + x.net == Issuance(s) + (x.minted - x.recorded) + x.paid
    && Outstanding(t) + x.paid == Outstanding(s) + x.recorded + x.imported
  }

  lemma DepositSum(balances: map<AccountId, nat>, who: AccountId, amount: nat)
    ensures Sum(Deposit(balances, who, amount)) == Sum(balances) + amount
  {
    SumUpdate(balances, who, ReadOrZero(balances, who) + amount);
  }

  lemma RecordSum(claims: map<Key, ClaimRecord>, k: Key, record: ClaimRecord)
    ensures Sum(Unclaimed(claims[k := record])) + (if k in claims && !claims[k].claimed then claims[k].amount else 0)
         == Sum(Unclaimed(claims)) + (if record.claimed then 0 else record.amount)
  {
    var v := if record.claimed then 0 else record.amount;
    assert Unclaimed(claims[k := record]) == Unclaimed(claims)[k := v];
    SumUpdate(Unclaimed(claims), k, v);
  }

  lemma ImportSum(claims: map<Key, ClaimRecord>, imported: map<Key, ClaimRecord>)
    requires forall k :: k in imported ==> k !in claims
    ensures Sum(Unclaimed(claims + imported)) == Sum(Unclaimed(claims)) + Sum(Unclaimed(imported))
  {
    assert Unclaimed(claims + imported) == Unclaimed(claims) + Unclaimed(imported);
    SumDisjointUnion(Unclaimed(claims), Unclaimed(imported));
  }

  lemma BurnConserves(balances: map<AccountId, nat>, who: AccountId, feeAccount: AccountId, gross: nat, net: nat)
    requires net <= gross <= ReadOrZero(balances, who)
    ensures var withdrawn := balances[who := ReadOrZero(balances, who) - gross];
            && Sum(withdrawn) + gross == Sum(balances)
            && Sum(Deposit(withdrawn, feeAccount, gross - net)) + net == Sum(balances)
  {
    var left := ReadOrZero(balances, who) - gross;
    SumUpdate(balances, who, left);
    DepositSum(balances[who := left], feeAccount, gross - net);
  }

  lemma RecordEffectConserves(c: Config, s: Store, t: Store, event: Event)
    requires (event.Minted? || event.Claimed?) && Effect(c, s, t, event)
    ensures Conserved(s, t, Tally(event))
  {
    match event
    case Minted(k, address, value, amount) =>
      DepositSum(s.balances, c.feeAccount, value - amount);
      RecordSum(s.claims, k, ClaimRecord(address, amount, false));
    case Claimed(k, dest, signer, amount) =>
      DepositSum(s.balances, dest, amount);
      RecordSum(s.claims, k, ClaimRecord(signer, amount, true));
  }

  lemma EffectConserves(c: Config, s: Store, t: Store, event: Event)
    requires Effect(c, s, t, event)
    ensures Conserved(s, t, Tally(event))
  {
    match event
    case Minted(_, _, _, _) => RecordEffectConserves(c, s, t, event);
    case Claimed(_, _, _, _) => RecordEffectConserves(c, s, t, event);
    case Burned(_, who, _, gross, net) => BurnConserves(s.balances, who, c.feeAccount, gross, net);
    case Migrated(imported) => ImportSum(s.claims, imported);
    case _ =>
  }

  /**
   Conservation over every run: issuance grows by mint fees and payments and shrinks by net burns, unclaimed
   records grow by recorded and imported amounts and shrink by payments. Adding the two, issuance plus
   unclaimed amounts moves by exactly the values minted and imported less the net burns.
   */
  lemma {:induction false} RunConserves(c: Config, s: Store, steps: seq<Step>)
    ensures var t, x := Run(c, s, steps), Total(Events(c, s, steps));
            && Conserved(s, t, x)
            && Issuance(t) + Outstanding(t) + x.net == Issuance(s) + Outstanding(s) + x.minted + x.imported
    decreases |steps|
  {
    if steps != [] {
      var n, event := Next(c, s, steps[0]), EventOf(c, s, steps[0]);
      StepEffect(c, s, steps[0]);
      EffectConserves(c, s, n, event);
      RunConserves(c, n, steps[1..]);
      EventsCons(c, s, steps);
      TotalCons(event, Events(c, n, steps[1..]));
    }
  }

  // ---------- Every balance is explained by the events ----------

  /** What an event adds to the balance of `a`: payments to it, burns by it, and fees if it collects them. */
  function Gain(c: Config, event: Event, a: AccountId): int {
    match event
    case Minted(_, _, value, amount) => if a == c.feeAccount then value - amount else 0
    case Claimed(_, dest, _, amount) => if a == dest then amount else 0
    case Burned(_, who, _, gross, net) =>
      (if a == c.feeAccount then gross - net else 0) - (if a == who then gross else 0)
    case _ => 0
  }

  function Gains(c: Config, events: seq<Event>, a: AccountId): int {
    if events == [] then 0 else Gain(c, events[0], a) + Gains(c, events[1..], a)
  }

  lemma GainsCons(c: Config, event: Event, events: seq<Event>, a: AccountId)
    ensures Gains(c, [event] + events, a) == Gain(c, event, a) + Gains(c, events, a)
  {
    assert ([event] + events)[1..] == events;
  }

  lemma EffectExplainsBalance(c: Config, s: Store, t: Store, event: Event, a: AccountId)
    requires Effect(c, s, t, event)
    ensures ReadOrZero(t.balances, a) == ReadOrZero(s.balances, a) + Gain(c, event, a)
  {
  }

  /** Over every run, each account's balance moves by exactly its payments, its burns and the fees it collects. */
  lemma {:induction false} RunExplainsBalance(c: Config, s: Store, steps: seq<Step>, a: AccountId)
    ensures ReadOrZero(Run(c, s, steps).balances, a)
         == ReadOrZero(s.balances, a) + Gains(c, Events(c, s, steps), a)
    decreases |steps|
  {
    if steps != [] {
      var n, event := Next(c, s, steps[0]), EventOf(c, s, steps[0]);
      StepEffect(c, s, steps[0]);
      EffectExplainsBalance(c, s, n, event, a);
      RunExplainsBalance(c, n, steps[1..], a);
      EventsCons(c, s, steps);
      GainsCons(c, event, Events(c, n, steps[1..]), a);
    }
  }
}
