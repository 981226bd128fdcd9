/** Whole runs of the contract.  A transaction whose payee calls back, to any depth
    and with any mixture of failing calls, has the effect of a flat sequence of
    operations; the invariant and the monotone facts therefore hold for every run. */
module ArchonRuns {
  import opened Arithmetic
  import opened SafeMath
  import opened ArchonModel
  import opened ArchonInvariants
  import opened ArchonSteps
  import opened MapSums
  import BitFields

  datatype Step = Step(sender: Caller, value: Uint256, op: Op)

  /** Operations applied one after another, with no call-backs, all of which succeed. */
  function Replay(s: State, steps: seq<Step>): Evm<State>
    decreases |steps|
  {
    if steps == [] then Done(s)
    else
      var t :- Effect(s, steps[0].sender, steps[0].value, steps[0].op);
      Replay(t, steps[1..])
  }

  /** The operations of a transaction that took effect, in the order they did. */
  function Committed(s: State, tx: Tx): seq<Step>
    decreases tx, 0
  {
    var effect := Effect(s, tx.sender, tx.value, tx.op);
    if !effect.Done? then []
    else if !tx.op.PaysSender() then [Step(tx.sender, tx.value, tx.op)]
    else if tx.accepts then [Step(tx.sender, tx.value, tx.op)] + CommittedAll(effect.value, tx.inner)
    else []
  }

  function CommittedAll(s: State, txs: seq<Tx>): seq<Step>
    decreases txs, 0
  {
    if txs == [] then []
    else
      var outcome := Exec(s, txs[0]);
      Committed(s, txs[0]) + CommittedAll(if outcome.Done? then outcome.value else s, txs[1..])
  }

  lemma {:induction false} ReplayConcat(s: State, a: seq<Step>, b: seq<Step>)
    requires Replay(s, a).Done?
    ensures Replay(s, a + b) == Replay(Replay(s, a).value, b)
    decreases |a|
  {
    if a == [] {
      assert a + b == b;
    } else {
      hide Effect;
      assert (a + b)[1..] == a[1..] + b;
      var t := Effect(s, a[0].sender, a[0].value, a[0].op).value;
      ReplayConcat(t, a[1..], b);
    }
  }

  lemma ReplayOne(s: State, st: Step)
    ensures Replay(s, [st]) == Effect(s, st.sender, st.value, st.op)
  {
    hide Effect;
    assert [st][1..] == [];
  }

  /** Re-entrancy adds nothing: a transaction is the replay of what it committed. */
  lemma {:induction false} Linearises(s: State, tx: Tx)
    ensures Replay(s, Committed(s, tx)) == (if Exec(s, tx).Done? then Exec(s, tx) else Done(s))
    decreases tx, 0
  {
    hide Effect;
    var effect := Effect(s, tx.sender, tx.value, tx.op);
    var st := Step(tx.sender, tx.value, tx.op);
    ReplayOne(s, st);
    if effect.Done? && tx.op.PaysSender() && tx.accepts {
      LinearisesAll(effect.value, tx.inner);
      ReplayConcat(s, [st], CommittedAll(effect.value, tx.inner));
    }
  }

  lemma {:induction false} LinearisesAll(s: State, txs: seq<Tx>)
    ensures Replay(s, CommittedAll(s, txs)) == Done(Run(s, txs))
    decreases txs, 0
  {
    hide Effect, Exec;
    if txs == [] {
    } else {
      var outcome := Exec(s, txs[0]);
      var t := if outcome.Done? then outcome.value else s;
      Linearises(s, txs[0]);
      LinearisesAll(t, txs[1..]);
      ReplayConcat(s, Committed(s, txs[0]), CommittedAll(t, txs[1..]));
    }
  }

  lemma {:induction false} ReplayKeeps(s: State, steps: seq<Step>)
    requires Inv(s) && Replay(s, steps).Done?
    ensures Inv(Replay(s, steps).value) && Evolves(s, Replay(s, steps).value)
    decreases |steps|
  {
    hide Effect, Inv, Evolves;
    if steps == [] {
      EvolvesReflexive(s);
    } else {
      var st := steps[0];
      var t := Effect(s, st.sender, st.value, st.op).value;
      EffectKeeps(s, st.sender, st.value, st.op, t);
      ReplayKeeps(t, steps[1..]);
      InvRegistry(Replay(s, steps).value);
      EvolvesTransitive(s, t, Replay(s, steps).value);
    }
  }

  lemma InvRegistry(s: State)
    requires Inv(s)
    ensures Registry(s.spAddress2SPProfile, s.nodeID2Address) && Surplus(s) >= 0
  {
  }

  /** Every run, with any call-backs, keeps the invariant and goes back on nothing:
      the surplus does not fall, the log only grows, names stay, lost standing stays
      lost until the provider leaves and joins again. */
  lemma RunKeeps(s: State, txs: seq<Tx>)
    requires Inv(s)
    ensures Inv(Run(s, txs)) && Evolves(s, Run(s, txs))
  {
    LinearisesAll(s, txs);
    ReplayKeeps(s, CommittedAll(s, txs));
  }

  /** No payout of the tree of calls lacks funds, at the moment it is made, even in
      a branch that is rolled back later. */
  ghost predicate Funded(s: State, tx: Tx)
    decreases tx, 0
  {
    var effect := Effect(s, tx.sender, tx.value, tx.op);
    effect != OutOfFunds && (effect.Done? ==> AllFunded(effect.value, tx.inner))
  }

  ghost predicate AllFunded(s: State, txs: seq<Tx>)
    decreases txs, 0
  {
    txs == [] ||
    (Funded(s, txs[0]) && AllFunded(if Exec(s, txs[0]).Done? then Exec(s, txs[0]).value else s, txs[1..]))
  }

  lemma {:induction false} PayoutsFunded(s: State, tx: Tx)
    requires Inv(s)
    ensures Funded(s, tx)
    decreases tx, 0
  {
    hide Effect, Inv;
    var effect := Effect(s, tx.sender, tx.value, tx.op);
    InvRegistry(s);
    EffectFunded(s, tx.sender, tx.value, tx.op);
    if effect.Done? {
      EffectKeeps(s, tx.sender, tx.value, tx.op, effect.value);
      AllPayoutsFunded(effect.value, tx.inner);
    }
  }

  lemma {:induction false} AllPayoutsFunded(s: State, txs: seq<Tx>)
    requires Inv(s)
    ensures AllFunded(s, txs)
    decreases txs, 0
  {
    hide Exec, Inv;
    if txs == [] {
    } else {
      PayoutsFunded(s, txs[0]);
      ExecKeeps(s, txs[0]);
      AllPayoutsFunded(if Exec(s, txs[0]).Done? then Exec(s, txs[0]).value else s, txs[1..]);
    }
  }

  lemma ExecKeeps(s: State, tx: Tx)
    requires Inv(s)
    ensures Exec(s, tx).Done? ==> Inv(Exec(s, tx).value) && Evolves(s, Exec(s, tx).value)
  {
    hide Effect, Inv, Evolves, Exec;
    Linearises(s, tx);
    ReplayKeeps(s, Committed(s, tx));
  }

  // ---- what the invariant says about the runs of a deployed contract ----

  ghost predicate Reachable(s: State) {
    exists deployer: Caller, value: Uint256, txs: seq<Tx> :: ReachedBy(s, deployer, value, txs)
  }

  predicate ReachedBy(s: State, deployer: Caller, value: Uint256, txs: seq<Tx>) {
    s == Run(Deployed(deployer, value), txs)
  }

  lemma ReachableInv(s: State)
    requires Reachable(s)
    ensures Inv(s)
  {
    var deployer: Caller, value: Uint256, txs: seq<Tx> :| ReachedBy(s, deployer, value, txs);
    DeployedInv(deployer, value);
    RunKeeps(Deployed(deployer, value), txs);
  }

  /** Solvency: the balance covers every stake and every earning, and no payout of any
      further transaction, at any depth, fails for lack of funds. */
  lemma Solvency(s: State, tx: Tx)
    requires Reachable(s)
    ensures s.balance >= Sum(s.spAddress2SPProfile, Owed)
    ensures Funded(s, tx) && Exec(s, tx) != OutOfFunds
  {
    ReachableInv(s);
    PayoutsFunded(s, tx);
  }

  /** Within one registration a provider never receives more than its stake and its
      credits; a settlement that pays anything has deducted every slash. */
  lemma LifetimePayout(s: State, a: Address, k: nat)
    requires Reachable(s) && k < |s.log| && s.log[k].sp == a
    ensures s.log[k].Unregistered? ==>
      var acc, paid := Ledger(s.log[..k], a), s.log[k].settlement;
      && acc.withdrawn + paid <= acc.stake + acc.credited
      && (paid > 0 ==> acc.withdrawn + paid <= acc.stake + acc.credited - acc.slashed)
    ensures Ledger(s.log, a).withdrawn <= Ledger(s.log, a).credited
  {
    ReachableInv(s);
    if s.log[k].Unregistered? {
      SettlementAt(s.log, k);
    }
    assert LedgerAgrees(s.log, s.spAddress2SPProfile, a);
  }

  lemma {:induction false} SettlementAt(log: seq<Event>, k: nat)
    requires PayoutsAccounted(log) && k < |log| && log[k].Unregistered?
    ensures SettlementBounded(Ledger(log[..k], log[k].sp), log[k].settlement)
  {
    if k == |log| - 1 {
    } else {
      SettlementAt(log[..|log| - 1], k);
      assert log[..|log| - 1][..k] == log[..k];
    }
  }

  /** While a provider is registered, its free storage and the shards it has taken
      since its registration add up to what its parameters pledge. */
  lemma StorageConserved(s: State, a: Address)
    requires Reachable(s) && s.IsRegistered(a)
    ensures s.SP(a).remainingStorage + Ledger(s.log, a).accepted == BitFields.PledgedStorage(s.SP(a).params)
  {
    ReachableInv(s);
    assert LedgerAgrees(s.log, s.spAddress2SPProfile, a);
  }

  /** The money of a registration: what was credited is still earned, or was paid out,
      or was kept back by a withdrawal as slash. */
  lemma EarningsConserved(s: State, a: Address)
    requires Reachable(s)
    ensures var acc, p := Ledger(s.log, a), s.SP(a);
      p.earnings + acc.withdrawn + acc.charged == acc.credited && p.slash == acc.slashed && p.stake == acc.stake
  {
    ReachableInv(s);
    assert LedgerAgrees(s.log, s.spAddress2SPProfile, a);
  }

  /** Node ids and registered providers determine each other. */
  lemma RegistryBijection(s: State, a: Caller, node: Bytes32)
    requires Reachable(s) && node != 0
    ensures s.NodeOwner(node) == a <==> s.IsRegistered(a) && s.SP(a).nodeID == node
    ensures s.IsRegistered(a) ==> s.SP(a).nodeID != 0
    ensures !s.IsRegistered(a) ==> s.SP(a).stake == s.SP(a).earnings == 0 && !s.SP(a).inGoodStanding
  {
    ReachableInv(s);
    assert NodeAgrees(s.spAddress2SPProfile, s.nodeID2Address, a, node);
    assert WellShaped(s.spAddress2SPProfile, a);
  }

  /** Lost standing: as long as the provider does not leave, nothing of its profile
      changes but the slash, which does not fall; standing comes back only after it
      has left and then joined again. */
  lemma LostStanding(s: State, txs: seq<Tx>, a: Address)
    requires Reachable(s) && OutOfStanding(s.SP(a))
    ensures var t := Run(s, txs);
      && (!Left(t.log, |s.log|, |t.log|, a) ==>
            t.SP(a) == s.SP(a).(slash := t.SP(a).slash) && t.SP(a).slash >= s.SP(a).slash)
      && (t.SP(a).inGoodStanding ==> LeftThenJoined(t.log, |s.log|, a))
  {
    ReachableInv(s);
    RunKeeps(s, txs);
    assert StandingKept(s, Run(s, txs), a);
  }

  /** User names: the two mappings are inverse, and no later run changes an entry. */
  lemma UserNames(s: State, txs: seq<Tx>, a: Caller, name: Bytes32)
    requires Reachable(s) && name != 0
    ensures s.NameOf(a) == name <==> s.User(name).usersAddress == a
    ensures s.NameOf(a) == name ==> Run(s, txs).NameOf(a) == name && Run(s, txs).User(name) == s.User(name)
  {
    ReachableInv(s);
    RunKeeps(s, txs);
    var t := Run(s, txs);
    assert NameAgrees(s.username2UserProfile, s.address2Username, a, name);
    assert NameKept(s.address2Username, t.address2Username, a);
    assert UserKept(s.username2UserProfile, t.username2UserProfile, name);
  }

  // ---- uploads ----

  /** A successful upload raises the earnings by exactly the payment, whatever the
      list repeats, and pays every listing at least that provider's own ask. */
  lemma UploadConservation(
    s: State, sender: Caller, value: Uint256, params: Bytes32, shardsize: Uint64, list: AddressList, t: State, i: nat)
    requires Effect(s, sender, value, ProposeUpload(params, shardsize, list)) == Done(t) && i < |list|
    ensures t.balance == s.balance + value
    ensures Sum(t.spAddress2SPProfile, Earned) == Sum(s.spAddress2SPProfile, Earned) + value
    ensures Divides(|list|, value)
    ensures value / |list|
         >= MinAsk(s.spAddress2SPProfile, list[i]) * BitFields.TimeInMonths(params)
            * (if shardsize < 1_000_000 then 1 else shardsize / 1_000_000)
    ensures t.SP(list[i]).earnings
         == s.SP(list[i]).earnings + Quotient(value, |list|) * Times(list, list[i])
    ensures t.SP(list[i]).remainingStorage + shardsize * Times(list, list[i]) == s.SP(list[i]).remainingStorage
  {
    var e := Enter(s, value);
    SurplusOfUpload(e, sender, value, params, shardsize, list, t);
    ProfileAfterUpload(e, sender, value, params, shardsize, list, t, list[i]);
    assert list[i] in list;
    PriceMono(shardsize, MinAsk(s.spAddress2SPProfile, list[i]), MaxMinAsk(s.spAddress2SPProfile, list),
              BitFields.TimeInMonths(params));
    PriceIs(shardsize, MinAsk(s.spAddress2SPProfile, list[i]), BitFields.TimeInMonths(params));
  }

  /** The price of a shard is the ask for each month and each whole megabyte, at least one. */
  lemma PriceIs(shardsize: nat, ask: nat, months: nat)
    ensures UploadPrice(shardsize, ask, months)
         == ask * months * (if shardsize < 1_000_000 then 1 else shardsize / 1_000_000)
  {
    QuotientBounds(shardsize, 1_000_000);
    var m := ChargedMegaBytes(shardsize);
    assert (m * ask) * months == ask * months * m;
  }

  lemma PriceMono(shardsize: nat, ask: nat, ask': nat, months: nat)
    requires ask <= ask'
    ensures UploadPrice(shardsize, ask, months) <= UploadPrice(shardsize, ask', months)
  {
    var m := ChargedMegaBytes(shardsize);
    assert m * ask <= m * ask';
    assert (m * ask) * months <= (m * ask') * months;
  }
}
