/** One operation of the contract, up to the point where its caller's code could
    run, keeps the invariant and never goes back. */
module ArchonSteps {
  import opened Arithmetic
  import opened SafeMath
  import opened ArchonModel
  import opened ArchonPayments
  import opened ArchonInvariants
  import opened MapSums
  import BitFields

  // ---- solvency ----

  lemma SurplusOfStore(s: State, t: State, a: Address, p: SPProfile)
    requires t.spAddress2SPProfile == s.spAddress2SPProfile[a := p]
    ensures Surplus(t) == Surplus(s) + (t.balance - s.balance) + Owed(s.SP(a)) - Owed(p)
    ensures Owed(s.SP(a)) <= Liabilities(s)
  {
    hide Sum;
    SumUpdate(s.spAddress2SPProfile, Owed, a, p);
    if a in s.spAddress2SPProfile {
      SumMember(s.spAddress2SPProfile, Owed, a);
    }
  }

  lemma SurplusOfUpload(
    s: State, sender: Caller, value: Uint256, params: Bytes32, shardsize: Uint64, list: AddressList, t: State)
    requires Upload(s, sender, value, params, shardsize, list) == Done(t)
    ensures Liabilities(t) == Liabilities(s) + value && Surplus(t) == Surplus(s) - value
    ensures Sum(t.spAddress2SPProfile, Earned) == Sum(s.spAddress2SPProfile, Earned) + value
  {
    var share := UploadShare(s, sender, value, params, shardsize, list).value;
    ShareExact(value, |list|);
    SumCreditAll(s.spAddress2SPProfile, list, share, shardsize, Owed, share);
    SumCreditAll(s.spAddress2SPProfile, list, share, shardsize, Earned, share);
  }

  lemma SurplusOfRegister(s: State, sender: Caller, value: Uint256, params: Bytes32, nodeID: Bytes32, t: State)
    requires Register(s, sender, value, params, nodeID) == Done(t)
    ensures Surplus(t) >= Surplus(s) - value
  {
    hide BitFields.PledgedStorage, TotalCost, Sum;
    assert t.spAddress2SPProfile == s.spAddress2SPProfile[sender := t.SP(sender)];
    SurplusOfStore(s, t, sender, t.SP(sender));
  }

  lemma SurplusOfSlash(s: State, sender: Caller, amount: Uint256, sp: Address, t: State)
    requires Slash(s, sender, amount, sp) == Done(t)
    ensures Surplus(t) == Surplus(s)
  {
    hide Sum;
    assert t.spAddress2SPProfile == s.spAddress2SPProfile[sp := t.SP(sp)];
    SurplusOfStore(s, t, sp, t.SP(sp));
  }

  lemma SettlementAtMostOwed(p: SPProfile)
    requires Settlement(p).Done?
    ensures Settlement(p).value <= Owed(p)
  {
  }

  lemma SurplusOfUnregister(s: State, sender: Caller, t: State)
    requires Unregister(s, sender) == Done(t)
    ensures Surplus(t) >= Surplus(s)
  {
    hide Sum, Settlement;
    var p := s.SP(sender);
    var blank := SPProfile(0, 0, 0, 0, 0, p.remainingStorage, false);
    assert Settlement(p).Done?;
    assert t.spAddress2SPProfile == s.spAddress2SPProfile[sender := blank];
    assert t.balance == s.balance - Settlement(p).value;
    SettlementAtMostOwed(p);
    SurplusOfStore(s, t, sender, blank);
    assert Owed(blank) == 0;
  }

  lemma SurplusOfWithdrawal(s: State, sender: Caller, t: State)
    requires Withdraw(s, sender) == Done(t)
    ensures Surplus(t) >= Surplus(s)
  {
    hide Sum;
    var p := s.SP(sender);
    if p.slash < p.earnings {
      SurplusOfStore(s, t, sender, p.(earnings := 0));
    }
  }

  lemma NoMoneyMoves(s: State, sender: Caller, value: Uint256, op: Op, t: State)
    requires Operation(s, sender, value, op) == Done(t)
    requires
      op.Fallback? || op.RegisterUsername? || op.UpdateCostScalar? || op.TransferOwnership? || op.RenounceOwnership?
    ensures t.balance == s.balance && t.spAddress2SPProfile == s.spAddress2SPProfile
    ensures t.nodeID2Address == s.nodeID2Address && t.log == s.log
  {
  }

  /** The operation on the state that already holds the message value: what the
      contract holds beyond its debts falls by at most that value. */
  lemma SurplusKept(s: State, sender: Caller, value: Uint256, op: Op, t: State)
    requires Operation(s, sender, value, op) == Done(t)
    ensures Surplus(t) >= Surplus(s) - value
  {
    hide Register, Upload, Slash, Unregister, Withdraw, Sum;
    match op {
      case RegisterSP(params, nodeID) => SurplusOfRegister(s, sender, value, params, nodeID, t);
      case ProposeUpload(params, shardsize, list) => SurplusOfUpload(s, sender, value, params, shardsize, list, t);
      case SlashStake(amount, sp) => SurplusOfSlash(s, sender, amount, sp, t);
      case UnregisterSP => SurplusOfUnregister(s, sender, t);
      case ArchonSPWithdrawal => SurplusOfWithdrawal(s, sender, t);
      case _ => NoMoneyMoves(s, sender, value, op, t);
    }
  }

  /** What a payout takes is owed to the payee, so a solvent contract can pay it. */
  lemma PayoutCovered(s: State, sender: Caller)
    requires Surplus(s) >= 0
    ensures Unregister(s, sender) != OutOfFunds
    ensures Withdraw(s, sender) != OutOfFunds
  {
    SurplusOfStore(s, s.(spAddress2SPProfile := s.spAddress2SPProfile[sender := NO_PROFILE]), sender, NO_PROFILE);
    assert s.balance >= Owed(s.SP(sender));
  }

  // ---- registries ----

  lemma ProfileAfterUpload(
    s: State, sender: Caller, value: Uint256, params: Bytes32, shardsize: Uint64, list: AddressList, t: State,
    a: Address)
    requires Upload(s, sender, value, params, shardsize, list) == Done(t)
    ensures var share := UploadShare(s, sender, value, params, shardsize, list).value;
      && shardsize * Times(list, a) <= s.SP(a).remainingStorage
      && s.SP(a).earnings + share * Times(list, a) < WORD
      && t.SP(a) == CreditTimes(s.SP(a), share, shardsize, Times(list, a))
      && (a in list ==> s.SP(a).inGoodStanding)
    ensures t.SP(a) == s.SP(a).(earnings := t.SP(a).earnings, remainingStorage := t.SP(a).remainingStorage)
    ensures t.SP(a).earnings >= s.SP(a).earnings
  {
    var share := UploadShare(s, sender, value, params, shardsize, list).value;
    CreditNotNegative(share, Times(list, a));
    if a !in list {
      assert Times(list, a) == 0;
      MulSucc(shardsize, 0);
      MulSucc(share, 0);
    }
  }

  lemma CreditNotNegative(share: nat, times: nat)
    ensures share * times >= 0
  {
  }

  lemma RegistryFramed(ps: Profiles, ps': Profiles, nodes: map<Bytes32, Address>)
    requires Registry(ps, nodes)
    requires forall a: Address :: SameIdentity(ps, ps', a)
    ensures Registry(ps', nodes)
  {
    forall a: Address
      ensures WellShaped(ps', a)
    {
      assert WellShaped(ps, a) && SameIdentity(ps, ps', a);
    }
    forall a: Address, n: Bytes32
      ensures NodeAgrees(ps', nodes, a, n)
    {
      assert NodeAgrees(ps, nodes, a, n) && SameIdentity(ps, ps', a);
    }
  }

  predicate SameIdentity(ps: Profiles, ps': Profiles, a: Address) {
    var p, p' := At(ps, a, NO_PROFILE), At(ps', a, NO_PROFILE);
    p'.params == p.params && p'.nodeID == p.nodeID && (p.params == 0 && Blank(p) ==> Blank(p'))
  }

  lemma RegistryAfterUnregister(ps: Profiles, nodes: map<Bytes32, Address>, a: Caller, p: SPProfile)
    requires Registry(ps, nodes) && p.params == 0 && Blank(p)
    ensures Registry(ps[a := p], nodes[At(ps, a, NO_PROFILE).nodeID := 0])
  {
    var node := At(ps, a, NO_PROFILE).nodeID;
    var ps', nodes' := ps[a := p], nodes[node := 0];
    assert WellShaped(ps, a);
    forall b: Address
      ensures WellShaped(ps', b)
    {
      assert WellShaped(ps, b);
    }
    forall b: Address, n: Bytes32
      ensures NodeAgrees(ps', nodes', b, n)
    {
      assert NodeAgrees(ps, nodes, b, n) && NodeAgrees(ps, nodes, a, n);
    }
  }

  lemma RegistryAfterRegister(ps: Profiles, nodes: map<Bytes32, Address>, a: Caller, p: SPProfile)
    requires Registry(ps, nodes) && At(ps, a, NO_PROFILE).params == 0
    requires p.params != 0 && p.nodeID != 0 && At(nodes, p.nodeID, 0) == 0
    ensures Registry(ps[a := p], nodes[p.nodeID := a])
  {
    var ps', nodes' := ps[a := p], nodes[p.nodeID := a];
    forall b: Address
      ensures WellShaped(ps', b)
    {
      assert WellShaped(ps, b);
    }
    forall b: Address, n: Bytes32
      ensures NodeAgrees(ps', nodes', b, n)
    {
      assert NodeAgrees(ps, nodes, b, n);
    }
  }

  lemma RegistryAfterUpload(
    s: State, sender: Caller, value: Uint256, params: Bytes32, shardsize: Uint64, list: AddressList, t: State)
    requires Registry(s.spAddress2SPProfile, s.nodeID2Address)
    requires Upload(s, sender, value, params, shardsize, list) == Done(t)
    ensures Registry(t.spAddress2SPProfile, t.nodeID2Address)
  {
    forall a: Address
      ensures SameIdentity(s.spAddress2SPProfile, t.spAddress2SPProfile, a)
    {
      ProfileAfterUpload(s, sender, value, params, shardsize, list, t, a);
      if a !in list {
        assert Times(list, a) == 0;
      }
    }
    RegistryFramed(s.spAddress2SPProfile, t.spAddress2SPProfile, s.nodeID2Address);
  }

  lemma RegistryKept(s: State, sender: Caller, value: Uint256, op: Op, t: State)
    requires Registry(s.spAddress2SPProfile, s.nodeID2Address) && Operation(s, sender, value, op) == Done(t)
    ensures Registry(t.spAddress2SPProfile, t.nodeID2Address)
  {
    hide BitFields.PledgedStorage, TotalCost, Upload, RegisterName, SetScalar;
    match op {
      case RegisterSP(params, nodeID) =>
        RegistryAfterRegister(s.spAddress2SPProfile, s.nodeID2Address, sender, t.SP(sender));
      case ProposeUpload(params, shardsize, list) =>
        RegistryAfterUpload(s, sender, value, params, shardsize, list, t);
      case UnregisterSP =>
        RegistryAfterUnregister(s.spAddress2SPProfile, s.nodeID2Address, sender, t.SP(sender));
      case SlashStake(_, _) =>
        RegistryFramed(s.spAddress2SPProfile, t.spAddress2SPProfile, s.nodeID2Address);
      case ArchonSPWithdrawal =>
        assert WellShaped(s.spAddress2SPProfile, sender);
        RegistryFramed(s.spAddress2SPProfile, t.spAddress2SPProfile, s.nodeID2Address);
      case _ =>
        NoMoneyMoves(s, sender, value, op, t);
        RegistryFramed(s.spAddress2SPProfile, t.spAddress2SPProfile, s.nodeID2Address);
    }
  }

  lemma NamesKept(s: State, sender: Caller, username: Bytes32, x: Bytes32, y: Bytes32, t: State)
    requires NamesInverse(s.username2UserProfile, s.address2Username)
    requires RegisterName(s, sender, username, x, y) == Done(t)
    ensures NamesInverse(t.username2UserProfile, t.address2Username) && NamesPermanent(s, t)
  {
    forall a: Address, n: Bytes32
      ensures NameAgrees(t.username2UserProfile, t.address2Username, a, n)
    {
      assert NameAgrees(s.username2UserProfile, s.address2Username, a, n);
    }
  }

  lemma NamesStep(s: State, sender: Caller, value: Uint256, op: Op, t: State)
    requires NamesInverse(s.username2UserProfile, s.address2Username)
    requires Operation(s, sender, value, op) == Done(t)
    ensures NamesInverse(t.username2UserProfile, t.address2Username) && NamesPermanent(s, t)
  {
    match op {
      case RegisterUsername(username, x, y) => NamesKept(s, sender, username, x, y, t);
      case _ =>
    }
  }

  // ---- accounts ----

  lemma LedgerAppend(log: seq<Event>, e: Event, a: Address)
    ensures Ledger(log + [e], a) == if e.sp == a then Post(Ledger(log, a), e) else Ledger(log, a)
  {
    assert (log + [e])[..|log + [e]| - 1] == log;
  }

  lemma {:induction false} LedgerOfCredits(log: seq<Event>, list: seq<Address>, share: nat, size: nat, a: Address)
    ensures Ledger(log + CreditEvents(list, share, size), a)
      == var acc := Ledger(log, a);
         acc.(
           credited := acc.credited + Scaled(share, Times(list, a)),
           accepted := acc.accepted + Scaled(size, Times(list, a)))
  {
    if list == [] {
      assert log + CreditEvents(list, share, size) == log;
    } else {
      hide Ledger, Scaled, Times;
      var i := |list| - 1;
      var front := list[..i];
      LedgerOfCredits(log, front, share, size, a);
      var e := Credited(list[i], share, size);
      assert log + CreditEvents(list, share, size) == (log + CreditEvents(front, share, size)) + [e];
      LedgerAppend(log + CreditEvents(front, share, size), e, a);
      TimesStep(list, i, a);
      assert list[..i + 1] == list;
      ScaledNext(share, Times(front, a));
      ScaledNext(size, Times(front, a));
    }
  }

  /** The one event that an operation other than an upload logs, if any. */
  function EventOf(s: State, sender: Caller, value: Uint256, op: Op): seq<Event> {
    match op
    case RegisterSP(params, _) => [Registered(sender, value, BitFields.PledgedStorage(params))]
    case SlashStake(amount, sp) => [Slashed(sp, amount)]
    case UnregisterSP =>
      var settlement := Settlement(s.SP(sender));
      if settlement.Done? then [Unregistered(sender, settlement.value)] else []
    case ArchonSPWithdrawal =>
      var p := s.SP(sender);
      if p.slash < p.earnings then [Withdrawn(sender, p.earnings - p.slash, p.slash)] else [Withdrawn(sender, 0, 0)]
    case _ => []
  }

  lemma EventLogged(s: State, sender: Caller, value: Uint256, op: Op, t: State)
    requires Operation(s, sender, value, op) == Done(t) && !op.ProposeUpload?
    ensures t.log == s.log + EventOf(s, sender, value, op)
  {
  }

  lemma AccountAfterEvent(s: State, sender: Caller, value: Uint256, op: Op, t: State, a: Address, acc: Account)
    requires AccountAgrees(acc, s.SP(a))
    requires !s.IsRegistered(a) ==> Blank(s.SP(a))
    requires Operation(s, sender, value, op) == Done(t) && !op.ProposeUpload?
    ensures var e := EventOf(s, sender, value, op);
      AccountAgrees(if e != [] && e[0].sp == a then Post(acc, e[0]) else acc, t.SP(a))
  {
    hide BitFields.PledgedStorage, TotalCost, RegisterName, SetScalar, UpdateScalar, SetOwner;
    match op {
      case RegisterSP(_, _) => hide Slash, Unregister, Withdraw;
      case SlashStake(_, _) => hide Register, Unregister, Withdraw;
      case UnregisterSP => hide Register, Slash, Withdraw;
      case ArchonSPWithdrawal => hide Register, Slash, Unregister;
      case _ =>
        NoMoneyMoves(s, sender, value, op, t);
    }
  }

  lemma LedgerAfterEvent(log: seq<Event>, e: seq<Event>, a: Address)
    requires |e| <= 1
    ensures Ledger(log + e, a) == if e != [] && e[0].sp == a then Post(Ledger(log, a), e[0]) else Ledger(log, a)
  {
    if e == [] {
      assert log + e == log;
    } else {
      assert e == [e[0]];
      LedgerAppend(log, e[0], a);
    }
  }

  lemma AccountAfterUpload(
    s: State, sender: Caller, value: Uint256, params: Bytes32, shardsize: Uint64, list: AddressList, t: State,
    a: Address)
    requires LedgerAgrees(s.log, s.spAddress2SPProfile, a)
    requires !s.IsRegistered(a) ==> Blank(s.SP(a))
    requires Upload(s, sender, value, params, shardsize, list) == Done(t)
    ensures LedgerAgrees(t.log, t.spAddress2SPProfile, a)
  {
    ProfileAfterUpload(s, sender, value, params, shardsize, list, t, a);
    var share := UploadShare(s, sender, value, params, shardsize, list).value;
    LedgerOfCredits(s.log, list, share, shardsize, a);
  }

  lemma AccountsKept(s: State, sender: Caller, value: Uint256, op: Op, t: State, a: Address)
    requires LedgerAgrees(s.log, s.spAddress2SPProfile, a) && WellShaped(s.spAddress2SPProfile, a)
    requires Operation(s, sender, value, op) == Done(t)
    ensures LedgerAgrees(t.log, t.spAddress2SPProfile, a)
  {
    if op.ProposeUpload? {
      AccountAfterUpload(s, sender, value, op.uploadParams, op.shardsize, op.archonSPs, t, a);
    } else {
      EventLogged(s, sender, value, op, t);
      LedgerAfterEvent(s.log, EventOf(s, sender, value, op), a);
      AccountAfterEvent(s, sender, value, op, t, a, Ledger(s.log, a));
    }
  }

  lemma PayoutsAppend(log: seq<Event>, e: Event)
    requires PayoutsAccounted(log) && PayoutAccounted(Ledger(log, e.sp), e)
    ensures PayoutsAccounted(log + [e])
  {
    assert (log + [e])[..|log + [e]| - 1] == log;
  }

  lemma {:induction false} PayoutsOfCredits(log: seq<Event>, list: seq<Address>, share: nat, size: nat)
    requires PayoutsAccounted(log)
    ensures PayoutsAccounted(log + CreditEvents(list, share, size))
  {
    if list == [] {
      assert log + CreditEvents(list, share, size) == log;
    } else {
      var i := |list| - 1;
      PayoutsOfCredits(log, list[..i], share, size);
      var e := Credited(list[i], share, size);
      assert log + CreditEvents(list, share, size) == (log + CreditEvents(list[..i], share, size)) + [e];
      PayoutsAppend(log + CreditEvents(list[..i], share, size), e);
    }
  }

  lemma PayoutOfStep(s: State, sender: Caller, value: Uint256, op: Op, acc: Account)
    requires op.UnregisterSP? || op.ArchonSPWithdrawal?
    requires AccountAgrees(acc, s.SP(sender)) && EventOf(s, sender, value, op) != []
    ensures PayoutAccounted(acc, EventOf(s, sender, value, op)[0])
  {
  }

  lemma PayoutsKept(s: State, sender: Caller, value: Uint256, op: Op, t: State)
    requires PayoutsAccounted(s.log) && LedgerAgrees(s.log, s.spAddress2SPProfile, sender)
    requires Operation(s, sender, value, op) == Done(t)
    ensures PayoutsAccounted(t.log)
  {
    hide Ledger, PayoutsAccounted;
    if op.ProposeUpload? {
      var share := UploadShare(s, sender, value, op.uploadParams, op.shardsize, op.archonSPs).value;
      PayoutsOfCredits(s.log, op.archonSPs, share, op.shardsize);
    } else {
      var e := EventOf(s, sender, value, op);
      EventLogged(s, sender, value, op, t);
      if e == [] {
        assert t.log == s.log;
      } else {
        assert e == [e[0]];
        if op.UnregisterSP? || op.ArchonSPWithdrawal? {
          PayoutOfStep(s, sender, value, op, Ledger(s.log, sender));
        }
        PayoutsAppend(s.log, e[0]);
      }
    }
  }

  // ---- standing ----

  lemma StandingOfUpload(
    s: State, sender: Caller, value: Uint256, params: Bytes32, shardsize: Uint64, list: AddressList, t: State,
    a: Address)
    requires WellShaped(s.spAddress2SPProfile, a) && Upload(s, sender, value, params, shardsize, list) == Done(t)
    ensures s.log <= t.log && StandingKept(s, t, a)
  {
    ProfileAfterUpload(s, sender, value, params, shardsize, list, t, a);
    if a !in list {
      assert Times(list, a) == 0;
    }
  }

  lemma StandingStep(s: State, sender: Caller, value: Uint256, op: Op, t: State, a: Address)
    requires WellShaped(s.spAddress2SPProfile, a) && Operation(s, sender, value, op) == Done(t)
    ensures s.log <= t.log && StandingKept(s, t, a)
  {
    hide BitFields.PledgedStorage, TotalCost, Upload, RegisterName, SetScalar;
    var i := |s.log|;
    match op {
      case RegisterSP(params, nodeID) =>
        assert t.log[i].Registered? && t.log[i].sp == sender;
      case ProposeUpload(params, shardsize, list) =>
        StandingOfUpload(s, sender, value, params, shardsize, list, t, a);
      case UnregisterSP =>
        assert t.log[i].Unregistered? && t.log[i].sp == sender;
      case SlashStake(_, _) =>
      case ArchonSPWithdrawal =>
      case _ =>
        NoMoneyMoves(s, sender, value, op, t);
    }
  }

  // ---- together ----

  lemma EffectKeeps(s: State, sender: Caller, value: Uint256, op: Op, t: State)
    requires Inv(s) && Effect(s, sender, value, op) == Done(t)
    ensures Inv(t) && Evolves(s, t)
  {
    hide Ledger, Operation, PayoutsAccounted;
    var e := Enter(s, value);
    SurplusKept(e, sender, value, op, t);
    RegistryKept(e, sender, value, op, t);
    NamesStep(e, sender, value, op, t);
    forall a: Address
      ensures LedgerAgrees(t.log, t.spAddress2SPProfile, a) && StandingKept(s, t, a) && s.log <= t.log
    {
      assert LedgerAgrees(e.log, e.spAddress2SPProfile, a) && WellShaped(e.spAddress2SPProfile, a);
      AccountsKept(e, sender, value, op, t, a);
      StandingStep(e, sender, value, op, t, a);
      assert StandingKept(e, t, a);
    }
    assert LedgerAgrees(e.log, e.spAddress2SPProfile, sender) && WellShaped(e.spAddress2SPProfile, sender);
    StandingStep(e, sender, value, op, t, sender);
    PayoutsKept(e, sender, value, op, t);
  }

  lemma EffectFunded(s: State, sender: Caller, value: Uint256, op: Op)
    requires Surplus(s) >= 0
    ensures Effect(s, sender, value, op) != OutOfFunds
  {
    var e := Enter(s, value);
    PayoutCovered(e, sender);
    if !op.PaysSender() {
      OthersNeverPay(e, sender, value, op);
    }
  }

  lemma OthersNeverPay(s: State, sender: Caller, value: Uint256, op: Op)
    requires !op.PaysSender()
    ensures Operation(s, sender, value, op) != OutOfFunds
  {
    match op {
      case RegisterSP(params, nodeID) => assert !Register(s, sender, value, params, nodeID).OutOfFunds?;
      case ProposeUpload(params, shardsize, list) =>
        assert !Upload(s, sender, value, params, shardsize, list).OutOfFunds?;
      case _ =>
    }
  }

  lemma DeployedInv(deployer: Caller, value: Uint256)
    ensures Inv(Deployed(deployer, value))
  {
  }
}
