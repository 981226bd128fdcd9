/** Who may do what: which calls succeed, stated without the closed forms of the
    operations; what only the owner and what only a provider itself can bring about,
    in one operation and in any run; and the books of the money. */
module ArchonRights {
  import opened Arithmetic
  import opened Bytes
  import opened SafeMath
  import opened ArchonModel
  import opened ArchonPayments
  import opened ArchonInvariants
  import opened ArchonSteps
  import opened ArchonRuns
  import BitFields

  // ---- registrations ----

  /** A registration succeeds exactly when the address and the node are new, the
      parameters are not trivial, and the payment reaches the sum of the five scaled
      fields; the bytes of the parameters are `bs`. */
  lemma RegisterAccepted(s: State, a: Caller, value: Uint256, bs: seq<Byte>, params: Bytes32, node: Bytes32)
    requires |bs| == 32 && params == Value(bs)
    ensures var r, c := Effect(s, a, value, RegisterSP(params, node)), s.costs;
      && (r.Done? <==>
        && params != 0 && node != 0 && s.SP(a).params == 0 && s.NodeOwner(node) == 0
        && value >= c.registerCost * c.registerCostScalar + Value(bs[..1]) * c.slaLevelScalar
             + Value(bs[1..9]) * c.availableStorageScalar + Value(bs[9..17]) * c.bandwidthScalar
             + Value(bs[17..25]) * c.minAskPriceScalar)
      && (r.Done? ==>
        && r.value.SP(a) == SPProfile(params, node, value, 0, 0, r.value.SP(a).remainingStorage, true)
        && r.value.SP(a).remainingStorage == Value(bs[1..9])
        && r.value.NodeOwner(node) == a && r.value.balance == s.balance + value)
  {
    BitFields.FieldsAreByteRanges(bs, params);
    hide BitFields.SlaLevel, BitFields.PledgedStorage, BitFields.Bandwidth, BitFields.MinAskPrice, Value;
  }

  /** In a new contract a registration costs 10^15, whatever the parameters say. */
  lemma FirstRegistration(deployer: Caller, funds: Uint256, a: Caller, value: Uint256, params: Bytes32, node: Bytes32)
    ensures Effect(Deployed(deployer, funds), a, value, RegisterSP(params, node)).Done?
        <==> params != 0 && node != 0 && value >= 1_000_000_000_000_000
  {
    hide BitFields.SlaLevel, BitFields.PledgedStorage, BitFields.Bandwidth, BitFields.MinAskPrice;
  }

  /** A name is given once, to an address without one, under both keys as they were sent. */
  lemma NameAccepted(s: State, a: Caller, value: Uint256, name: Bytes32, x: Bytes32, y: Bytes32)
    ensures var r := Effect(s, a, value, RegisterUsername(name, x, y));
      && (r.Done? <==>
        value == 0 && name != 0 && x != 0 && y != 0 && s.NameOf(a) == 0 && s.User(name).usersAddress == 0)
      && (r.Done? ==>
        && r.value.NameOf(a) == name
        && r.value.User(name).usersAddress == a
        && r.value.User(name).publicKeyX == x && r.value.User(name).publicKeyY == y)
  {
  }

  // ---- uploads ----

  /** A provider can take `times` listings that pay `share` each: it is in standing, has
      the storage for them all, and gets at least what it asks for each month and whole
      megabyte, of which there is at least one. */
  predicate TakesUpload(p: SPProfile, times: nat, share: nat, shardsize: nat, months: nat) {
    && p.inGoodStanding
    && share >= BitFields.MinAskPrice(p.params) * months
         * (if shardsize < 1_000_000 then 1 else shardsize / 1_000_000)
    && shardsize * times <= p.remainingStorage
    && p.earnings + share * times < WORD
  }

  /** An upload succeeds exactly when its sender has a name, the payment divides evenly,
      and every listed provider can take all of its listings. */
  lemma UploadAccepted(
    s: State, sender: Caller, value: Uint256, bs: seq<Byte>, params: Bytes32, shardsize: Uint64, list: AddressList)
    requires |bs| == 32 && params == Value(bs)
    ensures Effect(s, sender, value, ProposeUpload(params, shardsize, list)).Done? <==>
      && s.NameOf(sender) != 0 && list != [] && value % |list| == 0 && shardsize > 0 && Value(bs[..4]) > 0
      && forall a <- list :: TakesUpload(s.SP(a), multiset(list)[a], value / |list|, shardsize, Value(bs[..4]))
  {
    MonthsOf(bs, params);
    UploadTaken(s, sender, value, params, shardsize, list);
    hide *;
  }

  lemma MonthsOf(bs: seq<Byte>, params: Bytes32)
    requires |bs| == 32 && params == Value(bs)
    ensures BitFields.TimeInMonths(params) == Value(bs[..4])
  {
    BitFields.FieldsAreByteRanges(bs, params);
  }

  lemma UploadTaken(
    s: State, sender: Caller, value: Uint256, params: Bytes32, shardsize: Uint64, list: AddressList)
    ensures var months := BitFields.TimeInMonths(params);
      Effect(s, sender, value, ProposeUpload(params, shardsize, list)).Done? <==>
        && s.NameOf(sender) != 0 && list != [] && value % |list| == 0 && shardsize > 0 && months > 0
        && forall a <- list :: TakesUpload(s.SP(a), multiset(list)[a], value / |list|, shardsize, months)
  {
    hide BitFields.TimeInMonths, UploadPrice, Effect, MaxMinAsk, TakesUpload, Fits;
    UploadChecks(s, sender, value, params, shardsize, list);
    if list != [] {
      AllTake(s, list, value / |list|, shardsize, BitFields.TimeInMonths(params));
    }
  }

  lemma AllTake(s: State, list: seq<Address>, share: nat, shardsize: nat, months: nat)
    requires list != []
    ensures (forall a <- list :: TakesUpload(s.SP(a), multiset(list)[a], share, shardsize, months))
       <==> share >= UploadPrice(shardsize, MaxMinAsk(s.spAddress2SPProfile, list), months)
            && Fits(s.spAddress2SPProfile, list, share, shardsize)
  {
    var ps := s.spAddress2SPProfile;
    ShareMeetsAll(ps, list, share, shardsize, months);
    hide UploadPrice, MaxMinAsk, MinAsk, TakesUpload;
    forall a | a in list
      ensures TakesUpload(s.SP(a), multiset(list)[a], share, shardsize, months)
         <==> share >= UploadPrice(shardsize, MinAsk(ps, a), months)
              && s.SP(a).inGoodStanding && shardsize * Times(list, a) <= s.SP(a).remainingStorage
              && s.SP(a).earnings + share * Times(list, a) < WORD
    {
      OneTakes(s, list, a, share, shardsize, months);
    }
  }

  lemma OneTakes(s: State, list: seq<Address>, a: Address, share: nat, shardsize: nat, months: nat)
    ensures TakesUpload(s.SP(a), multiset(list)[a], share, shardsize, months)
       <==> share >= UploadPrice(shardsize, MinAsk(s.spAddress2SPProfile, a), months)
            && s.SP(a).inGoodStanding && shardsize * Times(list, a) <= s.SP(a).remainingStorage
            && s.SP(a).earnings + share * Times(list, a) < WORD
  {
    PriceIs(shardsize, MinAsk(s.spAddress2SPProfile, a), months);
    hide UploadPrice, BitFields.MinAskPrice;
  }

  /** The checks one after another, on the payment and then on the providers. */
  lemma UploadChecks(
    s: State, sender: Caller, value: Uint256, params: Bytes32, shardsize: Uint64, list: AddressList)
    ensures Effect(s, sender, value, ProposeUpload(params, shardsize, list)).Done? <==>
      && s.NameOf(sender) != 0 && list != [] && value % |list| == 0 && shardsize > 0
      && BitFields.TimeInMonths(params) > 0
      && value / |list|
           >= UploadPrice(shardsize, MaxMinAsk(s.spAddress2SPProfile, list), BitFields.TimeInMonths(params))
      && Fits(s.spAddress2SPProfile, list, value / |list|, shardsize)
  {
    hide BitFields.TimeInMonths, UploadPrice, MaxMinAsk, Fits;
  }

  /** The share reaches the price at the highest ask exactly when it reaches the price at
      every ask. */
  lemma ShareMeetsAll(ps: Profiles, list: seq<Address>, share: nat, shardsize: nat, months: nat)
    requires list != []
    ensures share >= UploadPrice(shardsize, MaxMinAsk(ps, list), months)
        <==> forall a <- list :: share >= UploadPrice(shardsize, MinAsk(ps, a), months)
  {
    hide MinAsk, UploadPrice;
    var highest := MaxMinAsk(ps, list);
    forall a | a in list
      ensures UploadPrice(shardsize, MinAsk(ps, a), months) <= UploadPrice(shardsize, highest, months)
    {
      PriceMono(shardsize, MinAsk(ps, a), highest, months);
    }
    assert list[0] in list;
    assert exists a <- list :: MinAsk(ps, a) == highest;
  }

  // ---- slashes, scalars, the owner, withdrawals ----

  /** The owner alone slashes; the slashes add up, and standing is lost exactly when what
      remains of the credit does not cover the stake. */
  lemma SlashAccepted(s: State, a: Caller, value: Uint256, amount: Uint256, sp: Address)
    ensures var r, p := Effect(s, a, value, SlashStake(amount, sp)), s.SP(sp);
      var credit, slash := p.stake + p.earnings, p.slash + amount;
      && (r.Done? <==> value == 0 && a == s.owner && slash < WORD && credit < WORD)
      && (r.Done? ==>
        && r.value.SP(sp).slash == slash
        && (r.value.SP(sp).inGoodStanding
            <==> p.inGoodStanding && p.stake <= if credit > slash then credit - slash else 0)
        && r.value.log == s.log + [Slashed(sp, amount)])
  {
  }

  /** The owner alone sets a scalar, the one that is named, and no other. */
  lemma ScalarAccepted(s: State, a: Caller, value: Uint256, name: string, v: Uint256)
    ensures var r, c := Effect(s, a, value, UpdateCostScalar(name, v)), s.costs;
      && (r.Done? <==>
        && value == 0 && a == s.owner
        && (name == "registerCostScalar" || name == "slaLevelScalar" || name == "availableStorageScalar"
            || name == "bandwidthScalar" || name == "minAskPriceScalar"))
      && (r.Done? ==>
        && r.value.costs.registerCost == c.registerCost
        && r.value.costs.registerCostScalar == (if name == "registerCostScalar" then v else c.registerCostScalar)
        && r.value.costs.slaLevelScalar == (if name == "slaLevelScalar" then v else c.slaLevelScalar)
        && r.value.costs.availableStorageScalar
             == (if name == "availableStorageScalar" then v else c.availableStorageScalar)
        && r.value.costs.bandwidthScalar == (if name == "bandwidthScalar" then v else c.bandwidthScalar)
        && r.value.costs.minAskPriceScalar == (if name == "minAskPriceScalar" then v else c.minAskPriceScalar))
  {
  }

  /** The owner alone hands the contract over, to a real address, or gives it up. */
  lemma OwnerAccepted(s: State, a: Caller, value: Uint256, newOwner: Address)
    ensures var r := Effect(s, a, value, TransferOwnership(newOwner));
      && (r.Done? <==> value == 0 && newOwner != 0 && a == s.owner)
      && (r.Done? ==> r.value.owner == newOwner && r.value.(owner := s.owner) == s)
    ensures var r := Effect(s, a, value, RenounceOwnership);
      && (r.Done? <==> value == 0 && a == s.owner)
      && (r.Done? ==> r.value.owner == 0 && r.value.(owner := s.owner) == s)
  {
    assert Enter(s, 0) == s;
  }

  /** A withdrawal succeeds exactly in standing, with the slash covered; it pays the
      earnings beyond the slash, and then the earnings are gone. */
  lemma WithdrawalAccepted(s: State, a: Caller, value: Uint256)
    requires Surplus(s) >= 0
    ensures var r, p := Effect(s, a, value, ArchonSPWithdrawal), s.SP(a);
      && (r.Done? <==>
        value == 0 && p.inGoodStanding && p.stake + p.earnings < WORD && p.slash <= p.stake + p.earnings)
      && (r.Done? ==>
        && r.value.balance == s.balance - (if p.earnings > p.slash then p.earnings - p.slash else 0)
        && r.value.SP(a) == p.(earnings := if p.earnings > p.slash then 0 else p.earnings))
  {
    assert Enter(s, 0) == s;
    PayoutCovered(s, a);
    hide Surplus;
  }

  /** Leaving succeeds exactly when a provider in standing can cover its slash; it pays
      what is owed less the slash, out of standing of the stake alone, and clears the
      profile up to the free storage. */
  lemma LeavingAccepted(s: State, a: Caller, value: Uint256)
    requires Surplus(s) >= 0
    ensures var r, p := Effect(s, a, value, UnregisterSP), s.SP(a);
      var credit := if p.inGoodStanding then p.stake + p.earnings else p.stake;
      && (r.Done? <==> value == 0 && (p.inGoodStanding ==> p.slash <= credit < WORD))
      && (r.Done? ==>
        && r.value.balance == s.balance - (if credit > p.slash then credit - p.slash else 0)
        && r.value.SP(a) == SPProfile(0, 0, 0, 0, 0, p.remainingStorage, false)
        && r.value.NodeOwner(p.nodeID) == 0)
  {
    assert Enter(s, 0) == s;
    PayoutCovered(s, a);
    hide Surplus;
  }

  /** A payment without data is kept; a call of anything unknown fails. */
  lemma PlainPayment(s: State, a: Caller, value: Uint256, dataLength: nat)
    ensures var r := Effect(s, a, value, Fallback(dataLength));
      && (r.Done? <==> dataLength == 0)
      && (r.Done? ==> r.value.balance == s.balance + value && r.value.(balance := s.balance) == s)
  {
  }

  // ---- what only the owner brings about ----

  predicate OwnersOp(op: Op) {
    op.SlashStake? || op.UpdateCostScalar? || op.TransferOwnership? || op.RenounceOwnership?
  }

  /** A cost or the owner has changed, somebody has been slashed, or a slash has risen. */
  ghost predicate OwnersWork(s: State, t: State) {
    || t.costs != s.costs || t.owner != s.owner
    || (exists a: Address :: t.SP(a).slash > s.SP(a).slash)
    || (exists i | |s.log| <= i < |t.log| :: t.log[i].Slashed?)
  }

  lemma LogGrows(s: State, sender: Caller, value: Uint256, op: Op, t: State)
    requires Effect(s, sender, value, op) == Done(t)
    ensures s.log <= t.log
  {
    var e := Enter(s, value);
    if op.ProposeUpload? {
      hide UploadShare, CreditAll, Fits;
    } else {
      EventLogged(e, sender, value, op, t);
      hide Operation;
    }
  }

  lemma UploadNotOwners(
    s: State, sender: Caller, value: Uint256, params: Bytes32, shardsize: Uint64, list: AddressList, t: State)
    requires Upload(s, sender, value, params, shardsize, list) == Done(t)
    ensures !OwnersWork(s, t)
  {
    forall a: Address
      ensures t.SP(a).slash <= s.SP(a).slash
    {
      ProfileAfterUpload(s, sender, value, params, shardsize, list, t, a);
    }
    hide UploadShare, CreditAll, Fits;
  }

  /** In one operation. */
  lemma OwnerOnly(s: State, sender: Caller, value: Uint256, op: Op, t: State)
    requires Effect(s, sender, value, op) == Done(t) && OwnersWork(s, t)
    ensures sender == s.owner && OwnersOp(op)
  {
    hide TotalCost, BitFields.PledgedStorage, Upload, SetScalar, Settlement;
    match op {
      case ProposeUpload(params, shardsize, list) =>
        UploadNotOwners(Enter(s, value), sender, value, params, shardsize, list, t);
      case _ =>
    }
  }

  /** The owner at the time has sent one of the operations, and it was an owner's. */
  predicate OwnerActed(s: State, steps: seq<Step>)
    decreases |steps|
  {
    steps != [] &&
    var st := steps[0];
    var effect := Effect(s, st.sender, st.value, st.op);
    (st.sender == s.owner && OwnersOp(st.op)) || (effect.Done? && OwnerActed(effect.value, steps[1..]))
  }

  lemma WorkSplits(s: State, t: State, u: State)
    requires s.log <= t.log <= u.log && OwnersWork(s, u)
    ensures OwnersWork(s, t) || OwnersWork(t, u)
  {
    if i :| |s.log| <= i < |u.log| && u.log[i].Slashed? {
      if i < |t.log| {
        assert t.log[i].Slashed?;
      }
    } else if a: Address :| u.SP(a).slash > s.SP(a).slash {
      assert t.SP(a).slash > s.SP(a).slash || u.SP(a).slash > t.SP(a).slash;
    }
  }

  lemma {:induction false} ReplayGrows(s: State, steps: seq<Step>)
    requires Replay(s, steps).Done?
    ensures s.log <= Replay(s, steps).value.log
    decreases |steps|
  {
    hide Effect;
    if steps == [] {
    } else {
      var st := steps[0];
      var t := Effect(s, st.sender, st.value, st.op).value;
      LogGrows(s, st.sender, st.value, st.op, t);
      ReplayGrows(t, steps[1..]);
    }
  }

  lemma {:induction false} ReplayOwner(s: State, steps: seq<Step>)
    requires Replay(s, steps).Done? && OwnersWork(s, Replay(s, steps).value)
    ensures OwnerActed(s, steps)
    decreases |steps|
  {
    hide Effect, OwnersOp;
    if steps == [] {
    } else {
      var st := steps[0];
      var t := Effect(s, st.sender, st.value, st.op).value;
      LogGrows(s, st.sender, st.value, st.op, t);
      ReplayGrows(t, steps[1..]);
      WorkSplits(s, t, Replay(s, steps).value);
      if OwnersWork(s, t) {
        OwnerOnly(s, st.sender, st.value, st.op, t);
      } else {
        ReplayOwner(t, steps[1..]);
      }
    }
  }

  /** In any run, with any call-backs: nobody is slashed, no cost changes and the contract
      does not change hands unless the owner of the moment sends it. */
  lemma RunOwnerOnly(s: State, txs: seq<Tx>)
    requires OwnersWork(s, Run(s, txs))
    ensures OwnerActed(s, CommittedAll(s, txs))
  {
    LinearisesAll(s, txs);
    ReplayOwner(s, CommittedAll(s, txs));
  }

  lemma {:induction false} NobodyActs(s: State, steps: seq<Step>)
    requires s.owner == 0
    ensures !OwnerActed(s, steps)
    decreases |steps|
  {
    hide Effect;
    if steps == [] {
    } else {
      var st := steps[0];
      var effect := Effect(s, st.sender, st.value, st.op);
      if effect.Done? {
        if OwnersWork(s, effect.value) {
          OwnerOnly(s, st.sender, st.value, st.op, effect.value);
        }
        NobodyActs(effect.value, steps[1..]);
      }
    }
  }

  /** Once the contract has been given up, nobody is ever slashed again and no cost ever
      changes. */
  lemma RenouncedForever(s: State, txs: seq<Tx>)
    requires s.owner == 0
    ensures !OwnersWork(s, Run(s, txs))
  {
    NobodyActs(s, CommittedAll(s, txs));
    if OwnersWork(s, Run(s, txs)) {
      RunOwnerOnly(s, txs);
    }
  }

  // ---- what only a provider itself brings about ----

  /** Others cannot take anything of `a` but its free storage and, by a slash, its
      standing; nor can they register it, sign it off, pay it out or name it. */
  ghost predicate LeftAlone(s: State, t: State, a: Address) {
    var p, q := s.SP(a), t.SP(a);
    && q.params == p.params && q.nodeID == p.nodeID && q.stake == p.stake
    && q.earnings >= p.earnings && q.slash >= p.slash && q.remainingStorage <= p.remainingStorage
    && (q.inGoodStanding ==> p.inGoodStanding)
    && t.NameOf(a) == s.NameOf(a)
    && (forall i | |s.log| <= i < |t.log| && t.log[i].sp == a :: t.log[i].Credited? || t.log[i].Slashed?)
  }

  lemma UploadLeavesAlone(
    s: State, sender: Caller, value: Uint256, params: Bytes32, shardsize: Uint64, list: AddressList, t: State,
    a: Address)
    requires Upload(s, sender, value, params, shardsize, list) == Done(t)
    ensures LeftAlone(s, t, a)
  {
    ProfileAfterUpload(s, sender, value, params, shardsize, list, t, a);
    CreditNotNegative(shardsize, Times(list, a));
    hide UploadShare, CreditAll, Fits, Times;
  }

  lemma OthersLeaveAlone(s: State, sender: Caller, value: Uint256, op: Op, t: State, a: Address)
    requires Effect(s, sender, value, op) == Done(t) && sender != a
    ensures LeftAlone(s, t, a)
  {
    hide TotalCost, BitFields.PledgedStorage, Upload, SetScalar, Settlement;
    match op {
      case ProposeUpload(params, shardsize, list) =>
        UploadLeavesAlone(Enter(s, value), sender, value, params, shardsize, list, t, a);
      case _ =>
    }
  }

  lemma AloneTransitive(s: State, t: State, u: State, a: Address)
    requires s.log <= t.log <= u.log && LeftAlone(s, t, a) && LeftAlone(t, u, a)
    ensures LeftAlone(s, u, a)
  {
    forall i | |s.log| <= i < |u.log| && u.log[i].sp == a
      ensures u.log[i].Credited? || u.log[i].Slashed?
    {
      if i < |t.log| {
        assert t.log[i] == u.log[i];
      }
    }
  }

  lemma {:induction false} ReplayLeavesAlone(s: State, steps: seq<Step>, a: Address)
    requires Replay(s, steps).Done? && forall st <- steps :: st.sender != a
    ensures LeftAlone(s, Replay(s, steps).value, a)
    decreases |steps|
  {
    hide Effect;
    if steps == [] {
    } else {
      var st := steps[0];
      assert st in steps;
      var t := Effect(s, st.sender, st.value, st.op).value;
      LogGrows(s, st.sender, st.value, st.op, t);
      ReplayGrows(t, steps[1..]);
      OthersLeaveAlone(s, st.sender, st.value, st.op, t, a);
      ReplayLeavesAlone(t, steps[1..], a);
      hide LeftAlone;
      AloneTransitive(s, t, Replay(s, steps).value, a);
    }
  }

  /** In any run in which nothing that `a` sent took effect, `a` keeps its registration,
      node, stake, name and earnings, and is paid nothing. */
  lemma RunLeavesAlone(s: State, txs: seq<Tx>, a: Address)
    requires forall st <- CommittedAll(s, txs) :: st.sender != a
    ensures LeftAlone(s, Run(s, txs), a)
  {
    LinearisesAll(s, txs);
    ReplayLeavesAlone(s, CommittedAll(s, txs), a);
    hide LeftAlone;
  }

  // ---- the books ----

  /** The money that an entry of the log brought in, or took out. */
  function Money(e: Event): int {
    match e
    case Registered(_, stake, _) => stake
    case Credited(_, share, _) => share
    case Slashed(_, _) => 0
    case Withdrawn(_, amount, _) => 0 - amount
    case Unregistered(_, settlement) => 0 - settlement
  }

  function Flow(log: seq<Event>): int {
    if log == [] then 0 else Flow(log[..|log| - 1]) + Money(log[|log| - 1])
  }

  lemma FlowAppend(log: seq<Event>, e: Event)
    ensures Flow(log + [e]) == Flow(log) + Money(e)
  {
    assert (log + [e])[..|log|] == log;
  }

  lemma {:induction false} FlowOfCredits(log: seq<Event>, list: seq<Address>, share: nat, size: nat)
    ensures Flow(log + CreditEvents(list, share, size)) == Flow(log) + Scaled(|list|, share)
  {
    if list == [] {
      assert log + CreditEvents(list, share, size) == log;
    } else {
      hide Flow, Scaled;
      var i := |list| - 1;
      FlowOfCredits(log, list[..i], share, size);
      var e := Credited(list[i], share, size);
      assert log + CreditEvents(list, share, size) == (log + CreditEvents(list[..i], share, size)) + [e];
      FlowAppend(log + CreditEvents(list[..i], share, size), e);
      ScaledNext(i, share);
    }
    ScaledBounds(share, 0);
  }

  /** What a plain payment brings in is in nobody's account. */
  function Gift(st: Step): nat {
    if st.op.Fallback? then st.value else 0
  }

  lemma UploadBalances(
    s: State, sender: Caller, value: Uint256, params: Bytes32, shardsize: Uint64, list: AddressList, t: State)
    requires Upload(s, sender, value, params, shardsize, list) == Done(t)
    ensures t.balance == s.balance && Flow(t.log) == Flow(s.log) + value
  {
    var share := UploadShare(s, sender, value, params, shardsize, list).value;
    ShareExact(value, |list|);
    FlowOfCredits(s.log, list, share, shardsize);
    ScaledIs(|list|, share);
    hide Flow, CreditAll, Fits, Scaled;
  }

  /** The balance changes by what the log has gained, and by gifts. */
  lemma OperationBalances(s: State, st: Step, t: State)
    requires Effect(s, st.sender, st.value, st.op) == Done(t)
    ensures t.balance - Flow(t.log) == s.balance - Flow(s.log) + Gift(st)
  {
    var e, op := Enter(s, st.value), st.op;
    if op.ProposeUpload? {
      UploadBalances(e, st.sender, st.value, op.uploadParams, op.shardsize, op.archonSPs, t);
    } else {
      hide Flow, EventOf, Money;
      var events := EventOf(e, st.sender, st.value, op);
      EventLogged(e, st.sender, st.value, op, t);
      BalanceChange(e, st, t);
      if events == [] {
        assert e.log + events == e.log;
      } else {
        assert events == [events[0]];
        FlowAppend(e.log, events[0]);
      }
    }
  }

  lemma BalanceChange(s: State, st: Step, t: State)
    requires Operation(s, st.sender, st.value, st.op) == Done(t) && !st.op.ProposeUpload?
    requires st.op.IsPayable() || st.value == 0
    ensures var events := EventOf(s, st.sender, st.value, st.op);
      && |events| <= 1
      && t.balance + st.value == s.balance + Gift(st) + (if events == [] then 0 else Money(events[0]))
  {
    hide BitFields.PledgedStorage, TotalCost, RegisterName, UpdateScalar, SetOwner, Upload;
    match st.op {
      case RegisterSP(_, _) => hide Slash, Unregister, Withdraw;
      case SlashStake(_, _) => hide Register, Unregister, Withdraw;
      case UnregisterSP => hide Register, Slash, Withdraw;
      case ArchonSPWithdrawal => hide Register, Slash, Unregister;
      case _ =>
        hide Register, Slash, Unregister, Withdraw;
        NoMoneyMoves(s, st.sender, st.value, st.op, t);
    }
  }

  function Gifts(steps: seq<Step>): nat {
    if steps == [] then 0 else Gift(steps[0]) + Gifts(steps[1..])
  }

  lemma {:induction false} ReplayBalances(s: State, steps: seq<Step>)
    requires Replay(s, steps).Done?
    ensures var t := Replay(s, steps).value; t.balance - Flow(t.log) == s.balance - Flow(s.log) + Gifts(steps)
    decreases |steps|
  {
    hide Effect, Flow;
    if steps == [] {
    } else {
      var st := steps[0];
      var t := Effect(s, st.sender, st.value, st.op).value;
      OperationBalances(s, st, t);
      ReplayBalances(t, steps[1..]);
    }
  }

  /** To the last coin: the balance of a contract is what it was deployed with, the gifts,
      and every stake and credit less every payout that the log records. */
  lemma BooksBalance(deployer: Caller, funds: Uint256, txs: seq<Tx>)
    ensures var s := Deployed(deployer, funds);
      Run(s, txs).balance == funds + Gifts(CommittedAll(s, txs)) + Flow(Run(s, txs).log)
  {
    var s := Deployed(deployer, funds);
    LinearisesAll(s, txs);
    ReplayBalances(s, CommittedAll(s, txs));
  }
}
