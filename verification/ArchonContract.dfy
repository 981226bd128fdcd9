/** The contract itself: mappings updated in place, SafeMath at every arithmetic
    step, `require` as an early return, and the payee's calls running inside the
    two payout operations.  Every method is proved to compute its closed form. */
module ArchonContract {
  import opened Arithmetic
  import opened SafeMath
  import opened ArchonModel
  import opened ArchonPayments
  import BitFields

  /** `r` and the state `now` are what the closed form `spec` says.  After a revert
      the state is whatever the statements left: `Execute` rolls it back. */
  ghost predicate Agrees(r: Evm<()>, now: State, spec: Evm<State>) {
    match spec
    case Done(s) => r.Done? && now == s
    case Reverted => r.Reverted?
    case OutOfFunds => r.OutOfFunds?
  }

  ghost function Finish(effect: Evm<State>, tx: Tx): Evm<State> {
    if tx.op.PaysSender() then AfterPayout(effect, tx.inner, tx.accepts) else effect
  }

  ghost function AfterPayout(paid: Evm<State>, inner: seq<Tx>, accepts: bool): Evm<State> {
    var s :- paid;
    Complete(s, inner, accepts)
  }

  function ComputeTotalCost(costs: Costs, params: Bytes32): Evm<Uint256> {
    BitFields.FieldBounds(params);
    CheckedCost(costs, BitFields.SlaLevel(params), BitFields.PledgedStorage(params),
                BitFields.Bandwidth(params), BitFields.MinAskPrice(params))
  }

  function CheckedCost(costs: Costs, sla: Uint256, storage: Uint256, bandwidth: Uint256, ask: Uint256): Evm<Uint256> {
    var totalCost := AddScaled(Done(0), costs.registerCost, costs.registerCostScalar);
    var totalCost := AddScaled(totalCost, sla, costs.slaLevelScalar);
    var totalCost := AddScaled(totalCost, storage, costs.availableStorageScalar);
    var totalCost := AddScaled(totalCost, bandwidth, costs.bandwidthScalar);
    AddScaled(totalCost, ask, costs.minAskPriceScalar)
  }

  function AddScaled(totalCost: Evm<Uint256>, rightHandSummand: Uint256, scalar: Uint256): Evm<Uint256> {
    var total :- totalCost;
    var product :- Mul(rightHandSummand, scalar);
    Add(total, product)
  }

  /** What checked arithmetic yields for an integer result. */
  function Exactly(n: nat): Evm<Uint256> {
    if n < WORD then Done(n) else Reverted
  }

  lemma AddScaledExact(total: nat, amount: Uint256, scalar: Uint256)
    ensures AddScaled(Exactly(total), amount, scalar) == Exactly(total + Scaled(amount, scalar))
  {
    MulExact(amount, scalar);
    var product := Scaled(amount, scalar);
    if total < WORD && product < WORD {
      AddExact(total, product);
    }
  }

  /** The checked computation reverts exactly when the integer formula overflows. */
  lemma ComputeTotalCostExact(costs: Costs, params: Bytes32)
    ensures ComputeTotalCost(costs, params) == Exactly(TotalCost(costs, params))
  {
    BitFields.FieldBounds(params);
    CheckedCostExact(costs, BitFields.SlaLevel(params), BitFields.PledgedStorage(params),
                     BitFields.Bandwidth(params), BitFields.MinAskPrice(params));
  }

  lemma CheckedCostExact(costs: Costs, sla: Uint256, storage: Uint256, bandwidth: Uint256, ask: Uint256)
    ensures CheckedCost(costs, sla, storage, bandwidth, ask)
         == Exactly(CostFormula(costs, sla, storage, bandwidth, ask))
  {
    hide AddScaled, Scaled;
    var t0 := Scaled(costs.registerCost, costs.registerCostScalar);
    var t1 := t0 + Scaled(sla, costs.slaLevelScalar);
    var t2 := t1 + Scaled(storage, costs.availableStorageScalar);
    var t3 := t2 + Scaled(bandwidth, costs.bandwidthScalar);
    AddScaledExact(0, costs.registerCost, costs.registerCostScalar);
    AddScaledExact(t0, sla, costs.slaLevelScalar);
    AddScaledExact(t1, storage, costs.availableStorageScalar);
    AddScaledExact(t2, bandwidth, costs.bandwidthScalar);
    AddScaledExact(t3, ask, costs.minAskPriceScalar);
  }

  // ---- the payment checks and the payment loop ----

  lemma PriceExact(megaBytes: Uint256, ask: Uint256, months: Uint256)
    requires months > 0
    ensures Mul(megaBytes, ask).Reverted? ==> Scaled(Scaled(megaBytes, ask), months) >= WORD
    ensures Mul(megaBytes, ask).Done? ==>
      Mul(Mul(megaBytes, ask).value, months)
        == var price := Scaled(Scaled(megaBytes, ask), months); if price < WORD then Done(price) else Reverted
    ensures !Mul(megaBytes, ask).OutOfFunds?
  {
    MulExact(megaBytes, ask);
    var perMonth := Scaled(megaBytes, ask);
    if perMonth < WORD {
      MulExact(perMonth, months);
    } else {
      MulMono(perMonth, 1, months);
    }
  }

  class Archon {
    var balance: nat
    var spAddress2SPProfile: Profiles
    var username2UserProfile: map<Bytes32, UserProfile>
    var address2Username: map<Address, Bytes32>
    var nodeID2Address: map<Bytes32, Address>
    var costs: Costs
    var owner: Address
    ghost var log: seq<Event>

    ghost function Snapshot(): State
      reads this
    {
      State(balance, spAddress2SPProfile, username2UserProfile, address2Username,
            nodeID2Address, costs, owner, log)
    }

    constructor (sender: Caller, value: Uint256)
      ensures Snapshot() == Deployed(sender, value)
    {
      balance := value;
      spAddress2SPProfile, username2UserProfile := map[], map[];
      address2Username, nodeID2Address := map[], map[];
      costs := INITIAL_COSTS;
      owner := sender;
      log := [];
    }

    function SP(a: Address): SPProfile
      reads this
    {
      At(spAddress2SPProfile, a, NO_PROFILE)
    }

    method Store(a: Address, p: SPProfile)
      modifies this`spAddress2SPProfile
      ensures spAddress2SPProfile == old(spAddress2SPProfile)[a := p]
    {
      spAddress2SPProfile := spAddress2SPProfile[a := p];
    }

    method RegisterSP(sender: Caller, value: Uint256, params: Bytes32, nodeID: Bytes32) returns (r: Evm<()>)
      modifies this
      ensures Agrees(r, Snapshot(), Register(old(Snapshot()), sender, value, params, nodeID))
    {
      ComputeTotalCostExact(costs, params);
      BitFields.FieldBounds(params);
      :- Require(SP(sender).params == 0);
      :- Require(params != 0);
      :- Require(nodeID != 0);
      :- Require(At(nodeID2Address, nodeID, 0) == 0);
      var totalCost :- ComputeTotalCost(costs, params);
      :- Require(value >= totalCost);
      var p := SP(sender);
      p := p.(params := params);
      p := p.(nodeID := nodeID);
      p := p.(stake := value);
      p := p.(earnings := 0);
      p := p.(slash := 0);
      p := p.(remainingStorage := BitFields.PledgedStorage(params));
      p := p.(inGoodStanding := true);
      Store(sender, p);
      nodeID2Address := nodeID2Address[nodeID := sender];
      log := log + [Registered(sender, value, BitFields.PledgedStorage(params))];
      return Done(());
    }

    method RegisterUsername(sender: Caller, username: Bytes32, x: Bytes32, y: Bytes32) returns (r: Evm<()>)
      modifies this
      ensures Agrees(r, Snapshot(), RegisterName(old(Snapshot()), sender, username, x, y))
    {
      var name, profile := At(address2Username, sender, 0), At(username2UserProfile, username, NO_USER);
      :- Require(name == 0 && profile.usersAddress == 0);
      :- Require(username != 0 && x != 0 && y != 0);
      username2UserProfile := username2UserProfile[username := profile.(usersAddress := sender)];
      username2UserProfile := username2UserProfile[username := username2UserProfile[username].(publicKeyX := x)];
      username2UserProfile := username2UserProfile[username := username2UserProfile[username].(publicKeyY := y)];
      address2Username := address2Username[sender := username];
      return Done(());
    }

    method SlashStake(sender: Caller, amountToSlash: Uint256, spToSlash: Address) returns (r: Evm<()>)
      modifies this
      ensures Agrees(r, Snapshot(), Slash(old(Snapshot()), sender, amountToSlash, spToSlash))
    {
      AddExact(SP(spToSlash).slash, amountToSlash);
      AddExact(SP(spToSlash).stake, SP(spToSlash).earnings);
      :- Require(sender == owner);
      var slash :- Add(SP(spToSlash).slash, amountToSlash);
      Store(spToSlash, SP(spToSlash).(slash := slash));
      var totalCreditOfSP :- Add(SP(spToSlash).stake, SP(spToSlash).earnings);
      var creditAfterSlash: Uint256 := 0;
      if totalCreditOfSP > SP(spToSlash).slash {
        creditAfterSlash := Sub(totalCreditOfSP, SP(spToSlash).slash).value;  // guarded, cannot revert
      }
      if SP(spToSlash).stake > creditAfterSlash {
        Store(spToSlash, SP(spToSlash).(inGoodStanding := false));
      }
      log := log + [Slashed(spToSlash, amountToSlash)];
      return Done(());
    }

    method UpdateCostScalar(sender: Caller, scalarName: string, newScalarValue: Uint256) returns (r: Evm<()>)
      modifies this
      ensures Agrees(r, Snapshot(), UpdateScalar(old(Snapshot()), sender, scalarName, newScalarValue))
    {
      var isOwner := sender == owner;
      :- Require(isOwner);
      costs :- SetScalar(costs, scalarName, newScalarValue);
      return Done(());
    }

    method ChangeOwner(sender: Caller, newOwner: Address) returns (r: Evm<()>)
      modifies this
      ensures Agrees(r, Snapshot(), SetOwner(old(Snapshot()), sender, newOwner))
    {
      var isOwner := sender == owner;
      :- Require(isOwner);
      owner := newOwner;
      return Done(());
    }

    method GetMaxMinAskPrice(archonSPs: seq<Address>) returns (maxMinAskPrice: nat)
      ensures maxMinAskPrice == MaxMinAsk(spAddress2SPProfile, archonSPs) < WORD
    {
      maxMinAskPrice := 0;
      for i := 0 to |archonSPs|
        invariant maxMinAskPrice == MaxMinAsk(spAddress2SPProfile, archonSPs[..i]) < WORD
      {
        var minAskPrice := MinAsk(spAddress2SPProfile, archonSPs[i]);
        BitFields.FieldBounds(SP(archonSPs[i]).params);
        assert archonSPs[..i + 1][..i] == archonSPs[..i];
        if minAskPrice > maxMinAskPrice {
          maxMinAskPrice := minAskPrice;
        }
      }
      assert archonSPs[..|archonSPs|] == archonSPs;
    }

    method CheckPayment(sender: Caller, value: Uint256, params: Bytes32, shardsize: Uint64, archonSPs: AddressList)
      returns (r: Evm<Uint256>)
      ensures r == UploadShare(Snapshot(), sender, value, params, shardsize, archonSPs)
    {
      var name := At(address2Username, sender, 0);
      :- Require(name != 0);
      :- Require(|archonSPs| > 0);
      var maxMinAskPrice := GetMaxMinAskPrice(archonSPs);
      var share :- SplitPayment(value, |archonSPs|);
      :- Require(shardsize > 0);
      var timeInMonths := BitFields.TimeInMonths(params);
      BitFields.MonthsField(params);
      :- Require(timeInMonths > 0);
      r := CheckPrice(share, shardsize, maxMinAskPrice, timeInMonths);
    }

    method SplitPayment(value: Uint256, parts: Uint256) returns (r: Evm<Uint256>)
      requires parts > 0
      ensures r == if Divides(parts, value) then Done(Quotient(value, parts)) else Reverted
    {
      ShareExact(value, parts);
      var share := Div(value, parts).value;
      var product := Mul(share, parts).value;
      :- Require(product >= value);
      return Done(share);
    }

    method CheckPrice(share: Uint256, shardsize: Uint64, maxMinAskPrice: nat, timeInMonths: nat)
      returns (r: Evm<Uint256>)
      requires maxMinAskPrice < WORD && 0 < timeInMonths < WORD
      ensures r == if share < UploadPrice(shardsize, maxMinAskPrice, timeInMonths) then Reverted else Done(share)
    {
      var shardsizeInMegaBytes := Div(shardsize, 1_000_000).value;
      if shardsizeInMegaBytes == 0 {
        shardsizeInMegaBytes := 1;
      }
      PriceExact(shardsizeInMegaBytes, maxMinAskPrice, timeInMonths);
      var pmtToEachSP :- Mul(shardsizeInMegaBytes, maxMinAskPrice);
      pmtToEachSP :- Mul(pmtToEachSP, timeInMonths);
      :- Require(share >= pmtToEachSP);
      return Done(share);
    }

    /** The loop pays entry after entry, a provider listed twice twice; together the
        iterations compute the closed form, and one failing entry reverts them all. */
    method PaySPs(archonSPs: seq<Address>, share: Uint256, shardsize: Uint64) returns (r: Evm<()>)
      modifies this`spAddress2SPProfile, this`log
      ensures Fits(old(spAddress2SPProfile), archonSPs, share, shardsize) ==>
        && r.Done?
        && spAddress2SPProfile == CreditAll(old(spAddress2SPProfile), archonSPs, share, shardsize)
        && log == old(log) + CreditEvents(archonSPs, share, shardsize)
      ensures !Fits(old(spAddress2SPProfile), archonSPs, share, shardsize) ==> r.Reverted?
    {
      ghost var ps := spAddress2SPProfile;
      PaidAll(ps, archonSPs, share, shardsize);
      for i := 0 to |archonSPs|
        invariant PaidUpTo(ps, archonSPs, i, share, shardsize, spAddress2SPProfile)
        invariant log == old(log) + CreditEvents(archonSPs[..i], share, shardsize)
      {
        PayStep(ps, archonSPs, i, share, shardsize, spAddress2SPProfile);
        var _ :- PayOne(archonSPs[i], share, shardsize);
        assert log == old(log) + CreditEvents(archonSPs[..i + 1], share, shardsize);
      }
      assert archonSPs[..|archonSPs|] == archonSPs;
      return Done(());
    }

    method PayOne(a: Address, share: Uint256, shardsize: Uint64) returns (r: Evm<()>)
      modifies this`spAddress2SPProfile, this`log
      ensures var p := old(SP(a));
        if CanPay(p, share, shardsize) then
          && r.Done?
          && spAddress2SPProfile == old(spAddress2SPProfile)[a := PayOnce(p, share, shardsize)]
          && log == old(log) + [Credited(a, share, shardsize)]
        else r.Reverted?
    {
      var p := SP(a);
      :- Require(p.inGoodStanding);
      :- Require(p.remainingStorage >= shardsize);
      p := p.(remainingStorage := Sub(p.remainingStorage, shardsize).value);
      AddExact(p.earnings, share);
      var earnings :- Add(p.earnings, share);
      p := p.(earnings := earnings);
      Store(a, p);
      log := log + [Credited(a, share, shardsize)];
      return Done(());
    }

    method ProposeUpload(sender: Caller, value: Uint256, params: Bytes32, shardsize: Uint64, archonSPs: AddressList)
      returns (r: Evm<()>)
      modifies this
      ensures Agrees(r, Snapshot(), Upload(old(Snapshot()), sender, value, params, shardsize, archonSPs))
    {
      var share :- CheckPayment(sender, value, params, shardsize, archonSPs);
      r := PaySPs(archonSPs, share, shardsize);
    }

    // ---- the operations that pay their caller ----

    method UnregisterSP(sender: Caller, inner: seq<Tx>, accepts: bool) returns (r: Evm<()>)
      modifies this
      ensures Agrees(r, Snapshot(), AfterPayout(Unregister(old(Snapshot()), sender), inner, accepts))
      decreases inner, 4
    {
      hide Complete, Exec, Run;
      AddExact(SP(sender).earnings, SP(sender).stake);
      var p := SP(sender);
      nodeID2Address := nodeID2Address[p.nodeID := 0];
      p := p.(params := 0);
      p := p.(nodeID := 0);
      var earnings := p.earnings;
      p := p.(earnings := 0);
      var settlement: Uint256 := 0;
      if p.inGoodStanding {
        var totalCreditOfSP :- Add(earnings, p.stake);
        settlement :- Sub(totalCreditOfSP, p.slash);
      } else if p.stake > p.slash {
        settlement := Sub(p.stake, p.slash).value;  // guarded, cannot revert
      }
      p := p.(stake := 0);
      p := p.(slash := 0);
      p := p.(inGoodStanding := false);
      Store(sender, p);
      log := log + [Unregistered(sender, settlement)];
      r := CallValue(settlement, inner, accepts);
    }

    method Withdrawal(sender: Caller, inner: seq<Tx>, accepts: bool) returns (r: Evm<()>)
      modifies this
      ensures Agrees(r, Snapshot(), AfterPayout(Withdraw(old(Snapshot()), sender), inner, accepts))
      decreases inner, 4
    {
      hide Complete, Exec, Run;
      var p := SP(sender);
      AddExact(p.stake, p.earnings);
      :- Require(p.inGoodStanding);
      var totalCreditOfSP :- Add(p.stake, p.earnings);
      var creditAfterSlash :- Sub(totalCreditOfSP, p.slash);
      var amountToWithdrawal: Uint256 := 0;
      if creditAfterSlash > p.stake {
        amountToWithdrawal := Sub(creditAfterSlash, p.stake).value;  // guarded, cannot revert
        Store(sender, p.(earnings := 0));
        log := log + [Withdrawn(sender, amountToWithdrawal, p.slash)];
      } else {
        log := log + [Withdrawn(sender, 0, 0)];
      }
      r := CallValue(amountToWithdrawal, inner, accepts);
    }

    /** `msg.sender.call.value(amount)("")`: the payee runs, and may call back. */
    method CallValue(amount: nat, inner: seq<Tx>, accepts: bool) returns (r: Evm<()>)
      modifies this
      ensures Agrees(r, Snapshot(), AfterPayout(Pay(old(Snapshot()), amount), inner, accepts))
      decreases inner, 3
    {
      if balance < amount {
        return OutOfFunds;
      }
      balance := balance - amount;
      ghost var paid := Snapshot();
      for i := 0 to |inner|
        invariant Run(Snapshot(), inner[i..]) == Run(paid, inner)
      {
        assert inner[i..][1..] == inner[i + 1..];
        var _ := Execute(inner[i]);
      }
      return if accepts then Done(()) else Reverted;
    }

    /** One call of the contract, with the rollback that the machine performs. */
    method Execute(tx: Tx) returns (r: Evm<()>)
      modifies this
      ensures Agrees(r, Snapshot(), Exec(old(Snapshot()), tx))
      ensures !r.Done? ==> Snapshot() == old(Snapshot())
      decreases tx, 2
    {
      var balance0, owner0, costs0 := balance, owner, costs;
      var profiles0, users0 := spAddress2SPProfile, username2UserProfile;
      var names0, nodes0 := address2Username, nodeID2Address;
      ghost var log0 := log;
      r := Dispatch(tx);
      if !r.Done? {
        balance, owner, costs := balance0, owner0, costs0;
        spAddress2SPProfile, username2UserProfile := profiles0, users0;
        address2Username, nodeID2Address := names0, nodes0;
        log := log0;
      }
    }

    method Dispatch(tx: Tx) returns (r: Evm<()>)
      modifies this
      ensures Agrees(r, Snapshot(), Exec(old(Snapshot()), tx))
      decreases tx, 1
    {
      if tx.value != 0 && !tx.op.IsPayable() {
        return Reverted;
      }
      balance := balance + tx.value;
      if tx.op.IsPayable() {
        r := DispatchPayable(tx);
      } else {
        r := DispatchOther(tx);
      }
    }

    method DispatchPayable(tx: Tx) returns (r: Evm<()>)
      requires tx.op.IsPayable()
      modifies this
      ensures Agrees(r, Snapshot(), Operation(old(Snapshot()), tx.sender, tx.value, tx.op))
    {
      match tx.op {
        case Fallback(dataLength) =>
          :- Require(dataLength == 0);
          r := Done(());
        case RegisterSP(params, nodeID) =>
          r := RegisterSP(tx.sender, tx.value, params, nodeID);
        case ProposeUpload(params, shardsize, list) =>
          r := ProposeUpload(tx.sender, tx.value, params, shardsize, list);
      }
    }

    method DispatchOther(tx: Tx) returns (r: Evm<()>)
      requires !tx.op.IsPayable()
      modifies this
      ensures Agrees(r, Snapshot(), Finish(Operation(old(Snapshot()), tx.sender, tx.value, tx.op), tx))
      decreases tx, 0
    {
      match tx.op {
        case RegisterUsername(username, x, y) =>
          r := RegisterUsername(tx.sender, username, x, y);
        case SlashStake(amount, sp) =>
          r := SlashStake(tx.sender, amount, sp);
        case UpdateCostScalar(name, v) =>
          r := UpdateCostScalar(tx.sender, name, v);
        case UnregisterSP =>
          r := UnregisterSP(tx.sender, tx.inner, tx.accepts);
        case ArchonSPWithdrawal =>
          r := Withdrawal(tx.sender, tx.inner, tx.accepts);
        case TransferOwnership(newOwner) =>
          :- Require(newOwner != 0);
          r := ChangeOwner(tx.sender, newOwner);
        case RenounceOwnership =>
          r := ChangeOwner(tx.sender, 0);
      }
    }
  }
}
