/** The storage-market contract as a function on states.  Each operation is given
    in closed form over unbounded integers; the class in ArchonContract.dfy runs the
    source's statements and is proved to compute these functions. */
module ArchonModel {
  import opened Arithmetic
  import opened SafeMath
  import BitFields

  type Address = n: nat | n < 0x1_0000000000_0000000000_0000000000_0000000000
  type Caller = a: Address | a != 0 witness 1  // no transaction is sent by the zero address
  type Bytes32 = Uint256
  type AddressList = l: seq<Address> | |l| < WORD

  datatype SPProfile = SPProfile(
    params: Bytes32, nodeID: Bytes32, stake: Uint256, earnings: Uint256,
    slash: Uint256, remainingStorage: Uint256, inGoodStanding: bool)

  datatype UserProfile = UserProfile(usersAddress: Address, publicKeyX: Bytes32, publicKeyY: Bytes32)

  // What an unwritten mapping entry reads as.
  const NO_PROFILE := SPProfile(0, 0, 0, 0, 0, 0, false)
  const NO_USER := UserProfile(0, 0, 0)

  datatype Costs = Costs(
    registerCost: Uint256, registerCostScalar: Uint256, slaLevelScalar: Uint256,
    availableStorageScalar: Uint256, bandwidthScalar: Uint256, minAskPriceScalar: Uint256)

  const INITIAL_COSTS := Costs(100_000_000_000, 10_000, 0, 0, 0, 0)

  /** What the contract has done, oldest first.  `charged` is the slash that was
      deducted from a withdrawal. */
  datatype Event =
    | Registered(sp: Address, stake: nat, pledged: nat)
    | Credited(sp: Address, share: nat, size: nat)
    | Slashed(sp: Address, amount: nat)
    | Withdrawn(sp: Address, amount: nat, charged: nat)
    | Unregistered(sp: Address, settlement: nat)

  type Profiles = map<Address, SPProfile>

  datatype State = State(
    balance: nat,
    spAddress2SPProfile: Profiles,
    username2UserProfile: map<Bytes32, UserProfile>,
    address2Username: map<Address, Bytes32>,
    nodeID2Address: map<Bytes32, Address>,
    costs: Costs,
    owner: Address,
    log: seq<Event>)
  {
    function SP(a: Address): SPProfile { At(spAddress2SPProfile, a, NO_PROFILE) }
    function User(name: Bytes32): UserProfile { At(username2UserProfile, name, NO_USER) }
    function NameOf(a: Address): Bytes32 { At(address2Username, a, 0) }
    function NodeOwner(node: Bytes32): Address { At(nodeID2Address, node, 0) }
    predicate IsRegistered(a: Address) { SP(a).params != 0 }
  }

  function At<K, V>(m: map<K, V>, k: K, unwritten: V): V {
    if k in m then m[k] else unwritten
  }

  function Deployed(deployer: Caller, value: Uint256): State {
    State(value, map[], map[], map[], map[], INITIAL_COSTS, deployer, [])
  }

  datatype Op =
    | Fallback(dataLength: nat)
    | RegisterSP(params: Bytes32, nodeID: Bytes32)
    | ProposeUpload(uploadParams: Bytes32, shardsize: Uint64, archonSPs: AddressList)
    | RegisterUsername(username: Bytes32, publicKeyX: Bytes32, publicKeyY: Bytes32)
    | SlashStake(amountToSlash: Uint256, spToSlash: Address)
    | UpdateCostScalar(scalarName: string, newScalarValue: Uint256)
    | UnregisterSP
    | ArchonSPWithdrawal
    | TransferOwnership(newOwner: Address)
    | RenounceOwnership
  {
    predicate IsPayable() { Fallback? || RegisterSP? || ProposeUpload? }
    predicate PaysSender() { UnregisterSP? || ArchonSPWithdrawal? }
  }

  // ---- closed forms of the operations; the message value is already in the balance ----

  function TotalCost(costs: Costs, params: Bytes32): nat {
    CostFormula(costs, BitFields.SlaLevel(params), BitFields.PledgedStorage(params),
                BitFields.Bandwidth(params), BitFields.MinAskPrice(params))
  }

  function CostFormula(costs: Costs, sla: nat, storage: nat, bandwidth: nat, ask: nat): nat {
    Scaled(costs.registerCost, costs.registerCostScalar)
    + Scaled(sla, costs.slaLevelScalar)
    + Scaled(storage, costs.availableStorageScalar)
    + Scaled(bandwidth, costs.bandwidthScalar)
    + Scaled(ask, costs.minAskPriceScalar)
  }

  function Register(s: State, sender: Caller, value: Uint256, params: Bytes32, nodeID: Bytes32): (r: Evm<State>)
    ensures !r.OutOfFunds?
  {
    if s.IsRegistered(sender) || params == 0 || nodeID == 0 || s.NodeOwner(nodeID) != 0
       || value < TotalCost(s.costs, params) then Reverted
    else
      BitFields.FieldBounds(params);
      var pledged := BitFields.PledgedStorage(params);
      Done(s.(
        spAddress2SPProfile := s.spAddress2SPProfile[
          sender := SPProfile(params, nodeID, value, 0, 0, pledged, true)],
        nodeID2Address := s.nodeID2Address[nodeID := sender],
        log := s.log + [Registered(sender, value, pledged)]))
  }

  function MinAsk(ps: Profiles, a: Address): nat {
    BitFields.MinAskPrice(At(ps, a, NO_PROFILE).params)
  }

  /** The largest min ask price of the listed providers, 0 for an empty list. */
  function MaxMinAsk(ps: Profiles, list: seq<Address>): (highest: nat)
    ensures forall a <- list :: MinAsk(ps, a) <= highest
    ensures highest == 0 || exists a <- list :: MinAsk(ps, a) == highest
  {
    if list == [] then 0
    else
      var rest := MaxMinAsk(ps, list[..|list| - 1]);
      var last := list[|list| - 1];
      assert list == list[..|list| - 1] + [last];
      if MinAsk(ps, last) > rest then MinAsk(ps, last) else rest
  }

  function Quotient(value: Uint256, parts: nat): Uint256
    requires parts > 0
  {
    value / parts
  }

  predicate Divides(parts: nat, value: nat)
    requires parts > 0
  {
    value % parts == 0
  }

  /** Whole megabytes, but at least one. */
  function ChargedMegaBytes(shardsize: nat): nat {
    if shardsize / 1_000_000 == 0 then 1 else shardsize / 1_000_000
  }

  /** What one provider must be paid for storing a shard. */
  function UploadPrice(shardsize: nat, ask: nat, months: nat): nat {
    Scaled(Scaled(ChargedMegaBytes(shardsize), ask), months)
  }

  /** What each listed provider receives, when the payment is accepted. */
  function UploadShare(
    s: State, sender: Caller, value: Uint256, params: Bytes32, shardsize: Uint64, list: AddressList): (r: Evm<Uint256>)
    ensures !r.OutOfFunds?
  {
    var months := BitFields.TimeInMonths(params);
    if s.NameOf(sender) == 0 || list == [] || !Divides(|list|, value) || shardsize == 0 || months == 0
    then Reverted
    else
      var share := Quotient(value, |list|);
      if share < UploadPrice(shardsize, MaxMinAsk(s.spAddress2SPProfile, list), months) then Reverted
      else Done(share)
  }

  function Times(list: seq<Address>, a: Address): nat {
    multiset(list)[a]
  }

  /** Every listed provider can take all of its listings together. */
  predicate Fits(ps: Profiles, list: seq<Address>, share: nat, size: nat) {
    forall a <- list ::
      var p := At(ps, a, NO_PROFILE);
      && p.inGoodStanding
      && size * Times(list, a) <= p.remainingStorage
      && p.earnings + share * Times(list, a) < WORD
  }

  function CreditAll(ps: Profiles, list: seq<Address>, share: nat, size: nat): Profiles
    requires Fits(ps, list, share, size)
  {
    map a | a in ps :: if a in list then CreditTimes(ps[a], share, size, Times(list, a)) else ps[a]
  }

  function CreditTimes(p: SPProfile, share: nat, size: nat, times: nat): SPProfile
    requires size * times <= p.remainingStorage && p.earnings + share * times < WORD
  {
    p.(remainingStorage := p.remainingStorage - size * times, earnings := p.earnings + share * times)
  }

  function CreditEvents(list: seq<Address>, share: nat, size: nat): seq<Event> {
    seq(|list|, i requires 0 <= i < |list| => Credited(list[i], share, size))
  }

  function Upload(
    s: State, sender: Caller, value: Uint256, params: Bytes32, shardsize: Uint64, list: AddressList): (r: Evm<State>)
    ensures !r.OutOfFunds?
  {
    var share :- UploadShare(s, sender, value, params, shardsize, list);
    if !Fits(s.spAddress2SPProfile, list, share, shardsize) then Reverted
    else Done(s.(
      spAddress2SPProfile := CreditAll(s.spAddress2SPProfile, list, share, shardsize),
      log := s.log + CreditEvents(list, share, shardsize)))
  }

  function RegisterName(s: State, sender: Caller, username: Bytes32, x: Bytes32, y: Bytes32): (r: Evm<State>)
    ensures !r.OutOfFunds?
  {
    if s.NameOf(sender) != 0 || s.User(username).usersAddress != 0 || username == 0 || x == 0 || y == 0
    then Reverted
    else Done(s.(
      username2UserProfile := s.username2UserProfile[username := UserProfile(sender, x, y)],
      address2Username := s.address2Username[sender := username]))
  }

  /** A provider with a stake keeps its standing while its earnings cover the slash. */
  function Slash(s: State, sender: Caller, amount: Uint256, sp: Address): (r: Evm<State>)
    ensures !r.OutOfFunds?
  {
    var p := s.SP(sp);
    if sender != s.owner || p.slash + amount >= WORD || p.stake + p.earnings >= WORD then Reverted
    else
      var slash := p.slash + amount;
      Done(s.(
        spAddress2SPProfile := s.spAddress2SPProfile[sp := p.(
          slash := slash,
          inGoodStanding := p.inGoodStanding && (p.stake == 0 || slash <= p.earnings))],
        log := s.log + [Slashed(sp, amount)]))
  }

  function SetScalar(costs: Costs, name: string, v: Uint256): (r: Evm<Costs>)
    ensures !r.OutOfFunds?
  {
    if name == "registerCostScalar" then Done(costs.(registerCostScalar := v))
    else if name == "slaLevelScalar" then Done(costs.(slaLevelScalar := v))
    else if name == "availableStorageScalar" then Done(costs.(availableStorageScalar := v))
    else if name == "bandwidthScalar" then Done(costs.(bandwidthScalar := v))
    else if name == "minAskPriceScalar" then Done(costs.(minAskPriceScalar := v))
    else Reverted
  }

  function UpdateScalar(s: State, sender: Caller, name: string, v: Uint256): (r: Evm<State>)
    ensures !r.OutOfFunds?
  {
    if sender != s.owner then Reverted
    else
      var costs :- SetScalar(s.costs, name, v);
      Done(s.(costs := costs))
  }

  function SetOwner(s: State, sender: Caller, newOwner: Address): Evm<State> {
    if sender != s.owner then Reverted else Done(s.(owner := newOwner))
  }

  /** The value leaves the contract when the payee is called. */
  function Pay(s: State, amount: nat): Evm<State> {
    if s.balance < amount then OutOfFunds else Done(s.(balance := s.balance - amount))
  }

  function Settlement(p: SPProfile): Evm<nat> {
    if p.inGoodStanding then
      if p.earnings + p.stake >= WORD || p.slash > p.earnings + p.stake then Reverted
      else Done(p.earnings + p.stake - p.slash)
    else Done(if p.stake > p.slash then p.stake - p.slash else 0)
  }

  function Unregister(s: State, sender: Caller): Evm<State> {
    var p := s.SP(sender);
    var settlement :- Settlement(p);
    Pay(s.(
      spAddress2SPProfile := s.spAddress2SPProfile[
        sender := SPProfile(0, 0, 0, 0, 0, p.remainingStorage, false)],
      nodeID2Address := s.nodeID2Address[p.nodeID := 0],
      log := s.log + [Unregistered(sender, settlement)]), settlement)
  }

  function Withdraw(s: State, sender: Caller): Evm<State> {
    var p := s.SP(sender);
    if !p.inGoodStanding || p.stake + p.earnings >= WORD || p.slash > p.stake + p.earnings then Reverted
    else if p.slash < p.earnings then
      Pay(s.(
        spAddress2SPProfile := s.spAddress2SPProfile[sender := p.(earnings := 0)],
        log := s.log + [Withdrawn(sender, p.earnings - p.slash, p.slash)]), p.earnings - p.slash)
    else
      Pay(s.(log := s.log + [Withdrawn(sender, 0, 0)]), 0)
  }

  // ---- transactions ----

  function Enter(s: State, value: nat): State {
    s.(balance := s.balance + value)
  }

  /** Everything an operation does before it calls its sender, or before it returns. */
  function Effect(s: State, sender: Caller, value: Uint256, op: Op): Evm<State> {
    if value != 0 && !op.IsPayable() then Reverted
    else Operation(Enter(s, value), sender, value, op)
  }

  function Operation(s: State, sender: Caller, value: Uint256, op: Op): Evm<State> {
    match op
      case Fallback(dataLength) => if dataLength == 0 then Done(s) else Reverted
      case RegisterSP(params, nodeID) => Register(s, sender, value, params, nodeID)
      case ProposeUpload(params, shardsize, list) => Upload(s, sender, value, params, shardsize, list)
      case RegisterUsername(username, x, y) => RegisterName(s, sender, username, x, y)
      case SlashStake(amount, sp) => Slash(s, sender, amount, sp)
      case UpdateCostScalar(name, v) => UpdateScalar(s, sender, name, v)
      case UnregisterSP => Unregister(s, sender)
      case ArchonSPWithdrawal => Withdraw(s, sender)
      case TransferOwnership(newOwner) => if newOwner == 0 then Reverted else SetOwner(s, sender, newOwner)
      case RenounceOwnership => SetOwner(s, sender, 0)
  }

  /** A call of the contract.  When it pays its sender, the sender's own code runs:
      it may make the calls `inner` one after another, and then succeeds or fails. */
  datatype Tx = Tx(sender: Caller, value: Uint256, op: Op, inner: seq<Tx>, accepts: bool)

  function Exec(s: State, tx: Tx): Evm<State>
    decreases tx, 0
  {
    var s' :- Effect(s, tx.sender, tx.value, tx.op);
    if tx.op.PaysSender() then Complete(s', tx.inner, tx.accepts) else Done(s')
  }

  /** The payee's turn: its calls run on the state the operation has left. */
  function Complete(s: State, inner: seq<Tx>, accepts: bool): Evm<State>
    decreases inner, 1
  {
    var s' := Run(s, inner);
    if accepts then Done(s') else Reverted
  }

  /** A failed call leaves the state as it was. */
  function Run(s: State, txs: seq<Tx>): State
    decreases txs, 0
  {
    if txs == [] then s
    else
      var outcome := Exec(s, txs[0]);
      Run(if outcome.Done? then outcome.value else s, txs[1..])
  }
}
