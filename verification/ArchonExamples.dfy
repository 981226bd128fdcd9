/** Runs of a newly deployed contract that reach what `ArchonSlashing` describes: one
    provider is charged the same slash three times, another one is locked in. */
module ArchonExamples {
  import opened Bytes
  import opened SafeMath
  import opened ArchonModel
  import opened ArchonInvariants
  import opened ArchonSteps
  import opened ArchonRuns
  import opened ArchonSlashing
  import BitFields

  const OWNER: Caller := 1
  const PROVIDER: Caller := 7
  const UPLOADER: Caller := 8

  // ---- parameters: two pledged bytes, nothing asked; one month ----

  function Word(bs: ByteString): Bytes32
    requires |bs| == 32
  {
    BitFields.WordBytes(bs);
    Value(bs)
  }

  /** Bytes that are 0 but for the one at index `at`. */
  function OneByte(at: nat, b: Byte): (bs: ByteString)
    requires at < 32
    ensures |bs| == 32
  {
    Zeros(at) + [b] + Zeros(31 - at)
  }

  const PLEDGE: Bytes32 := Word(OneByte(8, 2))
  const ONE_MONTH: Bytes32 := Word(OneByte(3, 1))

  lemma {:induction false} ValueOfZeros(n: nat)
    ensures Value(Zeros(n)) == 0
  {
    if n == 0 {
    } else {
      ValueOfZeros(n - 1);
      assert Zeros(n)[..n - 1] == Zeros(n - 1);
    }
  }

  lemma ValueOfLast(n: nat, b: Byte)
    ensures Value(Zeros(n) + [b]) == b
  {
    ValueOfZeros(n);
    assert (Zeros(n) + [b])[..n] == Zeros(n);
  }

  lemma PledgeFields()
    ensures BitFields.SlaLevel(PLEDGE) == BitFields.Bandwidth(PLEDGE) == BitFields.MinAskPrice(PLEDGE) == 0
    ensures BitFields.PledgedStorage(PLEDGE) == 2 && PLEDGE != 0
  {
    hide BitFields.PledgedStorage, BitFields.SlaLevel, BitFields.Bandwidth, BitFields.MinAskPrice, Value;
    var bs, none := OneByte(8, 2), Zeros(32);
    BitFields.FieldsAreByteRanges(bs, PLEDGE);
    assert bs[..1] == Zeros(1) && bs[1..9] == Zeros(7) + [2] && bs[9..17] == bs[17..25] == Zeros(8);
    ValueOfZeros(1);
    ValueOfLast(7, 2);
    ValueOfZeros(8);
    ValueOfZeros(32);
    BitFields.FieldsAreByteRanges(none, 0);
    assert none[1..9] == Zeros(8);
  }

  lemma MonthField()
    ensures BitFields.TimeInMonths(ONE_MONTH) == 1
  {
    hide BitFields.TimeInMonths, Value;
    var bs := OneByte(3, 1);
    BitFields.FieldsAreByteRanges(bs, ONE_MONTH);
    assert bs[..4] == Zeros(3) + [1];
    ValueOfLast(3, 1);
  }

  // ---- the transactions ----

  function Call(sender: Caller, value: Uint256, op: Op): Tx {
    Tx(sender, value, op, [], true)
  }

  const FREE := Call(OWNER, 0, UpdateCostScalar("registerCostScalar", 0))
  const JOIN := Call(PROVIDER, 5, RegisterSP(PLEDGE, 1))
  const NAME := Call(UPLOADER, 0, RegisterUsername(1, 1, 1))
  const UPLOAD := Call(UPLOADER, 10, ProposeUpload(ONE_MONTH, 1, [PROVIDER]))
  const WITHDRAW := Call(PROVIDER, 0, ArchonSPWithdrawal)
  const LEAVE := Call(PROVIDER, 0, UnregisterSP)

  function SlashBy(amount: Uint256): Tx {
    Call(OWNER, 0, SlashStake(amount, PROVIDER))
  }

  function After(s: State, tx: Tx): State {
    var outcome := Exec(s, tx);
    if outcome.Done? then outcome.value else s
  }

  lemma {:induction false} RunAppend(s: State, txs: seq<Tx>, tx: Tx)
    ensures Run(s, txs + [tx]) == After(Run(s, txs), tx)
    decreases |txs|
  {
    hide Exec;
    if txs == [] {
      assert [] + [tx] == [tx] && [tx][1..] == [];
    } else {
      assert (txs + [tx])[1..] == txs[1..] + [tx];
      RunAppend(After(s, txs[0]), txs[1..], tx);
    }
  }

  lemma PlainCall(s: State, sender: Caller, value: Uint256, op: Op)
    ensures Exec(s, Call(sender, value, op)) == Effect(s, sender, value, op)
  {
    hide Effect;
  }

  // ---- what each of them does ----

  /** The provider's profile and account, and the balance. */
  predicate Stage(s: State, p: SPProfile, acc: Account, balance: nat) {
    && s.owner == OWNER && s.NameOf(UPLOADER) == 1
    && s.SP(PROVIDER) == p && Ledger(s.log, PROVIDER) == acc && s.balance == balance
  }

  const START: State := Deployed(OWNER, 0)
  const JOINED := SPProfile(PLEDGE, 1, 5, 0, 0, 2, true)
  const OPENED := Account(true, 5, 2, 0, 0, 0, 0, 0)

  lemma FirstStage()
    ensures Stage(Run(START, [FREE, JOIN, NAME]), JOINED, OPENED, 5)
  {
    RunAppend(START, [], FREE);
    RunAppend(START, [FREE], JOIN);
    RunAppend(START, [FREE, JOIN], NAME);
    assert [] + [FREE] == [FREE] && [FREE] + [JOIN] == [FREE, JOIN] && [FREE, JOIN] + [NAME] == [FREE, JOIN, NAME];
    var s1 := After(START, FREE);
    FreeStep();
    JoinStep(s1);
    NameStep(After(s1, JOIN));
    hide After;
  }

  lemma FreeStep()
    ensures After(START, FREE) == START.(costs := INITIAL_COSTS.(registerCostScalar := 0))
  {
    PlainCall(START, OWNER, 0, FREE.op);
  }

  lemma JoinStep(s: State)
    requires s == START.(costs := INITIAL_COSTS.(registerCostScalar := 0))
    ensures var t := After(s, JOIN);
      && t.owner == OWNER && t.balance == 5 && t.address2Username == map[] && t.username2UserProfile == map[]
      && t.SP(PROVIDER) == JOINED && t.log == [Registered(PROVIDER, 5, 2)]
  {
    hide PLEDGE, Register, TotalCost, BitFields.PledgedStorage, BitFields.SlaLevel, BitFields.Bandwidth,
      BitFields.MinAskPrice, Exec;
    PlainCall(s, PROVIDER, 5, JOIN.op);
    PledgeFields();
    FreeCost();
    Joins(Enter(s, 5), PLEDGE);
  }

  lemma Joins(s: State, params: Bytes32)
    requires !s.IsRegistered(PROVIDER) && s.NodeOwner(1) == 0 && params != 0
    requires TotalCost(s.costs, params) == 0 && BitFields.PledgedStorage(params) == 2
    ensures var r := Register(s, PROVIDER, 5, params, 1);
      && r.Done?
      && r.value == s.(spAddress2SPProfile := r.value.spAddress2SPProfile,
                       nodeID2Address := r.value.nodeID2Address, log := s.log + [Registered(PROVIDER, 5, 2)])
      && r.value.SP(PROVIDER) == SPProfile(params, 1, 5, 0, 0, 2, true)
  {
    hide TotalCost, BitFields.PledgedStorage;
  }

  lemma FreeCost()
    ensures TotalCost(INITIAL_COSTS.(registerCostScalar := 0), PLEDGE) == 0
  {
    PledgeFields();
    hide PLEDGE, BitFields.PledgedStorage, BitFields.SlaLevel, BitFields.Bandwidth, BitFields.MinAskPrice;
  }

  lemma NameStep(s: State)
    requires s.owner == OWNER && s.balance == 5 && s.address2Username == map[] && s.username2UserProfile == map[]
    requires s.SP(PROVIDER) == JOINED && s.log == [Registered(PROVIDER, 5, 2)]
    ensures Stage(After(s, NAME), JOINED, OPENED, 5)
  {
    PlainCall(s, UPLOADER, 0, NAME.op);
    LedgerAppend([], Registered(PROVIDER, 5, 2), PROVIDER);
    assert [] + [Registered(PROVIDER, 5, 2)] == [Registered(PROVIDER, 5, 2)];
  }

  /** One byte for 10. */
  lemma UploadStep(s: State, p: SPProfile, acc: Account, balance: nat)
    requires Stage(s, p, acc, balance) && p.inGoodStanding && p.params == PLEDGE
    requires p.remainingStorage >= 1 && p.earnings <= 20
    ensures Stage(After(s, UPLOAD), p.(remainingStorage := p.remainingStorage - 1, earnings := p.earnings + 10),
                  acc.(credited := acc.credited + 10, accepted := acc.accepted + 1), balance + 10)
  {
    hide PLEDGE, ONE_MONTH, Upload, Ledger, Exec;
    PlainCall(s, UPLOADER, 10, UPLOAD.op);
    UploadEffect(Enter(s, 10), p, acc);
  }

  lemma UploadEffect(s: State, p: SPProfile, acc: Account)
    requires s.NameOf(UPLOADER) == 1 && s.SP(PROVIDER) == p && Ledger(s.log, PROVIDER) == acc
    requires p.inGoodStanding && p.params == PLEDGE && p.remainingStorage >= 1 && p.earnings <= 20
    ensures var r := Upload(s, UPLOADER, 10, ONE_MONTH, 1, [PROVIDER]);
      && r.Done?
      && r.value == s.(spAddress2SPProfile := r.value.spAddress2SPProfile, log := r.value.log)
      && r.value.SP(PROVIDER) == p.(remainingStorage := p.remainingStorage - 1, earnings := p.earnings + 10)
      && Ledger(r.value.log, PROVIDER) == acc.(credited := acc.credited + 10, accepted := acc.accepted + 1)
  {
    PledgeFields();
    MonthField();
    hide BitFields.MinAskPrice, BitFields.TimeInMonths, Ledger;
    var list := [PROVIDER];
    assert list[..0] == [];
    assert MaxMinAsk(s.spAddress2SPProfile, list) == 0;
    assert UploadShare(s, UPLOADER, 10, ONE_MONTH, 1, list) == Done(10);
    assert Times(list, PROVIDER) == 1;
    assert CreditEvents(list, 10, 1) == [Credited(PROVIDER, 10, 1)];
    LedgerAppend(s.log, Credited(PROVIDER, 10, 1), PROVIDER);
  }

  lemma SlashStep(s: State, p: SPProfile, acc: Account, balance: nat, amount: Uint256)
    requires Stage(s, p, acc, balance) && p.inGoodStanding
    requires p.stake + p.earnings < 100 && p.slash + amount <= p.earnings
    ensures Stage(After(s, SlashBy(amount)), p.(slash := p.slash + amount),
                  acc.(slashed := acc.slashed + amount), balance)
  {
    hide Ledger, PLEDGE, Exec;
    PlainCall(s, OWNER, 0, SlashBy(amount).op);
    LedgerAppend(s.log, Slashed(PROVIDER, amount), PROVIDER);
  }

  lemma WithdrawStep(s: State, p: SPProfile, acc: Account, balance: nat)
    requires Stage(s, p, acc, balance) && p.inGoodStanding
    requires p.stake + p.earnings < 100 && p.slash < p.earnings <= balance
    ensures Stage(After(s, WITHDRAW), p.(earnings := 0),
                  acc.(withdrawn := acc.withdrawn + p.earnings - p.slash, charged := acc.charged + p.slash),
                  balance - (p.earnings - p.slash))
  {
    hide Ledger, PLEDGE, Exec;
    PlainCall(s, PROVIDER, 0, ArchonSPWithdrawal);
    LedgerAppend(s.log, Withdrawn(PROVIDER, p.earnings - p.slash, p.slash), PROVIDER);
  }

  // ---- the two runs ----

  function SlashedScript(): seq<Tx> {
    [FREE, JOIN, NAME, UPLOAD, SlashBy(3), WITHDRAW, UPLOAD, WITHDRAW]
  }

  function LockedScript(): seq<Tx> {
    [FREE, JOIN, NAME, UPLOAD, SlashBy(6), WITHDRAW]
  }

  /** Both runs up to the first withdrawal. */
  lemma FirstWithdrawal(amount: Uint256)
    requires amount < 10
    ensures Stage(Run(START, [FREE, JOIN, NAME, UPLOAD, SlashBy(amount), WITHDRAW]),
                  JOINED.(remainingStorage := 1, slash := amount),
                  Account(true, 5, 2, 10, amount, 10 - amount, amount, 1), 5 + amount)
  {
    hide Stage, After, SlashBy;
    FirstStage();
    var three := [FREE, JOIN, NAME];
    var four := three + [UPLOAD];
    var five := four + [SlashBy(amount)];
    RunAppend(START, three, UPLOAD);
    RunAppend(START, four, SlashBy(amount));
    RunAppend(START, five, WITHDRAW);
    var p, acc := JOINED, OPENED;
    UploadStep(Run(START, three), p, acc, 5);
    p, acc := p.(remainingStorage := 1, earnings := 10), acc.(credited := 10, accepted := 1);
    SlashStep(Run(START, four), p, acc, 15, amount);
    WithdrawStep(Run(START, five), p.(slash := amount), acc.(slashed := amount), 15);
    assert five + [WITHDRAW] == [FREE, JOIN, NAME, UPLOAD, SlashBy(amount), WITHDRAW];
  }

  lemma SecondWithdrawal()
    ensures Stage(Run(START, SlashedScript()), JOINED.(remainingStorage := 0, slash := 3),
                  Account(true, 5, 2, 20, 3, 14, 6, 2), 11)
  {
    hide Stage, After, SlashBy, PLEDGE, START, Run;
    var script := [FREE, JOIN, NAME, UPLOAD, SlashBy(3), WITHDRAW];
    var p, acc := JOINED.(remainingStorage := 1, slash := 3), Account(true, 5, 2, 10, 3, 7, 3, 1);
    FirstWithdrawal(3);
    RunAppend(START, script, UPLOAD);
    RunAppend(START, script + [UPLOAD], WITHDRAW);
    UploadStep(Run(START, script), p, acc, 8);
    p, acc := p.(remainingStorage := 0, earnings := 10), acc.(credited := 20, accepted := 2);
    WithdrawStep(Run(START, script + [UPLOAD]), p, acc, 18);
    assert script + [UPLOAD] + [WITHDRAW] == SlashedScript();
  }

  /** Three charges of 3, and no cover for the slash before the last of them. */
  predicate ChargedThrice(s: State, t: State) {
    && s.SP(PROVIDER) == JOINED.(remainingStorage := 0, slash := 3) && !Covered(s.SP(PROVIDER))
    && Ledger(s.log, PROVIDER) == Account(true, 5, 2, 20, 3, 14, 6, 2)
    && t.balance == s.balance - 2
    && Deducted(Ledger(s.log, PROVIDER), 2, t.SP(PROVIDER)) == 9
  }

  /** Both claims fail: the provider pays for a slash of 3 at each of two withdrawals and
      once more when it leaves, and in between is in good standing with nothing to cover
      the slash. */
  lemma SlashedTwice()
    ensures Reachable(Run(START, SlashedScript()))
    ensures ChargedThrice(Run(START, SlashedScript()), Run(START, SlashedScript() + [LEAVE]))
  {
    hide Run, After, Reachable, Ledger, PLEDGE, SlashedScript, START, Stage, ChargedThrice;
    SecondWithdrawal();
    RunAppend(START, SlashedScript(), LEAVE);
    LeaveStep(Run(START, SlashedScript()));
    ScriptReachable(SlashedScript());
  }

  lemma ScriptReachable(txs: seq<Tx>)
    ensures Reachable(Run(START, txs))
  {
    assert ReachedBy(Run(START, txs), OWNER, 0, txs);
  }

  lemma LeaveStep(s: State)
    requires Stage(s, JOINED.(remainingStorage := 0, slash := 3), Account(true, 5, 2, 20, 3, 14, 6, 2), 11)
    ensures ChargedThrice(s, After(s, LEAVE))
  {
    hide Ledger, PLEDGE, Exec;
    PlainCall(s, PROVIDER, 0, UnregisterSP);
  }

  /** A provider in good standing that cannot leave: its withdrawal after a slash of 6
      took the earnings that covered more than its stake of 5. */
  lemma LockedProvider(inner: seq<Tx>)
    ensures var s := Run(START, LockedScript());
      && Reachable(s)
      && s.SP(PROVIDER) == JOINED.(remainingStorage := 1, slash := 6) && LockedIn(s.SP(PROVIDER))
      && Exec(s, Tx(PROVIDER, 0, UnregisterSP, inner, true)) == Reverted
  {
    FirstWithdrawal(6);
    ScriptReachable(LockedScript());
    var s := Run(START, LockedScript());
    hide Run, Exec, Reachable, SlashBy;
    assert s.SP(PROVIDER) == JOINED.(remainingStorage := 1, slash := 6);
    CanLeave(s, PROVIDER, inner);
  }
}
