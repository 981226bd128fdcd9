/** What a slash does to the money of a registration.  Two claims that suggest
    themselves are false, and a provider can be locked in; here is exactly when. */
module ArchonSlashing {
  import opened SafeMath
  import opened ArchonModel
  import opened ArchonInvariants
  import opened ArchonSteps
  import opened ArchonRuns
  import BitFields

  // ---- "good standing means that the earnings cover the slash" ----

  predicate Covered(p: SPProfile) {
    p.inGoodStanding ==> p.slash <= p.earnings
  }

  /** It fails after a withdrawal, which zeroes the earnings and keeps the slash, and
      for a provider without stake; and in no other way. */
  lemma CoverLost(s: State, sender: Caller, value: Uint256, op: Op, t: State, a: Address)
    requires Operation(s, sender, value, op) == Done(t) && Covered(s.SP(a))
    ensures var p := s.SP(a);
      !Covered(t.SP(a)) <==>
        || (op.ArchonSPWithdrawal? && sender == a && 0 < p.slash < p.earnings)
        || (op.SlashStake? && op.spToSlash == a && p.inGoodStanding && p.stake == 0
            && p.slash + op.amountToSlash > p.earnings)
  {
    match op {
      case RegisterSP(params, nodeID) =>
        hide TotalCost, BitFields.PledgedStorage;
      case ProposeUpload(params, shardsize, list) =>
        UploadKeepsCover(s, sender, value, params, shardsize, list, t, a);
      case _ =>
    }
  }

  lemma UploadKeepsCover(
    s: State, sender: Caller, value: Uint256, params: Bytes32, shardsize: Uint64, list: AddressList, t: State,
    a: Address)
    requires Upload(s, sender, value, params, shardsize, list) == Done(t) && Covered(s.SP(a))
    ensures Covered(t.SP(a))
  {
    hide Upload;
    ProfileAfterUpload(s, sender, value, params, shardsize, list, t, a);
  }

  // ---- "a slash is charged once" ----

  predicate SlashedAt(e: Event, a: Address) {
    e.Slashed? && e.sp == a && e.amount > 0
  }

  predicate PaidAt(e: Event, a: Address) {
    e.Withdrawn? && e.sp == a && e.amount > 0
  }

  /** The first entry of the log that belongs to the current registration of `a`. */
  function Since(log: seq<Event>, a: Address): (i: nat)
    ensures i <= |log|
  {
    if log == [] then 0
    else
      var e := log[|log| - 1];
      if e.sp == a && (e.Registered? || e.Unregistered?) then |log| else Since(log[..|log| - 1], a)
  }

  predicate SlashedSince(log: seq<Event>, a: Address) {
    exists i | Since(log, a) <= i < |log| :: SlashedAt(log[i], a)
  }

  /** In this registration a withdrawal has been paid after a slash. */
  predicate PaidAfterSlash(log: seq<Event>, a: Address) {
    exists i, k | Since(log, a) <= i < k < |log| :: SlashedAt(log[i], a) && PaidAt(log[k], a)
  }

  lemma SinceAppend(log: seq<Event>, e: Event, a: Address)
    requires !(e.sp == a && (e.Registered? || e.Unregistered?))
    ensures Since(log + [e], a) == Since(log, a)
    ensures SlashedSince(log + [e], a) <==> SlashedSince(log, a) || SlashedAt(e, a)
    ensures PaidAfterSlash(log + [e], a) <==> PaidAfterSlash(log, a) || (SlashedSince(log, a) && PaidAt(e, a))
  {
    var both := log + [e];
    assert both[..|both| - 1] == log;
    if SlashedSince(log, a) {
      var i :| Since(log, a) <= i < |log| && SlashedAt(log[i], a);
      assert SlashedAt(both[i], a) && both[|log|] == e;
    }
    if SlashedAt(e, a) {
      assert SlashedAt(both[|log|], a);
    }
    if PaidAfterSlash(log, a) {
      var i, k :| Since(log, a) <= i < k < |log| && SlashedAt(log[i], a) && PaidAt(log[k], a);
      assert SlashedAt(both[i], a) && PaidAt(both[k], a);
    }
  }

  /** The account and the log tell the same about slashes and charges. */
  lemma {:induction false} LogTells(log: seq<Event>, a: Address)
    requires PayoutsAccounted(log)
    ensures Ledger(log, a).slashed > 0 <==> SlashedSince(log, a)
    ensures Ledger(log, a).charged > 0 <==> PaidAfterSlash(log, a)
  {
    if log == [] {
    } else {
      var front, e := log[..|log| - 1], log[|log| - 1];
      assert log == front + [e];
      LogTells(front, a);
      if !(e.sp == a && (e.Registered? || e.Unregistered?)) {
        SinceAppend(front, e, a);
      }
    }
  }

  /** What of the stake and the credits of a registration is neither paid out nor owed. */
  function Deducted(acc: Account, paid: int, p: SPProfile): int {
    acc.stake + acc.credited - (acc.withdrawn + paid) - Owed(p)
  }

  lemma LeftInStanding(s: State, a: Caller, t: State)
    requires Unregister(s, a) == Done(t) && s.SP(a).inGoodStanding
    ensures s.balance - t.balance + s.SP(a).slash == Owed(s.SP(a)) && Owed(t.SP(a)) == 0
  {
  }

  lemma WithdrawnInStanding(s: State, a: Caller, t: State)
    requires Withdraw(s, a) == Done(t) && t.balance < s.balance
    ensures s.balance - t.balance + s.SP(a).slash + Owed(t.SP(a)) == Owed(s.SP(a))
  {
  }

  lemma PaidInStanding(s: State, a: Caller, op: Op, t: State)
    requires Effect(s, a, 0, op) == Done(t) && s.SP(a).inGoodStanding
    requires op.UnregisterSP? || (op.ArchonSPWithdrawal? && t.balance < s.balance)
    ensures s.balance - t.balance + s.SP(a).slash + Owed(t.SP(a)) == Owed(s.SP(a))
  {
    hide Unregister, Withdraw, Register, Upload, RegisterName, Slash, UpdateScalar, SetOwner, Owed;
    assert Enter(s, 0) == s;
    if op.UnregisterSP? {
      LeftInStanding(s, a, t);
    } else {
      WithdrawnInStanding(s, a, t);
    }
  }

  /** Every payout deducts the whole slash from what the registration brought in.  In
      good standing the deductions then exceed the slash exactly when a withdrawal was
      paid after a slash before. */
  lemma ChargedOnceOnly(s: State, a: Caller, op: Op, t: State)
    requires Reachable(s) && Effect(s, a, 0, op) == Done(t) && s.SP(a).inGoodStanding
    requires op.UnregisterSP? || (op.ArchonSPWithdrawal? && t.balance < s.balance)
    ensures var acc, p, paid := Ledger(s.log, a), s.SP(a), s.balance - t.balance;
      && acc.withdrawn + acc.charged + paid + p.slash + Owed(t.SP(a)) == acc.stake + acc.credited
      && Deducted(acc, paid, t.SP(a)) == acc.charged + p.slash
      && (Deducted(acc, paid, t.SP(a)) > p.slash <==> PaidAfterSlash(s.log, a))
  {
    PaidInStanding(s, a, op, t);
    EarningsConserved(s, a);
    ReachableInv(s);
    LogTells(s.log, a);
    hide Ledger, PayoutsAccounted, PaidAfterSlash, Effect, Reachable, Inv;
  }

  /** Out of standing, a settlement that pays deducts the slash from the stake although
      the earnings are forfeited too; so even the first charge exceeds the slash unless
      there are no earnings. */
  lemma ChargedOutOfStanding(s: State, a: Caller, t: State)
    requires Reachable(s) && Effect(s, a, 0, UnregisterSP) == Done(t) && OutOfStanding(s.SP(a))
    ensures var acc, p, paid := Ledger(s.log, a), s.SP(a), s.balance - t.balance;
      && paid == (if p.stake > p.slash then p.stake - p.slash else 0)
      && (paid > 0 ==> Deducted(acc, paid, t.SP(a)) == acc.charged + p.slash + p.earnings)
      && (paid > 0 ==>
        (Deducted(acc, paid, t.SP(a)) > p.slash <==> PaidAfterSlash(s.log, a) || p.earnings > 0))
      && (paid == 0 ==> Deducted(acc, paid, t.SP(a)) == acc.stake + acc.credited - acc.withdrawn)
  {
    EarningsConserved(s, a);
    ReachableInv(s);
    LogTells(s.log, a);
    hide Ledger, PayoutsAccounted, PaidAfterSlash;
  }

  // ---- "a provider in good standing can leave" ----

  /** The settlement in standing reverts. */
  predicate LockedIn(p: SPProfile) {
    p.inGoodStanding && (p.slash > p.stake + p.earnings || p.stake + p.earnings >= WORD)
  }

  /** Leaving succeeds, whatever the provider does with the call it gets, exactly when it
      is not locked in. */
  lemma CanLeave(s: State, a: Caller, inner: seq<Tx>)
    requires Reachable(s)
    ensures Exec(s, Tx(a, 0, UnregisterSP, inner, true)).Done? <==> !LockedIn(s.SP(a))
    ensures LockedIn(s.SP(a)) ==> Exec(s, Tx(a, 0, UnregisterSP, inner, true)) == Reverted
  {
    Solvency(s, Tx(a, 0, UnregisterSP, inner, true));
    ReachableInv(s);
    assert Enter(s, 0) == s;
    assert Effect(s, a, 0, UnregisterSP) != OutOfFunds;
    hide Run, Reachable, Inv, Funded;
  }

  /** A withdrawal that pays although the slash exceeds the stake locks its provider in;
      so does slashing one without stake beyond its earnings, and a credit that makes
      stake and earnings overflow; and nothing else. */
  lemma LockedBy(s: State, sender: Caller, value: Uint256, op: Op, t: State, a: Address)
    requires Operation(s, sender, value, op) == Done(t) && !LockedIn(s.SP(a))
    ensures var p := s.SP(a);
      LockedIn(t.SP(a)) <==>
        || (op.ArchonSPWithdrawal? && sender == a && p.stake < p.slash < p.earnings)
        || (op.SlashStake? && op.spToSlash == a && p.inGoodStanding && p.stake == 0
            && p.slash + op.amountToSlash > p.earnings)
        || (op.ProposeUpload? && op.archonSPs != [] && p.inGoodStanding
            && p.stake + p.earnings + Quotient(value, |op.archonSPs|) * Times(op.archonSPs, a) >= WORD)
  {
    match op {
      case RegisterSP(params, nodeID) =>
        hide TotalCost, BitFields.PledgedStorage;
      case ProposeUpload(params, shardsize, list) =>
        UploadLocks(s, sender, value, params, shardsize, list, t, a);
      case _ =>
    }
  }

  lemma UploadLocks(
    s: State, sender: Caller, value: Uint256, params: Bytes32, shardsize: Uint64, list: AddressList, t: State,
    a: Address)
    requires Upload(s, sender, value, params, shardsize, list) == Done(t) && !LockedIn(s.SP(a))
    ensures list != []
    ensures LockedIn(t.SP(a)) <==>
      s.SP(a).inGoodStanding && s.SP(a).stake + s.SP(a).earnings + Quotient(value, |list|) * Times(list, a) >= WORD
  {
    ProfileAfterUpload(s, sender, value, params, shardsize, list, t, a);
    assert UploadShare(s, sender, value, params, shardsize, list).value == Quotient(value, |list|);
    hide Upload, UploadShare;
    if a !in list {
      assert Times(list, a) == 0;
    }
  }
}
