/** What every operation of the contract keeps: solvency, the two registries, and
    the agreement between the profiles and the accounts read off the event log. */
module ArchonInvariants {
  import opened ArchonModel
  import opened MapSums
  import BitFields

  // ---- solvency ----

  function Owed(p: SPProfile): nat { p.stake + p.earnings }
  function Earned(p: SPProfile): nat { p.earnings }

  ghost function Liabilities(s: State): nat { Sum(s.spAddress2SPProfile, Owed) }
  ghost function Surplus(s: State): int { s.balance - Liabilities(s) }

  // ---- the registries ----

  /** Registered providers and their node ids are in bijection through both mappings,
      and an address that is not registered has nothing. */
  ghost predicate Registry(ps: Profiles, nodes: map<Bytes32, Address>) {
    && At(nodes, 0, 0) == 0
    && (forall a: Address :: WellShaped(ps, a))
    && (forall a: Address, n: Bytes32 :: NodeAgrees(ps, nodes, a, n))
  }

  predicate WellShaped(ps: Profiles, a: Address) {
    var p := At(ps, a, NO_PROFILE);
    if p.params == 0 then Blank(p) else a != 0 && p.nodeID != 0
  }

  predicate NodeAgrees(ps: Profiles, nodes: map<Bytes32, Address>, a: Address, n: Bytes32) {
    a != 0 && n != 0 ==>
      (At(nodes, n, 0) == a <==> At(ps, a, NO_PROFILE).params != 0 && At(ps, a, NO_PROFILE).nodeID == n)
  }

  predicate Blank(p: SPProfile) {
    p.nodeID == 0 && p.stake == 0 && p.earnings == 0 && !p.inGoodStanding
  }

  /** The two user-name mappings are inverse to each other. */
  ghost predicate NamesInverse(users: map<Bytes32, UserProfile>, names: map<Address, Bytes32>) {
    && At(names, 0, 0) == 0 && At(users, 0, NO_USER).usersAddress == 0
    && (forall a: Address, n: Bytes32 :: NameAgrees(users, names, a, n))
  }

  predicate NameAgrees(users: map<Bytes32, UserProfile>, names: map<Address, Bytes32>, a: Address, n: Bytes32) {
    a != 0 && n != 0 ==> (At(names, a, 0) == n <==> At(users, n, NO_USER).usersAddress == a)
  }

  // ---- accounts, one per registration ----

  datatype Account = Account(
    active: bool, stake: nat, pledged: nat, credited: nat,
    slashed: nat, withdrawn: nat, charged: nat, accepted: nat)

  const CLOSED := Account(false, 0, 0, 0, 0, 0, 0, 0)

  function Post(acc: Account, e: Event): Account {
    match e
    case Registered(_, stake, pledged) => Account(true, stake, pledged, 0, 0, 0, 0, 0)
    case Credited(_, share, size) => acc.(credited := acc.credited + share, accepted := acc.accepted + size)
    case Slashed(_, amount) => acc.(slashed := acc.slashed + amount)
    case Withdrawn(_, amount, charged) =>
      acc.(withdrawn := acc.withdrawn + amount, charged := acc.charged + charged)
    case Unregistered(_, _) => CLOSED
  }

  /** The account of `a` since its last registration. */
  function Ledger(log: seq<Event>, a: Address): Account {
    if log == [] then CLOSED
    else
      var before := Ledger(log[..|log| - 1], a);
      var e := log[|log| - 1];
      if e.sp == a then Post(before, e) else before
  }

  predicate AccountAgrees(acc: Account, p: SPProfile) {
    && (acc.active <==> p.params != 0)
    && p.stake == acc.stake
    && p.slash == acc.slashed
    && acc.withdrawn + acc.charged + p.earnings == acc.credited
    && (acc.active ==>
          p.remainingStorage + acc.accepted == acc.pledged == BitFields.PledgedStorage(p.params))
  }

  ghost predicate LedgersAgree(log: seq<Event>, ps: Profiles) {
    forall a: Address :: LedgerAgrees(log, ps, a)
  }

  predicate LedgerAgrees(log: seq<Event>, ps: Profiles, a: Address) {
    AccountAgrees(Ledger(log, a), At(ps, a, NO_PROFILE))
  }

  /** A final settlement never brings the total paid above stake plus credits, and
      when it pays anything the whole slash has been deducted. */
  predicate SettlementBounded(acc: Account, settlement: nat) {
    && acc.withdrawn + settlement <= acc.stake + acc.credited
    && (settlement > 0 ==> acc.withdrawn + settlement + acc.slashed <= acc.stake + acc.credited)
  }

  /** A withdrawal that pays deducts the whole slash, whatever was deducted before. */
  predicate PayoutAccounted(acc: Account, e: Event) {
    match e
    case Unregistered(_, settlement) => SettlementBounded(acc, settlement)
    case Withdrawn(_, amount, charged) => charged == if amount > 0 then acc.slashed else 0
    case _ => true
  }

  /** Every payout in the log agrees with the account that it was made from. */
  predicate PayoutsAccounted(log: seq<Event>) {
    log == [] ||
    var before, e := log[..|log| - 1], log[|log| - 1];
    PayoutsAccounted(before) && PayoutAccounted(Ledger(before, e.sp), e)
  }

  ghost predicate Inv(s: State) {
    && Surplus(s) >= 0
    && Registry(s.spAddress2SPProfile, s.nodeID2Address)
    && NamesInverse(s.username2UserProfile, s.address2Username)
    && LedgersAgree(s.log, s.spAddress2SPProfile)
    && PayoutsAccounted(s.log)
  }

  // ---- what never goes back ----

  predicate Left(log: seq<Event>, i: nat, j: nat, a: Address) {
    exists k | i <= k < j && k < |log| :: log[k].Unregistered? && log[k].sp == a
  }

  predicate Joined(log: seq<Event>, i: nat, j: nat, a: Address) {
    exists k | i <= k < j && k < |log| :: log[k].Registered? && log[k].sp == a
  }

  predicate LeftThenJoined(log: seq<Event>, i: nat, a: Address) {
    exists k | i <= k < |log| :: log[k].Unregistered? && log[k].sp == a && Joined(log, k, |log|, a)
  }

  predicate OutOfStanding(p: SPProfile) {
    p.params != 0 && !p.inGoodStanding
  }

  ghost predicate StandingKept(s: State, t: State, a: Address) {
    && (s.IsRegistered(a) && !t.IsRegistered(a) ==> Left(t.log, |s.log|, |t.log|, a))
    && (!s.IsRegistered(a) && t.IsRegistered(a) ==> Joined(t.log, |s.log|, |t.log|, a))
    && (OutOfStanding(s.SP(a)) && t.SP(a).inGoodStanding ==> LeftThenJoined(t.log, |s.log|, a))
    && (OutOfStanding(s.SP(a)) && !Left(t.log, |s.log|, |t.log|, a) ==>
          OutOfStanding(t.SP(a)) && t.SP(a) == s.SP(a).(slash := t.SP(a).slash) && t.SP(a).slash >= s.SP(a).slash)
  }

  /** A user name, once taken, stays with its address, and its keys stay. */
  ghost predicate NamesPermanent(s: State, t: State) {
    && (forall a: Address :: NameKept(s.address2Username, t.address2Username, a))
    && (forall n: Bytes32 :: UserKept(s.username2UserProfile, t.username2UserProfile, n))
  }

  predicate NameKept(names: map<Address, Bytes32>, names': map<Address, Bytes32>, a: Address) {
    At(names, a, 0) != 0 ==> At(names', a, 0) == At(names, a, 0)
  }

  predicate UserKept(users: map<Bytes32, UserProfile>, users': map<Bytes32, UserProfile>, n: Bytes32) {
    At(users, n, NO_USER).usersAddress != 0 ==> At(users', n, NO_USER) == At(users, n, NO_USER)
  }

  ghost predicate Evolves(s: State, t: State) {
    && Surplus(t) >= Surplus(s)
    && s.log <= t.log
    && NamesPermanent(s, t)
    && (forall a: Address :: StandingKept(s, t, a))
  }

  lemma EvolvesReflexive(s: State)
    ensures Evolves(s, s)
  {
  }

  lemma EvolvesTransitive(s: State, t: State, u: State)
    requires Evolves(s, t) && Evolves(t, u) && Registry(u.spAddress2SPProfile, u.nodeID2Address)
    ensures Evolves(s, u)
  {
    forall a: Address
      ensures StandingKept(s, u, a) && NameKept(s.address2Username, u.address2Username, a)
    {
      StandingTransitive(s, t, u, a);
      assert NameKept(s.address2Username, t.address2Username, a);
      assert NameKept(t.address2Username, u.address2Username, a);
    }
    forall n: Bytes32
      ensures UserKept(s.username2UserProfile, u.username2UserProfile, n)
    {
      assert UserKept(s.username2UserProfile, t.username2UserProfile, n);
      assert UserKept(t.username2UserProfile, u.username2UserProfile, n);
    }
  }

  lemma StandingTransitive(s: State, t: State, u: State, a: Address)
    requires s.log <= t.log <= u.log && Registry(u.spAddress2SPProfile, u.nodeID2Address)
    requires StandingKept(s, t, a) && StandingKept(t, u, a)
    ensures StandingKept(s, u, a)
  {
    var i, j, k := |s.log|, |t.log|, |u.log|;
    assert Left(t.log, i, j, a) ==> Left(u.log, i, j, a);
    assert Joined(t.log, i, j, a) ==> Joined(u.log, i, j, a);
    WidenRanges(u.log, i, j, k, a);
    if OutOfStanding(s.SP(a)) && u.SP(a).inGoodStanding {
      assert WellShaped(u.spAddress2SPProfile, a);
      if t.SP(a).inGoodStanding {
        WidenRejoin(t.log, u.log, i, a);
      } else if !t.IsRegistered(a) {
        assert u.IsRegistered(a);
        var m :| i <= m < j && u.log[m].Unregistered? && u.log[m].sp == a;
        assert Joined(u.log, m, k, a);
      }
    }
  }

  lemma WidenRanges(log: seq<Event>, i: nat, j: nat, k: nat, a: Address)
    requires i <= j <= k <= |log|
    ensures Left(log, i, j, a) || Left(log, j, k, a) <==> Left(log, i, k, a)
    ensures Joined(log, i, j, a) || Joined(log, j, k, a) <==> Joined(log, i, k, a)
    ensures LeftThenJoined(log, j, a) ==> LeftThenJoined(log, i, a)
  {
  }

  lemma WidenRejoin(log: seq<Event>, log': seq<Event>, i: nat, a: Address)
    requires log <= log' && LeftThenJoined(log, i, a)
    ensures LeftThenJoined(log', i, a)
  {
    var m :| i <= m < |log| && log[m].Unregistered? && log[m].sp == a && Joined(log, m, |log|, a);
    assert Joined(log', m, |log'|, a);
  }
}
