/** How an uploader gathers the storage providers and chooses among them. */
module Marketplace {
  import opened Arithmetic
  import opened Bytes
  import opened Codecs
  import opened Collections
  import opened StorageProviders

  // ---- gathering the profiles ----

  type ByAddress = map<string, SpProfile>

  function Entered(m: ByAddress, sps: seq<SpProfile>): ByAddress {
    if sps == [] then m
    else
      var front, last := Entered(m, sps[..|sps| - 1]), sps[|sps| - 1];
      if last.IsValid() then front[last.address := last] else front
  }

  /** One seed after another answers, or fails to, until nothing new is learned. */
  function Gathered(m: ByAddress, answers: seq<Option<seq<SpProfile>>>): ByAddress
    decreases |answers|
  {
    if answers == [] then m
    else
      var next := if answers[0].Some? then Entered(m, answers[0].value) else m;
      if |m| > 0 && |m| == |next| then next else Gathered(next, answers[1..])
  }

  /** The list holds exactly the profiles of the map, in some order. */
  ghost predicate Lists(sps: seq<SpProfile>, m: ByAddress) {
    && Distinct(sps) && |sps| == |m.Keys|
    && (forall sp <- sps :: sp.address in m && m[sp.address] == sp)
    && (forall a <- m :: m[a] in sps)
  }

  predicate Keyed(m: ByAddress) {
    forall a <- m :: m[a].address == a && m[a].IsValid()
  }

  lemma {:induction false} EnteredKeyed(m: ByAddress, sps: seq<SpProfile>)
    requires Keyed(m)
    ensures Keyed(Entered(m, sps))
  {
    if sps == [] {
    } else {
      EnteredKeyed(m, sps[..|sps| - 1]);
    }
  }

  lemma {:induction false} GatheredKeyed(m: ByAddress, answers: seq<Option<seq<SpProfile>>>)
    requires Keyed(m)
    ensures Keyed(Gathered(m, answers))
    decreases |answers|
  {
    if answers == [] {
    } else {
      var next := if answers[0].Some? then Entered(m, answers[0].value) else m;
      if answers[0].Some? {
        EnteredKeyed(m, answers[0].value);
      }
      GatheredKeyed(next, answers[1..]);
    }
  }

  /** Every profile in the cache is valid, and no address is there twice. */
  method RefreshCache(answers: seq<Option<seq<SpProfile>>>) returns (sps: seq<SpProfile>)
    ensures Lists(sps, Gathered(map[], answers))
    ensures Distinct(sps) && AllValid(sps)
  {
    GatheredKeyed(map[], answers);
    var m: ByAddress := map[];
    for i := 0 to |answers|
      invariant Keyed(m) && Gathered(map[], answers) == Gathered(m, answers[i..])
    {
      assert answers[i..][0] == answers[i] && answers[i..][1..] == answers[i + 1..];
      var prev := |m|;
      if answers[i].Some? {
        EnteredKeyed(m, answers[i].value);
        m := EnterAll(m, answers[i].value);
      }
      if prev > 0 && prev == |m| {
        break;
      }
    }
    sps := ListOf(m);
  }

  method EnterAll(m0: ByAddress, profiles: seq<SpProfile>) returns (m: ByAddress)
    ensures m == Entered(m0, profiles)
  {
    m := m0;
    for j := 0 to |profiles|
      invariant m == Entered(m0, profiles[..j])
    {
      assert profiles[..j + 1][..j] == profiles[..j];
      if profiles[j].IsValid() {
        m := m[profiles[j].address := profiles[j]];
      }
    }
    assert profiles[..|profiles|] == profiles;
  }

  /** Go iterates over a map in any order. */
  method ListOf(m: ByAddress) returns (sps: seq<SpProfile>)
    requires Keyed(m)
    ensures Lists(sps, m) && AllValid(sps)
  {
    sps := [];
    var todo := m.Keys;
    while todo != {}
      invariant todo <= m.Keys && |sps| + |todo| == |m.Keys| && Distinct(sps) && AllValid(sps)
      invariant forall sp <- sps :: sp.address in m && sp.address !in todo && m[sp.address] == sp
      invariant forall a <- m :: a in todo || m[a] in sps
      decreases |todo|
    {
      var a :| a in todo;
      todo := todo - {a};
      sps := sps + [m[a]];
    }
  }

  // ---- what has been gathered ----

  /** The profiles of all the answers, one answer after another. */
  function Flattened(answers: seq<Option<seq<SpProfile>>>): seq<SpProfile> {
    if answers == [] then []
    else
      var last := answers[|answers| - 1];
      Flattened(answers[..|answers| - 1]) + if last.Some? then last.value else []
  }

  /** The addresses of the profiles that have host, address and a price. */
  function Addresses(list: seq<SpProfile>): set<string> {
    set sp | sp in list && sp.host != "" && sp.address != "" && sp.minAskPrice >= 0 :: sp.address
  }

  /** The profile has all three, and no later one of its address does. */
  ghost predicate LastUsable(list: seq<SpProfile>, sp: SpProfile) {
    && sp.host != "" && sp.address != "" && sp.minAskPrice >= 0
    && exists n | 0 <= n < |list| :: list[n] == sp && sp.address !in Addresses(list[n + 1..])
  }

  /** The answer with this number brought no new address, although some were known. */
  predicate NothingNew(answers: seq<Option<seq<SpProfile>>>, j: nat)
    requires 0 < j <= |answers|
  {
    var before, now := Addresses(Flattened(answers[..j - 1])), Addresses(Flattened(answers[..j]));
    before != {} && now == before
  }

  /** The first `k` answers are asked for: up to the first one that brings nothing new. */
  predicate StopsAfter(answers: seq<Option<seq<SpProfile>>>, k: nat) {
    && k <= |answers|
    && (k < |answers| ==> k > 0 && NothingNew(answers, k))
    && forall j | 0 < j < k :: !NothingNew(answers, j)
  }

  lemma AddressesAppend(list: seq<SpProfile>, sp: SpProfile)
    ensures Addresses(list + [sp]) == Addresses(list) + if sp.IsValid() then {sp.address} else {}
  {
  }

  lemma LastUsableAppend(list: seq<SpProfile>, last: SpProfile, sp: SpProfile)
    ensures LastUsable(list + [last], sp)
        <==> (sp == last && sp.IsValid()) || (LastUsable(list, sp) && !(last.IsValid() && last.address == sp.address))
  {
    var both := list + [last];
    assert both[|list|] == last && both[|list| + 1..] == [];
    forall n | 0 <= n < |list|
      ensures both[n] == list[n]
      ensures Addresses(both[n + 1..]) == Addresses(list[n + 1..]) + if last.IsValid() then {last.address} else {}
    {
      assert both[n + 1..] == list[n + 1..] + [last];
      AddressesAppend(list[n + 1..], last);
    }
    if sp == last && sp.IsValid() {
      assert LastUsable(both, sp);
    }
    hide Addresses;
  }

  /** The map holds the last usable profile for each address. */
  lemma {:induction false} EnteredIs(list: seq<SpProfile>, sp: SpProfile)
    ensures var m := Entered(map[], list);
      && (sp.address in m && m[sp.address] == sp <==> LastUsable(list, sp))
      && m.Keys == Addresses(list)
  {
    if list == [] {
    } else {
      var front, last := list[..|list| - 1], list[|list| - 1];
      assert list == front + [last];
      EnteredIs(front, sp);
      AddressesAppend(front, last);
      LastUsableAppend(front, last, sp);
      hide Addresses, LastUsable;
    }
  }

  lemma {:induction false} EnteredConcat(m: ByAddress, a: seq<SpProfile>, b: seq<SpProfile>)
    ensures Entered(m, a + b) == Entered(Entered(m, a), b)
    decreases |b|
  {
    if b == [] {
      assert a + b == a;
    } else {
      EnteredConcat(m, a, b[..|b| - 1]);
      assert (a + b)[..|a + b| - 1] == a + b[..|b| - 1];
    }
  }

  function Learned(answers: seq<Option<seq<SpProfile>>>, k: nat): ByAddress
    requires k <= |answers|
  {
    Entered(map[], Flattened(answers[..k]))
  }

  lemma LearnedNext(answers: seq<Option<seq<SpProfile>>>, i: nat)
    requires i < |answers|
    ensures Learned(answers, i + 1)
         == if answers[i].Some? then Entered(Learned(answers, i), answers[i].value) else Learned(answers, i)
    ensures Learned(answers, i).Keys <= Learned(answers, i + 1).Keys
    ensures NothingNew(answers, i + 1)
        <==> |Learned(answers, i)| > 0 && |Learned(answers, i)| == |Learned(answers, i + 1)|
  {
    var before, now := Flattened(answers[..i]), Flattened(answers[..i + 1]);
    assert answers[..i + 1][..i] == answers[..i];
    var more := if answers[i].Some? then answers[i].value else [];
    assert now == before + more;
    EnteredConcat(map[], before, more);
    var any := SpProfile("", "", 0);
    EnteredIs(before, any);
    EnteredIs(now, any);
    hide Entered;
    var m, n := Learned(answers, i), Learned(answers, i + 1);
    assert |m| == |m.Keys| && |n| == |n.Keys|;
    assert m.Keys <= n.Keys;
    if |m| == |n| {
      SubsetEqual(m.Keys, n.Keys);
    }
  }

  lemma SubsetEqual<T>(a: set<T>, b: set<T>)
    requires a <= b && |a| == |b|
    ensures a == b
  {
    assert |b - a| == 0;
  }

  lemma {:induction false} GatheredFrom(answers: seq<Option<seq<SpProfile>>>, i: nat) returns (k: nat)
    requires i <= |answers| && forall j | 0 < j <= i :: !NothingNew(answers, j)
    ensures StopsAfter(answers, k) && Gathered(Learned(answers, i), answers[i..]) == Learned(answers, k)
    decreases |answers| - i
  {
    hide Entered, NothingNew, Learned;
    if i == |answers| {
      k := i;
    } else {
      LearnedNext(answers, i);
      assert answers[i..][0] == answers[i] && answers[i..][1..] == answers[i + 1..];
      if NothingNew(answers, i + 1) {
        k := i + 1;
      } else {
        k := GatheredFrom(answers, i + 1);
      }
    }
  }

  /** The cache holds exactly the last usable profile of each address, out of the answers
      up to the first one that brings no new address. */
  lemma CacheTells(answers: seq<Option<seq<SpProfile>>>, sps: seq<SpProfile>) returns (k: nat)
    requires Lists(sps, Gathered(map[], answers))
    ensures StopsAfter(answers, k)
    ensures forall sp :: sp in sps <==> LastUsable(Flattened(answers[..k]), sp)
  {
    assert answers[0..] == answers && Learned(answers, 0) == map[];
    k := GatheredFrom(answers, 0);
    hide LastUsable, Distinct, Gathered, StopsAfter, Entered;
    forall sp: SpProfile
      ensures sp in sps <==> LastUsable(Flattened(answers[..k]), sp)
    {
      EnteredIs(Flattened(answers[..k]), sp);
    }
  }

  // ---- choosing ----

  /** Where the source stops: past the first entry that asks more than `high`, but
      never past the last entry. */
  function Last(sorted: seq<SpProfile>, from: nat, high: nat): (last: nat)
    requires from < |sorted|
    ensures from <= last < |sorted|
    ensures forall i | from <= i < last :: UnsignedAsk(sorted[i]) <= high
    ensures last + 1 < |sorted| ==> UnsignedAsk(sorted[last]) > high
    decreases |sorted| - from
  {
    if from + 1 >= |sorted| || UnsignedAsk(sorted[from]) > high then from else Last(sorted, from + 1, high)
  }

  function High(sorted: seq<SpProfile>, needed: nat, granularity: nat): nat
    requires 0 < needed <= |sorted| && granularity > 0
  {
    RoundedAsk(sorted[needed - 1], granularity)
  }

  function Kept(sorted: seq<SpProfile>, needed: nat, granularity: nat): seq<SpProfile>
    requires 0 < needed <= |sorted| && granularity > 0
  {
    sorted[..Last(sorted, needed - 1, High(sorted, needed, granularity))]
  }

  predicate SortedFrom(all: seq<SpProfile>, sorted: seq<SpProfile>, granularity: nat)
    requires granularity > 0
  {
    multiset(sorted) == multiset(all) && SortedByAsk(sorted, granularity)
  }

  /** A choice that the source can make when there are more providers than needed. */
  ghost predicate Chosen(all: seq<SpProfile>, needed: nat, granularity: nat, chosen: seq<SpProfile>)
    requires granularity > 0
  {
    exists sorted: seq<SpProfile> ::
      SortedFrom(all, sorted, granularity) && ChosenFrom(sorted, needed, granularity, chosen)
  }

  ghost predicate ChosenFrom(sorted: seq<SpProfile>, needed: nat, granularity: nat, chosen: seq<SpProfile>)
    requires granularity > 0
  {
    && 0 < needed < |sorted|
    && exists rr: seq<int> | DistinctIndices(rr, |Kept(sorted, needed, granularity)|) ::
         |rr| == needed && chosen == Picked(Kept(sorted, needed, granularity), rr)
  }

  /** The `needed` cheapest all have an ask below the granularity step of the dearest of
      them, so they are never dropped. */
  lemma EnoughKept(sorted: seq<SpProfile>, needed: nat, granularity: nat)
    requires 0 < needed < |sorted| && granularity > 0 && granularity < TWO_63 && AllValid(sorted)
    ensures |Kept(sorted, needed, granularity)| >= needed
  {
    AskRounds(sorted[needed - 1], granularity);
  }

  lemma AskRounds(sp: SpProfile, granularity: nat)
    requires sp.IsValid() && 0 < granularity < TWO_63
    ensures UnsignedAsk(sp) == sp.minAskPrice
    ensures UnsignedAsk(sp) <= RoundedAsk(sp, granularity) < UnsignedAsk(sp) + granularity
  {
    hide RoundUp64;
    RoundUp64Exact(sp.minAskPrice, granularity);
  }

  method GetUploadSps(needed: int, granularity: nat, all: StorageProviders) returns (r: Result<StorageProviders>)
    requires 0 < granularity < TWO_63 && AllValid(all.sps)
    modifies all
    ensures |old(all.sps)| <= needed ==> r == Ok(all) && all.sps == old(all.sps)
    ensures |old(all.sps)| > needed > 0 ==> r.Ok? && Chosen(old(all.sps), needed, granularity, r.value.sps)
    ensures |old(all.sps)| > needed && needed <= 0 ==> r.Panicked?
  {
    if |all.sps| > needed {
      ghost var known := all.sps;
      all.SortByMinAsk(granularity);
      ghost var sorted := all.sps;
      SameMembers(sorted, known);
      var last := needed - 1;
      if last < 0 {
        return Panicked;
      }
      var high := RoundedAsk(all.sps[last], granularity);
      while last + 1 < |all.sps|
        invariant all.sps == sorted && needed - 1 <= last < |sorted|
        invariant Last(sorted, needed - 1, high) == Last(sorted, last, high)
        decreases |sorted| - last
      {
        if UnsignedAsk(all.sps[last]) > high {
          break;
        }
        last := last + 1;
      }
      EnoughKept(sorted, needed, granularity);
      all.KeepOnly(last);
      assert all.sps == Kept(sorted, needed, granularity);
      var picked := all.PickRandom(needed);
      assert ChosenFrom(sorted, needed, granularity, picked.sps);
      assert SortedFrom(known, sorted, granularity);
      return Ok(picked);
    }
    return Ok(all);
  }

  /** Exactly `needed` providers, all of them known, none of them twice. */
  lemma ChosenAreDistinct(all: seq<SpProfile>, needed: nat, granularity: nat, chosen: seq<SpProfile>)
    requires granularity > 0 && Chosen(all, needed, granularity, chosen) && Distinct(all)
    ensures |chosen| == needed && Distinct(chosen) && forall sp <- chosen :: sp in all
  {
    hide Last, RoundedAsk;
    var sorted: seq<SpProfile> :|
      SortedFrom(all, sorted, granularity) && ChosenFrom(sorted, needed, granularity, chosen);
    SameMembers(sorted, all);
    var kept := Kept(sorted, needed, granularity);
    var rr: seq<int> :| DistinctIndices(rr, |kept|) && |rr| == needed && chosen == Picked(kept, rr);
    DistinctPermuted(all, sorted);
    PickedDistinct(kept, rr);
  }

  lemma DistinctPermuted(all: seq<SpProfile>, sorted: seq<SpProfile>)
    requires multiset(all) == multiset(sorted) && Distinct(all)
    ensures Distinct(sorted)
  {
    var address := (sp: SpProfile) => sp.address;
    assert DistinctBy(all, address);
    DistinctReordered(all, sorted, address);
    assert DistinctBy(sorted, address);
  }

  // ---- near-optimality ----

  /** Nobody who is kept asks more than `high`. */
  lemma KeptAsk(sorted: seq<SpProfile>, needed: nat, granularity: nat, i: nat)
    requires 0 < needed < |sorted| && 0 < granularity < TWO_63 && AllValid(sorted) && SortedByAsk(sorted, granularity)
    requires i < |Kept(sorted, needed, granularity)|
    ensures sorted[i].minAskPrice <= High(sorted, needed, granularity)
  {
    hide RoundedAsk;
    AskRounds(sorted[i], granularity);
  }

  function Members(sps: seq<SpProfile>): set<SpProfile> {
    set sp | sp in sps
  }

  lemma {:induction false} MemberCount(sps: seq<SpProfile>)
    ensures |Members(sps)| <= |sps|
    ensures Distinct(sps) ==> |Members(sps)| == |sps|
  {
    if sps == [] {
      assert Members(sps) == {};
    } else {
      var front, last := sps[..|sps| - 1], sps[|sps| - 1];
      MemberCount(front);
      assert sps == front + [last];
      assert Members(sps) == Members(front) + {last};
    }
  }

  /** Among any `needed` distinct providers one is as dear as the `needed`-th cheapest. */
  lemma Pigeonhole(sorted: seq<SpProfile>, needed: nat, choice: seq<SpProfile>) returns (i: nat)
    requires 0 < needed <= |sorted| && |choice| == needed && Distinct(choice) && forall sp <- choice :: sp in sorted
    ensures needed - 1 <= i < |sorted| && sorted[i] in choice
  {
    var cheap := sorted[..needed - 1];
    MemberCount(choice);
    MemberCount(cheap);
    if Members(choice) <= Members(cheap) {
      SubsetCount(Members(choice), Members(cheap));
    }
    var sp :| sp in Members(choice) && sp !in Members(cheap);
    forall k | 0 <= k < needed - 1 ensures sorted[k] != sp {
      assert sorted[k] == cheap[k];
    }
    i :| 0 <= i < |sorted| && sorted[i] == sp;
  }

  lemma ChosenBelowHigh(sorted: seq<SpProfile>, needed: nat, granularity: nat, chosen: seq<SpProfile>)
    requires 0 < granularity < TWO_63 && AllValid(sorted) && SortedByAsk(sorted, granularity)
    requires ChosenFrom(sorted, needed, granularity, chosen)
    ensures Highest(chosen) <= High(sorted, needed, granularity)
  {
    hide Last, RoundedAsk, Highest, High, AllValid, SortedByAsk;
    var kept := Kept(sorted, needed, granularity);
    var rr: seq<int> :| DistinctIndices(rr, |kept|) && |rr| == needed && chosen == Picked(kept, rr);
    if Highest(chosen) > 0 {
      var dearest :| dearest in chosen && dearest.minAskPrice == Highest(chosen);
      var k :| 0 <= k < |rr| && chosen[k] == dearest;
      KeptAsk(sorted, needed, granularity, rr[k]);
    }
  }

  lemma HighBelowChoice(sorted: seq<SpProfile>, needed: nat, granularity: nat, choice: seq<SpProfile>)
    requires 0 < granularity < TWO_63 && AllValid(sorted) && SortedByAsk(sorted, granularity) && 0 < needed <= |sorted|
    requires |choice| == needed && Distinct(choice) && forall sp <- choice :: sp in sorted
    ensures High(sorted, needed, granularity) < Highest(choice) + granularity
  {
    hide RoundedAsk, Highest, Distinct;
    var i := Pigeonhole(sorted, needed, choice);
    AskRounds(sorted[i], granularity);
    assert RoundedAsk(sorted[needed - 1], granularity) <= RoundedAsk(sorted[i], granularity);
  }

  /** No choice of `needed` providers has a dearest price that is lower by a whole
      granularity step. */
  lemma HighestNearOptimal(
    all: seq<SpProfile>, needed: nat, granularity: nat, chosen: seq<SpProfile>, choice: seq<SpProfile>)
    requires 0 < granularity < TWO_63 && AllValid(all) && Chosen(all, needed, granularity, chosen)
    requires |choice| == needed && Distinct(choice) && forall sp <- choice :: sp in all
    ensures Highest(chosen) < Highest(choice) + granularity
  {
    hide Highest, SortedByAsk, Distinct, High;
    var sorted: seq<SpProfile> :|
      SortedFrom(all, sorted, granularity) && ChosenFrom(sorted, needed, granularity, chosen);
    SameMembers(sorted, all);
    ChosenBelowHigh(sorted, needed, granularity, chosen);
    HighBelowChoice(sorted, needed, granularity, choice);
  }

  /** The price of an upload to the chosen providers exceeds the cheapest possible one by
      less than one granularity step per provider and megabyte. */
  lemma PriceNearOptimal(
    all: seq<SpProfile>, needed: nat, granularity: nat, chosen: seq<SpProfile>, choice: seq<SpProfile>, numBytes: nat)
    requires 0 < granularity < TWO_63 && AllValid(all) && Distinct(all) && Chosen(all, needed, granularity, chosen)
    requires |choice| == needed && Distinct(choice) && forall sp <- choice :: sp in all
    requires numBytes > 0
    ensures ExactPrice(chosen, numBytes)
          < ExactPrice(choice, numBytes) + Scaled(Scaled(granularity, DivideRoundUp(numBytes, MEGA)), needed)
  {
    HighestNearOptimal(all, needed, granularity, chosen, choice);
    ChosenAreDistinct(all, needed, granularity, chosen);
    CeilBounds(numBytes, MEGA);
    assert needed > 0;
    ScaledBelow(Highest(chosen), Highest(choice), granularity, DivideRoundUp(numBytes, MEGA), needed);
  }

  lemma ScaledBelow(a: nat, b: nat, g: nat, m: nat, n: nat)
    requires a < b + g && m > 0 && n > 0
    ensures Scaled(Scaled(a, m), n) < Scaled(Scaled(b, m), n) + Scaled(Scaled(g, m), n)
  {
    BelowScaled(a, b, g, m);
    BelowScaled(Scaled(a, m), Scaled(b, m), Scaled(g, m), n);
  }

  lemma BelowScaled(a: nat, b: nat, g: nat, m: nat)
    requires a < b + g && m > 0
    ensures Scaled(a, m) < Scaled(b, m) + Scaled(g, m)
  {
    MulMono(m, a + 1, b + g);
    assert m * (a + 1) == m * a + m && m * (b + g) == m * b + m * g;
  }

  // ---- the provider that is left out ----

  /** A provider asks at most `high` exactly when its rounded price does not exceed that
      of the `needed`-th cheapest. */
  lemma AskAgainstHigh(sorted: seq<SpProfile>, needed: nat, granularity: nat, i: nat)
    requires 0 < needed < |sorted| && 0 < granularity < TWO_63 && AllValid(sorted) && i < |sorted|
    ensures sorted[i].minAskPrice <= High(sorted, needed, granularity)
        <==> RoundedAsk(sorted[i], granularity) <= High(sorted, needed, granularity)
  {
    AskRounds(sorted[i], granularity);
    AskRounds(sorted[needed - 1], granularity);
    RoundUp64Exact(sorted[i].minAskPrice, granularity);
    RoundUp64Exact(sorted[needed - 1].minAskPrice, granularity);
    RoundBelow(sorted[i].minAskPrice, DivideRoundUp(sorted[needed - 1].minAskPrice, granularity), granularity);
  }

  lemma RoundBelow(n: nat, q: nat, multiple: nat)
    requires multiple > 0
    ensures n <= q * multiple ==> RoundUp(n, multiple) <= q * multiple
  {
    CeilBounds(n, multiple);
    var c := DivideRoundUp(n, multiple);
    assert RoundUp(n, multiple) == multiple * c;
    if c > q {
      MulMono(multiple, q + 1, c);
    }
  }

  /** Everybody whose price is not above that of the `needed`-th cheapest takes part in
      the draw exactly when somebody is dearer; otherwise the last one is left out. */
  lemma WhoTakesPart(sorted: seq<SpProfile>, needed: nat, granularity: nat)
    requires 0 < needed < |sorted| && 0 < granularity < TWO_63 && AllValid(sorted) && SortedByAsk(sorted, granularity)
    ensures var high, kept := High(sorted, needed, granularity), |Kept(sorted, needed, granularity)|;
      && ((exists i | 0 <= i < |sorted| :: sorted[i].minAskPrice > high)
          <==> forall i | 0 <= i < |sorted| :: i < kept <==> sorted[i].minAskPrice <= high)
      && ((forall i | 0 <= i < |sorted| :: sorted[i].minAskPrice <= high) ==> kept == |sorted| - 1)
  {
    hide RoundedAsk;
    var high, kept := High(sorted, needed, granularity), |Kept(sorted, needed, granularity)|;
    forall i | 0 <= i < |sorted|
      ensures i < kept ==> sorted[i].minAskPrice <= high
      ensures sorted[i].minAskPrice <= high <==> RoundedAsk(sorted[i], granularity) <= high
      ensures UnsignedAsk(sorted[i]) == sorted[i].minAskPrice
    {
      AskAgainstHigh(sorted, needed, granularity, i);
      AskRounds(sorted[i], granularity);
      if i < kept {
        KeptAsk(sorted, needed, granularity, i);
      }
    }
  }

  /** Three providers ask the same and two are needed: the third cannot be drawn. */
  lemma TiedProviderDropped(a: SpProfile, b: SpProfile, c: SpProfile, ask: Int64, granularity: nat)
    requires a.IsValid() && b.IsValid() && c.IsValid() && 0 < granularity < TWO_63
    requires a.minAskPrice == b.minAskPrice == c.minAskPrice == ask
    ensures Kept([a, b, c], 2, granularity) == [a, b]
  {
    hide RoundUp64;
    AskRounds(a, granularity);
    AskRounds(b, granularity);
    AskRounds(c, granularity);
    WhoTakesPart([a, b, c], 2, granularity);
  }
}
