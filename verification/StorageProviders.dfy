/** The client's list of storage providers: how it is gathered, sorted, cut down and
    priced. */
module StorageProviders {
  import opened Arithmetic
  import opened Bytes
  import opened Codecs
  import opened Collections

  /** A provider's profile; `minAskPrice` is asked per megabyte and month. */
  datatype SpProfile = SpProfile(host: string, address: string, minAskPrice: Int64)
  {
    predicate IsValid() {
      host != "" && address != "" && minAskPrice >= 0
    }
  }

  const MEGA: nat := 1_000_000

  // ---- properties of lists of providers ----

  predicate AllValid(sps: seq<SpProfile>) {
    forall sp <- sps :: sp.IsValid()
  }

  /** No two entries have the same blockchain address. */
  ghost predicate Distinct(sps: seq<SpProfile>) {
    DistinctBy(sps, (sp: SpProfile) => sp.address)
  }

  function Without(sps: seq<SpProfile>, address: string): (kept: seq<SpProfile>)
    ensures forall sp :: sp in kept <==> sp in sps && sp.address != address
    ensures |kept| <= |sps|
    ensures (exists sp <- sps :: sp.address == address) ==> |kept| < |sps|
  {
    if sps == [] then []
    else
      var rest := Without(sps[..|sps| - 1], address);
      var last := sps[|sps| - 1];
      assert sps == sps[..|sps| - 1] + [last];
      if last.address != address then rest + [last] else rest
  }

  /** The highest price asked, at least 0. */
  function Highest(sps: seq<SpProfile>): (highest: Int64)
    ensures highest >= 0 && forall sp <- sps :: sp.minAskPrice <= highest
    ensures highest == 0 || exists sp <- sps :: sp.minAskPrice == highest
  {
    if sps == [] then 0
    else
      var rest := Highest(sps[..|sps| - 1]);
      var last := sps[|sps| - 1];
      assert sps == sps[..|sps| - 1] + [last];
      if last.minAskPrice > rest then last.minAskPrice else rest
  }

  // ---- 64-bit arithmetic ----

  function Wrapped64(n: int): Int64 {
    var u := n % TWO_64;
    if u < TWO_63 then u else u - TWO_64
  }

  /** `RoundUp` on `uint64`. */
  function RoundUp64(n: nat, multiple: nat): nat
    requires multiple > 0
  {
    ((n + multiple - 1) % TWO_64) / multiple * multiple % TWO_64
  }

  lemma RoundUp64Exact(n: nat, multiple: nat)
    requires multiple > 0 && n < TWO_63 && multiple < TWO_63
    ensures RoundUp64(n, multiple) == RoundUp(n, multiple)
    ensures n <= RoundUp(n, multiple) < n + multiple
  {
    CeilBounds(n, multiple);
    assert RoundUp(n, multiple) == multiple * DivideRoundUp(n, multiple);
  }

  /** `MegaBytes`: a negative argument counts as a huge unsigned one. */
  function MegaBytes(numBytes: Int64): Int64 {
    Wrapped64(((numBytes % TWO_64 + MEGA - 1) % TWO_64) / MEGA)
  }

  lemma MegaBytesExact(numBytes: Int64)
    requires numBytes >= 0
    ensures MegaBytes(numBytes) == DivideRoundUp(numBytes, MEGA)
    ensures numBytes <= MEGA * MegaBytes(numBytes) < numBytes + MEGA
  {
    CeilBounds(numBytes, MEGA);
  }

  // ---- the list ----

  /** The price asked, as the source converts it to an unsigned number. */
  function UnsignedAsk(sp: SpProfile): nat {
    sp.minAskPrice % TWO_64
  }

  function RoundedAsk(sp: SpProfile, granularity: nat): nat
    requires granularity > 0
  {
    RoundUp64(UnsignedAsk(sp), granularity)
  }

  predicate SortedByAsk(sps: seq<SpProfile>, granularity: nat)
    requires granularity > 0
  {
    forall i, j | 0 <= i < j < |sps| :: RoundedAsk(sps[i], granularity) <= RoundedAsk(sps[j], granularity)
  }

  function Inserted(sps: seq<SpProfile>, sp: SpProfile, granularity: nat): (r: seq<SpProfile>)
    requires granularity > 0
    ensures multiset(r) == multiset(sps) + multiset{sp}
  {
    if sps == [] then [sp]
    else
      var front, last := sps[..|sps| - 1], sps[|sps| - 1];
      assert sps == front + [last];
      if RoundedAsk(last, granularity) <= RoundedAsk(sp, granularity) then sps + [sp]
      else Inserted(front, sp, granularity) + [last]
  }

  lemma {:induction false} InsertedSorted(sps: seq<SpProfile>, sp: SpProfile, granularity: nat)
    requires granularity > 0 && SortedByAsk(sps, granularity)
    ensures SortedByAsk(Inserted(sps, sp, granularity), granularity)
  {
    hide RoundedAsk;
    if sps == [] {
    } else {
      var front, last := sps[..|sps| - 1], sps[|sps| - 1];
      if RoundedAsk(last, granularity) > RoundedAsk(sp, granularity) {
        InsertedSorted(front, sp, granularity);
        var r := Inserted(front, sp, granularity);
        forall x | x in r ensures RoundedAsk(x, granularity) <= RoundedAsk(last, granularity) {
          assert x in multiset(r);
          assert x in front || x == sp;
        }
      }
    }
  }

  predicate DistinctIndices(rr: seq<int>, n: nat) {
    && (forall i | 0 <= i < |rr| :: 0 <= rr[i] < n)
    && (forall i, j | 0 <= i < j < |rr| :: rr[i] != rr[j])
  }

  /** Any distinct numbers below `n`: the random choice is an oracle. */
  method RandomRange(count: nat, n: nat) returns (rr: seq<int>)
    requires count <= n
    ensures |rr| == count && DistinctIndices(rr, n)
  {
    assert var first := seq(count, i => i); |first| == count && DistinctIndices(first, n);
    rr :| |rr| == count && DistinctIndices(rr, n);
  }

  function Picked(sps: seq<SpProfile>, rr: seq<int>): (picked: seq<SpProfile>)
    requires DistinctIndices(rr, |sps|)
  {
    seq(|rr|, i requires 0 <= i < |rr| => sps[rr[i]])
  }

  lemma PickedDistinct(sps: seq<SpProfile>, rr: seq<int>)
    requires DistinctIndices(rr, |sps|) && Distinct(sps)
    ensures Distinct(Picked(sps, rr)) && forall sp <- Picked(sps, rr) :: sp in sps
  {
    var picked := Picked(sps, rr);
    forall i, j | 0 <= i < j < |picked| ensures picked[i].address != picked[j].address {
      if rr[i] < rr[j] {
        assert sps[rr[i]].address != sps[rr[j]].address;
      } else {
        assert sps[rr[j]].address != sps[rr[i]].address;
      }
    }
  }

  class StorageProviders {
    var sps: seq<SpProfile>

    constructor (sps: seq<SpProfile>)
      ensures this.sps == sps
    {
      this.sps := sps;
    }

    /** `sort.Slice` leaves the order of equal entries open; so does this contract. */
    method SortByMinAsk(granularity: nat)
      requires granularity > 0
      modifies this
      ensures multiset(sps) == multiset(old(sps)) && SortedByAsk(sps, granularity)
    {
      hide RoundedAsk, Inserted;
      var sorted: seq<SpProfile> := [];
      for i := 0 to |sps|
        invariant sps == old(sps)
        invariant multiset(sorted) == multiset(sps[..i]) && SortedByAsk(sorted, granularity)
      {
        assert sps[..i + 1] == sps[..i] + [sps[i]];
        InsertedSorted(sorted, sps[i], granularity);
        sorted := Inserted(sorted, sps[i], granularity);
      }
      assert sps[..|sps|] == sps;
      sps := sorted;
    }

    method KeepOnly(n: nat)
      requires n <= |sps|
      modifies this
      ensures sps == old(sps)[..n]
    {
      sps := sps[..n];
    }

    method Remove(address: string)
      modifies this
      ensures sps == Without(old(sps), address)
    {
      var newA: seq<SpProfile> := [];
      for i := 0 to |sps|
        invariant sps == old(sps) && newA == Without(sps[..i], address)
      {
        assert sps[..i + 1][..i] == sps[..i];
        if sps[i].address != address {
          newA := newA + [sps[i]];
        }
      }
      assert sps[..|sps|] == sps;
      sps := newA;
    }

    method PickRandom(needed: nat) returns (picked: StorageProviders)
      ensures fresh(picked) || picked == this
      ensures if |sps| < needed then picked == this
        else exists rr :: |rr| == needed && DistinctIndices(rr, |sps|) && picked.sps == Picked(sps, rr)
    {
      if |sps| < needed {
        return this;
      }
      var rr := RandomRange(needed, |sps|);
      var randomSps: seq<SpProfile> := [];
      for i := 0 to needed
        invariant randomSps == Picked(sps, rr)[..i]
      {
        randomSps := randomSps + [sps[rr[i]]];
      }
      picked := new StorageProviders(randomSps);
      assert picked.sps == Picked(sps, rr);
    }

    /** The price of one upload in the currency of the chain, in 64-bit arithmetic. */
    method PriceOfUpload(numBytes: Int64) returns (totalPrice: Int64)
      ensures totalPrice == Price64(sps, numBytes)
    {
      var highest: Int64 := 0;
      for i := 0 to |sps|
        invariant highest == Highest(sps[..i])
      {
        assert sps[..i + 1][..i] == sps[..i];
        if sps[i].minAskPrice > highest {
          highest := sps[i].minAskPrice;
        }
      }
      assert sps[..|sps|] == sps;
      var mBytes := MegaBytes(numBytes);
      totalPrice := Wrapped64(Wrapped64(highest * mBytes) * Wrapped64(|sps|));
    }
  }

  function Price64(sps: seq<SpProfile>, numBytes: Int64): Int64 {
    Wrapped64(Wrapped64(Highest(sps) * MegaBytes(numBytes)) * Wrapped64(|sps|))
  }

  /** The price without wrap-around: everybody is paid what the dearest one asks. */
  function ExactPrice(sps: seq<SpProfile>, numBytes: nat): nat {
    Scaled(Scaled(Highest(sps), DivideRoundUp(numBytes, MEGA)), |sps|)
  }

  lemma SmallIsExact(n: nat)
    ensures n < TWO_63 <==> Wrapped64(n) == n
  {
  }

  /** However large, the price is right modulo 2^64. */
  lemma PriceWraps(sps: seq<SpProfile>, numBytes: Int64)
    requires numBytes >= 0
    ensures Price64(sps, numBytes) % TWO_64 == ExactPrice(sps, numBytes) % TWO_64
  {
    MegaBytesExact(numBytes);
    hide Highest, MegaBytes, Wrapped64, DivideRoundUp, Scaled;
    var each, n := Scaled(Highest(sps), DivideRoundUp(numBytes, MEGA)), |sps|;
    ScaledIs(Highest(sps), MegaBytes(numBytes));
    ScaledIs(each, n);
    WrappedCongruent(each);
    WrappedCongruent(n);
    WrappedCongruent(Wrapped64(each) * Wrapped64(n));
    ProductsCongruent(Wrapped64(each), each, Wrapped64(n), n);
  }

  lemma WrappedCongruent(n: int)
    ensures exists k: int :: Wrapped64(n) == n + k * TWO_64
    ensures Wrapped64(n) % TWO_64 == n % TWO_64
  {
    var u := n % TWO_64;
    assert n == TWO_64 * (n / TWO_64) + u;
    assert Wrapped64(n) == n + (if u < TWO_63 then -(n / TWO_64) else -(n / TWO_64) - 1) * TWO_64;
  }

  lemma ProductsCongruent(a: int, b: int, c: int, d: int)
    requires exists k: int :: a == b + k * TWO_64
    requires exists k: int :: c == d + k * TWO_64
    ensures (a * c) % TWO_64 == (b * d) % TWO_64
  {
    var k: int :| a == b + k * TWO_64;
    var l: int :| c == d + l * TWO_64;
    var q := b * l + k * d + k * l * TWO_64;
    assert a * c == b * d + q * TWO_64;
    ShiftedMod(b * d, q);
  }

  lemma ShiftedMod(n: int, q: int)
    ensures (n + q * TWO_64) % TWO_64 == n % TWO_64
  {
  }

  /** The price is right exactly when it fits into 64 bits. */
  lemma PriceExact(sps: seq<SpProfile>, numBytes: Int64)
    requires numBytes >= 0 && |sps| < TWO_63
    ensures ExactPrice(sps, numBytes) < TWO_63 <==> Price64(sps, numBytes) == ExactPrice(sps, numBytes)
  {
    MegaBytesExact(numBytes);
    hide Highest, MegaBytes, Wrapped64, DivideRoundUp, Scaled;
    var each := Scaled(Highest(sps), DivideRoundUp(numBytes, MEGA));
    assert each == Highest(sps) * MegaBytes(numBytes) by { ScaledIs(Highest(sps), MegaBytes(numBytes)); }
    ScaledIs(each, |sps|);
    ScaledBounds(each, |sps|);
    SmallIsExact(|sps|);
    SmallIsExact(each);
    SmallIsExact(ExactPrice(sps, numBytes));
    if ExactPrice(sps, numBytes) < TWO_63 {
      if |sps| == 0 {
        ScaledIs(0, 0);
      }
    }
  }
}
