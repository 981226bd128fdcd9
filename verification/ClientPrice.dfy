/** The price that the client computes for an upload passes the checks of both
    contracts. */
module ClientPrice {
  import opened Arithmetic
  import opened Bytes
  import opened Codecs
  import opened SafeMath
  import ArchonModel
  import ArchonRuns
  import BitFields
  import Decimals
  import NeoProfiles
  import opened StorageProviders

  /** The chain has the asks that the client's profiles tell. */
  predicate AsksAgree(ps: ArchonModel.Profiles, list: seq<ArchonModel.Address>, sps: seq<SpProfile>) {
    && |list| == |sps|
    && forall i | 0 <= i < |list| :: ArchonModel.MinAsk(ps, list[i]) == sps[i].minAskPrice
  }

  lemma {:induction false} HighestIsMaxMinAsk(
    ps: ArchonModel.Profiles, list: seq<ArchonModel.Address>, sps: seq<SpProfile>)
    requires AsksAgree(ps, list, sps)
    ensures ArchonModel.MaxMinAsk(ps, list) == Highest(sps)
  {
    if list == [] {
    } else {
      HighestIsMaxMinAsk(ps, list[..|list| - 1], sps[..|sps| - 1]);
    }
  }

  /** What each provider gets. */
  function Share(sps: seq<SpProfile>, numBytes: nat): nat {
    Scaled(Highest(sps), DivideRoundUp(numBytes, MEGA))
  }

  /** The exact price is a multiple of the number of providers. */
  lemma PriceDivides(sps: seq<SpProfile>, numBytes: nat)
    requires sps != []
    ensures ExactPrice(sps, numBytes) % |sps| == 0 && ExactPrice(sps, numBytes) / |sps| == Share(sps, numBytes)
  {
    var each, n := Share(sps, numBytes), |sps|;
    assert Scaled(each, n) == n * each;
    MulMod(each, n);
    MulDivCancel(n, each);
  }

  /** Rounding up charges for at least as many megabytes as the contract does. */
  lemma MegaBytesCharged(numBytes: nat)
    requires numBytes > 0
    ensures ArchonModel.ChargedMegaBytes(numBytes) <= DivideRoundUp(numBytes, MEGA)
  {
    CeilBounds(numBytes, MEGA);
    QuotientBounds(numBytes, 1_000_000);
  }

  lemma ShareCovers(ask: nat, charged: nat, megaBytes: nat)
    requires charged <= megaBytes
    ensures Scaled(Scaled(charged, ask), 1) <= Scaled(ask, megaBytes)
  {
    MulMono(ask, charged, megaBytes);
    assert charged * ask == ask * charged;
  }

  /** An upload for one month that the client pays with its own price passes all payment
      checks of the Ethereum contract, and then depends only on the providers' standing
      and storage. */
  lemma EthereumAcceptsPrice(
    s: ArchonModel.State, sender: ArchonModel.Caller, params: ArchonModel.Bytes32, shardSize: Int64,
    list: ArchonModel.AddressList, sps: seq<SpProfile>)
    requires s.NameOf(sender) != 0 && list != [] && AsksAgree(s.spAddress2SPProfile, list, sps)
    requires BitFields.TimeInMonths(params) == 1 && shardSize > 0
    requires |sps| < TWO_63 && ExactPrice(sps, shardSize) < TWO_63
    ensures var price := Price64(sps, shardSize);
      && price >= 0
      && ArchonModel.UploadShare(s, sender, price, params, shardSize, list) == Done(Share(sps, shardSize))
      && (ArchonModel.Upload(s, sender, price, params, shardSize, list).Done?
          <==> ArchonModel.Fits(s.spAddress2SPProfile, list, Share(sps, shardSize), shardSize))
  {
    PriceExact(sps, shardSize);
    PriceDivides(sps, shardSize);
    HighestIsMaxMinAsk(s.spAddress2SPProfile, list, sps);
    MegaBytesCharged(shardSize);
    ShareCovers(Highest(sps), ArchonModel.ChargedMegaBytes(shardSize), DivideRoundUp(shardSize, MEGA));
    hide ArchonModel.Fits, ArchonModel.CreditAll, ArchonModel.ChargedMegaBytes, ArchonModel.MaxMinAsk, Highest, Scaled,
      Price64, ExactPrice, DivideRoundUp;
  }

  /** The client's price has no months in it: for a longer upload it reaches the price of
      the contract only when nobody asks anything, or when rounding up pays for the second
      month of a shard of more than one and less than two megabytes. */
  lemma MonthsCovered(sps: seq<SpProfile>, shardSize: nat, months: nat)
    requires shardSize > 0 && months > 0
    ensures Share(sps, shardSize) >= ArchonModel.UploadPrice(shardSize, Highest(sps), months)
        <==> Highest(sps) == 0 || months == 1 || (months == 2 && 1_000_000 < shardSize < 2_000_000)
  {
    hide Highest;
    ArchonRuns.PriceIs(shardSize, Highest(sps), months);
    CeilBounds(shardSize, MEGA);
    QuotientBounds(shardSize, MEGA);
    var charged := if shardSize < MEGA then 1 else shardSize / MEGA;
    hide ArchonModel.UploadPrice, DivideRoundUp;
    AsksCompared(Highest(sps), DivideRoundUp(shardSize, MEGA), months, charged);
    MonthsCompared(DivideRoundUp(shardSize, MEGA), months, charged);
  }

  lemma AsksCompared(ask: nat, paidFor: nat, months: nat, charged: nat)
    ensures Scaled(ask, paidFor) >= ask * months * charged <==> ask == 0 || paidFor >= months * charged
  {
    assert ask * months * charged == ask * (months * charged);
    if paidFor < months * charged {
      MulMono(ask, paidFor + 1, months * charged);
    } else {
      MulMono(ask, months * charged, paidFor);
    }
  }

  lemma MonthsCompared(paidFor: nat, months: nat, charged: nat)
    requires 0 < charged <= paidFor <= charged + 1 && months > 0
    ensures paidFor >= months * charged <==> months == 1 || (months == 2 && charged == 1 && paidFor == 2)
  {
    if months >= 3 {
      MulMono(charged, 3, months);
    }
  }

  /** The Neo account pays every provider the same part of the price. */
  method NeoPayments(sps: seq<SpProfile>, shardSize: Int64, totalPrice: Int64) returns (payments: seq<(string, string)>)
    requires sps != [] && |sps| < TWO_63
    ensures |payments| == |sps|
    ensures forall i | 0 <= i < |sps| ::
      payments[i] == (Decimals.Decimal(GoDiv(totalPrice, |sps|)), Decimals.Decimal(MegaBytes(shardSize)))
  {
    var spPayment := GoDiv(totalPrice, |sps|);
    var mBytes := MegaBytes(shardSize);
    payments := [];
    for i := 0 to |sps|
      invariant |payments| == i
      invariant forall k | 0 <= k < i :: payments[k] == (Decimals.Decimal(spPayment), Decimals.Decimal(mBytes))
    {
      payments := payments + [(Decimals.Decimal(spPayment), Decimals.Decimal(mBytes))];
    }
  }

  lemma CoversAsk(ask: nat, highest: nat, m: nat)
    requires ask <= highest && m > 0
    ensures ask <= Scaled(highest, m) * m
  {
    MulMono(highest, 1, m);
    MulMono(Scaled(highest, m), 1, m);
  }

  /** Every provider's part of the client's price passes the Neo contract's check, with the
      numbers as they are written, sent and scanned. */
  lemma NeoAcceptsPrice(sps: seq<SpProfile>, shardSize: Int64, i: nat, profile: NeoProfiles.NeoSpProfile)
    requires i < |sps| < TWO_63 && shardSize > 0 && ExactPrice(sps, shardSize) < TWO_63
    requires profile.minAsk == sps[i].minAskPrice >= 0
    ensures NeoProfiles.PriceAccepted(
      NeoProfiles.ProfileString(profile),
      Decimals.Decimal(GoDiv(Price64(sps, shardSize), |sps|)),
      Decimals.Decimal(MegaBytes(shardSize)))
  {
    PriceExact(sps, shardSize);
    PriceDivides(sps, shardSize);
    MegaBytesExact(shardSize);
    Decimals.DenotedOfDigits(Share(sps, shardSize));
    Decimals.DenotedOfDigits(MegaBytes(shardSize));
    NeoProfiles.ContractSeesMinAsk(profile);
    CoversAsk(sps[i].minAskPrice, Highest(sps), MegaBytes(shardSize));
    hide Highest, Scaled, Price64, ExactPrice, DivideRoundUp, MegaBytes, NeoProfiles.MinAskFromProfile,
      NeoProfiles.ProfileString, Decimals.Denoted;
  }
}
