/** The profile string that a provider registers on the Neo chain: the client writes and
    reads it, and the contract scans it for the price. */
module NeoProfiles {
  import opened Bytes
  import opened Decimals

  datatype NeoSpProfile = NeoSpProfile(minAsk: Int64, pledgedStorage: Int64, countryA3: string, nodeId: string)

  /** `String`. */
  function ProfileString(p: NeoSpProfile): string {
    Joined([Decimal(p.minAsk), Decimal(p.pledgedStorage), p.countryA3, p.nodeId])
  }

  function NewNeoSpProfile(s: string): Result<NeoSpProfile> {
    var a := Split(s);
    if |a| != 4 then Rejected
    else
      var minAsk :- ParseInt(a[0]);
      var pledged :- ParseInt(a[1]);
      Ok(NeoSpProfile(minAsk, pledged, a[2], a[3]))
  }

  predicate Writable(p: NeoSpProfile) {
    SeparatorFree(p.countryA3) && SeparatorFree(p.nodeId)
  }

  lemma FieldsOfProfile(p: NeoSpProfile)
    requires Writable(p)
    ensures Split(ProfileString(p)) == [Decimal(p.minAsk), Decimal(p.pledgedStorage), p.countryA3, p.nodeId]
  {
    SplitJoined([Decimal(p.minAsk), Decimal(p.pledgedStorage), p.countryA3, p.nodeId]);
  }

  /** The client reads back the profile it wrote exactly when neither the country nor the
      node id holds a separator. */
  lemma ProfileRoundTrip(p: NeoSpProfile)
    ensures NewNeoSpProfile(ProfileString(p)) == Ok(p) <==> Writable(p)
  {
    ParseIntOfDecimal(p.minAsk);
    ParseIntOfDecimal(p.pledgedStorage);
    if Writable(p) {
      FieldsOfProfile(p);
    } else if NewNeoSpProfile(ProfileString(p)) == Ok(p) {
      SplitParts(ProfileString(p));
    }
  }

  lemma {:induction false} SeparatorsCounted(s: string)
    ensures |Split(s)| == multiset(s)[SEPARATOR] + 1
  {
    if s == "" {
    } else {
      SeparatorsCounted(s[..|s| - 1]);
      assert s == s[..|s| - 1] + [s[|s| - 1]];
    }
  }

  /** The client accepts exactly the strings with three separators whose first two fields
      are numbers, and what it reads, joined again, is the string. */
  lemma ProfileAccepted(s: string)
    ensures var r, a := NewNeoSpProfile(s), Split(s);
      && |a| == multiset(s)['|'] + 1
      && (r.Ok? <==> |a| == 4 && ParseInt(a[0]).Ok? && ParseInt(a[1]).Ok?)
      && (r.Ok? ==>
        && s == a[0] + "|" + a[1] + "|" + r.value.countryA3 + "|" + r.value.nodeId
        && ParseInt(a[0]) == Ok(r.value.minAsk) && ParseInt(a[1]) == Ok(r.value.pledgedStorage))
  {
    SeparatorsCounted(s);
    SplitParts(s);
    hide Split, ParseInt;
    var a := Split(s);
    if |a| == 4 {
      FourJoined(a);
    }
  }

  lemma FourJoined(a: seq<string>)
    requires |a| == 4
    ensures Joined(a) == a[0] + "|" + a[1] + "|" + a[2] + "|" + a[3]
  {
    assert a[..3][..2] == a[..2] && a[..2][..1] == a[..1] == [a[0]];
    JoinedOne(a[0]);
    assert Joined(a[..2]) == a[0] + "|" + a[1];
    assert Joined(a[..3]) == a[0] + "|" + a[1] + "|" + a[2];
  }

  // ---- the contract ----

  function Field(profile: string, index: int): string {
    if 0 <= index < |Split(profile)| then Split(profile)[index] else ""
  }

  /** Scans the profile and stops at the end of the field. */
  method ExtractString(profile: string, index: int) returns (res: string)
    ensures res == Field(profile, index)
  {
    res := "";
    var curIndex := 0;
    var i := 0;
    while true
      invariant 0 <= i <= |profile| && 0 <= curIndex && (index >= 0 ==> curIndex <= index)
      invariant curIndex == |Split(profile[..i])| - 1 && res == Split(profile[..i])[curIndex]
      decreases |profile| - i
    {
      if i >= |profile| {
        assert profile[..i] == profile;
        if curIndex != index {
          res := "";
        }
        break;
      }
      assert profile[..i + 1][..i] == profile[..i];
      if profile[i] == SEPARATOR {
        if curIndex == index {
          assert profile == profile[..i] + [SEPARATOR] + profile[i + 1..];
          FieldsClosed(profile[..i], profile[i + 1..]);
          break;
        }
        curIndex := curIndex + 1;
        res := "";
      } else {
        res := res + [profile[i]];
      }
      i := i + 1;
    }
  }

  method ConvertToInt(s: string) returns (res: int)
    ensures res == Denoted(s)
  {
    res := 0;
    for i := 0 to |s|
      invariant res == Denoted(s[..i])
    {
      assert s[..i + 1][..i] == s[..i];
      res := 10 * res + DigitValue(s[i]);
    }
    assert s[..|s|] == s;
  }

  function MinAskFromProfile(profile: string): int {
    Denoted(Field(profile, 0))
  }

  method GetStorageProviderMinAskFromProfile(profile: string) returns (i: int)
    ensures i == MinAskFromProfile(profile)
  {
    var s := ExtractString(profile, 0);
    i := ConvertToInt(s);
  }

  /** The contract's scanner finds the fields that the client wrote. */
  lemma ContractFindsFields(p: NeoSpProfile)
    requires Writable(p)
    ensures Field(ProfileString(p), 0) == Decimal(p.minAsk)
    ensures Field(ProfileString(p), 1) == Decimal(p.pledgedStorage)
    ensures Field(ProfileString(p), 2) == p.countryA3
    ensures Field(ProfileString(p), 3) == p.nodeId
    ensures forall index | index < 0 || 4 <= index :: Field(ProfileString(p), index) == ""
  {
    FieldsOfProfile(p);
  }

  /** The contract sees the client's price exactly when it is not negative, whatever the
      other fields hold. */
  lemma ContractSeesMinAsk(p: NeoSpProfile)
    ensures MinAskFromProfile(ProfileString(p)) == p.minAsk <==> p.minAsk >= 0
  {
    FirstField(p);
    var size: int := p.minAsk;
    size := if size < 0 then -size else size;
    DenotedOfDigits(size);
    if p.minAsk < 0 {
      MinusSign(Digits(size));
      DigitsBelow(size);
    }
  }

  lemma FirstField(p: NeoSpProfile)
    ensures Field(ProfileString(p), 0) == Decimal(p.minAsk)
  {
    var ask := Decimal(p.minAsk);
    var rest := Decimal(p.pledgedStorage) + [SEPARATOR] + p.countryA3 + [SEPARATOR] + p.nodeId;
    var pledged := Decimal(p.pledgedStorage);
    assert [ask, pledged][..1] == [ask];
    assert [ask, pledged, p.countryA3][..2] == [ask, pledged];
    assert [ask, pledged, p.countryA3, p.nodeId][..3] == [ask, pledged, p.countryA3];
    assert Joined([ask, pledged]) == ask + [SEPARATOR] + pledged;
    assert Joined([ask, pledged, p.countryA3]) == ask + [SEPARATOR] + pledged + [SEPARATOR] + p.countryA3;
    assert ProfileString(p) == ask + [SEPARATOR] + rest;
    FieldsClosed(ask, rest);
    SplitJoined([ask]);
    assert Joined([ask]) == ask;
  }

  function Pow10(k: nat): nat {
    if k == 0 then 1 else 10 * Pow10(k - 1)
  }

  /** The minus sign counts as three below '0'. */
  lemma {:induction false} MinusSign(digits: string)
    ensures Denoted("-" + digits) == Denoted(digits) - 3 * Pow10(|digits|)
  {
    if digits == "" {
      assert Denoted("-") == 10 * Denoted("-"[..0]) + DigitValue('-');
      assert "-" + digits == "-";
    } else {
      var front := digits[..|digits| - 1];
      MinusSign(front);
      assert ("-" + digits)[..|digits|] == "-" + front;
    }
  }

  lemma {:induction false} DigitsBelow(n: nat)
    ensures n < Pow10(|Digits(n)|)
  {
    if n < 10 {
    } else {
      DigitsBelow(n / 10);
    }
  }

  // ---- the check on the price of an upload ----

  /** The outcome of `proposeUpload` from the values its checks look at; 0 is success. */
  method ProposeUpload(
    addressesValid: bool, witnessed: bool, paymentS: string, mBytesS: string, registered: bool, balance: int,
    payable: bool, profile: string, transferred: bool)
    returns (code: int)
    ensures code == 0 <==>
      && addressesValid && witnessed && registered && payable && profile != ""
      && PriceAccepted(profile, paymentS, mBytesS)
      && balance >= Denoted(paymentS)
      && (Denoted(paymentS) > 0 ==> transferred)
    ensures code == 5 <==>
      && addressesValid && witnessed && registered && payable && profile != ""
      && Denoted(paymentS) >= 0 && Denoted(mBytesS) > 0 && balance >= Denoted(paymentS)
      && !PriceAccepted(profile, paymentS, mBytesS)
    ensures code in {0, 1, 3, 5, 6, 7, 9, 10, 11, 21, 22}
    ensures code == 7 <==> !addressesValid
    ensures code == 1 <==> addressesValid && !witnessed
    ensures code == 21 <==> addressesValid && witnessed && Denoted(paymentS) < 0
    ensures code == 22 <==> addressesValid && witnessed && Denoted(paymentS) >= 0 && Denoted(mBytesS) <= 0
    ensures addressesValid && witnessed && Denoted(paymentS) >= 0 && Denoted(mBytesS) > 0 ==>
      && (code == 3 <==> !registered)
      && (code == 6 <==> registered && balance < Denoted(paymentS))
      && (code == 10 <==> registered && balance >= Denoted(paymentS) && !payable)
      && (code == 11 <==> registered && balance >= Denoted(paymentS) && payable && profile == "")
      && (code == 9 <==>
        && registered && balance >= Denoted(paymentS) && payable && profile != ""
        && PriceAccepted(profile, paymentS, mBytesS) && Denoted(paymentS) > 0 && !transferred)
  {
    if !addressesValid { return 7; }
    if !witnessed { return 1; }
    var payment := ConvertToInt(paymentS);
    if payment < 0 { return 21; }
    var mBytes := ConvertToInt(mBytesS);
    if mBytes <= 0 { return 22; }
    if !registered { return 3; }
    if balance < payment { return 6; }
    if !payable { return 10; }
    if profile == "" { return 11; }
    var minAsk := GetStorageProviderMinAskFromProfile(profile);
    if minAsk > payment * mBytes { return 5; }
    if payment > 0 && !transferred { return 9; }
    return 0;
  }

  predicate PriceAccepted(profile: string, paymentS: string, mBytesS: string) {
    && Denoted(paymentS) >= 0 && Denoted(mBytesS) > 0
    && MinAskFromProfile(profile) <= Denoted(paymentS) * Denoted(mBytesS)
  }

  lemma AcceptedInDecimal(profile: string, payment: nat, mBytes: nat)
    ensures PriceAccepted(profile, Decimal(payment), Decimal(mBytes))
        <==> mBytes > 0 && MinAskFromProfile(profile) <= payment * mBytes
  {
    DenotedOfDigits(payment);
    DenotedOfDigits(mBytes);
  }

  /** Whoever passes the check pays the ask for every megabyte. */
  ghost predicate CheckProtects(profile: string, mBytes: nat) {
    forall payment: nat | PriceAccepted(profile, Decimal(payment), Decimal(mBytes)) ::
      payment >= MinAskFromProfile(profile) * mBytes
  }

  /** The check compares the ask with the product of payment and size; it protects a
      provider exactly when it asks nothing or stores one megabyte. */
  lemma WhenCheckProtects(profile: string, mBytes: nat)
    requires mBytes > 0
    ensures CheckProtects(profile, mBytes) <==> MinAskFromProfile(profile) <= 0 || mBytes == 1
  {
    var minAsk := MinAskFromProfile(profile);
    if minAsk > 0 && mBytes > 1 {
      Grows(minAsk, mBytes);
      AcceptedInDecimal(profile, minAsk, mBytes);
    } else {
      forall payment: nat | PriceAccepted(profile, Decimal(payment), Decimal(mBytes))
        ensures payment >= minAsk * mBytes
      {
        AcceptedInDecimal(profile, payment, mBytes);
        if minAsk <= 0 {
          NotPositive(minAsk, mBytes);
        }
      }
    }
  }

  lemma NotPositive(a: int, b: nat)
    requires a <= 0
    ensures a * b <= 0
  {
  }

  /** A provider asks 200 for a megabyte, is to store two of them, and is paid 100. */
  lemma UnderpaidAccepted(nodeId: string)
    ensures var profile := ProfileString(NeoSpProfile(200, 100, "USA", nodeId));
      && PriceAccepted(profile, Decimal(100), Decimal(2))
      && 100 < MinAskFromProfile(profile) * 2 == 400
      && !CheckProtects(profile, 2)
  {
    var p := NeoSpProfile(200, 100, "USA", nodeId);
    ContractSeesMinAsk(p);
    AcceptedInDecimal(ProfileString(p), 100, 2);
    WhenCheckProtects(ProfileString(p), 2);
  }

  lemma Grows(a: nat, b: nat)
    requires a > 0 && b > 1
    ensures a < a * b
  {
  }
}
