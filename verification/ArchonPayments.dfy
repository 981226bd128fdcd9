/** Why paying a list of providers entry after entry is the same as crediting each
    provider once with all of its listings. */
module ArchonPayments {
  import opened Arithmetic
  import opened SafeMath
  import opened ArchonModel
  import opened MapSums

  lemma ShareExact(value: Uint256, parts: Uint256)
    requires parts > 0
    ensures Div(value, parts) == Done(Quotient(value, parts))
    ensures Mul(Quotient(value, parts), parts).Done?
    ensures Mul(Quotient(value, parts), parts).value >= value <==> Divides(parts, value)
    ensures Divides(parts, value) ==> parts * Quotient(value, parts) == value
  {
    var share := Quotient(value, parts);
    QuotientBounds(value, parts);
    assert share * parts == parts * share;
    MulExact(share, parts);
  }

  lemma TimesStep(list: seq<Address>, i: nat, a: Address)
    requires i < |list|
    ensures Times(list[..i + 1], a) == Times(list[..i], a) + (if list[i] == a then 1 else 0)
    ensures Times(list[..i + 1], a) <= Times(list, a)
    ensures a in list[..i] ==> Times(list[..i], a) > 0
    ensures a !in list[..i] ==> Times(list[..i], a) == 0
  {
    assert list[..i + 1] == list[..i] + [list[i]];
    assert list == list[..i + 1] + list[i + 1..];
  }

  /** Whether the entry at index `i` can be paid, given what was paid before it. */
  predicate CanPay(p: SPProfile, share: nat, size: nat) {
    p.inGoodStanding && size <= p.remainingStorage && p.earnings + share < WORD
  }

  function PayOnce(p: SPProfile, share: nat, size: nat): SPProfile
    requires CanPay(p, share, size)
  {
    p.(remainingStorage := p.remainingStorage - size, earnings := p.earnings + share)
  }

  /** `now` is `ps` after paying the first `i` entries. */
  predicate PaidUpTo(ps: Profiles, list: seq<Address>, i: nat, share: nat, size: nat, now: Profiles) {
    && i <= |list|
    && Fits(ps, list[..i], share, size)
    && now == CreditAll(ps, list[..i], share, size)
  }

  /** The loop body either pays the next entry or shows that the list does not fit. */
  lemma PayStep(ps: Profiles, list: seq<Address>, i: nat, share: nat, size: nat, now: Profiles)
    requires i < |list| && PaidUpTo(ps, list, i, share, size, now)
    ensures var p := At(now, list[i], NO_PROFILE);
      if CanPay(p, share, size) then PaidUpTo(ps, list, i + 1, share, size, now[list[i] := PayOnce(p, share, size)])
      else !Fits(ps, list, share, size)
  {
    FitsStep(ps, list, i, share, size);
    if CanPay(At(now, list[i], NO_PROFILE), share, size) {
      CreditStep(ps, list, i, share, size);
    } else if Fits(ps, list, share, size) {
      FitsPrefix(ps, list, i, share, size);
    }
  }

  lemma PaidAll(ps: Profiles, list: seq<Address>, share: nat, size: nat)
    ensures PaidUpTo(ps, list, 0, share, size, ps)
    ensures forall now :: PaidUpTo(ps, list, |list|, share, size, now) ==>
      Fits(ps, list, share, size) && now == CreditAll(ps, list, share, size)
  {
    assert list[..|list|] == list;
    assert CreditAll(ps, list[..0], share, size) == ps;
  }

  lemma FitsPrefix(ps: Profiles, list: seq<Address>, i: nat, share: nat, size: nat)
    requires i < |list| && Fits(ps, list, share, size)
    ensures Fits(ps, list[..i + 1], share, size)
  {
    forall a | a in list[..i + 1]
      ensures size * Times(list[..i + 1], a) <= At(ps, a, NO_PROFILE).remainingStorage
      ensures At(ps, a, NO_PROFILE).earnings + share * Times(list[..i + 1], a) < WORD
    {
      TimesStep(list, i, a);
      assert a in list;
      MulMono(size, Times(list[..i + 1], a), Times(list, a));
      MulMono(share, Times(list[..i + 1], a), Times(list, a));
    }
  }

  /** One more entry fits exactly when it can be paid after the entries before it. */
  lemma FitsStep(ps: Profiles, list: seq<Address>, i: nat, share: nat, size: nat)
    requires i < |list| && Fits(ps, list[..i], share, size)
    ensures Fits(ps, list[..i + 1], share, size)
       <==> CanPay(At(CreditAll(ps, list[..i], share, size), list[i], NO_PROFILE), share, size)
  {
    var a := list[i];
    var p := At(ps, a, NO_PROFILE);
    var t := Times(list[..i], a);
    TimesStep(list, i, a);
    MulSucc(size, t);
    MulSucc(share, t);
    assert a in list[..i + 1] by { assert list[..i + 1][i] == a; }
    assert Times(list[..i + 1], a) == t + 1;
    assert CanPay(At(CreditAll(ps, list[..i], share, size), a, NO_PROFILE), share, size)
      <==> p.inGoodStanding && size * (t + 1) <= p.remainingStorage && p.earnings + share * (t + 1) < WORD;
    forall b | b in list[..i + 1] && b != a
      ensures b in list[..i] && Times(list[..i + 1], b) == Times(list[..i], b)
    {
      TimesStep(list, i, b);
    }
  }

  lemma MulSucc(a: nat, t: nat)
    ensures a * (t + 1) == a * t + a
    ensures t == 0 ==> a * t == 0
  {
  }

  lemma CreditTimesStep(p: SPProfile, share: nat, size: nat, t: nat)
    requires size * t <= p.remainingStorage && p.earnings + share * t < WORD
    requires size * (t + 1) <= p.remainingStorage && p.earnings + share * (t + 1) < WORD
    ensures CanPay(p, share, size) ==> p.inGoodStanding
    ensures t == 0 ==> CreditTimes(p, share, size, t) == p
    ensures p.inGoodStanding ==>
      && CanPay(CreditTimes(p, share, size, t), share, size)
      && CreditTimes(p, share, size, t + 1) == PayOnce(CreditTimes(p, share, size, t), share, size)
  {
    MulSucc(size, t);
    MulSucc(share, t);
  }

  lemma CreditStep(ps: Profiles, list: seq<Address>, i: nat, share: nat, size: nat)
    requires i < |list| && Fits(ps, list[..i], share, size) && Fits(ps, list[..i + 1], share, size)
    requires CanPay(At(CreditAll(ps, list[..i], share, size), list[i], NO_PROFILE), share, size)
    ensures CreditAll(ps, list[..i + 1], share, size)
      == var paid := CreditAll(ps, list[..i], share, size);
         paid[list[i] := PayOnce(At(paid, list[i], NO_PROFILE), share, size)]
  {
    var a := list[i];
    var paid := CreditAll(ps, list[..i], share, size);
    var more := CreditAll(ps, list[..i + 1], share, size);
    assert a in ps;
    forall b | b in ps
      ensures more[b] == if b == a then PayOnce(paid[a], share, size) else paid[b]
    {
      CreditStepAt(ps, list, i, share, size, b);
    }
  }

  lemma CreditStepAt(ps: Profiles, list: seq<Address>, i: nat, share: nat, size: nat, b: Address)
    requires i < |list| && Fits(ps, list[..i], share, size) && Fits(ps, list[..i + 1], share, size)
    requires b in ps
    ensures var paid := CreditAll(ps, list[..i], share, size);
            var more := CreditAll(ps, list[..i + 1], share, size);
            if b == list[i] then CanPay(paid[b], share, size) && more[b] == PayOnce(paid[b], share, size)
            else more[b] == paid[b]
  {
    TimesStep(list, i, b);
    assert list[..i + 1] == list[..i] + [list[i]];
    if b == list[i] {
      var t := Times(list[..i], b);
      if t == 0 {
        MulSucc(size, t);
        MulSucc(share, t);
      }
      CreditTimesStep(ps[b], share, size, t);
    }
  }

  // ---- what the payments add up to ----

  /** A quantity of a profile that every payment raises by `per`. */
  ghost predicate RaisedBy(f: SPProfile -> nat, share: nat, size: nat, per: nat) {
    forall p: SPProfile | CanPay(p, share, size) :: f(PayOnce(p, share, size)) == f(p) + per
  }

  lemma SumPayOnce(ps: Profiles, a: Address, share: nat, size: nat, f: SPProfile -> nat, per: nat)
    requires CanPay(At(ps, a, NO_PROFILE), share, size) && RaisedBy(f, share, size, per)
    ensures Sum(ps[a := PayOnce(At(ps, a, NO_PROFILE), share, size)], f) == Sum(ps, f) + per
  {
    SumUpdate(ps, f, a, PayOnce(At(ps, a, NO_PROFILE), share, size));
  }

  lemma FitsAnyPrefix(ps: Profiles, list: seq<Address>, i: nat, share: nat, size: nat)
    requires i <= |list| && Fits(ps, list, share, size)
    ensures Fits(ps, list[..i], share, size)
  {
    if i > 0 {
      FitsPrefix(ps, list, i - 1, share, size);
    }
  }

  lemma SumPayStep(ps: Profiles, list: seq<Address>, i: nat, share: nat, size: nat, now: Profiles, next: Profiles,
                   f: SPProfile -> nat, per: nat)
    requires i < |list| && Fits(ps, list, share, size) && RaisedBy(f, share, size, per)
    requires PaidUpTo(ps, list, i, share, size, now) && PaidUpTo(ps, list, i + 1, share, size, next)
    ensures Sum(next, f) == Sum(now, f) + per
  {
    PayStep(ps, list, i, share, size, now);
    SumPayOnce(now, list[i], share, size, f, per);
  }

  /** However the list repeats its entries, the total rises by `per` for each of them. */
  lemma {:induction false} SumPaid(ps: Profiles, list: seq<Address>, i: nat, share: nat, size: nat, now: Profiles,
                                   f: SPProfile -> nat, per: nat)
    requires Fits(ps, list, share, size) && RaisedBy(f, share, size, per)
    requires PaidUpTo(ps, list, i, share, size, now)
    ensures Sum(now, f) == Sum(ps, f) + Scaled(i, per)
  {
    if i == 0 {
      assert now == ps;
    } else {
      FitsAnyPrefix(ps, list, i - 1, share, size);
      var before := CreditAll(ps, list[..i - 1], share, size);
      SumPaid(ps, list, i - 1, share, size, before, f, per);
      SumPayStep(ps, list, i - 1, share, size, before, now, f, per);
      ScaledNext(i - 1, per);
    }
  }

  lemma SumCreditAll(ps: Profiles, list: seq<Address>, share: nat, size: nat, f: SPProfile -> nat, per: nat)
    requires Fits(ps, list, share, size) && RaisedBy(f, share, size, per)
    ensures Sum(CreditAll(ps, list, share, size), f) == Sum(ps, f) + Scaled(|list|, per)
  {
    assert list[..|list|] == list;
    SumPaid(ps, list, |list|, share, size, CreditAll(ps, list, share, size), f, per);
  }
}
