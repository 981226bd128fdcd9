/** Checked 256-bit arithmetic: the wrapping machine operation followed by the
    test that SafeMath performs on the wrapped result.  The lemmas say that the
    tests catch every overflow and nothing else. */
module SafeMath {
  import opened Arithmetic

  const WORD: nat := 0x1_0000000000000000_0000000000000000_0000000000000000_0000000000000000

  type Uint256 = n: nat | n < WORD
  type Uint64 = n: nat | n < 0x1_0000000000000000

  /** The result of contract code.  `Reverted` is a failed `require`; `OutOfFunds`
      is the failure of a value transfer that the contract's balance cannot cover. */
  datatype Evm<+T> = Done(value: T) | Reverted | OutOfFunds {
    predicate IsFailure() {
      !Done?
    }

    function PropagateFailure<U>(): Evm<U>
      requires !Done?
    {
      if Reverted? then Evm.Reverted else Evm.OutOfFunds
    }

    function Extract(): T
      requires Done?
    {
      value
    }
  }

  datatype Guard = Met | Unmet {
    predicate IsFailure() {
      Unmet?
    }

    function PropagateFailure<U>(): Evm<U>
      requires Unmet?
    {
      Evm.Reverted
    }
  }

  function Require(condition: bool): Guard {
    if condition then Met else Unmet
  }

  function Add(a: Uint256, b: Uint256): Evm<Uint256> {
    var c := (a + b) % WORD;
    if c >= a then Done(c) else Reverted
  }

  function Sub(a: Uint256, b: Uint256): Evm<Uint256> {
    if b <= a then Done((a - b) % WORD) else Reverted
  }

  function Mul(a: Uint256, b: Uint256): Evm<Uint256> {
    if a == 0 then Done(0)
    else
      var c := (a * b) % WORD;
      if c / a == b then Done(c) else Reverted
  }

  function Div(a: Uint256, b: Uint256): Evm<Uint256> {
    if b > 0 then Done(a / b) else Reverted
  }

  lemma AddExact(a: Uint256, b: Uint256)
    ensures Add(a, b) == if a + b < WORD then Done(a + b) else Reverted
  {
    if a + b >= WORD {
      assert (a + b) % WORD == a + b - WORD;
    }
  }

  lemma SubExact(a: Uint256, b: Uint256)
    ensures Sub(a, b) == if b <= a then Done(a - b) else Reverted
  {
  }

  lemma MulExact(a: Uint256, b: Uint256)
    ensures Mul(a, b) == if a * b < WORD then Done(a * b) else Reverted
  {
    var p := a * b;
    if a == 0 {
      assert p == 0;
    } else if p < WORD {
      assert p % WORD == p;
      MulDivCancel(a, b);
    } else {
      assert p % WORD < WORD <= p;
      QuotientBelow(p % WORD, a, b);
    }
  }

  lemma QuotientBelow(c: nat, a: nat, b: nat)
    requires a > 0 && c < a * b
    ensures c / a < b
  {
    var q := c / a;
    QuotientBounds(c, a);
    if q >= b {
      MulMono(a, b, q);
    }
  }
}
