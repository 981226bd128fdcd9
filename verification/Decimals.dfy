/** Decimal numerals as the source prints and parses them, and fields joined by a
    separator. */
module Decimals {
  import opened Bytes

  function Digit(d: nat): (c: char)
    requires d < 10
    ensures IsDigit(c) && DigitValue(c) == d
  {
    ('0' as int + d) as char
  }

  predicate IsDigit(c: char) {
    '0' <= c <= '9'
  }

  function DigitValue(c: char): int {
    c as int - '0' as int
  }

  function Digits(n: nat): (s: string)
    ensures |s| > 0 && forall c <- s :: IsDigit(c)
  {
    if n < 10 then [Digit(n)] else Digits(n / 10) + [Digit(n % 10)]
  }

  /** `%d`. */
  function Decimal(n: int): (s: string)
    ensures |s| > 0 && forall c <- s :: IsDigit(c) || c == '-'
  {
    if n < 0 then "-" + Digits(-n) else Digits(n)
  }

  /** What the digits denote; other characters count as the difference to '0'. */
  function Denoted(s: string): int {
    if s == "" then 0 else 10 * Denoted(s[..|s| - 1]) + DigitValue(s[|s| - 1])
  }

  lemma {:induction false} DenotedOfDigits(n: nat)
    ensures Denoted(Digits(n)) == n
  {
    var s := Digits(n);
    if n < 10 {
      assert Denoted(s[..0]) == 0;
    } else {
      DenotedOfDigits(n / 10);
      assert s[..|s| - 1] == Digits(n / 10);
    }
  }

  lemma DecimalInjective(m: int, n: int)
    requires Decimal(m) == Decimal(n)
    ensures m == n
  {
    var s, t := Digits(if m < 0 then -m else m), Digits(if n < 0 then -n else n);
    DenotedOfDigits(if m < 0 then -m else m);
    DenotedOfDigits(if n < 0 then -n else n);
    assert IsDigit(s[0]) && IsDigit(t[0]);
    if m < 0 {
      assert Decimal(m)[1..] == s;
      assert n < 0;
      assert Decimal(n)[1..] == t;
    }
  }

  /** `strconv.ParseInt(s, 10, 64)`. */
  function ParseInt(s: string): Result<Int64> {
    if s == "" then Rejected
    else
      var digits := if s[0] == '+' || s[0] == '-' then s[1..] else s;
      if digits == "" || !(forall c <- digits :: IsDigit(c)) then Rejected
      else
        var n := if s[0] == '-' then -Denoted(digits) else Denoted(digits);
        if -0x80000000_00000000 <= n < 0x80000000_00000000 then Ok(n) else Rejected
  }

  /** The decimal form of a number is parsed back exactly when it has 64 bits. */
  lemma ParseIntOfDecimal(n: int)
    ensures ParseInt(Decimal(n))
         == if -0x80000000_00000000 <= n <= 0x7FFFFFFF_FFFFFFFF then Ok(n) else Rejected
  {
    var size: int := n;
    size := if n < 0 then -size else size;
    var digits := Digits(size);
    DenotedOfDigits(size);
    assert IsDigit(digits[0]);
    if n < 0 {
      assert Decimal(n)[1..] == digits;
    }
  }

  // ---- fields ----

  const SEPARATOR: char := '|'

  predicate SeparatorFree(s: string) {
    SEPARATOR !in s
  }

  /** `strings.Join`. */
  function Joined(parts: seq<string>): string
    requires parts != []
  {
    if |parts| == 1 then parts[0] else Joined(parts[..|parts| - 1]) + [SEPARATOR] + parts[|parts| - 1]
  }

  /** `strings.Split`: the pieces between the separators. */
  function Split(s: string): (parts: seq<string>)
    ensures parts != []
  {
    if s == "" then [""]
    else
      var front, c := Split(s[..|s| - 1]), s[|s| - 1];
      if c == SEPARATOR then front + [""]
      else front[|front| - 1 := front[|front| - 1] + [c]]
  }

  /** Text without a separator extends the last field. */
  lemma {:induction false} SplitExtended(s: string, t: string)
    requires SeparatorFree(t)
    ensures Split(s + t) == Split(s)[|Split(s)| - 1 := Split(s)[|Split(s)| - 1] + t]
    decreases |t|
  {
    if t == "" {
      assert s + t == s;
      assert Split(s)[|Split(s)| - 1] + t == Split(s)[|Split(s)| - 1];
    } else {
      var u, c := t[..|t| - 1], t[|t| - 1];
      SplitExtended(s, u);
      assert (s + t)[..|s + t| - 1] == s + u;
      assert Split(s)[|Split(s)| - 1] + u + [c] == Split(s)[|Split(s)| - 1] + t;
    }
  }

  lemma SplitSeparated(s: string, t: string)
    requires SeparatorFree(t)
    ensures Split(s + [SEPARATOR] + t) == Split(s) + [t]
  {
    assert (s + [SEPARATOR])[..|s|] == s;
    assert Split(s + [SEPARATOR]) == Split(s) + [""];
    SplitExtended(s + [SEPARATOR], t);
    assert "" + t == t;
  }

  /** Splitting gives back what was joined, provided that no field holds a separator. */
  lemma {:induction false} SplitJoined(parts: seq<string>)
    requires parts != [] && forall p <- parts :: SeparatorFree(p)
    ensures Split(Joined(parts)) == parts
  {
    if |parts| == 1 {
      SplitExtended("", parts[0]);
      assert "" + parts[0] == parts[0];
      assert Split("")[0 := "" + parts[0]] == [parts[0]];
    } else {
      SplitJoined(parts[..|parts| - 1]);
      SplitSeparated(Joined(parts[..|parts| - 1]), parts[|parts| - 1]);
    }
  }

  lemma JoinedOne(part: string)
    ensures Joined([part]) == part
  {
  }

  /** A character joins the last field, a separator opens an empty one. */
  lemma JoinedGrown(front: seq<string>, c: char)
    requires front != []
    ensures Joined(front[|front| - 1 := front[|front| - 1] + [c]]) == Joined(front) + [c]
    ensures Joined(front + [""]) == Joined(front) + [SEPARATOR]
  {
    var grown := front[|front| - 1 := front[|front| - 1] + [c]];
    assert grown[..|grown| - 1] == front[..|front| - 1];
    assert (front + [""])[..|front|] == front;
  }

  lemma {:induction false} SplitParts(s: string)
    ensures Joined(Split(s)) == s && forall p <- Split(s) :: SeparatorFree(p)
  {
    hide Joined;
    if s == "" {
      JoinedOne("");
    } else {
      var front, c := Split(s[..|s| - 1]), s[|s| - 1];
      SplitParts(s[..|s| - 1]);
      JoinedGrown(front, c);
      assert s == s[..|s| - 1] + [c];
      assert SeparatorFree(front[|front| - 1]);
    }
  }

  /** A separator closes the fields before it for good. */
  lemma {:induction false} FieldsClosed(s: string, rest: string)
    ensures |Split(s)| < |Split(s + [SEPARATOR] + rest)|
    ensures Split(s + [SEPARATOR] + rest)[..|Split(s)|] == Split(s)
    decreases |rest|
  {
    if rest == "" {
      assert s + [SEPARATOR] + rest == s + [SEPARATOR];
      assert (s + [SEPARATOR])[..|s|] == s;
    } else {
      var u := rest[..|rest| - 1];
      FieldsClosed(s, u);
      assert (s + [SEPARATOR] + rest)[..|s + rest|] == s + [SEPARATOR] + u;
    }
  }
}
