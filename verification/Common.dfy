/** What several of the models share. */
module Options {
  datatype Option<T> = None | Some(value: T)
}

module Powers {
  ghost function Pow2(n: nat): (p: nat)
    ensures p > 0
  {
    if n == 0 then 1 else 2 * Pow2(n - 1)
  }

  lemma {:induction false} Pow2Double(n: nat)
    ensures Pow2(2 * n) == Pow2(n) * Pow2(n)
  {
    if n == 0 {
    } else {
      Pow2Double(n - 1);
      assert Pow2(2 * n) == 2 * Pow2(2 * n - 1) == 4 * Pow2(2 * (n - 1));
    }
  }

  lemma {:induction false} Pow2Grows(m: nat, n: nat)
    requires m <= n
    ensures Pow2(m) <= Pow2(n)
    decreases n
  {
    if m == n {
    } else {
      Pow2Grows(m, n - 1);
    }
  }
}

/** Numbers as they are written. */
module Numerals {
  const DECIMAL := "0123456789"
  const LOWER := "0123456789abcdef"
  const UPPER := "0123456789ABCDEF"

  function Quotient(n: nat, digits: string): nat {
    if |digits| == 16 then n / 16 else n / 10
  }

  function Last(n: nat, digits: string): nat {
    if |digits| == 16 then n % 16 else n % 10
  }

  /** The number in these ten or sixteen digits, without leading zeros. */
  function Written(n: nat, digits: string): (s: string)
    requires |digits| == 10 || |digits| == 16
    ensures s != [] && forall i :: 0 <= i < |s| ==> s[i] in digits
  {
    (if n < |digits| then [] else Written(Quotient(n, digits), digits)) + [digits[Last(n, digits)]]
  }

  function Decimal(n: nat): (s: string)
    ensures s != [] && forall i :: 0 <= i < |s| ==> '0' <= s[i] <= '9'
  {
    Written(n, DECIMAL)
  }
}
