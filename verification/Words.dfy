/** 32-bit words, read four bits at a time. */
module Words {
  import opened Powers

  /** A Java int. */
  type Word = x: int | -0x8000_0000 <= x < 0x8000_0000

  /** The word read as an unsigned number. */
  ghost function Unsigned(n: Word): (u: nat)
    ensures u < 0x1_0000_0000
  {
    if n < 0 then n + 0x1_0000_0000 else n
  }

  /** n >> bit, which keeps the sign. */
  function Shift(n: int, bit: nat): int {
    if bit == 0 then n else Shift(n, bit - 1) / 2
  }

  /** getFourBit: the last four bits after the shift. */
  function FourBit(n: int, bit: nat): (d: int)
    ensures 0 <= d < 16
  {
    Shift(n, bit) % 16
  }

  lemma FourMore(n: int, bit: nat)
    ensures Pow2(bit + 4) == 16 * Pow2(bit) && Shift(n, bit + 4) == Shift(n, bit) / 16
  {
    assert Pow2(bit + 4) == 2 * Pow2(bit + 3) == 4 * Pow2(bit + 2) == 8 * Pow2(bit + 1);
    assert Shift(n, bit + 4) == Shift(n, bit + 3) / 2 == Shift(n, bit + 2) / 4 == Shift(n, bit + 1) / 8;
  }

  lemma WholeWord()
    ensures Pow2(32) == 0x1_0000_0000
  {
    FourMore(0, 0); FourMore(0, 4); FourMore(0, 8); FourMore(0, 12); FourMore(0, 16); FourMore(0, 20);
    FourMore(0, 24); FourMore(0, 28);
  }

  lemma {:induction false} ShiftMonotone(a: int, b: int, bit: nat)
    requires a <= b
    ensures Shift(a, bit) <= Shift(b, bit)
    decreases bit
  {
    if bit == 0 {
    } else {
      ShiftMonotone(a, b, bit - 1);
    }
  }

  lemma {:induction false} ShiftSum(n: int, bit: nat, more: nat)
    ensures Shift(n + Pow2(bit + more), bit) == Shift(n, bit) + Pow2(more)
    decreases bit
  {
    if bit == 0 {
    } else {
      ShiftSum(n, bit - 1, more + 1);
    }
  }

  lemma {:induction false} ShiftSmall(u: nat, bit: nat, more: nat)
    requires u < Pow2(bit + more)
    ensures 0 <= Shift(u, bit) < Pow2(more)
    decreases bit
  {
    if bit == 0 {
    } else {
      ShiftSmall(u, bit - 1, more + 1);
    }
  }

  lemma SixteenMore(x: int, q: int)
    ensures (x + 16 * q) % 16 == x % 16
  {}

  /** Up to the top of the word it makes no difference that the shift keeps the sign. */
  lemma SignIrrelevant(n: Word, bit: nat)
    requires bit <= 28
    ensures FourBit(n, bit) == FourBit(Unsigned(n), bit)
  {
    if n < 0 {
      var m: nat := 28 - bit;
      WholeWord();
      assert bit + (m + 4) == 32;
      ShiftSum(n, bit, m + 4);
      FourMore(0, m);
      SixteenMore(Shift(n, bit), Pow2(m));
    }
  }

  /** Order by the digits below `bit`, the highest of them first. */
  ghost predicate LowLeq(a: Word, b: Word, bit: nat) {
    bit < 4 || FourBit(a, bit - 4) < FourBit(b, bit - 4) ||
    (FourBit(a, bit - 4) == FourBit(b, bit - 4) && LowLeq(a, b, bit - 4))
  }

  /** Equal above `bit`. */
  ghost predicate SameAbove(a: Word, b: Word, bit: nat) {
    Shift(Unsigned(a), bit) == Shift(Unsigned(b), bit)
  }

  /** Between words that are equal above it, the next digit decides. */
  lemma Compare(a: Word, b: Word, bit: nat)
    requires bit <= 28 && SameAbove(a, b, bit + 4)
    ensures FourBit(a, bit) < FourBit(b, bit) ==> Unsigned(a) < Unsigned(b)
    ensures FourBit(a, bit) > FourBit(b, bit) ==> Unsigned(a) > Unsigned(b)
    ensures FourBit(a, bit) == FourBit(b, bit) ==> SameAbove(a, b, bit)
  {
    var x, y := Unsigned(a), Unsigned(b);
    SignIrrelevant(a, bit);
    SignIrrelevant(b, bit);
    FourMore(x, bit);
    FourMore(y, bit);
    if x <= y {
      ShiftMonotone(x, y, bit);
    } else {
      ShiftMonotone(y, x, bit);
    }
  }

  lemma Top(a: Word, b: Word)
    ensures SameAbove(a, b, 32)
  {
    WholeWord();
    ShiftSmall(Unsigned(a), 32, 0);
    ShiftSmall(Unsigned(b), 32, 0);
  }

  lemma {:induction false} LowDecides(a: Word, b: Word, bit: nat)
    requires bit <= 32 && bit % 4 == 0 && SameAbove(a, b, bit)
    ensures LowLeq(a, b, bit) <==> Unsigned(a) <= Unsigned(b)
    decreases bit
  {
    if bit < 4 {
    } else {
      Compare(a, b, bit - 4);
      if FourBit(a, bit - 4) == FourBit(b, bit - 4) {
        LowDecides(a, b, bit - 4);
      }
    }
  }

  /** All eight digits together give the order of the unsigned numbers. */
  lemma AllDigits(a: Word, b: Word)
    ensures LowLeq(a, b, 32) <==> Unsigned(a) <= Unsigned(b)
  {
    Top(a, b);
    LowDecides(a, b, 32);
  }

  /** uless: the digits are compared from the top down. */
  method ULess(a: Word, b: Word) returns (r: bool)
    ensures r <==> Unsigned(a) < Unsigned(b)
  {
    Top(a, b);
    var i := 28;
    while i >= 0
      invariant -4 <= i <= 28 && i % 4 == 0 && SameAbove(a, b, i + 4)
    {
      Compare(a, b, i);
      var aa, bb := FourBit(a, i), FourBit(b, i);
      if aa < bb {
        return true;
      } else if aa > bb {
        return false;
      }
      i := i - 4;
    }
    return false;
  }

  /** ugreateq. */
  method UGreaterEq(a: Word, b: Word) returns (r: bool)
    ensures r <==> Unsigned(a) >= Unsigned(b)
  {
    Top(a, b);
    var i := 28;
    while i >= 0
      invariant -4 <= i <= 28 && i % 4 == 0 && SameAbove(a, b, i + 4)
    {
      Compare(a, b, i);
      var aa, bb := FourBit(a, i), FourBit(b, i);
      if aa < bb {
        return false;
      } else if aa > bb {
        return true;
      }
      i := i - 4;
    }
    return true;
  }
}
