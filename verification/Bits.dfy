/** Natural numbers as bit strings: the integer operators the status list is packed and read with. */
module Bits {
  import opened Arithmetic

  function Pow2(k: nat): (r: nat)
    ensures r >= 1
  {
    if k == 0 then 1 else 2 * Pow2(k - 1)
  }

  // a >> k
  function Shr(a: nat, k: nat): nat {
    if k == 0 then a else Shr(a / 2, k - 1)
  }

  // The k lowest bits of a.
  function Low(a: nat, k: nat): nat {
    if k == 0 then 0 else a % 2 + 2 * Low(a / 2, k - 1)
  }

  // Bit k of a.
  function Bit(a: nat, k: nat): nat {
    Shr(a, k) % 2
  }

  // a & b
  function And(a: nat, b: nat): nat {
    if a == 0 || b == 0 then 0
    else (if a % 2 == 1 && b % 2 == 1 then 1 else 0) + 2 * And(a / 2, b / 2)
  }

  // a | b
  function Or(a: nat, b: nat): nat
    decreases a + b
  {
    if a == 0 then b
    else if b == 0 then a
    else (if a % 2 == 1 || b % 2 == 1 then 1 else 0) + 2 * Or(a / 2, b / 2)
  }

  // a & ~b
  function AndNot(a: nat, b: nat): nat {
    if a == 0 || b == 0 then a
    else (if a % 2 == 1 && b % 2 == 0 then 1 else 0) + 2 * AndNot(a / 2, b / 2)
  }

  /* Shifting and masking are division and remainder. */

  lemma {:induction false} ShrIsDivision(a: nat, k: nat)
    ensures Shr(a, k) == a / Pow2(k)
    ensures Low(a, k) == a % Pow2(k)
    decreases k
  {
    if k == 0 {
    } else {
      ShrIsDivision(a / 2, k - 1);
      DivideTwice(a, Pow2(k - 1));
    }
  }

  // Dividing by 2 and then by d.
  lemma DivideTwice(a: nat, d: nat)
    requires d > 0
    ensures a / (2 * d) == a / 2 / d
    ensures a % (2 * d) == 2 * (a / 2 % d) + a % 2
  {
    var q, r := a / 2 / d, a / 2 % d;
    QuotientAndRemainder(a / 2, d);
    Doubled(q, d);
    DivisionIsUnique(a, 2 * d, q, 2 * r + a % 2);
  }

  lemma {:induction false} MaskIsLow(a: nat, k: nat)
    ensures And(a, Pow2(k) - 1) == Low(a, k)
    decreases k
  {
    if k > 0 {
      MaskIsLow(a / 2, k - 1);
      assert (Pow2(k) - 1) / 2 == Pow2(k - 1) - 1;
      if a == 0 {
        LowOfZero(k);
      }
    }
  }

  lemma {:induction false} LowOfZero(k: nat)
    ensures Low(0, k) == 0 && Shr(0, k) == 0
  {
    if k > 0 { LowOfZero(k - 1); }
  }

  lemma {:induction false} ShrShr(a: nat, i: nat, j: nat)
    ensures Shr(Shr(a, i), j) == Shr(a, i + j)
    decreases i
  {
    if i > 0 { ShrShr(a / 2, i - 1, j); }
  }

  // A field that lies within the k lowest bits is read off those bits alone.
  lemma {:induction false} FieldOfLow(a: nat, k: nat, j: nat, width: nat)
    requires j + width <= k
    ensures Low(Shr(Low(a, k), j), width) == Low(Shr(a, j), width)
    decreases k
  {
    if j > 0 {
      FieldOfLow(a / 2, k - 1, j - 1, width);
    } else if width > 0 {
      FieldOfLow(a / 2, k - 1, 0, width - 1);
    }
  }

  lemma {:induction false} LowOfSmall(a: nat, k: nat)
    requires a < Pow2(k)
    ensures Low(a, k) == a
    decreases k
  {
    if k > 0 { LowOfSmall(a / 2, k - 1); }
  }

  lemma {:induction false} LowIsSmall(a: nat, k: nat)
    ensures Low(a, k) < Pow2(k)
    decreases k
  {
    if k > 0 { LowIsSmall(a / 2, k - 1); }
  }

  lemma {:induction false} ShrIsSmall(a: nat, k: nat, j: nat)
    requires a < Pow2(k + j)
    ensures Shr(a, j) < Pow2(k)
    decreases j
  {
    if j > 0 { ShrIsSmall(a / 2, k, j - 1); }
  }

  /* Setting and clearing one bit. */

  lemma {:induction false} BitOfOr(a: nat, k: nat, i: nat)
    ensures Bit(Or(a, Pow2(k)), i) == if i == k then 1 else Bit(a, i)
    decreases k
  {
    BitOfPow2(k, i);
    LowOfZero(i);
    if a > 0 {
      if k == 0 {
        assert Or(a, 1) / 2 == a / 2;
      } else if i > 0 {
        assert Or(a, Pow2(k)) / 2 == Or(a / 2, Pow2(k - 1));
        BitOfOr(a / 2, k - 1, i - 1);
      }
    }
  }

  lemma {:induction false} BitOfAndNot(a: nat, k: nat, i: nat)
    ensures Bit(AndNot(a, Pow2(k)), i) == if i == k then 0 else Bit(a, i)
    decreases k
  {
    LowOfZero(i);
    if a > 0 {
      if k == 0 {
        assert AndNot(a, 1) / 2 == a / 2;
      } else if i > 0 {
        assert AndNot(a, Pow2(k)) / 2 == AndNot(a / 2, Pow2(k - 1));
        BitOfAndNot(a / 2, k - 1, i - 1);
      }
    }
  }

  lemma {:induction false} BitOfPow2(k: nat, i: nat)
    ensures Bit(Pow2(k), i) == if i == k then 1 else 0
    decreases k
  {
    if k == 0 {
      if i > 0 { LowOfZero(i - 1); }
    } else if i > 0 {
      BitOfPow2(k - 1, i - 1);
    }
  }

  // Setting a clear bit adds its weight; clearing a clear bit changes nothing.
  lemma {:induction false} OrOfClear(a: nat, k: nat)
    requires Bit(a, k) == 0
    ensures Or(a, Pow2(k)) == a + Pow2(k)
    ensures AndNot(a, Pow2(k)) == a
    decreases k
  {
    if k > 0 {
      OrOfClear(a / 2, k - 1);
    }
  }

  // Numbers with the same bits are equal.
  lemma {:induction false} BitsDetermine(a: nat, b: nat)
    requires forall i: nat :: Bit(a, i) == Bit(b, i)
    ensures a == b
    decreases a + b
  {
    if a != b {
      assert Bit(a, 0) == Bit(b, 0);
      forall i: nat ensures Bit(a / 2, i) == Bit(b / 2, i) {
        assert Bit(a, i + 1) == Bit(b, i + 1);
      }
      BitsDetermine(a / 2, b / 2);
    }
  }

  // A number is below 2^k iff it has no bit from k on.
  lemma {:induction false} SmallIffNoHighBit(a: nat, k: nat)
    ensures a < Pow2(k) <==> forall i: nat :: i >= k ==> Bit(a, i) == 0
    decreases a, k
  {
    if a == 0 {
      forall i: nat ensures Bit(a, i) == 0 { LowOfZero(i); }
    } else if k == 0 {
      if forall i: nat :: i >= k ==> Bit(a, i) == 0 {
        assert Bit(a, 0) == 0;
        SmallIffNoHighBit(a / 2, 0);
        forall i: nat ensures Bit(a / 2, i) == 0 { assert Bit(a, i + 1) == 0; }
        assert false;
      }
    } else {
      SmallIffNoHighBit(a / 2, k - 1);
      assert a < Pow2(k) <==> a / 2 < Pow2(k - 1);
      forall i: nat | i >= k - 1 ensures Bit(a / 2, i) == Bit(a, i + 1) {}
      if forall i: nat :: i >= k ==> Bit(a, i) == 0 {
        forall i: nat | i >= k - 1 ensures Bit(a / 2, i) == 0 { assert Bit(a, i + 1) == 0; }
      }
      if forall i: nat :: i >= k - 1 ==> Bit(a / 2, i) == 0 {
        forall i: nat | i >= k ensures Bit(a, i) == 0 { assert Bit(a / 2, i - 1) == 0; }
      }
    }
  }
}
