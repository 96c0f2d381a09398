/**
 Bit masks as natural numbers, with the C operators the executive applies to them: `a | b`, `a & ~b`,
 `1 << i` and the numeric comparison of a mask with `(1 << n) - 1`.
 */
module Bitmask {

  /** Bit `i` of `m`. */
  predicate Has(m: nat, i: nat) {
    if i == 0 then m % 2 == 1 else Has(m / 2, i - 1)
  }

  /** `1 << i` */
  function Bit(i: nat): nat {
    if i == 0 then 1 else 2 * Bit(i - 1)
  }

  /** `a | b` */
  function Or(a: nat, b: nat): nat {
    if a == 0 then b
    else if b == 0 then a
    else 2 * Or(a / 2, b / 2) + (if a % 2 == 1 || b % 2 == 1 then 1 else 0)
  }

  /** `a & ~b` */
  function AndNot(a: nat, b: nat): nat {
    if a == 0 then 0
    else 2 * AndNot(a / 2, b / 2) + (if a % 2 == 1 && b % 2 == 0 then 1 else 0)
  }

  /** `(1 << n) - 1` */
  function Full(n: nat): nat {
    if n == 0 then 0 else 2 * Full(n - 1) + 1
  }

  lemma {:induction false} HasZero(i: nat)
    ensures !Has(0, i)
  {
    if i == 0 {
    } else {
      HasZero(i - 1);
    }
  }

  lemma {:induction false} HasBit(i: nat, j: nat)
    ensures Has(Bit(i), j) == (i == j)
  {
    if i > 0 && j > 0 {
      HasBit(i - 1, j - 1);
    } else if j > 0 {
      HasZero(j - 1);
    }
  }

  /** `|` is union of bits. */
  lemma {:induction false} HasOr(a: nat, b: nat, i: nat)
    ensures Has(Or(a, b), i) == (Has(a, i) || Has(b, i))
  {
    if a == 0 || b == 0 {
      HasZero(i);
    } else if i > 0 {
      HasOr(a / 2, b / 2, i - 1);
    }
  }

  /** `& ~` is difference of bits. */
  lemma {:induction false} HasAndNot(a: nat, b: nat, i: nat)
    ensures Has(AndNot(a, b), i) == (Has(a, i) && !Has(b, i))
  {
    if a == 0 {
      HasZero(i);
    } else if i > 0 {
      HasAndNot(a / 2, b / 2, i - 1);
    }
  }

  lemma {:induction false} HasFull(n: nat, i: nat)
    ensures Has(Full(n), i) == (i < n)
  {
    if n == 0 {
      HasZero(i);
    } else if i > 0 {
      HasFull(n - 1, i - 1);
    }
  }

  /** A mask that is not zero has a bit. */
  lemma {:induction false} SomeBit(m: nat) returns (i: nat)
    requires m > 0
    ensures Has(m, i)
  {
    if m % 2 == 1 {
      i := 0;
    } else {
      var j := SomeBit(m / 2);
      i := j + 1;
    }
  }

  /** A mask is determined by its bits. */
  lemma {:induction false} SameBits(a: nat, b: nat)
    requires forall i: nat :: Has(a, i) == Has(b, i)
    ensures a == b
  {
    assert Has(a, 0) == Has(b, 0);
    if a > 0 || b > 0 {
      forall i: nat ensures Has(a / 2, i) == Has(b / 2, i) {
        assert Has(a, i + 1) == Has(b, i + 1);
      }
      SameBits(a / 2, b / 2);
    }
  }

  /** The bits `0 .. n` are all set. */
  ghost predicate AllBelow(m: nat, n: nat) {
    forall i: nat :: i < n ==> Has(m, i)
  }

  /** Some bit at `n` or above is set. */
  ghost predicate SomeFrom(m: nat, n: nat) {
    exists i: nat :: n <= i && Has(m, i)
  }

  /** A bit at `n` or above makes the mask larger than any mask of the first `n` bits. */
  lemma {:induction false} HigherBit(m: nat, n: nat, i: nat)
    requires n <= i && Has(m, i)
    ensures m > Full(n)
  {
    if n > 0 {
      HigherBit(m / 2, n - 1, i - 1);
    } else {
      HasZero(i);
    }
  }

  lemma {:induction false} AboveFull(m: nat, n: nat) returns (i: nat)
    requires m > Full(n)
    ensures n <= i && Has(m, i)
  {
    if n == 0 {
      i := SomeBit(m);
    } else {
      var j := AboveFull(m / 2, n - 1);
      i := j + 1;
    }
  }

  lemma {:induction false} AllBelowIsBig(m: nat, n: nat)
    requires AllBelow(m, n)
    ensures m >= Full(n)
  {
    if n == 0 {
    } else {
      assert Has(m, 0);
      forall i: nat | i < n - 1 ensures Has(m / 2, i) {
        assert Has(m, i + 1);
      }
      AllBelowIsBig(m / 2, n - 1);
    }
  }

  /**
   What the numeric test `m >= (1 << n) - 1` means: all of the first `n` bits are set, or some bit beyond
   them is.  It is completeness of the first `n` bits exactly for masks without higher bits.
   */
  lemma AtLeastFull(m: nat, n: nat)
    ensures m >= Full(n) <==> AllBelow(m, n) || SomeFrom(m, n)
  {
    if AllBelow(m, n) {
      AllBelowIsBig(m, n);
    } else if SomeFrom(m, n) {
      var i: nat :| n <= i && Has(m, i);
      HigherBit(m, n, i);
    } else if m >= Full(n) {
      if m > Full(n) {
        var i := AboveFull(m, n);
      } else {
        forall i: nat ensures Has(m, i) == (i < n) {
          HasFull(n, i);
        }
      }
      assert false;
    }
  }
}
