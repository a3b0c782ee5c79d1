/**
  Python's built-in `round` applied to an exact rational `num / den`:
  the nearest integer, and on an exact tie the even one ("round half to even").
*/
module Rounding {

  /** `r` is a nearest integer to `num / den`, and an even one when two are equally near. */
  predicate IsRoundHalfEven(num: int, den: int, r: int)
    requires den > 0
  {
    var e := num - r * den;
    && -den <= 2 * e <= den
    && (2 * e == den || 2 * e == -den ==> r % 2 == 0)
  }

  /** `num / den` lies exactly halfway between two integers. */
  predicate IsTie(num: int, den: int)
    requires den > 0
  {
    2 * (num % den) == den
  }

  function RoundHalfEven(num: int, den: int): (r: int)
    requires den > 0
    ensures IsRoundHalfEven(num, den, r)
    ensures IsTie(num, den) <==> 2 * (num - r * den) == den || 2 * (num - r * den) == -den
  {
    var q, rem := num / den, num % den;
    QuotientStep(num, den);
    if 2 * rem < den then q
    else if 2 * rem > den then q + 1
    else if q % 2 == 0 then q
    else q + 1
  }

  /** The distances from `num` to the two multiples of `den` around it. */
  lemma QuotientStep(num: int, den: int)
    requires den > 0
    ensures num - (num / den) * den == num % den
    ensures num - (num / den + 1) * den == num % den - den
  {
    MulDiff(num / den + 1, num / den, den);
  }

  lemma MulDiff(a: int, b: int, den: int)
    ensures a * den - b * den == (a - b) * den
  {
  }

  lemma MulAtLeast(k: int, den: int)
    requires den > 0 && k >= 1
    ensures k * den >= den
    ensures k >= 2 ==> k * den >= 2 * den
  {
  }

  /**
    Two integers that are both within half a unit of `num / den` are equal or
    neighbours, and when they are neighbours both are exactly half a unit away.
  */
  lemma NearNeighbours(num: int, den: int, a: int, b: int)
    requires den > 0
    requires -den <= 2 * (num - a * den) <= den
    requires -den <= 2 * (num - b * den) <= den
    ensures -1 <= a - b <= 1
    ensures a == b + 1 ==> 2 * (num - a * den) == -den && 2 * (num - b * den) == den
  {
    MulDiff(a, b, den);
    if a > b {
      MulAtLeast(a - b, den);
    } else if b > a {
      MulDiff(b, a, den);
      MulAtLeast(b - a, den);
    }
  }

  /** Two integers that both meet the rounding conditions for `num / den` are equal. */
  lemma ConditionsUnique(num: int, den: int, r: int, s: int)
    requires den > 0
    requires IsRoundHalfEven(num, den, r) && IsRoundHalfEven(num, den, s)
    ensures r == s
  {
    // neighbours would both be exactly half a unit away, hence both even: impossible
    NearNeighbours(num, den, r, s);
    NearNeighbours(num, den, s, r);
  }

  /** Partner of RoundHalfEven: its conditions determine the rounded value. */
  lemma RoundHalfEvenUnique(num: int, den: int, r: int)
    requires den > 0
    requires IsRoundHalfEven(num, den, r)
    ensures r == RoundHalfEven(num, den)
  {
    ConditionsUnique(num, den, r, RoundHalfEven(num, den));
  }

  /** Rounding never reverses the order of its arguments. */
  lemma RoundHalfEvenMonotone(num1: int, num2: int, den: int)
    requires den > 0 && num1 <= num2
    ensures RoundHalfEven(num1, den) <= RoundHalfEven(num2, den)
  {
    var r1, r2 := RoundHalfEven(num1, den), RoundHalfEven(num2, den);
    if r1 > r2 {
      MulDiff(r1, r2, den);
      MulAtLeast(r1 - r2, den);
      assert false;
    }
  }

  /**
    Adding one whole unit to `num / den` moves a rounded value by exactly one,
    unless `num / den` is a tie, where it moves by zero or two.
  */
  lemma ConditionsShift(num: int, den: int, r: int, s: int)
    requires den > 0
    requires IsRoundHalfEven(num, den, r) && IsRoundHalfEven(num + den, den, s)
    ensures 2 * (num - r * den) != den && 2 * (num - r * den) != -den ==> s == r + 1
    ensures 2 * (num - r * den) == den || 2 * (num - r * den) == -den ==> s == r || s == r + 2
  {
    // s - 1 is as far from num / den as s is from (num + den) / den
    MulDiff(s, s - 1, den);
    NearNeighbours(num, den, r, s - 1);
    NearNeighbours(num, den, s - 1, r);
  }

  /**
    Adding one whole unit to `num / den` adds exactly one to the rounded value,
    except on a tie, where the rounded value moves by zero or two.
  */
  lemma RoundHalfEvenShift(num: int, den: int)
    requires den > 0
    ensures !IsTie(num, den) ==> RoundHalfEven(num + den, den) == RoundHalfEven(num, den) + 1
    ensures IsTie(num, den) ==>
      var d := RoundHalfEven(num + den, den) - RoundHalfEven(num, den);
      d == 0 || d == 2
  {
    ConditionsShift(num, den, RoundHalfEven(num, den), RoundHalfEven(num + den, den));
  }
}
