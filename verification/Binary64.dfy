/** Multiplying by 0.45 in binary64 and truncating, as the program does for its timeouts. */
module Binary64 {
  const TWO_49: nat := 0x2_0000_0000_0000
  const TWO_52: nat := 0x10_0000_0000_0000
  const TWO_53: nat := 0x20_0000_0000_0000
  const TWO_54: nat := 0x40_0000_0000_0000
  const TWO_64: nat := 0x1_0000_0000_0000_0000

  /** The significand of the binary64 number nearest to 0.45, which is `POINT_45 / 2^54`. */
  const POINT_45: nat := 8106479329266893

  /** The unit in the last place: the power of two that leaves a significand of at most 53 bits. */
  function Ulp(p: nat): (u: nat)
    ensures u >= 1 && p < TWO_53 * u
    ensures u == 1 || TWO_52 * u <= p
  {
    if p < TWO_53 then 1 else 2 * Ulp(p / 2)
  }

  /** Round to nearest, ties to even (IEEE 754-2008, section 4.3.1), of a value in units that never underflow. */
  function Round(p: nat): nat {
    RoundTo(p, Ulp(p))
  }

  /** The nearest multiple of `u`, the even one of two. */
  function RoundTo(p: nat, u: nat): nat
    requires u >= 1
  {
    Multiple(p, u) * u
  }

  function Multiple(p: nat, u: nat): nat
    requires u >= 1
  {
    var q, rest := p / u, p % u;
    if 2 * rest < u || (2 * rest == u && q % 2 == 0) then q else q + 1
  }

  /** `((x as f64) * 0.45) as` integer. */
  function Times45(x: nat): nat {
    Round(Round(x) * POINT_45) / TWO_54
  }

  // ---- rounding ----------------------------------------------------------------------------

  /** No significand of 53 bits is nearer to 9/20 at this exponent: the constant is off by at most half a unit. */
  lemma Point45IsNearest()
    ensures -10 <= 20 * POINT_45 - 9 * TWO_54 <= 10 && TWO_52 <= POINT_45 < TWO_53
  {
  }

  lemma Scale(a: nat, b: nat, u: nat)
    requires a <= b
    ensures a * u <= b * u
  {
  }

  /** Rounding never crosses a multiple of the unit: it is monotone across representable values and fixes them. */
  lemma RoundStays(p: nat, u: nat, k: nat)
    requires u >= 1
    ensures k * u <= p ==> k * u <= RoundTo(p, u)
    ensures p <= k * u ==> RoundTo(p, u) <= k * u
  {
    var q := p / u;
    if k <= q {
      Scale(k, q, u);
      RoundToIs(p, u);
    } else {
      Scale(q + 1, k, u);
      RoundToIs(p, u);
    }
  }

  lemma RoundToIs(p: nat, u: nat)
    requires u >= 1
    ensures var q := p / u;
            q * u <= p < (q + 1) * u == q * u + u && q * u <= RoundTo(p, u) <= (q + 1) * u
    ensures p == (p / u) * u ==> RoundTo(p, u) == p
    ensures 2 * (RoundTo(p, u) - p) <= u && 2 * (p - RoundTo(p, u)) <= u
    ensures 2 * (p % u) == u ==> exists k: nat :: k % 2 == 0 && RoundTo(p, u) == k * u
  {
    var q, rest := p / u, p % u;
    assert p == q * u + rest;
    assert (q + 1) * u == q * u + u;
  }

  /** Units are powers of two: a larger one is at least twice as large. */
  lemma {:induction false} UlpsDouble(p: nat, q: nat)
    requires p <= q
    ensures Ulp(p) == Ulp(q) || 2 * Ulp(p) <= Ulp(q)
  {
    if p < TWO_53 {
    } else {
      UlpsDouble(p / 2, q / 2);
    }
  }

  /** Rounding is monotone, whatever the two units are. */
  lemma RoundIsMonotone(p: nat, q: nat)
    requires p <= q
    ensures Round(p) <= Round(q)
  {
    hide Ulp, RoundTo;
    var u, v := Ulp(p), Ulp(q);
    UlpsDouble(p, q);
    if u == v {
      RoundToIsMonotone(p, q, u);
    } else {
      RoundStays(p, u, TWO_53);
      RoundStays(q, v, TWO_52);
    }
  }

  lemma RoundToIsMonotone(p: nat, q: nat, u: nat)
    requires u >= 1 && p <= q
    ensures RoundTo(p, u) <= RoundTo(q, u)
  {
    if q / u <= p / u {
      SameQuotient(p, q, u);
    }
    Scale(Multiple(p, u), Multiple(q, u), u);
  }

  lemma SameQuotient(p: nat, q: nat, u: nat)
    requires u >= 1 && p <= q && q / u <= p / u
    ensures p / u == q / u && p % u <= q % u
  {
    Scale(q / u, p / u, u);
    assert p == (p / u) * u + p % u && q == (q / u) * u + q % u;
    if q / u < p / u {
      Scale(q / u + 1, p / u, u);
    }
  }

  /** The relative error of a rounding is at most 2^-53. */
  lemma RoundIsClose(p: nat)
    ensures TWO_53 * (Round(p) - p) <= p
    ensures p < TWO_53 ==> Round(p) == p
  {
    RoundToIs(p, Ulp(p));
  }

  function Pow2(k: nat): nat {
    if k == 0 then 1 else 2 * Pow2(k - 1)
  }

  /** The unit is the power of two that leaves exactly 53 bits. */
  lemma {:induction false} UlpIs(p: nat, k: nat)
    requires TWO_52 * Pow2(k) <= p < TWO_53 * Pow2(k)
    ensures Ulp(p) == Pow2(k)
  {
    if k == 0 {
    } else {
      assert TWO_53 * Pow2(k) == 2 * (TWO_53 * Pow2(k - 1)) && TWO_52 * Pow2(k) == 2 * (TWO_52 * Pow2(k - 1));
      assert Pow2(k) >= 2 by {
        Pow2IsPositive(k - 1);
      }
      UlpIs(p / 2, k - 1);
    }
  }

  lemma {:induction false} Pow2IsPositive(k: nat)
    ensures Pow2(k) >= 1
  {
    if k == 0 {
    } else {
      Pow2IsPositive(k - 1);
    }
  }

  /** A number with `k` more than 53 bits is rounded to a nearest multiple of 2^k, the even one of two. */
  lemma RoundIs(p: nat, k: nat) returns (m: nat)
    requires TWO_52 * Pow2(k) <= p < TWO_53 * Pow2(k)
    ensures Round(p) == m * Pow2(k) && TWO_52 <= m <= TWO_53
    ensures 2 * (Round(p) - p) <= Pow2(k) && 2 * (p - Round(p)) <= Pow2(k)
    ensures 2 * (Round(p) - p) == Pow2(k) || 2 * (p - Round(p)) == Pow2(k) ==> m % 2 == 0
  {
    hide Ulp, Multiple, Pow2;
    UlpIs(p, k);
    Pow2IsPositive(k);
    m := Multiple(p, Pow2(k));
    RoundToIs(p, Pow2(k));
    TiesAreEven(p, Pow2(k));
    Between(TWO_52, p / Pow2(k), p, TWO_53, Pow2(k));
  }

  lemma TiesAreEven(p: nat, u: nat)
    requires u >= 1
    ensures var m := Multiple(p, u);
            && p / u <= m <= p / u + 1
            && (2 * (m * u - p) == u || 2 * (p - m * u) == u ==> m % 2 == 0)
  {
    var q := p / u;
    assert p == q * u + p % u && (q + 1) * u == q * u + u;
  }

  lemma Between(a: nat, q: nat, p: nat, b: nat, u: nat)
    requires u >= 1 && a * u <= p < b * u && q * u <= p < (q + 1) * u
    ensures a <= q < b
  {
    if q < a {
      Scale(q + 1, a, u);
    }
    if b <= q {
      Scale(b, q, u);
    }
  }

  /** A unit below 2^(k+1) divides 2^k. */
  lemma {:induction false} UlpDivides(p: nat, k: nat) returns (d: nat)
    requires Ulp(p) < 2 * Pow2(k)
    ensures Pow2(k) == d * Ulp(p)
    decreases k
  {
    if p < TWO_53 {
      d := Pow2(k);
    } else {
      d := UlpDivides(p / 2, k - 1);
      assert d * (2 * Ulp(p / 2)) == 2 * (d * Ulp(p / 2));
    }
  }

  lemma UlpDividesTwo49(p: nat) returns (d: nat)
    requires p < TWO_49 * TWO_53
    ensures TWO_49 == d * Ulp(p)
  {
    Pow2Is49();
    d := UlpDivides(p, 49);
  }

  lemma Pow2Is49()
    ensures Pow2(49) == TWO_49
  {
    assert Pow2(10) == 1024;
    assert Pow2(20) == 0x10_0000;
    assert Pow2(30) == 0x4000_0000;
    assert Pow2(40) == 0x100_0000_0000;
  }

  // ---- the product with 0.45 -------------------------------------------------------------------

  /** Rounding never crosses a multiple of 2^49 either, as long as the unit is that small. */
  lemma RoundStays49(p: nat, m: nat)
    requires p < TWO_49 * TWO_53
    ensures m * TWO_49 <= p ==> m * TWO_49 <= Round(p)
    ensures p <= m * TWO_49 ==> Round(p) <= m * TWO_49
  {
    var d := UlpDividesTwo49(p);
    Regroup(m, d, Ulp(p));
    RoundStays(p, Ulp(p), m * d);
  }

  lemma Regroup(m: nat, d: nat, u: nat)
    ensures m * (d * u) == (m * d) * u
  {
  }

  /** Up to 2^49 the truncated product is exactly nine twentieths, rounded down. */
  lemma Times45IsExact(x: nat)
    requires x < TWO_49
    ensures Times45(x) == 9 * x / 20
  {
    hide Round;
    var p, q := x * POINT_45, 9 * x / 20;
    RoundIsClose(x);
    RoundStays49(p, 32 * q);
    RoundStays49(p, 32 * q + 31);
  }

  /** Exactness does not go on for ever: here the product is rounded up to a whole number. */
  lemma Times45IsNotAlwaysExact()
    ensures Times45(2251799813685251) == 9 * 2251799813685251 / 20 + 1
  {
    var x := 2251799813685251;
    Pow2Is49();
    assert Pow2(51) == 4 * TWO_49;
    UlpIs(x * POINT_45, 51);
  }

  /** A longer expiry or interval never gets a shorter share. */
  lemma Times45IsMonotone(x: nat, y: nat)
    requires x <= y
    ensures Times45(x) <= Times45(y)
  {
    hide Round;
    RoundIsMonotone(x, y);
    RoundIsMonotone(Round(x) * POINT_45, Round(y) * POINT_45);
  }

  /** For every u64, twice the truncated product stays within the number itself; so it fits an i64. */
  lemma Times45IsUnderHalf(x: nat)
    requires x < TWO_64
    ensures 2 * Times45(x) <= x && Times45(x) < TWO_64 / 2
  {
    hide Round;
    var y := Round(x);
    RoundIsClose(x);
    RoundIsClose(y * POINT_45);
    var n := Round(y * POINT_45);
    assert Times45(x) * TWO_54 <= n;
  }
}
