/** Counting from one double to another by adding one, as the expansion of a range does: when does it end? */
module DoubleCounting {
  import opened Decimal
  import opened Division

  predicate IsDouble(n: nat) {
    n < MAX_EXACT || n % Spacing(n) == 0
  }

  /** The counter after k rounds. */
  function IndexAt(first: nat, k: nat): nat {
    if k == 0 then first else ToDouble(IndexAt(first, k - 1) + 1)
  }

  /** Whether counting from `first` passes `last`. */
  predicate CountsOut(first: nat, last: nat) {
    first > last || last < MAX_EXACT || (first == last && ToDouble(last + 1) != last)
  }

  // ---------- Doubles ----------

  lemma {:induction false} SpacingRange(n: nat)
    requires n >= MAX_EXACT
    ensures Spacing(n) >= 2 && MAX_EXACT / 2 * Spacing(n) <= n < MAX_EXACT * Spacing(n)
    ensures Spacing(n) % 2 == 0
  {
    if n / 2 >= MAX_EXACT {
      SpacingRange(n / 2);
    }
  }

  /** Everything between the same two powers of two has the same spacing. */
  lemma {:induction false} SpacingBetween(m: nat, r: nat)
    requires m >= MAX_EXACT && MAX_EXACT / 2 * Spacing(m) <= r < MAX_EXACT * Spacing(m)
    ensures Spacing(r) == Spacing(m)
  {
    if m / 2 >= MAX_EXACT {
      SpacingRange(m / 2);
      SpacingBetween(m / 2, r / 2);
      assert r >= MAX_EXACT;
    } else {
      assert Spacing(m / 2) == 1;
      assert Spacing(m) == 2;
      assert r >= MAX_EXACT && r / 2 < MAX_EXACT;
      assert Spacing(r / 2) == 1;
    }
  }

  lemma Multiple(q: nat, d: nat)
    requires q > 0
    ensures (q * d) % q == 0
  {
    DivisionIsUnique(q * d, q, d, 0);
  }

  /** Rounding gives one of the two multiples around n. */
  lemma Rounded(n: nat, q: nat)
    requires q > 0
    ensures RoundHalfEven(n, q) == q * (n / q) || RoundHalfEven(n, q) == q * (n / q + 1)
  {
    assert n == q * (n / q) + n % q;
    assert q * (n / q + 1) == q * (n / q) + q;
  }

  lemma QuotientBelow(n: nat, q: nat, m: nat)
    requires q > 0 && n < m * q
    ensures n / q + 1 <= m
  {
    assert n == q * (n / q) + n % q;
    AtLeastOnce(q, n / q - m);
    assert q * (n / q - m) == q * (n / q) - m * q;
  }

  lemma Ordered(q: nat, a: nat, b: nat)
    requires a <= b
    ensures q * a <= q * b
  {
  }

  lemma QuotientAbove(n: nat, q: nat, m: nat)
    requires q > 0 && m * q <= n
    ensures m <= n / q
  {
    assert n == q * (n / q) + n % q;
    AtLeastOnce(q, n / q - m);
    assert q * (n / q - m) == q * (n / q) - m * q;
  }

  /** Twice a spacing divides where the next power of two begins. */
  lemma TopIsDouble(q: nat)
    requires q >= 2 && Spacing(MAX_EXACT * q) == 2 * q
    ensures (MAX_EXACT * q) % Spacing(MAX_EXACT * q) == 0
  {
    Multiple(2 * q, MAX_EXACT / 2);
    assert 2 * q * (MAX_EXACT / 2) == MAX_EXACT * q;
  }

  lemma {:induction false} SpacingAtTop(m: nat)
    requires m >= MAX_EXACT
    ensures Spacing(MAX_EXACT * Spacing(m)) == 2 * Spacing(m)
  {
    if m / 2 >= MAX_EXACT {
      SpacingAtTop(m / 2);
      var q := Spacing(m / 2);
      assert Spacing(m) == 2 * q;
      assert MAX_EXACT * (2 * q) / 2 == MAX_EXACT * q;
    } else {
      assert Spacing(m / 2) == 1 && Spacing(m) == 2;
      assert Spacing(MAX_EXACT) == 2 by { SpacingAtMax(); }
    }
  }

  lemma MultipleIsDouble(n: nat, d: nat)
    requires n >= MAX_EXACT && MAX_EXACT / 2 <= d < MAX_EXACT
    ensures IsDouble(Spacing(n) * d)
  {
    var q := Spacing(n);
    Multiple(q, d);
    Ordered(q, MAX_EXACT / 2, d);
    Ordered(q, d + 1, MAX_EXACT);
    assert q * (d + 1) == q * d + q;
    hide Spacing;
    SpacingBetween(n, q * d);
  }

  lemma TopMultipleIsDouble(n: nat)
    requires n >= MAX_EXACT
    ensures IsDouble(Spacing(n) * MAX_EXACT)
  {
    SpacingRange(n);
    SpacingAtTop(n);
    hide Spacing;
    TopIsDouble(Spacing(n));
    assert Spacing(n) * MAX_EXACT == MAX_EXACT * Spacing(n);
  }

  lemma RoundedIsDouble(n: nat)
    ensures IsDouble(ToDouble(n))
  {
    if n >= MAX_EXACT {
      hide Spacing, RoundHalfEven, IsDouble;
      var q := Spacing(n);
      SpacingRange(n);
      Rounded(n, q);
      var d := if ToDouble(n) == q * (n / q) then n / q else n / q + 1;
      QuotientBelow(n, q, MAX_EXACT);
      QuotientAbove(n, q, MAX_EXACT / 2);
      if d < MAX_EXACT {
        MultipleIsDouble(n, d);
      } else {
        TopMultipleIsDouble(n);
      }
    }
  }

  function Distance(a: int, b: int): nat {
    if a < b then b - a else a - b
  }

  lemma MultipleApart(q: nat, down: nat, d: nat)
    requires q > 0
    ensures q * d <= q * down || q * d >= q * down + q
  {
    if d <= down {
      Ordered(q, d, down);
    } else {
      Ordered(q, down + 1, d);
      assert q * (down + 1) == q * down + q;
    }
  }

  /** r is one of the two neighbours low and low + q of n, at most half of q away. */
  predicate HalfWay(n: nat, q: nat, low: nat, r: nat) {
    low <= n < low + q && (r == low || r == low + q) && 2 * Distance(r, n) <= q
  }

  /** The rounded number is a multiple of q at most half of q away, the even one when both are that far. */
  lemma HalfAway(n: nat, q: nat)
    requires q > 0
    ensures var r := RoundHalfEven(n, q);
            HalfWay(n, q, q * (n / q), r) && (2 * Distance(r, n) == q ==> r / q % 2 == 0)
  {
    var down, rest := n / q, n % q;
    assert n == q * down + rest;
    DivisionIsUnique(q * down, q, down, 0);
    assert q * (down + 1) == q * down + q;
    DivisionIsUnique(q * (down + 1), q, down + 1, 0);
  }

  lemma NearerThan(n: nat, r: nat, x: nat, low: nat, q: nat)
    requires HalfWay(n, q, low, r) && (x <= low || x >= low + q)
    ensures Distance(r, n) <= Distance(x, n)
  {
  }

  /** No multiple of q is nearer than the rounded one. */
  lemma RoundsToNearest(n: nat, q: nat, d: nat, x: nat)
    requires q > 0 && x == q * d
    ensures Distance(RoundHalfEven(n, q), n) <= Distance(x, n)
  {
    hide RoundHalfEven, Distance, HalfWay;
    HalfAway(n, q);
    MultipleApart(q, n / q, d);
    NearerThan(n, RoundHalfEven(n, q), x, q * (n / q), q);
  }

  /** Doubles around n are multiples of its spacing, or lie beyond one of the two powers of two around n. */
  lemma DoublesAround(n: nat, d: nat)
    requires n >= MAX_EXACT && IsDouble(d)
    ensures var q := Spacing(n);
            d < MAX_EXACT / 2 * q || d >= MAX_EXACT * q || d == q * (d / q)
  {
    var q := Spacing(n);
    SpacingRange(n);
    if MAX_EXACT / 2 * q <= d < MAX_EXACT * q {
      SpacingBetween(n, d);
      assert d >= MAX_EXACT;
      hide Spacing;
      QuotientOfDouble(d);
    }
  }

  lemma NearestOfAll(n: nat, r: nat, d: nat, low: nat, high: nat)
    requires low <= n < high && (d < low || d >= high)
    requires Distance(r, n) <= Distance(low, n) && Distance(r, n) <= Distance(high, n)
    ensures Distance(r, n) <= Distance(d, n)
  {
  }

  lemma PowerIsFurther(n: nat, q: nat, a: nat)
    requires q > 0
    ensures Distance(RoundHalfEven(n, q), n) <= Distance(a * q, n)
  {
    hide RoundHalfEven, Distance;
    Commute(a, q);
    RoundsToNearest(n, q, a, a * q);
  }

  lemma Commute(a: nat, b: nat)
    ensures a * b == b * a
  {
  }

  /** What is nearest among the multiples of the spacing is nearest among all doubles. */
  lemma RoundedIsNearest(n: nat, d: nat)
    requires n >= MAX_EXACT && IsDouble(d)
    ensures Distance(RoundHalfEven(n, Spacing(n)), n) <= Distance(d, n)
  {
    hide Spacing, IsDouble, RoundHalfEven, Distance;
    var q := Spacing(n);
    var low, high := MAX_EXACT / 2 * q, MAX_EXACT * q;
    SpacingRange(n);
    DoublesAround(n, d);
    PowerIsFurther(n, q, MAX_EXACT / 2);
    PowerIsFurther(n, q, MAX_EXACT);
    if d < low || d >= high {
      NearestOfAll(n, RoundHalfEven(n, q), d, low, high);
    } else {
      RoundsToNearest(n, q, d / q, d);
    }
  }

  /** Reading a number gives the nearest double, of two as near the one with the even significand. */
  lemma ToDoubleIsNearest(n: nat, d: nat)
    requires IsDouble(d)
    ensures IsDouble(ToDouble(n)) && Distance(ToDouble(n), n) <= Distance(d, n)
    ensures n >= MAX_EXACT && 2 * Distance(ToDouble(n), n) == Spacing(n) ==> ToDouble(n) / Spacing(n) % 2 == 0
  {
    hide Spacing, IsDouble, RoundHalfEven, Distance;
    RoundedIsDouble(n);
    if n >= MAX_EXACT {
      RoundedIsNearest(n, d);
      HalfAway(n, Spacing(n));
    } else {
      ZeroDistance(n);
    }
  }

  lemma ZeroDistance(n: nat)
    ensures Distance(n, n) == 0
  {
  }

  // ---------- Counting ----------

  lemma EvenSpacing(n: nat)
    requires n % 2 == 0 && n >= MAX_EXACT
    ensures Spacing(n + 1) == Spacing(n)
  {
    assert (n + 1) / 2 == n / 2;
  }

  lemma DoubleIsEven(n: nat)
    requires IsDouble(n) && n >= MAX_EXACT
    ensures n % 2 == 0
  {
    SpacingRange(n);
    QuotientOfDouble(n);
    hide Spacing, IsDouble;
    EvenProduct(Spacing(n), n / Spacing(n));
  }

  lemma EvenProduct(q: nat, d: nat)
    requires q % 2 == 0
    ensures q * d % 2 == 0
  {
    assert q * d == 2 * (q / 2 * d);
  }

  lemma MultipleOfFour(n: nat, d: nat)
    requires n == 2 * d
    ensures n % 4 == 0 <==> d % 2 == 0
    ensures n % 4 == 0 || (n + 2) % 4 == 0
  {
  }

  /** One past a multiple rounds back to it, or to the next one when that is even and just two away. */
  lemma RoundOnePast(n: nat, q: nat, d: nat)
    requires q >= 2 && q % 2 == 0 && n == q * d
    ensures q > 2 ==> RoundHalfEven(n + 1, q) == n
    ensures q == 2 ==> RoundHalfEven(n + 1, q) == if n % 4 == 0 then n else n + 2
    ensures q == 2 ==> n % 4 == 0 || (n + 2) % 4 == 0
  {
    DivisionIsUnique(n + 1, q, d, 1);
    if q == 2 {
      MultipleOfFour(n, d);
    }
  }

  lemma QuotientOfDouble(n: nat)
    requires IsDouble(n) && n >= MAX_EXACT
    ensures n == Spacing(n) * (n / Spacing(n))
  {
    hide Spacing;
  }

  lemma StepIsRounded(n: nat)
    requires IsDouble(n) && n >= MAX_EXACT
    ensures ToDouble(n + 1) == RoundHalfEven(n + 1, Spacing(n))
  {
    DoubleIsEven(n);
    EvenSpacing(n);
    hide Spacing, RoundHalfEven;
  }

  /** One step from a double past 2^53 moves only where the spacing is two, and then to a multiple of four. */
  lemma OneStep(n: nat)
    requires IsDouble(n) && n >= MAX_EXACT
    ensures var next := ToDouble(n + 1);
            next == n || (Spacing(n) == 2 && next == n + 2 && next % 4 == 0)
    ensures Spacing(n) == 2 && n % 4 == 0 ==> ToDouble(n + 1) == n
  {
    StepIsRounded(n);
    SpacingRange(n);
    QuotientOfDouble(n);
    hide Spacing, ToDouble, RoundHalfEven, IsDouble;
    RoundOnePast(n, Spacing(n), n / Spacing(n));
  }

  /** After one step the counter never moves again. */
  lemma StuckAfterStep(n: nat)
    requires IsDouble(n) && n >= MAX_EXACT
    ensures var next := ToDouble(n + 1); ToDouble(next + 1) == next
  {
    OneStep(n);
    var next := ToDouble(n + 1);
    RoundedIsDouble(n + 1);
    hide Spacing, ToDouble, IsDouble;
    OneStep(next);
  }

  lemma {:induction false} IndexBelowMax(first: nat, k: nat)
    requires first + k <= MAX_EXACT
    ensures IndexAt(first, k) == first + k
  {
    if k > 0 {
      IndexBelowMax(first, k - 1);
      ExactUpToMax(first + k);
    }
  }

  lemma {:induction false} IndexStopsAtMax(first: nat, k: nat)
    requires first < MAX_EXACT
    ensures IndexAt(first, k) <= MAX_EXACT
  {
    if k > 0 {
      IndexStopsAtMax(first, k - 1);
      ExactUpToMax(IndexAt(first, k - 1));
      NeighboursCollide();
      hide IndexAt;
      if IndexAt(first, k - 1) < MAX_EXACT {
        ExactUpToMax(IndexAt(first, k - 1) + 1);
      }
    }
  }

  lemma {:induction false} IndexSettles(first: nat, k: nat)
    requires IsDouble(first) && first >= MAX_EXACT && k >= 1
    ensures IndexAt(first, k) == ToDouble(first + 1)
  {
    hide ToDouble, IsDouble;
    if k > 1 {
      IndexSettles(first, k - 1);
      StuckAfterStep(first);
    } else {
      assert IndexAt(first, 0) == first;
    }
  }

  lemma StepWithin(first: nat, last: nat)
    requires IsDouble(first) && IsDouble(last) && MAX_EXACT <= first < last
    ensures ToDouble(first + 1) <= last
  {
    OneStep(first);
    DoubleIsEven(first);
    DoubleIsEven(last);
  }

  lemma NeverPasses(first: nat, last: nat, k: nat)
    requires IsDouble(first) && IsDouble(last) && !CountsOut(first, last)
    ensures IndexAt(first, k) <= last
  {
    hide ToDouble, IsDouble;
    if first < MAX_EXACT {
      IndexStopsAtMax(first, k);
    } else if k > 0 {
      IndexSettles(first, k);
      if first < last {
        StepWithin(first, last);
      }
    }
  }

  /** Between doubles, counting up by one passes the last exactly when there is nothing to count, the last is
      below 2^53, or the only number is one that the first step leaves behind. */
  lemma CountEndsIff(first: nat, last: nat)
    requires IsDouble(first) && IsDouble(last)
    ensures CountsOut(first, last) <==> exists k: nat :: IndexAt(first, k) > last
  {
    if CountsOut(first, last) {
      if first > last {
        assert IndexAt(first, 0) > last;
      } else if last < MAX_EXACT {
        IndexBelowMax(first, last - first + 1);
        assert IndexAt(first, last - first + 1) > last;
      } else {
        OneStep(last);
        IndexSettles(first, 1);
        assert IndexAt(first, 1) > last;
      }
    } else {
      forall k: nat ensures IndexAt(first, k) <= last {
        NeverPasses(first, last, k);
      }
    }
  }
}
