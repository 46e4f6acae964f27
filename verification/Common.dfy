/** Small shared vocabulary: optional values and two-decimal rounding. */
module Common {

  datatype Option<+T> = None | Some(value: T)

  /** SQL's COALESCE of two values: the new one unless it is null. */
  function Coalesce<T>(latest: Option<T>, stored: Option<T>): Option<T> {
    if latest.Some? then latest else stored
  }

  /** ROUND_HALF_UP to whole hundredths: half moves away from zero. */
  function Hundredths(x: real): (n: int)
    ensures x * 100.0 - 0.5 <= n as real <= x * 100.0 + 0.5
    ensures n > 0 <==> x >= 0.005
  {
    if x >= 0.0 then (x * 100.0 + 0.5).Floor else -(-x * 100.0 + 0.5).Floor
  }

  /** Two-decimal rounding on exact reals. */
  function Round2(x: real): (r: real)
    ensures x - 0.005 <= r <= x + 0.005
    ensures r > 0.0 <==> x >= 0.005
  {
    Hundredths(x) as real / 100.0
  }

  /** The nearest hundredth, the one further from zero when two are as near. */
  lemma RoundsHalfAway(x: real)
    ensures Round2(x) * 100.0 == Hundredths(x) as real
    ensures x >= 0.0 ==> x * 100.0 - 0.5 < Hundredths(x) as real <= x * 100.0 + 0.5
    ensures x < 0.0 ==> x * 100.0 - 0.5 <= Hundredths(x) as real < x * 100.0 + 0.5
  {
    assert x < 0.0 ==> (-x * 100.0 + 0.5).Floor as real > -x * 100.0 - 0.5;
  }

  /** A null metric stays null. */
  function RoundMetric(x: Option<real>): Option<real> {
    if x.Some? then Some(Round2(x.value)) else None
  }

  lemma FloorMonotone(a: real, b: real)
    requires a <= b
    ensures a.Floor <= b.Floor
  {
  }

  lemma HundredthsMonotone(x: real, y: real)
    requires x <= y
    ensures Hundredths(x) <= Hundredths(y)
  {
    if 0.0 <= x {
      FloorMonotone(x * 100.0 + 0.5, y * 100.0 + 0.5);
    } else if y < 0.0 {
      FloorMonotone(-y * 100.0 + 0.5, -x * 100.0 + 0.5);
    }
  }

  lemma Round2Monotone(x: real, y: real)
    requires x <= y
    ensures Round2(x) <= Round2(y)
  {
    HundredthsMonotone(x, y);
  }

  lemma HundredthsExact(n: int)
    ensures Hundredths(n as real / 100.0) == n
  {
    var x := n as real / 100.0;
    assert x * 100.0 == n as real;
    assert n as real - 0.5 <= Hundredths(x) as real <= n as real + 0.5;
    if n >= 0 {
      assert (n as real + 0.5).Floor == n;
    } else {
      assert -x * 100.0 == (-n) as real;
      assert ((-n) as real + 0.5).Floor == -n;
    }
  }

  lemma Round2Idempotent(x: real)
    ensures Round2(Round2(x)) == Round2(x)
  {
    HundredthsExact(Hundredths(x));
  }
}
