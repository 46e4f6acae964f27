/** Decimal text and JavaScript numbers, as the nodeset code uses them: digit runs, `parseInt`,
    `toString().padStart` and additions rounded to the nearest double. */
module Decimal {

  predicate IsDigit(c: char) {
    '0' <= c <= '9'
  }

  predicate AllDigits(s: string) {
    forall i | 0 <= i < |s| :: IsDigit(s[i])
  }

  predicate NoDigits(s: string) {
    forall i | 0 <= i < |s| :: !IsDigit(s[i])
  }

  function DigitOf(n: nat): (c: char)
    requires n < 10
    ensures IsDigit(c) && DigitValue(c) == n
  {
    '0' + n as char
  }

  function DigitValue(c: char): (n: nat)
    requires IsDigit(c)
    ensures n < 10 && '0' + n as char == c
  {
    (c - '0') as nat
  }

  /** The integer a digit string denotes. */
  function Value(s: string): nat
    requires AllDigits(s)
  {
    if s == "" then 0 else 10 * Value(s[..|s| - 1]) + DigitValue(s[|s| - 1])
  }

  /** Number.prototype.toString for an exact non-negative integer. */
  function Show(n: nat): (s: string)
    ensures s != "" && AllDigits(s)
  {
    if n < 10 then [DigitOf(n)] else Show(n / 10) + [DigitOf(n % 10)]
  }

  /** s.padStart(width, '0') */
  function PadStart(s: string, width: nat): (r: string)
    ensures |r| == if |s| < width then width else |s|
  {
    if |s| < width then Zeros(width - |s|) + s else s
  }

  function Zeros(n: nat): (s: string)
    ensures |s| == n && forall i | 0 <= i < n :: s[i] == '0'
  {
    seq(n, _ => '0')
  }

  lemma {:induction false} PadOnRight(n: nat, d: nat, width: nat)
    requires 0 < n && d < 10
    requires |Show(n)| <= width
    ensures PadStart(Show(10 * n + d), width + 1) == PadStart(Show(n), width) + [DigitOf(d)]
  {
    assert (10 * n + d) / 10 == n && (10 * n + d) % 10 == d;
    assert Show(10 * n + d) == Show(n) + [DigitOf(d)];
    var zeros := Zeros(width - |Show(n)|);
    if |Show(n)| < width {
      assert zeros + (Show(n) + [DigitOf(d)]) == (zeros + Show(n)) + [DigitOf(d)];
    }
  }

  lemma {:induction false} ShowLength(s: string)
    requires s != "" && AllDigits(s)
    ensures |Show(Value(s))| <= |s|
  {
    var front := s[..|s| - 1];
    var d := DigitValue(s[|s| - 1]);
    if front != "" {
      ShowLength(front);
      var n := Value(front);
      assert (10 * n + d) / 10 == n;
    }
  }

  lemma PadOfZero(d: nat, width: nat)
    requires d < 10 && 0 < width
    ensures PadStart(Show(d), width + 1) == PadStart(Show(0), width) + [DigitOf(d)]
  {
    assert Zeros(width) == Zeros(width - 1) + "0";
    assert Show(0) == "0" && Show(d) == [DigitOf(d)];
  }

  /** Printing a parsed digit string back at its own width restores it, leading zeros included. */
  lemma {:induction false} PadOfValue(s: string)
    requires s != "" && AllDigits(s)
    ensures PadStart(Show(Value(s)), |s|) == s
  {
    var front := s[..|s| - 1];
    var d := DigitValue(s[|s| - 1]);
    assert s == front + [DigitOf(d)];
    if front == "" {
      assert Value(s) == d;
    } else {
      PadOfValue(front);
      ShowLength(front);
      if Value(front) == 0 {
        PadOfZero(d, |front|);
      } else {
        PadOnRight(Value(front), d, |front|);
      }
    }
  }

  function Pow10(k: nat): (p: nat)
    ensures p > 0
  {
    if k == 0 then 1 else 10 * Pow10(k - 1)
  }

  const MAX_EXACT: nat := 0x20_0000_0000_0000 // 2^53: below it every integer is a double

  /** The gap between neighbouring doubles around n. */
  function Spacing(n: nat): (q: nat)
    ensures q > 0
  {
    if n < MAX_EXACT then 1 else 2 * Spacing(n / 2)
  }

  /** The multiple of q nearest to n, ties to the even multiple. */
  function RoundHalfEven(n: nat, q: nat): nat
    requires q > 0
  {
    var down := n / q;
    var rest := n % q;
    if 2 * rest < q || (2 * rest == q && down % 2 == 0) then n - rest else n - rest + q
  }

  /** The double nearest to n, ties to the even significand. */
  function ToDouble(n: nat): (r: nat)
    ensures n < MAX_EXACT ==> r == n
  {
    if n < MAX_EXACT then n else RoundHalfEven(n, Spacing(n))
  }

  /** parseInt on a digit string. */
  function ParseInt(s: string): (r: nat)
    requires AllDigits(s)
  {
    ToDouble(Value(s))
  }

  /** A number below 2^53 is read exactly, and so is the number after it. */
  lemma BelowMaxExact(s: string)
    requires AllDigits(s) && Value(s) < MAX_EXACT
    ensures ParseInt(s) == Value(s)
    ensures ToDouble(Value(s) + 1) == Value(s) + 1
  {
    hide Value, ToDouble;
    ExactUpToMax(Value(s) + 1);
  }

  lemma {:induction false} ValueAppend(s: string, t: string)
    requires AllDigits(s) && AllDigits(t)
    ensures Value(s + t) == Value(s) * Pow10(|t|) + Value(t)
  {
    if t == "" {
      assert s + t == s;
    } else {
      var front := t[..|t| - 1];
      ValueAppend(s, front);
      assert (s + t)[..|s + t| - 1] == s + front;
      ShiftDigit(Value(s), Pow10(|front|), Value(front), DigitValue(t[|t| - 1]));
    }
  }

  lemma ShiftDigit(v: nat, p: nat, w: nat, d: nat)
    ensures 10 * (v * p + w) + d == v * (10 * p) + (10 * w + d)
  {
  }

  lemma FourDigits(a: char, b: char, c: char, d: char)
    requires IsDigit(a) && IsDigit(b) && IsDigit(c) && IsDigit(d)
    ensures Value([a, b, c, d]) == 1000 * DigitValue(a) + 100 * DigitValue(b) + 10 * DigitValue(c) + DigitValue(d)
    ensures Pow10(4) == 10000
  {
    assert [a][..0] == "";
    assert Value([a]) == DigitValue(a);
    assert [a, b][..1] == [a];
    assert Value([a, b]) == 10 * DigitValue(a) + DigitValue(b);
    assert [a, b, c][..2] == [a, b];
    assert Value([a, b, c]) == 10 * Value([a, b]) + DigitValue(c);
    assert [a, b, c, d][..3] == [a, b, c];
    assert Pow10(2) == 100;
  }

  lemma SixteenDigits(a: string, b: string, c: string, d: string)
    requires |a| == |b| == |c| == |d| == 4 && AllDigits(a) && AllDigits(b) && AllDigits(c) && AllDigits(d)
    ensures AllDigits(a + b + c + d)
    ensures Value(a + b + c + d) == ((Value(a) * 10000 + Value(b)) * 10000 + Value(c)) * 10000 + Value(d)
  {
    assert Pow10(4) == 10000;
    hide Value, Pow10;
    ValueAppend(a, b);
    ValueAppend(a + b, c);
    ValueAppend(a + b + c, d);
  }

  /** The digits around 2^53 share all but their last four. */
  lemma NearMaxExact(d: string)
    requires |d| == 4 && AllDigits(d)
    ensures AllDigits("900719925474" + d) && Value("900719925474" + d) == 9007199254740000 + Value(d)
  {
    FourDigits('9', '0', '0', '7');
    FourDigits('1', '9', '9', '2');
    FourDigits('5', '4', '7', '4');
    hide *;
    SixteenDigits("9007", "1992", "5474", d);
    assert "9007" + "1992" + "5474" + d == "900719925474" + d;
  }

  lemma LastFour(c: char)
    requires IsDigit(c)
    ensures AllDigits(['0', '9', '9', c]) && Value(['0', '9', '9', c]) == 990 + DigitValue(c)
  {
    FourDigits('0', '9', '9', c);
    hide Value;
  }

  /** 2^53 and 2^53 + 1 are the same double. */
  lemma NeighboursCollide()
    ensures AllDigits("9007199254740991") && Value("9007199254740991") == MAX_EXACT - 1
    ensures AllDigits("9007199254740992") && Value("9007199254740992") == MAX_EXACT
    ensures AllDigits("9007199254740993") && Value("9007199254740993") == MAX_EXACT + 1
    ensures ToDouble(MAX_EXACT) == MAX_EXACT == ToDouble(MAX_EXACT + 1)
  {
    hide Value, AllDigits, Spacing;
    LastFour('1');
    LastFour('2');
    LastFour('3');
    NearMaxExact("0991");
    NearMaxExact("0992");
    NearMaxExact("0993");
    assert "900719925474" + "0991" == "9007199254740991";
    assert "900719925474" + "0992" == "9007199254740992";
    assert "900719925474" + "0993" == "9007199254740993";
    SpacingAtMax();
  }

  lemma SpacingAtMax()
    ensures Spacing(MAX_EXACT) == 2 && Spacing(MAX_EXACT + 1) == 2
  {
    assert Spacing(MAX_EXACT / 2) == 1;
  }

  lemma ExactUpToMax(n: nat)
    requires n <= MAX_EXACT
    ensures ToDouble(n) == n
  {
    SpacingAtMax();
  }
}
