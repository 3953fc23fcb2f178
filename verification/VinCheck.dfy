/**
  The VIN check digit: a weighted sum modulo 11 compared with position 9.  The
  theorems say exactly which slips it catches.
*/
module VinCheck {
  import opened Options

  const LENGTH: nat := 17
  const CHECK: nat := 8   // position 9, counted from zero
  const WEIGHTS: seq<int> := [8, 7, 6, 5, 4, 3, 2, 10, 0, 9, 8, 7, 6, 5, 4, 3, 2]

  /** I, O and Q are never used. */
  function Transliterate(c: char): Option<nat> {
    if '0' <= c <= '9' then Some((c - '0') as nat)
    else if c == 'A' || c == 'J' then Some(1)
    else if c == 'B' || c == 'K' || c == 'S' then Some(2)
    else if c == 'C' || c == 'L' || c == 'T' then Some(3)
    else if c == 'D' || c == 'M' || c == 'U' then Some(4)
    else if c == 'E' || c == 'N' || c == 'V' then Some(5)
    else if c == 'F' || c == 'W' then Some(6)
    else if c == 'G' || c == 'P' || c == 'X' then Some(7)
    else if c == 'H' || c == 'Y' then Some(8)
    else if c == 'R' || c == 'Z' then Some(9)
    else None
  }

  function Value(c: char): nat { Transliterate(c).GetOr(0) }

  ghost predicate Readable(vin: string) { forall i :: 0 <= i < |vin| ==> Transliterate(vin[i]).Some? }

  /** Sum of the first `n` values, each times the weight of its position. */
  function Sum(vin: string, weights: seq<int>, n: nat): int
    requires n <= |vin| == |weights|
  {
    if n == 0 then 0 else Sum(vin, weights, n - 1) + Value(vin[n - 1]) * weights[n - 1]
  }

  function Total(vin: string): int
    requires |vin| == LENGTH
  {
    Sum(vin, WEIGHTS, |vin|)
  }

  function Expected(remainder: nat): char
    requires remainder < 11
  {
    if remainder == 10 then 'X' else '0' + remainder as char
  }

  ghost predicate Passes(vin: string)
    requires |vin| == LENGTH
  {
    Readable(vin) && vin[CHECK] == Expected(Total(vin) % 11)
  }

  lemma {:induction false} TotalSpelledOut(v: string)
    requires |v| == LENGTH
    ensures Total(v)
         == 8 * Value(v[0]) + 7 * Value(v[1]) + 6 * Value(v[2]) + 5 * Value(v[3]) + 4 * Value(v[4]) + 3 * Value(v[5])
            + 2 * Value(v[6]) + 10 * Value(v[7]) + 9 * Value(v[9]) + 8 * Value(v[10]) + 7 * Value(v[11])
            + 6 * Value(v[12]) + 5 * Value(v[13]) + 4 * Value(v[14]) + 3 * Value(v[15]) + 2 * Value(v[16])
  {
    SumOfTerms(v, WEIGHTS);
  }

  lemma {:induction false} SumOfTerms(v: string, w: seq<int>)
    requires |v| == |w| == LENGTH
    ensures Sum(v, w, LENGTH)
         == Term(v, w, 0) + Term(v, w, 1) + Term(v, w, 2) + Term(v, w, 3) + Term(v, w, 4) + Term(v, w, 5)
            + Term(v, w, 6) + Term(v, w, 7) + Term(v, w, 8) + Term(v, w, 9) + Term(v, w, 10) + Term(v, w, 11)
            + Term(v, w, 12) + Term(v, w, 13) + Term(v, w, 14) + Term(v, w, 15) + Term(v, w, 16)
  {
    SumFour(v, w, 0);
    SumFour(v, w, 4);
    SumFour(v, w, 8);
    SumFour(v, w, 12);
    SumOne(v, w, 16);
  }

  function Term(v: string, w: seq<int>, n: nat): int
    requires n < |v| == |w|
  {
    w[n] * Value(v[n])
  }

  lemma {:induction false} SumOne(v: string, w: seq<int>, n: nat)
    requires n < |v| == |w|
    ensures Sum(v, w, n + 1) == Sum(v, w, n) + Term(v, w, n)
  {}

  lemma {:induction false} SumFour(v: string, w: seq<int>, n: nat)
    requires n + 4 <= |v| == |w|
    ensures Sum(v, w, n + 4)
         == Sum(v, w, n) + Term(v, w, n) + Term(v, w, n + 1) + Term(v, w, n + 2) + Term(v, w, n + 3)
  {
    SumOne(v, w, n);
    SumOne(v, w, n + 1);
    SumOne(v, w, n + 2);
    SumOne(v, w, n + 3);
  }

  /** What the check character stands for: the digit, or ten for X. */
  function Stands(c: char): Option<int> {
    if c == 'X' then Some(10) else if '0' <= c <= '9' then Some(c as int - '0' as int) else None
  }

  /** Said of the sum alone: less what the check character stands for, it is a multiple of eleven. */
  ghost predicate ChecksOut(vin: string)
    requires |vin| == LENGTH
  {
    Readable(vin) && Stands(vin[8]).Some? && (Total(vin) - Stands(vin[8]).value) % 11 == 0
  }

  lemma {:induction false} PassesChecksOut(vin: string)
    requires |vin| == LENGTH
    ensures Passes(vin) <==> ChecksOut(vin)
  {
    var c, r := vin[CHECK], Total(vin) % 11;
    if Stands(c).Some? {
      LessIsMultiple(Total(vin), Stands(c).value);
      assert c == Expected(r) <==> r == Stands(c).value;
    }
  }

  lemma {:induction false} LessIsMultiple(a: int, b: int)
    requires 0 <= b < 11
    ensures (a - b) % 11 == 0 <==> a % 11 == b
  {}

  /** The values run through the alphabet in three rows, each starting over; the last starts at two. */
  lemma {:induction false} TransliterateByRow(c: char)
    ensures Transliterate(c)
         == if '0' <= c <= '9' then Some(c as int - '0' as int)
            else if 'A' <= c <= 'H' then Some(c as int - 'A' as int + 1)
            else if 'J' <= c <= 'R' && c != 'O' && c != 'Q' then Some(c as int - 'J' as int + 1)
            else if 'S' <= c <= 'Z' then Some(c as int - 'S' as int + 2)
            else None
  {}

  /** The weights fall by one on either side of the check position, which has none; the one before it has ten. */
  lemma {:induction false} WeightsByPosition(i: nat)
    requires i < LENGTH
    ensures |WEIGHTS| == LENGTH
    ensures WEIGHTS[i] == if i < 7 then 8 - i else if i == 7 then 10 else if i == 8 then 0 else 18 - i
  {}

  method CheckDigitValid(vin: string) returns (valid: bool)
    requires |vin| == LENGTH
    ensures valid <==> Passes(vin)
    ensures valid <==> ChecksOut(vin)
  {
    var sum := 0;
    for i := 0 to |vin|
      invariant sum == Sum(vin, WEIGHTS, i) && forall j :: 0 <= j < i ==> Transliterate(vin[j]).Some?
    {
      match Transliterate(vin[i])
      case Some(value) => sum := sum + value * WEIGHTS[i];
      case None => return false;
    }
    valid := vin[CHECK] == Expected(sum % 11);
    PassesChecksOut(vin);
  }

  lemma {:induction false} SumAfterChange(vin: string, ws: seq<int>, i: nat, c: char, n: nat)
    requires i < |vin| == |ws| && n <= |vin|
    ensures Sum(vin[i := c], ws, n) == Sum(vin, ws, n) + if i < n then (Value(c) - Value(vin[i])) * ws[i] else 0
    decreases n
  {
    if n > 0 {
      SumAfterChange(vin, ws, i, c, n - 1);
      if n - 1 == i { Difference(Value(c), Value(vin[i]), ws[i]); }
    }
  }

  lemma {:induction false} Difference(a: int, b: int, w: int)
    ensures a * w == b * w + (a - b) * w
  {}

  lemma {:induction false} ExpectedIsInjective(r: nat, q: nat)
    requires r < 11 && q < 11
    ensures Expected(r) == Expected(q) <==> r == q
  {}

  /** Away from the check position, a one-character slip is missed exactly when the values agree. */
  lemma {:induction false} SingleSlip(vin: string, i: nat, c: char)
    requires |vin| == LENGTH && i < LENGTH && i != CHECK && Passes(vin)
    ensures Passes(vin[i := c]) <==> Transliterate(c) == Transliterate(vin[i])
  {
    var vin' := vin[i := c];
    SumAfterChange(vin, WEIGHTS, i, c, |vin|);
    var s, s' := Total(vin), Total(vin');
    ExpectedIsInjective(s % 11, s' % 11);
    if Transliterate(c).Some? {
      SameRemainder(s, s', Value(c) - Value(vin[i]), WEIGHTS[i]);
      assert Readable(vin') by {
        forall j | 0 <= j < |vin'| ensures Transliterate(vin'[j]).Some? {}
      }
    } else {
      assert vin'[i] == c;
    }
  }

  /** 11 is prime: a product of two smaller factors is a multiple of it only when it is zero. */
  lemma {:induction false} NoFactorOfEleven(d: int, w: int, q: int)
    requires -10 <= d <= 10 && 0 < w <= 10 && d * w == 11 * q
    ensures d == 0
  {
    match w
    case 1 => case 2 => case 3 => case 4 => case 5 =>
    case 6 => case 7 => case 8 => case 9 => case 10 =>
  }

  lemma {:induction false} SameRemainder(s: int, t: int, d: int, w: int)
    requires -10 <= d <= 10 && -10 <= w <= 10 && t == s + d * w
    ensures s % 11 == t % 11 <==> d == 0 || w == 0
  {
    if s % 11 == t % 11 && w != 0 {
      var q := t / 11 - s / 11;
      assert d * w == 11 * q;
      if w > 0 { NoFactorOfEleven(d, w, q); } else { NoFactorOfEleven(-d, -w, q); }
    }
  }

  /** Any other character at the check position itself is caught. */
  lemma {:induction false} CheckPositionSlip(vin: string, c: char)
    requires |vin| == LENGTH && Passes(vin)
    ensures Passes(vin[CHECK := c]) <==> c == vin[CHECK]
  {
    SumAfterChange(vin, WEIGHTS, CHECK, c, |vin|);
    if c == vin[CHECK] { assert vin[CHECK := c] == vin; }
  }

  function Swapped(vin: string, i: nat, j: nat): string
    requires i < |vin| && j < |vin|
  {
    vin[i := vin[j]][j := vin[i]]
  }

  lemma {:induction false} SumAfterSwap(vin: string, ws: seq<int>, i: nat, j: nat)
    requires i < j < |vin| == |ws|
    ensures Sum(Swapped(vin, i, j), ws, |vin|)
         == Sum(vin, ws, |vin|) + (Value(vin[j]) - Value(vin[i])) * (ws[i] - ws[j])
  {
    var d := Value(vin[j]) - Value(vin[i]);
    SumAfterChange(vin, ws, i, vin[j], |vin|);
    SumAfterChange(vin[i := vin[j]], ws, j, vin[i], |vin|);
    assert d * (ws[i] - ws[j]) == d * ws[i] + (-d) * ws[j];
  }

  /**
    Swapping two characters away from the check position is missed exactly when their
    values or the weights of their positions agree.
  */
  lemma {:induction false} SwapSlip(vin: string, i: nat, j: nat)
    requires |vin| == LENGTH && i < j < LENGTH && i != CHECK && j != CHECK && Passes(vin)
    ensures Passes(Swapped(vin, i, j)) <==> Value(vin[i]) == Value(vin[j]) || WEIGHTS[i] == WEIGHTS[j]
  {
    var twice := Swapped(vin, i, j);
    SumAfterSwap(vin, WEIGHTS, i, j);
    var s, s' := Total(vin), Total(twice);
    var d: int, w: int := Value(vin[j]) - Value(vin[i]), WEIGHTS[i] - WEIGHTS[j];
    ExpectedIsInjective(s % 11, s' % 11);
    SameRemainder(s, s', d, w);
    assert Readable(twice) by {
      forall k | 0 <= k < |twice| ensures Transliterate(twice[k]).Some? {}
    }
  }

  /** Adjacent positions away from the check digit never share a weight. */
  lemma {:induction false} AdjacentSwap(vin: string, i: nat)
    requires |vin| == LENGTH && i + 1 < LENGTH && i != CHECK && i + 1 != CHECK && Passes(vin)
    ensures Passes(Swapped(vin, i, i + 1)) <==> Value(vin[i]) == Value(vin[i + 1])
  {
    SwapSlip(vin, i, i + 1);
  }
}
