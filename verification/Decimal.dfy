/** Decimal text of integers, as the source's format strings print them. */
module Decimal {
  predicate IsDigit(c: char) { '0' <= c <= '9' }

  predicate AllDigits(s: string) { forall i :: 0 <= i < |s| ==> IsDigit(s[i]) }

  function Print(n: nat): string {
    if n < 10 then ['0' + n as char] else Print(n / 10) + ['0' + (n % 10) as char]
  }

  /** The number a run of digits stands for; leading zeros are harmless. */
  function Number(s: string): nat
    requires AllDigits(s)
  {
    if s == [] then 0 else 10 * Number(s[..|s| - 1]) + (s[|s| - 1] - '0') as nat
  }

  lemma {:induction false} PrintThenRead(n: nat)
    ensures AllDigits(Print(n)) && |Print(n)| > 0 && Number(Print(n)) == n
  {
    if n < 10 {
      assert Print(n)[..0] == [];
    } else {
      PrintThenRead(n / 10);
      var s := Print(n);
      assert s[..|s| - 1] == Print(n / 10);
    }
  }

  function PrintInt(n: int): string { if n < 0 then "-" + Print(-n) else Print(n) }

  /** Texts without a dash past their first character, each followed by `-` and a tail. */
  lemma {:induction false} SplitAtDash(p: string, q: string, a: string, b: string)
    requires |p| > 0 && |q| > 0 && '-' !in p[1..] && '-' !in q[1..]
    requires p + "-" + a == q + "-" + b
    ensures p == q && a == b
  {
    var t := p + "-" + a;
    assert t[|p|] == '-' && t[|q|] == '-';
    assert p == t[..|p|] && q == t[..|q|] && a == t[|p| + 1..] && b == t[|q| + 1..];
  }

  /** The sign is the first character, if there is one; the rest are digits that say the size. */
  lemma {:induction false} PrintedInteger(n: int)
    ensures |PrintInt(n)| > 0 && '-' !in PrintInt(n)[1..] && (PrintInt(n)[0] == '-' <==> n < 0)
    ensures PrintInt(n) == if n < 0 then "-" + Print(-n) else Print(n)
  {
    PrintThenRead(if n < 0 then -n else n);
    if n < 0 { assert PrintInt(n)[1..] == Print(-n); }
  }

  lemma {:induction false} PrintedIntegers(m: int, n: int)
    requires PrintInt(m) == PrintInt(n)
    ensures m == n
  {
    PrintedInteger(m);
    PrintedInteger(n);
    PrintThenRead(if m < 0 then -m else m);
    PrintThenRead(if n < 0 then -n else n);
    if m < 0 { assert PrintInt(m)[1..] == Print(-m) && PrintInt(n)[1..] == Print(-n); }
  }

  /** An integer, a dash and a tail: two such texts agree only if both parts do. */
  lemma {:induction false} PrintedPrefix(m: int, n: int, a: string, b: string)
    requires PrintInt(m) + "-" + a == PrintInt(n) + "-" + b
    ensures m == n && a == b
  {
    PrintedInteger(m);
    PrintedInteger(n);
    SplitAtDash(PrintInt(m), PrintInt(n), a, b);
    PrintedIntegers(m, n);
  }
}
