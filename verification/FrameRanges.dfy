/**
  Frame-number ranges of a model series: a forgiving reader and a strict printer.
  Whatever text is given, printing what was read and reading it again loses nothing.
*/
module FrameRanges {
  import opened Options
  import opened Decimal

  const MAX_U64: nat := 0xFFFF_FFFF_FFFF_FFFF

  datatype Range = Range(start: nat, end: nat)

  /** The characters `trim` removes: Unicode white space. */
  predicate IsSpace(c: char) {
    var n := c as int;
    || 0x9 <= n <= 0xD || n == 0x20 || n == 0x85 || n == 0xA0 || n == 0x1680 || 0x2000 <= n <= 0x200A
    || n == 0x2028 || n == 0x2029 || n == 0x202F || n == 0x205F || n == 0x3000
  }

  function TrimStart(s: string): string { if s != "" && IsSpace(s[0]) then TrimStart(s[1..]) else s }

  function TrimEnd(s: string): string { if s != "" && IsSpace(s[|s| - 1]) then TrimEnd(s[..|s| - 1]) else s }

  function Trim(s: string): string { TrimEnd(TrimStart(s)) }

  /** Decimal digits, after one optional plus sign; nothing that does not fit 64 bits. */
  function ParseU64(s: string): Option<nat> {
    var digits := if s != "" && s[0] == '+' then s[1..] else s;
    if digits == "" || !AllDigits(digits) || Number(digits) > MAX_U64 then None else Some(Number(digits))
  }

  function SplitOnce(s: string, c: char): Option<(string, string)> {
    if s == "" then None
    else if s[0] == c then Some(("", s[1..]))
    else
      var rest := SplitOnce(s[1..], c);
      if rest.None? then None else Some(([s[0]] + rest.value.0, rest.value.1))
  }

  function Split(s: string, c: char): (parts: seq<string>)
    ensures |parts| > 0
  {
    if s == "" then [""]
    else
      var rest := Split(s[1..], c);
      if s[0] == c then [""] + rest else [[s[0]] + rest[0]] + rest[1..]
  }

  function Join(parts: seq<string>): string {
    if parts == [] then "" else if |parts| == 1 then parts[0] else parts[0] + "," + Join(parts[1..])
  }

  function ParseRange(part: string): Option<Range> {
    var ends := SplitOnce(Trim(part), '-');
    if ends.None? then None
    else
      var start, end := ParseU64(Trim(ends.value.0)), ParseU64(Trim(ends.value.1));
      if start.Some? && end.Some? && start.value <= end.value then Some(Range(start.value, end.value)) else None
  }

  function ParseAll(parts: seq<string>): seq<Range> {
    if parts == [] then []
    else
      var first, rest := ParseRange(parts[0]), ParseAll(parts[1..]);
      if first.Some? then [first.value] + rest else rest
  }

  function ParseFrameRanges(raw: string): seq<Range> { ParseAll(Split(raw, ',')) }

  function RangeText(r: Range): string { Print(r.start) + "-" + Print(r.end) }

  function Texts(ranges: seq<Range>): seq<string> {
    if ranges == [] then [] else [RangeText(ranges[0])] + Texts(ranges[1..])
  }

  function NormalizeFrameRanges(raw: Option<string>): Option<string> {
    if raw.None? then None
    else
      var ranges := ParseFrameRanges(raw.value);
      if ranges == [] then None else Some(Join(Texts(ranges)))
  }

  // ------------------------------------------------------------------------- proofs

  ghost predicate Valid(r: Range) { r.start <= r.end <= MAX_U64 }

  lemma {:induction false} ParsedAreValid(parts: seq<string>)
    ensures forall r :: r in ParseAll(parts) ==> Valid(r)
  {
    if parts != [] { ParsedAreValid(parts[1..]); }
  }

  lemma {:induction false} TrimKeeps(s: string)
    requires forall i :: 0 <= i < |s| ==> !IsSpace(s[i])
    ensures Trim(s) == s
  {}

  lemma {:induction false} SplitOnceAt(a: string, b: string, c: char)
    requires c !in a
    ensures SplitOnce(a + [c] + b, c) == Some((a, b))
  {
    var s := a + [c] + b;
    if a == "" {
      assert s[1..] == b;
    } else {
      assert s[1..] == a[1..] + [c] + b;
      SplitOnceAt(a[1..], b, c);
      assert a == [a[0]] + a[1..];
    }
  }

  lemma {:induction false} DigitsOnly(n: nat)
    ensures forall i :: 0 <= i < |Print(n)| ==> IsDigit(Print(n)[i]) && !IsSpace(Print(n)[i])
    ensures '-' !in Print(n) && ',' !in Print(n)
  {
    PrintThenRead(n);
  }

  lemma {:induction false} ParsePrinted(n: nat)
    requires n <= MAX_U64
    ensures ParseU64(Trim(Print(n))) == Some(n)
  {
    PrintThenRead(n);
    DigitsOnly(n);
    TrimKeeps(Print(n));
    assert Print(n)[0] != '+';
  }

  /** Reading one printed range gives it back. */
  lemma {:induction false} ParseRangeText(r: Range)
    requires Valid(r)
    ensures ParseRange(RangeText(r)) == Some(r) && ',' !in RangeText(r)
  {
    var a, b := Print(r.start), Print(r.end);
    DigitsOnly(r.start);
    DigitsOnly(r.end);
    TrimKeeps(RangeText(r));
    SplitOnceAt(a, b, '-');
    ParsePrinted(r.start);
    ParsePrinted(r.end);
  }

  lemma {:induction false} SplitPrefix(a: string, s: string, c: char)
    requires c !in a
    ensures Split(a + s, c) == [a + Split(s, c)[0]] + Split(s, c)[1..]
  {
    var split := Split(s, c);
    if a == "" {
      assert a + s == s && a + split[0] == split[0] && [split[0]] + split[1..] == split;
    } else {
      assert (a + s)[1..] == a[1..] + s && (a + s)[0] == a[0] != c;
      SplitPrefix(a[1..], s, c);
      var rest := Split(a[1..] + s, c);
      assert [a[0]] + rest[0] == a + split[0] && rest[1..] == split[1..];
    }
  }

  /** Splitting undoes joining when no part holds a comma. */
  lemma {:induction false} SplitJoined(parts: seq<string>)
    requires parts != [] && forall p :: p in parts ==> ',' !in p
    ensures Split(Join(parts), ',') == parts
  {
    if |parts| == 1 {
      SplitPrefix(parts[0], "", ',');
      assert parts[0] + "" == parts[0];
    } else {
      var rest := parts[1..];
      SplitJoined(rest);
      SplitPrefix(parts[0], "," + Join(rest), ',');
      var tail := "," + Join(rest);
      assert tail[1..] == Join(rest) && tail[0] == ',';
      assert Split(tail, ',') == [""] + rest;
      assert parts[0] + tail == Join(parts) && parts[0] + "" == parts[0];
      assert parts == [parts[0]] + rest;
    }
  }

  lemma {:induction false} ParseTexts(ranges: seq<Range>)
    requires forall r :: r in ranges ==> Valid(r)
    ensures ParseAll(Texts(ranges)) == ranges && |Texts(ranges)| == |ranges|
    ensures forall p :: p in Texts(ranges) ==> ',' !in p
  {
    if ranges != [] {
      ParseRangeText(ranges[0]);
      ParseTexts(ranges[1..]);
      var texts := Texts(ranges);
      assert texts[1..] == Texts(ranges[1..]);
      assert ranges == [ranges[0]] + ranges[1..];
    }
  }

  /** Any list of valid ranges survives printing and reading. */
  lemma {:induction false} RoundTrip(ranges: seq<Range>)
    requires ranges != [] && forall r :: r in ranges ==> Valid(r)
    ensures ParseFrameRanges(Join(Texts(ranges))) == ranges
  {
    ParseTexts(ranges);
    SplitJoined(Texts(ranges));
  }

  /** For every text: what was read is valid, and the normalised text reads the same; without any, there is none. */
  lemma {:induction false} NormalizingKeepsRanges(raw: string)
    ensures forall r :: r in ParseFrameRanges(raw) ==> Valid(r)
    ensures ParseFrameRanges(NormalizeFrameRanges(Some(raw)).GetOr("")) == ParseFrameRanges(raw)
    ensures NormalizeFrameRanges(Some(raw)).None? <==> ParseFrameRanges(raw) == []
  {
    var ranges := ParseFrameRanges(raw);
    ParsedAreValid(Split(raw, ','));
    if ranges != [] { RoundTrip(ranges); }
  }

  lemma {:induction false} NormalizingTwice(raw: Option<string>)
    ensures NormalizeFrameRanges(NormalizeFrameRanges(raw)) == NormalizeFrameRanges(raw)
  {
    if raw.Some? { NormalizingKeepsRanges(raw.value); }
  }

  // ------------------------------------------------------------------ what exactly is read

  ghost predicate White(s: string) { forall i :: 0 <= i < |s| ==> IsSpace(s[i]) }

  /** Nothing to trim. */
  ghost predicate Tight(s: string) { s != "" && !IsSpace(s[0]) && !IsSpace(s[|s| - 1]) }

  lemma {:induction false} TrimStartOff(a: string, s: string)
    requires White(a) && s != "" && !IsSpace(s[0])
    ensures TrimStart(a + s) == s
  {
    if a == "" {
      assert a + s == s;
    } else {
      assert (a + s)[1..] == a[1..] + s && (a + s)[0] == a[0];
      TrimStartOff(a[1..], s);
    }
  }

  lemma {:induction false} TrimEndOff(s: string, b: string)
    requires White(b) && s != "" && !IsSpace(s[|s| - 1])
    ensures TrimEnd(s + b) == s
  {
    if b == "" {
      assert s + b == s;
    } else {
      var n := |b| - 1;
      assert (s + b)[..|s + b| - 1] == s + b[..n] && (s + b)[|s + b| - 1] == b[n];
      TrimEndOff(s, b[..n]);
    }
  }

  lemma {:induction false} TrimOff(a: string, s: string, b: string)
    requires White(a) && White(b) && Tight(s)
    ensures Trim(a + s + b) == s
  {
    assert a + s + b == a + (s + b) && (s + b)[0] == s[0];
    TrimStartOff(a, s + b);
    TrimEndOff(s, b);
  }

  lemma {:induction false} TrimStartLeaves(s: string) returns (a: string)
    ensures White(a) && s == a + TrimStart(s) && (TrimStart(s) != "" ==> !IsSpace(TrimStart(s)[0]))
  {
    a := "";
    if s != "" && IsSpace(s[0]) {
      var rest := TrimStartLeaves(s[1..]);
      a := [s[0]] + rest;
      assert s == [s[0]] + s[1..];
    }
  }

  lemma {:induction false} TrimEndLeaves(s: string) returns (b: string)
    ensures White(b) && s == TrimEnd(s) + b && (TrimEnd(s) != "" ==> !IsSpace(TrimEnd(s)[|TrimEnd(s)| - 1]))
  {
    b := "";
    if s != "" && IsSpace(s[|s| - 1]) {
      var n := |s| - 1;
      var rest := TrimEndLeaves(s[..n]);
      b := rest + [s[n]];
      assert s == s[..n] + [s[n]];
    }
  }

  lemma {:induction false} TrimLeaves(s: string) returns (a: string, b: string)
    ensures White(a) && White(b) && s == a + Trim(s) + b
  {
    a := TrimStartLeaves(s);
    b := TrimEndLeaves(TrimStart(s));
    assert s == a + (Trim(s) + b);
  }

  /** Digits, or a plus sign and digits, for a number of 64 bits. */
  ghost predicate Numeral(s: string, n: nat) {
    var digits := if s != "" && s[0] == '+' then s[1..] else s;
    digits != "" && AllDigits(digits) && Number(digits) == n <= 0xFFFF_FFFF_FFFF_FFFF
  }

  lemma {:induction false} NumeralIsTight(s: string, n: nat)
    requires Numeral(s, n)
    ensures Tight(s) && '-' !in s && ParseU64(s) == Some(n)
  {
    var digits := if s[0] == '+' then s[1..] else s;
    assert s[|s| - 1] == digits[|digits| - 1] && IsDigit(digits[|digits| - 1]);
    assert IsDigit(digits[0]);
    forall i | 0 <= i < |s| ensures s[i] == '+' || IsDigit(s[i]) {
      assert s[0] == '+' && i > 0 ==> s[i] == digits[i - 1];
    }
  }

  ghost predicate SpelledOut(part: string, r: Range, a: string, p: string, b: string, c: string, q: string, d: string) {
    && part == a + p + b + "-" + c + q + d && White(a) && White(b) && White(c) && White(d)
    && Numeral(p, r.start) && Numeral(q, r.end) && r.start <= r.end
  }

  /** Two numerals in order with a dash between them, and white space around each. */
  ghost predicate Reads(part: string, r: Range) { exists a, p, b, c, q, d :: SpelledOut(part, r, a, p, b, c, q, d) }

  lemma {:induction false} SpelledOutIsRead(part: string, r: Range, a: string, p: string, b: string, c: string,
                                            q: string, d: string)
    requires SpelledOut(part, r, a, p, b, c, q, d)
    ensures ParseRange(part) == Some(r)
  {
    NumeralIsTight(p, r.start);
    NumeralIsTight(q, r.end);
    TrimRange(part, a, p, b, c, q, d);
    NoDash(b);
    SplitOnceAt(p + b, c + q, '-');
    assert "" + p + b == p + b && c + q + "" == c + q;
    TrimOff("", p, b);
    TrimOff(c, q, "");
  }

  lemma {:induction false} TrimRange(part: string, a: string, p: string, b: string, c: string, q: string, d: string)
    requires part == a + p + b + "-" + c + q + d && White(a) && White(d) && Tight(p) && Tight(q)
    ensures Trim(part) == (p + b) + "-" + (c + q)
  {
    var inner := (p + b) + "-" + (c + q);
    assert inner[0] == p[0] && inner[|inner| - 1] == q[|q| - 1];
    assert part == a + inner + d;
    TrimOff(a, inner, d);
  }

  lemma {:induction false} NoDash(s: string)
    requires White(s)
    ensures '-' !in s
  {}

  lemma {:induction false} SplitOnceMeans(s: string, c: char)
    ensures SplitOnce(s, c).Some? ==> s == SplitOnce(s, c).value.0 + [c] + SplitOnce(s, c).value.1
  {
    if s != "" && s[0] != c { SplitOnceMeans(s[1..], c); }
    assert s != "" ==> s == [s[0]] + s[1..];
  }

  lemma {:induction false} ReadIsSpelledOut(part: string, r: Range)
    requires ParseRange(part) == Some(r)
    ensures Reads(part, r)
  {
    var a, d := TrimLeaves(part);
    SplitOnceMeans(Trim(part), '-');
    var (x, y) := SplitOnce(Trim(part), '-').value;
    var a', b := TrimLeaves(x);
    var c, d' := TrimLeaves(y);
    var p, q := Trim(x), Trim(y);
    Regroup(a, a', p, b, c, q, d', d);
    assert SpelledOut(part, r, a + a', p, b, c, q, d' + d);
  }

  lemma {:induction false} Regroup(a: string, a': string, p: string, b: string, c: string, q: string, d': string,
                                   d: string)
    ensures a + ((a' + p + b) + "-" + (c + q + d')) + d == (a + a') + p + b + "-" + c + q + (d' + d)
  {}

  /** A part of the text reads as a range exactly when it is spelled out so. */
  lemma {:induction false} ReadExactly(part: string, r: Range)
    ensures ParseRange(part) == Some(r) <==> Reads(part, r)
  {
    if ParseRange(part) == Some(r) { ReadIsSpelledOut(part, r); }
    if Reads(part, r) {
      var a, p, b, c, q, d :| SpelledOut(part, r, a, p, b, c, q, d);
      SpelledOutIsRead(part, r, a, p, b, c, q, d);
    }
  }

  lemma {:induction false} SplitAtComma(a: string, b: string)
    ensures Split(a + "," + b, ',') == Split(a, ',') + Split(b, ',')
  {
    var s := a + "," + b;
    if a == "" {
      assert s[1..] == b;
    } else {
      assert s[1..] == a[1..] + "," + b;
      SplitAtComma(a[1..], b);
    }
  }

  lemma {:induction false} ParseAllAppend(a: seq<string>, b: seq<string>)
    ensures ParseAll(a + b) == ParseAll(a) + ParseAll(b)
  {
    if a == [] {
      assert a + b == b;
    } else {
      assert (a + b)[1..] == a[1..] + b;
      ParseAllAppend(a[1..], b);
    }
  }

  /** Parts between commas are read one by one: what does not read hides nothing after it. */
  lemma {:induction false} CommaSeparates(a: string, b: string)
    ensures ParseFrameRanges(a + "," + b) == ParseFrameRanges(a) + ParseFrameRanges(b)
  {
    SplitAtComma(a, b);
    ParseAllAppend(Split(a, ','), Split(b, ','));
  }

  lemma {:induction false} ParseOne(part: string)
    ensures ParseAll([part]) == if ParseRange(part).Some? then [ParseRange(part).value] else []
  {
    var rest: seq<string> := [part][1..];
    assert rest == [] && ParseAll(rest) == [];
    assert ParseAll([part]) == (if ParseRange(part).Some? then [ParseRange(part).value] else []) + ParseAll(rest);
  }

  /** Without a comma, the text is one part. */
  lemma {:induction false} OnePart(part: string, r: Range)
    requires ',' !in part
    ensures ParseFrameRanges(part) == [r] <==> Reads(part, r)
    ensures ParseFrameRanges(part) == [] <==> forall q :: !Reads(part, q)
  {
    assert Join([part]) == part;
    SplitJoined([part]);
    ParseOne(part);
    assert ParseFrameRanges(part) == if ParseRange(part).Some? then [ParseRange(part).value] else [];
    ReadExactly(part, r);
    if ParseRange(part).Some? { ReadExactly(part, ParseRange(part).value); }
    forall q | Reads(part, q) ensures ParseRange(part) == Some(q) { ReadExactly(part, q); }
  }
}
