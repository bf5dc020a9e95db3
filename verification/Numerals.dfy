/** Positional numerals, as Python's `str` and `hex` print them, and their values. */
module Numerals {
  import opened Prelude

  // ----- digit lists, most significant first

  lemma MulAtLeast(b: nat, x: nat, y: nat)
    requires x <= y
    ensures b * x <= b * y
  {
  }

  lemma Smaller(n: nat, base: nat)
    requires base >= 2 && n >= base
    ensures 0 < n / base < n
  {
    var q := n / base;
    assert n == base * q + n % base;
    MulAtLeast(q, 2, base);
  }

  function Digits(n: nat, base: nat): (ds: seq<nat>)
    requires base >= 2
    ensures |ds| >= 1 && forall i | 0 <= i < |ds| :: ds[i] < base
    decreases n
  {
    if n < base then [n] else Smaller(n, base); Digits(n / base, base) + [n % base]
  }

  function Value(ds: seq<nat>, base: nat): nat {
    if ds == [] then 0 else Value(ds[..|ds| - 1], base) * base + ds[|ds| - 1]
  }

  lemma ValueAppend(ds: seq<nat>, d: nat, base: nat)
    ensures Value(ds + [d], base) == Value(ds, base) * base + d
  {
    assert (ds + [d])[..|ds|] == ds;
  }

  lemma ValueOfOne(n: nat, base: nat)
    ensures Value([n], base) == n
  {
    assert Value([n][..0], base) == 0;
  }

  lemma Quotient(n: nat, base: nat, q: nat, r: nat)
    requires base >= 2 && q == n / base && r == n % base
    ensures n == q * base + r
  {
  }

  lemma DigitsStep(n: nat, base: nat) returns (q: nat, r: nat)
    requires base >= 2 && n >= base
    ensures q < n && n == q * base + r && Digits(n, base) == Digits(q, base) + [r]
  {
    q, r := n / base, n % base;
    Smaller(n, base);
    Quotient(n, base, q, r);
  }

  lemma {:induction false} ValueOfDigits(n: nat, base: nat)
    requires base >= 2
    ensures Value(Digits(n, base), base) == n
    decreases n
  {
    hide Value;
    if n < base {
      ValueOfOne(n, base);
    } else {
      var q, r := DigitsStep(n, base);
      hide Digits;
      ValueOfDigits(q, base);
      ValueAppend(Digits(q, base), r, base);
    }
  }

  /** What `Digits` prints: digits below the base, and no leading zero but in `0`. */
  predicate Canonical(ds: seq<nat>, base: nat) {
    && |ds| >= 1
    && (forall i | 0 <= i < |ds| :: ds[i] < base)
    && (|ds| > 1 ==> ds[0] != 0)
  }

  lemma {:induction false} DigitsCanonical(n: nat, base: nat)
    requires base >= 2
    ensures Canonical(Digits(n, base), base)
    ensures n > 0 ==> Digits(n, base)[0] != 0
    decreases n
  {
    if n >= base {
      Smaller(n, base);
      DigitsCanonical(n / base, base);
    }
  }

  lemma QuotientUnique(n: nat, base: nat, q: nat, r: nat)
    requires r < base && n == q * base + r
    ensures n / base == q && n % base == r
  {
    var p, m := n / base, n % base;
    assert n == base * p + m;
    if p > q {
      MulAtLeast(base, q + 1, p);
    } else if p < q {
      MulAtLeast(base, p + 1, q);
    }
  }

  lemma DivideBack(q: nat, base: nat, r: nat)
    requires r < base
    ensures (q * base + r) / base == q && (q * base + r) % base == r
    ensures q > 0 ==> q * base + r >= base
  {
    var n := q * base + r;
    QuotientUnique(n, base, q, r);
    if q > 0 {
      MulAtLeast(base, 1, q);
    }
  }

  lemma {:induction false} DigitsOfValue(ds: seq<nat>, base: nat)
    requires base >= 2 && Canonical(ds, base)
    ensures Digits(Value(ds, base), base) == ds
    ensures ds[0] != 0 ==> Value(ds, base) > 0
    decreases |ds|
  {
    var init, last := ds[..|ds| - 1], ds[|ds| - 1];
    if init == [] {
      assert ds == [last];
    } else {
      DigitsOfValue(init, base);
      DivideBack(Value(init, base), base, last);
      assert ds == init + [last];
    }
  }

  lemma LeadingZero(ds: seq<nat>, base: nat)
    ensures Value([0] + ds, base) == Value(ds, base)
  {
    if ds == [] {
      assert ([0] + ds)[..0] == [];
    } else {
      LeadingZero(ds[..|ds| - 1], base);
      assert ([0] + ds)[..|ds|] == [0] + ds[..|ds| - 1];
    }
  }

  // ----- digit characters

  /** Lower-case digit, as `str` and `hex` write it. */
  function DigitChar(d: nat): char
    requires d < 16
  {
    if d < 10 then '0' + d as char else 'a' + (d - 10) as char
  }

  function UpperDigit(d: nat): char
    requires d < 16
  {
    if d < 10 then '0' + d as char else 'A' + (d - 10) as char
  }

  /** The value of a digit in either case; 16 for any other character. */
  function DigitValue(c: char): (d: nat)
    ensures d <= 16
  {
    if '0' <= c <= '9' then (c - '0') as nat
    else if 'a' <= c <= 'f' then 10 + (c - 'a') as nat
    else if 'A' <= c <= 'F' then 10 + (c - 'A') as nat
    else 16
  }

  lemma DigitCharValue(d: nat)
    requires d < 16
    ensures DigitValue(DigitChar(d)) == d && DigitValue(UpperDigit(d)) == d
  {
  }

  const LOWER: string := "0123456789abcdef"
  const UPPER: string := "0123456789ABCDEF"

  /** The digits of either case, and what they are worth. */
  lemma DigitTable(d: nat)
    requires d < 16
    ensures |LOWER| == |UPPER| == 16
    ensures DigitChar(d) == LOWER[d] && UpperDigit(d) == UPPER[d]
    ensures DigitValue(LOWER[d]) == DigitValue(UPPER[d]) == d
  {
    var l, u := LOWER, UPPER;
    assert l == "0123456789abcdef" && u == "0123456789ABCDEF";
  }

  /** The numeral of `n` in lower-case digits. */
  function Print(n: nat, base: nat): (s: string)
    requires 2 <= base <= 16
  {
    var ds := Digits(n, base);
    seq(|ds|, i requires 0 <= i < |ds| => DigitChar(ds[i]))
  }

  function DigitValues(s: string): (ds: seq<nat>)
    ensures |ds| == |s| && forall i | 0 <= i < |s| :: ds[i] == DigitValue(s[i])
  {
    seq(|s|, i requires 0 <= i < |s| => DigitValue(s[i]))
  }

  function Parse(s: string, base: nat): Option<nat>
    requires 2 <= base <= 16
  {
    if s == [] || exists i :: 0 <= i < |s| && DigitValue(s[i]) >= base then None
    else Some(Value(DigitValues(s), base))
  }

  lemma ParsePrint(n: nat, base: nat)
    requires 2 <= base <= 16
    ensures Parse(Print(n, base), base) == Some(n)
  {
    var ds := Digits(n, base);
    forall i | 0 <= i < |ds|
      ensures DigitValue(Print(n, base)[i]) == ds[i]
    {
      DigitCharValue(ds[i]);
    }
    assert DigitValues(Print(n, base)) == ds;
    ValueOfDigits(n, base);
  }

  /** A Python `int` in an f-string. */
  function PrintInt(i: int): string {
    if i < 0 then "-" + Print(-i, 10) else Print(i, 10)
  }

  /** Python's `int(s, base)` on plain digits with an optional sign. */
  function ParseInt(s: string, base: nat): Option<int>
    requires 2 <= base <= 16
  {
    var signed := |s| > 0 && (s[0] == '-' || s[0] == '+');
    match Parse(if signed then s[1..] else s, base)
    case None => None
    case Some(n) => Some(if signed && s[0] == '-' then -(n as int) else n)
  }

  lemma ParseDigits(s: string, ds: seq<nat>, base: nat)
    requires 2 <= base <= 16 && |s| == |ds| >= 1
    requires forall i | 0 <= i < |s| :: DigitValue(s[i]) == ds[i] < base
    ensures Parse(s, base) == ParseInt(s, base) == Some(Value(ds, base))
  {
    hide Value;
    assert DigitValue(s[0]) < 16;
    assert DigitValues(s) == ds;
  }

  lemma PrintIsPlain(n: nat)
    ensures |Print(n, 10)| >= 1
    ensures forall k | 0 <= k < |Print(n, 10)| ::
              Print(n, 10)[k] != '-' && Print(n, 10)[k] != '+' && Print(n, 10)[k] != ':'
  {
    var ds := Digits(n, 10);
    hide Digits;
    forall k | 0 <= k < |ds|
      ensures Print(n, 10)[k] != '-' && Print(n, 10)[k] != '+' && Print(n, 10)[k] != ':'
    {
      assert Print(n, 10)[k] == DigitChar(ds[k]);
    }
  }

  lemma ParsePrintInt(i: int)
    ensures ParseInt(PrintInt(i), 10) == Some(i)
    ensures ':' !in PrintInt(i)
  {
    var n: nat := if i < 0 then -i else i;
    ParsePrint(n, 10);
    PrintIsPlain(n);
    hide Print, Parse;
    if i < 0 {
      assert PrintInt(i)[1..] == Print(n, 10);
    }
  }

  // ----- rounding

  /** Python's `round`: halves go to the even neighbour. */
  function Round(x: real): (n: int)
    ensures -0.5 <= n as real - x <= 0.5
    ensures n as real - x == 0.5 || x - n as real == 0.5 ==> n % 2 == 0
  {
    var f := x.Floor;
    if x - f as real < 0.5 then f else if x - f as real > 0.5 then f + 1 else if f % 2 == 0 then f else f + 1
  }

  lemma RoundInt(n: int)
    ensures Round(n as real) == n
  {
  }

  lemma RoundNearest(x: real, n: int)
    requires n as real - 0.5 < x < n as real + 0.5
    ensures Round(x) == n
  {
    var r := Round(x);
    hide Round;
    assert -1.0 < (r - n) as real < 1.0;
  }
}
