/** The hexadecimal temperature codes of `utils.py`. */
module HexTemp {
  import opened Prelude
  import opened Numerals

  function Upper(s: string): (u: string)
    ensures |u| == |s|
  {
    seq(|s|, i requires 0 <= i < |s| => if 'a' <= s[i] <= 'z' then s[i] - 32 as char else s[i])
  }

  function ZeroFill(s: string, width: nat): string
    decreases width - |s|
  {
    if |s| >= width then s else ZeroFill("0" + s, width)
  }

  function Without(s: string, c: char): string {
    if s == [] then [] else (if s[0] == c then [] else [s[0]]) + Without(s[1..], c)
  }

  lemma {:induction false} WithoutConcat(a: string, b: string, c: char)
    ensures Without(a + b, c) == Without(a, c) + Without(b, c)
  {
    if a == [] {
      assert a + b == b;
    } else {
      assert (a + b)[1..] == a[1..] + b;
      WithoutConcat(a[1..], b, c);
    }
  }

  lemma {:induction false} WithoutAbsent(s: string, c: char)
    requires c !in s
    ensures Without(s, c) == s
  {
    if s != [] {
      assert s == [s[0]] + s[1..];
      WithoutAbsent(s[1..], c);
    }
  }

  /** `get_index_into_hex_temp`: what follows the `x` of `hex(value)`, so without a sign,
      then `H`, zero-filled to three characters, upper-cased. */
  function ToCode(value: int): string {
    Upper(ZeroFill(Print(if value < 0 then -value else value, 16) + "H", 3))
  }

  /** `get_hex_temp_into_index` on hexadecimal digits, `H` and a sign; None is its ValueError. */
  function FromCode(code: string): Option<int> {
    ParseInt(Without(code, 'H'), 16)
  }

  /** Upper-case digits, two of them or more without a leading zero, and a last `H`. */
  predicate CanonicalCode(code: string) {
    && |code| >= 3 && code[|code| - 1] == 'H'
    && (forall i | 0 <= i < |code| - 1 :: '0' <= code[i] <= '9' || 'A' <= code[i] <= 'F')
    && (|code| > 3 ==> code[0] != '0')
  }

  /** Digits, `H` and padding in one: the code of a digit list. */
  function CodeOf(ds: seq<nat>): (s: string)
    requires forall i | 0 <= i < |ds| :: ds[i] < 16
    ensures |s| == |ds| + 1
  {
    seq(|ds|, i requires 0 <= i < |ds| => UpperDigit(ds[i])) + "H"
  }

  function Padded(ds: seq<nat>): seq<nat> {
    if |ds| == 1 then [0] + ds else ds
  }

  lemma CodeIsPaddedDigits(n: nat)
    ensures ToCode(n) == CodeOf(Padded(Digits(n, 16)))
  {
    var s := Print(n, 16) + "H";
    assert ZeroFill(s, 3) == if |s| == 2 then "0" + s else s;
    var ds := Digits(n, 16);
    forall d: nat | d < 16
      ensures Upper([DigitChar(d)]) == [UpperDigit(d)]
    {
    }
    forall i | 0 <= i < |ToCode(n)|
      ensures ToCode(n)[i] == CodeOf(Padded(ds))[i]
    {
      var k := if |ds| == 1 then i - 1 else i;
      if 0 <= k < |ds| {
        assert Upper([DigitChar(ds[k])])[0] == UpperDigit(ds[k]);
      }
    }
  }

  lemma {:induction false} WithoutH(ds: seq<nat>)
    requires forall i | 0 <= i < |ds| :: ds[i] < 16
    ensures Without(CodeOf(ds), 'H') == CodeOf(ds)[..|ds|]
  {
    var s := CodeOf(ds);
    if ds == [] {
      assert s[1..] == [];
    } else {
      assert s[1..] == CodeOf(ds[1..]);
      WithoutH(ds[1..]);
    }
  }

  lemma FromCodeOf(ds: seq<nat>)
    requires |ds| >= 1 && forall i | 0 <= i < |ds| :: ds[i] < 16
    ensures FromCode(CodeOf(ds)) == Some(Value(ds, 16))
  {
    WithoutH(ds);
    var s := CodeOf(ds)[..|ds|];
    forall i | 0 <= i < |ds|
      ensures DigitValue(s[i]) == ds[i]
    {
      DigitCharValue(ds[i]);
    }
    hide CodeOf, Without;
    ParseDigits(s, ds, 16);
  }

  lemma CanonicalCodeOf(ds: seq<nat>)
    requires Canonical(ds, 16)
    ensures CanonicalCode(CodeOf(Padded(ds)))
  {
    var code := CodeOf(Padded(ds));
    forall i | 0 <= i < |code| - 1
      ensures '0' <= code[i] <= '9' || 'A' <= code[i] <= 'F'
    {
      assert code[i] == UpperDigit(Padded(ds)[i]);
    }
  }

  lemma ToCodeDropsSign(value: int)
    ensures ToCode(value) == ToCode(if value < 0 then -value else value)
  {
  }

  lemma PaddedValue(ds: seq<nat>)
    requires Canonical(ds, 16)
    ensures |Padded(ds)| >= 1 && Value(Padded(ds), 16) == Value(ds, 16)
    ensures forall i | 0 <= i < |Padded(ds)| :: Padded(ds)[i] < 16
  {
    LeadingZero(ds, 16);
  }

  /** Printing a code and parsing it back loses the sign and nothing else. */
  lemma FromToCode(value: int)
    ensures FromCode(ToCode(value)) == Some(if value < 0 then -value else value)
    ensures CanonicalCode(ToCode(value))
  {
    hide *;
    ToCodeDropsSign(value);
    var n: nat := if value < 0 then -value else value;
    var ds := Digits(n, 16);
    DigitsCanonical(n, 16);
    CodeIsPaddedDigits(n);
    CanonicalCodeOf(ds);
    PaddedValue(ds);
    FromCodeOf(Padded(ds));
    ValueOfDigits(n, 16);
  }

  /** So the two functions invert each other exactly on the natural numbers. */
  lemma RoundTripsIff(value: int)
    ensures FromCode(ToCode(value)) == Some(value) <==> value >= 0
  {
    FromToCode(value);
  }

  /** Every canonical code is printed again by its own value. */
  lemma ToFromCode(code: string)
    requires CanonicalCode(code)
    ensures FromCode(code).Some? && ToCode(FromCode(code).value) == code
  {
    var ds := DigitValues(code[..|code| - 1]);
    forall i | 0 <= i < |ds|
      ensures ds[i] < 16 && UpperDigit(ds[i]) == code[i]
    {
    }
    assert CodeOf(ds) == code;
    hide Value, Digits, FromCode, ToCode;
    FromCodeOf(ds);
    if ds[0] != 0 {
      DigitsOfValue(ds, 16);
    } else {
      LeadingZero(ds[1..], 16);
      assert [0] + ds[1..] == ds;
      DigitsOfValue(ds[1..], 16);
    }
    CodeIsPaddedDigits(Value(ds, 16));
  }

  /** 0, 20 and 255 as codes. */
  lemma Vectors()
    ensures ToCode(0) == "00H" && ToCode(20) == "14H" && ToCode(255) == "FFH"
  {
    CodeIsPaddedDigits(0);
    CodeIsPaddedDigits(20);
    CodeIsPaddedDigits(255);
    hide ToCode;
    assert Digits(0, 16) == [0] && Digits(1, 16) == [1] && Digits(15, 16) == [15];
    assert Digits(20, 16) == [1, 4] && Digits(255, 16) == [15, 15];
    hide Digits;
    DigitTable(0);
    DigitTable(1);
    DigitTable(4);
    DigitTable(15);
  }
}
