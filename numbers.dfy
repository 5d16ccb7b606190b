/** `str::parse::<i64>` and the decimal display of integers (`Number::to_string`). */
module Numbers {
  import opened Wrappers
  import opened Text

  const I64Min: int := -0x8000_0000_0000_0000
  const I64Max: int := 0x7FFF_FFFF_FFFF_FFFF

  predicate InI64(n: int) { I64Min <= n <= I64Max }

  // The messages of `core::num::ParseIntError`
  const EmptyInteger := "cannot parse integer from empty string"
  const InvalidDigit := "invalid digit found in string"
  const PosOverflow := "number too large to fit in target type"
  const NegOverflow := "number too small to fit in target type"

  predicate AllDigits(s: string) {
    forall i :: 0 <= i < |s| ==> IsAsciiDigit(s[i])
  }

  function DigitValue(c: char): nat
    requires IsAsciiDigit(c)
  {
    c as int - '0' as int
  }

  function DigitChar(d: nat): (c: char)
    requires d < 10
    ensures IsAsciiDigit(c) && DigitValue(c) == d
  {
    (d + '0' as int) as char
  }

  /** The digit loop of `from_str_radix`: left to right, a non-digit is an error, and so is
      leaving the `i64` range; `positive` picks adding or subtracting each digit. */
  function Accumulate(digits: string, acc: int, positive: bool): (r: Result<int, string>)
    requires InI64(acc)
    ensures r.Ok? ==> InI64(r.value)
  {
    if digits == [] then Ok(acc)
    else if !IsAsciiDigit(digits[0]) then Err(InvalidDigit)
    else
      var next := if positive then acc * 10 + DigitValue(digits[0]) else acc * 10 - DigitValue(digits[0]);
      if !InI64(next) then Err(if positive then PosOverflow else NegOverflow)
      else Accumulate(digits[1..], next, positive)
  }

  /** `str::parse::<i64>`: an optional `+` or `-`, then the digits. */
  function ParseI64(s: string): (r: Result<int, string>)
    ensures r.Ok? ==> InI64(r.value)
  {
    if s == [] then Err(EmptyInteger)
    else if (s[0] == '+' || s[0] == '-') && |s| == 1 then Err(InvalidDigit)
    else if s[0] == '+' then Accumulate(s[1..], 0, true)
    else if s[0] == '-' then Accumulate(s[1..], 0, false)
    else Accumulate(s, 0, true)
  }

  /** Decimal display without leading zeros. */
  function ShowNat(n: nat): (r: string)
    ensures |r| >= 1 && AllDigits(r)
  {
    if n < 10 then [DigitChar(n)] else ShowNat(n / 10) + [DigitChar(n % 10)]
  }

  /** `i64::to_string` */
  function ShowInt(n: int): string {
    if n < 0 then "-" + ShowNat(-n) else ShowNat(n)
  }

  // An independent reading of the accepted syntax: sign, digits, their value.

  function Pow10(k: nat): nat {
    if k == 0 then 1 else 10 * Pow10(k - 1)
  }

  function DigitsValue(ds: string): nat
    requires AllDigits(ds)
  {
    if ds == [] then 0 else DigitValue(ds[0]) * Pow10(|ds| - 1) + DigitsValue(ds[1..])
  }

  function Unsigned(s: string): string {
    if s != [] && (s[0] == '+' || s[0] == '-') then s[1..] else s
  }

  predicate IsDecimal(s: string) {
    |Unsigned(s)| >= 1 && AllDigits(Unsigned(s))
  }

  function DecimalValue(s: string): int
    requires IsDecimal(s)
  {
    if s[0] == '-' then 0 - DigitsValue(Unsigned(s)) else DigitsValue(Unsigned(s))
  }

  lemma {:induction false} AccumulateValue(ds: string, acc: int, positive: bool)
    requires AllDigits(ds) && InI64(acc)
    requires positive ==> acc >= 0
    requires !positive ==> acc <= 0
    ensures var v := if positive then acc * Pow10(|ds|) + DigitsValue(ds) else acc * Pow10(|ds|) - DigitsValue(ds);
      Accumulate(ds, acc, positive) == if InI64(v) then Ok(v) else Err(if positive then PosOverflow else NegOverflow)
  {
    if ds != [] {
      var n := |ds|;
      var d := DigitValue(ds[0]);
      var next := if positive then acc * 10 + d else acc * 10 - d;
      var rest := DigitsValue(ds[1..]);
      var p := Pow10(n - 1);
      Pow10Positive(n - 1);
      var v := if positive then acc * Pow10(n) + DigitsValue(ds) else acc * Pow10(n) - DigitsValue(ds);
      assert v == if positive then next * p + rest else next * p - rest by {
        Regroup(acc, d, p, positive);
      }
      if InI64(next) {
        AccumulateValue(ds[1..], next, positive);
      } else {
        ScaleAway(next, p);
      }
    }
  }

  lemma Regroup(acc: int, d: int, p: int, positive: bool)
    ensures acc * (10 * p) + (if positive then d * p else -(d * p))
         == (if positive then acc * 10 + d else acc * 10 - d) * p
  {
  }

  /** Multiplying by a positive power of ten moves a number away from zero. */
  lemma ScaleAway(x: int, p: int)
    requires p >= 1
    ensures x >= 0 ==> x * p >= x
    ensures x <= 0 ==> x * p <= x
  {
    if x >= 0 {
      assert x * p == x + x * (p - 1);
    } else {
      assert x * p == x + x * (p - 1);
    }
  }

  lemma {:induction false} Pow10Positive(k: nat)
    ensures Pow10(k) >= 1
  {
    if k > 0 { Pow10Positive(k - 1); }
  }

  /** `parse::<i64>` accepts exactly the decimal literals whose value fits in 64 bits,
      and returns that value. */
  lemma ParseI64Exact(s: string)
    ensures ParseI64(s).Ok? <==> IsDecimal(s) && InI64(DecimalValue(s))
    ensures ParseI64(s).Ok? ==> ParseI64(s).value == DecimalValue(s)
  {
    if s != [] && !((s[0] == '+' || s[0] == '-') && |s| == 1) {
      var ds := Unsigned(s);
      if AllDigits(ds) {
        AccumulateValue(ds, 0, s[0] != '-');
      } else {
        AccumulateRejects(ds, 0, s[0] != '-');
      }
    }
  }

  lemma {:induction false} AccumulateRejects(ds: string, acc: int, positive: bool)
    requires InI64(acc) && !AllDigits(ds)
    ensures Accumulate(ds, acc, positive).Err?
  {
    if IsAsciiDigit(ds[0]) {
      var next := if positive then acc * 10 + DigitValue(ds[0]) else acc * 10 - DigitValue(ds[0]);
      if InI64(next) {
        assert !AllDigits(ds[1..]) by {
          var i :| 0 <= i < |ds| && !IsAsciiDigit(ds[i]);
          assert ds[1..][i - 1] == ds[i];
        }
        AccumulateRejects(ds[1..], next, positive);
      }
    }
  }

  lemma {:induction false} DigitsValueSnoc(ds: string, c: char)
    requires AllDigits(ds) && IsAsciiDigit(c)
    ensures AllDigits(ds + [c]) && DigitsValue(ds + [c]) == DigitsValue(ds) * 10 + DigitValue(c)
  {
    if ds != [] {
      DigitsValueSnoc(ds[1..], c);
      assert (ds + [c])[1..] == ds[1..] + [c];
      var p := Pow10(|ds| - 1);
      assert DigitValue(ds[0]) * (10 * p) == (DigitValue(ds[0]) * p) * 10;
    }
  }

  lemma {:induction false} ShowNatValue(n: nat)
    ensures DigitsValue(ShowNat(n)) == n
  {
    if n >= 10 {
      ShowNatValue(n / 10);
      DigitsValueSnoc(ShowNat(n / 10), DigitChar(n % 10));
    }
  }

  /** Printing an `i64` and parsing it back gives the same integer. */
  lemma ParseShowInt(n: int)
    requires InI64(n)
    ensures ParseI64(ShowInt(n)) == Ok(n)
  {
    var s := ShowInt(n);
    if n < 0 {
      ShowNatValue(-n);
      assert Unsigned(s) == ShowNat(-n);
    } else {
      ShowNatValue(n);
    }
    ParseI64Exact(s);
  }

  lemma Examples()
    ensures ParseI64("-17") == Ok(-17)
    ensures ParseI64("") == Err(EmptyInteger)
    ensures ParseI64("-") == Err(InvalidDigit)
    ensures ParseI64("4x") == Err(InvalidDigit)
  {
    ParseShowInt(-17);
    assert ShowNat(17) == "17";
    assert "4x"[1..] == "x";
  }
}
