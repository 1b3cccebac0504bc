/** Kotlin's `String.toInt()` in radix 10, as used by the type decoder
    (Refinement.kt lines 36 and 39): an optional leading `+` or `-`, then at
    least one decimal digit, and a value that fits a 32-bit signed `Int`.
    Anything else throws NumberFormatException. `ToIntOrNull` is the
    non-throwing form; the throwing form lives with the decoder. */
module KotlinInt {
  import opened Results

  const IntMin: int := -0x8000_0000
  const IntMax: int := 0x7FFF_FFFF

  predicate InIntRange(n: int) {
    IntMin <= n <= IntMax
  }

  predicate IsDigit(c: char) {
    '0' <= c <= '9'
  }

  predicate IsSign(c: char) {
    c == '+' || c == '-'
  }

  predicate AllDigits(s: string) {
    forall i :: 0 <= i < |s| ==> IsDigit(s[i])
  }

  /** A non-empty run of decimal digits. */
  predicate IsDigits(s: string) {
    |s| > 0 && AllDigits(s)
  }

  function DigitValue(c: char): (d: nat)
    requires IsDigit(c)
    ensures d < 10
  {
    (c as int) - ('0' as int)
  }

  function DigitChar(d: nat): (c: char)
    requires d < 10
    ensures IsDigit(c) && DigitValue(c) == d
  {
    (('0' as int) + d) as char
  }

  /** The value of a run of decimal digits, most significant first. */
  function DecimalValue(s: string): nat
    requires AllDigits(s)
  {
    if |s| == 0 then 0
    else 10 * DecimalValue(s[..|s| - 1]) + DigitValue(s[|s| - 1])
  }

  /** `s.toIntOrNull()`: the integer `s` spells, or None. */
  function ToIntOrNull(s: string): (r: Option<int>)
    ensures r.Some? ==> InIntRange(r.value)
    ensures |s| == 0 ==> r.None?
    ensures forall i :: 0 <= i < |s| && !IsDigit(s[i]) && !(i == 0 && IsSign(s[i])) ==> r.None?
    ensures r.Some? && IsDigits(s) ==> r.value == DecimalValue(s)
    ensures r.Some? && s[0] == '-' ==> IsDigits(s[1..]) && r.value == -(DecimalValue(s[1..]) as int)
    ensures r.Some? && s[0] == '+' ==> IsDigits(s[1..]) && r.value == DecimalValue(s[1..])
  {
    if |s| == 0 then None
    else if IsSign(s[0]) then
      var digits := s[1..];
      if !IsDigits(digits) then None
      else
        var v: int := if s[0] == '-' then -(DecimalValue(digits) as int) else DecimalValue(digits);
        if InIntRange(v) then Some(v) else None
    else if AllDigits(s) && InIntRange(DecimalValue(s)) then Some(DecimalValue(s))
    else None
  }

  /** The converse of the rejections above: every optional-sign-then-digits
      spelling whose signed value fits 32 bits is accepted, with that value. */
  lemma ToIntOrNullAccepts(s: string)
    ensures IsDigits(s) && InIntRange(DecimalValue(s)) ==> ToIntOrNull(s) == Some(DecimalValue(s))
    ensures |s| > 1 && s[0] == '-' && IsDigits(s[1..]) && InIntRange(-(DecimalValue(s[1..]) as int))
      ==> ToIntOrNull(s) == Some(-(DecimalValue(s[1..]) as int))
    ensures |s| > 1 && s[0] == '+' && IsDigits(s[1..]) && InIntRange(DecimalValue(s[1..]))
      ==> ToIntOrNull(s) == Some(DecimalValue(s[1..]))
  {
  }

  /** Decimal rendering of a natural number, without leading zeros. */
  function ShowNat(n: nat): (s: string)
    ensures IsDigits(s)
    ensures n > 0 ==> s[0] != '0'
  {
    if n < 10 then [DigitChar(n)]
    else ShowNat(n / 10) + [DigitChar(n % 10)]
  }

  /** Decimal rendering of an integer, `-` first when negative. */
  function Show(n: int): string {
    if n < 0 then "-" + ShowNat(-n) else ShowNat(n)
  }

  lemma {:induction false} DecimalValueOfShowNat(n: nat)
    ensures DecimalValue(ShowNat(n)) == n
  {
    if n >= 10 {
      var a := ShowNat(n / 10);
      var s := a + [DigitChar(n % 10)];
      assert s[..|s| - 1] == a;
      DecimalValueOfShowNat(n / 10);
    }
  }

  /** A digit string in canonical form: no leading zero, except `0` itself. */
  predicate Canonical(s: string) {
    IsDigits(s) && (|s| == 1 || s[0] != '0')
  }

  lemma {:induction false} DecimalValueAtLeastLeadingDigit(s: string)
    requires IsDigits(s)
    ensures DecimalValue(s) >= DigitValue(s[0])
    decreases |s|
  {
    if |s| > 1 {
      var p := s[..|s| - 1];
      assert p[0] == s[0];
      DecimalValueAtLeastLeadingDigit(p);
    }
  }

  /** The renderer spells every natural in canonical form, and that is the
      only canonical spelling: any other spelling of `n` that `toInt` also
      reads as `n` carries leading zeros. */
  lemma {:induction false} ShowNatCanonical(n: nat, s: string)
    ensures Canonical(ShowNat(n))
    ensures Canonical(s) && DecimalValue(s) == n ==> s == ShowNat(n)
    decreases |s|
  {
    if n < 10 {
      assert |ShowNat(n)| == 1;
    }
    if Canonical(s) && DecimalValue(s) == n {
      var c := s[|s| - 1];
      if |s| == 1 {
        assert s[..|s| - 1] == [];
        assert DecimalValue(s[..|s| - 1]) == 0;
        assert DecimalValue(s) == 10 * DecimalValue(s[..|s| - 1]) + DigitValue(c);
        assert s == [DigitChar(DigitValue(c))];
      } else {
        var p := s[..|s| - 1];
        assert p[0] == s[0];
        DecimalValueAtLeastLeadingDigit(p);
        assert n / 10 == DecimalValue(p) && n % 10 == DigitValue(c);
        ShowNatCanonical(n / 10, p);
        assert s == p + [DigitChar(DigitValue(c))];
      }
    }
  }

  /** Parsing inverts rendering exactly on the 32-bit range, and rejects
      every rendering outside it. */
  lemma ToIntOrNullOfShow(n: int)
    ensures ToIntOrNull(Show(n)) == (if InIntRange(n) then Some(n) else None)
  {
    if n < 0 {
      var s := Show(n);
      assert s[1..] == ShowNat(-n);
      DecimalValueOfShowNat(-n);
    } else {
      DecimalValueOfShowNat(n);
    }
  }

  lemma {:induction false} DecimalValueLeadingZero(s: string)
    requires AllDigits(s)
    ensures AllDigits("0" + s) && DecimalValue("0" + s) == DecimalValue(s)
    decreases |s|
  {
    var z := "0" + s;
    assert AllDigits(z) by {
      forall i | 0 <= i < |z| ensures IsDigit(z[i]) {
        if i > 0 { assert z[i] == s[i - 1]; }
      }
    }
    if |s| > 0 {
      assert z[..|z| - 1] == "0" + s[..|s| - 1];
      assert z[|z| - 1] == s[|s| - 1];
      DecimalValueLeadingZero(s[..|s| - 1]);
    }
  }

  /** Leading zeros do not change the parsed value: `007` reads as `7`. */
  lemma ToIntOrNullLeadingZero(s: string)
    requires IsDigits(s)
    ensures ToIntOrNull("0" + s) == ToIntOrNull(s)
  {
    DecimalValueLeadingZero(s);
  }

  /** A leading `+` is accepted and changes nothing. */
  lemma ToIntOrNullOfPlusShow(n: nat)
    ensures ToIntOrNull("+" + ShowNat(n)) == (if n <= IntMax then Some(n) else None)
  {
    var s := "+" + ShowNat(n);
    assert s[1..] == ShowNat(n);
    DecimalValueOfShowNat(n);
  }
}
