/** Decimal numerals as the program prints and reads them. It prints ASCII digits; it reads every character
    that Unicode counts as a decimal digit. */
module Decimal {
  import opened Wrappers

  /** Which characters are decimal digits, and of what value. */
  type Digits = char -> Option<nat>

  /** A table of decimal digits that extends the ASCII ones; Unicode has no other below '0'. */
  ghost predicate DecimalDigits(digits: Digits) {
    && (forall c :: digits(c).Some? ==> digits(c).value < 10 && c >= '0')
    && forall c :: IsDigit(c) ==> digits(c) == Some(c as int - '0' as int)
  }

  /** An ASCII digit. */
  predicate IsDigit(c: char) {
    '0' <= c <= '9'
  }

  predicate AllDigits(s: string, digits: Digits) {
    forall i :: 0 <= i < |s| ==> digits(s[i]).Some?
  }

  /** A nonempty run of digits. */
  predicate Numeral(s: string, digits: Digits) {
    s != "" && AllDigits(s, digits)
  }

  /** ASCII digits without a needless leading zero. */
  predicate Canonical(s: string) {
    s != "" && (forall i :: 0 <= i < |s| ==> IsDigit(s[i])) && (|s| == 1 || s[0] != '0')
  }

  function DigitChar(d: nat): char
    requires d < 10
  {
    ('0' as int + d) as char
  }

  function Value(s: string, digits: Digits): nat
    requires AllDigits(s, digits)
  {
    if s == "" then 0 else 10 * Value(s[..|s| - 1], digits) + digits(s[|s| - 1]).value
  }

  function Render(n: nat): string {
    if n < 10 then [DigitChar(n)] else Render(n / 10) + [DigitChar(n % 10)]
  }

  lemma {:induction false} RenderIsCanonical(n: nat)
    ensures Canonical(Render(n))
    ensures Render(n)[0] == '0' ==> n == 0
  {
    if n >= 10 {
      RenderIsCanonical(n / 10);
    }
  }

  lemma {:induction false} ValueOfRender(n: nat, digits: Digits)
    requires DecimalDigits(digits)
    ensures Numeral(Render(n), digits) && Value(Render(n), digits) == n
  {
    RenderIsCanonical(n);
    if n >= 10 {
      ValueOfRender(n / 10, digits);
      assert Render(n)[..|Render(n)| - 1] == Render(n / 10);
    }
  }

  /** Reading and printing a numeral gives it back exactly when it is in ASCII and has no leading zero. */
  lemma {:induction false} RenderOfValue(s: string, digits: Digits)
    requires DecimalDigits(digits) && Numeral(s, digits)
    ensures Render(Value(s, digits)) == s <==> Canonical(s)
    ensures |Render(Value(s, digits))| <= |s|
  {
    RenderIsCanonical(Value(s, digits));
    var init, last := s[..|s| - 1], s[|s| - 1];
    assert s == init + [last];
    if init != "" {
      RenderOfValue(init, digits);
      OneMoreDigit(init, last, digits);
    }
  }

  lemma OneMoreDigit(init: string, last: char, digits: Digits)
    requires DecimalDigits(digits) && Numeral(init, digits) && digits(last).Some?
    requires Render(Value(init, digits)) == init <==> Canonical(init)
    requires |Render(Value(init, digits))| <= |init|
    ensures var n := 10 * Value(init, digits) + digits(last).value;
            (Render(n) == init + [last] <== Canonical(init + [last])) && |Render(n)| <= |init| + 1
  {
    var high, low := Value(init, digits), digits(last).value;
    RenderStep(high, low);
    if Canonical(init + [last]) {
      CanonicalParts(init, last);
      assert DigitChar(low) == last;
    }
  }

  lemma RenderStep(high: nat, low: nat)
    requires low < 10
    ensures |Render(10 * high + low)| <= |Render(high)| + 1
    ensures Render(high)[..1] != "0" ==> Render(10 * high + low) == Render(high) + [DigitChar(low)]
  {
    if high > 0 {
      assert (10 * high + low) / 10 == high && (10 * high + low) % 10 == low;
    } else {
      assert Render(0) == "0";
    }
  }

  lemma CanonicalParts(init: string, last: char)
    requires init != "" && Canonical(init + [last])
    ensures Canonical(init) && init[..1] != "0" && IsDigit(last)
  {
    var s := init + [last];
    assert s[0] == init[0] && s[|init|] == last;
    assert init[..1][0] == init[0];
    assert forall i :: 0 <= i < |init| ==> init[i] == s[i];
  }
}
