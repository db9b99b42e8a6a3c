/** Decimal numerals, as strconv writes them for the non-negative numbers that appear
    in paths and in authenticated data. */
module Decimal {

  predicate IsDigit(c: char) {
    '0' <= c <= '9'
  }

  predicate AllDigits(s: string) {
    forall i | 0 <= i < |s| :: IsDigit(s[i])
  }

  function Digit(d: nat): char
    requires d < 10
  {
    '0' + d as char
  }

  function Render(n: nat): string {
    if n < 10 then [Digit(n)] else Render(n / 10) + [Digit(n % 10)]
  }

  function Value(s: string): int {
    if s == "" then 0 else 10 * Value(s[..|s| - 1]) + (s[|s| - 1] as int - '0' as int)
  }

  /** A numeral is made of digits and can be read back. */
  lemma {:induction false} RenderIsReadable(n: nat)
    ensures |Render(n)| > 0 && AllDigits(Render(n)) && Value(Render(n)) == n
  {
    if n >= 10 {
      RenderIsReadable(n / 10);
      var s := Render(n);
      assert s[..|s| - 1] == Render(n / 10);
    } else {
      assert Render(n)[..0] == "";
    }
  }

  lemma {:induction false} RenderIsInjective(m: nat, n: nat)
    requires Render(m) == Render(n)
    ensures m == n
  {
    RenderIsReadable(m);
    RenderIsReadable(n);
  }
}
