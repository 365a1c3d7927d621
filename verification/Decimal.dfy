/** Decimal text of natural numbers. */
module Decimal {
  predicate IsDigit(c: char) { '0' <= c <= '9' }

  ghost predicate Digits(s: string) { forall k :: 0 <= k < |s| ==> IsDigit(s[k]) }

  function Print(n: nat): (s: string)
    ensures s != "" && Digits(s)
  {
    var last := ['0' + (n % 10) as char];
    if n < 10 then last else Print(n / 10) + last
  }

  function ParseNat(s: string): nat
    requires Digits(s)
  {
    if s == "" then 0 else 10 * ParseNat(s[..|s| - 1]) + (s[|s| - 1] - '0') as int
  }

  lemma {:induction false} PrintParse(n: nat)
    ensures ParseNat(Print(n)) == n
  {
    if n >= 10 {
      PrintParse(n / 10);
      assert Print(n)[..|Print(n)| - 1] == Print(n / 10);
    }
  }

  /** `String(n).padStart(2, '0')` */
  function Pad2(n: nat): (s: string)
    ensures Digits(s) && |s| >= 2
  {
    if n < 10 then "0" + Print(n) else Print(n)
  }

  lemma Pad2Parse(n: nat)
    requires n < 100
    ensures |Pad2(n)| == 2 && ParseNat(Pad2(n)) == n
  {
    PrintParse(n);
    if n < 10 {
      assert ParseNat(Pad2(n)) == 10 * ParseNat("0") + n by { assert Pad2(n)[..1] == "0"; }
      assert "0"[..0] == "";
    } else {
      assert |Print(n / 10)| == 1;
    }
  }
}
