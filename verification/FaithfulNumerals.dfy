/** Doubles can be printed faithfully: the requirement of the canonical-form theorems can be met. */
module FaithfulNumerals {
  import opened Prelude
  import opened Ast
  import opened CanonicalProgram
  import CJ = CanonicalJson
  import F = Formula

  function WholeText(n: nat): string {
    F.Decimal(n)
  }

  function IntegerText(i: int): string {
    if i < 0 then "-" + F.Decimal(-i) else F.Decimal(i)
  }

  /** A significand and a binary exponent of a double. */
  ghost function Parts(x: Double): (r: (int, int))
    ensures Scaled(x, r.0, r.1)
  {
    assert IsDouble(x);
    var m: int, e: int :|
      -9_007_199_254_740_992 < m < 9_007_199_254_740_992 && -1074 <= e <= 971 && Scaled(x, m, e);
    (m, e)
  }

  ghost function DoubleText(x: Double): string {
    IntegerText(Parts(x).0) + "e" + IntegerText(Parts(x).1)
  }

  lemma WholeReads(a: nat, b: nat)
    requires WholeText(a) == WholeText(b)
    ensures a == b
  {
    F.ValueOfDecimal(a);
    F.ValueOfDecimal(b);
  }

  lemma IntegerReads(a: int, b: int)
    requires IntegerText(a) == IntegerText(b)
    ensures a == b
  {
    assert IntegerText(a)[0] == '-' <==> a < 0;
    assert IntegerText(b)[0] == '-' <==> b < 0;
    if a < 0 {
      assert IntegerText(a)[1..] == F.Decimal(-a) && IntegerText(b)[1..] == F.Decimal(-b);
      WholeReads(-a, -b);
    } else {
      WholeReads(a, b);
    }
  }

  lemma IntegerChars(i: int)
    ensures 'e' !in IntegerText(i)
  {
  }

  /** Decimal digits without a leading zero. */
  lemma {:induction false} WholeDigits(n: nat)
    ensures CJ.Digits(WholeText(n)) && (WholeText(n)[0] == '0' ==> n == 0 && |WholeText(n)| == 1)
  {
    if n >= 10 {
      WholeDigits(n / 10);
    }
  }

  /** A text splits at its only `e` in one way. */
  lemma SplitsOnce(a: string, b: string, c: string, d: string)
    requires 'e' !in a && 'e' !in c && a + "e" + b == c + "e" + d
    ensures a == c && b == d
  {
    var s, t := a + "e" + b, c + "e" + d;
    assert s[|a|] == 'e' && t[|c|] == 'e';
    assert forall k | 0 <= k < |a| :: s[k] == a[k];
    assert forall k | 0 <= k < |c| :: t[k] == c[k];
    assert |a| == |c|;
    assert a == s[..|a|] && c == t[..|c|] && b == s[|a| + 1..] && d == t[|c| + 1..];
  }

  lemma ScaledOnce(x: real, y: real, m: int, e: int)
    requires Scaled(x, m, e) && Scaled(y, m, e)
    ensures x == y
  {
    if e < 0 {
      PowerPositive(-e);
      hide Power2;
      var p := Power2(-e) as real;
      assert x * p == m as real && y * p == m as real && p > 0.0;
      SameQuotient(x, y, p);
    }
  }

  lemma PowerPositive(e: nat)
    ensures Power2(e) > 0
  {
  }

  lemma SameQuotient(x: real, y: real, p: real)
    requires p > 0.0 && x * p == y * p
    ensures x == y
  {
    assert (x - y) * p == 0.0;
  }

  lemma DoublesPrintApart(x: Double, y: Double)
    requires DoubleText(x) == DoubleText(y)
    ensures x == y
  {
    hide IntegerText;
    var (m, e) := Parts(x);
    var (k, f) := Parts(y);
    IntegerChars(m);
    IntegerChars(k);
    SplitsOnce(IntegerText(m), IntegerText(e), IntegerText(k), IntegerText(f));
    IntegerReads(m, k);
    IntegerReads(e, f);
    ScaledOnce(x, y, m, e);
  }

  lemma DoublePrints(x: Double)
    ensures CJ.NumberToken(DoubleText(x))
  {
    var (m, e) := Parts(x);
    var sign, whole := if m < 0 then "-" else "", WholeText(if m < 0 then -m else m);
    var exponent := "e" + IntegerText(e);
    WholeDigits(if m < 0 then -m else m);
    ExponentPrints(e);
    assert CJ.NumberParts(sign, whole, "", exponent);
    assert DoubleText(x) == sign + whole + "" + exponent;
  }

  lemma ExponentPrints(e: int)
    ensures CJ.ExponentPart("e" + IntegerText(e))
  {
    WholeDigits(if e < 0 then -e else e);
    var s := "e" + IntegerText(e);
    if e < 0 {
      assert s[1] == '-' && s[2..] == WholeText(-e);
    } else {
      assert s[1..] == WholeText(e);
    }
  }

  /** Faithful numerals exist: every double and every whole number prints as a JSON number, and different
      ones print differently. */
  lemma FaithfulNumeralsExist() returns (n: Numerals)
    ensures Faithful(n)
  {
    hide DoubleText, WholeText, CJ.NumberToken;
    n := Numerals((x: Double) => DoubleText(x), (w: nat) => WholeText(w));
    forall x: Double
      ensures CJ.NumberToken(n.float(x))
    {
      DoublePrints(x);
    }
    forall w: nat
      ensures CJ.NumberToken(n.whole(w))
    {
      WholePrints(w);
    }
    forall x: Double, y: Double | n.float(x) == n.float(y)
      ensures x == y
    {
      DoublesPrintApart(x, y);
    }
    forall x: nat, y: nat | n.whole(x) == n.whole(y)
      ensures x == y
    {
      WholeReads(x, y);
    }
  }

  lemma WholePrints(w: nat)
    ensures CJ.NumberToken(WholeText(w))
  {
    WholeDigits(w);
    assert CJ.NumberParts("", WholeText(w), "", "");
    assert WholeText(w) == "" + WholeText(w) + "" + "";
  }
}
