/**
Names of per-layer entries: a bank's name, a marker and the layer in five digits.
*/
module FtwNames {
  import opened Wrappers

  predicate IsDigit(c: char) { '0' <= c <= '9' }

  function DigitChar(d: nat): (c: char)
    requires d < 10
    ensures IsDigit(c) && DigitOf(c) == d
  {
    (d + '0' as int) as char
  }

  function DigitOf(c: char): (d: nat)
    requires IsDigit(c)
    ensures d < 10
  {
    c as int - '0' as int
  }

  /** Decimal notation without leading zeros. */
  function Decimal(n: nat): string {
    if n < 10 then [DigitChar(n)] else Decimal(n / 10) + [DigitChar(n % 10)]
  }

  predicate Digits(s: string) { forall i :: 0 <= i < |s| ==> IsDigit(s[i]) }

  function Value(s: string): nat
    requires Digits(s)
  {
    if s == [] then 0 else Value(s[..|s| - 1]) * 10 + DigitOf(s[|s| - 1])
  }

  function Zeros(n: nat): (z: string)
    ensures |z| == n && forall i :: 0 <= i < n ==> z[i] == '0'
  {
    seq(n, _ => '0')
  }

  /** Decimal notation filled with zeros to at least five characters. */
  function FiveDigits(n: nat): string {
    var d := Decimal(n);
    Zeros(if |d| < 5 then 5 - |d| else 0) + d
  }

  function LayerName(bank: string, layer: nat): string {
    bank + "#L" + FiveDigits(layer)
  }

  /**
  The name is a bank (one character or more, no line break), the marker and five digits; a final line break is
  ignored.
  */
  function ParseName(name: string): Option<(string, nat)> {
    var n := if name != "" && name[|name| - 1] == '\n' then name[..|name| - 1] else name;
    if |n| >= 8 && n[|n| - 7..|n| - 5] == "#L" && Digits(n[|n| - 5..]) && '\n' !in n[..|n| - 7]
    then Some((n[..|n| - 7], Value(n[|n| - 5..])))
    else None
  }

  lemma {:induction false} DecimalValue(n: nat)
    ensures Digits(Decimal(n)) && Value(Decimal(n)) == n && Decimal(n) != ""
  {
    if n >= 10 {
      DecimalValue(n / 10);
      assert Decimal(n)[..|Decimal(n)| - 1] == Decimal(n / 10);
    } else {
      assert Decimal(n)[..0] == "";
    }
  }

  lemma {:induction false} LeadingZeros(k: nat, s: string)
    requires Digits(s)
    ensures Digits(Zeros(k) + s) && Value(Zeros(k) + s) == Value(s)
    decreases |s|, k
  {
    var t := Zeros(k) + s;
    if s != "" {
      LeadingZeros(k, s[..|s| - 1]);
      assert t[..|t| - 1] == Zeros(k) + s[..|s| - 1];
    } else if k > 0 {
      LeadingZeros(k - 1, "");
      assert t[..k - 1] == Zeros(k - 1) + "";
    }
  }

  function Pow10(k: nat): (p: nat)
    ensures p > 0
  {
    if k == 0 then 1 else 10 * Pow10(k - 1)
  }

  /** A number has at most k digits exactly when it is below 10^k. */
  lemma {:induction false} DecimalWidth(n: nat, k: nat)
    requires k > 0
    ensures |Decimal(n)| <= k <==> n < Pow10(k)
  {
    if n >= 10 {
      DecimalValue(n / 10);
      if k > 1 { DecimalWidth(n / 10, k - 1); }
      assert n == n / 10 * 10 + n % 10;
    } else if k > 1 {
      DecimalWidth(n, k - 1);
    }
  }

  lemma FiveIff(n: nat)
    ensures |Decimal(n)| <= 5 <==> n < 100000
  {
    DecimalWidth(n, 5);
    assert Pow10(5) == 10 * Pow10(4) == 100 * Pow10(3) == 1000 * Pow10(2) == 10000 * Pow10(1) == 100000 * Pow10(0);
  }

  /**
  Printing and parsing a layer entry's name gives the bank and layer back exactly below layer 100000; beyond, nothing.
  */
  lemma NameParses(bank: string, layer: nat)
    requires bank != "" && '\n' !in bank
    ensures ParseName(LayerName(bank, layer)) == if layer < 100000 then Some((bank, layer)) else None
  {
    var d := Decimal(layer);
    DecimalValue(layer);
    FiveIff(layer);
    var n := LayerName(bank, layer);
    assert n[|n| - 1] == d[|d| - 1];
    if layer < 100000 {
      LeadingZeros(5 - |d|, d);
      assert n[|n| - 5..] == FiveDigits(layer);
      assert n[|n| - 7..|n| - 5] == "#L";
      assert n[..|n| - 7] == bank;
    } else {
      assert n[|n| - 6] == d[|d| - 6];
      assert n[|n| - 7..|n| - 5][1] == d[|d| - 6];
    }
  }

  /** Whatever the parser accepts was printed, up to a final line break. */
  lemma ParsedWasPrinted(name: string)
    ensures match ParseName(name)
            case Some((bank, layer)) =>
              layer < 100000 && bank != "" && (name == LayerName(bank, layer) || name == LayerName(bank, layer) + "\n")
            case None => true
  {
    if ParseName(name).Some? {
      var n := if name[|name| - 1] == '\n' then name[..|name| - 1] else name;
      FiveDigitsBack(n[|n| - 5..]);
      assert n == n[..|n| - 7] + n[|n| - 7..|n| - 5] + n[|n| - 5..];
    }
  }

  lemma FiveDigitsBack(s: string)
    requires |s| == 5 && Digits(s)
    ensures Value(s) < 100000 && FiveDigits(Value(s)) == s
  {
    DigitsBack(s);
    FiveIff(Value(s));
  }

  /** A row of digits is the decimal notation of its value, filled up with zeros. */
  lemma {:induction false} DigitsBack(s: string)
    requires s != "" && Digits(s)
    ensures |Decimal(Value(s))| <= |s|
    ensures Zeros(|s| - |Decimal(Value(s))|) + Decimal(Value(s)) == s
    decreases |s|
  {
    var t, v := s[..|s| - 1], Value(s);
    var d := DigitOf(s[|s| - 1]);
    assert s == t + [DigitChar(d)];
    if t == "" {
      assert Value(t) == 0;
    } else {
      DigitsBack(t);
      assert v / 10 == Value(t) && v % 10 == d;
      if v < 10 {
        assert Decimal(0) == [DigitChar(0)];
        assert Zeros(|t|) == t;
      }
    }
  }
}
