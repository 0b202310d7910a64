/** Decimal digit strings and the numbers they denote. */
module Decimals {

  function Pow10(k: nat): (p: nat)
    ensures p > 0
  {
    if k == 0 then 1 else 10 * Pow10(k - 1)
  }

  predicate IsDigit(c: char) { '0' <= c <= '9' }

  predicate IsDigits(s: string) {
    forall i :: 0 <= i < |s| ==> IsDigit(s[i])
  }

  function DigitOf(c: char): (d: nat)
    requires IsDigit(c)
    ensures d < 10
  {
    (c - '0') as int
  }

  function CharOf(d: nat): (c: char)
    requires d < 10
    ensures IsDigit(c) && DigitOf(c) == d
  {
    '0' + d as char
  }

  /** The number a digit string denotes; the empty string denotes zero. */
  function Val(s: string): nat
    requires IsDigits(s)
  {
    if s == "" then 0 else 10 * Val(s[..|s|-1]) + DigitOf(s[|s|-1])
  }

  /** The decimal text of a number, without leading zeros. */
  function Text(n: nat): (s: string)
    ensures s != "" && IsDigits(s)
  {
    if n < 10 then [CharOf(n)] else Text(n / 10) + [CharOf(n % 10)]
  }

  function Zeros(k: nat): (s: string)
    ensures |s| == k && forall i :: 0 <= i < k ==> s[i] == '0'
  {
    seq(k, _ => '0')
  }

  function TrimLeft(s: string): (r: string)
    ensures |r| <= |s|
    ensures s == Zeros(|s| - |r|) + r && (r == "" || r[0] != '0')
  {
    if s != "" && s[0] == '0' then
      var r := TrimLeft(s[1..]);
      assert s == [s[0]] + s[1..];
      assert Zeros(|s| - |r|) == ['0'] + Zeros(|s| - 1 - |r|);
      r
    else
      assert s == Zeros(0) + s;
      s
  }

  function TrimRight(s: string): (r: string)
    ensures |r| <= |s|
    ensures s == r + Zeros(|s| - |r|) && (r == "" || r[|r|-1] != '0')
  {
    if s != "" && s[|s|-1] == '0' then
      var r := TrimRight(s[..|s|-1]);
      assert s == s[..|s|-1] + [s[|s|-1]];
      assert Zeros(|s| - |r|) == Zeros(|s| - 1 - |r|) + ['0'];
      r
    else
      assert s == s + Zeros(0);
      s
  }

  // ---------- Laws ----------

  lemma {:induction false} ValText(n: nat)
    ensures Val(Text(n)) == n
  {
    if n >= 10 {
      ValText(n / 10);
      assert Text(n)[..|Text(n)|-1] == Text(n / 10);
    } else {
      assert Text(n)[..0] == "";
    }
  }

  lemma {:induction false} ValConcat(a: string, b: string)
    requires IsDigits(a) && IsDigits(b)
    ensures IsDigits(a + b) && Val(a + b) == Val(a) * Pow10(|b|) + Val(b)
  {
    if b == "" {
      assert a + b == a;
    } else {
      var m := |b| - 1;
      ValConcat(a, b[..m]);
      assert (a + b)[..|a + b| - 1] == a + b[..m];
      ValLast(a + b);
      ValLast(b);
      hide Val, Pow10;
      Shifted(Val(a), Pow10(m), Val(b[..m]));
    }
  }

  lemma ValLast(s: string)
    requires s != "" && IsDigits(s)
    ensures var m := |s| - 1; IsDigits(s[..m]) && Val(s) == 10 * Val(s[..m]) + Val([s[m]])
    ensures Pow10(|s|) == 10 * Pow10(|s| - 1)
  {
    assert [s[|s|-1]][..0] == "";
  }

  lemma Shifted(a: nat, p: nat, b: nat)
    ensures 10 * (a * p + b) == a * (10 * p) + 10 * b
  {
  }

  lemma {:induction false} ValZeros(k: nat)
    ensures IsDigits(Zeros(k)) && Val(Zeros(k)) == 0
  {
    if k > 0 {
      ValZeros(k - 1);
      assert Zeros(k)[..k-1] == Zeros(k - 1);
    }
  }

  lemma ValFilled(k: nat, s: string)
    requires IsDigits(s)
    ensures IsDigits(Zeros(k) + s) && Val(Zeros(k) + s) == Val(s)
  {
    ValZeros(k);
    ValConcat(Zeros(k), s);
  }

  lemma ValTrimLeft(s: string)
    requires IsDigits(s)
    ensures IsDigits(TrimLeft(s)) && Val(TrimLeft(s)) == Val(s)
  {
    var r := TrimLeft(s);
    assert IsDigits(r) by {
      forall i | 0 <= i < |r| ensures IsDigit(r[i]) { assert r[i] == s[|s| - |r| + i]; }
    }
    ValFilled(|s| - |r|, r);
  }

  lemma ValTrimRight(s: string)
    requires IsDigits(s)
    ensures IsDigits(TrimRight(s))
    ensures Val(s) == Val(TrimRight(s)) * Pow10(|s| - |TrimRight(s)|)
  {
    var r := TrimRight(s);
    assert IsDigits(r) by {
      forall i | 0 <= i < |r| ensures IsDigit(r[i]) { assert r[i] == s[i]; }
    }
    ValZeros(|s| - |r|);
    ValConcat(r, Zeros(|s| - |r|));
  }

  /** Only zeros trim away entirely. */
  lemma TrimRightEmpty(s: string)
    requires IsDigits(s)
    ensures TrimRight(s) == "" <==> Val(s) == 0
  {
    var r := TrimRight(s);
    ValTrimRight(s);
    if r != "" {
      assert r[|r|-1] == CharOf(DigitOf(r[|r|-1]));
      assert Val(r) > 0;
      Positive(Val(r), Pow10(|s| - |r|));
    }
  }

  lemma Positive(x: int, y: int)
    requires x > 0 && y > 0
    ensures x * y > 0
  {
  }

  lemma {:induction false} ValBound(s: string)
    requires IsDigits(s)
    ensures Val(s) < Pow10(|s|)
  {
    if s != "" { ValBound(s[..|s|-1]); }
  }

  lemma {:induction false} ValLead(s: string)
    requires IsDigits(s) && s != "" && s[0] != '0'
    ensures Val(s) >= Pow10(|s| - 1)
  {
    if |s| > 1 {
      ValLead(s[..|s|-1]);
    } else {
      assert s[..0] == "";
      assert s[0] == CharOf(DigitOf(s[0]));
    }
  }

  /** A digit string without leading zeros is the text of its number. */
  lemma {:induction false} TextVal(s: string)
    requires IsDigits(s) && s != "" && (s[0] != '0' || |s| == 1)
    ensures Text(Val(s)) == s
  {
    var init := s[..|s|-1];
    if |s| > 1 {
      ValLead(init);
      assert init[0] == s[0];
      TextVal(init);
      assert Val(s) / 10 == Val(init) && Val(s) % 10 == DigitOf(s[|s|-1]);
    } else {
      assert init == "";
    }
    assert CharOf(DigitOf(s[|s|-1])) == s[|s|-1];
    assert s == init + [s[|s|-1]];
  }

  lemma {:induction false} TextLead(n: nat)
    ensures n > 0 ==> Text(n)[0] != '0'
    ensures n == 0 ==> Text(n) == "0"
  {
    if n >= 10 { TextLead(n / 10); }
  }

  lemma {:induction false} TextLength(n: nat, k: nat)
    requires k > 0
    ensures |Text(n)| <= k <==> n < Pow10(k)
  {
    if n < 10 {
      assert Pow10(k) >= 10 by { PowGrows(1, k); assert Pow10(1) == 10 * Pow10(0); }
    } else if k == 1 {
      assert Pow10(1) == 10 * Pow10(0);
      assert |Text(n)| == |Text(n / 10)| + 1;
    } else {
      TextLength(n / 10, k - 1);
    }
  }

  lemma {:induction false} PowGrows(j: nat, k: nat)
    requires j <= k
    ensures Pow10(j) <= Pow10(k)
  {
    if j < k { PowGrows(j, k - 1); }
  }

  lemma {:induction false} PowAdd(j: nat, k: nat)
    ensures Pow10(j + k) == Pow10(j) * Pow10(k)
  {
    if j > 0 {
      PowAdd(j - 1, k);
      assert 10 * (Pow10(j - 1) * Pow10(k)) == (10 * Pow10(j - 1)) * Pow10(k);
    }
  }

  /** Whole units of `n` in units of `10^-d`. */
  function Whole(n: nat, d: nat): nat { Quotient(n, Pow10(d)) }

  function Quotient(n: nat, p: int): nat
    requires p > 0
  {
    n / p
  }

  /** What is left of `n` below one whole unit. */
  function Part(n: nat, d: nat): nat { n % Pow10(d) }

  lemma Divided(n: nat, d: nat)
    ensures Part(n, d) < Pow10(d) && n == Whole(n, d) * Pow10(d) + Part(n, d)
  {
  }

  lemma DividedUnique(n: nat, d: nat, q: nat, r: nat)
    requires r < Pow10(d) && n == q * Pow10(d) + r
    ensures Whole(n, d) == q && Part(n, d) == r
  {
    Divided(n, d);
    var w, p := Whole(n, d), Pow10(d);
    hide Whole, Part, Pow10;
    assert (w - q) * p == r - Part(n, d);
    assert (w - q) * p < p && -p < (w - q) * p;
    Small(w - q, p);
  }

  lemma Small(x: int, p: int)
    requires p > 0 && -p < x * p < p
    ensures x == 0
  {
    Ordered(x, 1, p);
    Ordered(-1, x, p);
  }

  lemma Ordered(x: int, y: int, p: int)
    requires p > 0
    ensures x * p < y * p <==> x < y
  {
    assert y * p - x * p == (y - x) * p;
  }

  // ---------- Texts with a decimal point ----------

  /** `n / 10^d` written with as few decimals as possible. */
  function Point(n: nat, d: nat): string {
    Divided(n, d);
    var frac := TrimRight(Padded(Part(n, d), d));
    Text(Whole(n, d)) + (if frac == "" then "" else "." + frac)
  }

  /** The last `d` digits of the text of `r`, filled with zeros on the left. */
  function Padded(r: nat, d: nat): (s: string)
    requires r < Pow10(d)
    ensures |s| == d
  {
    if d == 0 then ""
    else
      TextLength(r, d);
      Zeros(d - |Text(r)|) + Text(r)
  }

  lemma ValPadded(r: nat, d: nat)
    requires r < Pow10(d)
    ensures IsDigits(Padded(r, d)) && Val(Padded(r, d)) == r
  {
    if d > 0 {
      TextLength(r, d);
      ValText(r);
      ValFilled(d - |Text(r)|, Text(r));
      hide Text, Val, Pow10;
    }
  }

  /** Whole and fractional digits of a text, in units of `10^-d`. */
  ghost predicate Denotes(text: string, d: nat, n: nat) {
    exists whole, frac :: Reads(text, whole, frac, d, n)
  }

  ghost predicate Reads(text: string, whole: string, frac: string, d: nat, n: nat) {
    && IsDigits(whole) && IsDigits(frac) && whole != ""
    && text == whole + (if frac == "" then "" else "." + frac)
    && |frac| <= d
    && n == Val(whole) * Pow10(d) + Val(frac) * Pow10(d - |frac|)
  }

  /** Shortest form: no superfluous zero before the point and none at the end. */
  ghost predicate Shortest(text: string) {
    exists whole, frac ::
      && IsDigits(whole) && IsDigits(frac) && whole != ""
      && text == whole + (if frac == "" then "" else "." + frac)
      && (whole[0] != '0' || |whole| == 1)
      && (frac == "" || frac[|frac|-1] != '0')
  }

  /** `Point` writes the exact value, in shortest form. */
  lemma PointDenotes(n: nat, d: nat)
    ensures Denotes(Point(n, d), d, n) && Shortest(Point(n, d))
  {
    hide Pow10, Val;
    Divided(n, d);
    var w, r := Whole(n, d), Part(n, d);
    var padded := Padded(r, d);
    var whole, frac := Text(w), TrimRight(padded);
    ValText(w);
    TextLead(w);
    ValPadded(r, d);
    ValTrimRight(padded);
    assert w == 0 ==> |whole| == 1;
    hide Whole, Part, Pow10, Val, Padded, TrimRight, Text;
    assert Reads(Point(n, d), whole, frac, d, n);
    assert whole[0] != '0' || |whole| == 1;
  }
}
