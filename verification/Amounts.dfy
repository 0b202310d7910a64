/** Decimal token amounts and integer base units. */
module Amounts {
  import opened Wrappers
  import opened Decimals
  import opened Strings

  const MAX_DECIMALS := 77
  const MAX_INPUT := 128
  const MAX_DIGITS := 78

  datatype AmountError = BadDecimals | Empty | TooLong | Malformed | TooFine | NotPositive

  /** Text before and after the first point; no second part without a point. */
  function Cut(s: string): (r: (string, Option<string>))
    ensures r.1.None? ==> r.0 == s && '.' !in s
    ensures r.1.Some? ==> s == r.0 + "." + r.1.value && '.' !in r.0
  {
    if s == "" then ("", None)
    else if s[0] == '.' then
      assert s == "" + "." + s[1..];
      ("", Some(s[1..]))
    else
      var (a, b) := Cut(s[1..]);
      assert s == [s[0]] + s[1..];
      if b.None? then (s, None)
      else
        assert s == ([s[0]] + a) + "." + b.value;
        ([s[0]] + a, b)
  }

  function ParseParts(v: string, decimals: nat): Result<(string, string), AmountError> {
    var s := TrimSpace(v);
    if s == "" then Err(Empty)
    else if ByteLen(s) > MAX_INPUT then Err(TooLong)
    else if s[0] == '+' || s[0] == '-' || 'e' in s || 'E' in s then Err(Malformed)
    else
      var (whole, rest) := Cut(s);
      if rest.Some? && '.' in rest.value then Err(Malformed)
      else if whole == "" then Err(Malformed)
      else if rest == Some("") then Err(Malformed)
      else
        var frac := if rest.Some? then rest.value else "";
        if |frac| > decimals then Err(TooFine)
        else if !IsDigits(whole + frac) then Err(Malformed)
        else Ok((whole, frac))
  }

  function ToBaseUnitInt(v: string, decimals: nat): Result<nat, AmountError> {
    if decimals > MAX_DECIMALS then Err(BadDecimals)
    else
      var parts := ParseParts(v, decimals);
      if parts.Err? then Err(parts.error)
      else
        var (whole, frac) := parts.value;
        Assembled(whole, frac, decimals);
        var s := TrimLeft(whole + (frac + Zeros(decimals - |frac|)));
        if s == "" then Err(NotPositive)
        else if |s| > MAX_DIGITS then Err(TooLong)
        else if Val(s) == 0 then Err(Malformed)
        else Ok(Val(s))
  }

  function FormatBaseUnitInt(amount: int, decimals: nat): Result<string, AmountError> {
    if decimals > MAX_DECIMALS then Err(BadDecimals)
    else if amount <= 0 then Err(NotPositive)
    else
      var s := Text(amount);
      if |s| > MAX_DIGITS then Err(TooLong)
      else if decimals == 0 then Ok(s)
      else
        var t := if |s| <= decimals then Zeros(decimals - |s| + 1) + s else s;
        var whole, frac := t[..|t| - decimals], TrimRight(t[|t| - decimals..]);
        if frac == "" then Ok(whole) else Ok(whole + "." + frac)
  }

  // ---------- Parsing ----------

  /** Digits assembled for the integer denote whole and fraction in base units. */
  lemma Assembled(whole: string, frac: string, d: nat)
    requires |frac| <= d && IsDigits(whole + frac)
    ensures
      var s := whole + (frac + Zeros(d - |frac|));
      && IsDigits(whole) && IsDigits(frac) && IsDigits(s) && IsDigits(TrimLeft(s))
      && Val(TrimLeft(s)) == Val(whole) * Pow10(d) + Val(frac) * Pow10(d - |frac|)
  {
    assert forall i :: 0 <= i < |whole| ==> whole[i] == (whole + frac)[i];
    assert forall i :: 0 <= i < |frac| ==> frac[i] == (whole + frac)[|whole| + i];
    var z := Zeros(d - |frac|);
    ValZeros(d - |frac|);
    ValConcat(frac, z);
    ValConcat(whole, frac + z);
    ValTrimLeft(whole + (frac + z));
  }

  /** A positive number of at most 78 digits. */
  predicate Storable(n: int) { n > 0 && |Text(n)| <= MAX_DIGITS }

  /** The digits without leading zeros are the text of their number. */
  lemma DigitLimits(s: string)
    requires IsDigits(s) && (s == "" || s[0] != '0')
    ensures s == "" <==> Val(s) == 0
    ensures s != "" ==> Text(Val(s)) == s
  {
    hide Pow10;
    if s != "" {
      ValLead(s);
      TextVal(s);
    }
  }

  lemma CutUnique(s: string, whole: string, frac: string)
    requires '.' !in whole && '.' !in frac
    requires s == whole + (if frac == "" then "" else "." + frac)
    ensures Cut(s) == (whole, if frac == "" then None else Some(frac))
  {
    if whole == "" {
      if frac != "" { assert s[1..] == frac; }
    } else {
      assert s[0] == whole[0];
      assert s[1..] == whole[1..] + (if frac == "" then "" else "." + frac);
      CutUnique(s[1..], whole[1..], frac);
      assert whole == [s[0]] + whole[1..];
      assert frac == "" ==> s == whole;
    }
  }

  /** Parsing accepts exactly the texts that denote a positive integer number of base units
      of at most 78 digits, and returns that integer. */
  lemma ParseExact(v: string, decimals: nat, n: nat)
    ensures ToBaseUnitInt(v, decimals) == Ok(n) <==>
              && decimals <= 77 && ByteLen(TrimSpace(v)) <= 128
              && Denotes(TrimSpace(v), decimals, n) && n > 0 && |Text(n)| <= 78
  {
    hide Pow10, TrimLeft, Val, TrimSpace, ByteLen;
    var s := TrimSpace(v);
    if decimals <= MAX_DECIMALS {
      if ToBaseUnitInt(v, decimals) == Ok(n) {
        ParsedDenotes(v, decimals, n);
      }
      if ByteLen(s) <= MAX_INPUT && Denotes(s, decimals, n) && Storable(n) {
        DenotedParses(v, decimals, n);
      }
    }
  }

  lemma ParsedDenotes(v: string, decimals: nat, n: nat)
    requires ToBaseUnitInt(v, decimals) == Ok(n)
    ensures ByteLen(TrimSpace(v)) <= MAX_INPUT
    ensures Denotes(TrimSpace(v), decimals, n) && Storable(n)
  {
    hide Pow10, TrimLeft, Val, TrimSpace, ByteLen, Zeros;
    var (whole, frac) := ParseParts(v, decimals).value;
    Assembled(whole, frac, decimals);
    DigitLimits(TrimLeft(whole + (frac + Zeros(decimals - |frac|))));
    assert Reads(TrimSpace(v), whole, frac, decimals, n);
  }

  lemma DigitsPlain(s: string)
    requires IsDigits(s)
    ensures '.' !in s && 'e' !in s && 'E' !in s && '+' !in s && '-' !in s
  {
  }

  /** The parts of a plain decimal text are found again. */
  lemma PartsFound(v: string, decimals: nat, n: nat, whole: string, frac: string)
    requires decimals <= MAX_DECIMALS && ByteLen(TrimSpace(v)) <= MAX_INPUT
    requires Reads(TrimSpace(v), whole, frac, decimals, n)
    ensures ParseParts(v, decimals) == Ok((whole, frac))
  {
    hide Pow10, TrimLeft, Val, TrimSpace, ByteLen;
    var s := TrimSpace(v);
    DigitsPlain(whole);
    DigitsPlain(frac);
    CutUnique(s, whole, frac);
    assert s[0] == whole[0];
  }

  lemma DenotedParses(v: string, decimals: nat, n: nat)
    requires decimals <= MAX_DECIMALS && ByteLen(TrimSpace(v)) <= MAX_INPUT
    requires Denotes(TrimSpace(v), decimals, n) && Storable(n)
    ensures ToBaseUnitInt(v, decimals) == Ok(n)
  {
    hide Pow10, TrimLeft, Val, TrimSpace, ByteLen, ParseParts, Text;
    var whole, frac :| Reads(TrimSpace(v), whole, frac, decimals, n);
    PartsFound(v, decimals, n, whole, frac);
    Assembled(whole, frac, decimals);
    DigitLimits(TrimLeft(whole + (frac + Zeros(decimals - |frac|))));
  }

  // ---------- Formatting ----------

  lemma {:induction false} SameDigits(a: string, b: string)
    requires IsDigits(a) && IsDigits(b) && |a| == |b| && Val(a) == Val(b)
    ensures a == b
  {
    if a != "" {
      var m := |a| - 1;
      SameDigits(a[..m], b[..m]);
      assert a[m] == CharOf(DigitOf(a[m])) && b[m] == CharOf(DigitOf(b[m]));
      assert a == a[..m] + [a[m]] && b == b[..m] + [b[m]];
    }
  }

  /** Slicing the padded digits is division by a power of ten. */
  lemma SliceDivides(t: string, d: nat, n: nat)
    requires IsDigits(t) && |t| > d && Val(t) == n
    requires t[0] != '0' || |t| == d + 1
    ensures Part(n, d) < Pow10(d)
    ensures t[..|t| - d] == Text(Whole(n, d)) && t[|t| - d..] == Padded(Part(n, d), d)
  {
    var whole, low := t[..|t| - d], t[|t| - d..];
    assert t == whole + low;
    ValConcat(whole, low);
    ValBound(low);
    DividedUnique(n, d, Val(whole), Val(low));
    TextVal(whole);
    ValPadded(Val(low), d);
    SameDigits(low, Padded(Val(low), d));
  }

  /** The digits the source splits and trims are those of the quotient and the rest. */
  lemma PaddedSplit(n: nat, decimals: nat, t: string)
    requires n > 0
    requires t == if |Text(n)| <= decimals then Zeros(decimals - |Text(n)| + 1) + Text(n) else Text(n)
    ensures |t| > decimals
    ensures
      var whole, frac := t[..|t| - decimals], TrimRight(t[|t| - decimals..]);
      Point(n, decimals) == whole + (if frac == "" then "" else "." + frac)
  {
    TextLead(n);
    ValText(n);
    if |Text(n)| <= decimals { ValFilled(decimals - |Text(n)| + 1, Text(n)); }
    SliceDivides(t, decimals, n);
  }

  /** Formatting accepts exactly the positive integers of at most 78 digits, and writes the
      shortest exact text. */
  lemma FormatExact(n: int, decimals: nat)
    ensures FormatBaseUnitInt(n, decimals) ==
              if decimals > 77 then Err(BadDecimals)
              else if n <= 0 then Err(NotPositive)
              else if |Text(n)| > 78 then Err(TooLong)
              else Ok(Point(n, decimals))
  {
    hide Pow10, Point, Text, TrimRight, Zeros;
    if decimals <= MAX_DECIMALS && n > 0 {
      var s := Text(n);
      var t := if |s| <= decimals then Zeros(decimals - |s| + 1) + s else s;
      PaddedSplit(n, decimals, t);
      var whole, frac := t[..|t| - decimals], TrimRight(t[|t| - decimals..]);
      assert decimals == 0 ==> whole == s && frac == "";
      assert whole + "." + frac == whole + ("." + frac) && whole + "" == whole;
    }
  }

  lemma PointLength(n: nat, d: nat)
    requires Storable(n) && d <= MAX_DECIMALS
    ensures |Point(n, d)| <= MAX_DIGITS + 1
  {
    hide Pow10, Whole, Part, TrimRight, Text;
    Divided(n, d);
    PowAdd(MAX_DIGITS - d, d);
    TextLength(n, MAX_DIGITS);
    var w, p, q := Whole(n, d), Pow10(d), Pow10(MAX_DIGITS - d);
    assert w * p < q * p;
    Ordered(w, q, p);
    TextLength(w, MAX_DIGITS - d);
    ValPadded(Part(n, d), d);
  }

  lemma PointPlain(n: nat, d: nat)
    ensures TrimSpace(Point(n, d)) == Point(n, d) && ByteLen(Point(n, d)) == |Point(n, d)|
  {
    hide Val, ByteLen, TrimSpace;
    Divided(n, d);
    var r := Part(n, d);
    ValPadded(r, d);
    ValTrimRight(Padded(r, d));
    hide Pow10, Whole, Part, TrimRight, Text, Padded, ByteLen, TrimSpace, Val;
    var p := Point(n, d);
    assert forall i :: 0 <= i < |p| ==> IsDigit(p[i]) || p[i] == '.';
    TrimNothing(p);
    AsciiBytes(p);
  }

  // ---------- Round trips ----------

  /** Parsing a formatted amount returns the amount. */
  lemma FormatThenParse(n: int, decimals: nat)
    requires Storable(n) && decimals <= MAX_DECIMALS
    ensures FormatBaseUnitInt(n, decimals).Ok?
    ensures ToBaseUnitInt(FormatBaseUnitInt(n, decimals).value, decimals) == Ok(n)
  {
    hide Pow10;
    FormatExact(n, decimals);
    PointLength(n, decimals);
    PointPlain(n, decimals);
    PointDenotes(n, decimals);
    ParseExact(Point(n, decimals), decimals, n);
  }

  /** Formatting what an accepted text was parsed to always succeeds; it keeps the value, in
      shortest form, and is a fixed point of parsing and formatting. */
  lemma ParseThenFormat(v: string, decimals: nat)
    requires ToBaseUnitInt(v, decimals).Ok?
    ensures
      var n := ToBaseUnitInt(v, decimals).value;
      var r := FormatBaseUnitInt(n, decimals);
      && r.Ok?
      && Denotes(TrimSpace(v), decimals, n) && Denotes(r.value, decimals, n) && Shortest(r.value)
      && ToBaseUnitInt(r.value, decimals) == Ok(n)
  {
    hide Pow10;
    var n := ToBaseUnitInt(v, decimals).value;
    ParseExact(v, decimals, n);
    FormatExact(n, decimals);
    PointDenotes(n, decimals);
    FormatThenParse(n, decimals);
  }
}
