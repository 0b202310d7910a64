/** Share of the pool principal that is locked or permanently protected. */
module Protection {
  import opened Wrappers
  import opened Decimals
  import opened Ticks
  import opened Liquidity
  import opened Principal

  datatype Kind = Locked | Permanent | Withdrawable | Unresolved

  datatype Custody = Custody(
    range: Position, kind: Kind, unlockAt: Option<int>, canWeaken: Option<bool>)

  datatype Token = Token(locked: string, permanent: string)

  datatype Observation = Observation(
    token0: Option<Token>, token1: Option<Token>,
    allProtected: bool, earliestUnlock: Option<int>, canWeaken: Option<bool>)

  datatype Outcome =
    | Observed(observation: Observation)
    | UnsupportedCustody
    | NoPrincipal
    | Failed

  const SCALE := 1_000_000_000_000_000_000

  // ---------- Percentages ----------

  /** 100 times a share in units of `10^-18`, truncated; shares are never negative. */
  function Scaled(share: real): int { (share * (100 * SCALE) as real).Floor }

  function Printed(share: real): string
    requires share >= 0.0
  {
    var scaled := Scaled(share);
    var whole, fraction := scaled / SCALE, scaled % SCALE;
    if fraction == 0 then Text(whole)
    else
      PowScale();
      Text(whole) + "." + TrimRight(Padded(fraction, 18))
  }

  function Percentage(n: real, d: real): string
    requires n >= 0.0 && d > 0.0
  {
    Positive(n, d);
    Printed(n / d)
  }

  lemma Positive(n: real, d: real)
    requires n >= 0.0 && d > 0.0
    ensures n / d >= 0.0
  {
  }

  lemma PowScale()
    ensures Pow10(18) == SCALE
  {
    assert Pow10(6) == 1_000_000;
    PowAdd(6, 6);
    PowAdd(12, 6);
  }

  lemma PrintedExact(share: real)
    requires share >= 0.0
    ensures
      var scaled := Scaled(share);
      && scaled >= 0
      && Denotes(Printed(share), 18, scaled) && Shortest(Printed(share))
      && scaled as real <= share * (100 * SCALE) as real < scaled as real + 1.0
  {
    var scaled := Scaled(share);
    PowScale();
    assert scaled as real <= share * (100 * SCALE) as real < scaled as real + 1.0;
    hide Scaled, Pow10;
    DividedUnique(scaled, 18, scaled / SCALE, scaled % SCALE);
    PointDenotes(scaled, 18);
    assert Printed(share) == Point(scaled, 18) by { PointText(scaled, 18, SCALE); }
  }

  /** The printed percentage is the shortest text of the 18-digit truncation: no trailing zero,
      never above the true percentage and short of it by less than `10^-18`. */
  lemma PercentageExact(n: real, d: real)
    requires n >= 0.0 && d > 0.0
    ensures exists scaled: nat ::
              && Denotes(Percentage(n, d), 18, scaled) && Shortest(Percentage(n, d))
              && scaled as real <= n / d * 100_000_000_000_000_000_000.0 < scaled as real + 1.0
  {
    Positive(n, d);
    hide Scaled, Printed, Denotes, Shortest;
    PrintedExact(n / d);
    assert Denotes(Percentage(n, d), 18, Scaled(n / d));
  }

  lemma PointText(scaled: nat, d: nat, scale: nat)
    requires d > 0 && scale > 0 && Pow10(d) == scale
    requires Whole(scaled, d) == scaled / scale && Part(scaled, d) == scaled % scale
    ensures Point(scaled, d) ==
        if scaled % scale == 0 then Text(scaled / scale)
        else Text(scaled / scale) + "." + TrimRight(Padded(scaled % scale, d))
  {
    var fraction := scaled % scale;
    ValPadded(fraction, d);
    TrimRightEmpty(Padded(fraction, d));
    var frac := TrimRight(Padded(fraction, d));
    hide Pow10, Text, Whole, Part, Padded, TrimRight, Val;
    assert Text(scaled / scale) + "." + frac == Text(scaled / scale) + ("." + frac);
  }

  // ---------- Totals by custody ----------

  ghost predicate AllPriceable(sqrt: Grid, price: int, cs: seq<Custody>) {
    && Monotone(sqrt)
    && forall i :: 0 <= i < |cs| ==> Worth(sqrt, price, cs[i]).Ok?
  }

  function Worth(sqrt: Grid, price: int, c: Custody): Result<(real, real), Input>
    requires forall t :: MIN_TICK <= t <= MAX_TICK ==> sqrt(t) > 0
  {
    PositionPrincipal(sqrt, price, c.range.liquidity, c.range.lower, c.range.upper)
  }

  /** Exact principal of the positions of one kind of custody, or of all of them. */
  ghost function Held(sqrt: Grid, price: int, cs: seq<Custody>, kind: Option<Kind>, token0: bool): real
    requires AllPriceable(sqrt, price, cs)
  {
    if cs == [] then 0.0
    else
      var c := cs[|cs|-1];
      Held(sqrt, price, cs[..|cs|-1], kind, token0) +
      (if kind.None? || kind.value == c.kind then Amount(sqrt, price, c.range, token0) else 0.0)
  }

  lemma AmountPositive(sqrt: Grid, price: int, p: Position, token0: bool)
    requires Monotone(sqrt) && PositionPrincipal(sqrt, price, p.liquidity, p.lower, p.upper).Ok?
    ensures Amount(sqrt, price, p, token0) >= 0.0
  {
    var a, b := sqrt(p.lower), sqrt(p.upper);
    var c := Clamp(price, a, b);
    assert a <= c <= b && c > 0;
    Products(p.liquidity, b - c, c, b);
    Products(p.liquidity, c - a, c, b);
  }

  /** Locked, permanent and withdrawable principal add up to the total. */
  lemma {:induction false} HeldSplits(sqrt: Grid, price: int, cs: seq<Custody>, token0: bool)
    requires AllPriceable(sqrt, price, cs)
    requires forall i :: 0 <= i < |cs| ==> cs[i].kind != Unresolved
    ensures Held(sqrt, price, cs, None, token0) ==
              Held(sqrt, price, cs, Some(Locked), token0) + Held(sqrt, price, cs, Some(Permanent), token0)
              + Held(sqrt, price, cs, Some(Withdrawable), token0)
    ensures forall k :: Held(sqrt, price, cs, k, token0) >= 0.0
    ensures (forall i :: 0 <= i < |cs| ==> cs[i].kind != Withdrawable) ==>
              Held(sqrt, price, cs, Some(Withdrawable), token0) == 0.0
  {
    if cs != [] {
      HeldSplits(sqrt, price, cs[..|cs|-1], token0);
      AmountPositive(sqrt, price, cs[|cs|-1].range, token0);
    }
  }

  // ---------- The observation ----------

  /** Custody data that can be aggregated. */
  predicate Recognized(c: Custody) {
    && c.kind != Unresolved
    && (c.kind == Locked ==> c.unlockAt.Some?)
    && (c.kind == Permanent ==> c.unlockAt.None?)
  }

  ghost predicate Aggregable(sqrt: Grid, price: int, cs: seq<Custody>) {
    && AllPriceable(sqrt, price, cs)
    && forall i :: 0 <= i < |cs| ==> Recognized(cs[i])
  }

  ghost predicate EarliestUnlock(cs: seq<Custody>, t: Option<int>) {
    && (forall i :: 0 <= i < |cs| && cs[i].kind == Locked && cs[i].unlockAt.Some? ==>
          t.Some? && t.value <= cs[i].unlockAt.value)
    && (t.Some? ==> exists i :: 0 <= i < |cs| && cs[i].kind == Locked && cs[i].unlockAt == t)
  }

  /** Some protection may be weakened; or none may; or that is not known. */
  ghost predicate Weakness(cs: seq<Custody>, w: Option<bool>) {
    var weak := exists i :: 0 <= i < |cs| && Protected(cs[i]) && cs[i].canWeaken == Some(true);
    var unknown := exists i :: 0 <= i < |cs| && Protected(cs[i]) && cs[i].canWeaken == None;
    w == if weak then Some(true) else if unknown then None else Some(false)
  }

  predicate Protected(c: Custody) { c.kind == Locked || c.kind == Permanent }

  ghost predicate Shares(sqrt: Grid, price: int, cs: seq<Custody>, token0: bool, t: Option<Token>)
    requires AllPriceable(sqrt, price, cs)
  {
    var total := Held(sqrt, price, cs, None, token0);
    var locked := Held(sqrt, price, cs, Some(Locked), token0);
    var permanent := Held(sqrt, price, cs, Some(Permanent), token0);
    if total == 0.0 then t == None
    else
      && total > 0.0 && locked >= 0.0 && permanent >= 0.0
      && t == Some(Token(Percentage(locked, total), Percentage(permanent, total)))
  }

  /** Which positions can be aggregated: each has its ends in order between -887272 and 887272, a 128-bit
      liquidity and a price on the grid, and is locked with an unlock time, permanent without one, or
      withdrawable. */
  lemma AggregableRule(sqrt: Grid, price: int, cs: seq<Custody>)
    requires Monotone(sqrt)
    ensures Aggregable(sqrt, price, cs) <==>
            forall i :: 0 <= i < |cs| ==>
              && -887272 <= cs[i].range.lower < cs[i].range.upper <= 887272
              && 0 <= cs[i].range.liquidity < 0x1_0000_0000_0000_0000_0000_0000_0000_0000
              && sqrt(-887272) <= price < sqrt(887272)
              && (match cs[i].kind
                  case Locked => cs[i].unlockAt.Some?
                  case Permanent => cs[i].unlockAt.None?
                  case Withdrawable => true
                  case Unresolved => false)
  {
    hide PositionPrincipal;
    forall i | 0 <= i < |cs|
      ensures Worth(sqrt, price, cs[i]).Ok? <==>
              && -887272 <= cs[i].range.lower < cs[i].range.upper <= 887272
              && 0 <= cs[i].range.liquidity < 0x1_0000_0000_0000_0000_0000_0000_0000_0000
              && sqrt(-887272) <= price < sqrt(887272)
    {
      PositionValue(sqrt, price, cs[i].range.liquidity, cs[i].range.lower, cs[i].range.upper);
    }
  }

  /** What is observed besides the shares: the unlock time is the least of the locked positions; some
      protection may be weakened if one may be, else this is unknown if it is for one, and else none may. */
  lemma ObservedRule(cs: seq<Custody>, t: Option<int>, w: Option<bool>)
    ensures EarliestUnlock(cs, t) <==>
            && (forall c :: c in cs && c.kind == Locked && c.unlockAt.Some? ==> t.Some? && t.value <= c.unlockAt.value)
            && (t.Some? ==> exists c :: c in cs && c.kind == Locked && c.unlockAt == t)
    ensures Weakness(cs, w) <==>
            && (w == Some(true) <==> exists c :: c in cs && c.kind in {Locked, Permanent} && c.canWeaken == Some(true))
            && (w == Some(false) <==>
                  forall c :: c in cs && c.kind in {Locked, Permanent} ==> c.canWeaken == Some(false))
  {
    SomeProtected(cs, Some(true));
    SomeProtected(cs, None);
    var weak := exists c :: c in cs && c.kind in {Locked, Permanent} && c.canWeaken == Some(true);
    var unknown := exists c :: c in cs && c.kind in {Locked, Permanent} && c.canWeaken == None;
    assert Weakness(cs, w) <==> w == if weak then Some(true) else if unknown then None else Some(false);
    assert w == None || w == Some(true) || w == Some(false) by {
      if w.Some? { if w.value { assert w == Some(true); } else { assert w == Some(false); } }
    }
    if c :| c in cs && c.kind in {Locked, Permanent} && c.canWeaken != Some(false) {
      assert if c.canWeaken.Some? then c.canWeaken.value && weak else unknown;
    }
  }

  lemma SomeProtected(cs: seq<Custody>, b: Option<bool>)
    ensures (exists i :: 0 <= i < |cs| && Protected(cs[i]) && cs[i].canWeaken == b) <==>
            exists c :: c in cs && c.kind in {Locked, Permanent} && c.canWeaken == b
  {
    if c :| c in cs && c.kind in {Locked, Permanent} && c.canWeaken == b {
      var i :| 0 <= i < |cs| && cs[i] == c;
      assert Protected(cs[i]);
    }
  }

  /** The ranges of the positions of one kind of custody, or of all. */
  function Ranges(cs: seq<Custody>, kind: Option<Kind>): seq<Position> {
    if cs == [] then []
    else Ranges(cs[..|cs|-1], kind) + (if kind.None? || kind.value == cs[|cs|-1].kind then [cs[|cs|-1].range] else [])
  }

  /** What is held of a token is the exact value of these ranges as a book of positions. */
  lemma {:induction false} HeldIsExact(sqrt: Grid, price: int, cs: seq<Custody>, kind: Option<Kind>, token0: bool)
    requires AllPriceable(sqrt, price, cs)
    ensures Priceable(sqrt, price, Ranges(cs, kind))
    ensures Held(sqrt, price, cs, kind, token0) == Exact(sqrt, price, Ranges(cs, kind), token0)
  {
    hide PositionPrincipal;
    if cs != [] {
      HeldIsExact(sqrt, price, cs[..|cs|-1], kind, token0);
      var (before, last) := (Ranges(cs[..|cs|-1], kind), cs[|cs|-1].range);
      assert (before + [last])[..|before|] == before;
      assert before + [] == before;
      assert Worth(sqrt, price, cs[|cs|-1]).Ok?;
    }
  }

  /** The running sums of one token. */
  ghost predicate Totals(sqrt: Grid, price: int, cs: seq<Custody>, token0: bool,
                         total: real, locked: real, permanent: real)
    requires AllPriceable(sqrt, price, cs)
  {
    && total == Held(sqrt, price, cs, None, token0)
    && locked == Held(sqrt, price, cs, Some(Locked), token0)
    && permanent == Held(sqrt, price, cs, Some(Permanent), token0)
  }

  lemma TotalsNext(sqrt: Grid, price: int, cs: seq<Custody>, token0: bool,
                   total: real, locked: real, permanent: real)
    requires cs != [] && AllPriceable(sqrt, price, cs)
    requires Totals(sqrt, price, cs[..|cs|-1], token0, total, locked, permanent)
    ensures
      var c := cs[|cs|-1];
      var worth := Amount(sqrt, price, c.range, token0);
      Totals(sqrt, price, cs, token0, total + worth,
             if c.kind == Locked then locked + worth else locked,
             if c.kind == Permanent then permanent + worth else permanent)
  {
    hide Amount;
  }

  /** What is remembered about the kinds of custody seen so far. */
  datatype Notes = Notes(allProtected: bool, earliest: Option<int>, weak: bool, unknown: bool)

  ghost predicate Noted(cs: seq<Custody>, notes: Notes) {
    && (notes.allProtected <==> forall i :: 0 <= i < |cs| ==> cs[i].kind != Withdrawable)
    && EarliestUnlock(cs, notes.earliest)
    && (notes.weak <==> exists i :: 0 <= i < |cs| && Protected(cs[i]) && cs[i].canWeaken == Some(true))
    && (notes.unknown <==> exists i :: 0 <= i < |cs| && Protected(cs[i]) && cs[i].canWeaken == None)
  }

  method TakeNote(notes: Notes, p: Custody, ghost before: seq<Custody>) returns (r: Result<Notes, Input>)
    requires Noted(before, notes) && p.kind != Unresolved
    ensures r.Ok? <==> Recognized(p)
    ensures r.Ok? ==> Noted(before + [p], r.value)
  {
    var next := notes;
    ghost var cs := before + [p];
    assert cs[|before|] == p && forall i :: 0 <= i < |before| ==> cs[i] == before[i];
    if p.kind == Withdrawable {
      next := next.(allProtected := false);
    } else if p.kind == Locked {
      if p.unlockAt.None? { return Err(Input.OutOfRange); }
      if next.earliest.None? || p.unlockAt.value < next.earliest.value {
        next := next.(earliest := p.unlockAt);
      }
    }
    if p.kind == Withdrawable { return Ok(next); }
    if p.kind == Permanent && p.unlockAt.Some? { return Err(Input.OutOfRange); }
    if p.canWeaken.None? {
      next := next.(unknown := true);
    } else if p.canWeaken.value {
      next := next.(weak := true);
    }
    return Ok(next);
  }

  method Share(total: real, locked: real, permanent: real) returns (t: Option<Token>)
    requires total >= 0.0 && locked >= 0.0 && permanent >= 0.0
    ensures t == if total == 0.0 then None
                 else Some(Token(Percentage(locked, total), Percentage(permanent, total)))
  {
    if total == 0.0 { return None; }
    return Some(Token(Percentage(locked, total), Percentage(permanent, total)));
  }

  method Aggregate(sqrt: Grid, price: int, cs: seq<Custody>) returns (r: Outcome)
    requires Monotone(sqrt)
    ensures r.Observed? <==>
              && Aggregable(sqrt, price, cs)
              && !(Held(sqrt, price, cs, None, true) == 0.0 && Held(sqrt, price, cs, None, false) == 0.0)
    ensures r.Observed? ==>
              && Shares(sqrt, price, cs, true, r.observation.token0)
              && Shares(sqrt, price, cs, false, r.observation.token1)
              && (r.observation.allProtected <==> forall i :: 0 <= i < |cs| ==> cs[i].kind != Withdrawable)
              && EarliestUnlock(cs, r.observation.earliestUnlock)
              && Weakness(cs, r.observation.canWeaken)
    ensures r.UnsupportedCustody? ==> exists i :: 0 <= i < |cs| && cs[i].kind == Unresolved
    ensures r.NoPrincipal? ==> Aggregable(sqrt, price, cs)
    ensures r.Failed? ==> !Aggregable(sqrt, price, cs)
  {
    hide Held, Amount, Percentage, PositionPrincipal, Totals, Noted, EarliestUnlock, Weakness, Shares;
    var total0, total1, locked0, locked1, permanent0, permanent1 := 0.0, 0.0, 0.0, 0.0, 0.0, 0.0;
    var notes := Notes(true, None, false, false);
    NothingYet(sqrt, price, notes);
    for n := 0 to |cs|
      invariant Aggregable(sqrt, price, cs[..n])
      invariant Totals(sqrt, price, cs[..n], true, total0, locked0, permanent0)
      invariant Totals(sqrt, price, cs[..n], false, total1, locked1, permanent1)
      invariant Noted(cs[..n], notes)
    {
      var p := cs[n];
      if p.kind == Unresolved { return UnsupportedCustody; }
      var worth := Worth(sqrt, price, p);
      if worth.Err? { return Failed; }
      ghost var before := cs[..n];
      assert cs[..n+1] == before + [p] && cs[..n+1][..n] == before;
      TotalsNext(sqrt, price, cs[..n+1], true, total0, locked0, permanent0);
      TotalsNext(sqrt, price, cs[..n+1], false, total1, locked1, permanent1);
      AmountsOf(sqrt, price, p);
      total0, total1 := total0 + worth.value.0, total1 + worth.value.1;
      if p.kind == Locked {
        locked0, locked1 := locked0 + worth.value.0, locked1 + worth.value.1;
      } else if p.kind == Permanent {
        permanent0, permanent1 := permanent0 + worth.value.0, permanent1 + worth.value.1;
      }
      var noted := TakeNote(notes, p, before);
      if noted.Err? { return Failed; }
      notes := noted.value;
    }
    assert cs[..|cs|] == cs;
    Concluded(cs, notes);
    TotalsAre(sqrt, price, cs, true, total0, locked0, permanent0);
    TotalsAre(sqrt, price, cs, false, total1, locked1, permanent1);
    if total0 == 0.0 && total1 == 0.0 { return NoPrincipal; }
    var canWeaken := if !notes.weak && notes.unknown then None else Some(notes.weak);
    var token0 := Share(total0, locked0, permanent0);
    var token1 := Share(total1, locked1, permanent1);
    return Observed(Observation(token0, token1, notes.allProtected, notes.earliest, canWeaken));
  }

  /** What the notes say about all positions. */
  lemma Concluded(cs: seq<Custody>, notes: Notes)
    requires Noted(cs, notes)
    ensures notes.allProtected <==> forall i :: 0 <= i < |cs| ==> cs[i].kind != Withdrawable
    ensures EarliestUnlock(cs, notes.earliest)
    ensures Weakness(cs, if !notes.weak && notes.unknown then None else Some(notes.weak))
  {
  }

  /** What the running sums say about all positions. */
  lemma TotalsAre(sqrt: Grid, price: int, cs: seq<Custody>, token0: bool, total: real, locked: real, permanent: real)
    requires Aggregable(sqrt, price, cs) && Totals(sqrt, price, cs, token0, total, locked, permanent)
    ensures total == Held(sqrt, price, cs, None, token0) && total >= 0.0 && locked >= 0.0 && permanent >= 0.0
    ensures forall t :: t == (if total == 0.0 then None
                              else Some(Token(Percentage(locked, total), Percentage(permanent, total))))
              ==> Shares(sqrt, price, cs, token0, t)
  {
    hide Held, Percentage;
    HeldSplits(sqrt, price, cs, token0);
  }

  lemma NothingYet(sqrt: Grid, price: int, notes: Notes)
    requires Monotone(sqrt) && notes == Notes(true, None, false, false)
    ensures AllPriceable(sqrt, price, []) && Aggregable(sqrt, price, []) && Noted([], notes)
    ensures Totals(sqrt, price, [], true, 0.0, 0.0, 0.0) && Totals(sqrt, price, [], false, 0.0, 0.0, 0.0)
  {
  }

  lemma AmountsOf(sqrt: Grid, price: int, c: Custody)
    requires Monotone(sqrt) && Worth(sqrt, price, c).Ok?
    ensures Worth(sqrt, price, c).value ==
              (Amount(sqrt, price, c.range, true), Amount(sqrt, price, c.range, false))
  {
  }

  // ---------- What the two percentages say together ----------

  lemma QuotientSum(a: real, b: real, t: real)
    requires t > 0.0
    ensures a / t + b / t == (a + b) / t
  {
  }

  lemma Fraction(a: real, t: real)
    requires t > 0.0
    ensures a <= t ==> a / t <= 1.0
    ensures a == t ==> a / t == 1.0
  {
  }

  /** For each token the printed shares denote numbers whose sum is at most 100, and with every
      position protected is above `100 - 2 * 10^-18`. */
  lemma SharesAddUp(sqrt: Grid, price: int, cs: seq<Custody>, token0: bool, t: Option<Token>)
    requires Aggregable(sqrt, price, cs) && Shares(sqrt, price, cs, token0, t) && t.Some?
    ensures exists locked: nat, permanent: nat ::
              && Denotes(t.value.locked, 18, locked) && Shortest(t.value.locked)
              && Denotes(t.value.permanent, 18, permanent) && Shortest(t.value.permanent)
              && locked + permanent <= 100 * SCALE
              && ((forall i :: 0 <= i < |cs| ==> cs[i].kind != Withdrawable) ==>
                    locked + permanent > 100 * SCALE - 2)
  {
    hide Held, Scaled, Printed, Denotes, Shortest;
    var total := Held(sqrt, price, cs, None, token0);
    var locked := Held(sqrt, price, cs, Some(Locked), token0);
    var permanent := Held(sqrt, price, cs, Some(Permanent), token0);
    HeldSplits(sqrt, price, cs, token0);
    Positive(locked, total);
    Positive(permanent, total);
    PrintedExact(locked / total);
    PrintedExact(permanent / total);
    var l, p := Scaled(locked / total), Scaled(permanent / total);
    TwoShares(locked, permanent, total);
    assert Denotes(t.value.locked, 18, l) && Denotes(t.value.permanent, 18, p);
  }

  lemma TwoShares(a: real, b: real, t: real)
    requires a >= 0.0 && b >= 0.0 && t > 0.0 && a + b <= t
    ensures Scaled(a / t) + Scaled(b / t) <= 100 * SCALE
    ensures a + b == t ==> Scaled(a / t) + Scaled(b / t) > 100 * SCALE - 2
  {
    Positive(a, t);
    Positive(b, t);
    QuotientSum(a, b, t);
    Fraction(a + b, t);
    Truncated(a / t, b / t);
  }

  lemma Truncated(x: real, y: real)
    requires x >= 0.0 && y >= 0.0 && x + y <= 1.0
    ensures Scaled(x) + Scaled(y) <= 100 * SCALE
    ensures x + y == 1.0 ==> Scaled(x) + Scaled(y) > 100 * SCALE - 2
  {
  }
}
