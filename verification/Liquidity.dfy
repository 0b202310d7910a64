/** Complete pool state: its validation, valuation and incremental update. */
module Liquidity {
  import opened Wrappers
  import opened Ticks

  const Q96 := 0x1_0000_0000_0000_0000_0000_0000

  /** Square-root prices by tick. */
  type Grid = int -> int

  /** What every use here needs of the price table: positive and nondecreasing. */
  ghost predicate Monotone(sqrt: Grid) {
    && (forall t :: MIN_TICK <= t <= MAX_TICK ==> sqrt(t) > 0)
    && (forall t, u :: MIN_TICK <= t <= u <= MAX_TICK ==> sqrt(t) <= sqrt(u))
  }

  datatype State = State(
    price: int, tick: int, spacing: int, active: int, ticks: seq<Tick>, complete: bool)

  datatype Amounts = Amounts(token0: int, token1: int)

  datatype Fault =
    | Incomplete | Coordinates | OutOfRange | PriceTick | BadTicks | BadTickLiquidity
    | Cumulative | Mismatch | TooManyTicks | BadUpdate | BadRange | MissingTick | TickMismatch

  // ---------- Validity ----------

  predicate Coordinated(s: State) {
    1 <= s.spacing <= 32767 && MIN_TICK <= s.tick < MAX_TICK
  }

  predicate Bounded(sqrt: Grid, s: State) {
    sqrt(MIN_TICK) <= s.price < sqrt(MAX_TICK) && 0 <= s.active < POW128
  }

  /** The upper bound is inclusive: after a zero-for-one swap the tick may be one
      below the tick of the price. */
  predicate Priced(sqrt: Grid, s: State) {
    sqrt(s.tick) <= s.price <= sqrt(s.tick + 1)
  }

  predicate Aligned(t: Tick, spacing: int)
    requires spacing != 0
  {
    MIN_TICK <= t.index <= MAX_TICK && t.index % spacing == 0
  }

  predicate Sized(t: Tick) {
    && 0 < t.gross < POW128
    && -POW127 <= t.net < POW127
    && -t.gross <= t.net <= t.gross
  }

  /** Liquidity active between tick `k-1` and tick `k` of the list. */
  function Cum(ticks: seq<Tick>, k: nat): int
    requires k <= |ticks|
  {
    if k == 0 then 0 else Cum(ticks, k - 1) + ticks[k - 1].net
  }

  /** Sum of the nets of the first `k` ticks that are not above `x`. */
  function CumTo(ticks: seq<Tick>, k: nat, x: int): int
    requires k <= |ticks|
  {
    if k == 0 then 0
    else if ticks[k - 1].index <= x then CumTo(ticks, k - 1, x) + ticks[k - 1].net
    else CumTo(ticks, k - 1, x)
  }

  ghost predicate GoodTicks(ticks: seq<Tick>, spacing: int)
    requires spacing != 0
  {
    && Sorted(ticks)
    && (forall i :: 0 <= i < |ticks| ==> Aligned(ticks[i], spacing) && Sized(ticks[i]))
  }

  ghost predicate Balanced(ticks: seq<Tick>) {
    && (forall k :: 0 <= k <= |ticks| ==> 0 <= Cum(ticks, k) < POW128)
    && Cum(ticks, |ticks|) == 0
  }

  /** A complete state that agrees with itself. */
  ghost predicate Consistent(sqrt: Grid, s: State) {
    && s.complete && Coordinated(s) && Bounded(sqrt, s) && Priced(sqrt, s)
    && GoodTicks(s.ticks, s.spacing)
    && Balanced(s.ticks)
    && CumTo(s.ticks, |s.ticks|, s.tick) == s.active
  }

  /** Which lists of ticks are accepted. */
  lemma TicksRule(ticks: seq<Tick>, spacing: int)
    requires spacing > 0
    ensures GoodTicks(ticks, spacing) <==>
            && (forall i, j :: 0 <= i < j < |ticks| ==> ticks[i].index < ticks[j].index)
            && (forall i :: 0 <= i < |ticks| ==>
                  && -887272 <= ticks[i].index <= 887272 && ticks[i].index % spacing == 0
                  && 0 < ticks[i].gross < 0x1_0000_0000_0000_0000_0000_0000_0000_0000
                  && (if ticks[i].net < 0 then -ticks[i].net else ticks[i].net) <= ticks[i].gross
                  && -0x8000_0000_0000_0000_0000_0000_0000_0000 <= ticks[i].net
                  && ticks[i].net < 0x8000_0000_0000_0000_0000_0000_0000_0000)
  {
    assert forall i :: 0 <= i < |ticks| ==>
             (Aligned(ticks[i], spacing) <==> -887272 <= ticks[i].index <= 887272 && ticks[i].index % spacing == 0);
  }

  /** Which states are consistent, for any accepted list of ticks. */
  lemma ConsistentRule(sqrt: Grid, s: State)
    ensures Consistent(sqrt, s) <==>
            && s.complete && 1 <= s.spacing <= 32767 && GoodTicks(s.ticks, s.spacing)
            && -887272 <= s.tick < 887272 && sqrt(-887272) <= s.price < sqrt(887272)
            && sqrt(s.tick) <= s.price <= sqrt(s.tick + 1)
            && (forall k :: 0 <= k <= |s.ticks| ==>
                  0 <= Cum(s.ticks, k) < 0x1_0000_0000_0000_0000_0000_0000_0000_0000)
            && Cum(s.ticks, |s.ticks|) == 0
            && 0 <= s.active < 0x1_0000_0000_0000_0000_0000_0000_0000_0000
            && s.active == CumTo(s.ticks, |s.ticks|, s.tick)
  {
    BalancedRule(s.ticks);
    hide Balanced, Cum, CumTo, GoodTicks;
  }

  lemma BalancedRule(ticks: seq<Tick>)
    ensures Balanced(ticks) <==>
            && (forall k :: 0 <= k <= |ticks| ==> 0 <= Cum(ticks, k) < 0x1_0000_0000_0000_0000_0000_0000_0000_0000)
            && Cum(ticks, |ticks|) == 0
  {
    if !Balanced(ticks) && Cum(ticks, |ticks|) == 0 {
      var k :| 0 <= k <= |ticks| && !(0 <= Cum(ticks, k) < POW128);
      assert !(0 <= Cum(ticks, k) < 0x1_0000_0000_0000_0000_0000_0000_0000_0000);
    }
  }

  // ---------- Valuation ----------

  function Clamp(price: int, a: int, b: int): int {
    var c := if price < a then a else price;
    if c > b then b else c
  }

  /** Quotient that truncates towards zero, as the source's big integers divide. */
  function Quo(n: int, d: int): int
    requires d > 0
  {
    if n >= 0 then n / d else -((-n) / d)
  }

  function AmountDelta(a: int, b: int, l: int, token0: bool): int
    requires a > 0 && b > 0
  {
    var (lo, hi) := if a > b then (b, a) else (a, b);
    if token0 then
      assert lo * hi > 0;
      Quo(l * (hi - lo) * Q96, lo * hi)
    else
      Quo(l * (hi - lo), Q96)
  }

  /** Amounts held between tick `i` and tick `i+1` of the list. */
  function Interval(sqrt: Grid, s: State, i: nat, token0: bool): int
    requires i + 1 < |s.ticks|
    requires sqrt(s.ticks[i].index) > 0 && sqrt(s.ticks[i+1].index) > 0
  {
    var a, b := sqrt(s.ticks[i].index), sqrt(s.ticks[i+1].index);
    var c := Clamp(s.price, a, b);
    if token0 then AmountDelta(c, b, Cum(s.ticks, i + 1), true)
    else AmountDelta(a, c, Cum(s.ticks, i + 1), false)
  }

  ghost predicate OnGrid(sqrt: Grid, ticks: seq<Tick>) {
    forall i :: 0 <= i < |ticks| ==> sqrt(ticks[i].index) > 0
  }

  /** Sum over the first `k` intervals. */
  function Floored(sqrt: Grid, s: State, k: nat, token0: bool): int
    requires k < |s.ticks| || k == 0
    requires OnGrid(sqrt, s.ticks)
  {
    if k == 0 then 0
    else Floored(sqrt, s, k - 1, token0) + Interval(sqrt, s, k - 1, token0)
  }

  /** Intervals completed once `i` ticks were passed. */
  function Before(ticks: seq<Tick>, i: nat): (k: nat)
    requires i <= |ticks|
    ensures k < |ticks| || k == 0
  {
    if i < |ticks| then i else Intervals(ticks)
  }

  ghost function ValueOf(sqrt: Grid, s: State, valueAmounts: bool): Amounts
    requires OnGrid(sqrt, s.ticks)
  {
    if valueAmounts then
      var k := Intervals(s.ticks);
      Amounts(Floored(sqrt, s, k, true), Floored(sqrt, s, k, false))
    else
      Amounts(0, 0)
  }

  /** In a sorted list everything before a tick at or below `x` counts. */
  lemma BelowAll(ticks: seq<Tick>, i: nat, x: int)
    requires Sorted(ticks) && i < |ticks| && ticks[i].index <= x
    ensures CumTo(ticks, i, x) == Cum(ticks, i)
  {
    if i > 0 { BelowAll(ticks, i - 1, x); }
  }

  function Intervals(ticks: seq<Tick>): nat {
    if ticks == [] then 0 else |ticks| - 1
  }

  method CheckTicks(ticks: seq<Tick>, spacing: int) returns (fault: Option<Fault>)
    requires spacing > 0
    ensures fault.None? <==> GoodTicks(ticks, spacing)
    ensures fault.Some? ==> fault.value in {BadTicks, BadTickLiquidity}
    ensures fault == Some(BadTicks) ==>
              (!Sorted(ticks) || exists i :: 0 <= i < |ticks| && !Aligned(ticks[i], spacing))
    ensures fault == Some(BadTickLiquidity) ==> exists i :: 0 <= i < |ticks| && !Sized(ticks[i])
  {
    for i := 0 to |ticks|
      invariant Sorted(ticks[..i])
      invariant forall k :: 0 <= k < i ==> Aligned(ticks[k], spacing) && Sized(ticks[k])
    {
      var t := ticks[i];
      if t.index < MIN_TICK || t.index > MAX_TICK || t.index % spacing != 0
         || (i > 0 && t.index <= ticks[i-1].index) {
        assert !Aligned(ticks[i], spacing) || !Sorted(ticks);
        return Some(BadTicks);
      }
      if t.gross <= 0 || t.gross >= POW128 || t.net < -POW127 || t.net >= POW127
         || (if t.net < 0 then -t.net else t.net) > t.gross {
        assert !Sized(ticks[i]);
        return Some(BadTickLiquidity);
      }
      SortedNext(ticks, i);
    }
    assert ticks[..|ticks|] == ticks;
    return None;
  }

  lemma SortedNext(ticks: seq<Tick>, i: nat)
    requires i < |ticks| && Sorted(ticks[..i])
    requires i > 0 ==> ticks[i-1].index < ticks[i].index
    ensures Sorted(ticks[..i+1])
  {
    var b := ticks[..i+1];
    forall j, k | 0 <= j < k < |b|
      ensures b[j].index < b[k].index
    {
      assert j < i && b[j] == ticks[..i][j];
      if k < i { assert b[k] == ticks[..i][k]; }
      else if j < i - 1 { assert ticks[..i][j].index < ticks[..i][i-1].index; }
    }
  }

  method ValueInterval(sqrt: Grid, s: State, i: nat, l: int) returns (d0: int, d1: int)
    requires i + 1 < |s.ticks| && l == Cum(s.ticks, i + 1) && s.price > 0
    requires sqrt(s.ticks[i].index) > 0 && sqrt(s.ticks[i+1].index) > 0
    ensures d0 == Interval(sqrt, s, i, true) && d1 == Interval(sqrt, s, i, false)
  {
    var a, b := sqrt(s.ticks[i].index), sqrt(s.ticks[i+1].index);
    var c := s.price;
    if c < a { c := a; }
    if c > b { c := b; }
    d0 := AmountDelta(c, b, l, true);
    d1 := AmountDelta(a, c, l, false);
  }

  /** Passing a tick completes the interval after it, unless it is the last tick. */
  lemma Passed(sqrt: Grid, s: State, i: nat)
    requires OnGrid(sqrt, s.ticks) && i < |s.ticks|
    ensures forall token0 :: Floored(sqrt, s, Before(s.ticks, i + 1), token0) ==
              Floored(sqrt, s, Before(s.ticks, i), token0)
                + (if i + 1 < |s.ticks| then Interval(sqrt, s, i, token0) else 0)
  {
    hide Interval;
  }

  lemma OnGridHolds(sqrt: Grid, s: State)
    requires Monotone(sqrt) && s.spacing != 0 && GoodTicks(s.ticks, s.spacing)
    ensures OnGrid(sqrt, s.ticks)
  {
  }

  lemma NonePassed(sqrt: Grid, s: State)
    requires OnGrid(sqrt, s.ticks)
    ensures forall token0 :: Floored(sqrt, s, Before(s.ticks, 0), token0) == 0
    ensures Before(s.ticks, |s.ticks|) == Intervals(s.ticks)
  {
  }

  /** One pass over the ticks: cumulative and active liquidity, and on request
      the floored amounts of the intervals. */
  method Accumulate(sqrt: Grid, s: State, valueAmounts: bool) returns (r: Result<Amounts, Fault>)
    requires Monotone(sqrt) && s.spacing > 0 && GoodTicks(s.ticks, s.spacing) && s.price > 0
    ensures r.Ok? <==> Balanced(s.ticks) && CumTo(s.ticks, |s.ticks|, s.tick) == s.active
    ensures r.Err? ==> r.error in {Cumulative, Mismatch}
    ensures r.Ok? ==> OnGrid(sqrt, s.ticks) && r.value == ValueOf(sqrt, s, valueAmounts)
  {
    hide Interval, Floored, Before, Intervals, Aligned, Sized;
    OnGridHolds(sqrt, s);
    NonePassed(sqrt, s);
    var token0, token1, l, active := 0, 0, 0, 0;
    for i := 0 to |s.ticks|
      invariant l == Cum(s.ticks, i)
      invariant forall k :: 0 <= k <= i ==> 0 <= Cum(s.ticks, k) < POW128
      invariant active == CumTo(s.ticks, i, s.tick)
      invariant !valueAmounts ==> token0 == token1 == 0
      invariant valueAmounts ==> token0 == Floored(sqrt, s, Before(s.ticks, i), true)
      invariant valueAmounts ==> token1 == Floored(sqrt, s, Before(s.ticks, i), false)
    {
      Passed(sqrt, s, i);
      var t := s.ticks[i];
      l := l + t.net;
      if l < 0 || l >= POW128 {
        assert l == Cum(s.ticks, i + 1);
        return Err(Cumulative);
      }
      if t.index <= s.tick {
        BelowAll(s.ticks, i, s.tick);
        active := l;
      }
      if !valueAmounts || i + 1 == |s.ticks| {
        continue;
      }
      var d0, d1 := ValueInterval(sqrt, s, i, l);
      token0, token1 := token0 + d0, token1 + d1;
    }
    if l != 0 || active != s.active {
      return Err(Mismatch);
    }
    return Ok(Amounts(token0, token1));
  }

  /** Validates `s`; with `valueAmounts` also sums the floored interval amounts. */
  method Calculate(sqrt: Grid, s: State, valueAmounts: bool) returns (r: Result<Amounts, Fault>)
    requires Monotone(sqrt)
    ensures r.Ok? <==> Consistent(sqrt, s)
    ensures r.Ok? ==> OnGrid(sqrt, s.ticks) && r.value == ValueOf(sqrt, s, valueAmounts)
    ensures r.Ok? && !valueAmounts ==> r.value == Amounts(0, 0)
    ensures r.Err? ==> r.error in {Incomplete, Coordinates, OutOfRange, PriceTick, BadTicks,
                                   BadTickLiquidity, Cumulative, Mismatch}
    ensures r.Err? && r.error == Incomplete ==> !s.complete
    ensures r.Err? && r.error == Coordinates ==> !Coordinated(s)
    ensures r.Err? && r.error == OutOfRange ==> !Bounded(sqrt, s)
    ensures r.Err? && r.error == PriceTick ==> !Priced(sqrt, s)
    ensures r.Err? && r.error in {BadTicks, BadTickLiquidity} ==>
              s.spacing != 0 && !GoodTicks(s.ticks, s.spacing)
    ensures r.Err? && r.error in {Cumulative, Mismatch} ==>
              (!Balanced(s.ticks) || CumTo(s.ticks, |s.ticks|, s.tick) != s.active)
  {
    if !s.complete { return Err(Incomplete); }
    if s.spacing < 1 || s.spacing > 32767 || s.tick < MIN_TICK || s.tick >= MAX_TICK {
      return Err(Coordinates);
    }
    if s.price < sqrt(MIN_TICK) || s.price >= sqrt(MAX_TICK) || s.active < 0 || s.active >= POW128 {
      return Err(OutOfRange);
    }
    if s.price < sqrt(s.tick) || s.price > sqrt(s.tick + 1) {
      return Err(PriceTick);
    }
    var fault := CheckTicks(s.ticks, s.spacing);
    if fault.Some? { return Err(fault.value); }
    r := Accumulate(sqrt, s, valueAmounts);
  }
}
