/** Valuation of a pool against the exact value of its positions. */
module Principal {
  import opened Wrappers
  import opened Ticks
  import opened Liquidity
  import opened Refinement

  datatype Input = OutOfRange

  /** Unrounded token amounts of one price range. */
  function PositionPrincipal(sqrt: Grid, price: int, liquidity: int, lower: int, upper: int)
    : (r: Result<(real, real), Input>)
    requires forall t :: MIN_TICK <= t <= MAX_TICK ==> sqrt(t) > 0
    ensures r.Ok? <==> MIN_TICK <= lower < upper <= MAX_TICK && 0 <= liquidity < POW128 &&
                       sqrt(MIN_TICK) <= price < sqrt(MAX_TICK)
  {
    if lower < MIN_TICK || upper > MAX_TICK || lower >= upper || liquidity < 0 || liquidity >= POW128
       || price < sqrt(MIN_TICK) || price >= sqrt(MAX_TICK) then
      Err(Input.OutOfRange)
    else
      var a, b := sqrt(lower), sqrt(upper);
      var c := Clamp(price, a, b);
      Ok((Ratio(liquidity * (b - c) * Q96, c * b), Ratio(liquidity * (c - a), Q96)))
  }

  function Ratio(n: int, d: int): real
    requires d != 0
  {
    n as real / d as real
  }

  /** Exact sum of the positions' amounts of one token. */
  ghost function Exact(sqrt: Grid, price: int, ps: seq<Position>, token0: bool): real
    requires Priceable(sqrt, price, ps)
  {
    if ps == [] then 0.0
    else
      Exact(sqrt, price, ps[..|ps|-1], token0) + Amount(sqrt, price, ps[|ps|-1], token0)
  }

  ghost function Amount(sqrt: Grid, price: int, p: Position, token0: bool): real
    requires Monotone(sqrt)
    requires PositionPrincipal(sqrt, price, p.liquidity, p.lower, p.upper).Ok?
  {
    var v := PositionPrincipal(sqrt, price, p.liquidity, p.lower, p.upper).value;
    if token0 then v.0 else v.1
  }

  ghost predicate Priceable(sqrt: Grid, price: int, ps: seq<Position>) {
    && Monotone(sqrt)
    && forall i :: 0 <= i < |ps| ==>
         PositionPrincipal(sqrt, price, ps[i].liquidity, ps[i].lower, ps[i].upper).Ok?
  }

  // ---------- Clamped values telescope ----------

  function Max(a: int, b: int): int { if a > b then a else b }
  function Min(a: int, b: int): int { if a < b then a else b }

  /** Value per unit of liquidity above tick `t`: one range is worth the difference of
      this level at its two ends, whatever the price. */
  ghost function Level(sqrt: Grid, price: int, token0: bool, t: int): real
    requires price > 0
  {
    if token0 then Q96 as real / Max(sqrt(t), price) as real
    else -(Min(sqrt(t), price) as real / Q96 as real)
  }

  ghost function LevelWeight(sqrt: Grid, price: int, token0: bool): Weight
    requires price > 0
  {
    (l, t) => Times(l, Level(sqrt, price, token0, t))
  }

  ghost function Times(l: int, x: real): real {
    l as real * x
  }

  lemma LevelAdditive(sqrt: Grid, price: int, token0: bool)
    requires price > 0
    ensures Additive(LevelWeight(sqrt, price, token0))
  {
    var f := LevelWeight(sqrt, price, token0);
    forall l, m, t
      ensures f(l, t) + f(m, t) == f(l + m, t)
    {
      Distribute(l, m, Level(sqrt, price, token0, t));
    }
  }

  lemma Distribute(a: int, b: int, c: real)
    ensures a as real * c + b as real * c == (a + b) as real * c
  {
  }

  lemma ReciprocalDifference(k: real, x: real, y: real)
    requires x > 0.0 && y > 0.0
    ensures x * y > 0.0 && (k * (y - x)) / (x * y) == k / x - k / y
  {
    var u, v := k / x, k / y;
    assert u * x == k && v * y == k;
    assert (u - v) * (x * y) == (u * x) * y - (v * y) * x;
    assert (u - v) * (x * y) == k * (y - x);
  }

  lemma Pull(l: real, q: real, x: real)
    requires x > 0.0
    ensures (l * q) / x == l * (q / x)
  {
  }

  lemma RatioToken0(l: int, c: int, b: int)
    requires 0 < c && 0 < b
    ensures c * b > 0
    ensures Ratio(l * (b - c) * Q96, c * b) ==
              l as real * (Q96 as real / c as real) - l as real * (Q96 as real / b as real)
  {
    var lr, q, x, y := l as real, Q96 as real, c as real, b as real;
    assert (l * (b - c) * Q96) as real == (lr * q) * (y - x) by {
      assert (l * (b - c)) as real == lr * (y - x);
    }
    assert (c * b) as real == x * y;
    ReciprocalDifference(lr * q, x, y);
    Pull(lr, q, x);
    Pull(lr, q, y);
  }

  lemma RatioToken1(l: int, a: int, c: int)
    ensures Ratio(l * (c - a), Q96) ==
              l as real * (c as real / Q96 as real) - l as real * (a as real / Q96 as real)
  {
    var lr, q, x, y := l as real, Q96 as real, a as real, c as real;
    assert (l * (c - a)) as real == lr * (y - x);
    Pull(lr, y, q);
    Pull(lr, x, q);
    assert lr * (y - x) == lr * y - lr * x;
  }

  lemma Token0Value(sqrt: Grid, price: int, l: int, lower: int, upper: int)
    requires 0 < sqrt(lower) <= sqrt(upper) && price > 0
    ensures
      var b := sqrt(upper);
      var c := Clamp(price, sqrt(lower), b);
      && c * b > 0
      && Ratio(l * (b - c) * Q96, c * b) ==
         Times(l, Level(sqrt, price, true, lower)) + Times(-l, Level(sqrt, price, true, upper))
  {
    var a, b := sqrt(lower), sqrt(upper);
    var c := Clamp(price, a, b);
    RatioToken0(l, c, b);
    Negate(l, Level(sqrt, price, true, upper));
    hide Ratio;
    if price >= b {
      assert c == b && Max(a, price) == Max(b, price);
    } else {
      assert Max(b, price) == b && Max(a, price) == c;
    }
  }

  lemma Token1Value(sqrt: Grid, price: int, l: int, lower: int, upper: int)
    requires 0 < sqrt(lower) <= sqrt(upper) && price > 0
    ensures
      var a := sqrt(lower);
      Ratio(l * (Clamp(price, a, sqrt(upper)) - a), Q96) ==
      Times(l, Level(sqrt, price, false, lower)) + Times(-l, Level(sqrt, price, false, upper))
  {
    var a, b := sqrt(lower), sqrt(upper);
    var c := Clamp(price, a, b);
    var x, y := Min(a, price), Min(b, price);
    assert c - a == y - x;
    RatioToken1(l, x, y);
    Negate(l, Level(sqrt, price, false, upper));
    Opposite(l, x as real / Q96 as real);
    Opposite(l, y as real / Q96 as real);
    hide Ratio;
  }

  lemma Opposite(l: int, x: real)
    ensures Times(l, -x) == -(l as real * x)
  {
  }

  /** The exact value of a range is the level difference between its ends. */
  lemma RangeValue(sqrt: Grid, price: int, l: int, lower: int, upper: int, token0: bool)
    requires Monotone(sqrt) && price > 0 && MIN_TICK <= lower < upper <= MAX_TICK
    ensures
      var a, b := sqrt(lower), sqrt(upper);
      var c := Clamp(price, a, b);
      && a <= c <= b && c * b > 0
      && (if token0 then Ratio(l * (b - c) * Q96, c * b) else Ratio(l * (c - a), Q96)) ==
         Times(l, Level(sqrt, price, token0, lower)) + Times(-l, Level(sqrt, price, token0, upper))
  {
    hide Ratio, Times, Level;
    Token0Value(sqrt, price, l, lower, upper);
    Token1Value(sqrt, price, l, lower, upper);
  }

  lemma Negate(l: int, x: real)
    ensures Times(-l, x) == -(l as real * x)
  {
  }

  /** The value of one position, for every input: it exists exactly for an ordered range, a 128-bit
      liquidity and a price on the grid, and both amounts are differences of levels at its ends. */
  lemma PositionValue(sqrt: Grid, price: int, l: int, lower: int, upper: int)
    requires Monotone(sqrt)
    ensures
      var r := PositionPrincipal(sqrt, price, l, lower, upper);
      && (r.Ok? <==> MIN_TICK <= lower < upper <= MAX_TICK && 0 <= l < POW128
                     && sqrt(MIN_TICK) <= price < sqrt(MAX_TICK))
      && (r.Ok? ==>
            && price > 0
            && r.value.0 == Times(l, Level(sqrt, price, true, lower)) + Times(-l, Level(sqrt, price, true, upper))
            && r.value.1 == Times(l, Level(sqrt, price, false, lower)) + Times(-l, Level(sqrt, price, false, upper)))
  {
    if PositionPrincipal(sqrt, price, l, lower, upper).Ok? {
      hide Times, Level, Ratio;
      RangeValue(sqrt, price, l, lower, upper, true);
      RangeValue(sqrt, price, l, lower, upper, false);
    }
  }

  /** The two amounts in plain terms: below the range all is token 0, above it all is token 1, and in
      between the price splits the range; 2^96 is the unit of the square-root prices. */
  lemma PositionAmounts(sqrt: Grid, price: int, l: int, lower: int, upper: int)
    requires Monotone(sqrt) && PositionPrincipal(sqrt, price, l, lower, upper).Ok?
    ensures
      var (a, b, c) := (sqrt(lower) as real, sqrt(upper) as real, price as real);
      var unit := 79228162514264337593543950336.0;
      var (token0, token1) := PositionPrincipal(sqrt, price, l, lower, upper).value;
      && 0.0 < a && 0.0 < b && 0.0 < c
      && (price <= sqrt(lower) ==> token0 == l as real * (unit / a) - l as real * (unit / b) && token1 == 0.0)
      && (sqrt(lower) <= price <= sqrt(upper) ==>
            && token0 == l as real * (unit / c) - l as real * (unit / b)
            && token1 == l as real * (c / unit) - l as real * (a / unit))
      && (price >= sqrt(upper) ==> token0 == 0.0 && token1 == l as real * (b / unit) - l as real * (a / unit))
  {
    hide Ratio;
    var a, b := sqrt(lower), sqrt(upper);
    var c := Clamp(price, a, b);
    assert Q96 as real == 79228162514264337593543950336.0;
    RatioToken0(l, c, b);
    RatioToken1(l, a, c);
  }

  /** So the floored amounts of one interval between two ticks are floors of these amounts for the
      liquidity active there. */
  lemma IntervalAmounts(sqrt: Grid, s: State, i: nat)
    requires Monotone(sqrt) && i + 1 < |s.ticks|
    requires PositionPrincipal(sqrt, s.price, Cum(s.ticks, i + 1), s.ticks[i].index, s.ticks[i+1].index).Ok?
    ensures
      var exact := PositionPrincipal(sqrt, s.price, Cum(s.ticks, i + 1), s.ticks[i].index, s.ticks[i+1].index).value;
      && Interval(sqrt, s, i, true) == exact.0.Floor && Interval(sqrt, s, i, false) == exact.1.Floor
  {
    var l, a, b := Cum(s.ticks, i + 1), sqrt(s.ticks[i].index), sqrt(s.ticks[i+1].index);
    var c := Clamp(s.price, a, b);
    Products(l, b - c, c, b);
    Products(l, c - a, c, b);
    Floor(l * (b - c) * Q96, c * b);
    Floor(l * (c - a), Q96);
  }

  lemma AmountByLevel(sqrt: Grid, price: int, p: Position, token0: bool)
    requires Monotone(sqrt) && price > 0
    requires PositionPrincipal(sqrt, price, p.liquidity, p.lower, p.upper).Ok?
    ensures
      var f := LevelWeight(sqrt, price, token0);
      Amount(sqrt, price, p, token0) == f(p.liquidity, p.lower) + f(-p.liquidity, p.upper)
  {
    RangeValue(sqrt, price, p.liquidity, p.lower, p.upper, token0);
    hide Times, Level, Ratio;
  }

  lemma {:induction false} ExactByLevel(sqrt: Grid, price: int, ps: seq<Position>, token0: bool)
    requires Priceable(sqrt, price, ps) && price > 0
    ensures Exact(sqrt, price, ps, token0) == ByPosition(ps, LevelWeight(sqrt, price, token0))
  {
    if ps != [] {
      var p := ps[|ps|-1];
      ExactByLevel(sqrt, price, ps[..|ps|-1], token0);
      AmountByLevel(sqrt, price, p, token0);
    }
  }

  // ---------- Interval by interval ----------

  /** Weights gained and lost over the first `k` intervals by the liquidity active there. */
  ghost function Spread(ticks: seq<Tick>, k: nat, f: Weight): real
    requires k < |ticks| || k == 0
  {
    if k == 0 then 0.0
    else Spread(ticks, k - 1, f) + f(Cum(ticks, k), ticks[k-1].index) + f(-Cum(ticks, k), ticks[k].index)
  }

  /** Summation by parts. */
  lemma {:induction false} SpreadByTick(ticks: seq<Tick>, k: nat, f: Weight)
    requires k < |ticks| && Additive(f)
    ensures Spread(ticks, k, f) + f(Cum(ticks, k + 1), ticks[k].index) == ByTick(ticks, k + 1, f)
  {
    if k > 0 {
      SpreadByTick(ticks, k - 1, f);
      var c, t := Cum(ticks, k), ticks[k].index;
      assert f(-c, t) + f(c + ticks[k].net, t) == f(-c + (c + ticks[k].net), t);
    } else {
      assert ByTick(ticks, 1, f) == ByTick(ticks, 0, f) + f(ticks[0].net, ticks[0].index);
      assert Cum(ticks, 1) == Cum(ticks, 0) + ticks[0].net;
    }
  }

  lemma Floor(n: int, d: int)
    requires n >= 0 && d > 0
    ensures Quo(n, d) as real <= Ratio(n, d) < Quo(n, d) as real + 1.0
  {
    var q := n / d;
    assert n == q * d + n % d;
    assert n as real == q as real * d as real + (n % d) as real;
    Fraction(n as real, q as real, d as real, (n % d) as real);
  }

  lemma Fraction(n: real, q: real, d: real, rest: real)
    requires d > 0.0 && 0.0 <= rest < d && n == q * d + rest
    ensures q <= n / d < q + 1.0
  {
    var x := n / d;
    assert x * d == n;
    assert (q + 1.0) * d == q * d + d;
    Cancel(q, x, d);
    Cancel(q + 1.0, x, d);
  }

  lemma Cancel(x: real, y: real, d: real)
    requires d > 0.0
    ensures x * d <= y * d <==> x <= y
  {
    assert y * d - x * d == (y - x) * d;
  }

  lemma Products(l: int, w: int, d: int, e: int)
    requires l >= 0 && w >= 0 && d > 0 && e > 0
    ensures l * w >= 0 && l * w * Q96 >= 0 && d * e > 0
  {
  }

  lemma IntervalFloor(sqrt: Grid, s: State, i: nat, token0: bool)
    requires Monotone(sqrt) && s.price > 0 && i + 1 < |s.ticks|
    requires MIN_TICK <= s.ticks[i].index < s.ticks[i+1].index <= MAX_TICK
    requires Cum(s.ticks, i + 1) >= 0
    ensures
      var f, l := LevelWeight(sqrt, s.price, token0), Cum(s.ticks, i + 1);
      var exact := f(l, s.ticks[i].index) + f(-l, s.ticks[i+1].index);
      Interval(sqrt, s, i, token0) as real <= exact < Interval(sqrt, s, i, token0) as real + 1.0
  {
    var l, a, b := Cum(s.ticks, i + 1), sqrt(s.ticks[i].index), sqrt(s.ticks[i+1].index);
    var c := Clamp(s.price, a, b);
    RangeValue(sqrt, s.price, l, s.ticks[i].index, s.ticks[i+1].index, token0);
    Products(l, b - c, c, b);
    Products(l, c - a, c, b);
    hide Times, Level, Ratio, Quo;
    if token0 { Floor(l * (b - c) * Q96, c * b); } else { Floor(l * (c - a), Q96); }
  }

  lemma {:induction false} SumOfFloors(sqrt: Grid, s: State, k: nat, token0: bool)
    requires Monotone(sqrt) && s.spacing != 0 && s.price > 0 && GoodTicks(s.ticks, s.spacing)
    requires Balanced(s.ticks) && (k < |s.ticks| || k == 0) && OnGrid(sqrt, s.ticks)
    ensures
      var exact := Spread(s.ticks, k, LevelWeight(sqrt, s.price, token0));
      var sum := Floored(sqrt, s, k, token0) as real;
      if k == 0 then sum == exact else sum <= exact < sum + k as real
  {
    if k > 0 {
      hide LevelWeight, Interval, Spread, Floored;
      SumOfFloors(sqrt, s, k - 1, token0);
      OneInterval(sqrt, s, k - 1, token0);
      SpreadNext(s.ticks, k, LevelWeight(sqrt, s.price, token0));
      FlooredNext(sqrt, s, k, token0);
      if k == 1 { NoFloors(sqrt, s, token0, LevelWeight(sqrt, s.price, token0)); }
    } else {
      NoFloors(sqrt, s, token0, LevelWeight(sqrt, s.price, token0));
    }
  }

  lemma SpreadNext(ticks: seq<Tick>, k: nat, f: Weight)
    requires 0 < k < |ticks|
    ensures Spread(ticks, k, f) ==
            Spread(ticks, k - 1, f) + (f(Cum(ticks, k), ticks[k-1].index) + f(-Cum(ticks, k), ticks[k].index))
  {
  }

  lemma FlooredNext(sqrt: Grid, s: State, k: nat, token0: bool)
    requires 0 < k < |s.ticks| && OnGrid(sqrt, s.ticks)
    ensures Floored(sqrt, s, k, token0) == Floored(sqrt, s, k - 1, token0) + Interval(sqrt, s, k - 1, token0)
  {
  }

  lemma NoFloors(sqrt: Grid, s: State, token0: bool, f: Weight)
    requires OnGrid(sqrt, s.ticks)
    ensures Floored(sqrt, s, 0, token0) == 0 && Spread(s.ticks, 0, f) == 0.0
  {
  }

  lemma OneInterval(sqrt: Grid, s: State, i: nat, token0: bool)
    requires Monotone(sqrt) && s.spacing != 0 && s.price > 0 && GoodTicks(s.ticks, s.spacing)
    requires Balanced(s.ticks) && i + 1 < |s.ticks| && OnGrid(sqrt, s.ticks)
    ensures
      var f, l := LevelWeight(sqrt, s.price, token0), Cum(s.ticks, i + 1);
      var exact := f(l, s.ticks[i].index) + f(-l, s.ticks[i+1].index);
      Interval(sqrt, s, i, token0) as real <= exact < Interval(sqrt, s, i, token0) as real + 1.0
  {
    hide Times, Level, Interval;
    assert Aligned(s.ticks[i], s.spacing) && Aligned(s.ticks[i+1], s.spacing);
    IntervalFloor(sqrt, s, i, token0);
  }

  // ---------- The bound ----------

  lemma {:induction false} LiquidityFits(ps: seq<Position>, i: nat)
    requires Open(ps) && i < |ps|
    ensures ps[i].liquidity <= Gross(ps, ps[i].lower)
  {
    var n := |ps| - 1;
    if i < n { LiquidityFits(ps[..n], i); }
    GrossBounds(ps[..n], ps[i].lower);
  }

  /** Every position of a consistent state has an exact value at its price. */
  lemma AllPriceable(sqrt: Grid, s: State, ps: seq<Position>)
    requires Monotone(sqrt) && Consistent(sqrt, s) && Induced(s.ticks, ps) && Open(ps)
    ensures Priceable(sqrt, s.price, ps)
  {
    ConsistentFits(sqrt, s, ps);
    forall i | 0 <= i < |ps|
      ensures PositionPrincipal(sqrt, s.price, ps[i].liquidity, ps[i].lower, ps[i].upper).Ok?
    {
      LiquidityFits(ps, i);
    }
  }

  /** The floored valuation of the pool never exceeds the exact value of its positions and
      falls short of it by less than one base unit per interval between ticks. */
  lemma PrincipalBound(sqrt: Grid, s: State, ps: seq<Position>, token0: bool)
    requires Monotone(sqrt) && Consistent(sqrt, s) && Induced(s.ticks, ps) && Open(ps)
    ensures Priceable(sqrt, s.price, ps) && OnGrid(sqrt, s.ticks)
    ensures
      var amounts := ValueOf(sqrt, s, true);
      var amount := (if token0 then amounts.token0 else amounts.token1) as real;
      var exact := Exact(sqrt, s.price, ps, token0);
      if |s.ticks| < 2 then amount == exact
      else amount <= exact < amount + (|s.ticks| - 1) as real
  {
    AllPriceable(sqrt, s, ps);
    var f := LevelWeight(sqrt, s.price, token0);
    LevelAdditive(sqrt, s.price, token0);
    TicksOnGrid(sqrt, s);
    ExactByLevel(sqrt, s.price, ps, token0);
    Reindex(s.ticks, ps, f);
    var k := Intervals(s.ticks);
    hide Times, Level, Interval, Exact, ByPosition, Priceable;
    SumOfFloors(sqrt, s, k, token0);
    if s.ticks != [] {
      LastLevel(sqrt, s, k, token0);
    }
  }

  lemma TicksOnGrid(sqrt: Grid, s: State)
    requires Monotone(sqrt) && Consistent(sqrt, s)
    ensures OnGrid(sqrt, s.ticks)
  {
    assert forall i :: 0 <= i < |s.ticks| ==> Aligned(s.ticks[i], s.spacing);
  }

  /** As all nets cancel, the spread over all intervals is the sum over the ticks. */
  lemma LastLevel(sqrt: Grid, s: State, k: nat, token0: bool)
    requires s.price > 0 && Balanced(s.ticks) && |s.ticks| == k + 1
    ensures var f := LevelWeight(sqrt, s.price, token0); Spread(s.ticks, k, f) == ByTick(s.ticks, k + 1, f)
  {
    hide Level, Spread, ByTick;
    var f := LevelWeight(sqrt, s.price, token0);
    LevelAdditive(sqrt, s.price, token0);
    SpreadByTick(s.ticks, k, f);
    assert f(0, s.ticks[k].index) == 0.0;
  }
}
