/** The tick list refines the collection of positions: what validation accepts, what
    an update does, and when an update is refused, told in terms of positions. */
module Refinement {
  import opened Ticks
  import opened Liquidity
  import opened Updates

  // ---------- Summing by tick is summing by position ----------

  /** What liquidity `l` contributes at tick `t`. */
  type Weight = (int, int) -> real

  ghost predicate Additive(f: Weight) {
    forall l, m, t :: f(l, t) + f(m, t) == f(l + m, t)
  }

  /** Sum over the first `k` ticks of the weight of their nets. */
  ghost function ByTick(ticks: seq<Tick>, k: nat, f: Weight): real
    requires k <= |ticks|
  {
    if k == 0 then 0.0 else ByTick(ticks, k - 1, f) + f(ticks[k-1].net, ticks[k-1].index)
  }

  /** The same sum with the nets of the positions `ps`. */
  ghost function ByNet(ticks: seq<Tick>, k: nat, ps: seq<Position>, f: Weight): real
    requires k <= |ticks|
  {
    if k == 0 then 0.0
    else ByNet(ticks, k - 1, ps, f) + f(Net(ps, ticks[k-1].index), ticks[k-1].index)
  }

  /** Sum over the positions of the weight gained at the lower and lost at the upper end. */
  ghost function ByPosition(ps: seq<Position>, f: Weight): real {
    if ps == [] then 0.0
    else
      var p := ps[|ps|-1];
      ByPosition(ps[..|ps|-1], f) + f(p.liquidity, p.lower) + f(-p.liquidity, p.upper)
  }

  ghost predicate ListedBefore(ticks: seq<Tick>, k: nat, t: int)
    requires k <= |ticks|
  {
    exists i :: 0 <= i < k && ticks[i].index == t
  }

  ghost function ByOne(ticks: seq<Tick>, k: nat, p: Position, f: Weight): real
    requires k <= |ticks|
  {
    if k == 0 then 0.0
    else ByOne(ticks, k - 1, p, f) + f(NetOf(p, ticks[k-1].index), ticks[k-1].index)
  }

  lemma {:induction false} OneByTick(ticks: seq<Tick>, k: nat, p: Position, f: Weight)
    requires Sorted(ticks) && k <= |ticks| && p.lower != p.upper && Additive(f)
    ensures ByOne(ticks, k, p, f) ==
              (if ListedBefore(ticks, k, p.lower) then f(p.liquidity, p.lower) else 0.0) +
              (if ListedBefore(ticks, k, p.upper) then f(-p.liquidity, p.upper) else 0.0)
  {
    if k > 0 {
      OneByTick(ticks, k - 1, p, f);
      var t := ticks[k-1].index;
      assert forall x :: ListedBefore(ticks, k, x) <==> ListedBefore(ticks, k - 1, x) || x == t;
      assert !ListedBefore(ticks, k - 1, t);
      assert f(0, t) + f(0, t) == f(0 + 0, t);
    }
  }

  lemma {:induction false} NetSplit(ticks: seq<Tick>, k: nat, ps: seq<Position>, f: Weight)
    requires k <= |ticks| && ps != [] && Additive(f)
    ensures ByNet(ticks, k, ps, f) ==
              ByNet(ticks, k, ps[..|ps|-1], f) + ByOne(ticks, k, ps[|ps|-1], f)
  {
    if k > 0 { NetSplit(ticks, k - 1, ps, f); }
  }

  lemma {:induction false} NetByPosition(ticks: seq<Tick>, ps: seq<Position>, f: Weight)
    requires Sorted(ticks) && Additive(f)
    requires forall i :: 0 <= i < |ps| ==>
               ps[i].lower != ps[i].upper && Has(ticks, ps[i].lower) && Has(ticks, ps[i].upper)
    ensures ByNet(ticks, |ticks|, ps, f) == ByPosition(ps, f)
  {
    if ps == [] {
      NoNets(ticks, |ticks|, f);
    } else {
      var p := ps[|ps|-1];
      NetSplit(ticks, |ticks|, ps, f);
      NetByPosition(ticks, ps[..|ps|-1], f);
      OneByTick(ticks, |ticks|, p, f);
      assert ListedBefore(ticks, |ticks|, p.lower) && ListedBefore(ticks, |ticks|, p.upper);
    }
  }

  lemma {:induction false} NoNets(ticks: seq<Tick>, k: nat, f: Weight)
    requires k <= |ticks| && Additive(f)
    ensures ByNet(ticks, k, [], f) == 0.0
  {
    if k > 0 {
      NoNets(ticks, k - 1, f);
      var t := ticks[k-1].index;
      assert f(0, t) + f(0, t) == f(0 + 0, t);
    }
  }

  lemma {:induction false} SameNets(ticks: seq<Tick>, k: nat, ps: seq<Position>, f: Weight)
    requires Induced(ticks, ps) && k <= |ticks|
    ensures ByTick(ticks, k, f) == ByNet(ticks, k, ps, f)
  {
    if k > 0 {
      SameNets(ticks, k - 1, ps, f);
      AtEntry(ticks, k - 1);
    }
  }

  /** For every additive weight: summed over the ticks it gives what the positions
      gain at their lower ends and lose at their upper ends. */
  lemma Reindex(ticks: seq<Tick>, ps: seq<Position>, f: Weight)
    requires Induced(ticks, ps) && Open(ps) && Additive(f)
    ensures ByTick(ticks, |ticks|, f) == ByPosition(ps, f)
  {
    forall i | 0 <= i < |ps|
      ensures Has(ticks, ps[i].lower) && Has(ticks, ps[i].upper)
    {
      EndCarries(ps, i);
      assert At(ticks, ps[i].lower).gross > 0 && At(ticks, ps[i].upper).gross > 0;
    }
    SameNets(ticks, |ticks|, ps, f);
    NetByPosition(ticks, ps, f);
  }

  lemma {:induction false} EndCarries(ps: seq<Position>, i: nat)
    requires Open(ps) && i < |ps|
    ensures Gross(ps, ps[i].lower) > 0 && Gross(ps, ps[i].upper) > 0
  {
    var n := |ps| - 1;
    if i < n { EndCarries(ps[..n], i); }
    GrossBounds(ps[..n], ps[i].lower);
    GrossBounds(ps[..n], ps[i].upper);
  }

  lemma {:induction false} GrossBounds(ps: seq<Position>, t: int)
    requires Open(ps)
    ensures -Gross(ps, t) <= Net(ps, t) <= Gross(ps, t)
    ensures Active(ps, t) >= 0
  {
    if ps != [] { GrossBounds(ps[..|ps|-1], t); }
  }

  // ---------- Active liquidity ----------

  ghost function UpTo(x: int): Weight { (l, t) => if t <= x then l as real else 0.0 }

  lemma {:induction false} ActiveByPosition(ps: seq<Position>, x: int)
    requires Open(ps)
    ensures ByPosition(ps, UpTo(x)) == Active(ps, x) as real
  {
    if ps != [] { ActiveByPosition(ps[..|ps|-1], x); }
  }

  lemma {:induction false} ActiveByTick(ticks: seq<Tick>, k: nat, x: int)
    requires k <= |ticks|
    ensures ByTick(ticks, k, UpTo(x)) == CumTo(ticks, k, x) as real
  {
    if k > 0 { ActiveByTick(ticks, k - 1, x); }
  }

  /** Adding the nets of all ticks at or below `x` gives the liquidity of the positions
      whose range contains `x`. */
  lemma ActiveIsSum(ticks: seq<Tick>, ps: seq<Position>, x: int)
    requires Induced(ticks, ps) && Open(ps)
    ensures CumTo(ticks, |ticks|, x) == Active(ps, x)
  {
    Reindex(ticks, ps, UpTo(x));
    ActiveByPosition(ps, x);
    ActiveByTick(ticks, |ticks|, x);
  }

  lemma {:induction false} NoneAbove(ticks: seq<Tick>, k: nat, n: nat, x: int)
    requires Sorted(ticks) && k <= n <= |ticks|
    requires k < |ticks| ==> ticks[k].index > x
    ensures CumTo(ticks, n, x) == CumTo(ticks, k, x)
  {
    if k < n { NoneAbove(ticks, k, n - 1, x); }
  }

  lemma CumAt(ticks: seq<Tick>, k: nat)
    requires Sorted(ticks) && k < |ticks|
    ensures Cum(ticks, k + 1) == CumTo(ticks, |ticks|, ticks[k].index)
  {
    BelowAll(ticks, k, ticks[k].index);
    NoneAbove(ticks, k + 1, |ticks|, ticks[k].index);
  }

  /** Between two ticks of the list, the running sum is the liquidity of the positions
      that span the interval; past the last tick it is zero. */
  lemma RunningSum(ticks: seq<Tick>, ps: seq<Position>, k: nat)
    requires Induced(ticks, ps) && Open(ps) && k < |ticks|
    ensures Cum(ticks, k + 1) == Active(ps, ticks[k].index)
  {
    CumAt(ticks, k);
    ActiveIsSum(ticks, ps, ticks[k].index);
  }

  lemma {:induction false} NothingAtTop(ps: seq<Position>, t: int)
    requires Open(ps) && t >= MAX_TICK
    ensures Active(ps, t) == 0
  {
    if ps != [] { NothingAtTop(ps[..|ps|-1], t); }
  }

  lemma {:induction false} CumToIsCum(ticks: seq<Tick>, x: int) returns (k: nat)
    requires Sorted(ticks)
    ensures k <= |ticks| && CumTo(ticks, |ticks|, x) == Cum(ticks, k)
  {
    k := 0;
    while k < |ticks| && ticks[k].index <= x
      invariant k <= |ticks|
      invariant k > 0 ==> ticks[k-1].index <= x
    {
      k := k + 1;
    }
    NoneAbove(ticks, k, |ticks|, x);
    if k > 0 { BelowAll(ticks, k - 1, x); }
  }

  // ---------- Validation ----------

  /** The positions fit the integers of the pool. */
  ghost predicate Fits(ps: seq<Position>) {
    forall t :: Gross(ps, t) < POW128 && -POW127 <= Net(ps, t) < POW127 && Active(ps, t) < POW128
  }

  ghost predicate OnSpacing(ps: seq<Position>, spacing: int)
    requires spacing != 0
  {
    forall i :: 0 <= i < |ps| ==> ps[i].lower % spacing == 0 && ps[i].upper % spacing == 0
  }

  ghost predicate LiveCoordinates(sqrt: Grid, s: State) {
    s.complete && Coordinated(s) && Bounded(sqrt, s) && Priced(sqrt, s)
  }

  /** Validation of an indexed state accepts exactly the states whose positions fit and
      whose active liquidity is that of the positions containing the current tick. */
  lemma ConsistentIff(sqrt: Grid, s: State, ps: seq<Position>)
    requires Induced(s.ticks, ps) && Open(ps)
    requires LiveCoordinates(sqrt, s) && OnSpacing(ps, s.spacing)
    ensures Consistent(sqrt, s) <==> Fits(ps) && s.active == Active(ps, s.tick)
  {
    ActiveIsSum(s.ticks, ps, s.tick);
    if Consistent(sqrt, s) { ConsistentFits(sqrt, s, ps); }
    if Fits(ps) {
      forall i | 0 <= i < |s.ticks|
        ensures Aligned(s.ticks[i], s.spacing) && Sized(s.ticks[i])
      {
        AtEntry(s.ticks, i);
        GrossBounds(ps, s.ticks[i].index);
        var p := EndAt(ps, s.ticks[i].index);
      }
      forall k | 0 <= k <= |s.ticks|
        ensures 0 <= Cum(s.ticks, k) < POW128
      {
        if k > 0 {
          RunningSum(s.ticks, ps, k - 1);
          GrossBounds(ps, s.ticks[k-1].index);
        }
      }
      EndsAtZero(s.ticks, ps);
    }
  }

  /** The validation written out: which states that index a book are accepted. */
  lemma AcceptedStates(sqrt: Grid, s: State, ps: seq<Position>)
    requires Induced(s.ticks, ps) && Open(ps)
    ensures Consistent(sqrt, s) <==>
            && s.complete && 1 <= s.spacing <= 32767 && -887272 <= s.tick < 887272
            && sqrt(-887272) <= s.price < sqrt(887272) && sqrt(s.tick) <= s.price <= sqrt(s.tick + 1)
            && (forall i :: 0 <= i < |ps| ==> ps[i].lower % s.spacing == 0 && ps[i].upper % s.spacing == 0)
            && (forall t :: Gross(ps, t) < 0x1_0000_0000_0000_0000_0000_0000_0000_0000)
            && (forall t :: -0x8000_0000_0000_0000_0000_0000_0000_0000 <= Net(ps, t)
                            < 0x8000_0000_0000_0000_0000_0000_0000_0000)
            && (forall t :: Active(ps, t) < 0x1_0000_0000_0000_0000_0000_0000_0000_0000)
            && s.active == Active(ps, s.tick)
  {
    if Consistent(sqrt, s) {
      IndexedOnSpacing(sqrt, s, ps);
      ConsistentIff(sqrt, s, ps);
    }
    if s.complete && 1 <= s.spacing && s.active == Active(ps, s.tick) && Fits(ps) && OnSpacing(ps, s.spacing) {
      GrossBounds(ps, s.tick);
      if LiveCoordinates(sqrt, s) { ConsistentIff(sqrt, s, ps); }
    }
  }

  lemma EndsAtZero(ticks: seq<Tick>, ps: seq<Position>)
    requires Induced(ticks, ps) && Open(ps)
    ensures Cum(ticks, |ticks|) == 0
  {
    var n := |ticks|;
    if n > 0 {
      AtEntry(ticks, n - 1);
      RunningSum(ticks, ps, n - 1);
      ActiveIsSum(ticks, ps, MAX_TICK);
      NothingAtTop(ps, MAX_TICK);
      var p := EndAt(ps, ticks[n-1].index);
      assert ticks[n-1].index <= MAX_TICK;
      BelowAll(ticks, n - 1, MAX_TICK);
    }
  }

  /** A tick with liquidity is an end of some position. */
  lemma {:induction false} EndAt(ps: seq<Position>, t: int) returns (i: nat)
    requires Open(ps) && Gross(ps, t) != 0
    ensures i < |ps| && t in {ps[i].lower, ps[i].upper}
  {
    var n := |ps| - 1;
    if GrossOf(ps[n], t) != 0 { i := n; } else { i := EndAt(ps[..n], t); }
  }

  lemma ConsistentFits(sqrt: Grid, s: State, ps: seq<Position>)
    requires Consistent(sqrt, s) && Induced(s.ticks, ps) && Open(ps)
    ensures Fits(ps)
  {
    forall t
      ensures Gross(ps, t) < POW128 && -POW127 <= Net(ps, t) < POW127 && Active(ps, t) < POW128
    {
      if Has(s.ticks, t) {
        var i :| 0 <= i < |s.ticks| && s.ticks[i].index == t;
        AtEntry(s.ticks, i);
        assert Sized(s.ticks[i]);
      } else {
        assert At(s.ticks, t) == Tick(t, 0, 0);
      }
      ActiveIsSum(s.ticks, ps, t);
      var k := CumToIsCum(s.ticks, t);
    }
  }

  // ---------- Every collection of positions has one index ----------

  lemma TouchExists(ticks: seq<Tick>, index: int, gross: int, net: int) returns (after: seq<Tick>)
    requires Sorted(ticks) && NoZeroGross(ticks) && gross > 0 && At(ticks, index).gross >= 0
    ensures Touched(ticks, index, gross, net, after)
  {
    var at := 0;
    while at < |ticks| && ticks[at].index < index
      invariant 0 <= at <= |ticks|
      invariant forall i :: 0 <= i < at ==> ticks[i].index < index
    {
      at := at + 1;
    }
    if at < |ticks| && ticks[at].index == index {
      AtEntry(ticks, at);
      TouchedEdit(ticks, at, gross, net);
      after := ticks[at := Tick(index, ticks[at].gross + gross, ticks[at].net + net)];
    } else {
      TouchedInsert(ticks, at, index, gross, net);
      after := ticks[..at] + [Tick(index, gross, net)] + ticks[at..];
    }
  }

  lemma {:induction false} IndexExists(ps: seq<Position>) returns (ticks: seq<Tick>)
    requires Open(ps)
    ensures Induced(ticks, ps)
  {
    if ps == [] {
      ticks := [];
    } else {
      var init, p := ps[..|ps|-1], ps[|ps|-1];
      var before := IndexExists(init);
      GrossBounds(init, p.lower);
      var middle := TouchExists(before, p.lower, p.liquidity, p.liquidity);
      GrossBounds(init, p.upper);
      ticks := TouchExists(middle, p.upper, p.liquidity, -p.liquidity);
      EffectOfEnds(before, middle, ticks, p.lower, p.upper, p.liquidity);
    }
  }

  /** The ticks where some position starts or ends. */
  function Ends(ps: seq<Position>): set<int> {
    if ps == [] then {} else Ends(ps[..|ps|-1]) + {ps[|ps|-1].lower, ps[|ps|-1].upper}
  }

  lemma {:induction false} InEnds(ps: seq<Position>, t: int)
    requires Open(ps)
    ensures t in Ends(ps) <==> Gross(ps, t) > 0
  {
    if ps != [] {
      InEnds(ps[..|ps|-1], t);
      GrossBounds(ps[..|ps|-1], t);
    }
  }

  function Indices(ticks: seq<Tick>): set<int> {
    set i | 0 <= i < |ticks| :: ticks[i].index
  }

  lemma {:induction false} CountIndices(ticks: seq<Tick>)
    requires Sorted(ticks)
    ensures |Indices(ticks)| == |ticks|
  {
    if ticks != [] {
      var n := |ticks| - 1;
      CountIndices(ticks[..n]);
      assert Indices(ticks) == Indices(ticks[..n]) + {ticks[n].index};
      assert ticks[n].index !in Indices(ticks[..n]);
    }
  }

  /** The list is as long as there are distinct ends. */
  lemma LengthIsEnds(ticks: seq<Tick>, ps: seq<Position>)
    requires Induced(ticks, ps) && Open(ps)
    ensures |ticks| == |Ends(ps)|
  {
    forall t
      ensures t in Ends(ps) <==> t in Indices(ticks)
    {
      InEnds(ps, t);
      GrossBounds(ps, t);
      if t in Indices(ticks) {
        var i :| 0 <= i < |ticks| && ticks[i].index == t;
        AtEntry(ticks, i);
      } else {
        assert !Has(ticks, t);
      }
    }
    assert Ends(ps) == Indices(ticks);
    CountIndices(ticks);
  }

  // ---------- Updates in terms of positions ----------

  /** How a liquidity change alters the positions: liquidity is added as a new position
      or to an existing one, or removed from an existing one, which closes at zero. */
  ghost predicate Altered(ps: seq<Position>, u: Update, qs: seq<Position>)
    requires u.Change?
  {
    || (u.delta == 0 && qs == ps)
    || (u.delta > 0 && qs == ps + [Position(u.lower, u.upper, u.delta)])
    || (exists i :: AlteredAt(ps, u, qs, i))
  }

  ghost predicate AlteredAt(ps: seq<Position>, u: Update, qs: seq<Position>, i: int)
    requires u.Change?
  {
    && 0 <= i < |ps|
    && ps[i].lower == u.lower && ps[i].upper == u.upper
    && ps[i].liquidity + u.delta >= 0
    && qs == ps[..i]
             + (if ps[i].liquidity + u.delta == 0 then [] else [ps[i].(liquidity := ps[i].liquidity + u.delta)])
             + ps[i+1..]
  }

  /** A position may be grown, reduced or closed in place, and a new one may be opened. */
  lemma Alterations(ps: seq<Position>, i: nat, delta: int, p: Position)
    requires i < |ps|
    ensures ps[i].liquidity + delta > 0 ==>
              Altered(ps, Change(ps[i].lower, ps[i].upper, delta),
                      ps[i := ps[i].(liquidity := ps[i].liquidity + delta)])
    ensures Altered(ps, Change(ps[i].lower, ps[i].upper, -ps[i].liquidity), ps[..i] + ps[i+1..])
    ensures p.liquidity > 0 ==> Altered(ps, Change(p.lower, p.upper, p.liquidity), ps + [p])
  {
    var u := Change(ps[i].lower, ps[i].upper, delta);
    var qs := ps[i := ps[i].(liquidity := ps[i].liquidity + delta)];
    if ps[i].liquidity + delta > 0 {
      assert qs == ps[..i] + [qs[i]] + ps[i+1..];
      assert AlteredAt(ps, u, qs, i);
    }
    assert ps[..i] + ps[i+1..] == ps[..i] + [] + ps[i+1..];
    assert AlteredAt(ps, Change(ps[i].lower, ps[i].upper, -ps[i].liquidity), ps[..i] + ps[i+1..], i);
  }

  lemma AlteredSums(ps: seq<Position>, u: Update, qs: seq<Position>, t: int)
    requires u.Change? && Altered(ps, u, qs) && u.lower < u.upper
    ensures
      var p := Position(u.lower, u.upper, u.delta);
      && Gross(qs, t) == Gross(ps, t) + GrossOf(p, t)
      && Net(qs, t) == Net(ps, t) + NetOf(p, t)
      && Active(qs, t) == Active(ps, t) + ActiveOf(p, t)
  {
    var p := Position(u.lower, u.upper, u.delta);
    if u.delta == 0 && qs == ps {
    } else if u.delta > 0 && qs == ps + [p] {
      assert qs[..|qs|-1] == ps;
    } else {
      var i :| AlteredAt(ps, u, qs, i);
      WeightsAdd(ps[i], u.delta, t);
      hide Sum, GrossOf, NetOf, ActiveOf;
      AlteredSum(ps, u, qs, i, GrossW(t));
      AlteredSum(ps, u, qs, i, NetW(t));
      AlteredSum(ps, u, qs, i, ActiveW(t));
    }
  }

  lemma WeightsAdd(p: Position, delta: int, t: int)
    requires p.lower < p.upper
    ensures var rest, d := p.(liquidity := p.liquidity + delta), p.(liquidity := delta);
            && GrossOf(rest, t) == GrossOf(p, t) + GrossOf(d, t) && (rest.liquidity == 0 ==> GrossOf(rest, t) == 0)
            && NetOf(rest, t) == NetOf(p, t) + NetOf(d, t) && (rest.liquidity == 0 ==> NetOf(rest, t) == 0)
            && ActiveOf(rest, t) == ActiveOf(p, t) + ActiveOf(d, t) && (rest.liquidity == 0 ==> ActiveOf(rest, t) == 0)
  {
  }

  /** Changing one position changes a sum by the weight of the change, when weights are linear. */
  lemma AlteredSum(ps: seq<Position>, u: Update, qs: seq<Position>, i: int, w: Position -> int)
    requires u.Change? && AlteredAt(ps, u, qs, i)
    requires var rest := ps[i].(liquidity := ps[i].liquidity + u.delta);
             && w(rest) == w(ps[i]) + w(Position(u.lower, u.upper, u.delta))
             && (rest.liquidity == 0 ==> w(rest) == 0)
    ensures Sum(qs, w) == Sum(ps, w) + w(Position(u.lower, u.upper, u.delta))
  {
    var rest := ps[i].(liquidity := ps[i].liquidity + u.delta);
    SumReplace(ps, i, if rest.liquidity == 0 then [] else [rest], w);
    One(rest, w);
  }

  lemma One(p: Position, w: Position -> int)
    ensures Sum([p], w) == w(p)
  {
    assert [p][..0] == [];
  }

  lemma AlteredOpen(ps: seq<Position>, u: Update, qs: seq<Position>, spacing: int)
    requires u.Change? && Altered(ps, u, qs) && Open(ps) && spacing != 0 && OnSpacing(ps, spacing)
    requires MIN_TICK <= u.lower < u.upper <= MAX_TICK
    requires u.lower % spacing == 0 && u.upper % spacing == 0
    ensures Open(qs) && OnSpacing(qs, spacing)
  {
  }

  /** The positions of a consistent indexed state sit on its tick spacing. */
  lemma IndexedOnSpacing(sqrt: Grid, s: State, ps: seq<Position>)
    requires Consistent(sqrt, s) && Induced(s.ticks, ps) && Open(ps)
    ensures OnSpacing(ps, s.spacing)
  {
    forall i | 0 <= i < |ps|
      ensures ps[i].lower % s.spacing == 0 && ps[i].upper % s.spacing == 0
    {
      EndCarries(ps, i);
      Lists(s.ticks, ps, ps[i].lower);
      Lists(s.ticks, ps, ps[i].upper);
    }
  }

  lemma Lists(ticks: seq<Tick>, ps: seq<Position>, t: int)
    requires Induced(ticks, ps) && Gross(ps, t) > 0
    ensures Has(ticks, t)
  {
    assert At(ticks, t).gross > 0;
  }

  /** A liquidity change of an indexed state: every state it can lead to is the index of the
      altered positions, with the active liquidity of the altered positions. */
  lemma ChangeRefines(sqrt: Grid, s: State, u: Update, maxTicks: int, next: State,
                      ps: seq<Position>, qs: seq<Position>)
    requires u.Change? && Updated(sqrt, s, u, maxTicks, next)
    requires Induced(s.ticks, ps) && Open(ps) && Altered(ps, u, qs)
    ensures Open(qs) && Induced(next.ticks, qs) && next.active == Active(qs, next.tick)
  {
    IndexedOnSpacing(sqrt, s, ps);
    AlteredOpen(ps, u, qs, s.spacing);
    forall t
      ensures At(next.ticks, t) == Tick(t, Gross(qs, t), Net(qs, t))
    {
      AlteredSums(ps, u, qs, t);
    }
    ActiveIsSum(s.ticks, ps, s.tick);
    AlteredSums(ps, u, qs, s.tick);
  }

  /** The index of the altered positions carries the effect of the change. */
  lemma AlteredEffect(before: seq<Tick>, u: Update, after: seq<Tick>, ps: seq<Position>, qs: seq<Position>)
    requires u.Change? && u.lower < u.upper && Altered(ps, u, qs)
    requires Induced(before, ps) && Induced(after, qs)
    ensures Effect(before, u.lower, u.upper, u.delta, after)
  {
    var p := Position(u.lower, u.upper, u.delta);
    forall t
      ensures At(after, t) == Tick(t, At(before, t).gross + GrossOf(p, t), At(before, t).net + NetOf(p, t))
    {
      AlteredSums(ps, u, qs, t);
    }
  }

  lemma AlteredActive(s: State, u: Update, ps: seq<Position>, qs: seq<Position>)
    requires u.Change? && u.lower < u.upper && Altered(ps, u, qs)
    requires Induced(s.ticks, ps) && Open(ps) && CumTo(s.ticks, |s.ticks|, s.tick) == s.active
    ensures s.active + ActiveOf(Position(u.lower, u.upper, u.delta), s.tick) == Active(qs, s.tick)
  {
    ActiveIsSum(s.ticks, ps, s.tick);
    AlteredSums(ps, u, qs, s.tick);
  }

  /** The state an acceptable change leads to. */
  lemma ChangeReaches(sqrt: Grid, s: State, u: Update, maxTicks: int, ps: seq<Position>, qs: seq<Position>)
    returns (next: State)
    requires Consistent(sqrt, s) && Induced(s.ticks, ps) && Open(ps)
    requires u.Change? && Altered(ps, u, qs)
    requires -887272 <= u.lower < u.upper <= 887272 && u.lower % s.spacing == 0 && u.upper % s.spacing == 0
    requires -0x1_0000_0000_0000_0000_0000_0000_0000_0000 < u.delta < 0x1_0000_0000_0000_0000_0000_0000_0000_0000
    requires maxTicks >= 1 && |s.ticks| <= maxTicks && |Ends(qs)| <= maxTicks && Fits(qs)
    ensures Updated(sqrt, s, u, maxTicks, next)
  {
    IndexedOnSpacing(sqrt, s, ps);
    AlteredOpen(ps, u, qs, s.spacing);
    AlteredActive(s, u, ps, qs);
    GrossBounds(qs, s.tick);
    var ticks := IndexExists(qs);
    LengthIsEnds(ticks, qs);
    AlteredEffect(s.ticks, u, ticks, ps, qs);
    hide Altered, Induced, Effect, Open, GoodTicks, Balanced, Active, Ends, Gross, Sum;
    next := s.(ticks := ticks, active := Active(qs, s.tick));
    assert LiveCoordinates(sqrt, next);
    hide Fits, OnSpacing;
    ConsistentIff(sqrt, next, qs);
  }

  /** Whether a liquidity change of an indexed state is accepted: only an invalid range, the
      tick limit or an integer of the pool that would overflow refuses it. */
  lemma ChangeAccepted(sqrt: Grid, s: State, u: Update, maxTicks: int, ps: seq<Position>, qs: seq<Position>)
    requires Consistent(sqrt, s) && Induced(s.ticks, ps) && Open(ps)
    requires u.Change? && Altered(ps, u, qs)
    ensures (exists next :: Updated(sqrt, s, u, maxTicks, next)) <==>
              && -887272 <= u.lower < u.upper <= 887272
              && u.lower % s.spacing == 0 && u.upper % s.spacing == 0
              && -0x1_0000_0000_0000_0000_0000_0000_0000_0000 < u.delta
              && u.delta < 0x1_0000_0000_0000_0000_0000_0000_0000_0000
              && maxTicks >= 1 && |s.ticks| <= maxTicks && |Ends(qs)| <= maxTicks
              && (forall t :: Gross(qs, t) < 0x1_0000_0000_0000_0000_0000_0000_0000_0000)
              && (forall t :: -0x8000_0000_0000_0000_0000_0000_0000_0000 <= Net(qs, t)
                              < 0x8000_0000_0000_0000_0000_0000_0000_0000)
              && (forall t :: Active(qs, t) < 0x1_0000_0000_0000_0000_0000_0000_0000_0000)
  {
    if next :| Updated(sqrt, s, u, maxTicks, next) {
      ChangeRefines(sqrt, s, u, maxTicks, next, ps, qs);
      LengthIsEnds(next.ticks, qs);
      ConsistentFits(sqrt, next, qs);
    }
    if RangeOk(s, u) && maxTicks >= 1 && |s.ticks| <= maxTicks && |Ends(qs)| <= maxTicks && Fits(qs) {
      var next := ChangeReaches(sqrt, s, u, maxTicks, ps, qs);
    }
  }

  /** Whether a swap is accepted: its active liquidity must be that of the positions whose
      range contains the new tick. */
  lemma SwapAccepted(sqrt: Grid, s: State, u: Update, maxTicks: int, ps: seq<Position>)
    requires Consistent(sqrt, s) && Induced(s.ticks, ps) && Open(ps) && u.Swap?
    ensures (exists next :: Updated(sqrt, s, u, maxTicks, next)) <==>
              && maxTicks >= 1 && |s.ticks| <= maxTicks
              && -887272 <= u.tick < 887272
              && sqrt(-887272) <= u.price < sqrt(887272)
              && sqrt(u.tick) <= u.price <= sqrt(u.tick + 1)
              && u.active == Active(ps, u.tick)
  {
    var next := s.(price := u.price, tick := u.tick, active := u.active);
    IndexedOnSpacing(sqrt, s, ps);
    ConsistentFits(sqrt, s, ps);
    GrossBounds(ps, u.tick);
    if LiveCoordinates(sqrt, next) { ConsistentIff(sqrt, next, ps); }
    if Updated(sqrt, s, u, maxTicks, next) {
      ActiveIsSum(s.ticks, ps, u.tick);
    }
  }

  // ---------- Whole runs ----------

  /** A run: states linked by accepted updates, with the positions each update leaves. */
  ghost predicate Run(sqrt: Grid, states: seq<State>, updates: seq<Update>, books: seq<seq<Position>>,
                      maxTicks: int)
  {
    && |states| == |books| == |updates| + 1
    && (forall i :: 0 <= i < |updates| ==> Updated(sqrt, states[i], updates[i], maxTicks, states[i+1]))
    && (forall i :: 0 <= i < |updates| ==>
          if updates[i].Swap? then books[i+1] == books[i] else Altered(books[i], updates[i], books[i+1]))
  }

  /** Along every run that starts from the index of open positions, each state is the index
      of the positions at that point and its active liquidity is theirs at its tick. */
  lemma {:induction false} RunRefines(sqrt: Grid, states: seq<State>, updates: seq<Update>,
                                      books: seq<seq<Position>>, maxTicks: int, n: nat)
    requires Run(sqrt, states, updates, books, maxTicks) && n < |states|
    requires Consistent(sqrt, states[0]) && Induced(states[0].ticks, books[0]) && Open(books[0])
    ensures Consistent(sqrt, states[n]) && Open(books[n]) && Induced(states[n].ticks, books[n])
    ensures states[n].active == Active(books[n], states[n].tick) && Fits(books[n])
  {
    if n > 0 {
      RunRefines(sqrt, states, updates, books, maxTicks, n - 1);
      assert Updated(sqrt, states[n-1], updates[n-1], maxTicks, states[n]);
      if updates[n-1].Change? {
        ChangeRefines(sqrt, states[n-1], updates[n-1], maxTicks, states[n], books[n-1], books[n]);
      }
    }
    ActiveIsSum(states[n].ticks, books[n], states[n].tick);
    ConsistentFits(sqrt, states[n], books[n]);
  }
}
