/** Liquidity positions, and the sorted tick list that indexes them
    (section 6.3, "Tick-Indexed State", of the Uniswap v3 Core whitepaper). */
module Ticks {

  const MIN_TICK := -887272
  const MAX_TICK := 887272
  const POW127 := 0x8000_0000_0000_0000_0000_0000_0000_0000
  const POW128 := 0x1_0000_0000_0000_0000_0000_0000_0000_0000

  datatype Position = Position(lower: int, upper: int, liquidity: int)

  datatype Tick = Tick(index: int, gross: int, net: int)

  // ---------- What a collection of positions puts on each tick ----------

  /** Sum over the positions of a weight. */
  function Sum(ps: seq<Position>, w: Position -> int): int {
    if ps == [] then 0 else Sum(ps[..|ps|-1], w) + w(ps[|ps|-1])
  }

  /** Liquidity of the positions that start or end at `t`. */
  function Gross(ps: seq<Position>, t: int): int { Sum(ps, GrossW(t)) }

  /** Change of the active liquidity when the price moves upwards across `t`. */
  function Net(ps: seq<Position>, t: int): int { Sum(ps, NetW(t)) }

  /** Liquidity of the positions whose range contains `t`. */
  function Active(ps: seq<Position>, t: int): int { Sum(ps, ActiveW(t)) }

  function GrossW(t: int): Position -> int { p => GrossOf(p, t) }

  function NetW(t: int): Position -> int { p => NetOf(p, t) }

  function ActiveW(t: int): Position -> int { p => ActiveOf(p, t) }

  function GrossOf(p: Position, t: int): int {
    (if t == p.lower then p.liquidity else 0) + (if t == p.upper then p.liquidity else 0)
  }

  function NetOf(p: Position, t: int): int {
    (if t == p.lower then p.liquidity else 0) +
    (if t != p.upper then 0 else if t == p.lower then p.liquidity else -p.liquidity)
  }

  function ActiveOf(p: Position, t: int): int {
    if p.lower <= t < p.upper then p.liquidity else 0
  }

  lemma {:induction false} SumConcat(a: seq<Position>, b: seq<Position>, w: Position -> int)
    ensures Sum(a + b, w) == Sum(a, w) + Sum(b, w)
  {
    if b == [] {
      assert a + b == a;
    } else {
      var n := |b| - 1;
      assert (a + b)[..|a + b| - 1] == a + b[..n];
      SumConcat(a, b[..n], w);
    }
  }

  /** Replacing position `i` by the positions `mid`. */
  lemma SumReplace(ps: seq<Position>, i: nat, mid: seq<Position>, w: Position -> int)
    requires i < |ps|
    ensures Sum(ps[..i] + mid + ps[i+1..], w) == Sum(ps, w) - w(ps[i]) + Sum(mid, w)
  {
    assert ps == ps[..i] + [ps[i]] + ps[i+1..];
    SumConcat(ps[..i] + [ps[i]], ps[i+1..], w);
    SumConcat(ps[..i], [ps[i]], w);
    SumConcat(ps[..i] + mid, ps[i+1..], w);
    SumConcat(ps[..i], mid, w);
    assert Sum([ps[i]], w) == w(ps[i]);
  }

  predicate Range(p: Position) {
    MIN_TICK <= p.lower < p.upper <= MAX_TICK
  }

  /** Open positions: a proper range that holds liquidity. */
  predicate Open(ps: seq<Position>) {
    forall i :: 0 <= i < |ps| ==> Range(ps[i]) && ps[i].liquidity > 0
  }

  // ---------- The tick list ----------

  ghost predicate Sorted(ticks: seq<Tick>) {
    forall i, j :: 0 <= i < j < |ticks| ==> ticks[i].index < ticks[j].index
  }

  ghost predicate Has(ticks: seq<Tick>, t: int) {
    exists i :: 0 <= i < |ticks| && ticks[i].index == t
  }

  /** The entry of tick `t`; a tick that is not listed carries nothing. */
  ghost function At(ticks: seq<Tick>, t: int): Tick {
    if Has(ticks, t) then
      var i :| 0 <= i < |ticks| && ticks[i].index == t; ticks[i]
    else
      Tick(t, 0, 0)
  }

  ghost predicate NoZeroGross(ticks: seq<Tick>) {
    forall i :: 0 <= i < |ticks| ==> ticks[i].gross != 0
  }

  /** `ticks` is the index of `ps`: sorted, nothing listed without liquidity,
      and every tick carries what the positions put there. */
  ghost predicate Induced(ticks: seq<Tick>, ps: seq<Position>) {
    && Sorted(ticks)
    && NoZeroGross(ticks)
    && forall t :: At(ticks, t) == Tick(t, Gross(ps, t), Net(ps, t))
  }

  lemma AtEntry(ticks: seq<Tick>, i: int)
    requires Sorted(ticks) && 0 <= i < |ticks|
    ensures At(ticks, ticks[i].index) == ticks[i]
  {
    var t := ticks[i].index;
    assert Has(ticks, t);
    var j :| 0 <= j < |ticks| && ticks[j].index == t && At(ticks, t) == ticks[j];
    assert !(i < j) && !(j < i);
  }

  lemma SameAt(a: seq<Tick>, b: seq<Tick>, t: int)
    requires Sorted(a) && Sorted(b)
    requires forall i :: 0 <= i < |a| && a[i].index == t ==> a[i] in b
    requires forall i :: 0 <= i < |b| && b[i].index == t ==> b[i] in a
    ensures At(a, t) == At(b, t)
  {
    if Has(a, t) {
      var i :| 0 <= i < |a| && a[i].index == t;
      AtEntry(a, i);
      var j :| 0 <= j < |b| && b[j] == a[i];
      AtEntry(b, j);
    } else {
      assert !Has(b, t);
    }
  }

  /** A tick list is determined by the entries it lists: two indexes of the same
      positions are the same list. */
  lemma {:induction false} IndexUnique(a: seq<Tick>, b: seq<Tick>)
    requires Sorted(a) && NoZeroGross(a) && Sorted(b) && NoZeroGross(b)
    requires forall t :: At(a, t) == At(b, t)
    ensures a == b
  {
    if a != [] && b != [] {
      var m, n := |a| - 1, |b| - 1;
      Listed(a, b, m);
      Listed(b, a, n);
      AtEntry(a, m);
      AtEntry(b, n);
      assert a[m].index == b[n].index;
      assert a[m] == b[n];
      forall t
        ensures At(a[..m], t) == At(b[..n], t)
      {
        AtInit(a, t);
        AtInit(b, t);
      }
      IndexUnique(a[..m], b[..n]);
      assert a == a[..m] + [a[m]] && b == b[..n] + [b[n]];
    } else if a != [] {
      Listed(a, b, 0);
    } else if b != [] {
      Listed(b, a, 0);
    }
  }

  lemma Listed(a: seq<Tick>, b: seq<Tick>, i: int)
    requires Sorted(a) && NoZeroGross(a) && 0 <= i < |a|
    requires At(a, a[i].index) == At(b, a[i].index)
    ensures Has(b, a[i].index)
  {
    AtEntry(a, i);
  }

  lemma AtInit(a: seq<Tick>, t: int)
    requires Sorted(a) && a != []
    ensures At(a[..|a|-1], t) == if t == a[|a|-1].index then Tick(t, 0, 0) else At(a, t)
  {
    var m := |a| - 1;
    var init := a[..m];
    if Has(init, t) {
      var i :| 0 <= i < |init| && init[i].index == t;
      AtEntry(init, i);
      AtEntry(a, i);
    } else if Has(a, t) {
      var i :| 0 <= i < |a| && a[i].index == t;
      assert forall k :: 0 <= k < |init| ==> init[k] == a[k] && init[k].index != t;
      assert i == m;
    }
  }
}
