/** Whether the known positions of a pool are all of its positions. */
module Coverage {
  import opened Wrappers
  import opened Ticks
  import opened Refinement

  /** Liquidity of the positions of one range. */
  function RangeSum(ps: seq<Position>, lower: int, upper: int): int {
    Sum(ps, RangeW(lower, upper))
  }

  function RangeW(lower: int, upper: int): Position -> int {
    (p: Position) => if p.lower == lower && p.upper == upper then p.liquidity else 0
  }

  // ---------- Matching positions with the tick list ----------

  ghost predicate Matches(ticks: seq<Tick>, ps: seq<Position>) {
    && |Ends(ps)| == |ticks|
    && forall i :: 0 <= i < |ticks| ==>
         && ticks[i].index in Ends(ps)
         && ticks[i].gross == Gross(ps, ticks[i].index)
         && ticks[i].net == Net(ps, ticks[i].index)
  }

  /** When the ticks match: there are as many as distinct ends of the positions, and each is such an
      end, with their gross and their net liquidity. */
  lemma MatchRule(ticks: seq<Tick>, ps: seq<Position>)
    ensures Matches(ticks, ps) <==>
            && |(set p | p in ps :: p.lower) + (set p | p in ps :: p.upper)| == |ticks|
            && forall t :: t in ticks ==>
                 && (exists p :: p in ps && (t.index == p.lower || t.index == p.upper))
                 && t.gross == Gross(ps, t.index) && t.net == Net(ps, t.index)
  {
    hide Gross, Net;
    EndsAre(ps);
    assert forall i :: 0 <= i < |ticks| ==> ticks[i] in ticks;
  }

  lemma {:induction false} EndsAre(ps: seq<Position>)
    ensures Ends(ps) == (set p | p in ps :: p.lower) + (set p | p in ps :: p.upper)
  {
    if ps != [] {
      var n := |ps| - 1;
      EndsAre(ps[..n]);
      assert forall p :: p in ps <==> p in ps[..n] || p == ps[n];
    }
  }

  /** Tick liquidity rebuilt from positions. */
  method Count(positions: seq<Position>) returns (counts: map<int, Tick>)
    ensures Counted(counts, positions)
  {
    counts := map[];
    for n := 0 to |positions|
      invariant Counted(counts, positions[..n])
    {
      var p := positions[n];
      ghost var before := counts;
      for k := 0 to 2
        invariant counts == if k == 0 then before
                            else if k == 1 then Counting(before, p, p.lower)
                            else Counting(Counting(before, p, p.lower), p, p.upper)
      {
        var tick := if k == 0 then p.lower else p.upper;
        var c := if tick in counts then counts[tick] else Tick(tick, 0, 0);
        c := c.(gross := c.gross + p.liquidity);
        c := if tick == p.lower then c.(net := c.net + p.liquidity) else c.(net := c.net - p.liquidity);
        counts := counts[tick := c];
      }
      assert positions[..n+1][..n] == positions[..n];
      CountedNext(before, positions[..n+1]);
    }
    assert positions[..|positions|] == positions;
  }

  /** Compares the tick liquidity of the known positions with the pool's. */
  method Covered(ticks: seq<Tick>, positions: seq<Position>) returns (ok: bool)
    ensures ok <==> Matches(ticks, positions)
  {
    var counts := Count(positions);
    assert counts.Keys == Ends(positions);
    if |counts| != |ticks| { return false; }
    for i := 0 to |ticks|
      invariant forall k :: 0 <= k < i ==>
                  && ticks[k].index in counts
                  && ticks[k].gross == counts[ticks[k].index].gross
                  && ticks[k].net == counts[ticks[k].index].net
    {
      var tick := ticks[i];
      if tick.index !in counts || counts[tick.index].gross != tick.gross
         || counts[tick.index].net != tick.net {
        return false;
      }
    }
    return true;
  }

  /** What one end of `p` does to the counters. */
  ghost function Counting(counts: map<int, Tick>, p: Position, tick: int): map<int, Tick> {
    var c := if tick in counts then counts[tick] else Tick(tick, 0, 0);
    counts[tick := Tick(c.index, c.gross + p.liquidity,
                        if tick == p.lower then c.net + p.liquidity else c.net - p.liquidity)]
  }

  ghost predicate Counted(counts: map<int, Tick>, ps: seq<Position>) {
    && counts.Keys == Ends(ps)
    && forall t :: Gross(ps, t) == (if t in counts then counts[t].gross else 0) &&
                   Net(ps, t) == (if t in counts then counts[t].net else 0)
  }

  lemma CountedNext(counts: map<int, Tick>, ps: seq<Position>)
    requires ps != [] && Counted(counts, ps[..|ps|-1])
    ensures
      var p := ps[|ps|-1];
      Counted(Counting(Counting(counts, p, p.lower), p, p.upper), ps)
  {
  }

  // ---------- Ranges that dominate ----------

  predicate Proper(ps: seq<Position>) {
    forall i :: 0 <= i < |ps| ==> ps[i].lower < ps[i].upper
  }

  function Negated(ps: seq<Position>): (r: seq<Position>)
    ensures |r| == |ps|
    ensures forall i :: 0 <= i < |ps| ==> r[i] == ps[i].(liquidity := -ps[i].liquidity)
  {
    if ps == [] then []
    else Negated(ps[..|ps|-1]) + [ps[|ps|-1].(liquidity := -ps[|ps|-1].liquidity)]
  }

  lemma {:induction false} NegatedSums(ps: seq<Position>, t: int, lower: int, upper: int)
    ensures Gross(Negated(ps), t) == -Gross(ps, t)
    ensures RangeSum(Negated(ps), lower, upper) == -RangeSum(ps, lower, upper)
  {
    if ps != [] {
      var n := |ps| - 1;
      NegatedSums(ps[..n], t, lower, upper);
      assert Negated(ps)[..n] == Negated(ps[..n]);
    }
  }

  /** The positions outside one range. */
  function Outside(ps: seq<Position>, lower: int, upper: int): (r: seq<Position>)
    ensures |r| <= |ps|
    ensures Proper(ps) ==> Proper(r)
  {
    if ps == [] then []
    else
      var p := ps[|ps|-1];
      Outside(ps[..|ps|-1], lower, upper) + (if p.lower == lower && p.upper == upper then [] else [p])
  }

  lemma {:induction false} OutsideSums(ps: seq<Position>, lower: int, upper: int, t: int, l: int, u: int)
    requires Proper(ps)
    ensures Gross(ps, t) == Gross(Outside(ps, lower, upper), t)
              + (if t == lower || t == upper then RangeSum(ps, lower, upper) else 0)
    ensures RangeSum(Outside(ps, lower, upper), l, u)
              == if l == lower && u == upper then 0 else RangeSum(ps, l, u)
  {
    if ps != [] {
      var p, rest := ps[|ps|-1], Outside(ps[..|ps|-1], lower, upper);
      OutsideSums(ps[..|ps|-1], lower, upper, t, l, u);
      SumConcat(rest, [p], GrossW(t));
      SumConcat(rest, [p], RangeW(l, u));
      One(p, GrossW(t));
      One(p, RangeW(l, u));
      assert rest + [] == rest;
    }
  }

  /** When no range sum is negative, no range exceeds what its ends carry. */
  lemma {:induction false} EndsCarryRanges(ps: seq<Position>, t: int, u: int)
    requires Proper(ps) && forall l, v :: RangeSum(ps, l, v) >= 0
    ensures Gross(ps, t) >= 0 && Gross(ps, t) >= RangeSum(ps, t, u)
    decreases |ps|
  {
    if ps != [] {
      var p := ps[|ps|-1];
      var rest := Outside(ps, p.lower, p.upper);
      forall l, v
        ensures RangeSum(rest, l, v) >= 0
      {
        OutsideSums(ps, p.lower, p.upper, t, l, v);
      }
      EndsCarryRanges(rest, t, u);
      OutsideSums(ps, p.lower, p.upper, t, t, u);
    }
  }

  // ---------- Soundness and completeness ----------

  /** On no range do the known positions hold more than the pool. */
  ghost predicate Dominated(known: seq<Position>, all: seq<Position>) {
    forall l, u :: RangeSum(known, l, u) <= RangeSum(all, l, u)
  }

  ghost predicate SameRanges(a: seq<Position>, b: seq<Position>) {
    forall l, u :: RangeSum(a, l, u) == RangeSum(b, l, u)
  }

  lemma MatchesGross(ticks: seq<Tick>, known: seq<Position>, all: seq<Position>, t: int)
    requires Induced(ticks, all) && Open(all) && Open(known) && Matches(ticks, known)
    ensures Gross(known, t) == Gross(all, t)
  {
    InEnds(known, t);
    GrossBounds(known, t);
    if Has(ticks, t) {
      var i :| 0 <= i < |ticks| && ticks[i].index == t;
      AtEntry(ticks, i);
    } else {
      assert Gross(all, t) == At(ticks, t).gross == 0;
      CountIndices(ticks);
      Equal(Indices(ticks), Ends(known));
    }
  }

  lemma Equal(a: set<int>, b: set<int>)
    requires a <= b && |a| == |b|
    ensures a == b
  {
    assert b == a + (b - a);
    assert |a + (b - a)| == |a| + |b - a|;
    assert b - a == {};
  }

  lemma SameGross(known: seq<Position>, all: seq<Position>)
    requires Open(all) && Open(known) && Dominated(known, all)
    requires forall t :: Gross(known, t) == Gross(all, t)
    ensures SameRanges(known, all)
  {
    var rest := all + Negated(known);
    forall l, u
      ensures RangeSum(rest, l, u) == RangeSum(all, l, u) - RangeSum(known, l, u)
      ensures Gross(rest, l) == 0
    {
      NegatedSums(known, l, l, u);
      SumConcat(all, Negated(known), RangeW(l, u));
      SumConcat(all, Negated(known), GrossW(l));
    }
    forall l, u
      ensures RangeSum(known, l, u) == RangeSum(all, l, u)
    {
      EndsCarryRanges(rest, l, u);
    }
  }

  /** Equal liquidity on every range gives equal liquidity on every tick. */
  lemma {:induction false} RangesGiveEnds(ps: seq<Position>, t: int)
    requires Proper(ps) && forall l, u :: RangeSum(ps, l, u) == 0
    ensures Gross(ps, t) == 0 && Net(ps, t) == 0
    decreases |ps|
  {
    if ps != [] {
      var p := ps[|ps|-1];
      var rest := Outside(ps, p.lower, p.upper);
      forall l, v
        ensures RangeSum(rest, l, v) == 0
      {
        OutsideSums(ps, p.lower, p.upper, t, l, v);
      }
      RangesGiveEnds(rest, t);
      OutsideSums(ps, p.lower, p.upper, t, p.lower, p.upper);
      OutsideNet(ps, p.lower, p.upper, t);
    }
  }

  lemma {:induction false} OutsideNet(ps: seq<Position>, lower: int, upper: int, t: int)
    requires Proper(ps)
    ensures Net(ps, t) == Net(Outside(ps, lower, upper), t)
              + (if lower >= upper then 0 else if t == lower then RangeSum(ps, lower, upper)
                 else if t == upper then -RangeSum(ps, lower, upper) else 0)
  {
    if ps != [] {
      var p, rest := ps[|ps|-1], Outside(ps[..|ps|-1], lower, upper);
      OutsideNet(ps[..|ps|-1], lower, upper, t);
      SumConcat(rest, [p], NetW(t));
      One(p, NetW(t));
      assert rest + [] == rest;
    }
  }

  lemma {:induction false} NegatedNet(ps: seq<Position>, t: int)
    requires Proper(ps)
    ensures Net(Negated(ps), t) == -Net(ps, t)
  {
    if ps != [] {
      var n := |ps| - 1;
      NegatedNet(ps[..n], t);
      assert Negated(ps)[..n] == Negated(ps[..n]);
    }
  }

  lemma SameRangesInduce(ticks: seq<Tick>, known: seq<Position>, all: seq<Position>)
    requires Induced(ticks, all) && Proper(all) && Proper(known) && SameRanges(known, all)
    ensures Induced(ticks, known)
  {
    var rest := all + Negated(known);
    forall l, u
      ensures RangeSum(rest, l, u) == 0
    {
      NegatedSums(known, l, l, u);
      SumConcat(all, Negated(known), RangeW(l, u));
    }
    forall t
      ensures Gross(known, t) == Gross(all, t) && Net(known, t) == Net(all, t)
    {
      RangesGiveEnds(rest, t);
      NegatedSums(known, t, t, t);
      NegatedNet(known, t);
      SumConcat(all, Negated(known), GrossW(t));
      SumConcat(all, Negated(known), NetW(t));
    }
  }

  /** Coverage is exact: for known positions that claim no more than the pool holds, the
      tick liquidity matches if and only if they hold all of the pool's liquidity, in every
      range, inside or outside the current price. */
  lemma CoverageExact(ticks: seq<Tick>, known: seq<Position>, all: seq<Position>)
    requires Induced(ticks, all) && Open(all) && Open(known) && Dominated(known, all)
    ensures Matches(ticks, known) <==> SameRanges(known, all)
  {
    if Matches(ticks, known) {
      forall t ensures Gross(known, t) == Gross(all, t) { MatchesGross(ticks, known, all, t); }
      SameGross(known, all);
    }
    if SameRanges(known, all) {
      SameRangesInduce(ticks, known, all);
      LengthIsEnds(ticks, known);
      forall i | 0 <= i < |ticks|
        ensures ticks[i].index in Ends(known) && ticks[i].gross == Gross(known, ticks[i].index)
                && ticks[i].net == Net(known, ticks[i].index)
      {
        AtEntry(ticks, i);
        InEnds(known, ticks[i].index);
        GrossBounds(known, ticks[i].index);
      }
    }
  }

  /** A sub-collection of the pool's positions is dominated, and matches the ticks exactly
      when nothing is left out. */
  lemma SubCollectionExact(ticks: seq<Tick>, known: seq<Position>, rest: seq<Position>)
    requires Induced(ticks, known + rest) && Open(known + rest)
    ensures Matches(ticks, known) <==> rest == []
  {
    var all := known + rest;
    forall i | 0 <= i < |known| ensures Range(known[i]) && known[i].liquidity > 0 { assert all[i] == known[i]; }
    forall i | 0 <= i < |rest| ensures Range(rest[i]) && rest[i].liquidity > 0 { assert all[|known| + i] == rest[i]; }
    forall l, u
      ensures RangeSum(all, l, u) == RangeSum(known, l, u) + RangeSum(rest, l, u) >= RangeSum(known, l, u)
    {
      SumConcat(known, rest, RangeW(l, u));
      RangeSumPositive(rest, l, u);
    }
    CoverageExact(ticks, known, all);
    if rest == [] {
      assert all == known;
    } else {
      LastRange(rest);
    }
  }

  lemma {:induction false} RangeSumPositive(ps: seq<Position>, l: int, u: int)
    requires Open(ps)
    ensures RangeSum(ps, l, u) >= 0
  {
    if ps != [] { RangeSumPositive(ps[..|ps|-1], l, u); }
  }

  lemma LastRange(ps: seq<Position>)
    requires Open(ps) && ps != []
    ensures RangeSum(ps, ps[|ps|-1].lower, ps[|ps|-1].upper) > 0
  {
    var p := ps[|ps|-1];
    RangeSumPositive(ps[..|ps|-1], p.lower, p.upper);
  }

  // ---------- Range sums read from the pool ----------

  /** Liquidity the pool core reports for a range of the manager, or no answer. */
  type CoreReader = (int, int) -> Option<int>

  ghost predicate CoreConfirms(read: CoreReader, ps: seq<Position>) {
    forall i :: 0 <= i < |ps| ==>
      read(ps[i].lower, ps[i].upper) == Some(RangeSum(ps, ps[i].lower, ps[i].upper))
  }

  ghost predicate Held(ps: seq<Position>, l: int, u: int) {
    exists i :: 0 <= i < |ps| && ps[i].lower == l && ps[i].upper == u
  }

  ghost predicate Summed(ranges: map<(int, int), int>, ps: seq<Position>) {
    forall l, u ::
      && ((l, u) in ranges <==> Held(ps, l, u))
      && ((l, u) in ranges ==> ranges[(l, u)] == RangeSum(ps, l, u))
  }

  lemma SummedNext(ranges: map<(int, int), int>, ps: seq<Position>)
    requires ps != [] && Summed(ranges, ps[..|ps|-1])
    ensures
      var p := ps[|ps|-1];
      var sum := if (p.lower, p.upper) in ranges then ranges[(p.lower, p.upper)] else 0;
      Summed(ranges[(p.lower, p.upper) := sum + p.liquidity], ps)
  {
    var init, p := ps[..|ps|-1], ps[|ps|-1];
    forall l, u
      ensures Held(ps, l, u) <==> Held(init, l, u) || (p.lower == l && p.upper == u)
      ensures !Held(init, l, u) ==> RangeSum(init, l, u) == 0
    {
      if Held(init, l, u) {
        var i :| 0 <= i < |init| && init[i].lower == l && init[i].upper == u;
        assert ps[i] == init[i];
      } else if RangeSum(init, l, u) != 0 {
        var i := RangeIn(init, l, u);
      }
    }
  }

  method SumRanges(positions: seq<Position>) returns (ranges: map<(int, int), int>)
    ensures Summed(ranges, positions)
  {
    ranges := map[];
    for n := 0 to |positions|
      invariant Summed(ranges, positions[..n])
    {
      var p := positions[n];
      var key := (p.lower, p.upper);
      assert positions[..n+1][..n] == positions[..n];
      SummedNext(ranges, positions[..n+1]);
      if key !in ranges { ranges := ranges[key := 0]; }
      ranges := ranges[key := ranges[key] + p.liquidity];
    }
    assert positions[..|positions|] == positions;
  }

  /** Compares each range sum of the known positions with the pool core. V4 positions were
      compared one by one before, so there only an earlier failure counts. */
  method CoreCoverage(v4: bool, failed: bool, positions: seq<Position>, read: CoreReader) returns (ok: bool)
    ensures ok <==> if v4 then !failed else CoreConfirms(read, positions) && (failed ==> positions == [])
  {
    if v4 { return !failed; }
    var ranges := SumRanges(positions);
    assert forall i :: 0 <= i < |positions| ==> Held(positions, positions[i].lower, positions[i].upper);
    var todo := ranges.Keys;
    while todo != {}
      invariant todo <= ranges.Keys
      invariant forall l, u :: (l, u) in ranges && (l, u) !in todo ==>
                  read(l, u) == Some(ranges[(l, u)]) && !failed
    {
      var k :| k in todo;
      var (l, u) := k;
      assert Held(positions, l, u);
      var v := read(l, u);
      if failed || v.None? || v.value != ranges[k] {
        return false;
      }
      todo := todo - {k};
    }
    return true;
  }

  /** The range check supplies what exact coverage needs: the pool core holds the manager's
      positions `managed`, among which the known ones are counted range by range, and others. */
  lemma CoreChecksDominate(read: CoreReader, known: seq<Position>, managed: seq<Position>, others: seq<Position>)
    requires CoreConfirms(read, known)
    requires Open(known) && Open(managed) && Open(others)
    requires forall l, u :: read(l, u).Some? ==> read(l, u).value == RangeSum(managed, l, u)
    ensures Dominated(known, managed + others)
  {
    forall l, u
      ensures RangeSum(known, l, u) <= RangeSum(managed + others, l, u)
    {
      SumConcat(managed, others, RangeW(l, u));
      RangeSumPositive(managed, l, u);
      RangeSumPositive(others, l, u);
      if RangeSum(known, l, u) != 0 {
        var i := RangeIn(known, l, u);
      }
    }
  }

  lemma {:induction false} RangeIn(ps: seq<Position>, l: int, u: int) returns (i: nat)
    requires RangeSum(ps, l, u) != 0
    ensures i < |ps| && ps[i].lower == l && ps[i].upper == u
  {
    var n := |ps| - 1;
    if ps[n].lower == l && ps[n].upper == u { i := n; } else { i := RangeIn(ps[..n], l, u); }
  }

  /** Both checks together, for a pool core that reports the liquidity of its manager's positions:
      they pass if and only if the core answers for every known range, the known positions are all
      of the manager's liquidity, range by range, and no other manager holds any. */
  lemma BothChecks(ticks: seq<Tick>, read: CoreReader, known: seq<Position>, managed: seq<Position>,
                   others: seq<Position>)
    requires Induced(ticks, managed + others) && Open(known) && Open(managed) && Open(others)
    requires forall l, u :: read(l, u).Some? ==> read(l, u).value == RangeSum(managed, l, u)
    ensures CoreConfirms(read, known) && Matches(ticks, known) <==>
            && (forall i :: 0 <= i < |known| ==> read(known[i].lower, known[i].upper).Some?)
            && SameRanges(known, managed) && others == []
  {
    var all := managed + others;
    assert Open(all);
    if CoreConfirms(read, known) {
      CoreChecksDominate(read, known, managed, others);
      CoverageExact(ticks, known, all);
      if Matches(ticks, known) { NoOthers(read, known, managed, others); }
    }
    if SameRanges(known, managed) && others == [] {
      assert all == managed;
      SameDominated(known, managed);
      CoverageExact(ticks, known, all);
    }
  }

  lemma SameDominated(known: seq<Position>, all: seq<Position>)
    requires SameRanges(known, all)
    ensures Dominated(known, all)
  {
  }

  lemma NoOthers(read: CoreReader, known: seq<Position>, managed: seq<Position>, others: seq<Position>)
    requires Open(known) && Open(managed) && Open(others)
    requires forall l, u :: read(l, u).Some? ==> read(l, u).value == RangeSum(managed, l, u)
    requires CoreConfirms(read, known) && SameRanges(known, managed + others)
    ensures SameRanges(known, managed) && others == []
  {
    forall l, u
      ensures RangeSum(others, l, u) == 0 && RangeSum(known, l, u) == RangeSum(managed, l, u)
    {
      SumConcat(managed, others, RangeW(l, u));
      RangeSumPositive(managed, l, u);
      RangeSumPositive(others, l, u);
      if RangeSum(known, l, u) != 0 {
        var i := RangeIn(known, l, u);
      }
    }
    if others != [] { LastRange(others); }
  }
}
