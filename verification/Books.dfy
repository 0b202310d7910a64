/** Runs of accepted liquidity updates and the books of positions they lead to. The code accepts some
    removals that no book allows; here is exactly when a state of a run indexes the changed book. */
module Books {
  import opened Ticks
  import opened Liquidity
  import opened Updates
  import opened Refinement
  import opened Coverage

  /** The positions at the start, followed by every liquidity change as a signed position. */
  function Ledger(ps: seq<Position>, updates: seq<Update>): seq<Position> {
    if updates == [] then ps
    else
      var u := updates[|updates|-1];
      Ledger(ps, updates[..|updates|-1]) + (if u.Change? then [Position(u.lower, u.upper, u.delta)] else [])
  }

  /** No range was left with less than nothing. */
  ghost predicate Solvent(ps: seq<Position>) { forall l, u :: RangeSum(ps, l, u) >= 0 }

  ghost predicate InRange(ps: seq<Position>) { forall i :: 0 <= i < |ps| ==> Range(ps[i]) }

  /** States linked by accepted updates. */
  ghost predicate Linked(sqrt: Grid, states: seq<State>, updates: seq<Update>, maxTicks: int) {
    && |states| == |updates| + 1
    && forall i :: 0 <= i < |updates| ==> Updated(sqrt, states[i], updates[i], maxTicks, states[i+1])
  }

  /** Whatever was accepted, the tick list is that of the signed ledger. */
  lemma {:induction false} LedgerIndexed(sqrt: Grid, states: seq<State>, updates: seq<Update>, maxTicks: int,
                                         ps: seq<Position>, n: nat)
    requires Linked(sqrt, states, updates, maxTicks) && n < |states|
    requires Induced(states[0].ticks, ps) && InRange(ps)
    ensures Induced(states[n].ticks, Ledger(ps, updates[..n])) && InRange(Ledger(ps, updates[..n]))
  {
    if n > 0 {
      LedgerIndexed(sqrt, states, updates, maxTicks, ps, n - 1);
      var u := updates[n-1];
      assert updates[..n][..n-1] == updates[..n-1] && updates[..n][n-1] == u;
      assert Updated(sqrt, states[n-1], u, maxTicks, states[n]);
      if u.Change? {
        OneChange(states[n-1].ticks, states[n].ticks, Ledger(ps, updates[..n-1]), u);
      } else {
        assert Ledger(ps, updates[..n]) == Ledger(ps, updates[..n-1]);
      }
    }
  }

  lemma OneChange(before: seq<Tick>, after: seq<Tick>, ps: seq<Position>, u: Update)
    requires u.Change? && Induced(before, ps) && Effect(before, u.lower, u.upper, u.delta, after)
    ensures Induced(after, ps + [Position(u.lower, u.upper, u.delta)])
  {
    var p := Position(u.lower, u.upper, u.delta);
    assert (ps + [p])[..|ps|] == ps;
    forall t
      ensures At(after, t) == Tick(t, Gross(ps + [p], t), Net(ps + [p], t))
    {
      assert At(before, t) == Tick(t, Gross(ps, t), Net(ps, t));
    }
  }

  /** The book of a ledger: one position for each range that holds something. */
  function Settle(ps: seq<Position>): seq<Position>
    decreases |ps|
  {
    if ps == [] then []
    else
      var p := ps[|ps|-1];
      var sum := RangeSum(ps, p.lower, p.upper);
      Settle(Outside(ps, p.lower, p.upper)) + (if sum > 0 then [Position(p.lower, p.upper, sum)] else [])
  }

  lemma {:induction false} OutsideInRange(ps: seq<Position>, lower: int, upper: int)
    requires InRange(ps)
    ensures InRange(Outside(ps, lower, upper))
  {
    if ps != [] { OutsideInRange(ps[..|ps|-1], lower, upper); }
  }

  lemma {:induction false} SettleIs(ps: seq<Position>)
    requires InRange(ps) && Solvent(ps)
    ensures Open(Settle(ps)) && SameRanges(Settle(ps), ps)
    decreases |ps|
  {
    if ps != [] {
      var p := ps[|ps|-1];
      var rest, sum := Outside(ps, p.lower, p.upper), RangeSum(ps, p.lower, p.upper);
      OutsideInRange(ps, p.lower, p.upper);
      forall l, u
        ensures RangeSum(rest, l, u) == if l == p.lower && u == p.upper then 0 else RangeSum(ps, l, u)
      {
        OutsideSums(ps, p.lower, p.upper, l, l, u);
      }
      SettleIs(rest);
      var q := Position(p.lower, p.upper, sum);
      forall l, u
        ensures RangeSum(Settle(ps), l, u) == RangeSum(ps, l, u)
      {
        assert RangeSum(Settle(rest), l, u) == RangeSum(rest, l, u);
        assert Settle(rest) + [] == Settle(rest);
        SumConcat(Settle(rest), [q], RangeW(l, u));
        One(q, RangeW(l, u));
      }
    }
  }

  /** A book with the liquidity of the ledger exists exactly when no range is overdrawn. */
  lemma BookExists(ps: seq<Position>)
    requires InRange(ps)
    ensures (exists qs :: Open(qs) && SameRanges(qs, ps)) <==> Solvent(ps)
  {
    if qs :| Open(qs) && SameRanges(qs, ps) {
      forall l, u
        ensures RangeSum(ps, l, u) >= 0
      {
        RangeSumPositive(qs, l, u);
      }
    }
    if Solvent(ps) { SettleIs(ps); }
  }

  /** Over every run of accepted updates from the index of a book, whatever they add or remove: each
      state is the index of a book with the changed liquidity if and only if no range was overdrawn;
      its active liquidity is then that of the positions around its tick. */
  lemma RunExact(sqrt: Grid, states: seq<State>, updates: seq<Update>, maxTicks: int, ps: seq<Position>, n: nat)
    requires Linked(sqrt, states, updates, maxTicks) && n < |states|
    requires Consistent(sqrt, states[0]) && Induced(states[0].ticks, ps) && Open(ps)
    ensures var ledger := Ledger(ps, updates[..n]);
            && (Solvent(ledger) <==> exists qs :: Open(qs) && SameRanges(qs, ledger) && Induced(states[n].ticks, qs))
            && forall qs :: Open(qs) && SameRanges(qs, ledger) ==>
                 Induced(states[n].ticks, qs) && states[n].active == Active(qs, states[n].tick)
  {
    var ledger := Ledger(ps, updates[..n]);
    LedgerIndexed(sqrt, states, updates, maxTicks, ps, n);
    BookExists(ledger);
    if n > 0 { assert Updated(sqrt, states[n-1], updates[n-1], maxTicks, states[n]); }
    forall qs | Open(qs) && SameRanges(qs, ledger)
      ensures Induced(states[n].ticks, qs) && states[n].active == Active(qs, states[n].tick)
    {
      SameRangesInduce(states[n].ticks, qs, ledger);
      ActiveIsSum(states[n].ticks, qs, states[n].tick);
    }
  }

  // ---------- A removal that no book allows ----------

  /** A price table. */
  function Steps(t: int): int { if t < MIN_TICK then 1 else t - MIN_TICK + 1 }

  function Adjacent(): seq<Position> { [Position(0, 10, 5), Position(10, 20, 5)] }

  function AdjacentTicks(): seq<Tick> { [Tick(0, 5, 5), Tick(10, 10, 0), Tick(20, 5, -5)] }

  function Above(ticks: seq<Tick>): State { State(Steps(30), 30, 10, 0, ticks, true) }

  /** Two adjacent positions hold the ends of a range that neither of them has: taking that range out
      is accepted, and the tick that is left belongs to no book. */
  lemma UnbookedRemoval()
    ensures Monotone(Steps) && Induced(AdjacentTicks(), Adjacent()) && Open(Adjacent())
    ensures Updated(Steps, Above(AdjacentTicks()), Change(0, 20, -5), 3, Above([Tick(10, 10, 0)]))
    ensures forall qs :: Open(qs) ==> !Induced([Tick(10, 10, 0)], qs)
  {
    AdjacentIndexed();
    AdjacentConsistent();
    LoneConsistent();
    RemovalEffect();
    hide Effect, Consistent, Induced;
    assert RangeOk(Above(AdjacentTicks()), Change(0, 20, -5));
    forall qs | Open(qs)
      ensures !Induced([Tick(10, 10, 0)], qs)
    {
      LoneTick(qs);
    }
  }

  lemma AdjacentConsistent()
    ensures Consistent(Steps, Above(AdjacentTicks()))
  {
    var ticks := AdjacentTicks();
    assert Cum(ticks, 1) == 5 && Cum(ticks, 2) == 5 && Cum(ticks, 3) == 0;
    assert CumTo(ticks, 1, 30) == 5 && CumTo(ticks, 2, 30) == 5 && CumTo(ticks, 3, 30) == 0;
  }

  lemma LoneConsistent()
    ensures Consistent(Steps, Above([Tick(10, 10, 0)]))
  {
    assert Cum([Tick(10, 10, 0)], 1) == 0 && CumTo([Tick(10, 10, 0)], 1, 30) == 0;
  }

  lemma AdjacentIndexed()
    ensures Induced(AdjacentTicks(), Adjacent())
  {
    var ticks, ps := AdjacentTicks(), Adjacent();
    AtEntry(ticks, 0);
    AtEntry(ticks, 1);
    AtEntry(ticks, 2);
    assert ps[..|ps|-1] == [ps[0]];
    forall t
      ensures At(ticks, t) == Tick(t, Gross(ps, t), Net(ps, t))
    {
      One(ps[0], GrossW(t));
      One(ps[0], NetW(t));
    }
  }

  lemma RemovalEffect()
    ensures Effect(AdjacentTicks(), 0, 20, -5, [Tick(10, 10, 0)])
  {
    AtEntry(AdjacentTicks(), 0);
    AtEntry(AdjacentTicks(), 1);
    AtEntry(AdjacentTicks(), 2);
    AtEntry([Tick(10, 10, 0)], 0);
  }

  lemma LoneTick(qs: seq<Position>)
    requires Open(qs)
    ensures !Induced([Tick(10, 10, 0)], qs)
  {
    if qs == [] {
      AtEntry([Tick(10, 10, 0)], 0);
    } else {
      EndCarries(qs, 0);
    }
  }
}
