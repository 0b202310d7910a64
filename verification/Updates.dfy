/** One ordered update of a complete pool state. */
module Updates {
  import opened Wrappers
  import opened Ticks
  import opened Liquidity

  datatype Update =
    | Swap(price: int, tick: int, active: int)
    | Change(lower: int, upper: int, delta: int)

  // ---------- One tick of the list ----------

  /** Position of the first tick at or above `index`. */
  ghost predicate FirstAtOrAbove(ticks: seq<Tick>, index: int, at: int) {
    && 0 <= at <= |ticks|
    && (forall i :: 0 <= i < at ==> ticks[i].index < index)
    && (forall i :: at <= i < |ticks| ==> ticks[i].index >= index)
  }

  /** Binary search of a sorted list. */
  method Search(ticks: seq<Tick>, index: int) returns (at: int)
    requires Sorted(ticks)
    ensures FirstAtOrAbove(ticks, index, at)
  {
    var lo, hi := 0, |ticks|;
    while lo < hi
      invariant 0 <= lo <= hi <= |ticks|
      invariant forall i :: 0 <= i < lo ==> ticks[i].index < index
      invariant forall i :: hi <= i < |ticks| ==> ticks[i].index >= index
    {
      var mid := (lo + hi) / 2;
      if ticks[mid].index < index { lo := mid + 1; } else { hi := mid; }
    }
    at := lo;
  }

  /** `after` is `before` with `gross` and `net` added at `index` and nothing else changed;
      it lists no tick without liquidity. */
  ghost predicate Touched(before: seq<Tick>, index: int, gross: int, net: int, after: seq<Tick>) {
    && Sorted(after)
    && NoZeroGross(after)
    && forall t :: At(after, t) ==
         if t == index then Tick(t, At(before, t).gross + gross, At(before, t).net + net)
         else At(before, t)
  }

  lemma TouchedInsert(ticks: seq<Tick>, at: int, index: int, gross: int, net: int)
    requires Sorted(ticks) && NoZeroGross(ticks) && FirstAtOrAbove(ticks, index, at) && gross != 0
    requires at == |ticks| || ticks[at].index != index
    ensures Touched(ticks, index, gross, net, ticks[..at] + [Tick(index, gross, net)] + ticks[at..])
  {
    var after := ticks[..at] + [Tick(index, gross, net)] + ticks[at..];
    assert !Has(ticks, index);
    InsertedSorted(ticks, at, Tick(index, gross, net));
    AtEntry(after, at);
    forall t | t != index
      ensures At(after, t) == At(ticks, t)
    {
      InsertedOthers(ticks, at, Tick(index, gross, net), t);
    }
  }

  lemma InsertedSorted(ticks: seq<Tick>, at: int, tick: Tick)
    requires Sorted(ticks) && NoZeroGross(ticks) && FirstAtOrAbove(ticks, tick.index, at) && tick.gross != 0
    requires at == |ticks| || ticks[at].index != tick.index
    ensures var after := ticks[..at] + [tick] + ticks[at..];
            Sorted(after) && NoZeroGross(after) && after[at] == tick
  {
    var after := ticks[..at] + [tick] + ticks[at..];
    assert forall i :: 0 <= i < |after| ==>
             after[i] == if i < at then ticks[i] else if i == at then tick else ticks[i - 1];
  }

  lemma InsertedOthers(ticks: seq<Tick>, at: int, tick: Tick, t: int)
    requires 0 <= at <= |ticks| && Sorted(ticks) && Sorted(ticks[..at] + [tick] + ticks[at..]) && t != tick.index
    ensures At(ticks[..at] + [tick] + ticks[at..], t) == At(ticks, t)
  {
    hide At, Sorted;
    var after := ticks[..at] + [tick] + ticks[at..];
    assert forall i :: 0 <= i < |after| ==>
             after[i] == if i < at then ticks[i] else if i == at then tick else ticks[i - 1];
    assert forall i :: 0 <= i < |ticks| ==> ticks[i] == if i < at then after[i] else after[i + 1];
    SameAt(after, ticks, t);
  }

  lemma TouchedEdit(ticks: seq<Tick>, at: int, gross: int, net: int)
    requires Sorted(ticks) && NoZeroGross(ticks) && 0 <= at < |ticks|
    requires ticks[at].gross + gross != 0
    ensures Touched(ticks, ticks[at].index, gross, net,
                    ticks[at := Tick(ticks[at].index, ticks[at].gross + gross, ticks[at].net + net)])
  {
    var index := ticks[at].index;
    var after := ticks[at := Tick(index, ticks[at].gross + gross, ticks[at].net + net)];
    AtEntry(ticks, at);
    AtEntry(after, at);
    assert forall i :: 0 <= i < |ticks| && i != at ==> ticks[i] == after[i];
    forall t | t != index
      ensures At(after, t) == At(ticks, t)
    {
      SameAt(after, ticks, t);
    }
  }

  lemma TouchedRemove(ticks: seq<Tick>, at: int)
    requires Sorted(ticks) && NoZeroGross(ticks) && 0 <= at < |ticks|
    ensures Touched(ticks, ticks[at].index, -ticks[at].gross, -ticks[at].net,
                    ticks[..at] + ticks[at+1..])
  {
    var index := ticks[at].index;
    var after := ticks[..at] + ticks[at+1..];
    assert forall i :: 0 <= i < at ==> after[i] == ticks[i];
    assert forall i :: at <= i < |after| ==> after[i] == ticks[i + 1];
    assert forall i :: at < i < |ticks| ==> ticks[i] == after[i - 1];
    AtEntry(ticks, at);
    assert !Has(after, index);
    forall t | t != index
      ensures At(after, t) == At(ticks, t)
    {
      SameAt(after, ticks, t);
    }
  }

  // ---------- The update ----------

  /** Effect of adding `delta` to the range `lower..upper` on both ends. */
  ghost predicate Effect(before: seq<Tick>, lower: int, upper: int, delta: int, after: seq<Tick>) {
    && Sorted(after)
    && NoZeroGross(after)
    && forall t :: At(after, t) ==
         var p := Position(lower, upper, delta);
         Tick(t, At(before, t).gross + GrossOf(p, t), At(before, t).net + NetOf(p, t))
  }

  predicate RangeOk(s: State, u: Update)
    requires u.Change? && s.spacing != 0
  {
    && MIN_TICK <= u.lower < u.upper <= MAX_TICK
    && u.lower % s.spacing == 0 && u.upper % s.spacing == 0
    && -POW128 < u.delta < POW128
  }

  /** `next` is the state after `u`: both states are consistent, the tick limit holds,
      and nothing moved except what `u` names. */
  ghost predicate Updated(sqrt: Grid, s: State, u: Update, maxTicks: int, next: State) {
    && 1 <= maxTicks && |s.ticks| <= maxTicks && |next.ticks| <= maxTicks
    && Consistent(sqrt, s) && Consistent(sqrt, next)
    && match u
       case Swap(price, tick, active) =>
         next == s.(price := price, tick := tick, active := active)
       case Change(lower, upper, delta) =>
         && RangeOk(s, u)
         && Effect(s.ticks, lower, upper, delta, next.ticks)
         && next == s.(ticks := next.ticks,
                       active := s.active + ActiveOf(Position(lower, upper, delta), s.tick))
  }

  lemma UpdatedUnique(sqrt: Grid, s: State, u: Update, maxTicks: int, a: State, b: State)
    requires Updated(sqrt, s, u, maxTicks, a) && Updated(sqrt, s, u, maxTicks, b)
    ensures a == b
  {
    if u.Change? { IndexUnique(a.ticks, b.ticks); }
  }

  lemma ConsistentNoZero(sqrt: Grid, s: State)
    requires Consistent(sqrt, s)
    ensures Sorted(s.ticks) && NoZeroGross(s.ticks)
  {
    assert forall i :: 0 <= i < |s.ticks| ==> Sized(s.ticks[i]);
  }

  /** A removal from a tick that is not listed leaves nothing a state could hold. */
  lemma NoNegativeTick(sqrt: Grid, s: State, t: int)
    requires Consistent(sqrt, s)
    ensures At(s.ticks, t).gross >= 0
    ensures At(s.ticks, t).gross == 0 ==> At(s.ticks, t).net == 0
  {
    if Has(s.ticks, t) {
      var i :| 0 <= i < |s.ticks| && s.ticks[i].index == t && At(s.ticks, t) == s.ticks[i];
      assert Sized(s.ticks[i]);
    }
  }

  ghost predicate BadEnd(ticks: seq<Tick>, p: Position, t: int) {
    var gross, net := At(ticks, t).gross + GrossOf(p, t), At(ticks, t).net + NetOf(p, t);
    gross < 0 || (gross == 0 && net != 0)
  }

  /** An end that would be left with negative liquidity, or with a net but no gross,
      belongs to no consistent state. */
  lemma NoWay(sqrt: Grid, s: State, u: Update, maxTicks: int)
    requires Consistent(sqrt, s) && u.Change?
    requires exists t :: BadEnd(s.ticks, Position(u.lower, u.upper, u.delta), t)
    ensures forall next :: !Updated(sqrt, s, u, maxTicks, next)
  {
    var t :| BadEnd(s.ticks, Position(u.lower, u.upper, u.delta), t);
    forall next | Updated(sqrt, s, u, maxTicks, next)
      ensures false
    {
      NoNegativeTick(sqrt, next, t);
    }
  }

  /** The computed state is the only candidate. */
  lemma NoOther(sqrt: Grid, s: State, u: Update, maxTicks: int, next: State)
    requires s.spacing != 0
    requires match u
      case Swap(price, tick, active) => next == s.(price := price, tick := tick, active := active)
      case Change(lower, upper, delta) =>
        && Effect(s.ticks, lower, upper, delta, next.ticks)
        && next == s.(ticks := next.ticks,
                      active := s.active + ActiveOf(Position(lower, upper, delta), s.tick))
    requires |next.ticks| > maxTicks || !Consistent(sqrt, next)
    ensures forall other :: !Updated(sqrt, s, u, maxTicks, other)
  {
    forall other | Updated(sqrt, s, u, maxTicks, other)
      ensures false
    {
      if u.Change? { IndexUnique(other.ticks, next.ticks); }
    }
  }

  lemma NotListed(ticks: seq<Tick>, index: int, at: int)
    requires FirstAtOrAbove(ticks, index, at) && Sorted(ticks) && (at == |ticks| || ticks[at].index != index)
    ensures At(ticks, index) == Tick(index, 0, 0)
  {
    assert !Has(ticks, index);
  }

  lemma TouchedNothing(ticks: seq<Tick>, index: int)
    requires Sorted(ticks) && NoZeroGross(ticks)
    ensures Touched(ticks, index, 0, 0, ticks)
  {
  }

  /** Adds `gross` and `net` at one end of the changed range. */
  method Touch(ticks: seq<Tick>, index: int, gross: int, net: int)
    returns (r: Result<seq<Tick>, Fault>)
    requires Sorted(ticks) && NoZeroGross(ticks) && (net == gross || net == -gross)
    ensures r.Ok? ==> Touched(ticks, index, gross, net, r.value)
    ensures r.Err? ==> r.error in {MissingTick, TickMismatch}
    ensures r.Err? && r.error == MissingTick ==> At(ticks, index).gross == 0 && gross < 0
    ensures r.Err? && r.error == TickMismatch ==>
              At(ticks, index).gross + gross == 0 && At(ticks, index).net + net != 0
  {
    hide Touched, Sorted;
    var next := ticks;
    var at := Search(ticks, index);
    if at == |ticks| || ticks[at].index != index {
      NotListed(ticks, index, at);
      if gross < 0 { return Err(MissingTick); }
      if gross == 0 {
        TouchedNothing(ticks, index);
        return Ok(ticks);
      }
      next := ticks[..at] + [Tick(index, 0, 0)] + ticks[at..];
      TouchedInsert(ticks, at, index, gross, net);
    } else {
      AtEntry(ticks, at);
      if ticks[at].gross + gross != 0 { TouchedEdit(ticks, at, gross, net); }
      else if ticks[at].net + net == 0 { TouchedRemove(ticks, at); }
    }
    var t := next[at];
    t := t.(gross := t.gross + gross);
    t := t.(net := t.net + net);
    if t.gross == 0 {
      if t.net != 0 { return Err(TickMismatch); }
      return Ok(next[..at] + next[at+1..]);
    }
    next := next[at := t];
    assert at == |ticks| || ticks[at].index != index ==> next == ticks[..at] + [Tick(index, gross, net)] + ticks[at..];
    return Ok(next);
  }

  /** The two ends of a changed range, one after the other. */
  lemma EffectOfEnds(before: seq<Tick>, middle: seq<Tick>, after: seq<Tick>, lower: int, upper: int, delta: int)
    requires lower != upper
    requires Touched(before, lower, delta, delta, middle)
    requires Touched(middle, upper, delta, -delta, after)
    ensures Effect(before, lower, upper, delta, after)
  {
  }

  /** Adds `delta` at both ends of the range. */
  method ChangeTicks(ticks: seq<Tick>, lower: int, upper: int, delta: int)
    returns (r: Result<seq<Tick>, Fault>)
    requires Sorted(ticks) && NoZeroGross(ticks) && lower < upper
    requires forall t :: At(ticks, t).gross >= 0
    ensures r.Ok? ==> Effect(ticks, lower, upper, delta, r.value)
    ensures r.Err? ==> r.error in {MissingTick, TickMismatch}
    ensures r.Err? ==> exists t :: BadEnd(ticks, Position(lower, upper, delta), t)
  {
    r := Touch(ticks, lower, delta, delta);
    if r.Err? {
      assert BadEnd(ticks, Position(lower, upper, delta), lower);
      return;
    }
    var middle := r.value;
    r := Touch(middle, upper, delta, -delta);
    if r.Err? {
      assert At(middle, upper) == At(ticks, upper);
      assert BadEnd(ticks, Position(lower, upper, delta), upper);
      return;
    }
    EffectOfEnds(ticks, middle, r.value, lower, upper, delta);
  }

  /** Applies `u` to an owned copy and verifies the outcome. It succeeds exactly when
      some consistent state carries the effect of `u`; that state is unique. */
  method Apply(sqrt: Grid, s: State, u: Update, maxTicks: int) returns (r: Result<State, Fault>)
    requires Monotone(sqrt)
    ensures r.Ok? ==> Updated(sqrt, s, u, maxTicks, r.value)
    ensures r.Err? ==> forall next :: !Updated(sqrt, s, u, maxTicks, next)
    ensures r.Err? && r.error == BadRange ==> u.Change? && s.spacing != 0 && !RangeOk(s, u)
    ensures r.Ok? && u.Change? ==>
              && -887272 <= u.lower < u.upper <= 887272
              && u.lower % s.spacing == 0 && u.upper % s.spacing == 0
              && -0x1_0000_0000_0000_0000_0000_0000_0000_0000 < u.delta < 0x1_0000_0000_0000_0000_0000_0000_0000_0000
  {
    if maxTicks < 1 || |s.ticks| > maxTicks { return Err(TooManyTicks); }
    var checked := Calculate(sqrt, s, false);
    if checked.Err? { return Err(checked.error); }
    ConsistentNoZero(sqrt, s);
    var next := s;
    match u {
      case Swap(price, tick, active) =>
        next := next.(price := price, tick := tick, active := active);
      case Change(lower, upper, delta) =>
        if lower >= upper || lower < MIN_TICK || upper > MAX_TICK || lower % s.spacing != 0
           || upper % s.spacing != 0 || delta <= -POW128 || delta >= POW128 {
          return Err(BadRange);
        }
        forall t ensures At(s.ticks, t).gross >= 0 { NoNegativeTick(sqrt, s, t); }
        var changed := ChangeTicks(next.ticks, lower, upper, delta);
        if changed.Err? {
          NoWay(sqrt, s, u, maxTicks);
          return Err(changed.error);
        }
        next := next.(ticks := changed.value);
        if next.tick >= lower && next.tick < upper {
          next := next.(active := next.active + delta);
        }
    }
    if |next.ticks| > maxTicks {
      NoOther(sqrt, s, u, maxTicks, next);
      return Err(TooManyTicks);
    }
    var rechecked := Calculate(sqrt, next, false);
    if rechecked.Err? {
      NoOther(sqrt, s, u, maxTicks, next);
      return Err(rechecked.error);
    }
    return Ok(next);
  }
}
