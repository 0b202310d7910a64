/** Token transfers derived from the balances before and after a transaction: the decreases are
    matched greedily with the gains of the same mint. */
module Transfers {
  import opened Wrappers

  type Address = nat

  /** A balance as reported; an amount that is no decimal number is absent. */
  datatype Balance = Balance(account: nat, mint: Address, owner: Option<Address>, amount: Option<int>, decimals: nat)

  datatype Key = Key(account: nat, mint: Address)

  datatype Delta = Delta(owner: Address, mint: Address, amount: int, decimals: nat)

  datatype Event = Event(from: Address, to: Address, mint: Address, amount: nat, decimals: nat)

  // ---------- Collecting the changes ----------

  predicate Used(b: Balance, filter: Option<Address>) {
    b.owner.Some? && (filter.Some? ==> b.mint == filter.value) && b.amount.Some?
  }

  /** The sum of the used amounts of one token account. */
  function Held(balances: seq<Balance>, filter: Option<Address>, k: Key): int {
    if balances == [] then 0
    else
      var b := balances[|balances|-1];
      Held(balances[..|balances|-1], filter, k) +
      (if Used(b, filter) && Key(b.account, b.mint) == k then b.amount.value else 0)
  }

  /** The first used balance of the token account. */
  function First(balances: seq<Balance>, filter: Option<Address>, k: Key): (r: Option<Balance>)
    ensures r.Some? ==> Used(r.value, filter) && Key(r.value.account, r.value.mint) == k
  {
    if balances == [] then None
    else
      var n := |balances| - 1;
      var before := First(balances[..n], filter, k);
      if before.Some? then before
      else if Used(balances[n], filter) && Key(balances[n].account, balances[n].mint) == k then Some(balances[n])
      else None
  }

  /** The change of a token account begins with what was collected before, or at zero with the owner
      and the decimals of its first used balance. */
  function Base(balances: seq<Balance>, filter: Option<Address>, before: map<Key, Delta>, k: Key): Option<Delta> {
    if k in before then Some(before[k])
    else
      match First(balances, filter, k)
      case Some(b) => Some(Delta(b.owner.value, b.mint, 0, b.decimals))
      case None => None
  }

  ghost predicate CollectedAt(balances: seq<Balance>, sign: int, filter: Option<Address>, before: map<Key, Delta>,
                              deltas: map<Key, Delta>, k: Key) {
    var base := Base(balances, filter, before, k);
    && (k in deltas <==> base.Some?)
    && (k in deltas ==> deltas[k] == base.value.(amount := base.value.amount + sign * Held(balances, filter, k)))
  }

  /** The changes collected from the balances, on top of others. */
  ghost predicate Collected(balances: seq<Balance>, sign: int, filter: Option<Address>, before: map<Key, Delta>,
                            deltas: map<Key, Delta>) {
    forall k :: CollectedAt(balances, sign, filter, before, deltas, k)
  }

  method Collect(balances: seq<Balance>, sign: int, filter: Option<Address>, before: map<Key, Delta>)
    returns (deltas: map<Key, Delta>)
    ensures Collected(balances, sign, filter, before, deltas)
  {
    hide CollectedAt, Used;
    deltas := before;
    NoneCollected(sign, filter, before);
    for i := 0 to |balances|
      invariant Collected(balances[..i], sign, filter, before, deltas)
    {
      var b := balances[i];
      assert balances[..i+1] == balances[..i] + [b];
      Skipped(balances[..i], sign, filter, before, deltas, b);
      if !Used(b, filter) { continue; }
      Added(balances[..i], sign, filter, before, deltas, b);
      UsedParts(b, filter);
      var k := Key(b.account, b.mint);
      var delta := if k in deltas then deltas[k] else Delta(b.owner.value, b.mint, 0, b.decimals);
      deltas := deltas[k := delta.(amount := delta.amount + sign * b.amount.value)];
    }
    assert balances[..|balances|] == balances;
  }

  lemma UsedParts(b: Balance, filter: Option<Address>)
    requires Used(b, filter)
    ensures b.owner.Some? && b.amount.Some?
  {
  }

  lemma NoneCollected(sign: int, filter: Option<Address>, before: map<Key, Delta>)
    ensures Collected([], sign, filter, before, before)
  {
  }

  /** An unused balance changes nothing. */
  lemma Skipped(balances: seq<Balance>, sign: int, filter: Option<Address>, before: map<Key, Delta>,
                deltas: map<Key, Delta>, b: Balance)
    requires Collected(balances, sign, filter, before, deltas)
    ensures !Used(b, filter) ==> Collected(balances + [b], sign, filter, before, deltas)
  {
    if !Used(b, filter) {
      forall k
        ensures CollectedAt(balances + [b], sign, filter, before, deltas, k)
      {
        assert CollectedAt(balances, sign, filter, before, deltas, k);
        OneMore(balances, b, filter, k);
      }
    }
  }

  /** A used balance changes its own token account only. */
  lemma Added(balances: seq<Balance>, sign: int, filter: Option<Address>, before: map<Key, Delta>,
              deltas: map<Key, Delta>, b: Balance)
    requires Collected(balances, sign, filter, before, deltas) && Used(b, filter)
    ensures var k := Key(b.account, b.mint);
            var delta := if k in deltas then deltas[k] else Delta(b.owner.value, b.mint, 0, b.decimals);
            Collected(balances + [b], sign, filter, before,
                      deltas[k := delta.(amount := delta.amount + sign * b.amount.value)])
  {
    var k := Key(b.account, b.mint);
    var delta := if k in deltas then deltas[k] else Delta(b.owner.value, b.mint, 0, b.decimals);
    var more := deltas[k := delta.(amount := delta.amount + sign * b.amount.value)];
    forall x
      ensures CollectedAt(balances + [b], sign, filter, before, more, x)
    {
      assert CollectedAt(balances, sign, filter, before, deltas, x);
      OneMore(balances, b, filter, x);
      if x == k {
        if First(balances, filter, k).None? { NotHeld(balances, filter, k); }
        Distribute(sign, Held(balances, filter, k), b.amount.value);
      }
    }
  }

  lemma Distribute(sign: int, a: int, b: int)
    ensures sign * (a + b) == sign * a + sign * b
  {
  }

  lemma OneMore(balances: seq<Balance>, b: Balance, filter: Option<Address>, k: Key)
    ensures var first := First(balances, filter, k);
            First(balances + [b], filter, k) ==
            if first.Some? then first else if Used(b, filter) && Key(b.account, b.mint) == k then Some(b) else None
    ensures Held(balances + [b], filter, k) ==
            Held(balances, filter, k) + (if Used(b, filter) && Key(b.account, b.mint) == k then b.amount.value else 0)
  {
    assert (balances + [b])[..|balances|] == balances;
  }

  /** Which balances count: those with an owner and a decimal amount, of the wanted mint if one is
      wanted, for their own account and mint. The first of them names owner and decimals. */
  lemma BalanceRule(balances: seq<Balance>, b: Balance, filter: Option<Address>, k: Key)
    ensures Held([], filter, k) == 0 && First([], filter, k) == None
    ensures
      var counts := && b.owner.Some? && b.amount.Some? && (filter == None || filter == Some(b.mint))
                    && b.account == k.account && b.mint == k.mint;
      && Held(balances + [b], filter, k) == Held(balances, filter, k) + (if counts then b.amount.value else 0)
      && First(balances + [b], filter, k) ==
         (if First(balances, filter, k).Some? then First(balances, filter, k) else if counts then Some(b) else None)
  {
    OneMore(balances, b, filter, k);
  }

  lemma {:induction false} NotHeld(balances: seq<Balance>, filter: Option<Address>, k: Key)
    requires First(balances, filter, k).None?
    ensures Held(balances, filter, k) == 0
  {
    if balances != [] { NotHeld(balances[..|balances|-1], filter, k); }
  }

  // ---------- Flows ----------

  /** An emitted amount with the positions of the decrease and the increase it settles. */
  datatype Flow = Flow(source: nat, target: nat, amount: nat)

  function Sent(flows: seq<Flow>, i: nat): nat {
    if flows == [] then 0
    else Sent(flows[..|flows|-1], i) + (if flows[|flows|-1].source == i then flows[|flows|-1].amount else 0)
  }

  function Received(flows: seq<Flow>, j: nat): nat {
    if flows == [] then 0
    else Received(flows[..|flows|-1], j) + (if flows[|flows|-1].target == j then flows[|flows|-1].amount else 0)
  }

  /** The amounts of a mint. */
  function Total(deltas: seq<Delta>, mint: Address): int {
    if deltas == [] then 0
    else Total(deltas[..|deltas|-1], mint) + (if deltas[|deltas|-1].mint == mint then deltas[|deltas|-1].amount else 0)
  }

  /** What the events emit of a mint. */
  function Emitted(events: seq<Event>, mint: Address): nat {
    if events == [] then 0
    else Emitted(events[..|events|-1], mint) +
           (if events[|events|-1].mint == mint then events[|events|-1].amount else 0)
  }

  lemma {:induction false} TotalUpdate(deltas: seq<Delta>, i: nat, amount: int, mint: Address)
    requires i < |deltas|
    ensures Total(deltas[i := deltas[i].(amount := amount)], mint) ==
            Total(deltas, mint) + (if deltas[i].mint == mint then amount - deltas[i].amount else 0)
  {
    var n := |deltas| - 1;
    var changed := deltas[i := deltas[i].(amount := amount)];
    if i == n {
      assert changed[..n] == deltas[..n];
    } else {
      assert changed[..n] == deltas[..n][i := deltas[i].(amount := amount)];
      TotalUpdate(deltas[..n], i, amount, mint);
    }
  }

  lemma {:induction false} TotalZero(deltas: seq<Delta>, mint: Address)
    requires forall i :: 0 <= i < |deltas| && deltas[i].mint == mint ==> deltas[i].amount == 0
    ensures Total(deltas, mint) == 0
  {
    if deltas != [] { TotalZero(deltas[..|deltas|-1], mint); }
  }

  lemma {:induction false} TotalPositive(deltas: seq<Delta>, mint: Address)
    requires forall i :: 0 <= i < |deltas| ==> deltas[i].amount >= 0
    ensures Total(deltas, mint) >= 0
  {
    if deltas != [] { TotalPositive(deltas[..|deltas|-1], mint); }
  }

  lemma FlowsPlus(flows: seq<Flow>, f: Flow)
    ensures forall i :: Sent(flows + [f], i) == Sent(flows, i) + (if f.source == i then f.amount else 0)
    ensures forall j :: Received(flows + [f], j) == Received(flows, j) + (if f.target == j then f.amount else 0)
  {
    assert (flows + [f])[..|flows|] == flows;
  }

  /** The deltas differ from others in their amounts only. */
  predicate SameAccounts(a: seq<Delta>, b: seq<Delta>) {
    |a| == |b| && forall i :: 0 <= i < |a| ==> a[i] == b[i].(amount := a[i].amount)
  }

  /** Each event reports its flow, between two changes of one mint. */
  ghost predicate Reports(losses: seq<Delta>, gains: seq<Delta>, flows: seq<Flow>, events: seq<Event>) {
    && |events| == |flows|
    && forall k :: 0 <= k < |flows| ==>
         && flows[k].source < |losses| && flows[k].target < |gains| && flows[k].amount > 0
         && losses[flows[k].source].mint == gains[flows[k].target].mint
         && events[k] == Event(losses[flows[k].source].owner, gains[flows[k].target].owner,
                               losses[flows[k].source].mint, flows[k].amount, losses[flows[k].source].decimals)
  }

  /** What is left of each change is what its flows did not settle. */
  ghost predicate Settled(losses: seq<Delta>, gains: seq<Delta>, left: seq<Delta>, open: seq<Delta>,
                          flows: seq<Flow>, events: seq<Event>) {
    && SameAccounts(left, losses) && SameAccounts(open, gains)
    && Reports(losses, gains, flows, events)
    && (forall i :: 0 <= i < |left| ==> 0 <= left[i].amount == losses[i].amount - Sent(flows, i))
    && (forall j :: 0 <= j < |open| ==> 0 <= open[j].amount == gains[j].amount - Received(flows, j))
    && (forall m :: Total(left, m) == Total(losses, m) - Emitted(events, m))
    && (forall m :: Total(open, m) == Total(gains, m) - Emitted(events, m))
  }

  /** One more event. */
  lemma SettleOne(losses: seq<Delta>, gains: seq<Delta>, left: seq<Delta>, open: seq<Delta>,
                  flows: seq<Flow>, events: seq<Event>, i: nat, j: nat, amount: nat)
    requires Settled(losses, gains, left, open, flows, events)
    requires i < |left| && j < |open| && left[i].mint == open[j].mint
    requires 0 < amount <= left[i].amount && amount <= open[j].amount
    ensures Settled(losses, gains,
                    left[i := left[i].(amount := left[i].amount - amount)],
                    open[j := open[j].(amount := open[j].amount - amount)],
                    flows + [Flow(i, j, amount)],
                    events + [Event(left[i].owner, open[j].owner, left[i].mint, amount, left[i].decimals)])
  {
    var f, e := Flow(i, j, amount), Event(left[i].owner, open[j].owner, left[i].mint, amount, left[i].decimals);
    FlowsPlus(flows, f);
    assert (events + [e])[..|events|] == events;
    forall m
      ensures Total(left[i := left[i].(amount := left[i].amount - amount)], m) ==
                Total(losses, m) - Emitted(events + [e], m)
      ensures Total(open[j := open[j].(amount := open[j].amount - amount)], m) ==
                Total(gains, m) - Emitted(events + [e], m)
    {
      TotalUpdate(left, i, left[i].amount - amount, m);
      TotalUpdate(open, j, open[j].amount - amount, m);
    }
    ReportsPlus(losses, gains, flows, events, f, e);
  }

  lemma ReportsPlus(losses: seq<Delta>, gains: seq<Delta>, flows: seq<Flow>, events: seq<Event>, f: Flow, e: Event)
    requires Reports(losses, gains, flows, events)
    requires f.source < |losses| && f.target < |gains| && f.amount > 0
    requires losses[f.source].mint == gains[f.target].mint
    requires e == Event(losses[f.source].owner, gains[f.target].owner, losses[f.source].mint, f.amount,
                        losses[f.source].decimals)
    ensures Reports(losses, gains, flows + [f], events + [e])
  {
  }

  /** Nothing of the row can be settled any more. */
  predicate RowDone(left: seq<Delta>, open: seq<Delta>, i: nat, n: nat)
    requires i < |left| && n <= |open|
  {
    left[i].amount == 0 || forall j :: 0 <= j < n && open[j].mint == left[i].mint ==> open[j].amount == 0
  }

  lemma RowBegins(left: seq<Delta>, open: seq<Delta>, i: nat)
    requires i < |left|
    ensures RowDone(left, open, i, 0)
  {
  }

  lemma RowSkips(left: seq<Delta>, open: seq<Delta>, i: nat, j: nat)
    requires i < |left| && j < |open| && RowDone(left, open, i, j)
    ensures left[i].mint != open[j].mint || left[i].amount == 0 || open[j].amount == 0 ==> RowDone(left, open, i, j + 1)
  {
  }

  lemma NothingSettled(losses: seq<Delta>, gains: seq<Delta>)
    requires forall i :: 0 <= i < |losses| ==> losses[i].amount > 0
    requires forall j :: 0 <= j < |gains| ==> gains[j].amount > 0
    ensures Settled(losses, gains, losses, gains, [], [])
  {
  }

  lemma SettledSigns(losses: seq<Delta>, gains: seq<Delta>, left: seq<Delta>, open: seq<Delta>, flows: seq<Flow>,
                     events: seq<Event>)
    requires Settled(losses, gains, left, open, flows, events)
    ensures forall i :: 0 <= i < |left| ==> left[i].amount >= 0
    ensures forall j :: 0 <= j < |open| ==> open[j].amount >= 0
  {
  }

  /** Matches decreases with gains in place, for any order of the two lists. */
  method Match(negatives: array<Delta>, positives: array<Delta>) returns (events: seq<Event>, ghost flows: seq<Flow>)
    requires negatives != positives
    requires forall i :: 0 <= i < negatives.Length ==> negatives[i].amount > 0
    requires forall j :: 0 <= j < positives.Length ==> positives[j].amount > 0
    modifies negatives, positives
    ensures Settled(old(negatives[..]), old(positives[..]), negatives[..], positives[..], flows, events)
    ensures forall i :: 0 <= i < negatives.Length ==> RowDone(negatives[..], positives[..], i, positives.Length)
  {
    hide Settled, RowDone;
    ghost var lost, won := negatives[..], positives[..];
    events, flows := [], [];
    NothingSettled(lost, won);
    for i := 0 to negatives.Length
      invariant Settled(lost, won, negatives[..], positives[..], flows, events)
      invariant forall r :: 0 <= r < i ==> RowDone(negatives[..], positives[..], r, positives.Length)
    {
      RowBegins(negatives[..], positives[..], i);
      for j := 0 to positives.Length
        invariant Settled(lost, won, negatives[..], positives[..], flows, events)
        invariant forall r :: 0 <= r < i ==> RowDone(negatives[..], positives[..], r, positives.Length)
        invariant RowDone(negatives[..], positives[..], i, j)
      {
        ghost var left, open := negatives[..], positives[..];
        SettledSigns(lost, won, left, open, flows, events);
        RowSkips(left, open, i, j);
        if negatives[i].mint != positives[j].mint || negatives[i].amount == 0 || positives[j].amount == 0 { continue; }
        var amount := negatives[i].amount;
        if amount > positives[j].amount { amount := positives[j].amount; }
        SettleOne(lost, won, left, open, flows, events, i, j, amount);
        RowsStay(left, open, i, j, amount);
        events := events + [Event(negatives[i].owner, positives[j].owner, negatives[i].mint, amount,
                                  negatives[i].decimals)];
        flows := flows + [Flow(i, j, amount)];
        negatives[i] := negatives[i].(amount := negatives[i].amount - amount);
        positives[j] := positives[j].(amount := positives[j].amount - amount);
        assert negatives[..] == left[i := left[i].(amount := left[i].amount - amount)];
        assert positives[..] == open[j := open[j].(amount := open[j].amount - amount)];
      }
    }
  }

  /** Settling an amount reopens no row. */
  lemma RowsStay(left: seq<Delta>, open: seq<Delta>, i: nat, j: nat, amount: nat)
    requires i < |left| && j < |open| && left[i].mint == open[j].mint
    requires 0 < amount <= left[i].amount && amount <= open[j].amount
               && (amount == left[i].amount || amount == open[j].amount)
    requires forall r :: 0 <= r < i ==> RowDone(left, open, r, |open|)
    requires RowDone(left, open, i, j)
    ensures
      var left', open' := left[i := left[i].(amount := left[i].amount - amount)],
        open[j := open[j].(amount := open[j].amount - amount)];
      (forall r :: 0 <= r < i ==> RowDone(left', open', r, |open'|)) && RowDone(left', open', i, j + 1)
  {
    var left', open' := left[i := left[i].(amount := left[i].amount - amount)],
      open[j := open[j].(amount := open[j].amount - amount)];
    forall r | 0 <= r < i
      ensures RowDone(left', open', r, |open'|)
    {
      assert RowDone(left, open, r, |open|);
    }
  }

  /** Value is conserved: no decrease is exceeded, no increase is exceeded, and of each mint the
      smaller of total decreases and total gains is emitted. */
  lemma Conserved(losses: seq<Delta>, gains: seq<Delta>, left: seq<Delta>, open: seq<Delta>,
                  flows: seq<Flow>, events: seq<Event>, mint: Address)
    requires Settled(losses, gains, left, open, flows, events)
    requires forall i :: 0 <= i < |left| ==> RowDone(left, open, i, |open|)
    ensures Reports(losses, gains, flows, events)
    ensures forall i :: 0 <= i < |losses| ==> Sent(flows, i) <= losses[i].amount
    ensures forall j :: 0 <= j < |gains| ==> Received(flows, j) <= gains[j].amount
    ensures Emitted(events, mint) ==
              if Total(losses, mint) <= Total(gains, mint) then Total(losses, mint) else Total(gains, mint)
  {
    TotalPositive(left, mint);
    TotalPositive(open, mint);
    if i :| 0 <= i < |left| && left[i].mint == mint && left[i].amount != 0 {
      assert RowDone(left, open, i, |open|);
      TotalZero(open, mint);
    } else {
      TotalZero(left, mint);
    }
  }

  // ---------- The whole derivation ----------

  /** The changes of one sign, each token account once, as positive amounts. */
  ghost predicate Lists(keys: seq<Key>, list: seq<Delta>, deltas: map<Key, Delta>, sign: int) {
    && |keys| == |list|
    && (forall i, j :: 0 <= i < j < |keys| ==> keys[i] != keys[j])
    && (forall i :: 0 <= i < |keys| ==>
          keys[i] in deltas && sign * deltas[keys[i]].amount > 0
          && list[i] == deltas[keys[i]].(amount := sign * deltas[keys[i]].amount))
    && (forall k :: k in deltas && sign * deltas[k].amount > 0 ==> k in keys)
  }

  /** The changed accounts by sign, in whatever order the map is walked. */
  method Split(deltas: map<Key, Delta>)
    returns (negatives: seq<Delta>, positives: seq<Delta>)
    ensures exists losers :: Lists(losers, negatives, deltas, -1)
    ensures exists winners :: Lists(winners, positives, deltas, 1)
  {
    negatives, positives := [], [];
    ghost var losers: seq<Key>, winners: seq<Key> := [], [];
    var todo := deltas.Keys;
    while todo != {}
      invariant todo <= deltas.Keys
      invariant Lists(losers, negatives, deltas - todo, -1) && Lists(winners, positives, deltas - todo, 1)
    {
      var k :| k in todo;
      var delta := deltas[k];
      ghost var rest := deltas - (todo - {k});
      assert rest == (deltas - todo)[k := delta];
      ListsSkip(losers, negatives, deltas - todo, -1, k, delta);
      ListsSkip(winners, positives, deltas - todo, 1, k, delta);
      if delta.amount < 0 {
        negatives := negatives + [delta.(amount := -delta.amount)];
        losers := losers + [k];
      } else if delta.amount > 0 {
        positives := positives + [delta];
        winners := winners + [k];
      }
      todo := todo - {k};
    }
    assert deltas - {} == deltas;
  }

  lemma ListsSkip(keys: seq<Key>, list: seq<Delta>, deltas: map<Key, Delta>, sign: int, k: Key, delta: Delta)
    requires Lists(keys, list, deltas, sign) && k !in deltas
    ensures sign * delta.amount <= 0 ==> Lists(keys, list, deltas[k := delta], sign)
    ensures sign * delta.amount > 0 ==>
              Lists(keys + [k], list + [delta.(amount := sign * delta.amount)], deltas[k := delta], sign)
  {
    if sign * delta.amount > 0 {
      var all := keys + [k];
      assert all[|keys|] == k;
      forall x | x in deltas[k := delta] && sign * deltas[k := delta][x].amount > 0
        ensures x in all
      {
        if x != k { assert x in keys; }
      }
    }
  }

  datatype Transaction = Transaction(failed: bool, before: seq<Balance>, after: seq<Balance>)

  /** The change of a token account over the transaction. */
  function Change(t: Transaction, filter: Option<Address>, k: Key): int {
    Held(t.after, filter, k) - Held(t.before, filter, k)
  }

  /** The balance that names the owner and the decimals of a token account: its first used one. */
  function Origin(t: Transaction, filter: Option<Address>, k: Key): (r: Option<Balance>)
    ensures r.Some? ==> r.value.owner.Some? && Key(r.value.account, r.value.mint) == k
  {
    var before := First(t.before, filter, k);
    if before.Some? then before else First(t.after, filter, k)
  }

  /** The entry is the change of the token account, under the owner and decimals that were reported. */
  ghost predicate IsChange(t: Transaction, filter: Option<Address>, k: Key, delta: Delta, sign: int) {
    var origin := Origin(t, filter, k);
    && origin.Some? && sign * Change(t, filter, k) > 0
    && delta == Delta(origin.value.owner.value, k.mint, sign * Change(t, filter, k), origin.value.decimals)
  }

  /** The lists name every changed token account once, with the size of its change. */
  ghost predicate Changes(t: Transaction, filter: Option<Address>, keys: seq<Key>, list: seq<Delta>, sign: int) {
    && |keys| == |list|
    && (forall i, j :: 0 <= i < j < |keys| ==> keys[i] != keys[j])
    && (forall i :: 0 <= i < |keys| ==> IsChange(t, filter, keys[i], list[i], sign))
    && (forall k :: sign * Change(t, filter, k) > 0 ==> k in keys)
  }

  /** The events of a transaction, with the changes they settle. */
  ghost predicate Derived(t: Transaction, filter: Option<Address>, events: seq<Event>,
                          losers: seq<Key>, losses: seq<Delta>, winners: seq<Key>, gains: seq<Delta>,
                          flows: seq<Flow>) {
    && Changes(t, filter, losers, losses, -1) && Changes(t, filter, winners, gains, 1)
    && Reports(losses, gains, flows, events)
    && (forall i :: 0 <= i < |losses| ==> Sent(flows, i) <= losses[i].amount)
    && (forall j :: 0 <= j < |gains| ==> Received(flows, j) <= gains[j].amount)
    && (forall m :: Emitted(events, m) ==
          if Total(losses, m) <= Total(gains, m) then Total(losses, m) else Total(gains, m))
  }

  method DeriveTransfers(transaction: Option<Transaction>, filter: Option<Address>)
    returns (events: seq<Event>, ghost losers: seq<Key>, ghost lost: seq<Delta>, ghost winners: seq<Key>,
             ghost won: seq<Delta>, ghost flows: seq<Flow>)
    ensures transaction.None? || transaction.value.failed ==> events == []
    ensures transaction.Some? && !transaction.value.failed ==>
      Derived(transaction.value, filter, events, losers, lost, winners, won, flows)
  {
    hide *;
    events, losers, lost, winners, won, flows := [], [], [], [], [], [];
    if transaction.None? || transaction.value.failed { return; }
    var t := transaction.value;
    var first := Collect(t.before, -1, filter, map[]);
    var deltas := Collect(t.after, 1, filter, first);
    var negatives, positives;
    negatives, positives := Split(deltas);
    losers :| Lists(losers, negatives, deltas, -1);
    winners :| Lists(winners, positives, deltas, 1);
    lost, won := negatives, positives;
    ListsChanges(t, filter, first, deltas, losers, lost, -1);
    ListsChanges(t, filter, first, deltas, winners, won, 1);
    ChangesSigns(t, filter, losers, lost, -1);
    ChangesSigns(t, filter, winners, won, 1);
    var sources := new Delta[|negatives|](i requires 0 <= i < |negatives| => negatives[i]);
    var targets := new Delta[|positives|](j requires 0 <= j < |positives| => positives[j]);
    assert sources[..] == lost && targets[..] == won;
    events, flows := Match(sources, targets);
    Assemble(t, filter, events, losers, lost, winners, won, flows, sources[..], targets[..]);
  }

  lemma Assemble(t: Transaction, filter: Option<Address>, events: seq<Event>, losers: seq<Key>, lost: seq<Delta>,
                 winners: seq<Key>, won: seq<Delta>, flows: seq<Flow>, left: seq<Delta>, open: seq<Delta>)
    requires Changes(t, filter, losers, lost, -1) && Changes(t, filter, winners, won, 1)
    requires Settled(lost, won, left, open, flows, events)
    requires forall i :: 0 <= i < |left| ==> RowDone(left, open, i, |open|)
    ensures Derived(t, filter, events, losers, lost, winners, won, flows)
  {
    hide Changes, Settled, RowDone, Reports, Emitted, Total, Sent, Received;
    forall m
      ensures Emitted(events, m) == if Total(lost, m) <= Total(won, m) then Total(lost, m) else Total(won, m)
    {
      Conserved(lost, won, left, open, flows, events, m);
    }
    Conserved(lost, won, left, open, flows, events, 0);
  }

  lemma ChangesSigns(t: Transaction, filter: Option<Address>, keys: seq<Key>, list: seq<Delta>, sign: int)
    requires Changes(t, filter, keys, list, sign)
    ensures forall i :: 0 <= i < |list| ==> list[i].amount > 0
  {
  }

  /** Both collections together give the change of every token account. */
  lemma BothCollected(t: Transaction, filter: Option<Address>, first: map<Key, Delta>, deltas: map<Key, Delta>, k: Key)
    requires Collected(t.before, -1, filter, map[], first) && Collected(t.after, 1, filter, first, deltas)
    ensures k in deltas ==>
              var origin := Origin(t, filter, k);
              origin.Some? &&
              deltas[k] == Delta(origin.value.owner.value, k.mint, Change(t, filter, k), origin.value.decimals)
    ensures k !in deltas ==> Change(t, filter, k) == 0
  {
    assert CollectedAt(t.before, -1, filter, map[], first, k);
    assert CollectedAt(t.after, 1, filter, first, deltas, k);
    if First(t.before, filter, k).None? { NotHeld(t.before, filter, k); }
    if First(t.after, filter, k).None? { NotHeld(t.after, filter, k); }
  }

  lemma ListsChanges(t: Transaction, filter: Option<Address>, first: map<Key, Delta>, deltas: map<Key, Delta>,
                     keys: seq<Key>, list: seq<Delta>, sign: int)
    requires Collected(t.before, -1, filter, map[], first) && Collected(t.after, 1, filter, first, deltas)
    requires Lists(keys, list, deltas, sign)
    ensures Changes(t, filter, keys, list, sign)
  {
    hide Collected, Change, Origin;
    forall i | 0 <= i < |keys|
      ensures IsChange(t, filter, keys[i], list[i], sign)
    {
      BothCollected(t, filter, first, deltas, keys[i]);
    }
    forall k | sign * Change(t, filter, k) > 0
      ensures k in keys
    {
      BothCollected(t, filter, first, deltas, k);
    }
  }

  /** The decreases are the accounts that hold less after the transaction than before it, and the gains
      those that hold more, each once and by the difference. */
  lemma ChangedAccounts(t: Transaction, filter: Option<Address>, events: seq<Event>, losers: seq<Key>,
                        losses: seq<Delta>, winners: seq<Key>, gains: seq<Delta>, flows: seq<Flow>)
    requires Derived(t, filter, events, losers, losses, winners, gains, flows)
    ensures |losers| == |losses| && |winners| == |gains|
    ensures forall i :: 0 <= i < |losers| ==>
              && losses[i].amount > 0 && losses[i].mint == losers[i].mint
              && Held(t.after, filter, losers[i]) + losses[i].amount == Held(t.before, filter, losers[i])
    ensures forall j :: 0 <= j < |winners| ==>
              && gains[j].amount > 0 && gains[j].mint == winners[j].mint
              && Held(t.before, filter, winners[j]) + gains[j].amount == Held(t.after, filter, winners[j])
    ensures forall k :: Held(t.after, filter, k) < Held(t.before, filter, k) <==> k in losers
    ensures forall k :: Held(t.after, filter, k) > Held(t.before, filter, k) <==> k in winners
  {
    hide Held, Origin;
    assert forall i :: 0 <= i < |losers| ==> IsChange(t, filter, losers[i], losses[i], -1);
    assert forall j :: 0 <= j < |winners| ==> IsChange(t, filter, winners[j], gains[j], 1);
    forall k
      ensures -1 * Change(t, filter, k) == Held(t.before, filter, k) - Held(t.after, filter, k)
    {
    }
  }

  // ---------- Each owner ----------

  /** The amounts of one owner and mint. */
  function Owned(deltas: seq<Delta>, owner: Address, mint: Address): int {
    if deltas == [] then 0
    else
      var d := deltas[|deltas|-1];
      Owned(deltas[..|deltas|-1], owner, mint) + (if d.owner == owner && d.mint == mint then d.amount else 0)
  }

  function SentBy(events: seq<Event>, owner: Address, mint: Address): nat {
    if events == [] then 0
    else
      var e := events[|events|-1];
      SentBy(events[..|events|-1], owner, mint) + (if e.from == owner && e.mint == mint then e.amount else 0)
  }

  function SentTo(events: seq<Event>, owner: Address, mint: Address): nat {
    if events == [] then 0
    else
      var e := events[|events|-1];
      SentTo(events[..|events|-1], owner, mint) + (if e.to == owner && e.mint == mint then e.amount else 0)
  }

  /** What the flows leave of the changes at one of their ends. */
  function Rest(deltas: seq<Delta>, flows: seq<Flow>, sources: bool): (r: seq<Delta>)
    ensures SameAccounts(r, deltas)
    ensures forall i :: 0 <= i < |r| ==>
              r[i].amount == deltas[i].amount - if sources then Sent(flows, i) else Received(flows, i)
  {
    seq(|deltas|, i requires 0 <= i < |deltas| =>
      deltas[i].(amount := deltas[i].amount - if sources then Sent(flows, i) else Received(flows, i)))
  }

  lemma {:induction false} OwnedUpdate(deltas: seq<Delta>, i: nat, amount: int, owner: Address, mint: Address)
    requires i < |deltas|
    ensures Owned(deltas[i := deltas[i].(amount := amount)], owner, mint) ==
            Owned(deltas, owner, mint)
            + (if deltas[i].owner == owner && deltas[i].mint == mint then amount - deltas[i].amount else 0)
  {
    var n := |deltas| - 1;
    var changed := deltas[i := deltas[i].(amount := amount)];
    if i == n {
      assert changed[..n] == deltas[..n];
    } else {
      assert changed[..n] == deltas[..n][i := deltas[i].(amount := amount)];
      OwnedUpdate(deltas[..n], i, amount, owner, mint);
    }
  }

  /** One more flow takes its amount from the change at its end. */
  lemma RestNext(deltas: seq<Delta>, flows: seq<Flow>, sources: bool, owner: Address, mint: Address)
    requires flows != []
    requires var f := flows[|flows|-1]; (if sources then f.source else f.target) < |deltas|
    ensures var f := flows[|flows|-1];
            var d := deltas[if sources then f.source else f.target];
            var before := Rest(deltas, flows[..|flows|-1], sources);
            && Owned(Rest(deltas, flows, sources), owner, mint) ==
                 Owned(before, owner, mint) - (if d.owner == owner && d.mint == mint then f.amount else 0)
            && Total(Rest(deltas, flows, sources), mint) ==
                 Total(before, mint) - (if d.mint == mint then f.amount else 0)
  {
    var f := flows[|flows|-1];
    var i := if sources then f.source else f.target;
    var before := Rest(deltas, flows[..|flows|-1], sources);
    assert Rest(deltas, flows, sources) == before[i := before[i].(amount := before[i].amount - f.amount)];
    hide Rest, Sent, Received;
    OwnedUpdate(before, i, before[i].amount - f.amount, owner, mint);
    TotalUpdate(before, i, before[i].amount - f.amount, mint);
  }

  /** What is left of an owner's changes is what the events did not report. */
  lemma {:induction false} RestOwned(losses: seq<Delta>, gains: seq<Delta>, flows: seq<Flow>, events: seq<Event>,
                                     owner: Address, mint: Address)
    requires Reports(losses, gains, flows, events)
    ensures Owned(Rest(losses, flows, true), owner, mint) == Owned(losses, owner, mint) - SentBy(events, owner, mint)
    ensures Owned(Rest(gains, flows, false), owner, mint) == Owned(gains, owner, mint) - SentTo(events, owner, mint)
    ensures Total(Rest(losses, flows, true), mint) == Total(losses, mint) - Emitted(events, mint)
    ensures Total(Rest(gains, flows, false), mint) == Total(gains, mint) - Emitted(events, mint)
  {
    if flows == [] {
      assert Rest(losses, [], true) == losses && Rest(gains, [], false) == gains;
    } else {
      var n := |flows| - 1;
      hide Owned, Total, Rest;
      RestOwned(losses, gains, flows[..n], events[..n], owner, mint);
      RestNext(losses, flows, true, owner, mint);
      RestNext(gains, flows, false, owner, mint);
    }
  }

  lemma {:induction false} NothingLeft(deltas: seq<Delta>, owner: Address, mint: Address)
    requires forall i :: 0 <= i < |deltas| ==> deltas[i].amount >= 0
    ensures 0 <= Owned(deltas, owner, mint) <= Total(deltas, mint)
  {
    if deltas != [] { NothingLeft(deltas[..|deltas|-1], owner, mint); }
  }

  /** No owner sends more of a mint than its accounts lost, nor gets more than they gained. Where the
      gains of a mint suffice, every owner sends exactly what it lost; where the losses suffice, every
      owner gets exactly what it gained. */
  lemma OwnersConserved(t: Transaction, filter: Option<Address>, events: seq<Event>, losers: seq<Key>,
                        losses: seq<Delta>, winners: seq<Key>, gains: seq<Delta>, flows: seq<Flow>, owner: Address,
                        mint: Address)
    requires Derived(t, filter, events, losers, losses, winners, gains, flows)
    ensures SentBy(events, owner, mint) <= Owned(losses, owner, mint)
    ensures SentTo(events, owner, mint) <= Owned(gains, owner, mint)
    ensures Total(losses, mint) <= Total(gains, mint) ==> SentBy(events, owner, mint) == Owned(losses, owner, mint)
    ensures Total(gains, mint) <= Total(losses, mint) ==> SentTo(events, owner, mint) == Owned(gains, owner, mint)
  {
    hide Changes, Reports, Owned, Total, SentBy, SentTo, Emitted;
    RestOwned(losses, gains, flows, events, owner, mint);
    NothingLeft(Rest(losses, flows, true), owner, mint);
    NothingLeft(Rest(gains, flows, false), owner, mint);
  }
}
