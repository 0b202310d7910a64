/** Hydration of a scoped transaction frame: the object versions its effects refer to are planned,
    fetched in batches and checked, so that a later decoder finds each of them. */
module ScopedObjects {
  import opened Wrappers
  import opened Counting

  type Address = nat

  const BATCH := 32
  const LIMIT := 512

  datatype OwnerKind = AddressOwner | ObjectOwner | SharedOwner | ImmutableOwner | ConsensusOwner | UnknownOwner

  datatype Owner = Owner(kind: OwnerKind, address: string)

  datatype InputState = InputExists | InputAbsent | InputUnknown

  datatype OutputState = ObjectWrite | PackageWrite | OutputAbsent | AccumulatorWrite | OutputUnknown

  datatype Change = Change(
    id: string, input: InputState, inputVersion: nat, inputDigest: string, inputOwner: Option<Owner>,
    output: OutputState, outputVersion: nat, outputDigest: string, outputOwner: Option<Owner>)

  /** Content of an object as the node returns it; its text may be unprintable or null. */
  datatype Json = Unprintable | NullJson | Json(text: string)

  datatype Fetched = Fetched(id: string, version: nat, digest: string, objectType: string, json: Option<Json>)

  /** One item of a batch answer. */
  datatype Item = NoItem | ErrorItem | ObjectItem(value: Option<Fetched>)

  /** Effects list their changes, each possibly null. */
  datatype Transaction = Transaction(effects: Option<seq<Option<Change>>>, objects: seq<Option<Fetched>>)

  datatype Frame = Frame(cursor: seq<nat>, transaction: Option<Transaction>)

  /** Readers of the texts for addresses and digests. */
  datatype Texts = Texts(address: string -> Option<Address>, digest: string -> Option<nat>)

  // ---------- Planning ----------

  datatype Key = Key(id: string, version: nat)

  datatype Ref = Ref(key: Key, digest: string)

  predicate Writes(c: Change) { c.output.ObjectWrite? || c.output.PackageWrite? }

  /** A replacement by the same owner is described by a reference alone. */
  predicate BeforeReference(c: Change) {
    c.output.ObjectWrite? && c.inputOwner.Some? && c.outputOwner.Some? && c.inputOwner == c.outputOwner
  }

  predicate NeedsBefore(c: Change) { c.input.InputExists? && !BeforeReference(c) }

  predicate OwnerOk(texts: Texts, o: Option<Owner>) {
    o.Some? ==> !o.value.kind.UnknownOwner? && (o.value.kind.ObjectOwner? ==> texts.address(o.value.address).Some?)
  }

  /** The change of an object that is described completely. */
  predicate ChangeOk(texts: Texts, c: Change) {
    && texts.address(c.id).Some?
    && !c.input.InputUnknown? && (c.input.InputExists? ==> c.inputOwner.Some?)
    && (Writes(c) ==> c.outputOwner.Some?)
    && (Writes(c) || c.output.OutputAbsent?)
    && OwnerOk(texts, c.inputOwner) && OwnerOk(texts, c.outputOwner)
  }

  predicate OwnedBy(texts: Texts, parents: set<Address>, o: Option<Owner>)
    requires OwnerOk(texts, o)
  {
    o.Some? && o.value.kind.ObjectOwner? && texts.address(o.value.address).value in parents
  }

  predicate Included(texts: Texts, pool: Address, parents: set<Address>, c: Change)
    requires ChangeOk(texts, c)
  {
    texts.address(c.id).value == pool || OwnedBy(texts, parents, c.inputOwner) || OwnedBy(texts, parents, c.outputOwner)
  }

  /** A change that is not null and, unless it is an accumulator write, complete. */
  predicate EntryOk(texts: Texts, c: Option<Change>) {
    c.Some? && (c.value.output.AccumulatorWrite? || ChangeOk(texts, c.value))
  }

  /** The selected changes, in order. */
  function Selected(texts: Texts, pool: Address, parents: set<Address>, changes: seq<Option<Change>>): (r: seq<Change>)
    requires forall i :: 0 <= i < |changes| ==> EntryOk(texts, changes[i])
    ensures forall i :: 0 <= i < |r| ==> !r[i].output.AccumulatorWrite? && ChangeOk(texts, r[i])
  {
    if changes == [] then []
    else
      var n := |changes| - 1;
      assert EntryOk(texts, changes[n]);
      var c := changes[n].value;
      Selected(texts, pool, parents, changes[..n]) +
      (if !c.output.AccumulatorWrite? && Included(texts, pool, parents, c) then [c] else [])
  }

  /** The object versions that must be fetched for a change. */
  function References(c: Change): seq<Ref> {
    (if NeedsBefore(c) then [Ref(Key(c.id, c.inputVersion), c.inputDigest)] else [])
    + (if Writes(c) then [Ref(Key(c.id, c.outputVersion), c.outputDigest)] else [])
  }

  function AllReferences(selected: seq<Change>): seq<Ref> {
    if selected == [] then []
    else AllReferences(selected[..|selected|-1]) + References(selected[|selected|-1])
  }

  predicate Consistent(refs: seq<Ref>) {
    && (forall i :: 0 <= i < |refs| ==> refs[i].key.version != 0 && refs[i].digest != "")
    && (forall i, j :: 0 <= i < |refs| && 0 <= j < |refs| && refs[i].key == refs[j].key ==>
        refs[i].digest == refs[j].digest)
  }

  function Keys(refs: seq<Ref>): set<Key> { set r | r in refs :: r.key }

  /** The keys of the references, each where it first occurs. */
  function FirstKeys(refs: seq<Ref>): seq<Key> {
    if refs == [] then []
    else
      var before, key := FirstKeys(refs[..|refs|-1]), refs[|refs|-1].key;
      if key in before then before else before + [key]
  }

  /** The digest each key must have. */
  function DigestsOf(refs: seq<Ref>): map<Key, string> {
    if refs == [] then map[] else DigestsOf(refs[..|refs|-1])[refs[|refs|-1].key := refs[|refs|-1].digest]
  }

  /** The requests and expected digests are exactly those of the references. */
  ghost predicate Planned(refs: seq<Ref>, requests: seq<Key>, expected: map<Key, string>) {
    && requests == FirstKeys(refs) && expected == DigestsOf(refs)
    && Consistent(refs) && NoRepeats(requests)
    && (forall k :: k in requests <==> k in Keys(refs))
    && expected.Keys == Keys(refs)
    && (forall r :: r in refs ==> r.key in expected && expected[r.key] == r.digest)
    && |requests| == |Keys(refs)| <= LIMIT
  }

  predicate NoRepeats<T(==)>(s: seq<T>) {
    forall i, j :: 0 <= i < j < |s| ==> s[i] != s[j]
  }

  /** Whether the changes can be planned at all. */
  ghost predicate Plannable(texts: Texts, pool: Address, parents: set<Address>, changes: seq<Option<Change>>) {
    && (forall i :: 0 <= i < |changes| ==> EntryOk(texts, changes[i]))
    && Consistent(AllReferences(Selected(texts, pool, parents, changes)))
    && |Keys(AllReferences(Selected(texts, pool, parents, changes)))| <= LIMIT
  }

  /** Adds a reference to the plan; none when it is invalid, conflicting, or one too many. */
  method Add(ghost refs: seq<Ref>, requests: seq<Key>, expected: map<Key, string>, r: Ref)
    returns (result: Option<(seq<Key>, map<Key, string>)>)
    requires Planned(refs, requests, expected)
    ensures result.Some? <==> Consistent(refs + [r]) && |Keys(refs + [r])| <= 512
    ensures result.Some? ==> Planned(refs + [r], result.value.0, result.value.1)
  {
    hide Consistent, Keys, FirstKeys, DigestsOf;
    ConsistentPlus(refs, r);
    KeysPlus(refs, r);
    FirstPlus(refs, r);
    if r.key.version == 0 || r.digest == "" { return None; }
    if r.key in expected {
      ghost var before := RefOf(refs, r.key);
      assert Keys(refs + [r]) == Keys(refs);
      if expected[r.key] != r.digest {
        assert before in refs && before.key == r.key && before.digest != r.digest;
        return None;
      }
      assert forall q :: q in refs && q.key == r.key ==> q.digest == r.digest;
      return Some((requests, expected));
    }
    assert forall q :: q in refs ==> q.key != r.key;
    if |requests| >= LIMIT { return None; }
    return Some((requests + [r.key], expected[r.key := r.digest]));
  }

  lemma FirstPlus(refs: seq<Ref>, r: Ref)
    ensures FirstKeys(refs + [r]) == FirstKeys(refs) + (if r.key in FirstKeys(refs) then [] else [r.key])
    ensures DigestsOf(refs + [r]) == DigestsOf(refs)[r.key := r.digest]
  {
    assert (refs + [r])[..|refs|] == refs;
  }

  lemma RefOf(refs: seq<Ref>, k: Key) returns (r: Ref)
    requires k in Keys(refs)
    ensures r in refs && r.key == k
  {
    r :| r in refs && r.key == k;
  }

  lemma KeysPlus(refs: seq<Ref>, r: Ref)
    ensures Keys(refs + [r]) == Keys(refs) + {r.key}
    ensures forall q :: q in refs ==> q.key in Keys(refs)
  {
    var all := refs + [r];
    assert all[|refs|] == r;
    assert forall q :: q in all <==> q in refs || q == r;
  }

  lemma ConsistentPlus(refs: seq<Ref>, r: Ref)
    ensures Consistent(refs + [r]) <==>
            && Consistent(refs) && r.key.version != 0 && r.digest != ""
            && forall q :: q in refs && q.key == r.key ==> q.digest == r.digest
  {
    var all := refs + [r];
    assert all[|refs|] == r && forall i :: 0 <= i < |refs| ==> all[i] == refs[i];
    if Consistent(all) {
      forall q | q in refs && q.key == r.key
        ensures q.digest == r.digest
      {
        var i :| 0 <= i < |refs| && refs[i] == q;
        assert all[i].key == all[|refs|].key;
      }
      forall i, j | 0 <= i < |refs| && 0 <= j < |refs| && refs[i].key == refs[j].key
        ensures refs[i].digest == refs[j].digest
      {
        assert all[i].key == all[j].key;
      }
    }
  }

  /** A part of a good list of references is good. */
  lemma PartConsistent(refs: seq<Ref>, more: seq<Ref>)
    requires Consistent(refs + more)
    ensures Consistent(refs) && |Keys(refs)| <= |Keys(refs + more)|
  {
    var all := refs + more;
    assert forall i :: 0 <= i < |refs| ==> all[i] == refs[i];
    assert Keys(refs) <= Keys(all);
    Subset(Keys(refs), Keys(all));
  }

  /** Adds the references of one change. */
  method AddChange(ghost refs: seq<Ref>, requests: seq<Key>, expected: map<Key, string>, c: Change)
    returns (result: Option<(seq<Key>, map<Key, string>)>)
    requires Planned(refs, requests, expected)
    ensures result.Some? <==> Consistent(refs + References(c)) && |Keys(refs + References(c))| <= 512
    ensures result.Some? ==> Planned(refs + References(c), result.value.0, result.value.1)
  {
    hide Planned, Consistent, Keys;
    ghost var first := if NeedsBefore(c) then [Ref(Key(c.id, c.inputVersion), c.inputDigest)] else [];
    ghost var second := if Writes(c) then [Ref(Key(c.id, c.outputVersion), c.outputDigest)] else [];
    assert refs + References(c) == (refs + first) + second;
    if Consistent(refs + first + second) { PartConsistent(refs + first, second); }
    assert refs + [] == refs && (refs + first) + [] == refs + first;
    PlannedGood(refs, requests, expected);
    var asked, known := requests, expected;
    if NeedsBefore(c) {
      var added := Add(refs, asked, known, Ref(Key(c.id, c.inputVersion), c.inputDigest));
      if added.None? { return None; }
      asked, known := added.value.0, added.value.1;
      PlannedGood(refs + first, asked, known);
    }
    if Writes(c) {
      var added := Add(refs + first, asked, known, Ref(Key(c.id, c.outputVersion), c.outputDigest));
      if added.None? { return None; }
      asked, known := added.value.0, added.value.1;
      PlannedGood(refs + first + second, asked, known);
    }
    return Some((asked, known));
  }

  lemma PlannedGood(refs: seq<Ref>, requests: seq<Key>, expected: map<Key, string>)
    requires Planned(refs, requests, expected)
    ensures Consistent(refs) && |Keys(refs)| <= 512
  {
  }

  /** The first changes of a plannable list are plannable. */
  lemma {:induction false} PlannablePart(texts: Texts, pool: Address, parents: set<Address>,
                                         changes: seq<Option<Change>>, n: nat)
    requires Plannable(texts, pool, parents, changes) && n <= |changes|
    ensures Plannable(texts, pool, parents, changes[..n])
    decreases |changes|
  {
    if n == |changes| {
      assert changes[..n] == changes;
    } else {
      var last := |changes| - 1;
      assert EntryOk(texts, changes[last]);
      var c := changes[last].value;
      var before := Selected(texts, pool, parents, changes[..last]);
      if !c.output.AccumulatorWrite? && Included(texts, pool, parents, c) {
        assert (before + [c])[..|before|] == before;
        PartConsistent(AllReferences(before), References(c));
      } else {
        assert before + [] == before;
      }
      PlannablePart(texts, pool, parents, changes[..last], n);
      assert changes[..last][..n] == changes[..n];
    }
  }

  /** One more change, as far as it is selected. */
  lemma SelectedNext(texts: Texts, pool: Address, parents: set<Address>, changes: seq<Option<Change>>, i: nat)
    requires i < |changes| && EntryOk(texts, changes[i]) && forall k :: 0 <= k < i ==> EntryOk(texts, changes[k])
    ensures forall k :: 0 <= k < i ==> EntryOk(texts, changes[..i][k])
    ensures var (before, c) := (Selected(texts, pool, parents, changes[..i]), changes[i].value);
            var kept := !c.output.AccumulatorWrite? && Included(texts, pool, parents, c);
            && Selected(texts, pool, parents, changes[..i+1]) == (if kept then before + [c] else before)
            && AllReferences(before + [c]) == AllReferences(before) + References(c)
  {
    assert changes[..i+1][..i] == changes[..i] && changes[..i+1][i] == changes[i];
    var (before, c) := (Selected(texts, pool, parents, changes[..i]), changes[i].value);
    assert (before + [c])[..|before|] == before;
  }

  lemma NotPlannable(texts: Texts, pool: Address, parents: set<Address>, changes: seq<Option<Change>>, i: nat)
    requires i < |changes| && forall k :: 0 <= k < i ==> EntryOk(texts, changes[k])
    ensures !EntryOk(texts, changes[i]) ==> !Plannable(texts, pool, parents, changes)
    ensures EntryOk(texts, changes[i]) ==>
              var refs := AllReferences(Selected(texts, pool, parents, changes[..i+1]));
              !(Consistent(refs) && |Keys(refs)| <= 512) ==> !Plannable(texts, pool, parents, changes)
  {
    hide Consistent, Keys, EntryOk;
    if Plannable(texts, pool, parents, changes) { PlannablePart(texts, pool, parents, changes, i + 1); }
  }

  lemma IsPlannable(texts: Texts, pool: Address, parents: set<Address>, changes: seq<Option<Change>>)
    requires forall k :: 0 <= k < |changes| ==> EntryOk(texts, changes[k])
    requires var refs := AllReferences(Selected(texts, pool, parents, changes)); Consistent(refs) && |Keys(refs)| <= 512
    ensures Plannable(texts, pool, parents, changes)
  {
  }

  /** Plans the fetches of a transaction; fails exactly when the changes are not plannable. */
  method Plan(texts: Texts, pool: Address, parents: set<Address>, changes: seq<Option<Change>>)
    returns (result: Option<(seq<Change>, seq<Key>, map<Key, string>)>)
    ensures result.Some? <==> Plannable(texts, pool, parents, changes)
    ensures result.Some? ==>
      && result.value.0 == Selected(texts, pool, parents, changes)
      && Planned(AllReferences(result.value.0), result.value.1, result.value.2)
  {
    hide Planned, Consistent, Keys, References, Included, ChangeOk, Plannable, Selected, AllReferences;
    var selected: seq<Change>, requests: seq<Key>, expected: map<Key, string> := [], [], map[];
    PlannedNothing();
    for i := 0 to |changes|
      invariant forall k :: 0 <= k < i ==> EntryOk(texts, changes[k])
      invariant selected == Selected(texts, pool, parents, changes[..i])
      invariant Planned(AllReferences(selected), requests, expected)
    {
      NotPlannable(texts, pool, parents, changes, i);
      var entry := changes[i];
      if entry.None? { return None; }
      var c := entry.value;
      if c.output.AccumulatorWrite? {
        SelectedNext(texts, pool, parents, changes, i);
        continue;
      }
      if !ChangeOk(texts, c) { return None; }
      SelectedNext(texts, pool, parents, changes, i);
      if !Included(texts, pool, parents, c) { continue; }
      var added := AddChange(AllReferences(selected), requests, expected, c);
      selected := selected + [c];
      if added.None? { return None; }
      requests, expected := added.value.0, added.value.1;
    }
    assert changes[..|changes|] == changes;
    PlannedGood(AllReferences(selected), requests, expected);
    IsPlannable(texts, pool, parents, changes);
    return Some((selected, requests, expected));
  }

  lemma PlannedNothing()
    ensures Planned(AllReferences([]), [], map[])
    ensures forall texts, pool, parents :: Selected(texts, pool, parents, []) == []
  {
    assert Keys([]) == {};
  }

  // ---------- The rules written out ----------

  /** The owner is an object of the given set. */
  predicate ObjectIn(texts: Texts, parents: set<Address>, o: Option<Owner>) {
    o.Some? && o.value.kind == ObjectOwner && texts.address(o.value.address).Some?
    && texts.address(o.value.address).value in parents
  }

  /** A change is selected exactly when it is no accumulator write and is of the pool itself, or of an
      object that one of the parents owns before or after it. */
  lemma SelectedRule(texts: Texts, pool: Address, parents: set<Address>, changes: seq<Option<Change>>, c: Change)
    requires (forall i :: 0 <= i < |changes| ==> EntryOk(texts, changes[i])) && EntryOk(texts, Some(c))
    ensures Selected(texts, pool, parents, []) == []
    ensures Selected(texts, pool, parents, changes + [Some(c)]) ==
            Selected(texts, pool, parents, changes) +
            (if c.output != AccumulatorWrite
                && (texts.address(c.id) == Some(pool) || ObjectIn(texts, parents, c.inputOwner)
                    || ObjectIn(texts, parents, c.outputOwner))
             then [c] else [])
  {
    var all := changes + [Some(c)];
    assert all[..|changes|] == changes && all[|changes|] == Some(c);
  }

  /** A change refers to its object before it, unless it is created or replaced by its owner, and to its
      object after it, if one is written. */
  lemma ReferencesRule(c: Change)
    ensures
      var before := Ref(Key(c.id, c.inputVersion), c.inputDigest);
      var after := Ref(Key(c.id, c.outputVersion), c.outputDigest);
      var replaced := c.output == ObjectWrite && c.inputOwner.Some? && c.inputOwner == c.outputOwner;
      var writes := c.output == ObjectWrite || c.output == PackageWrite;
      References(c) == (if c.input == InputExists && !replaced then [before] else []) + (if writes then [after] else [])
  {
  }

  predicate KnownOwner(texts: Texts, o: Option<Owner>) {
    o.Some? ==> o.value.kind != UnknownOwner && (o.value.kind == ObjectOwner ==> texts.address(o.value.address).Some?)
  }

  /** Which transactions can be planned: no change is null; each that is no accumulator write has an
      address, known states, owners where it has objects, and owners of known kinds; every reference
      has a version and a digest, one version has one digest, and there are at most 512 versions. */
  lemma PlannableRule(texts: Texts, pool: Address, parents: set<Address>, changes: seq<Option<Change>>)
    ensures Plannable(texts, pool, parents, changes) <==>
            && (forall i :: 0 <= i < |changes| ==> EntryOk(texts, changes[i]))
            && var refs := AllReferences(Selected(texts, pool, parents, changes));
               && (forall r :: r in refs ==> r.key.version != 0 && r.digest != "")
               && (forall r, q :: r in refs && q in refs && r.key == q.key ==> r.digest == q.digest)
               && |set r | r in refs :: r.key| <= 512
    ensures forall i :: 0 <= i < |changes| ==>
              (EntryOk(texts, changes[i]) <==>
               && changes[i].Some?
               && var c := changes[i].value;
                  c.output == AccumulatorWrite ||
                  (&& texts.address(c.id).Some? && (c.input == InputExists || c.input == InputAbsent)
                   && (c.input == InputExists ==> c.inputOwner.Some?)
                   && (c.output == ObjectWrite || c.output == PackageWrite || c.output == OutputAbsent)
                   && (c.output != OutputAbsent ==> c.outputOwner.Some?)
                   && KnownOwner(texts, c.inputOwner) && KnownOwner(texts, c.outputOwner)))
  {
    hide Selected, AllReferences;
    if forall i :: 0 <= i < |changes| ==> EntryOk(texts, changes[i]) {
      ConsistentRule(AllReferences(Selected(texts, pool, parents, changes)));
    }
  }

  lemma ConsistentRule(refs: seq<Ref>)
    ensures Consistent(refs) <==>
            && (forall r :: r in refs ==> r.key.version != 0 && r.digest != "")
            && (forall r, q :: r in refs && q in refs && r.key == q.key ==> r.digest == q.digest)
  {
    if Consistent(refs) {
      forall r, q | r in refs && q in refs && r.key == q.key
        ensures r.digest == q.digest
      {
        var i :| 0 <= i < |refs| && refs[i] == r;
        var j :| 0 <= j < |refs| && refs[j] == q;
      }
    }
  }

  // ---------- Fetching ----------

  /** What the node answers to its n-th batch, if it answers. */
  type Replies = (nat, seq<Key>) -> Option<seq<Item>>

  /** The node and the caller's context. The replies may be any function of the number of the batch
      and its keys; the context may be cancelled at any time, and stays so. */
  class Node {
    const replies: Replies
    var asked: seq<seq<Key>>
    var cancelled: bool

    constructor (replies: Replies)
      ensures this.replies == replies && asked == [] && !cancelled
    {
      this.replies := replies;
      asked, cancelled := [], false;
    }

    method Ask(chunk: seq<Key>) returns (items: Option<seq<Item>>)
      modifies this`asked
      ensures asked == old(asked) + [chunk] && items == replies(|old(asked)|, chunk)
    {
      items := replies(|asked|, chunk);
      asked := asked + [chunk];
    }

    method Look() returns (r: bool)
      modifies this`cancelled
      ensures r == cancelled && (old(cancelled) ==> cancelled)
    {
      var now: bool := *;
      cancelled := cancelled || now;
      r := cancelled;
    }
  }

  /** The number of batches of 32, and the keys of each. */
  function Count(requests: seq<Key>): (n: nat)
    ensures 32 * n - 32 < |requests| <= 32 * n
  {
    (|requests| + BATCH - 1) / BATCH
  }

  function Chunk(requests: seq<Key>, i: nat): (r: seq<Key>)
    requires i < Count(requests)
    ensures |r| == if 32 * i + 32 <= |requests| then 32 else |requests| - 32 * i
    ensures forall j :: 0 <= j < |r| ==> r[j] == requests[32 * i + j]
  {
    requests[i * BATCH..if (i + 1) * BATCH < |requests| then (i + 1) * BATCH else |requests|]
  }

  function Chunks(requests: seq<Key>, n: nat): seq<seq<Key>>
    requires n <= Count(requests)
  {
    seq(n, i requires 0 <= i < n => Chunk(requests, i))
  }

  function KeyOf(o: Fetched): Key { Key(o.id, o.version) }

  /** The objects are the requested versions, each once, with the expected digest. */
  ghost predicate Match(objects: seq<Fetched>, requests: seq<Key>, expected: map<Key, string>) {
    && |objects| == |requests|
    && Expected(objects, expected)
    && (forall i :: 0 <= i < |objects| ==> KeyOf(objects[i]) in requests)
    && (forall k :: k in requests ==> HasKey(objects, k))
  }

  predicate Present(items: seq<Item>) {
    forall i :: 0 <= i < |items| ==> items[i].ObjectItem? && items[i].value.Some?
  }

  function Objects(items: seq<Item>): (r: seq<Fetched>)
    requires Present(items)
    ensures |r| == |items| && forall i :: 0 <= i < |r| ==> r[i] == items[i].value.value
  {
    seq(|items|, i requires 0 <= i < |items| => items[i].value.value)
  }

  /** As many distinct keys as requests, all requests among them: nothing else fits. */
  lemma NothingElse(keys: set<Key>, requests: seq<Key>)
    requires NoRepeats(requests) && |keys| == |requests| && forall i :: 0 <= i < |requests| ==> requests[i] in keys
    ensures forall k :: k in keys ==> k in requests
  {
    var asked := set k | k in requests;
    DistinctCount(requests);
    Subset(asked, keys);
  }

  lemma {:induction false} DistinctCount(requests: seq<Key>)
    requires NoRepeats(requests)
    ensures |set k | k in requests| == |requests|
  {
    if requests != [] {
      var n := |requests| - 1;
      DistinctCount(requests[..n]);
      assert (set k | k in requests) == (set k | k in requests[..n]) + {requests[n]};
    }
  }

  /** The objects are expected, and no version occurs twice. */
  ghost predicate Expected(objects: seq<Fetched>, expected: map<Key, string>) {
    && (forall i :: 0 <= i < |objects| ==>
          KeyOf(objects[i]) in expected && objects[i].digest == expected[KeyOf(objects[i])])
    && (forall i, j :: 0 <= i < j < |objects| ==> KeyOf(objects[i]) != KeyOf(objects[j]))
  }

  ghost predicate HasKey(objects: seq<Fetched>, k: Key) {
    exists i :: 0 <= i < |objects| && KeyOf(objects[i]) == k
  }

  lemma ExpectedPlus(objects: seq<Fetched>, o: Fetched, expected: map<Key, string>)
    ensures Expected(objects + [o], expected) <==>
            && Expected(objects, expected) && KeyOf(o) in expected && o.digest == expected[KeyOf(o)]
              && !HasKey(objects, KeyOf(o))
    ensures forall k :: HasKey(objects + [o], k) <==> HasKey(objects, k) || k == KeyOf(o)
  {
    var all := objects + [o];
    assert all[|objects|] == o && forall i :: 0 <= i < |objects| ==> all[i] == objects[i];
    forall k
      ensures HasKey(all, k) <==> HasKey(objects, k) || k == KeyOf(o)
    {
      if HasKey(objects, k) {
        var i :| 0 <= i < |objects| && KeyOf(objects[i]) == k;
        assert KeyOf(all[i]) == k;
      }
      if k == KeyOf(o) { assert KeyOf(all[|objects|]) == k; }
    }
  }

  lemma {:induction false} ExpectedPart(objects: seq<Fetched>, n: nat, expected: map<Key, string>)
    requires Expected(objects, expected) && n <= |objects|
    ensures Expected(objects[..n], expected)
  {
  }

  /** Collects the items, each an expected version that was not seen before. */
  method Collect(items: seq<Item>, expected: map<Key, string>) returns (found: Option<seq<Fetched>>, seen: set<Key>)
    ensures found.Some? <==> Present(items) && Expected(Objects(items), expected)
    ensures found.Some? ==>
              found.value == Objects(items) && |seen| == |items| && forall k :: k in seen <==> HasKey(found.value, k)
  {
    hide Expected, HasKey;
    seen := {};
    var all: seq<Fetched> := [];
    NothingExpected(expected);
    for i := 0 to |items|
      invariant Present(items[..i]) && all == Objects(items[..i])
      invariant |seen| == i && forall k :: k in seen <==> HasKey(all, k)
      invariant Expected(all, expected)
    {
      if !items[i].ObjectItem? || items[i].value.None? { return None, {}; }
      var o := items[i].value.value;
      assert items[..i+1] == items[..i] + [items[i]];
      assert Objects(items[..i+1]) == all + [o];
      ExpectedPlus(all, o, expected);
      if KeyOf(o) !in expected || o.digest != expected[KeyOf(o)] || KeyOf(o) in seen {
        if Present(items) {
          assert Objects(items)[..i+1] == all + [o];
          if Expected(Objects(items), expected) { ExpectedPart(Objects(items), i + 1, expected); }
        }
        return None, {};
      }
      seen := seen + {KeyOf(o)};
      all := all + [o];
    }
    assert items[..|items|] == items;
    return Some(all), seen;
  }

  lemma NothingExpected(expected: map<Key, string>)
    ensures Expected([], expected) && forall k :: !HasKey([], k)
  {
  }

  /** Accepts the answer to one batch exactly when it holds the requested versions, each once. */
  method CheckBatch(items: seq<Item>, chunk: seq<Key>, expected: map<Key, string>)
    returns (objects: Option<seq<Fetched>>)
    requires NoRepeats(chunk) && forall k :: k in chunk ==> k in expected
    ensures objects.Some? <==> Present(items) && Match(Objects(items), chunk, expected)
    ensures objects.Some? ==> objects.value == Objects(items)
  {
    if |items| != |chunk| { return None; }
    var found, seen := Collect(items, expected);
    if found.None? { return None; }
    for i := 0 to |chunk|
      invariant forall k :: 0 <= k < i ==> chunk[k] in seen
    {
      if chunk[i] !in seen {
        assert chunk[i] in chunk && !HasKey(found.value, chunk[i]);
        return None;
      }
    }
    NothingElse(seen, chunk);
    forall i | 0 <= i < |found.value|
      ensures KeyOf(found.value[i]) in chunk
    {
      assert HasKey(found.value, KeyOf(found.value[i]));
    }
    return found;
  }

  // ---------- Hydration ----------

  /** The objects are exactly the referenced versions, each once, with the digest its reference gives. */
  ghost predicate Exactly(objects: seq<Fetched>, refs: seq<Ref>) {
    && (forall i, j :: 0 <= i < j < |objects| ==> KeyOf(objects[i]) != KeyOf(objects[j]))
    && (forall i :: 0 <= i < |objects| ==> Ref(KeyOf(objects[i]), objects[i].digest) in refs)
    && (forall r :: r in refs ==>
          exists i :: 0 <= i < |objects| && KeyOf(objects[i]) == r.key && objects[i].digest == r.digest)
  }

  function Entries<T>(s: seq<T>): (r: seq<Option<T>>)
    ensures |r| == |s| && forall i :: 0 <= i < |r| ==> r[i] == Some(s[i])
  {
    seq(|s|, i requires 0 <= i < |s| => Some(s[i]))
  }

  /** The transaction keeps its selected changes and holds exactly the objects they refer to. */
  ghost predicate Hydrated(texts: Texts, pool: Address, parents: set<Address>, before: Transaction,
                           after: Transaction) {
    && before.effects.Some? && Plannable(texts, pool, parents, before.effects.value)
    && var selected := Selected(texts, pool, parents, before.effects.value);
    && after.effects == Some(Entries(selected))
    && exists objects :: after.objects == Entries(objects) && Exactly(objects, AllReferences(selected))
  }

  lemma MatchJoin(a: seq<Fetched>, some: seq<Key>, b: seq<Fetched>, more: seq<Key>, expected: map<Key, string>)
    requires Match(a, some, expected) && Match(b, more, expected) && NoRepeats(some + more)
    ensures Match(a + b, some + more, expected)
  {
    var all, keys := a + b, some + more;
    assert forall i :: 0 <= i < |some| ==> keys[i] == some[i];
    assert forall i :: 0 <= i < |more| ==> keys[|some| + i] == more[i];
    forall i, j | 0 <= i < j < |all|
      ensures KeyOf(all[i]) != KeyOf(all[j])
    {
      if i < |a| <= j {
        var x :| 0 <= x < |some| && some[x] == KeyOf(a[i]);
        var y :| 0 <= y < |more| && more[y] == KeyOf(b[j - |a|]);
        assert keys[x] != keys[|some| + y];
      }
    }
    forall k | k in keys
      ensures HasKey(all, k)
    {
      if k in some {
        var i :| 0 <= i < |a| && KeyOf(a[i]) == k;
        assert KeyOf(all[i]) == k;
      } else {
        var i :| 0 <= i < |b| && KeyOf(b[i]) == k;
        assert KeyOf(all[|a| + i]) == k;
      }
    }
  }

  lemma MatchExactly(objects: seq<Fetched>, refs: seq<Ref>, requests: seq<Key>, expected: map<Key, string>)
    requires Planned(refs, requests, expected) && Match(objects, requests, expected)
    ensures Exactly(objects, refs)
  {
    forall i | 0 <= i < |objects|
      ensures Ref(KeyOf(objects[i]), objects[i].digest) in refs
    {
      var r := RefOf(refs, KeyOf(objects[i]));
      assert expected[r.key] == r.digest;
    }
    forall r | r in refs
      ensures exists i :: 0 <= i < |objects| && KeyOf(objects[i]) == r.key && objects[i].digest == r.digest
    {
      assert r.key in requests;
      var i :| 0 <= i < |objects| && KeyOf(objects[i]) == r.key;
    }
  }

  /** The reply to a batch holds the requested versions, each once, with the expected digests. */
  ghost predicate Accepts(chunk: seq<Key>, expected: map<Key, string>, reply: Option<seq<Item>>) {
    reply.Some? && Present(reply.value) && Match(Objects(reply.value), chunk, expected)
  }

  predicate FirstAt(refs: seq<Ref>, k: Key, p: int) {
    0 <= p < |refs| && refs[p].key == k && forall q :: 0 <= q < p ==> refs[q].key != k
  }

  /** The keys are requested in the order in which they are first referred to, each once. */
  lemma {:induction false} KeysInOrder(refs: seq<Ref>)
    ensures forall k :: k in FirstKeys(refs) <==> exists r :: r in refs && r.key == k
    ensures forall i, j, p, q :: (0 <= i < j < |FirstKeys(refs)| && FirstAt(refs, FirstKeys(refs)[i], p)
                                  && FirstAt(refs, FirstKeys(refs)[j], q)) ==> p < q
  {
    if refs != [] {
      var n := |refs| - 1;
      var (before, key) := (FirstKeys(refs[..n]), refs[n].key);
      KeysInOrder(refs[..n]);
      assert forall r :: r in refs <==> r in refs[..n] || r == refs[n];
      forall k, p | FirstAt(refs, k, p) && k in before
        ensures p < n && FirstAt(refs[..n], k, p)
      {
        var r :| r in refs[..n] && r.key == k;
        var m :| 0 <= m < n && refs[..n][m] == r;
        assert refs[m].key == k;
      }
      forall i, j, p, q | 0 <= i < j < |FirstKeys(refs)| && FirstAt(refs, FirstKeys(refs)[i], p)
                          && FirstAt(refs, FirstKeys(refs)[j], q)
        ensures p < q
      {
        if key !in before && j == |before| {
          assert FirstKeys(refs)[i] == before[i] && FirstKeys(refs)[i] in before;
        } else {
          assert FirstKeys(refs)[i] == before[i] && FirstKeys(refs)[j] == before[j];
          assert before[i] in before && before[j] in before;
        }
      }
    }
  }

  /** Which replies to a batch are accepted: as many results as keys, each an object with a requested
      key and the digest expected for it, no key twice, and every key among them. */
  lemma AcceptRule(chunk: seq<Key>, expected: map<Key, string>, reply: Option<seq<Item>>)
    ensures Accepts(chunk, expected, reply) <==>
            && reply.Some? && |reply.value| == |chunk|
            && (forall i :: 0 <= i < |reply.value| ==> reply.value[i].ObjectItem? && reply.value[i].value.Some?)
            && var objects := seq(|chunk|, i requires 0 <= i < |chunk| => reply.value[i].value.value);
               && (forall o :: o in objects ==>
                     && Key(o.id, o.version) in chunk && Key(o.id, o.version) in expected
                     && expected[Key(o.id, o.version)] == o.digest)
               && (forall i, j :: 0 <= i < j < |objects| ==>
                     objects[i].id != objects[j].id || objects[i].version != objects[j].version)
               && (forall k :: k in chunk ==> exists o :: o in objects && k == Key(o.id, o.version))
  {
    if reply.Some? && Present(reply.value) && |reply.value| == |chunk| {
      var objects := seq(|chunk|, i requires 0 <= i < |chunk| => reply.value[i].value.value);
      assert Objects(reply.value) == objects;
      assert forall i :: 0 <= i < |objects| ==> objects[i] in objects;
      forall k
        ensures HasKey(objects, k) <==> exists o :: o in objects && k == Key(o.id, o.version)
      {
        if o :| o in objects && k == Key(o.id, o.version) {
          var i :| 0 <= i < |objects| && objects[i] == o;
          assert KeyOf(objects[i]) == k;
        }
      }
    }
  }

  ghost predicate AcceptsAt(replies: Replies, start: nat, requests: seq<Key>, expected: map<Key, string>, i: nat)
    requires i < Count(requests)
  {
    Accepts(Chunk(requests, i), expected, replies(start + i, Chunk(requests, i)))
  }

  /** The objects of a reply. */
  function ObjectsIn(reply: Option<seq<Item>>): seq<Fetched> {
    if reply.Some? && Present(reply.value) then Objects(reply.value) else []
  }

  /** The objects of the replies to the first batches, in their order. */
  function Contents(replies: Replies, start: nat, requests: seq<Key>, n: nat): seq<Fetched>
    requires n <= Count(requests)
  {
    if n == 0 then []
    else
      Contents(replies, start, requests, n - 1) + ObjectsIn(replies(start + n - 1, Chunk(requests, n - 1)))
  }

  /** Fetches all requested versions, batch by batch, up to the first reply that is refused. The
      objects are those of the replies, in the order of the batches. */
  method FetchAll(node: Node, ghost refs: seq<Ref>, requests: seq<Key>, expected: map<Key, string>)
    returns (objects: Option<seq<Fetched>>, ghost n: nat)
    requires Planned(refs, requests, expected)
    modifies node`asked
    ensures n <= Count(requests) && node.asked == old(node.asked) + Chunks(requests, n)
    ensures forall i :: 0 <= i < n - (if objects.None? then 1 else 0) ==>
              AcceptsAt(node.replies, |old(node.asked)|, requests, expected, i)
    ensures objects.None? ==> n > 0 && !AcceptsAt(node.replies, |old(node.asked)|, requests, expected, n - 1)
    ensures objects.Some? ==> n == Count(requests)
    ensures objects.Some? ==> objects.value == Contents(node.replies, |old(node.asked)|, requests, n)
    ensures objects.Some? ==> Exactly(objects.value, refs)
  {
    hide Match, Exactly, Accepts, Planned, Contents, Chunk, Chunks, ObjectsIn, Present;
    var all: seq<Fetched> := [];
    ghost var begun := |node.asked|;
    n := 0;
    var start := 0;
    NothingMatches(expected);
    NoChunks(node.replies, begun, requests);
    while start < |requests|
      invariant n <= Count(requests) && start == if n * BATCH < |requests| then n * BATCH else |requests|
      invariant node.asked == old(node.asked) + Chunks(requests, n)
      invariant forall i :: 0 <= i < n ==> AcceptsAt(node.replies, begun, requests, expected, i)
      invariant all == Contents(node.replies, begun, requests, n)
      invariant Match(all, requests[..start], expected)
    {
      var next := if start + BATCH < |requests| then start + BATCH else |requests|;
      var chunk := requests[start..next];
      NextChunk(node.replies, begun, requests, n);
      var answer := node.Ask(chunk);
      n := n + 1;
      AcceptsWhen(chunk, expected, answer);
      PlannedChunk(refs, requests, expected, start, next);
      if answer.None? { return None, n; }
      var batch := CheckBatch(answer.value, chunk, expected);
      if batch.None? { return None, n; }
      MatchJoin(all, requests[..start], batch.value, chunk, expected);
      all := all + batch.value;
      start := next;
    }
    assert requests[..|requests|] == requests;
    MatchExactly(all, refs, requests, expected);
    return Some(all), n;
  }

  lemma NoChunks(replies: Replies, start: nat, requests: seq<Key>)
    ensures Chunks(requests, 0) == [] && Contents(replies, start, requests, 0) == []
  {
  }

  /** The next batch is asked for with one more call, and its objects come after the others. */
  lemma NextChunk(replies: Replies, start: nat, requests: seq<Key>, n: nat)
    requires n * BATCH < |requests|
    ensures n < Count(requests) && |Chunks(requests, n)| == n
    ensures Chunk(requests, n) ==
            requests[n * BATCH..if n * BATCH + BATCH < |requests| then n * BATCH + BATCH else |requests|]
    ensures Chunks(requests, n + 1) == Chunks(requests, n) + [Chunk(requests, n)]
    ensures Contents(replies, start, requests, n + 1) ==
            Contents(replies, start, requests, n) + ObjectsIn(replies(start + n, Chunk(requests, n)))
  {
  }

  /** A batch of a plan asks for nothing twice, and for nothing that was asked for before. */
  lemma PlannedChunk(refs: seq<Ref>, requests: seq<Key>, expected: map<Key, string>, start: nat, next: nat)
    requires Planned(refs, requests, expected) && start <= next <= |requests|
    ensures NoRepeats(requests[start..next]) && forall k :: k in requests[start..next] ==> k in expected
    ensures requests[..start] + requests[start..next] == requests[..next] && NoRepeats(requests[..next])
  {
    assert forall k :: k in requests[start..next] ==> k in requests;
  }

  lemma AcceptsWhen(chunk: seq<Key>, expected: map<Key, string>, reply: Option<seq<Item>>)
    ensures Accepts(chunk, expected, reply) <==>
            reply.Some? && Present(reply.value) && Match(Objects(reply.value), chunk, expected)
    ensures Accepts(chunk, expected, reply) ==> ObjectsIn(reply) == Objects(reply.value)
  {
  }

  lemma NothingMatches(expected: map<Key, string>)
    ensures Match([], [], expected)
  {
  }

  /** The batches of a plannable transaction. */
  ghost function Requests(texts: Texts, pool: Address, parents: set<Address>, changes: seq<Option<Change>>): seq<Key>
    requires Plannable(texts, pool, parents, changes)
  {
    FirstKeys(AllReferences(Selected(texts, pool, parents, changes)))
  }

  /** The node answers all batches with what they ask for. */
  ghost predicate Answered(texts: Texts, pool: Address, parents: set<Address>, changes: seq<Option<Change>>,
                           replies: Replies, start: nat)
    requires Plannable(texts, pool, parents, changes)
  {
    var refs := AllReferences(Selected(texts, pool, parents, changes));
    var requests := Requests(texts, pool, parents, changes);
    forall i :: 0 <= i < Count(requests) ==> AcceptsAt(replies, start, requests, DigestsOf(refs), i)
  }

  /** The transaction with its selected changes and the objects of the replies. */
  ghost function Filled(texts: Texts, pool: Address, parents: set<Address>, changes: seq<Option<Change>>,
                        replies: Replies, start: nat): Transaction
    requires Plannable(texts, pool, parents, changes)
  {
    var requests := Requests(texts, pool, parents, changes);
    Transaction(Some(Entries(Selected(texts, pool, parents, changes))),
                Entries(Contents(replies, start, requests, Count(requests))))
  }

  lemma NotAnswered(texts: Texts, pool: Address, parents: set<Address>, changes: seq<Option<Change>>,
                    replies: Replies, start: nat, i: nat)
    requires Plannable(texts, pool, parents, changes)
    requires var refs := AllReferences(Selected(texts, pool, parents, changes));
             i < Count(FirstKeys(refs)) && !AcceptsAt(replies, start, FirstKeys(refs), DigestsOf(refs), i)
    ensures !Answered(texts, pool, parents, changes, replies, start)
  {
    hide Plannable, AcceptsAt, FirstKeys, DigestsOf;
    PlannableEntries(texts, pool, parents, changes);
    var refs := AllReferences(Selected(texts, pool, parents, changes));
    assert !AcceptsAt(replies, start, Requests(texts, pool, parents, changes), DigestsOf(refs), i);
  }

  /** Why a frame is refused, apart from a cancellation: it has no cursor, its changes cannot be
      planned, or the node does not answer some batch with what it asks for. */
  ghost predicate Refused(texts: Texts, pool: Address, parents: set<Address>, response: Option<Frame>,
                          replies: Replies, start: nat) {
    || response.None? || response.value.cursor == []
    || (response.value.transaction.Some? && TransactionRefused(texts, pool, parents, response.value.transaction.value,
                                                                replies, start))
  }

  ghost predicate TransactionRefused(texts: Texts, pool: Address, parents: set<Address>, t: Transaction,
                                     replies: Replies, start: nat) {
    || t.effects.None? || !Plannable(texts, pool, parents, t.effects.value)
    || !Answered(texts, pool, parents, t.effects.value, replies, start)
  }

  /** Hydrates a transaction: it keeps its selected changes and holds the objects of the replies to its
      batches, each asked for once. */
  method HydrateTransaction(node: Node, texts: Texts, pool: Address, parents: set<Address>, t: Transaction)
    returns (r: Option<Transaction>)
    modifies node
    ensures old(node.cancelled) ==> node.cancelled
    ensures r.None? ==>
              node.cancelled || TransactionRefused(texts, pool, parents, t, node.replies, |old(node.asked)|)
    ensures r.Some? ==>
              && !TransactionRefused(texts, pool, parents, t, node.replies, |old(node.asked)|)
              && r.value == Filled(texts, pool, parents, t.effects.value, node.replies, |old(node.asked)|)
              && Hydrated(texts, pool, parents, t, r.value)
              && var requests := Requests(texts, pool, parents, t.effects.value);
                 node.asked == old(node.asked) + Chunks(requests, Count(requests))
  {
    hide Plannable, Exactly, Planned, Consistent, Keys, AcceptsAt, Chunks, FirstKeys, DigestsOf, Contents, EntryOk;
    ghost var start := |node.asked|;
    if t.effects.None? { return None; }
    var plan := Plan(texts, pool, parents, t.effects.value);
    if plan.None? { return None; }
    var selected := plan.value.0;
    PlannableEntries(texts, pool, parents, t.effects.value);
    PlannedParts(AllReferences(selected), plan.value.1, plan.value.2);
    var objects;
    ghost var n;
    objects, n := FetchAll(node, AllReferences(selected), plan.value.1, plan.value.2);
    if objects.None? {
      NotAnswered(texts, pool, parents, t.effects.value, node.replies, start, n - 1);
      return None;
    }
    var cancelled := node.Look();
    if cancelled { return None; }
    r := Some(Transaction(Some(Entries(selected)), Entries(objects.value)));
    IsHydrated(texts, pool, parents, t, objects.value);
  }

  lemma IsHydrated(texts: Texts, pool: Address, parents: set<Address>, t: Transaction, objects: seq<Fetched>)
    requires t.effects.Some? && Plannable(texts, pool, parents, t.effects.value)
    requires Exactly(objects, AllReferences(Selected(texts, pool, parents, t.effects.value)))
    ensures Hydrated(texts, pool, parents, t,
                     Transaction(Some(Entries(Selected(texts, pool, parents, t.effects.value))), Entries(objects)))
  {
    hide Exactly, Consistent, Keys;
  }

  /** Hydrates a frame. A frame without a transaction only reports progress and is kept. */
  method Hydrate(node: Node, texts: Texts, pool: Address, parents: set<Address>, response: Option<Frame>)
    returns (r: Option<Frame>)
    modifies node
    ensures old(node.cancelled) ==> node.cancelled
    ensures r.Some? ==> !Refused(texts, pool, parents, response, node.replies, |old(node.asked)|)
    ensures r.None? ==>
              || Refused(texts, pool, parents, response, node.replies, |old(node.asked)|)
              || (response.value.transaction.Some? && node.cancelled)
    ensures r.Some? ==> response.Some? && |response.value.cursor| > 0
    ensures response.Some? && |response.value.cursor| > 0 && response.value.transaction.None? ==>
              r == response && node.asked == old(node.asked)
    ensures r.Some? && response.value.transaction.Some? ==>
              var before := response.value.transaction.value;
              var after := Filled(texts, pool, parents, before.effects.value, node.replies, |old(node.asked)|);
              && r.value == response.value.(transaction := Some(after)) && Hydrated(texts, pool, parents, before, after)
              && var requests := Requests(texts, pool, parents, before.effects.value);
                 node.asked == old(node.asked) + Chunks(requests, Count(requests))
  {
    hide Plannable, Hydrated, Answered, Filled, Requests, Chunks;
    if response.None? || response.value.cursor == [] { return None; }
    var frame := response.value;
    if frame.transaction.None? { return response; }
    var transaction := HydrateTransaction(node, texts, pool, parents, frame.transaction.value);
    if transaction.None? { return None; }
    return Some(frame.(transaction := transaction));
  }

  lemma PlannedParts(refs: seq<Ref>, requests: seq<Key>, expected: map<Key, string>)
    requires Planned(refs, requests, expected)
    ensures requests == FirstKeys(refs) && expected == DigestsOf(refs)
  {
  }

  lemma PlannableEntries(texts: Texts, pool: Address, parents: set<Address>, changes: seq<Option<Change>>)
    requires Plannable(texts, pool, parents, changes)
    ensures forall i :: 0 <= i < |changes| ==> EntryOk(texts, changes[i])
    ensures Consistent(AllReferences(Selected(texts, pool, parents, changes)))
  {
  }
}
