/** The decoder of a transaction's object changes, and why it finds every object it needs in a
    hydrated transaction. */
module ObjectChanges {
  import opened Wrappers
  import opened ScopedObjects

  datatype Fault =
    | EffectsNull | ObjectNull | ObjectDuplicate | ReferenceMismatch | AddressInvalid | DigestInvalid
    | MoveNull | JsonInvalid | ChangeNull | ChangeDuplicate | InputOwnerNull | InputVersionEmpty
    | OwnerInvalid | OutputOwnerNull | OutputStateInvalid

  /** A decoded version; without content for a bare reference or a package. */
  datatype Version = Version(address: Address, version: nat, digest: nat, isPackage: bool,
                             content: Option<(string, string)>)

  datatype ObjectChange = ObjectChange(
    address: Address, before: Option<Version>, after: Option<Version>,
    inputParent: Address, outputParent: Address, deleted: bool)

  const NO_ADDRESS: Address := 0

  // ---------- One change ----------

  function DecodeVersion(texts: Texts, objects: map<Key, Fetched>, key: Key, digest: string): Result<Version, Fault> {
    if key !in objects || key.version == 0 || digest == "" || objects[key].digest != digest then Err(ReferenceMismatch)
    else if texts.address(key.id).None? then Err(AddressInvalid)
    else if texts.digest(digest).None? then Err(DigestInvalid)
    else
      var o, address, d := objects[key], texts.address(key.id).value, texts.digest(digest).value;
      if o.objectType == "package" then Ok(Version(address, key.version, d, true, None))
      else if o.json.None? || o.objectType == "" then Err(MoveNull)
      else if o.json.value.Unprintable? then Err(JsonInvalid)
      else if o.json.value.NullJson? then Err(MoveNull)
      else Ok(Version(address, key.version, d, false, Some((o.objectType, o.json.value.text))))
  }

  function Parent(texts: Texts, owner: Option<Owner>): Result<Address, Fault> {
    if owner.None? || !owner.value.kind.ObjectOwner? then Ok(NO_ADDRESS)
    else if texts.address(owner.value.address).None? then Err(OwnerInvalid)
    else Ok(texts.address(owner.value.address).value)
  }

  function DecodeBefore(texts: Texts, objects: map<Key, Fetched>, references: bool, c: Change,
                        id: Address): Result<Option<Version>, Fault> {
    if !c.input.InputExists? then Ok(None)
    else if c.inputOwner.None? then Err(InputOwnerNull)
    else if references && BeforeReference(c) then
      if c.inputVersion == 0 then Err(InputVersionEmpty)
      else if texts.digest(c.inputDigest).None? then Err(DigestInvalid)
      else Ok(Some(Version(id, c.inputVersion, texts.digest(c.inputDigest).value, false, None)))
    else
      match DecodeVersion(texts, objects, Key(c.id, c.inputVersion), c.inputDigest)
      case Ok(v) => Ok(Some(v))
      case Err(f) => Err(f)
  }

  function DecodeAfter(texts: Texts, objects: map<Key, Fetched>, c: Change): Result<Option<Version>, Fault> {
    if Writes(c) then
      if c.outputOwner.None? then Err(OutputOwnerNull)
      else
        match DecodeVersion(texts, objects, Key(c.id, c.outputVersion), c.outputDigest)
        case Ok(v) => Ok(Some(v))
        case Err(f) => Err(f)
    else if c.output.OutputAbsent? then Ok(None)
    else Err(OutputStateInvalid)
  }

  /** Decodes a change that is no accumulator write and whose address was not seen before. */
  function DecodeChange(texts: Texts, objects: map<Key, Fetched>, references: bool, c: Change,
                        id: Address): Result<ObjectChange, Fault> {
    var before := DecodeBefore(texts, objects, references, c, id);
    if before.Err? then Err(before.error)
    else
      var input, output := Parent(texts, c.inputOwner), Parent(texts, c.outputOwner);
      if input.Err? then Err(input.error)
      else if output.Err? then Err(output.error)
      else
        var after := DecodeAfter(texts, objects, c);
        if after.Err? then Err(after.error)
        else Ok(ObjectChange(id, before.value, after.value, input.value, output.value, c.output.OutputAbsent?))
  }

  // ---------- All changes ----------

  /** The addresses of the changes that are no accumulator writes. */
  function Addresses(texts: Texts, changes: seq<Option<Change>>): set<Address> {
    set c | c in changes && c.Some? && !c.value.output.AccumulatorWrite? && texts.address(c.value.id).Some?
      :: texts.address(c.value.id).value
  }

  /** The decoded changes in order, or the first fault. */
  function DecodeAll(texts: Texts, objects: map<Key, Fetched>, references: bool,
                     changes: seq<Option<Change>>): Result<seq<ObjectChange>, Fault> {
    if changes == [] then Ok([])
    else
      var n := |changes| - 1;
      match DecodeAll(texts, objects, references, changes[..n])
      case Err(f) => Err(f)
      case Ok(items) =>
        if changes[n].None? then Err(ChangeNull)
        else
          var c := changes[n].value;
          if c.output.AccumulatorWrite? then Ok(items)
          else if texts.address(c.id).None? then Err(AddressInvalid)
          else
            var id := texts.address(c.id).value;
            if id in Addresses(texts, changes[..n]) then Err(ChangeDuplicate)
            else
              match DecodeChange(texts, objects, references, c, id)
              case Err(f) => Err(f)
              case Ok(item) => Ok(items + [item])
  }

  /** The objects by version: a repeated version keeps its first object. */
  ghost predicate Indexed(objects: seq<Option<Fetched>>, index: map<Key, Fetched>) {
    && (forall i :: 0 <= i < |objects| ==>
          objects[i].Some? && KeyOf(objects[i].value) in index && index[KeyOf(objects[i].value)] == objects[i].value)
    && (forall k :: k in index ==>
          exists i :: 0 <= i < |objects| && objects[i] == Some(index[k]) && KeyOf(index[k]) == k)
  }

  ghost predicate Repeated(objects: seq<Option<Fetched>>) {
    exists i, j :: 0 <= i < j < |objects| && objects[i].Some? && objects[j].Some?
      && KeyOf(objects[i].value) == KeyOf(objects[j].value)
  }

  /** Some object has this version. */
  ghost predicate Holds(objects: seq<Option<Fetched>>, k: Key) {
    exists i :: 0 <= i < |objects| && objects[i].Some? && KeyOf(objects[i].value) == k
  }

  /** The first fault of the objects, in their order: a null one, or a version seen before. */
  ghost function IndexFault(objects: seq<Option<Fetched>>): Option<Fault> {
    if objects == [] then None
    else
      var n := |objects| - 1;
      var before := IndexFault(objects[..n]);
      if before.Some? then before
      else if objects[n].None? then Some(ObjectNull)
      else if Holds(objects[..n], KeyOf(objects[n].value)) then Some(ObjectDuplicate)
      else None
  }

  /** There is no fault exactly when no object is null or repeated. */
  lemma {:induction false} NoIndexFault(objects: seq<Option<Fetched>>)
    ensures IndexFault(objects).None? <==> None !in objects && !Repeated(objects)
  {
    if objects != [] {
      var n := |objects| - 1;
      NoIndexFault(objects[..n]);
      assert objects == objects[..n] + [objects[n]];
    }
  }

  lemma {:induction false} FirstFaultStays(objects: seq<Option<Fetched>>, n: nat)
    requires n <= |objects| && IndexFault(objects[..n]).Some?
    ensures IndexFault(objects) == IndexFault(objects[..n])
    decreases |objects|
  {
    if n == |objects| {
      assert objects[..n] == objects;
    } else {
      var last := |objects| - 1;
      assert objects[..last][..n] == objects[..n];
      FirstFaultStays(objects[..last], n);
    }
  }

  method Index(objects: seq<Option<Fetched>>) returns (r: Result<map<Key, Fetched>, Fault>)
    ensures r.Ok? ==> IndexFault(objects).None? && Indexed(objects, r.value)
    ensures r.Err? ==> IndexFault(objects) == Some(r.error)
  {
    hide Repeated;
    var index: map<Key, Fetched> := map[];
    for i := 0 to |objects|
      invariant IndexFault(objects[..i]).None? && Indexed(objects[..i], index)
    {
      assert objects[..i+1][..i] == objects[..i];
      ghost var prefix := IndexFault(objects[..i+1]);
      if prefix.Some? { FirstFaultStays(objects, i + 1); }
      if objects[i].None? { return Err(ObjectNull); }
      var o := objects[i].value;
      IndexHolds(objects[..i], index, KeyOf(o));
      if KeyOf(o) in index { return Err(ObjectDuplicate); }
      assert objects[..i+1] == objects[..i] + [Some(o)];
      IndexPlus(objects[..i], index, o);
      index := index[KeyOf(o) := o];
    }
    assert objects[..|objects|] == objects;
    return Ok(index);
  }

  lemma IndexHolds(objects: seq<Option<Fetched>>, index: map<Key, Fetched>, k: Key)
    requires Indexed(objects, index)
    ensures k in index <==> Holds(objects, k)
  {
    if k in index {
      var i :| 0 <= i < |objects| && objects[i] == Some(index[k]) && KeyOf(index[k]) == k;
      assert KeyOf(objects[i].value) == k;
    }
  }

  lemma IndexPlus(objects: seq<Option<Fetched>>, index: map<Key, Fetched>, o: Fetched)
    requires Indexed(objects, index) && KeyOf(o) !in index
    ensures Indexed(objects + [Some(o)], index[KeyOf(o) := o])
  {
    var all, more := objects + [Some(o)], index[KeyOf(o) := o];
    assert all[|objects|] == Some(o) && forall i :: 0 <= i < |objects| ==> all[i] == objects[i];
    forall k | k in more
      ensures exists i :: 0 <= i < |all| && all[i] == Some(more[k]) && KeyOf(more[k]) == k
    {
      if k != KeyOf(o) {
        var i :| 0 <= i < |objects| && objects[i] == Some(index[k]) && KeyOf(index[k]) == k;
        assert all[i] == Some(more[k]);
      }
    }
  }

  method Decode(texts: Texts, transaction: Transaction, references: bool) returns (r: Result<seq<ObjectChange>, Fault>)
    ensures transaction.effects.None? ==> r == Err(EffectsNull)
    ensures transaction.effects.Some? && IndexFault(transaction.objects).Some? ==>
      r == Err(IndexFault(transaction.objects).value)
    ensures transaction.effects.Some? && IndexFault(transaction.objects).None? ==>
      exists index :: Indexed(transaction.objects, index)
        && r == DecodeAll(texts, index, references, transaction.effects.value)
    ensures r.Ok? ==> ItemsDescribed(texts, transaction, references, r.value)
  {
    hide Indexed, IndexFault;
    if transaction.effects.None? { return Err(EffectsNull); }
    var index := Index(transaction.objects);
    if index.Err? { return Err(index.error); }
    var objects := index.value;
    var changes := transaction.effects.value;
    var items: seq<ObjectChange> := [];
    var seen: set<Address> := {};
    for i := 0 to |changes|
      invariant DecodeAll(texts, objects, references, changes[..i]) == Ok(items)
      invariant seen == Addresses(texts, changes[..i])
    {
      assert changes[..i+1][..i] == changes[..i];
      ghost var prefix := DecodeAll(texts, objects, references, changes[..i+1]);
      if prefix.Err? { FaultStays(texts, objects, references, changes, i + 1); }
      if changes[i].None? { return Err(ChangeNull); }
      var c := changes[i].value;
      AddressesPlus(texts, changes[..i], changes[i]);
      assert changes[..i+1] == changes[..i] + [changes[i]];
      if c.output.AccumulatorWrite? { continue; }
      if texts.address(c.id).None? { return Err(AddressInvalid); }
      var id := texts.address(c.id).value;
      if id in seen { return Err(ChangeDuplicate); }
      seen := seen + {id};
      var item := DecodeChange(texts, objects, references, c, id);
      if item.Err? { return Err(item.error); }
      items := items + [item.value];
    }
    assert changes[..|changes|] == changes;
    Described(texts, transaction, references, objects);
    return Ok(items);
  }

  /** The items describe the changes, one by one in their order, from the objects of the transaction. */
  ghost predicate ItemsDescribed(texts: Texts, t: Transaction, references: bool, items: seq<ObjectChange>) {
    && t.effects.Some? && None !in t.effects.value
    && exists index ::
         && Indexed(t.objects, index) && AllDecodable(texts, index, references, Regular(t.effects.value))
         && AllDescribed(texts, index, references, items, Regular(t.effects.value))
  }

  lemma Described(texts: Texts, t: Transaction, references: bool, index: map<Key, Fetched>)
    requires t.effects.Some? && Indexed(t.objects, index)
    requires DecodeAll(texts, index, references, t.effects.value).Ok?
    ensures ItemsDescribed(texts, t, references, DecodeAll(texts, index, references, t.effects.value).value)
  {
    hide Indexed, AllDecodable, AllDescribed;
    DecodedItems(texts, index, references, t.effects.value);
  }

  lemma AddressesPlus(texts: Texts, changes: seq<Option<Change>>, c: Option<Change>)
    ensures Addresses(texts, changes + [c]) == Addresses(texts, changes) +
            (if c.Some? && !c.value.output.AccumulatorWrite? && texts.address(c.value.id).Some?
             then {texts.address(c.value.id).value} else {})
  {
    assert forall x :: x in changes + [c] <==> x in changes || x == c;
  }

  /** The first fault decides. */
  lemma {:induction false} FaultStays(texts: Texts, objects: map<Key, Fetched>, references: bool,
                                      changes: seq<Option<Change>>, n: nat)
    requires n <= |changes| && DecodeAll(texts, objects, references, changes[..n]).Err?
    ensures DecodeAll(texts, objects, references, changes) == DecodeAll(texts, objects, references, changes[..n])
    decreases |changes|
  {
    if n == |changes| {
      assert changes[..n] == changes;
    } else {
      var last := |changes| - 1;
      assert changes[..last][..n] == changes[..n];
      FaultStays(texts, objects, references, changes[..last], n);
    }
  }

  // ---------- What a decoded change says ----------

  /** The changes that are decoded: accumulator writes are skipped. */
  function Regular(changes: seq<Option<Change>>): seq<Change>
    requires None !in changes
  {
    if changes == [] then []
    else
      var c := changes[|changes|-1].value;
      Regular(changes[..|changes|-1]) + (if c.output == AccumulatorWrite then [] else [c])
  }

  /** The fetched version can be decoded: it is there with this digest, and has printable content
      unless it is a package. */
  predicate Usable(texts: Texts, objects: map<Key, Fetched>, id: string, version: nat, digest: string) {
    && version != 0 && digest != "" && texts.digest(digest).Some?
    && Key(id, version) in objects && objects[Key(id, version)].digest == digest
    && var o := objects[Key(id, version)];
       o.objectType == "package" || (o.objectType != "" && o.json.Some? && o.json.value.Json?)
  }

  /** The version as it was fetched. */
  predicate IsVersion(texts: Texts, objects: map<Key, Fetched>, v: Version, id: string, version: nat, digest: string)
    requires Usable(texts, objects, id, version, digest)
  {
    var o := objects[Key(id, version)];
    && texts.address(id) == Some(v.address) && v.version == version && texts.digest(digest) == Some(v.digest)
    && (v.isPackage <==> o.objectType == "package")
    && v.content == if o.objectType == "package" then None else Some((o.objectType, o.json.value.text))
  }

  /** A replacement by the same owner, when such are described by a reference alone. */
  predicate ByReference(references: bool, c: Change) {
    references && c.output == ObjectWrite && c.inputOwner.Some? && c.inputOwner == c.outputOwner
  }

  predicate ParentKnown(texts: Texts, owner: Option<Owner>) {
    owner.Some? && owner.value.kind == ObjectOwner ==> texts.address(owner.value.address).Some?
  }

  /** The change can be decoded. */
  predicate Decodable(texts: Texts, objects: map<Key, Fetched>, references: bool, c: Change) {
    && texts.address(c.id).Some?
    && (c.input == InputExists ==>
          && c.inputOwner.Some?
          && (if ByReference(references, c) then c.inputVersion != 0 && texts.digest(c.inputDigest).Some?
              else Usable(texts, objects, c.id, c.inputVersion, c.inputDigest)))
    && ParentKnown(texts, c.inputOwner) && ParentKnown(texts, c.outputOwner)
    && (c.output == ObjectWrite || c.output == PackageWrite ==>
          c.outputOwner.Some? && Usable(texts, objects, c.id, c.outputVersion, c.outputDigest))
    && (c.output == ObjectWrite || c.output == PackageWrite || c.output == OutputAbsent)
  }

  /** What a decoded change must say, field by field. */
  predicate Describes(texts: Texts, objects: map<Key, Fetched>, references: bool, o: ObjectChange, c: Change)
    requires Decodable(texts, objects, references, c)
  {
    && texts.address(c.id) == Some(o.address)
    && (o.before.Some? <==> c.input == InputExists)
    && (o.before.Some? ==>
          if ByReference(references, c) then
            && o.before.value.address == o.address && o.before.value.version == c.inputVersion
            && texts.digest(c.inputDigest) == Some(o.before.value.digest)
            && !o.before.value.isPackage && o.before.value.content == None
          else IsVersion(texts, objects, o.before.value, c.id, c.inputVersion, c.inputDigest))
    && (o.after.Some? <==> c.output == ObjectWrite || c.output == PackageWrite)
    && (o.after.Some? ==> IsVersion(texts, objects, o.after.value, c.id, c.outputVersion, c.outputDigest))
    && o.inputParent == (if c.inputOwner.Some? && c.inputOwner.value.kind == ObjectOwner
                         then texts.address(c.inputOwner.value.address).value else 0)
    && o.outputParent == (if c.outputOwner.Some? && c.outputOwner.value.kind == ObjectOwner
                          then texts.address(c.outputOwner.value.address).value else 0)
    && (o.deleted <==> c.output == OutputAbsent)
  }

  lemma OneDecoded(texts: Texts, objects: map<Key, Fetched>, references: bool, c: Change)
    requires texts.address(c.id).Some?
    ensures var r := DecodeChange(texts, objects, references, c, texts.address(c.id).value);
            && (r.Ok? <==> Decodable(texts, objects, references, c))
            && (r.Ok? ==> Describes(texts, objects, references, r.value, c))
  {
  }

  /** Each change can be decoded, and no two are of one object. */
  ghost predicate AllDecodable(texts: Texts, objects: map<Key, Fetched>, references: bool, cs: seq<Change>) {
    && (forall i :: 0 <= i < |cs| ==> Decodable(texts, objects, references, cs[i]))
    && (forall i, j :: 0 <= i < j < |cs| ==> texts.address(cs[i].id) != texts.address(cs[j].id))
  }

  /** The items describe the changes one by one. */
  ghost predicate AllDescribed(texts: Texts, objects: map<Key, Fetched>, references: bool, items: seq<ObjectChange>,
                               cs: seq<Change>)
    requires AllDecodable(texts, objects, references, cs)
  {
    |items| == |cs| && forall i :: 0 <= i < |items| ==> Describes(texts, objects, references, items[i], cs[i])
  }

  lemma DecodablePlus(texts: Texts, objects: map<Key, Fetched>, references: bool, cs: seq<Change>, c: Change)
    ensures AllDecodable(texts, objects, references, cs + [c]) <==>
            && AllDecodable(texts, objects, references, cs) && Decodable(texts, objects, references, c)
            && forall i :: 0 <= i < |cs| ==> texts.address(cs[i].id) != texts.address(c.id)
  {
    hide Decodable;
    var all := cs + [c];
    assert all[|cs|] == c && forall i :: 0 <= i < |cs| ==> all[i] == cs[i];
  }

  lemma DescribedPlus(texts: Texts, objects: map<Key, Fetched>, references: bool, items: seq<ObjectChange>,
                      cs: seq<Change>, o: ObjectChange, c: Change)
    requires AllDecodable(texts, objects, references, cs + [c]) && AllDecodable(texts, objects, references, cs)
    requires AllDescribed(texts, objects, references, items, cs)
    requires Decodable(texts, objects, references, c) && Describes(texts, objects, references, o, c)
    ensures AllDescribed(texts, objects, references, items + [o], cs + [c])
  {
    hide Decodable, Describes;
  }

  /** The changes are decoded exactly when none is null, none of those that are no accumulator write
      lacks what it must have, and no two of them are of one object. The result then describes them
      one by one, in their order. */
  lemma {:induction false} DecodedItems(texts: Texts, objects: map<Key, Fetched>, references: bool,
                                        changes: seq<Option<Change>>)
    ensures var r := DecodeAll(texts, objects, references, changes);
            && (r.Ok? <==> None !in changes && AllDecodable(texts, objects, references, Regular(changes)))
            && (r.Ok? ==> AllDescribed(texts, objects, references, r.value, Regular(changes)))
  {
    if changes != [] {
      var n := |changes| - 1;
      DecodedItems(texts, objects, references, changes[..n]);
      assert changes == changes[..n] + [changes[n]];
      hide DecodeChange, Decodable, Describes, AllDecodable, AllDescribed;
      if None !in changes && changes[n].value.output.AccumulatorWrite? {
        assert Regular(changes) == Regular(changes[..n]) + [];
        assert Regular(changes[..n]) + [] == Regular(changes[..n]);
      } else if None !in changes {
        var c, before := changes[n].value, Regular(changes[..n]);
        assert Regular(changes) == before + [c];
        SeenAddresses(texts, changes[..n]);
        DecodablePlus(texts, objects, references, before, c);
        LastItem(texts, objects, references, changes);
        var r := DecodeAll(texts, objects, references, changes);
        if r.Ok? {
          DescribedPlus(texts, objects, references, r.value[..|r.value|-1], before, r.value[|r.value|-1], c);
        }
      }
    }
  }

  /** The last change, after the others were decoded. */
  lemma LastItem(texts: Texts, objects: map<Key, Fetched>, references: bool, changes: seq<Option<Change>>)
    requires changes != [] && None !in changes && None !in changes[..|changes|-1]
    ensures var c := changes[|changes|-1].value;
            texts.address(c.id).Some? ==>
              var r := DecodeChange(texts, objects, references, c, texts.address(c.id).value);
              && (r.Ok? <==> Decodable(texts, objects, references, c))
              && (r.Ok? ==> Describes(texts, objects, references, r.value, c))
    ensures Decodable(texts, objects, references, changes[|changes|-1].value) ==>
              texts.address(changes[|changes|-1].value.id).Some?
  {
    var c := changes[|changes|-1].value;
    if texts.address(c.id).Some? { OneDecoded(texts, objects, references, c); }
  }

  lemma {:induction false} SeenAddresses(texts: Texts, changes: seq<Option<Change>>)
    requires None !in changes
    ensures forall a :: a in Addresses(texts, changes) <==>
              exists i :: 0 <= i < |Regular(changes)| && texts.address(Regular(changes)[i].id) == Some(a)
  {
    if changes != [] {
      var n := |changes| - 1;
      SeenAddresses(texts, changes[..n]);
      assert changes == changes[..n] + [changes[n]];
      AddressesPlus(texts, changes[..n], changes[n]);
      var before, all := Regular(changes[..n]), Regular(changes);
      assert forall i :: 0 <= i < |before| ==> all[i] == before[i];
      var c := changes[n].value;
      if c.output != AccumulatorWrite { assert all[|before|] == c; }
      hide Addresses, Regular;
      forall a
        ensures a in Addresses(texts, changes) <==>
                exists i :: 0 <= i < |all| && texts.address(all[i].id) == Some(a)
      {
        if exists i :: 0 <= i < |before| && texts.address(before[i].id) == Some(a) {
          var i :| 0 <= i < |before| && texts.address(before[i].id) == Some(a);
          assert texts.address(all[i].id) == Some(a);
        }
      }
    }
  }

  // ---------- Decoding a hydrated transaction ----------

  /** Faults that lie in the content of objects and references, not in how they refer to each other. */
  predicate ContentFault(f: Fault) {
    f.DigestInvalid? || f.MoveNull? || f.JsonInvalid? || f.InputVersionEmpty? || f.ChangeDuplicate?
  }

  lemma {:induction false} ReferencesOf(selected: seq<Change>, i: nat, r: Ref)
    requires i < |selected| && r in References(selected[i])
    ensures r in AllReferences(selected)
    decreases |selected|
  {
    if i < |selected| - 1 {
      ReferencesOf(selected[..|selected|-1], i, r);
    }
  }

  /** Every version a selected change refers to is found with the digest it expects. */
  lemma {:induction false} Found(selected: seq<Change>, objects: seq<Fetched>, index: map<Key, Fetched>, i: nat, r: Ref)
    requires Consistent(AllReferences(selected)) && Exactly(objects, AllReferences(selected))
               && Indexed(Entries(objects), index)
    requires i < |selected| && r in References(selected[i])
    ensures r.key in index && index[r.key].digest == r.digest && r.key.version != 0 && r.digest != ""
  {
    ReferencesOf(selected, i, r);
    var j :| 0 <= j < |objects| && KeyOf(objects[j]) == r.key && objects[j].digest == r.digest;
    assert Entries(objects)[j] == Some(objects[j]);
    var k :| 0 <= k < |AllReferences(selected)| && AllReferences(selected)[k] == r;
  }

  lemma ChangeResolves(texts: Texts, selected: seq<Change>, objects: seq<Fetched>, index: map<Key, Fetched>, i: nat,
                       id: Address)
    requires Consistent(AllReferences(selected)) && Exactly(objects, AllReferences(selected))
               && Indexed(Entries(objects), index)
    requires i < |selected| && ChangeOk(texts, selected[i])
    ensures var r := DecodeChange(texts, index, true, selected[i], id);
            r.Err? ==> ContentFault(r.error)
  {
    hide Consistent, Exactly, Indexed, AllReferences;
    var c := selected[i];
    if NeedsBefore(c) {
      assert Ref(Key(c.id, c.inputVersion), c.inputDigest) in References(c);
      Found(selected, objects, index, i, Ref(Key(c.id, c.inputVersion), c.inputDigest));
    }
    if Writes(c) {
      var r := Ref(Key(c.id, c.outputVersion), c.outputDigest);
      assert References(c)[|References(c)|-1] == r;
      Found(selected, objects, index, i, r);
    }
  }

  lemma {:induction false} AllResolve(texts: Texts, selected: seq<Change>, objects: seq<Fetched>,
                                       index: map<Key, Fetched>, n: nat)
    requires Consistent(AllReferences(selected)) && Exactly(objects, AllReferences(selected))
               && Indexed(Entries(objects), index)
    requires forall i :: 0 <= i < |selected| ==> !selected[i].output.AccumulatorWrite? && ChangeOk(texts, selected[i])
    requires n <= |selected|
    ensures var r := DecodeAll(texts, index, true, Entries(selected)[..n]);
            && (r.Err? ==> ContentFault(r.error))
            && (r.Ok? ==> |r.value| == n)
  {
    hide Consistent, Exactly, Indexed, AllReferences, DecodeChange;
    if n > 0 {
      AllResolve(texts, selected, objects, index, n - 1);
      assert Entries(selected)[..n][..n-1] == Entries(selected)[..n-1];
      var c := selected[n-1];
      assert ChangeOk(texts, c);
      ChangeResolves(texts, selected, objects, index, n - 1, texts.address(c.id).value);
    }
  }

  lemma NoFaults(objects: seq<Fetched>, refs: seq<Ref>)
    requires Exactly(objects, refs)
    ensures IndexFault(Entries(objects)).None?
  {
    NoIndexFault(Entries(objects));
  }

  /** A hydrated transaction never fails to decode on its references: no object is missing, null,
      repeated or of another digest, and no owner, state or address is refused. What can fail is
      the content of what was fetched, or two changes of one object. */
  lemma HydratedDecodes(texts: Texts, pool: Address, parents: set<Address>, before: Transaction, after: Transaction)
    requires Hydrated(texts, pool, parents, before, after)
    ensures after.effects.Some? && IndexFault(after.objects).None?
    ensures forall index :: Indexed(after.objects, index) ==>
              var r := DecodeAll(texts, index, true, after.effects.value);
              && (r.Err? ==> ContentFault(r.error))
              && (r.Ok? ==> |r.value| == |Selected(texts, pool, parents, before.effects.value)|)
  {
    hide Plannable, Consistent, Keys, DecodeAll, IndexFault, Indexed, ContentFault;
    PlannableEntries(texts, pool, parents, before.effects.value);
    var selected := Selected(texts, pool, parents, before.effects.value);
    var objects :| after.objects == Entries(objects) && Exactly(objects, AllReferences(selected));
    NoFaults(objects, AllReferences(selected));
    forall index | Indexed(after.objects, index)
      ensures var r := DecodeAll(texts, index, true, after.effects.value);
              && (r.Err? ==> ContentFault(r.error))
              && (r.Ok? ==> |r.value| == |selected|)
    {
      AllResolve(texts, selected, objects, index, |selected|);
      assert Entries(selected)[..|selected|] == Entries(selected);
    }
  }

  lemma {:induction false} AllRegular(selected: seq<Change>)
    requires forall i :: 0 <= i < |selected| ==> !selected[i].output.AccumulatorWrite?
    ensures None !in Entries(selected) && Regular(Entries(selected)) == selected
  {
    if selected != [] {
      var n := |selected| - 1;
      AllRegular(selected[..n]);
      assert Entries(selected)[..n] == Entries(selected[..n]);
      assert selected == selected[..n] + [selected[n]];
    }
  }

  /** The decoded changes of a hydrated transaction describe its selected changes one by one. */
  lemma HydratedItems(texts: Texts, pool: Address, parents: set<Address>, before: Transaction, after: Transaction,
                      index: map<Key, Fetched>)
    requires Hydrated(texts, pool, parents, before, after) && after.effects.Some?
    requires DecodeAll(texts, index, true, after.effects.value).Ok?
    ensures var selected := Selected(texts, pool, parents, before.effects.value);
            && AllDecodable(texts, index, true, selected)
            && AllDescribed(texts, index, true, DecodeAll(texts, index, true, after.effects.value).value, selected)
  {
    hide Plannable, Consistent, Keys, DecodeAll, AllDecodable, AllDescribed, Exactly;
    PlannableEntries(texts, pool, parents, before.effects.value);
    AllRegular(Selected(texts, pool, parents, before.effects.value));
    DecodedItems(texts, index, true, after.effects.value);
  }

  /** Hydrating a frame and decoding it in one go. There is no result only for a frame that is refused
      or has no transaction, or after a cancellation; any other is the decoding of the selected
      changes against the objects of the node's replies, and fails only on their content. */
  method HydrateAndDecode(node: Node, texts: Texts, pool: Address, parents: set<Address>, response: Option<Frame>)
    returns (r: Option<Result<seq<ObjectChange>, Fault>>)
    modifies node
    ensures r.None? ==>
              || Refused(texts, pool, parents, response, node.replies, |old(node.asked)|)
              || response.value.transaction.None? || node.cancelled
    ensures r.Some? ==>
              && !Refused(texts, pool, parents, response, node.replies, |old(node.asked)|)
              && response.value.transaction.Some?
              && var changes := response.value.transaction.value.effects.value;
                 Decoded(texts, Filled(texts, pool, parents, changes, node.replies, |old(node.asked)|), r.value)
    ensures r.Some? && r.value.Err? ==> ContentFault(r.value.error)
  {
    hide Decoded, Filled, Hydrated, ContentFault, Indexed, DecodeAll, IndexFault, Plannable;
    ghost var start := |node.asked|;
    var frame := Hydrate(node, texts, pool, parents, response);
    if frame.None? || frame.value.transaction.None? { return None; }
    HydratedDecodes(texts, pool, parents, response.value.transaction.value, frame.value.transaction.value);
    var decoded := Decode(texts, frame.value.transaction.value, true);
    IsDecoded(texts, frame.value.transaction.value, decoded);
    return Some(decoded);
  }

  /** The result is that of decoding the transaction against its own objects. */
  ghost predicate Decoded(texts: Texts, t: Transaction, r: Result<seq<ObjectChange>, Fault>) {
    t.effects.Some? && exists index :: Indexed(t.objects, index) && r == DecodeAll(texts, index, true, t.effects.value)
  }

  lemma IsDecoded(texts: Texts, t: Transaction, r: Result<seq<ObjectChange>, Fault>)
    requires t.effects.Some?
    requires exists index :: Indexed(t.objects, index) && r == DecodeAll(texts, index, true, t.effects.value)
    ensures Decoded(texts, t, r)
  {
  }
}
