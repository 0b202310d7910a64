/** The builder of programmable transactions. */
module Builder {
  import opened Wrappers
  import opened Strings
  import opened Bytes
  import opened TypeTags
  import opened Transactions
  import opened Validation

  datatype Request = PureValue(value: seq<byte>) | ObjectValue(kind: ObjectKind, ref: ObjectInput)

  // ---------- What one request does to the inputs ----------

  /** The input that already holds the object of that address. */
  function Find(inputs: seq<TxInput>, address: Address): (r: Option<nat>)
    ensures r.Some? ==> r.value < |inputs| && inputs[r.value].Object? && inputs[r.value].ref.address == address
    ensures r.None? ==> forall i :: 0 <= i < |inputs| && inputs[i].Object? ==> inputs[i].ref.address != address
  {
    if inputs == [] then None
    else
      var n := |inputs| - 1;
      var earlier := Find(inputs[..n], address);
      if earlier.Some? then earlier
      else if inputs[n].Object? && inputs[n].ref.address == address then Some(n)
      else None
  }

  /** The inputs after the request and the index it is given, or a refusal. */
  function Add(inputs: seq<TxInput>, r: Request): Option<(seq<TxInput>, nat)> {
    match r
    case PureValue(v) => Append(inputs, Pure(v))
    case ObjectValue(kind, o) =>
      if !ValidInput(Object(kind, o)) then None
      else
        match Find(inputs, o.address)
        case None => Append(inputs, Object(kind, o))
        case Some(i) =>
          var existing := inputs[i];
          if existing.kind != kind then None
          else if kind == Shared then
            if existing.ref.version != o.version then None
            else Some((if o.mutable then inputs[i := Object(kind, existing.ref.(mutable := true))] else inputs, i))
          else if existing.ref != o then None
          else Some((inputs, i))
  }

  function Append(inputs: seq<TxInput>, i: TxInput): Option<(seq<TxInput>, nat)> {
    if |inputs| >= MAX_ELEMENTS then None else Some((inputs + [i], |inputs|))
  }

  // ---------- Any sequence of requests ----------

  /** The inputs after all requests; refused ones change nothing. */
  function AddAll(rs: seq<Request>): seq<TxInput> {
    if rs == [] then []
    else
      var inputs := AddAll(rs[..|rs|-1]);
      var r := Add(inputs, rs[|rs|-1]);
      if r.Some? then r.value.0 else inputs
  }

  predicate Accepted(rs: seq<Request>, j: nat)
    requires j < |rs|
  {
    Add(AddAll(rs[..j]), rs[j]).Some?
  }

  function IndexOf(rs: seq<Request>, j: nat): nat
    requires j < |rs| && Accepted(rs, j)
  {
    Add(AddAll(rs[..j]), rs[j]).value.1
  }

  ghost predicate GoodInputs(inputs: seq<TxInput>) {
    && |inputs| <= MAX_ELEMENTS
    && (forall i :: 0 <= i < |inputs| ==> ValidInput(inputs[i]))
    && DistinctObjects(inputs)
  }

  /** What an accepted request leaves of the inputs: they stay good, in place, and with their
      identity; the input the request names is a new last one holding what was asked for, or the one
      that held the object, whose digest and version stay and which becomes mutable exactly when it
      is shared and one of the two asked for that. */
  lemma AddKeeps(inputs: seq<TxInput>, r: Request)
    requires GoodInputs(inputs) && Add(inputs, r).Some?
    ensures
      var (after, i) := Add(inputs, r).value;
      && GoodInputs(after) && i < |after| && |inputs| <= |after|
      && (forall k :: 0 <= k < |inputs| ==>
            && after[k].Object? == inputs[k].Object?
            && (k != i ==> after[k] == inputs[k])
            && (inputs[k].Object? ==>
                  && after[k].ref.address == inputs[k].ref.address && after[k].kind == inputs[k].kind
                  && after[k].ref == inputs[k].ref.(mutable := after[k].ref.mutable)))
      && (r.ObjectValue? ==> after[i].Object? && after[i].ref.address == r.ref.address && after[i].kind == r.kind)
      && (r.PureValue? ==> after[i] == Pure(r.value) && i == |inputs|)
      && (r.ObjectValue? && i == |inputs| ==> after == inputs + [Object(r.kind, r.ref)])
      && (i < |inputs| ==>
            && r.ObjectValue? && |after| == |inputs| && inputs[i].Object?
            && r.ref.version == inputs[i].ref.version
            && (if r.kind == Shared then after[i].ref.mutable <==> inputs[i].ref.mutable || r.ref.mutable
                else after == inputs && r.ref == inputs[i].ref))
  {
  }

  /** Which requests are accepted: a value while there is room; an object with its fields set, which
      either needs room, or is already there with the same kind and version, and the same reference
      unless it is shared. */
  lemma AddRule(inputs: seq<TxInput>, kind: ObjectKind, o: ObjectInput, value: seq<byte>)
    ensures Add(inputs, PureValue(value)).Some? <==> |inputs| < 65536
    ensures DistinctObjects(inputs) ==>
              (Add(inputs, ObjectValue(kind, o)).Some? <==>
              && o.address != ZeroBytes(32) && o.version != 0 && (kind != Shared ==> o.digest != ZeroBytes(32))
              && (forall i :: 0 <= i < |inputs| && inputs[i].Object? && inputs[i].ref.address == o.address ==>
                    && inputs[i].kind == kind
                    && (if kind == Shared then inputs[i].ref.version == o.version else inputs[i].ref == o))
              && ((forall i :: 0 <= i < |inputs| && inputs[i].Object? ==> inputs[i].ref.address != o.address) ==>
                    |inputs| < 65536))
  {
    hide Find;
  }

  /** Every object address occurs in one input, whatever was requested. */
  lemma {:induction false} AllGood(rs: seq<Request>)
    ensures GoodInputs(AddAll(rs))
  {
    if rs != [] {
      var inputs := AddAll(rs[..|rs|-1]);
      AllGood(rs[..|rs|-1]);
      if Add(inputs, rs[|rs|-1]).Some? { AddKeeps(inputs, rs[|rs|-1]); }
    }
  }

  /** An accepted object request keeps its input and its index from then on. */
  lemma {:induction false} IndexStays(rs: seq<Request>, j: nat, n: nat)
    requires j < n <= |rs| && Accepted(rs, j) && rs[j].ObjectValue?
    ensures
      var inputs := AddAll(rs[..n]);
      var i := IndexOf(rs, j);
      i < |inputs| && inputs[i].Object? && inputs[i].ref.address == rs[j].ref.address
  {
    var before := AddAll(rs[..n-1]);
    AllGood(rs[..n-1]);
    assert rs[..n][..n-1] == rs[..n-1] && rs[..n][n-1] == rs[n-1];
    if Add(before, rs[n-1]).Some? { AddKeeps(before, rs[n-1]); }
    if j < n - 1 { IndexStays(rs, j, n - 1); }
  }

  /** Repeated requests for one object are given the same index. */
  lemma SameIndex(rs: seq<Request>, j: nat, k: nat)
    requires j < k < |rs| && Accepted(rs, j) && Accepted(rs, k)
    requires rs[j].ObjectValue? && rs[k].ObjectValue? && rs[j].ref.address == rs[k].ref.address
    ensures IndexOf(rs, j) == IndexOf(rs, k)
  {
    IndexStays(rs, j, k);
    AllGood(rs[..k]);
    var inputs := AddAll(rs[..k]);
    var found := Find(inputs, rs[k].ref.address).value;
    assert found == IndexOf(rs, j);
  }

  ghost predicate WantsMutable(rs: seq<Request>, n: nat, address: Address)
    requires n <= |rs|
  {
    exists j :: 0 <= j < n && Accepted(rs, j) && rs[j].ObjectValue? && rs[j].ref.address == address && rs[j].ref.mutable
  }

  ghost predicate Wanted(rs: seq<Request>, n: nat, address: Address)
    requires n <= |rs|
  {
    exists j :: 0 <= j < n && Accepted(rs, j) && rs[j].ObjectValue? && rs[j].ref.address == address
  }

  /** The input was requested; if shared, it is mutable exactly when some accepted request was. */
  ghost predicate Explained(rs: seq<Request>, n: nat, input: TxInput)
    requires n <= |rs|
  {
    input.Object? ==>
      && Wanted(rs, n, input.ref.address)
      && (input.kind == Shared ==> (input.ref.mutable <==> WantsMutable(rs, n, input.ref.address)))
  }

  /** A shared input is mutable exactly when some accepted request for it was, and every object
      input was requested. */
  lemma {:induction false} MutableExactly(rs: seq<Request>, n: nat)
    requires n <= |rs|
    ensures
      var inputs := AddAll(rs[..n]);
      forall i :: 0 <= i < |inputs| ==> Explained(rs, n, inputs[i])
  {
    if n > 0 {
      MutableExactly(rs, n - 1);
      assert rs[..n][..n-1] == rs[..n-1] && rs[..n][n-1] == rs[n-1];
      forall i | 0 <= i < |AddAll(rs[..n])|
        ensures Explained(rs, n, AddAll(rs[..n])[i])
      {
        ExplainedNext(rs, n, i, AddAll(rs[..n-1]));
      }
    }
  }

  lemma ExplainedNext(rs: seq<Request>, n: nat, i: nat, before: seq<TxInput>)
    requires 0 < n <= |rs| && i < |AddAll(rs[..n])| && before == AddAll(rs[..n-1])
    requires forall k :: 0 <= k < |before| ==> Explained(rs, n - 1, before[k])
    ensures Explained(rs, n, AddAll(rs[..n])[i])
  {
    var r := rs[n-1];
    assert rs[..n][..n-1] == rs[..n-1] && rs[..n][n-1] == r;
    var after := AddAll(rs[..n]);
    AllGood(rs[..n-1]);
    AllGood(rs[..n]);
    hide AddAll, ValidInput;
    if after[i].Object? { WantsNext(rs, n, after[i].ref.address); }
    if Accepted(rs, n - 1) {
      AddKeeps(before, r);
      var idx := Add(before, r).value.1;
      if i < |before| {
        assert Explained(rs, n - 1, before[i]);
      } else if r.ObjectValue? {
        Unwanted(rs, n - 1, r.ref.address);
      }
      if i != idx && r.ObjectValue? && after[i].Object? {
        assert after[i].ref.address != after[idx].ref.address;
      }
    } else {
      assert after == before && Explained(rs, n - 1, before[i]);
    }
  }

  lemma WantsNext(rs: seq<Request>, n: nat, address: Address)
    requires 0 < n <= |rs|
    ensures Wanted(rs, n, address) <==>
      Wanted(rs, n - 1, address) || (Accepted(rs, n - 1) && rs[n-1].ObjectValue? && rs[n-1].ref.address == address)
    ensures WantsMutable(rs, n, address) <==>
      WantsMutable(rs, n - 1, address) ||
      (Accepted(rs, n - 1) && rs[n-1].ObjectValue? && rs[n-1].ref.address == address && rs[n-1].ref.mutable)
  {
  }

  /** An address that no input holds was not requested. */
  lemma Unwanted(rs: seq<Request>, n: nat, address: Address)
    requires n <= |rs|
    requires Find(AddAll(rs[..n]), address).None?
    ensures !Wanted(rs, n, address) && !WantsMutable(rs, n, address)
  {
    forall j | 0 <= j < n && Accepted(rs, j) && rs[j].ObjectValue? && rs[j].ref.address == address
      ensures false
    {
      IndexStays(rs, j, n);
    }
  }

  // ---------- The builder ----------

  class TransactionBuilder {
    var inputs: seq<TxInput>
    var commands: seq<Command>
    ghost var requests: seq<Request>  // all input requests so far, refused ones included
    ghost var given: set<Argument>  // all arguments returned so far

    /** Commands only use what exists before them; the inputs are those of the requests. */
    ghost predicate Valid()
      reads this
    {
      && inputs == AddAll(requests)
      && GoodInputs(inputs)
      && |commands| <= MAX_ELEMENTS
      && (forall i :: 0 <= i < |commands| ==> ValidCommand(commands[i], |inputs|, i))
      && (forall a :: a in given && a.Input? ==> a.index < |inputs|)
      && (forall a :: a in given && a.Outcome? ==> a.index < |commands|)
    }

    constructor ()
      ensures Valid() && inputs == [] && commands == [] && requests == [] && given == {}
    {
      inputs, commands, requests, given := [], [], [], {};
    }

    /** Adds the byte string of one Move value. */
    method AddPure(value: Option<seq<byte>>) returns (a: Option<Argument>)
      requires Valid()
      modifies this
      ensures Valid() && commands == old(commands)
      ensures given == old(given) + (if a.Some? then {a.value} else {})
      ensures value.None? ==> a.None? && requests == old(requests)
      ensures value.Some? ==> requests == old(requests) + [PureValue(value.value)]
      ensures value.Some? && |old(inputs)| < 65536 ==>
                a == Some(Input(|old(inputs)|)) && inputs == old(inputs) + [Pure(value.value)]
      ensures value.Some? && |old(inputs)| >= 65536 ==> a.None?
    {
      if value.None? { return None; }
      ghost var r := PureValue(value.value);
      RequestNext(requests, r);
      CommandsStay(commands, inputs, r);
      requests := requests + [r];
      a := AddInput(Pure(value.value));
      if a.Some? { given := given + {a.value}; }
    }

    method AddInput(input: TxInput) returns (a: Option<Argument>)
      requires |inputs| <= MAX_ELEMENTS
      modifies this`inputs
      ensures inputs == if |old(inputs)| >= MAX_ELEMENTS then old(inputs) else old(inputs) + [input]
      ensures a == if |old(inputs)| >= MAX_ELEMENTS then None else Some(Input(|old(inputs)|))
    {
      if |inputs| >= MAX_ELEMENTS { return None; }
      inputs := inputs + [input];
      return Some(Input(|inputs| - 1));
    }

    /** Adds an object, or returns the input that already holds it. */
    method AddObject(kind: ObjectKind, o: ObjectInput) returns (a: Option<Argument>)
      requires Valid()
      modifies this
      ensures Valid() && commands == old(commands)
      ensures requests == old(requests) + [ObjectValue(kind, o)]
      ensures given == old(given) + (if a.Some? then {a.value} else {})
      ensures a.Some? <==> Add(old(inputs), ObjectValue(kind, o)).Some?
      ensures a.Some? ==> a.value.Input? && a.value.index == Add(old(inputs), ObjectValue(kind, o)).value.1
      ensures a.Some? ==>
                && a.value.index < |inputs| && inputs[a.value.index].Object?
                && inputs[a.value.index].kind == kind && inputs[a.value.index].ref.address == o.address
                && inputs[a.value.index].ref.version == o.version
                && (o.mutable ==> inputs[a.value.index].ref.mutable)
    {
      hide ValidCommand, AddAll, DistinctObjects;
      ghost var r := ObjectValue(kind, o);
      RequestNext(requests, r);
      CommandsStay(commands, inputs, r);
      requests := requests + [r];
      if !ValidInput(Object(kind, o)) { return None; }
      for index := 0 to |inputs|
        invariant inputs == old(inputs) && commands == old(commands)
        invariant requests == old(requests) + [r] && given == old(given)
        invariant forall k :: 0 <= k < index && inputs[k].Object? ==> inputs[k].ref.address != o.address
      {
        var existing := inputs[index];
        if existing.Pure? || existing.ref.address != o.address { continue; }
        FindFirst(inputs, o.address, index);
        if existing.kind != kind { return None; }
        if kind == Shared {
          if existing.ref.version != o.version { return None; }
          if o.mutable {
            inputs := inputs[index := Object(kind, existing.ref.(mutable := true))];
          }
          given := given + {Input(index)};
          return Some(Input(index));
        }
        if existing.ref != o { return None; }
        given := given + {Input(index)};
        return Some(Input(index));
      }
      a := AddInput(Object(kind, o));
      if a.Some? { given := given + {a.value}; }
    }

    /** The argument is the gas coin, or was returned by this builder, or is one value of such a result. */
    ghost predicate Given(a: Argument)
      reads this
    { a == Gas || a in given || (exists r :: r in given && exists n :: NestedResult(r, n) == Some(a)) }

    /** Appends a command that refers to existing inputs and earlier results. A command whose arguments
        were all given by this builder is refused only for its other fields, or when there is no room. */
    method AddCommand(c: Command) returns (a: Option<Argument>)
      requires Valid()
      modifies this`commands, this`given
      ensures Valid() && given == old(given) + (if a.Some? then {a.value} else {})
      ensures old(forall x :: x in ArgumentsOf(c) ==> Given(x)) && |old(commands)| < 65536 ==>
                (a.Some? <==> match c
                              case MoveCall(package, m, f, ts, _) =>
                                && package != ZeroBytes(32) && TrimSpace(m) != "" && TrimSpace(f) != ""
                                && forall i :: 0 <= i < |ts| ==> TrimSpace(ts[i]) != ""
                              case MakeMoveVec(t, _) => TrimSpace(t) != ""
                              case _ => 2 <= |ArgumentsOf(c)| <= 65537)
      ensures a.Some? <==> ValidCommand(c, |inputs|, |old(commands)|) && |old(commands)| < MAX_ELEMENTS
      ensures commands == if a.Some? then old(commands) + [c] else old(commands)
      ensures a.Some? ==> a.value == Outcome(|old(commands)|, None)
    {
      hide ValidCommand, ArgumentsOf, TrimSpace;
      CommandRule(c, |inputs|, |commands|);
      var ok := ValidateCommand(c, |inputs|, |commands|);
      if !ok || |commands| >= MAX_ELEMENTS { return None; }
      commands := commands + [c];
      given := given + {Outcome(|commands| - 1, None)};
      return Some(Outcome(|commands| - 1, None));
    }

    /** A snapshot; it succeeds exactly when a command was added. */
    method Build() returns (t: Option<Programmable>)
      requires Valid()
      ensures t == if commands == [] then None else Some(Programmable(inputs, commands))
    {
      hide ValidCommand, ValidInput, DistinctObjects;
      var built := Programmable(inputs, commands);
      var ok := ValidateProgrammable(built);
      if !ok { return None; }
      return Some(built);
    }
  }

  /** One value of a command's result. */
  function NestedResult(result: Argument, index: u16): Option<Argument> {
    if !result.Outcome? || result.sub.Some? then None else Some(Outcome(result.index, Some(index)))
  }

  lemma RequestNext(rs: seq<Request>, r: Request)
    ensures
      var inputs, added := AddAll(rs), Add(AddAll(rs), r);
      AddAll(rs + [r]) == if added.Some? then added.value.0 else inputs
    ensures GoodInputs(AddAll(rs + [r]))
  {
    assert (rs + [r])[..|rs|] == rs;
    AllGood(rs + [r]);
  }

  /** Commands stay valid when the inputs grow. */
  lemma CommandsStay(cs: seq<Command>, inputs: seq<TxInput>, r: Request)
    requires GoodInputs(inputs)
    requires forall i :: 0 <= i < |cs| ==> ValidCommand(cs[i], |inputs|, i)
    ensures Add(inputs, r).Some? ==>
              forall i :: 0 <= i < |cs| ==> ValidCommand(cs[i], |Add(inputs, r).value.0|, i)
  {
    if Add(inputs, r).Some? {
      AddKeeps(inputs, r);
      forall i | 0 <= i < |cs|
        ensures ValidCommand(cs[i], |Add(inputs, r).value.0|, i)
      {
        MoreInputs(cs[i], |inputs|, |Add(inputs, r).value.0|, i);
      }
    }
  }

  lemma MoreInputs(c: Command, n: nat, m: nat, commands: nat)
    requires n <= m && ValidCommand(c, n, commands)
    ensures ValidCommand(c, m, commands)
  {
  }

  lemma {:induction false} FindFirst(inputs: seq<TxInput>, address: Address, i: nat)
    requires i < |inputs| && inputs[i].Object? && inputs[i].ref.address == address
    requires forall k :: 0 <= k < i && inputs[k].Object? ==> inputs[k].ref.address != address
    ensures Find(inputs, address) == Some(i)
  {
    var n := |inputs| - 1;
    if i < n { FindFirst(inputs[..n], address, i); }
  }
}
