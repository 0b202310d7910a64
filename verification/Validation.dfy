/** The validators: loops with a record of the addresses seen so far. */
module Validation {
  import opened Strings
  import opened Bytes
  import opened TypeTags
  import opened Transactions
  import TypeParser

  method ValidateArguments(vs: seq<Argument>, inputs: nat, commands: nat) returns (ok: bool)
    ensures ok == ValidArguments(vs, inputs, commands)
  {
    for i := 0 to |vs|
      invariant forall k :: 0 <= k < i ==> ValidArgument(vs[k], inputs, commands)
    {
      if !ValidArgument(vs[i], inputs, commands) { return false; }
    }
    return true;
  }

  method ValidateCoinCommand(a: Argument, vs: seq<Argument>, inputs: nat, commands: nat) returns (ok: bool)
    ensures ok == ValidCoinCommand(a, vs, inputs, commands)
  {
    if |vs| == 0 || |vs| > MAX_ELEMENTS { return false; }
    if !ValidArgument(a, inputs, commands) { return false; }
    ok := ValidateArguments(vs, inputs, commands);
  }

  method ValidateCommand(c: Command, inputs: nat, commands: nat) returns (ok: bool)
    ensures ok == ValidCommand(c, inputs, commands)
  {
    hide TrimSpace;
    match c
    case MoveCall(package, m, f, ts, vs) =>
      if package == ZERO || TrimSpace(m) == "" || TrimSpace(f) == "" { return false; }
      for i := 0 to |ts|
        invariant forall k :: 0 <= k < i ==> TrimSpace(ts[k]) != ""
      {
        if TrimSpace(ts[i]) == "" { return false; }
      }
      ok := ValidateArguments(vs, inputs, commands);
    case MakeMoveVec(t, vs) =>
      if TrimSpace(t) == "" { return false; }
      ok := ValidateArguments(vs, inputs, commands);
    case SplitCoins(a, vs) => ok := ValidateCoinCommand(a, vs, inputs, commands);
    case MergeCoins(a, vs) => ok := ValidateCoinCommand(a, vs, inputs, commands);
    case TransferObjects(vs, a) => ok := ValidateCoinCommand(a, vs, inputs, commands);
  }

  /** Addresses of the object inputs among the first `n`. */
  ghost function Addresses(inputs: seq<TxInput>, n: nat): set<Address>
    requires n <= |inputs|
  {
    set i | 0 <= i < n && inputs[i].Object? :: inputs[i].ref.address
  }

  method ValidateInputs(inputs: seq<TxInput>) returns (ok: bool)
    ensures ok <==> (forall i :: 0 <= i < |inputs| ==> ValidInput(inputs[i])) && DistinctObjects(inputs)
  {
    var seen: map<Address, nat> := map[];
    for i := 0 to |inputs|
      invariant forall k :: 0 <= k < i ==> ValidInput(inputs[k])
      invariant DistinctObjects(inputs[..i])
      invariant seen.Keys == Addresses(inputs, i)
    {
      var input := inputs[i];
      if !ValidInput(input) { return false; }
      DistinctNext(inputs, i);
      if input.Object? {
        if input.ref.address in seen { return false; }
        seen := seen[input.ref.address := i];
      }
    }
    assert inputs[..|inputs|] == inputs;
    return true;
  }

  lemma DistinctNext(inputs: seq<TxInput>, i: nat)
    requires i < |inputs| && DistinctObjects(inputs[..i])
    ensures DistinctObjects(inputs[..i+1]) <==>
              (inputs[i].Object? ==> inputs[i].ref.address !in Addresses(inputs, i))
    ensures !DistinctObjects(inputs[..i+1]) ==> !DistinctObjects(inputs)
  {
    var a, b := inputs[..i], inputs[..i+1];
    assert forall k :: 0 <= k < i ==> a[k] == b[k] == inputs[k];
    assert b[i] == inputs[i];
    if inputs[i].Object? && inputs[i].ref.address in Addresses(inputs, i) {
      var k :| 0 <= k < i && inputs[k].Object? && inputs[k].ref.address == inputs[i].ref.address;
      assert b[k].ref.address == b[i].ref.address;
    }
  }

  method ValidateProgrammable(t: Programmable) returns (ok: bool)
    ensures ok == ValidProgrammable(t)
  {
    hide DistinctObjects, ValidInput, ValidCommand;
    if |t.inputs| > MAX_ELEMENTS || |t.commands| > MAX_ELEMENTS { return false; }
    if |t.commands| == 0 { return false; }
    var inputs := ValidateInputs(t.inputs);
    if !inputs { return false; }
    for i := 0 to |t.commands|
      invariant forall k :: 0 <= k < i ==> ValidCommand(t.commands[k], |t.inputs|, k)
    {
      var valid := ValidateCommand(t.commands[i], |t.inputs|, i);
      if !valid { return false; }
    }
    return true;
  }

  method ValidatePayment(payment: seq<ObjectReference>, inputs: seq<TxInput>) returns (ok: bool)
    ensures ok == ((forall i :: 0 <= i < |inputs| ==> Encodable(inputs[i])) && ValidPayment(payment, inputs))
  {
    hide Encodable;
    var objects: set<Address> := {};
    for i := 0 to |inputs|
      invariant forall k :: 0 <= k < i ==> Encodable(inputs[k])
      invariant objects == Addresses(inputs, i)
    {
      if !Encodable(inputs[i]) { return false; }
      if inputs[i].Object? { objects := objects + {inputs[i].ref.address}; }
    }
    for i := 0 to |payment|
      invariant objects == Addresses(inputs, |inputs|) + set k | 0 <= k < i :: payment[k].address
      invariant ValidPayment(payment[..i], inputs)
    {
      var p := payment[i];
      assert payment[..i+1][i] == p && forall k :: 0 <= k < i ==> payment[..i+1][k] == payment[..i][k] == payment[k];
      if !ValidReference(p) { return false; }
      if p.address in objects { return false; }
      objects := objects + {p.address};
    }
    assert payment[..|payment|] == payment;
    return true;
  }

  method ValidateTypes(c: Command) returns (ok: bool)
    ensures ok == Typed(c)
  {
    hide Parse, ValidIdentifier;
    match c
    case MoveCall(_, m, f, ts, vs) =>
      if !ValidIdentifier(m) || !ValidIdentifier(f) { return false; }
      if |ts| > MAX_ELEMENTS || |vs| > MAX_ELEMENTS { return false; }
      for i := 0 to |ts|
        invariant forall k :: 0 <= k < i ==> Parse(ts[k]).Some?
      {
        var tag := TypeParser.ParseTypeTag(ts[i]);
        if tag.None? { return false; }
      }
      return true;
    case MakeMoveVec(t, vs) =>
      if |vs| > MAX_ELEMENTS { return false; }
      var tag := TypeParser.ParseTypeTag(t);
      return tag.Some?;
    case _ =>
      return true;
  }

  method Validate(t: TransactionData) returns (ok: bool)
    ensures ok == ValidData(t)
  {
    hide ValidProgrammable, ValidPayment, Encodable, Typed;
    if t.sender == ZERO || t.gas.owner == ZERO { return false; }
    if t.gas.price == 0 || t.gas.budget == 0 { return false; }
    if |t.gas.payment| == 0 || |t.gas.payment| > MAX_ELEMENTS { return false; }
    var programmable := ValidateProgrammable(t.transaction);
    if !programmable { return false; }
    var payment := ValidatePayment(t.gas.payment, t.transaction.inputs);
    if !payment { return false; }
    for i := 0 to |t.transaction.commands|
      invariant forall k :: 0 <= k < i ==> Typed(t.transaction.commands[k])
    {
      var typed := ValidateTypes(t.transaction.commands[i]);
      if !typed { return false; }
    }
    return true;
  }
}
