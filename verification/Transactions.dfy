/** Sui programmable transactions: the data, what counts as valid, and their one encoding. */
module Transactions {
  import opened Wrappers
  import opened Strings
  import opened Bytes
  import opened TypeTags
  import Utf8

  type u16 = x: int | 0 <= x < 0x1_0000
  type u64 = x: int | 0 <= x < 0x1_0000_0000_0000_0000

  const ZERO: Address := ZeroBytes(32)

  datatype Argument = Gas | Input(index: u16) | Outcome(index: u16, sub: Option<u16>)

  datatype ObjectKind = ImmutableOrOwned | Shared | Receiving

  datatype ObjectInput = ObjectInput(address: Address, version: u64, digest: Address, mutable: bool)

  datatype TxInput = Pure(value: seq<byte>) | Object(kind: ObjectKind, ref: ObjectInput)

  datatype Command =
    | MoveCall(package: Address, moduleName: string, functionName: string,
               typeArguments: seq<string>, arguments: seq<Argument>)
    | MakeMoveVec(elementType: string, elements: seq<Argument>)
    | SplitCoins(coin: Argument, amounts: seq<Argument>)
    | MergeCoins(destination: Argument, sources: seq<Argument>)
    | TransferObjects(objects: seq<Argument>, address: Argument)

  datatype Programmable = Programmable(inputs: seq<TxInput>, commands: seq<Command>)

  datatype ObjectReference = ObjectReference(address: Address, version: u64, digest: Address)

  datatype GasData = GasData(payment: seq<ObjectReference>, owner: Address, price: u64, budget: u64)

  datatype TransactionData = TransactionData(
    transaction: Programmable, sender: Address, gas: GasData, expiration: Option<u64>)

  // ---------- Validity ----------

  /** An argument may use inputs, and results of commands before the current one. */
  predicate ValidArgument(a: Argument, inputs: nat, commands: nat) {
    match a
    case Gas => true
    case Input(i) => i < inputs
    case Outcome(i, _) => i < commands
  }

  predicate ValidArguments(vs: seq<Argument>, inputs: nat, commands: nat) {
    forall i :: 0 <= i < |vs| ==> ValidArgument(vs[i], inputs, commands)
  }

  predicate ValidInput(i: TxInput) {
    i.Pure? ||
    (i.ref.address != ZERO && i.ref.version != 0 && (i.kind != Shared ==> i.ref.digest != ZERO))
  }

  predicate NoneBlank(ts: seq<string>) {
    forall i :: 0 <= i < |ts| ==> TrimSpace(ts[i]) != ""
  }

  predicate AllParse(ts: seq<string>) {
    forall i :: 0 <= i < |ts| ==> Parse(ts[i]).Some?
  }

  predicate ValidCommand(c: Command, inputs: nat, commands: nat) {
    match c
    case MoveCall(package, m, f, ts, vs) =>
      && package != ZERO && TrimSpace(m) != "" && TrimSpace(f) != ""
      && NoneBlank(ts)
      && ValidArguments(vs, inputs, commands)
    case MakeMoveVec(t, vs) => TrimSpace(t) != "" && ValidArguments(vs, inputs, commands)
    case SplitCoins(a, vs) => ValidCoinCommand(a, vs, inputs, commands)
    case MergeCoins(a, vs) => ValidCoinCommand(a, vs, inputs, commands)
    case TransferObjects(vs, a) => ValidCoinCommand(a, vs, inputs, commands)
  }

  predicate ValidCoinCommand(a: Argument, vs: seq<Argument>, inputs: nat, commands: nat) {
    && 1 <= |vs| <= MAX_ELEMENTS
    && ValidArgument(a, inputs, commands) && ValidArguments(vs, inputs, commands)
  }

  predicate DistinctObjects(inputs: seq<TxInput>) {
    forall i, j :: 0 <= i < j < |inputs| && inputs[i].Object? && inputs[j].Object? ==>
      inputs[i].ref.address != inputs[j].ref.address
  }

  predicate ValidProgrammable(t: Programmable) {
    && |t.inputs| <= MAX_ELEMENTS && 1 <= |t.commands| <= MAX_ELEMENTS
    && (forall i :: 0 <= i < |t.inputs| ==> ValidInput(t.inputs[i]))
    && DistinctObjects(t.inputs)
    && (forall i :: 0 <= i < |t.commands| ==> ValidCommand(t.commands[i], |t.inputs|, i))
  }

  /** Nothing is set that the encoding of the input would drop. */
  predicate Encodable(i: TxInput) {
    match i
    case Pure(v) => |v| <= MAX_DATA
    case Object(kind, o) => if kind == Shared then o.digest == ZERO else !o.mutable
  }

  predicate ValidReference(r: ObjectReference) {
    r.address != ZERO && r.version != 0 && r.digest != ZERO
  }

  /** Gas coins are valid and differ from each other and from the object inputs. */
  predicate ValidPayment(payment: seq<ObjectReference>, inputs: seq<TxInput>) {
    forall i :: 0 <= i < |payment| ==>
      && ValidReference(payment[i])
      && (forall j :: 0 <= j < |inputs| && inputs[j].Object? ==> inputs[j].ref.address != payment[i].address)
      && (forall j :: 0 <= j < i ==> payment[j].address != payment[i].address)
  }

  /** The type texts of the command parse. */
  predicate TypesParse(c: Command) {
    match c
    case MoveCall(_, _, _, ts, _) => AllParse(ts)
    case MakeMoveVec(t, _) => Parse(t).Some?
    case _ => true
  }

  predicate Typed(c: Command) {
    match c
    case MoveCall(_, m, f, ts, vs) =>
      && ValidIdentifier(m) && ValidIdentifier(f)
      && |ts| <= MAX_ELEMENTS && |vs| <= MAX_ELEMENTS
      && AllParse(ts)
    case MakeMoveVec(t, vs) => |vs| <= MAX_ELEMENTS && Parse(t).Some?
    case _ => true
  }

  predicate ValidData(t: TransactionData) {
    && t.sender != ZERO && t.gas.owner != ZERO && t.gas.price != 0 && t.gas.budget != 0
    && 1 <= |t.gas.payment| <= MAX_ELEMENTS
    && ValidProgrammable(t.transaction)
    && (forall i :: 0 <= i < |t.transaction.inputs| ==> Encodable(t.transaction.inputs[i]))
    && ValidPayment(t.gas.payment, t.transaction.inputs)
    && (forall i :: 0 <= i < |t.transaction.commands| ==> Typed(t.transaction.commands[i]))
  }

  // ---------- The rules written out ----------

  /** All arguments of a command, in the order of its fields. */
  function ArgumentsOf(c: Command): seq<Argument> {
    match c
    case MoveCall(_, _, _, _, vs) => vs
    case MakeMoveVec(_, vs) => vs
    case SplitCoins(a, vs) => [a] + vs
    case MergeCoins(a, vs) => [a] + vs
    case TransferObjects(vs, a) => vs + [a]
  }

  /** A command is valid at a position exactly when its names and types are not blank, a coin command
      has one to 65536 arguments besides its single one, every input it names exists, and every result
      it names is that of an earlier command. */
  lemma CommandRule(c: Command, inputs: nat, position: nat)
    ensures ValidCommand(c, inputs, position) <==>
            && (match c
                case MoveCall(package, m, f, ts, _) =>
                  && package != ZeroBytes(32) && TrimSpace(m) != "" && TrimSpace(f) != ""
                  && forall i :: 0 <= i < |ts| ==> TrimSpace(ts[i]) != ""
                case MakeMoveVec(t, _) => TrimSpace(t) != ""
                case _ => 2 <= |ArgumentsOf(c)| <= 65537)
            && (forall a :: a in ArgumentsOf(c) && a.Input? ==> a.index < inputs)
            && (forall a :: a in ArgumentsOf(c) && a.Outcome? ==> a.index < position)
  {
    hide TrimSpace, ValidArgument, ValidArguments;
    var all := ArgumentsOf(c);
    InBounds(all, inputs, position);
    match c
    case MoveCall(_, _, _, _, vs) =>
    case MakeMoveVec(_, vs) =>
    case SplitCoins(a, vs) => OneAndMany([a], vs, inputs, position);
    case MergeCoins(a, vs) => OneAndMany([a], vs, inputs, position);
    case TransferObjects(vs, a) => OneAndMany(vs, [a], inputs, position);
  }

  lemma InBounds(all: seq<Argument>, inputs: nat, position: nat)
    ensures ValidArguments(all, inputs, position) <==>
            && (forall a :: a in all && a.Input? ==> a.index < inputs)
            && (forall a :: a in all && a.Outcome? ==> a.index < position)
  {
    if ValidArguments(all, inputs, position) {
      forall a | a in all
        ensures ValidArgument(a, inputs, position)
      {
      }
    }
    if (forall a :: a in all && a.Input? ==> a.index < inputs) &&
       (forall a :: a in all && a.Outcome? ==> a.index < position)
    {
      forall i | 0 <= i < |all|
        ensures ValidArgument(all[i], inputs, position)
      {
        assert all[i] in all;
      }
    }
  }

  lemma OneAndMany(vs: seq<Argument>, more: seq<Argument>, inputs: nat, position: nat)
    ensures ValidArguments(vs + more, inputs, position) <==>
            ValidArguments(vs, inputs, position) && ValidArguments(more, inputs, position)
    ensures forall a :: ValidArguments([a], inputs, position) <==> ValidArgument(a, inputs, position)
  {
    hide ValidArgument;
    var all := vs + more;
    if ValidArguments(all, inputs, position) {
      assert forall i :: 0 <= i < |vs| ==> all[i] == vs[i];
      assert forall i :: 0 <= i < |more| ==> all[|vs| + i] == more[i];
    }
    forall a
      ensures ValidArguments([a], inputs, position) <==> ValidArgument(a, inputs, position)
    {
      assert [a][0] == a;
    }
  }

  /** Which transactions are valid: at most 65536 inputs, one to 65536 commands, objects with an
      address, a version and, unless shared, a digest, no object twice, and commands whose names are
      not blank and which use existing inputs and earlier results only. */
  lemma ProgrammableRule(t: Programmable)
    ensures ValidProgrammable(t) <==>
            && |t.inputs| <= 65536 && 1 <= |t.commands| <= 65536
            && (forall i :: 0 <= i < |t.inputs| && t.inputs[i].Object? ==>
                  && t.inputs[i].ref.address != ZeroBytes(32) && t.inputs[i].ref.version != 0
                  && (t.inputs[i].kind != Shared ==> t.inputs[i].ref.digest != ZeroBytes(32)))
            && (forall i, j :: 0 <= i < j < |t.inputs| && t.inputs[i].Object? && t.inputs[j].Object? ==>
                  t.inputs[i].ref.address != t.inputs[j].ref.address)
            && (forall i :: 0 <= i < |t.commands| ==>
                  match t.commands[i]
                  case MoveCall(package, m, f, ts, _) =>
                    && package != ZeroBytes(32) && TrimSpace(m) != "" && TrimSpace(f) != ""
                    && forall i :: 0 <= i < |ts| ==> TrimSpace(ts[i]) != ""
                  case MakeMoveVec(e, _) => TrimSpace(e) != ""
                  case _ => 2 <= |ArgumentsOf(t.commands[i])| <= 65537)
            && (forall i, a :: 0 <= i < |t.commands| && a in ArgumentsOf(t.commands[i]) ==>
                  (a.Input? ==> a.index < |t.inputs|) && (a.Outcome? ==> a.index < i))
  {
    hide ValidCommand, ArgumentsOf, TrimSpace;
    forall i | 0 <= i < |t.commands|
      ensures ValidCommand(t.commands[i], |t.inputs|, i) <==>
              && (match t.commands[i]
                  case MoveCall(package, m, f, ts, _) =>
                    && package != ZeroBytes(32) && TrimSpace(m) != "" && TrimSpace(f) != ""
                    && forall i :: 0 <= i < |ts| ==> TrimSpace(ts[i]) != ""
                  case MakeMoveVec(e, _) => TrimSpace(e) != ""
                  case _ => 2 <= |ArgumentsOf(t.commands[i])| <= 65537)
              && (forall a :: a in ArgumentsOf(t.commands[i]) && a.Input? ==> a.index < |t.inputs|)
              && (forall a :: a in ArgumentsOf(t.commands[i]) && a.Outcome? ==> a.index < i)
    {
      CommandRule(t.commands[i], |t.inputs|, i);
    }
  }

  /** What an envelope needs besides a valid transaction. */
  lemma DataRule(t: TransactionData)
    ensures ValidData(t) <==>
            && ValidProgrammable(t.transaction)
            && t.sender != ZeroBytes(32) && t.gas.owner != ZeroBytes(32) && t.gas.price > 0 && t.gas.budget > 0
            && 1 <= |t.gas.payment| <= 65536
            && (forall i :: 0 <= i < |t.gas.payment| ==>
                  && t.gas.payment[i].address != ZeroBytes(32) && t.gas.payment[i].version > 0
                  && t.gas.payment[i].digest != ZeroBytes(32))
            && (forall i, j :: 0 <= i < j < |t.gas.payment| ==> t.gas.payment[i].address != t.gas.payment[j].address)
            && (forall i, j :: 0 <= i < |t.gas.payment| && 0 <= j < |t.transaction.inputs| ==>
                  t.transaction.inputs[j].Object? ==> t.transaction.inputs[j].ref.address != t.gas.payment[i].address)
            && (forall i :: 0 <= i < |t.transaction.inputs| ==>
                  match t.transaction.inputs[i]
                  case Pure(v) => |v| <= 1048576
                  case Object(Shared, o) => o.digest == ZeroBytes(32)
                  case Object(_, o) => !o.mutable)
            && (forall i :: 0 <= i < |t.transaction.commands| ==>
                  match t.transaction.commands[i]
                  case MoveCall(_, m, f, ts, vs) =>
                    && ValidIdentifier(m) && ValidIdentifier(f) && |ts| <= 65536 && |vs| <= 65536
                    && forall j :: 0 <= j < |ts| ==> Parse(ts[j]).Some?
                  case MakeMoveVec(e, vs) => |vs| <= 65536 && Parse(e).Some?
                  case _ => true)
  {
    hide ValidProgrammable, ValidIdentifier, Parse;
  }

  // ---------- Encoding ----------

  function WriteArgument(a: Argument): seq<byte> {
    match a
    case Gas => Uleb(0)
    case Input(i) => Uleb(1) + Le(i, 2)
    case Outcome(i, None) => Uleb(2) + Le(i, 2)
    case Outcome(i, Some(j)) => Uleb(3) + (Le(i, 2) + Le(j, 2))
  }

  function WriteReference(r: ObjectReference): seq<byte> {
    r.address + (Le(r.version, 8) + Blob(r.digest))
  }

  function WriteFlag(b: bool): seq<byte> { if b then [1] else [0] }

  function KindNumber(k: ObjectKind): nat {
    match k case ImmutableOrOwned => 0 case Shared => 1 case Receiving => 2
  }

  function WriteInput(i: TxInput): seq<byte> {
    match i
    case Pure(v) => Uleb(0) + Blob(v)
    case Object(k, o) =>
      Uleb(1) + (Uleb(KindNumber(k)) +
        (if k == Shared then o.address + (Le(o.version, 8) + WriteFlag(o.mutable))
         else WriteReference(ObjectReference(o.address, o.version, o.digest))))
  }

  /** A type is encoded from its parsed tag; a text that does not parse is never encoded. */
  function WriteType(text: string): seq<byte> {
    var tag := Parse(text);
    if tag.Some? then Write(tag.value) else []
  }

  function WriteText(t: string): seq<byte> { Blob(Utf8.Encode(t)) }

  function WriteArguments(vs: seq<Argument>): seq<byte> { List(WriteArgument, vs) }

  function WriteTypes(ts: seq<string>): seq<byte> { List(WriteType, ts) }

  function WriteCommand(c: Command): seq<byte> {
    match c
    case MoveCall(p, m, f, ts, vs) =>
      Uleb(0) + (p + (WriteText(m) + (WriteText(f) + (WriteTypes(ts) + WriteArguments(vs)))))
    case TransferObjects(vs, a) => Uleb(1) + (WriteArguments(vs) + WriteArgument(a))
    case SplitCoins(a, vs) => Uleb(2) + (WriteArgument(a) + WriteArguments(vs))
    case MergeCoins(a, vs) => Uleb(3) + (WriteArgument(a) + WriteArguments(vs))
    case MakeMoveVec(t, vs) => Uleb(5) + (Uleb(1) + (WriteType(t) + WriteArguments(vs)))
  }

  function WriteInputs(vs: seq<TxInput>): seq<byte> { List(WriteInput, vs) }

  function WriteCommands(vs: seq<Command>): seq<byte> { List(WriteCommand, vs) }

  function WriteProgrammable(t: Programmable): seq<byte> {
    WriteInputs(t.inputs) + WriteCommands(t.commands)
  }

  function WriteExpiration(e: Option<u64>): seq<byte> {
    match e case None => Uleb(0) case Some(v) => Uleb(1) + Le(v, 8)
  }

  function WriteReferences(vs: seq<ObjectReference>): seq<byte> { List(WriteReference, vs) }

  function WriteGas(g: GasData): seq<byte> {
    WriteReferences(g.payment) + (g.owner + (Le(g.price, 8) + Le(g.budget, 8)))
  }

  function Encode(t: TransactionData): seq<byte> {
    Uleb(0) + (Uleb(0) + (WriteProgrammable(t.transaction) + (t.sender +
      (WriteGas(t.gas) + WriteExpiration(t.expiration)))))
  }

  function Marshal(t: TransactionData): Option<seq<byte>> {
    if !ValidData(t) || |Encode(t)| > MAX_DATA then None else Some(Encode(t))
  }

  // ---------- Decoding ----------

  function ReadU16(s: seq<byte>): Parsed<u16> {
    LeLimits();
    var v := ReadLe(2, s);
    if v.None? then None else FromLeInverse(s[..2]); Some((v.value.0, v.value.1))
  }

  function ReadU64(s: seq<byte>): Parsed<u64> {
    LeLimits();
    var v := ReadLe(8, s);
    if v.None? then None else FromLeInverse(s[..8]); Some((v.value.0, v.value.1))
  }

  lemma LeLimits()
    ensures Pow256(2) == 0x1_0000 && Pow256(8) == 0x1_0000_0000_0000_0000
  {
    assert Pow256(4) == 0x1_0000_0000;
  }

  function ReadArgument(s: seq<byte>): Parsed<Argument> {
    var k := ReadUleb(s);
    if k.None? then None
    else if k.value.0 == 0 then Some((Gas, k.value.1))
    else if k.value.0 > 3 then None
    else
      var i := ReadU16(k.value.1);
      if i.None? then None
      else if k.value.0 == 1 then Some((Input(i.value.0), i.value.1))
      else if k.value.0 == 2 then Some((Outcome(i.value.0, None), i.value.1))
      else
        var j := ReadU16(i.value.1);
        if j.None? then None else Some((Outcome(i.value.0, Some(j.value.0)), j.value.1))
  }

  function ReadReference(s: seq<byte>): Parsed<ObjectReference> {
    var a := ReadAddress(s);
    if a.None? then None
    else
      var v := ReadU64(a.value.1);
      if v.None? then None
      else
        var d := ReadBlob(v.value.1);
        if d.None? || |d.value.0| != 32 then None
        else Some((ObjectReference(a.value.0, v.value.0, d.value.0), d.value.1))
  }

  function ReadFlag(s: seq<byte>): Parsed<bool> {
    if s == [] || s[0] > 1 then None else Some((s[0] == 1, s[1..]))
  }

  function ReadSharedObject(s: seq<byte>): Parsed<ObjectInput> {
    var a := ReadAddress(s);
    if a.None? then None
    else
      var v := ReadU64(a.value.1);
      if v.None? then None
      else
        var m := ReadFlag(v.value.1);
        if m.None? then None
        else Some((ObjectInput(a.value.0, v.value.0, ZERO, m.value.0), m.value.1))
  }

  function ReadInput(s: seq<byte>): Parsed<TxInput> {
    var k := ReadUleb(s);
    if k.None? then None
    else if k.value.0 == 0 then
      var b := ReadBlob(k.value.1);
      if b.None? then None else Some((Pure(b.value.0), b.value.1))
    else if k.value.0 == 1 then ReadObjectInput(k.value.1)
    else None
  }

  function ReadObjectInput(s: seq<byte>): Parsed<TxInput> {
    var k := ReadUleb(s);
    if k.None? || k.value.0 > 2 then None
    else if k.value.0 == 1 then
      var o := ReadSharedObject(k.value.1);
      if o.None? then None else Some((Object(Shared, o.value.0), o.value.1))
    else
      var r := ReadReference(k.value.1);
      if r.None? then None
      else
        var ObjectReference(a, v, d) := r.value.0;
        Some((Object(if k.value.0 == 0 then ImmutableOrOwned else Receiving, ObjectInput(a, v, d, false)), r.value.1))
  }

  function ReadType(s: seq<byte>): Parsed<string> {
    var tag := Read(0, s);
    if tag.None? then None else Some((Text(tag.value.0), tag.value.1))
  }

  function ReadArguments(s: seq<byte>): Parsed<seq<Argument>> { ReadList(ReadArgument, s) }

  function ReadTypes(s: seq<byte>): Parsed<seq<string>> { ReadList(ReadType, s) }

  function ReadMoveCall(s: seq<byte>): Parsed<Command> {
    var p := ReadAddress(s);
    if p.None? then None
    else
      var m := ReadText(p.value.1);
      if m.None? then None
      else
        var f := ReadText(m.value.1);
        if f.None? then None
        else
          var ts := ReadTypes(f.value.1);
          if ts.None? then None
          else
            var vs := ReadArguments(ts.value.1);
            if vs.None? then None
            else Some((MoveCall(p.value.0, m.value.0, f.value.0, ts.value.0, vs.value.0), vs.value.1))
  }

  /** One argument and then a list of them. */
  function ReadOneAndMany(s: seq<byte>): Parsed<(Argument, seq<Argument>)> {
    var a := ReadArgument(s);
    if a.None? then None
    else
      var vs := ReadArguments(a.value.1);
      if vs.None? then None else Some(((a.value.0, vs.value.0), vs.value.1))
  }

  function ReadTransfer(s: seq<byte>): Parsed<Command> {
    var vs := ReadArguments(s);
    if vs.None? then None
    else
      var a := ReadArgument(vs.value.1);
      if a.None? then None else Some((TransferObjects(vs.value.0, a.value.0), a.value.1))
  }

  function ReadVector(s: seq<byte>): Parsed<Command> {
    var some := ReadUleb(s);
    if some.None? || some.value.0 != 1 then None
    else
      var t := ReadType(some.value.1);
      if t.None? then None
      else
        var vs := ReadArguments(t.value.1);
        if vs.None? then None else Some((MakeMoveVec(t.value.0, vs.value.0), vs.value.1))
  }

  function ReadCommand(s: seq<byte>): Parsed<Command> {
    var k := ReadUleb(s);
    if k.None? then None
    else
      var (n, r) := k.value;
      if n == 0 then ReadMoveCall(r)
      else if n == 1 then ReadTransfer(r)
      else if n == 2 || n == 3 then
        var c := ReadOneAndMany(r);
        if c.None? then None
        else
          var (a, vs) := c.value.0;
          Some((if n == 2 then SplitCoins(a, vs) else MergeCoins(a, vs), c.value.1))
      else if n == 5 then ReadVector(r)
      else None
  }

  function ReadInputs(s: seq<byte>): Parsed<seq<TxInput>> { ReadList(ReadInput, s) }

  function ReadCommands(s: seq<byte>): Parsed<seq<Command>> { ReadList(ReadCommand, s) }

  function ReadProgrammable(s: seq<byte>): Parsed<Programmable> {
    var inputs := ReadInputs(s);
    if inputs.None? then None
    else
      var commands := ReadCommands(inputs.value.1);
      if commands.None? then None
      else Some((Programmable(inputs.value.0, commands.value.0), commands.value.1))
  }

  function ReadReferences(s: seq<byte>): Parsed<seq<ObjectReference>> { ReadList(ReadReference, s) }

  function ReadGas(s: seq<byte>): Parsed<GasData> {
    var payment := ReadReferences(s);
    if payment.None? then None
    else
      var owner := ReadAddress(payment.value.1);
      if owner.None? then None
      else
        var price := ReadU64(owner.value.1);
        if price.None? then None
        else
          var budget := ReadU64(price.value.1);
          if budget.None? then None
          else Some((GasData(payment.value.0, owner.value.0, price.value.0, budget.value.0), budget.value.1))
  }

  function ReadExpiration(s: seq<byte>): Parsed<Option<u64>> {
    var k := ReadUleb(s);
    if k.None? || k.value.0 > 1 then None
    else if k.value.0 == 0 then Some((None, k.value.1))
    else
      var v := ReadU64(k.value.1);
      if v.None? then None else Some((Some(v.value.0), v.value.1))
  }

  function ReadZero(s: seq<byte>): Parsed<()> {
    var k := ReadUleb(s);
    if k.None? || k.value.0 != 0 then None else Some(((), k.value.1))
  }

  function ReadData(s: seq<byte>): Parsed<TransactionData> {
    var version := ReadZero(s);
    if version.None? then None
    else
      var kind := ReadZero(version.value.1);
      if kind.None? then None
      else
        var t := ReadProgrammable(kind.value.1);
        if t.None? then None
        else
          var sender := ReadAddress(t.value.1);
          if sender.None? then None
          else
            var gas := ReadGas(sender.value.1);
            if gas.None? then None
            else
              var e := ReadExpiration(gas.value.1);
              if e.None? then None
              else Some((TransactionData(t.value.0, sender.value.0, gas.value.0, e.value.0), e.value.1))
  }

  function ParseData(data: seq<byte>): Option<TransactionData> {
    if |data| == 0 || |data| > MAX_DATA then None
    else
      var t := ReadData(data);
      if t.None? || t.value.1 != [] || !ValidData(t.value.0) then None else Some(t.value.0)
  }
}
