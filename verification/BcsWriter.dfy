/** The encoder: appends to its data until the size limit is reached; the error is sticky. */
module BcsWriter {
  import opened Wrappers
  import opened Bytes
  import opened TypeTags
  import opened Transactions
  import TypeParser
  import Utf8
  import Validation

  class Writer {
    var data: seq<byte>
    var failed: bool
    ghost var intended: seq<byte>  // all bytes handed to the writer

    /** The data is what was handed in, unless that passed the limit. */
    ghost predicate Valid()
      reads this
    {
      && (failed <==> |intended| > MAX_DATA)
      && (!failed ==> data == intended)
    }

    constructor ()
      ensures Valid() && intended == []
    {
      data, failed, intended := [], false, [];
    }

    method Raw(value: seq<byte>)
      requires Valid()
      modifies this
      ensures Valid() && intended == old(intended) + value
    {
      intended := intended + value;
      if failed { return; }
      if |value| > MAX_DATA - |data| {
        failed := true;
        return;
      }
      data := data + value;
    }

    method WriteUleb(value: nat)
      requires Valid()
      modifies this
      ensures Valid() && intended == old(intended) + Uleb(value)
    {
      var v := value;
      while v >= 128
        invariant Valid() && intended + Uleb(v) == old(intended) + Uleb(value)
        decreases v
      {
        Join(intended, [v % 128 + 128], Uleb(v / 128));
        Raw([v % 128 + 128]);
        v := v / 128;
      }
      Raw([v]);
    }

    method WriteLe(value: nat, k: nat)
      requires Valid()
      modifies this
      ensures Valid() && intended == old(intended) + Le(value, k)
    {
      Raw(Le(value, k));
    }

    method WriteBlob(value: seq<byte>)
      requires Valid()
      modifies this
      ensures Valid() && intended == old(intended) + Blob(value)
    {
      hide Uleb;
      WriteUleb(|value|);
      Raw(value);
      Join(old(intended), Uleb(|value|), value);
    }

    method WriteString(value: string)
      requires Valid()
      modifies this
      ensures Valid() && intended == old(intended) + WriteText(value)
    {
      WriteBlob(Utf8.Encode(value));
    }

    method WriteObject(r: ObjectReference)
      requires Valid()
      modifies this
      ensures Valid() && intended == old(intended) + WriteReference(r)
    {
      hide Le, Blob, Valid;
      Raw(r.address);
      WriteLe(r.version, 8);
      WriteBlob(r.digest);
      Three(old(intended), r.address, Le(r.version, 8), Blob(r.digest));
    }

    method WriteTag(tag: Tag)
      requires Valid()
      modifies this
      ensures Valid() && intended == old(intended) + Write(tag)
      decreases tag, 1
    {
      hide Uleb, WriteHead, Valid;
      match tag
      case Primitive(kind) =>
        WriteUleb(kind);
      case Vector(inner) =>
        WriteUleb(6);
        WriteTag(inner);
        Join(old(intended), Uleb(6), Write(inner));
      case Struct(a, m, n, ps) =>
        WriteUleb(7);
        WriteStructHead(a, m, n, |ps|);
        WriteTags(ps);
        Three(old(intended), Uleb(7), WriteHead(a, m, n, |ps|), WriteAll(ps));
    }

    method WriteStructHead(a: Address, m: string, n: string, count: nat)
      requires Valid()
      modifies this
      ensures Valid() && intended == old(intended) + WriteHead(a, m, n, count)
    {
      hide Uleb, Blob, Valid;
      Raw(a);
      WriteString(m);
      WriteString(n);
      WriteUleb(count);
      var x, y := Blob(Utf8.Encode(m)), Blob(Utf8.Encode(n));
      Join(old(intended) + a, x, y + Uleb(count));
      Join((old(intended) + a) + x, y, Uleb(count));
      Join(old(intended), a, x + (y + Uleb(count)));
    }

    method WriteTags(ps: seq<Tag>)
      requires Valid()
      modifies this
      ensures Valid() && intended == old(intended) + WriteAll(ps)
      decreases ps, 0
    {
      hide Write, Valid;
      if ps != [] {
        WriteTag(ps[0]);
        WriteTags(ps[1..]);
        Join(old(intended), Write(ps[0]), WriteAll(ps[1..]));
      }
    }

    // ---------- Transactions ----------

    method WriteOne(a: Argument)
      requires Valid()
      modifies this
      ensures Valid() && intended == old(intended) + WriteArgument(a)
    {
      hide Uleb, Le, Valid;
      match a
      case Gas =>
        WriteUleb(0);
      case Input(i) =>
        WriteUleb(1);
        WriteLe(i, 2);
        Join(old(intended), Uleb(1), Le(i, 2));
      case Outcome(i, None) =>
        WriteUleb(2);
        WriteLe(i, 2);
        Join(old(intended), Uleb(2), Le(i, 2));
      case Outcome(i, Some(j)) =>
        WriteUleb(3);
        WriteLe(i, 2);
        WriteLe(j, 2);
        Three(old(intended), Uleb(3), Le(i, 2), Le(j, 2));
    }

    method WriteMore(vs: seq<Argument>)
      requires Valid()
      modifies this
      ensures Valid() && intended == old(intended) + WriteArguments(vs)
    {
      hide WriteArgument, Uleb, Valid;
      WriteUleb(|vs|);
      ghost var whole := intended + WriteMany(WriteArgument, vs);
      Join(old(intended), Uleb(|vs|), WriteMany(WriteArgument, vs));
      for i := 0 to |vs|
        invariant Valid() && intended + WriteMany(WriteArgument, vs[i..]) == whole
      {
        ManyNext(WriteArgument, vs, i, intended);
        WriteOne(vs[i]);
      }
      ManyDone(WriteArgument, vs, intended);
    }

    method WriteShared(o: ObjectInput)
      requires Valid()
      modifies this
      ensures Valid()
      ensures intended == old(intended) + (o.address + (Le(o.version, 8) + WriteFlag(o.mutable)))
    {
      hide Le, Valid;
      Raw(o.address);
      WriteLe(o.version, 8);
      if o.mutable { Raw([1]); } else { Raw([0]); }
      Three(old(intended), o.address, Le(o.version, 8), WriteFlag(o.mutable));
    }

    method WriteInputField(i: TxInput)
      requires Valid()
      modifies this
      ensures Valid() && intended == old(intended) + WriteInput(i)
    {
      hide Uleb, Le, Blob, WriteReference, WriteFlag, Valid;
      match i
      case Pure(v) =>
        WriteUleb(0);
        WriteBlob(v);
        Join(old(intended), Uleb(0), Blob(v));
      case Object(k, o) =>
        WriteUleb(1);
        WriteUleb(KindNumber(k));
        if k == Shared {
          WriteShared(o);
          Three(old(intended), Uleb(1), Uleb(KindNumber(k)), o.address + (Le(o.version, 8) + WriteFlag(o.mutable)));
        } else {
          WriteObject(ObjectReference(o.address, o.version, o.digest));
          Three(old(intended), Uleb(1), Uleb(KindNumber(k)),
                WriteReference(ObjectReference(o.address, o.version, o.digest)));
        }
    }

    method WriteInputList(vs: seq<TxInput>)
      requires Valid()
      modifies this
      ensures Valid() && intended == old(intended) + WriteInputs(vs)
    {
      hide WriteInput, Uleb, Valid;
      WriteUleb(|vs|);
      ghost var whole := intended + WriteMany(WriteInput, vs);
      Join(old(intended), Uleb(|vs|), WriteMany(WriteInput, vs));
      for i := 0 to |vs|
        invariant Valid() && intended + WriteMany(WriteInput, vs[i..]) == whole
      {
        ManyNext(WriteInput, vs, i, intended);
        WriteInputField(vs[i]);
      }
      ManyDone(WriteInput, vs, intended);
    }

    /** Encodes the tag of a type text; a text that does not parse is an error. */
    method WriteTypeField(text: string) returns (ok: bool)
      requires Valid()
      modifies this
      ensures Valid() && ok == Parse(text).Some?
      ensures ok ==> intended == old(intended) + WriteType(text)
    {
      hide Parse, Write, Valid;
      var tag := TypeParser.ParseTypeTag(text);
      if tag.None? { return false; }
      WriteTag(tag.value);
      return true;
    }

    method WriteTypeList(ts: seq<string>) returns (ok: bool)
      requires Valid()
      modifies this
      ensures Valid() && ok == AllParse(ts)
      ensures ok ==> intended == old(intended) + WriteTypes(ts)
    {
      hide Parse, WriteType, Uleb, Valid;
      WriteUleb(|ts|);
      ghost var whole := intended + WriteMany(WriteType, ts);
      Join(old(intended), Uleb(|ts|), WriteMany(WriteType, ts));
      for i := 0 to |ts|
        invariant Valid() && intended + WriteMany(WriteType, ts[i..]) == whole
        invariant forall k :: 0 <= k < i ==> Parse(ts[k]).Some?
      {
        ManyNext(WriteType, ts, i, intended);
        var written := WriteTypeField(ts[i]);
        if !written { return false; }
      }
      ManyDone(WriteType, ts, intended);
      return true;
    }

    method WriteMoveCall(c: Command) returns (ok: bool)
      requires Valid() && c.MoveCall?
      modifies this
      ensures Valid() && ok == AllParse(c.typeArguments)
      ensures ok ==> intended == old(intended) + (c.package + (WriteText(c.moduleName) + (WriteText(c.functionName) +
                       (WriteTypes(c.typeArguments) + WriteArguments(c.arguments)))))
    {
      hide WriteText, WriteTypes, WriteArguments, Valid, AllParse;
      ghost var start := intended;
      Raw(c.package);
      WriteString(c.moduleName);
      WriteString(c.functionName);
      ok := WriteTypeList(c.typeArguments);
      if !ok { return; }
      WriteMore(c.arguments);
      Five(start, c.package, WriteText(c.moduleName), WriteText(c.functionName), WriteTypes(c.typeArguments),
           WriteArguments(c.arguments));
    }

    method WriteCommandField(c: Command) returns (ok: bool)
      requires Valid()
      modifies this
      ensures Valid() && ok == TypesParse(c)
      ensures ok ==> intended == old(intended) + WriteCommand(c)
    {
      hide Uleb, WriteText, WriteTypes, WriteType, WriteArguments, WriteArgument, Parse, ValidIdentifier, Valid;
      ok := true;
      match c
      case MoveCall(p, m, f, ts, vs) =>
        WriteUleb(0);
        ok := WriteMoveCall(c);
        ghost var body := p + (WriteText(m) + (WriteText(f) + (WriteTypes(ts) + WriteArguments(vs))));
        Join(old(intended), Uleb(0), body);
      case TransferObjects(vs, a) =>
        WriteUleb(1);
        WriteMore(vs);
        WriteOne(a);
        Three(old(intended), Uleb(1), WriteArguments(vs), WriteArgument(a));
      case SplitCoins(a, vs) =>
        WriteUleb(2);
        WriteOne(a);
        WriteMore(vs);
        Three(old(intended), Uleb(2), WriteArgument(a), WriteArguments(vs));
      case MergeCoins(a, vs) =>
        WriteUleb(3);
        WriteOne(a);
        WriteMore(vs);
        Three(old(intended), Uleb(3), WriteArgument(a), WriteArguments(vs));
      case MakeMoveVec(t, vs) =>
        WriteUleb(5);
        WriteUleb(1);
        ok := WriteTypeField(t);
        if !ok { return; }
        WriteMore(vs);
        Join((old(intended) + Uleb(5)) + Uleb(1), WriteType(t), WriteArguments(vs));
        Three(old(intended), Uleb(5), Uleb(1), WriteType(t) + WriteArguments(vs));
    }

    method WriteCommandList(vs: seq<Command>) returns (ok: bool)
      requires Valid()
      modifies this
      ensures Valid() && (ok <==> forall i :: 0 <= i < |vs| ==> TypesParse(vs[i]))
      ensures ok ==> intended == old(intended) + WriteCommands(vs)
    {
      hide WriteCommand, Uleb, Valid, TypesParse;
      WriteUleb(|vs|);
      ghost var whole := intended + WriteMany(WriteCommand, vs);
      Join(old(intended), Uleb(|vs|), WriteMany(WriteCommand, vs));
      for i := 0 to |vs|
        invariant Valid() && intended + WriteMany(WriteCommand, vs[i..]) == whole
        invariant forall k :: 0 <= k < i ==> TypesParse(vs[k])
      {
        ManyNext(WriteCommand, vs, i, intended);
        ok := WriteCommandField(vs[i]);
        if !ok { return false; }
      }
      ManyDone(WriteCommand, vs, intended);
      return true;
    }

    method WriteReferenceList(vs: seq<ObjectReference>)
      requires Valid()
      modifies this
      ensures Valid() && intended == old(intended) + WriteReferences(vs)
    {
      hide WriteReference, Uleb, Valid;
      WriteUleb(|vs|);
      ghost var whole := intended + WriteMany(WriteReference, vs);
      Join(old(intended), Uleb(|vs|), WriteMany(WriteReference, vs));
      for i := 0 to |vs|
        invariant Valid() && intended + WriteMany(WriteReference, vs[i..]) == whole
      {
        ManyNext(WriteReference, vs, i, intended);
        WriteObject(vs[i]);
      }
      ManyDone(WriteReference, vs, intended);
    }

    method WriteGasField(g: GasData)
      requires Valid()
      modifies this
      ensures Valid() && intended == old(intended) + WriteGas(g)
    {
      hide WriteReferences, Le, Valid;
      WriteReferenceList(g.payment);
      Raw(g.owner);
      WriteLe(g.price, 8);
      WriteLe(g.budget, 8);
      Four(old(intended), WriteReferences(g.payment), g.owner, Le(g.price, 8), Le(g.budget, 8));
    }

    method WriteExpirationField(e: Option<u64>)
      requires Valid()
      modifies this
      ensures Valid() && intended == old(intended) + WriteExpiration(e)
    {
      hide Uleb, Le, Valid;
      if e.None? {
        WriteUleb(0);
      } else {
        WriteUleb(1);
        WriteLe(e.value, 8);
        Join(old(intended), Uleb(1), Le(e.value, 8));
      }
    }

    method WriteData(t: TransactionData) returns (ok: bool)
      requires Valid()
      modifies this
      ensures Valid()
      ensures ok <==> forall i :: 0 <= i < |t.transaction.commands| ==> TypesParse(t.transaction.commands[i])
      ensures ok ==> intended == old(intended) + Encode(t)
    {
      hide Uleb, WriteInputs, WriteCommands, WriteGas, WriteExpiration, Valid, TypesParse;
      ghost var start := intended;
      WriteUleb(0);
      WriteUleb(0);
      WriteInputList(t.transaction.inputs);
      ok := WriteCommandList(t.transaction.commands);
      if !ok { return; }
      Raw(t.sender);
      WriteGasField(t.gas);
      WriteExpirationField(t.expiration);
      var z, i, c, g, e := Uleb(0), WriteInputs(t.transaction.inputs), WriteCommands(t.transaction.commands),
                           WriteGas(t.gas), WriteExpiration(t.expiration);
      Join((start + z) + z, i, c);
      Five(start, z, z, i + c, t.sender, g + e);
      Join((((start + z) + z) + (i + c)) + t.sender, g, e);
    }
  }

  lemma Three(s: seq<byte>, a: seq<byte>, b: seq<byte>, c: seq<byte>)
    ensures ((s + a) + b) + c == s + (a + (b + c))
  {
    Join(s + a, b, c);
    Join(s, a, b + c);
  }

  lemma Four(s: seq<byte>, a: seq<byte>, b: seq<byte>, c: seq<byte>, d: seq<byte>)
    ensures (((s + a) + b) + c) + d == s + (a + (b + (c + d)))
  {
    Three(s + a, b, c, d);
    Join(s, a, b + (c + d));
  }

  lemma Five(s: seq<byte>, a: seq<byte>, b: seq<byte>, c: seq<byte>, d: seq<byte>, e: seq<byte>)
    ensures ((((s + a) + b) + c) + d) + e == s + (a + (b + (c + (d + e))))
  {
    Four(s + a, b, c, d, e);
    Join(s, a, b + (c + (d + e)));
  }

  lemma ManyNext<T>(write: T -> seq<byte>, vs: seq<T>, i: nat, done: seq<byte>)
    requires i < |vs|
    ensures (done + write(vs[i])) + WriteMany(write, vs[i+1..]) == done + WriteMany(write, vs[i..])
  {
    assert vs[i..][1..] == vs[i+1..];
    Join(done, write(vs[i]), WriteMany(write, vs[i+1..]));
  }

  lemma ManyDone<T>(write: T -> seq<byte>, vs: seq<T>, done: seq<byte>)
    ensures done + WriteMany(write, vs[|vs|..]) == done
  {
    assert vs[|vs|..] == [];
  }

  lemma ValidParses(t: TransactionData)
    requires ValidData(t)
    ensures forall i :: 0 <= i < |t.transaction.commands| ==> TypesParse(t.transaction.commands[i])
  {
    hide Parse, ValidProgrammable, ValidPayment;
    forall i | 0 <= i < |t.transaction.commands|
      ensures TypesParse(t.transaction.commands[i])
    {
      assert Typed(t.transaction.commands[i]);
    }
  }

  /** Encodes complete transaction data, or nothing if it is invalid or too long. */
  method MarshalBCS(t: TransactionData) returns (data: Option<seq<byte>>)
    ensures data == Marshal(t)
  {
    hide ValidProgrammable, ValidPayment, Typed, Encode, Encodable;
    var valid := Validation.Validate(t);
    if !valid { return None; }
    var w := new Writer();
    var ok := w.WriteData(t);
    ValidParses(t);
    assert [] + Encode(t) == Encode(t);
    if !ok || w.failed { return None; }
    return Some(w.data);
  }
}
