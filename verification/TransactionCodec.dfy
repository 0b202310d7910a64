/** Encoding and decoding of transaction data are inverse to each other. */
module TransactionCodec {
  import opened Wrappers
  import opened Strings
  import opened Bytes
  import opened TypeTags
  import opened Transactions
  import Utf8

  // ---------- Fields ----------

  lemma U16Read(v: u16, rest: seq<byte>)
    ensures ReadU16(Le(v, 2) + rest) == Some((v, rest))
  {
    LeLimits();
    LeRead(v, 2, rest);
  }

  lemma U64Read(v: u64, rest: seq<byte>)
    ensures ReadU64(Le(v, 8) + rest) == Some((v, rest))
  {
    LeLimits();
    LeRead(v, 8, rest);
  }

  lemma U16Canonical(s: seq<byte>)
    requires ReadU16(s).Some?
    ensures s == Le(ReadU16(s).value.0, 2) + ReadU16(s).value.1
  {
    LeCanonical(2, s);
  }

  lemma U64Canonical(s: seq<byte>)
    requires ReadU64(s).Some?
    ensures s == Le(ReadU64(s).value.0, 8) + ReadU64(s).value.1
  {
    LeCanonical(8, s);
  }

  lemma AddressRead(a: Address, rest: seq<byte>)
    ensures ReadAddress(a + rest) == Some((a, rest))
  {
    assert (a + rest)[..32] == a && (a + rest)[32..] == rest;
  }

  lemma AddressCanonical(s: seq<byte>)
    requires ReadAddress(s).Some?
    ensures s == ReadAddress(s).value.0 + ReadAddress(s).value.1
  {
  }

  lemma FlagRead(b: bool, rest: seq<byte>)
    ensures ReadFlag(WriteFlag(b) + rest) == Some((b, rest))
  {
    assert (WriteFlag(b) + rest)[1..] == rest;
  }

  lemma FlagCanonical(s: seq<byte>)
    requires ReadFlag(s).Some?
    ensures s == WriteFlag(ReadFlag(s).value.0) + ReadFlag(s).value.1
  {
    assert s == [s[0]] + s[1..];
  }

  lemma TextRead(t: string, rest: seq<byte>)
    requires |Utf8.Encode(t)| <= MAX_DATA
    ensures ReadText(WriteText(t) + rest) == Some((t, rest))
  {
    Utf8.EncodeDecode(t);
    BlobRead(Utf8.Encode(t), rest);
  }

  lemma TextCanonical(s: seq<byte>)
    requires ReadText(s).Some?
    ensures s == WriteText(ReadText(s).value.0) + ReadText(s).value.1
  {
    BlobCanonical(s);
    Utf8.DecodeEncode(ReadBlob(s).value.0);
  }

  // ---------- Arguments ----------

  lemma ArgumentReads(a: Argument)
    ensures Reads(WriteArgument, ReadArgument, a, a)
  {
    hide Uleb, ReadUleb, Le, ReadU16;
    forall rest
      ensures ReadArgument(WriteArgument(a) + rest) == Some((a, rest))
    {
      match a
      case Gas =>
        UlebReads(0, rest);
      case Input(i) =>
        Join(Uleb(1), Le(i, 2), rest);
        UlebReads(1, Le(i, 2) + rest);
        U16Read(i, rest);
      case Outcome(i, None) =>
        Join(Uleb(2), Le(i, 2), rest);
        UlebReads(2, Le(i, 2) + rest);
        U16Read(i, rest);
      case Outcome(i, Some(j)) =>
        Join(Uleb(3), Le(i, 2) + Le(j, 2), rest);
        Join(Le(i, 2), Le(j, 2), rest);
        UlebReads(3, Le(i, 2) + (Le(j, 2) + rest));
        U16Read(i, Le(j, 2) + rest);
        U16Read(j, rest);
    }
  }

  function Any<T>(): T -> bool { _ => true }

  lemma ArgumentCanonicalAt(s: seq<byte>)
    requires ReadArgument(s).Some?
    ensures s == WriteArgument(ReadArgument(s).value.0) + ReadArgument(s).value.1
  {
    hide Uleb, ReadUleb, Le, ReadU16;
    UlebAccepts(s);
    var (k, r) := ReadUleb(s).value;
    if k > 0 {
      var (i, r1) := ReadU16(r).value;
      U16Canonical(r);
      if k == 3 {
        var (j, r2) := ReadU16(r1).value;
        U16Canonical(r1);
        Join(Le(i, 2), Le(j, 2), r2);
        Join(Uleb(3), Le(i, 2) + Le(j, 2), r2);
      } else {
        Join(Uleb(k), Le(i, 2), r1);
      }
    }
  }

  lemma ArgumentsRead(vs: seq<Argument>, rest: seq<byte>)
    requires |vs| <= MAX_ELEMENTS
    ensures ReadArguments(WriteArguments(vs) + rest) == Some((vs, rest))
  {
    forall i | 0 <= i < |vs| ensures Reads(WriteArgument, ReadArgument, vs[i], vs[i]) { ArgumentReads(vs[i]); }
    ListRead(WriteArgument, ReadArgument, vs, vs, rest);
  }

  lemma ArgumentsCanonical(s: seq<byte>)
    requires ReadArguments(s).Some?
    ensures s == WriteArguments(ReadArguments(s).value.0) + ReadArguments(s).value.1
  {
    forall s | ReadArgument(s).Some?
      ensures s == WriteArgument(ReadArgument(s).value.0) + ReadArgument(s).value.1
    {
      ArgumentCanonicalAt(s);
    }
    ListCanonical(WriteArgument, ReadArgument, Any(), s);
  }

  // ---------- Object references and inputs ----------

  lemma ReferenceReads(r: ObjectReference)
    ensures Reads(WriteReference, ReadReference, r, r)
  {
    hide Le, ReadU64, Blob, ReadBlob, ReadAddress;
    forall rest
      ensures ReadReference(WriteReference(r) + rest) == Some((r, rest))
    {
      Join(r.address, Le(r.version, 8) + Blob(r.digest), rest);
      Join(Le(r.version, 8), Blob(r.digest), rest);
      AddressRead(r.address, Le(r.version, 8) + (Blob(r.digest) + rest));
      U64Read(r.version, Blob(r.digest) + rest);
      BlobRead(r.digest, rest);
    }
  }

  lemma ReferenceCanonicalAt(s: seq<byte>)
    requires ReadReference(s).Some?
    ensures s == WriteReference(ReadReference(s).value.0) + ReadReference(s).value.1
  {
    hide Le, ReadU64, Blob, ReadBlob, ReadAddress;
    var (a, s1) := ReadAddress(s).value;
    var (v, s2) := ReadU64(s1).value;
    var (d, rest) := ReadBlob(s2).value;
    AddressCanonical(s);
    U64Canonical(s1);
    BlobCanonical(s2);
    Join(Le(v, 8), Blob(d), rest);
    Join(a, Le(v, 8) + Blob(d), rest);
  }

  lemma SharedRead(o: ObjectInput, rest: seq<byte>)
    requires o.digest == ZERO
    ensures ReadSharedObject((o.address + (Le(o.version, 8) + WriteFlag(o.mutable))) + rest) == Some((o, rest))
  {
    hide Le, ReadU64, ReadAddress, WriteFlag, ReadFlag;
    var flag := WriteFlag(o.mutable);
    Join(o.address, Le(o.version, 8) + flag, rest);
    Join(Le(o.version, 8), flag, rest);
    AddressRead(o.address, Le(o.version, 8) + (flag + rest));
    U64Read(o.version, flag + rest);
    FlagRead(o.mutable, rest);
  }

  lemma SharedCanonical(s: seq<byte>)
    requires ReadSharedObject(s).Some?
    ensures
      var (o, rest) := ReadSharedObject(s).value;
      s == (o.address + (Le(o.version, 8) + WriteFlag(o.mutable))) + rest && o.digest == ZERO
  {
    hide Le, ReadU64, ReadAddress, WriteFlag, ReadFlag;
    var (a, s1) := ReadAddress(s).value;
    var (v, s2) := ReadU64(s1).value;
    var (m, rest) := ReadFlag(s2).value;
    AddressCanonical(s);
    U64Canonical(s1);
    FlagCanonical(s2);
    Join(Le(v, 8), WriteFlag(m), rest);
    Join(a, Le(v, 8) + WriteFlag(m), rest);
  }

  lemma InputReads(i: TxInput)
    requires Encodable(i)
    ensures Reads(WriteInput, ReadInput, i, i)
  {
    hide Uleb, ReadUleb, Le, Blob, ReadBlob, WriteReference, ReadReference, ReadSharedObject, WriteFlag;
    forall rest
      ensures ReadInput(WriteInput(i) + rest) == Some((i, rest))
    {
      match i
      case Pure(v) =>
        Join(Uleb(0), Blob(v), rest);
        UlebReads(0, Blob(v) + rest);
        BlobRead(v, rest);
      case Object(k, o) =>
        var body := if k == Shared then o.address + (Le(o.version, 8) + WriteFlag(o.mutable))
                    else WriteReference(ObjectReference(o.address, o.version, o.digest));
        Join(Uleb(1), Uleb(KindNumber(k)) + body, rest);
        Join(Uleb(KindNumber(k)), body, rest);
        UlebReads(1, Uleb(KindNumber(k)) + (body + rest));
        UlebReads(KindNumber(k), body + rest);
        if k == Shared {
          SharedRead(o, rest);
        } else {
          ReferenceReads(ObjectReference(o.address, o.version, o.digest));
        }
    }
  }

  lemma InputCanonicalAt(s: seq<byte>)
    requires ReadInput(s).Some?
    ensures s == WriteInput(ReadInput(s).value.0) + ReadInput(s).value.1
    ensures ReadInput(s).value.0.Pure? ==> |ReadInput(s).value.0.value| <= MAX_DATA
  {
    hide Uleb, ReadUleb, Le, Blob, ReadBlob, WriteReference, ReadReference, ReadSharedObject, WriteFlag;
    UlebAccepts(s);
    var (n, r) := ReadUleb(s).value;
    var (i, rest) := ReadInput(s).value;
    if n == 0 {
      BlobCanonical(r);
      Join(Uleb(0), Blob(i.value), rest);
    } else {
      UlebAccepts(r);
      var (k, r1) := ReadUleb(r).value;
      var o := i.ref;
      var body := if i.kind == Shared then o.address + (Le(o.version, 8) + WriteFlag(o.mutable))
                  else WriteReference(ObjectReference(o.address, o.version, o.digest));
      if k == 1 {
        SharedCanonical(r1);
      } else {
        ReferenceCanonicalAt(r1);
        assert ReadReference(r1).value.0 == ObjectReference(o.address, o.version, o.digest);
      }
      assert KindNumber(i.kind) == k && r1 == body + rest;
      Join(Uleb(k), body, rest);
      Join(Uleb(1), Uleb(k) + body, rest);
    }
  }

  // ---------- Types ----------

  /** The text the decoder prints for an encoded type. */
  function CanonText(text: string): string {
    var tag := Parse(text);
    if tag.Some? then Text(tag.value) else text
  }

  function CanonTexts(ts: seq<string>): (r: seq<string>)
    ensures |r| == |ts| && forall i :: 0 <= i < |ts| ==> r[i] == CanonText(ts[i])
  {
    if ts == [] then [] else [CanonText(ts[0])] + CanonTexts(ts[1..])
  }

  lemma TypeReads(text: string)
    requires Parse(text).Some?
    ensures Reads(WriteType, ReadType, text, CanonText(text))
  {
    hide Parse, Text, Read, Write;
    var tag := Parse(text).value;
    ParseWellFormed(text);
    forall rest
      ensures ReadType(WriteType(text) + rest) == Some((CanonText(text), rest))
    {
      TagRead(tag, 0, rest);
    }
  }

  predicate Parses(text: string) { Parse(text).Some? }

  lemma TypeCanonicalAt(s: seq<byte>)
    requires ReadType(s).Some? && Parses(ReadType(s).value.0)
    ensures s == WriteType(ReadType(s).value.0) + ReadType(s).value.1
  {
    TagCanonical(0, s);
    hide Read, Write, Text, Parse;
    TextParses(Read(0, s).value.0);
  }

  lemma TypesRead(ts: seq<string>, rest: seq<byte>)
    requires |ts| <= MAX_ELEMENTS && AllParse(ts)
    ensures ReadTypes(WriteTypes(ts) + rest) == Some((CanonTexts(ts), rest))
  {
    hide Parse, Text, CanonText;
    var ws := CanonTexts(ts);
    forall i | 0 <= i < |ts| ensures Reads(WriteType, ReadType, ts[i], ws[i]) { TypeReads(ts[i]); }
    ListRead(WriteType, ReadType, ts, ws, rest);
  }

  lemma TypesCanonical(s: seq<byte>)
    requires ReadTypes(s).Some? && AllParse(ReadTypes(s).value.0)
    ensures s == WriteTypes(ReadTypes(s).value.0) + ReadTypes(s).value.1
  {
    hide Parse, Text;
    forall s | ReadType(s).Some? && Parses(ReadType(s).value.0)
      ensures s == WriteType(ReadType(s).value.0) + ReadType(s).value.1
    {
      TypeCanonicalAt(s);
    }
    assert Canonical(WriteType, ReadType, Parses);
    ListCanonical(WriteType, ReadType, Parses, s);
  }

  // ---------- Commands ----------

  function CanonCommand(c: Command): Command {
    match c
    case MoveCall(p, m, f, ts, vs) => MoveCall(p, m, f, CanonTexts(ts), vs)
    case MakeMoveVec(t, vs) => MakeMoveVec(CanonText(t), vs)
    case _ => c
  }

  function CanonCommands(cs: seq<Command>): (r: seq<Command>)
    ensures |r| == |cs| && forall i :: 0 <= i < |cs| ==> r[i] == CanonCommand(cs[i])
  {
    if cs == [] then [] else [CanonCommand(cs[0])] + CanonCommands(cs[1..])
  }

  /** Bounds on the lists and identifiers of a command, as validation sets them. */
  predicate Limited(c: Command) {
    match c
    case MoveCall(_, m, f, ts, vs) =>
      ValidIdentifier(m) && ValidIdentifier(f) && |ts| <= MAX_ELEMENTS && |vs| <= MAX_ELEMENTS
    case MakeMoveVec(_, vs) => |vs| <= MAX_ELEMENTS
    case SplitCoins(_, vs) => |vs| <= MAX_ELEMENTS
    case MergeCoins(_, vs) => |vs| <= MAX_ELEMENTS
    case TransferObjects(vs, _) => |vs| <= MAX_ELEMENTS
  }

  predicate Encodes(c: Command) { Limited(c) && Typed(c) }

  lemma IdentifierBytes(t: string)
    requires ValidIdentifier(t)
    ensures |Utf8.Encode(t)| <= MAX_DATA
  {
    BytesPerChar(t);
    Utf8.AsciiLength(t);
  }

  lemma MoveCallRead(c: Command, rest: seq<byte>)
    requires c.MoveCall? && Limited(c) && Typed(c)
    ensures ReadMoveCall((c.package + (WriteText(c.moduleName) + (WriteText(c.functionName) +
              (WriteTypes(c.typeArguments) + WriteArguments(c.arguments))))) + rest) == Some((CanonCommand(c), rest))
  {
    IdentifierBytes(c.moduleName);
    IdentifierBytes(c.functionName);
    hide WriteText, ReadText, ReadAddress, ReadTypes, WriteTypes, ReadArguments, WriteArguments, ValidIdentifier, Parse,
         Text;
    var p, m, f, t, a := c.package, WriteText(c.moduleName), WriteText(c.functionName),
                         WriteTypes(c.typeArguments), WriteArguments(c.arguments);
    Join(p, m + (f + (t + a)), rest);
    Join(m, f + (t + a), rest);
    Join(f, t + a, rest);
    Join(t, a, rest);
    AddressRead(p, m + (f + (t + (a + rest))));
    TextRead(c.moduleName, f + (t + (a + rest)));
    TextRead(c.functionName, t + (a + rest));
    TypesRead(c.typeArguments, a + rest);
    ArgumentsRead(c.arguments, rest);
  }

  lemma MoveCallCanonical(s: seq<byte>)
    requires ReadMoveCall(s).Some? && Typed(ReadMoveCall(s).value.0)
    ensures
      var (c, rest) := ReadMoveCall(s).value;
      && c.MoveCall?
      && s == (c.package + (WriteText(c.moduleName) + (WriteText(c.functionName) +
                (WriteTypes(c.typeArguments) + WriteArguments(c.arguments))))) + rest
  {
    hide WriteText, ReadText, ReadAddress, ReadTypes, WriteTypes, ReadArguments, WriteArguments, ValidIdentifier, Parse;
    var (p, s1) := ReadAddress(s).value;
    var (mt, s2) := ReadText(s1).value;
    var (ft, s3) := ReadText(s2).value;
    var (ts, s4) := ReadTypes(s3).value;
    var (vs, rest) := ReadArguments(s4).value;
    AddressCanonical(s);
    TextCanonical(s1);
    TextCanonical(s2);
    TypesCanonical(s3);
    ArgumentsCanonical(s4);
    var m, f, t, a := WriteText(mt), WriteText(ft), WriteTypes(ts), WriteArguments(vs);
    Join(t, a, rest);
    Join(f, t + a, rest);
    Join(m, f + (t + a), rest);
    Join(p, m + (f + (t + a)), rest);
  }

  lemma CommandReads(c: Command)
    requires Encodes(c)
    ensures Reads(WriteCommand, ReadCommand, c, CanonCommand(c))
  {
    forall rest
      ensures ReadCommand(WriteCommand(c) + rest) == Some((CanonCommand(c), rest))
    {
      CommandRead(c, rest);
    }
    CommandBytes(c);
  }

  lemma CommandBytes(c: Command)
    ensures |WriteCommand(c)| >= 1
  {
  }

  lemma CommandRead(c: Command, rest: seq<byte>)
    requires Encodes(c)
    ensures ReadCommand(WriteCommand(c) + rest) == Some((CanonCommand(c), rest))
  {
    hide Uleb, ReadUleb, WriteText, WriteTypes, ReadArguments, WriteArguments, ReadArgument, WriteArgument,
         ReadMoveCall, WriteType, ReadType, Parse, Text, ValidIdentifier;
    match c
    case MoveCall(p, m, f, ts, vs) =>
      var body := p + (WriteText(m) + (WriteText(f) + (WriteTypes(ts) + WriteArguments(vs))));
      Join(Uleb(0), body, rest);
      UlebReads(0, body + rest);
      MoveCallRead(c, rest);
    case TransferObjects(vs, a) =>
      Join(Uleb(1), WriteArguments(vs) + WriteArgument(a), rest);
      Join(WriteArguments(vs), WriteArgument(a), rest);
      UlebReads(1, WriteArguments(vs) + (WriteArgument(a) + rest));
      ArgumentsRead(vs, WriteArgument(a) + rest);
      ArgumentReads(a);
    case SplitCoins(a, vs) =>
      OneAndManyRead(2, a, vs, rest);
    case MergeCoins(a, vs) =>
      OneAndManyRead(3, a, vs, rest);
    case MakeMoveVec(t, vs) =>
      Join(Uleb(5), Uleb(1) + (WriteType(t) + WriteArguments(vs)), rest);
      Join(Uleb(1), WriteType(t) + WriteArguments(vs), rest);
      Join(WriteType(t), WriteArguments(vs), rest);
      UlebReads(5, Uleb(1) + (WriteType(t) + (WriteArguments(vs) + rest)));
      UlebReads(1, WriteType(t) + (WriteArguments(vs) + rest));
      TypeReads(t);
      ArgumentsRead(vs, rest);
  }

  lemma OneAndManyRead(k: nat, a: Argument, vs: seq<Argument>, rest: seq<byte>)
    requires k < 128 && |vs| <= MAX_ELEMENTS
    ensures
      var s := (Uleb(k) + (WriteArgument(a) + WriteArguments(vs))) + rest;
      && ReadUleb(s).Some? && ReadUleb(s).value.0 == k
      && ReadOneAndMany(ReadUleb(s).value.1) == Some(((a, vs), rest))
  {
    hide Uleb, ReadUleb, ReadArguments, WriteArguments, ReadArgument, WriteArgument;
    Join(Uleb(k), WriteArgument(a) + WriteArguments(vs), rest);
    Join(WriteArgument(a), WriteArguments(vs), rest);
    UlebReads(k, WriteArgument(a) + (WriteArguments(vs) + rest));
    ArgumentReads(a);
    ArgumentsRead(vs, rest);
  }

  lemma CommandCanonicalAt(s: seq<byte>)
    requires ReadCommand(s).Some? && Typed(ReadCommand(s).value.0)
    ensures s == WriteCommand(ReadCommand(s).value.0) + ReadCommand(s).value.1
  {
    hide Uleb, ReadUleb, WriteText, WriteTypes, ReadArguments, WriteArguments, ReadArgument, WriteArgument,
         ReadMoveCall, WriteType, ReadType, Parse, Text, ValidIdentifier;
    UlebAccepts(s);
    var (n, r) := ReadUleb(s).value;
    var (c, rest) := ReadCommand(s).value;
    if n == 0 {
      MoveCallCanonical(r);
      var body := c.package + (WriteText(c.moduleName) + (WriteText(c.functionName) +
                    (WriteTypes(c.typeArguments) + WriteArguments(c.arguments))));
      Join(Uleb(0), body, rest);
    } else if n == 1 {
      var (vs, r1) := ReadArguments(r).value;
      ArgumentsCanonical(r);
      ArgumentCanonicalAt(r1);
      Join(WriteArguments(vs), WriteArgument(c.address), rest);
      Join(Uleb(1), WriteArguments(vs) + WriteArgument(c.address), rest);
    } else if n == 2 || n == 3 {
      var (a, r1) := ReadArgument(r).value;
      var (vs, _) := ReadArguments(r1).value;
      ArgumentCanonicalAt(r);
      ArgumentsCanonical(r1);
      Join(WriteArgument(a), WriteArguments(vs), rest);
      Join(Uleb(n), WriteArgument(a) + WriteArguments(vs), rest);
    } else {
      VectorCanonical(r);
      var body := WriteType(c.elementType) + WriteArguments(c.elements);
      Join(Uleb(1), body, rest);
      Join(Uleb(5), Uleb(1) + body, rest);
    }
  }

  lemma VectorCanonical(s: seq<byte>)
    requires ReadVector(s).Some? && Typed(ReadVector(s).value.0)
    ensures
      var (c, rest) := ReadVector(s).value;
      c.MakeMoveVec? && s == Uleb(1) + ((WriteType(c.elementType) + WriteArguments(c.elements)) + rest)
  {
    hide Uleb, ReadUleb, ReadArguments, WriteArguments, WriteType, ReadType, Parse, Text;
    UlebAccepts(s);
    var (t, r1) := ReadType(ReadUleb(s).value.1).value;
    TypeCanonicalAt(ReadUleb(s).value.1);
    ArgumentsCanonical(r1);
    var (vs, rest) := ReadArguments(r1).value;
    Join(WriteType(t), WriteArguments(vs), rest);
  }

  // ---------- Whole transactions ----------

  lemma InputsRead(vs: seq<TxInput>, rest: seq<byte>)
    requires |vs| <= MAX_ELEMENTS && forall i :: 0 <= i < |vs| ==> Encodable(vs[i])
    ensures ReadInputs(WriteInputs(vs) + rest) == Some((vs, rest))
  {
    hide Encodable;
    forall i | 0 <= i < |vs| ensures Reads(WriteInput, ReadInput, vs[i], vs[i]) { InputReads(vs[i]); }
    ListRead(WriteInput, ReadInput, vs, vs, rest);
  }

  lemma InputsCanonical(s: seq<byte>)
    requires ReadInputs(s).Some?
    ensures s == WriteInputs(ReadInputs(s).value.0) + ReadInputs(s).value.1
  {
    forall s | ReadInput(s).Some?
      ensures s == WriteInput(ReadInput(s).value.0) + ReadInput(s).value.1
    {
      InputCanonicalAt(s);
    }
    ListCanonical(WriteInput, ReadInput, Any(), s);
  }

  lemma ReferencesRead(vs: seq<ObjectReference>, rest: seq<byte>)
    requires |vs| <= MAX_ELEMENTS
    ensures ReadReferences(WriteReferences(vs) + rest) == Some((vs, rest))
  {
    forall i | 0 <= i < |vs| ensures Reads(WriteReference, ReadReference, vs[i], vs[i]) { ReferenceReads(vs[i]); }
    ListRead(WriteReference, ReadReference, vs, vs, rest);
  }

  lemma ReferencesCanonical(s: seq<byte>)
    requires ReadReferences(s).Some?
    ensures s == WriteReferences(ReadReferences(s).value.0) + ReadReferences(s).value.1
  {
    forall s | ReadReference(s).Some?
      ensures s == WriteReference(ReadReference(s).value.0) + ReadReference(s).value.1
    {
      ReferenceCanonicalAt(s);
    }
    ListCanonical(WriteReference, ReadReference, Any(), s);
  }

  lemma CommandsRead(vs: seq<Command>, rest: seq<byte>)
    requires |vs| <= MAX_ELEMENTS && forall i :: 0 <= i < |vs| ==> Encodes(vs[i])
    ensures ReadCommands(WriteCommands(vs) + rest) == Some((CanonCommands(vs), rest))
  {
    hide Encodes, CanonCommand;
    var ws := CanonCommands(vs);
    forall i | 0 <= i < |vs| ensures Reads(WriteCommand, ReadCommand, vs[i], ws[i]) { CommandReads(vs[i]); }
    ListRead(WriteCommand, ReadCommand, vs, ws, rest);
  }

  lemma CommandsCanonical(s: seq<byte>)
    requires ReadCommands(s).Some?
    requires forall i :: 0 <= i < |ReadCommands(s).value.0| ==> Typed(ReadCommands(s).value.0[i])
    ensures s == WriteCommands(ReadCommands(s).value.0) + ReadCommands(s).value.1
  {
    hide Typed;
    forall s | ReadCommand(s).Some? && Typed(ReadCommand(s).value.0)
      ensures s == WriteCommand(ReadCommand(s).value.0) + ReadCommand(s).value.1
    {
      CommandCanonicalAt(s);
    }
    ListCanonical(WriteCommand, ReadCommand, Typed, s);
  }

  lemma GasRead(g: GasData, rest: seq<byte>)
    requires |g.payment| <= MAX_ELEMENTS
    ensures ReadGas(WriteGas(g) + rest) == Some((g, rest))
  {
    hide Le, ReadU64, ReadAddress, WriteReferences, ReadReferences;
    var p, o, x, y := WriteReferences(g.payment), g.owner, Le(g.price, 8), Le(g.budget, 8);
    Join(p, o + (x + y), rest);
    Join(o, x + y, rest);
    Join(x, y, rest);
    ReferencesRead(g.payment, o + (x + (y + rest)));
    AddressRead(o, x + (y + rest));
    U64Read(g.price, y + rest);
    U64Read(g.budget, rest);
  }

  lemma GasCanonical(s: seq<byte>)
    requires ReadGas(s).Some?
    ensures s == WriteGas(ReadGas(s).value.0) + ReadGas(s).value.1
  {
    hide Le, ReadU64, ReadAddress, WriteReferences, ReadReferences;
    var (ps, s1) := ReadReferences(s).value;
    var (o, s2) := ReadAddress(s1).value;
    var (price, s3) := ReadU64(s2).value;
    var (budget, rest) := ReadU64(s3).value;
    ReferencesCanonical(s);
    AddressCanonical(s1);
    U64Canonical(s2);
    U64Canonical(s3);
    var p, x, y := WriteReferences(ps), Le(price, 8), Le(budget, 8);
    Join(x, y, rest);
    Join(o, x + y, rest);
    Join(p, o + (x + y), rest);
  }

  lemma ExpirationRead(e: Option<u64>, rest: seq<byte>)
    ensures ReadExpiration(WriteExpiration(e) + rest) == Some((e, rest))
  {
    hide Uleb, ReadUleb, Le, ReadU64;
    if e.Some? {
      Join(Uleb(1), Le(e.value, 8), rest);
      UlebReads(1, Le(e.value, 8) + rest);
      U64Read(e.value, rest);
    } else {
      UlebReads(0, rest);
    }
  }

  lemma ExpirationCanonical(s: seq<byte>)
    requires ReadExpiration(s).Some?
    ensures s == WriteExpiration(ReadExpiration(s).value.0) + ReadExpiration(s).value.1
  {
    hide Uleb, ReadUleb, Le, ReadU64;
    UlebAccepts(s);
    var (k, r) := ReadUleb(s).value;
    if k == 1 {
      var (v, rest) := ReadU64(r).value;
      U64Canonical(r);
      Join(Uleb(1), Le(v, 8), rest);
    }
  }

  lemma ProgrammableRead(t: Programmable, rest: seq<byte>)
    requires |t.inputs| <= MAX_ELEMENTS && |t.commands| <= MAX_ELEMENTS
    requires forall i :: 0 <= i < |t.inputs| ==> Encodable(t.inputs[i])
    requires forall i :: 0 <= i < |t.commands| ==> Encodes(t.commands[i])
    ensures ReadProgrammable(WriteProgrammable(t) + rest) ==
              Some((t.(commands := CanonCommands(t.commands)), rest))
  {
    hide Encodable, Encodes, WriteInputs, ReadInputs, WriteCommands, ReadCommands;
    Join(WriteInputs(t.inputs), WriteCommands(t.commands), rest);
    InputsRead(t.inputs, WriteCommands(t.commands) + rest);
    CommandsRead(t.commands, rest);
  }

  lemma ProgrammableCanonical(s: seq<byte>)
    requires ReadProgrammable(s).Some?
    requires
      var cs := ReadProgrammable(s).value.0.commands;
      forall i :: 0 <= i < |cs| ==> Typed(cs[i])
    ensures s == WriteProgrammable(ReadProgrammable(s).value.0) + ReadProgrammable(s).value.1
  {
    hide Typed, WriteInputs, ReadInputs, WriteCommands, ReadCommands;
    var (inputs, s1) := ReadInputs(s).value;
    var (commands, rest) := ReadCommands(s1).value;
    InputsCanonical(s);
    CommandsCanonical(s1);
    Join(WriteInputs(inputs), WriteCommands(commands), rest);
  }

  /** The transaction with every type text in canonical form. */
  function Canon(t: TransactionData): TransactionData {
    t.(transaction := t.transaction.(commands := CanonCommands(t.transaction.commands)))
  }

  predicate Encoded(t: TransactionData) {
    && |t.transaction.inputs| <= MAX_ELEMENTS && |t.transaction.commands| <= MAX_ELEMENTS
    && |t.gas.payment| <= MAX_ELEMENTS
    && (forall i :: 0 <= i < |t.transaction.inputs| ==> Encodable(t.transaction.inputs[i]))
    && (forall i :: 0 <= i < |t.transaction.commands| ==> Encodes(t.transaction.commands[i]))
  }

  lemma ZeroRead(rest: seq<byte>)
    ensures ReadZero(Uleb(0) + rest) == Some(((), rest))
  {
    UlebReads(0, rest);
  }

  /** The parts of the envelope, from the last one backwards. */
  function Tail(t: TransactionData, k: nat): seq<byte> {
    if k == 0 then WriteExpiration(t.expiration)
    else if k == 1 then WriteGas(t.gas) + Tail(t, 0)
    else if k == 2 then t.sender + Tail(t, 1)
    else if k == 3 then WriteProgrammable(t.transaction) + Tail(t, 2)
    else Uleb(0) + Tail(t, 3)
  }

  lemma PartsRead(t: TransactionData)
    requires Encoded(t)
    ensures ReadZero(Uleb(0) + Tail(t, 4)) == Some(((), Tail(t, 4))) && ReadZero(Tail(t, 4)) == Some(((), Tail(t, 3)))
    ensures ReadProgrammable(Tail(t, 3)) == Some((Canon(t).transaction, Tail(t, 2)))
    ensures ReadAddress(Tail(t, 2)) == Some((t.sender, Tail(t, 1)))
    ensures ReadGas(Tail(t, 1)) == Some((t.gas, Tail(t, 0)))
    ensures ReadExpiration(Tail(t, 0)) == Some((t.expiration, []))
  {
    hide Encodable, Encodes, WriteProgrammable, ReadProgrammable, WriteGas, ReadGas, WriteExpiration,
         ReadExpiration, Uleb, ReadZero, ReadAddress, ReadData;
    ZeroRead(Tail(t, 4));
    ZeroRead(Tail(t, 3));
    ProgrammableRead(t.transaction, Tail(t, 2));
    AddressRead(t.sender, Tail(t, 1));
    GasRead(t.gas, Tail(t, 0));
    ExpirationRead(t.expiration, []);
    assert WriteExpiration(t.expiration) + [] == WriteExpiration(t.expiration);
  }

  lemma EncodeIsTail(t: TransactionData)
    ensures Encode(t) == Uleb(0) + Tail(t, 4)
  {
    hide WriteProgrammable, WriteGas, WriteExpiration, Uleb;
    assert Tail(t, 1) == WriteGas(t.gas) + WriteExpiration(t.expiration);
    assert Tail(t, 2) == t.sender + Tail(t, 1);
    assert Tail(t, 3) == WriteProgrammable(t.transaction) + Tail(t, 2);
    assert Tail(t, 4) == Uleb(0) + Tail(t, 3);
  }

  lemma DataRead(t: TransactionData)
    requires Encoded(t)
    ensures ReadData(Encode(t)) == Some((Canon(t), []))
  {
    PartsRead(t);
    EncodeIsTail(t);
    hide Encoded, Encode, Tail, ReadProgrammable, ReadGas, ReadExpiration, ReadZero, ReadAddress, ReadData, Uleb;
    DataParse(Encode(t), Tail(t, 4), Tail(t, 3), Tail(t, 2), Tail(t, 1), Tail(t, 0), Canon(t));
  }

  /** Reading the envelope once its parts are known. */
  lemma DataParse(s0: seq<byte>, s1: seq<byte>, s2: seq<byte>, s3: seq<byte>, s4: seq<byte>, s5: seq<byte>,
                  t: TransactionData)
    requires ReadZero(s0) == Some(((), s1)) && ReadZero(s1) == Some(((), s2))
    requires ReadProgrammable(s2) == Some((t.transaction, s3)) && ReadAddress(s3) == Some((t.sender, s4))
    requires ReadGas(s4) == Some((t.gas, s5)) && ReadExpiration(s5) == Some((t.expiration, []))
    ensures ReadData(s0) == Some((t, []))
  {
    hide ReadProgrammable, ReadGas, ReadExpiration, ReadZero, ReadAddress;
  }

  lemma ZeroCanonical(s: seq<byte>)
    requires ReadZero(s).Some?
    ensures s == Uleb(0) + ReadZero(s).value.1
  {
    UlebAccepts(s);
  }

  lemma DataCanonical(s: seq<byte>)
    requires ReadData(s).Some? && ReadData(s).value.1 == []
    requires
      var cs := ReadData(s).value.0.transaction.commands;
      forall i :: 0 <= i < |cs| ==> Typed(cs[i])
    ensures s == Encode(ReadData(s).value.0)
  {
    hide Typed, WriteProgrammable, ReadProgrammable, WriteGas, ReadGas, WriteExpiration,
         ReadExpiration, Uleb, ReadZero, ReadAddress;
    var s1 := ReadZero(s).value.1;
    var s2 := ReadZero(s1).value.1;
    var (t, s3) := ReadProgrammable(s2).value;
    var (sender, s4) := ReadAddress(s3).value;
    var (gas, s5) := ReadGas(s4).value;
    ZeroCanonical(s);
    ZeroCanonical(s1);
    ProgrammableCanonical(s2);
    AddressCanonical(s3);
    GasCanonical(s4);
    ExpirationCanonical(s5);
    var e := WriteExpiration(ReadExpiration(s5).value.0);
    assert s5 == e + [] == e;
  }

  // ---------- The two laws ----------

  lemma TypedLimited(c: Command, inputs: nat, commands: nat)
    requires Typed(c) && ValidCommand(c, inputs, commands)
    ensures Limited(c)
  {
  }

  /** Canonicality: accepted bytes are the encoding of the transaction they decode to, and of
      no other. */
  lemma ParseThenMarshal(data: seq<byte>)
    requires ParseData(data).Some?
    ensures Marshal(ParseData(data).value) == Some(data)
  {
    hide ValidProgrammable, ValidPayment, Typed;
    DataCanonical(data);
  }

  lemma ParseInjective(a: seq<byte>, b: seq<byte>)
    requires ParseData(a).Some? && ParseData(a) == ParseData(b)
    ensures a == b
  {
    ParseThenMarshal(a);
    ParseThenMarshal(b);
  }

  predicate TextFits(text: string) { |CanonText(text)| <= MAX_TEXT }

  predicate CommandFits(c: Command) {
    match c
    case MoveCall(_, _, _, ts, _) => AllFit(ts)
    case MakeMoveVec(t, _) => TextFits(t)
    case _ => true
  }

  predicate AllFit(ts: seq<string>) { forall i :: 0 <= i < |ts| ==> TextFits(ts[i]) }

  /** Every canonical type text keeps to the 4096 bytes allowed for a type. */
  predicate Fits(t: TransactionData) {
    forall i :: 0 <= i < |t.transaction.commands| ==> CommandFits(t.transaction.commands[i])
  }

  lemma CanonTextParses(text: string)
    requires Parse(text).Some?
    ensures Parse(CanonText(text)).Some? <==> TextFits(text)
    ensures TrimSpace(CanonText(text)) != ""
  {
    CanonicalText(text);
    ParseWellFormed(text);
    TextPlain(Parse(text).value);
    TextChars(Parse(text).value, 0);
  }

  lemma CanonTyped(c: Command, inputs: nat, commands: nat)
    requires Typed(c) && ValidCommand(c, inputs, commands)
    ensures Typed(CanonCommand(c)) <==> CommandFits(c)
    ensures ValidCommand(CanonCommand(c), inputs, commands)
  {
    hide Parse, Text, CanonText, ValidIdentifier;
    match c
    case MoveCall(p, m, f, ts, vs) =>
      var ws := CanonTexts(ts);
      forall i | 0 <= i < |ts|
        ensures (Parse(ws[i]).Some? <==> TextFits(ts[i])) && TrimSpace(ws[i]) != ""
      {
        CanonTextParses(ts[i]);
      }
    case MakeMoveVec(t, vs) => CanonTextParses(t);
    case _ =>
  }

  lemma CanonValid(t: TransactionData)
    requires ValidData(t)
    ensures ValidData(Canon(t)) <==> Fits(t)
  {
    var cs := t.transaction.commands;
    hide Typed, ValidCommand, CommandFits, CanonCommand, ValidPayment, DistinctObjects, Encodable, ValidInput;
    forall i | 0 <= i < |cs|
      ensures Typed(CanonCommand(cs[i])) <==> CommandFits(cs[i])
      ensures ValidCommand(CanonCommand(cs[i]), |t.transaction.inputs|, i)
    {
      CanonTyped(cs[i], |t.transaction.inputs|, i);
    }
  }

  lemma ValidEncoded(t: TransactionData)
    requires ValidData(t)
    ensures Encoded(t)
  {
    var cs := t.transaction.commands;
    hide Typed, ValidCommand, ValidPayment, DistinctObjects, Encodable, ValidInput, Limited;
    forall i | 0 <= i < |cs|
      ensures Limited(cs[i])
    {
      TypedLimited(cs[i], |t.transaction.inputs|, i);
    }
  }

  /** Encode, then decode: the decoder returns the same transaction with each type text in
      canonical form, exactly when all these texts fit; otherwise it refuses the bytes. */
  lemma MarshalThenParse(t: TransactionData)
    requires Marshal(t).Some?
    ensures ParseData(Marshal(t).value) == if Fits(t) then Some(Canon(t)) else None
  {
    ValidEncoded(t);
    DataRead(t);
    CanonValid(t);
    hide ValidData, Canon, Fits, Encoded;
    assert |Encode(t)| > 0;
  }
}
