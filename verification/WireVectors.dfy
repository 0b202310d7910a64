/** Two transactions whose bytes were written by the official software kit of the chain: the encoder
    writes the same bytes, and the decoder reads them back. They fix every number of the wire format. */
module WireVectors {
  import opened Wrappers
  import opened Strings
  import opened Bytes
  import opened TypeTags
  import opened Transactions
  import opened TransactionCodec
  import Utf8

  /** The address or object of that number. */
  function Numbered(n: byte): Address { ZeroBytes(31) + [n] }

  const DIGEST: Address := [
    1, 2, 3, 4, 5, 6, 7, 8, 9, 10, 11, 12, 13, 14, 15, 16,
    17, 18, 19, 20, 21, 22, 23, 24, 25, 26, 27, 28, 29, 30, 31, 32]

  const SENDER: Address := [
    0x16, 0x01, 0x79, 0xa1, 0x56, 0x5e, 0xa7, 0xcf, 0xf2, 0x7e, 0xad, 0x23, 0xf5, 0x4c, 0xc7, 0xf5,
    0x08, 0x93, 0xbf, 0x58, 0x15, 0x5c, 0xd7, 0x28, 0x51, 0x56, 0xe5, 0x7a, 0xfa, 0x31, 0xc3, 0xac]

  const PAYMENT := GasData(
    [ObjectReference(Numbered(0xa1), 9007199254740993, DIGEST), ObjectReference(Numbered(0xa2), 99, DIGEST)],
    SENDER, 1000, 10000000)

  // ---------- The gas data of both ----------

  function PaymentBytes(): seq<byte> {
    [2]
    + (Numbered(0xa1) + [0x01, 0, 0, 0, 0, 0, 0x20, 0] + [32] + DIGEST)
    + (Numbered(0xa2) + [99, 0, 0, 0, 0, 0, 0, 0] + [32] + DIGEST)
    + SENDER + [0xe8, 0x03, 0, 0, 0, 0, 0, 0] + [0x80, 0x96, 0x98, 0, 0, 0, 0, 0]
  }

  lemma LowByte(d: byte, q: nat, k: nat)
    ensures Le(d + 256 * q, k + 1) == [d] + Le(q, k) && Le(0, 0) == []
  {
    LowDigit(d, q);
    var v := d + 256 * q;
    assert Le(v, k + 1) == [v % 256] + Le(v / 256, k);
  }

  lemma LowDigit(d: byte, q: nat)
    ensures (d + 256 * q) % 256 == d && (d + 256 * q) / 256 == q
  {
  }

  /** Eight bytes, the lowest first. */
  lemma EightBytes(a: byte, b: byte, c: byte, d: byte, e: byte, f: byte, g: byte, h: byte)
    ensures Le(a + 256 * (b + 256 * (c + 256 * (d + 256 * (e + 256 * (f + 256 * (g + 256 * h)))))), 8) ==
            [a, b, c, d, e, f, g, h]
  {
    hide Le;
    var g1 := g + 256 * h;
    var f1 := f + 256 * g1;
    var e1 := e + 256 * f1;
    var d1 := d + 256 * e1;
    var c1 := c + 256 * d1;
    var b1 := b + 256 * c1;
    LowByte(h, 0, 0);
    assert Le(h, 1) == [h];
    LowByte(g, h, 1);
    LowByte(f, g1, 2);
    LowByte(e, f1, 3);
    LowByte(d, e1, 4);
    LowByte(c, d1, 5);
    LowByte(b, c1, 6);
    LowByte(a, b1, 7);
  }

  lemma Numbers()
    ensures Le(9007199254740993, 8) == [1, 0, 0, 0, 0, 0, 0x20, 0] && Le(99, 8) == [99, 0, 0, 0, 0, 0, 0, 0]
    ensures Le(1000, 8) == [0xe8, 3, 0, 0, 0, 0, 0, 0] && Le(10000000, 8) == [0x80, 0x96, 0x98, 0, 0, 0, 0, 0]
    ensures Le(42, 8) == [42, 0, 0, 0, 0, 0, 0, 0] && Le(100, 8) == [100, 0, 0, 0, 0, 0, 0, 0]
    ensures Le(756017937, 8) == [0x11, 0xeb, 0x0f, 0x2d, 0, 0, 0, 0]
    ensures Le(18446744073709551615, 8) == [0xff, 0xff, 0xff, 0xff, 0xff, 0xff, 0xff, 0xff]
  {
    hide Le;
    EightBytes(1, 0, 0, 0, 0, 0, 0x20, 0);
    EightBytes(99, 0, 0, 0, 0, 0, 0, 0);
    EightBytes(0xe8, 3, 0, 0, 0, 0, 0, 0);
    EightBytes(0x80, 0x96, 0x98, 0, 0, 0, 0, 0);
    EightBytes(42, 0, 0, 0, 0, 0, 0, 0);
    EightBytes(100, 0, 0, 0, 0, 0, 0, 0);
    EightBytes(0x11, 0xeb, 0x0f, 0x2d, 0, 0, 0, 0);
    EightBytes(0xff, 0xff, 0xff, 0xff, 0xff, 0xff, 0xff, 0xff);
  }

  lemma ReferenceIs(a: Address, version: u64, v: seq<byte>)
    requires Le(version, 8) == v
    ensures WriteReference(ObjectReference(a, version, DIGEST)) == a + v + [32] + DIGEST
  {
    hide Le;
    assert Uleb(32) == [32];
  }

  lemma {:induction false} Many<T>(write: T -> seq<byte>, u: T, v: T, w: T)
    ensures WriteMany(write, [w]) == write(w)
    ensures WriteMany(write, [v, w]) == write(v) + write(w)
    ensures WriteMany(write, [u, v, w]) == write(u) + write(v) + write(w)
  {
    assert [u, v, w][1..] == [v, w] && [v, w][1..] == [w] && [w][1..] == [];
    assert write(w) + [] == write(w);
    Join(write(u), write(v), write(w));
  }

  lemma ListOfOne<T>(write: T -> seq<byte>, v: T)
    ensures List(write, [v]) == [1] + write(v)
  {
    Many(write, v, v, v);
    hide WriteMany;
  }

  lemma ListOfTwo<T>(write: T -> seq<byte>, v: T, w: T)
    ensures List(write, [v, w]) == [2] + write(v) + write(w)
  {
    Many(write, v, v, w);
    hide WriteMany;
    Join([2], write(v), write(w));
  }

  lemma ListOfThree<T>(write: T -> seq<byte>, u: T, v: T, w: T)
    ensures List(write, [u, v, w]) == [3] + write(u) + write(v) + write(w)
  {
    Many(write, u, v, w);
    hide WriteMany;
    Join([3], write(u) + write(v), write(w));
    Join([3], write(u), write(v));
  }

  lemma PaymentIs()
    ensures WriteGas(PAYMENT) == PaymentBytes()
  {
    hide WriteReference, Le, List, Numbered, DIGEST, SENDER;
    Numbers();
    var p := PAYMENT.payment;
    ReferenceIs(Numbered(0xa1), 9007199254740993, [1, 0, 0, 0, 0, 0, 0x20, 0]);
    ReferenceIs(Numbered(0xa2), 99, [99, 0, 0, 0, 0, 0, 0, 0]);
    ListOfTwo(WriteReference, p[0], p[1]);
    assert p == [p[0], p[1]];
    Ends(List(WriteReference, p), SENDER, Le(1000, 8), Le(10000000, 8));
  }

  lemma Ends(l: seq<byte>, s: seq<byte>, p: seq<byte>, b: seq<byte>)
    ensures l + (s + (p + b)) == l + s + p + b
  {
  }

  // ---------- Splitting a coin and transferring the part ----------

  const TRANSFER := TransactionData(
    Programmable(
      [Pure([0x40, 0x42, 0x0f, 0, 0, 0, 0, 0]), Pure(Numbered(0x77))],
      [SplitCoins(Gas, [Input(0)]), TransferObjects([Outcome(0, Some(0))], Input(1))]),
    SENDER, PAYMENT, Some(42))

  function TransferBytes(): seq<byte> {
    [0, 0]
    + [2] + [0, 8, 0x40, 0x42, 0x0f, 0, 0, 0, 0, 0] + ([0, 32] + Numbered(0x77))
    + [2] + [2, 0, 1, 1, 0, 0] + [1, 1, 3, 0, 0, 0, 0, 1, 1, 0]
    + SENDER + PaymentBytes() + [1, 42, 0, 0, 0, 0, 0, 0, 0]
  }

  lemma Arguments()
    ensures WriteArgument(Gas) == [0] && WriteArgument(Outcome(1, None)) == [2, 1, 0]
    ensures WriteArgument(Outcome(0, Some(0))) == [3, 0, 0, 0, 0]
    ensures forall i: u16 :: i < 256 ==> WriteArgument(Input(i)) == [1, i, 0]
  {
    forall i: u16 | i < 256
      ensures Le(i, 2) == [i, 0]
    {
      assert Le(i, 2) == [i % 256] + Le(i / 256, 1);
    }
  }

  lemma TransferParts()
    ensures WriteCommand(SplitCoins(Gas, [Input(0)])) == [2, 0, 1, 1, 0, 0]
    ensures WriteCommand(TransferObjects([Outcome(0, Some(0))], Input(1))) == [1, 1, 3, 0, 0, 0, 0, 1, 1, 0]
    ensures WriteInput(Pure([0x40, 0x42, 0x0f, 0, 0, 0, 0, 0])) == [0, 8, 0x40, 0x42, 0x0f, 0, 0, 0, 0, 0]
    ensures WriteInput(Pure(Numbered(0x77))) == [0, 32] + Numbered(0x77)
  {
    Arguments();
    ListOfOne(WriteArgument, Input(0));
    ListOfOne(WriteArgument, Outcome(0, Some(0)));
    hide WriteArgument, List;
  }

  lemma Flat(i: seq<byte>, c: seq<byte>, s: seq<byte>, g: seq<byte>, e: seq<byte>)
    ensures [0] + ([0] + ((i + c) + (s + (g + e)))) == [0, 0] + i + c + s + g + e
  {
  }

  lemma TransferEncoded()
    ensures Encode(TRANSFER) == TransferBytes() && |TransferBytes()| == 300
  {
    TransferParts();
    PaymentIs();
    Numbers();
    var (inputs, commands) := (TRANSFER.transaction.inputs, TRANSFER.transaction.commands);
    ListOfTwo(WriteInput, inputs[0], inputs[1]);
    ListOfTwo(WriteCommand, commands[0], commands[1]);
    var x := [2] + [0, 8, 0x40, 0x42, 0x0f, 0, 0, 0, 0, 0] + ([0, 32] + Numbered(0x77));
    var y := [2] + [2, 0, 1, 1, 0, 0] + [1, 1, 3, 0, 0, 0, 0, 1, 1, 0];
    assert inputs == [inputs[0], inputs[1]] && commands == [commands[0], commands[1]];
    assert WriteInputs(inputs) == x && WriteCommands(commands) == y && Uleb(0) == [0];
    assert WriteExpiration(Some(42)) == [1, 42, 0, 0, 0, 0, 0, 0, 0];
    Flat(x, y, SENDER, PaymentBytes(), [1, 42, 0, 0, 0, 0, 0, 0, 0]);
    PaymentLength();
    hide WriteInput, WriteCommand, List, WriteGas, Le, PaymentBytes, Uleb, WriteExpiration, WriteInputs, WriteCommands;
    Ordered([0, 0], [2], [0, 8, 0x40, 0x42, 0x0f, 0, 0, 0, 0, 0], [0, 32] + Numbered(0x77), [2], [2, 0, 1, 1, 0, 0],
            [1, 1, 3, 0, 0, 0, 0, 1, 1, 0]);
  }

  lemma NotZero(n: byte)
    requires n > 0
    ensures Numbered(n) != ZERO && DIGEST != ZERO && SENDER != ZERO
  {
    assert Numbered(n)[31] == n && ZERO[31] == 0 && DIGEST[0] == 1 && SENDER[0] == 0x16 && ZERO[0] == 0;
  }

  lemma Different(a: byte, b: byte)
    requires a != b
    ensures Numbered(a) != Numbered(b)
  {
    assert Numbered(a)[31] == a && Numbered(b)[31] == b;
  }

  /** Both vectors are paid with these coins. */
  lemma PaymentValid(inputs: seq<TxInput>)
    requires forall i :: 0 <= i < |inputs| && inputs[i].Object? ==>
               inputs[i].ref.address != Numbered(0xa1) && inputs[i].ref.address != Numbered(0xa2)
    ensures ValidPayment(PAYMENT.payment, inputs) && PAYMENT.owner != ZERO && |PAYMENT.payment| == 2
  {
    NotZero(0xa1);
    NotZero(0xa2);
    Different(0xa1, 0xa2);
    hide Numbered;
  }

  /** A valid transaction whose type texts are canonical is encoded, and read back unchanged. */
  lemma ReadBack(t: TransactionData, b: seq<byte>)
    requires ValidData(t) && Encode(t) == b && |b| <= 1048576
    requires forall i :: 0 <= i < |t.transaction.commands| ==> Canonical(t.transaction.commands[i])
    ensures Marshal(t) == Some(b) && ParseData(b) == Some(t)
  {
    hide ValidData, Encode, Parse, Text;
    var commands := t.transaction.commands;
    forall i | 0 <= i < |commands|
      ensures CommandFits(commands[i]) && CanonCommand(commands[i]) == commands[i]
    {
      assert Canonical(commands[i]);
      match commands[i]
      case MoveCall(_, _, _, ts, _) => assert CanonTexts(ts) == ts;
      case _ =>
    }
    assert CanonCommands(commands) == commands;
    MarshalThenParse(t);
  }

  predicate Canonical(c: Command) {
    match c
    case MoveCall(_, _, _, ts, _) => forall i :: 0 <= i < |ts| ==> CanonText(ts[i]) == ts[i] && |ts[i]| <= 4096
    case MakeMoveVec(t, _) => CanonText(t) == t && |t| <= 4096
    case _ => true
  }

  /** The first vector of the kit: these 300 bytes are what the encoder writes for the transaction, and
      the decoder reads the transaction back from them. */
  lemma TransferVector()
    ensures |TransferBytes()| == 300
    ensures Marshal(TRANSFER) == Some(TransferBytes()) && ParseData(TransferBytes()) == Some(TRANSFER)
  {
    TransferEncoded();
    NotZero(1);
    hide Encode, TransferBytes, Numbered, ZeroBytes, ParseData, ValidPayment;
    PaymentValid(TRANSFER.transaction.inputs);
    TransferValid();
    ReadBack(TRANSFER, TransferBytes());
  }

  lemma TransferValid()
    ensures ValidProgrammable(TRANSFER.transaction)
    ensures forall i :: 0 <= i < |TRANSFER.transaction.inputs| ==> Encodable(TRANSFER.transaction.inputs[i])
    ensures forall i :: 0 <= i < |TRANSFER.transaction.commands| ==>
              Canonical(TRANSFER.transaction.commands[i]) && Typed(TRANSFER.transaction.commands[i])
  {
    hide ZeroBytes;
    assert |Numbered(0x77)| == 32;
  }

  lemma Ordered(a: seq<byte>, b: seq<byte>, c: seq<byte>, d: seq<byte>, e: seq<byte>, f: seq<byte>, g: seq<byte>)
    ensures a + (b + c + d) + (e + f + g) == a + b + c + d + e + f + g
  {
  }

  lemma PaymentLength()
    ensures |PaymentBytes()| == 195
  {
  }

  // ---------- Every kind of input, argument, type and supported command ----------

  const NESTED := Struct(Numbered(3), "test", "Nested", [Primitive(2), Vector(Struct(Numbered(4), "m", "T", []))])
  const COIN := Struct(Numbered(2), "coin", "Coin", [NESTED])
  const SUI_COIN := Struct(Numbered(2), "coin", "Coin", [Struct(Numbered(2), "sui", "SUI", [])])
  const PRIMITIVES: seq<nat> := [0, 1, 8, 9, 2, 3, 10, 4, 5]

  function PrimitiveTexts(): seq<string> {
    ["bool", "u8", "u16", "u32", "u64", "u128", "u256", "address", "signer"]
  }

  function Types(): seq<string> { PrimitiveTexts() + ["vector<vector<u8>>", Text(COIN)] }

  const CALL_ARGUMENTS := [Input(0), Input(2), Input(3), Input(4)]

  function VariantInputs(): seq<TxInput> {
    [Object(ImmutableOrOwned, ObjectInput(Numbered(0xb1), 9007199254740993, DIGEST, false)),
     Object(ImmutableOrOwned, ObjectInput(Numbered(0xb2), 100, DIGEST, false)),
     Object(Shared, ObjectInput(Numbered(0xc1), 756017937, ZERO, true)),
     Object(Receiving, ObjectInput(Numbered(0xd1), 18446744073709551615, DIGEST, false)),
     Pure([])]
  }

  function Variants(): TransactionData {
    TransactionData(
      Programmable(
        VariantInputs(),
        [MergeCoins(Input(0), [Input(1)]),
         MoveCall(Numbered(2), "test", "fixture", Types(), CALL_ARGUMENTS),
         MakeMoveVec(Text(SUI_COIN), [Outcome(1, None)])]),
      SENDER, PAYMENT, None)
  }

  function InputBytes(): seq<byte> {
    [5]
    + ([1, 0] + Numbered(0xb1) + [1, 0, 0, 0, 0, 0, 0x20, 0] + [32] + DIGEST)
    + ([1, 0] + Numbered(0xb2) + [100, 0, 0, 0, 0, 0, 0, 0] + [32] + DIGEST)
    + ([1, 1] + Numbered(0xc1) + [0x11, 0xeb, 0x0f, 0x2d, 0, 0, 0, 0] + [1])
    + ([1, 2] + Numbered(0xd1) + [0xff, 0xff, 0xff, 0xff, 0xff, 0xff, 0xff, 0xff] + [32] + DIGEST)
    + [0, 0]
  }

  /** The names are the texts "coin", "Coin", "test", "Nested", "m", "T", "sui" and "SUI". */
  function CoinBytes(): seq<byte> {
    [7] + Numbered(2) + [4, 0x63, 0x6f, 0x69, 0x6e] + [4, 0x43, 0x6f, 0x69, 0x6e] + [1]
    + ([7] + Numbered(3) + [4, 0x74, 0x65, 0x73, 0x74] + [6, 0x4e, 0x65, 0x73, 0x74, 0x65, 0x64] + [2]
       + ([2] + ([6] + ([7] + Numbered(4) + [1, 0x6d] + [1, 0x54] + [0]))))
  }

  function SuiCoinBytes(): seq<byte> {
    [7] + Numbered(2) + [4, 0x63, 0x6f, 0x69, 0x6e] + [4, 0x43, 0x6f, 0x69, 0x6e] + [1]
    + ([7] + Numbered(2) + [3, 0x73, 0x75, 0x69] + [3, 0x53, 0x55, 0x49] + [0])
  }

  function CallBytes(): seq<byte> {
    [0] + Numbered(2) + [4, 0x74, 0x65, 0x73, 0x74] + [7, 0x66, 0x69, 0x78, 0x74, 0x75, 0x72, 0x65]
    + ([11] + [0, 1, 8, 9, 2, 3, 10, 4, 5] + [6, 6, 1] + CoinBytes())
    + [4, 1, 0, 0, 1, 2, 0, 1, 3, 0, 1, 4, 0]
  }

  function VariantBytes(): seq<byte> {
    [0, 0] + InputBytes()
    + ([3] + [3, 1, 0, 0, 1, 1, 1, 0] + CallBytes() + ([5, 1] + SuiCoinBytes() + [1, 2, 1, 0]))
    + SENDER + PaymentBytes() + [0]
  }

  // Names and types.

  lemma {:induction false} Ascii(s: string, b: seq<byte>)
    requires |s| == |b| && forall i :: 0 <= i < |s| ==> s[i] as int == b[i] < 128
    ensures Utf8.Encode(s) == b
  {
    if s != "" {
      Ascii(s[1..], b[1..]);
      assert b == [b[0]] + b[1..];
    }
  }

  lemma ShortName(s: string, b: seq<byte>)
    requires 1 <= |s| == |b| < 128 && forall i :: 0 <= i < |s| ==> s[i] as int == b[i] < 128 && IsWordChar(s[i])
    requires !('0' <= s[0] <= '9')
    ensures ValidIdentifier(s) && WriteText(s) == [|s|] + b
  {
    Ascii(s, b);
    AsciiBytes(s);
  }

  lemma Names()
    ensures ValidIdentifier("coin") && WriteText("coin") == [4, 0x63, 0x6f, 0x69, 0x6e]
    ensures ValidIdentifier("Coin") && WriteText("Coin") == [4, 0x43, 0x6f, 0x69, 0x6e]
    ensures ValidIdentifier("test") && WriteText("test") == [4, 0x74, 0x65, 0x73, 0x74]
    ensures ValidIdentifier("Nested") && WriteText("Nested") == [6, 0x4e, 0x65, 0x73, 0x74, 0x65, 0x64]
    ensures ValidIdentifier("m") && WriteText("m") == [1, 0x6d] && ValidIdentifier("T") && WriteText("T") == [1, 0x54]
    ensures ValidIdentifier("sui") && WriteText("sui") == [3, 0x73, 0x75, 0x69]
    ensures ValidIdentifier("SUI") && WriteText("SUI") == [3, 0x53, 0x55, 0x49]
    ensures ValidIdentifier("fixture") && WriteText("fixture") == [7, 0x66, 0x69, 0x78, 0x74, 0x75, 0x72, 0x65]
  {
    hide WriteText, ValidIdentifier;
    ShortName("coin", [0x63, 0x6f, 0x69, 0x6e]);
    ShortName("Coin", [0x43, 0x6f, 0x69, 0x6e]);
    ShortName("test", [0x74, 0x65, 0x73, 0x74]);
    ShortName("Nested", [0x4e, 0x65, 0x73, 0x74, 0x65, 0x64]);
    ShortName("m", [0x6d]);
    ShortName("T", [0x54]);
    ShortName("sui", [0x73, 0x75, 0x69]);
    ShortName("SUI", [0x53, 0x55, 0x49]);
    ShortName("fixture", [0x66, 0x69, 0x78, 0x74, 0x75, 0x72, 0x65]);
  }

  /** A struct type is its address, its names, and its parameters. */
  lemma StructBytes(a: Address, m: string, n: string, ps: seq<Tag>)
    requires |ps| < 128
    ensures Write(Struct(a, m, n, ps)) == [7] + a + WriteText(m) + WriteText(n) + [|ps|] + WriteAll(ps)
  {
    assert Uleb(7) == [7] && Uleb(|ps|) == [|ps|];
    var (x, y) := (WriteText(m), WriteText(n));
    assert Write(Struct(a, m, n, ps)) == [7] + ((a + (x + (y + [|ps|]))) + WriteAll(ps));
    hide *;
    StructFlat(a, x, y, [|ps|], WriteAll(ps));
  }

  lemma StructFlat(a: seq<byte>, m: seq<byte>, n: seq<byte>, c: seq<byte>, w: seq<byte>)
    ensures [7] + ((a + (m + (n + c))) + w) == [7] + a + m + n + c + w
  {
  }

  lemma OneParameter(t: Tag)
    ensures WriteAll([t]) == Write(t) && WriteAll([]) == []
  {
    assert [t][1..] == [];
    assert Write(t) + [] == Write(t);
  }

  lemma TwoParameters(t: Tag, u: Tag)
    ensures WriteAll([t, u]) == Write(t) + Write(u)
  {
    assert [t, u][1..] == [u];
    OneParameter(u);
  }

  lemma TypeBytes()
    ensures Write(COIN) == CoinBytes() && Write(SUI_COIN) == SuiCoinBytes()
  {
    hide Write, WriteText, WriteAll, ValidIdentifier, Numbered, SENDER, DIGEST, NESTED, Utf8.Encode;
    Names();
    NestedBytes();
    StructBytes(Numbered(2), "coin", "Coin", [NESTED]);
    OneParameter(NESTED);
    var sui := Struct(Numbered(2), "sui", "SUI", []);
    StructBytes(Numbered(2), "sui", "SUI", []);
    StructBytes(Numbered(2), "coin", "Coin", [sui]);
    OneParameter(sui);
  }

  lemma WrappedBytes()
    ensures Write(Primitive(2)) == [2] && Write(Vector(Vector(Primitive(1)))) == [6, 6, 1]
    ensures forall t :: Write(Vector(t)) == [6] + Write(t)
  {
    assert Uleb(6) == [6] && Uleb(2) == [2] && Uleb(1) == [1];
  }

  lemma NestedBytes()
    ensures Write(NESTED) == [7] + Numbered(3) + [4, 0x74, 0x65, 0x73, 0x74] + [6, 0x4e, 0x65, 0x73, 0x74, 0x65, 0x64]
                             + [2] + ([2] + ([6] + ([7] + Numbered(4) + [1, 0x6d] + [1, 0x54] + [0])))
  {
    hide Write, WriteText, WriteAll, ValidIdentifier, Numbered, SENDER, DIGEST, Utf8.Encode;
    Names();
    WrappedBytes();
    var t := Struct(Numbered(4), "m", "T", []);
    StructBytes(Numbered(4), "m", "T", []);
    StructBytes(Numbered(3), "test", "Nested", [Primitive(2), Vector(t)]);
    OneParameter(t);
    TwoParameters(Primitive(2), Vector(t));
  }

  lemma StructLength(a: Address, m: string, n: string, ps: seq<Tag>)
    ensures |Text(Struct(a, m, n, ps))| == 70 + |m| + |n| + if ps == [] then 0 else 2 + |Joined(ps)|
  {
    AddressShape(a);
  }

  lemma TypesWellFormed()
    ensures WellFormed(COIN, 0) && WellFormed(SUI_COIN, 0)
    ensures |Text(COIN)| <= 4096 && |Text(SUI_COIN)| <= 4096
  {
    Names();
    hide ValidIdentifier, Text, Joined, WriteText;
    var t := Struct(Numbered(4), "m", "T", []);
    assert WellFormed(t, 3) && WellFormed(Vector(t), 2);
    assert [Primitive(2), Vector(t)][1..] == [Vector(t)] && [Vector(t)][1..] == [];
    assert AllWellFormed([], 2) && AllWellFormed([Vector(t)], 2) && AllWellFormed([Primitive(2), Vector(t)], 2);
    assert WellFormed(NESTED, 1);
    assert [NESTED][1..] == [] && AllWellFormed([], 1) && AllWellFormed([NESTED], 1);
    var u := Struct(Numbered(2), "sui", "SUI", []);
    assert WellFormed(u, 1) && [u][1..] == [] && AllWellFormed([u], 1);
    TypeLengths();
  }

  lemma TypeLengths()
    ensures |Text(COIN)| <= 4096 && |Text(SUI_COIN)| <= 4096
  {
    var t := Struct(Numbered(4), "m", "T", []);
    StructLength(Numbered(4), "m", "T", []);
    StructLength(Numbered(3), "test", "Nested", [Primitive(2), Vector(t)]);
    StructLength(Numbered(2), "coin", "Coin", [NESTED]);
    StructLength(Numbered(2), "sui", "SUI", []);
    StructLength(Numbered(2), "coin", "Coin", [Struct(Numbered(2), "sui", "SUI", [])]);
    assert |Text(Vector(t))| == |Text(t)| + 8 && |Text(Primitive(2))| == 3;
    assert [Primitive(2), Vector(t)][1..] == [Vector(t)];
    assert |Joined([Primitive(2), Vector(t)])| == 4 + |Text(Vector(t))|;
  }

  /** Parsed from its text, a type is written as its tag. */
  lemma TypeWritten(tag: Tag)
    requires WellFormed(tag, 0) && |Text(tag)| <= 4096
    ensures WriteType(Text(tag)) == Write(tag) && Readable(Text(tag))
  {
    TextParses(tag);
    CanonTextParses(Text(tag));
  }

  predicate Readable(text: string) {
    Parse(text).Some? && TrimSpace(text) != "" && CanonText(text) == text && |text| <= 4096
  }

  lemma PrimitivesWritten()
    ensures forall i :: 0 <= i < 9 ==>
              WriteType(PrimitiveTexts()[i]) == [PRIMITIVES[i]] && Readable(PrimitiveTexts()[i])
    ensures WriteType("vector<vector<u8>>") == [6, 6, 1] && Readable("vector<vector<u8>>")
  {
    forall i | 0 <= i < 9
      ensures WriteType(PrimitiveTexts()[i]) == [PRIMITIVES[i]] && Readable(PrimitiveTexts()[i])
    {
      assert Text(Primitive(PRIMITIVES[i])) == PrimitiveTexts()[i];
      hide Readable;
      TypeWritten(Primitive(PRIMITIVES[i]));
    }
    var v := Vector(Vector(Primitive(1)));
    assert Text(Vector(Primitive(1))) == "vector<u8>";
    assert Text(v) == "vector<vector<u8>>";
    hide Readable;
    TypeWritten(v);
    WrappedBytes();
  }

  lemma {:induction false} Singles<T>(write: T -> seq<byte>, vs: seq<T>, bs: seq<byte>)
    requires |vs| == |bs| && forall i :: 0 <= i < |vs| ==> write(vs[i]) == [bs[i]]
    ensures WriteMany(write, vs) == bs
  {
    if vs != [] {
      Singles(write, vs[1..], bs[1..]);
      assert bs == [bs[0]] + bs[1..];
    }
  }

  lemma {:induction false} ManyJoined<T>(write: T -> seq<byte>, vs: seq<T>, ws: seq<T>)
    ensures WriteMany(write, vs + ws) == WriteMany(write, vs) + WriteMany(write, ws)
  {
    if vs == [] {
      assert vs + ws == ws;
    } else {
      ManyJoined(write, vs[1..], ws);
      assert (vs + ws)[1..] == vs[1..] + ws && (vs + ws)[0] == vs[0];
    }
  }

  lemma TypesWritten(coin: string, b: seq<byte>)
    requires WriteType(coin) == b
    ensures WriteTypes(PrimitiveTexts() + ["vector<vector<u8>>", coin]) ==
            [11] + [0, 1, 8, 9, 2, 3, 10, 4, 5] + [6, 6, 1] + b
  {
    hide WriteType, PrimitiveTexts, WriteMany, Readable;
    PrimitivesWritten();
    AllPrimitives();
    Singles(WriteType, PrimitiveTexts(), PRIMITIVES);
    var last := ["vector<vector<u8>>", coin];
    ManyJoined(WriteType, PrimitiveTexts(), last);
    Many(WriteType, "", last[0], last[1]);
    assert Uleb(11) == [11];
    Join([11], PRIMITIVES, [6, 6, 1] + b);
    Join([11] + PRIMITIVES, [6, 6, 1], b);
  }

  lemma AllPrimitives()
    ensures |PrimitiveTexts()| == 9
  {
  }

  lemma CallArguments()
    ensures WriteArguments(CALL_ARGUMENTS) == [4, 1, 0, 0, 1, 2, 0, 1, 3, 0, 1, 4, 0]
  {
    hide WriteArgument, WriteMany;
    Arguments();
    ManyJoined(WriteArgument, [Input(0), Input(2)], [Input(3), Input(4)]);
    Many(WriteArgument, Input(0), Input(0), Input(2));
    Many(WriteArgument, Input(3), Input(3), Input(4));
    assert CALL_ARGUMENTS == [Input(0), Input(2)] + [Input(3), Input(4)] && Uleb(4) == [4];
  }

  lemma MergeWritten()
    ensures WriteCommand(MergeCoins(Input(0), [Input(1)])) == [3, 1, 0, 0, 1, 1, 1, 0]
  {
    Arguments();
    ListOfOne(WriteArgument, Input(1));
    hide WriteArgument, List;
    assert Uleb(3) == [3];
  }

  lemma CallWritten()
    ensures WriteCommand(MoveCall(Numbered(2), "test", "fixture", Types(), CALL_ARGUMENTS)) == CallBytes()
  {
    hide WriteText, WriteTypes, WriteArguments, CoinBytes, Text, WriteType, PrimitiveTexts;
    Names();
    SuiCoinWritten();
    TypesWritten(Text(COIN), CoinBytes());
    CallArguments();
    assert Uleb(0) == [0];
  }

  lemma VectorWritten(t: string, b: seq<byte>)
    requires WriteType(t) == b
    ensures WriteCommand(MakeMoveVec(t, [Outcome(1, None)])) == [5, 1] + b + [1, 2, 1, 0]
  {
    hide WriteType;
    Arguments();
    ListOfOne(WriteArgument, Outcome(1, None));
    assert Uleb(5) == [5] && Uleb(1) == [1];
    var vs := [Outcome(1, None)];
    assert WriteArguments(vs) == [1, 2, 1, 0];
    assert WriteCommand(MakeMoveVec(t, vs)) == [5] + ([1] + (b + [1, 2, 1, 0]));
    hide *;
    Join([1], b, [1, 2, 1, 0]);
    Join([5], [1] + b, [1, 2, 1, 0]);
    Join([5], [1], b);
  }

  lemma SuiCoinWritten()
    ensures WriteType(Text(SUI_COIN)) == SuiCoinBytes() && WriteType(Text(COIN)) == CoinBytes()
  {
    TypesWellFormed();
    TypeBytes();
    hide *;
    TypeWritten(SUI_COIN);
    TypeWritten(COIN);
  }

  /** An object that is not shared is its kind and its reference; a shared one says whether it may change. */
  lemma ObjectBytes(k: ObjectKind, a: Address, version: u64, v: seq<byte>, mutable: bool)
    requires Le(version, 8) == v
    ensures k != Shared ==> WriteInput(Object(k, ObjectInput(a, version, DIGEST, false))) ==
                            [1, if k == Receiving then 2 else 0] + a + v + [32] + DIGEST
    ensures WriteInput(Object(Shared, ObjectInput(a, version, ZERO, mutable))) ==
            [1, 1] + a + v + [if mutable then 1 else 0]
  {
    ReferenceIs(a, version, v);
    assert Uleb(0) == [0] && Uleb(1) == [1] && Uleb(2) == [2];
    hide Uleb, Le, WriteReference;
    var n := if k == Receiving then 2 else 0;
    ObjectFlat(n, a, v, [32], DIGEST);
    ObjectFlat(1, a, v, [if mutable then 1 else 0], []);
    if k != Shared {
      assert KindNumber(k) == n;
      assert WriteInput(Object(k, ObjectInput(a, version, DIGEST, false))) == [1] + ([n] + (a + v + [32] + DIGEST));
    }
    assert WriteInput(Object(Shared, ObjectInput(a, version, ZERO, mutable))) ==
           [1] + ([1] + (a + (v + [if mutable then 1 else 0])));
    hide WriteInput;
  }

  lemma ObjectFlat(n: byte, a: seq<byte>, v: seq<byte>, c: seq<byte>, d: seq<byte>)
    ensures [1] + ([n] + (a + v + c + d)) == [1, n] + a + v + c + d
    ensures [1] + ([n] + (a + (v + c))) == [1, n] + a + v + c
  {
  }

  lemma InputsWritten()
    ensures WriteInputs(VariantInputs()) == InputBytes()
  {
    hide Le, WriteInput, WriteInputs;
    var inputs := VariantInputs();
    Numbers();
    ObjectBytes(ImmutableOrOwned, Numbered(0xb1), 9007199254740993, [1, 0, 0, 0, 0, 0, 0x20, 0], false);
    ObjectBytes(ImmutableOrOwned, Numbered(0xb2), 100, [100, 0, 0, 0, 0, 0, 0, 0], false);
    ObjectBytes(Shared, Numbered(0xc1), 756017937, [0x11, 0xeb, 0x0f, 0x2d, 0, 0, 0, 0], true);
    ObjectBytes(Receiving, Numbered(0xd1), 18446744073709551615, [0xff, 0xff, 0xff, 0xff, 0xff, 0xff, 0xff, 0xff],
                false);
    EmptyWritten();
    FiveInputs(inputs);
    hide Numbered;
  }

  lemma EmptyWritten()
    ensures WriteInput(Pure([])) == [0, 0]
  {
  }

  lemma FiveInputs(inputs: seq<TxInput>)
    requires |inputs| == 5
    ensures WriteInputs(inputs) == [5] + WriteInput(inputs[0]) + WriteInput(inputs[1]) + WriteInput(inputs[2])
                                   + WriteInput(inputs[3]) + WriteInput(inputs[4])
  {
    ManyJoined(WriteInput, inputs[..2], inputs[2..]);
    Many(WriteInput, inputs[0], inputs[0], inputs[1]);
    Many(WriteInput, inputs[2], inputs[3], inputs[4]);
    assert inputs == inputs[..2] + inputs[2..];
    assert inputs[..2] == [inputs[0], inputs[1]] && inputs[2..] == [inputs[2], inputs[3], inputs[4]];
    assert WriteInputs(inputs) == [5] + WriteMany(WriteInput, inputs);
    FiveFlat(WriteInput(inputs[0]), WriteInput(inputs[1]), WriteInput(inputs[2]), WriteInput(inputs[3]),
             WriteInput(inputs[4]));
    hide *;
  }

  lemma FiveFlat(a: seq<byte>, b: seq<byte>, c: seq<byte>, d: seq<byte>, e: seq<byte>)
    ensures [5] + ((a + b) + (c + d + e)) == [5] + a + b + c + d + e
  {
  }

  lemma VariantsEncoded()
    ensures Encode(Variants()) == VariantBytes()
  {
    hide WriteCommand, List, WriteGas, PaymentBytes, WriteInputs, InputBytes, CallBytes, SuiCoinBytes, Text,
         Types, WriteType;
    InputsWritten();
    MergeWritten();
    CallWritten();
    SuiCoinWritten();
    VectorWritten(Text(SUI_COIN), SuiCoinBytes());
    PaymentIs();
    var commands := Variants().transaction.commands;
    ListOfThree(WriteCommand, commands[0], commands[1], commands[2]);
    assert Uleb(0) == [0];
    assert commands == [commands[0], commands[1], commands[2]];
    var y := [3] + [3, 1, 0, 0, 1, 1, 1, 0] + CallBytes() + ([5, 1] + SuiCoinBytes() + [1, 2, 1, 0]);
    assert WriteCommands(commands) == y;
    Flat(InputBytes(), y, SENDER, PaymentBytes(), [0]);
    assert Encode(Variants()) == [0] + ([0] + ((InputBytes() + y) + (SENDER + (PaymentBytes() + [0]))));
    hide WriteCommands, Encode, Uleb;
  }

  lemma TypesRead()
    ensures |Types()| == 11
    ensures forall i :: 0 <= i < 11 ==> Readable(Types()[i])
  {
    hide Readable, Text, PrimitiveTexts, COIN, WriteType;
    TypesWellFormed();
    TypeWritten(COIN);
    PrimitivesWritten();
    AllPrimitives();
    TwoMore(PrimitiveTexts(), "vector<vector<u8>>", Text(COIN));
  }

  lemma TwoMore(ps: seq<string>, v: string, w: string)
    requires |ps| == 9 && Readable(v) && Readable(w) && forall i :: 0 <= i < 9 ==> Readable(ps[i])
    ensures |ps + [v, w]| == 11 && forall i :: 0 <= i < 11 ==> Readable((ps + [v, w])[i])
  {
    hide Readable;
  }

  lemma CallValid(c: Command)
    requires c.MoveCall? && c.package != ZERO && ValidIdentifier(c.moduleName) && ValidIdentifier(c.functionName)
    requires TrimSpace(c.moduleName) != "" && TrimSpace(c.functionName) != ""
    requires |c.typeArguments| == 11 && forall i :: 0 <= i < 11 ==> Readable(c.typeArguments[i])
    requires c.arguments == CALL_ARGUMENTS
    ensures ValidCommand(c, 5, 1) && Typed(c) && Canonical(c)
  {
    hide TrimSpace, ValidIdentifier, Parse, CanonText;
  }

  lemma Called()
    ensures var c := MoveCall(Numbered(2), "test", "fixture", Types(), CALL_ARGUMENTS);
            ValidCommand(c, 5, 1) && Typed(c) && Canonical(c)
  {
    hide Readable, ValidIdentifier, Numbered, Types, ValidCommand, Typed, Canonical, TrimSpace, WriteText,
         CALL_ARGUMENTS;
    TypesRead();
    Names();
    NotZero(2);
    Unblank("test");
    Unblank("fixture");
    CallValid(MoveCall(Numbered(2), "test", "fixture", Types(), CALL_ARGUMENTS));
  }

  lemma Unblank(t: string)
    requires t != "" && !IsSpace(t[0]) && !IsSpace(t[|t| - 1])
    ensures TrimSpace(t) != ""
  {
  }

  lemma Moved()
    ensures var c := MakeMoveVec(Text(SUI_COIN), [Outcome(1, None)]);
            ValidCommand(c, 5, 2) && Typed(c) && Canonical(c)
  {
    hide Text, Parse, CanonText, SUI_COIN;
    TypesWellFormed();
    TypeWritten(SUI_COIN);
  }

  lemma InputsValid()
    ensures DistinctObjects(VariantInputs())
    ensures forall i :: 0 <= i < 5 ==> ValidInput(VariantInputs()[i]) && Encodable(VariantInputs()[i])
    ensures ValidPayment(PAYMENT.payment, VariantInputs()) && SENDER != ZERO
  {
    hide Numbered, DIGEST, SENDER, ZERO, ValidPayment;
    Addresses();
    PaymentValid(VariantInputs());
  }

  /** The numbers of the objects tell their addresses apart. */
  lemma Addresses()
    ensures forall a, b | a in {0xa1, 0xa2, 0xb1, 0xb2, 0xc1, 0xd1} && b in {0xa1, 0xa2, 0xb1, 0xb2, 0xc1, 0xd1} ::
              a != b ==> Numbered(a) != Numbered(b)
    ensures forall a | a in {0xb1, 0xb2, 0xc1, 0xd1} :: Numbered(a) != ZERO
    ensures DIGEST != ZERO && SENDER != ZERO
  {
    assert forall n: byte :: Numbered(n)[31] == n;
    NotZero(1);
    hide Numbered;
  }

  lemma VariantsValid()
    ensures ValidData(Variants()) && |VariantBytes()| <= 1048576
    ensures forall i :: 0 <= i < |Variants().transaction.commands| ==> Canonical(Variants().transaction.commands[i])
  {
    hide Types, Text, Numbered, DIGEST, SENDER, ZERO, ValidPayment, ValidInput, Encodable, DistinctObjects, Typed,
         Canonical, ValidCommand, VariantBytes;
    Called();
    Moved();
    InputsValid();
    Merged();
    BytesBounded();
  }

  lemma Merged()
    ensures var c := MergeCoins(Input(0), [Input(1)]); ValidCommand(c, 5, 0) && Typed(c) && Canonical(c)
  {
  }

  lemma BytesBounded()
    ensures |VariantBytes()| == 804
  {
  }

  /** The second vector of the kit, read back as the same transaction. */
  lemma VariantsVector()
    ensures Marshal(Variants()) == Some(VariantBytes()) && ParseData(VariantBytes()) == Some(Variants())
  {
    hide *;
    VariantsEncoded();
    VariantsValid();
    ReadBack(Variants(), VariantBytes());
  }
}
