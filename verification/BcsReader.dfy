/** The decoder: a cursor over the data with a sticky error. After the first failure every
    method returns some value and changes nothing that matters. */
module BcsReader {
  import opened Wrappers
  import opened Bytes
  import opened TypeTags
  import opened Transactions
  import Utf8
  import Validation

  /** What a method does: nothing useful after a failure; otherwise it returns what the format
      says about the remaining bytes and moves past it, or it fails. */
  ghost predicate Took<T>(failedBefore: bool, parsed: Parsed<T>, failed: bool, v: T, rest: seq<byte>) {
    if failedBefore || parsed.None? then failed
    else !failed && parsed.value == (v, rest)
  }

  function Pow128(i: nat): nat { if i == 0 then 1 else 128 * Pow128(i - 1) }

  /** The value once `low` was collected from the first `i` bytes. */
  ghost function Collected(low: nat, i: nat, parsed: Parsed<nat>): Parsed<nat> {
    if parsed.None? then None
    else Some((low + parsed.value.0 * Pow128(i), parsed.value.1))
  }

  lemma CollectedNext(low: nat, i: nat, s: seq<byte>)
    requires i < 5 && s != [] && !(i == 4 && s[0] > 15) && s[0] >= 128
    ensures Collected(low, i, ReadUlebFrom(s, i)) ==
              Collected(low + s[0] % 128 * Pow128(i), i + 1, ReadUlebFrom(s[1..], i + 1))
  {
    var rest := ReadUlebFrom(s[1..], i + 1);
    if rest.Some? { Spread(s[0] - 128, rest.value.0, Pow128(i)); }
  }

  lemma CollectedLast(low: nat, i: nat, s: seq<byte>)
    requires i < 5 && s != [] && !(i == 4 && s[0] > 15) && s[0] < 128
    ensures Collected(low, i, ReadUlebFrom(s, i)) ==
              if i > 0 && s[0] == 0 then None else Some((low + s[0] * Pow128(i), s[1..]))
  {
  }

  lemma CollectedBad(low: nat, i: nat, s: seq<byte>)
    requires i <= 5 && (i == 5 || s == [] || (i == 4 && s[0] > 15))
    ensures Collected(low, i, ReadUlebFrom(s, i)) == None
  {
  }

  lemma CollectedAll(s: seq<byte>)
    ensures Collected(0, 0, ReadUlebFrom(s, 0)) == ReadUleb(s)
  {
    assert Pow128(0) == 1;
  }

  lemma Spread(a: int, v: int, p: int)
    ensures (a + 128 * v) * p == a * p + v * (128 * p)
  {
  }

  lemma NonNegative(a: nat, p: nat)
    ensures a * p >= 0
  {
  }

  /** Elements read so far, before those that are still to come. */
  ghost function Ahead<T>(values: seq<T>, parsed: Parsed<seq<T>>): Parsed<seq<T>> {
    if parsed.None? then None else Some((values + parsed.value.0, parsed.value.1))
  }

  /** State of a loop that reads a list: `rest` is what the format says from here on. */
  ghost predicate Loading<T>(failedBefore: bool, whole: Parsed<seq<T>>, failed: bool, values: seq<T>,
                             rest: Parsed<seq<T>>) {
    if failedBefore then failed
    else if failed then whole.None?
    else Ahead(values, rest) == whole
  }

  lemma LoadStart<T>(failed: bool, whole: Parsed<seq<T>>)
    ensures Loading(failed, whole, failed, [], whole)
  {
    if whole.Some? { assert [] + whole.value.0 == whole.value.0; }
  }

  lemma LoadNext<T>(failedBefore: bool, whole: Parsed<seq<T>>, failed: bool, values: seq<T>, rest: Parsed<seq<T>>,
                    first: Parsed<T>, failedNext: bool, v: T, s: seq<byte>, restNext: Parsed<seq<T>>)
    requires Loading(failedBefore, whole, failed, values, rest)
    requires first.None? ==> rest.None?
    requires first.Some? && !failedNext ==>
      rest == if restNext.None? then None else Some(([first.value.0] + restNext.value.0, restNext.value.1))
    requires Took(failed, first, failedNext, v, s)
    ensures Loading(failedBefore, whole, failedNext, values + [v], restNext)
  {
    if !failedNext && restNext.Some? {
      assert values + ([v] + restNext.value.0) == (values + [v]) + restNext.value.0;
    }
  }

  lemma LoadEnd<T>(failedBefore: bool, whole: Parsed<seq<T>>, failed: bool, values: seq<T>, s: seq<byte>)
    requires Loading(failedBefore, whole, failed, values, Some(([], s)))
    ensures Took(failedBefore, whole, failed, values, s)
  {
    assert values + [] == values;
  }

  class Reader {
    const data: seq<byte>
    var position: nat
    var failed: bool

    ghost predicate Valid()
      reads this
    {
      position <= |data|
    }

    /** The bytes that are left. */
    ghost function Rest(): seq<byte>
      reads this
      requires Valid()
    {
      data[position..]
    }

    constructor (bytes: seq<byte>)
      ensures Valid() && data == bytes && Rest() == bytes && !failed
    {
      data := bytes;
      position := 0;
      failed := false;
    }

    method Fail()
      modifies this`failed
      ensures failed
    {
      failed := true;
    }

    method ReadBytes(length: nat) returns (value: seq<byte>)
      requires Valid()
      modifies this
      ensures Valid()
      ensures Took(old(failed), Take(length, old(Rest())), failed, value, Rest())
    {
      if failed { return []; }
      if length > |data| - position {
        Fail();
        return [];
      }
      value := data[position..position + length];
      assert Rest()[..length] == value && Rest()[length..] == data[position + length..];
      position := position + length;
    }

    method ReadByte() returns (b: byte)
      requires Valid()
      modifies this
      ensures Valid()
      ensures
        var s := old(Rest());
        Took(old(failed), if s == [] then None else Some((s[0], s[1..])), failed, b, Rest())
    {
      var value := ReadBytes(1);
      if failed { return 0; }
      return value[0];
    }

    /** The bits of each byte are disjoint from those collected before, so that adding them is
        the bitwise or of the source. */
    method Uleb() returns (v: nat)
      requires Valid()
      modifies this
      ensures Valid()
      ensures Took(old(failed), ReadUleb(old(Rest())), failed, v, Rest())
      ensures failed ==> v == 0
    {
      var value: nat, scale: nat := 0, 1;
      CollectedAll(Rest());
      assert Pow128(0) == 1;
      hide Collected, ReadUleb, ReadUlebFrom;
      for i := 0 to 5
        invariant Valid() && scale == Pow128(i) && (old(failed) ==> failed && i == 0)
        invariant !old(failed) ==> !failed
        invariant !old(failed) ==> Collected(value, i, ReadUlebFrom(Rest(), i)) == ReadUleb(old(Rest()))
      {
        ghost var s := Rest();
        if s == [] || (i == 4 && s[0] > 15) { CollectedBad(value, i, s); }
        var b := ReadByte();
        if failed { return 0; }
        if i == 4 && b > 15 {
          Fail();
          return 0;
        }
        NonNegative(b, scale);
        NonNegative(b % 128, scale);
        if b < 128 {
          CollectedLast(value, i, s);
          value := value + b * scale;
          if i > 0 && b == 0 {
            Fail();
            return 0;
          }
          return value;
        }
        CollectedNext(value, i, s);
        value := value + b % 128 * scale;
        scale := scale * 128;
      }
      CollectedBad(value, 5, Rest());
      Fail();
      return 0;
    }

    method Length(limit: nat) returns (n: nat)
      requires Valid()
      modifies this
      ensures Valid()
      ensures Took(old(failed), ReadLength(limit, old(Rest())), failed, n, Rest())
    {
      var value := Uleb();
      if value > limit || value > |data| - position {
        Fail();
        return 0;
      }
      return value;
    }

    method U16() returns (v: u16)
      requires Valid()
      modifies this
      ensures Valid()
      ensures Took(old(failed), ReadU16(old(Rest())), failed, v, Rest())
    {
      var value := ReadBytes(2);
      if failed { return 0; }
      LeLimits();
      FromLeInverse(value);
      return FromLe(value);
    }

    method U64() returns (v: u64)
      requires Valid()
      modifies this
      ensures Valid()
      ensures Took(old(failed), ReadU64(old(Rest())), failed, v, Rest())
    {
      var value := ReadBytes(8);
      if failed { return 0; }
      LeLimits();
      FromLeInverse(value);
      return FromLe(value);
    }

    method ByteString() returns (b: seq<byte>)
      requires Valid()
      modifies this
      ensures Valid()
      ensures Took(old(failed), ReadBlob(old(Rest())), failed, b, Rest())
    {
      var n := Length(MAX_DATA);
      b := ReadBytes(n);
    }

    method Text() returns (t: string)
      requires Valid()
      modifies this
      ensures Valid()
      ensures Took(old(failed), ReadText(old(Rest())), failed, t, Rest())
    {
      var b := ByteString();
      var decoded := Utf8.Decode(b);
      if decoded.None? {
        Fail();
        return "";
      }
      return decoded.value;
    }

    method AddressField() returns (a: Address)
      requires Valid()
      modifies this
      ensures Valid()
      ensures Took(old(failed), ReadAddress(old(Rest())), failed, a, Rest())
    {
      var b := ReadBytes(32);
      if failed { return ZERO; }
      return b;
    }

    method Reference() returns (r: ObjectReference)
      requires Valid()
      modifies this
      ensures Valid()
      ensures Took(old(failed), ReadReference(old(Rest())), failed, r, Rest())
    {
      var a := AddressField();
      var v := U64();
      var d := ByteString();
      if |d| != 32 {
        Fail();
        return ObjectReference(a, v, ZERO);
      }
      return ObjectReference(a, v, d);
    }

    // ---------- Type tags ----------

    method Head() returns (a: Address, m: string, n: string, count: nat)
      requires Valid()
      modifies this
      ensures Valid()
      ensures Took(old(failed), ReadHead(old(Rest())), failed, (a, m, n, count), Rest())
    {
      hide ValidIdentifier, ReadLength, ReadAddress, ReadText;
      a := AddressField();
      m := Text();
      n := Text();
      if !ValidIdentifier(m) || !ValidIdentifier(n) { Fail(); }
      count := Length(MAX_ELEMENTS);
    }

    method TypeTag(depth: nat) returns (tag: Tag)
      requires Valid()
      modifies this
      ensures Valid()
      ensures Took(old(failed), Read(depth, old(Rest())), failed, tag, Rest())
      decreases MAX_DEPTH - depth, 0
    {
      hide ReadUleb, ReadHead;
      tag := Primitive(0);
      if failed { return; }
      if depth >= MAX_DEPTH {
        Fail();
        return;
      }
      var kind := Uleb();
      if IsPrimitive(kind) {
        tag := Primitive(kind);
      } else if kind == 6 {
        var inner := TypeTag(depth + 1);
        tag := Vector(inner);
      } else if kind == 7 {
        var a, m, n, count := Head();
        var ps := ManyTypeTags(depth + 1, count);
        tag := Struct(a, m, n, ps);
      } else {
        Fail();
      }
    }

    method ManyTypeTags(depth: nat, count: nat) returns (ps: seq<Tag>)
      requires Valid()
      modifies this
      ensures Valid()
      ensures Took(old(failed), ReadAll(depth, count, old(Rest())), failed, ps, Rest())
      decreases MAX_DEPTH - depth, 1
    {
      hide Took, Loading, Read;
      ps := [];
      ghost var whole := ReadAll(depth, count, Rest());
      LoadStart(failed, whole);
      for i := 0 to count
        invariant Valid()
        invariant Loading(old(failed), whole, failed, ps, ReadAll(depth, count - i, Rest()))
      {
        ghost var f, s, before := failed, Rest(), ps;
        var p := TypeTag(depth);
        ps := ps + [p];
        LoadTags(old(failed), whole, f, before, depth, count - i, s, failed, p, Rest());
      }
      LoadEnd(old(failed), whole, failed, ps, Rest());
    }

    // ---------- Transactions ----------

    method OneArgument() returns (a: Argument)
      requires Valid()
      modifies this
      ensures Valid()
      ensures Took(old(failed), ReadArgument(old(Rest())), failed, a, Rest())
    {
      hide ReadUleb, ReadU16;
      var k := Uleb();
      if k == 0 { return Gas; }
      if k == 1 {
        var i := U16();
        return Input(i);
      }
      if k == 2 {
        var i := U16();
        return Outcome(i, None);
      }
      if k == 3 {
        var i := U16();
        var j := U16();
        return Outcome(i, Some(j));
      }
      Fail();
      return Gas;
    }

    method ManyArguments() returns (vs: seq<Argument>)
      requires Valid()
      modifies this
      ensures Valid()
      ensures Took(old(failed), ReadArguments(old(Rest())), failed, vs, Rest())
    {
      hide Loading, ReadLength, ReadArgument;
      vs := [];
      var n := Length(MAX_ELEMENTS);
      ghost var start, whole := failed, ReadMany(n, ReadArgument, Rest());
      LoadStart(failed, whole);
      for i := 0 to n
        invariant Valid()
        invariant Loading(start, whole, failed, vs, ReadMany(n - i, ReadArgument, Rest()))
      {
        hide Took;
        ghost var f, s, before := failed, Rest(), vs;
        var v := OneArgument();
        vs := vs + [v];
        LoadMany(start, whole, f, before, n - i, ReadArgument, s, failed, v, Rest());
      }
      LoadEnd(start, whole, failed, vs, Rest());
    }

    method SharedObject() returns (o: ObjectInput)
      requires Valid()
      modifies this
      ensures Valid()
      ensures Took(old(failed), ReadSharedObject(old(Rest())), failed, o, Rest())
    {
      hide ReadAddress, ReadU64;
      var a := AddressField();
      var v := U64();
      var mutable := ReadByte();
      if mutable > 1 { Fail(); }
      return ObjectInput(a, v, ZERO, mutable == 1);
    }

    method InputField() returns (i: TxInput)
      requires Valid()
      modifies this
      ensures Valid()
      ensures Took(old(failed), ReadInput(old(Rest())), failed, i, Rest())
    {
      hide ReadUleb, ReadBlob, ReadSharedObject, ReadReference;
      var k := Uleb();
      if k == 0 {
        var b := ByteString();
        return Pure(b);
      }
      if k == 1 {
        var variant := Uleb();
        if variant > 2 { Fail(); }
        if variant == 1 {
          var o := SharedObject();
          return Object(Shared, o);
        }
        var r := Reference();
        return Object(if variant == 0 then ImmutableOrOwned else Receiving,
                      ObjectInput(r.address, r.version, r.digest, false));
      }
      Fail();
      return Pure([]);
    }

    method ManyInputs() returns (vs: seq<TxInput>)
      requires Valid()
      modifies this
      ensures Valid()
      ensures Took(old(failed), ReadInputs(old(Rest())), failed, vs, Rest())
    {
      hide Loading, ReadLength, ReadInput;
      vs := [];
      var n := Length(MAX_ELEMENTS);
      ghost var start, whole := failed, ReadMany(n, ReadInput, Rest());
      LoadStart(failed, whole);
      for i := 0 to n
        invariant Valid()
        invariant Loading(start, whole, failed, vs, ReadMany(n - i, ReadInput, Rest()))
      {
        hide Took;
        ghost var f, s, before := failed, Rest(), vs;
        var v := InputField();
        vs := vs + [v];
        LoadMany(start, whole, f, before, n - i, ReadInput, s, failed, v, Rest());
      }
      LoadEnd(start, whole, failed, vs, Rest());
    }

    method TypeField() returns (t: string)
      requires Valid()
      modifies this
      ensures Valid()
      ensures Took(old(failed), ReadType(old(Rest())), failed, t, Rest())
    {
      hide Read;
      var tag := TypeTag(0);
      if failed { return ""; }
      return TypeTags.Text(tag);
    }

    method ManyTypes() returns (vs: seq<string>)
      requires Valid()
      modifies this
      ensures Valid()
      ensures Took(old(failed), ReadTypes(old(Rest())), failed, vs, Rest())
    {
      hide Loading, ReadLength, ReadType;
      vs := [];
      var n := Length(MAX_ELEMENTS);
      ghost var start, whole := failed, ReadMany(n, ReadType, Rest());
      LoadStart(failed, whole);
      for i := 0 to n
        invariant Valid()
        invariant Loading(start, whole, failed, vs, ReadMany(n - i, ReadType, Rest()))
      {
        hide Took;
        ghost var f, s, before := failed, Rest(), vs;
        var v := TypeField();
        vs := vs + [v];
        LoadMany(start, whole, f, before, n - i, ReadType, s, failed, v, Rest());
      }
      LoadEnd(start, whole, failed, vs, Rest());
    }

    method MoveCallField() returns (c: Command)
      requires Valid()
      modifies this
      ensures Valid()
      ensures Took(old(failed), ReadMoveCall(old(Rest())), failed, c, Rest())
    {
      hide ReadAddress, ReadText, ReadTypes, ReadArguments;
      var p := AddressField();
      var m := Text();
      var f := Text();
      var ts := ManyTypes();
      var vs := ManyArguments();
      return MoveCall(p, m, f, ts, vs);
    }

    method CommandField() returns (c: Command)
      requires Valid()
      modifies this
      ensures Valid()
      ensures Took(old(failed), ReadCommand(old(Rest())), failed, c, Rest())
    {
      hide ReadUleb, ReadMoveCall, ReadArguments, ReadArgument, ReadType;
      var k := Uleb();
      if k == 0 {
        c := MoveCallField();
      } else if k == 1 {
        var vs := ManyArguments();
        var a := OneArgument();
        c := TransferObjects(vs, a);
      } else if k == 2 {
        var a := OneArgument();
        var vs := ManyArguments();
        c := SplitCoins(a, vs);
      } else if k == 3 {
        var a := OneArgument();
        var vs := ManyArguments();
        c := MergeCoins(a, vs);
      } else if k == 5 {
        c := VectorField();
      } else {
        Fail();
        c := MakeMoveVec("", []);
      }
    }

    method VectorField() returns (c: Command)
      requires Valid()
      modifies this
      ensures Valid()
      ensures Took(old(failed), ReadVector(old(Rest())), failed, c, Rest())
    {
      hide ReadUleb, ReadArguments, ReadType;
      var some := Uleb();
      if some != 1 {
        Fail();
        return MakeMoveVec("", []);
      }
      var t := TypeField();
      if failed { return MakeMoveVec("", []); }
      var vs := ManyArguments();
      return MakeMoveVec(t, vs);
    }

    method ManyCommands() returns (vs: seq<Command>)
      requires Valid()
      modifies this
      ensures Valid()
      ensures Took(old(failed), ReadCommands(old(Rest())), failed, vs, Rest())
    {
      hide Loading, ReadLength, ReadCommand;
      vs := [];
      var n := Length(MAX_ELEMENTS);
      ghost var start, whole := failed, ReadMany(n, ReadCommand, Rest());
      LoadStart(failed, whole);
      for i := 0 to n
        invariant Valid()
        invariant Loading(start, whole, failed, vs, ReadMany(n - i, ReadCommand, Rest()))
      {
        hide Took;
        ghost var f, s, before := failed, Rest(), vs;
        var v := CommandField();
        vs := vs + [v];
        LoadMany(start, whole, f, before, n - i, ReadCommand, s, failed, v, Rest());
      }
      LoadEnd(start, whole, failed, vs, Rest());
    }

    method ManyReferences() returns (vs: seq<ObjectReference>)
      requires Valid()
      modifies this
      ensures Valid()
      ensures Took(old(failed), ReadReferences(old(Rest())), failed, vs, Rest())
    {
      hide Loading, ReadLength, ReadReference;
      vs := [];
      var n := Length(MAX_ELEMENTS);
      ghost var start, whole := failed, ReadMany(n, ReadReference, Rest());
      LoadStart(failed, whole);
      for i := 0 to n
        invariant Valid()
        invariant Loading(start, whole, failed, vs, ReadMany(n - i, ReadReference, Rest()))
      {
        hide Took;
        ghost var f, s, before := failed, Rest(), vs;
        var v := Reference();
        vs := vs + [v];
        LoadMany(start, whole, f, before, n - i, ReadReference, s, failed, v, Rest());
      }
      LoadEnd(start, whole, failed, vs, Rest());
    }

    method ProgrammableField() returns (t: Programmable)
      requires Valid()
      modifies this
      ensures Valid()
      ensures Took(old(failed), ReadProgrammable(old(Rest())), failed, t, Rest())
    {
      hide ReadInputs, ReadCommands;
      var inputs := ManyInputs();
      var commands := ManyCommands();
      return Programmable(inputs, commands);
    }

    method GasField() returns (g: GasData)
      requires Valid()
      modifies this
      ensures Valid()
      ensures Took(old(failed), ReadGas(old(Rest())), failed, g, Rest())
    {
      hide ReadReferences, ReadAddress, ReadU64;
      var payment := ManyReferences();
      var owner := AddressField();
      var price := U64();
      var budget := U64();
      return GasData(payment, owner, price, budget);
    }

    method ExpirationField() returns (e: Option<u64>)
      requires Valid()
      modifies this
      ensures Valid()
      ensures Took(old(failed), ReadExpiration(old(Rest())), failed, e, Rest())
    {
      hide ReadUleb, ReadU64;
      var k := Uleb();
      if k == 0 { return None; }
      if k == 1 {
        var epoch := U64();
        return Some(epoch);
      }
      Fail();
      return None;
    }

    method Zero()
      requires Valid()
      modifies this
      ensures Valid()
      ensures Took(old(failed), ReadZero(old(Rest())), failed, (), Rest())
    {
      hide ReadUleb;
      var k := Uleb();
      if k != 0 { Fail(); }
    }

    method DataField() returns (t: TransactionData)
      requires Valid()
      modifies this
      ensures Valid()
      ensures Took(old(failed), ReadData(old(Rest())), failed, t, Rest())
    {
      hide ReadZero, ReadProgrammable, ReadAddress, ReadGas, ReadExpiration;
      Zero();
      Zero();
      var p := ProgrammableField();
      var sender := AddressField();
      var gas := GasField();
      var e := ExpirationField();
      return TransactionData(p, sender, gas, e);
    }
  }

  lemma LoadMany<T>(start: bool, whole: Parsed<seq<T>>, failed: bool, values: seq<T>, n: nat,
                    read: seq<byte> -> Parsed<T>, s: seq<byte>, failedNext: bool, v: T, sNext: seq<byte>)
    requires n > 0 && Loading(start, whole, failed, values, ReadMany(n, read, s))
    requires Took(failed, read(s), failedNext, v, sNext)
    ensures Loading(start, whole, failedNext, values + [v], ReadMany(n - 1, read, sNext))
  {
    LoadNext(start, whole, failed, values, ReadMany(n, read, s), read(s), failedNext, v, sNext,
             ReadMany(n - 1, read, sNext));
  }

  lemma LoadTags(start: bool, whole: Parsed<seq<Tag>>, failed: bool, values: seq<Tag>, depth: nat, n: nat,
                 s: seq<byte>, failedNext: bool, v: Tag, sNext: seq<byte>)
    requires n > 0 && Loading(start, whole, failed, values, ReadAll(depth, n, s))
    requires Took(failed, Read(depth, s), failedNext, v, sNext)
    ensures Loading(start, whole, failedNext, values + [v], ReadAll(depth, n - 1, sNext))
  {
    hide Loading;
    LoadNext(start, whole, failed, values, ReadAll(depth, n, s), Read(depth, s), failedNext, v, sNext,
             ReadAll(depth, n - 1, sNext));
  }

  /** Decodes supported data and refuses everything else, also trailing bytes. */
  method ParseTransactionData(data: seq<byte>) returns (t: Option<TransactionData>)
    ensures t == ParseData(data)
  {
    hide ReadData, ValidData;
    if |data| == 0 || |data| > MAX_DATA { return None; }
    var r := new Reader(data);
    var decoded := r.DataField();
    if r.failed || r.position != |data| { return None; }
    var valid := Validation.Validate(decoded);
    if !valid { return None; }
    return Some(decoded);
  }
}
