/** A transaction whose bytes the decoder refuses although the encoder produced them: its type is
    written with short addresses, and the canonical text with full ones exceeds the limit. */
module TypeExpansion {
  import opened Wrappers
  import opened Strings
  import opened Bytes
  import opened TypeTags
  import opened Transactions
  import opened TransactionCodec
  import Utf8

  const LEAF := Struct(ZERO, "a", "a", [])
  const SOMEONE: Address := [1] + ZeroBytes(31)

  /** A list of `0x0::a::a`. */
  function Short(n: nat): string {
    if n == 0 then "" else if n == 1 then "0x0" + ("::" + ("a" + ("::" + ("a" + ""))))
    else "0x0" + ("::" + ("a" + ("::" + ("a" + ("," + Short(n - 1))))))
  }

  function Copies(n: nat): (r: seq<Tag>)
    ensures |r| == n && forall i :: 0 <= i < n ==> r[i] == LEAF
  {
    if n == 0 then [] else [LEAF] + Copies(n - 1)
  }

  lemma ShortAddress()
    ensures ParseAddress("0x0") == Some(ZERO)
  {
    TrimNothing("0x0");
    LoweredSame("0x0");
    assert "0x0"[2..] == "0";
    AsciiBytes("0");
    assert FromHex("00") == Some([0]) by {
      assert "00"[2..] == "" && HexDigit('0') == Some(0);
      assert FromHex("00"[2..]) == Some([]);
      assert [0 * 16 + 0] + [] == [0];
    }
    assert "0" + "0" == "00";
    assert ZeroBytes(31) + [0] == ZeroBytes(32);
  }

  /** A leaf with what follows it. */
  lemma ShortLeaf(depth: nat, end: string)
    requires depth < MAX_DEPTH && (end == "" || (!IsWordChar(end[0]) && !IsBlank(end[0]) && end[0] != '<'))
    ensures ParseTag(depth, "0x0" + ("::" + ("a" + ("::" + ("a" + end))))) == Some((LEAF, end))
  {
    ShortHead(end);
    WordOf("0x0", "::" + ("a" + ("::" + ("a" + end))));
    NotPrimitive("0x0");
    var s := "0x0" + ("::" + ("a" + ("::" + ("a" + end))));
    StructParse(depth, s, "0x0", "::" + ("a" + ("::" + ("a" + end))), ZERO, "a", "a", end);
    assert Consume("<", end) == (false, end);
  }

  lemma ShortHead(end: string)
    requires end == "" || !IsWordChar(end[0])
    ensures StructHead("0x0", "::" + ("a" + ("::" + ("a" + end)))) == Some((ZERO, "a", "a", end))
  {
    ShortAddress();
    AsciiBytes("a");
    hide Word, Consume, ParseAddress;
    ConsumeOf("::", "a" + ("::" + ("a" + end)));
    WordOf("a", "::" + ("a" + end));
    ConsumeOf("::", "a" + end);
    WordOf("a", end);
    assert ValidIdentifier("a");
  }

  lemma {:induction false} ShortList(n: nat, depth: nat, rest: string)
    requires n > 0 && depth < MAX_DEPTH
    ensures ParseTags(depth, Short(n) + (">" + rest)) == Some((Copies(n), rest))
  {
    hide ParseTag, Consume;
    if n == 1 {
      var end := ">" + rest;
      ShortLeaf(depth, end);
      Regroup("", end);
      assert "" + end == end;
      ConsumeOf(">", rest);
      assert Copies(1) == [LEAF];
    } else {
      var after := Short(n - 1) + (">" + rest);
      ShortLeaf(depth, "," + after);
      Regroup("," + Short(n - 1), ">" + rest);
      assert ("," + Short(n - 1)) + (">" + rest) == "," + after;
      NotClosing(after);
      ConsumeOf(",", after);
      ShortList(n - 1, depth, rest);
    }
  }

  lemma Regroup(end: string, more: string)
    ensures ("0x0" + ("::" + ("a" + ("::" + ("a" + end))))) + more ==
              "0x0" + ("::" + ("a" + ("::" + ("a" + (end + more)))))
  {
  }

  lemma {:induction false} Lengths(n: nat)
    requires n > 0
    ensures |Short(n)| == 10 * n - 1 && |Joined(Copies(n))| == 73 * n - 1 && |WriteAll(Copies(n))| == 38 * n
  {
    LeafLengths();
    hide Text, Write;
    if n == 1 {
      assert Copies(1) == [LEAF];
    } else {
      Lengths(n - 1);
      assert Copies(n)[1..] == Copies(n - 1);
    }
  }

  lemma LeafLengths()
    ensures |Text(LEAF)| == 72 && |Write(LEAF)| == 38
  {
    LeafText();
    hide Text, AddressText, Lowered;
    assert Utf8.Encode("a") == [97] by { assert "a"[1..] == ""; }
  }

  lemma LeafText()
    ensures |Text(LEAF)| == 72
  {
    hide AddressText, Lowered, Write;
    AddressShape(ZERO);
  }

  lemma {:induction false} ShortChars(n: nat)
    ensures AllTypeChars(Short(n))
  {
    if n > 1 {
      ShortChars(n - 1);
      var tail := "," + Short(n - 1);
      assert forall i :: 0 <= i < |tail| ==> IsTypeChar(tail[i]);
      assert Short(n) == "0x0::a::a" + tail;
    }
  }

  function LongText(n: nat): string { "0x0" + ("::" + ("a" + ("::" + ("a" + ("<" + (Short(n) + ">")))))) }

  function LongTag(n: nat): Tag { Struct(ZERO, "a", "a", Copies(n)) }

  lemma LongTagParses(n: nat)
    requires 0 < n <= 100
    ensures ParseTag(0, LongText(n)) == Some((LongTag(n), ""))
  {
    hide Short, Copies, Consume, Word, Text, Joined, Write, WriteAll, ParseTag, ParseTags, StructHead, PrimitiveKind;
    var text := LongText(n);
    var end := "<" + (Short(n) + ">");
    ShortHead(end);
    WordOf("0x0", "::" + ("a" + ("::" + ("a" + end))));
    NotPrimitive("0x0");
    StructParse(0, text, "0x0", "::" + ("a" + ("::" + ("a" + end))), ZERO, "a", "a", end);
    ConsumeOf("<", Short(n) + ">");
    ShortList(n, 1, "");
    assert Short(n) + (">" + "") == Short(n) + ">";
  }

  /** The text with n parameters is 10 n + 10 characters long, in canonical form 73 n + 73. */
  lemma LongParses(n: nat)
    requires 0 < n <= 100
    ensures Parse(LongText(n)) == Some(LongTag(n))
    ensures |Text(LongTag(n))| == 73 * n + 73 && |Write(LongTag(n))| == 38 * n + 38
    ensures LongText(n)[0] == '0' && TrimSpace(LongText(n)) == LongText(n)
  {
    LongPlain(n);
    LongLengths(n);
    LongTagParses(n);
    hide LongText, LongTag, ParseTag, Text, Write, ByteLen, TrimSpace;
  }

  lemma LongPlain(n: nat)
    requires 0 < n <= 100
    ensures ByteLen(LongText(n)) <= MAX_TEXT && TrimSpace(LongText(n)) == LongText(n) && LongText(n)[0] == '0'
  {
    Lengths(n);
    ShortChars(n);
    LongSame(n);
    hide *;
    Enclosed(Short(n));
  }

  lemma Enclosed(list: string)
    requires AllTypeChars(list)
    ensures var text := "0x0::a::a<" + list + ">";
            ByteLen(text) == |list| + 11 && TrimSpace(text) == text && text[0] == '0'
  {
    var head := "0x0::a::a<";
    var text := head + list + ">";
    HeadChars();
    TypeCharsConcat(head, list);
    TypeCharsConcat(head + list, ">");
    hide ByteLen, TrimSpace;
    assert text[|text|-1] == '>' && text[0] == '0';
    AsciiBytes(text);
    TrimNothing(text);
  }

  lemma HeadChars()
    ensures AllTypeChars("0x0::a::a<") && AllTypeChars(">")
  {
  }

  lemma LongSame(n: nat)
    ensures LongText(n) == "0x0::a::a<" + Short(n) + ">"
  {
    hide Short;
  }

  lemma LongLengths(n: nat)
    requires 0 < n <= 100
    ensures |Text(LongTag(n))| == 73 * n + 73 && |Write(LongTag(n))| == 38 * n + 38
  {
    Lengths(n);
    AddressShape(ZERO);
    assert Utf8.Encode("a") == [97] by { assert "a"[1..] == ""; }
    hide Copies, Joined, WriteAll;
    assert |Uleb(n)| == 1;
  }

  function Example(n: nat): TransactionData {
    TransactionData(Programmable([], [MakeMoveVec(LongText(n), [])]), SOMEONE,
                    GasData([ObjectReference(SOMEONE, 1, SOMEONE)], SOMEONE, 1, 1), None)
  }

  /** With 56 to 100 parameters, the encoder accepts this transaction, and the decoder refuses its
      bytes. */
  lemma EncodedButRefused(n: nat)
    requires 56 <= n <= 100
    ensures Marshal(Example(n)).Some? && ParseData(Marshal(Example(n)).value) == None
  {
    hide Parse, Text, ParseData, Encode, ValidData, LongText, LongTag;
    LongParses(n);
    ExampleValid(n);
    ExampleSize(n);
    MarshalThenParse(Example(n));
    assert !CommandFits(Example(n).transaction.commands[0]);
  }

  lemma SomeoneNotZero()
    ensures SOMEONE != ZERO
  {
    assert SOMEONE[0] == 1 && ZERO[0] == 0;
  }

  lemma ExampleValid(n: nat)
    requires 0 < n <= 100
    ensures ValidData(Example(n))
  {
    LongParses(n);
    SomeoneNotZero();
    var text := LongText(n);
    assert text != "" && TrimSpace(text) != "" && Parse(text).Some?;
    hide *;
    CommandValid(text);
    PaymentValid();
    DataValid(n, text);
  }

  lemma CommandValid(text: string)
    requires TrimSpace(text) != "" && Parse(text).Some?
    ensures ValidCommand(MakeMoveVec(text, []), 0, 0) && Typed(MakeMoveVec(text, []))
  {
    hide Parse, TrimSpace;
  }

  lemma PaymentValid()
    requires SOMEONE != ZERO
    ensures ValidPayment([ObjectReference(SOMEONE, 1, SOMEONE)], [])
  {
  }

  lemma DataValid(n: nat, text: string)
    requires text == LongText(n) && SOMEONE != ZERO
    requires ValidCommand(MakeMoveVec(text, []), 0, 0) && Typed(MakeMoveVec(text, []))
    requires ValidPayment([ObjectReference(SOMEONE, 1, SOMEONE)], [])
    ensures ValidData(Example(n))
  {
    hide ValidCommand, Typed, ValidPayment, LongText;
  }

  lemma ExampleSize(n: nat)
    requires 0 < n <= 100
    ensures |Encode(Example(n))| <= MAX_DATA
  {
    LongParses(n);
    assert |WriteType(LongText(n))| <= 4000;
    hide *;
    GasSize(n);
    ProgrammableSize(LongText(n));
    EncodeSize(n);
  }

  lemma EncodeSize(n: nat)
    requires |WriteGas(Example(n).gas)| <= 200 && |WriteProgrammable(Example(n).transaction)| <= 5000
    ensures |Encode(Example(n))| <= MAX_DATA
  {
    hide WriteGas, WriteProgrammable, LongText;
  }

  lemma {:induction false} LeSize(v: nat, k: nat)
    ensures |Le(v, k)| == k
  {
    if k > 0 { LeSize(v / 256, k - 1); }
  }

  lemma GasSize(n: nat)
    ensures |WriteGas(Example(n).gas)| <= 200
  {
    hide LongText, Le;
    LeSize(1, 8);
    var r := ObjectReference(SOMEONE, 1, SOMEONE);
    assert [r][1..] == [];
    assert WriteMany(WriteReference, [r]) == WriteReference(r) + [];
  }

  lemma ProgrammableSize(text: string)
    requires |WriteType(text)| <= 4000
    ensures |WriteProgrammable(Programmable([], [MakeMoveVec(text, [])]))| <= 5000
  {
    hide WriteType;
    var c := MakeMoveVec(text, []);
    assert [c][1..] == [];
    assert WriteMany(WriteCommand, [c]) == WriteCommand(c) + [];
  }
}
