/** Move type tags: the text form with its parser, and the binary form with its reader. */
module TypeTags {
  import opened Wrappers
  import opened Strings
  import opened Bytes
  import Utf8

  const MAX_DEPTH := 64
  const MAX_TEXT := 4096

  type Address = a: seq<byte> | |a| == 32 witness ZeroBytes(32)

  datatype Tag =
    | Primitive(kind: nat)
    | Vector(inner: Tag)
    | Struct(address: Address, moduleName: string, name: string, parameters: seq<Tag>)

  // ---------- Well-formed tags ----------

  predicate IsWordChar(c: char) {
    'a' <= c <= 'z' || 'A' <= c <= 'Z' || '0' <= c <= '9' || c == '_'
  }

  predicate ValidIdentifier(s: string) {
    && 1 <= ByteLen(s) <= 128
    && forall i :: 0 <= i < |s| ==> IsWordChar(s[i]) && (i == 0 ==> !('0' <= s[i] <= '9'))
  }

  predicate IsPrimitive(kind: nat) { kind <= 5 || 8 <= kind <= 10 }

  /** A tag whose nesting, counted from `depth`, stays below the limit. */
  predicate WellFormed(tag: Tag, depth: nat)
    decreases tag, 1
  {
    depth < MAX_DEPTH &&
    match tag
    case Primitive(kind) => IsPrimitive(kind)
    case Vector(inner) => WellFormed(inner, depth + 1)
    case Struct(_, m, n, ps) =>
      ValidIdentifier(m) && ValidIdentifier(n) && |ps| <= MAX_ELEMENTS && AllWellFormed(ps, depth + 1)
  }

  predicate AllWellFormed(ps: seq<Tag>, depth: nat)
    decreases ps, 0
  {
    ps == [] || (WellFormed(ps[0], depth) && AllWellFormed(ps[1..], depth))
  }

  // ---------- Text ----------

  function PrimitiveName(kind: nat): string {
    if kind == 0 then "bool" else if kind == 1 then "u8" else if kind == 2 then "u64"
    else if kind == 3 then "u128" else if kind == 4 then "address" else if kind == 5 then "signer"
    else if kind == 8 then "u16" else if kind == 9 then "u32" else if kind == 10 then "u256" else ""
  }

  /** Number of the primitive of that name; `vector` has number 6. */
  function PrimitiveKind(word: string): Option<nat> {
    if word == "bool" then Some(0) else if word == "u8" then Some(1) else if word == "u64" then Some(2)
    else if word == "u128" then Some(3) else if word == "address" then Some(4)
    else if word == "signer" then Some(5) else if word == "vector" then Some(6)
    else if word == "u16" then Some(8) else if word == "u32" then Some(9)
    else if word == "u256" then Some(10) else None
  }

  function HexChar(d: nat): char
    requires d < 16
  {
    if d < 10 then '0' + d as char else 'a' + (d - 10) as char
  }

  function Hex(b: seq<byte>): (s: string)
    ensures |s| == 2 * |b|
  {
    if b == [] then "" else [HexChar(b[0] / 16), HexChar(b[0] % 16)] + Hex(b[1..])
  }

  function AddressText(a: Address): string { "0x" + Hex(a) }

  function Text(tag: Tag): string
    decreases tag, 1
  {
    match tag
    case Primitive(kind) => PrimitiveName(kind)
    case Vector(inner) => "vector" + ("<" + (Text(inner) + ">"))
    case Struct(a, m, n, ps) =>
      AddressText(a) + ("::" + (m + ("::" + (n + (if ps == [] then "" else "<" + (Joined(ps) + ">"))))))
  }

  function Joined(ps: seq<Tag>): string
    decreases ps, 0
  {
    if ps == [] then ""
    else if |ps| == 1 then Text(ps[0])
    else Text(ps[0]) + ("," + Joined(ps[1..]))
  }

  // ---------- Parsing text ----------

  function Lower(c: char): char { if 'A' <= c <= 'Z' then 'a' + (c - 'A') else c }

  function Lowered(s: string): (r: string)
    ensures |r| == |s| && forall i :: 0 <= i < |s| ==> r[i] == Lower(s[i])
  {
    if s == "" then "" else [Lower(s[0])] + Lowered(s[1..])
  }

  function HexDigit(c: char): Option<nat> {
    if '0' <= c <= '9' then Some((c - '0') as nat)
    else if 'a' <= c <= 'f' then Some((c - 'a') as nat + 10)
    else None
  }

  function FromHex(s: string): (r: Option<seq<byte>>)
    ensures r.Some? ==> 2 * |r.value| == |s|
  {
    if s == "" then Some([])
    else if |s| == 1 then None
    else
      var hi, lo, rest := HexDigit(s[0]), HexDigit(s[1]), FromHex(s[2..]);
      if hi.None? || lo.None? || rest.None? then None
      else Some([hi.value * 16 + lo.value] + rest.value)
  }

  function ZeroBytes(k: nat): (r: seq<byte>)
    ensures |r| == k
  {
    seq(k, _ => 0)
  }

  /** Hexadecimal address, with or without prefix, filled with zero bytes on the left. */
  function ParseAddress(text: string): Option<Address> {
    var v := Lowered(TrimSpace(text));
    var digits := if "0x" <= v then v[2..] else v;
    if v == "" || digits == "" || ByteLen(digits) > 64 then None
    else
      BytesPerChar(digits);
      var even := if |digits| % 2 != 0 then "0" + digits else digits;
      var b := FromHex(even);
      if b.None? then None
      else Some(ZeroBytes(32 - |b.value|) + b.value)
  }

  predicate IsBlank(c: char) { c == ' ' || c == '\t' || c == '\n' || c == '\r' }

  function SkipBlanks(s: string): (r: string)
    ensures |r| <= |s|
  {
    if s != "" && IsBlank(s[0]) then SkipBlanks(s[1..]) else s
  }

  /** Blanks are skipped whether or not the token follows. */
  function Consume(token: string, s: string): (r: (bool, string))
    ensures |r.1| <= |s|
    ensures r.0 ==> |r.1| + |token| <= |s|
  {
    var t := SkipBlanks(s);
    if token <= t then (true, t[|token|..]) else (false, t)
  }

  function WordPrefix(s: string): (k: nat)
    ensures k <= |s|
    ensures forall i :: 0 <= i < k ==> IsWordChar(s[i])
    ensures k < |s| ==> !IsWordChar(s[k])
  {
    if s == "" || !IsWordChar(s[0]) then 0 else 1 + WordPrefix(s[1..])
  }

  function Word(s: string): (r: (string, string))
    ensures |r.0| + |r.1| <= |s|
  {
    var t := SkipBlanks(s);
    (t[..WordPrefix(t)], t[WordPrefix(t)..])
  }

  function ParseTag(depth: nat, s: string): (r: Option<(Tag, string)>)
    ensures r.Some? ==> |r.value.1| < |s|
    decreases |s|, 0
  {
    if depth >= MAX_DEPTH then None
    else
      var (word, r) := Word(s);
      var kind := PrimitiveKind(word);
      if kind.Some? && kind.value != 6 then Some((Primitive(kind.value), r))
      else if kind == Some(6) then
        var open := Consume("<", r);
        if !open.0 then None
        else
          var inner := ParseTag(depth + 1, open.1);
          if inner.None? then None
          else
            var close := Consume(">", inner.value.1);
            if !close.0 then None else Some((Vector(inner.value.0), close.1))
      else
        var head := StructHead(word, r);
        if head.None? then None
        else
          var (address, moduleName, name, r2) := head.value;
          var open := Consume("<", r2);
          if !open.0 then Some((Struct(address, moduleName, name, []), open.1))
          else
            var ps := ParseTags(depth + 1, open.1);
            if ps.None? then None
            else Some((Struct(address, moduleName, name, ps.value.0), ps.value.1))
  }

  /** Address, module and name of a struct type whose first word was read. */
  function StructHead(word: string, s: string): (r: Option<(Address, string, string, string)>)
    ensures r.Some? ==> |r.value.3| < |s|
    ensures r.Some? ==> ValidIdentifier(r.value.1) && ValidIdentifier(r.value.2)
  {
    var first := Consume("::", s);
    if !("0x" <= word) || !first.0 then None
    else
      var address := ParseAddress(word);
      var (moduleName, r1) := Word(first.1);
      var second := Consume("::", r1);
      if address.None? || !ValidIdentifier(moduleName) || !second.0 then None
      else
        var (name, r2) := Word(second.1);
        if !ValidIdentifier(name) then None else Some((address.value, moduleName, name, r2))
  }

  /** Parameters up to the closing bracket; there is at least one. */
  function ParseTags(depth: nat, s: string): (r: Option<(seq<Tag>, string)>)
    ensures r.Some? ==> |r.value.1| + |r.value.0| < |s| && r.value.0 != []
    decreases |s|, 1
  {
    var first := ParseTag(depth, s);
    if first.None? then None
    else
      var close := Consume(">", first.value.1);
      if close.0 then Some(([first.value.0], close.1))
      else
        var comma := Consume(",", close.1);
        if !comma.0 then None
        else
          var rest := ParseTags(depth, comma.1);
          if rest.None? then None else Some(([first.value.0] + rest.value.0, rest.value.1))
  }

  /** Parses a whole type text. */
  function Parse(text: string): Option<Tag> {
    if ByteLen(text) > MAX_TEXT then None
    else
      var r := ParseTag(0, TrimSpace(text));
      if r.None? || SkipBlanks(r.value.1) != "" then None else Some(r.value.0)
  }

  // ---------- Reading back printed text ----------

  /** What may follow a tag inside a list of parameters, or at the end. */
  predicate Plain(rest: string) { rest == "" || rest[0] == ',' || rest[0] == '>' }

  lemma Assoc(a: string, b: string, c: string)
    ensures (a + b) + c == a + (b + c)
  {
  }

  lemma Assoc3(a: string, b: string, c: string, rest: string)
    ensures (a + (b + c)) + rest == a + (b + (c + rest))
  {
    Assoc(a, b + c, rest);
    Assoc(b, c, rest);
  }

  lemma {:induction false} PrefixOf(w: string, rest: string)
    requires forall i :: 0 <= i < |w| ==> IsWordChar(w[i])
    requires rest == "" || !IsWordChar(rest[0])
    ensures WordPrefix(w + rest) == |w|
  {
    if w == "" {
      assert w + rest == rest;
    } else {
      assert (w + rest)[1..] == w[1..] + rest;
      PrefixOf(w[1..], rest);
    }
  }

  lemma WordOf(w: string, rest: string)
    requires w != "" && forall i :: 0 <= i < |w| ==> IsWordChar(w[i])
    requires rest == "" || !IsWordChar(rest[0])
    ensures Word(w + rest) == (w, rest)
  {
    PrefixOf(w, rest);
    assert (w + rest)[0] == w[0];
    assert (w + rest)[..|w|] == w && (w + rest)[|w|..] == rest;
  }

  lemma ConsumeOf(token: string, rest: string)
    requires token != "" && !IsBlank(token[0])
    ensures Consume(token, token + rest) == (true, rest)
  {
    assert (token + rest)[0] == token[0];
    assert (token + rest)[|token|..] == rest;
  }

  lemma {:induction false} HexInverse(b: seq<byte>)
    ensures FromHex(Hex(b)) == Some(b)
    ensures forall i :: 0 <= i < |Hex(b)| ==> IsWordChar(Hex(b)[i]) && Lower(Hex(b)[i]) == Hex(b)[i]
  {
    if b != [] {
      HexInverse(b[1..]);
      assert Hex(b)[2..] == Hex(b[1..]);
      assert b == [b[0]] + b[1..];
    }
  }

  lemma AddressShape(a: Address)
    ensures forall i :: 0 <= i < |AddressText(a)| ==> IsWordChar(AddressText(a)[i])
    ensures |AddressText(a)| == 66 && "0x" <= AddressText(a)
    ensures Lowered(AddressText(a)) == AddressText(a)
  {
    HexInverse(a);
    var t, h := AddressText(a), Hex(a);
    hide Hex, FromHex;
    forall i | 0 <= i < |t|
      ensures IsWordChar(t[i]) && Lower(t[i]) == t[i]
    {
      if i >= 2 { assert t[i] == h[i - 2]; }
    }
    LoweredSame(t);
  }

  lemma AddressInverse(a: Address)
    ensures ParseAddress(AddressText(a)) == Some(a)
    ensures forall i :: 0 <= i < |AddressText(a)| ==> IsWordChar(AddressText(a)[i])
    ensures |AddressText(a)| == 66 && "0x" <= AddressText(a)
  {
    AddressShape(a);
    HexInverse(a);
    TrimNothing(AddressText(a));
    AsciiBytes(Hex(a));
    hide Hex, FromHex, TrimSpace, ByteLen, Lowered, ParseAddress;
    ParseDigits(AddressText(a), Hex(a), a);
  }

  lemma ParseDigits(t: string, digits: string, a: Address)
    requires t == "0x" + digits && TrimSpace(t) == t && Lowered(t) == t
    requires |digits| == 64 && ByteLen(digits) == 64 && FromHex(digits) == Some(a)
    ensures ParseAddress(t) == Some(a)
  {
    hide FromHex, TrimSpace, ByteLen, Lowered;
    assert t[2..] == digits;
    assert ZeroBytes(0) + a == a;
  }

  lemma LoweredSame(s: string)
    requires forall i :: 0 <= i < |s| ==> Lower(s[i]) == s[i]
    ensures Lowered(s) == s
  {
  }

  lemma NameWords(kind: nat)
    requires IsPrimitive(kind)
    ensures PrimitiveName(kind) != "" && PrimitiveKind(PrimitiveName(kind)) == Some(kind)
    ensures forall i :: 0 <= i < |PrimitiveName(kind)| ==> IsWordChar(PrimitiveName(kind)[i])
  {
  }

  lemma IdentifierWords(s: string)
    requires ValidIdentifier(s)
    ensures s != "" && forall i :: 0 <= i < |s| ==> IsWordChar(s[i])
  {
  }

  lemma {:induction false} TagText(tag: Tag, depth: nat, rest: string)
    requires WellFormed(tag, depth) && Plain(rest)
    ensures ParseTag(depth, Text(tag) + rest) == Some((tag, rest))
    decreases tag, 1
  {
    match tag
    case Primitive(kind) =>
      NameWords(kind);
      WordOf(PrimitiveName(kind), rest);
    case Vector(inner) =>
      VectorText(inner, depth, rest);
    case Struct(a, m, n, ps) =>
      StructText(a, m, n, ps, depth, rest);
  }

  lemma {:induction false} VectorText(inner: Tag, depth: nat, rest: string)
    requires WellFormed(inner, depth + 1) && depth < MAX_DEPTH
    ensures ParseTag(depth, Text(Vector(inner)) + rest) == Some((Vector(inner), rest))
    decreases inner, 2
  {
    hide Consume, Word, ParseTag;
    var after := Text(inner) + (">" + rest);
    TagText(inner, depth + 1, ">" + rest);
    Assoc3("vector", "<", Text(inner) + ">", rest);
    Assoc(Text(inner), ">", rest);
    WordOf("vector", "<" + after);
    ConsumeOf("<", after);
    ConsumeOf(">", rest);
    VectorParse(depth, Text(Vector(inner)) + rest, after, inner, ">" + rest, rest);
  }

  /** Parsing of a vector type once its parts are known. */
  lemma VectorParse(depth: nat, s: string, after: string, inner: Tag, end: string, rest: string)
    requires depth < MAX_DEPTH && Word(s) == ("vector", "<" + after) && Consume("<", "<" + after) == (true, after)
    requires ParseTag(depth + 1, after) == Some((inner, end)) && Consume(">", end) == (true, rest)
    ensures ParseTag(depth, s) == Some((Vector(inner), rest))
  {
    hide Word, StructHead, Consume, ParseTags;
  }

  lemma {:induction false} StructText(a: Address, m: string, n: string, ps: seq<Tag>, depth: nat, rest: string)
    requires depth < MAX_DEPTH && ValidIdentifier(m) && ValidIdentifier(n)
    requires AllWellFormed(ps, depth + 1) && Plain(rest)
    ensures ParseTag(depth, Text(Struct(a, m, n, ps)) + rest) == Some((Struct(a, m, n, ps), rest))
    decreases ps, 3
  {
    var t := AddressText(a);
    AddressInverse(a);
    NotPrimitive(t);
    hide AddressText, Word, Consume, StructHead, ParseAddress, ValidIdentifier, PrimitiveKind, AllWellFormed, ParseTag;
    var list := if ps == [] then "" else "<" + (Joined(ps) + ">");
    var end := list + rest;
    var tail := "::" + (m + ("::" + (n + end)));
    assert Text(Struct(a, m, n, ps)) + rest == t + tail by {
      Assoc3(t, "::", m + ("::" + (n + list)), rest);
      Assoc3(m, "::", n + list, rest);
      Assoc(n, list, rest);
    }
    hide Text;
    WordOf(t, tail);
    if ps == [] {
      assert end == rest;
      HeadText(a, m, n, rest);
      NoOpening(rest);
      StructParse(depth, t + tail, t, tail, a, m, n, rest);
    } else {
      var inside := Joined(ps) + (">" + rest);
      Assoc3("<", Joined(ps), ">", rest);
      HeadText(a, m, n, "<" + inside);
      ConsumeOf("<", inside);
      TagsText(ps, depth + 1, rest);
      StructParse(depth, t + tail, t, tail, a, m, n, "<" + inside);
    }
  }

  /** Parsing of a struct type once its head is known. */
  lemma StructParse(depth: nat, s: string, word: string, r: string, a: Address, m: string, n: string, r2: string)
    requires depth < MAX_DEPTH && Word(s) == (word, r) && PrimitiveKind(word) == None
    requires StructHead(word, r) == Some((a, m, n, r2))
    ensures
      var open := Consume("<", r2);
      ParseTag(depth, s) ==
        if !open.0 then Some((Struct(a, m, n, []), open.1))
        else
          var ps := ParseTags(depth + 1, open.1);
          if ps.None? then None else Some((Struct(a, m, n, ps.value.0), ps.value.1))
  {
    hide Word, PrimitiveKind, StructHead, Consume, ParseTags;
  }

  lemma HeadText(a: Address, m: string, n: string, end: string)
    requires ValidIdentifier(m) && ValidIdentifier(n) && (end == "" || !IsWordChar(end[0]))
    ensures StructHead(AddressText(a), "::" + (m + ("::" + (n + end)))) == Some((a, m, n, end))
  {
    AddressInverse(a);
    IdentifierWords(m);
    IdentifierWords(n);
    hide AddressText, Word, Consume, ParseAddress, ValidIdentifier;
    ConsumeOf("::", m + ("::" + (n + end)));
    WordOf(m, "::" + (n + end));
    ConsumeOf("::", n + end);
    WordOf(n, end);
  }

  lemma NotPrimitive(t: string)
    requires "0x" <= t
    ensures PrimitiveKind(t) == None
  {
    assert t[0] == '0';
  }

  lemma NotClosing(after: string)
    ensures Consume(">", "," + after) == (false, "," + after)
  {
  }

  lemma NoOpening(rest: string)
    requires Plain(rest)
    ensures Consume("<", rest) == (false, rest)
  {
  }

  lemma {:induction false} TagsText(ps: seq<Tag>, depth: nat, rest: string)
    requires ps != [] && AllWellFormed(ps, depth)
    ensures ParseTags(depth, Joined(ps) + (">" + rest)) == Some((ps, rest))
    decreases ps, 2
  {
    hide Consume, Word, ParseTag, Text;
    if |ps| == 1 {
      TagText(ps[0], depth, ">" + rest);
      ConsumeOf(">", rest);
      assert ps == [ps[0]];
    } else {
      var after := Joined(ps[1..]) + (">" + rest);
      Assoc3(Text(ps[0]), ",", Joined(ps[1..]), ">" + rest);
      TagText(ps[0], depth, "," + after);
      NotClosing(after);
      ConsumeOf(",", after);
      TagsText(ps[1..], depth, rest);
      assert ps == [ps[0]] + ps[1..];
    }
  }

  // ---------- Whole texts ----------

  predicate IsTypeChar(c: char) { IsWordChar(c) || c == ':' || c == '<' || c == '>' || c == ',' }

  predicate AllTypeChars(s: string) { forall i :: 0 <= i < |s| ==> IsTypeChar(s[i]) }

  lemma TypeCharsConcat(a: string, b: string)
    ensures AllTypeChars(a + b) <==> AllTypeChars(a) && AllTypeChars(b)
  {
    if AllTypeChars(a + b) {
      forall i | 0 <= i < |a| ensures IsTypeChar(a[i]) { assert (a + b)[i] == a[i]; }
      forall i | 0 <= i < |b| ensures IsTypeChar(b[i]) { assert (a + b)[|a| + i] == b[i]; }
    }
  }

  lemma {:induction false} TextChars(tag: Tag, depth: nat)
    requires WellFormed(tag, depth)
    ensures AllTypeChars(Text(tag)) && Text(tag) != ""
    decreases tag, 1
  {
    match tag
    case Primitive(kind) =>
      NameWords(kind);
    case Vector(inner) =>
      TextChars(inner, depth + 1);
      hide Text;
      assert Text(tag) == "vector" + ("<" + (Text(inner) + ">")) by { TextOfVector(inner); }
      TypeCharsConcat(Text(inner), ">");
      TypeCharsConcat("<", Text(inner) + ">");
      TypeCharsConcat("vector", "<" + (Text(inner) + ">"));
    case Struct(a, m, n, ps) =>
      var list := if ps == [] then "" else "<" + (Joined(ps) + ">");
      if ps != [] {
        JoinedChars(ps, depth + 1);
        TypeCharsConcat(Joined(ps), ">");
        TypeCharsConcat("<", Joined(ps) + ">");
      }
      StructChars(a, m, n, list);
  }

  lemma TextOfVector(inner: Tag)
    ensures Text(Vector(inner)) == "vector" + ("<" + (Text(inner) + ">"))
  {
  }

  lemma StructChars(a: Address, m: string, n: string, list: string)
    requires ValidIdentifier(m) && ValidIdentifier(n) && AllTypeChars(list)
    ensures AllTypeChars(AddressText(a) + ("::" + (m + ("::" + (n + list)))))
  {
    AddressInverse(a);
    IdentifierWords(m);
    IdentifierWords(n);
    hide AddressText, ParseAddress, ValidIdentifier;
    TypeCharsConcat(n, list);
    TypeCharsConcat("::", n + list);
    TypeCharsConcat(m, "::" + (n + list));
    TypeCharsConcat("::", m + ("::" + (n + list)));
    TypeCharsConcat(AddressText(a), "::" + (m + ("::" + (n + list))));
  }

  lemma {:induction false} JoinedChars(ps: seq<Tag>, depth: nat)
    requires ps != [] && AllWellFormed(ps, depth)
    ensures AllTypeChars(Joined(ps))
    decreases ps, 0
  {
    TextChars(ps[0], depth);
    if |ps| > 1 {
      JoinedChars(ps[1..], depth);
      TypeCharsConcat(",", Joined(ps[1..]));
      TypeCharsConcat(Text(ps[0]), "," + Joined(ps[1..]));
    }
  }

  lemma TextPlain(tag: Tag)
    requires WellFormed(tag, 0)
    ensures ByteLen(Text(tag)) == |Text(tag)| && TrimSpace(Text(tag)) == Text(tag)
  {
    hide Text, WellFormed, ByteLen, TrimSpace;
    TextChars(tag, 0);
    AsciiBytes(Text(tag));
    TrimNothing(Text(tag));
  }

  /** The printed text of a well-formed tag parses back to the tag exactly when it fits. */
  lemma TextParses(tag: Tag)
    requires WellFormed(tag, 0)
    ensures Parse(Text(tag)) == if |Text(tag)| <= 4096 then Some(tag) else None
  {
    TextPlain(tag);
    TagText(tag, 0, "");
    assert Text(tag) + "" == Text(tag);
  }

  /** Whatever the parser accepts is well formed: nesting, identifiers and counts are in bounds. */
  lemma {:induction false} ParsedWellFormed(depth: nat, s: string)
    requires ParseTag(depth, s).Some? && |s| <= MAX_ELEMENTS
    ensures WellFormed(ParseTag(depth, s).value.0, depth)
    decreases |s|, 0
  {
    hide StructHead, Text;
    var (word, r) := Word(s);
    var kind := PrimitiveKind(word);
    if kind.Some? && kind.value != 6 {
    } else if kind == Some(6) {
      ParsedWellFormed(depth + 1, Consume("<", r).1);
    } else {
      var (a, m, n, r2) := StructHead(word, r).value;
      var open := Consume("<", r2);
      StructParse(depth, s, word, r, a, m, n, r2);
      if open.0 { ParsedAllWellFormed(depth + 1, open.1); }
    }
  }

  lemma {:induction false} ParsedAllWellFormed(depth: nat, s: string)
    requires ParseTags(depth, s).Some? && |s| <= MAX_ELEMENTS
    ensures AllWellFormed(ParseTags(depth, s).value.0, depth)
    decreases |s|, 1
  {
    hide ParseTag;
    ParsedWellFormed(depth, s);
    var first := ParseTag(depth, s);
    var close := Consume(">", first.value.1);
    var ps := ParseTags(depth, s).value.0;
    if close.0 {
      assert ps[1..] == [];
    } else {
      var comma := Consume(",", close.1);
      ParsedAllWellFormed(depth, comma.1);
      assert ps[1..] == ParseTags(depth, comma.1).value.0;
    }
  }

  lemma ParseWellFormed(text: string)
    requires Parse(text).Some?
    ensures WellFormed(Parse(text).value, 0)
  {
    BytesPerChar(text);
    ParsedWellFormed(0, TrimSpace(text));
  }

  /** Canonicalising an accepted text gives a text that, if it still fits, is accepted with the
      same tag and does not change any more. */
  lemma CanonicalText(text: string)
    requires Parse(text).Some?
    ensures
      var t := Text(Parse(text).value);
      Parse(t) == if |t| <= 4096 then Parse(text) else None
  {
    ParseWellFormed(text);
    TextParses(Parse(text).value);
  }

  // ---------- Binary form ----------

  function Write(tag: Tag): (r: seq<byte>)
    ensures |r| >= 1
    decreases tag, 1
  {
    match tag
    case Primitive(kind) => Uleb(kind)
    case Vector(inner) => Uleb(6) + Write(inner)
    case Struct(a, m, n, ps) =>
      Uleb(7) + (WriteHead(a, m, n, |ps|) + WriteAll(ps))
  }

  function WriteAll(ps: seq<Tag>): (r: seq<byte>)
    ensures |r| >= |ps|
    decreases ps, 0
  {
    if ps == [] then [] else Write(ps[0]) + WriteAll(ps[1..])
  }

  function ReadText(s: seq<byte>): Parsed<string> {
    var b := ReadBlob(s);
    if b.None? then None
    else
      var t := Utf8.Decode(b.value.0);
      if t.None? then None else Some((t.value, b.value.1))
  }

  function ReadIdentifier(s: seq<byte>): Parsed<string> {
    var t := ReadText(s);
    if t.None? || !ValidIdentifier(t.value.0) then None else t
  }

  function Read(depth: nat, s: seq<byte>): Parsed<Tag>
    decreases MAX_DEPTH - depth, 0, 0
  {
    if depth >= MAX_DEPTH then None
    else
      var kind := ReadUleb(s);
      if kind.None? then None
      else
        var (k, r) := kind.value;
        if IsPrimitive(k) then Some((Primitive(k), r))
        else if k == 6 then
          var inner := Read(depth + 1, r);
          if inner.None? then None else Some((Vector(inner.value.0), inner.value.1))
        else if k == 7 then
          var head := ReadHead(r);
          if head.None? then None
          else
            var ((a, m, n, count), r1) := head.value;
            var ps := ReadAll(depth + 1, count, r1);
            if ps.None? then None else Some((Struct(a, m, n, ps.value.0), ps.value.1))
        else None
  }

  function ReadAll(depth: nat, count: nat, s: seq<byte>): Parsed<seq<Tag>>
    decreases MAX_DEPTH - depth, 1, count
  {
    if count == 0 then Some(([], s))
    else
      var first := Read(depth, s);
      if first.None? then None
      else
        var rest := ReadAll(depth, count - 1, first.value.1);
        if rest.None? then None else Some(([first.value.0] + rest.value.0, rest.value.1))
  }

  function ReadAddress(s: seq<byte>): (r: Parsed<Address>) {
    if 32 <= |s| then Some((s[..32], s[32..])) else None
  }

  /** Address, module, name and number of parameters. */
  function ReadHead(s: seq<byte>): Parsed<(Address, string, string, nat)> {
    var a := ReadAddress(s);
    if a.None? then None
    else
      var m := ReadIdentifier(a.value.1);
      if m.None? then None
      else
        var n := ReadIdentifier(m.value.1);
        if n.None? then None
        else
          var count := ReadLength(MAX_ELEMENTS, n.value.1);
          if count.None? then None
          else Some(((a.value.0, m.value.0, n.value.0, count.value.0), count.value.1))
  }

  function WriteHead(a: Address, m: string, n: string, count: nat): seq<byte> {
    a + (Blob(Utf8.Encode(m)) + (Blob(Utf8.Encode(n)) + Uleb(count)))
  }

  lemma Join(a: seq<byte>, b: seq<byte>, c: seq<byte>)
    ensures (a + b) + c == a + (b + c)
  {
  }

  lemma IdentifierRead(t: string, rest: seq<byte>)
    requires ValidIdentifier(t)
    ensures ReadIdentifier(Blob(Utf8.Encode(t)) + rest) == Some((t, rest))
  {
    BytesPerChar(t);
    Utf8.AsciiLength(t);
    Utf8.EncodeDecode(t);
    assert |Utf8.Encode(t)| <= 128;
    hide ValidIdentifier;
    BlobRead(Utf8.Encode(t), rest);
  }

  lemma IdentifierCanonical(s: seq<byte>)
    requires ReadIdentifier(s).Some?
    ensures
      var (t, rest) := ReadIdentifier(s).value;
      s == Blob(Utf8.Encode(t)) + rest && ValidIdentifier(t)
  {
    BlobCanonical(s);
    Utf8.DecodeEncode(ReadBlob(s).value.0);
  }

  lemma HeadRead(a: Address, m: string, n: string, count: nat, rest: seq<byte>)
    requires ValidIdentifier(m) && ValidIdentifier(n) && count <= MAX_ELEMENTS && count <= |rest|
    ensures ReadHead(WriteHead(a, m, n, count) + rest) == Some(((a, m, n, count), rest))
  {
    hide ReadIdentifier, ReadLength, Blob, Uleb;
    var x, y := Blob(Utf8.Encode(m)), Blob(Utf8.Encode(n));
    var s := WriteHead(a, m, n, count) + rest;
    Join(a, x + (y + Uleb(count)), rest);
    Join(x, y + Uleb(count), rest);
    Join(y, Uleb(count), rest);
    var tail := x + (y + (Uleb(count) + rest));
    assert s == a + tail && s[..32] == a && s[32..] == tail;
    IdentifierRead(m, y + (Uleb(count) + rest));
    IdentifierRead(n, Uleb(count) + rest);
    LengthRead(count, MAX_ELEMENTS, rest);
  }

  lemma HeadCanonical(s: seq<byte>)
    requires ReadHead(s).Some?
    ensures
      var ((a, m, n, count), rest) := ReadHead(s).value;
      && s == WriteHead(a, m, n, count) + rest
      && ValidIdentifier(m) && ValidIdentifier(n) && count <= MAX_ELEMENTS
  {
    hide ReadIdentifier, ReadLength, Blob, Uleb;
    var (a, s1) := ReadAddress(s).value;
    var (m, s2) := ReadIdentifier(s1).value;
    var (n, s3) := ReadIdentifier(s2).value;
    var (count, rest) := ReadLength(MAX_ELEMENTS, s3).value;
    IdentifierCanonical(s1);
    IdentifierCanonical(s2);
    LengthCanonical(MAX_ELEMENTS, s3);
    var x, y := Blob(Utf8.Encode(m)), Blob(Utf8.Encode(n));
    Join(a, x + (y + Uleb(count)), rest);
    Join(x, y + Uleb(count), rest);
    Join(y, Uleb(count), rest);
    assert s == a + s1;
  }

  /** The binary reader takes back every well-formed tag. */
  lemma {:induction false} TagRead(tag: Tag, depth: nat, rest: seq<byte>)
    requires WellFormed(tag, depth)
    ensures Read(depth, Write(tag) + rest) == Some((tag, rest))
    decreases tag, 1
  {
    hide Uleb, ReadUleb, ReadHead, WriteHead;
    match tag
    case Primitive(kind) =>
      UlebReads(kind, rest);
    case Vector(inner) =>
      Join(Uleb(6), Write(inner), rest);
      UlebReads(6, Write(inner) + rest);
      TagRead(inner, depth + 1, rest);
    case Struct(a, m, n, ps) =>
      var head, tail := WriteHead(a, m, n, |ps|), WriteAll(ps) + rest;
      Join(Uleb(7), head + WriteAll(ps), rest);
      Join(head, WriteAll(ps), rest);
      UlebReads(7, head + tail);
      HeadRead(a, m, n, |ps|, tail);
      TagsRead(ps, depth + 1, rest);
  }

  lemma {:induction false} TagsRead(ps: seq<Tag>, depth: nat, rest: seq<byte>)
    requires AllWellFormed(ps, depth)
    ensures ReadAll(depth, |ps|, WriteAll(ps) + rest) == Some((ps, rest))
    decreases ps, 0
  {
    hide Read, Write;
    if ps == [] {
      assert WriteAll(ps) + rest == rest;
    } else {
      Join(Write(ps[0]), WriteAll(ps[1..]), rest);
      TagRead(ps[0], depth, WriteAll(ps[1..]) + rest);
      TagsRead(ps[1..], depth, rest);
      assert ps == [ps[0]] + ps[1..];
    }
  }

  /** What the binary reader accepts is the encoding of a well-formed tag. */
  lemma {:induction false} TagCanonical(depth: nat, s: seq<byte>)
    requires Read(depth, s).Some?
    ensures
      var (tag, rest) := Read(depth, s).value;
      s == Write(tag) + rest && WellFormed(tag, depth)
    decreases MAX_DEPTH - depth, 0, 0
  {
    hide Uleb, ReadUleb, ReadHead, WriteHead;
    var (k, r) := ReadUleb(s).value;
    UlebAccepts(s);
    var (tag, rest) := Read(depth, s).value;
    if IsPrimitive(k) {
    } else if k == 6 {
      TagCanonical(depth + 1, r);
      Join(Uleb(6), Write(tag.inner), rest);
    } else {
      var ((a, m, n, count), r1) := ReadHead(r).value;
      HeadCanonical(r);
      TagsCanonical(depth + 1, count, r1);
      Join(WriteHead(a, m, n, count), WriteAll(tag.parameters), rest);
      Join(Uleb(7), WriteHead(a, m, n, count) + WriteAll(tag.parameters), rest);
    }
  }

  lemma {:induction false} TagsCanonical(depth: nat, count: nat, s: seq<byte>)
    requires ReadAll(depth, count, s).Some?
    ensures
      var (ps, rest) := ReadAll(depth, count, s).value;
      s == WriteAll(ps) + rest && |ps| == count && AllWellFormed(ps, depth)
    decreases MAX_DEPTH - depth, 1, count
  {
    hide Read, Write;
    var (ps, rest) := ReadAll(depth, count, s).value;
    if count == 0 {
      assert s == WriteAll(ps) + rest;
    } else {
      var (first, r) := Read(depth, s).value;
      TagCanonical(depth, s);
      TagsCanonical(depth, count - 1, r);
      assert ps[0] == first && ps[1..] == ReadAll(depth, count - 1, r).value.0;
      Join(Write(first), WriteAll(ps[1..]), rest);
    }
  }

  // ---------- The rules written out ----------

  lemma IdentifierRule(s: string)
    ensures ValidIdentifier(s) <==>
            && 1 <= |s| <= 128
            && (forall i :: 0 <= i < |s| ==>
                  var c := s[i] as int;
                  97 <= c <= 122 || 65 <= c <= 90 || c == 95 || (i > 0 && 48 <= c <= 57))
  {
    BytesPerChar(s);
    if forall i :: 0 <= i < |s| ==> s[i] < '\U{0080}' { AsciiBytes(s); }
  }

  /** Levels of nesting. */
  function Depth(tag: Tag): (n: nat)
    decreases tag, 1
  {
    match tag
    case Primitive(_) => 1
    case Vector(inner) => 1 + Depth(inner)
    case Struct(_, _, _, ps) => 1 + Deepest(ps)
  }

  function Deepest(ps: seq<Tag>): nat
    decreases ps, 0
  {
    if ps == [] then 0
    else if Depth(ps[0]) > Deepest(ps[1..]) then Depth(ps[0])
    else Deepest(ps[1..])
  }

  predicate Named(tag: Tag)
    decreases tag, 1
  {
    match tag
    case Primitive(kind) => kind in {0, 1, 2, 3, 4, 5, 8, 9, 10}
    case Vector(inner) => Named(inner)
    case Struct(_, m, n, ps) => ValidIdentifier(m) && ValidIdentifier(n) && |ps| <= 65536 && AllNamed(ps)
  }

  predicate AllNamed(ps: seq<Tag>)
    decreases ps, 0
  {
    ps == [] || (Named(ps[0]) && AllNamed(ps[1..]))
  }

  /** A tag is well formed exactly when it has at most 64 levels, and names and numbers as required. */
  lemma {:induction false} DepthRule(tag: Tag, depth: nat)
    ensures WellFormed(tag, depth) <==> depth + Depth(tag) <= 64 && Named(tag)
    decreases tag, 1
  {
    hide ValidIdentifier;
    match tag
    case Primitive(kind) =>
    case Vector(inner) => DepthRule(inner, depth + 1);
    case Struct(_, m, n, ps) => AllDepthRule(ps, depth + 1);
  }

  lemma {:induction false} AllDepthRule(ps: seq<Tag>, depth: nat)
    requires depth > 0
    ensures AllWellFormed(ps, depth) <==> (ps == [] || depth + Deepest(ps) <= 64) && AllNamed(ps)
    decreases ps, 0
  {
    if ps != [] {
      DepthRule(ps[0], depth);
      AllDepthRule(ps[1..], depth);
    }
  }

  /** The number a list of bytes stands for, the highest first, after a number read before. */
  function BigEndian(before: nat, b: seq<byte>): nat
    decreases |b|
  {
    if b == [] then before else BigEndian(before * 256 + b[0], b[1..])
  }

  function HexValue(c: char): nat {
    if '0' <= c <= '9' then c as int - 48 else if 'A' <= c <= 'F' then c as int - 55
    else if 'a' <= c <= 'f' then c as int - 87 else 0
  }

  function HexNumber(before: nat, s: string): nat
    decreases |s|
  {
    if s == "" then before else HexNumber(before * 16 + HexValue(s[0]), s[1..])
  }

  predicate IsHex(s: string) {
    forall i :: 0 <= i < |s| ==> '0' <= s[i] <= '9' || 'a' <= s[i] <= 'f' || 'A' <= s[i] <= 'F'
  }

  lemma {:induction false} HexRead(s: string, before: nat)
    requires |s| % 2 == 0
    ensures FromHex(Lowered(s)).Some? <==> IsHex(s)
    ensures IsHex(s) ==> BigEndian(before, FromHex(Lowered(s)).value) == HexNumber(before, s)
  {
    if s != "" {
      hide HexNumber, BigEndian;
      HexRead(s[2..], before * 256 + HexValue(s[0]) * 16 + HexValue(s[1]));
      HexSplit(s);
      HexPair(s, before);
      if IsHex(s) { PairRead(s, before); }
    }
  }

  lemma HexSplit(s: string)
    requires |s| >= 2
    ensures FromHex(Lowered(s)).Some? <==>
            FromHex(Lowered(s[2..])).Some? && HexDigit(Lower(s[0])).Some? && HexDigit(Lower(s[1])).Some?
    ensures IsHex(s) <==> IsHex(s[2..]) && HexDigit(Lower(s[0])).Some? && HexDigit(Lower(s[1])).Some?
  {
    hide IsHex, Lower, HexDigit, Lowered, FromHex;
    assert Lowered(s)[2..] == Lowered(s[2..]);
    PairParsed(Lowered(s));
    HexTail(s);
    OneDigit(s[0]);
    OneDigit(s[1]);
  }

  lemma HexTail(s: string)
    requires |s| >= 2
    ensures IsHex(s) <==> IsHex(s[2..]) && IsHex([s[0]]) && IsHex([s[1]])
  {
    var t := s[2..];
    if IsHex(t) && IsHex([s[0]]) && IsHex([s[1]]) {
      assert forall i :: 0 <= i < |s| ==> s[i] == if i == 0 then [s[0]][0] else if i == 1 then [s[1]][0] else t[i - 2];
    }
    if IsHex(s) {
      assert forall i :: 0 <= i < |t| ==> t[i] == s[i + 2];
    }
  }

  lemma OneDigit(c: char)
    ensures IsHex([c]) <==> HexDigit(Lower(c)).Some?
  {
    assert IsHex([c]) ==> var d := [c][0]; '0' <= d <= '9' || 'a' <= d <= 'f' || 'A' <= d <= 'F';
  }

  lemma PairParsed(t: string)
    requires |t| >= 2
    ensures FromHex(t).Some? <==> FromHex(t[2..]).Some? && HexDigit(t[0]).Some? && HexDigit(t[1]).Some?
  {
    hide HexDigit;
  }

  lemma PairRead(s: string, before: nat)
    requires |s| >= 2 && FromHex(Lowered(s)).Some? && FromHex(Lowered(s[2..])).Some? && IsHex(s)
    ensures BigEndian(before, FromHex(Lowered(s)).value) ==
            BigEndian(before * 256 + HexValue(s[0]) * 16 + HexValue(s[1]), FromHex(Lowered(s[2..])).value)
  {
    assert Lowered(s)[2..] == Lowered(s[2..]);
    var b := FromHex(Lowered(s)).value;
    assert b[1..] == FromHex(Lowered(s[2..])).value && b[0] == HexValue(s[0]) * 16 + HexValue(s[1]);
  }

  lemma HexPair(s: string, before: nat)
    requires |s| >= 2
    ensures HexNumber(before, s) == HexNumber(before * 256 + HexValue(s[0]) * 16 + HexValue(s[1]), s[2..])
  {
    var next := before * 16 + HexValue(s[0]);
    assert s[1..][1..] == s[2..];
    assert HexNumber(before, s) == HexNumber(next, s[1..]);
    assert HexNumber(next, s[1..]) == HexNumber(next * 16 + HexValue(s[1]), s[2..]);
  }

  /** An address is one to 64 hexadecimal digits, with or without prefix, and is their number in 32 bytes. */
  lemma AddressRule(digits: string)
    requires TrimSpace(digits) == digits && !("0x" <= Lowered(digits))
    ensures ParseAddress("0x" + digits).Some? <==> 1 <= |digits| <= 64 && IsHex(digits)
    ensures digits != "" ==> ParseAddress(digits) == ParseAddress("0x" + digits)
    ensures ParseAddress("0x" + digits).Some? ==>
              BigEndian(0, ParseAddress("0x" + digits).value) == HexNumber(0, digits)
  {
    hide *;
    PrefixDropped(digits);
    if digits != "" { DigitsOnly(digits); }
    assert "0x" + "" == "0x";
  }

  lemma PrefixDropped(digits: string)
    requires TrimSpace(digits) == digits && !("0x" <= Lowered(digits))
    ensures ParseAddress("0x").None? && (digits != "" ==> ParseAddress(digits) == ParseAddress("0x" + digits))
  {
    hide TrimSpace, FromHex, Lowered, ByteLen;
    assert TrimSpace("") == "" && "0x" + "" == "0x";
    TrimPrefixed("");
    TrimPrefixed(digits);
  }

  lemma TrimPrefixed(digits: string)
    requires TrimSpace(digits) == digits
    ensures TrimSpace("0x" + digits) == "0x" + digits && Lowered("0x" + digits) == "0x" + Lowered(digits)
    ensures Lowered("0x" + digits)[2..] == Lowered(digits)
  {
    var text := "0x" + digits;
    assert !IsSpace('0') && !IsSpace('x');
    assert digits != "" ==> text[|text| - 1] == digits[|digits| - 1];
    TrimNothing(text);
    hide TrimSpace;
    assert Lowered(text) == "0x" + Lowered(digits);
  }

  lemma DigitsOnly(digits: string)
    requires TrimSpace(digits) == digits && !("0x" <= Lowered(digits))
    requires digits != ""
    ensures ParseAddress(digits).Some? <==> |digits| <= 64 && IsHex(digits)
    ensures ParseAddress(digits).Some? ==>
              BigEndian(0, ParseAddress(digits).value) == HexNumber(0, digits)
  {
    hide *;
    DigitsParse(digits);
    BytesPerChar(Lowered(digits));
    if IsHex(digits) { HexAscii(digits); }
    EvenHex(digits);
    HexRead(Even(digits), 0);
    PaddedNumber(digits, ByteLen(Lowered(digits)), FromHex(Lowered(Even(digits))), ParseAddress(digits));
  }

  lemma PaddedNumber(digits: string, length: nat, b: Option<seq<byte>>, a: Option<Address>)
    requires length >= |digits| && (IsHex(digits) ==> length == |digits|)
    requires (b.Some? <==> IsHex(digits)) && (b.Some? ==> BigEndian(0, b.value) == HexNumber(0, digits))
    requires a.Some? <==> length <= 64 && b.Some?
    requires a.Some? ==> |b.value| <= 32 && a.value == ZeroBytes(32 - |b.value|) + b.value
    ensures a.Some? <==> |digits| <= 64 && IsHex(digits)
    ensures a.Some? ==> BigEndian(0, a.value) == HexNumber(0, digits)
  {
    hide *;
    if a.Some? { Filled(32 - |b.value|, b.value); }
  }

  function Even(digits: string): (r: string)
    ensures |r| % 2 == 0
  {
    if |digits| % 2 != 0 then "0" + digits else digits
  }

  lemma DigitsParse(digits: string)
    requires TrimSpace(digits) == digits && !("0x" <= Lowered(digits)) && digits != ""
    ensures var v, b := Lowered(digits), FromHex(Lowered(Even(digits)));
            && (ParseAddress(digits).Some? <==> ByteLen(v) <= 64 && b.Some?)
            && (ByteLen(v) <= 64 && b.Some? ==>
                  |b.value| <= 32 && ParseAddress(digits).value == ZeroBytes(32 - |b.value|) + b.value)
  {
    hide TrimSpace, ByteLen, FromHex, Even, Lowered;
    EvenLowered(digits);
    BytesPerChar(Lowered(digits));
  }

  lemma EvenLowered(digits: string)
    ensures var v := Lowered(digits); Lowered(Even(digits)) == if |v| % 2 != 0 then "0" + v else v
  {
    hide Lowered;
    EvenDigits(digits);
  }

  lemma HexAscii(digits: string)
    requires IsHex(digits)
    ensures ByteLen(Lowered(digits)) == |digits|
  {
    hide Lowered, ByteLen;
    var v := Lowered(digits);
    forall i | 0 <= i < |v|
      ensures v[i] < '\U{0080}'
    {
      assert v[i] == Lower(digits[i]);
    }
    AsciiBytes(v);
  }

  lemma EvenHex(digits: string)
    ensures IsHex(Even(digits)) <==> IsHex(digits)
    ensures HexNumber(0, Even(digits)) == HexNumber(0, digits)
  {
    hide IsHex, HexNumber, Lowered;
    EvenDigits(digits);
  }

  lemma EvenDigits(digits: string)
    ensures Lowered("0" + digits) == "0" + Lowered(digits)
    ensures IsHex("0" + digits) <==> IsHex(digits)
    ensures HexNumber(0, "0" + digits) == HexNumber(0, digits)
  {
    assert ("0" + digits)[1..] == digits;
    assert IsHex("0" + digits) ==> forall i :: 0 <= i < |digits| ==> digits[i] == ("0" + digits)[i + 1];
  }

  lemma {:induction false} Filled(k: nat, b: seq<byte>)
    ensures BigEndian(0, ZeroBytes(k) + b) == BigEndian(0, b)
  {
    if k == 0 {
      assert ZeroBytes(0) + b == b;
    } else {
      Filled(k - 1, b);
      assert (ZeroBytes(k) + b)[1..] == ZeroBytes(k - 1) + b;
    }
  }

  /** Types are printed without blanks, and addresses with all their 64 digits. */
  lemma TextRule(a: Address, m: string, n: string, t: Tag, u: Tag)
    ensures Text(Vector(t)) == "vector<" + Text(t) + ">"
    ensures Text(Struct(a, m, n, [])) == AddressText(a) + "::" + m + "::" + n
    ensures Text(Struct(a, m, n, [t, u])) == AddressText(a) + "::" + m + "::" + n + "<" + Text(t) + "," + Text(u) + ">"
  {
    hide AddressText;
    JoinedTwo(t, u);
    hide Joined;
    Flattened(AddressText(a), m, n, Text(t), Text(u));
  }

  lemma JoinedTwo(t: Tag, u: Tag)
    ensures Joined([t, u]) == Text(t) + ("," + Text(u))
  {
    assert [t, u][1..] == [u];
  }

  lemma Flattened(a: string, m: string, n: string, t: string, u: string)
    ensures a + ("::" + (m + ("::" + (n + "")))) == a + "::" + m + "::" + n
    ensures a + ("::" + (m + ("::" + (n + ("<" + (t + ("," + u) + ">")))))) ==
            a + "::" + m + "::" + n + "<" + t + "," + u + ">"
  {
  }

  lemma AddressDigits(a: Address)
    ensures "0x" <= AddressText(a) && |AddressText(a)| == 66
    ensures forall i :: 0 <= i < 32 ==>
              && AddressText(a)[2 + 2 * i] == "0123456789abcdef"[a[i] / 16]
              && AddressText(a)[3 + 2 * i] == "0123456789abcdef"[a[i] % 16]
  {
    hide Hex;
    forall i | 0 <= i < 32
      ensures AddressText(a)[2 + 2 * i] == "0123456789abcdef"[a[i] / 16]
      ensures AddressText(a)[3 + 2 * i] == "0123456789abcdef"[a[i] % 16]
    {
      HexPlace(a, i);
      assert AddressText(a)[2 + 2 * i] == Hex(a)[2 * i] && AddressText(a)[3 + 2 * i] == Hex(a)[2 * i + 1];
    }
  }

  lemma {:induction false} HexPlace(b: seq<byte>, i: nat)
    requires i < |b|
    ensures Hex(b)[2 * i] == "0123456789abcdef"[b[i] / 16] && Hex(b)[2 * i + 1] == "0123456789abcdef"[b[i] % 16]
  {
    HexCharIs(b[0] / 16);
    HexCharIs(b[0] % 16);
    hide HexChar;
    if i > 0 {
      HexPlace(b[1..], i - 1);
      assert Hex(b)[2 * i] == Hex(b[1..])[2 * (i - 1)] && Hex(b)[2 * i + 1] == Hex(b[1..])[2 * (i - 1) + 1];
    }
  }

  lemma HexCharIs(d: nat)
    requires d < 16
    ensures HexChar(d) == "0123456789abcdef"[d]
  {
  }
}
