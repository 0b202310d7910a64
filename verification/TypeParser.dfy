/** The parser of type texts: a cursor over the text. */
module TypeParser {
  import opened Wrappers
  import opened Strings
  import opened TypeTags

  class Parser {
    const value: string
    var position: nat

    ghost predicate Valid()
      reads this
    {
      position <= |value|
    }

    ghost function Rest(): string
      reads this
      requires Valid()
    {
      value[position..]
    }

    constructor (text: string)
      ensures Valid() && value == text && Rest() == text
    {
      value := text;
      position := 0;
    }

    method Space()
      requires Valid()
      modifies this
      ensures Valid() && Rest() == SkipBlanks(old(Rest()))
    {
      while position < |value| && IsBlank(value[position])
        invariant Valid() && SkipBlanks(Rest()) == SkipBlanks(old(Rest()))
      {
        assert Rest()[1..] == value[position + 1..];
        position := position + 1;
      }
    }

    method ConsumeToken(token: string) returns (found: bool)
      requires Valid()
      modifies this
      ensures Valid() && (found, Rest()) == Consume(token, old(Rest()))
    {
      Space();
      if !(token <= value[position..]) { return false; }
      assert Rest()[|token|..] == value[position + |token|..];
      position := position + |token|;
      return true;
    }

    method NextWord() returns (word: string)
      requires Valid()
      modifies this
      ensures Valid() && (word, Rest()) == Word(old(Rest()))
    {
      Space();
      var start := position;
      ghost var s := Rest();
      while position < |value|
        invariant start <= position <= |value|
        invariant WordPrefix(s) == position - start + WordPrefix(Rest())
      {
        if !IsWordChar(value[position]) { break; }
        assert Rest()[1..] == value[position + 1..];
        position := position + 1;
      }
      word := value[start..position];
      assert WordPrefix(s) == position - start;
      assert s[..position - start] == word && s[position - start..] == Rest();
    }

    /** A tag at nesting `depth`; the cursor stands behind it unless parsing failed. */
    method ParseNested(depth: nat) returns (tag: Option<Tag>)
      requires Valid()
      modifies this
      ensures Valid()
      ensures tag.Some? <==> ParseTag(depth, old(Rest())).Some?
      ensures tag.Some? ==> ParseTag(depth, old(Rest())).value == (tag.value, Rest())
      decreases |value| - position, 0
    {
      hide Word, Consume, StructHead;
      if depth >= MAX_DEPTH { return None; }
      var word := NextWord();
      var kind := PrimitiveKind(word);
      if kind.Some? && kind.value != 6 { return Some(Primitive(kind.value)); }
      if kind == Some(6) {
        var open := ConsumeToken("<");
        if !open { return None; }
        var inner := ParseNested(depth + 1);
        if inner.None? { return None; }
        var close := ConsumeToken(">");
        if !close { return None; }
        return Some(Vector(inner.value));
      }
      var head := ParseHead(word);
      if head.None? { return None; }
      var (address, moduleName, name) := head.value;
      var ps: seq<Tag> := [];
      var open := ConsumeToken("<");
      if open {
        var list := ParseList(depth + 1);
        if list.None? { return None; }
        ps := list.value;
      }
      return Some(Struct(address, moduleName, name, ps));
    }

    method ParseHead(word: string) returns (head: Option<(Address, string, string)>)
      requires Valid()
      modifies this
      ensures Valid()
      ensures head.Some? <==> StructHead(word, old(Rest())).Some?
      ensures head.Some? ==>
                StructHead(word, old(Rest())).value == (head.value.0, head.value.1, head.value.2, Rest())
    {
      hide Word, Consume, ParseAddress, ValidIdentifier;
      if !("0x" <= word) { return None; }
      var first := ConsumeToken("::");
      if !first { return None; }
      var address := ParseAddress(word);
      if address.None? { return None; }
      var moduleName := NextWord();
      if !ValidIdentifier(moduleName) { return None; }
      var second := ConsumeToken("::");
      if !second { return None; }
      var name := NextWord();
      if !ValidIdentifier(name) { return None; }
      return Some((address.value, moduleName, name));
    }

    method ParseList(depth: nat) returns (ps: Option<seq<Tag>>)
      requires Valid()
      modifies this
      ensures Valid()
      ensures ps.Some? <==> ParseTags(depth, old(Rest())).Some?
      ensures ps.Some? ==> ParseTags(depth, old(Rest())).value == (ps.value, Rest())
      decreases |value| - position, 1
    {
      hide Consume, ParseTag;
      var tags: seq<Tag> := [];
      ghost var whole := ParseTags(depth, Rest());
      Before(tags, whole);
      while true
        invariant Valid() && position >= old(position)
        invariant Prefixed(tags, ParseTags(depth, Rest())) == whole
        decreases |value| - position
      {
        ghost var s := Rest();
        var inner := ParseNested(depth);
        if inner.None? { return None; }
        ghost var before := tags;
        tags := tags + [inner.value];
        var close := ConsumeToken(">");
        if close {
          assert before + [inner.value] == tags;
          return Some(tags);
        }
        var comma := ConsumeToken(",");
        if !comma { return None; }
        Shift(before, inner.value, ParseTags(depth, Rest()));
      }
    }
  }

  ghost function Prefixed(tags: seq<Tag>, parsed: Option<(seq<Tag>, string)>): Option<(seq<Tag>, string)> {
    if parsed.None? then None else Some((tags + parsed.value.0, parsed.value.1))
  }

  lemma Before(tags: seq<Tag>, parsed: Option<(seq<Tag>, string)>)
    requires tags == []
    ensures Prefixed(tags, parsed) == parsed
  {
    if parsed.Some? { assert [] + parsed.value.0 == parsed.value.0; }
  }

  lemma Shift(tags: seq<Tag>, tag: Tag, parsed: Option<(seq<Tag>, string)>)
    ensures parsed.Some? ==> Prefixed(tags + [tag], parsed) == Some((tags + ([tag] + parsed.value.0), parsed.value.1))
  {
    if parsed.Some? { assert (tags + [tag]) + parsed.value.0 == tags + ([tag] + parsed.value.0); }
  }

  /** Parses a whole type text of at most 4096 bytes. */
  method ParseTypeTag(text: string) returns (tag: Option<Tag>)
    ensures tag == TypeTags.Parse(text)
  {
    if ByteLen(text) > MAX_TEXT { return None; }
    var p := new Parser(TrimSpace(text));
    tag := p.ParseNested(0);
    if tag.None? { return; }
    p.Space();
    if p.position != |p.value| { return None; }
  }
}
