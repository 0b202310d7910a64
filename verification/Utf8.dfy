/** UTF-8, section 3 of RFC 3629: one to four bytes for each character, shortest form only. */
module Utf8 {
  import opened Wrappers
  import opened Bytes

  function EncodeChar(c: char): (r: seq<byte>)
    ensures 1 <= |r| <= 4
  {
    var v := c as int;
    if v < 0x80 then [v]
    else if v < 0x800 then [0xC0 + v / 0x40, 0x80 + v % 0x40]
    else if v < 0x1_0000 then [0xE0 + v / 0x1000, 0x80 + v / 0x40 % 0x40, 0x80 + v % 0x40]
    else
      assert v < 0x11_0000;
      [0xF0 + v / 0x4_0000, 0x80 + v / 0x1000 % 0x40, 0x80 + v / 0x40 % 0x40, 0x80 + v % 0x40]
  }

  function Encode(s: string): seq<byte> {
    if s == "" then [] else EncodeChar(s[0]) + Encode(s[1..])
  }

  predicate Tail(b: byte) { 0x80 <= b < 0xC0 }

  /** The first character; none if the bytes do not start with one in shortest form. */
  function FirstChar(b: seq<byte>): (r: Option<(char, nat)>)
    ensures r.Some? ==> 1 <= r.value.1 <= |b|
  {
    if b == [] then None
    else if b[0] < 0x80 then Some((b[0] as char, 1))
    else if 0xC2 <= b[0] < 0xE0 && |b| >= 2 && Tail(b[1]) then
      Some((Join(0, 0, b[0] - 0xC0 as int, b[1] - 0x80 as int) as char, 2))
    else if 0xE0 <= b[0] < 0xF0 && |b| >= 3 && Tail(b[1]) && Tail(b[2]) then
      var v := Join(0, b[0] - 0xE0 as int, b[1] - 0x80 as int, b[2] - 0x80 as int);
      if v < 0x800 || 0xD800 <= v < 0xE000 then None else Some((v as char, 3))
    else if 0xF0 <= b[0] < 0xF5 && |b| >= 4 && Tail(b[1]) && Tail(b[2]) && Tail(b[3]) then
      var v := Join(b[0] - 0xF0 as int, b[1] - 0x80 as int, b[2] - 0x80 as int, b[3] - 0x80 as int);
      if v < 0x1_0000 || v >= 0x11_0000 then None else Some((v as char, 4))
    else None
  }

  /** Digits to base 64. */
  function Join(w: int, x: int, y: int, z: int): int {
    w * 0x4_0000 + x * 0x1000 + y * 0x40 + z
  }

  lemma Divide(q: int, r: int)
    requires 0 <= r < 0x40
    ensures (q * 0x40 + r) / 0x40 == q && (q * 0x40 + r) % 0x40 == r
  {
  }

  lemma DivideTwice(v: int)
    requires v >= 0
    ensures v / 0x1000 == v / 0x40 / 0x40
  {
    var a := v / 0x40;
    assert v == a * 0x40 + v % 0x40;
    assert a == (a / 0x40) * 0x40 + a % 0x40;
    assert v == (a / 0x40) * 0x1000 + (a % 0x40 * 0x40 + v % 0x40);
  }

  lemma DivideThrice(v: int)
    requires v >= 0
    ensures v / 0x4_0000 == v / 0x40 / 0x40 / 0x40
  {
    DivideTwice(v);
    var a := v / 0x1000;
    assert v == a * 0x1000 + v % 0x1000;
    assert a == (a / 0x40) * 0x40 + a % 0x40;
    assert v == (a / 0x40) * 0x4_0000 + (a % 0x40 * 0x1000 + v % 0x1000);
  }

  lemma JoinDigits(w: int, x: int, y: int, z: int)
    requires 0 <= w && 0 <= x < 0x40 && 0 <= y < 0x40 && 0 <= z < 0x40
    ensures
      var v := Join(w, x, y, z);
      v / 0x4_0000 == w && v / 0x1000 % 0x40 == x && v / 0x40 % 0x40 == y && v % 0x40 == z
      && v / 0x1000 == w * 0x40 + x && v / 0x40 == w * 0x1000 + x * 0x40 + y
  {
    var v := Join(w, x, y, z);
    Divide(w * 0x1000 + x * 0x40 + y, z);
    Divide(w * 0x40 + x, y);
    Divide(w, x);
    DivideTwice(v);
    DivideThrice(v);
  }

  lemma DigitsJoin(v: int)
    requires v >= 0
    ensures Join(v / 0x4_0000, v / 0x1000 % 0x40, v / 0x40 % 0x40, v % 0x40) == v
  {
    DivideTwice(v);
    DivideThrice(v);
  }

  /** The text of valid UTF-8. */
  function Decode(b: seq<byte>): Option<string>
    decreases |b|
  {
    if b == [] then Some("")
    else
      var first := FirstChar(b);
      if first.None? then None
      else
        var rest := Decode(b[first.value.1..]);
        if rest.None? then None else Some([first.value.0] + rest.value)
  }

  lemma FirstCharInverse(c: char, rest: seq<byte>)
    ensures FirstChar(EncodeChar(c) + rest) == Some((c, |EncodeChar(c)|))
  {
    var v, e := c as int, EncodeChar(c);
    var b := e + rest;
    assert forall i :: 0 <= i < |e| ==> b[i] == e[i];
    if v >= 0x1_0000 {
      LongChar(c, b);
    } else if v >= 0x800 {
      MiddleChar(c, b);
    } else {
      DigitsJoin(v);
      hide Join;
    }
  }

  lemma MiddleChar(c: char, b: seq<byte>)
    requires 0x800 <= c as int < 0x1_0000 && |b| >= 3 && b[..3] == EncodeChar(c)
    ensures FirstChar(b) == Some((c, 3))
  {
    var v, e := c as int, EncodeChar(c);
    ThreeDigits(v);
    hide Join;
    assert b[0] == e[0] && b[1] == e[1] && b[2] == e[2];
  }

  lemma ThreeDigits(v: int)
    requires 0 <= v < 0x1_0000
    ensures 0 <= v / 0x1000 < 0x10 && Join(0, v / 0x1000, v / 0x40 % 0x40, v % 0x40) == v
  {
    DigitsJoin(v);
    assert v / 0x4_0000 == 0 && v / 0x1000 % 0x40 == v / 0x1000;
  }

  lemma LongChar(c: char, b: seq<byte>)
    requires c as int >= 0x1_0000 && |b| >= 4 && b[..4] == EncodeChar(c)
    ensures FirstChar(b) == Some((c, 4))
  {
    var v, e := c as int, EncodeChar(c);
    DigitsJoin(v);
    hide Join;
    assert forall i :: 0 <= i < 4 ==> b[i] == e[i];
  }

  lemma FirstCharCanonical(b: seq<byte>)
    requires FirstChar(b).Some?
    ensures
      var (c, k) := FirstChar(b).value;
      |EncodeChar(c)| == k && b[..k] == EncodeChar(c)
  {
    if b[0] < 0x80 {
    } else if b[0] < 0xE0 {
      JoinDigits(0, 0, b[0] - 0xC0 as int, b[1] - 0x80 as int);
      hide Join;
    } else if b[0] < 0xF0 {
      JoinDigits(0, b[0] - 0xE0 as int, b[1] - 0x80 as int, b[2] - 0x80 as int);
      hide Join;
    } else {
      LongCanonical(b);
    }
  }

  lemma LongCanonical(b: seq<byte>)
    requires FirstChar(b).Some? && b[0] >= 0xF0
    ensures var (c, k) := FirstChar(b).value; k == 4 && b[..k] == EncodeChar(c)
  {
    JoinDigits(b[0] - 0xF0 as int, b[1] - 0x80 as int, b[2] - 0x80 as int, b[3] - 0x80 as int);
    hide Join;
  }

  /** Decoding inverts encoding. */
  lemma {:induction false} EncodeDecode(s: string)
    ensures Decode(Encode(s)) == Some(s)
  {
    hide EncodeChar, FirstChar;
    if s != "" {
      EncodeDecode(s[1..]);
      var e := EncodeChar(s[0]);
      FirstCharInverse(s[0], Encode(s[1..]));
      assert Encode(s) == e + Encode(s[1..]);
      assert Encode(s)[|e|..] == Encode(s[1..]);
      assert s == [s[0]] + s[1..];
    }
  }

  /** Valid bytes are the encoding of their text. */
  lemma {:induction false} DecodeEncode(b: seq<byte>)
    requires Decode(b).Some?
    ensures Encode(Decode(b).value) == b
    decreases |b|
  {
    hide EncodeChar, FirstChar;
    if b != [] {
      var (c, k) := FirstChar(b).value;
      DecodeEncode(b[k..]);
      FirstCharCanonical(b);
      var s := Decode(b).value;
      assert s[0] == c && s[1..] == Decode(b[k..]).value;
      assert b == b[..k] + b[k..];
    }
  }

  /** Text of ASCII characters takes one byte for each. */
  lemma {:induction false} AsciiLength(s: string)
    requires forall i :: 0 <= i < |s| ==> s[i] < '\U{0080}'
    ensures |Encode(s)| == |s|
  {
    if s != "" { AsciiLength(s[1..]); }
  }

  /** The bytes of a character: its length by range, and six bits in each byte after the first. */
  lemma CharRule(c: char)
    ensures
      var (v, r) := (c as int, EncodeChar(c));
      && (v < 0x80 ==> r == [v])
      && (0x80 <= v < 0x800 ==>
            |r| == 2 && 192 <= r[0] < 224 && 128 <= r[1] < 192 && v == (r[0] as int - 192) * 64 + (r[1] as int - 128))
      && (0x800 <= v < 0x1_0000 ==>
            && |r| == 3 && 224 <= r[0] < 240 && 128 <= r[1] < 192 && 128 <= r[2] < 192
            && v == (r[0] as int - 224) * 4096 + (r[1] as int - 128) * 64 + (r[2] as int - 128))
      && (0x1_0000 <= v ==>
            && |r| == 4 && 240 <= r[0] < 248
            && 128 <= r[1] < 192 && 128 <= r[2] < 192 && 128 <= r[3] < 192
            && v == (r[0] as int - 240) * 262144 + (r[1] as int - 128) * 4096 + (r[2] as int - 128) * 64
                    + (r[3] as int - 128))
  {
    DivideTwice(c as int);
    DivideThrice(c as int);
  }
}
