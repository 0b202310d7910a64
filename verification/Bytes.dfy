/** Byte-level formats of Binary Canonical Serialization: each value has one encoding, and a
    reader takes it from the front of the remaining bytes. */
module Bytes {
  import opened Wrappers

  type byte = x: int | 0 <= x < 256

  const MAX_DATA := 0x10_0000
  const MAX_ELEMENTS := 0x1_0000

  /** A value and the bytes after it, or no value. */
  type Parsed<+T> = Option<(T, seq<byte>)>

  // ---------- ULEB128 ----------

  function Uleb(v: nat): (r: seq<byte>)
    ensures |r| >= 1
  {
    if v < 128 then [v] else [v % 128 + 128] + Uleb(v / 128)
  }

  function ReadUleb(s: seq<byte>): Parsed<nat> { ReadUlebFrom(s, 0) }

  /** The bytes from index `i` of an encoding of at most five; the fifth carries four bits, and
      a zero byte may not end a longer encoding. */
  function ReadUlebFrom(s: seq<byte>, i: nat): Parsed<nat>
    requires i <= 5
    decreases 5 - i
  {
    if i == 5 || s == [] || (i == 4 && s[0] > 15) then None
    else if s[0] < 128 then
      if i > 0 && s[0] == 0 then None else Some((s[0], s[1..]))
    else
      var rest := ReadUlebFrom(s[1..], i + 1);
      if rest.None? then None
      else Some((s[0] - 128 + 128 * rest.value.0, rest.value.1))
  }

  /** Values that fit the bits from byte `i` on. */
  function UlebBound(i: nat): nat
    requires i <= 5
  {
    if i == 0 then 0x1_0000_0000 else if i == 1 then 0x200_0000 else if i == 2 then 0x4_0000
    else if i == 3 then 0x800 else if i == 4 then 16 else 0
  }

  lemma {:induction false} UlebRead(v: nat, i: nat, rest: seq<byte>)
    requires i < 5 && v < UlebBound(i) && (i > 0 ==> v > 0)
    ensures ReadUlebFrom(Uleb(v) + rest, i) == Some((v, rest))
    decreases 5 - i
  {
    var s := Uleb(v) + rest;
    if v >= 128 {
      assert s[1..] == Uleb(v / 128) + rest;
      UlebRead(v / 128, i + 1, rest);
    } else {
      assert s[1..] == rest;
    }
  }

  lemma {:induction false} UlebCanonical(s: seq<byte>, i: nat)
    requires i <= 5 && ReadUlebFrom(s, i).Some?
    ensures
      var (v, rest) := ReadUlebFrom(s, i).value;
      s == Uleb(v) + rest && v < UlebBound(i) && (i > 0 ==> v > 0)
    decreases 5 - i
  {
    hide Uleb;
    assert s == [s[0]] + s[1..];
    if s[0] >= 128 {
      UlebCanonical(s[1..], i + 1);
      UlebMore(s[0], ReadUlebFrom(s[1..], i + 1).value.0);
    } else {
      UlebLast(s[0]);
    }
  }

  lemma UlebLast(b: byte)
    requires b < 128
    ensures Uleb(b) == [b]
  {
  }

  lemma UlebMore(b: byte, high: nat)
    requires b >= 128 && high > 0
    ensures Uleb(b - 128 + 128 * high) == [b] + Uleb(high)
  {
    var v := b - 128 + 128 * high;
    assert v / 128 == high && v % 128 == b - 128;
  }

  /** Every 32-bit number is read back from its encoding. */
  lemma UlebReads(v: nat, rest: seq<byte>)
    requires v < 0x1_0000_0000
    ensures ReadUleb(Uleb(v) + rest) == Some((v, rest))
  {
    UlebRead(v, 0, rest);
  }

  /** Every accepted encoding is the one of its number. */
  lemma UlebAccepts(s: seq<byte>)
    requires ReadUleb(s).Some?
    ensures
      var (v, rest) := ReadUleb(s).value;
      s == Uleb(v) + rest && v < 0x1_0000_0000
  {
    UlebCanonical(s, 0);
  }

  /** Seven bits of each byte, the lowest first. */
  function Sevens(b: seq<byte>): nat {
    if b == [] then 0 else b[0] % 128 + 128 * Sevens(b[1..])
  }

  /** The encoding puts seven bits in each byte, marks all but the last, and never ends with a zero
      byte after others. */
  lemma {:induction false} UlebRule(v: nat)
    ensures
      var r := Uleb(v);
      && Sevens(r) == v && r[|r| - 1] < 128 && (|r| > 1 ==> r[|r| - 1] > 0)
      && forall i :: 0 <= i < |r| - 1 ==> r[i] >= 128
  {
    if v < 128 {
      assert Sevens([v]) == v;
    } else {
      UlebRule(v / 128);
      assert Uleb(v)[1..] == Uleb(v / 128);
    }
  }

  // ---------- Little-endian integers ----------

  function Pow256(k: nat): nat { if k == 0 then 1 else 256 * Pow256(k - 1) }

  function Le(v: nat, k: nat): (r: seq<byte>)
    ensures |r| == k
  {
    if k == 0 then [] else [v % 256] + Le(v / 256, k - 1)
  }

  function FromLe(s: seq<byte>): nat {
    if s == [] then 0 else s[0] + 256 * FromLe(s[1..])
  }

  function Take(k: nat, s: seq<byte>): Parsed<seq<byte>> {
    if k <= |s| then Some((s[..k], s[k..])) else None
  }

  function ReadLe(k: nat, s: seq<byte>): Parsed<nat> {
    if k <= |s| then Some((FromLe(s[..k]), s[k..])) else None
  }

  lemma {:induction false} LeInverse(v: nat, k: nat)
    requires v < Pow256(k)
    ensures FromLe(Le(v, k)) == v
  {
    if k > 0 {
      LeInverse(v / 256, k - 1);
      assert Le(v, k)[1..] == Le(v / 256, k - 1);
    }
  }

  lemma {:induction false} FromLeInverse(s: seq<byte>)
    ensures FromLe(s) < Pow256(|s|) && Le(FromLe(s), |s|) == s
  {
    if s != [] {
      FromLeInverse(s[1..]);
      assert s == [s[0]] + s[1..];
    }
  }

  lemma LeRead(v: nat, k: nat, rest: seq<byte>)
    requires v < Pow256(k)
    ensures ReadLe(k, Le(v, k) + rest) == Some((v, rest))
  {
    LeInverse(v, k);
    assert (Le(v, k) + rest)[..k] == Le(v, k) && (Le(v, k) + rest)[k..] == rest;
  }

  lemma LeCanonical(k: nat, s: seq<byte>)
    requires ReadLe(k, s).Some?
    ensures
      var (v, rest) := ReadLe(k, s).value;
      s == Le(v, k) + rest && v < Pow256(k)
  {
    FromLeInverse(s[..k]);
    assert s == s[..k] + s[k..];
  }

  // ---------- Lengths and byte strings ----------

  /** A count of elements: bounded, and never more than the bytes that are left. */
  function ReadLength(limit: nat, s: seq<byte>): Parsed<nat> {
    var v := ReadUleb(s);
    if v.None? || v.value.0 > limit || v.value.0 > |v.value.1| then None else v
  }

  function Blob(b: seq<byte>): seq<byte> { Uleb(|b|) + b }

  function ReadBlob(s: seq<byte>): Parsed<seq<byte>> {
    var n := ReadLength(MAX_DATA, s);
    if n.None? then None else Take(n.value.0, n.value.1)
  }

  lemma LengthRead(n: nat, limit: nat, rest: seq<byte>)
    requires n <= limit < 0x1_0000_0000 && n <= |rest|
    ensures ReadLength(limit, Uleb(n) + rest) == Some((n, rest))
  {
    UlebReads(n, rest);
  }

  lemma LengthCanonical(limit: nat, s: seq<byte>)
    requires ReadLength(limit, s).Some?
    ensures
      var (n, rest) := ReadLength(limit, s).value;
      s == Uleb(n) + rest && n <= limit && n <= |rest|
  {
    UlebAccepts(s);
  }

  lemma BlobRead(b: seq<byte>, rest: seq<byte>)
    requires |b| <= MAX_DATA
    ensures ReadBlob(Blob(b) + rest) == Some((b, rest))
  {
    assert Blob(b) + rest == Uleb(|b|) + (b + rest);
    LengthRead(|b|, MAX_DATA, b + rest);
    assert (b + rest)[..|b|] == b && (b + rest)[|b|..] == rest;
  }

  lemma BlobCanonical(s: seq<byte>)
    requires ReadBlob(s).Some?
    ensures
      var (b, rest) := ReadBlob(s).value;
      s == Blob(b) + rest && |b| <= MAX_DATA
  {
    LengthCanonical(MAX_DATA, s);
    var (n, after) := ReadLength(MAX_DATA, s).value;
    hide Uleb, ReadLength;
    assert after == after[..n] + after[n..];
    assert Uleb(n) + (after[..n] + after[n..]) == (Uleb(n) + after[..n]) + after[n..];
  }

  // ---------- Lists ----------

  function WriteMany<T>(write: T -> seq<byte>, vs: seq<T>): seq<byte> {
    if vs == [] then [] else write(vs[0]) + WriteMany(write, vs[1..])
  }

  function ReadMany<T>(n: nat, read: seq<byte> -> Parsed<T>, s: seq<byte>): Parsed<seq<T>> {
    if n == 0 then Some(([], s))
    else
      var v := read(s);
      if v.None? then None
      else
        var vs := ReadMany(n - 1, read, v.value.1);
        if vs.None? then None else Some(([v.value.0] + vs.value.0, vs.value.1))
  }

  function List<T>(write: T -> seq<byte>, vs: seq<T>): seq<byte> {
    Uleb(|vs|) + WriteMany(write, vs)
  }

  function ReadList<T>(read: seq<byte> -> Parsed<T>, s: seq<byte>): Parsed<seq<T>> {
    var n := ReadLength(MAX_ELEMENTS, s);
    if n.None? then None else ReadMany(n.value.0, read, n.value.1)
  }

  /** `read` takes what `write` puts for `v` in front of any bytes, and returns `w`; nothing is
      written empty. */
  ghost predicate Reads<T>(write: T -> seq<byte>, read: seq<byte> -> Parsed<T>, v: T, w: T) {
    && |write(v)| >= 1
    && forall rest :: read(write(v) + rest) == Some((w, rest))
  }

  /** What `read` accepts, with an acceptable value, is what `write` writes. */
  ghost predicate Canonical<T>(write: T -> seq<byte>, read: seq<byte> -> Parsed<T>, ok: T -> bool) {
    forall s :: read(s).Some? && ok(read(s).value.0) ==>
      s == write(read(s).value.0) + read(s).value.1
  }

  lemma {:induction false} ManyRead<T>(write: T -> seq<byte>, read: seq<byte> -> Parsed<T>, vs: seq<T>, ws: seq<T>,
                                       rest: seq<byte>)
    requires |ws| == |vs| && forall i :: 0 <= i < |vs| ==> Reads(write, read, vs[i], ws[i])
    ensures |WriteMany(write, vs)| >= |vs|
    ensures ReadMany(|vs|, read, WriteMany(write, vs) + rest) == Some((ws, rest))
  {
    if vs == [] {
      assert WriteMany(write, vs) + rest == rest;
    } else {
      ManyRead(write, read, vs[1..], ws[1..], rest);
      var after := WriteMany(write, vs[1..]) + rest;
      assert WriteMany(write, vs) + rest == write(vs[0]) + after;
      assert Reads(write, read, vs[0], ws[0]);
      assert read(write(vs[0]) + after) == Some((ws[0], after));
      assert ws == [ws[0]] + ws[1..];
    }
  }

  lemma {:induction false} ManyCanonical<T>(n: nat, write: T -> seq<byte>, read: seq<byte> -> Parsed<T>, ok: T -> bool,
                                            s: seq<byte>)
    requires Canonical(write, read, ok)
    requires ReadMany(n, read, s).Some?
    requires forall i :: 0 <= i < |ReadMany(n, read, s).value.0| ==> ok(ReadMany(n, read, s).value.0[i])
    ensures |ReadMany(n, read, s).value.0| == n
    ensures s == WriteMany(write, ReadMany(n, read, s).value.0) + ReadMany(n, read, s).value.1
  {
    var (vs, rest) := ReadMany(n, read, s).value;
    if n == 0 {
      assert s == WriteMany(write, vs) + rest;
    } else {
      var (v, after) := read(s).value;
      var (tail, end) := ReadMany(n - 1, read, after).value;
      assert vs == [v] + tail && vs[0] == v && vs[1..] == tail;
      assert forall i :: 0 <= i < |tail| ==> tail[i] == vs[i + 1];
      ManyCanonical(n - 1, write, read, ok, after);
      assert s == write(v) + after;
      assert write(v) + (WriteMany(write, tail) + end) == (write(v) + WriteMany(write, tail)) + end;
    }
  }

  lemma ListRead<T>(write: T -> seq<byte>, read: seq<byte> -> Parsed<T>, vs: seq<T>, ws: seq<T>, rest: seq<byte>)
    requires |ws| == |vs| <= MAX_ELEMENTS && forall i :: 0 <= i < |vs| ==> Reads(write, read, vs[i], ws[i])
    ensures ReadList(read, List(write, vs) + rest) == Some((ws, rest))
  {
    ManyRead(write, read, vs, ws, rest);
    assert List(write, vs) + rest == Uleb(|vs|) + (WriteMany(write, vs) + rest);
    LengthRead(|vs|, MAX_ELEMENTS, WriteMany(write, vs) + rest);
  }

  lemma ListCanonical<T>(write: T -> seq<byte>, read: seq<byte> -> Parsed<T>, ok: T -> bool, s: seq<byte>)
    requires Canonical(write, read, ok) && ReadList(read, s).Some?
    requires forall i :: 0 <= i < |ReadList(read, s).value.0| ==> ok(ReadList(read, s).value.0[i])
    ensures |ReadList(read, s).value.0| <= MAX_ELEMENTS
    ensures s == List(write, ReadList(read, s).value.0) + ReadList(read, s).value.1
  {
    LengthCanonical(MAX_ELEMENTS, s);
    var (n, after) := ReadLength(MAX_ELEMENTS, s).value;
    ManyCanonical(n, write, read, ok, after);
    var (vs, rest) := ReadMany(n, read, after).value;
    assert Uleb(n) + (WriteMany(write, vs) + rest) == (Uleb(n) + WriteMany(write, vs)) + rest;
  }
}
