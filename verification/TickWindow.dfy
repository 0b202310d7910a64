/** The window of initialized ticks around the current tick: three bitmap words and the net
    liquidity of every initialized tick in them. */
module TickWindow {
  import opened Wrappers
  import opened TickBatches

  const RADIUS := 1
  const BATCH := 32
  const MAX_TICK := 443636
  const WORD_BITS := 256

  const INT32_MIN := -0x8000_0000
  const INT32_MAX := 0x7fff_ffff

  const TWO_32 := 0x1_0000_0000
  const TWO_128 := 0x1_0000_0000_0000_0000_0000_0000_0000_0000
  const TWO_127 := 0x8000_0000_0000_0000_0000_0000_0000_0000
  const TWO_256 := TWO_128 * TWO_128

  // ---------- Words of the bitmap ----------

  /** Division that truncates toward zero. */
  function Truncated(a: int, b: int): int
    requires b > 0
  { if a >= 0 then a / b else -(-a / b) }

  /** The bitmap word that holds a tick. */
  function Word(tick: int, spacing: int): int
    requires spacing > 0
  {
    var compressed := Truncated(tick, spacing);
    // A negative tick between two multiples of the spacing belongs to the lower one; the shift
    // by eight bits is a floor division.
    (if tick < 0 && tick - compressed * spacing != 0 then compressed - 1 else compressed) / WORD_BITS
  }

  /** The tick of a bit. */
  function TickOf(word: int, bit: int, spacing: int): int { (word * WORD_BITS + bit) * spacing }

  /** The 32-bit number that a computation leaves. */
  function Wrap32(n: int): int { (n - INT32_MIN) % TWO_32 + INT32_MIN }

  /** The tick of a bit as it is computed. */
  function Index(word: int, bit: int, spacing: int): int { Wrap32(TickOf(word, bit, spacing)) }

  lemma TruncatedFloor(tick: int, spacing: int)
    requires spacing > 0
    ensures var compressed := Truncated(tick, spacing);
            (if tick < 0 && tick - compressed * spacing != 0 then compressed - 1 else compressed) == tick / spacing
  {
    if tick < 0 {
      var q := -tick / spacing;
      assert -tick == q * spacing + -tick % spacing;
      if -tick % spacing == 0 {
        Quotient(tick, -q, 0, spacing);
      } else {
        NextMultiple(q, spacing);
        Quotient(tick, -q - 1, spacing - -tick % spacing, spacing);
      }
    }
  }

  lemma NextMultiple(q: int, spacing: int)
    ensures (-q - 1) * spacing == -(q * spacing) - spacing
    ensures -q * spacing == -(q * spacing)
  {
  }

  lemma Quotient(a: int, q: int, r: int, b: int)
    requires b > 0 && 0 <= r < b && a == q * b + r
    ensures a / b == q
  {
    if a / b < q { Larger(a / b, q, b); }
    if a / b > q { Larger(q, a / b, b); }
  }

  lemma Larger(p: int, q: int, b: int)
    requires p < q && b > 0
    ensures (p + 1) * b <= q * b && (p + 1) * b == p * b + b
  {
  }

  /** A word starts at a multiple of 256 spacings: it is the floor of the tick over that length. */
  lemma WordIsFloor(tick: int, spacing: int)
    requires spacing > 0
    ensures Word(tick, spacing) == tick / (256 * spacing)
    ensures Word(tick, spacing) * (WORD_BITS * spacing) <= tick < (Word(tick, spacing) + 1) * (WORD_BITS * spacing)
  {
    TruncatedFloor(tick, spacing);
    FloorOfFloor(tick, spacing);
    FloorBounds(tick, WORD_BITS * spacing);
  }

  lemma FloorBounds(a: int, b: int)
    requires b > 0
    ensures a / b * b <= a < (a / b + 1) * b
  {
    Larger(a / b, a / b + 1, b);
  }

  lemma FloorOfFloor(tick: int, spacing: int)
    requires spacing > 0
    ensures tick / spacing / WORD_BITS == tick / (WORD_BITS * spacing)
  {
    var c := tick / spacing;
    var w, b := c / WORD_BITS, c % WORD_BITS;
    var r := tick % spacing;
    assert tick == c * spacing + r;
    assert c == w * WORD_BITS + b;
    Factor(w, b, spacing);
    Below(b, spacing, r);
    Quotient(tick, w, b * spacing + r, WORD_BITS * spacing);
  }

  lemma Factor(w: int, b: int, spacing: int)
    ensures (w * WORD_BITS + b) * spacing == w * (WORD_BITS * spacing) + b * spacing
  {
  }

  lemma Below(b: int, spacing: int, r: int)
    requires 0 <= b < WORD_BITS && spacing > 0 && 0 <= r < spacing
    ensures 0 <= b * spacing + r < WORD_BITS * spacing
  {
    Larger(b, WORD_BITS, spacing);
    Larger(-1, b, spacing);
  }

  lemma WordMonotone(a: int, b: int, spacing: int)
    requires a <= b && spacing > 0
    ensures Word(a, spacing) <= Word(b, spacing)
  {
    WordIsFloor(a, spacing);
    WordIsFloor(b, spacing);
    if Word(b, spacing) < Word(a, spacing) {
      Larger(Word(b, spacing), Word(a, spacing), WORD_BITS * spacing);
      LessEqual(Word(b, spacing) + 1, Word(a, spacing), WORD_BITS * spacing);
    }
  }

  lemma LessEqual(p: int, q: int, b: int)
    requires p <= q && b > 0
    ensures p * b <= q * b
  {
  }

  /** The tick of a bit lies in that bit's word, and different bits have different ticks. */
  lemma TickOfWord(word: int, bit: int, spacing: int)
    requires spacing > 0 && 0 <= bit < WORD_BITS
    ensures Word(TickOf(word, bit, spacing), spacing) == word
  {
    WordIsFloor(TickOf(word, bit, spacing), spacing);
    Factor(word, bit, spacing);
    Below(bit, spacing, 0);
    Quotient(TickOf(word, bit, spacing), word, bit * spacing, WORD_BITS * spacing);
  }

  lemma TickOfInjective(word: int, bit: int, other: int, next: int, spacing: int)
    requires spacing > 0 && word * WORD_BITS + bit < other * WORD_BITS + next
    ensures TickOf(word, bit, spacing) < TickOf(other, next, spacing)
  {
    Larger(word * WORD_BITS + bit, other * WORD_BITS + next, spacing);
  }

  /** The largest spacing whose ticks are computed exactly. */
  const LAST_EXACT := 0x80_0000

  predicate Fits32(n: int) { INT32_MIN <= n <= INT32_MAX }

  /** No tick computed for a word of the grid leaves the 32-bit range, for any usable spacing and
      beyond. */
  lemma InRange32(word: int, bit: int, spacing: int)
    requires 0 < spacing <= LAST_EXACT && 0 <= bit < WORD_BITS
    requires Word(-MAX_TICK, spacing) <= word <= Word(MAX_TICK, spacing)
    ensures Fits32(word * WORD_BITS + bit) && Fits32(TickOf(word, bit, spacing))
  {
    GridBounds(spacing);
    var length := WORD_BITS * spacing;
    Factor(word, bit, spacing);
    Below(bit, spacing, 0);
    if spacing <= MAX_TICK {
      LessEqual(word, Word(MAX_TICK, spacing), length);
      LessEqual(Word(-MAX_TICK, spacing), word, length);
      Larger(Word(-MAX_TICK, spacing), Word(-MAX_TICK, spacing) + 1, length);
    } else {
      LessEqual(-1, word, length);
      LessEqual(word, 0, length);
    }
    SmallFactor(word * WORD_BITS + bit, spacing);
  }

  /** The first and the last word of the grid; two words are left when a word spans the grid. */
  lemma GridBounds(spacing: int)
    requires spacing > 0
    ensures Word(MAX_TICK, spacing) * (WORD_BITS * spacing) <= MAX_TICK
    ensures -MAX_TICK < (Word(-MAX_TICK, spacing) + 1) * (WORD_BITS * spacing)
    ensures spacing > MAX_TICK ==> Word(-MAX_TICK, spacing) == -1 && Word(MAX_TICK, spacing) == 0
  {
    WordIsFloor(MAX_TICK, spacing);
    WordIsFloor(-MAX_TICK, spacing);
    if spacing > MAX_TICK {
      Quotient(MAX_TICK, 0, MAX_TICK, WORD_BITS * spacing);
      Quotient(-MAX_TICK, -1, WORD_BITS * spacing - MAX_TICK, WORD_BITS * spacing);
    }
  }

  /** The ticks of all bits of the grid are computed exactly if and only if the spacing is at most
      2^23; the spacings for which a window can be read are far below. */
  lemma NoOverflow(spacing: int)
    requires 0 < spacing <= INT32_MAX
    ensures (forall word, bit :: OnGrid(word, spacing) && 0 <= bit < WORD_BITS ==>
               Index(word, bit, spacing) == TickOf(word, bit, spacing)) <==> spacing <= LAST_EXACT
    ensures MAX_TICK < LAST_EXACT
  {
    hide Word, TickOf;
    GridBounds(spacing);
    if spacing <= LAST_EXACT {
      forall word, bit | OnGrid(word, spacing) && 0 <= bit < WORD_BITS
        ensures Index(word, bit, spacing) == TickOf(word, bit, spacing)
      {
        InRange32(word, bit, spacing);
      }
    } else {
      FirstWraps(spacing);
    }
  }

  /** Beyond that the first tick of the lower word leaves the range. */
  lemma FirstWraps(spacing: int)
    requires LAST_EXACT < spacing <= INT32_MAX
    ensures OnGrid(-1, spacing) && Index(-1, 0, spacing) != TickOf(-1, 0, spacing)
  {
    hide Word;
    GridBounds(spacing);
  }

  lemma SmallFactor(n: int, spacing: int)
    requires spacing > 0
    ensures n >= 0 ==> n <= n * spacing
    ensures n < 0 ==> n * spacing <= n
  {
    if n >= 0 { LessEqual(1, spacing, n + 1); } else { LessEqual(1, spacing, -n); }
  }

  // ---------- The window ----------

  function Pow2(n: nat): nat { if n == 0 then 1 else 2 * Pow2(n - 1) }

  lemma {:induction false} Pow2Positive(n: nat)
    ensures Pow2(n) > 0
  {
    if n > 0 { Pow2Positive(n - 1); }
  }

  predicate Bit(bits: nat, bit: nat) {
    Pow2Positive(bit);
    bits / Pow2(bit) % 2 == 1
  }

  predicate OnGrid(word: int, spacing: int)
    requires spacing > 0
  { Word(-MAX_TICK, spacing) <= word <= Word(MAX_TICK, spacing) }

  /** The words of the window around a tick that exist. */
  predicate InWindow(tick: int, spacing: int, word: int)
    requires spacing > 0
  {
    Word(tick, spacing) - RADIUS <= word <= Word(tick, spacing) + RADIUS && OnGrid(word, spacing)
  }

  /** The bit marks an initialized tick of the grid. */
  predicate Marks(bits: nat, bit: nat, t: int) { Bit(bits, bit) && -MAX_TICK <= t <= MAX_TICK }

  ghost predicate WordMissing(word: int, spacing: int, words: map<int, nat>, nets: map<int, int>) {
    word !in words || exists bit :: 0 <= bit < WORD_BITS && BitMissing(word, bit, spacing, words[word], nets)
  }

  predicate BitMissing(word: int, bit: nat, spacing: int, bits: nat, nets: map<int, int>) {
    Marks(bits, bit, Index(word, bit, spacing)) && Index(word, bit, spacing) !in nets
  }

  /** Something of the window is not known. */
  ghost predicate Incomplete(tick: int, spacing: int, words: map<int, nat>, nets: map<int, int>)
    requires spacing > 0
  {
    exists word :: InWindow(tick, spacing, word) && WordMissing(word, spacing, words, nets)
  }

  method Missing(tick: int, spacing: int, words: map<int, nat>, nets: map<int, int>) returns (r: bool)
    requires 0 < spacing <= INT32_MAX
    ensures r <==> Incomplete(tick, spacing, words, nets)
  {
    hide Word, Marks;
    var center := Word(tick, spacing);
    for word := center - RADIUS to center + RADIUS + 1
      invariant forall w :: center - RADIUS <= w < word && OnGrid(w, spacing) ==> !WordMissing(w, spacing, words, nets)
    {
      if word < Word(-MAX_TICK, spacing) || word > Word(MAX_TICK, spacing) { continue; }
      assert InWindow(tick, spacing, word);
      if word !in words { return true; }
      var bits := words[word];
      for bit := 0 to WORD_BITS
        invariant forall b :: 0 <= b < bit ==> !BitMissing(word, b, spacing, bits, nets)
      {
        if BitMissing(word, bit, spacing, bits, nets) { return true; }
      }
    }
    return false;
  }

  /** The initialized ticks of one word, up to a bit, in order. */
  function Initialized(word: int, bits: nat, spacing: int, n: nat): seq<int> {
    if n == 0 then []
    else Initialized(word, bits, spacing, n - 1) +
         (if Marks(bits, n - 1, TickOf(word, n - 1, spacing)) then [TickOf(word, n - 1, spacing)] else [])
  }

  lemma {:induction false} InitializedAll(word: int, bits: nat, spacing: int, n: nat, t: int)
    ensures t in Initialized(word, bits, spacing, n) <==>
            exists bit :: 0 <= bit < n && Marks(bits, bit, t) && t == TickOf(word, bit, spacing)
  {
    if n > 0 { InitializedAll(word, bits, spacing, n - 1, t); }
  }

  // ---------- Batches ----------

  /** The ticks in batches of 32. */
  function Batches(ticks: seq<int>): (r: seq<seq<int>>)
    ensures 32 * |r| - 32 < |ticks| <= 32 * |r|
    ensures forall i :: 0 <= i < |r| ==>
              && |r[i]| == (if 32 * i + 32 <= |ticks| then 32 else |ticks| - 32 * i)
              && forall j :: 0 <= j < |r[i]| ==> r[i][j] == ticks[32 * i + j]
  {
    var count := (|ticks| + BATCH - 1) / BATCH;
    seq(count, i requires 0 <= i < count =>
      ticks[i * BATCH .. if (i + 1) * BATCH < |ticks| then (i + 1) * BATCH else |ticks|])
  }

  function Joined(batches: seq<seq<int>>): seq<int> {
    if batches == [] then [] else Joined(batches[..|batches|-1]) + batches[|batches|-1]
  }

  /** The batches partition the ticks: put together they give them back. */
  lemma {:induction false} BatchesJoin(ticks: seq<int>, n: nat)
    requires n <= |Batches(ticks)|
    ensures Joined(Batches(ticks)[..n]) == ticks[..if n * BATCH < |ticks| then n * BATCH else |ticks|]
  {
    if n > 0 {
      BatchesJoin(ticks, n - 1);
      var all := Batches(ticks);
      assert all[..n][..n-1] == all[..n-1];
      var start, end := (n - 1) * BATCH, if n * BATCH < |ticks| then n * BATCH else |ticks|;
      assert ticks[..start] + ticks[start..end] == ticks[..end];
    }
  }

  lemma AllBatches(ticks: seq<int>)
    ensures Joined(Batches(ticks)) == ticks
  {
    var all := Batches(ticks);
    BatchesJoin(ticks, |all|);
    assert all[..|all|] == all && ticks[..|ticks|] == ticks;
  }

  // ---------- Decoding ----------

  /** How a value is read: whether it is absent, the number in the net field of a tick, and the
      caller's decoder of unsigned numbers. */
  datatype Decoder = Decoder(absent: Raw -> bool, net: Raw -> Option<Raw>, unsigned: Raw -> Option<int>)

  /** A bitmap word; an absent one is empty. */
  function WordOf(d: Decoder, raw: Raw): Option<nat> {
    if d.absent(raw) then Some(0)
    else
      match d.unsigned(raw)
      case Some(n) => if 0 <= n < TWO_256 then Some(n) else None
      case None => None
  }

  /** The net liquidity of a tick: the highest of the 128 bits is the sign. */
  function NetOf(d: Decoder, raw: Raw): Option<int> {
    match d.net(raw)
    case None => None
    case Some(field) =>
      match d.unsigned(field)
      case None => None
      case Some(n) =>
        if n < 0 || n >= TWO_128 then None
        else if n >= TWO_127 then Some(n - TWO_128)
        else Some(n)
  }

  /** The words around a tick that exist, in order. */
  function Grid(first: int, n: nat, spacing: int): seq<int>
    requires spacing > 0
  {
    if n == 0 then []
    else Grid(first, n - 1, spacing) + (if OnGrid(first + n - 1, spacing) then [first + n - 1] else [])
  }

  function WindowWords(tick: int, spacing: int): seq<int>
    requires spacing > 0
  {
    Grid(Word(tick, spacing) - RADIUS, 2 * RADIUS + 1, spacing)
  }

  lemma {:induction false} GridIs(first: int, n: nat, spacing: int)
    requires spacing > 0
    ensures Increasing(Grid(first, n, spacing))
    ensures forall w :: w in Grid(first, n, spacing) <==> first <= w < first + n && OnGrid(w, spacing)
  {
    hide OnGrid, Increasing;
    if n == 0 {
      NothingIncreases();
    } else {
      GridIs(first, n - 1, spacing);
      AddLast(Grid(first, n - 1, spacing), first + n - 1);
      assert Grid(first, n - 1, spacing) + [] == Grid(first, n - 1, spacing);
    }
  }

  ghost predicate Increasing(s: seq<int>) { forall i, j :: 0 <= i < j < |s| ==> s[i] < s[j] }

  lemma NothingIncreases()
    ensures Increasing([])
  {
  }

  lemma AddLast(s: seq<int>, t: int)
    requires Increasing(s) && forall w :: w in s ==> w < t
    ensures Increasing(s + [t])
  {
    assert forall i :: 0 <= i < |s| ==> s[i] in s;
  }

  ghost predicate AllBelow(s: seq<int>, t: seq<int>) {
    forall i, j :: 0 <= i < |s| && 0 <= j < |t| ==> s[i] < t[j]
  }

  lemma Joins(s: seq<int>, t: seq<int>)
    requires Increasing(s) && Increasing(t) && AllBelow(s, t)
    ensures Increasing(s + t)
  {
  }

  /** The map holds each word of the list as the reply to a read of the whole list has it. */
  ghost predicate WordsFrom(d: Decoder, indexes: seq<int>, reply: Option<seq<Raw>>, words: map<int, nat>) {
    && Complete(indexes, reply) && (forall w :: w in words <==> w in indexes)
    && forall i :: 0 <= i < |indexes| ==> WordOf(d, reply.value[i]) == Some(words[indexes[i]])
  }

  /** The initialized ticks of some words, in order. */
  function TicksOf(indexes: seq<int>, words: map<int, nat>, spacing: int): seq<int>
    requires forall w :: w in indexes ==> w in words
  {
    if indexes == [] then []
    else
      var n := |indexes| - 1;
      TicksOf(indexes[..n], words, spacing) + Initialized(indexes[n], words[indexes[n]], spacing, WORD_BITS)
  }

  lemma {:induction false} TicksSame(indexes: seq<int>, words: map<int, nat>, more: map<int, nat>, spacing: int)
    requires forall w :: w in indexes ==> w in words && w in more && words[w] == more[w]
    ensures TicksOf(indexes, words, spacing) == TicksOf(indexes, more, spacing)
  {
    if indexes != [] { TicksSame(indexes[..|indexes|-1], words, more, spacing); }
  }

  lemma TicksNext(indexes: seq<int>, i: nat, words: map<int, nat>, bits: nat, spacing: int)
    requires i < |indexes| && Increasing(indexes) && forall w :: w in words <==> w in indexes[..i]
    ensures var more := words[indexes[i] := bits]; forall w :: w in more <==> w in indexes[..i+1]
    ensures TicksOf(indexes[..i+1], words[indexes[i] := bits], spacing) ==
            TicksOf(indexes[..i], words, spacing) + Initialized(indexes[i], bits, spacing, WORD_BITS)
  {
    var more := words[indexes[i] := bits];
    assert indexes[..i+1][..i] == indexes[..i];
    assert forall w :: w in indexes[..i] ==> w < indexes[i];
    TicksSame(indexes[..i], words, more, spacing);
  }

  lemma {:induction false} InitializedIncreasing(word: int, bits: nat, spacing: int, n: nat)
    requires spacing > 0
    ensures Increasing(Initialized(word, bits, spacing, n))
  {
    if n > 0 {
      InitializedIncreasing(word, bits, spacing, n - 1);
      var before, t := Initialized(word, bits, spacing, n - 1), TickOf(word, n - 1, spacing);
      forall i | 0 <= i < |before|
        ensures before[i] < t
      {
        InitializedAll(word, bits, spacing, n - 1, before[i]);
        var bit :| 0 <= bit < n - 1 && Marks(bits, bit, before[i]) && before[i] == TickOf(word, bit, spacing);
        TickOfInjective(word, bit, word, n - 1, spacing);
      }
      Joins(before, if Marks(bits, n - 1, t) then [t] else []);
    }
  }

  /** The ticks are those the words mark. */
  ghost predicate Lists(words: map<int, nat>, spacing: int, ticks: seq<int>) {
    forall t :: t in ticks <==> MarkedIn(words, spacing, t)
  }

  ghost predicate MarkedIn(words: map<int, nat>, spacing: int, t: int) {
    exists w, bit :: w in words && 0 <= bit < WORD_BITS && t == TickOf(w, bit, spacing) && Marks(words[w], bit, t)
  }

  lemma NothingMarked(spacing: int)
    ensures Lists(map[], spacing, [])
  {
  }

  lemma ListsPlus(words: map<int, nat>, spacing: int, ticks: seq<int>, word: int, bits: nat)
    requires spacing > 0 && Lists(words, spacing, ticks) && Increasing(ticks)
    requires forall w :: w in words ==> w < word
    ensures Lists(words[word := bits], spacing, ticks + Initialized(word, bits, spacing, WORD_BITS))
    ensures Increasing(ticks + Initialized(word, bits, spacing, WORD_BITS))
  {
    hide Marks, TickOf, Initialized;
    var more := words[word := bits];
    var marked := Initialized(word, bits, spacing, WORD_BITS);
    forall t
      ensures t in ticks + marked <==> MarkedIn(more, spacing, t)
    {
      InitializedAll(word, bits, spacing, WORD_BITS, t);
      if t in ticks {
        var w, bit :| w in words && 0 <= bit < WORD_BITS && t == TickOf(w, bit, spacing) && Marks(words[w], bit, t);
        assert w in more && more[w] == words[w];
      }
      if bit :| 0 <= bit < WORD_BITS && Marks(bits, bit, t) && t == TickOf(word, bit, spacing) {
        assert more[word] == bits;
      }
    }
    InitializedIncreasing(word, bits, spacing, WORD_BITS);
    forall i, j | 0 <= i < |ticks| && 0 <= j < |marked|
      ensures ticks[i] < marked[j]
    {
      var t, u := ticks[i], marked[j];
      InitializedAll(word, bits, spacing, WORD_BITS, u);
      var next :| 0 <= next < WORD_BITS && Marks(bits, next, u) && u == TickOf(word, next, spacing);
      assert t in ticks && MarkedIn(words, spacing, t);
      var w, bit :| w in words && 0 <= bit < WORD_BITS && t == TickOf(w, bit, spacing) && Marks(words[w], bit, t);
      TickOfInjective(w, bit, word, next, spacing);
    }
    Joins(ticks, marked);
  }

  lemma WithoutLast(s: seq<int>)
    requires s != [] && Increasing(s)
    ensures var n := |s| - 1;
            Increasing(s[..n]) && forall w :: (w in s <==> w in s[..n] || w == s[n]) && (w in s[..n] ==> w < s[n])
  {
    assert s == s[..|s|-1] + [s[|s|-1]];
  }

  lemma {:induction false} TicksAreListed(indexes: seq<int>, words: map<int, nat>, spacing: int)
    requires spacing > 0 && Increasing(indexes) && forall w :: w in words <==> w in indexes
    ensures Lists(words, spacing, TicksOf(indexes, words, spacing)) && Increasing(TicksOf(indexes, words, spacing))
  {
    hide Initialized, Marks, TickOf, Lists, Increasing;
    if indexes == [] {
      forall w
        ensures w !in words
      {
        assert w in words <==> w in indexes;
      }
      assert words == map[];
      NothingMarked(spacing);
      NothingIncreases();
    } else {
      var n := |indexes| - 1;
      var last := indexes[n];
      var fewer := words - {last};
      WithoutLast(indexes);
      assert words == fewer[last := words[last]];
      TicksAreListed(indexes[..n], fewer, spacing);
      TicksNext(indexes, n, fewer, words[last], spacing);
      assert indexes[..n+1] == indexes;
      ListsPlus(fewer, spacing, TicksOf(indexes[..n], fewer, spacing), last, words[last]);
    }
  }

  lemma WindowComplete(tick: int, spacing: int, words: map<int, nat>, ticks: seq<int>, nets: map<int, int>)
    requires 0 < spacing <= LAST_EXACT && Lists(words, spacing, ticks)
    requires forall w :: InWindow(tick, spacing, w) ==> w in words
    requires forall t :: t in ticks ==> t in nets
    ensures !Incomplete(tick, spacing, words, nets)
  {
    hide Word, Marks, TickOf;
    forall word | InWindow(tick, spacing, word)
      ensures !WordMissing(word, spacing, words, nets)
    {
      forall bit | 0 <= bit < WORD_BITS
        ensures !BitMissing(word, bit, spacing, words[word], nets)
      {
        var t := TickOf(word, bit, spacing);
        InRange32(word, bit, spacing);
        if Marks(words[word], bit, t) { assert MarkedIn(words, spacing, t); }
      }
    }
  }

  // ---------- Reading the window ----------

  predicate Readable(tick: int, spacing: int) { 0 < spacing <= MAX_TICK && -MAX_TICK <= tick <= MAX_TICK }

  /** Some word of the list was not read. */
  ghost predicate WordsRefused(d: Decoder, indexes: seq<int>, reply: Option<seq<Raw>>) {
    !Complete(indexes, reply) || exists i :: 0 <= i < |indexes| && WordOf(d, reply.value[i]).None?
  }

  /** The net of one tick of a batch is the decoded value at its place in the reply to the batch. */
  ghost predicate NetAt(d: Decoder, keys: seq<int>, values: seq<Raw>, nets: map<int, int>, b: nat)
    requires |values| == |keys| && b < |keys|
  {
    keys[b] in nets && NetOf(d, values[b]) == Some(nets[keys[b]])
  }

  ghost predicate NetsFrom(d: Decoder, keys: seq<int>, values: seq<Raw>, nets: map<int, int>) {
    |values| == |keys| && forall b :: 0 <= b < |keys| ==> NetAt(d, keys, values, nets, b)
  }

  /** A value of a reply is no net liquidity. */
  ghost predicate Undecodable(d: Decoder, values: seq<Raw>) {
    exists b :: 0 <= b < |values| && NetOf(d, values[b]).None?
  }

  /** Each batch of ticks was asked for in one of the calls, and its nets are those of the reply. */
  ghost predicate NetsOfCalls(d: Decoder, batches: seq<seq<int>>, calls: seq<Call>, nets: map<int, int>) {
    && OncePerIndex(calls) && |calls| == |batches|
    && forall k :: 0 <= k < |calls| ==>
         calls[k].index < |batches| && calls[k].reply.Some? &&
         NetsFrom(d, batches[calls[k].index], calls[k].reply.value, nets)
  }

  /** Some reply to a call for net liquidity was incomplete or held a value that is none. */
  ghost predicate NetsRefused(d: Decoder, batches: seq<seq<int>>, calls: seq<Call>) {
    AnyRefused(batches, calls) ||
    exists k :: 0 <= k < |calls| && calls[k].reply.Some? && Undecodable(d, calls[k].reply.value)
  }

  /** What a successful read returned: the words are those of the first reply, and each net is the
      decoded value at its tick's place in the reply to the one call for its batch. */
  ghost predicate WindowFrom(node: Node, d: Decoder, start: nat, tick: int, spacing: int,
                             words: map<int, nat>, nets: map<int, int>, calls: seq<Call>)
    requires spacing > 0
    reads node
  {
    var indexes := WindowWords(tick, spacing);
    && |node.asked| > start && node.asked[start] == indexes
    && WordsFrom(d, indexes, node.replies(start, indexes), words)
    && var ticks := TicksOf(indexes, words, spacing);
       && Made(node.replies, node.asked, start + 1, Batches(ticks), calls)
       && NetsOfCalls(d, Batches(ticks), calls, nets)
       && forall t :: t in nets <==> t in ticks
  }

  /** Why there is no window: the reply to the first call is refused, or a later one is. */
  ghost predicate WindowRefused(node: Node, d: Decoder, start: nat, tick: int, spacing: int, calls: seq<Call>)
    requires spacing > 0
    reads node
  {
    var indexes := WindowWords(tick, spacing);
    && |node.asked| > start && node.asked[start] == indexes
    && (WordsRefused(d, indexes, node.replies(start, indexes)) ||
        exists words ::
          && WordsFrom(d, indexes, node.replies(start, indexes), words)
          && Made(node.replies, node.asked, start + 1, Batches(TicksOf(indexes, words, spacing)), calls)
          && NetsRefused(d, Batches(TicksOf(indexes, words, spacing)), calls))
  }

  /** Acquires the words and every initialized tick of the window, or nothing. */
  method Read(node: Node, d: Decoder, tick: int, spacing: int, concurrent: bool)
    returns (r: Option<(map<int, nat>, map<int, int>)>, ghost calls: seq<Call>)
    modifies node
    ensures old(node.cancelled) ==> node.cancelled
    ensures old(node.asked) <= node.asked
    ensures !(0 < spacing <= 443636 && -443636 <= tick <= 443636) ==> r.None? && node.asked == old(node.asked)
    ensures r.Some? ==>
              WindowFrom(node, d, |old(node.asked)|, tick, spacing, r.value.0, r.value.1, calls)
    ensures r.Some? ==>
      && !Incomplete(tick, spacing, r.value.0, r.value.1)
      && (forall w :: w in r.value.0 <==> InWindow(tick, spacing, w))
      && (forall t :: t in r.value.1 <==> MarkedIn(r.value.0, spacing, t))
    ensures r.None? && 0 < spacing <= 443636 && -443636 <= tick <= 443636 ==>
              node.cancelled || WindowRefused(node, d, |old(node.asked)|, tick, spacing, calls)
  {
    hide WordsFrom, TicksOf, Batches, Made, NetsOfCalls, Word, WindowWords, InWindow, Incomplete, MarkedIn,
         FromCalls, WordsRefused, Increasing, NetsRefused, AnyRefused;
    calls := [];
    if spacing <= 0 || spacing > MAX_TICK || tick < -MAX_TICK || tick > MAX_TICK { return None, calls; }
    var words := ReadWords(node, d, tick, spacing);
    if words.None? { return None, calls; }
    ghost var indexes := WindowWords(tick, spacing);
    ghost var start := |old(node.asked)|;
    WindowWordsAre(tick, spacing, d, node.replies(start, indexes), words.value.0);
    var initialized := words.value.1;
    TicksAreListed(indexes, words.value.0, spacing);
    var batches := Batches(initialized);
    var fetched;
    assert node.asked[start] == indexes;
    fetched, calls := TickBatches.Read(node, batches, concurrent);
    assert node.asked[start] == indexes;
    if fetched.None? {
      RefusedByBatch(d, batches, calls);
      return None, calls;
    }
    BatchSizes(calls, batches, fetched.value);
    var nets := ReadNets(d, initialized, batches, fetched.value);
    if nets.None? {
      RefusedByValue(d, batches, fetched.value, calls);
      return None, calls;
    }
    var cancelled := node.Look();
    if cancelled { return None, calls; }
    NetsFromCalls(d, batches, fetched.value, calls, nets.value);
    WindowComplete(tick, spacing, words.value.0, initialized, nets.value);
    SameMembers(words.value.0, spacing, initialized, nets.value);
    return Some((words.value.0, nets.value)), calls;
  }

  lemma SameMembers(words: map<int, nat>, spacing: int, ticks: seq<int>, nets: map<int, int>)
    requires Lists(words, spacing, ticks) && forall t :: t in nets <==> t in ticks
    ensures forall t :: t in nets <==> MarkedIn(words, spacing, t)
  {
    hide MarkedIn;
  }

  lemma WindowWordsAre(tick: int, spacing: int, d: Decoder, reply: Option<seq<Raw>>, words: map<int, nat>)
    requires spacing > 0 && WordsFrom(d, WindowWords(tick, spacing), reply, words)
    ensures Increasing(WindowWords(tick, spacing))
    ensures forall w :: w in words <==> w in WindowWords(tick, spacing)
    ensures forall w :: w in words <==> InWindow(tick, spacing, w)
  {
    hide Word, OnGrid;
    GridIs(Word(tick, spacing) - RADIUS, 2 * RADIUS + 1, spacing);
  }

  lemma BatchSizes(calls: seq<Call>, batches: seq<seq<int>>, values: seq<seq<Raw>>)
    requires FromCalls(calls, batches, values)
    ensures |values| == |batches| && forall i :: 0 <= i < |batches| ==> |values[i]| == |batches[i]|
  {
  }

  lemma RefusedByBatch(d: Decoder, batches: seq<seq<int>>, calls: seq<Call>)
    ensures AnyRefused(batches, calls) ==> NetsRefused(d, batches, calls)
  {
  }

  lemma RefusedByValue(d: Decoder, batches: seq<seq<int>>, values: seq<seq<Raw>>, calls: seq<Call>)
    requires FromCalls(calls, batches, values) && exists i :: 0 <= i < |values| && Undecodable(d, values[i])
    ensures NetsRefused(d, batches, calls)
  {
    hide Undecodable;
    var i :| 0 <= i < |values| && Undecodable(d, values[i]);
    assert Called(calls, Call(i, Some(values[i])));
    var k :| 0 <= k < |calls| && calls[k] == Call(i, Some(values[i]));
  }

  lemma NetsFromCalls(d: Decoder, batches: seq<seq<int>>, values: seq<seq<Raw>>, calls: seq<Call>, nets: map<int, int>)
    requires FromCalls(calls, batches, values)
    requires forall i :: 0 <= i < |batches| ==> NetsFrom(d, batches[i], values[i], nets)
    ensures NetsOfCalls(d, batches, calls, nets)
  {
    hide NetsFrom;
  }

  /** Reads the bitmap words of the window in one call and lists the ticks they mark. */
  method ReadWords(node: Node, d: Decoder, tick: int, spacing: int) returns (r: Option<(map<int, nat>, seq<int>)>)
    requires Readable(tick, spacing)
    modifies node
    ensures old(node.cancelled) ==> node.cancelled
    ensures node.asked == old(node.asked) || node.asked == old(node.asked) + [WindowWords(tick, spacing)]
    ensures node.asked == old(node.asked) ==> r.None? && node.cancelled
    ensures node.asked != old(node.asked) ==>
              var indexes := WindowWords(tick, spacing);
              var reply := node.replies(|old(node.asked)|, indexes);
              && (r.None? <==> WordsRefused(d, indexes, reply))
              && (r.Some? ==>
                    WordsFrom(d, indexes, reply, r.value.0) && r.value.1 == TicksOf(indexes, r.value.0, spacing))
  {
    hide Word, Marks, TicksOf, Initialized, WordOf, WordsBefore, WordsRefused, WordsFrom;
    var center := Word(tick, spacing);
    var indexes: seq<int> := [];
    for word := center - RADIUS to center + RADIUS + 1
      invariant indexes == Grid(center - RADIUS, word - (center - RADIUS), spacing)
    {
      if Word(-MAX_TICK, spacing) <= word <= Word(MAX_TICK, spacing) { indexes := indexes + [word]; }
    }
    GridIs(center - RADIUS, 2 * RADIUS + 1, spacing);
    ghost var before := node.asked;
    var values := Fetch(node, indexes, false);
    NoReply(d, indexes, node.replies(|before|, indexes));
    if values.None? { return None; }
    r := DecodeWords(d, indexes, values.value, spacing);
  }

  lemma NoReply(d: Decoder, indexes: seq<int>, reply: Option<seq<Raw>>)
    ensures !Complete(indexes, reply) ==> WordsRefused(d, indexes, reply)
  {
  }

  /** The first words are read, and nothing else. */
  ghost predicate WordsBefore(d: Decoder, indexes: seq<int>, values: seq<Raw>, words: map<int, nat>, n: nat)
    requires |values| == |indexes| && n <= |indexes|
  {
    && (forall w :: w in words <==> w in indexes[..n])
    && forall i :: 0 <= i < n ==> WordOf(d, values[i]) == Some(if indexes[i] in words then words[indexes[i]] else 0)
  }

  lemma NoWords(d: Decoder, indexes: seq<int>, values: seq<Raw>)
    requires |values| == |indexes|
    ensures WordsBefore(d, indexes, values, map[], 0)
  {
  }

  lemma WordsNext(d: Decoder, indexes: seq<int>, values: seq<Raw>, words: map<int, nat>, n: nat, bits: nat)
    requires |values| == |indexes| && n < |indexes| && Increasing(indexes)
    requires WordsBefore(d, indexes, values, words, n) && WordOf(d, values[n]) == Some(bits)
    ensures WordsBefore(d, indexes, values, words[indexes[n] := bits], n + 1)
  {
    hide WordOf;
    assert indexes[..n+1] == indexes[..n] + [indexes[n]];
    assert forall i :: 0 <= i < n ==> indexes[i] in indexes[..n] && indexes[i] < indexes[n];
  }

  lemma WordsDone(d: Decoder, indexes: seq<int>, values: seq<Raw>, words: map<int, nat>)
    requires |values| == |indexes| && WordsBefore(d, indexes, values, words, |indexes|)
    ensures WordsFrom(d, indexes, Some(values), words) && !WordsRefused(d, indexes, Some(values))
  {
    hide WordOf;
    assert indexes[..|indexes|] == indexes;
    forall i | 0 <= i < |indexes|
      ensures indexes[i] in words && WordOf(d, values[i]) == Some(words[indexes[i]])
    {
      var w := indexes[i];
      assert w in indexes[..|indexes|];
      assert w in words;
    }
  }

  method DecodeWords(d: Decoder, indexes: seq<int>, values: seq<Raw>, spacing: int)
    returns (r: Option<(map<int, nat>, seq<int>)>)
    requires |values| == |indexes| && Increasing(indexes)
    ensures r.None? <==> WordsRefused(d, indexes, Some(values))
    ensures r.Some? ==>
              WordsFrom(d, indexes, Some(values), r.value.0) && r.value.1 == TicksOf(indexes, r.value.0, spacing)
  {
    hide Marks, TicksOf, Initialized, WordOf;
    var words: map<int, nat> := map[];
    var initialized: seq<int> := [];
    NoWords(d, indexes, values);
    NoTicks(words, spacing);
    for i := 0 to |indexes|
      invariant WordsBefore(d, indexes, values, words, i)
      invariant initialized == TicksOf(indexes[..i], words, spacing)
    {
      var bits := WordOf(d, values[i]);
      if bits.None? { return None; }
      var marked := MarkedTicks(indexes[i], bits.value, spacing);
      WordsNext(d, indexes, values, words, i, bits.value);
      TicksNext(indexes, i, words, bits.value, spacing);
      words := words[indexes[i] := bits.value];
      initialized := initialized + marked;
    }
    WordsDone(d, indexes, values, words);
    assert indexes[..|indexes|] == indexes;
    return Some((words, initialized));
  }

  method MarkedTicks(word: int, bits: nat, spacing: int) returns (marked: seq<int>)
    ensures marked == Initialized(word, bits, spacing, WORD_BITS)
  {
    marked := [];
    for bit := 0 to WORD_BITS
      invariant marked == Initialized(word, bits, spacing, bit)
    {
      if Marks(bits, bit, TickOf(word, bit, spacing)) { marked := marked + [TickOf(word, bit, spacing)]; }
    }
  }

  lemma NoTicks(words: map<int, nat>, spacing: int)
    ensures TicksOf([], words, spacing) == []
  {
  }

  /** A tick of an earlier batch, or earlier in its batch, is another tick. */
  lemma Earlier(ticks: seq<int>, a: nat, b: nat, n: nat, i: nat)
    requires Increasing(ticks) && a <= n < |Batches(ticks)| && b < |Batches(ticks)[a]| && i < |Batches(ticks)[n]|
    requires a < n || b < i
    ensures Batches(ticks)[a][b] < Batches(ticks)[n][i]
  {
    assert Batches(ticks)[a][b] == ticks[a * BATCH + b] && Batches(ticks)[n][i] == ticks[n * BATCH + i];
    assert a < n ==> a * BATCH + b < n * BATCH;
  }

  /** The nets of all ticks before a place are those of the replies. */
  ghost predicate NetsBefore(d: Decoder, batches: seq<seq<int>>, fetched: seq<seq<Raw>>, nets: map<int, int>, n: nat,
                             i: nat)
    requires |fetched| == |batches| && forall k :: 0 <= k < |batches| ==> |fetched[k]| == |batches[k]|
  {
    forall a, b :: 0 <= a < |batches| && 0 <= b < |batches[a]| && (a < n || (a == n && b < i)) ==>
      NetAt(d, batches[a], fetched[a], nets, b)
  }

  lemma NetsNext(d: Decoder, ticks: seq<int>, fetched: seq<seq<Raw>>, nets: map<int, int>, n: nat, i: nat, net: int)
    requires Increasing(ticks) && |fetched| == |Batches(ticks)|
    requires forall k :: 0 <= k < |fetched| ==> |fetched[k]| == |Batches(ticks)[k]|
    requires n < |fetched| && i < |fetched[n]| && NetOf(d, fetched[n][i]) == Some(net)
    requires NetsBefore(d, Batches(ticks), fetched, nets, n, i)
    ensures NetsBefore(d, Batches(ticks), fetched, nets[Batches(ticks)[n][i] := net], n, i + 1)
  {
    hide Batches, NetOf, Increasing;
    var batches := Batches(ticks);
    var more := nets[batches[n][i] := net];
    forall a, b | 0 <= a < |batches| && 0 <= b < |batches[a]| && (a < n || (a == n && b <= i))
      ensures NetAt(d, batches[a], fetched[a], more, b)
    {
      if a < n || b < i {
        Earlier(ticks, a, b, n, i);
        assert NetAt(d, batches[a], fetched[a], nets, b);
      }
    }
  }

  /** Decodes the net liquidity of every fetched tick as a signed 128-bit number. */
  method ReadNets(d: Decoder, ticks: seq<int>, batches: seq<seq<int>>, fetched: seq<seq<Raw>>)
    returns (r: Option<map<int, int>>)
    requires Increasing(ticks) && batches == Batches(ticks) && |fetched| == |batches|
    requires forall i :: 0 <= i < |batches| ==> |fetched[i]| == |batches[i]|
    ensures r.None? <==> exists i :: 0 <= i < |fetched| && Undecodable(d, fetched[i])
    ensures r.Some? ==>
      && (forall t :: t in r.value <==> t in ticks)
      && (forall i :: 0 <= i < |batches| ==> NetsFrom(d, batches[i], fetched[i], r.value))
  {
    hide NetOf, Increasing, Batches;
    var nets: map<int, int> := map[];
    for n := 0 to |batches|
      invariant forall t :: t in nets <==> t in Joined(batches[..n])
      invariant NetsBefore(d, batches, fetched, nets, n, 0)
    {
      var chunk := batches[n];
      for i := 0 to |chunk|
        invariant forall t :: t in nets <==> t in Joined(batches[..n]) || t in chunk[..i]
        invariant NetsBefore(d, batches, fetched, nets, n, i)
      {
        var net := NetOf(d, fetched[n][i]);
        if net.None? {
          assert Undecodable(d, fetched[n]);
          return None;
        }
        NetsNext(d, ticks, fetched, nets, n, i, net.value);
        nets := nets[chunk[i] := net.value];
      }
      assert batches[..n+1][..n] == batches[..n];
      assert chunk[..|chunk|] == chunk;
    }
    assert batches[..|batches|] == batches;
    AllBatches(ticks);
    forall i | 0 <= i < |batches|
      ensures NetsFrom(d, batches[i], fetched[i], nets) && !Undecodable(d, fetched[i])
    {
      forall b | 0 <= b < |batches[i]|
        ensures NetAt(d, batches[i], fetched[i], nets, b) && NetOf(d, fetched[i][b]).Some?
      {
      }
    }
    return Some(nets);
  }

  // ---------- The rules in numbers ----------

  /** The bits of a word are its binary digits, the lowest first. */
  lemma BitRule(bits: nat, k: nat)
    ensures Bit(bits, 0) <==> bits % 2 == 1
    ensures Bit(bits, k + 1) <==> Bit(bits / 2, k)
  {
    Pow2Positive(k);
    var p, half := Pow2(k), bits / 2;
    assert half == half / p * p + half % p;
    Doubled(half / p, p);
    Quotient(bits, half / p, half % p * 2 + bits % 2, 2 * p);
  }

  lemma Doubled(q: int, p: int)
    ensures q * (2 * p) == 2 * (q * p)
  {
  }

  /** The window is the word of the tick and one on each side, as far as they hold a tick of the grid. */
  lemma WindowRule(tick: int, spacing: int, word: int)
    requires spacing > 0
    ensures InWindow(tick, spacing, word) <==>
            && tick / (256 * spacing) - 1 <= word <= tick / (256 * spacing) + 1
            && -443636 / (256 * spacing) <= word <= 443636 / (256 * spacing)
  {
    WordIsFloor(tick, spacing);
    WordIsFloor(-443636, spacing);
    WordIsFloor(443636, spacing);
    hide Word;
  }

  /** Which ticks the words mark. */
  lemma MarkRule(words: map<int, nat>, spacing: int, t: int)
    ensures MarkedIn(words, spacing, t) <==>
            && -443636 <= t <= 443636
            && exists word, bit :: word in words && 0 <= bit < 256 && Bit(words[word], bit)
                                   && t == (word * 256 + bit) * spacing
  {
    hide Bit;
    if word, bit :| word in words && 0 <= bit < WORD_BITS && t == TickOf(word, bit, spacing)
                    && Marks(words[word], bit, t)
    {
      assert Bit(words[word], bit);
    }
    if word, bit :| word in words && 0 <= bit < 256 && Bit(words[word], bit) && t == (word * 256 + bit) * spacing {
      assert t == TickOf(word, bit, spacing);
    }
  }

  /** When something of the window is missing: a word of it, or the net of a marked tick, whose number
      is computed in 32 bits. */
  lemma MissingRule(tick: int, spacing: int, words: map<int, nat>, nets: map<int, int>)
    requires spacing > 0
    ensures Incomplete(tick, spacing, words, nets) <==>
            exists word :: InWindow(tick, spacing, word) &&
              (word !in words || exists bit, t :: 0 <= bit < 256 && Bit(words[word], bit) && t !in nets
                                                  && Computed(word, bit, spacing, t) && -443636 <= t <= 443636)
  {
    hide InWindow, Bit;
    forall word
      ensures WordMissing(word, spacing, words, nets) <==>
              (word !in words || exists bit, t :: 0 <= bit < 256 && Bit(words[word], bit) && t !in nets
                                                  && Computed(word, bit, spacing, t) && -443636 <= t <= 443636)
    {
      forall bit: nat, t
        ensures Computed(word, bit, spacing, t) <==> t == Index(word, bit, spacing)
      {
        OneResidue(word, bit, spacing, t);
      }
      if word in words { OneWordRule(word, spacing, words[word], nets); }
    }
  }

  lemma OneWordRule(word: int, spacing: int, bits: nat, nets: map<int, int>)
    requires forall bit: nat, t :: Computed(word, bit, spacing, t) <==> t == Index(word, bit, spacing)
    ensures (exists bit :: 0 <= bit < WORD_BITS && BitMissing(word, bit, spacing, bits, nets)) <==>
            exists bit, t :: 0 <= bit < 256 && Bit(bits, bit) && t !in nets
                             && Computed(word, bit, spacing, t) && -443636 <= t <= 443636
  {
    hide Bit, Index, Computed;
    if bit :| 0 <= bit < WORD_BITS && BitMissing(word, bit, spacing, bits, nets) {
      assert Computed(word, bit, spacing, Index(word, bit, spacing));
    }
    if bit, t :| 0 <= bit < 256 && Bit(bits, bit) && t !in nets
                 && Computed(word, bit, spacing, t) && -443636 <= t <= 443636
    {
      assert BitMissing(word, bit, spacing, bits, nets);
    }
  }

  /** The signed 32-bit number with the residue of the tick of a bit. */
  predicate Computed(word: int, bit: nat, spacing: int, t: int) {
    -2147483648 <= t < 2147483648 && (t - (word * 256 + bit) * spacing) % 4294967296 == 0
  }

  lemma OneResidue(word: int, bit: nat, spacing: int, t: int)
    ensures Computed(word, bit, spacing, t) <==> t == Index(word, bit, spacing)
  {
    Residue((word * 256 + bit) * spacing, t);
    hide Wrap32;
  }

  lemma Residue(n: int, t: int)
    ensures -2147483648 <= t < 2147483648 && (t - n) % 4294967296 == 0 <==> t == Wrap32(n)
  {
  }

  /** How values are read: an absent word is empty, any other has 256 bits; a net has 128 bits, and
      stands for the signed number with these bits. */
  lemma DecodeRule(d: Decoder, raw: Raw)
    ensures d.absent(raw) ==> WordOf(d, raw) == Some(0)
    ensures !d.absent(raw) ==>
              WordOf(d, raw) ==
              match d.unsigned(raw)
              case Some(n) =>
                if 0 <= n < 0x1_0000_0000_0000_0000_0000_0000_0000_0000 * 0x1_0000_0000_0000_0000_0000_0000_0000_0000
                then Some(n) else None
              case None => None
    ensures NetOf(d, raw).Some? <==>
            && d.net(raw).Some? && d.unsigned(d.net(raw).value).Some?
            && 0 <= d.unsigned(d.net(raw).value).value < 0x1_0000_0000_0000_0000_0000_0000_0000_0000
    ensures NetOf(d, raw).Some? ==>
              var (n, net) := (d.unsigned(d.net(raw).value).value, NetOf(d, raw).value);
              && -0x8000_0000_0000_0000_0000_0000_0000_0000 <= net < 0x8000_0000_0000_0000_0000_0000_0000_0000
              && (net == n || net == n - 0x1_0000_0000_0000_0000_0000_0000_0000_0000)
  {
  }

  /** When replies are refused: one is missing, has not one value for each key, or holds a value that
      cannot be read. */
  lemma RefusalRule(d: Decoder, indexes: seq<int>, reply: Option<seq<Raw>>, batches: seq<seq<int>>, calls: seq<Call>)
    ensures WordsRefused(d, indexes, reply) <==>
            || reply == None || |reply.value| != |indexes|
            || exists i :: 0 <= i < |indexes| && WordOf(d, reply.value[i]) == None
    ensures NetsRefused(d, batches, calls) <==>
            exists k :: 0 <= k < |calls| &&
              (|| (calls[k].index < |batches|
                   && (calls[k].reply == None || |calls[k].reply.value| != |batches[calls[k].index]|))
               || (calls[k].reply != None
                   && exists b :: 0 <= b < |calls[k].reply.value| && NetOf(d, calls[k].reply.value[b]) == None))
  {
    hide WordOf, NetOf;
    RefusedMeans(batches, calls);
    hide AnyRefused;
  }
}
