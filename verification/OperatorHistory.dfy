/** Resumable operator histories: for one custodian of one position manager, the operators it
    ever approved, collected by log queries over consecutive block ranges. */
module OperatorHistory {
  import opened Wrappers

  type Address = nat

  /** A block, transaction or code hash; zero stands for an absent one. */
  type Hash = nat

  const MAX_UINT64 := 0xffff_ffff_ffff_ffff
  const MAX_ATTEMPTS := 4
  const ADDRESS_LIMIT := 0x1_0000_0000_0000_0000_0000_0000_0000_0000_0000_0000

  datatype Reference = Reference(number: nat, hash: Hash)

  datatype Failure = Failure(from: nat, to: nat, attempts: nat)

  datatype History = History(
    manager: Address, custodian: Address, managerCode: Hash, custodianCode: Hash,
    start: Reference, through: Option<Reference>, operators: seq<Address>, failure: Option<Failure>)

  /** An event as the node returns it; data carries its size in bytes and its value. */
  datatype Log = Log(
    address: Address, topics: seq<nat>, dataSize: nat, dataValue: nat,
    block: nat, blockHash: Hash, txHash: Hash, removed: bool)

  /** The topic of the approval event. */
  const APPROVAL := 0x17307eab39ab6107e8899845ad3d59bd9653f200f220920489ca2b5937696c31

  predicate NoRepeats<T(==)>(s: seq<T>) {
    forall i, j :: 0 <= i < j < |s| ==> s[i] != s[j]
  }

  /** First block that is not covered by the checkpoint. */
  function Next(h: History): nat {
    if h.through.Some? then h.through.value.number + 1 else h.start.number
  }

  // ---------- Restoring a stored list ----------

  predicate SameKey(a: History, b: History) {
    a.manager == b.manager && a.custodian == b.custodian
  }

  predicate Identified(h: History) {
    && h.manager != 0 && h.custodian != 0 && h.managerCode != 0 && h.custodianCode != 0
    && (h.start.number == 0 <==> h.start.hash == 0)
  }

  predicate Shaped(h: History) {
    && (h.through.None? ==> h.operators == [])
    && (h.through.Some? ==>
          && h.through.value.hash != 0
          && h.start.number <= h.through.value.number <= MAX_UINT64)
    && (h.failure.Some? ==>
          h.failure.value.from == Next(h) <= h.failure.value.to && 1 <= h.failure.value.attempts <= MAX_ATTEMPTS)
    && NoRepeats(h.operators)
  }

  predicate DistinctKeys(histories: seq<History>) {
    forall i, j :: 0 <= i < j < |histories| ==> !SameKey(histories[i], histories[j])
  }

  /** What an evaluation keeps of its histories. */
  predicate Retained(histories: seq<History>) {
    DistinctKeys(histories) && forall i :: 0 <= i < |histories| ==> Identified(histories[i]) && Shaped(histories[i])
  }

  /** A checkpoint at the last block number of all is refused. */
  predicate BelowLast(h: History) { h.through.Some? ==> h.through.value.number < MAX_UINT64 }

  predicate Restorable(histories: seq<History>) {
    Retained(histories) && forall i :: 0 <= i < |histories| ==> BelowLast(histories[i])
  }

  /** Which stored lists can be restored: no two histories of one manager and owner; all addresses and
      codes present, and a start hash exactly when the start is not block zero; no operators without a
      checkpoint, a checkpoint with a hash at or after the start and before the last block number, one
      to four failed attempts at the range after it, and no operator twice. */
  lemma RestorableRule(histories: seq<History>)
    ensures Restorable(histories) <==>
            && (forall i, j :: 0 <= i < j < |histories| ==>
                  histories[i].manager != histories[j].manager || histories[i].custodian != histories[j].custodian)
            && (forall i :: 0 <= i < |histories| ==>
                  var h := histories[i];
                  && h.manager > 0 && h.custodian > 0 && h.managerCode > 0 && h.custodianCode > 0
                  && (h.start.number > 0 <==> h.start.hash > 0)
                  && (match h.through
                      case None => h.operators == []
                      case Some(t) => t.hash > 0 && h.start.number <= t.number < 18446744073709551615)
                  && (h.failure.Some? ==>
                        && h.failure.value.from ==
                             (if h.through.Some? then h.through.value.number + 1 else h.start.number)
                        && h.failure.value.from <= h.failure.value.to && h.failure.value.attempts in {1, 2, 3, 4})
                  && (forall a, b :: 0 <= a < b < |h.operators| ==> h.operators[a] != h.operators[b]))
  {
    if Restorable(histories) {
      forall i | 0 <= i < |histories|
        ensures Identified(histories[i]) && Shaped(histories[i]) && BelowLast(histories[i])
      {
      }
    }
  }

  /** The history part of restoring stored evidence. */
  method Restore(histories: seq<History>) returns (ok: bool)
    ensures ok <==> Restorable(histories)
  {
    var seen: set<(Address, Address)> := {};
    for n := 0 to |histories|
      invariant forall k :: k in seen <==> exists i :: 0 <= i < n && k == (histories[i].manager, histories[i].custodian)
      invariant Restorable(histories[..n])
    {
      var h := histories[n];
      var key := (h.manager, h.custodian);
      assert histories[..n+1] == histories[..n] + [h];
      if key in seen || h.manager == 0 || h.custodian == 0 || h.managerCode == 0 || h.custodianCode == 0 ||
         (h.start.number == 0) != (h.start.hash == 0)
      {
        assert key in seen ==> exists i :: 0 <= i < n && SameKey(histories[i], h);
        return false;
      }
      seen := seen + {key};
      var next := h.start.number;
      if h.through.None? && |h.operators| != 0 { return false; }
      if h.through.Some? {
        var through := h.through.value;
        if through.hash == 0 || through.number < h.start.number || through.number >= MAX_UINT64 { return false; }
        next := through.number + 1;
      }
      if h.failure.Some? {
        var f := h.failure.value;
        if f.from != next || f.to < next || f.attempts == 0 || f.attempts > MAX_ATTEMPTS { return false; }
      }
      var unique: set<Address> := {};
      for i := 0 to |h.operators|
        invariant forall a :: a in unique <==> a in h.operators[..i]
        invariant NoRepeats(h.operators[..i])
      {
        if h.operators[i] in unique {
          var j :| 0 <= j < i && h.operators[j] == h.operators[i];
          assert !NoRepeats(h.operators);
          return false;
        }
        assert h.operators[..i+1] == h.operators[..i] + [h.operators[i]];
        unique := unique + {h.operators[i]};
      }
      assert h.operators[..|h.operators|] == h.operators;
    }
    assert histories[..|histories|] == histories;
    return true;
  }

  // ---------- What a history rests on ----------

  /** A request to the node together with its answer; an absent answer is a failed request. */
  datatype Call =
    | HeaderCall(number: nat, header: Option<Reference>)
    | LogsCall(manager: Address, owner: Address, from: nat, to: nat, logs: Option<seq<Log>>)
    | CodeCall(address: Address, code: Option<Hash>)
    | ApprovalCall(at: Hash, manager: Address, owner: Address, operator: Address, word: Option<Word>)

  /** A returned word: its size in bytes and its value. */
  datatype Word = Word(size: nat, value: nat)

  /** One scanned range, with the hash of its last block and the block it was anchored to. */
  datatype Chunk = Chunk(from: nat, to: nat, hash: Hash, anchor: Option<Reference>, logs: seq<Log>)

  predicate ApprovalEvent(manager: Address, owner: Address, l: Log) {
    && l.address == manager && |l.topics| == 3 && l.topics[0] == APPROVAL && l.topics[1] == owner
    && l.dataSize == 32 && l.topics[2] < ADDRESS_LIMIT && l.dataValue <= 1
  }

  /** The log is a live approval event of the owner inside the chunk and on its branch. */
  predicate Fits(manager: Address, owner: Address, c: Chunk, l: Log) {
    && ApprovalEvent(manager, owner, l)
    && !l.removed && l.blockHash != 0 && l.txHash != 0 && c.from <= l.block <= c.to
    && (l.block == c.to ==> l.blockHash == c.hash)
  }

  /** Which logs are events of a scan: approvals of the owner at the manager, with three topics and one
      word of data that is zero or one, live, with their hashes, and inside the chunk. */
  lemma FitsRule(manager: Address, owner: Address, c: Chunk, l: Log)
    ensures Fits(manager, owner, c, l) <==>
            && l.address == manager && |l.topics| == 3
            && l.topics[0] == 0x17307eab39ab6107e8899845ad3d59bd9653f200f220920489ca2b5937696c31
            && l.topics[1] == owner && l.topics[2] < 0x1_0000_0000_0000_0000_0000_0000_0000_0000_0000_0000
            && l.dataSize == 32 && l.dataValue in {0, 1}
            && !l.removed && l.blockHash > 0 && l.txHash > 0 && c.from <= l.block <= c.to
            && (l.block == c.to ==> l.blockHash == c.hash)
    ensures Fits(manager, owner, c, l) ==> Operator(l) == l.topics[2]
  {
  }

  function Operator(l: Log): Address { if |l.topics| == 3 then l.topics[2] else 0 }

  function HeaderRead(r: Reference): Call { HeaderCall(r.number, Some(r)) }

  /** The calls that accept a chunk: its last header, its logs, its anchor, its last header again. */
  function Accepting(manager: Address, owner: Address, c: Chunk): seq<Call> {
    var tail := HeaderRead(Reference(c.to, c.hash));
    [tail, LogsCall(manager, owner, c.from, c.to, Some(c.logs))]
    + (if c.anchor.Some? then [HeaderRead(c.anchor.value)] else [])
    + [tail]
  }

  predicate OccursAt(part: seq<Call>, trace: seq<Call>, i: nat) {
    i + |part| <= |trace| && trace[i..i+|part|] == part
  }

  ghost predicate Occurs(part: seq<Call>, trace: seq<Call>) {
    exists i: nat :: OccursAt(part, trace, i)
  }

  /** The chunk was accepted by consecutive calls of the trace. */
  ghost predicate Scanned(manager: Address, owner: Address, c: Chunk, trace: seq<Call>) {
    && c.from <= c.to
    && Occurs(Accepting(manager, owner, c), trace)
    && forall i :: 0 <= i < |c.logs| ==> Fits(manager, owner, c, c.logs[i])
  }

  function End(c: Chunk): Reference { Reference(c.to, c.hash) }

  /** Where the chunk at a position starts and what it is anchored to. */
  function ChunkFrom(h: History, chunks: seq<Chunk>, i: nat): nat
    requires i <= |chunks|
  { if i == 0 then h.start.number else chunks[i-1].to + 1 }

  function ChunkAnchor(h: History, chunks: seq<Chunk>, i: nat): Option<Reference>
    requires i <= |chunks|
  {
    if i > 0 then Some(End(chunks[i-1])) else if h.start.number != 0 then Some(h.start) else None
  }

  predicate Follows(h: History, chunks: seq<Chunk>, i: nat)
    requires i < |chunks|
  {
    chunks[i].from == ChunkFrom(h, chunks, i) && chunks[i].anchor == ChunkAnchor(h, chunks, i)
  }

  /** The chunks lead from the start to the checkpoint without a gap, each anchored to the end of
      the one before. */
  ghost predicate Contiguous(h: History, chunks: seq<Chunk>) {
    && (forall i :: 0 <= i < |chunks| ==> Follows(h, chunks, i))
    && (h.through == if chunks == [] then None else Some(End(chunks[|chunks|-1])))
  }

  ghost predicate InChunks(a: Address, chunks: seq<Chunk>) {
    exists i, j :: 0 <= i < |chunks| && 0 <= j < |chunks[i].logs| && Operator(chunks[i].logs[j]) == a
  }

  ghost predicate InLogs(a: Address, logs: seq<Log>) {
    exists j :: 0 <= j < |logs| && Operator(logs[j]) == a
  }

  /** The history is the outcome of its chunks: contiguous accepted scans from its start to its
      checkpoint, and exactly the operators in their logs. */
  ghost predicate Backed(h: History, chunks: seq<Chunk>, trace: seq<Call>) {
    && Contiguous(h, chunks)
    && (forall i :: 0 <= i < |chunks| ==> Scanned(h.manager, h.custodian, chunks[i], trace))
    && (forall a :: a in h.operators <==> InChunks(a, chunks))
  }

  lemma OccursLater(part: seq<Call>, trace: seq<Call>, more: seq<Call>)
    requires Occurs(part, trace)
    ensures Occurs(part, trace + more)
  {
    var i: nat :| OccursAt(part, trace, i);
    assert (trace + more)[i..i+|part|] == trace[i..i+|part|];
    assert OccursAt(part, trace + more, i);
  }

  lemma BackedLater(h: History, chunks: seq<Chunk>, trace: seq<Call>, more: seq<Call>)
    requires Backed(h, chunks, trace)
    ensures Backed(h, chunks, trace + more)
  {
    forall i | 0 <= i < |chunks|
      ensures Scanned(h.manager, h.custodian, chunks[i], trace + more)
    {
      OccursLater(Accepting(h.manager, h.custodian, chunks[i]), trace, more);
    }
  }

  lemma InChunksAppend(a: Address, chunks: seq<Chunk>, c: Chunk)
    ensures InChunks(a, chunks + [c]) <==> InChunks(a, chunks) || InLogs(a, c.logs)
  {
    var all := chunks + [c];
    if InChunks(a, chunks) {
      var i, j :| 0 <= i < |chunks| && 0 <= j < |chunks[i].logs| && Operator(chunks[i].logs[j]) == a;
      assert all[i] == chunks[i];
    }
    if InLogs(a, c.logs) {
      var j :| 0 <= j < |c.logs| && Operator(c.logs[j]) == a;
      assert all[|chunks|].logs[j] == c.logs[j];
    }
  }

  /** One more accepted chunk, starting right after the checkpoint and anchored to it, extends the
      history by exactly the operators of its logs. */
  lemma Extend(h: History, chunks: seq<Chunk>, trace: seq<Call>, c: Chunk, h': History)
    requires Backed(h, chunks, trace) && Scanned(h.manager, h.custodian, c, trace)
    requires c.from == Next(h)
    requires c.anchor == if h.through.Some? then h.through else if h.start.number != 0 then Some(h.start) else None
    requires h' == h.(operators := h'.operators, through := Some(End(c)), failure := h'.failure)
    requires forall a :: a in h'.operators <==> a in h.operators || InLogs(a, c.logs)
    ensures Backed(h', chunks + [c], trace)
  {
    var all := chunks + [c];
    forall i | 0 <= i < |all|
      ensures Follows(h', all, i)
      ensures Scanned(h'.manager, h'.custodian, all[i], trace)
    {
      if i < |chunks| {
        assert all[i] == chunks[i];
        assert Follows(h, chunks, i);
      }
    }
    forall a
      ensures a in h'.operators <==> InChunks(a, all)
    {
      InChunksAppend(a, chunks, c);
    }
  }

  lemma {:induction false} FindChunk(h: History, chunks: seq<Chunk>, block: nat, n: nat)
    requires Contiguous(h, chunks) && n < |chunks| && h.start.number <= block <= chunks[n].to
    ensures exists i :: 0 <= i <= n && Covers(chunks[i], block)
    decreases n
  {
    assert Follows(h, chunks, n);
    if block < chunks[n].from {
      FindChunk(h, chunks, block, n - 1);
    } else {
      assert Covers(chunks[n], block);
    }
  }

  lemma {:induction false} Ordered(h: History, chunks: seq<Chunk>, i: nat, j: nat)
    requires Contiguous(h, chunks) && i < j < |chunks|
    requires forall k :: 0 <= k < |chunks| ==> chunks[k].from <= chunks[k].to
    ensures chunks[i].to < chunks[j].from
    decreases j
  {
    assert Follows(h, chunks, j);
    if i < j - 1 {
      Ordered(h, chunks, i, j - 1);
    }
  }

  /** The chunk holds the block. */
  predicate Covers(c: Chunk, block: nat) { c.from <= block <= c.to }

  /** Every block from the start to the checkpoint lies in exactly one scanned chunk. */
  lemma EveryBlockScanned(h: History, chunks: seq<Chunk>, trace: seq<Call>, block: nat)
    requires Backed(h, chunks, trace) && h.through.Some? && h.start.number <= block <= h.through.value.number
    ensures exists i :: 0 <= i < |chunks| && Covers(chunks[i], block)
    ensures forall i, j :: 0 <= i < j < |chunks| ==> !(Covers(chunks[i], block) && Covers(chunks[j], block))
  {
    forall k | 0 <= k < |chunks|
      ensures chunks[k].from <= chunks[k].to
    {
      assert Scanned(h.manager, h.custodian, chunks[k], trace);
    }
    FindChunk(h, chunks, block, |chunks| - 1);
    forall i, j | 0 <= i < j < |chunks|
      ensures !(Covers(chunks[i], block) && Covers(chunks[j], block))
    {
      Ordered(h, chunks, i, j);
    }
  }
}
