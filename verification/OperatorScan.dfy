/** One evaluation at a fixed block: it extends the operator histories it was given by chunked
    log scans, surviving failed requests, retry limits and chain reorganisations. */
module OperatorScan {
  import opened Wrappers
  import opened OperatorHistory
  import opened OperatorNode

  datatype Reason = Clear | Unresolved | Active

  // ---------- What an evaluation keeps ----------

  /** Every history is kept whole and is the outcome of its accepted chunks. */
  ghost predicate Sound(histories: seq<History>, scans: seq<seq<Chunk>>, trace: seq<Call>) {
    && |scans| == |histories| && Retained(histories)
    && forall i :: 0 <= i < |histories| ==> Backed(histories[i], scans[i], trace)
  }

  /** No history ends at the last block number of all, unless that is the observed block. */
  ghost predicate Endings(histories: seq<History>, block: nat) {
    block < MAX_UINT64 ==> forall i :: 0 <= i < |histories| ==> BelowLast(histories[i])
  }

  /** The evaluation established that no operator of the owner is approved: some history of the
      owner reaches the observed block, and each of its operators was read as unapproved there. */
  ghost predicate Settled(histories: seq<History>, words: map<(Address, Address), Word>,
                          manager: Address, owner: Address, start: Reference, block: nat) {
    exists i :: 0 <= i < |histories| && SettledBy(histories[i], words, manager, owner, start, block)
  }

  ghost predicate SettledBy(h: History, words: map<(Address, Address), Word>,
                            manager: Address, owner: Address, start: Reference, block: nat) {
    && h.manager == manager && h.custodian == owner && h.start == start
    && h.through.Some? && h.through.value.number == block
    && forall a :: a in h.operators ==> (owner, a) in words && words[(owner, a)] == Word(32, 0)
  }

  /** Some operator of the owner was read as approved. */
  ghost predicate ApprovedSomewhere(words: map<(Address, Address), Word>, owner: Address) {
    exists a :: (owner, a) in words && words[(owner, a)] == Word(32, 1)
  }

  /** Only histories of the given key differ, and only such were added. */
  ghost predicate OthersKept(before: seq<History>, after: seq<History>, beforeScans: seq<seq<Chunk>>,
                             afterScans: seq<seq<Chunk>>, manager: Address, owner: Address)
    requires |before| == |beforeScans| && |after| == |afterScans|
  {
    && |before| <= |after| && (forall i :: 0 <= i < |before| ==> SameKey(after[i], before[i]))
    && (forall i :: 0 <= i < |before| && !(before[i].manager == manager && before[i].custodian == owner) ==>
          after[i] == before[i] && afterScans[i] == beforeScans[i])
    && (forall i :: |before| <= i < |after| ==> after[i].manager == manager && after[i].custodian == owner)
  }

  /** Whether a retained history may be continued. */
  predicate Continues(h: History, managerCode: Hash, custodianCode: Hash, start: Reference, block: nat) {
    && h.managerCode == managerCode && h.custodianCode == custodianCode && h.start == start
    && (h.through.None? || h.through.value.number <= block)
  }

  /** A continued history keeps everything scanned before. */
  ghost predicate Resumed(before: seq<History>, beforeScans: seq<seq<Chunk>>, afterScans: seq<seq<Chunk>>,
                          manager: Address, owner: Address, managerCode: Hash, custodianCode: Hash,
                          start: Reference, block: nat)
    requires |before| == |beforeScans| <= |afterScans|
  {
    forall i :: 0 <= i < |before| && before[i].manager == manager && before[i].custodian == owner
                && Continues(before[i], managerCode, custodianCode, start, block) ==>
      beforeScans[i] <= afterScans[i]
  }

  /** Every cached word was read at the observed block. */
  ghost predicate WordsRead(words: map<(Address, Address), Word>, own: seq<Call>, at: Hash, manager: Address) {
    forall k :: k in words ==> ApprovalCall(at, manager, k.0, k.1, Some(words[k])) in own
  }

  /** Every cached code hash was read. */
  ghost predicate CodesRead(codes: map<Address, Hash>, own: seq<Call>) {
    forall a :: a in codes ==> CodeCall(a, Some(codes[a])) in own
  }

  ghost predicate ClearsSettled(checks: map<Address, bool>, histories: seq<History>,
                                words: map<(Address, Address), Word>,
                                manager: Address, starts: map<Address, Reference>, block: nat) {
    forall o :: o in checks && checks[o] ==> Settled(histories, words, manager, o, StartIn(starts, o), block)
  }

  ghost predicate ActivesApproved(checks: map<Address, bool>, words: map<(Address, Address), Word>) {
    forall o :: o in checks && !checks[o] ==> ApprovedSomewhere(words, o)
  }

  predicate NonZero(m: map<nat, Hash>) { forall k :: k in m ==> m[k] != 0 }

  lemma SoundLater(histories: seq<History>, scans: seq<seq<Chunk>>, trace: seq<Call>, more: seq<Call>)
    requires Sound(histories, scans, trace)
    ensures Sound(histories, scans, trace + more)
  {
    hide Backed, Retained;
    forall i | 0 <= i < |histories|
      ensures Backed(histories[i], scans[i], trace + more)
    {
      BackedLater(histories[i], scans[i], trace, more);
    }
  }

  /** One more answered call leaves everything known before true. */
  lemma OneCall(node: Node, histories: seq<History>, scans: seq<seq<Chunk>>, trace: seq<Call>, begun: nat,
                codes: map<Address, Hash>, words: map<(Address, Address), Word>, at: Hash, manager: Address, call: Call)
    requires begun <= |trace| && Sound(histories, scans, trace) && Genuine(node, trace)
    requires CodesRead(codes, trace[begun..]) && WordsRead(words, trace[begun..], at, manager)
    requires GenuineAt(node, |trace|, call)
    ensures (trace + [call])[begun..] == trace[begun..] + [call]
    ensures Sound(histories, scans, trace + [call]) && Genuine(node, trace + [call])
    ensures CodesRead(codes, (trace + [call])[begun..]) && WordsRead(words, (trace + [call])[begun..], at, manager)
  {
    hide Sound, GenuineAt;
    SoundLater(histories, scans, trace, [call]);
    assert (trace + [call])[begun..] == trace[begun..] + [call];
  }

  lemma OneCode(codes: map<Address, Hash>, own: seq<Call>, address: Address, code: Hash)
    requires CodesRead(codes, own) && CodeCall(address, Some(code)) in own
    ensures CodesRead(codes[address := code], own)
  {
  }

  lemma OneWord(words: map<(Address, Address), Word>, own: seq<Call>, at: Hash, manager: Address,
                owner: Address, operator: Address, word: Word)
    requires WordsRead(words, own, at, manager)
    requires ApprovalCall(at, manager, owner, operator, Some(word)) in own
    ensures WordsRead(words[(owner, operator) := word], own, at, manager)
  {
  }

  /** Reading another word does not unsettle an owner. */
  lemma MoreWords(checks: map<Address, bool>, histories: seq<History>, words: map<(Address, Address), Word>,
                  more: map<(Address, Address), Word>, manager: Address, starts: map<Address, Reference>, block: nat)
    requires forall k :: k in words ==> k in more && more[k] == words[k]
    requires ActivesApproved(checks, words)
    ensures ActivesApproved(checks, more)
    ensures ClearsSettled(checks, histories, words, manager, starts, block) ==>
              ClearsSettled(checks, histories, more, manager, starts, block)
  {
    forall o | o in checks && !checks[o]
      ensures ApprovedSomewhere(more, o)
    {
      var a :| (o, a) in words && words[(o, a)] == Word(32, 1);
      assert (o, a) in more && more[(o, a)] == Word(32, 1);
    }
    if ClearsSettled(checks, histories, words, manager, starts, block) {
      forall o | o in checks && checks[o]
        ensures Settled(histories, more, manager, o, StartIn(starts, o), block)
      {
        var i :| 0 <= i < |histories| && SettledBy(histories[i], words, manager, o, StartIn(starts, o), block);
        assert SettledBy(histories[i], more, manager, o, StartIn(starts, o), block);
      }
    }
  }

  /** A changed or added history of an unchecked owner does not unsettle the others. */
  lemma OtherHistory(checks: map<Address, bool>, histories: seq<History>, changed: seq<History>,
                     words: map<(Address, Address), Word>, manager: Address, starts: map<Address, Reference>,
                     block: nat, owner: Address)
    requires owner !in checks && |histories| <= |changed|
    requires forall i :: 0 <= i < |histories| ==> changed[i] == histories[i] || histories[i].custodian == owner
    requires ClearsSettled(checks, histories, words, manager, starts, block)
    ensures ClearsSettled(checks, changed, words, manager, starts, block)
  {
    forall o | o in checks && checks[o]
      ensures Settled(changed, words, manager, o, StartIn(starts, o), block)
    {
      var i :| 0 <= i < |histories| && SettledBy(histories[i], words, manager, o, StartIn(starts, o), block);
      assert changed[i] == histories[i];
    }
  }

  /** Replacing one history of a sound list by a sound one with the same key. */
  lemma SoundReplace(histories: seq<History>, scans: seq<seq<Chunk>>, trace: seq<Call>, index: nat, h: History,
                     chunks: seq<Chunk>)
    requires Sound(histories, scans, trace) && index < |histories|
    requires SameKey(h, histories[index]) && Identified(h) && Shaped(h) && Backed(h, chunks, trace)
    ensures Sound(histories[index := h], scans[index := chunks], trace)
  {
    hide Backed, Identified, Shaped;
  }

  lemma SoundAppend(histories: seq<History>, scans: seq<seq<Chunk>>, trace: seq<Call>, h: History)
    requires Sound(histories, scans, trace)
    requires forall i :: 0 <= i < |histories| ==> !SameKey(histories[i], h)
    requires Identified(h) && h.through.None? && h.operators == [] && h.failure.None?
    ensures Sound(histories + [h], scans + [[]], trace)
  {
    hide Identified;
    assert Backed(h, [], trace);
  }

  /** The calls of an acquisition, one after the other, accept its chunk. */
  lemma AcceptedChunk(manager: Address, owner: Address, c: Chunk, trace: seq<Call>)
    requires c.from <= c.to && forall i :: 0 <= i < |c.logs| ==> Fits(manager, owner, c, c.logs[i])
    ensures Scanned(manager, owner, c, trace + Accepting(manager, owner, c))
    ensures trace + Accepting(manager, owner, c) ==
            trace + [HeaderRead(End(c))] + [LogsCall(manager, owner, c.from, c.to, Some(c.logs))]
            + (if c.anchor.Some? then [HeaderRead(c.anchor.value)] else []) + [HeaderRead(End(c))]
  {
    hide Fits;
    var part := Accepting(manager, owner, c);
    assert OccursAt(part, trace + part, |trace|);
  }

  lemma BackedNew(h: History, trace: seq<Call>)
    requires h.through.None? && h.operators == []
    ensures Backed(h, [], trace)
  {
  }

  lemma BackedPrefix(h: History, chunks: seq<Chunk>, before: seq<Call>, after: seq<Call>)
    requires Backed(h, chunks, before) && before <= after
    ensures Backed(h, chunks, after)
  {
    assert after == before + after[|before|..];
    BackedLater(h, chunks, before, after[|before|..]);
  }

  /** A failure record says nothing about what was scanned. */
  lemma BackedFailure(h: History, failed: History, chunks: seq<Chunk>, trace: seq<Call>)
    requires Backed(h, chunks, trace) && failed == h.(failure := failed.failure)
    ensures Backed(failed, chunks, trace)
  {
    forall i | 0 <= i < |chunks|
      ensures Follows(failed, chunks, i)
    {
      assert Follows(h, chunks, i);
    }
  }

  lemma SoundKeys(histories: seq<History>, scans: seq<seq<Chunk>>, trace: seq<Call>)
    requires Sound(histories, scans, trace)
    ensures |scans| == |histories| && DistinctKeys(histories)
  {
  }

  /** An unchanged list is consistent with any scan. */
  lemma Unchanged(histories: seq<History>, scans: seq<seq<Chunk>>, manager: Address, owner: Address, codeHash: Hash,
                  start: Reference, block: nat)
    requires |histories| == |scans|
    ensures OthersKept(histories, histories, scans, scans, manager, owner)
    ensures forall code: Hash :: Resumed(histories, scans, scans, manager, owner, code, codeHash, start, block)
  {
  }

  lemma ApprovedHere(words: map<(Address, Address), Word>, owner: Address, operator: Address)
    requires (owner, operator) in words && words[(owner, operator)] == Word(32, 1)
    ensures ApprovedSomewhere(words, owner)
  {
  }

  lemma SettledHere(histories: seq<History>, words: map<(Address, Address), Word>, index: nat,
                    manager: Address, owner: Address, start: Reference, block: nat)
    requires index < |histories| && histories[index].manager == manager && histories[index].custodian == owner
    requires histories[index].start == start
    requires histories[index].through.Some? && histories[index].through.value.number == block
    requires forall k :: 0 <= k < |histories[index].operators| ==>
      (owner, histories[index].operators[k]) in words && words[(owner, histories[index].operators[k])] == Word(32, 0)
    ensures Settled(histories, words, manager, owner, start, block)
  {
    assert SettledBy(histories[index], words, manager, owner, start, block);
  }

  // ---------- The order of operators ----------

  /** In the order of the texts of the addresses, given by their places among all texts. */
  ghost predicate Sorted(rank: Address -> nat, s: seq<Address>) {
    forall i, j :: 0 <= i < j < |s| ==> rank(s[i]) <= rank(s[j])
  }

  function Insert(rank: Address -> nat, s: seq<Address>, a: Address): seq<Address> {
    if s == [] || rank(a) <= rank(s[0]) then [a] + s else [s[0]] + Insert(rank, s[1..], a)
  }

  lemma {:induction false} InsertIs(rank: Address -> nat, s: seq<Address>, a: Address)
    requires Sorted(rank, s)
    ensures Sorted(rank, Insert(rank, s, a))
    ensures forall x :: x in Insert(rank, s, a) <==> x == a || x in s
    ensures NoRepeats(s) && a !in s ==> NoRepeats(Insert(rank, s, a))
  {
    hide NoRepeats, Sorted;
    if s == [] || rank(a) <= rank(s[0]) {
      if s != [] { Parts(rank, s); }
      Ahead(rank, a, s);
    } else {
      var rest := s[1..];
      assert s == [s[0]] + rest;
      Parts(rank, s);
      InsertIs(rank, rest, a);
      Ahead(rank, s[0], Insert(rank, rest, a));
    }
  }

  lemma Parts(rank: Address -> nat, s: seq<Address>)
    requires s != [] && Sorted(rank, s)
    ensures Sorted(rank, s[1..]) && forall x :: x in s ==> rank(s[0]) <= rank(x)
    ensures NoRepeats(s) ==> NoRepeats(s[1..]) && s[0] !in s[1..]
  {
  }

  lemma Ahead(rank: Address -> nat, a: Address, s: seq<Address>)
    requires Sorted(rank, s) && forall x :: x in s ==> rank(a) <= rank(x)
    ensures Sorted(rank, [a] + s)
    ensures NoRepeats(s) && a !in s ==> NoRepeats([a] + s)
  {
  }

  lemma TailMembers(s: seq<Address>)
    requires s != [] && NoRepeats(s)
    ensures forall a :: a in s[1..] <==> a in s && a != s[0]
  {
    assert s == [s[0]] + s[1..];
  }

  /** When different addresses have different texts, the stored list is determined by its members. */
  lemma {:induction false} SortedUnique(rank: Address -> nat, s: seq<Address>, t: seq<Address>)
    requires forall a, b :: rank(a) == rank(b) ==> a == b
    requires Sorted(rank, s) && NoRepeats(s) && Sorted(rank, t) && NoRepeats(t)
    requires forall a :: a in s <==> a in t
    ensures s == t
  {
    assert (|s| > 0 ==> s[0] in s) && (|t| > 0 ==> t[0] in t);
    if s != [] && t != [] {
      assert s[0] in t && t[0] in s;
      assert s[0] == t[0];
      TailMembers(s);
      TailMembers(t);
      SortedUnique(rank, s[1..], t[1..]);
    }
  }

  // ---------- Ranges and failure records ----------

  /** The last block of the next chunk: that of the failed attempt, or as far as the limit goes. */
  function ChunkEnd(h: History, from: nat, block: nat, range: nat): int {
    if h.failure.Some? then h.failure.value.to
    else if block - from >= range then from + range - 1
    else block
  }

  /** One more attempt at the next range. */
  function AttemptFailed(h: History, from: nat, to: nat): History {
    h.(failure := Some(Failure(from, to, (if h.failure.Some? then h.failure.value.attempts else 0) + 1)))
  }

  /** What an evaluation may do to a history that it continues: leave it, count one more attempt at the
      next range, or move the checkpoint forward and then drop the failure record or begin a new one.
      An exhausted budget never counts as an attempt, and after four attempts nothing is done. */
  ghost predicate Recorded(before: History, after: History, block: nat, range: nat, err: Option<Fault>) {
    && after.manager == before.manager && after.custodian == before.custodian
    && after.managerCode == before.managerCode && after.custodianCode == before.custodianCode
    && after.start == before.start
    && (before.failure.Some? && before.failure.value.attempts >= 4 ==> after == before)
    && (|| after == before
        || FailedAgain(before, after, block, range, err)
        || MovedOn(before, after, block, range, err))
  }

  ghost predicate FailedAgain(before: History, after: History, block: nat, range: nat, err: Option<Fault>) {
    && after.through == before.through && after.operators == before.operators
    && err.Some? && err != Some(Budget) && after.failure.Some?
    && after.failure.value.from == Next(before)
    && (if before.failure.Some? then
          && after.failure.value.to == before.failure.value.to
          && after.failure.value.attempts == before.failure.value.attempts + 1
        else
          && after.failure.value.to == (if block - Next(before) >= range then Next(before) + range - 1 else block)
          && after.failure.value.attempts == 1)
  }

  ghost predicate MovedOn(before: History, after: History, block: nat, range: nat, err: Option<Fault>) {
    && after.through.Some? && Next(before) <= after.through.value.number <= block
    && (after.failure.Some? ==>
          && err.Some? && err != Some(Budget)
          && after.failure.value.from == after.through.value.number + 1
          && after.failure.value.to == (if block - Next(after) >= range then Next(after) + range - 1 else block)
          && after.failure.value.attempts == 1)
  }

  /** The failure record of the owner's continued history changed as one evaluation may change it. */
  ghost predicate AttemptsCounted(before: seq<History>, after: seq<History>, manager: Address, owner: Address,
                                  managerCode: Hash, custodianCode: Hash, start: Reference, block: nat, range: nat,
                                  err: Option<Fault>)
    requires |before| <= |after|
  {
    forall i :: 0 <= i < |before| && before[i].manager == manager && before[i].custodian == owner
                && Continues(before[i], managerCode, custodianCode, start, block) ==>
      Recorded(before[i], after[i], block, range, err)
  }

  /** The history belongs to the code and the start it was asked for, and does not end later. */
  predicate UpToDate(h: History, managerCode: Hash, custodianCode: Hash, start: Reference, block: nat) {
    && h.managerCode == managerCode && h.custodianCode == custodianCode && h.start == start
    && (h.through.Some? ==> h.through.value.number <= block)
  }

  /** The owner's history was left as it was, or is up to date. */
  ghost predicate Renewed(before: seq<History>, after: seq<History>, manager: Address, owner: Address,
                          managerCode: Hash, custodianCode: Hash, start: Reference, block: nat) {
    forall i :: 0 <= i < |after| && after[i].manager == manager && after[i].custodian == owner ==>
      || (i < |before| && after[i] == before[i])
      || UpToDate(after[i], managerCode, custodianCode, start, block)
  }

  lemma OnlyKey(histories: seq<History>, i: nat, j: nat)
    requires DistinctKeys(histories) && i < |histories| && j < |histories| && SameKey(histories[i], histories[j])
    ensures i == j
  {
    assert SameKey(histories[j], histories[i]);
  }

  /** The owner has a history that is up to date and reaches the block. */
  ghost predicate Completed(histories: seq<History>, manager: Address, owner: Address, managerCode: Hash,
                            custodianCode: Hash, start: Reference, block: nat) {
    exists h :: h in histories && CompletedBy(h, manager, owner, managerCode, custodianCode, start, block)
  }

  ghost predicate CompletedBy(h: History, manager: Address, owner: Address, managerCode: Hash, custodianCode: Hash,
                              start: Reference, block: nat) {
    && h.manager == manager && h.custodian == owner && h.managerCode == managerCode
    && h.custodianCode == custodianCode && h.start == start && h.through.Some? && h.through.value.number == block
  }

  lemma SameAttempts(histories: seq<History>, manager: Address, owner: Address, codeHash: Hash, start: Reference,
                     block: nat, range: nat)
    ensures forall code: Hash, err: Option<Fault> ::
              AttemptsCounted(histories, histories, manager, owner, code, codeHash, start, block, range, err)
    ensures forall code: Hash :: Renewed(histories, histories, manager, owner, code, codeHash, start, block)
  {
    hide Continues;
  }

  /** What holds without an error holds after any later one, as reading approvals records nothing. */
  lemma AttemptsLater(before: seq<History>, after: seq<History>, manager: Address, owner: Address, managerCode: Hash,
                      custodianCode: Hash, start: Reference, block: nat, range: nat, err: Option<Fault>)
    requires |before| <= |after|
    requires AttemptsCounted(before, after, manager, owner, managerCode, custodianCode, start, block, range, None)
    ensures AttemptsCounted(before, after, manager, owner, managerCode, custodianCode, start, block, range, err)
  {
    hide Continues;
  }

  // ---------- Causes ----------

  lemma CancelledHere(s: Setting, own: seq<Call>)
    requires s.cancelled(s.begun + |own|)
    ensures FailedBy(s.cancelled, s.begun, own)
  {
  }

  lemma CallsSpent(s: Setting, histories: seq<History>, own: seq<Call>)
    requires |own| >= s.limits.maxCalls
    ensures BudgetBy(s.node, s.limits, s.block, histories, s.begun, own)
  {
  }

  lemma BytesSpent(s: Setting, histories: seq<History>, own: seq<Call>)
    requires Volume(s.node, s.begun, own) > s.limits.maxResponseBytes
    ensures BudgetBy(s.node, s.limits, s.block, histories, s.begun, own)
  {
  }

  lemma LogsSpent(s: Setting, histories: seq<History>, own: seq<Call>)
    requires LogTotal(own) > s.limits.maxLogs
    ensures BudgetBy(s.node, s.limits, s.block, histories, s.begun, own)
  {
  }

  /** A header was read before with another hash. */
  lemma ReadTwice(s: Setting, headers: map<nat, Hash>, own: seq<Call>, ref: Reference)
    requires HeadersRead(headers, own) && HeaderRead(ref) in own
    requires ref.number in headers && headers[ref.number] != ref.hash
    ensures ReorgBy(s.initial, s.starts, own)
  {
    assert Contradicts(s.initial, s.starts, own, ref, Reference(ref.number, headers[ref.number]));
  }

  /** The header of a known block was read with another hash. */
  lemma ReadOtherwise(s: Setting, headers: map<nat, Hash>, own: seq<Call>, ref: Reference)
    requires HeadersRead(headers, own) && Known(s.initial, s.starts, own, ref)
    requires ref.number in headers && headers[ref.number] != ref.hash
    ensures ReorgBy(s.initial, s.starts, own)
  {
    assert Contradicts(s.initial, s.starts, own, Reference(ref.number, headers[ref.number]), ref);
  }

  lemma HeaderCached(headers: map<nat, Hash>, own: seq<Call>, ref: Reference)
    requires HeadersRead(headers, own) && HeaderRead(ref) in own
    ensures HeadersRead(headers[ref.number := ref.hash], own)
  {
  }

  lemma StillKnown(s: Setting, own: seq<Call>, more: seq<Call>, ref: Reference)
    requires Known(s.initial, s.starts, own, ref) && own <= more
    ensures Known(s.initial, s.starts, more, ref)
  {
  }

  lemma LogsSizeNext(logs: seq<Log>, i: nat)
    requires i < |logs|
    ensures LogsSize(logs[..i+1]) == LogsSize(logs[..i]) + LogSize(logs[i]) && LogsSize(logs[..i+1]) <= LogsSize(logs)
    ensures logs[..|logs|] == logs
  {
    assert logs[..i+1][..i] == logs[..i];
    LogsSizePart(logs, i + 1);
  }

  lemma HeaderAnswer(node: Node, n: nat, number: nat)
    ensures var call := HeaderCall(number, HeaderAt(node, n, number));
            && GenuineAt(node, n, call) && SizeAt(node, n, call) == HEADER_SIZE
            && (call.header.None? || call.header.value.number != number ==> Unusable(call))
  {
  }

  lemma WordAnswer(node: Node, n: nat, at: Hash, manager: Address, owner: Address, operator: Address)
    ensures var call := ApprovalCall(at, manager, owner, operator, node.word(n, at, manager, owner, operator));
            && GenuineAt(node, n, call) && (call.word.None? ==> Unusable(call))
            && (call.word.Some? ==> SizeAt(node, n, call) == call.word.value.size)
  {
  }

  lemma LogsAnswer(node: Node, n: nat, manager: Address, owner: Address, from: nat, to: nat)
    ensures var call := LogsCall(manager, owner, from, to, node.logs(n, manager, owner, from, to));
            && GenuineAt(node, n, call) && (call.logs.None? ==> Unusable(call))
            && (call.logs.Some? ==> SizeAt(node, n, call) == LogsSize(call.logs.value))
  {
  }

  lemma Irregular(manager: Address, owner: Address, from: nat, to: nat, logs: seq<Log>, l: Log)
    requires l in logs && (l.removed || l.blockHash == 0 || l.txHash == 0 || l.block < from || l.block > to)
    ensures Unusable(LogsCall(manager, owner, from, to, Some(logs)))
  {
    assert !Regular(manager, owner, from, to, l);
  }

  lemma HistoriesSpent(s: Setting, histories: seq<History>, own: seq<Call>)
    requires |histories| >= s.limits.maxPositions
    ensures BudgetBy(s.node, s.limits, s.block, histories, s.begun, own)
  {
  }

  lemma OperatorsSpent(s: Setting, histories: seq<History>, own: seq<Call>, h: History, operators: seq<Address>,
                       call: Call)
    requires h in histories && call in own && call.LogsCall? && call.logs.Some?
    requires NoRepeats(operators) && |operators| > s.limits.maxLogs && NamedBy(operators, h, call.logs.value)
    ensures BudgetBy(s.node, s.limits, s.block, histories, s.begun, own)
  {
    assert TooMany(h, own, s.limits.maxLogs);
  }

  lemma ScanSpent(s: Setting, histories: seq<History>, own: seq<Call>, h: History)
    requires h in histories && TooLong(s.limits, s.block, h, |own|)
    ensures BudgetBy(s.node, s.limits, s.block, histories, s.begun, own)
  {
  }

  lemma TailKnown(s: Setting, own: seq<Call>, ref: Reference)
    requires HeaderRead(ref) in own
    ensures Known(s.initial, s.starts, own, ref)
  {
  }

  /** An event that does not fit its chunk cannot be used. */
  lemma NotFitting(s: Setting, own: seq<Call>, manager: Address, owner: Address, chunk: Chunk)
    requires LogsCall(manager, owner, chunk.from, chunk.to, Some(chunk.logs)) in own && HeaderRead(End(chunk)) in own
    requires exists i :: 0 <= i < |chunk.logs| && !Fits(manager, owner, chunk, chunk.logs[i])
    ensures FailedBy(s.cancelled, s.begun, own)
  {
    var i :| 0 <= i < |chunk.logs| && !Fits(manager, owner, chunk, chunk.logs[i]);
    InvalidEvent(s, own, manager, owner, chunk.from, chunk.to, chunk.hash, chunk.logs, chunk.logs[i]);
  }

  lemma WordUnusable(s: Setting, words: map<(Address, Address), Word>, own: seq<Call>, at: Hash, manager: Address,
                     key: (Address, Address))
    requires WordsRead(words, own, at, manager) && key in words && (words[key].size != 32 || words[key].value > 1)
    ensures FailedBy(s.cancelled, s.begun, own)
  {
    LastUnusable(s, own, ApprovalCall(at, manager, key.0, key.1, Some(words[key])));
  }

  class Evaluation {
    const rank: Address -> nat
    const node: Node
    const limits: Limits
    const manager: Address
    const blockNumber: nat
    const blockHash: Hash
    const starts: map<Address, Reference>
    const cancelled: nat -> bool
    ghost const begun: nat
    ghost const initial: seq<History>
    var err: Option<Fault>
    var calls: nat
    var bytes: nat
    var logCount: nat
    var headers: map<nat, Hash>
    var codes: map<Address, Hash>
    var words: map<(Address, Address), Word>
    var checks: map<Address, bool>
    var histories: seq<History>
    ghost var scans: seq<seq<Chunk>>
    var trace: seq<Call>

    function StartOf(owner: Address): Reference { StartIn(starts, owner) }

    ghost function Here(): Setting { Setting(node, begun, limits, blockNumber, starts, initial, cancelled) }

    ghost predicate Proper() {
      && manager != 0 && blockNumber <= MAX_UINT64 && limits.logBlockRange > 0
      && forall o :: o in starts ==> (starts[o].number == 0 <==> starts[o].hash == 0)
    }

    /** The calls of this evaluation. */
    ghost function Own(): seq<Call>
      reads `trace
      requires begun <= |trace|
    { trace[begun..] }

    /** What was learnt and is kept. */
    ghost predicate Holds()
      reads `trace, `histories, `scans, `codes, `words
    {
      && Proper() && Sound(histories, scans, trace) && Genuine(node, trace) && Endings(histories, blockNumber)
      && begun <= |trace| && CodesRead(codes, Own()) && WordsRead(words, Own(), blockHash, manager)
    }

    /** What the verdicts rest on. */
    ghost predicate Judged()
      reads `err, `checks, `histories, `words
    {
      && (err.None? ==> ClearsSettled(checks, histories, words, manager, starts, blockNumber))
      && ActivesApproved(checks, words)
    }

    ghost predicate Cached()
      reads `headers, `codes
    { NonZero(headers) && NonZero(codes) }

    /** The counters do not exceed what the calls of the evaluation, of which there are this many,
        account for, and what is compared with headers is known. */
    ghost predicate Metered(made: nat)
      reads `trace, `histories, `bytes, `logCount, `headers
    {
      && begun + made == |trace|
      && bytes <= Volume(node, begun, Own()) && logCount <= LogTotal(Own())
      && ThroughsKnown(Here(), histories, Own()) && HeadersRead(headers, Own())
    }

    /** A fault has its cause. */
    ghost predicate Caused()
      reads `err, `trace, `histories, `scans
    {
      begun <= |trace| && FaultFrom(Here(), histories, err, Own()) && (err == Some(Reorg) ==> scans == [])
    }

    /** The calls keep to their limit, and the answers to theirs as long as there is no fault. */
    ghost predicate Within()
      reads `err, `trace, `calls, `bytes, `logCount
    {
      && calls <= limits.maxCalls && begun <= |trace|
      && (err.None? ==>
            && Volume(node, begun, Own()) == bytes <= limits.maxResponseBytes
            && LogTotal(Own()) == logCount <= limits.maxLogs)
    }

    ghost predicate Valid()
      reads this
    { Holds() && Judged() && Cached() && Metered(calls) && Caused() && Within() }

    constructor (rank: Address -> nat, node: Node, limits: Limits, manager: Address, blockNumber: nat, blockHash: Hash,
                 starts: map<Address, Reference>, cancelled: nat -> bool,
                 histories: seq<History>, ghost scans: seq<seq<Chunk>>, trace: seq<Call>)
      requires manager != 0 && blockNumber <= MAX_UINT64 && limits.logBlockRange > 0
      requires forall o :: o in starts ==> (starts[o].number == 0 <==> starts[o].hash == 0)
      requires Sound(histories, scans, trace) && Restorable(histories) && Genuine(node, trace)
      ensures Valid() && err.None? && checks == map[] && calls == 0
      ensures this.rank == rank && this.manager == manager && this.blockHash == blockHash
      ensures Here() == Setting(node, |trace|, limits, blockNumber, starts, histories, cancelled)
      ensures this.histories == histories && this.scans == scans && this.trace == trace
    {
      this.rank, this.node, this.limits, this.manager, this.starts := rank, node, limits, manager, starts;
      this.blockNumber, this.blockHash, this.cancelled := blockNumber, blockHash, cancelled;
      this.begun, this.initial := |trace|, histories;
      this.err, this.calls, this.bytes, this.logCount := None, 0, 0, 0;
      this.headers, this.codes, this.words, this.checks := map[], map[], map[], map[];
      this.histories, this.scans, this.trace := histories, scans, trace;
    }

    /** Counts one more call, unless the evaluation is over. */
    method Attempt() returns (ok: bool)
      requires Metered(calls) && Caused() && Judged()
      modifies `err, `calls
      ensures ok ==> old(err).None? && err.None? && calls == old(calls) + 1 && Metered(old(calls)) && Judged()
      ensures ok ==> calls <= limits.maxCalls
      ensures !ok ==> err.Some? && calls == old(calls) && Metered(calls) && Caused() && Judged()
      ensures !ok ==> if old(err).Some? then err == old(err) else err == Some(Failed) || err == Some(Budget)
    {
      hide Volume, LogTotal, ThroughsKnown, HeadersRead, FailedBy, BudgetBy, ReorgBy, ClearsSettled, ActivesApproved;
      if err.Some? { return false; }
      if cancelled(|trace|) {
        CancelledHere(Here(), Own());
        err := Some(Failed);
        return false;
      }
      if calls >= limits.maxCalls {
        CallsSpent(Here(), histories, Own());
        err := Some(Budget);
        return false;
      }
      calls := calls + 1;
      return true;
    }

    /** The node answered a call. */
    method Record(call: Call)
      requires Holds() && err.None? && calls > 0 && Metered(calls - 1) && GenuineAt(node, |trace|, call)
      modifies `trace
      ensures trace == old(trace) + [call] && Holds() && Metered(calls) && Caused()
      ensures Own() == old(Own()) + [call] && call in Own()
      ensures bytes + SizeAt(node, |old(trace)|, call) <= Volume(node, begun, Own())
      ensures logCount + LogCount(call) <= LogTotal(Own())
      ensures Volume(node, begun, Own()) == Volume(node, begun, old(Own())) + SizeAt(node, |old(trace)|, call)
      ensures LogTotal(Own()) == LogTotal(old(Own())) + LogCount(call)
    {
      hide Volume, LogTotal, ThroughsKnown, HeadersRead, SizeAt, LogCount, GenuineAt,
           Sound, Genuine, CodesRead, WordsRead, Proper, Endings;
      OneCall(node, histories, scans, trace, begun, codes, words, blockHash, manager, call);
      OneOwnCall(Here(), histories, headers, Own(), call);
      trace := trace + [call];
      assert Own()[|Own()|-1] == call;
    }

    /** The size of an answer is counted. */
    method Response(size: nat)
      requires Metered(calls) && Caused() && Judged() && bytes + size <= Volume(node, begun, Own())
      modifies `err, `bytes
      ensures bytes == old(bytes) + size && Metered(calls) && Caused() && Judged()
      ensures err == old(err) || (old(err).None? && err == Some(Budget))
      ensures err.None? ==> bytes <= limits.maxResponseBytes
    {
      hide Volume, LogTotal, ThroughsKnown, HeadersRead, FailedBy, BudgetBy, ReorgBy, ClearsSettled, ActivesApproved;
      bytes := bytes + size;
      if bytes > limits.maxResponseBytes && err.None? {
        BytesSpent(Here(), histories, Own());
        err := Some(Budget);
      }
    }

    /** Ends the evaluation with a fault that has its cause. */
    method Stop(fault: Fault)
      requires Metered(calls) && Judged() && fault != Reorg
      requires begun <= |trace| && FaultFrom(Here(), histories, Some(fault), Own())
      modifies `err
      ensures err == Some(fault) && Caused() && Judged()
    {
      hide FaultFrom, Metered, ClearsSettled, ActivesApproved;
      err := Some(fault);
    }

    /** A call was answered by something that cannot be used. */
    method StopAt(ghost call: Call)
      requires Metered(calls) && Judged() && begun <= |trace| && call in Own() && Unusable(call)
      modifies `err
      ensures err == Some(Failed) && Caused() && Judged()
    {
      hide Metered, Judged, Caused, Unusable;
      LastUnusable(Here(), Own(), call);
      Stop(Failed);
    }

    method InvalidateEvidence()
      requires Holds() && Metered(calls) && Judged() && ReorgBy(initial, starts, Own())
      modifies `err, `histories, `scans
      ensures histories == [] && scans == [] && err == Some(Reorg)
      ensures Holds() && Metered(calls) && Judged() && Caused()
    {
      hide Volume, LogTotal, HeadersRead, ReorgBy, Genuine, CodesRead, WordsRead, ClearsSettled, ActivesApproved,
           Proper;
      histories, scans, err := [], [], Some(Reorg);
    }

    method CacheHeader(ref: Reference)
      requires Metered(calls) && Cached() && ref.hash != 0 && HeaderRead(ref) in Own()
      modifies `headers
      ensures headers == old(headers)[ref.number := ref.hash] && Metered(calls) && Cached()
    {
      hide Volume, LogTotal, ThroughsKnown, HeadersRead;
      HeaderCached(headers, Own(), ref);
      headers := headers[ref.number := ref.hash];
    }

    /** Either nothing happened to the evidence, or a reorganisation emptied it. */
    twostate predicate KeptOrEmptied()
      reads this
    {
      || (histories == old(histories) && scans == old(scans))
      || (histories == [] && scans == [] && err == Some(Reorg))
    }

    method Block(number: nat, refresh: bool) returns (h: Option<Hash>)
      requires Valid()
      modifies `err, `calls, `bytes, `headers, `histories, `scans, `trace
      ensures Valid() && KeptOrEmptied() && old(calls) <= calls && old(trace) <= trace
      ensures old(err).Some? ==> err == old(err)
      ensures old(err).None? && err.Some? ==> Acquisition()
      ensures h.None? ==> err.Some?
      ensures h.Some? ==> h.value != 0 && histories == old(histories) && scans == old(scans)
      ensures h.Some? ==> number in headers && headers[number] == h.value
      ensures h.Some? && refresh ==> trace == old(trace) + [HeaderRead(Reference(number, h.value))]
      ensures h.Some? && number in old(headers) ==> h.value == old(headers)[number]
      ensures forall n :: n in old(headers) ==> n in headers && headers[n] == old(headers)[n]
    {
      hide Holds, Judged, Caused, Metered, Volume, LogTotal, FaultFrom, Unusable, GenuineAt, ReorgBy;
      CallsMade();
      if number in headers && !refresh { return Some(headers[number]); }
      var ok := Attempt();
      if !ok { return None; }
      var answer := HeaderAt(node, |trace|, number);
      var call := HeaderCall(number, answer);
      HeaderAnswer(node, |trace|, number);
      Record(call);
      if answer.None? || answer.value.number != number {
        StopAt(call);
        return None;
      }
      Response(HEADER_SIZE);
      var ref := answer.value;
      assert call == HeaderRead(ref);
      if number in headers && headers[number] != ref.hash {
        SeenTwice(ref);
        InvalidateEvidence();
        return None;
      }
      CacheHeader(ref);
      return Some(ref.hash);
    }

    lemma SeenTwice(ref: Reference)
      requires Metered(calls) && HeaderRead(ref) in Own()
      requires ref.number in headers && headers[ref.number] != ref.hash
      ensures ReorgBy(initial, starts, Own())
    {
      hide Volume, LogTotal, ThroughsKnown, HeadersRead, ReorgBy;
      ReadTwice(Here(), headers, Own(), ref);
    }

    lemma SeenOtherwise(before: seq<Call>, ref: Reference)
      requires Metered(calls) && before <= Own() && Known(initial, starts, before, ref)
      requires ref.number in headers && headers[ref.number] != ref.hash
      ensures ReorgBy(initial, starts, Own())
    {
      hide Volume, LogTotal, ThroughsKnown, HeadersRead, ReorgBy, Known;
      StillKnown(Here(), before, Own(), ref);
      ReadOtherwise(Here(), headers, Own(), ref);
    }

    method CheckCanonical(ref: Reference, refresh: bool) returns (ok: bool)
      requires Valid() && Known(initial, starts, Own(), ref)
      modifies `err, `calls, `bytes, `headers, `histories, `scans, `trace
      ensures Valid() && KeptOrEmptied() && old(calls) <= calls && old(trace) <= trace
      ensures old(err).Some? ==> !ok
      ensures old(err).None? && err.Some? ==> Acquisition()
      ensures ok ==> err.None? && histories == old(histories) && scans == old(scans)
      ensures ok ==> ref.number in headers && headers[ref.number] == ref.hash
      ensures ok && refresh ==> trace == old(trace) + [HeaderRead(ref)]
      ensures !ok ==> err.Some?
      ensures forall n :: n in old(headers) ==> n in headers && headers[n] == old(headers)[n]
    {
      hide Holds, Judged, Cached, Caused, Metered, ReorgBy, Known;
      TraceBegun();
      ghost var before := Own();
      var h := Block(ref.number, refresh);
      if h.None? { return false; }
      if h.value != ref.hash {
        SeenOtherwise(before, ref);
        InvalidateEvidence();
        return false;
      }
      return err.None?;
    }

    method StopAtLogs()
      requires Metered(calls) && Judged() && begun <= |trace| && LogTotal(Own()) > limits.maxLogs
      modifies `err
      ensures err == Some(Budget) && Caused() && Judged()
    {
      hide Metered, Judged, Caused, LogTotal, BudgetBy;
      LogsSpent(Here(), histories, Own());
      Stop(Budget);
    }

    method CountLogs(count: nat)
      requires Metered(calls) && logCount + count <= LogTotal(Own())
      modifies `logCount
      ensures logCount == old(logCount) + count && Metered(calls)
    {
      hide Volume, LogTotal, ThroughsKnown, HeadersRead;
      logCount := logCount + count;
    }

    /** The approval events of the owner in a range; they are returned even when their size exceeds
        the budget. */
    method Logs(owner: Address, from: nat, to: nat) returns (logs: seq<Log>)
      requires Valid()
      modifies `err, `calls, `bytes, `logCount, `trace
      ensures Valid() && old(calls) <= calls && old(trace) <= trace
      ensures old(err).Some? ==> err == old(err) && logs == []
      ensures old(err).None? && err.Some? ==> Acquisition() && err != Some(Reorg)
      ensures err.None? ==> trace == old(trace) + [LogsCall(manager, owner, from, to, Some(logs))]
      ensures logs != [] ==> LogsCall(manager, owner, from, to, Some(logs)) in Own()
      ensures forall i :: 0 <= i < |logs| ==>
                !logs[i].removed && logs[i].blockHash != 0 && logs[i].txHash != 0 && from <= logs[i].block <= to
    {
      hide Holds, Judged, Cached, Caused, Metered, Volume, LogTotal, LogsSize, FaultFrom, Unusable, GenuineAt;
      CallsMade();
      var ok := Attempt();
      if !ok { return []; }
      var answer := node.logs(|trace|, manager, owner, from, to);
      var call := LogsCall(manager, owner, from, to, answer);
      LogsAnswer(node, |trace|, manager, owner, from, to);
      Record(call);
      if answer.None? {
        StopAt(call);
        return [];
      }
      logs := answer.value;
      if |logs| + logCount > limits.maxLogs {
        StopAtLogs();
        return [];
      }
      CountLogs(|logs|);
      var valid := CheckLogs(owner, from, to, logs);
      if !valid { return []; }
    }

    /** Counts the size of each log and whether it is live and in range. */
    method CheckLogs(owner: Address, from: nat, to: nat, logs: seq<Log>) returns (valid: bool)
      requires Metered(calls) && Judged() && Caused() && err.None?
      requires LogsCall(manager, owner, from, to, Some(logs)) in Own()
      requires bytes + LogsSize(logs) <= Volume(node, begun, Own()) && bytes <= limits.maxResponseBytes
      modifies `err, `bytes
      ensures Metered(calls) && Judged() && Caused()
      ensures valid ==> bytes == old(bytes) + LogsSize(logs)
      ensures err.None? ==> bytes <= limits.maxResponseBytes
      ensures if valid then err.None? || err == Some(Budget) else err == Some(Failed)
      ensures valid ==> forall i :: 0 <= i < |logs| ==>
                !logs[i].removed && logs[i].blockHash != 0 && logs[i].txHash != 0 && from <= logs[i].block <= to
    {
      hide Judged, Caused, Metered, LogSize, Volume;
      ghost var size, call := bytes, LogsCall(manager, owner, from, to, Some(logs));
      assert logs[..0] == [];
      for i := 0 to |logs|
        invariant forall k :: 0 <= k < i ==>
          !logs[k].removed && logs[k].blockHash != 0 && logs[k].txHash != 0 && from <= logs[k].block <= to
        invariant err.None? || err == Some(Budget)
        invariant bytes == size + LogsSize(logs[..i])
        invariant err.None? ==> bytes <= limits.maxResponseBytes
        invariant Metered(calls) && Judged() && Caused()
      {
        var l := logs[i];
        LogsSizeNext(logs, i);
        Response(LogSize(l));
        if l.removed || l.blockHash == 0 || l.txHash == 0 || l.block < from || l.block > to {
          Irregular(manager, owner, from, to, logs, l);
          StopAt(call);
          return false;
        }
      }
      assert logs[..|logs|] == logs;
      return true;
    }

    method CacheCode(address: Address, code: Hash)
      requires Holds() && Cached() && code != 0 && CodeCall(address, Some(code)) in Own()
      modifies `codes
      ensures codes == old(codes)[address := code] && Holds() && Cached()
    {
      hide Sound, Genuine, CodesRead, WordsRead, Proper, Endings;
      OneCode(codes, Own(), address, code);
      codes := codes[address := code];
    }

    method Code(address: Address) returns (code: Hash)
      requires Valid()
      modifies `err, `calls, `bytes, `codes, `trace
      ensures Valid() && old(calls) <= calls && old(trace) <= trace
      ensures old(err).Some? ==> err.Some?
      ensures err.None? ==> address in codes && codes[address] == code && code != 0
    {
      hide Holds, Judged, Caused, Metered, Volume, LogTotal, FaultFrom;
      CallsMade();
      if address in codes { return codes[address]; }
      var ok := Attempt();
      if !ok { return 0; }
      var answer := CodeAt(node, |trace|, address);
      var call := CodeCall(address, CodeHash(answer));
      Record(call);
      if answer.None? {
        StopAt(call);
        return 0;
      }
      Response(answer.value.1);
      code := answer.value.0;
      CacheCode(address, code);
    }

    method CacheWord(owner: Address, operator: Address, word: Word)
      requires Holds() && Judged() && (owner, operator) !in words
      requires ApprovalCall(blockHash, manager, owner, operator, Some(word)) in Own()
      modifies `words
      ensures words == old(words)[(owner, operator) := word] && Holds() && Judged()
    {
      hide Sound, Genuine, CodesRead, WordsRead, Proper, Endings, ClearsSettled, ActivesApproved;
      OneWord(words, Own(), blockHash, manager, owner, operator, word);
      MoreWords(checks, histories, words, words[(owner, operator) := word], manager, starts, blockNumber);
      words := words[(owner, operator) := word];
    }

    /** Whether the operator is approved at the observed block, as the contract's word. */
    method Approved(owner: Address, operator: Address) returns (value: nat)
      requires Valid() && err.None?
      modifies `err, `calls, `bytes, `words, `trace
      ensures Valid() && old(trace) <= trace
      ensures forall k :: k in old(words) ==> k in words && words[k] == old(words)[k]
      ensures err.None? ==> (owner, operator) in words && words[(owner, operator)] == Word(32, value)
    {
      hide Holds, Judged, Cached, Caused, Metered, Volume, LogTotal, FaultFrom, Unusable, GenuineAt;
      CallsMade();
      var key := (owner, operator);
      if key !in words {
        var ok := Attempt();
        if !ok { return 0; }
        var answer := node.word(|trace|, blockHash, manager, owner, operator);
        var call := ApprovalCall(blockHash, manager, owner, operator, answer);
        WordAnswer(node, |trace|, blockHash, manager, owner, operator);
        Record(call);
        if answer.None? {
          StopAt(call);
          return 0;
        }
        Response(answer.value.size);
        CacheWord(owner, operator, answer.value);
      }
      if err.Some? { return 0; }
      if words[key].size != 32 {
        StopAtWord(key);
        return 0;
      }
      return words[key].value;
    }

    /** A word has another size, or is neither zero nor one. */
    method StopAtWord(key: (Address, Address))
      requires Holds() && Judged() && Metered(calls) && key in words && (words[key].size != 32 || words[key].value > 1)
      modifies `err
      ensures err == Some(Failed) && Judged() && Caused()
    {
      hide Judged, Caused, Metered, Sound, Genuine, CodesRead, WordsRead, Proper, Endings;
      WordUnusable(Here(), words, Own(), blockHash, manager, key);
      Stop(Failed);
    }

    /** Stores other histories, whose checkpoints are known. */
    method Store(list: seq<History>, ghost chunks: seq<seq<Chunk>>)
      requires Holds() && Judged() && Metered(calls) && Caused() && (err.None? || err == Some(Failed))
      requires Sound(list, chunks, trace) && Endings(list, blockNumber)
      requires err.None? ==> ClearsSettled(checks, list, words, manager, starts, blockNumber)
      requires forall h :: h in list && h.through.Some? ==>
                 h in histories || Known(initial, starts, Own(), h.through.value)
      modifies `histories, `scans
      ensures histories == list && scans == chunks && Holds() && Judged() && Metered(calls) && Caused()
    {
      hide Sound, Genuine, CodesRead, WordsRead, ClearsSettled, ActivesApproved, Proper, Endings,
           Volume, LogTotal, HeadersRead, FailedBy, Known;
      histories, scans := list, chunks;
    }

    /** A call of the trace since the evaluation began is one of its own. */
    lemma OwnCall(before: seq<Call>, made: seq<Call>, call: Call)
      requires begun <= |before| && before + made <= trace && call in made
      ensures call in Own()
    {
      var i :| 0 <= i < |made| && made[i] == call;
      assert trace[|before| + i] == (before + made)[|before| + i] == call;
      assert Own()[|before| + i - begun] == call;
    }

    /** A fault of an acquisition. */
    ghost predicate Acquisition()
      reads `err
    { err == Some(Failed) || err == Some(Budget) || err == Some(Reorg) }

    lemma EmptiedByReorg()
      requires Caused() && err == Some(Reorg)
      ensures histories == [] && scans == []
    {
    }

    lemma Checkpoint(h: History)
      requires Metered(calls) && h in histories && h.through.Some?
      ensures Known(initial, starts, Own(), h.through.value)
    {
    }

    lemma CallsMade()
      requires Metered(calls)
      ensures |Own()| == calls
    {
    }

    lemma TraceBegun()
      requires Metered(calls)
      ensures begun <= |trace|
    {
    }

    /** The operators of a chunk's logs, provided each log is an approval event that fits it. */
    method Operators(owner: Address, logs: seq<Log>, to: nat, tail: Hash, ghost chunk: Chunk)
      returns (operators: seq<Address>, valid: bool)
      requires chunk.logs == logs && chunk.to == to && chunk.hash == tail
      requires forall i :: 0 <= i < |logs| ==>
        !logs[i].removed && logs[i].blockHash != 0 && logs[i].txHash != 0 && chunk.from <= logs[i].block <= to
      ensures valid <==> forall i :: 0 <= i < |logs| ==> Fits(manager, owner, chunk, logs[i])
      ensures valid ==> forall a :: a in operators <==> InLogs(a, logs)
    {
      operators, valid := [], true;
      for i := 0 to |logs|
        invariant |operators| == i && forall k :: 0 <= k < i ==> operators[k] == Operator(logs[k])
        invariant forall k :: 0 <= k < i ==> Fits(manager, owner, chunk, logs[k])
      {
        var l := logs[i];
        if !ApprovalEvent(manager, owner, l) || (l.block == to && l.blockHash != tail) {
          assert !Fits(manager, owner, chunk, logs[i]);
          return [], false;
        }
        operators := operators + [l.topics[2]];
      }
      forall a
        ensures a in operators <==> InLogs(a, logs)
      {
        if InLogs(a, logs) {
          var j :| 0 <= j < |logs| && Operator(logs[j]) == a;
          assert operators[j] == a;
        }
      }
    }

    /** A returned event does not fit the chunk. */
    method StopAtEvent(owner: Address, ghost chunk: Chunk)
      requires Metered(calls) && Judged() && begun <= |trace|
      requires LogsCall(manager, owner, chunk.from, chunk.to, Some(chunk.logs)) in Own()
      requires HeaderRead(End(chunk)) in Own()
      requires exists i :: 0 <= i < |chunk.logs| && !Fits(manager, owner, chunk, chunk.logs[i])
      modifies `err
      ensures err == Some(Failed) && Caused() && Judged()
    {
      hide Metered, Judged, Caused, Fits, FailedBy;
      NotFitting(Here(), Own(), manager, owner, chunk);
      Stop(Failed);
    }

    /** Reads the approval events of a chunk whose last header was read. */
    method Events(owner: Address, from: nat, to: nat, tail: Hash, anchor: Option<Reference>)
      returns (operators: seq<Address>, ghost chunk: Chunk)
      requires Valid() && HeaderRead(Reference(to, tail)) in Own()
      modifies `err, `calls, `bytes, `logCount, `trace
      ensures Valid() && old(calls) <= calls && old(trace) <= trace
      ensures old(err).Some? ==> err == old(err)
      ensures old(err).None? && err.Some? ==> Acquisition() && err != Some(Reorg)
      ensures err.None? ==>
        && chunk == Chunk(from, to, tail, anchor, chunk.logs)
        && trace == old(trace) + [LogsCall(manager, owner, from, to, Some(chunk.logs))]
        && (forall i :: 0 <= i < |chunk.logs| ==> Fits(manager, owner, chunk, chunk.logs[i]))
        && forall a :: a in operators <==> InLogs(a, chunk.logs)
    {
      hide Holds, Judged, Cached, Metered, Caused, Fits, InLogs;
      TraceBegun();
      ghost var own := Own();
      var logs := Logs(owner, from, to);
      chunk := Chunk(from, to, tail, anchor, logs);
      var valid;
      operators, valid := Operators(owner, logs, to, tail, chunk);
      // An invalid event takes the place of an exceeded budget.
      if !valid {
        assert own <= Own();
        StopAtEvent(owner, chunk);
      }
    }

    /** Acquires one chunk: its last header, its logs, its anchor, and its last header again. */
    method Acquire(owner: Address, from: nat, to: nat, anchor: Option<Reference>)
      returns (operators: seq<Address>, tail: Hash, ghost chunk: Chunk)
      requires Valid() && err.None? && from <= to && (anchor.Some? ==> Known(initial, starts, Own(), anchor.value))
      modifies `err, `calls, `bytes, `logCount, `headers, `histories, `scans, `trace
      ensures Valid() && KeptOrEmptied() && old(calls) <= calls && old(trace) <= trace
      ensures err.Some? ==> Acquisition()
      ensures err.None? ==>
        && HeaderRead(Reference(to, tail)) in Own() && LogsCall(manager, owner, from, to, Some(chunk.logs)) in Own()
      ensures err.None? ==>
        && histories == old(histories) && scans == old(scans)
        && chunk.from == from && chunk.to == to && chunk.hash == tail != 0 && chunk.anchor == anchor
        && Scanned(manager, owner, chunk, trace)
        && trace == old(trace) + Accepting(manager, owner, chunk)
        && forall a :: a in operators <==> InLogs(a, chunk.logs)
    {
      hide Holds, Judged, Cached, Metered, Caused, Fits, InLogs, Scanned, Accepting, Known, Proper;
      operators, tail, chunk := [], 0, Chunk(from, to, 0, anchor, []);
      TraceBegun();
      ghost var was, known := trace, Own();
      var before := Block(to, true);
      if before.None? { return; }
      tail := before.value;
      ghost var first := HeaderRead(Reference(to, tail));
      OwnCall(was, [first], first);
      operators, chunk := Events(owner, from, to, tail, anchor);
      if err.Some? { return; }
      Recheck(anchor, Reference(to, tail), known);
      if err.None? { Accepted(owner, chunk, was); }
    }

    /** Checks the anchor of a chunk, and reads its last header again. */
    method Recheck(anchor: Option<Reference>, tail: Reference, ghost known: seq<Call>)
      requires Valid() && err.None? && known <= Own() && (anchor.Some? ==> Known(initial, starts, known, anchor.value))
      requires tail.number in headers && headers[tail.number] == tail.hash
      modifies `err, `calls, `bytes, `headers, `histories, `scans, `trace
      ensures Valid() && KeptOrEmptied() && old(calls) <= calls && old(trace) <= trace
      ensures err.Some? ==> Acquisition()
      ensures err.None? ==>
        && histories == old(histories) && scans == old(scans)
        && trace == old(trace) + (if anchor.Some? then [HeaderRead(anchor.value)] else []) + [HeaderRead(tail)]
    {
      hide Holds, Judged, Cached, Metered, Caused, Known;
      TraceBegun();
      if anchor.Some? {
        StillKnown(Here(), known, Own(), anchor.value);
        var same := CheckCanonical(anchor.value, true);
        if !same { return; }
      } else {
        assert trace == trace + [];
      }
      var again := Block(tail.number, true);
    }

    /** The calls since then accept the chunk. */
    lemma Accepted(owner: Address, c: Chunk, was: seq<Call>)
      requires begun <= |was| && c.from <= c.to && forall i :: 0 <= i < |c.logs| ==> Fits(manager, owner, c, c.logs[i])
      requires trace == was + [HeaderRead(End(c))] + [LogsCall(manager, owner, c.from, c.to, Some(c.logs))]
                        + (if c.anchor.Some? then [HeaderRead(c.anchor.value)] else []) + [HeaderRead(End(c))]
      ensures Scanned(manager, owner, c, trace) && trace == was + Accepting(manager, owner, c)
      ensures HeaderRead(End(c)) in Own() && LogsCall(manager, owner, c.from, c.to, Some(c.logs)) in Own()
    {
      hide Fits, Scanned, Accepting;
      AcceptedChunk(manager, owner, c, was);
      OwnCall(was, [HeaderRead(End(c))], HeaderRead(End(c)));
      OwnCall(was, [HeaderRead(End(c)), LogsCall(manager, owner, c.from, c.to, Some(c.logs))],
              LogsCall(manager, owner, c.from, c.to, Some(c.logs)));
    }

    /** The history is a retained or new one of the owner, ready to be continued to the block. */
    ghost predicate Current(index: nat, h: History, owner: Address, codeHash: Hash)
      reads this
    {
      && index < |histories| && histories[index] == h
      && h.manager == manager && h.custodian == owner
      && manager in codes && Continues(h, codes[manager], codeHash, StartOf(owner), blockNumber)
    }

    /** The position of the owner's history, or the length of the list. */
    method Find(owner: Address) returns (index: nat)
      requires DistinctKeys(histories)
      ensures index <= |histories|
      ensures forall i :: 0 <= i < |histories| ==>
                (i == index <==> histories[i].manager == manager && histories[i].custodian == owner)
    {
      index := 0;
      while index < |histories| && !(histories[index].manager == manager && histories[index].custodian == owner)
        invariant index <= |histories|
        invariant forall i :: 0 <= i < index ==> !(histories[i].manager == manager && histories[i].custodian == owner)
      {
        index := index + 1;
      }
      assert index < |histories| ==> forall i :: index < i < |histories| ==> !SameKey(histories[index], histories[i]);
    }

    /** Finds the history to continue, or begins a new one in its place. */
    method Open(owner: Address, codeHash: Hash) returns (ok: bool, index: nat, h: History)
      requires Valid() && err.None? && owner != 0 && codeHash != 0 && owner !in checks
      modifies `err, `calls, `bytes, `headers, `codes, `histories, `scans, `trace
      ensures Valid() && old(trace) <= trace
      ensures ok ==> err.None? && Current(index, h, owner, codeHash)
      ensures !ok ==> err.Some? && KeptOrEmptied()
      ensures ok ==> OthersKept(old(histories), histories, old(scans), scans, manager, owner)
      ensures ok ==> Resumed(old(histories), old(scans), scans, manager, owner, codes[manager], codeHash,
                             StartOf(owner), blockNumber)
      ensures ok ==> forall i ::
                0 <= i < |old(histories)|
                && old(histories)[i].manager == manager && old(histories)[i].custodian == owner
                && Continues(old(histories)[i], codes[manager], codeHash, StartOf(owner), blockNumber) ==>
                  i == index && old(histories)[i] == h
    {
      hide Metered, Caused, Sound, Genuine, CodesRead, WordsRead, ClearsSettled, ActivesApproved, Backed, DistinctKeys,
           BudgetBy, Known, Volume, LogTotal, NonZero;
      SoundKeys(histories, scans, trace);
      ok, index := false, 0;
      var start := StartOf(owner);
      h := History(manager, owner, 1, codeHash, start, None, [], None);
      var managerCode := Code(manager);
      if err.Some? { return; }
      h := History(manager, owner, managerCode, codeHash, start, None, [], None);
      index := Find(owner);
      var found := index < |histories|;
      if found && Continues(histories[index], managerCode, codeHash, start, blockNumber) {
        h := histories[index];
      }
      if h.through.Some? {
        Checkpoint(h);
        var same := CheckCanonical(h.through.value, false);
        if !same { return; }
      }
      if !found {
        if |histories| >= limits.maxPositions {
          HistoriesSpent(Here(), histories, Own());
          Stop(Budget);
          return;
        }
        SoundAppend(histories, scans, trace, h);
        OtherHistory(checks, histories, histories + [h], words, manager, starts, blockNumber, owner);
        Store(histories + [h], scans + [[]]);
      } else if histories[index] != h {
        BackedNew(h, trace);
        SoundReplace(histories, scans, trace, index, h, []);
        OtherHistory(checks, histories, histories[index := h], words, manager, starts, blockNumber, owner);
        Store(histories[index := h], scans[index := []]);
      }
      ok := true;
    }

    /** Only the history at the index changed, and it kept its identity and all its chunks. */
    ghost predicate Grown(index: nat, before: seq<History>, beforeScans: seq<seq<Chunk>>)
      reads this
      requires |before| == |beforeScans| && index < |before|
    {
      && |histories| == |scans| == |before|
      && (forall i :: 0 <= i < |before| && i != index ==> histories[i] == before[i] && scans[i] == beforeScans[i])
      && histories[index] == before[index].(through := histories[index].through,
                                            operators := histories[index].operators,
                                            failure := histories[index].failure)
      && beforeScans[index] <= scans[index]
    }

    ghost predicate Emptied()
      reads this
    { histories == [] && scans == [] && err == Some(Reorg) }

    /** Merges the new operators into the old ones, without repeats, in the order of their texts. */
    method Merge(old_: seq<Address>, more: seq<Address>) returns (operators: seq<Address>)
      ensures NoRepeats(operators) && Sorted(rank, operators)
      ensures forall a :: a in operators <==> a in old_ || a in more
    {
      operators := [];
      for i := 0 to |old_|
        invariant NoRepeats(operators) && Sorted(rank, operators)
        invariant forall a :: a in operators <==> a in old_[..i]
      {
        InsertIs(rank, operators, old_[i]);
        if old_[i] !in operators { operators := Insert(rank, operators, old_[i]); }
      }
      for i := 0 to |more|
        invariant NoRepeats(operators) && Sorted(rank, operators)
        invariant forall a :: a in operators <==> a in old_ || a in more[..i]
      {
        InsertIs(rank, operators, more[i]);
        if more[i] !in operators { operators := Insert(rank, operators, more[i]); }
      }
    }

    /** Replaces the history at the index by one with the same key. */
    method Save(index: nat, h: History, ghost chunks: seq<Chunk>, owner: Address)
      requires Valid() && owner !in checks
      requires index < |histories| ==>
        && SameKey(h, histories[index]) && h.custodian == owner
        && Identified(h) && Shaped(h) && Backed(h, chunks, trace)
        && (h.through.Some? ==>
              && h.through.value.number <= blockNumber
              && (h.through == histories[index].through || Known(initial, starts, Own(), h.through.value)))
        && (err.None? || err == Some(Failed))
      modifies `histories, `scans
      ensures Valid()
      ensures index < |old(histories)| ==>
                histories == old(histories)[index := h] && scans == old(scans)[index := chunks]
      ensures index >= |old(histories)| ==> histories == old(histories) && scans == old(scans)
    {
      hide Metered, Caused, Sound, Genuine, CodesRead, WordsRead, ClearsSettled, ActivesApproved, Proper, Backed,
           Shaped, Identified;
      SoundKeys(histories, scans, trace);
      if index < |histories| {
        SoundReplace(histories, scans, trace, index, h, chunks);
        if err.None? {
          OtherHistory(checks, histories, histories[index := h], words, manager, starts, blockNumber, owner);
        }
        SameCheckpoint(index, h);
        Store(histories[index := h], scans[index := chunks]);
      }
    }

    /** The checkpoint of a history in the list is known, and so is that of a history that shares it. */
    lemma SameCheckpoint(index: nat, h: History)
      requires Metered(calls) && index < |histories|
      ensures h.through == histories[index].through && h.through.Some? ==>
                Known(initial, starts, Own(), h.through.value)
      ensures forall g :: g in histories[index := h] ==> g == h || g in histories
    {
      hide Known;
      assert histories[index] in histories;
    }

    /** Keeps a failed attempt in the history, if the node was asked and the budget was not the cause. */
    method KeepFailure(index: nat, h: History, ghost chunks: seq<Chunk>, owner: Address, from: nat, to: nat,
                       attempts: nat, before: nat)
      requires Valid() && owner !in checks && h.custodian == owner
      requires index < |histories| ==> SameKey(h, histories[index])
      requires Identified(h) && Shaped(h) && Backed(h, chunks, trace) && Acquisition()
      requires h.through.Some? ==> h.through.value.number <= blockNumber
      requires index < |histories| ==> h.through == histories[index].through
      requires from == Next(h) <= to && attempts < MAX_ATTEMPTS
      requires attempts == if h.failure.Some? then h.failure.value.attempts else 0
      modifies `histories, `scans
      ensures Valid()
      ensures index >= |old(histories)| ==> histories == old(histories) && scans == old(scans)
      ensures index < |old(histories)| && calls > before && err != Some(Budget) ==>
                histories == old(histories)[index := AttemptFailed(h, from, to)] && scans == old(scans)[index := chunks]
      ensures calls <= before || err == Some(Budget) ==> histories == old(histories) && scans == old(scans)
    {
      hide Metered, Caused, Sound, Genuine, CodesRead, WordsRead, ClearsSettled, ActivesApproved, Proper, Backed,
           Contiguous, Scanned;
      if calls > before && err != Some(Budget) {
        if err == Some(Reorg) { EmptiedByReorg(); }
        BackedFailure(h, h.(failure := Some(Failure(from, to, attempts + 1))), chunks, trace);
        Save(index, h.(failure := Some(Failure(from, to, attempts + 1))), chunks, owner);
      }
    }

    /** Merges an accepted chunk into the history, unless it has too many operators then. */
    method KeepChunk(index: nat, h0: History, ghost chunks: seq<Chunk>, owner: Address, operators: seq<Address>,
                     ghost chunk: Chunk, to: nat, tail: Hash) returns (h: History, ok: bool)
      requires Valid() && err.None? && owner !in checks && h0.manager == manager && h0.custodian == owner
      requires index < |histories| && histories[index] == h0
      requires Identified(h0) && Shaped(h0) && Backed(h0, chunks, trace) && Scanned(manager, owner, chunk, trace)
      requires chunk.from == Next(h0) <= to <= blockNumber && End(chunk) == Reference(to, tail) && tail != 0
      requires chunk.anchor == if h0.through.Some? then h0.through
                                  else if h0.start.number != 0 then Some(h0.start) else None
      requires forall a :: a in operators <==> InLogs(a, chunk.logs)
      requires HeaderRead(End(chunk)) in Own() && LogsCall(manager, owner, chunk.from, to, Some(chunk.logs)) in Own()
      modifies `err, `histories, `scans
      ensures Valid() && (ok <==> err.None?)
      ensures ok ==>
        && h == h0.(operators := h.operators, through := Some(Reference(to, tail)), failure := None)
          && Sorted(rank, h.operators)
        && histories == old(histories)[index := h] && scans == old(scans)[index := chunks + [chunk]]
      ensures !ok ==> h == h0 && err == Some(Budget) && histories == old(histories) && scans == old(scans)
    {
      hide Metered, Caused, Sound, Genuine, CodesRead, WordsRead, ClearsSettled, ActivesApproved, Backed, Scanned,
           InLogs, Sorted, Identified, Shaped, Contiguous;
      h, ok := h0, false;
      var merged := Merge(h.operators, operators);
      if |merged| > limits.maxLogs {
        OperatorsSpent(Here(), histories, Own(), h0, merged,
                       LogsCall(manager, owner, chunk.from, to, Some(chunk.logs)));
        Stop(Budget);
        return;
      }
      h := h.(operators := merged, through := Some(Reference(to, tail)), failure := None);
      Extend(h0, chunks, trace, chunk, h);
      CheckpointShaped(h0, merged, to, tail);
      SameIdentity(h0, h);
      TailKnown(Here(), Own(), End(chunk));
      Save(index, h, chunks + [chunk], owner);
      ok := true;
    }

    method StopAtMisfit(ghost h: History)
      requires Metered(calls) && Judged() && begun <= |trace|
      requires h in histories && Misfit(limits, blockNumber, h)
      modifies `err
      ensures err == Some(Unresumable) && Caused() && Judged()
    {
      hide Metered, Judged, Caused, Misfit;
      Stop(Unresumable);
    }

    method StopAbandoned(ghost h: History)
      requires Metered(calls) && Judged() && begun <= |trace| && h in histories && Exhausted(h)
      modifies `err
      ensures err == Some(Abandoned) && Caused() && Judged()
    {
      hide Metered, Judged, Caused;
      Stop(Abandoned);
    }

    method StopTooLong(ghost h: History)
      requires Metered(calls) && Judged() && begun <= |trace|
      requires h in histories && TooLong(limits, blockNumber, h, calls)
      modifies `err
      ensures err == Some(Budget) && Caused() && Judged()
    {
      hide Metered, Judged, Caused, TooLong, BudgetBy;
      CallsMade();
      ScanSpent(Here(), histories, Own(), h);
      Stop(Budget);
    }

    /** Acquires the next chunk and leaves a checkpoint, or a failure record when requests failed. */
    method ScanChunk(owner: Address, codeHash: Hash, index: nat, h0: History, from: nat) returns (h: History, ok: bool)
      requires Valid() && err.None? && owner !in checks && Current(index, h0, owner, codeHash)
      requires from == Next(h0) <= blockNumber
      requires h0.failure.Some? ==> h0.failure.value.attempts < MAX_ATTEMPTS
      modifies `err, `calls, `bytes, `logCount, `headers, `histories, `scans, `trace
      ensures Valid() && old(trace) <= trace
      ensures Emptied() || (|old(scans)| == |old(histories)| && Grown(index, old(histories), old(scans)))
      ensures ok ==> err.None? && Current(index, h, owner, codeHash) && h.failure.None? && Sorted(rank, h.operators)
      ensures ok ==>
        && h.through.Some?
        && from <= h.through.value.number == ChunkEnd(h0, from, blockNumber, limits.logBlockRange)
      ensures !ok ==> err.Some?
      ensures !ok && !Emptied() && |histories| > index ==>
        histories[index] == (if calls > old(calls) && err != Some(Budget)
                             then AttemptFailed(h0, from, ChunkEnd(h0, from, blockNumber, limits.logBlockRange))
                             else h0)
    {
      hide Holds, Judged, Cached, Metered, Caused, FaultFrom, Known, Backed, Scanned, Accepting, InLogs, OthersKept,
           Resumed, Sorted, Identified, Shaped, Contiguous;
      TraceBegun();
      IndexSound(index);
      FromCheckpoint(h0);
      h, ok := h0, false;
      var to := blockNumber;
      if to - from >= limits.logBlockRange { to := from + limits.logBlockRange - 1; }
      var attempts := 0;
      if h.failure.Some? {
        var f := h.failure.value;
        if f.from != from || f.to > blockNumber || f.to - from >= limits.logBlockRange {
          StopAtMisfit(h0);
          return;
        }
        to, attempts := f.to, f.attempts;
      }
      var before := calls;
      var anchor := h.through;
      if anchor.None? && h.start.number != 0 { anchor := Some(h.start); }
      AnchorKnown(h0, owner, anchor);
      ghost var chunks, passed := scans[index], trace;
      var operators, tail;
      ghost var chunk;
      operators, tail, chunk := Acquire(owner, from, to, anchor);
      BackedPrefix(h, chunks, passed, trace);
      if err.Some? {
        KeepFailure(index, h, chunks, owner, from, to, attempts, before);
        return;
      }
      h, ok := KeepChunk(index, h0, chunks, owner, operators, chunk, to, tail);
    }

    /** A chunk is anchored to the checkpoint or to the start of the owner. */
    lemma AnchorKnown(h: History, owner: Address, anchor: Option<Reference>)
      requires Metered(calls) && h in histories && h.start == StartOf(owner)
      requires anchor == if h.through.Some? then h.through else if h.start.number != 0 then Some(h.start) else None
      ensures anchor.Some? ==> Known(initial, starts, Own(), anchor.value)
    {
      if h.through.Some? { Checkpoint(h); }
    }

    lemma CheckpointShaped(h: History, operators: seq<Address>, to: nat, hash: Hash)
      requires Shaped(h) && Next(h) <= to <= MAX_UINT64 && hash != 0 && NoRepeats(operators)
      ensures Shaped(h.(operators := operators, through := Some(Reference(to, hash)), failure := None))
    {
    }

    lemma SameIdentity(h: History, g: History)
      requires g == h.(operators := g.operators, through := g.through, failure := g.failure) && Identified(h)
      ensures Identified(g)
    {
    }

    /** Scans chunk by chunk up to the observed block. */
    method Scan(owner: Address, codeHash: Hash, index: nat, h0: History) returns (h: History, ok: bool)
      requires Valid() && err.None? && owner !in checks && Current(index, h0, owner, codeHash)
      modifies `err, `calls, `bytes, `logCount, `headers, `histories, `scans, `trace
      ensures Valid() && old(trace) <= trace
      ensures ok ==> err.None? && Current(index, h, owner, codeHash)
      ensures ok ==> h.through.Some? && h.through.value.number == blockNumber
      ensures !ok ==> err.Some?
      ensures Emptied() || (|old(scans)| == |old(histories)| && Grown(index, old(histories), old(scans)))
      ensures || Emptied()
              || (index < |histories| && Recorded(h0, histories[index], blockNumber, limits.logBlockRange, err))
      ensures h0.failure.Some? && h0.failure.value.attempts >= MAX_ATTEMPTS ==> !ok && calls == old(calls)
    {
      hide Holds, Judged, Cached, Metered, Caused, FaultFrom, Contiguous, Scanned, Backed, Identified, Shaped, Sorted;
      TraceBegun();
      IndexSound(index);
      FromCheckpoint(h0);
      h, ok := h0, false;
      var from, done := h.start.number, false;
      if h.through.Some? {
        done := h.through.value.number == blockNumber;
        from := h.through.value.number + 1;
      }
      if h.failure.Some? && h.failure.value.attempts >= MAX_ATTEMPTS {
        StopAbandoned(h0);
        return;
      }
      var remaining := limits.maxCalls as int - calls - |h.operators| - 1;
      if h.through.None? && h.start.number == 0 { remaining := remaining + 1; }
      if !done && (from > blockNumber || remaining < 4
                   || (blockNumber - from) / limits.logBlockRange >= remaining / 4) {
        StopTooLong(h0);
        return;
      }
      ghost var was, wasScans := histories, scans;
      while !done
        invariant Valid() && err.None? && owner !in checks && Current(index, h, owner, codeHash)
        invariant Grown(index, was, wasScans) && old(trace) <= trace
        invariant !done ==> from == Next(h) <= blockNumber
        invariant done ==> h.through.Some? && h.through.value.number == blockNumber
        invariant h.failure.Some? ==> h.failure.value.attempts < MAX_ATTEMPTS
        invariant h == h0 || (h.failure.None? && h.through.Some? && h.through.value.number >= Next(h0))
        decreases if done then 0 else blockNumber + 1 - from
      {
        var reached;
        h, reached := ScanChunk(owner, codeHash, index, h, from);
        if !reached { return; }
        done := h.through.value.number == blockNumber;
        if !done { from := h.through.value.number + 1; }
      }
      ok := true;
    }

    lemma FromCheckpoint(h: History)
      requires Shaped(h)
      ensures h.start.number <= Next(h)
      ensures h.failure.Some? ==> h.failure.value.from == Next(h) <= h.failure.value.to
    {
    }

    lemma IndexSound(index: nat)
      requires Holds() && index < |histories|
      ensures |scans| == |histories| && Proper() && histories[index] in histories
      ensures Identified(histories[index]) && Shaped(histories[index]) && Backed(histories[index], scans[index], trace)
    {
    }

    /** What opening and scanning the owner's history did to the evidence. */
    lemma Composed(before: seq<History>, beforeScans: seq<seq<Chunk>>, mid: seq<History>, midScans: seq<seq<Chunk>>,
                   index: nat, owner: Address, managerCode: Hash, codeHash: Hash)
      requires |before| == |beforeScans| && |mid| == |midScans| && index < |mid|
      requires mid[index].manager == manager && mid[index].custodian == owner
      requires OthersKept(before, mid, beforeScans, midScans, manager, owner)
      requires Resumed(before, beforeScans, midScans, manager, owner, managerCode, codeHash, StartOf(owner),
                       blockNumber)
      requires Grown(index, mid, midScans)
      ensures OthersKept(before, histories, beforeScans, scans, manager, owner)
      ensures Resumed(before, beforeScans, scans, manager, owner, managerCode, codeHash, StartOf(owner), blockNumber)
    {
      forall i | 0 <= i < |before| && before[i].manager == manager && before[i].custodian == owner
                 && Continues(before[i], managerCode, codeHash, StartOf(owner), blockNumber)
        ensures beforeScans[i] <= scans[i]
      {
        assert beforeScans[i] <= midScans[i] && midScans[i] <= scans[i];
      }
    }

    /** Scanning the begun history counts its attempts. */
    lemma Counted(before: seq<History>, index: nat, begun: History, owner: Address, managerCode: Hash, codeHash: Hash)
      requires |before| <= |histories| && index < |histories|
      requires Recorded(begun, histories[index], blockNumber, limits.logBlockRange, err)
      requires DistinctKeys(histories) && begun.manager == manager && begun.custodian == owner
      requires UpToDate(begun, managerCode, codeHash, StartOf(owner), blockNumber)
      requires forall i :: 0 <= i < |before| && before[i].manager == manager && before[i].custodian == owner
                           && Continues(before[i], managerCode, codeHash, StartOf(owner), blockNumber) ==>
                 i == index && before[i] == begun
      ensures AttemptsCounted(before, histories, manager, owner, managerCode, codeHash, StartOf(owner), blockNumber,
                              limits.logBlockRange, err)
      ensures Renewed(before, histories, manager, owner, managerCode, codeHash, StartOf(owner), blockNumber)
    {
      hide Continues, UpToDate, FailedAgain, MovedOn, DistinctKeys;
      StaysUpToDate(begun, index, managerCode, codeHash, owner);
      forall i | 0 <= i < |histories| && histories[i].manager == manager && histories[i].custodian == owner
        ensures i == index
      {
        OnlyKey(histories, i, index);
      }
    }

    lemma StaysUpToDate(begun: History, index: nat, managerCode: Hash, codeHash: Hash, owner: Address)
      requires index < |histories| && Recorded(begun, histories[index], blockNumber, limits.logBlockRange, err)
      requires UpToDate(begun, managerCode, codeHash, StartOf(owner), blockNumber)
      ensures UpToDate(histories[index], managerCode, codeHash, StartOf(owner), blockNumber)
    {
    }

    lemma CheckMeans(owner: Address)
      requires ClearsSettled(checks, histories, words, manager, starts, blockNumber)
      requires ActivesApproved(checks, words) && owner in checks
      ensures checks[owner] ==> Settled(histories, words, manager, owner, StartOf(owner), blockNumber)
      ensures !checks[owner] ==> ApprovedSomewhere(words, owner)
    {
    }

    /** A new verdict joins the others. */
    lemma OneCheck(owner: Address, clear: bool)
      requires err.None? ==> ClearsSettled(checks, histories, words, manager, starts, blockNumber)
      requires ActivesApproved(checks, words)
      requires if clear then Settled(histories, words, manager, owner, StartOf(owner), blockNumber)
               else ApprovedSomewhere(words, owner)
      ensures err.None? ==> ClearsSettled(checks[owner := clear], histories, words, manager, starts, blockNumber)
      ensures ActivesApproved(checks[owner := clear], words)
    {
      hide Settled, ApprovedSomewhere;
    }

    lemma Begun()
      requires Valid()
      ensures |histories| == |scans| && begun <= |trace|
    {
    }

    lemma KnownCode()
      requires Valid() && manager in codes
      ensures begun <= |trace| && CodeRead(manager, codes[manager], Own())
    {
    }

    lemma AllSettled()
      requires Valid() && err.None?
      ensures forall o :: o in checks && checks[o] ==> Settled(histories, words, manager, o, StartOf(o), blockNumber)
    {
    }

    /** Whether no operator that the owner ever approved is approved at the observed block. */
    method OperatorsClear(owner: Address, codeHash: Hash) returns (clear: bool, reason: Reason)
      requires Valid() && owner != 0 && codeHash != 0
      modifies this
      ensures Valid() && old(trace) <= trace
      ensures clear <==> reason == Clear
      ensures clear ==> err.None? && Settled(histories, words, manager, owner, StartOf(owner), blockNumber)
      ensures reason == Active ==> err.None? && ApprovedSomewhere(words, owner)
      ensures reason == Unresolved ==> err.Some?
      ensures old(err).Some? ==> reason == Unresolved
      ensures old(err).Some? || owner in old(checks) ==>
                histories == old(histories) && scans == old(scans) && err == old(err)
      ensures forall o :: o in old(checks) ==> o in checks && checks[o] == old(checks)[o]
      ensures reason != Unresolved ==> owner in checks && checks[owner] == clear
      ensures forall o :: o in checks ==> o in old(checks) || o == owner
      ensures Emptied() || manager in codes || (histories == old(histories) && scans == old(scans))
      ensures Emptied() ||
              (|old(histories)| == |old(scans)| && |histories| == |scans| &&
               OthersKept(old(histories), histories, old(scans), scans, manager, owner))
      ensures Emptied() || manager !in codes ||
              (|old(histories)| == |old(scans)| && |old(scans)| <= |scans| &&
               Resumed(old(histories), old(scans), scans, manager, owner, codes[manager], codeHash, StartOf(owner),
                       blockNumber))
      ensures Emptied() || manager !in codes || |histories| < |old(histories)| ||
              AttemptsCounted(old(histories), histories, manager, owner, codes[manager], codeHash, StartOf(owner),
                              blockNumber, limits.logBlockRange, err)
      ensures Emptied() || manager !in codes ||
              Renewed(old(histories), histories, manager, owner, codes[manager], codeHash, StartOf(owner), blockNumber)
      ensures reason != Unresolved && owner !in old(checks) ==>
              && manager in codes
              && Completed(histories, manager, owner, codes[manager], codeHash, StartOf(owner), blockNumber)
    {
      hide Metered, Caused, Sound, Genuine, CodesRead, WordsRead, ClearsSettled, ActivesApproved, Proper, Settled,
           ApprovedSomewhere, OthersKept, Resumed, Grown, AttemptsCounted, Recorded, Renewed;
      SoundKeys(histories, scans, trace);
      Unchanged(histories, scans, manager, owner, codeHash, StartOf(owner), blockNumber);
      SameAttempts(histories, manager, owner, codeHash, StartOf(owner), blockNumber, limits.logBlockRange);
      if err.Some? { return false, Unresolved; }
      if owner in checks {
        CheckMeans(owner);
        return checks[owner], if checks[owner] then Clear else Active;
      }
      ghost var was, wasScans := histories, scans;
      var ok, index, h := Open(owner, codeHash);
      if !ok { return false, Unresolved; }
      ghost var mid, midScans := histories, scans;
      SoundKeys(histories, scans, trace);
      var reached;
      ghost var begun := h;
      h, reached := Scan(owner, codeHash, index, h);
      SoundKeys(histories, scans, trace);
      if !Emptied() {
        Composed(was, wasScans, mid, midScans, index, owner, codes[manager], codeHash);
        Counted(was, index, begun, owner, codes[manager], codeHash);
      }
      if !reached { return false, Unresolved; }
      ghost var scanned := histories;
      clear, reason := Review(owner, codeHash, index, h);
      AttemptsLater(was, scanned, manager, owner, codes[manager], codeHash, StartOf(owner), blockNumber,
                    limits.logBlockRange, err);
      assert h in histories && CompletedBy(h, manager, owner, codes[manager], codeHash, StartOf(owner), blockNumber);
    }

    /** Reads the current approval of each operator of a completed history. */
    method Review(owner: Address, codeHash: Hash, index: nat, h: History) returns (clear: bool, reason: Reason)
      requires Valid() && err.None? && owner !in checks && Current(index, h, owner, codeHash)
      requires h.through.Some? && h.through.value.number == blockNumber
      modifies `err, `calls, `bytes, `words, `checks, `trace
      ensures Valid() && old(trace) <= trace
      ensures clear <==> reason == Clear
      ensures clear ==> err.None? && Settled(histories, words, manager, owner, StartOf(owner), blockNumber)
      ensures reason == Active ==> err.None? && ApprovedSomewhere(words, owner)
      ensures reason == Unresolved ==> err.Some?
      ensures forall o :: o in old(checks) ==> o in checks && checks[o] == old(checks)[o]
      ensures reason != Unresolved ==> owner in checks && checks[owner] == clear
      ensures forall o :: o in checks ==> o in old(checks) || o == owner
    {
      hide Metered, Caused, Sound, Genuine, CodesRead, WordsRead, ClearsSettled, ActivesApproved, Proper, Settled,
           ApprovedSomewhere;
      for i := 0 to |h.operators|
        invariant Valid() && err.None? && Current(index, h, owner, codeHash) && old(trace) <= trace
        invariant checks == old(checks)
        invariant forall k :: 0 <= k < i ==>
                    (owner, h.operators[k]) in words && words[(owner, h.operators[k])] == Word(32, 0)
      {
        var value := Approved(owner, h.operators[i]);
        if err.Some? { return false, Unresolved; }
        assert words[(owner, h.operators[i])] == Word(32, value);
        if value > 1 {
          StopAtWord((owner, h.operators[i]));
          return false, Unresolved;
        }
        if value != 0 {
          ApprovedHere(words, owner, h.operators[i]);
          OneCheck(owner, false);
          checks := checks[owner := false];
          return false, Active;
        }
      }
      SettledHere(histories, words, index, manager, owner, StartOf(owner), blockNumber);
      OneCheck(owner, true);
      checks := checks[owner := true];
      return true, Clear;
    }
  }

  /** What a clear verdict rests on: each block from the owner's start to the observed block lies
      in a range whose logs the node returned between two reads of the same last header, and
      every operator those logs name was read as unapproved at the observed block. */
  ghost predicate Justified(manager: Address, owner: Address, start: Reference, block: Reference, trace: seq<Call>) {
    forall b :: start.number <= b <= block.number ==> JustifiedAt(manager, owner, block, trace, b)
  }

  ghost predicate JustifiedAt(manager: Address, owner: Address, block: Reference, trace: seq<Call>, b: nat) {
    exists c: Chunk :: Covers(c, b) && Scanned(manager, owner, c, trace)
      && Unapproved(manager, owner, block.hash, c, trace)
  }

  ghost predicate Unapproved(manager: Address, owner: Address, at: Hash, c: Chunk, trace: seq<Call>) {
    forall j :: 0 <= j < |c.logs| ==>
      ApprovalCall(at, manager, owner, Operator(c.logs[j]), Some(Word(32, 0))) in trace
  }

  lemma ClearMeans(e: Evaluation, owner: Address)
    requires e.Valid() && Settled(e.histories, e.words, e.manager, owner, e.StartOf(owner), e.blockNumber)
    ensures Justified(e.manager, owner, e.StartOf(owner), Reference(e.blockNumber, e.blockHash), e.trace)
  {
    hide Evaluation.Judged, Evaluation.Cached, Evaluation.Metered, Evaluation.Caused, Backed, JustifiedAt, WordsRead;
    var block := Reference(e.blockNumber, e.blockHash);
    var i :| 0 <= i < |e.histories| && SettledBy(e.histories[i], e.words, e.manager, owner, e.StartOf(owner),
                                                 e.blockNumber);
    forall b | e.StartOf(owner).number <= b <= block.number
      ensures JustifiedAt(e.manager, owner, block, e.trace, b)
    {
      ClearAt(e.histories[i], e.scans[i], e.words, e.manager, owner, block, e.begun, e.trace, b);
    }
  }

  /** A block up to the checkpoint of a history whose operators were all read as unapproved. */
  lemma ClearAt(h: History, chunks: seq<Chunk>, words: map<(Address, Address), Word>, manager: Address, owner: Address,
                block: Reference, begun: nat, trace: seq<Call>, b: nat)
    requires Backed(h, chunks, trace) && SettledBy(h, words, manager, owner, h.start, block.number)
    requires begun <= |trace| && WordsRead(words, trace[begun..], block.hash, manager)
    requires h.start.number <= b <= block.number
    ensures JustifiedAt(manager, owner, block, trace, b)
  {
    hide Contiguous;
    EveryBlockScanned(h, chunks, trace, b);
    var k :| 0 <= k < |chunks| && Covers(chunks[k], b);
    assert Scanned(manager, owner, chunks[k], trace);
    hide Scanned, Covers;
    forall j | 0 <= j < |chunks[k].logs|
      ensures ApprovalCall(block.hash, manager, owner, Operator(chunks[k].logs[j]), Some(Word(32, 0))) in trace
    {
      assert InChunks(Operator(chunks[k].logs[j]), chunks);
    }
    assert Unapproved(manager, owner, block.hash, chunks[k], trace);
  }

  /** Some operator was read as approved at the observed block. */
  ghost predicate Refuted(manager: Address, owner: Address, at: Hash, trace: seq<Call>) {
    exists a :: ApprovalCall(at, manager, owner, a, Some(Word(32, 1))) in trace
  }

  lemma ActiveMeans(e: Evaluation, owner: Address)
    requires e.Valid() && ApprovedSomewhere(e.words, owner)
    ensures Refuted(e.manager, owner, e.blockHash, e.trace)
  {
    var a :| (owner, a) in e.words && e.words[(owner, a)] == Word(32, 1);
    assert ApprovalCall(e.blockHash, e.manager, owner, a, Some(Word(32, 1))) in e.trace;
  }

  // ---------- One evaluation ----------

  datatype Request = Request(limits: Limits, manager: Address, block: Reference, starts: map<Address, Reference>,
                             owners: seq<(Address, Hash)>, cancelled: nat -> bool)

  predicate Served(r: Request) {
    && r.manager != 0 && r.block.number <= MAX_UINT64 && r.limits.logBlockRange > 0
    && (forall o :: o in r.starts ==> (r.starts[o].number == 0 <==> r.starts[o].hash == 0))
    && forall i :: 0 <= i < |r.owners| ==> r.owners[i].0 != 0 && r.owners[i].1 != 0
  }

  /** A verdict on an owner rests on calls of the trace, unless it is unresolved. */
  ghost predicate Founded(r: Request, owner: Address, verdict: Reason, trace: seq<Call>) {
    match verdict
    case Clear => Justified(r.manager, owner, StartIn(r.starts, owner), r.block, trace)
    case Active => Refuted(r.manager, owner, r.block.hash, trace)
    case Unresolved => true
  }

  lemma FoundedLater(r: Request, owner: Address, verdict: Reason, trace: seq<Call>, later: seq<Call>)
    requires Founded(r, owner, verdict, trace) && trace <= later
    ensures Founded(r, owner, verdict, later)
  {
    assert later == trace + later[|trace|..];
    match verdict
    case Clear =>
      forall b | StartIn(r.starts, owner).number <= b <= r.block.number
        ensures JustifiedAt(r.manager, owner, r.block, later, b)
      {
        assert JustifiedAt(r.manager, owner, r.block, trace, b);
        var c: Chunk :| Covers(c, b) && Scanned(r.manager, owner, c, trace)
          && Unapproved(r.manager, owner, r.block.hash, c, trace);
        OccursLater(Accepting(r.manager, owner, c), trace, later[|trace|..]);
        assert Scanned(r.manager, owner, c, later) && Unapproved(r.manager, owner, r.block.hash, c, later);
      }
    case _ =>
  }

  /** The verdicts on the first owners of the request, in order. */
  ghost predicate OwnersFounded(r: Request, verdicts: seq<Reason>, n: nat, trace: seq<Call>)
    requires n <= |r.owners|
  {
    |verdicts| == n && forall k :: 0 <= k < n ==> Founded(r, r.owners[k].0, verdicts[k], trace)
  }

  lemma OwnersLater(r: Request, verdicts: seq<Reason>, n: nat, trace: seq<Call>, later: seq<Call>)
    requires n <= |r.owners| && OwnersFounded(r, verdicts, n, trace) && trace <= later
    ensures OwnersFounded(r, verdicts, n, later)
  {
    hide Founded;
    forall k | 0 <= k < n
      ensures Founded(r, r.owners[k].0, verdicts[k], later)
    {
      FoundedLater(r, r.owners[k].0, verdicts[k], trace, later);
    }
  }

  // What an evaluation carries over.

  ghost predicate CodeRead(manager: Address, code: Hash, own: seq<Call>) { CodeCall(manager, Some(code)) in own }

  /** The owner's history was opened and scanned under the code that was read: if it was changed it is
      up to date, and if it could be continued its chunks were kept and its failed attempts counted. */
  ghost predicate TouchedBy(r: Request, k: nat, h: History, chunks: seq<Chunk>, later: History, laterChunks: seq<Chunk>,
                            fault: Option<Fault>, own: seq<Call>)
    requires k < |r.owners|
  {
    && h.manager == r.manager && h.custodian == r.owners[k].0
    && exists code :: CodeRead(r.manager, code, own) && TouchedWith(r, k, code, h, chunks, later, laterChunks, fault)
  }

  ghost predicate TouchedWith(r: Request, k: nat, code: Hash, h: History, chunks: seq<Chunk>, later: History,
                              laterChunks: seq<Chunk>, fault: Option<Fault>)
    requires k < |r.owners|
  {
    var (custodianCode, start) := (r.owners[k].1, StartIn(r.starts, r.owners[k].0));
    && (later == h || UpToDate(later, code, custodianCode, start, r.block.number))
    && (Continues(h, code, custodianCode, start, r.block.number) ==>
          chunks <= laterChunks && Recorded(h, later, r.block.number, r.limits.logBlockRange, fault))
  }

  ghost predicate CarriedAt(r: Request, n: nat, h: History, chunks: seq<Chunk>, later: History, laterChunks: seq<Chunk>,
                            fault: Option<Fault>, own: seq<Call>)
    requires n <= |r.owners|
  {
    SameKey(later, h) &&
    ((later == h && laterChunks == chunks) ||
     exists k :: 0 <= k < n && TouchedBy(r, k, h, chunks, later, laterChunks, fault, own))
  }

  /** The history is that of one of the first owners of the request, and up to date. */
  ghost predicate RequestedBy(r: Request, n: nat, h: History, own: seq<Call>)
    requires n <= |r.owners|
  {
    h.manager == r.manager && exists k, code :: 0 <= k < n && RequestedAs(r, k, code, h, own)
  }

  ghost predicate RequestedAs(r: Request, k: nat, code: Hash, h: History, own: seq<Call>)
    requires k < |r.owners|
  {
    && h.custodian == r.owners[k].0 && CodeRead(r.manager, code, own)
    && UpToDate(h, code, r.owners[k].1, StartIn(r.starts, r.owners[k].0), r.block.number)
  }

  /** The owner has a completed history of the code it was asked for. */
  ghost predicate DoneFor(r: Request, k: nat, histories: seq<History>, own: seq<Call>)
    requires k < |r.owners|
  {
    exists j, code :: 0 <= j < |r.owners| && DoneAs(r, k, j, code, histories, own)
  }

  ghost predicate DoneAs(r: Request, k: nat, j: nat, code: Hash, histories: seq<History>, own: seq<Call>)
    requires k < |r.owners| && j < |r.owners|
  {
    && r.owners[j].0 == r.owners[k].0 && CodeRead(r.manager, code, own)
    && Completed(histories, r.manager, r.owners[k].0, code, r.owners[j].1, StartIn(r.starts, r.owners[k].0),
                 r.block.number)
  }

  /** Completed histories stay while other owners are evaluated, and with more calls. */
  lemma DoneLater(r: Request, k: nat, mid: seq<History>, midScans: seq<seq<Chunk>>, own: seq<Call>,
                  after: seq<History>, afterScans: seq<seq<Chunk>>, more: seq<Call>, owner: Address)
    requires k < |r.owners| && DoneFor(r, k, mid, own) && own <= more
    requires |mid| == |midScans| && |after| == |afterScans|
    requires mid == after || (r.owners[k].0 != owner && OthersKept(mid, after, midScans, afterScans, r.manager, owner))
    ensures DoneFor(r, k, after, more)
  {
    var j, code :| 0 <= j < |r.owners| && DoneAs(r, k, j, code, mid, own);
    var h :| h in mid && CompletedBy(h, r.manager, r.owners[k].0, code, r.owners[j].1,
                                     StartIn(r.starts, r.owners[k].0), r.block.number);
    var i :| 0 <= i < |mid| && mid[i] == h;
    assert after[i] == h && h in after;
    assert CodeRead(r.manager, code, more);
    assert DoneAs(r, k, j, code, after, more);
  }

  /** Every history is kept at its place, unchanged or touched for one of the first owners, and only
      histories of such owners were added. */
  ghost predicate Carried(r: Request, n: nat, before: seq<History>, beforeScans: seq<seq<Chunk>>, after: seq<History>,
                          afterScans: seq<seq<Chunk>>, fault: Option<Fault>, own: seq<Call>)
    requires n <= |r.owners|
  {
    && |before| == |beforeScans| <= |after| == |afterScans|
    && (forall i :: 0 <= i < |before| ==>
          CarriedAt(r, n, before[i], beforeScans[i], after[i], afterScans[i], fault, own))
    && forall i :: |before| <= i < |after| ==> RequestedBy(r, n, after[i], own)
  }

  lemma CarriedNothing(r: Request, histories: seq<History>, scans: seq<seq<Chunk>>, own: seq<Call>)
    requires |histories| == |scans|
    ensures Carried(r, 0, histories, scans, histories, scans, None, own)
  {
  }

  lemma CarriedAtLater(r: Request, n: nat, h: History, chunks: seq<Chunk>, later: History, laterChunks: seq<Chunk>,
                       fault: Option<Fault>, own: seq<Call>, next: Option<Fault>, more: seq<Call>)
    requires n < |r.owners| && CarriedAt(r, n, h, chunks, later, laterChunks, fault, own)
    requires own <= more && (fault == next || fault.None?)
    ensures CarriedAt(r, n + 1, h, chunks, later, laterChunks, next, more)
  {
    hide Continues, Recorded, UpToDate;
    if !(later == h && laterChunks == chunks) {
      var k :| 0 <= k < n && TouchedBy(r, k, h, chunks, later, laterChunks, fault, own);
      var code :| CodeRead(r.manager, code, own) && TouchedWith(r, k, code, h, chunks, later, laterChunks, fault);
      RecordedLater(h, later, r.block.number, r.limits.logBlockRange, fault, next);
      assert CodeRead(r.manager, code, more) && TouchedWith(r, k, code, h, chunks, later, laterChunks, next);
      assert TouchedBy(r, k, h, chunks, later, laterChunks, next, more);
    }
  }

  lemma RecordedLater(h: History, later: History, block: nat, range: nat, fault: Option<Fault>, next: Option<Fault>)
    requires fault == next || fault.None?
    ensures Recorded(h, later, block, range, fault) ==> Recorded(h, later, block, range, next)
  {
  }

  lemma RequestedLater(r: Request, n: nat, h: History, own: seq<Call>, more: seq<Call>)
    requires n < |r.owners| && RequestedBy(r, n, h, own) && own <= more
    ensures RequestedBy(r, n + 1, h, more)
  {
    hide UpToDate;
    var k, code :| 0 <= k < n && RequestedAs(r, k, code, h, own);
    assert CodeRead(r.manager, code, more) && RequestedAs(r, k, code, h, more);
  }

  /** An owner whose evaluation changed no history. */
  lemma CarriedOver(r: Request, n: nat, before: seq<History>, beforeScans: seq<seq<Chunk>>, after: seq<History>,
                    afterScans: seq<seq<Chunk>>, fault: Option<Fault>, own: seq<Call>, next: Option<Fault>,
                    more: seq<Call>)
    requires n < |r.owners| && Carried(r, n, before, beforeScans, after, afterScans, fault, own)
    requires own <= more && (fault == next || fault.None?)
    ensures Carried(r, n + 1, before, beforeScans, after, afterScans, next, more)
  {
    hide CarriedAt;
    forall i | 0 <= i < |before|
      ensures CarriedAt(r, n + 1, before[i], beforeScans[i], after[i], afterScans[i], next, more)
    {
      CarriedAtLater(r, n, before[i], beforeScans[i], after[i], afterScans[i], fault, own, next, more);
    }
    forall i | |before| <= i < |after|
      ensures RequestedBy(r, n + 1, after[i], more)
    {
      RequestedLater(r, n, after[i], own, more);
    }
  }

  /** An owner that was not evaluated before, opened and scanned without an earlier fault. */
  lemma CarriedOn(r: Request, n: nat, before: seq<History>, beforeScans: seq<seq<Chunk>>, mid: seq<History>,
                  midScans: seq<seq<Chunk>>, after: seq<History>, afterScans: seq<seq<Chunk>>, own: seq<Call>,
                  code: Hash, fault: Option<Fault>, more: seq<Call>)
    requires n < |r.owners| && Carried(r, n, before, beforeScans, mid, midScans, None, own) && own <= more
    requires forall j :: 0 <= j < n ==> r.owners[j].0 != r.owners[n].0
    requires |after| == |afterScans| && CodeRead(r.manager, code, more)
    requires OthersKept(mid, after, midScans, afterScans, r.manager, r.owners[n].0)
    requires Resumed(mid, midScans, afterScans, r.manager, r.owners[n].0, code, r.owners[n].1,
                     StartIn(r.starts, r.owners[n].0), r.block.number)
    requires AttemptsCounted(mid, after, r.manager, r.owners[n].0, code, r.owners[n].1,
                             StartIn(r.starts, r.owners[n].0), r.block.number, r.limits.logBlockRange, fault)
    requires Renewed(mid, after, r.manager, r.owners[n].0, code, r.owners[n].1, StartIn(r.starts, r.owners[n].0),
                     r.block.number)
    ensures Carried(r, n + 1, before, beforeScans, after, afterScans, fault, more)
  {
    hide Continues, Recorded, UpToDate;
    var owner := r.owners[n].0;
    forall i | 0 <= i < |before|
      ensures CarriedAt(r, n + 1, before[i], beforeScans[i], after[i], afterScans[i], fault, more)
    {
      if before[i].manager == r.manager && before[i].custodian == owner {
        assert mid[i] == before[i] && midScans[i] == beforeScans[i];
        assert TouchedWith(r, n, code, before[i], beforeScans[i], after[i], afterScans[i], fault);
        assert TouchedBy(r, n, before[i], beforeScans[i], after[i], afterScans[i], fault, more);
      } else {
        CarriedAtLater(r, n, before[i], beforeScans[i], mid[i], midScans[i], None, own, fault, more);
      }
    }
    forall i | |before| <= i < |after|
      ensures RequestedBy(r, n + 1, after[i], more)
    {
      if i < |mid| {
        assert RequestedBy(r, n, mid[i], own);
        RequestedLater(r, n, mid[i], own, more);
      } else {
        assert RequestedAs(r, n, code, after[i], more);
      }
    }
  }

  // ---------- Any sequence of evaluations ----------

  /** What one evaluation reports and stores, and how many calls it made; a fault says that it could
      not be completed. */
  datatype Outcome = Outcome(verdicts: seq<Reason>, fault: Option<Fault>, histories: seq<History>, calls: nat)

  /** How many calls the first evaluations made. */
  function Calls(outcomes: seq<Outcome>, n: nat): nat
    requires n <= |outcomes|
  { if n == 0 then 0 else Calls(outcomes, n - 1) + outcomes[n-1].calls }

  function SettingOf(r: Request, before: seq<History>, node: Node, begun: nat): Setting {
    Setting(node, begun, r.limits, r.block.number, r.starts, before, r.cancelled)
  }

  /** A reorganisation emptied the evidence. */
  ghost predicate Reorganised(o: Outcome, scans: seq<seq<Chunk>>) {
    o.histories == [] && scans == [] && o.fault == Some(Reorg)
  }

  /** No evaluation makes more calls than its limit, and one without a fault got no more bytes and logs
      than theirs. */
  ghost predicate LimitsKept(limits: Limits, o: Outcome, node: Node, begun: nat, own: seq<Call>) {
    && o.calls <= limits.maxCalls
    && (o.fault.None? ==> Volume(node, begun, own) <= limits.maxResponseBytes && LogTotal(own) <= limits.maxLogs)
  }

  /** The histories as they were stored, and how the next evaluation left them. Evidence that cannot
      be restored is refused; every fault comes from the calls of the evaluation or its histories. */
  ghost predicate Evaluated(r: Request, before: seq<History>, beforeScans: seq<seq<Chunk>>, o: Outcome,
                            scans: seq<seq<Chunk>>, node: Node, begun: nat, own: seq<Call>, trace: seq<Call>) {
    && |own| == o.calls && FaultFrom(SettingOf(r, before, node, begun), o.histories, o.fault, own)
    && LimitsKept(r.limits, o, node, begun, own)
    && OwnersFounded(r, o.verdicts, |r.owners|, trace)
    && (forall k :: 0 <= k < |o.verdicts| && o.verdicts[k].Unresolved? ==> o.fault.Some?)
    && (if !Restorable(before) then
          o.histories == before && scans == beforeScans && o.fault == Some(Refused) && o.calls == 0
          && forall k :: 0 <= k < |o.verdicts| ==> o.verdicts[k].Unresolved?
        else
          && (Reorganised(o, scans) ||
              Carried(r, |r.owners|, before, beforeScans, o.histories, scans, o.fault, own))
          && (o.fault.None? ==> forall k :: 0 <= k < |r.owners| ==> DoneFor(r, k, o.histories, own))
          && (r.block.number < MAX_UINT64 ==> Restorable(o.histories))
          && (r.block.number == MAX_UINT64 && o.fault.None? && Clear in o.verdicts ==> !Restorable(o.histories)))
  }

  lemma EvaluatedLater(r: Request, before: seq<History>, beforeScans: seq<seq<Chunk>>, o: Outcome,
                       scans: seq<seq<Chunk>>, node: Node, begun: nat, own: seq<Call>, trace: seq<Call>,
                       later: seq<Call>)
    requires Evaluated(r, before, beforeScans, o, scans, node, begun, own, trace) && trace <= later
    ensures Evaluated(r, before, beforeScans, o, scans, node, begun, own, later)
  {
    hide FaultFrom, Carried, DoneFor, Restorable, OwnersFounded;
    OwnersLater(r, o.verdicts, |r.owners|, trace, later);
  }

  /** The evidence an evaluation starts from. */
  function Stored(outcomes: seq<Outcome>, i: nat): seq<History>
    requires i <= |outcomes|
  { if i == 0 then [] else outcomes[i-1].histories }

  ghost function StoredScans(scans: seq<seq<seq<Chunk>>>, i: nat): seq<seq<Chunk>>
    requires i <= |scans|
  { if i == 0 then [] else scans[i-1] }

  ghost predicate EvaluatedAt(requests: seq<Request>, outcomes: seq<Outcome>, scans: seq<seq<seq<Chunk>>>, node: Node,
                              trace: seq<Call>, i: nat)
    requires i < |outcomes| <= |requests| && |scans| == |outcomes|
  {
    var begun, ended := Calls(outcomes, i), Calls(outcomes, i) + outcomes[i].calls;
    && ended <= |trace|
    && Evaluated(requests[i], Stored(outcomes, i), StoredScans(scans, i), outcomes[i], scans[i], node, begun,
                 trace[begun..ended], trace)
    && Sound(outcomes[i].histories, scans[i], trace)
  }

  /** Each evaluation started from the evidence the one before stored, whether that failed or not, and
      its calls follow those of the one before. */
  ghost predicate AllEvaluated(requests: seq<Request>, outcomes: seq<Outcome>, scans: seq<seq<seq<Chunk>>>, node: Node,
                               trace: seq<Call>) {
    && |scans| == |outcomes| <= |requests| && |trace| == Calls(outcomes, |outcomes|)
    && forall i :: 0 <= i < |outcomes| ==> EvaluatedAt(requests, outcomes, scans, node, trace, i)
  }

  /** Evaluations one after the other. The trace holds the calls that were made, each with what the
      node answered. */
  method Evaluate(rank: Address -> nat, node: Node, requests: seq<Request>)
    returns (outcomes: seq<Outcome>, trace: seq<Call>, ghost scans: seq<seq<seq<Chunk>>>)
    requires forall i :: 0 <= i < |requests| ==> Served(requests[i])
    ensures Genuine(node, trace)
    ensures |outcomes| == |requests| && AllEvaluated(requests, outcomes, scans, node, trace)
  {
    hide Genuine, Evaluated, EvaluatedAt, Sound;
    outcomes, trace, scans := [], [], [];
    Beginning(node);
    var histories: seq<History> := [];
    ghost var chunks: seq<seq<Chunk>> := [];
    for i := 0 to |requests|
      invariant Genuine(node, trace) && Sound(histories, chunks, trace)
      invariant |outcomes| == i && AllEvaluated(requests, outcomes, scans, node, trace)
      invariant histories == Stored(outcomes, i) && chunks == StoredScans(scans, i)
    {
      var outcome, more;
      ghost var after;
      outcome, more, after := EvaluateOne(rank, node, requests[i], histories, chunks, trace);
      OneMore(requests, outcomes, scans, node, trace, outcome, after, more);
      outcomes, scans, trace := outcomes + [outcome], scans + [after], more;
      histories, chunks := outcome.histories, after;
    }
  }

  lemma {:induction false} CallsSame(outcomes: seq<Outcome>, o: Outcome, n: nat)
    requires n <= |outcomes|
    ensures Calls(outcomes + [o], n) == Calls(outcomes, n)
  {
    if n > 0 { CallsSame(outcomes, o, n - 1); }
  }

  lemma Beginning(node: Node)
    ensures Genuine(node, []) && Sound([], [], [])
  {
  }

  lemma OneMore(requests: seq<Request>, outcomes: seq<Outcome>, scans: seq<seq<seq<Chunk>>>, node: Node,
                trace: seq<Call>, o: Outcome, after: seq<seq<Chunk>>, more: seq<Call>)
    requires AllEvaluated(requests, outcomes, scans, node, trace) && |outcomes| < |requests|
    requires trace <= more && |more| == |trace| + o.calls
    requires Evaluated(requests[|outcomes|], Stored(outcomes, |outcomes|), StoredScans(scans, |scans|), o, after, node,
                       |trace|, more[|trace|..], more)
    requires Sound(o.histories, after, more)
    ensures AllEvaluated(requests, outcomes + [o], scans + [after], node, more)
  {
    hide Evaluated, Sound, EvaluatedAt;
    var all, allScans := outcomes + [o], scans + [after];
    CallsSame(outcomes, o, |outcomes|);
    forall i | 0 <= i < |all|
      ensures EvaluatedAt(requests, all, allScans, node, more, i)
    {
      if i < |outcomes| {
        StaysEvaluated(requests, outcomes, scans, node, trace, o, after, more, i);
      } else {
        LastEvaluated(requests, outcomes, scans, node, trace, o, after, more);
      }
    }
  }

  lemma StaysEvaluated(requests: seq<Request>, outcomes: seq<Outcome>, scans: seq<seq<seq<Chunk>>>, node: Node,
                       trace: seq<Call>, o: Outcome, after: seq<seq<Chunk>>, more: seq<Call>, i: nat)
    requires i < |outcomes| < |requests| && |scans| == |outcomes| && trace <= more
    requires EvaluatedAt(requests, outcomes, scans, node, trace, i)
    ensures EvaluatedAt(requests, outcomes + [o], scans + [after], node, more, i)
  {
    hide Evaluated, Sound;
    var begun, ended := Calls(outcomes, i), Calls(outcomes, i) + outcomes[i].calls;
    CallsSame(outcomes, o, i);
    assert more[begun..ended] == trace[begun..ended];
    assert Stored(outcomes + [o], i) == Stored(outcomes, i) && StoredScans(scans + [after], i) == StoredScans(scans, i);
    EvaluatedLater(requests[i], Stored(outcomes, i), StoredScans(scans, i), outcomes[i], scans[i], node, begun,
                   trace[begun..ended], trace, more);
    assert more == trace + more[|trace|..];
    SoundLater(outcomes[i].histories, scans[i], trace, more[|trace|..]);
  }

  lemma LastEvaluated(requests: seq<Request>, outcomes: seq<Outcome>, scans: seq<seq<seq<Chunk>>>, node: Node,
                      trace: seq<Call>, o: Outcome, after: seq<seq<Chunk>>, more: seq<Call>)
    requires |scans| == |outcomes| < |requests| && |trace| == Calls(outcomes, |outcomes|)
    requires trace <= more && |more| == |trace| + o.calls
    requires Evaluated(requests[|outcomes|], Stored(outcomes, |outcomes|), StoredScans(scans, |scans|), o, after, node,
                       |trace|, more[|trace|..], more)
    requires Sound(o.histories, after, more)
    ensures EvaluatedAt(requests, outcomes + [o], scans + [after], node, more, |outcomes|)
  {
    hide Evaluated, Sound;
    var n := |outcomes|;
    CallsSame(outcomes, o, n);
    assert more[|trace|..|more|] == more[|trace|..];
    assert Stored(outcomes + [o], n) == Stored(outcomes, n) && StoredScans(scans + [after], n) == StoredScans(scans, n);
  }

  /** One evaluation, from the stored evidence. */
  method EvaluateOne(rank: Address -> nat, node: Node, r: Request, histories: seq<History>,
                     ghost scans: seq<seq<Chunk>>, trace: seq<Call>)
    returns (o: Outcome, more: seq<Call>, ghost after: seq<seq<Chunk>>)
    requires Served(r) && Sound(histories, scans, trace) && Genuine(node, trace)
    ensures trace <= more && |more| == |trace| + o.calls && Genuine(node, more) && Sound(o.histories, after, more)
    ensures Evaluated(r, histories, scans, o, after, node, |trace|, more[|trace|..], more)
  {
    hide Sound, Genuine, Carried, FailedBy, BudgetBy, ReorgBy, Restorable, BelowLast;
    var restored := Restore(histories);
    if !restored {
      var none := seq(|r.owners|, i => Unresolved);
      assert trace[|trace|..] == [];
      return Outcome(none, Some(Refused), histories, 0), trace, scans;
    }
    var e := new Evaluation(rank, node, r.limits, r.manager, r.block.number, r.block.hash, r.starts, r.cancelled,
                            histories, scans, trace);
    var verdicts := FindVerdicts(e, r);
    o, more, after := Outcome(verdicts, e.err, e.histories, e.calls), e.trace, e.scans;
    Ended(e);
    if e.err.None? {
      forall k | 0 <= k < |verdicts| && verdicts[k].Clear? && r.block.number == MAX_UINT64
        ensures !Restorable(e.histories)
      {
        LastBlock(e, r.owners[k].0);
      }
    }
  }

  lemma Ended(e: Evaluation)
    requires e.Holds()
    ensures e.blockNumber < MAX_UINT64 ==> Restorable(e.histories)
  {
  }

  /** A scan may reach the last block number of all, but the evidence it leaves is then refused: what
      an evaluation leaves without a fault can be restored if and only if it was at another block. */
  lemma LastBlock(e: Evaluation, owner: Address)
    requires e.Valid() && Settled(e.histories, e.words, e.manager, owner, e.StartOf(owner), e.blockNumber)
    ensures Restorable(e.histories) <==> e.blockNumber < MAX_UINT64
  {
    var i :| 0 <= i < |e.histories| && SettledBy(e.histories[i], e.words, e.manager, owner, e.StartOf(owner),
                                                 e.blockNumber);
    Ended(e);
    assert e.blockNumber == MAX_UINT64 ==> !BelowLast(e.histories[i]);
  }

  /** One evaluation of all owners of a request. */
  method FindVerdicts(e: Evaluation, r: Request) returns (verdicts: seq<Reason>)
    requires e.Valid() && Served(r) && e.err.None? && e.checks == map[]
    requires e.manager == r.manager && e.starts == r.starts && e.blockNumber == r.block.number
               && e.blockHash == r.block.hash && e.limits == r.limits
    modifies e
    ensures e.Valid() && old(e.trace) <= e.trace
    ensures OwnersFounded(r, verdicts, |r.owners|, e.trace)
    ensures forall k :: 0 <= k < |verdicts| && verdicts[k].Unresolved? ==> e.err.Some?
    ensures e.begun <= |e.trace| && (e.Emptied() ||
              Carried(r, |r.owners|, old(e.histories), old(e.scans), e.histories, e.scans, e.err, e.Own()))
    ensures e.err.None? ==> forall k :: 0 <= k < |r.owners| ==> DoneFor(r, k, e.histories, e.Own())
    ensures e.err.None? ==> forall k :: 0 <= k < |verdicts| && verdicts[k].Clear? ==>
              Settled(e.histories, e.words, e.manager, r.owners[k].0, e.StartOf(r.owners[k].0), e.blockNumber)
  {
    hide Evaluation.Metered, Evaluation.Caused, Evaluation.Holds, Evaluation.Judged, Evaluation.Cached,
         OwnersFounded, Progress;
    verdicts := [];
    e.Begun();
    NoOwners(r, e.trace);
    ghost var before, beforeScans := e.histories, e.scans;
    NoProgress(r, before, beforeScans, e.checks, e.Own());
    for k := 0 to |r.owners|
      invariant e.Valid() && old(e.trace) <= e.trace && e.begun <= |e.trace|
      invariant OwnersFounded(r, verdicts, k, e.trace)
      invariant Progress(r, k, verdicts, before, beforeScans, e.histories, e.scans, e.err, e.checks, e.Own())
    {
      var reason := OneOwner(e, r, k, verdicts, before, beforeScans);
      verdicts := verdicts + [reason];
    }
    if e.err.None? { e.AllSettled(); }
    ProgressMeans(r, verdicts, before, beforeScans, e.histories, e.scans, e.err, e.checks, e.Own());
  }

  /** Evaluates the next owner of the request. */
  method OneOwner(e: Evaluation, r: Request, k: nat, verdicts: seq<Reason>, ghost before: seq<History>,
                  ghost beforeScans: seq<seq<Chunk>>) returns (reason: Reason)
    requires e.Valid() && Served(r) && k < |r.owners| && e.begun <= |e.trace|
    requires e.manager == r.manager && e.starts == r.starts && e.blockNumber == r.block.number
               && e.blockHash == r.block.hash && e.limits == r.limits
    requires OwnersFounded(r, verdicts, k, e.trace)
    requires Progress(r, k, verdicts, before, beforeScans, e.histories, e.scans, e.err, e.checks, e.Own())
    modifies e
    ensures e.Valid() && old(e.trace) <= e.trace && e.begun <= |e.trace|
    ensures OwnersFounded(r, verdicts + [reason], k + 1, e.trace)
    ensures Progress(r, k + 1, verdicts + [reason], before, beforeScans, e.histories, e.scans, e.err, e.checks, e.Own())
  {
    hide Evaluation.Metered, Evaluation.Caused, Evaluation.Holds, Evaluation.Judged, Evaluation.Cached,
         Justified, Refuted, Settled, ApprovedSomewhere, Progress, OthersKept, Resumed, AttemptsCounted,
         OwnersFounded, Renewed, Completed, CodeRead;
    var owner := r.owners[k].0;
    e.Begun();
    ghost var was, own, mid, midScans, fault, checks := e.trace, e.Own(), e.histories, e.scans, e.err, e.checks;
    var clear;
    clear, reason := e.OperatorsClear(owner, r.owners[k].1);
    e.Begun();
    if reason == Clear { ClearMeans(e, owner); }
    if reason == Active { ActiveMeans(e, owner); }
    OneVerdict(r, verdicts, k, was, reason, e.trace);
    ghost var code := if e.manager in e.codes then Some(e.codes[e.manager]) else None;
    if e.manager in e.codes { e.KnownCode(); }
    ProgressNext(r, k, verdicts, before, beforeScans, mid, midScans, fault, checks, own, e.histories, e.scans, e.err,
                 e.checks, e.Own(), reason, code);
  }

  /** How far a request was evaluated: an unresolved verdict has its fault, the histories were carried
      over or a reorganisation emptied them, and without a fault each owner was checked and has a
      completed history. */
  ghost predicate Progress(r: Request, k: nat, verdicts: seq<Reason>, before: seq<History>,
                           beforeScans: seq<seq<Chunk>>, histories: seq<History>, scans: seq<seq<Chunk>>,
                           err: Option<Fault>, checks: map<Address, bool>, own: seq<Call>)
    requires k <= |r.owners|
  {
    && |verdicts| == k && (forall j :: 0 <= j < k && verdicts[j].Unresolved? ==> err.Some?)
    && ((histories == [] && scans == [] && err == Some(Reorg)) ||
        Carried(r, k, before, beforeScans, histories, scans, err, own))
    && (err.None? ==>
          && (forall j :: 0 <= j < k ==> r.owners[j].0 in checks && (verdicts[j].Clear? ==> checks[r.owners[j].0]))
          && AllDone(r, k, checks.Keys, histories, own))
  }

  lemma NoProgress(r: Request, histories: seq<History>, scans: seq<seq<Chunk>>, checks: map<Address, bool>,
                   own: seq<Call>)
    requires |histories| == |scans| && checks == map[]
    ensures Progress(r, 0, [], histories, scans, histories, scans, None, checks, own)
  {
    CarriedNothing(r, histories, scans, own);
  }

  lemma ProgressMeans(r: Request, verdicts: seq<Reason>, before: seq<History>, beforeScans: seq<seq<Chunk>>,
                      histories: seq<History>, scans: seq<seq<Chunk>>, err: Option<Fault>,
                      checks: map<Address, bool>, own: seq<Call>)
    requires Progress(r, |r.owners|, verdicts, before, beforeScans, histories, scans, err, checks, own)
    ensures forall k :: 0 <= k < |verdicts| && verdicts[k].Unresolved? ==> err.Some?
    ensures (histories == [] && scans == [] && err == Some(Reorg)) ||
            Carried(r, |r.owners|, before, beforeScans, histories, scans, err, own)
    ensures err.None? ==>
              && (forall k :: 0 <= k < |r.owners| ==> DoneFor(r, k, histories, own))
              && (forall k :: 0 <= k < |verdicts| && verdicts[k].Clear? ==>
                    r.owners[k].0 in checks && checks[r.owners[k].0])
  {
    hide Carried, DoneFor;
  }

  /** One more owner, as its evaluation promises. */
  lemma ProgressNext(r: Request, k: nat, verdicts: seq<Reason>, before: seq<History>, beforeScans: seq<seq<Chunk>>,
                     mid: seq<History>, midScans: seq<seq<Chunk>>, fault: Option<Fault>, checks: map<Address, bool>,
                     own: seq<Call>, after: seq<History>, afterScans: seq<seq<Chunk>>, next: Option<Fault>,
                     now: map<Address, bool>, more: seq<Call>, reason: Reason, code: Option<Hash>)
    requires k < |r.owners| && own <= more && |mid| == |midScans| && |after| == |afterScans|
    requires Progress(r, k, verdicts, before, beforeScans, mid, midScans, fault, checks, own)
    requires var owner := r.owners[k].0;
             && (fault.Some? || owner in checks ==> after == mid && afterScans == midScans && next == fault)
             && (fault.Some? ==> reason == Unresolved) && (reason == Unresolved ==> next.Some?)
             && (forall o :: o in checks ==> o in now && now[o] == checks[o])
             && (forall o :: o in now ==> o in checks || o == owner)
             && (reason != Unresolved ==> owner in now && (now[owner] <==> reason == Clear))
    requires var owner, start := r.owners[k].0, StartIn(r.starts, r.owners[k].0);
             || (after == [] && afterScans == [] && next == Some(Reorg))
             || (&& OthersKept(mid, after, midScans, afterScans, r.manager, owner)
                 && |mid| <= |after|
                 && match code
                    case None => after == mid && afterScans == midScans
                    case Some(c) =>
                      && CodeRead(r.manager, c, more)
                      && Resumed(mid, midScans, afterScans, r.manager, owner, c, r.owners[k].1, start, r.block.number)
                      && AttemptsCounted(mid, after, r.manager, owner, c, r.owners[k].1, start, r.block.number,
                                         r.limits.logBlockRange, next)
                      && Renewed(mid, after, r.manager, owner, c, r.owners[k].1, start, r.block.number))
    requires reason != Unresolved && r.owners[k].0 !in checks ==>
               && next.None? && code.Some? && CodeRead(r.manager, code.value, more)
               && Completed(after, r.manager, r.owners[k].0, code.value, r.owners[k].1,
                            StartIn(r.starts, r.owners[k].0), r.block.number)
    ensures Progress(r, k + 1, verdicts + [reason], before, beforeScans, after, afterScans, next, now, more)
  {
    hide Carried, OthersKept, Resumed, AttemptsCounted, Renewed, Completed, CodeRead, AllDone;
    var owner := r.owners[k].0;
    var emptied := after == [] && afterScans == [] && next == Some(Reorg);
    if !emptied {
      if fault.Some? || owner in checks || code.None? {
        CarriedOver(r, k, before, beforeScans, after, afterScans, fault, own, next, more);
      } else {
        CarriedOn(r, k, before, beforeScans, mid, midScans, after, afterScans, own, code.value, next, more);
      }
    }
    if next.None? {
      MoreDone(r, k, checks.Keys, mid, midScans, own, after, afterScans, more, now.Keys,
               if code.Some? then code.value else 0);
    }
  }

  /** The checked owners among the first ones have completed histories. */
  ghost predicate AllDone(r: Request, n: nat, checked: set<Address>, histories: seq<History>, own: seq<Call>)
    requires n <= |r.owners|
  {
    && (forall k :: 0 <= k < n ==> DoneFor(r, k, histories, own))
    && (forall o :: o in checked ==> exists j :: 0 <= j < n && r.owners[j].0 == o)
  }

  /** One more owner was evaluated without a fault. */
  lemma MoreDone(r: Request, n: nat, checked: set<Address>, mid: seq<History>, midScans: seq<seq<Chunk>>,
                 own: seq<Call>, after: seq<History>, afterScans: seq<seq<Chunk>>, more: seq<Call>,
                 now: set<Address>, code: Hash)
    requires n < |r.owners| && AllDone(r, n, checked, mid, own) && own <= more
    requires |mid| == |midScans| && |after| == |afterScans|
    requires forall j :: 0 <= j < n ==> r.owners[j].0 in checked
    requires now <= checked + {r.owners[n].0}
    requires
      var owner := r.owners[n].0;
      if owner in checked then after == mid
      else
        && OthersKept(mid, after, midScans, afterScans, r.manager, owner) && CodeRead(r.manager, code, more)
        && Completed(after, r.manager, owner, code, r.owners[n].1, StartIn(r.starts, owner), r.block.number)
    ensures AllDone(r, n + 1, now, after, more)
  {
    hide OthersKept, Completed;
    var owner := r.owners[n].0;
    forall k | 0 <= k < n
      ensures DoneFor(r, k, after, more)
    {
      DoneLater(r, k, mid, midScans, own, after, afterScans, more, owner);
    }
    if owner in checked {
      var j :| 0 <= j < n && r.owners[j].0 == owner;
      assert DoneFor(r, j, after, more);
      var i, c :| 0 <= i < |r.owners| && DoneAs(r, j, i, c, after, more);
      assert DoneAs(r, n, i, c, after, more);
    } else {
      assert DoneAs(r, n, n, code, after, more);
    }
  }

  lemma NoOwners(r: Request, trace: seq<Call>)
    ensures OwnersFounded(r, [], 0, trace)
  {
  }

  lemma OneVerdict(r: Request, verdicts: seq<Reason>, k: nat, trace: seq<Call>, reason: Reason, more: seq<Call>)
    requires k < |r.owners| && OwnersFounded(r, verdicts, k, trace) && trace <= more
    requires Founded(r, r.owners[k].0, reason, more)
    ensures OwnersFounded(r, verdicts + [reason], k + 1, more)
  {
    hide Founded;
    OwnersLater(r, verdicts, k, trace, more);
  }

  /** The calls of one evaluation. */
  function OwnCalls(outcomes: seq<Outcome>, trace: seq<Call>, i: nat): seq<Call>
    requires i < |outcomes| && Calls(outcomes, i) + outcomes[i].calls <= |trace|
  {
    trace[Calls(outcomes, i)..Calls(outcomes, i) + outcomes[i].calls]
  }

  lemma CallsInTrace(requests: seq<Request>, outcomes: seq<Outcome>, scans: seq<seq<seq<Chunk>>>, node: Node,
                     trace: seq<Call>, i: nat)
    requires AllEvaluated(requests, outcomes, scans, node, trace) && i < |outcomes|
    ensures Calls(outcomes, i) + outcomes[i].calls <= |trace|
  {
    assert EvaluatedAt(requests, outcomes, scans, node, trace, i);
  }

  /** The stored history is asked for as it is: the code, the start and a block that is not earlier. A
      code counts if it was read in the evaluation. */
  predicate AskedAsStored(r: Request, h: History, own: seq<Call>) {
    h.manager == r.manager ==>
      && (forall k :: 0 <= k < |r.owners| && r.owners[k].0 == h.custodian ==>
            && r.owners[k].1 == h.custodianCode
            && h.start == (if h.custodian in r.starts then r.starts[h.custodian] else Reference(0, 0))
            && (h.through.Some? ==> h.through.value.number <= r.block.number))
      && forall c :: c in own && c.CodeCall? && c.address == r.manager && c.code.Some? ==>
           c.code.value == h.managerCode
  }

  /** The limits of every evaluation hold: on its calls always, and on the bytes and logs of all answers
      to them when it reports no fault. */
  lemma WithinLimits(requests: seq<Request>, outcomes: seq<Outcome>, scans: seq<seq<seq<Chunk>>>, node: Node,
                     trace: seq<Call>, i: nat)
    requires AllEvaluated(requests, outcomes, scans, node, trace) && i < |outcomes|
    requires Calls(outcomes, i) + outcomes[i].calls <= |trace|
    ensures outcomes[i].calls <= requests[i].limits.maxCalls
    ensures outcomes[i].fault.None? ==>
              && Volume(node, Calls(outcomes, i), OwnCalls(outcomes, trace, i)) <= requests[i].limits.maxResponseBytes
              && LogTotal(OwnCalls(outcomes, trace, i)) <= requests[i].limits.maxLogs
  {
    hide Volume, LogTotal, FaultFrom, Carried, Restorable, OwnersFounded, DoneFor;
    assert EvaluatedAt(requests, outcomes, scans, node, trace, i);
  }

  /** A stored history that is asked for as it is, in an evaluation that reports no reorganisation,
      is resumed: it keeps its identity and all its chunks. After four failed attempts it stays as it
      is. Otherwise it stays as it is, or has one more failed attempt at the same range, or a later
      checkpoint; and then no failure record, or a first one of the range after it. */
  lemma HistoryResumed(requests: seq<Request>, outcomes: seq<Outcome>, scans: seq<seq<seq<Chunk>>>, node: Node,
                       trace: seq<Call>, i: nat, x: nat)
    requires AllEvaluated(requests, outcomes, scans, node, trace) && i < |outcomes| && x < |Stored(outcomes, i)|
    requires outcomes[i].fault != Some(Reorg) && requests[i].limits.logBlockRange > 0
    requires Calls(outcomes, i) + outcomes[i].calls <= |trace|
    requires AskedAsStored(requests[i], Stored(outcomes, i)[x], OwnCalls(outcomes, trace, i))
    ensures x < |outcomes[i].histories| == |scans[i]| && x < |StoredScans(scans, i)|
    ensures
      var (h, later, range) := (Stored(outcomes, i)[x], outcomes[i].histories[x], requests[i].limits.logBlockRange);
      var next := if h.through.Some? then h.through.value.number + 1 else h.start.number;
      var block := requests[i].block.number;
      && later.manager == h.manager && later.custodian == h.custodian && later.start == h.start
      && later.managerCode == h.managerCode && later.custodianCode == h.custodianCode
      && StoredScans(scans, i)[x] <= scans[i][x]
      && (h.failure.Some? && h.failure.value.attempts >= 4 ==> later == h)
      && (|| later == h
          || (&& later.through == h.through && later.operators == h.operators
              && outcomes[i].fault.Some? && outcomes[i].fault != Some(Budget)
              && later.failure == Some(
                   if h.failure.Some? then Failure(next, h.failure.value.to, h.failure.value.attempts + 1)
                   else Failure(next, if block - next >= range then next + range - 1 else block, 1)))
          || (&& later.through.Some? && next <= later.through.value.number <= block
              && (later.failure.Some? ==>
                    && later.failure.value.from == later.through.value.number + 1
                    && later.failure.value.attempts == 1)))
  {
    hide *;
    CarriedIn(requests, outcomes, scans, node, trace, i, x);
    var (h, later) := (Stored(outcomes, i)[x], outcomes[i].histories[x]);
    if !(later == h && scans[i][x] == StoredScans(scans, i)[x]) {
      Resumes(requests[i], h, StoredScans(scans, i)[x], later, scans[i][x], outcomes[i].fault,
              OwnCalls(outcomes, trace, i));
    }
    RecordedFields(h, later, requests[i].block.number, requests[i].limits.logBlockRange, outcomes[i].fault);
  }

  lemma CarriedIn(requests: seq<Request>, outcomes: seq<Outcome>, scans: seq<seq<seq<Chunk>>>, node: Node,
                  trace: seq<Call>, i: nat, x: nat)
    requires AllEvaluated(requests, outcomes, scans, node, trace) && i < |outcomes| && x < |Stored(outcomes, i)|
    requires outcomes[i].fault != Some(Reorg) && Calls(outcomes, i) + outcomes[i].calls <= |trace|
    ensures i < |scans| && i < |requests| && x < |outcomes[i].histories| == |scans[i]| && x < |StoredScans(scans, i)|
    ensures
      || (outcomes[i].histories[x] == Stored(outcomes, i)[x] && scans[i][x] == StoredScans(scans, i)[x])
      || CarriedAt(requests[i], |requests[i].owners|, Stored(outcomes, i)[x], StoredScans(scans, i)[x],
                   outcomes[i].histories[x], scans[i][x], outcomes[i].fault, OwnCalls(outcomes, trace, i))
  {
    StoredWhole(requests, outcomes, scans, node, trace, i);
    if i > 0 { StoredWhole(requests, outcomes, scans, node, trace, i - 1); }
    assert EvaluatedAt(requests, outcomes, scans, node, trace, i);
    hide Sound, OwnersFounded, RequestedBy, DoneFor, FaultFrom, Restorable, CarriedAt;
  }

  lemma RecordedFields(h: History, later: History, block: nat, range: nat, fault: Option<Fault>)
    requires (later == h || Recorded(h, later, block, range, fault)) && range > 0
    ensures
      var next := if h.through.Some? then h.through.value.number + 1 else h.start.number;
      && later.manager == h.manager && later.custodian == h.custodian && later.start == h.start
      && later.managerCode == h.managerCode && later.custodianCode == h.custodianCode
      && (h.failure.Some? && h.failure.value.attempts >= 4 ==> later == h)
      && (|| later == h
          || (&& later.through == h.through && later.operators == h.operators
              && fault.Some? && fault != Some(Budget)
              && later.failure == Some(
                   if h.failure.Some? then Failure(next, h.failure.value.to, h.failure.value.attempts + 1)
                   else Failure(next, if block - next >= range then next + range - 1 else block, 1)))
          || (&& later.through.Some? && next <= later.through.value.number <= block
              && (later.failure.Some? ==>
                    && later.failure.value.from == later.through.value.number + 1
                    && later.failure.value.attempts == 1)))
  {
  }

  lemma Resumes(r: Request, h: History, chunks: seq<Chunk>, later: History, laterChunks: seq<Chunk>,
                fault: Option<Fault>, own: seq<Call>)
    requires CarriedAt(r, |r.owners|, h, chunks, later, laterChunks, fault, own) && AskedAsStored(r, h, own)
    ensures chunks <= laterChunks
    ensures later == h || Recorded(h, later, r.block.number, r.limits.logBlockRange, fault)
  {
    hide Recorded, UpToDate;
    if !(later == h && laterChunks == chunks) {
      var k :| 0 <= k < |r.owners| && TouchedBy(r, k, h, chunks, later, laterChunks, fault, own);
      var code :| CodeRead(r.manager, code, own) && TouchedWith(r, k, code, h, chunks, later, laterChunks, fault);
      assert CodeCall(r.manager, Some(code)) in own;
    }
  }

  /** What was scanned is never lost over any sequence of evaluations, unless one of them reported a
      reorganisation or did not ask for the history as it was stored: for other code, another start or
      an earlier block. */
  lemma {:induction false} ChunksSurvive(requests: seq<Request>, outcomes: seq<Outcome>, scans: seq<seq<seq<Chunk>>>,
                                         node: Node, trace: seq<Call>, i: nat, j: nat, x: nat)
    requires AllEvaluated(requests, outcomes, scans, node, trace) && i <= j < |outcomes| && x < |outcomes[i].histories|
    requires forall m :: i < m <= j ==> outcomes[m].fault != Some(Reorg)
    requires forall m :: i < m <= j && x < |outcomes[m-1].histories| ==>
               && Calls(outcomes, m) + outcomes[m].calls <= |trace| && requests[m].limits.logBlockRange > 0
               && AskedAsStored(requests[m], outcomes[m-1].histories[x], OwnCalls(outcomes, trace, m))
    ensures x < |outcomes[j].histories| == |scans[j]| && x < |scans[i]|
    ensures SameKey(outcomes[j].histories[x], outcomes[i].histories[x]) && scans[i][x] <= scans[j][x]
    decreases j
  {
    hide AllEvaluated, AskedAsStored, OwnCalls, Calls;
    StoredWhole(requests, outcomes, scans, node, trace, i);
    if i < j {
      ChunksSurvive(requests, outcomes, scans, node, trace, i, j - 1, x);
      assert Stored(outcomes, j) == outcomes[j-1].histories && StoredScans(scans, j) == scans[j-1];
      HistoryResumed(requests, outcomes, scans, node, trace, j, x);
    }
  }

  lemma StoredWhole(requests: seq<Request>, outcomes: seq<Outcome>, scans: seq<seq<seq<Chunk>>>, node: Node,
                    trace: seq<Call>, i: nat)
    requires AllEvaluated(requests, outcomes, scans, node, trace) && i < |outcomes|
    ensures |scans| == |outcomes| <= |requests| && |outcomes[i].histories| == |scans[i]|
  {
    assert EvaluatedAt(requests, outcomes, scans, node, trace, i);
    SoundKeys(outcomes[i].histories, scans[i], trace);
  }

  /** After an evaluation without a fault every owner it was asked about has a history of the code that
      was read, with the requested code and start, whose checkpoint is the observed block. */
  lemma OwnersCompleted(requests: seq<Request>, outcomes: seq<Outcome>, scans: seq<seq<seq<Chunk>>>, node: Node,
                        trace: seq<Call>, i: nat, k: nat)
    requires AllEvaluated(requests, outcomes, scans, node, trace) && i < |outcomes|
    requires outcomes[i].fault.None? && k < |requests[i].owners|
    requires Calls(outcomes, i) + outcomes[i].calls <= |trace|
    ensures exists h :: h in outcomes[i].histories && HasCompleted(requests[i], k, h, OwnCalls(outcomes, trace, i))
  {
    hide Carried, OwnersFounded, FaultFrom, Restorable, LimitsKept, DoneFor, HasCompleted;
    assert EvaluatedAt(requests, outcomes, scans, node, trace, i);
    DoneMeans(requests[i], k, outcomes[i].histories, OwnCalls(outcomes, trace, i));
  }

  lemma DoneMeans(r: Request, k: nat, histories: seq<History>, own: seq<Call>)
    requires k < |r.owners| && DoneFor(r, k, histories, own)
    ensures exists h :: h in histories && HasCompleted(r, k, h, own)
  {
    var j, code :| 0 <= j < |r.owners| && DoneAs(r, k, j, code, histories, own);
    var h :| h in histories && CompletedBy(h, r.manager, r.owners[k].0, code, r.owners[j].1,
                                           StartIn(r.starts, r.owners[k].0), r.block.number);
    assert r.owners[j] == (h.custodian, h.custodianCode);
    assert HasCompleted(r, k, h, own);
  }

  ghost predicate HasCompleted(r: Request, k: nat, h: History, own: seq<Call>)
    requires k < |r.owners|
  {
    && h.manager == r.manager && h.custodian == r.owners[k].0
    && CodeCall(r.manager, Some(h.managerCode)) in own
    && (exists j :: 0 <= j < |r.owners| && r.owners[j] == (h.custodian, h.custodianCode))
    && h.start == (if h.custodian in r.starts then r.starts[h.custodian] else Reference(0, 0))
    && h.through.Some? && h.through.value.number == r.block.number
  }

  /** What an evaluation leaves of a history is what was stored, or belongs to the request: to the code
      that was read, an owner with its code and start, and no checkpoint beyond the observed block. So
      a history of other code or of another start, or with a later checkpoint, is never continued. */
  lemma ChangedBelong(requests: seq<Request>, outcomes: seq<Outcome>, scans: seq<seq<seq<Chunk>>>, node: Node,
                      trace: seq<Call>, i: nat, x: nat)
    requires AllEvaluated(requests, outcomes, scans, node, trace) && i < |outcomes|
    requires outcomes[i].fault != Some(Reorg) && x < |outcomes[i].histories|
    requires Calls(outcomes, i) + outcomes[i].calls <= |trace|
    ensures var (r, h) := (requests[i], outcomes[i].histories[x]);
            || (x < |Stored(outcomes, i)| && h == Stored(outcomes, i)[x])
            || (&& h.manager == r.manager && CodeCall(r.manager, Some(h.managerCode)) in OwnCalls(outcomes, trace, i)
                && (exists k :: 0 <= k < |r.owners| && r.owners[k] == (h.custodian, h.custodianCode))
                && h.start == (if h.custodian in r.starts then r.starts[h.custodian] else Reference(0, 0))
                && (h.through.Some? ==> h.through.value.number <= r.block.number))
  {
    assert EvaluatedAt(requests, outcomes, scans, node, trace, i);
    var (r, own, h) := (requests[i], OwnCalls(outcomes, trace, i), outcomes[i].histories[x]);
    hide OwnersFounded, FaultFrom, Restorable, LimitsKept, DoneFor, Recorded;
    if Restorable(Stored(outcomes, i)) {
      if x < |Stored(outcomes, i)| {
        var before := Stored(outcomes, i)[x];
        if h != before {
          var k :| 0 <= k < |r.owners| &&
            TouchedBy(r, k, before, StoredScans(scans, i)[x], h, scans[i][x], outcomes[i].fault, own);
          assert r.owners[k].0 == h.custodian;
          assert r.owners[k] == (h.custodian, h.custodianCode);
        }
      } else {
        assert RequestedBy(r, |r.owners|, h, own);
        var k, code :| 0 <= k < |r.owners| && RequestedAs(r, k, code, h, own);
        assert r.owners[k] == (h.custodian, h.custodianCode);
      }
    }
  }

  // What the stored histories and the verdicts rest on, in terms of calls.

  /** From that call on, the node returned the last header of the range, its logs, the block the range
      is anchored to, and the last header again. */
  predicate ReadAt(trace: seq<Call>, p: nat, manager: Address, owner: Address, c: Chunk) {
    && p + 3 <= |trace|
    && trace[p] == HeaderCall(c.to, Some(Reference(c.to, c.hash)))
    && trace[p + 1] == LogsCall(manager, owner, c.from, c.to, Some(c.logs))
    && (match c.anchor
        case None => trace[p + 2] == trace[p]
        case Some(a) => p + 4 <= |trace| && trace[p + 2] == HeaderCall(a.number, Some(a)) && trace[p + 3] == trace[p])
  }

  lemma AcceptedAt(manager: Address, owner: Address, c: Chunk, trace: seq<Call>)
    requires Scanned(manager, owner, c, trace)
    ensures exists p: nat :: ReadAt(trace, p, manager, owner, c)
  {
    var part := Accepting(manager, owner, c);
    var p: nat :| OccursAt(part, trace, p);
    var read := trace[p..p+|part|];
    assert read[0] == trace[p] && read[1] == trace[p + 1] && read[2] == trace[p + 2];
    if c.anchor.Some? { assert read[3] == trace[p + 3]; }
    assert ReadAt(trace, p, manager, owner, c);
  }

  /** Every stored history is the outcome of ranges that follow each other from its start to its
      checkpoint. The first is anchored to the start, unless that is block zero, and each other to the
      end of the one before; the node returned all of them as read here, and its operators are those of
      their logs. */
  lemma StoredRests(requests: seq<Request>, outcomes: seq<Outcome>, scans: seq<seq<seq<Chunk>>>, node: Node,
                    trace: seq<Call>, i: nat, x: nat)
    requires AllEvaluated(requests, outcomes, scans, node, trace) && i < |outcomes| && x < |outcomes[i].histories|
    ensures |scans| == |outcomes| && x < |scans[i]|
    ensures var (h, chunks) := (outcomes[i].histories[x], scans[i][x]);
            && (if chunks == [] then h.through == None
                else
                  && chunks[0].from == h.start.number
                  && chunks[0].anchor == (if h.start.number > 0 then Some(h.start) else None)
                  && h.through == Some(Reference(chunks[|chunks|-1].to, chunks[|chunks|-1].hash)))
            && (forall n :: 0 < n < |chunks| ==>
                  && chunks[n].from == chunks[n-1].to + 1
                  && chunks[n].anchor == Some(Reference(chunks[n-1].to, chunks[n-1].hash)))
            && (forall c :: c in chunks ==>
                  c.from <= c.to && exists p: nat :: ReadAt(trace, p, h.manager, h.custodian, c))
            && (forall c, l :: c in chunks && l in c.logs ==> Fits(h.manager, h.custodian, c, l))
            && (forall a :: a in h.operators <==>
                  exists c, l :: c in chunks && l in c.logs && |l.topics| == 3 && l.topics[2] == a)
  {
    hide *;
    StoredWhole(requests, outcomes, scans, node, trace, i);
    StoredBacked(requests, outcomes, scans, node, trace, i, x);
    BackedMeans(outcomes[i].histories[x], scans[i][x], trace);
  }

  lemma StoredBacked(requests: seq<Request>, outcomes: seq<Outcome>, scans: seq<seq<seq<Chunk>>>, node: Node,
                     trace: seq<Call>, i: nat, x: nat)
    requires AllEvaluated(requests, outcomes, scans, node, trace) && i < |outcomes| && x < |outcomes[i].histories|
    ensures |scans| == |outcomes| && x < |scans[i]| && Backed(outcomes[i].histories[x], scans[i][x], trace)
  {
    hide Evaluated, Backed;
    assert EvaluatedAt(requests, outcomes, scans, node, trace, i);
  }

  lemma BackedMeans(h: History, chunks: seq<Chunk>, trace: seq<Call>)
    requires Backed(h, chunks, trace)
    ensures if chunks == [] then h.through == None
            else
              && chunks[0].from == h.start.number
              && chunks[0].anchor == (if h.start.number > 0 then Some(h.start) else None)
              && h.through == Some(Reference(chunks[|chunks|-1].to, chunks[|chunks|-1].hash))
    ensures forall n :: 0 < n < |chunks| ==>
              && chunks[n].from == chunks[n-1].to + 1
              && chunks[n].anchor == Some(Reference(chunks[n-1].to, chunks[n-1].hash))
    ensures forall c :: c in chunks ==> c.from <= c.to && exists p: nat :: ReadAt(trace, p, h.manager, h.custodian, c)
    ensures forall c, l :: c in chunks && l in c.logs ==> Fits(h.manager, h.custodian, c, l)
    ensures forall a :: a in h.operators <==>
              exists c, l :: c in chunks && l in c.logs && |l.topics| == 3 && l.topics[2] == a
  {
    hide Follows, Contiguous, InChunks, Scanned, Fits, ReadAt;
    ContiguousMeans(h, chunks);
    forall c | c in chunks
      ensures c.from <= c.to && exists p: nat :: ReadAt(trace, p, h.manager, h.custodian, c)
      ensures forall l :: l in c.logs ==> Fits(h.manager, h.custodian, c, l)
    {
      var n :| 0 <= n < |chunks| && chunks[n] == c;
      ScannedMeans(h.manager, h.custodian, c, trace);
    }
    OperatorsMean(h, chunks);
  }

  lemma ScannedMeans(manager: Address, owner: Address, c: Chunk, trace: seq<Call>)
    requires Scanned(manager, owner, c, trace)
    ensures c.from <= c.to && exists p: nat :: ReadAt(trace, p, manager, owner, c)
    ensures forall l :: l in c.logs ==> Fits(manager, owner, c, l)
  {
    AcceptedAt(manager, owner, c, trace);
  }

  lemma ContiguousMeans(h: History, chunks: seq<Chunk>)
    requires Contiguous(h, chunks)
    ensures if chunks == [] then h.through == None
            else
              && chunks[0].from == h.start.number
              && chunks[0].anchor == (if h.start.number > 0 then Some(h.start) else None)
              && h.through == Some(Reference(chunks[|chunks|-1].to, chunks[|chunks|-1].hash))
    ensures forall n :: 0 < n < |chunks| ==>
              && chunks[n].from == chunks[n-1].to + 1
              && chunks[n].anchor == Some(Reference(chunks[n-1].to, chunks[n-1].hash))
  {
    assert chunks != [] ==> Follows(h, chunks, 0);
    forall n | 0 < n < |chunks|
      ensures chunks[n].from == chunks[n-1].to + 1
      ensures chunks[n].anchor == Some(Reference(chunks[n-1].to, chunks[n-1].hash))
    {
      assert Follows(h, chunks, n);
    }
  }

  lemma OperatorsMean(h: History, chunks: seq<Chunk>)
    requires forall a :: a in h.operators <==> InChunks(a, chunks)
    requires forall c, l :: c in chunks && l in c.logs ==> Fits(h.manager, h.custodian, c, l)
    ensures forall a :: a in h.operators <==>
              exists c, l :: c in chunks && l in c.logs && |l.topics| == 3 && l.topics[2] == a
  {
    forall a
      ensures InChunks(a, chunks) <==> exists c, l :: c in chunks && l in c.logs && |l.topics| == 3 && l.topics[2] == a
    {
      if InChunks(a, chunks) {
        var i, j :| 0 <= i < |chunks| && 0 <= j < |chunks[i].logs| && Operator(chunks[i].logs[j]) == a;
        assert chunks[i] in chunks && chunks[i].logs[j] in chunks[i].logs;
        FitsRule(h.manager, h.custodian, chunks[i], chunks[i].logs[j]);
      }
      if c, l :| c in chunks && l in c.logs && |l.topics| == 3 && l.topics[2] == a {
        var i :| 0 <= i < |chunks| && chunks[i] == c;
        var j :| 0 <= j < |c.logs| && c.logs[j] == l;
        assert Operator(chunks[i].logs[j]) == a;
      }
    }
  }

  /** A clear verdict: each block from the start to the observed one lies in a range that was read like
      this, all its logs are approval events, and every operator one of them names was read as not
      approved, by the word zero, at the observed block. An active verdict: some operator was read
      there as approved, by the word one. */
  lemma VerdictsRest(requests: seq<Request>, outcomes: seq<Outcome>, scans: seq<seq<seq<Chunk>>>, node: Node,
                     trace: seq<Call>, i: nat, k: nat, b: nat)
    requires AllEvaluated(requests, outcomes, scans, node, trace) && i < |outcomes| && k < |outcomes[i].verdicts|
    ensures k < |requests[i].owners|
    ensures var (r, owner) := (requests[i], requests[i].owners[k].0);
            outcomes[i].verdicts[k].Clear? && b <= r.block.number
            && (owner in r.starts ==> r.starts[owner].number <= b) ==>
              exists c: Chunk, p: nat :: c.from <= b <= c.to && ReadAt(trace, p, r.manager, owner, c)
                && forall l :: l in c.logs ==>
                     Fits(r.manager, owner, c, l) && |l.topics| == 3
                     && ApprovalCall(r.block.hash, r.manager, owner, l.topics[2], Some(Word(32, 0))) in trace
    ensures outcomes[i].verdicts[k].Active? ==>
              exists a :: ApprovalCall(requests[i].block.hash, requests[i].manager, requests[i].owners[k].0, a,
                                       Some(Word(32, 1))) in trace
  {
    assert EvaluatedAt(requests, outcomes, scans, node, trace, i);
    hide Carried, FaultFrom, Restorable, LimitsKept, DoneFor, Sound;
    var (r, owner) := (requests[i], requests[i].owners[k].0);
    assert Founded(r, owner, outcomes[i].verdicts[k], trace);
    if outcomes[i].verdicts[k].Clear? && b <= r.block.number && (owner in r.starts ==> r.starts[owner].number <= b) {
      assert JustifiedAt(r.manager, owner, r.block, trace, b);
      BlockRests(r.manager, owner, r.block, trace, b);
    }
  }

  lemma BlockRests(manager: Address, owner: Address, block: Reference, trace: seq<Call>, b: nat)
    requires JustifiedAt(manager, owner, block, trace, b)
    ensures exists c: Chunk, p: nat :: c.from <= b <= c.to && ReadAt(trace, p, manager, owner, c)
              && forall l :: l in c.logs ==>
                   Fits(manager, owner, c, l) && |l.topics| == 3
                   && ApprovalCall(block.hash, manager, owner, l.topics[2], Some(Word(32, 0))) in trace
  {
    var c: Chunk :| Covers(c, b) && Scanned(manager, owner, c, trace)
      && Unapproved(manager, owner, block.hash, c, trace);
    AcceptedAt(manager, owner, c, trace);
    var p: nat :| ReadAt(trace, p, manager, owner, c);
    forall l | l in c.logs
      ensures Fits(manager, owner, c, l) && |l.topics| == 3
      ensures ApprovalCall(block.hash, manager, owner, l.topics[2], Some(Word(32, 0))) in trace
    {
      var j :| 0 <= j < |c.logs| && c.logs[j] == l;
      FitsRule(manager, owner, c, l);
    }
  }
}
