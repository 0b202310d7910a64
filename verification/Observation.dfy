/** The background loop that confirms idle progress of an event stream: each round extends a
    verified block frontier, while the applied logs change, are evicted, or are replaced. */
module Observation {
  import opened Wrappers
  import opened Journal

  const MAX_BLOCKS := 1024

  datatype Cursor = Cursor(block: nat, hash: Hash, index: nat, hasLog: bool)

  datatype State = State(baseline: Cursor, cursor: Cursor, epoch: nat, revision: nat, receivedAt: int)

  datatype Header = Header(number: nat, hash: Hash)

  /** What the node answers to the requests of one proof, each made at most once; a missing
      answer is a failed request. */
  datatype Answers = Answers(
    head: Option<Header>, cursorBefore: Option<Header>, logs: Option<seq<Log>>,
    cursorAfter: Option<Header>, headAfter: Option<Header>, expired: bool)

  datatype Proof = Advanced(next: Cursor) | Waiting | Unavailable | Inconsistent

  const NO_CURSOR := Cursor(0, 0, 0, false)
  const NO_STATE := State(NO_CURSOR, NO_CURSOR, 0, 0, 0)

  // ---------- One proof ----------

  /** First block whose logs the cursor has not completely applied. */
  function Start(c: Cursor): nat { if c.hasLog then c.block else c.block + 1 }

  predicate Confirms(h: Option<Header>, number: nat, hash: Hash) {
    h == Some(Header(number, hash))
  }

  /** The log is live and belongs to the requested range of the cursor's chain. */
  predicate InRange(cursor: Cursor, head: Header, log: Log) {
    && !log.removed && log.blockHash != 0
    && Start(cursor) <= log.block <= head.number
    && (log.block == cursor.block ==> log.blockHash == cursor.hash)
  }

  predicate LogOk(sha: Digest, cursor: Cursor, head: Header, applied: Evidence, log: Log) {
    InRange(cursor, head, log) && Contains(sha, applied, log)
  }

  predicate Contains(sha: Digest, applied: Evidence, log: Log) {
    KeyOf(log) in applied && applied[KeyOf(log)] == Fingerprint(sha, log)
  }

  /** One of the logs has this identity and this fingerprint. */
  ghost predicate Returned(sha: Digest, logs: seq<Log>, key: Key, digest: Hash) {
    exists i :: 0 <= i < |logs| && KeyOf(logs[i]) == key && Fingerprint(sha, logs[i]) == digest
  }

  ghost predicate KeyOk(sha: Digest, cursor: Cursor, head: Header, logs: seq<Log>, key: Key, digest: Hash) {
    && key.block <= head.number
    && (key.block >= Start(cursor) ==> Returned(sha, logs, key, digest))
  }

  /** The answers verify the range from the cursor to the head: every returned log was applied,
      every applied log in the range was returned, and both ends are canonical before and after. */
  ghost predicate Verifies(sha: Digest, cursor: Cursor, applied: Evidence, a: Answers) {
    && cursor.hash != 0
    && a.head.Some? && a.head.value.hash != 0
    && cursor.block <= a.head.value.number <= cursor.block + MAX_BLOCKS
    && Start(cursor) <= a.head.value.number
    && (a.head.value.number == cursor.block ==> a.head.value.hash == cursor.hash)
    && Confirms(a.cursorBefore, cursor.block, cursor.hash)
    && a.logs.Some?
    && (forall i :: 0 <= i < |a.logs.value| ==> LogOk(sha, cursor, a.head.value, applied, a.logs.value[i]))
    && (forall k :: k in applied ==> KeyOk(sha, cursor, a.head.value, a.logs.value, k, applied[k]))
    && Confirms(a.cursorAfter, cursor.block, cursor.hash)
    && Confirms(a.headAfter, a.head.value.number, a.head.value.hash)
    && !a.expired
  }

  function HeadCursor(h: Header): Cursor { Cursor(h.number, h.hash, 0, false) }

  // What comes first decides, in the order of the requests.

  /** The outcome of the head and of the cursor's block, if it is decided by them. */
  function HeadFault(addresses: nat, cursor: Cursor, a: Answers): (r: Option<Proof>)
    ensures r.None? ==> a.head.Some? && a.logs.Some?
  {
    if cursor.hash == 0 || addresses == 0 then Some(Inconsistent)
    else if a.head.None? then Some(Unavailable)
    else
      var head := a.head.value;
      if head.hash == 0 then Some(Inconsistent)
      else if head.number < cursor.block || a.cursorBefore.None? then Some(Unavailable)
      else if !Confirms(a.cursorBefore, cursor.block, cursor.hash) then Some(Inconsistent)
      else if head.number == cursor.block && head.hash != cursor.hash then Some(Inconsistent)
      else if head.number == cursor.block && !cursor.hasLog then Some(Waiting)
      else if head.number - cursor.block > MAX_BLOCKS then Some(Inconsistent)
      else if a.logs.None? then Some(Unavailable)
      else None
  }

  /** The outcome of the first returned log that is out of range, or not applied yet. */
  ghost function LogFault(sha: Digest, cursor: Cursor, head: Header, applied: Evidence, logs: seq<Log>): Option<Proof> {
    if logs == [] then None
    else
      var n := |logs| - 1;
      var before := LogFault(sha, cursor, head, applied, logs[..n]);
      if before.Some? then before
      else if !InRange(cursor, head, logs[n]) then Some(Inconsistent)
      else if !Contains(sha, applied, logs[n]) then Some(Waiting)
      else None
  }

  /** An applied log lies beyond the head. */
  ghost predicate Beyond(head: Header, applied: Evidence) { exists k :: k in applied && k.block > head.number }

  /** An applied log of the range was not returned. */
  ghost predicate Unreturned(sha: Digest, cursor: Cursor, head: Header, applied: Evidence, logs: seq<Log>) {
    exists k :: k in applied && UnreturnedAt(sha, cursor, head, applied, logs, k)
  }

  ghost predicate UnreturnedAt(sha: Digest, cursor: Cursor, head: Header, applied: Evidence, logs: seq<Log>, k: Key)
    requires k in applied
  {
    Start(cursor) <= k.block <= head.number && !Returned(sha, logs, k, applied[k])
  }

  /** The outcome of the last requests, which repeat the first. */
  function EndFault(cursor: Cursor, head: Header, a: Answers): Option<Proof> {
    if a.cursorAfter.None? then Some(Unavailable)
    else if !Confirms(a.cursorAfter, cursor.block, cursor.hash) then Some(Inconsistent)
    else if a.headAfter.None? then Some(Unavailable)
    else if !Confirms(a.headAfter, head.number, head.hash) then Some(Inconsistent)
    else if a.expired then Some(Unavailable)
    else None
  }

  /** The outcome is that of the first cause. Only the applied logs are compared in no given order,
      so that two causes found there leave it open which of them decides. */
  ghost predicate Allowed(sha: Digest, addresses: nat, cursor: Cursor, applied: Evidence, a: Answers, p: Proof) {
    var first := HeadFault(addresses, cursor, a);
    if first.Some? then first == Some(p)
    else
      var head, logs := a.head.value, a.logs.value;
      var fault := LogFault(sha, cursor, head, applied, logs);
      if fault.Some? then fault == Some(p)
      else if Beyond(head, applied) || Unreturned(sha, cursor, head, applied, logs) then
        (p == Waiting && Beyond(head, applied)) || (p == Inconsistent && Unreturned(sha, cursor, head, applied, logs))
      else
        var last := EndFault(cursor, head, a);
        if last.Some? then last == Some(p) else p == Advanced(HeadCursor(head))
  }

  /** The applied logs are compared, and have both causes. */
  ghost predicate Undecided(sha: Digest, addresses: nat, cursor: Cursor, applied: Evidence, a: Answers) {
    && HeadFault(addresses, cursor, a).None?
    && LogFault(sha, cursor, a.head.value, applied, a.logs.value).None?
    && Beyond(a.head.value, applied) && Unreturned(sha, cursor, a.head.value, applied, a.logs.value)
  }

  lemma {:induction false} NoLogFault(sha: Digest, cursor: Cursor, head: Header, applied: Evidence, logs: seq<Log>)
    ensures LogFault(sha, cursor, head, applied, logs).None? <==>
            forall i :: 0 <= i < |logs| ==> LogOk(sha, cursor, head, applied, logs[i])
    ensures LogFault(sha, cursor, head, applied, logs).Some? ==>
              var p := LogFault(sha, cursor, head, applied, logs).value;
              p == Waiting || p == Inconsistent
  {
    hide InRange, Contains;
    if logs != [] { NoLogFault(sha, cursor, head, applied, logs[..|logs|-1]); }
  }

  lemma {:induction false} FirstStays(sha: Digest, cursor: Cursor, head: Header, applied: Evidence, logs: seq<Log>,
                                      n: nat)
    requires n <= |logs| && LogFault(sha, cursor, head, applied, logs[..n]).Some?
    ensures LogFault(sha, cursor, head, applied, logs) == LogFault(sha, cursor, head, applied, logs[..n])
    decreases |logs|
  {
    hide InRange, Contains;
    if n == |logs| {
      assert logs[..n] == logs;
    } else {
      var last := |logs| - 1;
      assert logs[..last][..n] == logs[..n];
      FirstStays(sha, cursor, head, applied, logs[..last], n);
    }
  }

  /** Once all returned logs are in range, the applied logs agree with them if and only if none lies
      beyond the head and none of the range is missing. */
  lemma AppliedAgree(sha: Digest, cursor: Cursor, head: Header, applied: Evidence, logs: seq<Log>)
    ensures (forall k :: k in applied ==> KeyOk(sha, cursor, head, logs, k, applied[k])) <==>
            !Beyond(head, applied) && !Unreturned(sha, cursor, head, applied, logs)
  {
    hide Returned;
    if !Beyond(head, applied) && !Unreturned(sha, cursor, head, applied, logs) {
      forall k | k in applied
        ensures KeyOk(sha, cursor, head, logs, k, applied[k])
      {
        assert !UnreturnedAt(sha, cursor, head, applied, logs, k);
      }
    }
  }

  /** A proof advances exactly when the answers verify the range, and then to the head. */
  lemma AdvancesExactly(sha: Digest, addresses: nat, cursor: Cursor, applied: Evidence, a: Answers, p: Proof)
    requires Allowed(sha, addresses, cursor, applied, a, p)
    ensures p.Advanced? <==> addresses > 0 && Verifies(sha, cursor, applied, a)
    ensures p.Advanced? ==> a.head.Some? && p.next == Cursor(a.head.value.number, a.head.value.hash, 0, false)
  {
    hide KeyOk, LogOk, LogFault, Beyond, Unreturned;
    if HeadFault(addresses, cursor, a).None? {
      NoLogFault(sha, cursor, a.head.value, applied, a.logs.value);
      AppliedAgree(sha, cursor, a.head.value, applied, a.logs.value);
    }
  }

  /** What the other outcomes mean, whatever the order of the causes. Unavailable: a request has no
      answer, the context expired, or the head is behind the cursor. Inconsistent: an answer that is
      there contradicts the cursor, the head, or the applied logs. Waiting: nothing contradicts the
      cursor, but the head stands still, a returned log is not applied yet, or an applied log lies
      beyond the head. */
  lemma OutcomesMean(sha: Digest, addresses: nat, cursor: Cursor, applied: Evidence, a: Answers, p: Proof)
    requires Allowed(sha, addresses, cursor, applied, a, p)
    ensures p == Unavailable ==>
              || a.head == None || a.head.value.number < cursor.block || a.cursorBefore == None || a.logs == None
              || a.cursorAfter == None || a.headAfter == None || a.expired
    ensures p == Inconsistent ==>
              || cursor.hash == 0 || addresses == 0
              || (a.head.Some? && (|| a.head.value.hash == 0
                                   || a.head.value.number > cursor.block + 1024
                                   || (a.head.value.number == cursor.block && a.head.value.hash != cursor.hash)
                                   || (a.headAfter.Some? && a.headAfter != a.head)))
              || (a.cursorBefore.Some? && a.cursorBefore.value != Header(cursor.block, cursor.hash))
              || (a.cursorAfter.Some? && a.cursorAfter.value != Header(cursor.block, cursor.hash))
              || (a.head.Some? && a.logs.Some? &&
                  (|| (exists l :: l in a.logs.value && Misplaced(cursor, a.head.value, l))
                   || Unreturned(sha, cursor, a.head.value, applied, a.logs.value)))
    ensures p == Waiting ==>
              && a.head.Some? && a.cursorBefore == Some(Header(cursor.block, cursor.hash))
              && (|| (a.head.value == Header(cursor.block, cursor.hash) && !cursor.hasLog)
                  || (a.logs.Some? && exists l :: l in a.logs.value && Unapplied(sha, applied, l))
                  || exists k :: k in applied && k.block > a.head.value.number)
  {
    hide Unreturned, LogFault, Fingerprint;
    if HeadFault(addresses, cursor, a).None? { FirstLogFault(sha, cursor, a.head.value, applied, a.logs.value); }
  }

  /** A removed log, one of no block, outside the range, or on another branch. */
  predicate Misplaced(cursor: Cursor, head: Header, l: Log) {
    || l.removed || l.blockHash == 0 || l.block < cursor.block || (l.block == cursor.block && !cursor.hasLog)
    || l.block > head.number || (l.block == cursor.block && l.blockHash != cursor.hash)
  }

  predicate Unapplied(sha: Digest, applied: Evidence, l: Log) {
    Key(l.block, l.blockHash, l.index) !in applied
    || applied[Key(l.block, l.blockHash, l.index)] != Fingerprint(sha, l)
  }

  lemma {:induction false} FirstLogFault(sha: Digest, cursor: Cursor, head: Header, applied: Evidence, logs: seq<Log>)
    ensures LogFault(sha, cursor, head, applied, logs) == Some(Inconsistent) ==>
              exists l :: l in logs && Misplaced(cursor, head, l)
    ensures LogFault(sha, cursor, head, applied, logs) == Some(Waiting) ==>
              exists l :: l in logs && Unapplied(sha, applied, l)
    ensures var r := LogFault(sha, cursor, head, applied, logs);
            r == None || r == Some(Inconsistent) || r == Some(Waiting)
  {
    hide Fingerprint;
    if logs != [] {
      var n := |logs| - 1;
      FirstLogFault(sha, cursor, head, applied, logs[..n]);
      assert logs[n] in logs && forall l :: l in logs[..n] ==> l in logs;
    }
  }

  lemma AllowedAdvances(sha: Digest, addresses: nat, cursor: Cursor, applied: Evidence, a: Answers)
    ensures forall p :: Allowed(sha, addresses, cursor, applied, a, p) ==>
              && (p.Advanced? <==> addresses > 0 && Verifies(sha, cursor, applied, a))
              && (p.Advanced? ==> a.head.Some? && p.next == HeadCursor(a.head.value))
  {
    hide Allowed, Verifies;
    forall p | Allowed(sha, addresses, cursor, applied, a, p)
      ensures p.Advanced? <==> addresses > 0 && Verifies(sha, cursor, applied, a)
      ensures p.Advanced? ==> a.head.Some? && p.next == HeadCursor(a.head.value)
    {
      AdvancesExactly(sha, addresses, cursor, applied, a, p);
    }
  }

  /** The outcome is fixed by the answers, except when the applied logs are compared, one of them
      lies beyond the head and another was not returned: then the order of the map decides whether
      the loop waits or stops. */
  lemma Determined(sha: Digest, addresses: nat, cursor: Cursor, applied: Evidence, a: Answers)
    ensures exists p :: Allowed(sha, addresses, cursor, applied, a, p)
    ensures (forall p, q ::
               Allowed(sha, addresses, cursor, applied, a, p) && Allowed(sha, addresses, cursor, applied, a, q) ==>
                 p == q) <==> !Undecided(sha, addresses, cursor, applied, a)
  {
    hide HeadFault, LogFault, Beyond, Unreturned, EndFault;
    if HeadFault(addresses, cursor, a).Some? {
      assert Allowed(sha, addresses, cursor, applied, a, HeadFault(addresses, cursor, a).value);
    } else {
      var head, logs := a.head.value, a.logs.value;
      var fault := LogFault(sha, cursor, head, applied, logs);
      if fault.Some? {
        assert Allowed(sha, addresses, cursor, applied, a, fault.value);
      } else if Beyond(head, applied) {
        assert Allowed(sha, addresses, cursor, applied, a, Waiting);
        if Unreturned(sha, cursor, head, applied, logs) {
          assert Allowed(sha, addresses, cursor, applied, a, Inconsistent);
        }
      } else if Unreturned(sha, cursor, head, applied, logs) {
        assert Allowed(sha, addresses, cursor, applied, a, Inconsistent);
      } else if EndFault(cursor, head, a).Some? {
        assert Allowed(sha, addresses, cursor, applied, a, EndFault(cursor, head, a).value);
      } else {
        assert Allowed(sha, addresses, cursor, applied, a, Advanced(HeadCursor(head)));
      }
    }
  }

  /** The evidence of the returned logs, or the outcome of the first that is out of range or not
      applied. */
  method CheckLogs(sha: Digest, cursor: Cursor, head: Header, applied: Evidence, logs: seq<Log>)
    returns (fault: Option<Proof>, canonical: Evidence)
    ensures fault == LogFault(sha, cursor, head, applied, logs)
    ensures fault.None? ==> forall k :: k in canonical ==> k in applied && canonical[k] == applied[k]
    ensures fault.None? ==> forall k :: k in canonical <==> exists j :: 0 <= j < |logs| && KeyOf(logs[j]) == k
  {
    hide Contains;
    var from := cursor.block;
    if !cursor.hasLog { from := from + 1; }
    canonical := map[];
    for i := 0 to |logs|
      invariant LogFault(sha, cursor, head, applied, logs[..i]).None?
      invariant forall k :: k in canonical <==> exists j :: 0 <= j < i && KeyOf(logs[j]) == k
      invariant forall k :: k in canonical ==> k in applied && canonical[k] == applied[k]
    {
      var log := logs[i];
      assert logs[..i+1][..i] == logs[..i];
      if LogFault(sha, cursor, head, applied, logs[..i+1]).Some? {
        FirstStays(sha, cursor, head, applied, logs, i + 1);
      }
      if log.removed || log.blockHash == 0 || log.block < from || log.block > head.number {
        return Some(Inconsistent), canonical;
      }
      if log.block == cursor.block && log.blockHash != cursor.hash { return Some(Inconsistent), canonical; }
      if !Contains(sha, applied, log) { return Some(Waiting), canonical; }
      ContainedLog(sha, applied, log);
      canonical := canonical[KeyOf(log) := Fingerprint(sha, log)];
    }
    assert logs[..|logs|] == logs;
    fault := None;
  }

  lemma ContainedLog(sha: Digest, applied: Evidence, log: Log)
    requires Contains(sha, applied, log)
    ensures KeyOf(log) in applied && applied[KeyOf(log)] == Fingerprint(sha, log)
  {
  }

  /** Whether each applied log of the range was returned and none lies beyond the head, looking at
      them in any order. */
  method CheckApplied(sha: Digest, cursor: Cursor, head: Header, applied: Evidence, logs: seq<Log>, canonical: Evidence)
    returns (fault: Option<Proof>)
    requires forall k :: 0 <= k < |logs| ==> LogOk(sha, cursor, head, applied, logs[k])
    requires forall k :: k in canonical ==> k in applied && canonical[k] == applied[k]
    requires forall k :: k in canonical <==> exists j :: 0 <= j < |logs| && KeyOf(logs[j]) == k
    ensures fault.None? ==> forall k :: k in applied ==> KeyOk(sha, cursor, head, logs, k, applied[k])
    ensures fault.Some? ==>
      || (fault.value == Waiting && Beyond(head, applied))
      || (fault.value == Inconsistent && Unreturned(sha, cursor, head, applied, logs))
  {
    var todo := applied.Keys;
    while todo != {}
      invariant todo <= applied.Keys
      invariant forall k :: k in applied && k !in todo ==> KeyOk(sha, cursor, head, logs, k, applied[k])
    {
      var k :| k in todo;
      if k.block > head.number { return Some(Waiting); }
      if k.block >= Start(cursor) {
        if k !in canonical || canonical[k] != applied[k] {
          assert UnreturnedAt(sha, cursor, head, applied, logs, k);
          return Some(Inconsistent);
        }
        var j :| 0 <= j < |logs| && KeyOf(logs[j]) == k;
        assert LogOk(sha, cursor, head, applied, logs[j]);
      }
      todo := todo - {k};
    }
    return None;
  }

  /** Proves a range: the requests one after the other. */
  method Prove(sha: Digest, addresses: nat, cursor: Cursor, applied: Evidence, a: Answers) returns (p: Proof)
    ensures Allowed(sha, addresses, cursor, applied, a, p)
    ensures p.Advanced? <==> addresses > 0 && Verifies(sha, cursor, applied, a)
    ensures p.Advanced? ==> a.head.Some? && p.next == HeadCursor(a.head.value)
  {
    hide LogOk, KeyOk, LogFault, Beyond, Unreturned, Verifies;
    AllowedAdvances(sha, addresses, cursor, applied, a);
    if cursor.hash == 0 || addresses == 0 { return Inconsistent; }
    if a.head.None? { return Unavailable; }
    var head := a.head.value;
    if head.hash == 0 { return Inconsistent; }
    if head.number < cursor.block { return Unavailable; }
    if a.cursorBefore.None? { return Unavailable; }
    if !Confirms(a.cursorBefore, cursor.block, cursor.hash) { return Inconsistent; }
    if head.number == cursor.block && head.hash != cursor.hash { return Inconsistent; }
    if head.number == cursor.block && !cursor.hasLog { return Waiting; }
    if head.number - cursor.block > MAX_BLOCKS { return Inconsistent; }
    if a.logs.None? { return Unavailable; }
    var fault, canonical := CheckLogs(sha, cursor, head, applied, a.logs.value);
    if fault.Some? { return fault.value; }
    NoLogFault(sha, cursor, head, applied, a.logs.value);
    fault := CheckApplied(sha, cursor, head, applied, a.logs.value, canonical);
    AppliedAgree(sha, cursor, head, applied, a.logs.value);
    if fault.Some? { return fault.value; }
    if a.cursorAfter.None? { return Unavailable; }
    if !Confirms(a.cursorAfter, cursor.block, cursor.hash) { return Inconsistent; }
    if a.headAfter.None? { return Unavailable; }
    if !Confirms(a.headAfter, head.number, head.hash) { return Inconsistent; }
    if a.expired { return Unavailable; }
    return Advanced(Cursor(head.number, head.hash, 0, false));
  }

  // ---------- Continuing a proof ----------

  /** Whether the verified prefix still holds for the current state and its evidence. */
  predicate Continues(previous: State, current: State, before: Evidence, after: Evidence, frontier: Cursor) {
    && frontier.hash != 0 && previous.baseline == current.baseline
    && previous.epoch == current.epoch && previous.revision == current.revision
    && current.receivedAt >= previous.receivedAt
    && (if previous.cursor == current.cursor then previous.receivedAt == current.receivedAt
        else
          && current.cursor.block > frontier.block && current.cursor.block >= previous.cursor.block
          && (current.cursor.block == previous.cursor.block ==>
                && current.cursor.hash == previous.cursor.hash && current.cursor.hasLog
                && (previous.cursor.hasLog ==> current.cursor.index > previous.cursor.index)))
    && forall k :: k in after && k.block <= frontier.block ==> k in before && before[k] == after[k]
  }

  // ---------- One round of the loop ----------

  datatype Reading = Reading(state: State, applied: Evidence)

  /** The owner's state before and after a proof; none while it is inactive. */
  datatype Round = Round(
    first: Option<Reading>, answers: Answers, proof: Proof, second: Option<Reading>, cancelled: bool)

  datatype Watch = Watch(previous: State, evidence: Evidence, frontier: Cursor)

  datatype Output = Silent | Published(state: State) | Stopped

  const NEW_WATCH := Watch(NO_STATE, map[], NO_CURSOR)

  /** The frontier a round proves from. */
  function Begin(w: Watch, r: Reading): Cursor {
    if Continues(w.previous, r.state, w.evidence, r.applied, w.frontier) then w.frontier else r.state.baseline
  }

  /** The position lies before the baseline: an error of the owner. */
  predicate Behind(s: State) { s.cursor.block < s.baseline.block }

  function Step(w: Watch, r: Round): (Watch, Output) {
    if r.first.None? then (w.(previous := NO_STATE), Silent)
    else
      var Reading(state, applied) := r.first.value;
      var begun := Watch(state, applied, Begin(w, r.first.value));
      if Behind(state) then (begun, Stopped)
      else if r.cancelled then (begun, Stopped)
      else if r.proof == Unavailable then
        (if r.second.None? then begun.(previous := NO_STATE) else begun, Silent)
      else if r.second.None? then (begun.(previous := NO_STATE), Silent)
      else if r.second.value.state != state then
        (if r.proof.Advanced? && Continues(state, r.second.value.state, applied, r.second.value.applied, r.proof.next)
         then begun.(frontier := r.proof.next) else begun, Silent)
      else if r.proof == Inconsistent then (begun, Stopped)
      else if r.proof.Advanced? then (begun.(frontier := r.proof.next), Published(state))
      else (begun, Silent)
  }

  /** The proof of a round is one the loop could have obtained; a round without one has nothing to
      report. */
  ghost predicate Possible(sha: Digest, addresses: nat, w: Watch, r: Round) {
    if r.first.Some? && !Behind(r.first.value.state) then
      Allowed(sha, addresses, Begin(w, r.first.value), r.first.value.applied, r.answers, r.proof)
    else r.proof == Waiting
  }

  // ---------- What has been verified ----------

  /** One verified range with the evidence it was checked against and the logs it returned. */
  datatype Range = Range(from: nat, to: nat, applied: Evidence, logs: seq<Log>)

  /** The verified ranges since the frontier was last set to a baseline. */
  datatype History = History(anchor: Cursor, ranges: seq<Range>)

  /** Whether the round moves the frontier to the head it proved. */
  predicate Extends(w: Watch, r: Round) {
    && r.first.Some? && !Behind(r.first.value.state)
    && !r.cancelled && r.proof.Advanced? && r.second.Some?
    && (r.second.value.state == r.first.value.state
        || Continues(r.first.value.state, r.second.value.state, r.first.value.applied, r.second.value.applied,
                     r.proof.next))
  }

  function Kept(h: History, w: Watch, r: Reading): History {
    if Continues(w.previous, r.state, w.evidence, r.applied, w.frontier) then h
    else History(r.state.baseline, [])
  }

  function Note(h: History, w: Watch, r: Round): History {
    if r.first.None? then h
    else
      var kept := Kept(h, w, r.first.value);
      if Extends(w, r) && r.answers.head.Some? && r.answers.logs.Some? then
        kept.(ranges := kept.ranges + [Range(Start(Begin(w, r.first.value)), r.answers.head.value.number,
                                             r.first.value.applied, r.answers.logs.value)])
      else kept
  }

  /** First block that is not verified yet. */
  function Next(h: History): nat {
    if h.ranges == [] then Start(h.anchor) else h.ranges[|h.ranges|-1].to + 1
  }

  /** The ranges cover the blocks from the anchor on, in order and without a gap. */
  ghost predicate Tiles(h: History) {
    && (h.ranges != [] ==> h.ranges[0].from == Start(h.anchor))
    && (forall i :: 0 <= i < |h.ranges| ==> h.ranges[i].from <= h.ranges[i].to)
    && (forall i :: 0 <= i < |h.ranges| - 1 ==> h.ranges[i+1].from == h.ranges[i].to + 1)
  }

  /** Every returned log lies in its range and was in the evidence with an equal fingerprint. */
  ghost predicate Backed(sha: Digest, h: History) {
    forall i :: 0 <= i < |h.ranges| ==> RangeBacked(sha, h.ranges[i])
  }

  ghost predicate RangeBacked(sha: Digest, r: Range) {
    forall j :: 0 <= j < |r.logs| ==>
      r.from <= r.logs[j].block <= r.to && Contains(sha, r.applied, r.logs[j])
  }

  ghost predicate InHistory(sha: Digest, h: History, key: Key, digest: Hash) {
    exists i :: 0 <= i < |h.ranges| && Returned(sha, h.ranges[i].logs, key, digest)
  }

  /** Every entry of the evidence in a verified block was returned by the node. */
  ghost predicate Explained(sha: Digest, h: History, e: Evidence) {
    forall k :: k in e && Start(h.anchor) <= k.block < Next(h) ==> InHistory(sha, h, k, e[k])
  }

  ghost predicate Inv(sha: Digest, w: Watch, h: History) {
    && Tiles(h) && Backed(sha, h) && Explained(sha, h, w.evidence)
    && Start(w.frontier) == Next(h)
    && (w.frontier.hash != 0 && h.ranges != [] ==> !w.frontier.hasLog)
    && (w.previous.baseline == h.anchor || w.previous.baseline == NO_CURSOR)
    && (h.ranges == [] ==> w.frontier == h.anchor)
    && (h.ranges != [] ==> h.anchor.hash != 0)
  }

  lemma InitialInv(sha: Digest)
    ensures Inv(sha, NEW_WATCH, History(NO_CURSOR, []))
  {
  }

  /** The state of the loop after it chose where to prove from. */
  lemma BeginInv(sha: Digest, w: Watch, h: History, r: Reading)
    requires Inv(sha, w, h)
    ensures Inv(sha, Watch(r.state, r.applied, Begin(w, r)), Kept(h, w, r))
    ensures r.state.baseline != NO_CURSOR ==> Kept(h, w, r).anchor == r.state.baseline
    ensures Begin(w, r).hash != 0 ==> Kept(h, w, r).anchor.hash != 0
  {
    if Continues(w.previous, r.state, w.evidence, r.applied, w.frontier) {
      forall k | k in r.applied && Start(h.anchor) <= k.block < Next(h)
        ensures InHistory(sha, h, k, r.applied[k])
      {
        if k.block <= w.frontier.block {
          assert k in w.evidence && w.evidence[k] == r.applied[k];
        }
      }
    }
  }

  /** A verified range extends what was verified before, for the evidence it was checked with. */
  lemma ExtendInv(sha: Digest, w: Watch, h: History, a: Answers)
    requires Inv(sha, w, h) && Verifies(sha, w.frontier, w.evidence, a)
    ensures
      var range := Range(Start(w.frontier), a.head.value.number, w.evidence, a.logs.value);
      var h' := h.(ranges := h.ranges + [range]);
      && Inv(sha, w.(frontier := HeadCursor(a.head.value)), h')
      && forall k :: k in w.evidence && Start(h.anchor) <= k.block ==> InHistory(sha, h', k, w.evidence[k])
  {
    var range := Range(Start(w.frontier), a.head.value.number, w.evidence, a.logs.value);
    var h' := h.(ranges := h.ranges + [range]);
    var n := |h.ranges|;
    assert h'.ranges[n] == range && forall i :: 0 <= i < n ==> h'.ranges[i] == h.ranges[i];
    assert RangeBacked(sha, range) by {
      forall j | 0 <= j < |range.logs|
        ensures range.from <= range.logs[j].block <= range.to && Contains(sha, range.applied, range.logs[j])
      {
        assert LogOk(sha, w.frontier, a.head.value, w.evidence, a.logs.value[j]);
      }
    }
    forall k | k in w.evidence && Start(h.anchor) <= k.block
      ensures InHistory(sha, h', k, w.evidence[k])
    {
      assert KeyOk(sha, w.frontier, a.head.value, a.logs.value, k, w.evidence[k]);
      if k.block >= range.from {
        assert Returned(sha, h'.ranges[n].logs, k, w.evidence[k]);
      } else {
        assert InHistory(sha, h, k, w.evidence[k]);
        var i :| 0 <= i < n && Returned(sha, h.ranges[i].logs, k, w.evidence[k]);
        assert Returned(sha, h'.ranges[i].logs, k, w.evidence[k]);
      }
    }
  }

  /** A round that proves something has verified it. */
  lemma PossibleAdvance(sha: Digest, addresses: nat, w: Watch, r: Round)
    requires Possible(sha, addresses, w, r) && r.first.Some?
    ensures r.proof.Advanced? ==>
              && Verifies(sha, Begin(w, r.first.value), r.first.value.applied, r.answers)
              && r.proof.next == HeadCursor(r.answers.head.value)
  {
    hide Allowed, Verifies;
    if !Behind(r.first.value.state) {
      AdvancesExactly(sha, addresses, Begin(w, r.first.value), r.first.value.applied, r.answers, r.proof);
    }
  }

  lemma StepInv(sha: Digest, addresses: nat, w: Watch, h: History, r: Round)
    requires Inv(sha, w, h) && Possible(sha, addresses, w, r)
    ensures Inv(sha, Step(w, r).0, Note(h, w, r))
  {
    hide Tiles, Backed, Explained, Allowed, Continues, LogOk, KeyOk;
    if r.first.Some? {
      BeginInv(sha, w, h, r.first.value);
      var begun, kept := Watch(r.first.value.state, r.first.value.applied, Begin(w, r.first.value)),
        Kept(h, w, r.first.value);
      PossibleAdvance(sha, addresses, w, r);
      if Extends(w, r) {
        ExtendInv(sha, begun, kept, r.answers);
      }
    }
  }

  /** What a publication rests on: the verified ranges tile the blocks from their anchor to the
      proved head without a gap; every log they returned was in the evidence its range was checked
      with, with an equal fingerprint; and no entry of the current evidence from the anchor on lies
      outside those logs. The anchor is the baseline of the published state exactly when that is
      not the zero cursor. */
  lemma PublicationProved(sha: Digest, addresses: nat, w: Watch, h: History, r: Round)
    requires Inv(sha, w, h) && Possible(sha, addresses, w, r) && Step(w, r).1.Published?
    ensures
      var h' := Note(h, w, r);
      && Tiles(h') && Backed(sha, h') && h'.ranges != []
      && Next(h') == r.proof.next.block + 1
      && Step(w, r).1.state == r.first.value.state
      && (h'.anchor == r.first.value.state.baseline <==> r.first.value.state.baseline != NO_CURSOR)
      && (forall k :: k in r.first.value.applied && k.block >= Start(h'.anchor) ==>
            k.block < Next(h') && InHistory(sha, h', k, r.first.value.applied[k]))
  {
    hide Tiles, Backed, Allowed, Continues, LogOk, InHistory;
    if r.first.Some? { PossibleAdvance(sha, addresses, w, r); }
    BeginInv(sha, w, h, r.first.value);
    var begun, kept := Watch(r.first.value.state, r.first.value.applied, Begin(w, r.first.value)),
      Kept(h, w, r.first.value);
    ExtendInv(sha, begun, kept, r.answers);
    StepInv(sha, addresses, w, h, r);
    forall k | k in r.first.value.applied && k.block >= Start(kept.anchor)
      ensures k.block < Next(Note(h, w, r))
    {
      assert KeyOk(sha, begun.frontier, r.answers.head.value, r.answers.logs.value, k, r.first.value.applied[k]);
    }
  }

  // ---------- Whole runs ----------

  function WatchAfter(rounds: seq<Round>): Watch {
    if rounds == [] then NEW_WATCH else Step(WatchAfter(rounds[..|rounds|-1]), rounds[|rounds|-1]).0
  }

  function HistoryAfter(rounds: seq<Round>): History {
    if rounds == [] then History(NO_CURSOR, [])
    else Note(HistoryAfter(rounds[..|rounds|-1]), WatchAfter(rounds[..|rounds|-1]), rounds[|rounds|-1])
  }

  ghost predicate PossibleAt(sha: Digest, addresses: nat, rounds: seq<Round>, i: nat)
    requires i < |rounds|
  {
    Possible(sha, addresses, WatchAfter(rounds[..i]), rounds[i])
  }

  ghost predicate PossibleRun(sha: Digest, addresses: nat, rounds: seq<Round>) {
    forall i :: 0 <= i < |rounds| ==> PossibleAt(sha, addresses, rounds, i)
  }

  lemma PossiblePrefix(sha: Digest, addresses: nat, rounds: seq<Round>)
    requires rounds != [] && PossibleRun(sha, addresses, rounds)
    ensures PossibleRun(sha, addresses, rounds[..|rounds|-1])
    ensures Possible(sha, addresses, WatchAfter(rounds[..|rounds|-1]), rounds[|rounds|-1])
  {
    hide Possible;
    var n := |rounds| - 1;
    assert PossibleAt(sha, addresses, rounds, n);
    forall i | 0 <= i < n
      ensures PossibleAt(sha, addresses, rounds[..n], i)
    {
      assert rounds[..n][..i] == rounds[..i];
      assert PossibleAt(sha, addresses, rounds, i);
    }
  }

  lemma {:induction false} RunInv(sha: Digest, addresses: nat, rounds: seq<Round>)
    requires PossibleRun(sha, addresses, rounds)
    ensures Inv(sha, WatchAfter(rounds), HistoryAfter(rounds))
  {
    if rounds == [] {
      InitialInv(sha);
    } else {
      var n := |rounds| - 1;
      PossiblePrefix(sha, addresses, rounds);
      RunInv(sha, addresses, rounds[..n]);
      assert rounds[..n] == rounds[..|rounds|-1];
      StepInv(sha, addresses, WatchAfter(rounds[..n]), HistoryAfter(rounds[..n]), rounds[n]);
    }
  }

  /** In every run, whenever a state is published, the blocks from an anchor to the proved head are
      verified as above, and the anchor is the baseline of the state if and only if the state has
      one: without a baseline, the prefix of another state was continued. */
  lemma EveryPublicationProved(sha: Digest, addresses: nat, rounds: seq<Round>)
    requires rounds != [] && PossibleRun(sha, addresses, rounds)
    requires Step(WatchAfter(rounds[..|rounds|-1]), rounds[|rounds|-1]).1.Published?
    ensures
      var r, h := rounds[|rounds|-1], HistoryAfter(rounds);
      var state, applied := r.first.value.state, r.first.value.applied;
      && Tiles(h) && Backed(sha, h) && h.ranges != [] && Next(h) == r.proof.next.block + 1
      && (h.anchor == state.baseline <==> state.baseline != Cursor(0, 0, 0, false))
      && (forall k :: k in applied && k.block >= Start(h.anchor) ==>
            k.block < Next(h) && InHistory(sha, h, k, applied[k]))
  {
    hide Inv, Tiles, Backed, Possible, Step, Note, InHistory;
    var n := |rounds| - 1;
    PossiblePrefix(sha, addresses, rounds);
    RunInv(sha, addresses, rounds[..n]);
    PublicationProved(sha, addresses, WatchAfter(rounds[..n]), HistoryAfter(rounds[..n]), rounds[n]);
  }

  // ---------- The loop ----------

  /** What one round of the loop is given: the owner's readings, the answers of the node, and
      whether the context was cancelled during the proof. */
  datatype Input = Input(first: Option<Reading>, answers: Answers, second: Option<Reading>, cancelled: bool)

  /** The states a run handed to the owner for publication, in order. */
  function Publications(rounds: seq<Round>): seq<State> {
    if rounds == [] then []
    else
      var n := |rounds| - 1;
      var output := Step(WatchAfter(rounds[..n]), rounds[n]).1;
      Publications(rounds[..n]) + (if output.Published? then [output.state] else [])
  }

  ghost predicate Matches(r: Round, input: Input) {
    && r.first == input.first && r.answers == input.answers
    && r.second == input.second && r.cancelled == input.cancelled
  }

  lemma EmptyRun(sha: Digest, addresses: nat)
    ensures WatchAfter([]) == NEW_WATCH && Publications([]) == [] && PossibleRun(sha, addresses, [])
  {
  }

  lemma AppendRound(rounds: seq<Round>, r: Round)
    ensures WatchAfter(rounds + [r]) == Step(WatchAfter(rounds), r).0
    ensures Publications(rounds + [r]) ==
            Publications(rounds) + (if Step(WatchAfter(rounds), r).1.Published?
                                    then [Step(WatchAfter(rounds), r).1.state] else [])
  {
    assert (rounds + [r])[..|rounds|] == rounds;
  }

  lemma AppendPossible(sha: Digest, addresses: nat, rounds: seq<Round>, r: Round)
    requires PossibleRun(sha, addresses, rounds) && Possible(sha, addresses, WatchAfter(rounds), r)
    ensures PossibleRun(sha, addresses, rounds + [r])
  {
    var all := rounds + [r];
    forall i | 0 <= i < |all|
      ensures PossibleAt(sha, addresses, all, i)
    {
      assert all[..i] == if i < |rounds| then rounds[..i] else rounds;
      if i < |rounds| { assert PossibleAt(sha, addresses, rounds, i); }
    }
  }

  /** The round goes on to the next one. */
  ghost predicate GoesOn(rounds: seq<Round>, i: nat)
    requires i < |rounds|
  {
    !Step(WatchAfter(rounds[..i]), rounds[i]).1.Stopped?
  }

  /** The rounds are a possible run on the first inputs, with these publications; none before the last
      one stops. */
  ghost predicate RunsOn(sha: Digest, addresses: nat, rounds: seq<Round>, inputs: seq<Input>, applied: seq<State>) {
    && |rounds| <= |inputs| && (forall i :: 0 <= i < |rounds| ==> Matches(rounds[i], inputs[i]))
    && PossibleRun(sha, addresses, rounds)
    && applied == Publications(rounds)
    && forall i :: 0 <= i < |rounds| - 1 ==> GoesOn(rounds, i)
  }

  /** The rounds of a run on these inputs: a possible run, whose publications were applied, and
      which stopped early exactly where a round stops. */
  ghost predicate Explains(sha: Digest, addresses: nat, rounds: seq<Round>, inputs: seq<Input>, applied: seq<State>,
                           stopped: bool) {
    && RunsOn(sha, addresses, rounds, inputs, applied)
    && (if stopped then rounds != [] && !GoesOn(rounds, |rounds| - 1)
        else |rounds| == |inputs| && (rounds != [] ==> GoesOn(rounds, |rounds| - 1)))
  }

  /** Where the loop stands after rounds that all go on. */
  ghost predicate Reached(sha: Digest, addresses: nat, rounds: seq<Round>, inputs: seq<Input>, applied: seq<State>,
                          w: Watch) {
    && RunsOn(sha, addresses, rounds, inputs, applied) && w == WatchAfter(rounds)
    && (rounds != [] ==> GoesOn(rounds, |rounds| - 1))
  }

  lemma ReachedFirst(sha: Digest, addresses: nat, inputs: seq<Input>)
    ensures Reached(sha, addresses, [], inputs, [], NEW_WATCH)
  {
    EmptyRun(sha, addresses);
  }

  lemma ReachedNext(sha: Digest, addresses: nat, rounds: seq<Round>, inputs: seq<Input>, applied: seq<State>, w: Watch,
                    r: Round)
    requires Reached(sha, addresses, rounds, inputs, applied, w)
    requires |rounds| < |inputs| && Matches(r, inputs[|rounds|])
    requires Possible(sha, addresses, w, r)
    ensures var (next, output) := Step(w, r);
            var all := applied + (if output.Published? then [output.state] else []);
            if output.Stopped? then Explains(sha, addresses, rounds + [r], inputs, all, true)
            else Reached(sha, addresses, rounds + [r], inputs, all, next)
  {
    hide Step, Possible, PossibleRun, Matches;
    AppendRound(rounds, r);
    AppendPossible(sha, addresses, rounds, r);
    var all := rounds + [r];
    assert all[..|rounds|] == rounds;
    forall i | 0 <= i < |rounds|
      ensures GoesOn(all, i)
    {
      assert all[..i] == rounds[..i];
      assert GoesOn(rounds, i);
    }
  }

  lemma ReachedEnd(sha: Digest, addresses: nat, rounds: seq<Round>, inputs: seq<Input>, applied: seq<State>, w: Watch)
    requires Reached(sha, addresses, rounds, inputs, applied, w)
    ensures |rounds| == |inputs| ==> Explains(sha, addresses, rounds, inputs, applied, false)
  {
  }

  /** The loop, for as many rounds as it is given. */
  method Run(sha: Digest, addresses: nat, inputs: seq<Input>) returns (applied: seq<State>, stopped: bool)
    ensures exists rounds :: Explains(sha, addresses, rounds, inputs, applied, stopped)
  {
    hide Reached, Explains, Allowed, Continues;
    ReachedFirst(sha, addresses, inputs);
    var previous, evidence, frontier := NO_STATE, map[], NO_CURSOR;
    applied, stopped := [], false;
    ghost var rounds: seq<Round> := [];
    for turn := 0 to |inputs|
      invariant |rounds| == turn && !stopped
      invariant Reached(sha, addresses, rounds, inputs, applied, Watch(previous, evidence, frontier))
    {
      var input := inputs[turn];
      ghost var before, done, published := Watch(previous, evidence, frontier), rounds, applied;
      if input.first.None? {
        ghost var r := Round(input.first, input.answers, Waiting, input.second, input.cancelled);
        ReachedNext(sha, addresses, done, inputs, published, before, r);
        rounds := done + [r];
        assert applied == published + [];
        previous := NO_STATE;
        continue;
      }
      var state, journal := input.first.value.state, input.first.value.applied;
      if !Continues(previous, state, evidence, journal, frontier) {
        frontier := state.baseline;
      }
      previous, evidence := state, journal;
      if Behind(state) {
        ghost var r := Round(input.first, input.answers, Waiting, input.second, input.cancelled);
        ReachedNext(sha, addresses, done, inputs, published, before, r);
        assert applied == published + [];
        stopped := true;
        return;
      }
      var proof := Prove(sha, addresses, frontier, journal, input.answers);
      ghost var r := Round(input.first, input.answers, proof, input.second, input.cancelled);
      ReachedNext(sha, addresses, done, inputs, published, before, r);
      rounds := done + [r];
      assert applied == published + [];
      if input.cancelled {
        stopped := true;
        return;
      }
      if proof == Unavailable {
        if input.second.None? { previous := NO_STATE; }
        continue;
      }
      if input.second.None? {
        previous := NO_STATE;
        continue;
      }
      var current := input.second.value;
      if current.state != state {
        if proof.Advanced? && Continues(state, current.state, journal, current.applied, proof.next) {
          frontier := proof.next;
        }
        continue;
      }
      if proof == Inconsistent {
        stopped := true;
        return;
      }
      if proof.Advanced? {
        frontier := proof.next;
        applied := applied + [state];
      }
    }
    ReachedEnd(sha, addresses, rounds, inputs, applied, Watch(previous, evidence, frontier));
  }

  // ---------- Where the loop stops, what it publishes, and from where it proves ----------

  /** The run stops at a round exactly when the owner is active and its position lies before its
      baseline, or the context was cancelled, or the proof contradicts a state that was read again
      unchanged. Otherwise it takes the next input. */
  lemma StopsExactly(sha: Digest, addresses: nat, rounds: seq<Round>, inputs: seq<Input>, applied: seq<State>,
                     stopped: bool, i: nat)
    requires Explains(sha, addresses, rounds, inputs, applied, stopped) && i < |rounds|
    ensures rounds[i].first == inputs[i].first && rounds[i].second == inputs[i].second
    ensures rounds[i].answers == inputs[i].answers && rounds[i].cancelled == inputs[i].cancelled
    ensures (stopped && i == |rounds| - 1) <==>
            && inputs[i].first.Some?
            && var state := inputs[i].first.value.state;
               || state.cursor.block < state.baseline.block
               || inputs[i].cancelled
               || (inputs[i].second.Some? && inputs[i].second.value.state == state && rounds[i].proof == Inconsistent)
    ensures !stopped ==> |rounds| == |inputs|
  {
    hide PossibleRun;
    assert Matches(rounds[i], inputs[i]);
    if i < |rounds| - 1 { assert GoesOn(rounds, i); }
  }

  /** A round publishes the state exactly when its proof advanced and the state was read again
      unchanged, the owner's position is not before its baseline, and nothing was cancelled. */
  lemma PublishesNext(done: seq<Round>, r: Round)
    ensures Publications([]) == []
    ensures Publications(done + [r]) == Publications(done) +
            if r.first.Some? && r.second.Some? && r.second.value.state == r.first.value.state
               && r.first.value.state.cursor.block >= r.first.value.state.baseline.block
               && !r.cancelled && r.proof.Advanced?
            then [r.first.value.state] else []
  {
    assert Publications([]) == [];
    AppendRound(done, r);
    hide Step, WatchAfter, Publications;
    StepPublishes(WatchAfter(done), r);
  }

  /** The loop publishes exactly what its rounds publish, and these are the rounds on its inputs. */
  lemma PublishesExactly(sha: Digest, addresses: nat, rounds: seq<Round>, inputs: seq<Input>, applied: seq<State>,
                         stopped: bool, i: nat)
    requires Explains(sha, addresses, rounds, inputs, applied, stopped) && i < |rounds|
    ensures applied == Publications(rounds)
    ensures Publications(rounds[..i+1]) == Publications(rounds[..i]) +
            if rounds[i].first.Some? && rounds[i].second.Some?
               && rounds[i].second.value.state == rounds[i].first.value.state
               && rounds[i].first.value.state.cursor.block >= rounds[i].first.value.state.baseline.block
               && !rounds[i].cancelled && rounds[i].proof.Advanced?
            then [rounds[i].first.value.state] else []
    ensures rounds[i].first == inputs[i].first && rounds[i].second == inputs[i].second
    ensures rounds[i].answers == inputs[i].answers && rounds[i].cancelled == inputs[i].cancelled
  {
    hide *;
    OnInput(sha, addresses, rounds, inputs, applied, stopped, i);
    assert rounds[..i+1] == rounds[..i] + [rounds[i]];
    PublishesNext(rounds[..i], rounds[i]);
  }

  lemma OnInput(sha: Digest, addresses: nat, rounds: seq<Round>, inputs: seq<Input>, applied: seq<State>,
                stopped: bool, i: nat)
    requires Explains(sha, addresses, rounds, inputs, applied, stopped) && i < |rounds|
    ensures |rounds| <= |inputs| && applied == Publications(rounds)
    ensures rounds[i].first == inputs[i].first && rounds[i].second == inputs[i].second
    ensures rounds[i].answers == inputs[i].answers && rounds[i].cancelled == inputs[i].cancelled
  {
    hide PossibleRun, GoesOn, Publications;
    assert Matches(rounds[i], inputs[i]);
  }

  lemma StepPublishes(w: Watch, r: Round)
    ensures Step(w, r).1.Published? <==>
            && r.first.Some? && r.second.Some? && r.second.value.state == r.first.value.state
            && r.first.value.state.cursor.block >= r.first.value.state.baseline.block
            && !r.cancelled && r.proof.Advanced?
    ensures Step(w, r).1.Published? ==> Step(w, r).1.state == r.first.value.state
  {
    hide Continues;
  }

  /** Every proof of a run is one of the range from its cursor. */
  lemma ProvesFrom(sha: Digest, addresses: nat, rounds: seq<Round>, inputs: seq<Input>, applied: seq<State>,
                   stopped: bool, i: nat)
    requires Explains(sha, addresses, rounds, inputs, applied, stopped) && i < |rounds|
    requires inputs[i].first.Some?
    requires inputs[i].first.value.state.cursor.block >= inputs[i].first.value.state.baseline.block
    ensures Allowed(sha, addresses, CursorOf(rounds, i), inputs[i].first.value.applied, inputs[i].answers,
                    rounds[i].proof)
  {
    hide Allowed;
    assert Matches(rounds[i], inputs[i]);
    assert PossibleAt(sha, addresses, rounds, i);
  }

  /** The cursor from which a round proves. */
  function CursorOf(rounds: seq<Round>, i: nat): Cursor
    requires i < |rounds| && rounds[i].first.Some?
  {
    Begin(WatchAfter(rounds[..i]), rounds[i].first.value)
  }

  /** The position moved forward: to a later block beyond the frontier, or to a later log of the same
      block and branch. */
  predicate Forward(a: Cursor, b: Cursor, frontier: Cursor) {
    && b.block > frontier.block
    && (b.block > a.block
        || (b.block == a.block && b.hash == a.hash && b.hasLog && (a.hasLog ==> b.index > a.index)))
  }

  /** Blocks verified for one reading stay verified for a later one: it belongs to the same baseline,
      epoch and revision, it stands still or moved forward in time, and no applied log up to the
      frontier is new or changed. Logs may have been evicted. */
  predicate StillVerified(before: Reading, after: Reading, frontier: Cursor) {
    && frontier.hash != 0
    && after.state.baseline == before.state.baseline
    && after.state.epoch == before.state.epoch && after.state.revision == before.state.revision
    && (after.state == before.state ||
        (after.state.receivedAt >= before.state.receivedAt
         && after.state.cursor != before.state.cursor
         && Forward(before.state.cursor, after.state.cursor, frontier)))
    && forall k :: k in after.applied && k.block <= frontier.block ==>
         k in before.applied && after.applied[k] == before.applied[k]
  }

  lemma FirstCursor(rounds: seq<Round>)
    requires rounds != [] && rounds[0].first.Some?
    ensures CursorOf(rounds, 0) == rounds[0].first.value.state.baseline
  {
    assert rounds[..0] == [];
  }

  /** After a round whose owner stayed active, the next proof begins at the frontier if what was
      verified still is, and at the baseline otherwise. The frontier moved to the head if the proof
      advanced and was still good for what was read after it. */
  lemma NextCursor(rounds: seq<Round>, i: nat)
    requires i + 1 < |rounds| && rounds[i].first.Some? && rounds[i].second.Some? && rounds[i+1].first.Some?
    requires !rounds[i].cancelled
    requires rounds[i].first.value.state.cursor.block >= rounds[i].first.value.state.baseline.block
    ensures var (before, between, after) := (rounds[i].first.value, rounds[i].second.value, rounds[i+1].first.value);
            var proof := rounds[i].proof;
            var frontier :=
              if proof.Advanced? && (between.state == before.state || StillVerified(before, between, proof.next))
              then proof.next else CursorOf(rounds, i);
            CursorOf(rounds, i + 1) ==
              if StillVerified(before, after, frontier) then frontier else after.state.baseline
  {
    var done := rounds[..i];
    assert rounds[..i+1] == done + [rounds[i]];
    AppendRound(done, rounds[i]);
    hide WatchAfter, Continues, StillVerified;
    var (before, between, after) := (rounds[i].first.value, rounds[i].second.value, rounds[i+1].first.value);
    var w := WatchAfter(done + [rounds[i]]);
    SameRule(before, after, w.frontier);
    if rounds[i].proof.Advanced? { SameRule(before, between, rounds[i].proof.next); }
  }

  lemma SameRule(before: Reading, after: Reading, frontier: Cursor)
    ensures Continues(before.state, after.state, before.applied, after.applied, frontier) <==>
            StillVerified(before, after, frontier)
  {
  }

  /** After an inactive reading the next proof begins at the baseline, if there is one. */
  lemma CursorAfterPause(rounds: seq<Round>, i: nat)
    requires i + 1 < |rounds| && rounds[i+1].first.Some?
    requires rounds[i+1].first.value.state.baseline != Cursor(0, 0, 0, false)
    requires rounds[i].first.None? || (rounds[i].second.None? && !rounds[i].cancelled
               && rounds[i].first.value.state.cursor.block >= rounds[i].first.value.state.baseline.block)
    ensures CursorOf(rounds, i + 1) == rounds[i+1].first.value.state.baseline
  {
    var done := rounds[..i];
    assert rounds[..i+1] == done + [rounds[i]];
    AppendRound(done, rounds[i]);
  }

  /** What it takes for a range to be verified, written out: the head lies at most 1024 blocks beyond
      the cursor; the cursor's block and the head were read with the same hashes before and after; all
      returned logs are live, in the range, on the cursor's branch, and applied; and all applied logs
      from there on were returned and do not lie beyond the head. */
  lemma VerifiedRange(sha: Digest, cursor: Cursor, applied: Evidence, a: Answers)
    ensures Verifies(sha, cursor, applied, a) <==>
            && cursor.hash != 0 && a.head.Some? && a.logs.Some? && !a.expired
            && var (head, logs) := (a.head.value, a.logs.value);
               var from := if cursor.hasLog then cursor.block else cursor.block + 1;
            && head.hash != 0 && cursor.block <= head.number <= cursor.block + 1024 && from <= head.number
            && (head.number == cursor.block ==> head.hash == cursor.hash)
            && a.cursorBefore == Some(Header(cursor.block, cursor.hash))
            && a.cursorAfter == Some(Header(cursor.block, cursor.hash))
            && a.headAfter == Some(head)
            && (forall i :: 0 <= i < |logs| ==>
                  var (l, k) := (logs[i], Key(logs[i].block, logs[i].blockHash, logs[i].index));
                  && !l.removed && l.blockHash != 0 && from <= l.block <= head.number
                  && (l.block == cursor.block ==> l.blockHash == cursor.hash)
                  && k in applied && applied[k] == Fingerprint(sha, l))
            && (forall k :: k in applied ==>
                  && k.block <= head.number
                  && (k.block >= from ==>
                        exists i :: 0 <= i < |logs| && Key(logs[i].block, logs[i].blockHash, logs[i].index) == k
                                    && Fingerprint(sha, logs[i]) == applied[k]))
  {
    hide Fingerprint;
    if a.head.Some? && a.logs.Some? {
      var head, logs := a.head.value, a.logs.value;
      forall k | k in applied
        ensures Returned(sha, logs, k, applied[k]) <==>
                exists i :: 0 <= i < |logs| && Key(logs[i].block, logs[i].blockHash, logs[i].index) == k
                            && Fingerprint(sha, logs[i]) == applied[k]
      {
      }
    }
  }

  // ---------- What the inputs determine ----------

  /** The proof of the round is fixed by its inputs. */
  ghost predicate Fixed(sha: Digest, addresses: nat, w: Watch, r: Round) {
    r.first.Some? && !Behind(r.first.value.state) ==>
      !Undecided(sha, addresses, Begin(w, r.first.value), r.first.value.applied, r.answers)
  }

  lemma SameRound(sha: Digest, addresses: nat, w: Watch, r: Round, q: Round, input: Input)
    requires Possible(sha, addresses, w, r) && Possible(sha, addresses, w, q)
    requires Matches(r, input) && Matches(q, input) && Fixed(sha, addresses, w, r)
    ensures r == q
  {
    hide Allowed, Undecided;
    if r.first.Some? && !Behind(r.first.value.state) {
      Determined(sha, addresses, Begin(w, r.first.value), r.first.value.applied, r.answers);
    }
  }

  ghost predicate AllFixed(sha: Digest, addresses: nat, rounds: seq<Round>) {
    forall i :: 0 <= i < |rounds| ==> Fixed(sha, addresses, WatchAfter(rounds[..i]), rounds[i])
  }

  /** As far as both go, two runs on the same inputs take the same rounds. */
  lemma {:induction false} SameRounds(sha: Digest, addresses: nat, rounds: seq<Round>, others: seq<Round>,
                                      inputs: seq<Input>, n: nat)
    requires PossibleRun(sha, addresses, rounds) && PossibleRun(sha, addresses, others)
    requires n <= |rounds| <= |inputs| && n <= |others| <= |inputs|
    requires forall i :: 0 <= i < |rounds| ==> Matches(rounds[i], inputs[i])
    requires forall i :: 0 <= i < |others| ==> Matches(others[i], inputs[i])
    requires AllFixed(sha, addresses, rounds)
    ensures rounds[..n] == others[..n]
  {
    hide PossibleAt, Matches, Fixed, WatchAfter;
    if n > 0 {
      SameRounds(sha, addresses, rounds, others, inputs, n - 1);
      SameAt(sha, addresses, rounds, others, inputs[n-1], n - 1);
    }
  }

  lemma SameAt(sha: Digest, addresses: nat, rounds: seq<Round>, others: seq<Round>, input: Input, i: nat)
    requires i < |rounds| && i < |others| && rounds[..i] == others[..i]
    requires PossibleAt(sha, addresses, rounds, i) && PossibleAt(sha, addresses, others, i)
    requires Matches(rounds[i], input) && Matches(others[i], input)
    requires Fixed(sha, addresses, WatchAfter(rounds[..i]), rounds[i])
    ensures rounds[..i+1] == others[..i+1]
  {
    hide Possible, Matches, Fixed, WatchAfter;
    SameRound(sha, addresses, WatchAfter(rounds[..i]), rounds[i], others[i], input);
    assert rounds[..i+1] == rounds[..i] + [rounds[i]] && others[..i+1] == others[..i] + [others[i]];
  }

  /** The inputs of the loop determine its rounds, where it stops, and what it publishes, unless the
      order of a map decides one of the proofs. */
  lemma RunDetermined(sha: Digest, addresses: nat, rounds: seq<Round>, others: seq<Round>, inputs: seq<Input>,
                      applied: seq<State>, published: seq<State>, stopped: bool, ended: bool)
    requires Explains(sha, addresses, rounds, inputs, applied, stopped)
    requires Explains(sha, addresses, others, inputs, published, ended)
    requires AllFixed(sha, addresses, rounds)
    ensures rounds == others && applied == published && stopped == ended
  {
    hide Matches, Fixed, PossibleRun;
    var n := if |rounds| <= |others| then |rounds| else |others|;
    SameRounds(sha, addresses, rounds, others, inputs, n);
    assert rounds[..|rounds|] == rounds && others[..|others|] == others;
    if |rounds| < |others| {
      StopsHere(rounds, others);
    } else if |others| < |rounds| {
      StopsHere(others, rounds);
    }
  }

  /** A run that goes on beyond another did not stop where that one ends. */
  lemma StopsHere(rounds: seq<Round>, others: seq<Round>)
    requires |rounds| < |others| && others[..|rounds|] == rounds
    requires forall i :: 0 <= i < |others| - 1 ==> GoesOn(others, i)
    ensures rounds != [] ==> GoesOn(rounds, |rounds| - 1)
  {
    if rounds != [] {
      var i := |rounds| - 1;
      assert GoesOn(others, i);
      assert others[..i] == rounds[..i] && others[i] == rounds[i];
    }
  }

  /** Two applied logs, one of a block that was searched and returned nothing, one beyond the head. */
  function TwoLogs(): Evidence { map[Key(11, 1, 0) := 1, Key(13, 1, 0) := 1] }

  /** With them one and the same set of answers lets the loop wait or stop. */
  lemma TwoOutcomes(sha: Digest, addresses: nat)
    requires addresses > 0
    ensures var a := Answers(Some(Block(12)), Some(Block(10)), Some([]), Some(Block(10)), Some(Block(12)), false);
            && Allowed(sha, addresses, Cursor(10, 1, 0, false), TwoLogs(), a, Waiting)
            && Allowed(sha, addresses, Cursor(10, 1, 0, false), TwoLogs(), a, Inconsistent)
  {
    var cursor := Cursor(10, 1, 0, false);
    assert Key(13, 1, 0) in TwoLogs();
    assert UnreturnedAt(sha, cursor, Block(12), TwoLogs(), [], Key(11, 1, 0));
  }

  // ---------- A state without a baseline ----------

  function LiveState(): State { State(Cursor(10, 1, 0, false), Cursor(10, 1, 0, false), 0, 0, 0) }

  function ZeroState(): State { State(NO_CURSOR, Cursor(12, 1, 0, false), 0, 0, 0) }

  function Block(n: nat): Header { Header(n, 1) }

  /** A round that proves the blocks up to a head for one state. */
  function Proving(state: State, from: nat, to: nat): Round {
    Round(Some(Reading(state, map[])),
          Answers(Some(Block(to)), Some(Block(from)), Some([]), Some(Block(from)), Some(Block(to)), false),
          Advanced(HeadCursor(Block(to))), Some(Reading(state, map[])), false)
  }

  function Idle(): Round {
    Round(None, Answers(None, None, None, None, None, false), Waiting, None, false)
  }

  /** An inactive reading resets the previous state to the zero state but keeps the frontier, so
      a later state that itself has the zero baseline continues the old prefix: it is published
      although block 1, the first after its baseline, lies in no verified range. */
  lemma ZeroBaselineGap(sha: Digest, addresses: nat)
    requires addresses > 0
    ensures var before := [Proving(LiveState(), 10, 11), Idle()];
            var rounds := before + [Proving(ZeroState(), 11, 13)];
            && PossibleRun(sha, addresses, rounds) && Step(WatchAfter(before), rounds[2]).1 == Published(ZeroState())
            && Start(ZeroState().baseline) == 1
            && HistoryAfter(rounds).ranges != []
            && forall i :: 0 <= i < |HistoryAfter(rounds).ranges| ==> HistoryAfter(rounds).ranges[i].from > 1
  {
    var one, two, three := Proving(LiveState(), 10, 11), Idle(), Proving(ZeroState(), 11, 13);
    FirstProof(sha, addresses);
    LastProof(sha, addresses);
    hide Step, Note, Possible, Proving, PossibleRun, WatchAfter, HistoryAfter;
    ThreeRounds(sha, addresses, one, two, three, Watch(LiveState(), map[], HeadCursor(Block(11))),
                Watch(NO_STATE, map[], HeadCursor(Block(11))));
  }

  /** A run of three rounds, step by step. */
  lemma ThreeRounds(sha: Digest, addresses: nat, one: Round, two: Round, three: Round, w1: Watch, w2: Watch)
    requires Possible(sha, addresses, NEW_WATCH, one) && Step(NEW_WATCH, one).0 == w1
    requires Possible(sha, addresses, w1, two) && Step(w1, two).0 == w2 && Possible(sha, addresses, w2, three)
    ensures var rounds := [one, two] + [three];
            && PossibleRun(sha, addresses, rounds) && WatchAfter([one, two]) == w2
            && HistoryAfter(rounds) ==
               Note(Note(Note(History(NO_CURSOR, []), NEW_WATCH, one), w1, two), w2, three)
  {
    EmptyRun(sha, addresses);
    assert HistoryAfter([]) == History(NO_CURSOR, []);
    hide Step, Note, Possible, PossibleRun, WatchAfter, HistoryAfter, Publications;
    AppendRound([], one);
    AppendRound([one], two);
    AppendHistory([], one);
    AppendHistory([one], two);
    AppendHistory([one, two], three);
    assert [] + [one] == [one] && [one] + [two] == [one, two];
    AppendPossible(sha, addresses, [], one);
    AppendPossible(sha, addresses, [one], two);
    AppendPossible(sha, addresses, [one, two], three);
  }

  lemma FirstProof(sha: Digest, addresses: nat)
    requires addresses > 0
    ensures var one, two := Proving(LiveState(), 10, 11), Idle();
            var w1 := Watch(LiveState(), map[], HeadCursor(Block(11)));
            && Possible(sha, addresses, NEW_WATCH, one) && Step(NEW_WATCH, one).0 == w1
            && Possible(sha, addresses, w1, two) && Step(w1, two).0 == Watch(NO_STATE, map[], HeadCursor(Block(11)))
            && var h := Note(History(NO_CURSOR, []), NEW_WATCH, one);
               |h.ranges| == 1 && h.ranges[0].from == 11 && Note(h, w1, two) == h
  {
  }

  lemma LastProof(sha: Digest, addresses: nat)
    requires addresses > 0
    ensures var w, three := Watch(NO_STATE, map[], HeadCursor(Block(11))), Proving(ZeroState(), 11, 13);
            && Possible(sha, addresses, w, three) && Step(w, three).1 == Published(ZeroState())
            && forall h :: Note(h, w, three).ranges == h.ranges + [Range(12, 13, map[], [])]
  {
  }

  lemma AppendHistory(rounds: seq<Round>, r: Round)
    ensures HistoryAfter(rounds + [r]) == Note(HistoryAfter(rounds), WatchAfter(rounds), r)
  {
    assert (rounds + [r])[..|rounds|] == rounds;
  }
}
