/** The node that an evaluation of operator histories asks, and what each of its faults comes from. */
module OperatorNode {
  import opened Wrappers
  import opened OperatorHistory

  /** A fault of an evaluation: a limit was exceeded, the chain was reorganised, too many attempts
      failed, a failure record does not fit the request, the stored evidence was refused, or
      anything else, such as a cancellation or an answer that cannot be used. */
  datatype Fault = Budget | Reorg | Abandoned | Unresumable | Refused | Failed

  datatype Limits = Limits(maxCalls: nat, logBlockRange: nat, maxLogs: nat, maxPositions: nat, maxResponseBytes: nat)

  const HEADER_SIZE := 600

  /** What the node answers to its n-th call, if it answers: any functions of that number and of the
      request. Code comes with its size in bytes. */
  datatype Node = Node(
    header: (nat, nat) -> Option<Reference>,
    logs: (nat, Address, Address, nat, nat) -> Option<seq<Log>>,
    code: (nat, Address) -> Option<(Hash, nat)>,
    word: (nat, Hash, Address, Address, Address) -> Option<Word>)

  /** A header has a hash, which is never zero. */
  function HeaderAt(node: Node, n: nat, number: nat): (r: Option<Reference>)
    ensures r.Some? ==> r.value.hash != 0
  {
    var answer := node.header(n, number);
    if answer.Some? && answer.value.hash == 0 then None else answer
  }

  function CodeAt(node: Node, n: nat, address: Address): (r: Option<(Hash, nat)>)
    ensures r.Some? ==> r.value.0 != 0
  {
    var answer := node.code(n, address);
    if answer.Some? && answer.value.0 == 0 then None else answer
  }

  /** The recorded call holds what the node answered to its n-th call. */
  predicate GenuineAt(node: Node, n: nat, call: Call) {
    match call
    case HeaderCall(number, header) => header == HeaderAt(node, n, number)
    case LogsCall(manager, owner, from, to, logs) => logs == node.logs(n, manager, owner, from, to)
    case CodeCall(address, code) => code == CodeHash(CodeAt(node, n, address))
    case ApprovalCall(at, manager, owner, operator, word) => word == node.word(n, at, manager, owner, operator)
  }

  function CodeHash(answer: Option<(Hash, nat)>): Option<Hash> {
    if answer.Some? then Some(answer.value.0) else None
  }

  /** All calls of the trace were answered by the node as recorded. */
  ghost predicate Genuine(node: Node, trace: seq<Call>) {
    forall n :: 0 <= n < |trace| ==> GenuineAt(node, n, trace[n])
  }

  // ---------- The size of the answers ----------

  function LogSize(l: Log): nat { 160 + |l.topics| * 32 + l.dataSize }

  function LogsSize(logs: seq<Log>): nat {
    if logs == [] then 0 else LogsSize(logs[..|logs|-1]) + LogSize(logs[|logs|-1])
  }

  lemma {:induction false} LogsSizePart(logs: seq<Log>, n: nat)
    requires n <= |logs|
    ensures LogsSize(logs[..n]) <= LogsSize(logs)
    decreases |logs|
  {
    if n == |logs| {
      assert logs[..n] == logs;
    } else {
      var last := |logs| - 1;
      assert logs[..last][..n] == logs[..n];
      LogsSizePart(logs[..last], n);
    }
  }

  /** The size of the answer to the n-th call. */
  function SizeAt(node: Node, n: nat, call: Call): nat {
    match call
    case HeaderCall(_, _) => HEADER_SIZE
    case LogsCall(_, _, _, _, logs) => if logs.Some? then LogsSize(logs.value) else 0
    case CodeCall(address, _) => if CodeAt(node, n, address).Some? then CodeAt(node, n, address).value.1 else 0
    case ApprovalCall(_, _, _, _, word) => if word.Some? then word.value.size else 0
  }

  /** The size of all answers to the calls, of which the first has the given number. */
  function Volume(node: Node, begun: nat, own: seq<Call>): nat {
    if own == [] then 0
    else Volume(node, begun, own[..|own|-1]) + SizeAt(node, begun + |own| - 1, own[|own|-1])
  }

  function LogCount(call: Call): nat { if call.LogsCall? && call.logs.Some? then |call.logs.value| else 0 }

  /** The number of logs that were returned. */
  function LogTotal(own: seq<Call>): nat {
    if own == [] then 0 else LogTotal(own[..|own|-1]) + LogCount(own[|own|-1])
  }

  /** What each answer counts: a header 600 bytes, a log 160 bytes, 32 for each topic and its data, code
      and words their own size, and nothing for an absent answer. */
  lemma SizeRule(node: Node, n: nat, call: Call, logs: seq<Log>, l: Log)
    ensures call.HeaderCall? ==> SizeAt(node, n, call) == 600
    ensures LogsSize([]) == 0 && LogsSize(logs + [l]) == LogsSize(logs) + 160 + 32 * |l.topics| + l.dataSize
    ensures call.LogsCall? ==> SizeAt(node, n, call) == if call.logs.Some? then LogsSize(call.logs.value) else 0
    ensures call.CodeCall? && CodeAt(node, n, call.address).Some? ==>
              SizeAt(node, n, call) == CodeAt(node, n, call.address).value.1
    ensures call.ApprovalCall? && call.word.Some? ==> SizeAt(node, n, call) == call.word.value.size
  {
    assert (logs + [l])[..|logs|] == logs;
  }

  /** A recorded call holds what the node answered; a header or code with a zero hash is none. */
  lemma GenuineRule(node: Node, n: nat, call: Call)
    requires GenuineAt(node, n, call)
    ensures call.HeaderCall? ==>
              call.header == match node.header(n, call.number)
                             case Some(r) => if r.hash == 0 then None else Some(r)
                             case None => None
    ensures call.LogsCall? ==> call.logs == node.logs(n, call.manager, call.owner, call.from, call.to)
    ensures call.CodeCall? ==>
              call.code == match node.code(n, call.address)
                           case Some((hash, _)) => if hash == 0 then None else Some(hash)
                           case None => None
    ensures call.ApprovalCall? ==> call.word == node.word(n, call.at, call.manager, call.owner, call.operator)
  {
  }

  // ---------- What a fault comes from ----------

  /** A log that a scan of the owner's approvals may return. */
  predicate Regular(manager: Address, owner: Address, from: nat, to: nat, l: Log) {
    ApprovalEvent(manager, owner, l) && !l.removed && l.blockHash != 0 && l.txHash != 0 && from <= l.block <= to
  }

  /** The call failed, or was answered by something that cannot be used. */
  ghost predicate Unusable(c: Call) {
    match c
    case HeaderCall(number, header) => header.None? || header.value.number != number
    case LogsCall(manager, owner, from, to, logs) =>
      logs.None? || exists l :: l in logs.value && !Regular(manager, owner, from, to, l)
    case CodeCall(_, code) => code.None?
    case ApprovalCall(_, _, _, _, word) => word.None? || word.value.size != 32 || word.value.value > 1
  }

  /** A returned log lies in a block whose header was read with another hash. */
  ghost predicate Crossed(own: seq<Call>) {
    exists c, l, h :: c in own && c.LogsCall? && c.logs.Some? && l in c.logs.value && CrossedBy(own, l, h)
  }

  ghost predicate CrossedBy(own: seq<Call>, l: Log, h: Reference) {
    HeaderRead(h) in own && l.block == h.number && l.blockHash != h.hash
  }

  /** The evaluation was cancelled between two of its calls, or an answer could not be used. */
  ghost predicate FailedBy(cancelled: nat -> bool, begun: nat, own: seq<Call>) {
    || (exists n :: begun <= n <= begun + |own| && cancelled(n))
    || (exists c :: c in own && Unusable(c))
    || Crossed(own)
  }

  /** A block that was known with its hash: read before, the checkpoint of a stored history, or the
      start of an owner. */
  ghost predicate Known(initial: seq<History>, starts: map<Address, Reference>, own: seq<Call>, ref: Reference) {
    || HeaderRead(ref) in own
    || (exists o :: o in starts && starts[o] == ref)
    || (exists h :: h in initial && h.through == Some(ref))
  }

  function StartIn(starts: map<Address, Reference>, owner: Address): Reference {
    if owner in starts then starts[owner] else Reference(0, 0)
  }

  /** The header of a known block was read with another hash. */
  ghost predicate ReorgBy(initial: seq<History>, starts: map<Address, Reference>, own: seq<Call>) {
    exists a, b :: Contradicts(initial, starts, own, a, b)
  }

  ghost predicate Contradicts(initial: seq<History>, starts: map<Address, Reference>, own: seq<Call>, a: Reference,
                              b: Reference) {
    HeaderRead(a) in own && Known(initial, starts, own, b) && a.number == b.number && a.hash != b.hash
  }

  /** The history and some returned logs together name too many operators. */
  ghost predicate TooMany(h: History, own: seq<Call>, max: nat) {
    exists operators: seq<Address>, c :: c in own && c.LogsCall? && c.logs.Some?
      && NoRepeats(operators) && |operators| > max && NamedBy(operators, h, c.logs.value)
  }

  ghost predicate NamedBy(operators: seq<Address>, h: History, logs: seq<Log>) {
    forall a :: a in operators ==> a in h.operators || InLogs(a, logs)
  }

  /** With the calls that are left the scan cannot be completed, or it would start after the block. */
  predicate TooLong(limits: Limits, block: nat, h: History, calls: nat) {
    var left := limits.maxCalls - calls - |h.operators| - 1;
    var remaining := if h.through.None? && h.start.number == 0 then left + 1 else left;
    || Next(h) > block || remaining < 4
    || (limits.logBlockRange > 0 && (block - Next(h)) / limits.logBlockRange >= remaining / 4)
  }

  /** A scan needs four calls for each range that is left, but one less for a first range from the block
      zero, besides one for every known operator and one at the end. */
  lemma TooLongRule(limits: Limits, block: nat, h: History, calls: nat)
    requires limits.logBlockRange > 0 && Next(h) <= block
    ensures var ranges := (block - Next(h)) / limits.logBlockRange + 1;
            TooLong(limits, block, h, calls) <==>
            4 * ranges + |h.operators| + 1 + calls >
              limits.maxCalls + if h.through == None && h.start.number == 0 then 1 else 0
  {
  }

  /** Some limit was exceeded: on calls, bytes, logs, histories, operators, or the length of a scan. */
  ghost predicate BudgetBy(node: Node, limits: Limits, block: nat, histories: seq<History>, begun: nat,
                           own: seq<Call>) {
    || |own| >= limits.maxCalls || Volume(node, begun, own) > limits.maxResponseBytes
    || LogTotal(own) > limits.maxLogs || |histories| >= limits.maxPositions
    || (exists h :: h in histories && TooMany(h, own, limits.maxLogs))
    || exists h :: h in histories && TooLong(limits, block, h, |own|)
  }

  /** The failure record of the history does not belong to the next range. */
  predicate Misfit(limits: Limits, block: nat, h: History) {
    && h.failure.Some?
    && (|| h.failure.value.from != Next(h) || h.failure.value.to > block
        || h.failure.value.to - Next(h) >= limits.logBlockRange)
  }

  predicate Exhausted(h: History) { h.failure.Some? && h.failure.value.attempts >= MAX_ATTEMPTS }

  /** What is given to an evaluation: the node and the number of its next call, the limits, the
      observed block, the starts of the owners, the stored histories, and whether it is cancelled
      before a call. */
  datatype Setting = Setting(node: Node, begun: nat, limits: Limits, block: nat, starts: map<Address, Reference>,
                             initial: seq<History>, cancelled: nat -> bool)

  /** Every fault has its cause in the calls of the evaluation, or in its histories. */
  ghost predicate FaultFrom(s: Setting, histories: seq<History>, fault: Option<Fault>, own: seq<Call>) {
    match fault
    case None => true
    case Some(Failed) => FailedBy(s.cancelled, s.begun, own)
    case Some(Reorg) => histories == [] && ReorgBy(s.initial, s.starts, own)
    case Some(Budget) => BudgetBy(s.node, s.limits, s.block, histories, s.begun, own)
    case Some(Abandoned) => exists h :: h in histories && Exhausted(h)
    case Some(Unresumable) => exists h :: h in histories && Misfit(s.limits, s.block, h)
    case Some(Refused) => !Restorable(s.initial)
  }

  /** The checkpoints are known blocks. */
  ghost predicate ThroughsKnown(s: Setting, histories: seq<History>, own: seq<Call>) {
    forall h :: h in histories && h.through.Some? ==> Known(s.initial, s.starts, own, h.through.value)
  }

  /** Every cached header was read. */
  ghost predicate HeadersRead(headers: map<nat, Hash>, own: seq<Call>) {
    forall n :: n in headers ==> HeaderRead(Reference(n, headers[n])) in own
  }

  /** One more call. */
  lemma OneOwnCall(s: Setting, histories: seq<History>, headers: map<nat, Hash>, own: seq<Call>, call: Call)
    requires ThroughsKnown(s, histories, own) && HeadersRead(headers, own)
    ensures ThroughsKnown(s, histories, own + [call]) && HeadersRead(headers, own + [call])
    ensures Volume(s.node, s.begun, own + [call]) ==
            Volume(s.node, s.begun, own) + SizeAt(s.node, s.begun + |own|, call)
    ensures LogTotal(own + [call]) == LogTotal(own) + LogCount(call)
  {
    hide ThroughsKnown, HeadersRead, SizeAt, LogCount, Volume, LogTotal;
    ThroughsNext(s, histories, own, call);
    HeadersNext(headers, own, call);
    SizesNext(s.node, s.begun, own, call);
  }

  lemma SizesNext(node: Node, begun: nat, own: seq<Call>, call: Call)
    ensures Volume(node, begun, own + [call]) == Volume(node, begun, own) + SizeAt(node, begun + |own|, call)
    ensures LogTotal(own + [call]) == LogTotal(own) + LogCount(call)
  {
    hide SizeAt, LogCount;
    assert (own + [call])[..|own|] == own && (own + [call])[|own|] == call;
  }

  lemma ThroughsNext(s: Setting, histories: seq<History>, own: seq<Call>, call: Call)
    requires ThroughsKnown(s, histories, own)
    ensures ThroughsKnown(s, histories, own + [call])
  {
    hide Known;
    forall h | h in histories && h.through.Some?
      ensures Known(s.initial, s.starts, own + [call], h.through.value)
    {
      KnownLater(s, own, call, h.through.value);
    }
  }

  lemma HeadersNext(headers: map<nat, Hash>, own: seq<Call>, call: Call)
    requires HeadersRead(headers, own)
    ensures HeadersRead(headers, own + [call])
  {
    forall n | n in headers
      ensures HeaderRead(Reference(n, headers[n])) in own + [call]
    {
      assert HeaderRead(Reference(n, headers[n])) in own;
    }
  }

  lemma KnownLater(s: Setting, own: seq<Call>, call: Call, ref: Reference)
    requires Known(s.initial, s.starts, own, ref)
    ensures Known(s.initial, s.starts, own + [call], ref)
  {
  }

  lemma LastUnusable(s: Setting, own: seq<Call>, call: Call)
    requires call in own && Unusable(call)
    ensures FailedBy(s.cancelled, s.begun, own)
  {
  }

  lemma InvalidEvent(s: Setting, own: seq<Call>, manager: Address, owner: Address, from: nat, to: nat, tail: Hash,
                     logs: seq<Log>, l: Log)
    requires LogsCall(manager, owner, from, to, Some(logs)) in own && l in logs
    requires HeaderRead(Reference(to, tail)) in own
    requires !Regular(manager, owner, from, to, l) || (l.block == to && l.blockHash != tail)
    ensures FailedBy(s.cancelled, s.begun, own)
  {
    var c := LogsCall(manager, owner, from, to, Some(logs));
    if !Regular(manager, owner, from, to, l) {
      assert Unusable(c);
    } else {
      assert c in own && c.LogsCall? && CrossedBy(own, l, Reference(to, tail));
    }
  }
}
