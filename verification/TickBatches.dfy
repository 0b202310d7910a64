/** Batches of independent reads, fetched by one or two workers that share a counter, the first
    error, and the results under a mutex. Any schedule of the workers is possible. */
module TickBatches {
  import opened Wrappers
  import opened Counting

  /** A value as the node returns it. */
  type Raw = nat

  /** What the node answers to its n-th call, if it answers. */
  type Replies = (nat, seq<int>) -> Option<seq<Raw>>

  /** The node and the caller's context. The replies may be any function of the number of the call
      and its keys; the context may be cancelled at any time, and stays so. */
  class Node {
    const replies: Replies
    var asked: seq<seq<int>>
    var cancelled: bool

    constructor (replies: Replies)
      ensures this.replies == replies && asked == [] && !cancelled
    {
      this.replies := replies;
      asked, cancelled := [], false;
    }

    method Ask(keys: seq<int>) returns (values: Option<seq<Raw>>)
      modifies this`asked
      ensures asked == old(asked) + [keys] && values == replies(|old(asked)|, keys)
    {
      values := replies(|asked|, keys);
      asked := asked + [keys];
    }

    method Look() returns (r: bool)
      modifies this`cancelled
      ensures r == cancelled && (old(cancelled) ==> cancelled)
    {
      var now: bool := *;
      cancelled := cancelled || now;
      r := cancelled;
    }
  }

  /** A worker between two of its steps. */
  datatype Worker = Ready | Fetching(index: nat) | Finished

  method AskWorker() returns (w: bool) { w := *; }

  function Work(w: Worker): nat {
    match w
    case Ready => 1
    case Fetching(_) => 2
    case Finished => 0
  }

  /** A call for one batch and what the node replied to it. */
  datatype Call = Call(index: nat, reply: Option<seq<Raw>>)

  /** No batch is asked for twice. */
  ghost predicate OncePerIndex(calls: seq<Call>) {
    forall i, j :: 0 <= i < j < |calls| ==> calls[i].index != calls[j].index
  }

  /** These are the calls the node received after the first ones, with its replies. */
  ghost predicate Made(replies: Replies, asked: seq<seq<int>>, start: nat, batches: seq<seq<int>>, calls: seq<Call>) {
    && |asked| == start + |calls|
    && forall k :: 0 <= k < |calls| ==> MadeAt(replies, asked[start + k], start + k, batches, calls[k])
  }

  ghost predicate MadeAt(replies: Replies, keys: seq<int>, n: nat, batches: seq<seq<int>>, call: Call) {
    call.index < |batches| && keys == batches[call.index] && call.reply == replies(n, keys)
  }

  ghost predicate Called(calls: seq<Call>, call: Call) { exists a :: 0 <= a < |calls| && calls[a] == call }

  lemma CalledLater(calls: seq<Call>, call: Call, other: Call)
    requires Called(calls, call)
    ensures Called(calls + [other], call)
  {
    var x :| 0 <= x < |calls| && calls[x] == call;
    assert (calls + [other])[x] == call;
  }

  lemma MadeLater(replies: Replies, asked: seq<seq<int>>, start: nat, batches: seq<seq<int>>, calls: seq<Call>,
                  index: nat)
    requires Made(replies, asked, start, batches, calls) && index < |batches|
    ensures Made(replies, asked + [batches[index]], start, batches,
                 calls + [Call(index, replies(|asked|, batches[index]))])
  {
  }

  /** What a reply must be to be used. */
  predicate Complete(keys: seq<int>, reply: Option<seq<Raw>>) { reply.Some? && |reply.value| == |keys| }

  /** Reads one batch, unless the context is cancelled before the call: as many values as keys. */
  method Fetch(node: Node, keys: seq<int>, stopped: bool) returns (values: Option<seq<Raw>>)
    modifies node
    ensures old(node.cancelled) ==> node.cancelled
    ensures node.asked == old(node.asked) || node.asked == old(node.asked) + [keys]
    ensures node.asked == old(node.asked) ==> values.None? && (stopped || node.cancelled)
    ensures node.asked != old(node.asked) ==>
              var reply := node.replies(|old(node.asked)|, keys);
              values == if Complete(keys, reply) then reply else None
  {
    var cancelled := node.Look();
    if stopped || cancelled { return None; }
    values := node.Ask(keys);
    assert |node.asked| == |old(node.asked)| + 1;
    if values.Some? && |values.value| != |keys| { return None; }
  }

  /** The state of the workers: who fetches what, and what is stored. */
  ghost predicate Scheduled(batches: seq<seq<int>>, first: Worker, second: Worker, next: nat,
                            results: seq<Option<seq<Raw>>>, calls: seq<Call>) {
    && |results| == |batches| && next <= |batches|
    && (first.Fetching? ==> first.index < next && Untouched(first.index, results, calls))
    && (second.Fetching? ==> second.index < next && Untouched(second.index, results, calls))
    && (first.Fetching? && second.Fetching? ==> first.index != second.index)
    && OncePerIndex(calls)
    && (forall a :: 0 <= a < |calls| ==> calls[a].index < next)
    && (forall i :: 0 <= i < |results| && results[i].Some? ==>
          i < next && Complete(batches[i], results[i]) && Called(calls, Call(i, results[i])))
  }

  /** The batch was not asked for yet. */
  ghost predicate Untouched(index: nat, results: seq<Option<seq<Raw>>>, calls: seq<Call>) {
    index < |results| && results[index].None? && forall a :: 0 <= a < |calls| ==> calls[a].index != index
  }

  /** Every index taken from the counter is fetched or being fetched. */
  ghost predicate NoneSkipped(results: seq<Option<seq<Raw>>>, first: Worker, second: Worker, next: nat)
    requires next <= |results|
  {
    forall i :: 0 <= i < next ==> results[i].Some? || first == Fetching(i) || second == Fetching(i)
  }

  /** A worker asks for its batch: a complete reply is stored at the place of the batch, and any
      other stops the worker. */
  lemma Stored(batches: seq<seq<int>>, first: Worker, second: Worker, next: nat,
               results: seq<Option<seq<Raw>>>, calls: seq<Call>, reply: Option<seq<Raw>>)
    requires Scheduled(batches, first, second, next, results, calls) && first.Fetching?
    ensures Scheduled(batches, Finished, second, next, results, calls + [Call(first.index, reply)])
    ensures Complete(batches[first.index], reply) ==>
              Scheduled(batches, Ready, second, next, results[first.index := reply], calls + [Call(first.index, reply)])
    ensures Complete(batches[first.index], reply) && NoneSkipped(results, first, second, next) ==>
              NoneSkipped(results[first.index := reply], Ready, second, next)
  {
    var i := first.index;
    var call := Call(i, reply);
    var stored, all := results[i := reply], calls + [call];
    assert all[|calls|] == call && forall a :: 0 <= a < |calls| ==> all[a] == calls[a];
    forall k | 0 <= k < |results| && results[k].Some?
      ensures k < next && Complete(batches[k], results[k]) && Called(all, Call(k, results[k]))
    {
      CalledLater(calls, Call(k, results[k]), call);
    }
  }

  lemma Swapped(batches: seq<seq<int>>, first: Worker, second: Worker, next: nat,
                results: seq<Option<seq<Raw>>>, calls: seq<Call>)
    requires Scheduled(batches, first, second, next, results, calls)
    ensures Scheduled(batches, second, first, next, results, calls)
    ensures NoneSkipped(results, first, second, next) ==> NoneSkipped(results, second, first, next)
  {
  }

  function NoResults(count: nat): seq<Option<seq<Raw>>> { seq(count, i => None) }

  lemma Begun(batches: seq<seq<int>>, first: Worker, second: Worker)
    requires !first.Fetching? && !second.Fetching?
    ensures Scheduled(batches, first, second, 0, NoResults(|batches|), []) && |NoResults(|batches|)| == |batches|
    ensures NoneSkipped(NoResults(|batches|), first, second, 0)
  {
  }

  /** A free worker may stop, or take the next index. */
  lemma Takes(batches: seq<seq<int>>, first: Worker, second: Worker, next: nat,
              results: seq<Option<seq<Raw>>>, calls: seq<Call>)
    requires Scheduled(batches, first, second, next, results, calls) && first.Ready?
    ensures Scheduled(batches, Finished, second, next, results, calls)
    ensures NoneSkipped(results, first, second, next) ==> NoneSkipped(results, Finished, second, next)
    ensures next < |batches| ==> Scheduled(batches, Fetching(next), second, next + 1, results, calls)
    ensures next < |batches| && NoneSkipped(results, first, second, next) ==>
              NoneSkipped(results, Fetching(next), second, next + 1)
  {
  }

  lemma Drops(batches: seq<seq<int>>, first: Worker, second: Worker, next: nat,
              results: seq<Option<seq<Raw>>>, calls: seq<Call>)
    requires Scheduled(batches, first, second, next, results, calls)
    ensures Scheduled(batches, Finished, second, next, results, calls)
    ensures first.Fetching? ==> first.index < |batches| == |results| && next <= |results|
  {
  }

  lemma Distinct(batches: seq<seq<int>>, first: Worker, second: Worker, next: nat,
                 results: seq<Option<seq<Raw>>>, calls: seq<Call>)
    requires Scheduled(batches, first, second, next, results, calls)
    ensures OncePerIndex(calls)
  {
  }

  lemma {:induction false} Indexes(calls: seq<Call>) returns (r: set<nat>)
    requires OncePerIndex(calls)
    ensures |r| == |calls|
    ensures forall k :: k in r <==> exists a :: 0 <= a < |calls| && calls[a].index == k
  {
    if calls == [] {
      r := {};
    } else {
      var n := |calls| - 1;
      var shorter := Indexes(calls[..n]);
      r := shorter + {calls[n].index};
    }
  }

  /** Each batch was asked for exactly once, and the replies stand in batch order. */
  ghost predicate FromCalls(calls: seq<Call>, batches: seq<seq<int>>, values: seq<seq<Raw>>) {
    && OncePerIndex(calls) && |calls| == |batches| == |values|
    && (forall k :: 0 <= k < |calls| ==> calls[k].index < |batches| && calls[k].reply == Some(values[calls[k].index]))
    && (forall i :: 0 <= i < |batches| ==> Called(calls, Call(i, Some(values[i]))) && |values[i]| == |batches[i]|)
  }

  function ValuesOf(results: seq<Option<seq<Raw>>>): (r: seq<seq<Raw>>)
    requires forall i :: 0 <= i < |results| ==> results[i].Some?
    ensures |r| == |results| && forall i :: 0 <= i < |r| ==> results[i] == Some(r[i])
  {
    seq(|results|, i requires 0 <= i < |results| => results[i].value)
  }

  /** When both workers are done without a failure, every batch is stored. */
  lemma Completed(batches: seq<seq<int>>, next: nat, results: seq<Option<seq<Raw>>>, calls: seq<Call>)
    requires Scheduled(batches, Finished, Finished, next, results, calls)
    requires next == |batches| && NoneSkipped(results, Finished, Finished, next)
    ensures forall i :: 0 <= i < |results| ==> results[i].Some?
    ensures FromCalls(calls, batches, ValuesOf(results))
  {
    var used := Indexes(calls);
    var all := Range(|batches|);
    forall k | k in all
      ensures k in used
    {
      assert results[k].Some?;
      var a :| 0 <= a < |calls| && calls[a] == Call(k, results[k]);
      assert calls[a].index == k;
    }
    forall k | k in used
      ensures k in all
    {
      var a :| 0 <= a < |calls| && calls[a].index == k;
    }
    assert all == used;
    forall k | 0 <= k < |calls|
      ensures calls[k].reply == results[calls[k].index]
    {
      var i := calls[k].index;
      assert results[i].Some?;
      var a :| 0 <= a < |calls| && calls[a] == Call(i, results[i]);
    }
  }

  /** One worker fetches its batch and stores a complete reply at the place of the batch. */
  method FetchInto(node: Node, batches: seq<seq<int>>, i: nat, stopped: bool, results: seq<Option<seq<Raw>>>,
                   ghost second: Worker, ghost next: nat, ghost start: nat, ghost done: seq<Call>)
    returns (ok: bool, after: seq<Option<seq<Raw>>>, ghost calls: seq<Call>)
    requires Scheduled(batches, Fetching(i), second, next, results, done)
    requires Made(node.replies, node.asked, start, batches, done)
    modifies node
    ensures old(node.cancelled) ==> node.cancelled
    ensures old(node.asked) <= node.asked && Made(node.replies, node.asked, start, batches, calls)
    ensures Scheduled(batches, if ok then Ready else Finished, second, next, after, calls) && |after| == |results|
    ensures next <= |results|
    ensures ok && NoneSkipped(results, Fetching(i), second, next) ==> NoneSkipped(after, Ready, second, next)
    ensures !ok ==> stopped || node.cancelled || AnyRefused(batches, calls)
    ensures AnyRefused(batches, done) ==> AnyRefused(batches, calls)
  {
    hide Made, AnyRefused, Scheduled, NoneSkipped;
    Drops(batches, Fetching(i), second, next, results, done);
    ghost var before := node.asked;
    var values := Fetch(node, batches[i], stopped);
    ghost var reply := node.replies(|before|, batches[i]);
    calls := done;
    if node.asked != before {
      MadeLater(node.replies, before, start, batches, done, i);
      RefusedLater(batches, done, i, reply);
      Stored(batches, Fetching(i), second, next, results, done, reply);
      calls := done + [Call(i, reply)];
    }
    ok := values.Some?;
    after := if ok then results[i := values] else results;
  }

  /** Fetches all batches, under any schedule of the workers. Whatever happens, no batch is asked
      for twice; on success each was asked for once, and its place holds the reply to that call.
      There is no result only if the context was cancelled or a reply was missing or incomplete. */
  method Read(node: Node, batches: seq<seq<int>>, concurrent: bool)
    returns (r: Option<seq<seq<Raw>>>, ghost calls: seq<Call>)
    modifies node
    ensures old(node.cancelled) ==> node.cancelled
    ensures old(node.asked) <= node.asked
    ensures Made(node.replies, node.asked, |old(node.asked)|, batches, calls) && OncePerIndex(calls)
    ensures r.Some? ==> FromCalls(calls, batches, r.value)
    ensures r.None? ==> node.cancelled || AnyRefused(batches, calls)
  {
    hide Scheduled, NoneSkipped, OncePerIndex, Called, Made, FromCalls, AnyRefused, NoResults;
    var count := |batches|;
    var results := NoResults(count);
    var failed := false;
    var next := 0;
    calls := [];
    var first := if count >= 1 then Ready else Finished;
    var second := if concurrent && count >= 2 then Ready else Finished;
    Begun(batches, first, second);
    NoneMade(node.replies, node.asked, batches);
    while first != Finished || second != Finished
      invariant next <= count == |results|
      invariant old(node.cancelled) ==> node.cancelled
      invariant old(node.asked) <= node.asked
      invariant Made(node.replies, node.asked, |old(node.asked)|, batches, calls)
      invariant Scheduled(batches, first, second, next, results, calls)
      invariant !failed ==> NoneSkipped(results, first, second, next)
      invariant failed ==> node.cancelled || AnyRefused(batches, calls)
      invariant first.Finished? && second.Finished? ==> failed || node.cancelled || next == count
      decreases 3 * (count - next) + Work(first) + Work(second)
    {
      var cancelled := node.Look();
      var turn := AskWorker();
      if first == Finished || (turn && second != Finished) {
        Swapped(batches, first, second, next, results, calls);
        first, second := second, first;
      }
      match first
      case Ready =>
        Takes(batches, first, second, next, results, calls);
        if failed || cancelled || next >= count {
          first := Finished;
        } else {
          first := Fetching(next);
          next := next + 1;
        }
      case Fetching(i) =>
        // A fetch that began before a failure may still reach the node after it.
        var late := AskWorker();
        var ok;
        ok, results, calls := FetchInto(
            node, batches, i, failed && late, results, second, next, |old(node.asked)|, calls);
        failed := failed || !ok;
        first := if ok then Ready else Finished;
    }
    Distinct(batches, first, second, next, results, calls);
    var cancelled := node.Look();
    if failed || cancelled { return None, calls; }
    Completed(batches, next, results, calls);
    return Some(ValuesOf(results)), calls;
  }

  lemma NoneMade(replies: Replies, asked: seq<seq<int>>, batches: seq<seq<int>>)
    ensures Made(replies, asked, |asked|, batches, [])
  {
  }

  /** The node did not give some batch as many values as it has keys. */
  ghost predicate AnyRefused(batches: seq<seq<int>>, calls: seq<Call>) {
    exists k :: 0 <= k < |calls| && Refused(batches, calls[k])
  }

  ghost predicate Refused(batches: seq<seq<int>>, call: Call) {
    call.index < |batches| && !Complete(batches[call.index], call.reply)
  }

  lemma RefusedLater(batches: seq<seq<int>>, calls: seq<Call>, i: nat, reply: Option<seq<Raw>>)
    requires i < |batches|
    ensures AnyRefused(batches, calls) || !Complete(batches[i], reply) ==> AnyRefused(batches, calls + [Call(i, reply)])
  {
    var call := Call(i, reply);
    var all := calls + [call];
    assert all[|calls|] == call && forall k :: 0 <= k < |calls| ==> all[k] == calls[k];
  }

  /** A successful read in terms of the node's calls: there was one for each batch, with exactly its keys,
      and the values of the batch are those of the reply to that call, one for each key. */
  lemma ReadMeans(replies: Replies, asked: seq<seq<int>>, start: nat, batches: seq<seq<int>>, calls: seq<Call>,
                  values: seq<seq<Raw>>)
    requires Made(replies, asked, start, batches, calls) && OncePerIndex(calls) && FromCalls(calls, batches, values)
    ensures |asked| == start + |batches| && |values| == |batches| == |calls|
    ensures forall k :: 0 <= k < |calls| ==> calls[k].index < |batches| && asked[start + k] == batches[calls[k].index]
    ensures forall i, j :: 0 <= i < j < |calls| ==> calls[i].index != calls[j].index
    ensures forall k :: 0 <= k < |calls| ==>
              && replies(start + k, asked[start + k]) == Some(values[calls[k].index])
              && |values[calls[k].index]| == |asked[start + k]|
  {
  }

  /** When a read may fail without a cancellation: some reply is missing, or has not one value for each
      key of its batch. */
  lemma RefusedMeans(batches: seq<seq<int>>, calls: seq<Call>)
    ensures AnyRefused(batches, calls) <==>
            exists k :: 0 <= k < |calls| && calls[k].index < |batches|
              && (calls[k].reply == None || |calls[k].reply.value| != |batches[calls[k].index]|)
  {
  }
}
