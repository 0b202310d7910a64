/** Evidence of applied logs: a bounded first-in-first-out record of log identities. */
module Journal {
  import opened Bytes

  /** Hashes are opaque numbers; zero stands for an absent one. */
  type Hash = nat

  type Word = w: seq<byte> | |w| == 32 witness Zero32()

  function Zero32(): (w: seq<byte>)
    ensures |w| == 32
  {
    seq(32, _ => 0)
  }

  datatype Log = Log(
    block: nat, blockHash: Hash, index: nat, removed: bool,
    address: seq<byte>, txHash: Word, txIndex: nat, topics: seq<Word>, data: seq<byte>)

  datatype Key = Key(block: nat, hash: Hash, index: nat)

  type Evidence = map<Key, Hash>

  type Digest = seq<byte> -> Hash

  const CAPACITY := 4096

  function KeyOf(log: Log): Key { Key(log.block, log.blockHash, log.index) }

  // ---------- Fingerprints ----------

  function Be(v: nat, k: nat): (r: seq<byte>)
    ensures |r| == k
  {
    if k == 0 then [] else Be(v / 256, k - 1) + [v % 256]
  }

  function Flat(ws: seq<Word>): (r: seq<byte>)
    ensures |r| == 32 * |ws|
  {
    if ws == [] then [] else ws[0] + Flat(ws[1..])
  }

  /** What is hashed: every part has a fixed length or is preceded by its count. */
  function Preimage(log: Log): seq<byte> {
    log.address + (log.txHash + (Be(log.txIndex, 8) + (Be(|log.topics|, 8) + (Flat(log.topics) + log.data))))
  }

  function Fingerprint(sha: Digest, log: Log): Hash { sha(Preimage(log)) }

  lemma {:induction false} BeInjective(v: nat, w: nat, k: nat)
    requires v < Pow256(k) && w < Pow256(k) && Be(v, k) == Be(w, k)
    ensures v == w
  {
    if k > 0 {
      var a, b := Be(v / 256, k - 1), Be(w / 256, k - 1);
      assert Be(v, k)[..k-1] == a && Be(w, k)[..k-1] == b;
      assert Be(v, k)[k-1] == v % 256 && Be(w, k)[k-1] == w % 256;
      BeInjective(v / 256, w / 256, k - 1);
    }
  }

  lemma {:induction false} FlatInjective(a: seq<Word>, b: seq<Word>)
    requires |a| == |b| && Flat(a) == Flat(b)
    ensures a == b
  {
    if a != [] {
      assert Flat(a)[..32] == a[0] && Flat(b)[..32] == b[0];
      assert Flat(a)[32..] == Flat(a[1..]) && Flat(b)[32..] == Flat(b[1..]);
      FlatInjective(a[1..], b[1..]);
      assert a == [a[0]] + a[1..] && b == [b[0]] + b[1..];
    }
  }

  lemma Front(a: seq<byte>, b: seq<byte>, c: seq<byte>, d: seq<byte>)
    requires |a| == |c| && a + b == c + d
    ensures a == c && b == d
  {
    assert (a + b)[..|a|] == a && (c + d)[..|c|] == c;
    assert (a + b)[|a|..] == b && (c + d)[|c|..] == d;
  }

  predicate Sized(log: Log) {
    |log.address| == 20 && log.txIndex < Pow256(8) && |log.topics| < Pow256(8)
  }

  /** Logs with the same hashed bytes carry the same content, so that equal fingerprints mean
      equal content unless the hash function collides. */
  lemma PreimageInjective(a: Log, b: Log)
    requires Sized(a) && Sized(b) && Preimage(a) == Preimage(b)
    ensures a.address == b.address && a.txHash == b.txHash && a.txIndex == b.txIndex
    ensures a.topics == b.topics && a.data == b.data
  {
    hide Be, Flat, Pow256;
    var a4, b4 := Flat(a.topics) + a.data, Flat(b.topics) + b.data;
    var a3, b3 := Be(|a.topics|, 8) + a4, Be(|b.topics|, 8) + b4;
    var a2, b2 := Be(a.txIndex, 8) + a3, Be(b.txIndex, 8) + b3;
    Front(a.address, a.txHash + a2, b.address, b.txHash + b2);
    Front(a.txHash, a2, b.txHash, b2);
    Front(Be(a.txIndex, 8), a3, Be(b.txIndex, 8), b3);
    Front(Be(|a.topics|, 8), a4, Be(|b.topics|, 8), b4);
    BeInjective(a.txIndex, b.txIndex, 8);
    BeInjective(|a.topics|, |b.topics|, 8);
    Front(Flat(a.topics), a.data, Flat(b.topics), b.data);
    FlatInjective(a.topics, b.topics);
  }

  // ---------- The record ----------

  datatype Record = Record(seen: Evidence, queue: seq<Key>)

  ghost predicate Sound(r: Record) {
    && |r.queue| <= CAPACITY
    && (forall k :: k in r.seen <==> k in r.queue)
    && (forall i, j :: 0 <= i < j < |r.queue| ==> r.queue[i] != r.queue[j])
  }

  function Recorded(sha: Digest, r: Record, log: Log): Record {
    var key := KeyOf(log);
    if log.removed then r
    else if key in r.seen then Record(r.seen[key := Fingerprint(sha, log)], r.queue)
    else if |r.queue| == CAPACITY then
      Record((r.seen - {r.queue[0]})[key := Fingerprint(sha, log)], r.queue[1..] + [key])
    else Record(r.seen[key := Fingerprint(sha, log)], r.queue + [key])
  }

  function RecordedAll(sha: Digest, logs: seq<Log>): Record {
    if logs == [] then Record(map[], []) else Recorded(sha, RecordedAll(sha, logs[..|logs|-1]), logs[|logs|-1])
  }

  lemma RecordedSound(sha: Digest, r: Record, log: Log)
    requires Sound(r)
    ensures Sound(Recorded(sha, r, log))
  {
    var key, next := KeyOf(log), Recorded(sha, r, log);
    if !log.removed && key !in r.seen && |r.queue| == CAPACITY {
      forall k
        ensures k in next.seen <==> k in next.queue
      {
        assert r.queue == [r.queue[0]] + r.queue[1..];
        assert k in next.queue <==> k in r.queue[1..] || k == key;
      }
    }
  }

  /** `digest` is the fingerprint of the last log recorded under `key`. */
  ghost predicate LastUnder(sha: Digest, logs: seq<Log>, key: Key, digest: Hash) {
    exists i :: 0 <= i < |logs| && LastAt(sha, logs, key, digest, i)
  }

  ghost predicate LastAt(sha: Digest, logs: seq<Log>, key: Key, digest: Hash, i: nat)
    requires i < |logs|
  {
    && !logs[i].removed && KeyOf(logs[i]) == key && Fingerprint(sha, logs[i]) == digest
    && forall j :: i < j < |logs| && !logs[j].removed ==> KeyOf(logs[j]) != key
  }

  /** After any sequence of records the journal holds at most 4096 identities, each once and
      each with the fingerprint of the last log recorded under it. */
  lemma {:induction false} RecordedMeaning(sha: Digest, logs: seq<Log>)
    ensures Sound(RecordedAll(sha, logs))
    ensures forall k :: k in RecordedAll(sha, logs).seen ==> LastUnder(sha, logs, k, RecordedAll(sha, logs).seen[k])
  {
    if logs != [] {
      var n := |logs| - 1;
      var before, after := RecordedAll(sha, logs[..n]), RecordedAll(sha, logs);
      RecordedMeaning(sha, logs[..n]);
      RecordedSound(sha, before, logs[n]);
      forall k | k in after.seen
        ensures LastUnder(sha, logs, k, after.seen[k])
      {
        if logs[n].removed || k != KeyOf(logs[n]) {
          assert k in before.seen && before.seen[k] == after.seen[k];
          LastUnderNext(sha, logs, k, after.seen[k]);
        } else {
          assert LastAt(sha, logs, k, after.seen[k], n);
        }
      }
    }
  }

  lemma LastUnderNext(sha: Digest, logs: seq<Log>, key: Key, digest: Hash)
    requires logs != [] && LastUnder(sha, logs[..|logs|-1], key, digest)
    requires logs[|logs|-1].removed || KeyOf(logs[|logs|-1]) != key
    ensures LastUnder(sha, logs, key, digest)
  {
    var n := |logs| - 1;
    var init := logs[..n];
    var i :| 0 <= i < n && LastAt(sha, init, key, digest, i);
    assert forall j :: 0 <= j < n ==> logs[j] == init[j];
    assert LastAt(sha, logs, key, digest, i);
  }

  /** Recording a log drops at most the oldest identity, and only when the journal is full. */
  lemma KeepsNewest(sha: Digest, r: Record, log: Log)
    requires Sound(r) && !log.removed
    ensures
      var next := Recorded(sha, r, log);
      && KeyOf(log) in next.seen && next.seen[KeyOf(log)] == Fingerprint(sha, log)
      && (forall i :: 0 < i < |r.queue| ==> r.queue[i] in next.seen)
      && (|r.queue| < CAPACITY ==> r.seen.Keys <= next.seen.Keys)
  {
    var next := Recorded(sha, r, log);
    RecordedSound(sha, r, log);
    if KeyOf(log) !in r.seen && |r.queue| == CAPACITY {
      forall i | 0 < i < |r.queue|
        ensures r.queue[i] in next.seen
      {
        assert next.queue[i - 1] == r.queue[i];
      }
    }
  }

  /** The identities of the logs that were not removed. */
  function Identities(logs: seq<Log>): set<Key> {
    set l | l in logs && !l.removed :: KeyOf(l)
  }

  lemma {:induction false} DistinctCount(queue: seq<Key>)
    requires forall i, j :: 0 <= i < j < |queue| ==> queue[i] != queue[j]
    ensures |set k | k in queue| == |queue|
  {
    if queue != [] {
      var n := |queue| - 1;
      DistinctCount(queue[..n]);
      assert queue == queue[..n] + [queue[n]];
      assert (set k | k in queue) == (set k | k in queue[..n]) + {queue[n]};
    }
  }

  /** Nothing is evicted while at most 4096 identities were recorded. */
  lemma {:induction false} NothingLost(sha: Digest, logs: seq<Log>)
    requires |Identities(logs)| <= 4096
    ensures RecordedAll(sha, logs).seen.Keys == Identities(logs)
  {
    if logs != [] {
      hide Identities, Sound, Recorded, LastUnder, KeyOf;
      var n := |logs| - 1;
      IdentitiesNext(logs);
      NothingLost(sha, logs[..n]);
      RecordedMeaning(sha, logs[..n]);
      KeysNext(sha, RecordedAll(sha, logs[..n]), logs[n]);
    }
  }

  lemma IdentitiesNext(logs: seq<Log>)
    requires logs != []
    ensures var n := |logs| - 1;
            && Identities(logs) == Identities(logs[..n]) + (if logs[n].removed then {} else {KeyOf(logs[n])})
            && |Identities(logs[..n])| <= |Identities(logs)|
            && (!logs[n].removed && KeyOf(logs[n]) !in Identities(logs[..n]) ==>
                  |Identities(logs)| == |Identities(logs[..n])| + 1)
  {
    var n := |logs| - 1;
    var before, added := Identities(logs[..n]), if logs[n].removed then {} else {KeyOf(logs[n])};
    assert logs == logs[..n] + [logs[n]];
    assert Identities(logs) == before + added;
    assert before + added == before + (added - before);
  }

  lemma KeysNext(sha: Digest, r: Record, log: Log)
    requires Sound(r)
    ensures |r.queue| == |r.seen.Keys|
    ensures log.removed || KeyOf(log) in r.seen || |r.queue| < CAPACITY ==>
              Recorded(sha, r, log).seen.Keys == r.seen.Keys + (if log.removed then {} else {KeyOf(log)})
  {
    hide KeyOf, Fingerprint;
    DistinctCount(r.queue);
    assert (set k | k in r.queue) == r.seen.Keys;
  }

  class AppliedLogs {
    const sha: Digest
    var seen: Evidence
    var queue: seq<Key>
    ghost var logs: seq<Log>  // all logs so far, removed ones included

    ghost predicate Valid()
      reads this
    {
      Record(seen, queue) == RecordedAll(sha, logs)
    }

    constructor (sha: Digest)
      ensures Valid() && this.sha == sha && logs == []
    {
      this.sha := sha;
      seen, queue, logs := map[], [], [];
    }

    /** Remembers a successfully applied log. */
    method Remember(log: Log)
      requires Valid()
      modifies this
      ensures Valid() && logs == old(logs) + [log]
    {
      RecordedMeaning(sha, logs);
      assert (logs + [log])[..|logs|] == logs;
      logs := logs + [log];
      if log.removed { return; }
      var key := KeyOf(log);
      if key !in seen {
        if |queue| == CAPACITY {
          seen := seen - {queue[0]};
          queue := queue[1..];
        }
        queue := queue + [key];
      }
      seen := seen[key := Fingerprint(sha, log)];
    }

    /** Copies the evidence for a detached proof: at most 4096 identities, each with the fingerprint
        of the last log recorded under it; the last log is there, and while at most 4096 identities
        were recorded, all are. */
    method Snapshot() returns (e: Evidence)
      requires Valid()
      ensures |e| <= 4096 && forall k :: k in e ==> LastUnder(sha, logs, k, e[k])
      ensures logs != [] && !logs[|logs|-1].removed ==> KeyOf(logs[|logs|-1]) in e
      ensures |Identities(logs)| <= 4096 ==> e.Keys == Identities(logs)
    {
      RecordedMeaning(sha, logs);
      DistinctCount(queue);
      assert (set k | k in queue) == seen.Keys;
      if |Identities(logs)| <= CAPACITY { NothingLost(sha, logs); }
      return seen;
    }
  }
}
