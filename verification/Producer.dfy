/** The producer of tick windows: live updates keep being applied while a detached replacement is
    captured; when the capture succeeds, the updates since it started are replayed onto it. */
module Producer {
  import opened Wrappers

  const REPLAY_LIMIT := 4096
  const FIRST_DELAY := 1
  const LAST_DELAY := 30

  /** An applied update; only some carry a transaction, the others report progress. */
  datatype Update = Update(id: nat, hasTransaction: bool)

  /** What the loop wakes up for, with the outcome of the calls it then makes. */
  datatype Event =
    | Cancelled
    | ReceiveError
    | Empty
    | Received(update: Update, applied: bool)
    | Tick(now: nat, missing: bool)
    | CaptureDone(now: nat, captured: bool, installed: bool)

  /** How a capture ends: without a value, with a replay that grew too long, or by offering its value
      and a replay for installation. */
  datatype Outcome = CaptureFailed | ReplayTooLong | Offered(replay: seq<Update>, accepted: bool)

  predicate Failed(o: Outcome) { !(o.Offered? && o.accepted) }

  /** What the producer did at one event: the update it applied, the capture it started, or how the
      running capture ended. */
  datatype Action =
    | Applied(at: nat, update: Update)
    | Started(at: nat)
    | Ended(at: nat, now: nat, outcome: Outcome)

  /** Why the loop ended; a failed receive is joined with the failure of the last capture. */
  datatype Failure = ContextDone | ReceiveFailed(last: Option<Outcome>) | ApplyFailed

  // ---------- What should be done ----------

  /** Whether a capture is running after the actions. */
  function Running(log: seq<Action>): bool {
    if log == [] then false
    else
      match log[|log|-1]
      case Started(_) => true
      case Ended(_, _, _) => false
      case Applied(_, _) => Running(log[..|log|-1])
  }

  /** The transaction-bearing updates applied since the last capture started or ended, in order. */
  function Since(log: seq<Action>): seq<Update> {
    if log == [] then []
    else
      match log[|log|-1]
      case Applied(_, u) => Since(log[..|log|-1]) + (if u.hasTransaction then [u] else [])
      case _ => []
  }

  /** How many captures failed since the last one that was installed. */
  function Failures(log: seq<Action>): nat {
    if log == [] then 0
    else
      match log[|log|-1]
      case Ended(_, _, o) => if Failed(o) then Failures(log[..|log|-1]) + 1 else 0
      case _ => Failures(log[..|log|-1])
  }

  /** The failure of the last capture. */
  function LastFailure(log: seq<Action>): Option<Outcome> {
    if log == [] then None
    else
      match log[|log|-1]
      case Ended(_, _, o) => if Failed(o) then Some(o) else None
      case _ => LastFailure(log[..|log|-1])
  }

  function Pow2(n: nat): nat { if n == 0 then 1 else 2 * Pow2(n - 1) }

  /** The delay doubles with every failure, up to the last delay. */
  function Delay(failures: nat): nat {
    if FIRST_DELAY * Pow2(failures) < LAST_DELAY then FIRST_DELAY * Pow2(failures) else LAST_DELAY
  }

  /** The time before which no capture is retried. */
  function NotBefore(log: seq<Action>): nat {
    if log == [] then 0
    else
      match log[|log|-1]
      case Ended(_, now, o) => if Failed(o) then now + Delay(Failures(log[..|log|-1])) else 0
      case _ => NotBefore(log[..|log|-1])
  }

  /** The action for one event: a received update is applied; a tick starts a capture exactly when
      none is running, something is missing and the delay has passed; the end of a running capture
      offers its value with the updates since its start, unless they are too many. */
  function Due(log: seq<Action>, e: Event, at: nat): Option<Action> {
    match e
    case Received(u, applied) => if applied then Some(Applied(at, u)) else None
    case Tick(now, missing) => if !Running(log) && missing && NotBefore(log) <= now then Some(Started(at)) else None
    case CaptureDone(now, captured, installed) =>
      if !Running(log) then None
      else Some(Ended(at, now,
        if !captured then CaptureFailed
        else if |Since(log)| > REPLAY_LIMIT then ReplayTooLong
        else Offered(Since(log), installed)))
    case _ => None
  }

  /** All actions for the first events. */
  function History(events: seq<Event>, n: nat): seq<Action>
    requires n <= |events|
  {
    if n == 0 then []
    else
      var log := History(events, n - 1);
      match Due(log, events[n-1], n - 1)
      case Some(a) => log + [a]
      case None => log
  }

  /** The events that end the loop. */
  function Ending(log: seq<Action>, e: Event): Option<Failure> {
    match e
    case Cancelled => Some(ContextDone)
    case ReceiveError => Some(ReceiveFailed(LastFailure(log)))
    case Received(_, applied) => if applied then None else Some(ApplyFailed)
    case _ => None
  }

  /** The first event from the given one on that ends the loop, or the number of events. */
  function Last(events: seq<Event>, from: nat): (n: nat)
    requires from <= |events|
    ensures from <= n <= |events|
    ensures forall i :: from <= i < n ==> Ending(History(events, i), events[i]).None?
    ensures n < |events| ==> Ending(History(events, n), events[n]).Some?
    decreases |events| - from
  {
    if from == |events| || Ending(History(events, from), events[from]).Some? then from else Last(events, from + 1)
  }

  // ---------- The loop ----------

  lemma Append(log: seq<Action>, a: Action)
    ensures Running(log + [a]) == (a.Started? || (a.Applied? && Running(log)))
    ensures Since(log + [a]) ==
            if a.Applied? then Since(log) + (if a.update.hasTransaction then [a.update] else []) else []
    ensures Failures(log + [a]) ==
            if a.Ended? then (if Failed(a.outcome) then Failures(log) + 1 else 0) else Failures(log)
    ensures LastFailure(log + [a]) ==
            if a.Ended? then (if Failed(a.outcome) then Some(a.outcome) else None) else LastFailure(log)
    ensures NotBefore(log + [a]) ==
            if a.Ended? then (if Failed(a.outcome) then a.now + Delay(Failures(log)) else 0) else NotBefore(log)
  {
    assert (log + [a])[..|log|] == log;
  }

  lemma {:induction false} Doubles(n: nat)
    ensures Delay(0) == 1 && 1 <= Delay(n) <= 30
    ensures Delay(n + 1) == if 2 * Delay(n) > 30 then 30 else 2 * Delay(n)
  {
    PowPositive(n);
  }

  lemma {:induction false} PowPositive(n: nat)
    ensures Pow2(n) >= 1
  {
    if n > 0 { PowPositive(n - 1); }
  }

  /** The variables of the loop hold what its log determines. */
  ghost predicate Tracks(log: seq<Action>, running: bool, overflow: bool, replay: seq<Update>,
                         lastFailure: Option<Outcome>, next: nat, backoff: nat) {
    && running == Running(log)
    && (running && !overflow ==> replay == Since(log) && |replay| <= REPLAY_LIMIT)
    && (running && overflow ==> |Since(log)| > REPLAY_LIMIT)
    && lastFailure == LastFailure(log) && next == NotBefore(log) && backoff == Delay(Failures(log))
  }

  lemma TracksNothing()
    ensures Tracks([], false, false, [], None, 0, FIRST_DELAY) && Delay(0) == FIRST_DELAY
  {
  }

  lemma TracksApplied(log: seq<Action>, running: bool, overflow: bool, replay: seq<Update>,
                      lastFailure: Option<Outcome>, next: nat, backoff: nat, at: nat, u: Update)
    requires Tracks(log, running, overflow, replay, lastFailure, next, backoff)
    ensures var grows := running && !overflow && u.hasTransaction;
            var full := grows && |replay| >= REPLAY_LIMIT;
            Tracks(log + [Applied(at, u)], running, overflow || full,
                   if full then [] else if grows then replay + [u] else replay, lastFailure, next, backoff)
  {
    hide Running, Since, Failures, LastFailure, NotBefore, Delay;
    Append(log, Applied(at, u));
  }

  lemma TracksStarted(log: seq<Action>, running: bool, overflow: bool, replay: seq<Update>,
                      lastFailure: Option<Outcome>, next: nat, backoff: nat, at: nat)
    requires Tracks(log, running, overflow, replay, lastFailure, next, backoff)
    ensures Tracks(log + [Started(at)], true, false, [], lastFailure, next, backoff)
  {
    hide Running, Since, Failures, LastFailure, NotBefore, Delay;
    Append(log, Started(at));
  }

  lemma TracksEnded(log: seq<Action>, running: bool, overflow: bool, replay: seq<Update>,
                    lastFailure: Option<Outcome>, next: nat, backoff: nat, at: nat, now: nat, o: Outcome)
    requires Tracks(log, running, overflow, replay, lastFailure, next, backoff)
    ensures Failed(o) ==> Tracks(log + [Ended(at, now, o)], false, overflow, [], Some(o), now + backoff,
                                 if backoff * 2 > LAST_DELAY then LAST_DELAY else backoff * 2)
    ensures !Failed(o) ==> Tracks(log + [Ended(at, now, o)], false, overflow, [], None, 0, FIRST_DELAY)
  {
    TracksNothing();
    hide Running, Since, Failures, LastFailure, NotBefore, Delay, Failed;
    Append(log, Ended(at, now, o));
    Doubles(Failures(log));
  }

  lemma NoHistory(events: seq<Event>)
    ensures History(events, 0) == []
  {
  }

  /** What the next event calls for, in terms of the variables of the loop. */
  lemma Step(events: seq<Event>, i: nat, log: seq<Action>, running: bool, overflow: bool, replay: seq<Update>,
             lastFailure: Option<Outcome>, next: nat, backoff: nat)
    requires i < |events| && log == History(events, i)
    requires Tracks(log, running, overflow, replay, lastFailure, next, backoff)
    ensures History(events, i + 1) ==
            match events[i]
            case Received(u, applied) => if applied then log + [Applied(i, u)] else log
            case Tick(now, missing) => if running || now < next || !missing then log else log + [Started(i)]
            case CaptureDone(now, captured, installed) =>
              if !running then log
              else log + [Ended(i, now, if !captured then CaptureFailed
                                        else if overflow then ReplayTooLong else Offered(replay, installed))]
            case _ => log
    ensures Ending(log, events[i]) ==
            match events[i]
            case Cancelled => Some(ContextDone)
            case ReceiveError => Some(ReceiveFailed(lastFailure))
            case Received(_, applied) => if applied then None else Some(ApplyFailed)
            case _ => None
  {
    hide Running, Since, Failures, LastFailure, NotBefore, Delay;
  }

  /** The event loop, for as many events as it is given. The log lists, in order, the updates handed
      to the owner, the captures started, and how each ended. */
  method Run(events: seq<Event>) returns (failure: Option<Failure>, log: seq<Action>)
    ensures log == History(events, Last(events, 0))
    ensures failure == if Last(events, 0) == |events| then None else Ending(log, events[Last(events, 0)])
  {
    hide Running, Since, Failures, LastFailure, NotBefore, Delay, Tracks, History, Due, Ending, Failed;
    log := [];
    var running, overflow := false, false;
    var replay: seq<Update> := [];
    var lastFailure: Option<Outcome> := None;
    var next: nat, backoff: nat := 0, FIRST_DELAY;
    TracksNothing();
    assert log == History(events, 0) by { NoHistory(events); }
    for i := 0 to |events|
      invariant log == History(events, i)
      invariant Last(events, 0) == Last(events, i)
      invariant Tracks(log, running, overflow, replay, lastFailure, next, backoff)
    {
      Step(events, i, log, running, overflow, replay, lastFailure, next, backoff);
      match events[i]
      case Cancelled => return Some(ContextDone), log;
      case ReceiveError => return Some(ReceiveFailed(lastFailure)), log;
      case Empty =>
      case Received(update, applied) =>
        if !applied { return Some(ApplyFailed), log; }
        TracksApplied(log, running, overflow, replay, lastFailure, next, backoff, i, update);
        log := log + [Applied(i, update)];
        if running && !overflow && update.hasTransaction {
          if |replay| >= REPLAY_LIMIT {
            overflow := true;
            replay := [];
          } else {
            replay := replay + [update];
          }
        }
      case Tick(now, missing) =>
        if !(running || now < next || !missing) {
          TracksStarted(log, running, overflow, replay, lastFailure, next, backoff, i);
          log := log + [Started(i)];
          running, overflow, replay := true, false, [];
        }
      case CaptureDone(now, captured, installed) =>
        // Only the goroutine of a started capture reports.
        if running {
          var outcome := if !captured then CaptureFailed else if overflow then ReplayTooLong
            else Offered(replay, installed);
          TracksEnded(log, running, overflow, replay, lastFailure, next, backoff, i, now, outcome);
          log := log + [Ended(i, now, outcome)];
          running, replay := false, [];
          lastFailure := if Failed(outcome) then Some(outcome) else None;
          if lastFailure.Some? {
            next := now + backoff;
            backoff := if backoff * 2 > LAST_DELAY then LAST_DELAY else backoff * 2;
          } else {
            next, backoff := 0, FIRST_DELAY;
          }
        }
    }
    return None, log;
  }

  // ---------- What the history means ----------

  /** Each action stands where its event put it: the actions before it are those of the events
      before, and it is the one its event called for. */
  lemma {:induction false} Placed(events: seq<Event>, n: nat, k: nat)
    requires n <= |events| && k < |History(events, n)|
    ensures var a := History(events, n)[k];
            && a.at < n && History(events, n)[..k] == History(events, a.at)
            && Due(History(events, a.at), events[a.at], a.at) == Some(a)
  {
    hide Running, Since, NotBefore;
    var log := History(events, n - 1);
    if k < |log| {
      Placed(events, n - 1, k);
      assert History(events, n)[..k] == log[..k];
    } else {
      assert History(events, n)[..k] == log;
    }
  }

  /** Actions follow the order of their events, one for each event at most. */
  lemma {:induction false} InOrder(events: seq<Event>, n: nat, j: nat, k: nat)
    requires n <= |events| && j < k < |History(events, n)|
    ensures History(events, n)[j].at < History(events, n)[k].at
  {
    var log := History(events, n);
    Placed(events, n, k);
    var at := log[k].at;
    assert log[..k][j] == log[j];
    Placed(events, at, j);
  }

  /** The place of the last start, given that a capture is running. */
  function LastStart(log: seq<Action>): (p: nat)
    requires Running(log)
    ensures p < |log| && log[p].Started? && forall q :: p < q < |log| ==> log[q].Applied?
  {
    if log[|log|-1].Started? then |log| - 1 else LastStart(log[..|log|-1])
  }

  /** Between two starts a capture ends: at most one is running at any time. */
  lemma NoOverlap(events: seq<Event>, n: nat, j: nat, k: nat)
    requires n <= |events| && j < k < |History(events, n)|
    requires History(events, n)[j].Started? && History(events, n)[k].Started?
    ensures exists m :: j < m < k && History(events, n)[m].Ended?
  {
    var log := History(events, n);
    Placed(events, n, k);
    if forall m :: j < m < k ==> !log[m].Ended? { StillRunning(log[..k], j); }
  }

  lemma {:induction false} StillRunning(log: seq<Action>, j: nat)
    requires j < |log| && log[j].Started? && forall m :: j < m < |log| ==> !log[m].Ended?
    ensures Running(log)
  {
    if log[|log|-1].Applied? { StillRunning(log[..|log|-1], j); }
  }

  /** The transaction-bearing updates received in some events. */
  function Bearers(events: seq<Event>): seq<Update> {
    if events == [] then [] else Bearers(events[..|events|-1]) + Bearing(events[|events|-1])
  }

  function Bearing(e: Event): seq<Update> {
    if e.Received? && e.applied && e.update.hasTransaction then [e.update] else []
  }

  /** The event that started the running capture. */
  function StartOf(events: seq<Event>, n: nat): (s: nat)
    requires n <= |events| && Running(History(events, n))
    ensures s < n && events[s].Tick? && events[s].missing
  {
    Placed(events, n, LastStart(History(events, n)));
    History(events, n)[LastStart(History(events, n))].at
  }

  lemma StartNext(events: seq<Event>, n: nat)
    requires n < |events| && Running(History(events, n + 1))
    ensures events[n].Tick? && !Running(History(events, n)) ==>
              StartOf(events, n + 1) == n && Since(History(events, n + 1)) == []
    ensures !(events[n].Tick? && !Running(History(events, n))) ==>
              && Running(History(events, n)) && StartOf(events, n + 1) == StartOf(events, n)
              && Since(History(events, n + 1)) == Since(History(events, n)) + Bearing(events[n])
  {
    hide NotBefore, Since;
    var before := History(events, n);
    match Due(before, events[n], n)
    case None =>
    case Some(a) =>
      Append(before, a);
      assert (before + [a])[..|before|] == before;
  }

  /** While a capture runs, the updates since its start are those received after that event. */
  lemma {:induction false} SinceIsBearers(events: seq<Event>, n: nat)
    requires n <= |events| && Running(History(events, n))
    ensures Since(History(events, n)) == Bearers(events[StartOf(events, n)+1..n])
  {
    hide NotBefore, Running, Since, Due, History, Bearing;
    var s := StartOf(events, n);
    StartNext(events, n - 1);
    if s == n - 1 {
      assert events[s+1..n] == [];
    } else {
      SinceIsBearers(events, n - 1);
      assert events[s+1..n][..n-1-s-1] == events[s+1..n-1];
    }
  }

  /** Something is installed only when a capture has ended well, with exactly the transaction-bearing
      updates received between its start and its end: at most 4096, in order, none missing. */
  lemma InstallExact(events: seq<Event>, n: nat, k: nat)
    requires n <= |events| && k < |History(events, n)|
    requires History(events, n)[k].Ended? && History(events, n)[k].outcome.Offered?
    ensures var Ended(end, now, outcome) := History(events, n)[k];
            && end < n && events[end] == CaptureDone(now, true, outcome.accepted) && Running(History(events, end))
            && outcome.replay == Bearers(events[StartOf(events, end)+1..end]) && |outcome.replay| <= 4096
  {
    hide NotBefore, Since;
    Placed(events, n, k);
    SinceIsBearers(events, History(events, n)[k].at);
  }

  /** Conversely, a capture that ends well is offered for installation exactly when at most 4096
      transaction-bearing updates were received since its start. */
  lemma InstallComplete(events: seq<Event>, end: nat)
    requires end < |events| && events[end].CaptureDone? && events[end].captured && Running(History(events, end))
    ensures var replay := Bearers(events[StartOf(events, end)+1..end]);
            History(events, end + 1) == History(events, end) + [Ended(end, events[end].now,
              if |replay| <= 4096 then Offered(replay, events[end].installed) else ReplayTooLong)]
  {
    hide Since;
    SinceIsBearers(events, end);
  }

  /** A retry waits: a capture started after a failed one starts no earlier than the delay of the
      failures in a row after that failure, and the delay never exceeds the last delay. */
  lemma RetryWaits(events: seq<Event>, n: nat, j: nat, k: nat)
    requires n <= |events| && j < k < |History(events, n)|
    requires History(events, n)[j].Ended? && Failed(History(events, n)[j].outcome) && History(events, n)[k].Started?
    requires forall q :: j < q < k ==> History(events, n)[q].Applied?
    ensures var log := History(events, n);
            && log[k].at < n && events[log[k].at].Tick?
            && log[j].now + Delay(Failures(log[..j])) <= events[log[k].at].now
            && 1 <= Delay(Failures(log[..j])) <= 30
  {
    var log := History(events, n);
    Placed(events, n, k);
    KeepsWaiting(log[..k], j);
    assert log[..k][..j] == log[..j];
    Doubles(Failures(log[..j]));
  }

  lemma {:induction false} KeepsWaiting(log: seq<Action>, j: nat)
    requires j < |log| && log[j].Ended? && forall q :: j < q < |log| ==> log[q].Applied?
    ensures NotBefore(log) == if Failed(log[j].outcome) then log[j].now + Delay(Failures(log[..j])) else 0
  {
    if j < |log| - 1 {
      var shorter := log[..|log|-1];
      assert shorter[..j] == log[..j];
      KeepsWaiting(shorter, j);
    }
  }

  // ---------- What each event does, in plain terms ----------

  /** The last capture that ended. */
  predicate EndedLast(log: seq<Action>, j: int) {
    0 <= j < |log| && log[j].Ended? && forall q :: j < q < |log| ==> !log[q].Ended?
  }

  /** A capture runs exactly when one was started and none has ended since. */
  lemma {:induction false} RunningRule(log: seq<Action>)
    ensures Running(log) <==>
            exists j :: 0 <= j < |log| && log[j].Started? && forall q :: j < q < |log| ==> !log[q].Ended?
  {
    if log != [] {
      var n := |log| - 1;
      RunningRule(log[..n]);
      if log[n].Applied? {
        if j :| 0 <= j < n && log[..n][j].Started? && forall q :: j < q < n ==> !log[..n][q].Ended? {
          assert forall q :: j < q < |log| ==> q < n ==> log[q] == log[..n][q];
          assert log[j].Started? && forall q :: j < q < |log| ==> !log[q].Ended?;
        }
        if j :| 0 <= j < |log| && log[j].Started? && forall q :: j < q < |log| ==> !log[q].Ended? {
          assert log[..n][j].Started? && forall q :: j < q < n ==> !log[..n][q].Ended?;
        }
      }
    }
  }

  /** What is kept of the last capture: its failure, and the time before which none is retried. */
  lemma {:induction false} LastRule(log: seq<Action>)
    ensures (forall j :: 0 <= j < |log| ==> !log[j].Ended?) ==> LastFailure(log) == None && NotBefore(log) == 0
    ensures forall j :: EndedLast(log, j) ==>
              if log[j].outcome.Offered? && log[j].outcome.accepted then LastFailure(log) == None && NotBefore(log) == 0
              else
                && LastFailure(log) == Some(log[j].outcome)
                && NotBefore(log) == log[j].now + Delay(Failures(log[..j]))
  {
    hide LastFailure, NotBefore, Delay, Failures;
    if forall j :: 0 <= j < |log| ==> !log[j].Ended? { NoneEnded(log); }
    forall j | EndedLast(log, j)
      ensures LastFailure(log) == (if Failed(log[j].outcome) then Some(log[j].outcome) else None)
      ensures NotBefore(log) == if Failed(log[j].outcome) then log[j].now + Delay(Failures(log[..j])) else 0
    {
      LastAt(log, j);
    }
  }

  lemma {:induction false} NoneEnded(log: seq<Action>)
    requires forall j :: 0 <= j < |log| ==> !log[j].Ended?
    ensures LastFailure(log) == None && NotBefore(log) == 0
  {
    if log != [] { NoneEnded(log[..|log|-1]); }
  }

  lemma {:induction false} LastAt(log: seq<Action>, j: nat)
    requires EndedLast(log, j)
    ensures LastFailure(log) == if Failed(log[j].outcome) then Some(log[j].outcome) else None
    ensures NotBefore(log) == if Failed(log[j].outcome) then log[j].now + Delay(Failures(log[..j])) else 0
  {
    var n := |log| - 1;
    if j < n {
      assert log[..n][..j] == log[..j];
      LastAt(log[..n], j);
    }
  }

  /** A tick starts a capture exactly when something is missing, no capture is running, and the last
      one did not fail or its delay has passed. */
  lemma TickRule(events: seq<Event>, n: nat)
    requires n < |events| && events[n].Tick?
    ensures
      var log := History(events, n);
      History(events, n + 1) ==
        if && events[n].missing
           && (forall j :: 0 <= j < |log| && log[j].Started? ==> exists q :: j < q < |log| && log[q].Ended?)
           && (forall j :: EndedLast(log, j) && !(log[j].outcome.Offered? && log[j].outcome.accepted) ==>
                 log[j].now + Delay(Failures(log[..j])) <= events[n].now)
        then log + [Started(n)]
        else log
  {
    var log := History(events, n);
    RunningRule(log);
    LastRule(log);
    LastEnd(log);
    hide Running, NotBefore, Failures, Delay;
  }

  lemma {:induction false} LastEnd(log: seq<Action>)
    ensures (exists j :: 0 <= j < |log| && log[j].Ended?) ==> exists j :: EndedLast(log, j)
  {
    if log != [] {
      var n := |log| - 1;
      LastEnd(log[..n]);
      if log[n].Ended? {
        assert EndedLast(log, n);
      } else if j :| EndedLast(log[..n], j) {
        assert EndedLast(log, j);
      }
    }
  }

  /** The other events: an applied update is logged; a report is an end exactly when a capture runs, and
      then a failed capture fails, a good one is offered unless too much was received since it started;
      no other event is an action. */
  lemma EventRule(events: seq<Event>, n: nat)
    requires n < |events| && !events[n].Tick?
    ensures
      var log := History(events, n);
      History(events, n + 1) ==
        if events[n].Received? && events[n].applied then log + [Applied(n, events[n].update)]
        else if events[n].CaptureDone? && Running(log) then
          var replay := Bearers(events[StartOf(events, n)+1..n]);
          log + [Ended(n, events[n].now,
                       if !events[n].captured then CaptureFailed
                       else if |replay| > 4096 then ReplayTooLong
                       else Offered(replay, events[n].installed))]
        else log
  {
    if Running(History(events, n)) { SinceIsBearers(events, n); }
    hide Running, Since, StartOf;
  }

  /** The loop goes on while it is not cancelled, nothing fails to be received, and every received
      update can be applied; the failure it ends with says which of these it was, and with a failed
      receive how the last capture failed. */
  lemma EndRule(events: seq<Event>, failure: Option<Failure>)
    requires failure == if Last(events, 0) == |events| then None
                        else Ending(History(events, Last(events, 0)), events[Last(events, 0)])
    ensures
      var n := Last(events, 0);
      && (forall i :: 0 <= i < n ==>
            !events[i].Cancelled? && !events[i].ReceiveError? && (events[i].Received? ==> events[i].applied))
      && (failure.None? <==> n == |events|)
      && (n < |events| ==>
            match events[n]
            case Cancelled => failure == Some(ContextDone)
            case Received(_, applied) => !applied && failure == Some(ApplyFailed)
            case ReceiveError =>
              && failure.value.ReceiveFailed?
              && forall j :: EndedLast(History(events, n), j) ==>
                   var outcome := History(events, n)[j].outcome;
                   failure.value.last == if outcome.Offered? && outcome.accepted then None else Some(outcome)
            case _ => false)
  {
    LastRule(History(events, Last(events, 0)));
    hide History, LastFailure, NotBefore;
  }
}
