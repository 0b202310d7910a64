/** The ordered stream of hydrated frames: a producer receives frames, up to four workers hydrate
    them in any order, and one consumer releases the results in upstream order. Every blocking
    operation of the goroutines is one step, and any interleaving of the steps is a run. */
module ObjectStream {
  import opened Counting

  const CONCURRENCY := 4

  /** What a result channel delivers: the frame it was computed from and how that went. */
  datatype Outcome = Outcome(frame: nat, kind: Kind)

  datatype Kind = Hydrated | HydrationFailed | ReceiveFailed

  /** The producer between two blocking operations. A cell names the result channel. */
  datatype Producer =
    | AwaitSlot
    | AwaitFrame
    | AwaitPush(cell: nat, frame: nat, received: bool)
    | Dispatch(cell: nat, frame: nat, received: bool)
    | AwaitWorkers
    | Ended

  datatype Consumer = Outside | AwaitResult(cell: nat)

  datatype Worker = Worker(cell: nat, frame: nat)

  datatype State = State(
    producer: Producer, consumer: Consumer, workers: set<Worker>,
    slots: nat, pending: seq<nat>, results: map<nat, Outcome>,
    cells: nat, frames: nat, delivered: seq<Outcome>, cancelled: bool, abandoned: seq<nat>)

  const START := State(AwaitSlot, Outside, {}, 0, [], map[], 0, 0, [], false, [])

  datatype Step =
    | TakeSlot
    | ReceiveFrame(received: bool)
    | Push
    | SendOrSpawn
    | ProducerCancelled
    | Finish(worker: Worker, hydrated: bool)
    | CloseStream
    | TakeCell
    | Deliver
    | ConsumerCancelled
    | EndOfStream
    | Cancel

  /** Whether the operation can proceed now. */
  predicate Enabled(s: State, step: Step) {
    match step
    case TakeSlot => s.producer.AwaitSlot? && s.slots < CONCURRENCY
    case ReceiveFrame(_) => s.producer.AwaitFrame?
    case Push => s.producer.AwaitPush? && |s.pending| < CONCURRENCY
    case SendOrSpawn => s.producer.Dispatch?
    case ProducerCancelled => (s.producer.AwaitSlot? || s.producer.AwaitPush?) && s.cancelled
    case Finish(worker, _) => worker in s.workers && worker.cell !in s.results
    case CloseStream => s.producer.AwaitWorkers? && s.workers == {}
    case TakeCell => s.consumer.Outside? && s.pending != []
    case Deliver => s.consumer.AwaitResult? && s.consumer.cell in s.results && s.slots > 0
    case ConsumerCancelled => s.cancelled
    case EndOfStream => s.consumer.Outside? && s.pending == [] && s.producer.Ended?
    case Cancel => true
  }

  function Perform(s: State, step: Step): State
    requires Enabled(s, step)
  {
    match step
    case TakeSlot => s.(producer := AwaitFrame, slots := s.slots + 1)
    case ReceiveFrame(received) =>
      s.(producer := AwaitPush(s.cells, s.frames, received), cells := s.cells + 1, frames := s.frames + 1)
    case Push =>
      s.(producer := Dispatch(s.producer.cell, s.producer.frame, s.producer.received),
         pending := s.pending + [s.producer.cell])
    case SendOrSpawn =>
      if s.producer.received then
        s.(producer := AwaitSlot, workers := s.workers + {Worker(s.producer.cell, s.producer.frame)})
      else
        s.(producer := AwaitWorkers, results := s.results[s.producer.cell := Outcome(s.producer.frame, ReceiveFailed)])
    case ProducerCancelled => s.(producer := AwaitWorkers)
    case Finish(worker, hydrated) =>
      s.(workers := s.workers - {worker},
         results := s.results[worker.cell := Outcome(worker.frame, if hydrated then Hydrated else HydrationFailed)])
    case CloseStream => s.(producer := Ended)
    case TakeCell => s.(consumer := AwaitResult(s.pending[0]), pending := s.pending[1..])
    case Deliver =>
      s.(consumer := Outside, slots := s.slots - 1, delivered := s.delivered + [s.results[s.consumer.cell]],
         results := s.results - {s.consumer.cell})
    case ConsumerCancelled =>
      if s.consumer.AwaitResult? then s.(consumer := Outside, abandoned := s.abandoned + [s.consumer.cell]) else s
    case EndOfStream => s
    case Cancel => s.(cancelled := true)
  }

  /** The step could proceed when it was taken, and led to the next state. */
  predicate Occurs(states: seq<State>, steps: seq<Step>, i: nat)
    requires |states| == |steps| + 1 && i < |steps|
  {
    Enabled(states[i], steps[i]) && states[i+1] == Perform(states[i], steps[i])
  }

  /** A run: any interleaving of steps. */
  ghost predicate Run(states: seq<State>, steps: seq<Step>) {
    && |states| == |steps| + 1 && states[0] == START
    && forall i :: 0 <= i < |steps| ==> Occurs(states, steps, i)
  }

  // ---------- What every interleaving keeps ----------

  function Held(s: State): nat { if s.consumer.AwaitResult? then 1 else 0 }

  /** Cells the consumer has taken so far. */
  function Taken(s: State): nat { |s.delivered| + |s.abandoned| + Held(s) }

  /** The cell the producer has created but not queued yet: in the hand, or dropped by a
      cancellation in place of the push. */
  function Unqueued(s: State): nat
    requires Taken(s) + |s.pending| <= s.cells
  { s.cells - Taken(s) - |s.pending| }

  predicate HasSlot(p: Producer) { p.AwaitFrame? }

  /** Everything between the producer and the consumer is in creation order. */
  ghost predicate Ordered(s: State) {
    && s.cells == s.frames
    && Taken(s) + |s.pending| <= s.cells
    && Unqueued(s) <= 1
    && (forall i :: 0 <= i < |s.pending| ==> s.pending[i] == Taken(s) + i)
    && (s.consumer.AwaitResult? ==> s.consumer.cell == Taken(s) - 1)
    && (s.producer.AwaitPush? ==> Unqueued(s) == 1)
    && (Unqueued(s) == 1 ==> s.producer.AwaitPush? || (s.cancelled && (s.producer.AwaitWorkers? || s.producer.Ended?)))
    && (s.producer.AwaitPush? || s.producer.Dispatch? ==>
          s.producer.cell == s.producer.frame == s.cells - 1)
    && (s.abandoned != [] ==> s.cancelled)
  }

  /** A slot is held by each cell that is neither delivered nor still to be received. */
  ghost predicate Counted(s: State) {
    && s.slots <= CONCURRENCY
    && s.slots + |s.delivered| == s.frames + (if HasSlot(s.producer) then 1 else 0)
  }

  /** Results and workers belong to their frame, and a cell has one of them at most. */
  ghost predicate Tagged(s: State) {
    && (forall c :: c in s.results ==> c < s.cells && s.results[c].frame == c)
    && (forall w :: w in s.workers ==> w.cell == w.frame < s.cells && w.cell !in s.results)
    && (s.producer.AwaitPush? || s.producer.Dispatch? ==>
          && s.producer.cell !in s.results && Worker(s.producer.cell, s.producer.frame) !in s.workers
          && forall i :: 0 <= i < |s.delivered| ==> s.delivered[i].frame != s.producer.cell)
    && (forall i :: 0 <= i < |s.delivered| ==>
          s.delivered[i].frame !in s.results && Worker(s.delivered[i].frame, s.delivered[i].frame) !in s.workers)
    && (forall c :: c in s.results && s.results[c].kind.ReceiveFailed? ==>
          c == s.frames - 1 && (s.producer.AwaitWorkers? || s.producer.Ended?))
  }

  /** The delivered results come from increasing frames, and the taken frames are split into the
      delivered and the given-up ones. */
  ghost predicate Split(delivered: seq<Outcome>, abandoned: seq<nat>) {
    && (forall i :: 0 <= i < |delivered| ==> delivered[i].frame < |delivered| + |abandoned|)
    && (forall i, j :: 0 <= i < j < |delivered| ==> delivered[i].frame < delivered[j].frame)
    && (forall i :: 0 <= i < |abandoned| ==> abandoned[i] < |delivered| + |abandoned|)
    && (forall i, j :: 0 <= i < |delivered| && 0 <= j < |abandoned| ==> delivered[i].frame != abandoned[j])
    && (abandoned == [] ==> forall i :: 0 <= i < |delivered| ==> delivered[i].frame == i)
    && (forall f :: 0 <= f < |delivered| + |abandoned| ==> Accounted(delivered, abandoned, f))
  }

  /** A delivered failure of the receive is that of the last frame. */
  ghost predicate FailedLast(s: State) {
    forall i :: 0 <= i < |s.delivered| && s.delivered[i].kind.ReceiveFailed? ==>
      s.delivered[i].frame == s.frames - 1 && (s.producer.AwaitWorkers? || s.producer.Ended?)
  }

  ghost predicate Delivered(s: State) { Split(s.delivered, s.abandoned) && FailedLast(s) }

  /** Every queued or awaited cell gets its result: it is there, or its worker is running, or the
      producer is about to provide it. */
  ghost predicate Served(s: State) {
    forall c :: |s.delivered| + |s.abandoned| <= c < |s.delivered| + |s.abandoned| + Held(s) + |s.pending| ==>
      || c in s.results
      || Worker(c, c) in s.workers
      || (s.producer.Dispatch? && s.producer.cell == c)
  }

  ghost predicate Inv(s: State) {
    && Ordered(s) && Counted(s) && Tagged(s) && Delivered(s) && Served(s)
    && (s.producer.Ended? ==> s.workers == {})
  }

  lemma KeepsOrdered(s: State, step: Step)
    requires Inv(s) && Enabled(s, step)
    ensures Ordered(Perform(s, step))
  {
    hide Counted, Tagged, Delivered, Served;
  }

  lemma KeepsCounted(s: State, step: Step)
    requires Inv(s) && Enabled(s, step)
    ensures Counted(Perform(s, step))
  {
  }

  lemma KeepsTagged(s: State, step: Step)
    requires Inv(s) && Enabled(s, step)
    ensures Tagged(Perform(s, step))
  {
    hide Counted, Served, Accounted;
  }

  /** Whether a frame was delivered or given up. */
  ghost predicate Accounted(delivered: seq<Outcome>, abandoned: seq<nat>, f: nat) {
    f in abandoned || exists i :: 0 <= i < |delivered| && delivered[i].frame == f
  }

  lemma AccountedLater(delivered: seq<Outcome>, abandoned: seq<nat>, o: Outcome, f: nat)
    requires Accounted(delivered, abandoned, f) || f == o.frame
    ensures Accounted(delivered + [o], abandoned, f)
  {
    if f == o.frame {
      assert (delivered + [o])[|delivered|].frame == f;
    } else if f !in abandoned {
      var i :| 0 <= i < |delivered| && delivered[i].frame == f;
      assert (delivered + [o])[i].frame == f;
    }
  }

  lemma SplitDelivered(delivered: seq<Outcome>, abandoned: seq<nat>, o: Outcome)
    requires Split(delivered, abandoned) && o.frame == |delivered| + |abandoned|
    ensures Split(delivered + [o], abandoned)
  {
    hide Accounted;
    forall f | 0 <= f <= |delivered| + |abandoned|
      ensures Accounted(delivered + [o], abandoned, f)
    {
      AccountedLater(delivered, abandoned, o, f);
    }
  }

  lemma SplitAbandoned(delivered: seq<Outcome>, abandoned: seq<nat>, c: nat)
    requires Split(delivered, abandoned) && c == |delivered| + |abandoned|
    ensures Split(delivered, abandoned + [c])
  {
    hide Accounted;
    forall f | 0 <= f <= |delivered| + |abandoned|
      ensures Accounted(delivered, abandoned + [c], f)
    {
      AbandonedLater(delivered, abandoned, c, f);
    }
  }

  lemma KeepsFailedLast(s: State, step: Step)
    requires Inv(s) && Enabled(s, step)
    ensures FailedLast(Perform(s, step))
  {
    hide Served, Counted, Split;
  }

  lemma KeepsDelivered(s: State, step: Step)
    requires Inv(s) && Enabled(s, step)
    ensures Delivered(Perform(s, step))
  {
    hide Served, Counted, Split, FailedLast;
    KeepsFailedLast(s, step);
    if step.Deliver? {
      SplitDelivered(s.delivered, s.abandoned, s.results[s.consumer.cell]);
    } else if step.ConsumerCancelled? && s.consumer.AwaitResult? {
      SplitAbandoned(s.delivered, s.abandoned, s.consumer.cell);
    }
  }

  lemma AbandonedLater(delivered: seq<Outcome>, abandoned: seq<nat>, c: nat, f: nat)
    requires Accounted(delivered, abandoned, f) || f == c
    ensures Accounted(delivered, abandoned + [c], f)
  {
    if f == c {
      assert (abandoned + [c])[|abandoned|] == f;
    } else if f in abandoned {
      var i :| 0 <= i < |abandoned| && abandoned[i] == f;
      assert (abandoned + [c])[i] == f;
    }
  }

  lemma KeepsServed(s: State, step: Step)
    requires Inv(s) && Enabled(s, step)
    ensures Served(Perform(s, step))
  {
  }

  lemma KeepsInv(s: State, step: Step)
    requires Inv(s) && Enabled(s, step)
    ensures Inv(Perform(s, step))
  {
    KeepsOrdered(s, step);
    KeepsCounted(s, step);
    KeepsTagged(s, step);
    KeepsDelivered(s, step);
    KeepsServed(s, step);
  }

  lemma {:induction false} RunKeepsInv(states: seq<State>, steps: seq<Step>, n: nat)
    requires Run(states, steps) && n < |states|
    ensures Inv(states[n])
  {
    if n > 0 {
      RunKeepsInv(states, steps, n - 1);
      assert Occurs(states, steps, n - 1);
      KeepsInv(states[n-1], steps[n-1]);
    }
  }

  /** The frames of the first results, as a set. */
  lemma {:induction false} FirstFrames(delivered: seq<Outcome>, n: nat) returns (r: set<nat>)
    requires n <= |delivered|
    requires forall i, j :: 0 <= i < j < |delivered| ==> delivered[i].frame < delivered[j].frame
    ensures |r| == n && forall f :: f in r <==> exists i :: 0 <= i < n && delivered[i].frame == f
  {
    if n == 0 {
      r := {};
    } else {
      var shorter := FirstFrames(delivered, n - 1);
      r := shorter + {delivered[n-1].frame};
    }
  }

  lemma {:induction false} CellsOf(workers: set<Worker>) returns (r: set<nat>)
    requires forall w :: w in workers ==> w.cell == w.frame
    ensures |r| == |workers| && forall c :: c in r <==> Worker(c, c) in workers
    decreases |workers|
  {
    if workers == {} {
      r := {};
    } else {
      var w :| w in workers;
      var rest := CellsOf(workers - {w});
      r := rest + {w.cell};
    }
  }

  lemma WorkersBounded(s: State)
    requires Inv(s)
    ensures |s.workers| + |s.delivered| <= s.frames
  {
    var all := Range(s.frames);
    var done := FirstFrames(s.delivered, |s.delivered|);
    var busy := CellsOf(s.workers);
    assert done !! busy && done + busy <= all;
    Subset(done + busy, all);
  }

  // ---------- Main results ----------

  ghost predicate WasDelivered(s: State, frame: nat) {
    exists i :: 0 <= i < |s.delivered| && s.delivered[i].frame == frame
  }

  /** Results come in frame order without repetition. Of the frames the consumer has taken, exactly
      those whose wait it gave up are missing. Without a cancellation of its context the k-th result
      is that of the k-th frame. */
  lemma ResultsInOrder(states: seq<State>, steps: seq<Step>, n: nat)
    requires Run(states, steps) && n < |states|
    ensures forall i, j :: 0 <= i < j < |states[n].delivered| ==>
              states[n].delivered[i].frame < states[n].delivered[j].frame
    ensures forall f :: 0 <= f < |states[n].delivered| + |states[n].abandoned| ==>
              (WasDelivered(states[n], f) <==> f !in states[n].abandoned)
    ensures states[n].abandoned == [] <==>
            forall f :: 0 <= f < |states[n].delivered| + |states[n].abandoned| ==> WasDelivered(states[n], f)
    ensures !states[n].cancelled ==>
              forall k :: 0 <= k < |states[n].delivered| ==> states[n].delivered[k].frame == k
  {
    var s := states[n];
    RunKeepsInv(states, steps, n);
    forall f | 0 <= f < |s.delivered| + |s.abandoned|
      ensures WasDelivered(s, f) <==> f !in s.abandoned
    {
      assert Accounted(s.delivered, s.abandoned, f);
    }
    if s.abandoned != [] { assert s.abandoned[0] in s.abandoned; }
  }

  /** A run goes on with one more step. */
  lemma Further(states: seq<State>, steps: seq<Step>, step: Step) returns (longer: seq<State>, all: seq<Step>)
    requires Run(states, steps) && Enabled(states[|steps|], step)
    ensures Run(longer, all) && |longer| == |all| + 1 && all == steps + [step]
    ensures longer[|all|] == Perform(states[|steps|], step)
  {
    longer, all := states + [Perform(states[|steps|], step)], steps + [step];
    forall i | 0 <= i < |all|
      ensures Occurs(longer, all, i)
    {
      if i < |steps| { assert Occurs(states, steps, i); }
    }
  }

  /** A frame is received and a worker started for it. */
  function FrameSteps(): seq<Step> { [TakeSlot, ReceiveFrame(true), Push, SendOrSpawn] }

  lemma OneFrame(states: seq<State>, steps: seq<Step>) returns (longer: seq<State>, all: seq<Step>)
    requires Run(states, steps)
    requires states[|steps|].producer.AwaitSlot? && states[|steps|].slots < 4 && |states[|steps|].pending| < 4
    ensures Run(longer, all) && |longer| == |all| + 1 && all == steps + FrameSteps()
    ensures var s := states[|steps|];
            longer[|all|] == s.(slots := s.slots + 1, cells := s.cells + 1, frames := s.frames + 1,
                               pending := s.pending + [s.cells], workers := s.workers + {Worker(s.cells, s.frames)})
  {
    hide Run;
    longer, all := Further(states, steps, TakeSlot);
    longer, all := Further(longer, all, ReceiveFrame(true));
    longer, all := Further(longer, all, Push);
    longer, all := Further(longer, all, SendOrSpawn);
  }

  /** The consumer takes a result channel and gives up the wait for it. */
  function LossSteps(): seq<Step> { [TakeCell, ConsumerCancelled] }

  lemma OneLost(states: seq<State>, steps: seq<Step>) returns (longer: seq<State>, all: seq<Step>)
    requires Run(states, steps)
    requires states[|steps|].consumer.Outside? && states[|steps|].pending != [] && states[|steps|].cancelled
    ensures Run(longer, all) && |longer| == |all| + 1 && all == steps + LossSteps()
    ensures var s := states[|steps|];
            longer[|all|] == s.(pending := s.pending[1..], abandoned := s.abandoned + [s.pending[0]])
  {
    hide Run;
    longer, all := Further(states, steps, TakeCell);
    longer, all := Further(longer, all, ConsumerCancelled);
  }

  /** More than one result can be lost after one cancellation: two frames are received, the context
      is cancelled, and the consumer takes both result channels but gives up both waits. */
  lemma LossyRun() returns (states: seq<State>, steps: seq<Step>)
    ensures Run(states, steps) && steps == FrameSteps() + FrameSteps() + [Cancel] + LossSteps() + LossSteps()
    ensures var s := states[|steps|]; s.abandoned == [0, 1] && s.delivered == [] && s.frames == 2
  {
    hide Run, FrameSteps, LossSteps, Perform;
    assert Run([START], []) by { NoSteps(); }
    states, steps := OneFrame([START], []);
    assert steps == FrameSteps();
    states, steps := OneFrame(states, steps);
    assert Enabled(states[|steps|], Cancel) && states[|steps|].pending == [0, 1];
    var before := states[|steps|];
    states, steps := Further(states, steps, Cancel);
    assert states[|steps|] == before.(cancelled := true) by { Cancelled(before); }
    states, steps := OneLost(states, steps);
    assert states[|steps|].pending == [1] && states[|steps|].abandoned == [0];
    states, steps := OneLost(states, steps);
  }

  lemma Cancelled(s: State)
    ensures Perform(s, Cancel) == s.(cancelled := true)
  {
  }

  lemma NoSteps()
    ensures Run([START], [])
  {
  }

  /** A cancellation that drops a received frame: in place of its push onto the queue, or of the wait
      for its result. */
  predicate Loses(s: State, step: Step) {
    || (step.ProducerCancelled? && s.producer.AwaitPush?)
    || (step.ConsumerCancelled? && s.consumer.AwaitResult?)
  }

  /** How many steps of the run so far dropped a frame. */
  function Losses(states: seq<State>, steps: seq<Step>, n: nat): nat
    requires |states| == |steps| + 1 && n < |states|
  {
    if n == 0 then 0 else Losses(states, steps, n - 1) + (if Loses(states[n-1], steps[n-1]) then 1 else 0)
  }

  /** Every received frame is delivered, dropped, awaited, queued, or in the hand of the producer. */
  predicate Balanced(s: State, losses: nat) {
    s.frames == |s.delivered| + losses + Held(s) + |s.pending| + (if s.producer.AwaitPush? then 1 else 0)
  }

  lemma KeepsBalance(s: State, step: Step, losses: nat)
    requires Inv(s) && Enabled(s, step) && Balanced(s, losses)
    ensures Balanced(Perform(s, step), losses + (if Loses(s, step) then 1 else 0))
    ensures Loses(s, step) ==> s.cancelled
    ensures s.cancelled ==> Perform(s, step).cancelled
  {
    hide Counted, Tagged, Delivered, Served;
  }

  /** No frame appears or disappears but by a dropping step, and none of these before a
      cancellation of the context. */
  lemma {:induction false} FramesConserved(states: seq<State>, steps: seq<Step>, n: nat)
    requires Run(states, steps) && n < |states|
    ensures Balanced(states[n], Losses(states, steps, n))
    ensures !states[n].cancelled ==> Losses(states, steps, n) == 0
  {
    hide Inv, Balanced, Perform, Enabled, Loses;
    if n == 0 {
      StartBalanced();
    } else {
      FramesConserved(states, steps, n - 1);
      RunKeepsInv(states, steps, n - 1);
      assert Occurs(states, steps, n - 1);
      KeepsBalance(states[n-1], steps[n-1], Losses(states, steps, n - 1));
    }
  }

  lemma StartBalanced()
    ensures Balanced(START, 0)
  {
  }

  lemma {:induction false} NoLosses(states: seq<State>, steps: seq<Step>, n: nat)
    requires |states| == |steps| + 1 && n < |states|
    ensures Losses(states, steps, n) == 0 <==> forall i :: 0 <= i < n ==> !Loses(states[i], steps[i])
  {
    if n > 0 { NoLosses(states, steps, n - 1); }
  }

  /** The frame that a dropping step drops. */
  function Dropped(s: State, step: Step): nat
    requires Loses(s, step)
  {
    if step.ProducerCancelled? then s.producer.frame else s.consumer.cell
  }

  /** Some step of the run so far dropped the frame. */
  ghost predicate WasDropped(states: seq<State>, steps: seq<Step>, n: nat, frame: nat)
    requires |states| == |steps| + 1 && n < |states|
  {
    exists i :: 0 <= i < n && Loses(states[i], steps[i]) && Dropped(states[i], steps[i]) == frame
  }

  /** The frame was taken and given up, or is the last one and was never queued. */
  predicate Gone(s: State, frame: nat) {
    frame in s.abandoned
    || (frame == s.frames - 1 && Taken(s) + |s.pending| < s.cells && !s.producer.AwaitPush?)
  }

  lemma KeepsGone(s: State, step: Step, frame: nat)
    requires Inv(s) && Enabled(s, step)
    ensures Gone(Perform(s, step), frame) <==> Gone(s, frame) || (Loses(s, step) && Dropped(s, step) == frame)
  {
    hide Counted, Tagged, Delivered, Served;
  }

  lemma {:induction false} GoneIsDropped(states: seq<State>, steps: seq<Step>, n: nat, frame: nat)
    requires Run(states, steps) && n < |states|
    ensures Gone(states[n], frame) <==> WasDropped(states, steps, n, frame)
  {
    hide Inv, Perform, Enabled, Loses, Dropped, Gone;
    if n == 0 {
      StartGone(frame);
    } else {
      GoneIsDropped(states, steps, n - 1, frame);
      RunKeepsInv(states, steps, n - 1);
      assert Occurs(states, steps, n - 1);
      KeepsGone(states[n-1], steps[n-1], frame);
    }
  }

  lemma StartGone(frame: nat)
    ensures !Gone(START, frame)
  {
  }

  /** When the end of the stream is reported, a received frame was delivered if and only if no step
      of the run dropped it. So as many are missing as there were dropping steps, and all received
      frames were delivered if and only if there was none. */
  lemma DeliveredAtEnd(states: seq<State>, steps: seq<Step>, n: nat)
    requires Run(states, steps) && n < |states| && Enabled(states[n], EndOfStream)
    ensures forall f :: 0 <= f < states[n].frames ==>
              (WasDelivered(states[n], f) <==> !WasDropped(states, steps, n, f))
    ensures states[n].frames == |states[n].delivered| + Losses(states, steps, n)
    ensures (forall f :: 0 <= f < states[n].frames ==> WasDelivered(states[n], f)) <==>
            forall i :: 0 <= i < n ==> !Loses(states[i], steps[i])
  {
    hide Inv, Loses, Occurs, WasDelivered, WasDropped;
    var s := states[n];
    FramesConserved(states, steps, n);
    NoLosses(states, steps, n);
    RunKeepsInv(states, steps, n);
    forall f | 0 <= f < s.frames
      ensures WasDelivered(s, f) <==> !WasDropped(states, steps, n, f)
    {
      GoneIsDropped(states, steps, n, f);
      AtEnd(s, f);
    }
    if Losses(states, steps, n) == 0 {
      forall f | 0 <= f < s.frames
        ensures WasDelivered(s, f)
      {
        NoneDropped(states, steps, n, f);
      }
    } else if forall f :: 0 <= f < s.frames ==> WasDelivered(s, f) {
      TooFew(s);
    }
  }

  lemma NoneDropped(states: seq<State>, steps: seq<Step>, n: nat, frame: nat)
    requires |states| == |steps| + 1 && n < |states| && forall i :: 0 <= i < n ==> !Loses(states[i], steps[i])
    ensures !WasDropped(states, steps, n, frame)
  {
  }

  lemma AtEnd(s: State, frame: nat)
    requires Inv(s) && Enabled(s, EndOfStream) && frame < s.frames
    ensures WasDelivered(s, frame) <==> !Gone(s, frame)
  {
    if frame < Taken(s) { assert Accounted(s.delivered, s.abandoned, frame); }
  }

  /** Fewer results than frames leave a frame out. */
  lemma TooFew(s: State)
    requires Inv(s) && forall f :: 0 <= f < s.frames ==> WasDelivered(s, f)
    ensures s.frames <= |s.delivered|
  {
    var all := Range(s.frames);
    var done := FirstFrames(s.delivered, |s.delivered|);
    forall f | f in all
      ensures f in done
    {
      assert WasDelivered(s, f);
    }
    Subset(all, done);
  }

  /** A received frame can be lost although no wait was given up: the context is cancelled before the
      frame is queued, the producer ends, and the end of the stream is reported. */
  function DroppingSteps(): seq<Step> {
    [TakeSlot, ReceiveFrame(true), Cancel, ProducerCancelled, CloseStream]
  }

  lemma DroppedRun() returns (states: seq<State>, steps: seq<Step>)
    ensures Run(states, steps) && steps == DroppingSteps()
    ensures var s := states[|steps|];
            s.frames == 1 && s.delivered == [] && s.abandoned == [] && Enabled(s, EndOfStream)
  {
    hide Run;
    assert Run([START], []) by { NoSteps(); }
    states, steps := Further([START], [], TakeSlot);
    states, steps := Further(states, steps, ReceiveFrame(true));
    states, steps := Further(states, steps, Cancel);
    states, steps := Further(states, steps, ProducerCancelled);
    states, steps := Further(states, steps, CloseStream);
  }

  /** At most four frames are received and not delivered; the push onto the queue and the release
      of a slot never block. */
  lemma WindowBounded(states: seq<State>, steps: seq<Step>, n: nat)
    requires Run(states, steps) && n < |states|
    ensures states[n].frames - |states[n].delivered| <= 4
    ensures |states[n].workers| <= 4
    ensures states[n].producer.AwaitPush? ==> Enabled(states[n], Push)
    ensures states[n].consumer.AwaitResult? && states[n].consumer.cell in states[n].results ==>
              Enabled(states[n], Deliver)
    ensures forall w :: w in states[n].workers ==> Enabled(states[n], Finish(w, true))
  {
    var s := states[n];
    RunKeepsInv(states, steps, n);
    WorkersBounded(s);
  }

  /** The end of the stream is reported only after every received frame was delivered, unless the
      context was cancelled; a failed receive is the last result. */
  lemma EndIsComplete(states: seq<State>, steps: seq<Step>, n: nat)
    requires Run(states, steps) && n < |states| && Enabled(states[n], EndOfStream) && !states[n].cancelled
    ensures |states[n].delivered| == states[n].frames > 0
    ensures forall i :: 0 <= i < |states[n].delivered| ==>
              (states[n].delivered[i].kind.ReceiveFailed? <==> i == |states[n].delivered| - 1)
  {
    RunKeepsInv(states, steps, n);
    LastFailed(states, steps, n);
  }

  /** Whether the failed receive is recorded somewhere. */
  ghost predicate FailureKept(s: State) {
    !s.cancelled && (s.producer.AwaitWorkers? || s.producer.Ended?) ==>
      && s.frames > 0
      && (|| (s.frames - 1 in s.results && s.results[s.frames-1].kind.ReceiveFailed?)
          || (|s.delivered| == s.frames && s.delivered[s.frames-1].kind.ReceiveFailed?))
  }

  lemma KeepsFailure(s: State, step: Step)
    requires Inv(s) && Enabled(s, step) && FailureKept(s)
    ensures FailureKept(Perform(s, step))
  {
    hide Served;
    KeepsCounted(s, step);
    KeepsTagged(s, step);
  }

  lemma StartFailure()
    ensures FailureKept(START)
  {
  }

  lemma {:induction false} LastFailed(states: seq<State>, steps: seq<Step>, n: nat)
    requires Run(states, steps) && n < |states|
    ensures FailureKept(states[n])
  {
    hide Inv, FailureKept, Perform, Enabled;
    assert FailureKept(START) by { StartFailure(); }
    if n > 0 {
      LastFailed(states, steps, n - 1);
      RunKeepsInv(states, steps, n - 1);
      assert Occurs(states, steps, n - 1);
      KeepsFailure(states[n-1], steps[n-1]);
    }
  }

  /** No interleaving gets stuck: until the end of the stream is reached, some operation other
      than a cancellation can proceed. */
  lemma NeverStuck(states: seq<State>, steps: seq<Step>, n: nat)
    requires Run(states, steps) && n < |states|
    ensures exists step :: step != Cancel && !step.ConsumerCancelled? && Enabled(states[n], step)
  {
    var s := states[n];
    RunKeepsInv(states, steps, n);
    if s.consumer.AwaitResult? {
      var c := s.consumer.cell;
      if c in s.results { assert Enabled(s, Deliver); }
      else if Worker(c, c) in s.workers { assert Enabled(s, Finish(Worker(c, c), true)); }
      else { assert Enabled(s, SendOrSpawn); }
    } else if s.pending != [] {
      assert Enabled(s, TakeCell);
    } else {
      match s.producer
      case AwaitSlot =>
        if s.cancelled { assert Enabled(s, ProducerCancelled); } else { assert Enabled(s, TakeSlot); }
      case AwaitFrame => assert Enabled(s, ReceiveFrame(true));
      case AwaitPush(_, _, _) => assert Enabled(s, Push);
      case Dispatch(_, _, _) => assert Enabled(s, SendOrSpawn);
      case AwaitWorkers =>
        if s.workers != {} {
          var w :| w in s.workers;
          assert Enabled(s, Finish(w, true));
        } else {
          assert Enabled(s, CloseStream);
        }
      case Ended => assert Enabled(s, EndOfStream);
    }
  }

  // ---------- What a result says ----------

  /** The frame was received, or its receive failed, before the n-th state. */
  ghost predicate ReceivedAs(states: seq<State>, steps: seq<Step>, n: nat, frame: nat, received: bool)
    requires n < |states| == |steps| + 1
  {
    exists i :: 0 <= i < n && states[i].frames == frame && steps[i] == ReceiveFrame(received)
  }

  /** A worker of the frame ended that way before the n-th state. */
  ghost predicate FinishedAs(states: seq<State>, steps: seq<Step>, n: nat, frame: nat, hydrated: bool)
    requires n < |states| == |steps| + 1
  {
    exists i, cell :: 0 <= i < n && steps[i] == Finish(Worker(cell, frame), hydrated)
  }

  /** The result says what happened to its frame. */
  ghost predicate Told(states: seq<State>, steps: seq<Step>, n: nat, o: Outcome)
    requires n < |states| == |steps| + 1
  {
    match o.kind
    case Hydrated => ReceivedAs(states, steps, n, o.frame, true) && FinishedAs(states, steps, n, o.frame, true)
    case HydrationFailed => ReceivedAs(states, steps, n, o.frame, true) && FinishedAs(states, steps, n, o.frame, false)
    case ReceiveFailed => ReceivedAs(states, steps, n, o.frame, false)
  }

  ghost predicate Telling(states: seq<State>, steps: seq<Step>, n: nat)
    requires n < |states| == |steps| + 1
  {
    var s := states[n];
    && (s.producer.AwaitPush? || s.producer.Dispatch? ==>
          ReceivedAs(states, steps, n, s.producer.frame, s.producer.received))
    && (forall w :: w in s.workers ==> ReceivedAs(states, steps, n, w.frame, true))
    && (forall c :: c in s.results ==> Told(states, steps, n, s.results[c]))
    && (forall i :: 0 <= i < |s.delivered| ==> Told(states, steps, n, s.delivered[i]))
  }

  /** Every result the consumer gets is true: a hydrated frame was received and its hydration
      succeeded, a failed one was received and its hydration failed, and a failed receive failed. */
  lemma ResultsTrue(states: seq<State>, steps: seq<Step>, n: nat, o: Outcome)
    requires Run(states, steps) && n < |states| && o in states[n].delivered
    ensures o.kind == ReceiveFailed <==>
            exists i :: 0 <= i < n && states[i].frames == o.frame && steps[i] == ReceiveFrame(false)
    ensures o.kind == Hydrated ==>
              exists i, cell :: 0 <= i < n && steps[i] == Finish(Worker(cell, o.frame), true)
    ensures o.kind == HydrationFailed ==>
              exists i, cell :: 0 <= i < n && steps[i] == Finish(Worker(cell, o.frame), false)
  {
    AllTold(states, steps, n);
    assert Told(states, steps, n, o);
    if o.kind != ReceiveFailed {
      if i :| 0 <= i < n && states[i].frames == o.frame && steps[i] == ReceiveFrame(false) {
        var j :| 0 <= j < n && states[j].frames == o.frame && steps[j] == ReceiveFrame(true);
        ReceivedOnce(states, steps, if i < j then i else j, if i < j then j else i);
      }
    }
  }

  lemma {:induction false} FramesGrow(states: seq<State>, steps: seq<Step>, i: nat, j: nat)
    requires Run(states, steps) && i <= j < |states|
    ensures states[i].frames <= states[j].frames
  {
    if i < j {
      FramesGrow(states, steps, i, j - 1);
      assert Occurs(states, steps, j - 1);
    }
  }

  lemma ReceivedOnce(states: seq<State>, steps: seq<Step>, i: nat, j: nat)
    requires Run(states, steps) && i < j < |steps| && steps[i].ReceiveFrame?
    ensures states[i].frames < states[j].frames
  {
    assert Occurs(states, steps, i);
    FramesGrow(states, steps, i + 1, j);
  }

  lemma {:induction false} AllTold(states: seq<State>, steps: seq<Step>, n: nat)
    requires Run(states, steps) && n < |states|
    ensures Telling(states, steps, n)
  {
    if n > 0 {
      AllTold(states, steps, n - 1);
      assert Occurs(states, steps, n - 1);
      StaysTold(states, steps, n - 1);
      hide ReceivedAs, FinishedAs;
      match steps[n-1]
      case ReceiveFrame(received) => ReceivedNow(states, steps, n - 1);
      case Finish(worker, hydrated) => FinishedNow(states, steps, n - 1);
      case _ =>
    }
  }

  lemma ReceivedNow(states: seq<State>, steps: seq<Step>, i: nat)
    requires i < |steps| && |states| == |steps| + 1 && steps[i].ReceiveFrame?
    ensures ReceivedAs(states, steps, i + 1, states[i].frames, steps[i].received)
  {
  }

  lemma FinishedNow(states: seq<State>, steps: seq<Step>, i: nat)
    requires i < |steps| && |states| == |steps| + 1 && steps[i].Finish?
    ensures FinishedAs(states, steps, i + 1, steps[i].worker.frame, steps[i].hydrated)
  {
    assert steps[i] == Finish(Worker(steps[i].worker.cell, steps[i].worker.frame), steps[i].hydrated);
  }

  lemma StaysTold(states: seq<State>, steps: seq<Step>, n: nat)
    requires n < |steps| && |states| == |steps| + 1
    ensures forall f, r :: ReceivedAs(states, steps, n, f, r) ==> ReceivedAs(states, steps, n + 1, f, r)
    ensures forall f, h :: FinishedAs(states, steps, n, f, h) ==> FinishedAs(states, steps, n + 1, f, h)
    ensures forall o :: Told(states, steps, n, o) ==> Told(states, steps, n + 1, o)
  {
  }
}
