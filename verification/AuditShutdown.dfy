/** Shutting the audit pipeline down: it can always be done, and nothing can keep it from ending. */
module AuditShutdown {
  import opened Histories
  import opened AuditPipeline

  /** `later` extends `run` without recording anything. */
  ghost predicate Quiet(run: History, later: History) {
    later == run || (later.Then? && StepRecords(later.step) == multiset{} && Quiet(run, later.before))
  }

  lemma {:induction false} QuietTransitive(a: History, b: History, c: History)
    requires Quiet(a, b) && Quiet(b, c)
    ensures Quiet(a, c)
  {
    if c != b { QuietTransitive(a, b, c.before); }
  }

  lemma {:induction false} QuietRecordsNothing(run: History, later: History)
    requires Quiet(run, later)
    ensures Recorded(later) == Recorded(run)
  {
    if later != run { QuietRecordsNothing(run, later.before); }
  }

  // ---------- Shutdown cannot be put off ----------

  /** The writes producers still owe, and their returns. */
  function ProducerWork(producers: seq<Producer>, sinks: nat): nat {
    if producers == [] then 0
    else
      ProducerWork(producers[1..], sinks) +
      if producers[0].next <= sinks then sinks - producers[0].next + 1 else 1
  }

  /** Steps the worker can still take with what it holds: a flush costs one step a sink and one to
      end; before the drain there is one more flush to come. */
  function WorkerWork(s: State): nat {
    var m := |s.sinks|;
    match s.worker
    case Stopped => 0
    case Closing => 1
    case Flushing(k, last) => (if k <= m then m - k + 2 else 2) + if last then 0 else m + 3
    case Idle => (if s.batch == [] then 0 else m + 3) + m + 4
  }

  /** A bound on the steps left when nothing more is recorded. */
  function Work(s: State): nat {
    ProducerWork(s.producers, |s.sinks|) + WorkerWork(s) + |s.buffer| * (|s.sinks| + 4) +
    if s.cancelled then 0 else 1
  }

  lemma {:induction false} ProducerWorkReplaced(ps: seq<Producer>, p: nat, q: Producer, sinks: nat)
    requires p < |ps| && ps[p].next < sinks && q.next == ps[p].next + 1
    ensures ProducerWork(ps[p := q], sinks) < ProducerWork(ps, sinks)
  {
    if p > 0 {
      ProducerWorkReplaced(ps[1..], p - 1, q, sinks);
      assert ps[p := q][1..] == ps[1..][p - 1 := q];
    } else {
      assert ps[p := q][1..] == ps[1..];
    }
  }

  lemma {:induction false} ProducerWorkRemoved(ps: seq<Producer>, p: nat, sinks: nat)
    requires p < |ps|
    ensures ProducerWork(ps[..p] + ps[p + 1..], sinks) < ProducerWork(ps, sinks)
  {
    var rest := ps[..p] + ps[p + 1..];
    if p > 0 {
      ProducerWorkRemoved(ps[1..], p - 1, sinks);
      assert rest[0] == ps[0] && rest[1..] == ps[1..][..p - 1] + ps[1..][p..];
    } else {
      assert rest == ps[1..];
    }
  }

  /** Every step that records nothing and changes something uses up work. */
  lemma {:induction false} WorkShrinks(s: State, step: Step)
    requires Enabled(s, step) && StepRecords(step) == multiset{} && Next(s, step) != s
    ensures Work(Next(s, step)) < Work(s)
  {
    match step {
      case WriteSync(p, ok) =>
        var Producer(e, i) := s.producers[p];
        ProducerWorkReplaced(s.producers, p, Producer(e, i + 1), |s.sinks|);
      case EndSync(p) => ProducerWorkRemoved(s.producers, p, |s.sinks|);
      case Receive => LessBuffer(|s.buffer|, |s.sinks| + 4);
      case Drain => BufferWork(|s.buffer|, |s.sinks| + 4);
      case _ =>
    }
  }

  lemma {:induction false} LessBuffer(n: nat, cost: nat)
    requires n > 0
    ensures n * cost == (n - 1) * cost + cost
  {}

  lemma {:induction false} BufferWork(n: nat, cost: nat)
    ensures n * cost >= 0 && (n > 0 ==> n * cost >= cost)
  {
    if n > 0 { LessBuffer(n, cost); }
  }

  /** `later` continues `run` by steps that record nothing and each change something. */
  ghost predicate Busy(run: History, later: History)
    requires Valid(later)
  {
    later == run ||
    (later.Then? && StepRecords(later.step) == multiset{} && After(later) != After(later.before) &&
     Busy(run, later.before))
  }

  function Length(run: History): nat {
    if run.Start? then 0 else Length(run.before) + 1
  }

  lemma {:induction false} BusyIsBounded(run: History, later: History)
    requires Valid(later) && Busy(run, later)
    ensures Valid(run) && Quiet(run, later)
    ensures Length(later) + Work(After(later)) <= Length(run) + Work(After(run))
  {
    if later != run {
      BusyIsBounded(run, later.before);
      WorkShrinks(After(later.before), later.step);
    }
  }

  ghost predicate Finished(s: State) {
    s.worker.Stopped? && s.producers == []
  }

  /** Short of the end there is always a step to take. */
  lemma {:induction false} NotFinishedHasStep(run: History) returns (step: Step)
    requires Valid(run) && After(run).cancelled && !Finished(After(run))
    ensures Enabled(After(run), step) && StepRecords(step) == multiset{} && Next(After(run), step) != After(run)
  {
    InvariantHolds(run);
    var s := After(run);
    if s.producers != [] {
      step := if s.producers[0].next < |s.sinks| then WriteSync(0, true) else EndSync(0);
      StepOfProducer(s, step);
    } else {
      step := match s.worker
        case Idle => Drain
        case Flushing(k, _) => if k < |s.sinks| then WriteBatch(0) else EndFlush
        case _ => CloseSinks;
    }
  }

  lemma {:induction false} StepOfProducer(s: State, step: Step)
    requires s.producers != [] && Enabled(s, step)
    requires step == if s.producers[0].next < |s.sinks| then WriteSync(0, true) else EndSync(0)
    ensures Next(s, step) != s
  {
    if step.WriteSync? {
      assert Next(s, step).producers[0].next == s.producers[0].next + 1;
    } else {
      assert |Next(s, step).producers| == |s.producers| - 1;
    }
  }

  /** Some step that records nothing would change something. */
  ghost predicate CanProceed(s: State) {
    exists step :: Enabled(s, step) && StepRecords(step) == multiset{} && Next(s, step) != s
  }

  lemma {:induction false} FinishedStands(run: History)
    requires Valid(run) && After(run).cancelled && Finished(After(run))
    ensures !CanProceed(After(run))
  {
    InvariantHolds(run);
    var s := After(run);
    assert Work(s) == 0;
    forall step | Enabled(s, step) && StepRecords(step) == multiset{} ensures Next(s, step) == s {
      if Next(s, step) != s { WorkShrinks(s, step); }
    }
  }

  /** Once cancelled, shutdown cannot be put off. However the steps interleave, whatever sinks fail,
      as long as nothing new is recorded: only so many steps can change anything, and there is a next
      one exactly until the worker has stopped and no producer is waiting; by then everything
      recorded has been offered to every sink, once. */
  lemma {:induction false} ShutdownInevitable(run: History, later: History)
    requires Valid(later) && Busy(run, later) && Valid(run) && After(run).cancelled
    ensures Length(later) <= Length(run) + Work(After(run))
    ensures CanProceed(After(later)) <==> !Finished(After(later))
    ensures Finished(After(later)) ==>
              forall i: nat :: i < |After(later).sinks| ==> Offered(After(later).sinks[i]) == Recorded(run)
  {
    BusyIsBounded(run, later);
    StaysCancelled(run, later);
    if Finished(After(later)) {
      QuietRecordsNothing(run, later);
      FinishedStands(later);
      forall i: nat | i < |After(later).sinks| ensures Offered(After(later).sinks[i]) == Recorded(run) {
        ShutdownDelivers(later, i);
      }
    } else {
      var step := NotFinishedHasStep(later);
    }
  }

  lemma {:induction false} StaysCancelled(run: History, later: History)
    requires Valid(later) && Busy(run, later) && Valid(run) && After(run).cancelled
    ensures After(later).cancelled
  {
    if later != run {
      StaysCancelled(run, later.before);
      CancelledStep(After(later.before), later.step);
    }
  }

  lemma {:induction false} CancelledStep(s: State, step: Step)
    requires Enabled(s, step) && s.cancelled
    ensures Next(s, step).cancelled
  {}

  // ---------- Shutdown can always be completed ----------

  /** A flush in progress can always be finished; uninterrupted, its steps do what FlushBatch does
      with sinks that store everything. */
  lemma {:induction false} FinishFlush(run: History) returns (later: History)
    requires Valid(run) && After(run).worker.Flushing?
    ensures Valid(later) && Quiet(run, later)
    ensures var s, t := After(run), After(later);
            t == s.(sinks := t.sinks, batch := [], flushed := s.flushed + s.batch,
                    worker := if s.worker.last then Closing else Idle) &&
            |t.sinks| == |s.sinks| &&
            forall i :: 0 <= i < |s.sinks| ==>
              t.sinks[i] == if i < s.worker.next then s.sinks[i] else OfferAll(s.sinks[i], s.batch, |s.batch|)
    decreases |After(run).sinks| - After(run).worker.next
  {
    var s := After(run);
    if s.worker.next < |s.sinks| {
      var run' := Then(run, WriteBatch(|s.batch|));
      later := FinishFlush(run');
      QuietTransitive(run, run', later);
    } else {
      later := Then(run, EndFlush);
    }
  }

  /** A producer in writeSync can always finish. */
  lemma {:induction false} FinishProducer(run: History) returns (later: History)
    requires Valid(run) && After(run).producers != []
    ensures Valid(later) && Quiet(run, later)
    ensures After(later).producers == After(run).producers[1..] && After(later).worker == After(run).worker
    decreases |After(run).sinks| - After(run).producers[0].next
  {
    var s := After(run);
    if s.producers[0].next < |s.sinks| {
      var run' := Then(run, WriteSync(0, true));
      later := FinishProducer(run');
      QuietTransitive(run, run', later);
    } else {
      later := Then(run, EndSync(0));
    }
  }

  lemma {:induction false} FinishProducers(run: History) returns (later: History)
    requires Valid(run)
    ensures Valid(later) && Quiet(run, later)
    ensures After(later).producers == [] && After(later).worker == After(run).worker
    decreases |After(run).producers|
  {
    later := run;
    if After(run).producers != [] {
      var run' := FinishProducer(run);
      later := FinishProducers(run');
      QuietTransitive(run, run', later);
    }
  }

  /** An idle worker can always drain the channel, flush and close. */
  lemma {:induction false} DrainFromIdle(run: History) returns (later: History)
    requires Valid(run) && After(run).worker.Idle?
    ensures Valid(later) && Quiet(run, later) && After(later).worker.Closing?
  {
    var cancelled := Then(run, Cancel);
    assert After(cancelled) == After(run).(cancelled := true);
    later := Then(cancelled, Drain);
    if After(later).worker.Flushing? {
      var draining := later;
      later := FinishFlush(draining);
      QuietTransitive(run, draining, later);
    }
  }

  lemma {:induction false} StopWorker(run: History) returns (later: History)
    requires Valid(run)
    ensures Valid(later) && Quiet(run, later) && After(later).worker.Stopped?
  {
    match After(run).worker {
      case Stopped => later := run;
      case Closing => later := Then(run, CloseSinks);
      case Idle =>
        var closing := DrainFromIdle(run);
        later := Then(closing, CloseSinks);
      case Flushing(_, last) =>
        var flushed := FinishFlush(run);
        later := flushed;
        if !last {
          later := DrainFromIdle(flushed);
          QuietTransitive(run, flushed, later);
        }
        later := Then(later, CloseSinks);
    }
  }

  /** From every reachable state the pipeline can shut down, and then everything recorded by that
      moment has been delivered: no interleaving deadlocks it or strands an event. */
  lemma {:induction false} ShutdownCompletes(run: History) returns (later: History)
    requires Valid(run)
    ensures Valid(later) && Quiet(run, later)
    ensures After(later).worker.Stopped? && After(later).producers == []
    ensures forall i: nat :: i < |After(later).sinks| ==> Offered(After(later).sinks[i]) == Recorded(run)
  {
    var stopped := StopWorker(run);
    later := FinishProducers(stopped);
    QuietTransitive(run, stopped, later);
    QuietRecordsNothing(run, later);
    forall i: nat | i < |After(later).sinks| ensures Offered(After(later).sinks[i]) == Recorded(run) {
      ShutdownDelivers(later, i);
    }
  }
}
