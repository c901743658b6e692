// Termination of the mutex-queue pipeline: every run in which both threads are scheduled again and
// again reaches the end, however many spurious wakeups it has - if the queue has room for an item or
// there is nothing to send.
module MutexLiveness {
  import opened Feeds
  import opened MutexPipeline
  import Q = MutexQueue

  type Scheduler = nat -> Action
  type Trace<B, M> = nat -> State<B, M>

  predicate CanCarry<B, M>(cfg: Config<B, M>) {
    cfg.size >= 1 || cfg.msgs == []
  }

  ghost predicate Follows<B, M>(cfg: Config<B, M>, run: Trace<B, M>, sched: Scheduler, n: nat) {
    run(n + 1) == Step(cfg, run(n), sched(n))
  }

  ghost predicate IsRun<B, M>(cfg: Config<B, M>, run: Trace<B, M>, sched: Scheduler) {
    Inv(cfg, run(0)) && forall n: nat :: Follows(cfg, run, sched, n)
  }

  ghost predicate ActsAt(sched: Scheduler, n: nat, producer: bool) {
    sched(n) == if producer then Producer else Consumer
  }

  ghost predicate ActsAfter(sched: Scheduler, n: nat, producer: bool) {
    exists k: nat :: k >= n && ActsAt(sched, k, producer)
  }

  // Each thread is scheduled again and again; wakeups may come at any time and as often as they like.
  ghost predicate Fair(sched: Scheduler) {
    forall n: nat, producer: bool :: ActsAfter(sched, n, producer)
  }

  // ---- Successes, and who makes the next one ----

  // Successes still missing: pushes, pops, the stages of close, the end of the consumer's loop.
  function Missing<B, M>(cfg: Config<B, M>, s: State<B, M>): int
    requires |s.q.threads| == 2
  {
    (|cfg.msgs| - |s.q.accepted|) + (|cfg.msgs| - |s.q.popped|)
    + (match s.q.threads[0]
       case NotifyConsumers => 2
       case NotifyProducers => 1
       case _ => if s.closing then 0 else 3)
    + (if s.exited then 0 else 1)
  }

  // The consumer succeeds with its next step; else the producer does, before the end.
  predicate ConsumerMoves<B, M>(s: State<B, M>)
    requires |s.q.threads| == 2
  {
    !s.exited && !s.q.threads[1].PopParked? && (s.q.queue != [] || s.q.closed)
  }

  lemma ConsumerSucceeds<B, M>(cfg: Config<B, M>, s: State<B, M>, s': State<B, M>)
    requires Inv(cfg, s) && ConsumerMoves(s) && s' == Step(cfg, s, Consumer)
    ensures Inv(cfg, s') && Missing(cfg, s') < Missing(cfg, s)
  {
    StepKeepsInv(cfg, s, Consumer);
    PopStep(s.q, if s.q.threads[1].Idle? then Q.Pop(1, 0) else Q.Resume(1, 0));
  }

  lemma ProducerSucceeds<B, M>(cfg: Config<B, M>, s: State<B, M>, s': State<B, M>)
    requires Inv(cfg, s) && CanCarry(cfg) && !ConsumerMoves(s) && !Final(s) && s' == Step(cfg, s, Producer)
    ensures Inv(cfg, s') && Missing(cfg, s') < Missing(cfg, s)
  {
    StepKeepsInv(cfg, s, Producer);
    NobodySleepsInVain(cfg, s);
    NotifyTwo(s.q.threads[0 := Q.Idle], Q.PopParks, 1, 1);
    NotifyTwo(s.q.threads[0 := Q.NotifyProducers], Q.PopParks, 1, 1);
    NotifyTwo(s.q.threads[0 := Q.Idle], Q.PushParks, 1, 1);
  }

  // When the consumer cannot move, the producer is awake, with room for its next item.
  lemma NobodySleepsInVain<B, M>(cfg: Config<B, M>, s: State<B, M>)
    requires Inv(cfg, s) && CanCarry(cfg) && !ConsumerMoves(s) && !Final(s)
    ensures !s.q.threads[0].PushParked? && (!s.closing ==> s.q.queue == [])
    ensures s.closing ==> !s.q.threads[0].Idle?
  {
    CountTwo(s.q.threads, Q.PopParks);
    CountTwo(s.q.threads, Q.PopWakes);
    CountTwo(s.q.threads, Q.PushParks);
    CountTwo(s.q.threads, Q.PushWakes);
    CountTwo(s.q.threads, Q.ConsumerNotifiers);
    CountTwo(s.q.threads, Q.ProducerNotifiers);
  }

  // No step undoes a success, and one that makes none leaves a consumer that can move able to.
  ghost predicate NoWorse<B, M>(cfg: Config<B, M>, s: State<B, M>, s': State<B, M>)
    requires |s.q.threads| == |s'.q.threads| == 2
  {
    && Missing(cfg, s') <= Missing(cfg, s)
    && (Missing(cfg, s') == Missing(cfg, s) ==> (ConsumerMoves(s) ==> ConsumerMoves(s')) && (Final(s') ==> Final(s)))
  }

  lemma ProducerNoWorse<B, M>(cfg: Config<B, M>, s: State<B, M>, s': State<B, M>)
    requires Inv(cfg, s) && s' == Step(cfg, s, Producer)
    ensures Inv(cfg, s') && NoWorse(cfg, s, s')
  {
    StepKeepsInv(cfg, s, Producer);
    NotifyTwo(s.q.threads[0 := Q.Idle], Q.PopParks, 1, 1);
    NotifyTwo(s.q.threads[0 := Q.NotifyProducers], Q.PopParks, 1, 1);
    NotifyTwo(s.q.threads[0 := Q.Idle], Q.PushParks, 1, 1);
  }

  lemma ConsumerNoWorse<B, M>(cfg: Config<B, M>, s: State<B, M>, s': State<B, M>)
    requires Inv(cfg, s) && s' == Step(cfg, s, Consumer)
    ensures Inv(cfg, s') && NoWorse(cfg, s, s')
  {
    StepKeepsInv(cfg, s, Consumer);
    if !s.exited && !s.q.threads[1].PopParked? {
      PopStep(s.q, if s.q.threads[1].Idle? then Q.Pop(1, 0) else Q.Resume(1, 0));
    }
  }

  lemma WakeupNoWorse<B, M>(cfg: Config<B, M>, s: State<B, M>, t: nat, s': State<B, M>)
    requires Inv(cfg, s) && s' == Step(cfg, s, Wakeup(t))
    ensures Inv(cfg, s') && NoWorse(cfg, s, s')
  {
    StepKeepsInv(cfg, s, Wakeup(t));
  }

  // ---- Runs ----

  lemma TickNoWorse<B, M>(cfg: Config<B, M>, run: Trace<B, M>, sched: Scheduler, n: nat)
    requires IsRun(cfg, run, sched) && Inv(cfg, run(n))
    ensures Inv(cfg, run(n + 1)) && NoWorse(cfg, run(n), run(n + 1))
  {
    assert Follows(cfg, run, sched, n);
    match sched(n)
    case Producer => ProducerNoWorse(cfg, run(n), run(n + 1));
    case Consumer => ConsumerNoWorse(cfg, run(n), run(n + 1));
    case Wakeup(t) => WakeupNoWorse(cfg, run(n), t, run(n + 1));
  }

  lemma {:induction false} RunNoWorse<B, M>(cfg: Config<B, M>, run: Trace<B, M>, sched: Scheduler, n: nat, k: nat)
    requires IsRun(cfg, run, sched) && Inv(cfg, run(n)) && n <= k
    ensures Inv(cfg, run(k)) && NoWorse(cfg, run(n), run(k))
    decreases k - n
  {
    if n < k {
      RunNoWorse(cfg, run, sched, n, k - 1);
      TickNoWorse(cfg, run, sched, k - 1);
      NoWorseThan(cfg, run(n), run(k - 1), run(k));
    }
  }

  lemma NoWorseThan<B, M>(cfg: Config<B, M>, r: State<B, M>, s: State<B, M>, t: State<B, M>)
    requires |r.q.threads| == |s.q.threads| == |t.q.threads| == 2
    requires NoWorse(cfg, r, s) && NoWorse(cfg, s, t)
    ensures NoWorse(cfg, r, t)
  {}

  // Whoever can move makes a success when it is scheduled next, unless one has happened by then or the
  // other thread has become the one that can.
  lemma TickSucceeds<B, M>(cfg: Config<B, M>, run: Trace<B, M>, sched: Scheduler, n: nat)
    requires IsRun(cfg, run, sched) && Inv(cfg, run(n)) && CanCarry(cfg) && !Final(run(n))
    requires ActsAt(sched, n, !ConsumerMoves(run(n)))
    ensures Inv(cfg, run(n + 1)) && Missing(cfg, run(n + 1)) < Missing(cfg, run(n))
  {
    assert Follows(cfg, run, sched, n);
    if ConsumerMoves(run(n)) {
      ConsumerSucceeds(cfg, run(n), run(n + 1));
    } else {
      ProducerSucceeds(cfg, run(n), run(n + 1));
    }
  }

  lemma {:induction false} NextSuccess<B, M>(cfg: Config<B, M>, run: Trace<B, M>, sched: Scheduler, n: nat)
    returns (k: nat)
    requires IsRun(cfg, run, sched) && Inv(cfg, run(n)) && CanCarry(cfg) && Fair(sched) && !Final(run(n))
    ensures k >= n && Inv(cfg, run(k)) && Missing(cfg, run(k)) < Missing(cfg, run(n))
    decreases if ConsumerMoves(run(n)) then 0 else 1
  {
    var producer := !ConsumerMoves(run(n));
    assert ActsAfter(sched, n, producer);
    k :| k >= n && ActsAt(sched, k, producer);
    RunNoWorse(cfg, run, sched, n, k);
    if Missing(cfg, run(k)) < Missing(cfg, run(n)) {
      return;
    }
    if ConsumerMoves(run(k)) == !producer {
      TickSucceeds(cfg, run, sched, k);
      k := k + 1;
    } else {
      k := NextSuccess(cfg, run, sched, k);
    }
  }

  lemma {:induction false} EventuallyFinal<B, M>(cfg: Config<B, M>, run: Trace<B, M>, sched: Scheduler, n: nat)
    returns (k: nat)
    requires IsRun(cfg, run, sched) && Inv(cfg, run(n)) && CanCarry(cfg) && Fair(sched)
    ensures k >= n && Inv(cfg, run(k)) && Final(run(k))
    decreases Missing(cfg, run(n))
  {
    if Final(run(n)) {
      return n;
    }
    k := NextSuccess(cfg, run, sched, n);
    MissingIsNatural(cfg, run(k));
    k := EventuallyFinal(cfg, run, sched, k);
  }

  lemma MissingIsNatural<B, M>(cfg: Config<B, M>, s: State<B, M>)
    requires Inv(cfg, s)
    ensures Missing(cfg, s) >= 0
  {}

  // From the initial state, every fair run ends with every message applied once and in order.
  lemma PipelineTerminates<B, M>(cfg: Config<B, M>, run: Trace<B, M>, sched: Scheduler) returns (k: nat)
    requires CanCarry(cfg) && run(0) == Init(cfg) && (forall n: nat :: Follows(cfg, run, sched, n)) && Fair(sched)
    ensures Final(run(k)) && run(k).sent == |cfg.msgs| && run(k).q.popped == cfg.msgs
    ensures run(k).book == BookAfter(cfg, |cfg.msgs|)
  {
    InitInv(cfg);
    k := EventuallyFinal(cfg, run, sched, 0);
    FinalIsFold(cfg, run(k));
  }

  lemma FinalIsFold<B, M>(cfg: Config<B, M>, s: State<B, M>)
    requires Inv(cfg, s) && Final(s)
    ensures s.sent == |cfg.msgs| && s.q.popped == cfg.msgs && s.book == BookAfter(cfg, |cfg.msgs|)
  {
    assert s.q.accepted == s.q.popped + s.q.queue;
    assert cfg.msgs[..|cfg.msgs|] == cfg.msgs;
  }
}
