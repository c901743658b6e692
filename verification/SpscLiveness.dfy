// Termination of the lock-free pipeline: under a fair scheduler and memory in which every
// store becomes visible sooner or later, the consumer leaves its loop - if and only if the
// queue has room for an item or there is nothing to send.
module SpscLiveness {
  import opened Feeds
  import opened Spsc

  // The queue has room for an item, or there is no item.
  predicate CanCarry<B, M>(cfg: Config<B, M>) {
    cfg.size > 1 || (cfg.size == 1 && cfg.msgs == [])
  }

  type Scheduler = nat -> Action
  type Trace<B, M> = nat -> State<B, M>

  // An infinite run: each state is the scheduled step of the one before.
  ghost predicate Follows<B, M>(cfg: Config<B, M>, run: Trace<B, M>, sched: Scheduler, n: nat)
    requires cfg.size > 0
  {
    run(n + 1) == Step(cfg, run(n), sched(n))
  }

  ghost predicate IsRun<B, M>(cfg: Config<B, M>, run: Trace<B, M>, sched: Scheduler) {
    cfg.size > 0 && Inv(cfg, run(0)) && forall n: nat :: Follows(cfg, run, sched, n)
  }

  // ---- Fairness and visibility ----

  ghost predicate ActsAt(sched: Scheduler, n: nat, producer: bool) {
    sched(n).P? == producer
  }

  ghost predicate ActsAfter(sched: Scheduler, n: nat, producer: bool) {
    exists k: nat :: k >= n && ActsAt(sched, k, producer)
  }

  // Each thread is scheduled again and again.
  ghost predicate Fair(sched: Scheduler) {
    forall n: nat, producer: bool :: ActsAfter(sched, n, producer)
  }

  // The loads of this action see at least everything stored in state s.
  predicate Sees<B, M>(s: State<B, M>, a: Action) {
    match a
    case P(view, _) => view >= |s.m.popped|
    case C(view, sawDone, _) => view >= |s.m.pushed| && (s.m.done ==> sawDone)
  }

  ghost predicate SeenFrom<B, M>(s: State<B, M>, sched: Scheduler, d: nat) {
    forall k: nat :: k >= d ==> Sees(s, sched(k))
  }

  ghost predicate SeenEventually<B, M>(s: State<B, M>, sched: Scheduler, n: nat) {
    exists d: nat :: d >= n && SeenFrom(s, sched, d)
  }

  // Whatever is stored at time n is seen by all loads from some time on.
  ghost predicate EventuallyVisible<B, M>(run: Trace<B, M>, sched: Scheduler) {
    forall n: nat :: SeenEventually(run(n), sched, n)
  }

  // ---- The measure ----

  // Successes still missing: pushes, pops, the done flag, the exit.
  function Missing<B, M>(cfg: Config<B, M>, s: State<B, M>): int {
    (|cfg.msgs| - |s.m.pushed|) + (|cfg.msgs| - |s.m.popped|)
    + (if s.m.done then 0 else 1) + (if s.c.pc.Exited? then 0 else 1)
  }

  // The thread that can make the next success.
  predicate ProducerMoves<B, M>(s: State<B, M>) {
    |s.m.popped| == |s.m.pushed| && !s.m.done
  }

  // How many of its steps the mover is away from that success.
  function Distance<B, M>(s: State<B, M>): nat {
    if ProducerMoves(s) then
      match s.p.pc
      case CountProduced => 6
      case NextMessage => 5
      case Stamped(_) => 4
      case LoadTail(_, _, _) => 3
      case WriteSlot(_, _, _) => 2
      case _ => 1
    else
      match s.c.pc
      case RecordWait(_) => 10
      case BookStart(_, _) => 9
      case BookEnd(_, _, _) => 8
      case RecordPipeline(_, _, _, _) => 7
      case TestDone => if |s.m.popped| < |s.m.pushed| then 6 else 2
      case TestEmpty => if |s.m.popped| < |s.m.pushed| then 5 else 1
      case Pop => 4
      case LoadHead(_) => 3
      case ReadSlot(_) => 2
      case _ => 1
  }

  ghost predicate SameCounts<B, M>(s: State<B, M>, s': State<B, M>) {
    |s'.m.pushed| == |s.m.pushed| && |s'.m.popped| == |s.m.popped| && s'.m.done == s.m.done
    && s'.c.pc.Exited? == s.c.pc.Exited?
  }

  // The counts of s' are those of s or larger.
  ghost predicate CountsGrow<B, M>(s: State<B, M>, s': State<B, M>) {
    && |s.m.pushed| <= |s'.m.pushed| && |s.m.popped| <= |s'.m.popped|
    && (s.m.done ==> s'.m.done) && (s.c.pc.Exited? ==> s'.c.pc.Exited?)
  }

  lemma StepCountsGrow<B, M>(cfg: Config<B, M>, s: State<B, M>, a: Action)
    requires cfg.size > 0
    ensures CountsGrow(s, Step(cfg, s, a))
  {}

  lemma NeverMoreMissing<B, M>(cfg: Config<B, M>, s: State<B, M>, a: Action)
    requires Inv(cfg, s)
    ensures Inv(cfg, Step(cfg, s, a)) && Missing(cfg, Step(cfg, s, a)) <= Missing(cfg, s)
    ensures Missing(cfg, Step(cfg, s, a)) == Missing(cfg, s) ==> SameCounts(s, Step(cfg, s, a))
  {
    StepKeepsInv(cfg, s, a);
    StepCountsGrow(cfg, s, a);
    GrownMissesLess(cfg, s, Step(cfg, s, a));
  }

  lemma GrownMissesLess<B, M>(cfg: Config<B, M>, s: State<B, M>, s': State<B, M>)
    requires CountsGrow(s, s')
    ensures Missing(cfg, s') <= Missing(cfg, s)
    ensures Missing(cfg, s') == Missing(cfg, s) ==> SameCounts(s, s')
  {}

  // A step of the mover whose loads are current succeeds or comes closer; other steps do not interfere.
  lemma ProducerStepCloser<B, M>(cfg: Config<B, M>, s: State<B, M>, view: nat, tick: nat)
    requires Inv(cfg, s) && CanCarry(cfg) && !s.c.pc.Exited? && Sees(s, P(view, tick))
    requires SameCounts(s, Step(cfg, s, P(view, tick)))
    ensures Distance(Step(cfg, s, P(view, tick))) < Distance(s) + if ProducerMoves(s) then 0 else 1
  {
    if ProducerMoves(s) && s.p.pc.LoadTail? {
      FullTest(|s.m.pushed|, |s.m.popped|, cfg.size);
    }
  }

  lemma ConsumerStepCloser<B, M>(cfg: Config<B, M>, s: State<B, M>, view: nat, sawDone: bool, tick: nat)
    requires Inv(cfg, s) && CanCarry(cfg) && !s.c.pc.Exited? && Sees(s, C(view, sawDone, tick))
    requires SameCounts(s, Step(cfg, s, C(view, sawDone, tick)))
    ensures Distance(Step(cfg, s, C(view, sawDone, tick))) < Distance(s) + if ProducerMoves(s) then 1 else 0
  {
    if !ProducerMoves(s) && (s.c.pc.LoadHead? || s.c.pc.TestEmpty?) {
      EmptyTest(|s.m.popped|, |s.m.pushed|, cfg.size);
    }
  }

  // ---- Runs ----

  lemma {:induction false} RunInv<B, M>(cfg: Config<B, M>, run: Trace<B, M>, sched: Scheduler, n: nat)
    requires IsRun(cfg, run, sched)
    ensures Inv(cfg, run(n))
  {
    if n > 0 {
      RunInv(cfg, run, sched, n - 1);
      assert Follows(cfg, run, sched, n - 1);
      StepKeepsInv(cfg, run(n - 1), sched(n - 1));
    }
  }

  // One tick of a run: the step lemmas, without the step.
  lemma TickCloser<B, M>(cfg: Config<B, M>, run: Trace<B, M>, sched: Scheduler, n: nat)
    requires IsRun(cfg, run, sched) && CanCarry(cfg)
    requires !run(n).c.pc.Exited? && Sees(run(n), sched(n)) && SameCounts(run(n), run(n + 1))
    ensures Distance(run(n + 1)) < Distance(run(n)) + if ActsAt(sched, n, ProducerMoves(run(n))) then 0 else 1
  {
    RunInv(cfg, run, sched, n);
    assert Follows(cfg, run, sched, n);
    match sched(n)
    case P(view, tick) => ProducerStepCloser(cfg, run(n), view, tick);
    case C(view, sawDone, tick) => ConsumerStepCloser(cfg, run(n), view, sawDone, tick);
  }

  ghost predicate NoWorse<B, M>(cfg: Config<B, M>, s: State<B, M>, t: State<B, M>) {
    Missing(cfg, t) <= Missing(cfg, s) && (Missing(cfg, t) == Missing(cfg, s) ==> SameCounts(s, t))
  }

  lemma TickNoWorse<B, M>(cfg: Config<B, M>, run: Trace<B, M>, sched: Scheduler, n: nat)
    requires IsRun(cfg, run, sched)
    ensures NoWorse(cfg, run(n), run(n + 1))
  {
    RunInv(cfg, run, sched, n);
    assert Follows(cfg, run, sched, n);
    NeverMoreMissing(cfg, run(n), sched(n));
  }

  lemma NoWorseThan<B, M>(cfg: Config<B, M>, r: State<B, M>, s: State<B, M>, t: State<B, M>)
    requires NoWorse(cfg, r, s) && NoWorse(cfg, s, t)
    ensures NoWorse(cfg, r, t)
  {}

  lemma {:induction false} MissingFalls<B, M>(cfg: Config<B, M>, run: Trace<B, M>, sched: Scheduler, n: nat, k: nat)
    requires IsRun(cfg, run, sched) && n <= k
    ensures NoWorse(cfg, run(n), run(k))
    decreases k - n
  {
    if n < k {
      MissingFalls(cfg, run, sched, n, k - 1);
      TickNoWorse(cfg, run, sched, k - 1);
      NoWorseThan(cfg, run(n), run(k - 1), run(k));
    }
  }

  // While all loads are current for the present counts, the distance does not grow.
  lemma {:induction false} DistanceFalls<B, M>(cfg: Config<B, M>, run: Trace<B, M>, sched: Scheduler, n: nat, k: nat)
    requires IsRun(cfg, run, sched) && CanCarry(cfg) && n <= k
    requires SeenFrom(run(n), sched, n) && !run(n).c.pc.Exited?
    requires Missing(cfg, run(k)) == Missing(cfg, run(n))
    ensures Distance(run(k)) <= Distance(run(n))
    decreases k - n
  {
    if n < k {
      MissingFalls(cfg, run, sched, n, k - 1);
      MissingFalls(cfg, run, sched, k - 1, k);
      DistanceFalls(cfg, run, sched, n, k - 1);
      assert Sees(run(n), sched(k - 1));
      TickCloser(cfg, run, sched, k - 1);
    }
  }

  lemma {:induction false} NextSuccess<B, M>(cfg: Config<B, M>, run: Trace<B, M>, sched: Scheduler, n: nat)
    returns (k: nat)
    requires IsRun(cfg, run, sched) && CanCarry(cfg) && Fair(sched)
    requires SeenFrom(run(n), sched, n) && !run(n).c.pc.Exited?
    ensures k >= n && Missing(cfg, run(k)) < Missing(cfg, run(n))
    decreases Distance(run(n))
  {
    var producer := ProducerMoves(run(n));
    assert ActsAfter(sched, n, producer);
    k :| k >= n && ActsAt(sched, k, producer);
    MissingFalls(cfg, run, sched, n, k);
    MissingFalls(cfg, run, sched, k, k + 1);
    if Missing(cfg, run(k + 1)) < Missing(cfg, run(n)) {
      return k + 1;
    }
    DistanceFalls(cfg, run, sched, n, k);
    assert Sees(run(n), sched(k));
    TickCloser(cfg, run, sched, k);
    assert SeenFrom(run(k + 1), sched, k + 1) by {
      forall j: nat | j >= k + 1 ensures Sees(run(k + 1), sched(j)) {
        assert Sees(run(n), sched(j));
      }
    }
    k := NextSuccess(cfg, run, sched, k + 1);
  }

  lemma {:induction false} EventuallyExits<B, M>(cfg: Config<B, M>, run: Trace<B, M>, sched: Scheduler, n: nat)
    returns (k: nat)
    requires IsRun(cfg, run, sched) && CanCarry(cfg) && Fair(sched) && EventuallyVisible(run, sched)
    ensures k >= n && run(k).c.pc.Exited?
    decreases Missing(cfg, run(n))
  {
    RunInv(cfg, run, sched, n);
    if run(n).c.pc.Exited? {
      return n;
    }
    assert SeenEventually(run(n), sched, n);
    var d: nat :| d >= n && SeenFrom(run(n), sched, d);
    MissingFalls(cfg, run, sched, n, d);
    if Missing(cfg, run(d)) == Missing(cfg, run(n)) {
      assert SeenFrom(run(d), sched, d) by {
        forall j: nat | j >= d ensures Sees(run(d), sched(j)) {
          assert Sees(run(n), sched(j));
        }
      }
      d := NextSuccess(cfg, run, sched, d);
    }
    k := EventuallyExits(cfg, run, sched, d);
  }

  // From the initial state, every fair run terminates with every message applied.
  lemma PipelineTerminates<B, M>(cfg: Config<B, M>, blank: Envelope<M>, run: Trace<B, M>, sched: Scheduler)
    returns (k: nat)
    requires CanCarry(cfg) && run(0) == Init(cfg, blank) && forall n: nat :: Follows(cfg, run, sched, n)
    requires Fair(sched) && EventuallyVisible(run, sched)
    ensures run(k).c.pc.Exited? && run(k).c.consumed == run(k).p.produced == |cfg.msgs|
    ensures run(k).c.book == BookAfter(cfg, |cfg.msgs|)
  {
    InitInv(cfg, blank);
    k := EventuallyExits(cfg, run, sched, 0);
    RunInv(cfg, run, sched, k);
  }

  // ---- Capacity zero ----

  // A ring of capacity 0 has one slot and accepts no push.
  ghost predicate NothingPushed<B, M>(s: State<B, M>) {
    |s.m.pushed| == 0 && !s.p.pc.WriteSlot? && !s.p.pc.PublishHead? && !s.p.pc.CountProduced? && !s.m.done
  }

  lemma {:induction false} ZeroCapacityNeverExits<B, M>(cfg: Config<B, M>, blank: Envelope<M>, schedule: seq<Action>)
    requires cfg.size == 1 && cfg.msgs != []
    ensures var s := Exec(cfg, Init(cfg, blank), schedule); NothingPushed(s) && !s.c.pc.Exited?
  {
    if schedule == [] {
      return;
    }
    var init, last := schedule[..|schedule| - 1], schedule[|schedule| - 1];
    ZeroCapacityNeverExits(cfg, blank, init);
    Safety(cfg, blank, init);
    StuckStep(cfg, Exec(cfg, Init(cfg, blank), init), last);
  }

  lemma StuckStep<B, M>(cfg: Config<B, M>, s: State<B, M>, a: Action)
    requires cfg.size == 1 && cfg.msgs != [] && Inv(cfg, s) && NothingPushed(s) && !s.c.pc.Exited?
    ensures NothingPushed(Step(cfg, s, a)) && !Step(cfg, s, a).c.pc.Exited?
  {
    StepKeepsInv(cfg, s, a);
    if s.p.pc.LoadTail? {
      assert s.p.pc.nextHead == (0 + 1) % 1 == 0;
    }
  }
}
