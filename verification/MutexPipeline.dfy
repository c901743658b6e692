// The producer and consumer programs over the mutex queue: the producer pushes every
// message and closes, the consumer pops until it is told the end. Thread 0 is the
// producer, thread 1 the consumer.
module MutexPipeline {
  import opened Feeds
  import Q = MutexQueue

  // sent counts the pushes that have returned.
  datatype State<B, M> = State(q: Q.State<M>, sent: nat, closing: bool, exited: bool, book: B)

  datatype Action = Producer | Consumer | Wakeup(t: nat)

  function Init<B, M>(cfg: Config<B, M>): State<B, M> {
    State(Q.Init(cfg.size, 2), 0, false, false, cfg.book0)
  }

  function ProducerStep<B, M>(cfg: Config<B, M>, s: State<B, M>): State<B, M>
    requires |s.q.threads| == 2
  {
    if !s.q.threads[0].Idle? then
      var q := Q.Step(s.q, Q.Resume(0, 1));
      s.(q := q, sent := if s.q.threads[0].PushWoken? && q.threads[0].Idle? then s.sent + 1 else s.sent)
    else if s.sent < |cfg.msgs| then
      var q := Q.Step(s.q, Q.Push(0, cfg.msgs[s.sent], 1));
      s.(q := q, sent := if q.threads[0].Idle? then s.sent + 1 else s.sent)
    else if !s.closing then
      s.(q := Q.Step(s.q, Q.Close(0)), closing := true)
    else
      s
  }

  function ConsumerStep<B, M>(cfg: Config<B, M>, s: State<B, M>): State<B, M>
    requires |s.q.threads| == 2
  {
    if s.exited || s.q.threads[1].PopParked? then s else
    var q := Q.Step(s.q, if s.q.threads[1].Idle? then Q.Pop(1, 0) else Q.Resume(1, 0));
    if |q.popped| > |s.q.popped| then
      s.(q := q, book := cfg.apply(s.book, q.popped[|q.popped| - 1]))
    else
      s.(q := q, exited := q.threads[1].Idle?)
  }

  function Step<B, M>(cfg: Config<B, M>, s: State<B, M>, a: Action): State<B, M> {
    if |s.q.threads| != 2 then s else
    match a
    case Producer => ProducerStep(cfg, s)
    case Consumer => ConsumerStep(cfg, s)
    case Wakeup(t) => s.(q := Q.Step(s.q, Q.Spurious(t)))
  }

  function Exec<B, M>(cfg: Config<B, M>, schedule: seq<Action>): State<B, M> {
    if schedule == [] then Init(cfg)
    else Step(cfg, Exec(cfg, schedule[..|schedule| - 1]), schedule[|schedule| - 1])
  }

  // The steps of the two threads that did something.
  ghost function Effective<B, M>(cfg: Config<B, M>, schedule: seq<Action>): nat {
    if schedule == [] then 0 else
      var init, last := schedule[..|schedule| - 1], schedule[|schedule| - 1];
      Effective(cfg, init) + if !last.Wakeup? && Exec(cfg, schedule) != Exec(cfg, init) then 1 else 0
  }

  function Wakeups(schedule: seq<Action>): nat {
    if schedule == [] then 0
    else Wakeups(schedule[..|schedule| - 1]) + if schedule[|schedule| - 1].Wakeup? then 1 else 0
  }

  // ---- The invariant ----

  ghost predicate Inv<B, M>(cfg: Config<B, M>, s: State<B, M>) {
    && Q.Inv(s.q) && |s.q.threads| == 2 && s.q.capacity == cfg.size && s.q.dropped == 0
    && s.sent <= |cfg.msgs| && s.q.accepted == cfg.msgs[..s.sent]
    && |s.q.popped| <= s.sent && s.book == BookAfter(cfg, |s.q.popped|)
    && (s.q.closed <==> s.closing) && (s.closing ==> s.sent == |cfg.msgs|)
    && (s.exited ==> s.q.threads[1].Idle? && s.q.closed && s.q.queue == [])
    && (s.q.threads[1].Idle? || s.q.threads[1].PopParked? || s.q.threads[1].PopWoken?)
    && match s.q.threads[0]
       case PushParked(item) => !s.closing && s.sent < |cfg.msgs| && item == cfg.msgs[s.sent]
       case PushWoken(item) => !s.closing && s.sent < |cfg.msgs| && item == cfg.msgs[s.sent]
       case PopParked => false
       case PopWoken => false
       case Idle => true
       case _ => s.closing
  }

  lemma CountTwo<T>(threads: seq<Q.Thread<T>>, k: Q.Kind)
    requires |threads| == 2
    ensures Q.Count(threads, k)
         == (if Q.KindOf(threads[0]) == k then 1 else 0) + (if Q.KindOf(threads[1]) == k then 1 else 0)
  {
    assert threads[1..][1..] == [];
    assert Q.Count(threads[1..], k) == if Q.KindOf(threads[1]) == k then 1 else 0;
  }

  // What notify_one and notify_all do to two threads of which only `other` can be parked on k.
  lemma NotifyTwo<T>(threads: seq<Q.Thread<T>>, k: Q.Kind, wake: nat, other: nat)
    requires |threads| == 2 && other < 2 && wake == other && Q.IsPark(k)
    requires Q.KindOf(threads[1 - other]) != k
    ensures Q.NotifyOne(threads, k, wake) == Q.NotifyAll(threads, k)
         == threads[other := if Q.KindOf(threads[other]) == k then Q.Wake(threads[other]) else threads[other]]
  {
    assert threads == [threads[0], threads[1]];
    assert threads[1..] == [threads[1]] && threads[1..][1..] == [];
    assert Q.NotifyAll(threads[1..], k) == [if Q.KindOf(threads[1]) == k then Q.Wake(threads[1]) else threads[1]];
  }

  lemma PushStep<T>(q: Q.State<T>, item: T)
    requires Q.Inv(q) && |q.threads| == 2 && !q.closed
    requires q.threads[0].Idle? || q.threads[0] == Q.PushWoken(item)
    requires !q.threads[1].PushParked? && !q.threads[1].PushWoken?
    ensures var r := Q.PushSection(q, 0, item, 1);
      && r == (if q.threads[0].Idle? then Q.Step(q, Q.Push(0, item, 1)) else Q.Step(q, Q.Resume(0, 1))) && Q.Inv(r)
      && |r.threads| == 2 && r.capacity == q.capacity && r.closed == q.closed
      && r.popped == q.popped && r.dropped == q.dropped
      && (if |q.queue| < q.capacity
          then r.accepted == q.accepted + [item] && r.threads[0] == Q.Idle && r.threads[1] == Q.Wake(q.threads[1])
          else r.accepted == q.accepted && r.threads[0] == Q.PushParked(item) && r.threads[1] == q.threads[1])
  {
    Q.PushKeepsInv(q, 0, item, 1);
    NotifyTwo(q.threads[0 := Q.Idle], Q.PopParks, 1, 1);
  }

  lemma PushStepKeepsInv<B, M>(cfg: Config<B, M>, s: State<B, M>)
    requires Inv(cfg, s) && s.sent < |cfg.msgs| && (s.q.threads[0].Idle? || s.q.threads[0].PushWoken?)
    ensures Inv(cfg, ProducerStep(cfg, s))
  {
    PushStep(s.q, cfg.msgs[s.sent]);
    assert cfg.msgs[..s.sent + 1] == cfg.msgs[..s.sent] + [cfg.msgs[s.sent]];
  }

  lemma CloseStepKeepsInv<B, M>(cfg: Config<B, M>, s: State<B, M>)
    requires Inv(cfg, s) && !s.q.threads[0].PushWoken? && (s.q.threads[0].Idle? ==> s.sent == |cfg.msgs|)
    ensures Inv(cfg, ProducerStep(cfg, s))
  {
    Q.StepKeepsInv(s.q, if s.q.threads[0].Idle? then Q.Close(0) else Q.Resume(0, 1));
    NotifyTwo(s.q.threads[0 := Q.NotifyProducers], Q.PopParks, 1, 1);
    NotifyTwo(s.q.threads[0 := Q.Idle], Q.PushParks, 1, 1);
  }

  lemma ProducerKeepsInv<B, M>(cfg: Config<B, M>, s: State<B, M>)
    requires Inv(cfg, s)
    ensures Inv(cfg, ProducerStep(cfg, s))
  {
    if s.sent < |cfg.msgs| && (s.q.threads[0].Idle? || s.q.threads[0].PushWoken?) {
      PushStepKeepsInv(cfg, s);
    } else {
      CloseStepKeepsInv(cfg, s);
    }
  }

  lemma PopStep<T>(q: Q.State<T>, a: Q.Action<T>)
    requires Q.Inv(q) && |q.threads| == 2 && (q.threads[1].Idle? || q.threads[1].PopWoken?)
    requires a == if q.threads[1].Idle? then Q.Pop(1, 0) else Q.Resume(1, 0)
    requires !q.threads[0].PopParked? && !q.threads[0].PopWoken?
    ensures var r := Q.Step(q, a);
      && r == Q.PopSection(q, 1, 0) && Q.Inv(r)
      && r.capacity == q.capacity && r.closed == q.closed && r.accepted == q.accepted && r.dropped == q.dropped
      && r.threads[0] == (if q.queue != [] then Q.Wake(q.threads[0]) else q.threads[0])
      && r.threads[1] == (if q.queue != [] || q.closed then Q.Idle else Q.PopParked)
      && r.popped == (if q.queue != [] then q.popped + [q.queue[0]] else q.popped)
      && r.queue == (if q.queue != [] then q.queue[1..] else [])
  {
    Q.StepKeepsInv(q, a);
    NotifyTwo(q.threads[1 := Q.Idle], Q.PushParks, 0, 0);
  }

  lemma ConsumerKeepsInv<B, M>(cfg: Config<B, M>, s: State<B, M>)
    requires Inv(cfg, s)
    ensures Inv(cfg, ConsumerStep(cfg, s))
  {
    if !s.exited && !s.q.threads[1].PopParked? {
      PopStep(s.q, if s.q.threads[1].Idle? then Q.Pop(1, 0) else Q.Resume(1, 0));
      assert s.q.accepted == s.q.popped + s.q.queue;
    }
  }

  lemma StepKeepsInv<B, M>(cfg: Config<B, M>, s: State<B, M>, a: Action)
    requires Inv(cfg, s)
    ensures Inv(cfg, Step(cfg, s, a))
  {
    match a
    case Producer => ProducerKeepsInv(cfg, s);
    case Consumer => ConsumerKeepsInv(cfg, s);
    case Wakeup(t) => Q.StepKeepsInv(s.q, Q.Spurious(t));
  }

  lemma InitInv<B, M>(cfg: Config<B, M>)
    ensures Inv(cfg, Init(cfg))
  {
    Q.InitInv<M>(cfg.size, 2);
  }

  // ---- Termination ----

  // The work that is left: pushes, pops, the stages of close, and who is awake.
  function Work<B, M>(cfg: Config<B, M>, s: State<B, M>): int
    requires |s.q.threads| == 2
  {
    3 * (|cfg.msgs| - |s.q.accepted|) + 3 * (|cfg.msgs| - |s.q.popped|)
    + (match s.q.threads[0]
       case PushParked(_) => 9
       case NotifyConsumers => 6
       case NotifyProducers => 3
       case _ => if s.closing then 0 else 10)
    + (if s.exited then 0 else if s.q.threads[1].PopParked? then 1 else 2)
  }

  ghost predicate Final<B, M>(s: State<B, M>) {
    |s.q.threads| == 2 && s.exited && s.closing && s.q.threads[0].Idle?
  }

  lemma ProducerWorks<B, M>(cfg: Config<B, M>, s: State<B, M>)
    requires Inv(cfg, s)
    ensures ProducerStep(cfg, s) == s || Work(cfg, ProducerStep(cfg, s)) < Work(cfg, s)
  {
    NotifyTwo(s.q.threads[0 := Q.Idle], Q.PopParks, 1, 1);
    NotifyTwo(s.q.threads[0 := Q.NotifyProducers], Q.PopParks, 1, 1);
    NotifyTwo(s.q.threads[0 := Q.Idle], Q.PushParks, 1, 1);
  }

  lemma ConsumerWorks<B, M>(cfg: Config<B, M>, s: State<B, M>)
    requires Inv(cfg, s)
    ensures ConsumerStep(cfg, s) == s || Work(cfg, ConsumerStep(cfg, s)) < Work(cfg, s)
  {
    NotifyTwo(s.q.threads[1 := Q.Idle], Q.PushParks, 0, 0);
  }

  // With room for an item, the pipeline is stuck only when it has finished.
  lemma StuckIsFinal<B, M>(cfg: Config<B, M>, s: State<B, M>)
    requires Inv(cfg, s) && cfg.size >= 1
    requires ProducerStep(cfg, s) == s && ConsumerStep(cfg, s) == s
    ensures Final(s)
  {
    CountTwo(s.q.threads, Q.PopParks);
    CountTwo(s.q.threads, Q.PopWakes);
    CountTwo(s.q.threads, Q.PushParks);
    CountTwo(s.q.threads, Q.PushWakes);
    CountTwo(s.q.threads, Q.ConsumerNotifiers);
    CountTwo(s.q.threads, Q.ProducerNotifiers);
    ConsumerWorks(cfg, s);
    ProducerWorks(cfg, s);
  }

  // ---- Runs ----

  lemma StepWorks<B, M>(cfg: Config<B, M>, s: State<B, M>, a: Action, s': State<B, M>)
    requires Inv(cfg, s) && s' == Step(cfg, s, a)
    ensures Inv(cfg, s')
    ensures Work(cfg, s') + (if !a.Wakeup? && s' != s then 1 else 0) <= Work(cfg, s) + if a.Wakeup? then 1 else 0
  {
    StepKeepsInv(cfg, s, a);
    match a
    case Producer => ProducerWorks(cfg, s);
    case Consumer => ConsumerWorks(cfg, s);
    case Wakeup(t) =>
  }

  lemma {:induction false} WorkBounds<B, M>(cfg: Config<B, M>, schedule: seq<Action>)
    ensures Inv(cfg, Exec(cfg, schedule))
    ensures Effective(cfg, schedule) + Work(cfg, Exec(cfg, schedule)) <= 6 * |cfg.msgs| + 12 + Wakeups(schedule)
  {
    if schedule == [] {
      InitInv(cfg);
    } else {
      var init, last := schedule[..|schedule| - 1], schedule[|schedule| - 1];
      WorkBounds(cfg, init);
      StepWorks(cfg, Exec(cfg, init), last, Exec(cfg, schedule));
    }
  }

  // However the threads are scheduled, at most 6N + 12 steps do anything, plus one per spurious
  // wakeup. When the consumer is told the end it has applied every message exactly once and in
  // order, and nothing was dropped; with room for an item, a run stops only there.
  lemma MutexPipelineIsFold<B, M>(cfg: Config<B, M>, schedule: seq<Action>)
    ensures Effective(cfg, schedule) <= 6 * |cfg.msgs| + 12 + Wakeups(schedule)
    ensures var s := Exec(cfg, schedule);
      && s.q.dropped == 0 && |s.q.popped| <= |cfg.msgs| && s.book == BookAfter(cfg, |s.q.popped|)
      && (s.exited ==> s.q.popped == cfg.msgs && s.sent == |cfg.msgs|)
      && (cfg.size >= 1 && Step(cfg, s, Producer) == s && Step(cfg, s, Consumer) == s ==> Final(s))
  {
    WorkBounds(cfg, schedule);
    var s := Exec(cfg, schedule);
    assert s.q.accepted == s.q.popped + s.q.queue;
    if cfg.size >= 1 && Step(cfg, s, Producer) == s && Step(cfg, s, Consumer) == s {
      StuckIsFinal(cfg, s);
    }
    if s.exited {
      assert cfg.msgs[..|cfg.msgs|] == cfg.msgs;
    }
  }

  // ---- Capacity zero ----

  // A queue of capacity 0 takes nothing: the producer waits in its first push for good, and close is
  // never reached, so neither is the end of the consumer's loop.
  lemma {:induction false} ZeroCapacityNeverEnds<B, M>(cfg: Config<B, M>, schedule: seq<Action>)
    requires cfg.size == 0 && cfg.msgs != []
    ensures var s := Exec(cfg, schedule);
      s.sent == 0 && s.q.accepted == s.q.popped == [] && !s.closing && !s.exited && s.book == cfg.book0
  {
    WorkBounds(cfg, schedule);
    var s := Exec(cfg, schedule);
    assert s.q.accepted == s.q.popped + s.q.queue;
    if schedule != [] {
      var init := schedule[..|schedule| - 1];
      ZeroCapacityNeverEnds(cfg, init);
      WorkBounds(cfg, init);
      ZeroCapacityStep(cfg, Exec(cfg, init), schedule[|schedule| - 1]);
    }
  }

  lemma ZeroCapacityStep<B, M>(cfg: Config<B, M>, s: State<B, M>, a: Action)
    requires cfg.size == 0 && cfg.msgs != [] && Inv(cfg, s)
    requires s.sent == 0 && !s.closing && !s.exited
    ensures var s' := Step(cfg, s, a); s'.sent == 0 && !s'.closing && !s'.exited
  {
    StepKeepsInv(cfg, s, a);
    assert s.q.accepted == s.q.popped + s.q.queue;
  }
}
