// Timestamps and samples of the mutex-queue pipeline, on one monotone clock. The producer stamps
// a message before it pushes and again inside the critical section; the consumer reads the clock
// four times per item. The book is the consumer's own, so the pipeline step may apply the message at
// the pop, ahead of the two readings that surround the update.
module MutexTiming {
  import opened Market
  import opened Feeds
  import opened Latency
  import Q = MutexQueue
  import P = MutexPipeline

  datatype Stamp = Stamp(producerTs: nat, pushTs: nat)

  datatype Phase =
    | Popping
    | RecordWait
    | BookStart(popTs: nat)
    | BookEnd(popTs: nat, bookStart: nat)
    | RecordPipeline(popTs: nat, bookStart: nat, bookEnd: nat)

  // What the consumer has recorded, and where it is with the item in hand. readings keeps, for every
  // finished item, what the clock said; the program keeps the samples only.
  datatype Recorders = Recorders(
    phase: Phase, waits: seq<nat>, bookTimes: seq<nat>, pipelines: seq<nat>, readings: seq<Readings>)

  // current is the producer timestamp of the message that is being pushed; stamps belong to the
  // accepted items, in lock order.
  datatype State<B, M> = State(
    p: P.State<B, M>, clock: nat, current: Option<nat>, stamps: seq<Stamp>, r: Recorders)

  datatype Action = Producer(tick: nat) | Consumer(tick: nat) | Wakeup(t: nat)

  function Init<B, M>(cfg: Config<B, M>): State<B, M> {
    State(P.Init(cfg), 0, None, [], Recorders(Popping, [], [], [], []))
  }

  predicate MustStamp<B, M>(cfg: Config<B, M>, s: State<B, M>) {
    |s.p.q.threads| == 2 && s.p.q.threads[0].Idle? && s.p.sent < |cfg.msgs| && s.current.None?
  }

  function ProducerStep<B, M>(cfg: Config<B, M>, s: State<B, M>, now: nat): State<B, M> {
    if MustStamp(cfg, s) then s.(clock := now, current := Some(now)) else
    var p := P.Step(cfg, s.p, P.Producer);
    s.(p := p, clock := now,
       stamps := if |p.q.accepted| > |s.p.q.accepted| && s.current.Some?
                 then s.stamps + [Stamp(s.current.value, now)] else s.stamps,
       current := if p.sent > s.p.sent then None else s.current)
  }

  // The item in hand is the last one popped.
  function InHand<B, M>(p: P.State<B, M>, stamps: seq<Stamp>): Stamp {
    if 0 < |p.q.popped| <= |stamps| then stamps[|p.q.popped| - 1] else Stamp(0, 0)
  }

  function ConsumerStep<B, M>(cfg: Config<B, M>, s: State<B, M>, now: nat): State<B, M> {
    if s.r.phase.Popping? then
      var p := P.Step(cfg, s.p, P.Consumer);
      s.(p := p, clock := now,
         r := if |p.q.popped| > |s.p.q.popped| then s.r.(phase := RecordWait) else s.r)
    else
      s.(clock := now, r := Record(s.r, InHand(s.p, s.stamps), now))
  }

  function Record(r: Recorders, item: Stamp, now: nat): Recorders {
    match r.phase
    case Popping => r
    case RecordWait =>
      r.(waits := r.waits + [Minus64(now, item.pushTs)], phase := BookStart(now))
    case BookStart(popTs) =>
      r.(phase := BookEnd(popTs, now))
    case BookEnd(popTs, bookStart) =>
      r.(bookTimes := r.bookTimes + [Minus64(now, bookStart)], phase := RecordPipeline(popTs, bookStart, now))
    case RecordPipeline(popTs, bookStart, bookEnd) =>
      r.(pipelines := r.pipelines + [Minus64(now, item.producerTs)], phase := Popping,
         readings := r.readings + [Readings(popTs, bookStart, bookEnd, now)])
  }

  function Step<B, M>(cfg: Config<B, M>, s: State<B, M>, a: Action): State<B, M> {
    match a
    case Producer(tick) => ProducerStep(cfg, s, s.clock + tick)
    case Consumer(tick) => ConsumerStep(cfg, s, s.clock + tick)
    case Wakeup(t) => s.(p := P.Step(cfg, s.p, P.Wakeup(t)))
  }

  function Exec<B, M>(cfg: Config<B, M>, schedule: seq<Action>): State<B, M> {
    if schedule == [] then Init(cfg)
    else Step(cfg, Exec(cfg, schedule[..|schedule| - 1]), schedule[|schedule| - 1])
  }

  function Untimed(a: Action): P.Action {
    match a
    case Producer(_) => P.Producer
    case Consumer(_) => P.Consumer
    case Wakeup(t) => P.Wakeup(t)
  }

  lemma TimedStepIsPipelineStep<B, M>(cfg: Config<B, M>, s: State<B, M>, a: Action)
    ensures Step(cfg, s, a).p == s.p || Step(cfg, s, a).p == P.Step(cfg, s.p, Untimed(a))
  {}

  lemma OneMore<B, M>(cfg: Config<B, M>, untimed: seq<P.Action>, a: P.Action)
    ensures P.Exec(cfg, untimed + [a]) == P.Step(cfg, P.Exec(cfg, untimed), a)
  {
    assert (untimed + [a])[..|untimed|] == untimed;
  }

  // Forgetting the clock, a timed run is a run of the pipeline.
  lemma {:induction false} TimedRunIsPipelineRun<B, M>(cfg: Config<B, M>, schedule: seq<Action>)
    returns (untimed: seq<P.Action>)
    ensures P.Exec(cfg, untimed) == Exec(cfg, schedule).p
  {
    if schedule == [] {
      return [];
    }
    var init, last := schedule[..|schedule| - 1], schedule[|schedule| - 1];
    untimed := TimedRunIsPipelineRun(cfg, init);
    TimedStepIsPipelineStep(cfg, Exec(cfg, init), last);
    if Exec(cfg, schedule).p != Exec(cfg, init).p {
      OneMore(cfg, untimed, Untimed(last));
      untimed := untimed + [Untimed(last)];
    }
  }

  // ---- The invariant ----

  ghost predicate StampsAscend(stamps: seq<Stamp>, clock: nat) {
    forall k :: 0 <= k < |stamps| ==> stamps[k].producerTs <= stamps[k].pushTs <= clock
  }

  ghost predicate Stamped<B, M>(cfg: Config<B, M>, s: State<B, M>) {
    && P.Inv(cfg, s.p)
    && |s.stamps| == |s.p.q.accepted| && |s.p.q.popped| <= |s.stamps|
    && StampsAscend(s.stamps, s.clock)
    && (s.current.Some? ==> s.current.value <= s.clock)
    && (s.p.q.threads[0].PushParked? || s.p.q.threads[0].PushWoken? ==> s.current.Some?)
    && (s.p.exited ==> s.r.phase.Popping?)
    && (!s.r.phase.Popping? ==> s.p.q.popped != [])
  }

  ghost predicate Counts(r: Recorders, n: nat, waits: nat, bookTimes: nat, pipelines: nat) {
    |r.waits| + waits == n && |r.bookTimes| + bookTimes == n && |r.pipelines| + pipelines == n
  }

  // The samples of every finished item are exact differences of its own stamps and readings;
  // items are the stamps of the popped items.
  ghost predicate Finished(r: Recorders, items: seq<Stamp>, clock: nat) {
    && |r.readings| == |r.pipelines| <= |items| && |r.pipelines| <= |r.waits| && |r.pipelines| <= |r.bookTimes|
    && forall k :: 0 <= k < |r.pipelines| ==>
         && r.readings[k].end <= clock
         && ExactSamples(items[k].producerTs, items[k].pushTs, r.readings[k],
                         r.waits[k], r.bookTimes[k], r.pipelines[k])
  }

  // Every sample is an exact difference.
  ghost predicate Samples(r: Recorders, items: seq<Stamp>, clock: nat) {
    && Finished(r, items, clock)
    && if r.phase.Popping? then Counts(r, |items|, 0, 0, 0) else items != [] && Ongoing(r, items, clock)
  }

  // The item in hand, and what is recorded of it so far.
  ghost predicate Ongoing(r: Recorders, items: seq<Stamp>, clock: nat)
    requires items != []
  {
    var n := |items|; var item := items[n - 1];
    && item.producerTs <= item.pushTs <= clock
    && match r.phase
       case Popping => false
       case RecordWait => Counts(r, n, 1, 1, 1)
       case BookStart(popTs) => Counts(r, n, 0, 1, 1)
         && item.pushTs <= popTs <= clock && r.waits[n - 1] == popTs - item.pushTs
       case BookEnd(popTs, bookStart) => Counts(r, n, 0, 1, 1)
         && item.pushTs <= popTs <= bookStart <= clock && r.waits[n - 1] == popTs - item.pushTs
       case RecordPipeline(popTs, bookStart, bookEnd) =>
         Counts(r, n, 0, 0, 1) && item.pushTs <= popTs <= bookStart <= bookEnd <= clock &&
         r.waits[n - 1] == popTs - item.pushTs && r.bookTimes[n - 1] == bookEnd - bookStart
  }

  function PoppedStamps<B, M>(s: State<B, M>): seq<Stamp> {
    if |s.p.q.popped| <= |s.stamps| then s.stamps[..|s.p.q.popped|] else []
  }

  ghost predicate Sampled<B, M>(s: State<B, M>) {
    s.clock < TWO64 ==> Samples(s.r, PoppedStamps(s), s.clock)
  }

  lemma RecordKeepsSamples(r: Recorders, items: seq<Stamp>, clock: nat, now: nat)
    requires Samples(r, items, clock) && !r.phase.Popping? && clock <= now < TWO64
    ensures Samples(Record(r, items[|items| - 1], now), items, now)
  {
    var item := items[|items| - 1];
    match r.phase
    case RecordWait => Sub64Exact(now, item.pushTs);
    case BookStart(popTs) =>
    case BookEnd(popTs, bookStart) => Sub64Exact(now, bookStart);
    case RecordPipeline(popTs, bookStart, bookEnd) => Sub64Exact(now, item.producerTs);
  }

  lemma PopKeepsSamples(r: Recorders, items: seq<Stamp>, item: Stamp, clock: nat, now: nat)
    requires Samples(r, items, clock) && r.phase.Popping? && clock <= now
    requires item.producerTs <= item.pushTs <= clock
    ensures Samples(r.(phase := RecordWait), items + [item], now)
  {}

  lemma SamplesLater(r: Recorders, items: seq<Stamp>, clock: nat, now: nat)
    requires Samples(r, items, clock) && clock <= now
    ensures Samples(r, items, now)
  {}

  // What one step of either thread does to the pipeline, as far as stamps and samples are concerned.
  ghost predicate Grown<B, M>(cfg: Config<B, M>, p: P.State<B, M>, p': P.State<B, M>) {
    && P.Inv(cfg, p') && |p'.q.accepted| - |p.q.accepted| == p'.sent - p.sent
    && p.sent <= p'.sent <= p.sent + 1
    && |p.q.popped| <= |p'.q.popped| <= |p.q.popped| + 1 && |p'.q.popped| <= |p'.q.accepted|
  }

  ghost predicate Pushing<M>(q: Q.State<M>) {
    |q.threads| > 0 && (q.threads[0].PushParked? || q.threads[0].PushWoken?)
  }

  lemma PushGrows<B, M>(cfg: Config<B, M>, p: P.State<B, M>, p': P.State<B, M>)
    requires P.Inv(cfg, p) && p' == P.Step(cfg, p, P.Producer)
    ensures Grown(cfg, p, p') && p'.q.popped == p.q.popped && p'.exited == p.exited
    ensures p'.sent > p.sent ==> !Pushing(p'.q)
    ensures p'.sent > p.sent || Pushing(p'.q) ==> Pushing(p.q) || (p.q.threads[0].Idle? && p.sent < |cfg.msgs|)
  {
    P.StepKeepsInv(cfg, p, P.Producer);
    assert p'.q.accepted == p'.q.popped + p'.q.queue;
  }

  lemma PopGrows<B, M>(cfg: Config<B, M>, p: P.State<B, M>, p': P.State<B, M>)
    requires P.Inv(cfg, p) && p' == P.Step(cfg, p, P.Consumer)
    ensures Grown(cfg, p, p') && p'.q.accepted == p.q.accepted && (p'.exited ==> p'.q.popped == p.q.popped)
    ensures Pushing(p'.q) ==> Pushing(p.q)
  {
    P.StepKeepsInv(cfg, p, P.Consumer);
    assert p'.q.accepted == p'.q.popped + p'.q.queue;
  }

  lemma ProducerKeepsStamps<B, M>(cfg: Config<B, M>, s: State<B, M>, now: nat)
    requires Stamped(cfg, s) && s.clock <= now
    ensures Stamped(cfg, ProducerStep(cfg, s, now))
    ensures var s' := ProducerStep(cfg, s, now);
      s'.clock == now && s'.r == s.r && s'.p.q.popped == s.p.q.popped && s.stamps <= s'.stamps
  {
    PushGrows(cfg, s.p, P.Step(cfg, s.p, P.Producer));
  }

  lemma PopKeepsStamps<B, M>(cfg: Config<B, M>, s: State<B, M>, now: nat)
    requires Stamped(cfg, s) && s.clock <= now && s.r.phase.Popping?
    ensures Stamped(cfg, ConsumerStep(cfg, s, now))
  {
    PopGrows(cfg, s.p, P.Step(cfg, s.p, P.Consumer));
  }

  lemma RecordKeepsStamps<B, M>(cfg: Config<B, M>, s: State<B, M>, now: nat)
    requires Stamped(cfg, s) && s.clock <= now && !s.r.phase.Popping?
    ensures Stamped(cfg, ConsumerStep(cfg, s, now))
  {}

  lemma WakeupKeepsStamps<B, M>(cfg: Config<B, M>, s: State<B, M>, t: nat)
    requires Stamped(cfg, s)
    ensures Stamped(cfg, Step(cfg, s, Wakeup(t)))
  {
    P.StepKeepsInv(cfg, s.p, P.Wakeup(t));
  }

  ghost predicate Inv<B, M>(cfg: Config<B, M>, s: State<B, M>) {
    Stamped(cfg, s) && Sampled(s)
  }

  lemma ProducerKeepsInv<B, M>(cfg: Config<B, M>, s: State<B, M>, now: nat, s': State<B, M>)
    requires Inv(cfg, s) && s.clock <= now && s' == ProducerStep(cfg, s, now)
    ensures Inv(cfg, s')
  {
    ProducerKeepsStamps(cfg, s, now);
    assert PoppedStamps(s') == PoppedStamps(s);
    if now < TWO64 {
      SamplesLater(s.r, PoppedStamps(s), s.clock, now);
    }
  }

  // What a step of the consumer that pops does to the stamps of the popped items.
  lemma PoppedOneMore<B, M>(cfg: Config<B, M>, s: State<B, M>, now: nat, s': State<B, M>)
    requires Stamped(cfg, s) && s.clock <= now && s.r.phase.Popping? && s' == ConsumerStep(cfg, s, now)
    ensures Stamped(cfg, s') && s'.clock == now && s'.stamps == s.stamps
    ensures s'.r == s.r ==> PoppedStamps(s') == PoppedStamps(s)
    ensures s'.r != s.r ==> s'.r == s.r.(phase := RecordWait) && |s.p.q.popped| < |s.stamps|
                            && PoppedStamps(s') == PoppedStamps(s) + [s.stamps[|s.p.q.popped|]]
  {
    PopKeepsStamps(cfg, s, now);
    PopGrows(cfg, s.p, P.Step(cfg, s.p, P.Consumer));
  }

  lemma ConsumerPopsInv<B, M>(cfg: Config<B, M>, s: State<B, M>, now: nat, s': State<B, M>)
    requires Inv(cfg, s) && s.clock <= now && s.r.phase.Popping? && s' == ConsumerStep(cfg, s, now)
    ensures Inv(cfg, s')
  {
    PoppedOneMore(cfg, s, now, s');
    if now < TWO64 {
      if s'.r == s.r {
        SamplesLater(s.r, PoppedStamps(s), s.clock, now);
      } else {
        PopKeepsSamples(s.r, PoppedStamps(s), s.stamps[|s.p.q.popped|], s.clock, now);
      }
    }
  }

  lemma ConsumerRecordsInv<B, M>(cfg: Config<B, M>, s: State<B, M>, now: nat, s': State<B, M>)
    requires Inv(cfg, s) && s.clock <= now && !s.r.phase.Popping? && s' == ConsumerStep(cfg, s, now)
    ensures Inv(cfg, s')
  {
    RecordKeepsStamps(cfg, s, now);
    assert PoppedStamps(s') == PoppedStamps(s);
    if now < TWO64 {
      RecordKeepsSamples(s.r, PoppedStamps(s), s.clock, now);
    }
  }

  lemma ConsumerKeepsInv<B, M>(cfg: Config<B, M>, s: State<B, M>, now: nat, s': State<B, M>)
    requires Inv(cfg, s) && s.clock <= now && s' == ConsumerStep(cfg, s, now)
    ensures Inv(cfg, s')
  {
    if s.r.phase.Popping? {
      ConsumerPopsInv(cfg, s, now, s');
    } else {
      ConsumerRecordsInv(cfg, s, now, s');
    }
  }

  lemma WakeupKeepsInv<B, M>(cfg: Config<B, M>, s: State<B, M>, t: nat, s': State<B, M>)
    requires Inv(cfg, s) && s' == Step(cfg, s, Wakeup(t))
    ensures Inv(cfg, s')
  {
    WakeupKeepsStamps(cfg, s, t);
    assert PoppedStamps(s') == PoppedStamps(s);
  }

  lemma StepKeepsInv<B, M>(cfg: Config<B, M>, s: State<B, M>, a: Action, s': State<B, M>)
    requires Inv(cfg, s) && s' == Step(cfg, s, a)
    ensures Inv(cfg, s')
  {
    match a
    case Producer(tick) => ProducerKeepsInv(cfg, s, s.clock + tick, s');
    case Consumer(tick) => ConsumerKeepsInv(cfg, s, s.clock + tick, s');
    case Wakeup(t) => WakeupKeepsInv(cfg, s, t, s');
  }

  lemma {:induction false} TimeSafety<B, M>(cfg: Config<B, M>, schedule: seq<Action>)
    ensures Inv(cfg, Exec(cfg, schedule))
  {
    if schedule == [] {
      P.InitInv(cfg);
    } else {
      TimeSafety(cfg, schedule[..|schedule| - 1]);
      StepKeepsInv(cfg, Exec(cfg, schedule[..|schedule| - 1]), schedule[|schedule| - 1], Exec(cfg, schedule));
    }
  }

  // While the clock fits 64 bits: every accepted item is stamped producer, then push, then now; the
  // three samples of every finished message are the exact differences of its own stamps and
  // clock readings, so none has wrapped and the pipeline sample covers the other two; no sample of the
  // message in hand has wrapped either; and when the consumer has been told the end, all three
  // recorders hold one sample per message.
  lemma LatencySamples<B, M>(cfg: Config<B, M>, schedule: seq<Action>)
    requires Exec(cfg, schedule).clock < TWO64
    ensures var s := Exec(cfg, schedule);
      && |s.stamps| == |s.p.q.accepted| && StampsAscend(s.stamps, s.clock)
      && Finished(s.r, PoppedStamps(s), s.clock)
      && |s.r.pipelines| <= |s.r.bookTimes| <= |s.r.waits| <= |s.p.q.popped| <= |s.stamps|
      && (forall k :: 0 <= k < |s.r.pipelines| ==> s.r.pipelines[k] >= s.r.waits[k] + s.r.bookTimes[k])
      && (forall k :: 0 <= k < |s.r.waits| ==> s.stamps[k].pushTs + s.r.waits[k] <= s.clock)
      && (forall k :: 0 <= k < |s.r.bookTimes| ==> s.r.bookTimes[k] <= s.clock)
      && (s.p.exited ==> |s.r.pipelines| == |s.r.bookTimes| == |s.r.waits| == |cfg.msgs|)
  {
    TimeSafety(cfg, schedule);
    var s := Exec(cfg, schedule);
    assert s.p.q.accepted == s.p.q.popped + s.p.q.queue;
    SamplesFit(s.r, PoppedStamps(s), s.clock);
  }

  lemma SamplesFit(r: Recorders, items: seq<Stamp>, clock: nat)
    requires Samples(r, items, clock)
    ensures |r.pipelines| <= |r.bookTimes| <= |r.waits| <= |items|
    ensures forall k :: 0 <= k < |r.pipelines| ==> r.pipelines[k] >= r.waits[k] + r.bookTimes[k]
    ensures forall k :: 0 <= k < |r.waits| ==> items[k].pushTs + r.waits[k] <= clock
    ensures forall k :: 0 <= k < |r.bookTimes| ==> r.bookTimes[k] <= clock
  {}
}
