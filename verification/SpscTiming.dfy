// Timestamps and samples of the lock-free pipeline, on one monotone clock.
module SpscTiming {
  import opened Market
  import opened Feeds
  import opened Latency
  import opened Spsc

  ghost predicate Stamps<M>(items: seq<Envelope<M>>, clock: nat) {
    forall k :: 0 <= k < |items| ==> items[k].producerTs <= items[k].pushTs <= clock
  }

  ghost predicate Counts<B, M>(c: Consumer<B, M>, waits: nat, bookTimes: nat, pipelines: nat) {
    && |c.waits| == c.consumed + waits && |c.bookTimes| == c.consumed + bookTimes
    && |c.pipelines| == c.consumed + pipelines
  }

  // The samples of every finished item are exact differences of its own stamps and readings.
  ghost predicate Finished<B, M>(m: Memory<M>, c: Consumer<B, M>) {
    && c.consumed == |c.readings| == |c.pipelines| && c.consumed <= |m.popped|
    && c.consumed <= |c.waits| && c.consumed <= |c.bookTimes|
    && forall k :: 0 <= k < c.consumed ==>
         && c.readings[k].end <= m.clock
         && ExactSamples(m.popped[k].producerTs, m.popped[k].pushTs, c.readings[k],
                         c.waits[k], c.bookTimes[k], c.pipelines[k])
  }

  // The item in hand, and what is recorded of it so far.
  ghost predicate Ongoing<B, M>(m: Memory<M>, c: Consumer<B, M>, item: Envelope<M>, waits: nat, bookTimes: nat) {
    && Counts(c, waits, bookTimes, 0)
    && c.consumed < |m.popped| && m.popped[c.consumed] == item && item.producerTs <= item.pushTs
  }

  // Every sample so far is an exact difference.
  ghost predicate Samples<B, M>(m: Memory<M>, c: Consumer<B, M>) {
    && Finished(m, c)
    && match c.pc
       case RecordWait(item) => Ongoing(m, c, item, 0, 0) && item.pushTs <= m.clock
       case BookStart(item, popTs) => Ongoing(m, c, item, 1, 0)
         && item.pushTs <= popTs <= m.clock && c.waits[c.consumed] == popTs - item.pushTs
       case BookEnd(item, popTs, bookStart) => Ongoing(m, c, item, 1, 0)
         && item.pushTs <= popTs <= bookStart <= m.clock && c.waits[c.consumed] == popTs - item.pushTs
       case RecordPipeline(item, popTs, bookStart, bookEnd) => Ongoing(m, c, item, 1, 1)
         && item.pushTs <= popTs <= bookStart <= bookEnd <= m.clock
         && c.waits[c.consumed] == popTs - item.pushTs && c.bookTimes[c.consumed] == bookEnd - bookStart
       case _ => Counts(c, 0, 0, 0)
  }

  // Stamps and samples hold as long as the clock fits 64 bits.
  ghost predicate Timed<B, M>(m: Memory<M>, c: Consumer<B, M>) {
    m.clock < TWO64 ==> Stamps(m.pushed, m.clock) && Samples(m, c)
  }

  ghost predicate TimeInv<B, M>(cfg: Config<B, M>, s: State<B, M>) {
    Inv(cfg, s) && Timed(s.m, s.c)
  }

  lemma SamplesLater<B, M>(m: Memory<M>, m': Memory<M>, c: Consumer<B, M>)
    requires Samples(m, c) && m'.popped == m.popped && m.clock <= m'.clock
    ensures Samples(m', c)
  {}

  lemma ProducerKeepsStamps<B, M>(cfg: Config<B, M>, m: Memory<M>, p: Producer<M>, view: nat, tick: nat)
    requires Ring(cfg, m) && ProducerInv(cfg, m, p)
    ensures var m' := ProducerStep(cfg, m, p, view, tick).0;
      && m'.popped == m.popped && m.clock <= m'.clock
      && (Stamps(m.pushed, m.clock) ==> Stamps(m'.pushed, m'.clock))
  {}

  lemma ProducerKeepsTimed<B, M>(cfg: Config<B, M>, m: Memory<M>, p: Producer<M>, c: Consumer<B, M>, view: nat,
                                 tick: nat, m': Memory<M>)
    requires Ring(cfg, m) && ProducerInv(cfg, m, p) && Timed(m, c)
    requires m' == ProducerStep(cfg, m, p, view, tick).0
    ensures Timed(m', c)
  {
    ProducerKeepsStamps(cfg, m, p, view, tick);
    if m'.clock < TWO64 {
      SamplesLater(m, m', c);
    }
  }

  lemma ProducerKeepsTime<B, M>(cfg: Config<B, M>, s: State<B, M>, view: nat, tick: nat)
    requires TimeInv(cfg, s)
    ensures TimeInv(cfg, Step(cfg, s, P(view, tick)))
  {
    var s' := Step(cfg, s, P(view, tick));
    StepKeepsInv(cfg, s, P(view, tick));
    ProducerKeepsTimed(cfg, s.m, s.p, s.c, view, tick, s'.m);
  }

  lemma ProcessKeepsSamples<B, M>(cfg: Config<B, M>, m: Memory<M>, c: Consumer<B, M>, now: nat)
    requires Processing(c.pc) && Samples(m, c) && m.clock <= now < TWO64
    ensures Samples(m.(clock := now), Process(cfg, c, now))
  {
    match c.pc
    case RecordWait(item) => Sub64Exact(now, item.pushTs);
    case BookStart(item, popTs) =>
    case BookEnd(item, popTs, bookStart) => Sub64Exact(now, bookStart);
    case RecordPipeline(item, popTs, bookStart, bookEnd) => Sub64Exact(now, item.producerTs);
  }

  lemma PopKeepsSamples<B, M>(cfg: Config<B, M>, m: Memory<M>, c: Consumer<B, M>, view: nat, sawDone: bool, tick: nat)
    requires !Processing(c.pc) && Ring(cfg, m) && ConsumerInv(cfg, m, c)
    requires m.clock < TWO64 ==> Samples(m, c) && Stamps(m.pushed, m.clock)
    ensures var r := ConsumerStep(cfg, m, c, view, sawDone, tick);
      r.0.clock == m.clock && r.0.pushed == m.pushed && (m.clock < TWO64 ==> Samples(r.0, r.1))
  {}

  lemma ProcessKeepsTimed<B, M>(cfg: Config<B, M>, m: Memory<M>, c: Consumer<B, M>, now: nat,
                                r: (Memory<M>, Consumer<B, M>))
    requires Processing(c.pc) && Timed(m, c) && m.clock <= now
    requires r == (m.(clock := now), Process(cfg, c, now))
    ensures Timed(r.0, r.1)
  {
    if now < TWO64 {
      ProcessKeepsSamples(cfg, m, c, now);
    }
  }

  lemma PopKeepsTimed<B, M>(cfg: Config<B, M>, m: Memory<M>, c: Consumer<B, M>, view: nat, sawDone: bool, tick: nat)
    requires !Processing(c.pc) && Ring(cfg, m) && ConsumerInv(cfg, m, c) && Timed(m, c)
    ensures var r := ConsumerStep(cfg, m, c, view, sawDone, tick); Timed(r.0, r.1)
  {
    PopKeepsSamples(cfg, m, c, view, sawDone, tick);
  }

  lemma RecordKeepsTimed<B, M>(cfg: Config<B, M>, m: Memory<M>, c: Consumer<B, M>, view: nat, sawDone: bool, tick: nat)
    requires Processing(c.pc) && cfg.size > 0 && Timed(m, c)
    ensures var r := ConsumerStep(cfg, m, c, view, sawDone, tick); Timed(r.0, r.1)
  {
    var r := ConsumerStep(cfg, m, c, view, sawDone, tick);
    ProcessingStep(cfg, m, c, view, sawDone, tick);
    ProcessKeepsTimed(cfg, m, c, m.clock + tick, r);
  }

  lemma ConsumerKeepsTime<B, M>(cfg: Config<B, M>, s: State<B, M>, view: nat, sawDone: bool, tick: nat)
    requires TimeInv(cfg, s)
    ensures TimeInv(cfg, Step(cfg, s, C(view, sawDone, tick)))
  {
    StepKeepsInv(cfg, s, C(view, sawDone, tick));
    if Processing(s.c.pc) {
      RecordKeepsTimed(cfg, s.m, s.c, view, sawDone, tick);
    } else {
      PopKeepsTimed(cfg, s.m, s.c, view, sawDone, tick);
    }
  }

  lemma {:induction false} TimeSafety<B, M>(cfg: Config<B, M>, blank: Envelope<M>, schedule: seq<Action>)
    requires cfg.size > 0
    ensures TimeInv(cfg, Exec(cfg, Init(cfg, blank), schedule))
  {
    if schedule == [] {
      InitInv(cfg, blank);
    } else {
      var init, last := schedule[..|schedule| - 1], schedule[|schedule| - 1];
      TimeSafety(cfg, blank, init);
      match last
      case P(view, tick) => ProducerKeepsTime(cfg, Exec(cfg, Init(cfg, blank), init), view, tick);
      case C(view, sawDone, tick) => ConsumerKeepsTime(cfg, Exec(cfg, Init(cfg, blank), init), view, sawDone, tick);
    }
  }

  // While the clock fits 64 bits: envelopes in flight are stamped producer, then push, then now; the
  // three samples of every finished message are the exact differences of its own stamps and
  // clock readings, so none has wrapped and the pipeline sample covers the other two; no sample of the
  // message in hand has wrapped either; and at the end all three recorders hold one sample per message.
  lemma LatencySamples<B, M>(cfg: Config<B, M>, blank: Envelope<M>, schedule: seq<Action>)
    requires cfg.size > 0
    requires Exec(cfg, Init(cfg, blank), schedule).m.clock < TWO64
    ensures var s := Exec(cfg, Init(cfg, blank), schedule);
      && Stamps(s.m.pushed, s.m.clock)
      && Finished(s.m, s.c)
      && |s.c.pipelines| <= |s.c.bookTimes| <= |s.c.waits| <= |s.m.popped|
      && (forall k :: 0 <= k < |s.c.pipelines| ==> s.c.pipelines[k] >= s.c.waits[k] + s.c.bookTimes[k])
      && (forall k :: 0 <= k < |s.c.waits| ==> s.m.popped[k].pushTs + s.c.waits[k] <= s.m.clock)
      && (forall k :: 0 <= k < |s.c.bookTimes| ==> s.c.bookTimes[k] <= s.m.clock)
      && (s.c.pc.Exited? ==> |s.c.pipelines| == |s.c.bookTimes| == |s.c.waits| == |cfg.msgs|)
  {
    TimeSafety(cfg, blank, schedule);
    var s := Exec(cfg, Init(cfg, blank), schedule);
    SamplesFit(cfg, s.m, s.c);
  }

  lemma SamplesFit<B, M>(cfg: Config<B, M>, m: Memory<M>, c: Consumer<B, M>)
    requires Samples(m, c) && ConsumerInv(cfg, m, c)
    ensures |c.pipelines| <= |c.bookTimes| <= |c.waits| <= |m.popped|
    ensures forall k :: 0 <= k < |c.pipelines| ==> c.pipelines[k] >= c.waits[k] + c.bookTimes[k]
    ensures forall k :: 0 <= k < |c.waits| ==> m.popped[k].pushTs + c.waits[k] <= m.clock
    ensures forall k :: 0 <= k < |c.bookTimes| ==> c.bookTimes[k] <= m.clock
  {}
}
