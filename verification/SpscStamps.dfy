// Where the time stamps and clock readings of the lock-free pipeline come from: every one of them is the
// clock of the very step of the run that the program takes it at.
module SpscStamps {
  import opened Market
  import opened Feeds
  import opened Latency
  import opened Spsc
  import opened SpscTiming

  // The state after the first t steps of the schedule.
  function At<B, M>(cfg: Config<B, M>, blank: Envelope<M>, sch: seq<Action>, t: nat): State<B, M>
    requires cfg.size > 0 && t <= |sch|
  {
    Exec(cfg, Init(cfg, blank), sch[..t])
  }

  lemma NextState<B, M>(cfg: Config<B, M>, blank: Envelope<M>, sch: seq<Action>, t: nat)
    requires cfg.size > 0 && t < |sch|
    ensures At(cfg, blank, sch, t + 1) == Step(cfg, At(cfg, blank, sch, t), sch[t])
  {
    assert sch[..t + 1][..t] == sch[..t];
  }

  // ---- One step of the producer ----

  predicate Holding<M>(pc: ProducerPc<M>) {
    pc.LoadTail? || pc.WriteSlot? || pc.PublishHead?
  }

  // The producer timestamp of the message at hand.
  function StampOf<M>(pc: ProducerPc<M>): Option<nat> {
    if pc.Stamped? then Some(pc.producerTs) else if Holding(pc) then Some(pc.env.producerTs) else None
  }

  // The first clock reading of a message is its producer timestamp, and stays that through all
  // attempts; each attempt takes a new push timestamp; a failed one goes back for the next.
  lemma ProducerStamps<B, M>(cfg: Config<B, M>, m: Memory<M>, p: Producer<M>, view: nat, tick: nat,
                             m': Memory<M>, p': Producer<M>)
    requires cfg.size > 0 && (m', p') == ProducerStep(cfg, m, p, view, tick)
    ensures p.pc.NextMessage? && p'.pc.Stamped? ==> p'.pc.producerTs == m'.clock == m.clock + tick
    ensures p.pc.Stamped? && p'.pc.LoadTail? ==>
      p'.pc.env.producerTs == p.pc.producerTs && p'.pc.env.pushTs == m'.clock == m.clock + tick
    ensures p.pc.LoadTail? ==>
      p'.pc == Stamped(p.pc.env.producerTs) || p'.pc == WriteSlot(p.pc.env, p.pc.head, p.pc.nextHead)
    ensures StampOf(p'.pc).Some? ==> p'.next == p.next && (p.pc.NextMessage? || StampOf(p.pc) == StampOf(p'.pc))
    ensures Holding(p'.pc) ==> (p.pc.Stamped? && p'.pc.LoadTail?) || (Holding(p.pc) && p.pc.env == p'.pc.env)
    ensures m'.pushed == m.pushed || (p.pc.PublishHead? && m'.pushed == m.pushed + [p.pc.env])
  {}

  // ---- Stamps of pushed items ----

  // Step t takes the producer timestamp of message k.
  ghost predicate Stamping<B, M>(cfg: Config<B, M>, blank: Envelope<M>, sch: seq<Action>, t: nat, k: nat, ts: nat)
    requires cfg.size > 0
  {
    && t < |sch| && sch[t].P?
    && At(cfg, blank, sch, t).p.pc.NextMessage? && At(cfg, blank, sch, t).p.next == k
    && At(cfg, blank, sch, t + 1).p.pc == Stamped(ts) && ts == At(cfg, blank, sch, t + 1).m.clock
  }

  // Step t begins the attempt to push env, and takes its push timestamp.
  ghost predicate Attempting<B, M>(cfg: Config<B, M>, blank: Envelope<M>, sch: seq<Action>, t: nat, env: Envelope<M>)
    requires cfg.size > 0
  {
    && t < |sch| && sch[t].P?
    && At(cfg, blank, sch, t).p.pc == Stamped(env.producerTs)
    && At(cfg, blank, sch, t + 1).p.pc.LoadTail? && At(cfg, blank, sch, t + 1).p.pc.env == env
    && env.pushTs == At(cfg, blank, sch, t + 1).m.clock
  }

  // From step t to state n the producer is at this attempt.
  ghost predicate Held<B, M>(cfg: Config<B, M>, blank: Envelope<M>, sch: seq<Action>, t: nat, n: nat, env: Envelope<M>)
    requires cfg.size > 0 && n <= |sch|
  {
    forall v :: t < v <= n ==> Holding(At(cfg, blank, sch, v).p.pc) && At(cfg, blank, sch, v).p.pc.env == env
  }

  // From step t to state n the message at hand has this producer timestamp.
  ghost predicate Keeps<B, M>(cfg: Config<B, M>, blank: Envelope<M>, sch: seq<Action>, t: nat, n: nat, ts: nat)
    requires cfg.size > 0 && n <= |sch|
  {
    forall v :: t < v <= n ==> StampOf(At(cfg, blank, sch, v).p.pc) == Some(ts)
  }

  lemma StepOfProducer<B, M>(cfg: Config<B, M>, blank: Envelope<M>, sch: seq<Action>, n: nat)
    requires cfg.size > 0 && 0 < n <= |sch|
    ensures var s, s' := At(cfg, blank, sch, n - 1), At(cfg, blank, sch, n);
      if sch[n - 1].P? then (s'.m, s'.p) == ProducerStep(cfg, s.m, s.p, sch[n - 1].view, sch[n - 1].tick)
      else s'.p == s.p && s'.m.pushed == s.m.pushed
  {
    NextState(cfg, blank, sch, n - 1);
  }

  lemma {:induction false} StampFrom<B, M>(cfg: Config<B, M>, blank: Envelope<M>, sch: seq<Action>, n: nat)
    returns (t: nat)
    requires cfg.size > 0 && n <= |sch| && StampOf(At(cfg, blank, sch, n).p.pc).Some?
    ensures var s := At(cfg, blank, sch, n);
      t < n && Stamping(cfg, blank, sch, t, s.p.next, StampOf(s.p.pc).value)
      && Keeps(cfg, blank, sch, t, n, StampOf(s.p.pc).value)
  {
    assert sch[..0] == [];
    var before, now := At(cfg, blank, sch, n - 1), At(cfg, blank, sch, n);
    StepOfProducer(cfg, blank, sch, n);
    if sch[n - 1].P? {
      ProducerStamps(cfg, before.m, before.p, sch[n - 1].view, sch[n - 1].tick, now.m, now.p);
    }
    if sch[n - 1].P? && before.p.pc.NextMessage? {
      t := n - 1;
    } else {
      t := StampFrom(cfg, blank, sch, n - 1);
    }
  }

  lemma {:induction false} AttemptFrom<B, M>(cfg: Config<B, M>, blank: Envelope<M>, sch: seq<Action>, n: nat)
    returns (t: nat)
    requires cfg.size > 0 && n <= |sch| && Holding(At(cfg, blank, sch, n).p.pc)
    ensures var env := At(cfg, blank, sch, n).p.pc.env;
      t < n && Attempting(cfg, blank, sch, t, env) && Held(cfg, blank, sch, t, n, env)
  {
    assert sch[..0] == [];
    var before, now := At(cfg, blank, sch, n - 1), At(cfg, blank, sch, n);
    StepOfProducer(cfg, blank, sch, n);
    if sch[n - 1].P? {
      ProducerStamps(cfg, before.m, before.p, sch[n - 1].view, sch[n - 1].tick, now.m, now.p);
    }
    if sch[n - 1].P? && before.p.pc.Stamped? {
      t := n - 1;
    } else {
      t := AttemptFrom(cfg, blank, sch, n - 1);
    }
  }

  // Step u publishes item k.
  ghost predicate Publishing<B, M>(cfg: Config<B, M>, blank: Envelope<M>, sch: seq<Action>, u: nat, k: nat,
                                   env: Envelope<M>)
    requires cfg.size > 0
  {
    && u < |sch| && |At(cfg, blank, sch, u).m.pushed| == k
    && At(cfg, blank, sch, u + 1).m.pushed == At(cfg, blank, sch, u).m.pushed + [env]
  }

  // The producer timestamp of every pushed item is the clock of the step that took up its message, and
  // its push timestamp the clock of the step that began its last attempt, the one that published it.
  lemma {:induction false} PushedStamps<B, M>(cfg: Config<B, M>, blank: Envelope<M>, sch: seq<Action>, n: nat, k: nat)
    returns (t1: nat, t2: nat, u: nat)
    requires cfg.size > 0 && n <= |sch| && k < |At(cfg, blank, sch, n).m.pushed|
    ensures var env := At(cfg, blank, sch, n).m.pushed[k];
      && t1 < t2 < u < n
      && Stamping(cfg, blank, sch, t1, k, env.producerTs) && Keeps(cfg, blank, sch, t1, u, env.producerTs)
      && Attempting(cfg, blank, sch, t2, env) && Held(cfg, blank, sch, t2, u, env)
      && Publishing(cfg, blank, sch, u, k, env)
  {
    assert sch[..0] == [];
    var before, now := At(cfg, blank, sch, n - 1), At(cfg, blank, sch, n);
    StepOfProducer(cfg, blank, sch, n);
    if sch[n - 1].P? {
      ProducerStamps(cfg, before.m, before.p, sch[n - 1].view, sch[n - 1].tick, now.m, now.p);
    }
    if k < |before.m.pushed| {
      t1, t2, u := PushedStamps(cfg, blank, sch, n - 1, k);
    } else {
      Safety(cfg, blank, sch[..n - 1]);
      u := n - 1;
      t1 := StampFrom(cfg, blank, sch, u);
      t2 := AttemptFrom(cfg, blank, sch, u);
    }
  }

  // ---- One step of the consumer ----

  lemma ConsumerReadings<B, M>(cfg: Config<B, M>, m: Memory<M>, c: Consumer<B, M>, view: nat, sawDone: bool, tick: nat,
                               m': Memory<M>, c': Consumer<B, M>)
    requires cfg.size > 0 && (m', c') == ConsumerStep(cfg, m, c, view, sawDone, tick)
    ensures c'.pc.BookStart? ==> c.pc == RecordWait(c'.pc.item) && c'.pc.popTs == m'.clock
    ensures c'.pc.BookEnd? ==> c.pc == BookStart(c'.pc.item, c'.pc.popTs) && c'.pc.bookStart == m'.clock
    ensures c'.pc.RecordPipeline? ==>
      && c.pc == BookEnd(c'.pc.item, c'.pc.popTs, c'.pc.bookStart) && c'.pc.bookEnd == m'.clock
      && c'.book == cfg.apply(c.book, c.pc.item.message)
    ensures c'.readings == c.readings
      || (c.pc.RecordPipeline?
          && c'.readings == c.readings + [Readings(c.pc.popTs, c.pc.bookStart, c.pc.bookEnd, m'.clock)])
  {}

  lemma StepOfConsumer<B, M>(cfg: Config<B, M>, blank: Envelope<M>, sch: seq<Action>, n: nat)
    requires cfg.size > 0 && 0 < n <= |sch|
    ensures var s, s', a := At(cfg, blank, sch, n - 1), At(cfg, blank, sch, n), sch[n - 1];
      if a.C? then (s'.m, s'.c) == ConsumerStep(cfg, s.m, s.c, a.view, a.sawDone, a.tick) else s'.c == s.c
  {
    NextState(cfg, blank, sch, n - 1);
  }

  // A step of the consumer from one place of its loop to another.
  ghost predicate Moves<B, M>(cfg: Config<B, M>, blank: Envelope<M>, sch: seq<Action>, t: nat,
                              pc: ConsumerPc<M>, pc': ConsumerPc<M>)
    requires cfg.size > 0
  {
    t < |sch| && At(cfg, blank, sch, t).c.pc == pc && At(cfg, blank, sch, t + 1).c.pc == pc'
  }

  function ClockAfter<B, M>(cfg: Config<B, M>, blank: Envelope<M>, sch: seq<Action>, t: nat): nat
    requires cfg.size > 0 && t < |sch|
  {
    At(cfg, blank, sch, t + 1).m.clock
  }

  lemma {:induction false} FromRecordWait<B, M>(cfg: Config<B, M>, blank: Envelope<M>, sch: seq<Action>, n: nat)
    returns (t: nat)
    requires cfg.size > 0 && n <= |sch| && At(cfg, blank, sch, n).c.pc.BookStart?
    ensures var pc := At(cfg, blank, sch, n).c.pc;
      t < n && Moves(cfg, blank, sch, t, RecordWait(pc.item), pc) && pc.popTs == ClockAfter(cfg, blank, sch, t)
  {
    assert sch[..0] == [];
    StepOfConsumer(cfg, blank, sch, n);
    var before, now, a := At(cfg, blank, sch, n - 1), At(cfg, blank, sch, n), sch[n - 1];
    if a.C? {
      ConsumerReadings(cfg, before.m, before.c, a.view, a.sawDone, a.tick, now.m, now.c);
      t := n - 1;
    } else {
      t := FromRecordWait(cfg, blank, sch, n - 1);
    }
  }

  lemma {:induction false} FromBookStart<B, M>(cfg: Config<B, M>, blank: Envelope<M>, sch: seq<Action>, n: nat)
    returns (t: nat)
    requires cfg.size > 0 && n <= |sch| && At(cfg, blank, sch, n).c.pc.BookEnd?
    ensures var pc := At(cfg, blank, sch, n).c.pc;
      && t < n && Moves(cfg, blank, sch, t, BookStart(pc.item, pc.popTs), pc)
      && pc.bookStart == ClockAfter(cfg, blank, sch, t)
  {
    assert sch[..0] == [];
    StepOfConsumer(cfg, blank, sch, n);
    var before, now, a := At(cfg, blank, sch, n - 1), At(cfg, blank, sch, n), sch[n - 1];
    if a.C? {
      ConsumerReadings(cfg, before.m, before.c, a.view, a.sawDone, a.tick, now.m, now.c);
      t := n - 1;
    } else {
      t := FromBookStart(cfg, blank, sch, n - 1);
    }
  }

  lemma {:induction false} FromBookEnd<B, M>(cfg: Config<B, M>, blank: Envelope<M>, sch: seq<Action>, n: nat)
    returns (t: nat)
    requires cfg.size > 0 && n <= |sch| && At(cfg, blank, sch, n).c.pc.RecordPipeline?
    ensures var pc := At(cfg, blank, sch, n).c.pc;
      && t < n && Moves(cfg, blank, sch, t, BookEnd(pc.item, pc.popTs, pc.bookStart), pc)
      && pc.bookEnd == ClockAfter(cfg, blank, sch, t)
      && At(cfg, blank, sch, t + 1).c.book == cfg.apply(At(cfg, blank, sch, t).c.book, pc.item.message)
  {
    assert sch[..0] == [];
    StepOfConsumer(cfg, blank, sch, n);
    var before, now, a := At(cfg, blank, sch, n - 1), At(cfg, blank, sch, n), sch[n - 1];
    if a.C? {
      ConsumerReadings(cfg, before.m, before.c, a.view, a.sawDone, a.tick, now.m, now.c);
      t := n - 1;
    } else {
      t := FromBookEnd(cfg, blank, sch, n - 1);
    }
  }

  // Step t finishes an item with its last reading.
  ghost predicate Finishing<B, M>(cfg: Config<B, M>, blank: Envelope<M>, sch: seq<Action>, t: nat, k: nat, r: Readings)
    requires cfg.size > 0
  {
    && t < |sch| && |At(cfg, blank, sch, t).c.readings| == k
    && At(cfg, blank, sch, t).c.pc.RecordPipeline?
    && At(cfg, blank, sch, t).c.pc == RecordPipeline(At(cfg, blank, sch, t).c.pc.item, r.popTs, r.bookStart, r.bookEnd)
    && At(cfg, blank, sch, t + 1).c.readings == At(cfg, blank, sch, t).c.readings + [r]
    && r.end == ClockAfter(cfg, blank, sch, t)
  }

  lemma {:induction false} FinishedAt<B, M>(cfg: Config<B, M>, blank: Envelope<M>, sch: seq<Action>, n: nat, k: nat)
    returns (t: nat)
    requires cfg.size > 0 && n <= |sch| && k < |At(cfg, blank, sch, n).c.readings|
    ensures t < n && Finishing(cfg, blank, sch, t, k, At(cfg, blank, sch, n).c.readings[k])
  {
    assert sch[..0] == [];
    StepOfConsumer(cfg, blank, sch, n);
    var before, now, a := At(cfg, blank, sch, n - 1), At(cfg, blank, sch, n), sch[n - 1];
    if k < |before.c.readings| {
      if a.C? {
        ConsumerReadings(cfg, before.m, before.c, a.view, a.sawDone, a.tick, now.m, now.c);
      }
      t := FinishedAt(cfg, blank, sch, n - 1, k);
    } else {
      ConsumerReadings(cfg, before.m, before.c, a.view, a.sawDone, a.tick, now.m, now.c);
      t := n - 1;
    }
  }

  // ---- The samples are differences of the clock at these steps ----

  // What the k-th samples are: the clock when the item was popped minus that of its last push attempt,
  // the clock after the book update minus that before it, and the clock at the end minus that when the
  // producer took up the message.
  lemma SamplesAreClockDifferences<B, M>(cfg: Config<B, M>, blank: Envelope<M>, sch: seq<Action>, k: nat)
    returns (t1: nat, t2: nat, u: nat, n1: nat, n2: nat, n3: nat, n4: nat)
    requires cfg.size > 0 && At(cfg, blank, sch, |sch|).m.clock < TWO64
    requires k < |At(cfg, blank, sch, |sch|).c.pipelines|
    ensures var s := At(cfg, blank, sch, |sch|);
      && t1 < t2 < u < |sch| && n1 < n2 < n3 < n4 < |sch|
      && k < |s.m.pushed| && k < |s.c.waits| && k < |s.c.bookTimes|
      && Stamping(cfg, blank, sch, t1, k, ClockAfter(cfg, blank, sch, t1))
      && Attempting(cfg, blank, sch, t2, s.m.pushed[k]) && Publishing(cfg, blank, sch, u, k, s.m.pushed[k])
      && At(cfg, blank, sch, n1).c.pc.RecordWait? && At(cfg, blank, sch, n2).c.pc.BookStart?
      && At(cfg, blank, sch, n3).c.pc.BookEnd? && At(cfg, blank, sch, n4).c.pc.RecordPipeline?
      && s.c.waits[k] == ClockAfter(cfg, blank, sch, n1) - ClockAfter(cfg, blank, sch, t2)
      && s.c.bookTimes[k] == ClockAfter(cfg, blank, sch, n3) - ClockAfter(cfg, blank, sch, n2)
      && s.c.pipelines[k] == ClockAfter(cfg, blank, sch, n4) - ClockAfter(cfg, blank, sch, t1)
  {
    var s := At(cfg, blank, sch, |sch|);
    LatencySamples(cfg, blank, sch[..|sch|]);
    FifoAndBounded(cfg, blank, sch[..|sch|]);
    t1, t2, u := PushedStamps(cfg, blank, sch, |sch|, k);
    n4 := FinishedAt(cfg, blank, sch, |sch|, k);
    n3 := FromBookEnd(cfg, blank, sch, n4);
    n2 := FromBookStart(cfg, blank, sch, n3);
    n1 := FromRecordWait(cfg, blank, sch, n2);
    assert s.m.popped[k] == s.m.pushed[k];
  }
}
