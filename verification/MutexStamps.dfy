// Where the time stamps and clock readings of the mutex-queue pipeline come from: every one of them is
// the clock of the very step of the run that the program takes it at.
module MutexStamps {
  import opened Market
  import opened Feeds
  import opened Latency
  import opened MutexTiming
  import P = MutexPipeline

  // The state after the first t steps of the schedule.
  function At<B, M>(cfg: Config<B, M>, sch: seq<Action>, t: nat): State<B, M>
    requires t <= |sch|
  {
    Exec(cfg, sch[..t])
  }

  function ClockAfter<B, M>(cfg: Config<B, M>, sch: seq<Action>, t: nat): nat
    requires t < |sch|
  {
    At(cfg, sch, t + 1).clock
  }

  lemma NextState<B, M>(cfg: Config<B, M>, sch: seq<Action>, t: nat)
    requires t < |sch|
    ensures At(cfg, sch, t + 1) == Step(cfg, At(cfg, sch, t), sch[t])
  {
    assert sch[..t + 1][..t] == sch[..t];
  }

  lemma InvAt<B, M>(cfg: Config<B, M>, sch: seq<Action>, t: nat)
    requires t <= |sch|
    ensures Inv(cfg, At(cfg, sch, t))
  {
    TimeSafety(cfg, sch[..t]);
  }

  // ---- The producer ----

  // Step t takes the producer timestamp of message k.
  ghost predicate Stamping<B, M>(cfg: Config<B, M>, sch: seq<Action>, t: nat, k: nat, ts: nat) {
    && t < |sch| && sch[t].Producer?
    && At(cfg, sch, t).p.sent == k && At(cfg, sch, t).current.None?
    && At(cfg, sch, t + 1).current == Some(ts) && ts == ClockAfter(cfg, sch, t)
  }

  // Step t, a critical section, accepts item k and takes its push timestamp.
  ghost predicate Accepting<B, M>(cfg: Config<B, M>, sch: seq<Action>, t: nat, k: nat, pushTs: nat) {
    && t < |sch| && sch[t].Producer?
    && |At(cfg, sch, t).p.q.accepted| == k && |At(cfg, sch, t + 1).p.q.accepted| == k + 1
    && pushTs == ClockAfter(cfg, sch, t)
  }

  // What any step does to the timestamp of the message at hand, and to the stamps of the accepted items.
  lemma StampStep<B, M>(cfg: Config<B, M>, s: State<B, M>, a: Action, s': State<B, M>)
    requires Inv(cfg, s) && s' == Step(cfg, s, a)
    ensures s'.current.Some? ==>
      (s'.current == s.current && s'.p.sent == s.p.sent)
      || (a.Producer? && s.current.None? && s'.current.value == s'.clock && s'.p.sent == s.p.sent)
    ensures s'.stamps == s.stamps
      || (a.Producer? && s.current.Some? && s'.stamps == s.stamps + [Stamp(s.current.value, s'.clock)]
          && |s'.p.q.accepted| == |s.p.q.accepted| + 1)
    ensures |s.stamps| == |s.p.q.accepted| == s.p.sent
  {
    match a
    case Producer(tick) => PushGrows(cfg, s.p, P.Step(cfg, s.p, P.Producer));
    case Consumer(tick) => PopGrows(cfg, s.p, P.Step(cfg, s.p, P.Consumer)); ConsumerKeepsSent(cfg, s.p);
    case Wakeup(t) =>
  }

  lemma ConsumerKeepsSent<B, M>(cfg: Config<B, M>, p: P.State<B, M>)
    requires P.Inv(cfg, p)
    ensures P.Step(cfg, p, P.Consumer).sent == p.sent
  {}

  // The same along a run.
  lemma StampsAt<B, M>(cfg: Config<B, M>, sch: seq<Action>, n: nat)
    requires 0 < n <= |sch|
    ensures var s, s', a := At(cfg, sch, n - 1), At(cfg, sch, n), sch[n - 1];
      && (s'.current.Some? ==>
            (s'.current == s.current && s'.p.sent == s.p.sent)
            || (a.Producer? && s.current.None? && s'.current.value == s'.clock && s'.p.sent == s.p.sent))
      && (s'.stamps == s.stamps
          || (a.Producer? && s.current.Some? && s'.stamps == s.stamps + [Stamp(s.current.value, s'.clock)]
              && |s'.p.q.accepted| == |s.p.q.accepted| + 1))
      && |s.stamps| == |s.p.q.accepted| == s.p.sent
  {
    NextState(cfg, sch, n - 1);
    InvAt(cfg, sch, n - 1);
    StampStep(cfg, At(cfg, sch, n - 1), sch[n - 1], At(cfg, sch, n));
  }

  lemma NothingAtFirst<B, M>(cfg: Config<B, M>, sch: seq<Action>)
    ensures var s := At(cfg, sch, 0);
      s.current.None? && s.stamps == [] && s.r.phase.Popping? && s.r.readings == []
  {
    assert sch[..0] == [];
  }

  lemma {:induction false} StampFrom<B, M>(cfg: Config<B, M>, sch: seq<Action>, n: nat) returns (t: nat)
    requires n <= |sch| && At(cfg, sch, n).current.Some?
    ensures t < n && Stamping(cfg, sch, t, At(cfg, sch, n).p.sent, At(cfg, sch, n).current.value)
  {
    NothingAtFirst(cfg, sch);
    StampsAt(cfg, sch, n);
    var before := At(cfg, sch, n - 1);
    if before.current.None? {
      t := n - 1;
    } else {
      t := StampFrom(cfg, sch, n - 1);
    }
  }

  // The producer timestamp of every accepted item is the clock of the step that took up its message, and
  // its push timestamp the clock of the critical section that accepted it.
  lemma {:induction false} AcceptedStamps<B, M>(cfg: Config<B, M>, sch: seq<Action>, n: nat, k: nat)
    returns (t1: nat, t2: nat)
    requires n <= |sch| && k < |At(cfg, sch, n).stamps|
    ensures var stamp := At(cfg, sch, n).stamps[k];
      t1 < t2 < n && Stamping(cfg, sch, t1, k, stamp.producerTs) && Accepting(cfg, sch, t2, k, stamp.pushTs)
  {
    NothingAtFirst(cfg, sch);
    StampsAt(cfg, sch, n);
    var before := At(cfg, sch, n - 1);
    if k < |before.stamps| {
      t1, t2 := AcceptedStamps(cfg, sch, n - 1, k);
    } else {
      t2 := n - 1;
      t1 := StampFrom(cfg, sch, t2);
    }
  }

  // ---- The consumer ----

  lemma ReadingStep<B, M>(cfg: Config<B, M>, s: State<B, M>, a: Action, s': State<B, M>)
    requires s' == Step(cfg, s, a)
    ensures s'.r.phase.BookStart? ==>
      s'.r.phase == s.r.phase || (s.r.phase.RecordWait? && s'.r.phase.popTs == s'.clock)
    ensures s'.r.phase.BookEnd? ==>
      s'.r.phase == s.r.phase || (s.r.phase == BookStart(s'.r.phase.popTs) && s'.r.phase.bookStart == s'.clock)
    ensures s'.r.phase.RecordPipeline? ==>
      s'.r.phase == s.r.phase
      || (s.r.phase == BookEnd(s'.r.phase.popTs, s'.r.phase.bookStart) && s'.r.phase.bookEnd == s'.clock)
    ensures s'.r.readings == s.r.readings
      || (s.r.phase.RecordPipeline?
          && s'.r.readings
             == s.r.readings + [Readings(s.r.phase.popTs, s.r.phase.bookStart, s.r.phase.bookEnd, s'.clock)])
  {}

  // The same along a run.
  lemma ReadingsAt<B, M>(cfg: Config<B, M>, sch: seq<Action>, n: nat)
    requires 0 < n <= |sch|
    ensures var r, r', clock := At(cfg, sch, n - 1).r, At(cfg, sch, n).r, At(cfg, sch, n).clock;
      && (r'.phase.BookStart? ==> r'.phase == r.phase || (r.phase.RecordWait? && r'.phase.popTs == clock))
      && (r'.phase.BookEnd? ==>
            r'.phase == r.phase || (r.phase == BookStart(r'.phase.popTs) && r'.phase.bookStart == clock))
      && (r'.phase.RecordPipeline? ==>
            r'.phase == r.phase
            || (r.phase == BookEnd(r'.phase.popTs, r'.phase.bookStart) && r'.phase.bookEnd == clock))
      && (r'.readings == r.readings
          || (r.phase.RecordPipeline?
              && r'.readings
                 == r.readings + [Readings(r.phase.popTs, r.phase.bookStart, r.phase.bookEnd, clock)]))
  {
    NextState(cfg, sch, n - 1);
    ReadingStep(cfg, At(cfg, sch, n - 1), sch[n - 1], At(cfg, sch, n));
  }

  ghost predicate Moves<B, M>(cfg: Config<B, M>, sch: seq<Action>, t: nat, phase: Phase, phase': Phase) {
    t < |sch| && At(cfg, sch, t).r.phase == phase && At(cfg, sch, t + 1).r.phase == phase'
  }

  lemma {:induction false} FromRecordWait<B, M>(cfg: Config<B, M>, sch: seq<Action>, n: nat) returns (t: nat)
    requires n <= |sch| && At(cfg, sch, n).r.phase.BookStart?
    ensures var phase := At(cfg, sch, n).r.phase;
      t < n && Moves(cfg, sch, t, RecordWait, phase) && phase.popTs == ClockAfter(cfg, sch, t)
  {
    NothingAtFirst(cfg, sch);
    ReadingsAt(cfg, sch, n);
    if At(cfg, sch, n - 1).r.phase.RecordWait? {
      t := n - 1;
    } else {
      t := FromRecordWait(cfg, sch, n - 1);
    }
  }

  lemma {:induction false} FromBookStart<B, M>(cfg: Config<B, M>, sch: seq<Action>, n: nat) returns (t: nat)
    requires n <= |sch| && At(cfg, sch, n).r.phase.BookEnd?
    ensures var phase := At(cfg, sch, n).r.phase;
      t < n && Moves(cfg, sch, t, BookStart(phase.popTs), phase) && phase.bookStart == ClockAfter(cfg, sch, t)
  {
    NothingAtFirst(cfg, sch);
    ReadingsAt(cfg, sch, n);
    if At(cfg, sch, n - 1).r.phase.BookStart? {
      t := n - 1;
    } else {
      t := FromBookStart(cfg, sch, n - 1);
    }
  }

  lemma {:induction false} FromBookEnd<B, M>(cfg: Config<B, M>, sch: seq<Action>, n: nat) returns (t: nat)
    requires n <= |sch| && At(cfg, sch, n).r.phase.RecordPipeline?
    ensures var phase := At(cfg, sch, n).r.phase;
      t < n && Moves(cfg, sch, t, BookEnd(phase.popTs, phase.bookStart), phase)
      && phase.bookEnd == ClockAfter(cfg, sch, t)
  {
    NothingAtFirst(cfg, sch);
    ReadingsAt(cfg, sch, n);
    if At(cfg, sch, n - 1).r.phase.BookEnd? {
      t := n - 1;
    } else {
      t := FromBookEnd(cfg, sch, n - 1);
    }
  }

  // Step t finishes an item with its last reading.
  ghost predicate Finishing<B, M>(cfg: Config<B, M>, sch: seq<Action>, t: nat, k: nat, r: Readings) {
    && t < |sch| && |At(cfg, sch, t).r.readings| == k
    && At(cfg, sch, t).r.phase == RecordPipeline(r.popTs, r.bookStart, r.bookEnd)
    && At(cfg, sch, t + 1).r.readings == At(cfg, sch, t).r.readings + [r] && r.end == ClockAfter(cfg, sch, t)
  }

  lemma {:induction false} FinishedAt<B, M>(cfg: Config<B, M>, sch: seq<Action>, n: nat, k: nat) returns (t: nat)
    requires n <= |sch| && k < |At(cfg, sch, n).r.readings|
    ensures t < n && Finishing(cfg, sch, t, k, At(cfg, sch, n).r.readings[k])
  {
    NothingAtFirst(cfg, sch);
    ReadingsAt(cfg, sch, n);
    if k < |At(cfg, sch, n - 1).r.readings| {
      t := FinishedAt(cfg, sch, n - 1, k);
    } else {
      t := n - 1;
    }
  }

  // ---- The samples are differences of the clock at these steps ----

  // What the k-th samples are: the clock when the item was popped minus that of the critical section
  // that accepted it, the clock after the book update minus that before it, and the clock at the end
  // minus that when the producer took up the message.
  lemma SamplesAreClockDifferences<B, M>(cfg: Config<B, M>, sch: seq<Action>, k: nat)
    returns (t1: nat, t2: nat, n1: nat, n2: nat, n3: nat, n4: nat)
    requires At(cfg, sch, |sch|).clock < TWO64 && k < |At(cfg, sch, |sch|).r.pipelines|
    ensures var s := At(cfg, sch, |sch|);
      && t1 < t2 < |sch| && n1 < n2 < n3 < n4 < |sch|
      && k < |s.r.waits| && k < |s.r.bookTimes|
      && Stamping(cfg, sch, t1, k, ClockAfter(cfg, sch, t1)) && Accepting(cfg, sch, t2, k, ClockAfter(cfg, sch, t2))
      && At(cfg, sch, n1).r.phase.RecordWait? && At(cfg, sch, n2).r.phase.BookStart?
      && At(cfg, sch, n3).r.phase.BookEnd? && At(cfg, sch, n4).r.phase.RecordPipeline?
      && s.r.waits[k] == ClockAfter(cfg, sch, n1) - ClockAfter(cfg, sch, t2)
      && s.r.bookTimes[k] == ClockAfter(cfg, sch, n3) - ClockAfter(cfg, sch, n2)
      && s.r.pipelines[k] == ClockAfter(cfg, sch, n4) - ClockAfter(cfg, sch, t1)
  {
    LatencySamples(cfg, sch[..|sch|]);
    t1, t2 := AcceptedStamps(cfg, sch, |sch|, k);
    n4 := FinishedAt(cfg, sch, |sch|, k);
    n3 := FromBookEnd(cfg, sch, n4);
    n2 := FromBookStart(cfg, sch, n3);
    n1 := FromRecordWait(cfg, sch, n2);
  }
}
