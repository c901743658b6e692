// The lock-free pipeline: one producer and one consumer thread around the SPSC ring
// buffer, as single atomic steps; cfg.size is the number of slots, the constructor's
// capacity plus one. An acquire-load of the other side's index may return
// any value between the last one seen and the current one; reading `producer_done`
// as true makes every push before its release visible. The book is any state folded
// over the messages, so the machine covers both book classes.
module Spsc {
  import opened Market
  import opened Feeds
  import opened Latency

  datatype Envelope<M> = Envelope(message: M, producerTs: nat, pushTs: nat)

  datatype ProducerPc<M> =
    | NextMessage
    | Stamped(producerTs: nat)
    | LoadTail(env: Envelope<M>, head: nat, nextHead: nat)
    | WriteSlot(env: Envelope<M>, head: nat, nextHead: nat)
    | PublishHead(env: Envelope<M>, head: nat, nextHead: nat)
    | CountProduced
    | Done

  datatype ConsumerPc<M> =
    | TestDone
    | TestEmpty
    | Pop
    | LoadHead(tail: nat)
    | ReadSlot(tail: nat)
    | PublishTail(tail: nat, item: Envelope<M>)
    | RecordWait(item: Envelope<M>)
    | BookStart(item: Envelope<M>, popTs: nat)
    | BookEnd(item: Envelope<M>, popTs: nat, bookStart: nat)
    | RecordPipeline(item: Envelope<M>, popTs: nat, bookStart: nat, bookEnd: nat)
    | Exited

  // pushed and popped list what has been published by head and by tail so far: their lengths
  // are the unbounded counters behind the two wrapped indices.
  datatype Memory<M> = Memory(
    buffer: seq<Envelope<M>>, head: nat, tail: nat, done: bool,
    pushed: seq<Envelope<M>>, popped: seq<Envelope<M>>, headAtDone: nat, clock: nat)

  datatype Producer<M> = Producer(pc: ProducerPc<M>, seenTail: nat, next: nat, produced: nat)

  // readings keeps, for every finished item, what the clock said; the program keeps the samples only.
  datatype Consumer<B, M> = Consumer(
    pc: ConsumerPc<M>, seenHead: nat, seenDone: bool, consumed: nat, book: B,
    waits: seq<nat>, bookTimes: seq<nat>, pipelines: seq<nat>, readings: seq<Readings>)

  datatype State<B, M> = State(m: Memory<M>, p: Producer<M>, c: Consumer<B, M>)

  // One scheduled step. `view` is what an acquire-load returns, `sawDone` what the load of
  // `producer_done` returns, `tick` how far the clock has moved.
  datatype Action = P(view: nat, tick: nat) | C(view: nat, sawDone: bool, tick: nat)

  function Increment(size: nat, value: nat): nat {
    if value + 1 == size then 0 else value + 1
  }

  // A coherent load: never older than the last one seen, never newer than the memory.
  function Coherent(view: nat, seen: nat, current: nat): nat {
    if view < seen then seen else if view > current then current else view
  }

  function Init<B, M>(cfg: Config<B, M>, blank: Envelope<M>): State<B, M> {
    State(Memory(seq(cfg.size, _ => blank), 0, 0, false, [], [], 0, 0),
          Producer(NextMessage, 0, 0, 0),
          Consumer(TestDone, 0, false, 0, cfg.book0, [], [], [], []))
  }

  function ProducerStep<B, M>(cfg: Config<B, M>, m: Memory<M>, p: Producer<M>, view: nat, tick: nat): (Memory<M>,
                              Producer<M>)
    requires cfg.size > 0
  {
    var now := m.clock + tick;
    match p.pc
    case NextMessage =>
      if p.next < |cfg.msgs| then (m.(clock := now), p.(pc := Stamped(now)))
      else (m.(done := true, headAtDone := |m.pushed|), p.(pc := Done))
    case Stamped(ts) =>
      if p.next < |cfg.msgs| then
        (m.(clock := now),
         p.(pc := LoadTail(Envelope(cfg.msgs[p.next], ts, now), m.head, Increment(cfg.size, m.head))))
      else (m, p)
    case LoadTail(env, head, nextHead) =>
      var t := Coherent(view, p.seenTail, |m.popped|);
      (m, p.(seenTail := t,
             pc := if nextHead == t % cfg.size then Stamped(env.producerTs) else WriteSlot(env, head, nextHead)))
    case WriteSlot(env, head, nextHead) =>
      if head < |m.buffer| then (m.(buffer := m.buffer[head := env]), p.(pc := PublishHead(env, head, nextHead)))
      else (m, p)
    case PublishHead(env, head, nextHead) =>
      (m.(head := nextHead, pushed := m.pushed + [env]), p.(pc := CountProduced))
    case CountProduced =>
      (m, p.(produced := p.produced + 1, next := p.next + 1, pc := NextMessage))
    case Done => (m, p)
  }

  function ConsumerStep<B, M>(cfg: Config<B, M>, m: Memory<M>, c: Consumer<B, M>, view: nat, sawDone: bool, tick: nat)
    : (Memory<M>, Consumer<B, M>)
    requires cfg.size > 0
  {
    match c.pc
    case TestDone =>
      if m.done && (sawDone || c.seenDone) then
        (m, c.(seenDone := true, seenHead := Coherent(m.headAtDone, c.seenHead, |m.pushed|), pc := TestEmpty))
      else (m, c.(pc := Pop))
    case TestEmpty =>
      var h := Coherent(view, c.seenHead, |m.pushed|);
      (m, c.(seenHead := h, pc := if h % cfg.size == m.tail then Exited else Pop))
    case Pop => (m, c.(pc := LoadHead(m.tail)))
    case LoadHead(tail) =>
      var h := Coherent(view, c.seenHead, |m.pushed|);
      (m, c.(seenHead := h, pc := if tail == h % cfg.size then TestDone else ReadSlot(tail)))
    case ReadSlot(tail) =>
      if tail < |m.buffer| then (m, c.(pc := PublishTail(tail, m.buffer[tail]))) else (m, c)
    case PublishTail(tail, item) =>
      (m.(tail := Increment(cfg.size, tail), popped := m.popped + [item]), c.(pc := RecordWait(item)))
    case Exited => (m, c)
    case _ =>
      var now := m.clock + tick;
      (m.(clock := now), Process(cfg, c, now))
  }

  // What the consumer does with a popped item: four clock readings, three samples, one book update.
  function Process<B, M>(cfg: Config<B, M>, c: Consumer<B, M>, now: nat): Consumer<B, M> {
    match c.pc
    case RecordWait(item) =>
      c.(waits := c.waits + [Minus64(now, item.pushTs)], pc := BookStart(item, now))
    case BookStart(item, popTs) =>
      c.(pc := BookEnd(item, popTs, now))
    case BookEnd(item, popTs, bookStart) =>
      c.(book := cfg.apply(c.book, item.message), bookTimes := c.bookTimes + [Minus64(now, bookStart)],
         pc := RecordPipeline(item, popTs, bookStart, now))
    case RecordPipeline(item, popTs, bookStart, bookEnd) =>
      c.(pipelines := c.pipelines + [Minus64(now, item.producerTs)], consumed := c.consumed + 1, pc := TestDone,
         readings := c.readings + [Readings(popTs, bookStart, bookEnd, now)])
    case _ => c
  }

  function Step<B, M>(cfg: Config<B, M>, s: State<B, M>, a: Action): State<B, M>
    requires cfg.size > 0
  {
    match a
    case P(view, tick) => var r := ProducerStep(cfg, s.m, s.p, view, tick); s.(m := r.0, p := r.1)
    case C(view, sawDone, tick) => var r := ConsumerStep(cfg, s.m, s.c, view, sawDone, tick); s.(m := r.0, c := r.1)
  }

  function Exec<B, M>(cfg: Config<B, M>, s: State<B, M>, schedule: seq<Action>): State<B, M>
    requires cfg.size > 0
  {
    if schedule == [] then s
    else Step(cfg, Exec(cfg, s, schedule[..|schedule| - 1]), schedule[|schedule| - 1])
  }

  // ---- Wrapped indices ----

  lemma DistinctMod(a: nat, b: nat, n: nat)
    requires a < b < a + n
    ensures a % n != b % n
  {
    var q := b / n - a / n;
    assert b - a == n * (b / n) - n * (a / n) + (b % n - a % n);
    assert n * (b / n) - n * (a / n) == n * q;
    assert q >= 1 ==> n * q >= n;
    assert q <= 0 ==> n * q <= 0;
  }

  lemma IncrementMod(k: nat, n: nat)
    requires n > 0
    ensures Increment(n, k % n) == (k + 1) % n
  {
    var q, r := k / n, k % n;
    assert k + 1 == n * q + (r + 1);
    if r + 1 == n {
      assert k + 1 == n * (q + 1);
      MultipleMod(q + 1, 0, n);
    } else {
      MultipleMod(q, r + 1, n);
    }
  }

  lemma {:induction false} MultipleMod(q: nat, r: nat, n: nat)
    requires r < n
    ensures (n * q + r) % n == r
  {
    var x := n * q + r;
    var q' := x / n;
    assert x == n * q' + x % n;
    assert n * (q - q') == x % n - r;
    assert q - q' >= 1 ==> n * (q - q') >= n;
    assert q - q' <= -1 ==> n * (q' - q) >= n;
  }

  // ---- The invariant ----

  // The ring: wrapped indices stand for the counters, and the slots from tail to head hold
  // exactly what is pushed and not popped.
  ghost predicate Ring<B, M>(cfg: Config<B, M>, m: Memory<M>) {
    && cfg.size == |m.buffer| > 0
    && m.head == |m.pushed| % cfg.size && m.tail == |m.popped| % cfg.size
    && |m.popped| <= |m.pushed| <= |cfg.msgs| && |m.pushed| <= |m.popped| + cfg.size - 1
    && m.popped == m.pushed[..|m.popped|]
    && (forall k :: 0 <= k < |m.pushed| ==> m.pushed[k].message == cfg.msgs[k])
    && (forall k :: |m.popped| <= k < |m.pushed| ==> m.buffer[k % cfg.size] == m.pushed[k])
  }

  ghost predicate Loaded<B, M>(cfg: Config<B, M>, m: Memory<M>, p: Producer<M>) {
    && cfg.size > 0 && !p.pc.NextMessage? && !p.pc.Stamped? && !p.pc.CountProduced? && !p.pc.Done?
    && p.next == p.produced == |m.pushed| < |cfg.msgs|
    && p.pc.env.message == cfg.msgs[p.next] && p.pc.env.producerTs <= p.pc.env.pushTs <= m.clock
    && p.pc.head == |m.pushed| % cfg.size && p.pc.nextHead == (|m.pushed| + 1) % cfg.size
  }

  // The producer's view of tail is old but coherent, and conservative: what it has seen free is free.
  ghost predicate ProducerInv<B, M>(cfg: Config<B, M>, m: Memory<M>, p: Producer<M>) {
    && p.seenTail <= |m.popped| && |m.pushed| <= p.seenTail + cfg.size - 1
    && (m.done <==> p.pc.Done?)
    && match p.pc
       case NextMessage => p.next == p.produced == |m.pushed| <= |cfg.msgs|
       case Stamped(ts) => p.next == p.produced == |m.pushed| < |cfg.msgs| && ts <= m.clock
       case LoadTail(env, head, nextHead) => Loaded(cfg, m, p)
       case WriteSlot(env, head, nextHead) => Loaded(cfg, m, p) && |m.pushed| <= p.seenTail + cfg.size - 2
       case PublishHead(env, head, nextHead) => Loaded(cfg, m, p) && |m.pushed| <= p.seenTail + cfg.size - 2
         && head < |m.buffer| && m.buffer[head] == env
       case CountProduced => p.next == p.produced && p.produced + 1 == |m.pushed| <= |cfg.msgs|
       case Done => p.next == p.produced == |m.pushed| == |cfg.msgs| == m.headAtDone
  }

  // Between two items: everything popped so far has been applied and counted.
  ghost predicate Settled<B, M>(cfg: Config<B, M>, m: Memory<M>, c: Consumer<B, M>) {
    c.consumed == |m.popped| <= |cfg.msgs| && c.book == BookAfter(cfg, |m.popped|)
  }

  // With the last popped item in hand, applied to the book or not yet.
  ghost predicate InHand<B, M>(cfg: Config<B, M>, m: Memory<M>, c: Consumer<B, M>, item: Envelope<M>, applied: bool) {
    && 0 < |m.popped| <= |cfg.msgs| && item == m.popped[|m.popped| - 1]
    && c.consumed == |m.popped| - 1
    && c.book == BookAfter(cfg, if applied then |m.popped| else |m.popped| - 1)
  }

  ghost predicate ConsumerInv<B, M>(cfg: Config<B, M>, m: Memory<M>, c: Consumer<B, M>) {
    && |m.popped| <= c.seenHead <= |m.pushed|
    && match c.pc
       case TestDone => Settled(cfg, m, c)
       case TestEmpty => Settled(cfg, m, c) && m.done && c.seenHead == |cfg.msgs|
       case Pop => Settled(cfg, m, c)
       case LoadHead(tail) => Settled(cfg, m, c) && tail == m.tail
       case ReadSlot(tail) => Settled(cfg, m, c) && tail == m.tail && |m.popped| < c.seenHead
       case PublishTail(tail, item) => Settled(cfg, m, c) && tail == m.tail && |m.popped| < c.seenHead
         && item == m.pushed[|m.popped|]
       case RecordWait(item) => InHand(cfg, m, c, item, false)
       case BookStart(item, popTs) => InHand(cfg, m, c, item, false)
       case BookEnd(item, popTs, bookStart) => InHand(cfg, m, c, item, false)
       case RecordPipeline(item, popTs, bookStart, bookEnd) => InHand(cfg, m, c, item, true)
       case Exited => Settled(cfg, m, c) && m.done && |m.popped| == |cfg.msgs|
  }

  ghost predicate Inv<B, M>(cfg: Config<B, M>, s: State<B, M>) {
    Ring(cfg, s.m) && ProducerInv(cfg, s.m, s.p) && ConsumerInv(cfg, s.m, s.c)
  }

  lemma InitInv<B, M>(cfg: Config<B, M>, blank: Envelope<M>)
    requires cfg.size > 0
    ensures Inv(cfg, Init(cfg, blank))
  {}

  // A stale tail is conservative, and the wrapped comparison decides "full" for it exactly.
  lemma FullTest(pushed: nat, seen: nat, size: nat)
    requires size > 0 && seen <= pushed <= seen + size - 1
    ensures (pushed + 1) % size == seen % size <==> pushed == seen + size - 1
  {
    if pushed == seen + size - 1 {
      var q, r := seen / size, seen % size;
      assert pushed + 1 == size * (q + 1) + r;
      MultipleMod(q + 1, r, size);
    } else {
      DistinctMod(seen, pushed + 1, size);
    }
  }

  // Likewise a stale head for "empty".
  lemma EmptyTest(popped: nat, seen: nat, size: nat)
    requires size > 0 && popped <= seen <= popped + size - 1
    ensures popped % size == seen % size <==> popped == seen
  {
    if popped < seen {
      DistinctMod(popped, seen, size);
    }
  }

  lemma ProducerKeepsRing<B, M>(cfg: Config<B, M>, m: Memory<M>, p: Producer<M>, view: nat, tick: nat)
    requires Ring(cfg, m) && ProducerInv(cfg, m, p)
    ensures Ring(cfg, ProducerStep(cfg, m, p, view, tick).0)
  {
    var m' := ProducerStep(cfg, m, p, view, tick).0;
    if p.pc.WriteSlot? {
      forall k | |m.popped| <= k < |m.pushed| ensures m'.buffer[k % cfg.size] == m.pushed[k] {
        DistinctMod(k, |m.pushed|, cfg.size);
      }
    } else if p.pc.PublishHead? {
      assert m'.popped == m'.pushed[..|m'.popped|];
    }
  }

  lemma ProducerKeepsItself<B, M>(cfg: Config<B, M>, m: Memory<M>, p: Producer<M>, view: nat, tick: nat)
    requires Ring(cfg, m) && ProducerInv(cfg, m, p)
    ensures var r := ProducerStep(cfg, m, p, view, tick); ProducerInv(cfg, r.0, r.1)
  {
    if p.pc.Stamped? {
      IncrementMod(|m.pushed|, cfg.size);
    } else if p.pc.LoadTail? {
      FullTest(|m.pushed|, Coherent(view, p.seenTail, |m.popped|), cfg.size);
    }
  }

  // What a producer step may change under the consumer's feet, and vice versa.
  lemma ProducerKeepsConsumer<B, M>(cfg: Config<B, M>, m: Memory<M>, p: Producer<M>, c: Consumer<B, M>, view: nat,
                                    tick: nat)
    requires Ring(cfg, m) && ProducerInv(cfg, m, p) && ConsumerInv(cfg, m, c)
    ensures ConsumerInv(cfg, ProducerStep(cfg, m, p, view, tick).0, c)
  {
    var m' := ProducerStep(cfg, m, p, view, tick).0;
    assert m'.popped == m.popped && m'.tail == m.tail && m.pushed <= m'.pushed && (m.done ==> m'.done);
  }

  lemma ConsumerKeepsRing<B, M>(cfg: Config<B, M>, m: Memory<M>, c: Consumer<B, M>, view: nat, sawDone: bool, tick: nat)
    requires Ring(cfg, m) && ConsumerInv(cfg, m, c)
    ensures Ring(cfg, ConsumerStep(cfg, m, c, view, sawDone, tick).0)
  {
    if c.pc.PublishTail? {
      IncrementMod(|m.popped|, cfg.size);
    }
  }

  predicate Processing<M>(pc: ConsumerPc<M>) {
    pc.RecordWait? || pc.BookStart? || pc.BookEnd? || pc.RecordPipeline?
  }

  lemma ProcessingStep<B, M>(cfg: Config<B, M>, m: Memory<M>, c: Consumer<B, M>, view: nat, sawDone: bool, tick: nat)
    requires Processing(c.pc) && cfg.size > 0
    ensures ConsumerStep(cfg, m, c, view, sawDone, tick)
         == (m.(clock := m.clock + tick), Process(cfg, c, m.clock + tick))
  {}

  lemma ProcessKeepsItself<B, M>(cfg: Config<B, M>, m: Memory<M>, c: Consumer<B, M>, now: nat)
    requires Processing(c.pc) && Ring(cfg, m) && ConsumerInv(cfg, m, c)
    ensures ConsumerInv(cfg, m.(clock := now), Process(cfg, c, now))
  {}

  lemma PopKeepsItself<B, M>(cfg: Config<B, M>, m: Memory<M>, p: Producer<M>, c: Consumer<B, M>, view: nat,
                             sawDone: bool, tick: nat)
    requires !Processing(c.pc) && Ring(cfg, m) && ProducerInv(cfg, m, p) && ConsumerInv(cfg, m, c)
    ensures var r := ConsumerStep(cfg, m, c, view, sawDone, tick); ConsumerInv(cfg, r.0, r.1)
  {
    if c.pc.TestEmpty? || c.pc.LoadHead? {
      EmptyTest(|m.popped|, Coherent(view, c.seenHead, |m.pushed|), cfg.size);
    }
  }

  lemma ConsumerKeepsItself<B, M>(cfg: Config<B, M>, m: Memory<M>, p: Producer<M>, c: Consumer<B, M>, view: nat,
                                  sawDone: bool, tick: nat)
    requires Ring(cfg, m) && ProducerInv(cfg, m, p) && ConsumerInv(cfg, m, c)
    ensures var r := ConsumerStep(cfg, m, c, view, sawDone, tick); ConsumerInv(cfg, r.0, r.1)
  {
    if Processing(c.pc) {
      ProcessingStep(cfg, m, c, view, sawDone, tick);
      ProcessKeepsItself(cfg, m, c, m.clock + tick);
    } else {
      PopKeepsItself(cfg, m, p, c, view, sawDone, tick);
    }
  }

  lemma ConsumerKeepsProducer<B, M>(cfg: Config<B, M>, m: Memory<M>, p: Producer<M>, c: Consumer<B, M>, view: nat,
                                    sawDone: bool, tick: nat)
    requires Ring(cfg, m) && ProducerInv(cfg, m, p)
    ensures ProducerInv(cfg, ConsumerStep(cfg, m, c, view, sawDone, tick).0, p)
  {
    var m' := ConsumerStep(cfg, m, c, view, sawDone, tick).0;
    assert m'.pushed == m.pushed && m'.buffer == m.buffer && m'.done == m.done && m'.clock >= m.clock;
    assert m'.headAtDone == m.headAtDone && |m'.popped| >= |m.popped|;
  }

  lemma StepKeepsInv<B, M>(cfg: Config<B, M>, s: State<B, M>, a: Action)
    requires Inv(cfg, s)
    ensures Inv(cfg, Step(cfg, s, a))
  {
    match a
    case P(view, tick) =>
      ProducerKeepsRing(cfg, s.m, s.p, view, tick);
      ProducerKeepsItself(cfg, s.m, s.p, view, tick);
      ProducerKeepsConsumer(cfg, s.m, s.p, s.c, view, tick);
    case C(view, sawDone, tick) =>
      ConsumerKeepsRing(cfg, s.m, s.c, view, sawDone, tick);
      ConsumerKeepsItself(cfg, s.m, s.p, s.c, view, sawDone, tick);
      ConsumerKeepsProducer(cfg, s.m, s.p, s.c, view, sawDone, tick);
  }

  lemma {:induction false} Safety<B, M>(cfg: Config<B, M>, blank: Envelope<M>, schedule: seq<Action>)
    requires cfg.size > 0
    ensures Inv(cfg, Exec(cfg, Init(cfg, blank), schedule))
  {
    if schedule == [] {
      InitInv(cfg, blank);
    } else {
      var init, last := schedule[..|schedule| - 1], schedule[|schedule| - 1];
      Safety(cfg, blank, init);
      StepKeepsInv(cfg, Exec(cfg, Init(cfg, blank), init), last);
    }
  }

  // ---- What holds in every interleaving ----

  ghost predicate CarriesFirst<B, M>(cfg: Config<B, M>, items: seq<Envelope<M>>) {
    |items| <= |cfg.msgs| && forall k :: 0 <= k < |items| ==> items[k].message == cfg.msgs[k]
  }

  // The queue is FIFO and bounded by capacity(): what is popped is a prefix of what is pushed,
  // the slots from tail to head hold the rest, and both are prefixes of the generated messages.
  lemma FifoAndBounded<B, M>(cfg: Config<B, M>, blank: Envelope<M>, schedule: seq<Action>)
    requires cfg.size > 0
    ensures var m := Exec(cfg, Init(cfg, blank), schedule).m;
      && m.popped <= m.pushed && CarriesFirst(cfg, m.pushed) && CarriesFirst(cfg, m.popped)
      && |m.pushed| - |m.popped| <= cfg.size - 1
      && |m.buffer| == cfg.size
      && forall k :: |m.popped| <= k < |m.pushed| ==> m.buffer[k % cfg.size] == m.pushed[k]
  {
    Safety(cfg, blank, schedule);
  }

  // No slot is written while it may be read: the two threads are never at the same slot, and each
  // access has acquired the release that hands the slot over - the pop of the item that was in it
  // before the write, the push of the item in it before the read.
  lemma SlotAccessesAreOrdered<B, M>(cfg: Config<B, M>, blank: Envelope<M>, schedule: seq<Action>)
    requires cfg.size > 0
    ensures var s := Exec(cfg, Init(cfg, blank), schedule);
      && (s.p.pc.WriteSlot? && s.c.pc.ReadSlot? ==> s.p.pc.head != s.c.pc.tail)
      && (s.p.pc.WriteSlot? ==> s.p.pc.head == |s.m.pushed| % cfg.size && |s.m.pushed| - cfg.size < s.p.seenTail)
      && (s.c.pc.ReadSlot? ==> s.c.pc.tail == |s.m.popped| % cfg.size && |s.m.popped| < s.c.seenHead)
  {
    Safety(cfg, blank, schedule);
    var s := Exec(cfg, Init(cfg, blank), schedule);
    if s.p.pc.WriteSlot? && s.c.pc.ReadSlot? {
      DistinctMod(|s.m.popped|, |s.m.pushed|, cfg.size);
    }
  }

  // At any moment the book is the fold of what has been applied; when the consumer has left its
  // loop it has applied every message exactly once and in order.
  lemma PipelineIsFold<B, M>(cfg: Config<B, M>, blank: Envelope<M>, schedule: seq<Action>)
    requires cfg.size > 0
    ensures var s := Exec(cfg, Init(cfg, blank), schedule);
      && s.c.consumed <= s.p.produced + 1 <= |cfg.msgs| + 1
      && (s.c.pc.TestDone? ==> s.c.consumed <= |cfg.msgs| && s.c.book == BookAfter(cfg, s.c.consumed))
      && (s.c.pc.Exited? ==>
            && s.c.consumed == s.p.produced == |s.m.popped| == |s.m.pushed| == |cfg.msgs|
            && CarriesFirst(cfg, s.m.popped)
            && s.c.book == BookAfter(cfg, |cfg.msgs|))
  {
    Safety(cfg, blank, schedule);
  }
}
