// The bounded queue under one mutex with two condition variables, for any number of
// threads that may push, pop and close. A step is one critical section, from taking the
// lock to releasing it or going to wait; a woken thread takes the lock again and
// re-tests its predicate, and any other thread may get there first.
module MutexQueue {
  datatype Thread<T> =
    | Idle
    | PushParked(item: T)
    | PushWoken(item: T)
    | PopParked
    | PopWoken
    | NotifyConsumers
    | NotifyProducers

  datatype Kind = Idles | PushParks | PushWakes | PopParks | PopWakes | ConsumerNotifiers | ProducerNotifiers

  function KindOf<T>(t: Thread<T>): Kind {
    match t
    case Idle => Idles
    case PushParked(_) => PushParks
    case PushWoken(_) => PushWakes
    case PopParked => PopParks
    case PopWoken => PopWakes
    case NotifyConsumers => ConsumerNotifiers
    case NotifyProducers => ProducerNotifiers
  }

  // accepted, dropped, popped and refused record what the calls did, in lock order;
  // acceptedAtClose is the number of items accepted when the flag was first set.
  datatype State<T> = State(
    capacity: nat, queue: seq<T>, closed: bool, threads: seq<Thread<T>>,
    accepted: seq<T>, popped: seq<T>, dropped: nat, refused: nat, acceptedAtClose: nat)

  datatype Action<T> =
    | Push(t: nat, item: T, wake: nat)
    | Pop(t: nat, wake: nat)
    | Close(t: nat)
    | Resume(t: nat, wake: nat)
    | Spurious(t: nat)

  function Init<T>(capacity: nat, n: nat): State<T> {
    State(capacity, [], false, seq(n, _ => Idle), [], [], 0, 0, 0)
  }

  function Wake<T>(t: Thread<T>): Thread<T> {
    match t
    case PushParked(item) => PushWoken(item)
    case PopParked => PopWoken
    case _ => t
  }

  function FirstOf<T>(threads: seq<Thread<T>>, k: Kind): (i: nat)
    ensures i <= |threads|
    ensures i < |threads| ==> KindOf(threads[i]) == k
    ensures i == |threads| ==> forall j :: 0 <= j < |threads| ==> KindOf(threads[j]) != k
  {
    if threads == [] || KindOf(threads[0]) == k then 0 else 1 + FirstOf(threads[1..], k)
  }

  // notify_one wakes one parked thread of the condition variable, whichever the system picks.
  function NotifyOne<T>(threads: seq<Thread<T>>, k: Kind, wake: nat): seq<Thread<T>> {
    var i := if wake < |threads| && KindOf(threads[wake]) == k then wake else FirstOf(threads, k);
    if i < |threads| then threads[i := Wake(threads[i])] else threads
  }

  function NotifyAll<T>(threads: seq<Thread<T>>, k: Kind): (r: seq<Thread<T>>)
    ensures |r| == |threads|
  {
    if threads == [] then []
    else [if KindOf(threads[0]) == k then Wake(threads[0]) else threads[0]] + NotifyAll(threads[1..], k)
  }

  // The critical section of push; push_with_mutation is the same section for the mutated item.
  function PushSection<T>(s: State<T>, t: nat, item: T, wake: nat): State<T>
    requires t < |s.threads|
  {
    if s.closed then
      s.(threads := s.threads[t := Idle], dropped := s.dropped + 1)
    else if |s.queue| < s.capacity then
      s.(queue := s.queue + [item], accepted := s.accepted + [item],
         threads := NotifyOne(s.threads[t := Idle], PopParks, wake))
    else
      s.(threads := s.threads[t := PushParked(item)])
  }

  function PopSection<T>(s: State<T>, t: nat, wake: nat): State<T>
    requires t < |s.threads|
  {
    if s.queue != [] then
      s.(queue := s.queue[1..], popped := s.popped + [s.queue[0]],
         threads := NotifyOne(s.threads[t := Idle], PushParks, wake))
    else if s.closed then
      s.(threads := s.threads[t := Idle], refused := s.refused + 1)
    else
      s.(threads := s.threads[t := PopParked])
  }

  function Step<T>(s: State<T>, a: Action<T>): (r: State<T>)
    ensures |r.threads| == |s.threads| && r.capacity == s.capacity
  {
    if a.t >= |s.threads| then s else
    var th := s.threads[a.t];
    match a
    case Push(t, item, wake) => if th.Idle? then PushSection(s, t, item, wake) else s
    case Pop(t, wake) => if th.Idle? then PopSection(s, t, wake) else s
    case Close(t) =>
      if th.Idle? then
        s.(closed := true, threads := s.threads[t := NotifyConsumers],
           acceptedAtClose := if s.closed then s.acceptedAtClose else |s.accepted|)
      else s
    case Resume(t, wake) =>
      (match th
       case PushWoken(item) => PushSection(s, t, item, wake)
       case PopWoken => PopSection(s, t, wake)
       case NotifyConsumers => s.(threads := NotifyAll(s.threads[t := NotifyProducers], PopParks))
       case NotifyProducers => s.(threads := NotifyAll(s.threads[t := Idle], PushParks))
       case _ => s)
    case Spurious(t) => s.(threads := s.threads[t := Wake(th)])
  }

  function Exec<T>(s: State<T>, schedule: seq<Action<T>>): State<T> {
    if schedule == [] then s else Step(Exec(s, schedule[..|schedule| - 1]), schedule[|schedule| - 1])
  }

  // ---- Counting threads ----

  function Count<T>(threads: seq<Thread<T>>, k: Kind): nat {
    if threads == [] then 0 else (if KindOf(threads[0]) == k then 1 else 0) + Count(threads[1..], k)
  }

  lemma {:induction false} CountUpdate<T>(threads: seq<Thread<T>>, i: nat, t: Thread<T>, k: Kind)
    requires i < |threads|
    ensures Count(threads[i := t], k)
         == Count(threads, k) - (if KindOf(threads[i]) == k then 1 else 0) + (if KindOf(t) == k then 1 else 0)
  {
    if i == 0 {
      assert threads[i := t][1..] == threads[1..];
    } else {
      assert threads[i := t][1..] == threads[1..][i - 1 := t];
      CountUpdate(threads[1..], i - 1, t, k);
    }
  }

  lemma {:induction false} CountPositive<T>(threads: seq<Thread<T>>, k: Kind)
    ensures Count(threads, k) > 0 <==> exists i :: 0 <= i < |threads| && KindOf(threads[i]) == k
  {
    if threads != [] {
      CountPositive(threads[1..], k);
      if Count(threads[1..], k) > 0 {
        var i :| 0 <= i < |threads[1..]| && KindOf(threads[1..][i]) == k;
        assert KindOf(threads[i + 1]) == k;
      }
      if i :| 0 < i < |threads| && KindOf(threads[i]) == k {
        assert KindOf(threads[1..][i - 1]) == k;
      }
    }
  }

  function Woken(k: Kind): Kind {
    match k
    case PushParks => PushWakes
    case PopParks => PopWakes
    case _ => k
  }

  predicate IsPark(k: Kind) {
    k.PushParks? || k.PopParks?
  }

  // notify_one moves exactly one thread from parked to woken, when there is one.
  lemma NotifyOneCounts<T>(threads: seq<Thread<T>>, k: Kind, wake: nat, other: Kind)
    requires IsPark(k)
    ensures var one := if Count(threads, k) > 0 then 1 else 0;
      Count(NotifyOne(threads, k, wake), other) ==
        Count(threads, other) - (if other == k then one else 0) + (if other == Woken(k) then one else 0)
  {
    CountPositive(threads, k);
    var i := if wake < |threads| && KindOf(threads[wake]) == k then wake else FirstOf(threads, k);
    if i < |threads| {
      CountUpdate(threads, i, Wake(threads[i]), other);
    }
  }

  lemma {:induction false} NotifyAllCounts<T>(threads: seq<Thread<T>>, k: Kind, other: Kind)
    requires IsPark(k)
    ensures Count(NotifyAll(threads, k), other) ==
      if other == k then 0
      else Count(threads, other) + if other == Woken(k) then Count(threads, k) else 0
  {
    if threads != [] {
      NotifyAllCounts(threads[1..], k, other);
      assert NotifyAll(threads, k)[1..] == NotifyAll(threads[1..], k);
    }
  }

  // ---- The invariant ----

  // A parked consumer has nothing to fetch that is not already promised to a woken one, or the
  // queue is closed and somebody is still about to notify.
  ghost predicate ConsumersServed<T>(s: State<T>) {
    Count(s.threads, PopParks) > 0 ==>
      if s.closed then Count(s.threads, ConsumerNotifiers) > 0
      else |s.queue| <= Count(s.threads, PopWakes)
  }

  ghost predicate ProducersServed<T>(s: State<T>) {
    Count(s.threads, PushParks) > 0 ==>
      if s.closed then Count(s.threads, ConsumerNotifiers) + Count(s.threads, ProducerNotifiers) > 0
      else s.capacity - |s.queue| <= Count(s.threads, PushWakes)
  }

  ghost predicate Contents<T>(s: State<T>) {
    && |s.queue| <= s.capacity
    && s.accepted == s.popped + s.queue
    && (s.closed ==> |s.accepted| == s.acceptedAtClose)
    && (s.dropped > 0 ==> s.closed)
    && (s.refused > 0 ==> s.closed && s.queue == [])
  }

  ghost predicate Inv<T>(s: State<T>) {
    && Contents(s) && ConsumersServed(s) && ProducersServed(s)
    && (Count(s.threads, ConsumerNotifiers) + Count(s.threads, ProducerNotifiers) > 0 ==> s.closed)
  }

  lemma {:induction false} InitCounts<T>(threads: seq<Thread<T>>, k: Kind)
    requires forall i :: 0 <= i < |threads| ==> threads[i] == Idle
    ensures !k.Idles? ==> Count(threads, k) == 0
  {
    if threads != [] {
      InitCounts(threads[1..], k);
    }
  }

  lemma InitInv<T>(capacity: nat, n: nat)
    ensures Inv(Init<T>(capacity, n))
  {
    forall k: Kind ensures !k.Idles? ==> Count(Init<T>(capacity, n).threads, k) == 0 {
      InitCounts(Init<T>(capacity, n).threads, k);
    }
  }

  // All counts at once.
  lemma Updated<T>(threads: seq<Thread<T>>, i: nat, t: Thread<T>)
    requires i < |threads|
    ensures forall k: Kind ::
      Count(threads[i := t], k)
      == Count(threads, k) - (if KindOf(threads[i]) == k then 1 else 0) + (if KindOf(t) == k then 1 else 0)
  {
    forall k: Kind ensures Count(threads[i := t], k)
         == Count(threads, k) - (if KindOf(threads[i]) == k then 1 else 0) + (if KindOf(t) == k then 1 else 0)
    {
      CountUpdate(threads, i, t, k);
    }
  }

  lemma NotifiedOne<T>(threads: seq<Thread<T>>, k: Kind, wake: nat)
    requires IsPark(k)
    ensures var one := if Count(threads, k) > 0 then 1 else 0;
      forall other: Kind :: Count(NotifyOne(threads, k, wake), other) ==
        Count(threads, other) - (if other == k then one else 0) + (if other == Woken(k) then one else 0)
  {
    var one := if Count(threads, k) > 0 then 1 else 0;
    forall other: Kind ensures Count(NotifyOne(threads, k, wake), other) ==
        Count(threads, other) - (if other == k then one else 0) + (if other == Woken(k) then one else 0)
    {
      NotifyOneCounts(threads, k, wake, other);
    }
  }

  lemma NotifiedAll<T>(threads: seq<Thread<T>>, k: Kind)
    requires IsPark(k)
    ensures forall other: Kind ::
      Count(NotifyAll(threads, k), other)
      == if other == k then 0 else Count(threads, other) + if other == Woken(k) then Count(threads, k) else 0
  {
    forall other: Kind ensures Count(NotifyAll(threads, k), other) ==
      if other == k then 0
      else Count(threads, other) + if other == Woken(k) then Count(threads, k) else 0
    {
      NotifyAllCounts(threads, k, other);
    }
  }

  lemma PushKeepsInv<T>(s: State<T>, t: nat, item: T, wake: nat)
    requires Inv(s) && t < |s.threads| && (s.threads[t].Idle? || s.threads[t].PushWoken?)
    ensures Inv(PushSection(s, t, item, wake))
  {
    Updated(s.threads, t, Idle);
    Updated(s.threads, t, PushParked(item));
    NotifiedOne(s.threads[t := Idle], PopParks, wake);
  }

  lemma PopKeepsInv<T>(s: State<T>, t: nat, wake: nat)
    requires Inv(s) && t < |s.threads| && (s.threads[t].Idle? || s.threads[t].PopWoken?)
    ensures Inv(PopSection(s, t, wake))
  {
    Updated(s.threads, t, Idle);
    Updated(s.threads, t, PopParked);
    NotifiedOne(s.threads[t := Idle], PushParks, wake);
    if s.queue != [] {
      assert s.popped + s.queue == s.popped + [s.queue[0]] + s.queue[1..];
    }
  }

  lemma CloseKeepsInv<T>(s: State<T>, t: nat)
    requires Inv(s) && t < |s.threads| && s.threads[t].Idle?
    ensures Inv(Step(s, Close(t)))
  {
    Updated(s.threads, t, NotifyConsumers);
  }

  lemma SpuriousKeepsInv<T>(s: State<T>, t: nat)
    requires Inv(s) && t < |s.threads|
    ensures Inv(Step(s, Spurious(t)))
  {
    Updated(s.threads, t, Wake(s.threads[t]));
  }

  lemma NotifyingConsumersKeepsInv<T>(s: State<T>, t: nat, wake: nat)
    requires Inv(s) && t < |s.threads| && s.threads[t].NotifyConsumers?
    ensures Inv(Step(s, Resume(t, wake)))
  {
    Updated(s.threads, t, NotifyProducers);
    NotifiedAll(s.threads[t := NotifyProducers], PopParks);
    CountPositive(s.threads, ConsumerNotifiers);
  }

  lemma NotifyingProducersKeepsInv<T>(s: State<T>, t: nat, wake: nat)
    requires Inv(s) && t < |s.threads| && s.threads[t].NotifyProducers?
    ensures Inv(Step(s, Resume(t, wake)))
  {
    Updated(s.threads, t, Idle);
    NotifiedAll(s.threads[t := Idle], PushParks);
    CountPositive(s.threads, ProducerNotifiers);
  }

  lemma StepKeepsInv<T>(s: State<T>, a: Action<T>)
    requires Inv(s)
    ensures Inv(Step(s, a))
  {
    if a.t >= |s.threads| {
      return;
    }
    var th := s.threads[a.t];
    match a
    case Push(t, item, wake) => if th.Idle? { PushKeepsInv(s, t, item, wake); }
    case Pop(t, wake) => if th.Idle? { PopKeepsInv(s, t, wake); }
    case Close(t) => if th.Idle? { CloseKeepsInv(s, t); }
    case Spurious(t) => SpuriousKeepsInv(s, t);
    case Resume(t, wake) =>
      match th {
        case PushWoken(item) => PushKeepsInv(s, t, item, wake);
        case PopWoken => PopKeepsInv(s, t, wake);
        case NotifyConsumers => NotifyingConsumersKeepsInv(s, t, wake);
        case NotifyProducers => NotifyingProducersKeepsInv(s, t, wake);
        case _ =>
      }
  }

  lemma {:induction false} Safety<T>(capacity: nat, n: nat, schedule: seq<Action<T>>)
    ensures Inv(Exec(Init(capacity, n), schedule))
  {
    if schedule == [] {
      InitInv<T>(capacity, n);
    } else {
      Safety(capacity, n, schedule[..|schedule| - 1]);
      StepKeepsInv(Exec(Init(capacity, n), schedule[..|schedule| - 1]), schedule[|schedule| - 1]);
    }
  }

  // ---- What holds for any number of threads ----

  // Items leave in the order in which they were accepted, none is lost or invented, the bound
  // holds, nothing is accepted after close, a push drops its item only when the queue is closed,
  // and pop reports the end only when the queue is closed and drained.
  lemma FifoUntilClosed<T>(capacity: nat, n: nat, schedule: seq<Action<T>>)
    ensures var s := Exec(Init(capacity, n), schedule);
      && s.accepted == s.popped + s.queue && |s.queue| <= capacity
      && (s.closed ==> |s.accepted| == s.acceptedAtClose)
      && (s.dropped > 0 ==> s.closed)
      && (s.refused > 0 ==> s.closed && s.queue == [] && s.popped == s.accepted)
  {
    Safety(capacity, n, schedule);
    CapacityFixed(Init<T>(capacity, n), schedule);
  }

  lemma {:induction false} CapacityFixed<T>(s: State<T>, schedule: seq<Action<T>>)
    ensures Exec(s, schedule).capacity == s.capacity
  {
    if schedule != [] {
      CapacityFixed(s, schedule[..|schedule| - 1]);
    }
  }

  ghost predicate Someone<T>(s: State<T>, k: Kind) {
    exists i :: 0 <= i < |s.threads| && KindOf(s.threads[i]) == k
  }

  // No lost wakeup: while the predicate of a parked thread holds, somebody is awake who will
  // serve it or wake it.
  lemma NoLostWakeup<T>(capacity: nat, n: nat, schedule: seq<Action<T>>)
    ensures var s := Exec(Init(capacity, n), schedule);
      && (Someone(s, PopParks) && (s.closed || s.queue != []) ==> Someone(s, PopWakes) || Someone(s, ConsumerNotifiers))
      && (Someone(s, PushParks) && (s.closed || |s.queue| < capacity) ==>
            Someone(s, PushWakes) || Someone(s, ConsumerNotifiers) || Someone(s, ProducerNotifiers))
  {
    Safety(capacity, n, schedule);
    CapacityFixed(Init<T>(capacity, n), schedule);
    var s := Exec(Init(capacity, n), schedule);
    forall k: Kind ensures Count(s.threads, k) > 0 <==> Someone(s, k) {
      CountPositive(s.threads, k);
    }
  }

  // With room for an item, the threads never all sleep: if each one is parked, they all wait for
  // the same thing, and it is true that they have to.
  lemma SleepersMustWait<T>(capacity: nat, n: nat, schedule: seq<Action<T>>)
    requires capacity >= 1
    requires var s := Exec(Init(capacity, n), schedule);
      forall i :: 0 <= i < |s.threads| ==> s.threads[i].PushParked? || s.threads[i].PopParked?
    ensures var s := Exec(Init(capacity, n), schedule);
      && (s.threads != [] ==> !s.closed)
      && ((forall i :: 0 <= i < |s.threads| ==> s.threads[i].PopParked? && s.queue == [])
          || (forall i :: 0 <= i < |s.threads| ==> s.threads[i].PushParked? && |s.queue| == capacity))
  {
    NoLostWakeup(capacity, n, schedule);
    FifoUntilClosed(capacity, n, schedule);
    var s := Exec(Init(capacity, n), schedule);
    forall i | 0 <= i < |s.threads|
      ensures s.threads[i].PopParked? ==> Someone(s, PopParks)
      ensures s.threads[i].PushParked? ==> Someone(s, PushParks)
    {
      assert KindOf(s.threads[i]) == if s.threads[i].PopParked? then PopParks else PushParks;
    }
    assert s.threads != [] ==> s.threads[0].PushParked? || s.threads[0].PopParked?;
  }
}
