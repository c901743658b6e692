// Fixed-size records over a TCP byte stream: the send and receive loops, with the kernel
// as a script of outcomes, one per system call. A script that is used up fails from
// then on, so every finite behaviour of the kernel is some script.
module Framing {
  import opened Market

  newtype byte = x: int | 0 <= x < 256

  // The result of one send or recv: bytes moved (cut to what is possible), EINTR, or any
  // other non-positive result.
  datatype Outcome = Moved(count: nat) | Interrupted | Failed

  function Cut(count: nat, limit: nat): (n: nat)
    requires limit > 0
    ensures 0 < n <= limit
  {
    if count == 0 then 1 else if count > limit then limit else count
  }

  // What is left of a script after it has moved this many bytes; nothing if a call fails or the script is
  // used up before that.
  function After(script: seq<Outcome>, bytes: nat): Option<seq<Outcome>> {
    if bytes == 0 then Some(script)
    else if script == [] then None
    else match script[0]
      case Moved(count) => After(script[1..], bytes - Cut(count, bytes))
      case Interrupted => After(script[1..], bytes)
      case Failed => None
  }

  // The same for records of these sizes, one after the other: no call moves bytes of two records.
  function AfterAll(script: seq<Outcome>, sizes: seq<nat>): Option<seq<Outcome>> {
    if sizes == [] then Some(script) else
      match AfterAll(script, sizes[..|sizes| - 1])
      case None => None
      case Some(rest) => After(rest, sizes[|sizes| - 1])
  }

  // How many bytes a script moves of so many, before a call fails or it is used up.
  function Delivered(script: seq<Outcome>, bytes: nat): (n: nat)
    ensures n <= bytes && (n == bytes <==> After(script, bytes).Some?)
  {
    if bytes == 0 || script == [] then 0
    else match script[0]
      case Moved(count) => Cut(count, bytes) + Delivered(script[1..], bytes - Cut(count, bytes))
      case Interrupted => Delivered(script[1..], bytes)
      case Failed => 0
  }

  // The same for records of these sizes, one after the other until one is not moved whole.
  function DeliveredAll(script: seq<Outcome>, sizes: seq<nat>): nat {
    if sizes == [] then 0 else
      var init := sizes[..|sizes| - 1];
      DeliveredAll(script, init) +
      match AfterAll(script, init)
      case None => 0
      case Some(rest) => Delivered(rest, sizes[|sizes| - 1])
  }

  function Equal(n: nat, size: nat): seq<nat> {
    seq(n, _ => size)
  }

  // The kernel moves n records of this size.
  predicate Completes(script: seq<Outcome>, n: nat, size: nat) {
    AfterAll(script, Equal(n, size)).Some?
  }

  lemma NextSize(script: seq<Outcome>, sizes: seq<nat>, k: nat)
    requires k < |sizes|
    ensures AfterAll(script, sizes[..k + 1])
         == match AfterAll(script, sizes[..k]) case None => None case Some(rest) => After(rest, sizes[k])
  {
    assert sizes[..k + 1][..k] == sizes[..k];
  }

  // Where a script stops is where it stops: it moves k records whole for exactly the k up to n.
  lemma CountIs(script: seq<Outcome>, sizes: seq<nat>, n: nat)
    requires n <= |sizes| && AfterAll(script, sizes[..n]).Some?
    requires n < |sizes| ==> AfterAll(script, sizes[..n + 1]).None?
    ensures forall k :: 0 <= k <= |sizes| ==> (n >= k <==> AfterAll(script, sizes[..k]).Some?)
  {
    forall k | 0 <= k <= |sizes| ensures n >= k <==> AfterAll(script, sizes[..k]).Some? {
      var shorter := if k <= n then sizes[..n] else sizes[..k];
      if k <= n {
        assert shorter[..k] == sizes[..k];
        if AfterAll(script, sizes[..k]).None? {
          StopsForGood(script, shorter, k);
        }
      } else {
        assert shorter[..n + 1] == sizes[..n + 1];
        StopsForGood(script, shorter, n + 1);
      }
    }
  }

  // The bytes of n records.
  function Total(n: nat, size: nat): nat {
    if n == 0 then 0 else Total(n - 1, size) + size
  }

  lemma {:induction false} TotalIsProduct(n: nat, size: nat)
    ensures Total(n, size) == n * size
  {
    if n > 0 {
      TotalIsProduct(n - 1, size);
      assert n * size == (n - 1) * size + size;
    }
  }

  lemma {:induction false} MoreRecords(a: nat, b: nat, size: nat)
    requires a <= b
    ensures Total(a, size) <= Total(b, size)
    ensures a < b ==> Total(a, size) + size <= Total(b, size)
    decreases b
  {
    if a < b {
      MoreRecords(a, b - 1, size);
    }
  }

  lemma EqualPrefix(n: nat, size: nat, k: nat)
    requires k <= n
    ensures Equal(n, size)[..k] == Equal(k, size)
  {}

  lemma OneMoreRecord(script: seq<Outcome>, n: nat, size: nat)
    ensures AfterAll(script, Equal(n + 1, size))
         == match AfterAll(script, Equal(n, size)) case None => None case Some(rest) => After(rest, size)
  {
    EqualPrefix(n + 1, size, n);
  }

  // The consumer gets k records for exactly the k that the script moves and the stream has.
  ghost predicate CountedRight(script: seq<Outcome>, n: nat, size: nat, consumed: nat, available: nat) {
    forall k :: 0 <= k <= n ==> (consumed >= k <==> Completes(script, k, size) && Total(k, size) <= available)
  }

  lemma ConsumedIs(script: seq<Outcome>, n: nat, size: nat, consumed: nat, available: nat)
    requires consumed <= n && Completes(script, consumed, size) && Total(consumed, size) <= available
    requires consumed < n ==> !Completes(script, consumed + 1, size) || available < Total(consumed, size) + size
    ensures CountedRight(script, n, size, consumed, available)
  {
    forall k | 0 <= k <= n ensures consumed >= k <==> Completes(script, k, size) && Total(k, size) <= available {
      if k <= consumed {
        MoreRecords(k, consumed, size);
        EqualPrefix(consumed, size, k);
        if !Completes(script, k, size) {
          StopsForGood(script, Equal(consumed, size), k);
        }
      } else {
        MoreRecords(consumed, k, size);
        EqualPrefix(k, size, consumed + 1);
        if !Completes(script, consumed + 1, size) {
          StopsForGood(script, Equal(k, size), consumed + 1);
        }
      }
    }
  }

  // What stops short at one record stops short of all.
  lemma {:induction false} StopsForGood(script: seq<Outcome>, sizes: seq<nat>, k: nat)
    requires k <= |sizes| && AfterAll(script, sizes[..k]).None?
    ensures AfterAll(script, sizes).None?
    decreases |sizes| - k
  {
    if k == |sizes| {
      assert sizes[..k] == sizes;
    } else {
      NextSize(script, sizes, k);
      StopsForGood(script, sizes, k + 1);
    }
  }

  lemma NextDelivered(script: seq<Outcome>, sizes: seq<nat>, k: nat)
    requires k < |sizes|
    ensures DeliveredAll(script, sizes[..k + 1]) == DeliveredAll(script, sizes[..k]) +
      match AfterAll(script, sizes[..k]) case None => 0 case Some(rest) => Delivered(rest, sizes[k])
  {
    assert sizes[..k + 1][..k] == sizes[..k];
  }

  // After the first record that is not moved whole, nothing is.
  lemma {:induction false} NothingMore(script: seq<Outcome>, sizes: seq<nat>, k: nat)
    requires k <= |sizes| && AfterAll(script, sizes[..k]).None?
    ensures DeliveredAll(script, sizes) == DeliveredAll(script, sizes[..k])
    decreases |sizes| - k
  {
    if k == |sizes| {
      assert sizes[..k] == sizes;
    } else {
      NextSize(script, sizes, k);
      NextDelivered(script, sizes, k);
      NothingMore(script, sizes, k + 1);
    }
  }

  lemma NextSent(script: seq<Outcome>, sizes: seq<nat>, n: nat, rest: seq<Outcome>)
    requires n < |sizes| && AfterAll(script, sizes[..n]) == Some(rest)
    ensures AfterAll(script, sizes[..n + 1]) == After(rest, sizes[n])
    ensures DeliveredAll(script, sizes[..n + 1]) == DeliveredAll(script, sizes[..n]) + Delivered(rest, sizes[n])
  {
    NextSize(script, sizes, n);
    NextDelivered(script, sizes, n);
  }

  lemma ProducerStops(script: seq<Outcome>, sizes: seq<nat>, n: nat, sent: nat)
    requires n < |sizes| && AfterAll(script, sizes[..n]).Some? && AfterAll(script, sizes[..n + 1]).None?
    requires sent == DeliveredAll(script, sizes[..n + 1])
    ensures AfterAll(script, sizes).None? && DeliveredAll(script, sizes) == sent
    ensures forall k :: 0 <= k <= |sizes| ==> (n >= k <==> AfterAll(script, sizes[..k]).Some?)
  {
    StopsForGood(script, sizes, n + 1);
    NothingMore(script, sizes, n + 1);
    CountIs(script, sizes, n);
  }

  // ---- Scripts that complete ----

  predicate Reliable(script: seq<Outcome>) {
    forall i :: 0 <= i < |script| ==> !script[i].Failed?
  }

  function Moves(script: seq<Outcome>): nat {
    if script == [] then 0 else (if script[0].Moved? then 1 else 0) + Moves(script[1..])
  }

  // Without failures, one successful call per byte is always enough.
  lemma {:induction false} MovesSuffice(script: seq<Outcome>, bytes: nat)
    requires Reliable(script) && Moves(script) >= bytes
    ensures var rest := After(script, bytes);
      rest.Some? && Reliable(rest.value) && Moves(rest.value) >= Moves(script) - bytes
    decreases |script|
  {
    if bytes > 0 {
      var tail := script[1..];
      assert forall i :: 0 <= i < |tail| ==> tail[i] == script[i + 1];
      if script[0].Moved? {
        MovesSuffice(tail, bytes - Cut(script[0].count, bytes));
      } else {
        MovesSuffice(tail, bytes);
      }
    }
  }

  lemma {:induction false} EnoughMovesComplete(script: seq<Outcome>, n: nat, size: nat)
    requires Reliable(script) && Moves(script) >= n * size
    ensures Completes(script, n, size)
    ensures var rest := AfterAll(script, Equal(n, size)).value;
      Reliable(rest) && Moves(rest) >= Moves(script) - n * size
  {
    if n > 0 {
      assert n * size == (n - 1) * size + size;
      assert Equal(n, size)[..n - 1] == Equal(n - 1, size);
      EnoughMovesComplete(script, n - 1, size);
      MovesSuffice(AfterAll(script, Equal(n - 1, size)).value, size);
    }
  }

  // And calls that are ready for a whole record each do with one call per record.
  lemma {:induction false} WholeCallsComplete(script: seq<Outcome>, n: nat, size: nat)
    requires 0 < size && n <= |script|
    requires forall i :: 0 <= i < n ==> script[i].Moved? && script[i].count >= size
    ensures AfterAll(script, Equal(n, size)) == Some(script[n..])
  {
    if n > 0 {
      assert Equal(n, size)[..n - 1] == Equal(n - 1, size);
      WholeCallsComplete(script, n - 1, size);
      var rest := script[n - 1..];
      assert rest[0] == script[n - 1] && rest[1..] == script[n..];
      assert Cut(rest[0].count, size) == size && After(rest, size) == After(rest[1..], 0);
      assert |Equal(n, size)| == n && Equal(n, size)[n - 1] == size;
    } else {
      assert script[0..] == script;
    }
  }

  // ---- The sending end: wire is everything the kernel has taken ----

  class Sender {
    var wire: seq<byte>
    var script: seq<Outcome>

    constructor (script: seq<Outcome>)
      ensures wire == [] && this.script == script
    {
      wire, this.script := [], script;
    }

    // Result as in send(2): positive, or not, with errno == EINTR told apart.
    method Send(data: seq<byte>) returns (result: int, interrupted: bool)
      requires data != []
      modifies this
      ensures 0 <= result <= |data| && wire == old(wire) + data[..result]
      ensures interrupted ==> result == 0
      ensures old(script) != [] ==> script == old(script)[1..]
      ensures old(script) == [] ==> script == [] && result == 0 && !interrupted
      ensures result > 0 <==> old(script) != [] && old(script)[0].Moved?
      ensures result > 0 ==> result == Cut(old(script)[0].count, |data|)
      ensures interrupted <==> old(script) != [] && old(script)[0].Interrupted?
    {
      if script == [] {
        return 0, false;
      }
      var outcome := script[0];
      script := script[1..];
      match outcome
      case Moved(count) =>
        result, interrupted := Cut(count, |data|), false;
        wire := wire + data[..result];
      case Interrupted => return 0, true;
      case Failed => return 0, false;
    }

    // send_all. On success everything is on the wire; on failure a proper prefix is.
    method SendAll(data: seq<byte>) returns (ok: bool, ghost sent: nat)
      modifies this
      ensures sent <= |data| && wire == old(wire) + data[..sent] && (ok <==> sent == |data|)
      ensures After(old(script), |data|) == if ok then Some(script) else None
      ensures sent == Delivered(old(script), |data|)
    {
      var cursor := 0;
      sent := 0;
      while cursor < |data|
        invariant 0 <= cursor <= |data| && sent == cursor && wire == old(wire) + data[..cursor]
        invariant After(old(script), |data|) == After(script, |data| - cursor)
        invariant Delivered(old(script), |data|) == cursor + Delivered(script, |data| - cursor)
        decreases |script|
      {
        var result, interrupted := Send(data[cursor..]);
        assert data[..cursor] + data[cursor..][..result] == data[..cursor + result];
        if result > 0 {
          cursor := cursor + result;
          sent := cursor;
        } else if !interrupted {
          return false, cursor;
        }
      }
      ok := true;
    }
  }

  // ---- The receiving end: incoming is everything that will ever arrive ----

  class Receiver {
    const incoming: seq<byte>
    var position: nat
    var script: seq<Outcome>

    constructor (incoming: seq<byte>, script: seq<Outcome>)
      ensures this.incoming == incoming && position == 0 && this.script == script
    {
      this.incoming, this.script, position := incoming, script, 0;
    }

    ghost predicate Valid()
      reads this
    {
      position <= |incoming|
    }

    // recv(2): at the end of the stream it returns 0 whatever the kernel would do.
    method Recv(limit: nat) returns (data: seq<byte>, interrupted: bool)
      requires Valid() && limit > 0
      modifies this
      ensures Valid() && |data| <= limit && position == old(position) + |data|
      ensures data == incoming[old(position)..position]
      ensures interrupted ==> data == []
      ensures old(script) != [] ==> script == old(script)[1..]
      ensures old(script) == [] ==> script == [] && data == [] && !interrupted
      ensures data != [] <==> old(script) != [] && old(script)[0].Moved? && old(position) < |incoming|
      ensures data != [] ==> var left := |incoming| - old(position);
        |data| == Cut(old(script)[0].count, if limit < left then limit else left)
      ensures interrupted <==> old(script) != [] && old(script)[0].Interrupted?
    {
      data, interrupted := [], false;
      if script == [] {
        return;
      }
      var outcome := script[0];
      script := script[1..];
      match outcome
      case Moved(count) =>
        var left := |incoming| - position;
        if left > 0 {
          var n := Cut(count, if limit < left then limit else left);
          data := incoming[position..position + n];
          position := position + n;
        }
      case Interrupted => interrupted := true;
      case Failed =>
    }

    // recv_all. On success the buffer is the next `bytes` bytes of the stream; a short record is
    // never handed out.
    method RecvAll(bytes: nat) returns (ok: bool, buffer: seq<byte>)
      requires Valid()
      modifies this
      ensures Valid() && position >= old(position)
      ensures ok ==> |buffer| == bytes && position == old(position) + bytes
      ensures ok ==> buffer == incoming[old(position)..position]
      ensures !ok ==> position < old(position) + bytes
      ensures old(position) + bytes <= |incoming| ==>
        After(old(script), bytes) == if ok then Some(script) else None
    {
      buffer := [];
      while |buffer| < bytes
        invariant Valid() && |buffer| <= bytes && position == old(position) + |buffer|
        invariant buffer == incoming[old(position)..position]
        invariant old(position) + bytes <= |incoming| ==>
          After(old(script), bytes) == After(script, bytes - |buffer|)
        decreases |script|
      {
        var data, interrupted := Recv(bytes - |buffer|);
        if data != [] {
          buffer := buffer + data;
        } else if !interrupted {
          return false, buffer;
        }
      }
      ok := true;
    }
  }

  // ---- Records ----

  ghost predicate Records(msgs: seq<seq<byte>>, size: nat) {
    forall i :: 0 <= i < |msgs| ==> |msgs[i]| == size
  }

  function Concat(msgs: seq<seq<byte>>): seq<byte> {
    if msgs == [] then [] else Concat(msgs[..|msgs| - 1]) + msgs[|msgs| - 1]
  }

  lemma {:induction false} ConcatLength(msgs: seq<seq<byte>>, size: nat)
    requires Records(msgs, size)
    ensures |Concat(msgs)| == Total(|msgs|, size)
  {
    if msgs != [] {
      ConcatLength(msgs[..|msgs| - 1], size);
    }
  }

  lemma {:induction false} ConcatPrefix(msgs: seq<seq<byte>>, k: nat)
    requires k <= |msgs|
    ensures Concat(msgs[..k]) <= Concat(msgs)
    decreases |msgs|
  {
    if k == |msgs| {
      assert msgs[..k] == msgs;
    } else {
      assert msgs[..|msgs| - 1][..k] == msgs[..k];
      ConcatPrefix(msgs[..|msgs| - 1], k);
    }
  }

  // Cutting a stream of equal-sized records at record boundaries gives the records back.
  lemma {:induction false} FramesAreRecords(frames: seq<seq<byte>>, msgs: seq<seq<byte>>, size: nat)
    requires size > 0 && Records(frames, size) && Records(msgs, size)
    requires Concat(frames) <= Concat(msgs)
    ensures |frames| <= |msgs| && frames == msgs[..|frames|]
    decreases |frames|
  {
    ConcatLength(frames, size);
    ConcatLength(msgs, size);
    if |msgs| < |frames| {
      MoreRecords(|msgs|, |frames|, size);
    }
    if frames != [] {
      var n := |frames| - 1;
      var init := frames[..n];
      FramesAreRecords(init, msgs, size);
      ConcatPrefix(msgs, n + 1);
      ConcatLength(init, size);
      assert msgs[..n + 1][..n] == msgs[..n];
      var whole := Concat(msgs);
      assert Concat(msgs[..n + 1]) == Concat(init) + msgs[n];
      assert Concat(frames) == Concat(init) + frames[n];
      assert frames[n] == whole[|Concat(init)|..|Concat(init)| + size];
      assert msgs[n] == whole[|Concat(init)|..|Concat(init)| + size];
      assert frames == init + [frames[n]];
    }
  }

  // ---- The feed ----

  function Sizes(msgs: seq<seq<byte>>): seq<nat> {
    seq(|msgs|, i requires 0 <= i < |msgs| => |msgs[i]|)
  }

  // The producer's loop: what is on the wire is the records it counted, then at most a proper part
  // of the next one.
  method Produce(sender: Sender, msgs: seq<seq<byte>>) returns (produced: nat)
    modifies sender
    requires sender.wire == []
    ensures produced <= |msgs| && Concat(msgs[..produced]) <= sender.wire <= Concat(msgs)
    ensures produced < |msgs| ==> |sender.wire| < |Concat(msgs[..produced + 1])|
    ensures produced == |msgs| <==> AfterAll(old(sender.script), Sizes(msgs)).Some?
    ensures forall k :: 0 <= k <= |msgs| ==> (produced >= k <==> AfterAll(old(sender.script), Sizes(msgs)[..k]).Some?)
    ensures |sender.wire| == DeliveredAll(old(sender.script), Sizes(msgs))
    ensures produced == |msgs| ==> sender.wire == Concat(msgs)
  {
    ghost var script, sizes := sender.script, Sizes(msgs);
    produced := 0;
    assert msgs[..0] == [];
    while produced < |msgs|
      invariant produced <= |msgs| && sender.wire == Concat(msgs[..produced])
      invariant AfterAll(script, sizes[..produced]) == Some(sender.script)
      invariant |sender.wire| == DeliveredAll(script, sizes[..produced])
    {
      NextSent(script, sizes, produced, sender.script);
      NextConcat(msgs, produced);
      var ok, sent := sender.SendAll(msgs[produced]);
      if !ok {
        ProducerStops(script, sizes, produced, |sender.wire|);
        return;
      }
      produced := produced + 1;
    }
    assert msgs[..produced] == msgs && sizes[..produced] == sizes;
    CountIs(script, sizes, produced);
  }

  lemma NextConcat(msgs: seq<seq<byte>>, n: nat)
    requires n < |msgs|
    ensures Concat(msgs[..n + 1]) == Concat(msgs[..n]) + msgs[n]
    ensures Concat(msgs[..n]) <= Concat(msgs) && Concat(msgs[..n + 1]) <= Concat(msgs)
  {
    assert msgs[..n + 1][..n] == msgs[..n];
    ConcatPrefix(msgs, n);
    ConcatPrefix(msgs, n + 1);
  }

  // The book after the records, folded with whatever one record does to it.
  function Replayed<B>(apply: (B, seq<byte>) -> B, book0: B, records: seq<seq<byte>>): B {
    if records == [] then book0
    else apply(Replayed(apply, book0, records[..|records| - 1]), records[|records| - 1])
  }

  // The consumer's loop: it applies whole records only, in stream order. `applied` lists them.
  method Consume<B>(receiver: Receiver, numMessages: nat, size: nat, book0: B, apply: (B, seq<byte>) -> B)
    returns (consumed: nat, book: B, ghost applied: seq<seq<byte>>)
    requires receiver.Valid() && receiver.position == 0 && size > 0
    modifies receiver
    ensures consumed == |applied| <= numMessages && book == Replayed(apply, book0, applied)
    ensures Records(applied, size) && Concat(applied) <= receiver.incoming
    ensures forall k :: 0 <= k <= numMessages ==>
      (consumed >= k <==> Completes(old(receiver.script), k, size) && Total(k, size) <= |receiver.incoming|)
  {
    ghost var script, available := receiver.script, |receiver.incoming|;
    consumed, book, applied := 0, book0, [];
    while consumed < numMessages
      invariant consumed == |applied| <= numMessages && book == Replayed(apply, book0, applied)
      invariant Records(applied, size)
      invariant receiver.Valid() && Concat(applied) == receiver.incoming[..receiver.position]
      invariant AfterAll(script, Equal(consumed, size)) == Some(receiver.script)
    {
      ghost var start := receiver.position;
      OneMoreRecord(script, consumed, size);
      ConcatLength(applied, size);
      var ok, message := receiver.RecvAll(size);
      if !ok {
        ConsumedIs(script, numMessages, size, consumed, available);
        return;
      }
      assert (applied + [message])[..|applied|] == applied;
      assert receiver.incoming[..receiver.position] == receiver.incoming[..start] + message;
      book, applied := apply(book, message), applied + [message];
      consumed := consumed + 1;
    }
    ConcatLength(applied, size);
    ConsumedIs(script, numMessages, size, consumed, available);
  }

  // How many bytes of n records reach the other end, when the last `lost` of the bytes sent do not.
  function Arriving(sendScript: seq<Outcome>, n: nat, size: nat, lost: nat): nat {
    var sent := DeliveredAll(sendScript, Equal(n, size));
    if lost <= sent then sent - lost else 0
  }

  lemma EqualSizes(msgs: seq<seq<byte>>, size: nat)
    requires Records(msgs, size)
    ensures Sizes(msgs) == Equal(|msgs|, size)
  {}

  // Everything arrives exactly when everything is sent and nothing is lost.
  lemma {:induction false} SentWhole(sendScript: seq<Outcome>, n: nat, size: nat)
    ensures DeliveredAll(sendScript, Equal(n, size)) <= Total(n, size)
    ensures DeliveredAll(sendScript, Equal(n, size)) == Total(n, size) <==> Completes(sendScript, n, size)
  {
    if n > 0 {
      SentWhole(sendScript, n - 1, size);
      EqualPrefix(n, size, n - 1);
      OneMoreRecord(sendScript, n - 1, size);
    }
  }

  lemma ArrivesWhole(sendScript: seq<Outcome>, n: nat, size: nat, lost: nat)
    requires size > 0
    ensures Total(n, size) <= Arriving(sendScript, n, size, lost) <==>
      Completes(sendScript, n, size) && (lost == 0 || n == 0)
  {
    SentWhole(sendScript, n, size);
    MoreRecords(0, n, size);
  }

  // End to end, for every chunking of both ends and every cut of the connection: the consumer's book has
  // seen exactly as many of the records the producer iterated over as arrive whole and are received.
  method Feed<B>(msgs: seq<seq<byte>>, size: nat, book0: B, apply: (B, seq<byte>) -> B,
                 sendScript: seq<Outcome>, recvScript: seq<Outcome>, lost: nat)
    returns (consumed: nat, book: B)
    requires size > 0 && Records(msgs, size)
    ensures consumed <= |msgs| && book == Replayed(apply, book0, msgs[..consumed])
    ensures forall k :: 0 <= k <= |msgs| ==>
      (consumed >= k <==> Completes(recvScript, k, size) && Total(k, size) <= Arriving(sendScript, |msgs|, size, lost))
    ensures consumed == |msgs| <==>
      Completes(sendScript, |msgs|, size) && Completes(recvScript, |msgs|, size) && (lost == 0 || msgs == [])
  {
    var sender := new Sender(sendScript);
    var produced := Produce(sender, msgs);
    var arriving := if lost <= |sender.wire| then sender.wire[..|sender.wire| - lost] else [];
    var receiver := new Receiver(arriving, recvScript);
    ghost var applied;
    consumed, book, applied := Consume(receiver, |msgs|, size, book0, apply);
    EqualSizes(msgs, size);
    ArrivesWhole(sendScript, |msgs|, size, lost);
    FramesAreRecords(applied, msgs, size);
  }
}
