// The TCP feed into the baseline book: the producer stamps and sends each message, the consumer reads
// records and applies them.
module TcpFeed {
  import opened Market
  import opened Ledger
  import opened Framing
  import opened Wire
  import opened Generator
  import opened EndToEnd

  function Stamped(m: MarketMessage, now: uint64): (r: MarketMessage)
    ensures Encodable(m) ==> Encodable(r)
    ensures r.timestampNs == now && r.sequenceNumber == m.sequenceNumber && r.symbol == m.symbol
    ensures OrderOf(r) == OrderOf(m) && r.kind == m.kind
  {
    m.(timestampNs := now)
  }

  // The records the producer's loop goes through, stamped with the readings of its clock.
  function Wired(msgs: seq<MarketMessage>, clock: seq<uint64>): (r: seq<seq<byte>>)
    requires |clock| == |msgs| && forall i :: 0 <= i < |msgs| ==> Encodable(msgs[i])
    ensures Records(r, MESSAGE_SIZE) && |r| == |msgs|
  {
    seq(|msgs|, i requires 0 <= i < |msgs| => assert Encodable(msgs[i]); Encode(Stamped(msgs[i], clock[i])))
  }

  // What is read back from the i-th record: the i-th message, with the i-th clock reading as its stamp.
  lemma RecordReads(msgs: seq<MarketMessage>, clock: seq<uint64>, i: nat)
    requires |clock| == |msgs| && i < |msgs| && forall j :: 0 <= j < |msgs| ==> Encodable(msgs[j])
    ensures var m, read := msgs[i], Decode(Wired(msgs, clock)[i]);
      && read.Some? && read.value.timestampNs == clock[i]
      && read.value.sequenceNumber == m.sequenceNumber && read.value.orderId == m.orderId
      && read.value.price == m.price && read.value.quantity == m.quantity && read.value.side == m.side
      && read.value.kind == m.kind && read.value.symbol == m.symbol
  {
    RoundTrip(Stamped(msgs[i], clock[i]));
  }

  function ApplyRecord(b: BaselineBook, record: seq<byte>): BaselineBook {
    match Decode(record)
    case None => b
    case Some(m) => ApplyBaseline(b, m)
  }

  // Sent, received and applied, a message does to the book what it does unsent: the encoding loses
  // nothing, and the book does not look at the time stamp.
  lemma SentIsApplied(b: BaselineBook, m: MarketMessage, now: uint64)
    requires Encodable(m)
    ensures ApplyRecord(b, Encode(Stamped(m, now))) == ApplyBaseline(b, m)
  {
    RoundTrip(Stamped(m, now));
  }

  lemma ReplayedStep<B>(apply: (B, seq<byte>) -> B, book0: B, records: seq<seq<byte>>, n: nat)
    requires n < |records|
    ensures Replayed(apply, book0, records[..n + 1]) == apply(Replayed(apply, book0, records[..n]), records[n])
  {
    assert records[..n + 1][..n] == records[..n];
  }

  // The records stand for the messages: the n-th is the n-th message, sent at some time.
  ghost predicate Carries(records: seq<seq<byte>>, msgs: seq<MarketMessage>, clock: seq<uint64>) {
    && |records| == |msgs| == |clock|
    && forall i :: 0 <= i < |msgs| ==> Encodable(msgs[i]) && records[i] == Encode(Stamped(msgs[i], clock[i]))
  }

  lemma {:induction false} ReplayedIsBaseline(records: seq<seq<byte>>, msgs: seq<MarketMessage>, clock: seq<uint64>,
                                              n: nat)
    requires Carries(records, msgs, clock) && n <= |msgs|
    ensures Replayed(ApplyRecord, Defined([]), records[..n]) == BaselineAfter(msgs[..n])
  {
    if n > 0 {
      ReplayedIsBaseline(records, msgs, clock, n - 1);
      ReplayedStep(ApplyRecord, Defined([]), records, n - 1);
      BaselineStep(msgs, n - 1);
      SentIsApplied(BaselineAfter(msgs[..n - 1]), msgs[n - 1], clock[n - 1]);
    }
  }

  // For every chunking and every cut of the connection the consumer's book is that of a prefix of the
  // messages, and of all of them when nothing fails or is lost.
  method FeedBook(msgs: seq<MarketMessage>, clock: seq<uint64>, sendScript: seq<Outcome>, recvScript: seq<Outcome>,
                  lost: nat)
    returns (consumed: nat, book: BaselineBook)
    requires |clock| == |msgs| && forall i :: 0 <= i < |msgs| ==> Encodable(msgs[i])
    ensures consumed <= |msgs| && book == BaselineAfter(msgs[..consumed])
    ensures forall k :: 0 <= k <= |msgs| ==>
      (consumed >= k <==> Completes(recvScript, k, MESSAGE_SIZE)
                          && Total(k, MESSAGE_SIZE) <= Arriving(sendScript, |msgs|, MESSAGE_SIZE, lost))
    ensures consumed == |msgs| <==>
      && Completes(sendScript, |msgs|, MESSAGE_SIZE) && Completes(recvScript, |msgs|, MESSAGE_SIZE)
      && (lost == 0 || msgs == [])
    ensures consumed == |msgs| ==> book == BaselineAfter(msgs)
  {
    var records := Wired(msgs, clock);
    consumed, book := Feed(records, MESSAGE_SIZE, Defined([]), ApplyRecord, sendScript, recvScript, lost);
    ReplayedIsBaseline(records, msgs, clock, consumed);
    assert msgs[..|msgs|] == msgs;
  }

  lemma GeneratedEncodable(msgs: seq<MarketMessage>, draws: nat -> uint64, first: nat, symbol: string,
                           clock: seq<uint64>)
    requires Generated(msgs, 0, draws, first, symbol, clock)
    requires |symbol| == 8 && forall i :: 0 <= i < 8 ==> symbol[i] as int < 256
    ensures forall i :: 0 <= i < |msgs| ==> Encodable(msgs[i])
  {
    forall i | 0 <= i < |msgs| ensures Encodable(msgs[i]) {
      assert msgs[0 + i] == MessageAt(draws, first, symbol, i, clock[i]);
    }
  }

  // The feed program on a fresh generator: the book is defined and holds the reference run of a prefix.
  method FeedGenerated(numMessages: uint64, symbol: string, clock: seq<uint64>, sendClock: seq<uint64>,
                       sendScript: seq<Outcome>, recvScript: seq<Outcome>, lost: nat)
    returns (msgs: seq<MarketMessage>, consumed: nat, book: BaselineBook)
    requires |clock| == |sendClock| == numMessages && forall i :: 0 <= i < |symbol| ==> symbol[i] as int < 256
    ensures |msgs| == numMessages && Generated(msgs, 0, Draws(SEED), 1, Padded(symbol), clock)
    ensures consumed <= |msgs| && book == Defined(Run([], msgs[..consumed]))
    ensures forall k :: 0 <= k <= |msgs| ==>
      (consumed >= k <==> Completes(recvScript, k, MESSAGE_SIZE)
                          && Total(k, MESSAGE_SIZE) <= Arriving(sendScript, |msgs|, MESSAGE_SIZE, lost))
    ensures consumed == |msgs| <==>
      && Completes(sendScript, |msgs|, MESSAGE_SIZE) && Completes(recvScript, |msgs|, MESSAGE_SIZE)
      && (lost == 0 || msgs == [])
    ensures consumed == |msgs| ==> book == Defined(Run([], msgs))
  {
    msgs := FreshStream(numMessages, symbol, clock);
    GeneratedEncodable(msgs, Draws(SEED), 1, Padded(symbol), clock);
    consumed, book := FeedBook(msgs, sendClock, sendScript, recvScript, lost);
    StreamIsSafe(msgs[..consumed]);
    assert msgs[..|msgs|] == msgs;
  }
}
