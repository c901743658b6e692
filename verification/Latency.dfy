// What the latency samples of one message are: exact differences of clock readings, in order.
module Latency {
  // The consumer's clock readings for one message.
  datatype Readings = Readings(popTs: nat, bookStart: nat, bookEnd: nat, end: nat)

  ghost predicate ExactSamples(producerTs: nat, pushTs: nat, t: Readings, wait: nat, bookTime: nat, pipeline: nat) {
    && producerTs <= pushTs <= t.popTs <= t.bookStart <= t.bookEnd <= t.end
    && wait == t.popTs - pushTs && bookTime == t.bookEnd - t.bookStart && pipeline == t.end - producerTs
  }
}
