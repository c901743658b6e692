// A message feed through a queue into a book: the parameters of the pipelines.
module Feeds {
  // The book is any state with a function that applies one message to it.
  datatype Config<!B, !M> = Config(size: nat, msgs: seq<M>, book0: B, apply: (B, M) -> B)

  // The sequential fold of the first n messages.
  function BookAfter<B, M>(cfg: Config<B, M>, n: nat): B
    requires n <= |cfg.msgs|
  {
    if n == 0 then cfg.book0 else cfg.apply(BookAfter(cfg, n - 1), cfg.msgs[n - 1])
  }
}
