/** The chain event and transfer event writers: rows are shared out among at most six goroutines, each of which
    sends them in statements of at most a thousand. */
module EventWriter {
  import opened Chunking

  const BATCH_SIZE: nat := 100
  const MAX_WORKERS: nat := 6
  const STATEMENT_SIZE: nat := 1000

  // Every event is a row of exactly one statement, in order. The number of goroutines is a minimum of two: one for
  // every hundred events, but no more than six. Each gets the next hundred, or an equal share when they are more than
  // six hundred, and sends it a thousand at a time.
  method InsertEvents<T>(events: seq<T>) returns (goroutines: seq<seq<seq<T>>>)
    ensures Partitions(Flatten(goroutines), events, 1000)
    ensures |goroutines| == Min(CeilDiv(|events|, 100), 6)
    ensures SharedOut(goroutines, events, if |events| > 600 then CeilDiv(|events|, 6) else 100, 1000)
  {
    hide Flatten, Partitions, SharedOut;
    NothingShared<T>(BATCH_SIZE, STATEMENT_SIZE);
    if |events| == 0 {
      return [];
    }
    var batchSize := BATCH_SIZE;
    if |events| > BATCH_SIZE * MAX_WORKERS {
      batchSize := (|events| + MAX_WORKERS - 1) / MAX_WORKERS;
    }
    goroutines := Dispatch(events, batchSize, STATEMENT_SIZE);
    if |events| > BATCH_SIZE * MAX_WORKERS {
      CeilDivAtMost(|events|, batchSize, MAX_WORKERS);
      CeilDivAtMost(|events|, batchSize, MAX_WORKERS - 1);
    }
  }
}
