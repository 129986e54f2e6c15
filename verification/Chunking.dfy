/** Splitting a list into consecutive chunks, as every batch writer does before it builds statements. */
module Chunking {

  function Min(x: int, y: int): int {
    if x <= y then x else y
  }

  // Number of chunks of at most `size` items that cover `total` items.
  function CeilDiv(total: nat, size: nat): nat
    requires size > 0
  {
    (total + size - 1) / size
  }

  function Flatten<T>(chunks: seq<seq<T>>): seq<T> {
    if chunks == [] then [] else chunks[0] + Flatten(chunks[1..])
  }

  lemma {:induction false} FlattenAppend<T>(chunks: seq<seq<T>>, last: seq<T>)
    ensures Flatten(chunks + [last]) == Flatten(chunks) + last
  {
    if chunks == [] {
      assert chunks + [last] == [last];
      assert Flatten([last][1..]) == [];
    } else {
      FlattenAppend(chunks[1..], last);
      assert (chunks + [last])[1..] == chunks[1..] + [last];
    }
  }

  // Every item is in exactly one chunk, in order, and no chunk is empty or too long.
  ghost predicate Partitions<T>(chunks: seq<seq<T>>, items: seq<T>, size: nat) {
    && Flatten(chunks) == items
    && forall c :: c in chunks ==> 0 < |c| <= size
  }

  // What a loop that advances by `size` and clips at the end takes at position `from`.
  function Slice<T>(items: seq<T>, from: nat, size: nat): seq<T> {
    if from >= |items| then [] else items[from..Min(from + size, |items|)]
  }

  function Offset(k: nat, size: nat): nat {
    k * size
  }

  ghost predicate CutEvery<T>(chunks: seq<seq<T>>, items: seq<T>, size: nat) {
    forall k: nat :: k < |chunks| ==> chunks[k] == Slice(items, Offset(k, size), size)
  }

  // Every goroutine has the rows from its own start on, cut into full statements and a last shorter one.
  ghost predicate SharedOut<T>(goroutines: seq<seq<seq<T>>>, rows: seq<T>, batchSize: nat, statementSize: nat)
    requires statementSize > 0
  {
    forall g: nat :: g < |goroutines| ==>
        IsShare(goroutines[g], Slice(rows, Offset(g, batchSize), batchSize), statementSize)
  }

  ghost predicate IsShare<T>(statements: seq<seq<T>>, batch: seq<T>, statementSize: nat)
    requires statementSize > 0
  {
    Flatten(statements) == batch && CutEvery(statements, batch, statementSize)
    && |statements| == CeilDiv(|batch|, statementSize)
  }

  // The chunk loop shared by the writers: advance by `size`, clip the last chunk.
  method Split<T>(items: seq<T>, size: nat) returns (chunks: seq<seq<T>>)
    requires size > 0
    ensures Partitions(chunks, items, size)
    ensures |chunks| == CeilDiv(|items|, size)
    ensures CutEvery(chunks, items, size)
  {
    hide CutEvery, CeilDiv, Flatten, Partitions, Offset;
    NothingCut(items, size);
    chunks := [];
    var i := 0;
    assert items[..0] == [];
    while i < |items|
      invariant i == Offset(|chunks|, size)
      invariant |chunks| <= CeilDiv(|items|, size)
      invariant Partitions(chunks, items[..Min(i, |items|)], size)
      invariant CutEvery(chunks, items, size)
      decreases |items| - i
    {
      var end := i + size;
      if end > |items| {
        end := |items|;
      }
      OneMoreChunk(chunks, items, size, i);
      NextCut(chunks, items, size, items[i..end]);
      ChunkCountStep(|chunks|, |items|, size);
      chunks := chunks + [items[i..end]];
      i := i + size;
    }
    assert items[..|items|] == items;
    ChunkCountDone(|chunks|, |items|, size);
  }

  lemma NothingCut<T>(items: seq<T>, size: nat)
    ensures Partitions<T>([], [], size) && CutEvery<T>([], items, size) && Offset(0, size) == 0
  {
  }

  lemma OneMoreChunk<T>(chunks: seq<seq<T>>, items: seq<T>, size: nat, i: nat)
    requires size > 0 && i < |items| && Partitions(chunks, items[..i], size)
    ensures var end := Min(i + size, |items|); Partitions(chunks + [items[i..end]], items[..end], size)
  {
    var end := Min(i + size, |items|);
    FlattenAppend(chunks, items[i..end]);
    assert items[..i] + items[i..end] == items[..end];
    hide Flatten;
  }

  lemma NextCut<T>(chunks: seq<seq<T>>, items: seq<T>, size: nat, next: seq<T>)
    requires CutEvery(chunks, items, size) && next == Slice(items, Offset(|chunks|, size), size)
    ensures CutEvery(chunks + [next], items, size)
  {
    hide Slice, Offset;
  }

  lemma ChunkCountStep(done: nat, total: nat, size: nat)
    requires size > 0 && Offset(done, size) < total
    ensures done + 1 <= CeilDiv(total, size)
    ensures Offset(done + 1, size) == Offset(done, size) + size
  {
    DivisionLowerBound(total + size - 1, size, done + 1);
  }

  lemma ChunkCountDone(done: nat, total: nat, size: nat)
    requires size > 0 && Offset(done, size) >= total && done <= CeilDiv(total, size)
    ensures done == CeilDiv(total, size)
  {
    CeilDivAtMost(total, size, done);
  }

  lemma ProductMonotone(x: nat, y: nat, size: nat)
    requires x <= y
    ensures x * size <= y * size
  {
    assert y * size == x * size + (y - x) * size;
  }

  lemma DivisionLowerBound(n: nat, size: nat, q: nat)
    requires size > 0 && q * size <= n
    ensures q <= n / size
  {
    assert n == (n / size) * size + n % size;
    if n / size < q {
      ProductMonotone(n / size + 1, q, size);
      assert false;
    }
  }

  // ceil(total / size) <= k exactly when k chunks are enough.
  lemma CeilDivAtMost(total: nat, size: nat, k: nat)
    requires size > 0
    ensures CeilDiv(total, size) <= k <==> total <= k * size
  {
    var q := CeilDiv(total, size);
    assert q * size <= total + size - 1 < q * size + size;
    if q <= k {
      ProductMonotone(q, k, size);
    } else {
      ProductMonotone(k + 1, q, size);
      assert (k + 1) * size == k * size + size;
    }
  }

  // What every writer does with its rows: a goroutine per batch, and inside it a statement per chunk.
  method Dispatch<T>(rows: seq<T>, batchSize: nat, statementSize: nat) returns (goroutines: seq<seq<seq<T>>>)
    requires rows != [] ==> batchSize > 0
    requires statementSize > 0
    ensures Partitions(Flatten(goroutines), rows, statementSize)
    ensures |goroutines| == if rows == [] then 0 else CeilDiv(|rows|, batchSize)
    ensures SharedOut(goroutines, rows, batchSize, statementSize)
  {
    hide Flatten, Partitions, CeilDiv, IsShare, CutEvery, SharedOut, Offset, Slice;
    NothingShared<T>(batchSize, statementSize);
    if rows == [] {
      return [];
    }
    var batches := Split(rows, batchSize);
    goroutines := [];
    assert batches[..0] == [];
    PartitionIsWhole(batches, rows, batchSize);
    for i := 0 to |batches|
      invariant |goroutines| == i
      invariant Partitions(Flatten(goroutines), Flatten(batches[..i]), statementSize)
      invariant SharedOut(goroutines, rows, batchSize, statementSize)
    {
      var statements := Split(batches[i], statementSize);
      CutAt(batches, rows, batchSize, i);
      BatchIsShare(statements, batches[i], statementSize);
      NextShare(goroutines, rows, batchSize, statements, statementSize);
      OneMoreGoroutine(goroutines, Flatten(batches[..i]), statements, batches[i], statementSize);
      FlattenAppend(batches[..i], batches[i]);
      assert batches[..i] + [batches[i]] == batches[..i + 1];
      goroutines := goroutines + [statements];
    }
    assert batches[..|batches|] == batches;
  }

  lemma NothingShared<T>(batchSize: nat, size: nat)
    requires size > 0
    ensures Flatten<T>([]) == [] && Flatten<seq<T>>([]) == [] && Partitions<T>([], [], size)
    ensures forall rows: seq<T> :: SharedOut<T>([], rows, batchSize, size)
  {
  }

  lemma PartitionIsWhole<T>(chunks: seq<seq<T>>, items: seq<T>, size: nat)
    requires Partitions(chunks, items, size)
    ensures Flatten(chunks) == items
  {
  }

  lemma CutAt<T>(chunks: seq<seq<T>>, items: seq<T>, size: nat, k: nat)
    requires CutEvery(chunks, items, size) && k < |chunks|
    ensures chunks[k] == Slice(items, Offset(k, size), size)
  {
    hide Slice, Offset;
  }

  lemma BatchIsShare<T>(statements: seq<seq<T>>, batch: seq<T>, size: nat)
    requires size > 0 && Partitions(statements, batch, size) && CutEvery(statements, batch, size)
    requires |statements| == CeilDiv(|batch|, size)
    ensures IsShare(statements, batch, size)
  {
    hide CutEvery, CeilDiv;
  }

  lemma NextShare<T>(goroutines: seq<seq<seq<T>>>, rows: seq<T>, batchSize: nat, statements: seq<seq<T>>, size: nat)
    requires size > 0 && SharedOut(goroutines, rows, batchSize, size)
    requires IsShare(statements, Slice(rows, Offset(|goroutines|, batchSize), batchSize), size)
    ensures SharedOut(goroutines + [statements], rows, batchSize, size)
  {
    hide IsShare, Slice, Offset;
  }

  lemma OneMoreGoroutine<T>(goroutines: seq<seq<seq<T>>>, rows: seq<T>, statements: seq<seq<T>>, batch: seq<T>,
                            size: nat)
    requires Partitions(Flatten(goroutines), rows, size) && Partitions(statements, batch, size)
    ensures Partitions(Flatten(goroutines + [statements]), rows + batch, size)
  {
    FlattenAppend(goroutines, statements);
    FlattenConcat(Flatten(goroutines), statements);
    hide Flatten;
  }

  lemma {:induction false} FlattenConcat<T>(a: seq<seq<T>>, b: seq<seq<T>>)
    ensures Flatten(a + b) == Flatten(a) + Flatten(b)
  {
    if a == [] {
      assert a + b == b;
    } else {
      var rest := a[1..];
      FlattenConcat(rest, b);
      FlattenFront(a[0], rest);
      FlattenFront(a[0], rest + b);
      hide Flatten;
      Regrouped([a[0]], rest, b);
      Regrouped(a[0], Flatten(rest), Flatten(b));
      assert a == [a[0]] + rest;
    }
  }

  lemma Regrouped<T>(x: seq<T>, y: seq<T>, z: seq<T>)
    ensures (x + y) + z == x + (y + z)
  {
  }

  lemma FlattenFront<T>(first: seq<T>, rest: seq<seq<T>>)
    ensures Flatten([first] + rest) == first + Flatten(rest)
  {
    assert ([first] + rest)[1..] == rest;
  }
}
