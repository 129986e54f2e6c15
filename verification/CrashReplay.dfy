/** A balance worker over one partition log, with crashes. A crash may fall in the middle of a flush and
    leave any mixture of old and new rows; the next incarnation starts from the last committed offset
    with watermark 0 and an empty queue. On a log of gRPC batches with increasing slots, replay converges. */
module CrashReplay {
  import opened Wrappers
  import opened Chunking
  import opened BalanceModel
  import opened FlushModel
  import opened IngestWorker

  const SLOT_UNIT: int := 0x1_0000_0000

  // The top 32 bits of every event id in the batch are the batch's slot.
  ghost predicate CarriesSlot(b: Batch) {
    forall r :: r in b.balances ==> r.lastEventId / SLOT_UNIT == b.slot
  }

  // A partition log of gRPC batches with strictly increasing slots. Offsets are log positions.
  ghost predicate GrpcLog(log: seq<Message>) {
    && (forall i :: 0 <= i < |log| ==> log[i].offset == i)
    && (forall i :: 0 <= i < |log| && Batched(log, i).Some? ==>
          Batched(log, i).value.isGrpc && CarriesSlot(Batched(log, i).value))
    && (forall i, j :: 0 <= i < j < |log| && Batched(log, i).Some? && Batched(log, j).Some? ==>
          Batched(log, i).value.slot < Batched(log, j).value.slot)
  }

  function Batched(log: seq<Message>, i: nat): Option<Batch>
    requires i < |log|
  {
    BuildBatch(RouterBalance, log[i])
  }

  function Batches(msgs: seq<Message>): seq<Batch> {
    BuiltFrom(RouterBalance, msgs)
  }

  // ----- Reference: a crash-free run that writes one message at a time -----

  function AfterMessage(rows: Rows, msg: Message): Rows {
    match BuildBatch(RouterBalance, msg)
    case None => rows
    case Some(b) => Applied(rows, Latest(b.balances), true)
  }

  function AfterLog(log: seq<Message>, initial: Rows, n: nat): Rows
    requires n <= |log|
  {
    if n == 0 then initial else AfterMessage(AfterLog(log, initial, n - 1), log[n - 1])
  }

  // All balances of a list of batches, in order.
  function Balances(batches: seq<Batch>): seq<Record> {
    if batches == [] then [] else Balances(batches[..|batches| - 1]) + batches[|batches| - 1].balances
  }

  // What the newest records of log[i..j] say about an account.
  function NewestIn(log: seq<Message>, i: nat, j: nat, a: string): Option<Record>
    requires i <= j <= |log|
  {
    Lookup(Latest(Balances(Batches(log[i..j]))), a)
  }

  // What the last message of a stretch adds.
  lemma LastStep(log: seq<Message>, i: nat, j: nat)
    requires i < j <= |log|
    ensures Batches(log[i..j]) == Batches(log[i..j - 1])
                + (if Batched(log, j - 1).Some? then [Batched(log, j - 1).value] else [])
    ensures Balances(Batches(log[i..j])) ==
            Balances(Batches(log[i..j - 1]))
                + (if Batched(log, j - 1).Some? then Batched(log, j - 1).value.balances else [])
  {
    hide BuildBatch;
    assert log[i..j][..j - 1 - i] == log[i..j - 1];
    if Batched(log, j - 1).Some? {
      var rest := Batches(log[i..j - 1]);
      assert (rest + [Batched(log, j - 1).value])[..|rest|] == rest;
    }
  }

  lemma NewestStep(log: seq<Message>, i: nat, j: nat, a: string)
    requires i < j <= |log|
    ensures NewestIn(log, i, j, a) ==
            match Batched(log, j - 1)
            case None => NewestIn(log, i, j - 1, a)
            case Some(b) => Newer(NewestIn(log, i, j - 1, a), Lookup(Latest(b.balances), a))
  {
    LastStep(log, i, j);
    hide Batches, Balances, Batched, Latest, Newer, Lookup;
    if Batched(log, j - 1).Some? {
      LatestOfConcatenation(Balances(Batches(log[i..j - 1])), Batched(log, j - 1).value.balances, a);
    } else {
      assert Balances(Batches(log[i..j - 1])) + [] == Balances(Batches(log[i..j - 1]));
    }
  }

  lemma {:induction false} NewestSlot(log: seq<Message>, i: nat, j: nat, a: string)
    requires GrpcLog(log) && i <= j <= |log| && NewestIn(log, i, j, a).Some?
    ensures exists k :: i <= k < j && Batched(log, k).Some?
                        && NewestIn(log, i, j, a).value.lastEventId / SLOT_UNIT == Batched(log, k).value.slot
  {
    assert log[i..i] == [];
    assert i < j;
    NewestStep(log, i, j, a);
    if Batched(log, j - 1).Some? && a in Latest(Batched(log, j - 1).value.balances) {
      LatestSlot(Batched(log, j - 1).value, a);
    }
    hide Batched, Latest, NewestIn, CarriesSlot;
    if NewestIn(log, i, j - 1, a).Some? {
      NewestSlot(log, i, j - 1, a);
    }
  }

  lemma LatestSlot(b: Batch, a: string)
    requires CarriesSlot(b) && a in Latest(b.balances)
    ensures Latest(b.balances)[a].lastEventId / SLOT_UNIT == b.slot
  {
    LatestIsNewest(b.balances);
  }

  // Later messages win: the newest record of a longer stretch is the last message's, if it has one.
  lemma NewestExtends(log: seq<Message>, i: nat, j: nat, a: string)
    requires GrpcLog(log) && i < j <= |log|
    ensures NewestIn(log, i, j, a) ==
            match Batched(log, j - 1)
            case None => NewestIn(log, i, j - 1, a)
            case Some(b) => if a in Latest(b.balances) then Some(Latest(b.balances)[a]) else NewestIn(log, i, j - 1, a)
  {
    NewestStep(log, i, j, a);
    hide Batched, Latest, NewestIn, CarriesSlot;
    if Batched(log, j - 1).Some? && NewestIn(log, i, j - 1, a).Some? {
      var b := Batched(log, j - 1).value;
      if a in Latest(b.balances) {
        NewestSlot(log, i, j - 1, a);
        LatestSlot(b, a);
        var x, y := NewestIn(log, i, j - 1, a).value, Latest(b.balances)[a];
        assert x.lastEventId / SLOT_UNIT < y.lastEventId / SLOT_UNIT;
      }
    }
  }

  // Between two positions of the reference run, an account's row moves exactly when a record touches it.
  lemma {:induction false} ReferenceStretch(log: seq<Message>, initial: Rows, i: nat, j: nat, a: string)
    requires GrpcLog(log) && i <= j <= |log|
    ensures Lookup(AfterLog(log, initial, j), a) ==
            match NewestIn(log, i, j, a)
            case None => Lookup(AfterLog(log, initial, i), a)
            case Some(r) => Settled(r)
  {
    if i == j {
      assert log[i..j] == [];
    } else {
      ReferenceStretch(log, initial, i, j - 1, a);
      NewestExtends(log, i, j, a);
    }
  }

  // ----- The machine -----

  // `base` is where this incarnation started; `done` is one past the last message whose batch was flushed;
  // `high` is one past the last message whose batch any incarnation has ever begun to write.
  datatype Node = Node(base: nat, view: View, done: nat, high: nat)
  {
    function Committed(): nat {
      if view.commits == [] then base else view.commits[|view.commits| - 1] + 1
    }
  }

  datatype Step =
    | Take(n: nat)
    | Flush(n: nat, commitOk: bool, now: int)
    | Crash(n: nat, rows: Rows, now: int)    // while the first n queued batches are being written

  function Begin(log: seq<Message>, base: nat, rows: Rows, now: int): View
    requires base <= |log|
  {
    View(log[base..], [], [], [], [], 0, now, rows)
  }

  function Start(log: seq<Message>, initial: Rows, now: int): Node {
    Node(0, Begin(log, 0, initial, now), 0, 0)
  }

  function DoneAfter(node: Node, n: nat): nat
    requires n <= |node.view.queue|
  {
    if n == 0 then node.done else node.view.queue[n - 1].offset + 1
  }

  // A flush cut short leaves every row as it was or as the realtime or the whole flush would leave it.
  ghost predicate Torn(v: View, n: nat, rows: Rows)
    requires n <= |v.queue|
  {
    var f := v.queue[..n];
    || Between(v.rows, AfterRealtime(v.rows, v.lastSlot, f), rows)
    || Between(AfterRealtime(v.rows, v.lastSlot, f), FlushRows(v.rows, v.lastSlot, f), rows)
  }

  ghost predicate Next(log: seq<Message>, s: Node, step: Step, s': Node) {
    match step
    case Take(n) =>
      n <= |s.view.channel| && s' == s.(view := s.view.Take(RouterBalance, n))
    case Flush(n, commitOk, now) =>
      n <= |s.view.queue| &&
      s' == Node(s.base, s.view.Flush(RouterBalance, n, commitOk, now), DoneAfter(s, n),
                 if DoneAfter(s, n) > s.high then DoneAfter(s, n) else s.high)
    case Crash(n, rows, now) =>
      && n <= |s.view.queue| && Torn(s.view, n, rows)
      && s.Committed() <= |log|
      && s' == Node(s.Committed(), Begin(log, s.Committed(), rows, now), s.Committed(),
                    if DoneAfter(s, n) > s.high then DoneAfter(s, n) else s.high)
  }

  ghost predicate IsRun(log: seq<Message>, initial: Rows, states: seq<Node>, steps: seq<Step>) {
    && |states| == |steps| + 1
    && (exists now :: states[0] == Start(log, initial, now))
    && forall i :: 0 <= i < |steps| ==> Next(log, states[i], steps[i], states[i + 1])
  }

  // ----- Invariant -----

  // Where things stand: the queue is exactly what was taken and not yet flushed.
  ghost predicate Positions(log: seq<Message>, s: Node) {
    && s.base <= s.done <= s.base + |s.view.seen| <= |log|
    && s.done <= s.high <= |log|
    && s.view.seen == log[s.base..s.base + |s.view.seen|]
    && s.view.channel == log[s.base + |s.view.seen|..]
    && s.view.queue == Batches(log[s.done..s.base + |s.view.seen|])
    && s.base <= s.Committed() <= s.done
  }

  // Every batch still to be flushed by this incarnation is newer than its watermark.
  ghost predicate Watermark(log: seq<Message>, s: Node) {
    s.view.lastSlot == 0 ||
    forall k :: s.done <= k < |log| && Batched(log, k).Some? ==> s.view.lastSlot < Batched(log, k).value.slot
  }

  // Account a's row is the reference row of some position between `done` and `high`.
  ghost predicate RowAt(log: seq<Message>, initial: Rows, s: Node, a: string)
    requires s.high <= |log|
  {
    exists k :: s.done <= k <= s.high && Lookup(s.view.rows, a) == Lookup(AfterLog(log, initial, k), a)
  }

  ghost predicate Inv(log: seq<Message>, initial: Rows, s: Node) {
    && Positions(log, s)
    && Watermark(log, s)
    && forall a :: RowAt(log, initial, s, a)
  }

  // ----- Positions of queued batches -----

  lemma BatchedOffset(log: seq<Message>, k: nat)
    requires GrpcLog(log) && k < |log| && Batched(log, k).Some?
    ensures Batched(log, k).value.offset == k
  {
  }

  lemma SplitBeforeTail<T>(init: seq<T>, tail: seq<T>, n: nat)
    requires 0 < n <= |init|
    ensures (init + tail)[n - 1] == init[n - 1]
    ensures (init + tail)[..n] == init[..n] && (init + tail)[n..] == init[n..] + tail
  {
  }

  // e is where the log is cut when the queue of log[i..j] is cut after n batches.
  ghost predicate CutsAt(log: seq<Message>, i: nat, j: nat, n: nat, e: nat) {
    && i < e <= j <= |log| && 0 < n <= |Batches(log[i..j])|
    && e == Batches(log[i..j])[n - 1].offset + 1
    && Batches(log[i..j])[..n] == Batches(log[i..e])
    && Batches(log[i..j])[n..] == Batches(log[e..j])
  }

  lemma CutAtEnd(log: seq<Message>, i: nat, j: nat)
    requires GrpcLog(log) && i < j <= |log| && Batched(log, j - 1).Some?
    ensures CutsAt(log, i, j, |Batches(log[i..j])|, j)
  {
    LastStep(log, i, j);
    BatchedOffset(log, j - 1);
    assert log[j..j] == [] && Batches([]) == [];
    hide BuiltFrom, GrpcLog, Batched;
  }

  lemma CutEarlier(log: seq<Message>, i: nat, j: nat, n: nat, e: nat)
    requires i < j <= |log| && CutsAt(log, i, j - 1, n, e)
    ensures CutsAt(log, i, j, n, e)
  {
    LastStep(log, i, j);
    LastStep(log, e, j);
    hide Batches, Balances, Batched;
    SplitBeforeTail(Batches(log[i..j - 1]), if Batched(log, j - 1).Some? then [Batched(log, j - 1).value] else [], n);
  }

  lemma SomethingQueued(log: seq<Message>, i: nat, j: nat)
    requires i <= j <= |log| && Batches(log[i..j]) != []
    ensures i < j
  {
    assert Batches(log[i..i]) == [];
  }

  // Cutting the queue after n batches cuts the log right after the n-th batch's message.
  lemma {:induction false} QueueSplit(log: seq<Message>, i: nat, j: nat, n: nat) returns (e: nat)
    requires GrpcLog(log) && i <= j <= |log| && 0 < n <= |Batches(log[i..j])|
    ensures CutsAt(log, i, j, n, e)
    decreases j
  {
    hide Batches, Balances, GrpcLog, CutsAt;
    SomethingQueued(log, i, j);
    if n <= |Batches(log[i..j - 1])| {
      e := QueueSplit(log, i, j - 1, n);
      CutEarlier(log, i, j, n, e);
    } else {
      e := j;
      LastStep(log, i, j);
      CutAtEnd(log, i, j);
    }
  }

  lemma {:induction false} BatchOrigin(log: seq<Message>, i: nat, j: nat, b: Batch)
    requires i <= j <= |log| && b in Batches(log[i..j])
    ensures exists k :: i <= k < j && Batched(log, k) == Some(b)
  {
    assert log[i..j][..j - 1 - i] == log[i..j - 1];
    if Batched(log, j - 1) != Some(b) {
      BatchOrigin(log, i, j - 1, b);
    }
  }

  // ----- One flush on such a log is a single blind override -----

  lemma {:induction false} AllRealtime(batches: seq<Batch>, lastSlot: nat)
    requires forall b :: b in batches ==> IsRealtime(b, lastSlot)
    ensures Selected(batches, lastSlot, true) == Balances(batches) && Selected(batches, lastSlot, false) == []
  {
    if batches != [] {
      assert batches[|batches| - 1] in batches;
      AllRealtime(batches[..|batches| - 1], lastSlot);
    }
  }

  lemma FlushedStretch(log: seq<Message>, s: Node, n: nat)
    requires GrpcLog(log) && Positions(log, s) && Watermark(log, s) && n <= |s.view.queue|
    ensures s.done <= DoneAfter(s, n) <= s.base + |s.view.seen|
    ensures s.view.queue[..n] == Batches(log[s.done..DoneAfter(s, n)])
    ensures s.view.queue[n..] == Batches(log[DoneAfter(s, n)..s.base + |s.view.seen|])
    ensures forall b :: b in s.view.queue[..n] ==> IsRealtime(b, s.view.lastSlot)
  {
    if n == 0 {
      assert log[s.done..s.done] == [] && Batches([]) == [];
    } else {
      var e := QueueSplit(log, s.done, s.base + |s.view.seen|, n);
    }
    hide Batches, CutsAt;
    forall b | b in s.view.queue[..n]
      ensures IsRealtime(b, s.view.lastSlot)
    {
      StretchIsRealtime(log, s, DoneAfter(s, n), b);
    }
  }

  // Every batch from the position on is of a later slot than the watermark, or there is no watermark yet.
  lemma StretchIsRealtime(log: seq<Message>, s: Node, e: nat, b: Batch)
    requires GrpcLog(log) && Watermark(log, s) && s.done <= e <= |log| && b in Batches(log[s.done..e])
    ensures IsRealtime(b, s.view.lastSlot)
  {
    BatchOrigin(log, s.done, e, b);
    hide Batches, BuildBatch;
  }

  lemma FlushLookup(log: seq<Message>, s: Node, n: nat, a: string)
    requires GrpcLog(log) && Positions(log, s) && Watermark(log, s) && n <= |s.view.queue|
    requires s.done <= DoneAfter(s, n) <= |log|
    ensures var f := s.view.queue[..n];
            && FlushRows(s.view.rows, s.view.lastSlot, f) == AfterRealtime(s.view.rows, s.view.lastSlot, f)
            && Lookup(FlushRows(s.view.rows, s.view.lastSlot, f), a) ==
               match NewestIn(log, s.done, DoneAfter(s, n), a)
               case None => Lookup(s.view.rows, a)
               case Some(r) => Settled(r)
  {
    var f := s.view.queue[..n];
    FlushedStretch(log, s, n);
    AllRealtime(f, s.view.lastSlot);
    AppliedNothing(AfterRealtime(s.view.rows, s.view.lastSlot, f));
  }

  lemma {:induction false} NewestStays(log: seq<Message>, i: nat, j: nat, k: nat, a: string)
    requires GrpcLog(log) && i <= j <= k <= |log| && NewestIn(log, i, j, a).Some?
    ensures NewestIn(log, i, k, a).Some?
  {
    if j < k {
      NewestStays(log, i, j, k - 1, a);
      NewestExtends(log, i, k, a);
    }
  }

  // If nothing in log[i..k] touches the account, the reference row is the same at every position in between.
  lemma UntouchedStretch(log: seq<Message>, initial: Rows, i: nat, j: nat, k: nat, a: string)
    requires GrpcLog(log) && i <= j <= k <= |log| && NewestIn(log, i, k, a).None?
    ensures Lookup(AfterLog(log, initial, j), a) == Lookup(AfterLog(log, initial, k), a)
  {
    if NewestIn(log, i, j, a).Some? {
      NewestStays(log, i, j, k, a);
    }
    ReferenceStretch(log, initial, i, j, a);
    ReferenceStretch(log, initial, i, k, a);
  }

  // ----- Each step keeps the invariant -----

  // After a flush an account's row is a reference row no older than the new position.
  lemma FlushedRow(log: seq<Message>, initial: Rows, s: Node, n: nat, a: string) returns (k: nat)
    requires GrpcLog(log) && Inv(log, initial, s) && n <= |s.view.queue|
    ensures DoneAfter(s, n) <= k <= |log| && (k <= s.high || k == DoneAfter(s, n))
    ensures Lookup(FlushRows(s.view.rows, s.view.lastSlot, s.view.queue[..n]), a) ==
            Lookup(AfterLog(log, initial, k), a)
  {
    var e := DoneAfter(s, n);
    FlushedStretch(log, s, n);
    FlushLookup(log, s, n, a);
    assert RowAt(log, initial, s, a);
    var older :| s.done <= older <= s.high && Lookup(s.view.rows, a) == Lookup(AfterLog(log, initial, older), a);
    if NewestIn(log, s.done, e, a).Some? {
      ReferenceStretch(log, initial, s.done, e, a);
      k := e;
    } else if older >= e {
      k := older;
    } else {
      UntouchedStretch(log, initial, s.done, older, e, a);
      k := e;
    }
  }

  lemma TakeKeepsPositions(log: seq<Message>, s: Node, n: nat)
    requires Positions(log, s) && n <= |s.view.channel|
    ensures Positions(log, s.(view := s.view.Take(RouterBalance, n)))
  {
    hide BuiltFrom;
    var x := s.base + |s.view.seen|;
    assert log[s.done..x + n] == log[s.done..x] + log[x..x + n];
    BuiltFromConcat(RouterBalance, log[s.done..x], log[x..x + n]);
    assert s.view.channel[..n] == log[x..x + n];
  }

  // The rows and everything the row invariant looks at are unchanged by taking messages.
  lemma TakeKeepsInv(log: seq<Message>, initial: Rows, s: Node, n: nat, s': Node)
    requires GrpcLog(log) && Inv(log, initial, s) && Next(log, s, Take(n), s')
    ensures Inv(log, initial, s')
  {
    TakeKeepsPositions(log, s, n);
    assert s'.view.rows == s.view.rows && s'.view.lastSlot == s.view.lastSlot;
    forall a
      ensures RowAt(log, initial, s', a)
    {
      assert RowAt(log, initial, s, a);
    }
  }

  lemma FlushKeepsWatermark(log: seq<Message>, s: Node, n: nat)
    requires GrpcLog(log) && Positions(log, s) && Watermark(log, s) && n <= |s.view.queue|
    ensures var slot := NextSlot(s.view.lastSlot, s.view.queue[..n]);
            slot == 0 || forall k :: DoneAfter(s, n) <= k < |log| && Batched(log, k).Some? ==>
                slot < Batched(log, k).value.slot
  {
    var f := s.view.queue[..n];
    FlushedStretch(log, s, n);
    MaxSlotBounds(f);
    if MaxSlot(f) > s.view.lastSlot {
      var b :| b in f && b.slot == MaxSlot(f);
      BatchOrigin(log, s.done, DoneAfter(s, n), b);
    }
  }

  lemma FlushKeepsPositions(log: seq<Message>, s: Node, n: nat, commitOk: bool, now: int, s': Node)
    requires GrpcLog(log) && Positions(log, s) && Watermark(log, s) && Next(log, s, Flush(n, commitOk, now), s')
    ensures Positions(log, s')
  {
    hide FlushRows, NextSlot, Batches, GrpcLog, Watermark;
    FlushedStretch(log, s, n);
    assert s'.Committed() in {s.Committed(), DoneAfter(s, n)};
  }

  lemma FlushKeepsNode(log: seq<Message>, initial: Rows, s: Node, n: nat, commitOk: bool, now: int, s': Node)
    requires GrpcLog(log) && Inv(log, initial, s) && Next(log, s, Flush(n, commitOk, now), s')
    ensures Inv(log, initial, s')
  {
    FlushKeepsPositions(log, s, n, commitOk, now, s');
    FlushKeepsWatermark(log, s, n);
    forall a
      ensures RowAt(log, initial, s', a)
    {
      var k := FlushedRow(log, initial, s, n, a);
    }
  }

  lemma CrashKeepsInv(log: seq<Message>, initial: Rows, s: Node, n: nat, rows: Rows, now: int, s': Node)
    requires GrpcLog(log) && Inv(log, initial, s) && Next(log, s, Crash(n, rows, now), s')
    ensures Inv(log, initial, s')
  {
    hide FlushRows, AfterRealtime, AfterLog, Lookup, GrpcLog, NewestIn;
    FlushedStretch(log, s, n);
    assert log[s'.done..s'.done] == [];
    forall a
      ensures RowAt(log, initial, s', a)
    {
      FlushLookup(log, s, n, a);
      assert RowAt(log, initial, s, a);
      var k := FlushedRow(log, initial, s, n, a);
    }
  }

  lemma NextInv(log: seq<Message>, initial: Rows, s: Node, step: Step, s': Node)
    requires GrpcLog(log) && Inv(log, initial, s) && Next(log, s, step, s')
    ensures Inv(log, initial, s')
  {
    match step {
      case Take(n) => TakeKeepsInv(log, initial, s, n, s');
      case Flush(n, commitOk, now) => FlushKeepsNode(log, initial, s, n, commitOk, now, s');
      case Crash(n, rows, now) => CrashKeepsInv(log, initial, s, n, rows, now, s');
    }
  }

  lemma {:induction false} RunInv(log: seq<Message>, initial: Rows, states: seq<Node>, steps: seq<Step>, i: nat)
    requires GrpcLog(log) && IsRun(log, initial, states, steps) && i < |states|
    ensures Inv(log, initial, states[i])
  {
    if i == 0 {
      assert log[0..0] == [];
      forall a
        ensures RowAt(log, initial, states[0], a)
      {
        assert Lookup(states[0].view.rows, a) == Lookup(AfterLog(log, initial, 0), a);
      }
    } else {
      RunInv(log, initial, states, steps, i - 1);
      NextInv(log, initial, states[i - 1], steps[i - 1], states[i]);
    }
  }

  // ----- Results -----

  // The worker has consumed the log and flushed everything it queued.
  ghost predicate AtLogEnd(s: Node) {
    s.view.channel == [] && s.view.queue == []
  }

  // Convergence: whatever the flush sizes, failed commits and crashes, a run that reaches the end of the log
  // leaves the table of the crash-free reference run.
  lemma ReplayConverges(log: seq<Message>, initial: Rows, states: seq<Node>, steps: seq<Step>, i: nat)
    requires GrpcLog(log) && IsRun(log, initial, states, steps) && i < |states| && AtLogEnd(states[i])
    ensures states[i].view.rows == AfterLog(log, initial, |log|)
  {
    RunInv(log, initial, states, steps, i);
    var s := states[i];
    forall a
      ensures Lookup(s.view.rows, a) == Lookup(AfterLog(log, initial, |log|), a)
    {
      assert RowAt(log, initial, s, a);
      var k :| s.done <= k <= s.high && Lookup(s.view.rows, a) == Lookup(AfterLog(log, initial, k), a);
      assert NewestIn(log, s.done, |log|, a).None?;
      UntouchedStretch(log, initial, s.done, k, |log|, a);
    }
    SameLookupsSameRows(s.view.rows, AfterLog(log, initial, |log|));
  }

  // A crash never loses a batch: what is committed has been flushed, in every reachable state.
  lemma CommittedIsFlushed(log: seq<Message>, initial: Rows, states: seq<Node>, steps: seq<Step>, i: nat)
    requires GrpcLog(log) && IsRun(log, initial, states, steps) && i < |states|
    ensures states[i].Committed() <= states[i].done <= states[i].base + |states[i].view.seen| <= |log|
    ensures states[i].view.queue == Batches(log[states[i].done..states[i].base + |states[i].view.seen|])
  {
    RunInv(log, initial, states, steps, i);
  }
}
