/** The per-partition worker: an event loop over a message channel, a FIFO queue of batches,
    a slot watermark and an offset commit. */
module IngestWorker {
  import opened Wrappers
  import opened Chunking
  import opened BalanceModel
  import opened BalanceWriter
  import opened FlushModel

  ghost predicate Increasing(s: seq<nat>) {
    forall i, j :: 0 <= i < j < |s| ==> s[i] < s[j]
  }

  // Kafka delivers a partition in offset order.
  ghost predicate InOrder(msgs: seq<Message>) {
    msgs == [] ||
    var init, last := msgs[..|msgs| - 1], msgs[|msgs| - 1];
    InOrder(init) && forall m :: m in init ==> m.offset < last.offset
  }

  lemma {:induction false} InOrderPrefix(x: seq<Message>, all: seq<Message>)
    requires InOrder(all) && x <= all
    ensures InOrder(x)
  {
    if x != all {
      InOrderPrefix(x, all[..|all| - 1]);
    }
  }

  // Batches built from messages in offset order are themselves in offset order.
  lemma {:induction false} BuiltInOrder(router: RouterType, msgs: seq<Message>)
    requires InOrder(msgs)
    ensures var built := BuiltFrom(router, msgs);
            && (forall i, j :: 0 <= i < j < |built| ==> built[i].offset < built[j].offset)
            && forall b :: b in built ==> exists m :: m in msgs && m.offset == b.offset
  {
    if msgs != [] {
      var init, last := msgs[..|msgs| - 1], msgs[|msgs| - 1];
      BuiltInOrder(router, init);
      var built := BuiltFrom(router, msgs);
      forall b | b in BuiltFrom(router, init)
        ensures b.offset < last.offset
        ensures exists m :: m in msgs && m.offset == b.offset
      {
        var m :| m in init && m.offset == b.offset;
        assert m in msgs;
      }
      assert last in msgs;
    }
  }

  lemma QueueInOrder(router: RouterType, seen: seq<Message>, channel: seq<Message>, flushed: seq<Batch>,
                     queue: seq<Batch>)
    requires InOrder(seen + channel) && flushed + queue == BuiltFrom(router, seen)
    ensures forall i, j :: 0 <= i < j < |queue| ==> queue[i].offset < queue[j].offset
    ensures forall b :: b in queue ==> exists m :: m in seen && m.offset == b.offset
  {
    InOrderPrefix(seen, seen + channel);
    BuiltInOrder(router, seen);
    var built := BuiltFrom(router, seen);
    assert forall i :: 0 <= i < |queue| ==> queue[i] == built[|flushed| + i];
  }

  // Offset c was taken from the channel, and nothing at or before it still waits in the queue.
  ghost predicate CommitSafe(seen: seq<Message>, queue: seq<Batch>, c: nat) {
    && (exists m :: m in seen && m.offset == c)
    && (forall b :: b in queue ==> c < b.offset)
  }

  // Taking the first n batches off an ordered queue keeps old commits safe, and makes the n-th offset safe.
  lemma CommitStep(seen: seq<Message>, queue: seq<Batch>, commits: seq<nat>, n: nat)
    requires n <= |queue| && Increasing(commits)
    requires forall i, j :: 0 <= i < j < |queue| ==> queue[i].offset < queue[j].offset
    requires forall b :: b in queue ==> exists m :: m in seen && m.offset == b.offset
    requires forall c :: c in commits ==> CommitSafe(seen, queue, c)
    ensures forall c :: c in commits ==> CommitSafe(seen, queue[n..], c)
    ensures n > 0 ==> Increasing(commits + [queue[n - 1].offset]) && CommitSafe(seen, queue[n..], queue[n - 1].offset)
  {
    forall c | c in commits
      ensures CommitSafe(seen, queue[n..], c)
    {
      assert CommitSafe(seen, queue, c);
    }
    if n > 0 {
      assert queue[n - 1] in queue;
      forall i | 0 <= i < |commits|
        ensures commits[i] < queue[n - 1].offset
      {
        assert CommitSafe(seen, queue, commits[i]);
      }
    }
  }

  // The worker's state as a value: channel, messages taken, queue, what each flush handed over,
  // offsets committed, watermark, time of the last flush, balance rows.
  datatype View = View(channel: seq<Message>, seen: seq<Message>, queue: seq<Batch>, flushes: seq<seq<Batch>>,
                       commits: seq<nat>, lastSlot: nat, flushedAt: int, rows: Rows)
  {
    ghost predicate Inv(router: RouterType, initial: Rows) {
      && Flatten(flushes) + queue == BuiltFrom(router, seen)
      && lastSlot == AfterFlushes(initial, flushes).lastSlot
      && (router.RouterBalance? ==> rows == AfterFlushes(initial, flushes).rows)
      && InOrder(seen + channel)
      && Increasing(commits)
      && (forall c :: c in commits ==> CommitSafe(seen, queue, c))
    }

    function Take(router: RouterType, n: nat): View
      requires n <= |channel|
    {
      this.(channel := channel[n..], seen := seen + channel[..n], queue := queue + BuiltFrom(router, channel[..n]))
    }

    function FlushCount(maxBatchFlush: nat): nat {
      Min(|queue|, maxBatchFlush)
    }

    function Flush(router: RouterType, n: nat, commitOk: bool, now: int): View
      requires n <= |queue|
    {
      this.(queue := queue[n..],
            flushes := flushes + [queue[..n]],
            commits := if Commits(router, queue[..n], commitOk) then commits + [queue[n - 1].offset] else commits,
            lastSlot := NextSlot(lastSlot, queue[..n]),
            flushedAt := now,
            rows := if router.RouterBalance? then FlushRows(rows, lastSlot, queue[..n]) else rows)
    }

    // How many messages one message turn takes: one, plus a whole batch of them if they are waiting.
    function TakeCount(router: RouterType, maxBatchFlush: nat): nat
      requires channel != []
    {
      var queued := |Take(router, 1).queue|;
      if maxBatchFlush > queued && |channel| - 1 >= maxBatchFlush - queued then 1 + (maxBatchFlush - queued) else 1
    }

    // The message case of the select loop: take messages, then flush if enough batches are held.
    function MessageTurn(router: RouterType, maxBlockHold: nat, maxBatchFlush: nat, commitOk: bool, now: int): View
      requires channel != []
    {
      var taken := Take(router, TakeCount(router, maxBatchFlush));
      if |taken.queue| >= maxBlockHold && taken.queue != []
      then taken.Flush(router, taken.FlushCount(maxBatchFlush), commitOk, now) else taken
    }

    // The ticker case: flush what has waited too long.
    function TickTurn(router: RouterType, maxBatchFlush: nat, flushInterval: int, commitOk: bool, now: int): View {
      if queue != [] && now - flushedAt > flushInterval
      then Flush(router, FlushCount(maxBatchFlush), commitOk, now) else this
    }

    function Arrive(msgs: seq<Message>): View {
      this.(channel := channel + msgs)
    }

    // A run of the loop. A message turn can only be chosen while the channel holds a message.
    function Run(router: RouterType, maxBlockHold: nat, maxBatchFlush: nat, flushInterval: int,
                 turns: seq<Turn>): View {
      if turns == [] then this
      else
        var last := turns[|turns| - 1];
        var v := Run(router, maxBlockHold, maxBatchFlush, flushInterval, turns[..|turns| - 1]).Arrive(last.arrived);
        match last
        case OnMessage(_, now, commitOk) =>
          if v.channel != [] then v.MessageTurn(router, maxBlockHold, maxBatchFlush, commitOk, now) else v
        case OnTick(_, now, commitOk) =>
          v.TickTurn(router, maxBatchFlush, flushInterval, commitOk, now)
    }
  }

  // One turn of the select loop. Messages that reached the channel since the last turn are `arrived`.
  datatype Turn =
    | OnMessage(arrived: seq<Message>, now: int, commitOk: bool)
    | OnTick(arrived: seq<Message>, now: int, commitOk: bool)

  function Arrivals(turns: seq<Turn>): seq<Message> {
    if turns == [] then [] else Arrivals(turns[..|turns| - 1]) + turns[|turns| - 1].arrived
  }

  // Whether a flush commits: the balance router skips the commit when there was nothing to write.
  predicate Commits(router: RouterType, batches: seq<Batch>, commitOk: bool) {
    batches != [] && commitOk && (router.RouterBalance? ==> TotalBalances(batches) > 0)
  }

  // A message still in the channel has a greater offset than anything taken before.
  lemma NextMessageIsLater(seen: seq<Message>, channel: seq<Message>)
    requires InOrder(seen + channel) && channel != []
    ensures forall m :: m in seen ==> m.offset < channel[0].offset
  {
    var upTo := seen + [channel[0]];
    InOrderPrefix(upTo, seen + channel);
    assert upTo[..|upTo| - 1] == seen;
  }

  lemma TakeOneKeepsCommits(v: View, router: RouterType, initial: Rows)
    requires v.Inv(router, initial) && v.channel != []
    ensures var w := v.Take(router, 1); forall c :: c in w.commits ==> CommitSafe(w.seen, w.queue, c)
  {
    hide AfterFlushes, InOrder, Increasing;
    var w, msg := v.Take(router, 1), v.channel[..1];
    NextMessageIsLater(v.seen, v.channel);
    assert msg[..0] == [];
    assert forall b :: b in BuiltFrom(router, msg) ==> b.offset == msg[0].offset;
    forall c | c in w.commits
      ensures CommitSafe(w.seen, w.queue, c)
    {
      assert CommitSafe(v.seen, v.queue, c);
      var m :| m in v.seen && m.offset == c;
      assert m in w.seen;
    }
  }

  lemma TakeOneKeepsInv(v: View, router: RouterType, initial: Rows)
    requires v.Inv(router, initial) && v.channel != []
    ensures v.Take(router, 1).Inv(router, initial)
  {
    hide AfterFlushes, BuiltFrom, CommitSafe, InOrder;
    var w, msg := v.Take(router, 1), v.channel[..1];
    BuiltFromConcat(router, v.seen, msg);
    assert w.seen + w.channel == v.seen + v.channel;
    TakeOneKeepsCommits(v, router, initial);
  }

  lemma TakeOneThenMore(v: View, router: RouterType, n: nat)
    requires 0 < n <= |v.channel|
    ensures v.Take(router, n) == v.Take(router, n - 1).Take(router, 1)
  {
    hide BuiltFrom;
    var u := v.Take(router, n - 1);
    BuiltFromConcat(router, v.channel[..n - 1], u.channel[..1]);
    assert v.channel[..n] == v.channel[..n - 1] + u.channel[..1];
  }

  lemma {:induction false} TakeKeepsInv(v: View, router: RouterType, initial: Rows, n: nat)
    requires v.Inv(router, initial) && n <= |v.channel|
    ensures v.Take(router, n).Inv(router, initial)
  {
    if n == 0 {
      assert v.Take(router, 0) == v;
    } else {
      TakeKeepsInv(v, router, initial, n - 1);
      TakeOneThenMore(v, router, n);
      TakeOneKeepsInv(v.Take(router, n - 1), router, initial);
    }
  }

  lemma FlushKeepsOrder(flushes: seq<seq<Batch>>, queue: seq<Batch>, n: nat)
    requires n <= |queue|
    ensures Flatten(flushes + [queue[..n]]) + queue[n..] == Flatten(flushes) + queue
  {
    FlattenAppend(flushes, queue[..n]);
    assert queue == queue[..n] + queue[n..];
  }

  lemma FlushKeepsInv(v: View, router: RouterType, initial: Rows, n: nat, commitOk: bool, now: int)
    requires v.Inv(router, initial) && n <= |v.queue|
    ensures v.Flush(router, n, commitOk, now).Inv(router, initial)
  {
    FlushKeepsOrder(v.flushes, v.queue, n);
    AfterOneMore(initial, v.flushes, v.queue[..n]);
    FlushKeepsCommits(v, router, initial, n, commitOk, now);
  }

  lemma FlushKeepsCommits(v: View, router: RouterType, initial: Rows, n: nat, commitOk: bool, now: int)
    requires v.Inv(router, initial) && n <= |v.queue|
    ensures var w := v.Flush(router, n, commitOk, now);
            && Increasing(w.commits)
            && (forall c :: c in w.commits ==> CommitSafe(w.seen, w.queue, c))
  {
    QueueInOrder(router, v.seen, v.channel, Flatten(v.flushes), v.queue);
    CommitStep(v.seen, v.queue, v.commits, n);
  }

  // Both laws of a flush, for every record at once.
  lemma FlushInFields(rows: Rows, lastSlot: nat, f: seq<Batch>)
    ensures NoneLive(f, lastSlot) ==> NeverDecreases(rows, FlushRows(rows, lastSlot, f))
    ensures AllLive(f, lastSlot) ==> forall r :: NewestInFlush(f, r) ==>
              var after := FlushRows(rows, lastSlot, f);
              if r.balance == "0" then r.account !in after else r.account in after && after[r.account] == r
  {
    if NoneLive(f, lastSlot) {
      BackfillNeverLowers(rows, lastSlot, f);
    }
    if AllLive(f, lastSlot) {
      forall r | NewestInFlush(f, r)
        ensures var after := FlushRows(rows, lastSlot, f);
                if r.balance == "0" then r.account !in after else r.account in after && after[r.account] == r
      {
        LiveFlushOverwrites(rows, lastSlot, f, r);
      }
    }
  }

  // A batch list with something to write.
  lemma {:induction false} SomethingToWrite(batches: seq<Batch>)
    ensures TotalBalances(batches) > 0 <==> exists b :: b in batches && b.balances != []
  {
    if batches != [] {
      var init, last := batches[..|batches| - 1], batches[|batches| - 1];
      SomethingToWrite(init);
      assert batches == init + [last];
      assert last in batches;
    }
  }

  class WorkerContext {
    const router: RouterType
    const table: BalanceTable
    const maxBlockHold: nat
    const maxBatchFlush: nat
    const flushInterval: int
    var channel: seq<Message>
    var queue: seq<Batch>
    var flushCounter: nat
    var lastFlushTime: int
    var lastSlot: nat
    ghost const initial: Rows
    ghost var seen: seq<Message>
    ghost var flushes: seq<seq<Batch>>
    ghost var commits: seq<nat>

    ghost function State(): View
      reads this, table
    {
      View(channel, seen, queue, flushes, commits, lastSlot, lastFlushTime, table.rows)
    }

    ghost predicate Valid()
      reads this, table
    {
      State().Inv(router, initial)
    }

    constructor (router: RouterType, table: BalanceTable, maxBlockHold: nat, maxBatchFlush: nat, flushInterval: int,
                 now: int)
      ensures Valid() && State() == View([], [], [], [], [], 0, now, table.rows)
      ensures this.router == router && this.table == table && initial == table.rows
      ensures this.maxBlockHold == maxBlockHold && this.maxBatchFlush == maxBatchFlush
                  && this.flushInterval == flushInterval
    {
      this.router, this.table, initial := router, table, table.rows;
      this.maxBlockHold, this.maxBatchFlush, this.flushInterval := maxBlockHold, maxBatchFlush, flushInterval;
      channel, queue, flushCounter, lastFlushTime, lastSlot := [], [], 0, now, 0;
      seen, flushes, commits := [], [], [];
    }

    // Take one message from the channel and queue its batch, if it has one.
    method HandleMessage()
      requires channel != []
      modifies this`channel, this`queue, this`seen
      ensures State() == old(State()).Take(router, 1)
    {
      var msg := channel[0];
      assert channel[..1] == [msg] && [msg][..0] == [];
      channel := channel[1..];
      seen := seen + [msg];
      var batch := BuildBatch(router, msg);
      assert BuiltFrom(router, [msg]) == if batch.Some? then [batch.value] else [];
      if batch.Some? {
        queue := queue + [batch.value];
      }
    }

    // Take up to batchSize messages, stopping as soon as the channel is empty.
    method DrainMessages(batchSize: nat)
      modifies this`channel, this`queue, this`seen
      ensures State() == old(State()).Take(router, Min(batchSize, |old(channel)|))
    {
      ghost var start := State();
      assert start.Take(router, 0) == start;
      for i := 0 to batchSize
        invariant i <= |start.channel| && State() == start.Take(router, i)
      {
        if channel == [] {
          return;
        }
        HandleMessage();
        TakeOneThenMore(start, router, i + 1);
      }
    }

    // flushBatches, for the balance router: split by mode, write, commit.
    // Without any balance nothing is written and nothing is committed.
    method FlushBalanceBatches(batches: seq<Batch>) returns (commit: bool)
      requires router.RouterBalance?
      modifies table
      ensures table.rows == FlushRows(old(table.rows), lastSlot, batches)
      ensures commit == (TotalBalances(batches) > 0)
      ensures NoneLive(batches, lastSlot) ==> NeverDecreases(old(table.rows), table.rows)
      ensures AllLive(batches, lastSlot) ==> forall r :: NewestInFlush(batches, r) ==>
                if r.balance == "0" then r.account !in table.rows
                else r.account in table.rows && table.rows[r.account] == r
    {
      FlushInFields(table.rows, lastSlot, batches);
      var total := 0;
      var realtime, historical := [], [];
      assert batches[..0] == [];
      for i := 0 to |batches|
        invariant total == TotalBalances(batches[..i])
        invariant realtime == Selected(batches[..i], lastSlot, true)
        invariant historical == Selected(batches[..i], lastSlot, false)
      {
        assert batches[..i + 1][..i] == batches[..i];
        total := total + |batches[i].balances|;
        if IsRealtime(batches[i], lastSlot) {
          realtime := realtime + batches[i].balances;
        } else {
          historical := historical + batches[i].balances;
        }
      }
      assert batches[..|batches|] == batches;
      if total == 0 {
        NoBalancesNoRecords(batches, lastSlot);
        AppliedNothing(table.rows);
        return false;
      }
      if |realtime| > 0 {
        table.InsertBalances(realtime, true);
      } else {
        AppliedNothing(table.rows);
      }
      if |historical| > 0 {
        table.InsertBalances(historical, false);
      } else {
        AppliedNothing(table.rows);
      }
      commit := true;
    }

    // commitLastMessage: commit the offset of the last batch; the broker may refuse.
    method CommitLastMessage(batches: seq<Batch>, commitOk: bool)
      modifies this`commits
      ensures commits ==
              if batches != [] && commitOk then old(commits) + [batches[|batches| - 1].offset] else old(commits)
    {
      if |batches| == 0 {
        return;
      }
      if commitOk {
        commits := commits + [batches[|batches| - 1].offset];
      }
    }

    method FlushBatches(batches: seq<Batch>, commitOk: bool) returns (maxSlot: nat)
      modifies this`commits, table
      ensures maxSlot == MaxSlot(batches)
      ensures router.RouterBalance? ==> table.rows == FlushRows(old(table.rows), lastSlot, batches)
      ensures router.RouterEvent? ==> table.rows == old(table.rows)
      ensures router.RouterBalance? && NoneLive(batches, lastSlot) ==> NeverDecreases(old(table.rows), table.rows)
      ensures router.RouterBalance? && AllLive(batches, lastSlot) ==> forall r :: NewestInFlush(batches, r) ==>
                if r.balance == "0" then r.account !in table.rows
                else r.account in table.rows && table.rows[r.account] == r
      ensures batches != [] && commitOk && (router.RouterBalance? ==> exists b :: b in batches && b.balances != []) ==>
                commits == old(commits) + [batches[|batches| - 1].offset]
      ensures !commitOk || batches == [] || (router.RouterBalance? && forall b :: b in batches ==> b.balances == []) ==>
                commits == old(commits)
      ensures commits == if Commits(router, batches, commitOk)
                         then old(commits) + [batches[|batches| - 1].offset] else old(commits)
    {
      SomethingToWrite(batches);
      hide FlushRows, NeverDecreases, NewestInFlush, AllLive, NoneLive;
      match router {
        case RouterEvent =>
          // The event writers hold no state of this model; all of them have returned by now.
          CommitLastMessage(batches, commitOk);
        case RouterBalance =>
          var commit := FlushBalanceBatches(batches);
          if commit {
            CommitLastMessage(batches, commitOk);
          }
      }
      maxSlot := 0;
      assert batches[..0] == [];
      for i := 0 to |batches|
        invariant maxSlot == MaxSlot(batches[..i])
      {
        assert batches[..i + 1][..i] == batches[..i];
        if batches[i].slot > maxSlot {
          maxSlot := batches[i].slot;
        }
      }
      assert batches[..|batches|] == batches;
    }

    // One flush takes the oldest batches, at most maxBatchFlush of them.
    method FlushIfNeeded(now: int, commitOk: bool)
      modifies this`queue, this`flushCounter, this`lastFlushTime, this`lastSlot, this`flushes, this`commits, table
      ensures old(queue) == [] ==> State() == old(State())
      ensures old(queue) != [] ==>
                State() == old(State()).Flush(router, old(State()).FlushCount(maxBatchFlush), commitOk, now)
    {
      hide FlushRows, MaxSlot, Flatten, TotalBalances;
      if |queue| == 0 {
        return;
      }
      var flushCount := Min(|queue|, maxBatchFlush);
      var toFlush := queue[..flushCount];
      ghost var goal := State().Flush(router, flushCount, commitOk, now);
      assert toFlush != [] ==> toFlush[|toFlush| - 1] == queue[flushCount - 1];

      var maxSlot := FlushBatches(toFlush, commitOk);
      assert commits == goal.commits && table.rows == goal.rows;

      flushCounter := flushCounter + 1;
      lastFlushTime := now;
      if maxSlot > lastSlot {
        lastSlot := maxSlot;
      }

      // Every hundredth flush copies the rest to a fresh array; the queue is the same either way.
      if flushCounter % 100 == 0 {
        queue := [] + queue[flushCount..];
      } else {
        queue := queue[flushCount..];
      }
      flushes := flushes + [toFlush];
    }

    // The message case of the select loop.
    method OnMessage(now: int, commitOk: bool)
      requires Valid() && channel != []
      modifies this, table
      ensures Valid()
      ensures State() == old(State()).MessageTurn(router, maxBlockHold, maxBatchFlush, commitOk, now)
    {
      ghost var start := State();
      TakeKeepsInv(start, router, initial, start.TakeCount(router, maxBatchFlush));
      HandleMessage();
      var spaceLeft := maxBatchFlush - |queue|;
      if spaceLeft > 0 && |channel| >= spaceLeft {
        TakeMoreAfterOne(start, router, spaceLeft);
        DrainMessages(spaceLeft);
      }
      if |queue| >= maxBlockHold {
        FlushKeepsInv(State(), router, initial, State().FlushCount(maxBatchFlush), commitOk, now);
        FlushIfNeeded(now, commitOk);
      }
    }

    // The ticker case: flush what has waited too long.
    method OnTick(now: int, commitOk: bool)
      requires Valid()
      modifies this, table
      ensures Valid()
      ensures State() == old(State()).TickTurn(router, maxBatchFlush, flushInterval, commitOk, now)
      ensures old(queue) == [] || now - old(lastFlushTime) <= flushInterval ==> State() == old(State())
      ensures old(queue) != [] && now - old(lastFlushTime) > flushInterval ==>
                var n := Min(|old(queue)|, maxBatchFlush);
                && queue == old(queue)[n..] && flushes == old(flushes) + [old(queue)[..n]] && lastFlushTime == now
    {
      if |queue| > 0 && now - lastFlushTime > flushInterval {
        FlushKeepsInv(State(), router, initial, State().FlushCount(maxBatchFlush), commitOk, now);
        FlushIfNeeded(now, commitOk);
      }
    }

    // The select loop, for the turns the scheduler chose.
    method Run(turns: seq<Turn>)
      requires Valid() && InOrder(seen + channel + Arrivals(turns))
      modifies this, table
      ensures Valid()
      ensures State() == old(State()).Run(router, maxBlockHold, maxBatchFlush, flushInterval, turns)
    {
      ghost var start := State();
      assert turns[..0] == [];
      for i := 0 to |turns|
        invariant Valid() && State() == start.Run(router, maxBlockHold, maxBatchFlush, flushInterval, turns[..i])
      {
        PrefixStaysValid(start, router, initial, maxBlockHold, maxBatchFlush, flushInterval, turns, i);
        channel := channel + turns[i].arrived;
        match turns[i] {
          case OnMessage(_, now, commitOk) =>
            if channel != [] {
              OnMessage(now, commitOk);
            }
          case OnTick(_, now, commitOk) =>
            OnTick(now, commitOk);
        }
      }
      assert turns[..|turns|] == turns;
    }
  }

  lemma TakeMoreAfterOne(v: View, router: RouterType, n: nat)
    requires n < |v.channel|
    ensures v.Take(router, 1).Take(router, n) == v.Take(router, 1 + n)
  {
    hide BuiltFrom;
    BuiltFromConcat(router, v.channel[..1], v.channel[1..][..n]);
    assert v.channel[..1 + n] == v.channel[..1] + v.channel[1..][..n];
  }

  // ----- What a turn does, field by field -----

  // A message turn takes one message; if a whole flush of room is left and the channel holds enough to fill it, it
  // takes exactly that many more. Then, at the hold limit, the oldest batches go to the writers.
  lemma MessageTurnMeans(v: View, router: RouterType, hold: nat, flush: nat, commitOk: bool, now: int)
    requires v.channel != []
    ensures var first := if BuildBatch(router, v.channel[0]).Some? then 1 else 0;
            var room := flush - (|v.queue| + first);
            var n := if 0 < room <= |v.channel| - 1 then 1 + room else 1;
            var q, w := v.queue + BuiltFrom(router, v.channel[..n]), v.MessageTurn(router, hold, flush, commitOk, now);
            && w.seen == v.seen + v.channel[..n] && w.channel == v.channel[n..]
            && (|q| < hold || q == [] ==> w.queue == q && w.flushes == v.flushes && w.flushedAt == v.flushedAt)
            && (|q| >= hold && q != [] ==>
                  var k := Min(|q|, flush);
                  w.queue == q[k..] && w.flushes == v.flushes + [q[..k]] && w.flushedAt == now)
  {
    TakesOneOrABatch(v, router, flush);
    var first := if BuildBatch(router, v.channel[0]).Some? then 1 else 0;
    var room := flush - (|v.queue| + first);
    var n := if 0 < room <= |v.channel| - 1 then 1 + room else 1;
    assert v.TakeCount(router, flush) == n;
    hide FlushRows, NextSlot, Commits, BuiltFrom, BuildBatch;
  }

  lemma TakesOneOrABatch(v: View, router: RouterType, flush: nat)
    requires v.channel != []
    ensures var first := if BuildBatch(router, v.channel[0]).Some? then 1 else 0;
            var room := flush - (|v.queue| + first);
            v.TakeCount(router, flush) == if 0 < room <= |v.channel| - 1 then 1 + room else 1
  {
    hide FlushRows, NextSlot, Commits;
    assert v.channel[..1] == [v.channel[0]] && v.channel[..1][..0] == [];
    assert BuiltFrom(router, v.channel[..1][..0]) == [];
  }

  // In a run every turn is taken: a message turn with something in the channel takes from it, and a tick flushes
  // what has waited longer than the interval, and nothing else.
  lemma RunTakesTurns(v: View, router: RouterType, hold: nat, flush: nat, interval: int, turns: seq<Turn>, last: Turn)
    ensures var u := v.Run(router, hold, flush, interval, turns).Arrive(last.arrived);
            var w := v.Run(router, hold, flush, interval, turns + [last]);
            && (last.OnMessage? && u.channel != [] ==> |w.seen| > |u.seen| && u.channel[0] == w.seen[|u.seen|])
            && (last.OnMessage? && u.channel == [] ==> w == u)
            && (last.OnTick? && u.queue != [] && last.now - u.flushedAt > interval ==>
                  var k := Min(|u.queue|, flush); w.queue == u.queue[k..] && w.flushes == u.flushes + [u.queue[..k]])
            && (last.OnTick? && (u.queue == [] || last.now - u.flushedAt <= interval) ==> w == u)
  {
    assert (turns + [last])[..|turns|] == turns;
    var u := v.Run(router, hold, flush, interval, turns).Arrive(last.arrived);
    if last.OnMessage? && u.channel != [] {
      MessageTurnMeans(u, router, hold, flush, last.commitOk, last.now);
    }
  }

  // What is committed: the last offset flushed, whenever the broker is willing and, for balances, something was
  // written; nothing otherwise.
  lemma CommitsMeans(v: View, router: RouterType, n: nat, commitOk: bool, now: int)
    requires n <= |v.queue|
    ensures var w := v.Flush(router, n, commitOk, now);
            w.commits ==
            if n > 0 && commitOk && (router.RouterBalance? ==> exists b :: b in v.queue[..n] && b.balances != [])
            then v.commits + [v.queue[n - 1].offset] else v.commits
  {
    SomethingToWrite(v.queue[..n]);
  }

  // ----- What every run keeps -----

  lemma TurnKeepsInv(v: View, router: RouterType, initial: Rows, hold: nat, flush: nat, interval: int, commitOk: bool,
                     now: int)
    requires v.Inv(router, initial)
    ensures v.channel != [] ==> v.MessageTurn(router, hold, flush, commitOk, now).Inv(router, initial)
    ensures v.TickTurn(router, flush, interval, commitOk, now).Inv(router, initial)
  {
    hide BuiltFrom, AfterFlushes, FlushRows, CommitSafe;
    if v.channel != [] {
      var n := v.TakeCount(router, flush);
      TakeKeepsInv(v, router, initial, n);
      var taken := v.Take(router, n);
      FlushKeepsInv(taken, router, initial, taken.FlushCount(flush), commitOk, now);
    }
    FlushKeepsInv(v, router, initial, v.FlushCount(flush), commitOk, now);
  }

  // Messages are only moved from the channel to those seen.
  lemma TurnKeepsMessages(v: View, router: RouterType, hold: nat, flush: nat, interval: int, commitOk: bool, now: int)
    ensures v.channel != [] ==>
              var w := v.MessageTurn(router, hold, flush, commitOk, now); w.seen + w.channel == v.seen + v.channel
    ensures var w := v.TickTurn(router, flush, interval, commitOk, now); w.seen == v.seen && w.channel == v.channel
  {
    if v.channel != [] {
      var n := v.TakeCount(router, flush);
      assert v.seen + v.channel == (v.seen + v.channel[..n]) + v.channel[n..];
    }
  }

  // Over any run the invariant holds, and what was seen plus what waits is what arrived.
  lemma {:induction false} RunKeepsInv(v: View, router: RouterType, initial: Rows, hold: nat, flush: nat,
                                       interval: int, turns: seq<Turn>)
    requires v.Inv(router, initial) && InOrder(v.seen + v.channel + Arrivals(turns))
    ensures var w := v.Run(router, hold, flush, interval, turns);
            w.Inv(router, initial) && w.seen + w.channel == v.seen + v.channel + Arrivals(turns)
  {
    if turns != [] {
      var init, last := turns[..|turns| - 1], turns[|turns| - 1];
      var before, all := v.seen + v.channel + Arrivals(init), v.seen + v.channel + Arrivals(turns);
      assert all == before + last.arrived;
      InOrderPrefix(before, all);
      RunKeepsInv(v, router, initial, hold, flush, interval, init);
      var u := v.Run(router, hold, flush, interval, init);
      ArriveKeepsInv(u, router, initial, last.arrived, all);
      var w := u.Arrive(last.arrived);
      TurnKeepsInv(w, router, initial, hold, flush, interval, last.commitOk, last.now);
      TurnKeepsMessages(w, router, hold, flush, interval, last.commitOk, last.now);
    } else {
      assert v.seen + v.channel + Arrivals(turns) == v.seen + v.channel;
    }
  }

  lemma ArriveKeepsInv(u: View, router: RouterType, initial: Rows, msgs: seq<Message>, all: seq<Message>)
    requires u.Inv(router, initial) && InOrder(all) && u.seen + u.channel + msgs == all
    ensures u.Arrive(msgs).Inv(router, initial) && u.Arrive(msgs).seen + u.Arrive(msgs).channel == all
  {
    hide BuiltFrom, AfterFlushes, CommitSafe, InOrder;
    assert u.seen + (u.channel + msgs) == all;
  }

  // Over any run, whenever an offset is committed, every batch at or before it has been handed to the writers.
  lemma CommittedMeansHandedOver(v: View, router: RouterType, initial: Rows, hold: nat, flush: nat, interval: int,
                                 turns: seq<Turn>)
    requires v.Inv(router, initial) && InOrder(v.seen + v.channel + Arrivals(turns))
    ensures var w := v.Run(router, hold, flush, interval, turns);
            forall c, b :: c in w.commits && b in BuiltFrom(router, w.seen) && b.offset <= c ==> b in Flatten(w.flushes)
  {
    RunKeepsInv(v, router, initial, hold, flush, interval, turns);
    var w := v.Run(router, hold, flush, interval, turns);
    forall c, b | c in w.commits && b in BuiltFrom(router, w.seen) && b.offset <= c
      ensures b in Flatten(w.flushes)
    {
      assert CommitSafe(w.seen, w.queue, c);
      assert b in Flatten(w.flushes) + w.queue;
    }
  }

  lemma {:induction false} BuiltFromLength(router: RouterType, msgs: seq<Message>)
    ensures |BuiltFrom(router, msgs)| <= |msgs|
  {
    if msgs != [] {
      BuiltFromLength(router, msgs[..|msgs| - 1]);
    }
  }

  // Every flush so far was nonempty and within the limit, and each emptied the queue if the limits allow.
  ghost predicate Disciplined(v: View, hold: nat, flush: nat) {
    && |v.queue| < hold
    && forall f :: f in v.flushes ==> 0 < |f| <= flush
  }

  // How long the queue can be when the threshold is checked.
  lemma TakenBound(v: View, router: RouterType, hold: nat, flush: nat)
    requires hold >= 1 && |v.queue| < hold && v.channel != []
    ensures |v.Take(router, v.TakeCount(router, flush)).queue| <= if hold <= flush then flush else hold
  {
    var n := v.TakeCount(router, flush);
    BuiltFromLength(router, v.channel[..1]);
    BuiltFromLength(router, v.channel[1..n]);
    assert v.channel[..n] == v.channel[..1] + v.channel[1..n];
    BuiltFromConcat(router, v.channel[..1], v.channel[1..n]);
  }

  lemma TurnKeepsDiscipline(v: View, router: RouterType, hold: nat, flush: nat, interval: int, commitOk: bool, now: int)
    requires hold >= 1 && flush >= 1 && Disciplined(v, hold, flush)
    ensures Disciplined(v.TickTurn(router, flush, interval, commitOk, now), hold, flush)
    ensures v.channel != [] ==> Disciplined(v.MessageTurn(router, hold, flush, commitOk, now), hold, flush)
  {
    if v.channel != [] {
      TakenBound(v, router, hold, flush);
    }
  }

  // A flush at the threshold empties the queue when hold <= flush, and leaves exactly the excess otherwise.
  lemma ThresholdFlushLeaves(v: View, router: RouterType, hold: nat, flush: nat, commitOk: bool, now: int)
    requires hold >= 1 && |v.queue| < hold && v.channel != []
    requires |v.Take(router, v.TakeCount(router, flush)).queue| >= hold
    ensures |v.MessageTurn(router, hold, flush, commitOk, now).queue| == if hold <= flush then 0 else hold - flush
  {
    TakenBound(v, router, hold, flush);
  }

  // Queue discipline over whole runs, for any positive limits.
  lemma {:induction false} RunKeepsDiscipline(v: View, router: RouterType, hold: nat, flush: nat, interval: int,
                                              turns: seq<Turn>)
    requires hold >= 1 && flush >= 1 && Disciplined(v, hold, flush)
    ensures Disciplined(v.Run(router, hold, flush, interval, turns), hold, flush)
  {
    if turns != [] {
      var last := turns[|turns| - 1];
      RunKeepsDiscipline(v, router, hold, flush, interval, turns[..|turns| - 1]);
      var w := v.Run(router, hold, flush, interval, turns[..|turns| - 1]).Arrive(last.arrived);
      TurnKeepsDiscipline(w, router, hold, flush, interval, last.commitOk, last.now);
    }
  }

  // When the hold limit is at most the flush limit, every flush empties the queue.
  lemma FlushEmptiesQueue(v: View, router: RouterType, hold: nat, flush: nat, interval: int, commitOk: bool, now: int)
    requires 1 <= hold <= flush && |v.queue| < hold
    ensures var w := v.TickTurn(router, flush, interval, commitOk, now); w.flushes != v.flushes ==> w.queue == []
    ensures v.channel != [] ==>
              var w := v.MessageTurn(router, hold, flush, commitOk, now); w.flushes != v.flushes ==> w.queue == []
  {
    if v.channel != [] {
      TakenBound(v, router, hold, flush);
    }
  }

  lemma InOrderWithPrefix(msgs: seq<Message>, some: seq<Message>, all: seq<Message>)
    requires InOrder(msgs + all) && some <= all
    ensures InOrder(msgs + some)
  {
    assert msgs + all == (msgs + some) + all[|some|..];
    InOrderPrefix(msgs + some, msgs + all);
  }

  lemma PrefixInOrder(msgs: seq<Message>, turns: seq<Turn>, i: nat)
    requires InOrder(msgs + Arrivals(turns)) && i < |turns|
    ensures InOrder(msgs + Arrivals(turns[..i]))
    ensures InOrder(msgs + Arrivals(turns[..i]) + turns[i].arrived)
    ensures turns[..i + 1][..i] == turns[..i]
  {
    assert turns[..i + 1][..i] == turns[..i];
    ArrivalsPrefix(turns, i);
    InOrderWithPrefix(msgs, Arrivals(turns[..i]), Arrivals(turns));
    ArrivalsPrefix(turns, i + 1);
    InOrderWithPrefix(msgs, Arrivals(turns[..i + 1]), Arrivals(turns));
    assert msgs + Arrivals(turns[..i]) + turns[i].arrived == msgs + (Arrivals(turns[..i]) + turns[i].arrived);
  }

  lemma PrefixStaysValid(start: View, router: RouterType, initial: Rows, hold: nat, flush: nat, interval: int,
                         turns: seq<Turn>, i: nat)
    requires start.Inv(router, initial) && InOrder(start.seen + start.channel + Arrivals(turns)) && i < |turns|
    ensures start.Run(router, hold, flush, interval, turns[..i]).Arrive(turns[i].arrived).Inv(router, initial)
    ensures turns[..i + 1][..i] == turns[..i]
  {
    PrefixInOrder(start.seen + start.channel, turns, i);
    RunKeepsInv(start, router, initial, hold, flush, interval, turns[..i]);
    ArriveKeepsInv(start.Run(router, hold, flush, interval, turns[..i]), router, initial, turns[i].arrived,
                   start.seen + start.channel + Arrivals(turns[..i]) + turns[i].arrived);
  }

  lemma {:induction false} ArrivalsPrefix(turns: seq<Turn>, i: nat)
    requires i <= |turns|
    ensures Arrivals(turns[..i]) <= Arrivals(turns)
  {
    if i < |turns| {
      ArrivalsPrefix(turns[..|turns| - 1], i);
      assert turns[..|turns| - 1][..i] == turns[..i];
    } else {
      assert turns[..i] == turns;
    }
  }
}
