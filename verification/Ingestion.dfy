/** The pieces of balance ingestion put together: what a whole worker run leaves in the table, what a reader then
    sees, and why a crash inside InsertBalances leaves no more than the torn rows that replay repairs. */
module Ingestion {
  import opened Wrappers
  import opened BalanceModel
  import opened BalanceWriter
  import opened FlushModel
  import opened IngestWorker
  import opened LastWriterWins
  import opened Formatting
  import AccountsQuery
  import opened CrashReplay
  import Schedule = BalanceSchedule

  // A balance worker that starts on an empty table keeps "newest wins" after every flush of the run exactly when
  // no flush resurrects a row.
  lemma WorkerIsLastWriter(start: View, hold: nat, flush: nat, interval: int, turns: seq<Turn>)
    requires start.Inv(RouterBalance, map[]) && start.flushes == []
                 && InOrder(start.seen + start.channel + Arrivals(turns))
    requires Sound(start.Run(RouterBalance, hold, flush, interval, turns).flushes)
    ensures var end := start.Run(RouterBalance, hold, flush, interval, turns);
            && (AlwaysLastWriter(end.flushes) <==> NeverResurrects(end.flushes))
            && (NeverResurrects(end.flushes) ==> LastWriter(end.rows, History(end.flushes)))
  {
    var end := start.Run(RouterBalance, hold, flush, interval, turns);
    RunKeepsInv(start, RouterBalance, map[], hold, flush, interval, turns);
    RunIsLastWriter(end.flushes);
  }

  lemma OnlyZeroPrintsZero(n: nat)
    ensures FormatUint(n, 10) == "0" <==> n == 0
  {
    assert FormatUint(0, 10) == "0";
    if FormatUint(n, 10) == "0" {
      FormatInjective(n, 0, 10);
    }
  }

  // What a reader sees after such a run: the newest record of the account, token decoded and amount intact,
  // or nothing if that record was a zero.
  lemma ReaderSeesNewest(rows: Rows, h: seq<Record>, a: string, r: Record, amount: nat)
    requires LastWriter(rows, h) && Consistent(h) && r.account == a && IsNewest(h, r)
    requires r.balance == FormatUint(amount, 10) && amount <= MAX_UINT64
    ensures AccountsQuery.DirectLookup(rows, a) ==
            if amount == 0 then None
            else Some(AccountsQuery.Balance(r.owner, AccountsQuery.DecodeToken(r.token), amount, r.lastEventId))
  {
    LastWriterMeans(rows, h, a, r);
    OnlyZeroPrintsZero(amount);
    AmountRoundTrip(amount);
    assert Lookup(rows, a) == if amount == 0 then None else Some(r);
  }

  // The call the flush of the first n queued batches makes in realtime mode, and the one it makes after it.
  ghost predicate IsFlushCall(v: View, n: nat, call: Schedule.Call) {
    && n <= |v.queue| && call.Valid()
    && var f := v.queue[..n];
       && call.latest == Latest(Selected(f, v.lastSlot, call.realtime))
       && call.before == if call.realtime then v.rows else AfterRealtime(v.rows, v.lastSlot, f)
  }

  // A crash at any point of any schedule of either call leaves torn rows, the only ones CrashReplay has to expect.
  lemma CrashIsTorn(v: View, n: nat, call: Schedule.Call, states: seq<Schedule.State>, events: seq<Schedule.Event>,
                    i: nat)
    requires IsFlushCall(v, n, call) && Schedule.IsRun(call, states, events) && i < |states|
    ensures Torn(v, n, states[i].rows)
  {
    Schedule.AnyPrefixIsBetween(call, states, events, i);
  }

  // And when both calls finish, whatever their schedules, the table is the one the worker model computes.
  lemma FlushUnderAnySchedule(v: View, n: nat, realtime: Schedule.Call, historical: Schedule.Call,
                              first: seq<Schedule.State>, firstEvents: seq<Schedule.Event>,
                              second: seq<Schedule.State>, secondEvents: seq<Schedule.Event>)
    requires IsFlushCall(v, n, realtime) && realtime.realtime && Schedule.IsRun(realtime, first, firstEvents)
    requires first[|firstEvents|].update.Finished? && first[|firstEvents|].delete.Finished?
    requires IsFlushCall(v, n, historical) && !historical.realtime && Schedule.IsRun(historical, second, secondEvents)
    requires second[|secondEvents|].update.Finished? && second[|secondEvents|].delete.Finished?
    ensures historical.before == first[|firstEvents|].rows
    ensures second[|secondEvents|].rows == FlushRows(v.rows, v.lastSlot, v.queue[..n])
  {
    Schedule.EveryScheduleEndsAlike(realtime, first, firstEvents);
    Schedule.EveryScheduleEndsAlike(historical, second, secondEvents);
  }

  // ----- Newest wins across crashes -----

  // On a gRPC log, a run from an empty table that reaches the log's end leaves each account's newest record,
  // whatever the flushes, failed commits and crashes on the way.
  lemma ReplayIsLastWriter(log: seq<Message>, states: seq<Node>, steps: seq<Step>, i: nat)
    requires GrpcLog(log) && CrashReplay.IsRun(log, map[], states, steps) && i < |states| && AtLogEnd(states[i])
    ensures LastWriter(states[i].view.rows, Balances(Batches(log)))
  {
    ReplayConverges(log, map[], states, steps, i);
    assert log[0..|log|] == log;
    hide AfterLog, Latest, Batches, Balances, AtLogEnd;
    forall a
      ensures Lookup(states[i].view.rows, a) == WinnerRow(Balances(Batches(log)), a)
    {
      ReferenceStretch(log, map[], 0, |log|, a);
      assert AfterLog(log, map[], 0) == map[] by {
        NothingYet(log);
      }
    }
  }

  lemma NothingYet(log: seq<Message>)
    ensures AfterLog(log, map[], 0) == map[]
  {
  }

  // ----- The worker loop between two crashes is a run of the crash machine -----

  // The machine's channel holds the whole rest of the log, the worker's what has arrived of it.
  ghost predicate Mirrors(s: Node, w: View, rest: seq<Message>) {
    s.view == w.(channel := w.channel + rest)
  }

  ghost predicate Segment(log: seq<Message>, states: seq<Node>, steps: seq<Step>) {
    && |states| == |steps| + 1
    && forall i :: 0 <= i < |steps| ==> CrashReplay.Next(log, states[i], steps[i], states[i + 1])
  }

  lemma OneStep(log: seq<Message>, states: seq<Node>, steps: seq<Step>, step: Step, s: Node)
    returns (more: seq<Node>, longer: seq<Step>)
    requires Segment(log, states, steps) && CrashReplay.Next(log, states[|steps|], step, s)
    ensures Segment(log, more, longer) && more[0] == states[0] && more[|longer|] == s
  {
    hide CrashReplay.Next;
    more, longer := states + [s], steps + [step];
  }

  function Taken(s: Node, n: nat): Node
    requires n <= |s.view.channel|
  {
    s.(view := s.view.Take(RouterBalance, n))
  }

  function Flushed(s: Node, n: nat, commitOk: bool, now: int): Node
    requires n <= |s.view.queue|
  {
    Node(s.base, s.view.Flush(RouterBalance, n, commitOk, now), DoneAfter(s, n),
         if DoneAfter(s, n) > s.high then DoneAfter(s, n) else s.high)
  }

  lemma TakenMirrors(s: Node, w: View, rest: seq<Message>, n: nat)
    requires Mirrors(s, w, rest) && n <= |w.channel|
    ensures Mirrors(Taken(s, n), w.Take(RouterBalance, n), rest)
  {
    assert (w.channel + rest)[..n] == w.channel[..n];
    assert (w.channel + rest)[n..] == w.channel[n..] + rest;
  }

  lemma FlushedMirrors(s: Node, w: View, rest: seq<Message>, n: nat, commitOk: bool, now: int)
    requires Mirrors(s, w, rest) && n <= |w.queue|
    ensures Mirrors(Flushed(s, n, commitOk, now), w.Flush(RouterBalance, n, commitOk, now), rest)
  {
  }

  lemma ArrivedMirrors(s: Node, w: View, rest: seq<Message>, msgs: seq<Message>)
    requires Mirrors(s, w, rest) && msgs <= rest
    ensures Mirrors(s, w.Arrive(msgs), rest[|msgs|..])
  {
    assert w.channel + rest == (w.channel + msgs) + rest[|msgs|..];
  }

  // A message turn is a take, then a flush if the threshold is reached; a tick is a flush or nothing.
  lemma TurnIsSteps(log: seq<Message>, states: seq<Node>, steps: seq<Step>, w: View, rest: seq<Message>,
                    hold: nat, flush: nat, interval: int, turn: Turn)
    returns (more: seq<Node>, longer: seq<Step>)
    requires Segment(log, states, steps) && Mirrors(states[|steps|], w, rest)
    ensures Segment(log, more, longer) && more[0] == states[0]
    ensures Mirrors(more[|longer|], AfterTurn(w, hold, flush, interval, turn), rest)
  {
    more, longer := states, steps;
    match turn {
      case OnMessage(_, now, commitOk) =>
        if w.channel != [] {
          var n := w.TakeCount(RouterBalance, flush);
          var taken := w.Take(RouterBalance, n);
          TakenMirrors(states[|steps|], w, rest, n);
          more, longer := OneStep(log, more, longer, Step.Take(n), Taken(states[|steps|], n));
          if |taken.queue| >= hold && taken.queue != [] {
            more, longer := FlushStep(log, more, longer, taken, rest, flush, commitOk, now);
          }
        }
      case OnTick(_, now, commitOk) =>
        if w.queue != [] && now - w.flushedAt > interval {
          more, longer := FlushStep(log, more, longer, w, rest, flush, commitOk, now);
        }
    }
  }

  lemma FlushStep(log: seq<Message>, states: seq<Node>, steps: seq<Step>, w: View, rest: seq<Message>,
                  flush: nat, commitOk: bool, now: int)
    returns (more: seq<Node>, longer: seq<Step>)
    requires Segment(log, states, steps) && Mirrors(states[|steps|], w, rest)
    ensures Segment(log, more, longer) && more[0] == states[0]
    ensures Mirrors(more[|longer|], w.Flush(RouterBalance, w.FlushCount(flush), commitOk, now), rest)
  {
    var s, n := states[|steps|], w.FlushCount(flush);
    FlushedMirrors(s, w, rest, n, commitOk, now);
    more, longer := OneStep(log, states, steps, Step.Flush(n, commitOk, now), Flushed(s, n, commitOk, now));
  }

  function AfterTurn(w: View, hold: nat, flush: nat, interval: int, turn: Turn): View {
    match turn
    case OnMessage(_, now, commitOk) =>
      if w.channel != [] then w.MessageTurn(RouterBalance, hold, flush, commitOk, now) else w
    case OnTick(_, now, commitOk) => w.TickTurn(RouterBalance, flush, interval, commitOk, now)
  }

  // For any turns, limits and arrivals from the rest of the log, the loop's run is a run of the machine.
  lemma {:induction false} WorkerRunIsReplayRun(log: seq<Message>, s: Node, w: View, rest: seq<Message>,
                                                hold: nat, flush: nat, interval: int, turns: seq<Turn>)
    returns (states: seq<Node>, steps: seq<Step>)
    requires Mirrors(s, w, rest) && Arrivals(turns) <= rest
    ensures Segment(log, states, steps) && states[0] == s
    ensures Mirrors(states[|steps|], w.Run(RouterBalance, hold, flush, interval, turns), rest[|Arrivals(turns)|..])
  {
    if turns == [] {
      return [s], [];
    }
    var init, last := turns[..|turns| - 1], turns[|turns| - 1];
    var before := Arrivals(init);
    assert Arrivals(turns) == before + last.arrived && before <= rest && last.arrived <= rest[|before|..];
    states, steps := WorkerRunIsReplayRun(log, s, w, rest, hold, flush, interval, init);
    var u := w.Run(RouterBalance, hold, flush, interval, init);
    ArrivedMirrors(states[|steps|], u, rest[|before|..], last.arrived);
    assert rest[|before|..][|last.arrived|..] == rest[|Arrivals(turns)|..];
    states, steps := TurnIsSteps(log, states, steps, u.Arrive(last.arrived), rest[|Arrivals(turns)|..], hold, flush,
        interval, last);
  }

  // Every incarnation starts as the machine says: an empty worker, the log from the committed offset on to come.
  lemma IncarnationMirrors(log: seq<Message>, base: nat, done: nat, high: nat, rows: Rows, now: int)
    requires base <= |log|
    ensures Mirrors(Node(base, Begin(log, base, rows, now), done, high), View([], [], [], [], [], 0, now, rows),
                log[base..])
  {
    assert [] + log[base..] == log[base..];
  }

  // ----- The first flush after a restart -----

  // On a table that holds rows already, a restarted worker knows no slot: backfill batches never overwrite newer
  // rows, and batches of the gRPC stream decide the rows of their accounts whatever was stored.
  method RestartAndFlush(table: BalanceTable, batches: seq<Batch>, hold: nat, flush: nat, interval: int, now: int,
                         commitOk: bool)
    modifies table
    ensures (forall b :: b in batches ==> !b.isGrpc) ==> NeverDecreases(old(table.rows), table.rows)
    ensures (forall b :: b in batches ==> b.isGrpc) ==> forall r :: NewestInFlush(batches, r) ==>
              if r.balance == "0" then r.account !in table.rows
              else r.account in table.rows && table.rows[r.account] == r
  {
    var worker := new WorkerContext(RouterBalance, table, hold, flush, interval, now);
    assert worker.lastSlot == worker.State().lastSlot == 0;
    var maxSlot := worker.FlushBatches(batches, commitOk);
  }
}
