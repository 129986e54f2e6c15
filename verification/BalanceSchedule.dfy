/** The two goroutines of InsertBalances as a transition system over one shared table: chunk statements
    and historical SELECTs interleave freely, and a failed attempt may have applied any of its rows
    before the retry that succeeds. Every schedule ends in the same table. */
module BalanceSchedule {
  import opened Wrappers
  import opened BalanceModel
  import opened BalanceWriter

  // One call: its deduplicated records, and the two lists in whatever order the map was iterated.
  datatype Call = Call(before: Rows, latest: Rows, realtime: bool, toUpdate: seq<Record>, toDelete: seq<Record>)
  {
    ghost predicate Valid() {
      && DrawnFrom(toUpdate, latest)
      && DrawnFrom(toDelete, latest)
      && (forall a :: a in latest ==> latest[a] in Mine(IsZero(latest[a])))
      && (forall isDelete: bool :: forall r :: r in Mine(isDelete) ==> IsZero(r) == isDelete)
    }

    function Mine(isDelete: bool): seq<Record> {
      if isDelete then toDelete else toUpdate
    }
  }

  datatype Phase =
    | Selecting(scanned: nat, existing: map<string, int>)
    | Writing(pending: seq<Record>, written: nat)
    | Finished

  datatype State = State(rows: Rows, update: Phase, delete: Phase)
  {
    function Side(isDelete: bool): Phase {
      if isDelete then delete else update
    }
  }

  datatype Action =
    | PartialScan(accounts: set<string>)  // a SELECT attempt that failed after returning some rows
    | Scan                                // a SELECT attempt that succeeded
    | Filtered(order: seq<Record>)        // the guard applied to every record, in map order
    | PartialWrite(applied: seq<Record>)  // a failed UPSERT or DELETE attempt that applied some rows
    | WriteChunk                          // a successful one
    | Finish

  function ChunkEnd(total: nat, start: nat): (end: nat) {
    if start + BATCH_SIZE > total then total else start + BATCH_SIZE
  }

  function Start(call: Call): State {
    var phase := if call.realtime then Writing(call.toUpdate, 0) else Selecting(0, map[]);
    State(call.before, phase, if call.realtime then Writing(call.toDelete, 0) else Selecting(0, map[]))
  }

  // One step of one goroutine, as seen by the table and by itself.
  ghost predicate Advances(call: Call, isDelete: bool, action: Action, rows: Rows, p: Phase, rows': Rows, p': Phase) {
    var mine := call.Mine(isDelete);
    match (p, action)
    case (Selecting(n, existing), PartialScan(some)) =>
      && n < |mine| && rows' == rows
      && some <= AccountsOf(mine[n..ChunkEnd(|mine|, n)])
      && p' == Selecting(n, existing + StoredIds(rows, some))
    case (Selecting(n, existing), Scan) =>
      && n < |mine| && rows' == rows
      && p' == Selecting(ChunkEnd(|mine|, n), existing + StoredIds(rows, AccountsOf(mine[n..ChunkEnd(|mine|, n)])))
    case (Selecting(n, existing), Filtered(order)) =>
      && n >= |mine| && rows' == rows
      && (forall r :: r in order <==> r in mine && Passes(existing, r, isDelete))
      && p' == Writing(order, 0)
    case (Writing(pending, n), PartialWrite(some)) =>
      && n < |pending| && p' == p
      && (forall r :: r in some ==> r in pending[n..ChunkEnd(|pending|, n)])
      && rows' == Write(rows, some, isDelete)
    case (Writing(pending, n), WriteChunk) =>
      && n < |pending|
      && rows' == Write(rows, pending[n..ChunkEnd(|pending|, n)], isDelete)
      && p' == Writing(pending, ChunkEnd(|pending|, n))
    case (Writing(pending, n), Finish) =>
      n >= |pending| && rows' == rows && p' == Finished
    case _ => false
  }

  ghost predicate Next(call: Call, s: State, isDelete: bool, action: Action, s': State) {
    && Advances(call, isDelete, action, s.rows, s.Side(isDelete), s'.rows, s'.Side(isDelete))
    && s'.Side(!isDelete) == s.Side(!isDelete)
  }

  datatype Event = Event(isDelete: bool, action: Action)

  ghost predicate IsRun(call: Call, states: seq<State>, events: seq<Event>) {
    && |states| == |events| + 1
    && states[0] == Start(call)
    && forall i :: 0 <= i < |events| ==> Next(call, states[i], events[i].isDelete, events[i].action, states[i + 1])
  }

  // ----- Invariant -----

  function Target(call: Call): Rows {
    Applied(call.before, call.latest, call.realtime)
  }

  // What one goroutine has done so far to the row of one of its own records.
  ghost predicate RowInvariant(call: Call, isDelete: bool, p: Phase, rows: Rows, r: Record) {
    var was, now, goal := Lookup(call.before, r.account), Lookup(rows, r.account), Lookup(Target(call), r.account);
    match p
    case Selecting(n, _) => now == was
    case Writing(pending, n) =>
      && (r !in pending ==> now == was == goal)
      && (r in pending ==> (goal == if isDelete then None else Some(r)) && (now == was || now == goal))
      && (n <= |pending| ==> r in pending[..n] ==> now == goal)
    case Finished => now == goal
  }

  ghost predicate PhaseInvariant(call: Call, isDelete: bool, p: Phase) {
    var mine := call.Mine(isDelete);
    match p
    case Selecting(n, existing) =>
      && !call.realtime
      && n <= |mine|
      && (forall a :: a in existing ==> a in call.before && existing[a] == call.before[a].lastEventId)
      && (forall r :: r in mine[..n] && r.account in call.before ==> r.account in existing)
    case Writing(pending, n) =>
      n <= |pending| && forall r :: r in pending ==> r in mine
    case Finished => true
  }

  ghost predicate SideInv(call: Call, isDelete: bool, p: Phase, rows: Rows) {
    && PhaseInvariant(call, isDelete, p)
    && forall r :: r in call.Mine(isDelete) ==> RowInvariant(call, isDelete, p, rows, r)
  }

  ghost predicate Inv(call: Call, s: State) {
    && SideInv(call, false, s.update, s.rows)
    && SideInv(call, true, s.delete, s.rows)
    && forall a :: a !in call.latest ==> Lookup(s.rows, a) == Lookup(call.before, a)
  }

  lemma StartInv(call: Call)
    requires call.Valid()
    ensures Inv(call, Start(call))
  {
  }

  // A statement of one goroutine leaves the rows of the other goroutine's accounts alone.
  lemma WriteFrame(call: Call, isDelete: bool, written: seq<Record>, rows: Rows)
    requires call.Valid()
    requires forall r :: r in written ==> r in call.Mine(isDelete)
    ensures forall a :: a in call.latest && IsZero(call.latest[a]) != isDelete ==>
                        Lookup(Write(rows, written, isDelete), a) == Lookup(rows, a)
    ensures forall a :: a !in call.latest ==> Lookup(Write(rows, written, isDelete), a) == Lookup(rows, a)
    ensures forall r :: r in call.Mine(isDelete) ==>
                        Lookup(Write(rows, written, isDelete), r.account) ==
                        if r in written then (if isDelete then None else Some(r)) else Lookup(rows, r.account)
  {
    WriteFromLatest(rows, written, isDelete, call.latest);
  }

  lemma FilteredInv(call: Call, isDelete: bool, existing: map<string, int>, r: Record)
    requires call.Valid() && r in call.Mine(isDelete)
    requires PhaseInvariant(call, isDelete, Selecting(|call.Mine(isDelete)|, existing))
    ensures Passes(existing, r, isDelete) ==> Lookup(Target(call), r.account) == if isDelete then None else Some(r)
    ensures !Passes(existing, r, isDelete) ==> Lookup(Target(call), r.account) == Lookup(call.before, r.account)
  {
    var mine := call.Mine(isDelete);
    assert mine[..|mine|] == mine;
  }

  // Until a goroutine writes, its SELECTs see the ids stored before the call.
  lemma ScannedIds(call: Call, isDelete: bool, p: Phase, rows: Rows, accounts: set<string>)
    requires call.Valid() && SideInv(call, isDelete, p, rows) && p.Selecting?
    requires accounts <= AccountsOf(call.Mine(isDelete))
    ensures forall a :: a in StoredIds(rows, accounts) ==>
                        a in call.before && StoredIds(rows, accounts)[a] == call.before[a].lastEventId
  {
    forall a | a in accounts
      ensures Lookup(rows, a) == Lookup(call.before, a)
    {
      var r :| r in call.Mine(isDelete) && r.account == a;
      assert RowInvariant(call, isDelete, p, rows, r);
    }
    assert forall a :: a in accounts ==> Lookup(rows, a) == Lookup(call.before, a);
  }

  lemma ScanningKeepsSide(call: Call, isDelete: bool, action: Action, rows: Rows, p: Phase, rows': Rows, p': Phase)
    requires call.Valid() && SideInv(call, isDelete, p, rows) && p.Selecting?
    requires Advances(call, isDelete, action, rows, p, rows', p')
    ensures SideInv(call, isDelete, p', rows')
  {
    var mine := call.Mine(isDelete);
    forall r | r in mine
      ensures RowInvariant(call, isDelete, p', rows', r)
    {
      assert RowInvariant(call, isDelete, p, rows, r);
      if action.Filtered? {
        FilteredInv(call, isDelete, p.existing, r);
      }
    }
    if action.Scan? {
      var chunk := mine[p.scanned..p'.scanned];
      assert mine[..p'.scanned] == mine[..p.scanned] + chunk;
      forall r | r in mine[..p'.scanned] && r.account in call.before
        ensures r.account in p'.existing
      {
        assert RowInvariant(call, isDelete, p, rows, r);
        if r in chunk {
          assert r.account in AccountsOf(chunk);
        }
      }
    }
    if action.PartialScan? {
      ScannedIds(call, isDelete, p, rows, action.accounts);
    } else if action.Scan? {
      ScannedIds(call, isDelete, p, rows, AccountsOf(mine[p.scanned..p'.scanned]));
    }
  }

  lemma WritingKeepsSide(call: Call, isDelete: bool, action: Action, rows: Rows, p: Phase, rows': Rows, p': Phase)
    requires call.Valid() && SideInv(call, isDelete, p, rows) && p.Writing?
    requires Advances(call, isDelete, action, rows, p, rows', p')
    ensures SideInv(call, isDelete, p', rows')
  {
    var written := WrittenBy(action, p, p');
    if action.WriteChunk? {
      assert p.pending[..p'.written] == p.pending[..p.written] + written;
    }
    if action.Finish? {
      assert p.pending[..p.written] == p.pending;
    } else {
      WriteFrame(call, isDelete, written, rows);
    }
    forall r | r in call.Mine(isDelete)
      ensures RowInvariant(call, isDelete, p', rows', r)
    {
      assert RowInvariant(call, isDelete, p, rows, r);
    }
  }

  function WrittenBy(action: Action, p: Phase, p': Phase): seq<Record> {
    if action.PartialWrite? then action.applied
    else if action.WriteChunk? && p.Writing? && p'.Writing? && p.written <= p'.written <= |p.pending|
    then p.pending[p.written..p'.written] else []
  }

  // The other goroutine's invariant, and the untouched accounts, survive as well.
  lemma StepKeepsOthers(call: Call, isDelete: bool, action: Action, rows: Rows, p: Phase, rows': Rows, p': Phase,
                        other: Phase)
    requires call.Valid() && SideInv(call, isDelete, p, rows) && SideInv(call, !isDelete, other, rows)
    requires Advances(call, isDelete, action, rows, p, rows', p')
    ensures SideInv(call, !isDelete, other, rows')
    ensures forall a :: a !in call.latest ==> Lookup(rows', a) == Lookup(rows, a)
  {
    var theirs := call.Mine(!isDelete);
    if rows' != rows {
      WriteFrame(call, isDelete, WrittenBy(action, p, p'), rows);
    }
    forall r | r in theirs
      ensures RowInvariant(call, !isDelete, other, rows', r)
    {
      assert RowInvariant(call, !isDelete, other, rows, r);
    }
  }

  lemma NextInv(call: Call, s: State, isDelete: bool, action: Action, s': State)
    requires call.Valid() && Inv(call, s) && Next(call, s, isDelete, action, s')
    ensures Inv(call, s')
  {
    var p, p', other := s.Side(isDelete), s'.Side(isDelete), s.Side(!isDelete);
    if p.Selecting? {
      ScanningKeepsSide(call, isDelete, action, s.rows, p, s'.rows, p');
    } else {
      WritingKeepsSide(call, isDelete, action, s.rows, p, s'.rows, p');
    }
    StepKeepsOthers(call, isDelete, action, s.rows, p, s'.rows, p', other);
  }

  lemma {:induction false} RunInv(call: Call, states: seq<State>, events: seq<Event>, i: nat)
    requires call.Valid() && IsRun(call, states, events) && i < |states|
    ensures Inv(call, states[i])
  {
    if i == 0 {
      StartInv(call);
    } else {
      RunInv(call, states, events, i - 1);
      NextInv(call, states[i - 1], events[i - 1].isDelete, events[i - 1].action, states[i]);
    }
  }

  // ----- Results -----

  // However far the call got, each row is its old one or its new one: what a crash can leave behind.
  lemma AnyPrefixIsBetween(call: Call, states: seq<State>, events: seq<Event>, i: nat)
    requires call.Valid() && IsRun(call, states, events) && i < |states|
    ensures Between(call.before, Target(call), states[i].rows)
  {
    RunInv(call, states, events, i);
    var s := states[i];
    forall a
      ensures Lookup(s.rows, a) == Lookup(call.before, a) || Lookup(s.rows, a) == Lookup(Target(call), a)
    {
      if a in call.latest {
        var isDelete := IsZero(call.latest[a]);
        assert RowInvariant(call, isDelete, s.Side(isDelete), s.rows, call.latest[a]);
      }
    }
  }

  // Confluence: any schedule that finishes leaves the single override by the newest records.
  lemma EveryScheduleEndsAlike(call: Call, states: seq<State>, events: seq<Event>)
    requires call.Valid() && IsRun(call, states, events)
    requires states[|events|].update.Finished? && states[|events|].delete.Finished?
    ensures states[|events|].rows == Target(call)
  {
    RunInv(call, states, events, |events|);
    var s := states[|events|];
    forall a
      ensures Lookup(s.rows, a) == Lookup(Target(call), a)
    {
      if a in call.latest {
        var isDelete := IsZero(call.latest[a]);
        assert s.Side(isDelete).Finished?;
        assert RowInvariant(call, isDelete, s.Side(isDelete), s.rows, call.latest[a]);
      }
    }
    SameLookupsSameRows(s.rows, Target(call));
  }

  // The records that pass the guard, in the order of the list.
  function Guarded(mine: seq<Record>, existing: map<string, int>, isDelete: bool): (order: seq<Record>)
    ensures forall r :: r in order <==> r in mine && Passes(existing, r, isDelete)
  {
    if mine == [] then []
    else
      var init, last := mine[..|mine| - 1], mine[|mine| - 1];
      assert mine == init + [last];
      Guarded(init, existing, isDelete) + if Passes(existing, last, isDelete) then [last] else []
  }

  // The goroutines never wait for each other: one that has not finished can always move, and move forward.
  lemma NeverStuck(call: Call, s: State, isDelete: bool) returns (action: Action, s': State)
    requires !s.Side(isDelete).Finished?
    ensures Next(call, s, isDelete, action, s')
    ensures !action.PartialScan? && !action.PartialWrite?
  {
    var mine := call.Mine(isDelete);
    var rows, p' := s.rows, Finished;
    match s.Side(isDelete) {
      case Selecting(n, existing) =>
        if n < |mine| {
          action := Scan;
          p' := Selecting(ChunkEnd(|mine|, n), existing + StoredIds(s.rows, AccountsOf(mine[n..ChunkEnd(|mine|, n)])));
        } else {
          action := Filtered(Guarded(mine, existing, isDelete));
          p' := Writing(action.order, 0);
        }
      case Writing(pending, n) =>
        if n < |pending| {
          action := WriteChunk;
          rows := Write(s.rows, pending[n..ChunkEnd(|pending|, n)], isDelete);
          p' := Writing(pending, ChunkEnd(|pending|, n));
        } else {
          action := Finish;
        }
    }
    s' := if isDelete then State(rows, s.update, p') else State(rows, p', s.delete);
  }
}
