/** Whether the balance table is "the newest event wins" after a worker's flushes, and exactly when it is not:
    deletions leave no tombstone, so an older historical record can bring a deleted row back. */
module LastWriterWins {
  import opened Wrappers
  import opened BalanceModel
  import opened FlushModel
  import opened CrashReplay

  ghost predicate WellFormed(b: Batch) {
    b.slot > 0 && CarriesSlot(b)
  }

  ghost predicate AllWellFormed(f: seq<Batch>) {
    forall b :: b in f ==> WellFormed(b)
  }

  // One event id never belongs to two different records of an account.
  ghost predicate Consistent(h: seq<Record>) {
    forall x, y :: x in h && y in h && x.account == y.account && x.lastEventId == y.lastEventId ==> x == y
  }

  // ----- Reference: the newest record of every account decides -----

  function WinnerRow(h: seq<Record>, a: string): Option<Record> {
    match Lookup(Latest(h), a)
    case None => None
    case Some(r) => Settled(r)
  }

  ghost predicate LastWriter(rows: Rows, h: seq<Record>) {
    forall a :: Lookup(rows, a) == WinnerRow(h, a)
  }

  // The reference in terms of the history alone.
  lemma LastWriterMeans(rows: Rows, h: seq<Record>, a: string, r: Record)
    requires LastWriter(rows, h) && Consistent(h) && r.account == a && IsNewest(h, r)
    ensures Lookup(rows, a) == if IsZero(r) then None else Some(r)
  {
    LatestIsNewest(h);
    assert Lookup(rows, a) == WinnerRow(h, a);
    assert Latest(h)[a] in h && r in h;
  }

  // No historical record of the call re-creates a row that a newer zero record had deleted.
  ghost predicate NoResurrection(h: seq<Record>, historical: seq<Record>) {
    forall a :: a in Latest(historical) && a in Latest(h) && IsZero(Latest(h)[a]) && !IsZero(Latest(historical)[a]) ==>
      Latest(h)[a].lastEventId <= Latest(historical)[a].lastEventId
  }

  // ----- One InsertBalances call -----

  lemma RealtimeCall(rows: Rows, h: seq<Record>, records: seq<Record>)
    requires LastWriter(rows, h)
    requires forall x, y :: x in h && y in records ==> x.lastEventId < y.lastEventId
    ensures LastWriter(Applied(rows, Latest(records), true), h + records)
  {
    LatestIsNewest(h);
    LatestIsNewest(records);
    forall a
      ensures Lookup(Applied(rows, Latest(records), true), a) == WinnerRow(h + records, a)
    {
      LatestOfConcatenation(h, records, a);
      assert Lookup(rows, a) == WinnerRow(h, a);
    }
  }

  // Historical mode keeps "newest wins" exactly when it resurrects nothing.
  lemma HistoricalCall(rows: Rows, h: seq<Record>, records: seq<Record>)
    requires LastWriter(rows, h) && Consistent(h + records)
    ensures LastWriter(Applied(rows, Latest(records), false), h + records) <==> NoResurrection(h, records)
  {
    var after := Applied(rows, Latest(records), false);
    forall a
      ensures Lookup(after, a) == WinnerRow(h + records, a) <==>
              !(a in Latest(records) && a in Latest(h) && IsZero(Latest(h)[a]) && !IsZero(Latest(records)[a])
                && Latest(h)[a].lastEventId > Latest(records)[a].lastEventId)
    {
      HistoricalRow(rows, h, records, a);
    }
  }

  lemma HistoricalRow(rows: Rows, h: seq<Record>, records: seq<Record>, a: string)
    requires LastWriter(rows, h) && Consistent(h + records)
    ensures Lookup(Applied(rows, Latest(records), false), a) == WinnerRow(h + records, a) <==>
            !(a in Latest(records) && a in Latest(h) && IsZero(Latest(h)[a]) && !IsZero(Latest(records)[a])
              && Latest(h)[a].lastEventId > Latest(records)[a].lastEventId)
  {
    LatestOfConcatenation(h, records, a);
    LatestIsNewest(h);
    LatestIsNewest(records);
    assert Lookup(rows, a) == WinnerRow(h, a);
    if a in Latest(h) && a in Latest(records) {
      assert Latest(h)[a] in h + records && Latest(records)[a] in h + records;
    }
  }

  // ----- Whole runs -----

  function Written(lastSlot: nat, f: seq<Batch>): seq<Record> {
    Selected(f, lastSlot, true) + Selected(f, lastSlot, false)
  }

  // Every record flushed, in the order of the writer calls.
  function History(flushes: seq<seq<Batch>>): seq<Record> {
    if flushes == [] then []
    else
      var init := flushes[..|flushes| - 1];
      History(init) + Written(AfterFlushes(map[], init).lastSlot, flushes[|flushes| - 1])
  }

  ghost predicate WellFormedRun(flushes: seq<seq<Batch>>) {
    flushes == [] || (WellFormedRun(flushes[..|flushes| - 1]) && AllWellFormed(flushes[|flushes| - 1]))
  }

  ghost predicate Sound(flushes: seq<seq<Batch>>) {
    WellFormedRun(flushes) && Consistent(History(flushes))
  }

  // No record flushed so far is from a slot above the watermark; with watermark 0 nothing was flushed at all.
  ghost predicate BelowWatermark(h: seq<Record>, lastSlot: nat) {
    && (forall r :: r in h ==> r.lastEventId / SLOT_UNIT <= lastSlot)
    && (lastSlot == 0 ==> h == [])
  }

  lemma FlushKeepsBelow(h: seq<Record>, lastSlot: nat, f: seq<Batch>)
    requires BelowWatermark(h, lastSlot) && AllWellFormed(f)
    ensures BelowWatermark(h + Written(lastSlot, f), NextSlot(lastSlot, f))
    ensures forall x, y :: x in h && y in Selected(f, lastSlot, true) ==> x.lastEventId < y.lastEventId
  {
    MaxSlotBounds(f);
    forall r | r in Written(lastSlot, f)
      ensures 0 < r.lastEventId / SLOT_UNIT <= NextSlot(lastSlot, f)
      ensures r in Selected(f, lastSlot, true) && h != [] ==> r.lastEventId / SLOT_UNIT > lastSlot
    {
      var realtime := r in Selected(f, lastSlot, true);
      SelectedOrigin(f, lastSlot, realtime, r);
      var b :| b in f && r in b.balances && IsRealtime(b, lastSlot) == realtime;
    }
    forall x, y | x in h && y in Selected(f, lastSlot, true)
      ensures x.lastEventId < y.lastEventId
    {
      assert y in Written(lastSlot, f);
      assert x.lastEventId / SLOT_UNIT < y.lastEventId / SLOT_UNIT;
    }
  }

  lemma {:induction false} RunBelow(flushes: seq<seq<Batch>>)
    requires WellFormedRun(flushes)
    ensures BelowWatermark(History(flushes), AfterFlushes(map[], flushes).lastSlot)
  {
    if flushes != [] {
      var init := flushes[..|flushes| - 1];
      RunBelow(init);
      FlushKeepsBelow(History(init), AfterFlushes(map[], init).lastSlot, flushes[|flushes| - 1]);
    }
  }

  // One flush from a table that is already "newest wins".
  lemma FlushCall(rows: Rows, lastSlot: nat, h: seq<Record>, f: seq<Batch>)
    requires LastWriter(rows, h) && BelowWatermark(h, lastSlot) && AllWellFormed(f)
    requires Consistent(h + Written(lastSlot, f))
    ensures LastWriter(FlushRows(rows, lastSlot, f), h + Written(lastSlot, f)) <==>
            NoResurrection(h + Selected(f, lastSlot, true), Selected(f, lastSlot, false))
  {
    var rt, historical := Selected(f, lastSlot, true), Selected(f, lastSlot, false);
    FlushKeepsBelow(h, lastSlot, f);
    RealtimeCall(rows, h, rt);
    assert h + Written(lastSlot, f) == h + rt + historical;
    HistoricalCall(AfterRealtime(rows, lastSlot, f), h + rt, historical);
  }

  // No flush of the run resurrected a row.
  ghost predicate NeverResurrects(flushes: seq<seq<Batch>>) {
    flushes == [] ||
    var init, f := flushes[..|flushes| - 1], flushes[|flushes| - 1];
    var lastSlot := AfterFlushes(map[], init).lastSlot;
    NeverResurrects(init) && NoResurrection(History(init) + Selected(f, lastSlot, true), Selected(f, lastSlot, false))
  }

  // After every flush of the run each account's row is its newest record flushed so far.
  ghost predicate AlwaysLastWriter(flushes: seq<seq<Batch>>) {
    && LastWriter(AfterFlushes(map[], flushes).rows, History(flushes))
    && (flushes == [] || AlwaysLastWriter(flushes[..|flushes| - 1]))
  }

  lemma ConsistentPart(h: seq<Record>, part: seq<Record>)
    requires Consistent(h) && part <= h
    ensures Consistent(part)
  {
    assert forall r :: r in part ==> r in h;
  }

  // Over a whole run from an empty table and watermark 0, "newest wins" holds exactly when nothing is resurrected.
  lemma {:induction false} RunIsLastWriter(flushes: seq<seq<Batch>>)
    requires Sound(flushes)
    ensures AlwaysLastWriter(flushes) <==> NeverResurrects(flushes)
  {
    if flushes != [] {
      var init, f := flushes[..|flushes| - 1], flushes[|flushes| - 1];
      var p := AfterFlushes(map[], init);
      ConsistentPart(History(flushes), History(init));
      RunIsLastWriter(init);
      if LastWriter(p.rows, History(init)) {
        RunBelow(init);
        FlushCall(p.rows, p.lastSlot, History(init), f);
      }
    }
  }

  // ----- Stored ids never decrease while a row lives -----

  ghost predicate RowsBelow(rows: Rows, lastSlot: nat) {
    && (forall a :: a in rows ==> rows[a].lastEventId / SLOT_UNIT <= lastSlot)
    && (lastSlot == 0 ==> rows == map[])
  }

  lemma WrittenSlots(lastSlot: nat, f: seq<Batch>)
    requires AllWellFormed(f)
    ensures forall r :: r in Selected(f, lastSlot, true) ==>
                        lastSlot < NextSlot(lastSlot, f)
                            && lastSlot < r.lastEventId / SLOT_UNIT <= NextSlot(lastSlot, f)
    ensures forall r :: r in Selected(f, lastSlot, false) ==> 0 < r.lastEventId / SLOT_UNIT <= NextSlot(lastSlot, f)
  {
    MaxSlotBounds(f);
    forall r, realtime | r in Selected(f, lastSlot, realtime)
      ensures 0 < r.lastEventId / SLOT_UNIT <= NextSlot(lastSlot, f)
      ensures realtime ==> lastSlot < r.lastEventId / SLOT_UNIT
    {
      SelectedOrigin(f, lastSlot, realtime, r);
      var b :| b in f && r in b.balances && IsRealtime(b, lastSlot) == realtime;
    }
  }

  // Even without the proviso, the realtime call lowers the id of no row that stays...
  lemma RealtimeNeverDecreases(rows: Rows, lastSlot: nat, f: seq<Batch>)
    requires RowsBelow(rows, lastSlot) && AllWellFormed(f)
    ensures NeverDecreases(rows, AfterRealtime(rows, lastSlot, f))
    ensures RowsBelow(AfterRealtime(rows, lastSlot, f), NextSlot(lastSlot, f))
  {
    hide Latest, Selected, AllWellFormed, IsZero;
    var rt := Selected(f, lastSlot, true);
    var after := AfterRealtime(rows, lastSlot, f);
    LatestIsNewest(rt);
    WrittenSlots(lastSlot, f);
    forall a
      ensures a in after ==> NextSlot(lastSlot, f) > 0 && after[a].lastEventId / SLOT_UNIT <= NextSlot(lastSlot, f)
      ensures a in after && a in rows ==> rows[a].lastEventId <= after[a].lastEventId
    {
      assert Lookup(after, a) == LookupAfter(rows, Latest(rt), true, a);
      if a in rows && a in Latest(rt) {
        assert rows[a].lastEventId / SLOT_UNIT < Latest(rt)[a].lastEventId / SLOT_UNIT;
      }
    }
  }

  // ...and neither does the historical call.
  lemma HistoricalNeverDecreases(middle: Rows, lastSlot: nat, f: seq<Batch>)
    requires RowsBelow(middle, NextSlot(lastSlot, f)) && AllWellFormed(f)
    ensures var after := Applied(middle, Latest(Selected(f, lastSlot, false)), false);
            NeverDecreases(middle, after) && RowsBelow(after, NextSlot(lastSlot, f))
  {
    hide Latest, Selected, NextSlot, AllWellFormed, IsZero;
    var historical := Selected(f, lastSlot, false);
    var after := Applied(middle, Latest(historical), false);
    LatestIsNewest(historical);
    WrittenSlots(lastSlot, f);
    forall a
      ensures a in after ==> NextSlot(lastSlot, f) > 0 && after[a].lastEventId / SLOT_UNIT <= NextSlot(lastSlot, f)
      ensures a in after && a in middle ==> middle[a].lastEventId <= after[a].lastEventId
    {
      assert Lookup(after, a) == LookupAfter(middle, Latest(historical), false, a);
    }
  }

  lemma {:induction false} RunRowsBelow(flushes: seq<seq<Batch>>)
    requires WellFormedRun(flushes)
    ensures RowsBelow(AfterFlushes(map[], flushes).rows, AfterFlushes(map[], flushes).lastSlot)
  {
    if flushes != [] {
      var init, f := flushes[..|flushes| - 1], flushes[|flushes| - 1];
      var p := AfterFlushes(map[], init);
      RunRowsBelow(init);
      RealtimeNeverDecreases(p.rows, p.lastSlot, f);
      HistoricalNeverDecreases(AfterRealtime(p.rows, p.lastSlot, f), p.lastSlot, f);
    }
  }

  // Over any run, the next flush lowers the stored id of a row exactly when its realtime records delete the row and
  // its historical ones re-create it with a smaller id.
  lemma DecreaseExactly(flushes: seq<seq<Batch>>, f: seq<Batch>, a: string)
    requires WellFormedRun(flushes) && AllWellFormed(f) && a in AfterFlushes(map[], flushes).rows
    ensures var p := AfterFlushes(map[], flushes);
            var after := FlushRows(p.rows, p.lastSlot, f);
            var rt, historical := Latest(Selected(f, p.lastSlot, true)), Latest(Selected(f, p.lastSlot, false));
            a in after && after[a].lastEventId < p.rows[a].lastEventId <==>
            a in rt && IsZero(rt[a]) && a in historical && !IsZero(historical[a])
                && historical[a].lastEventId < p.rows[a].lastEventId
  {
    var p := AfterFlushes(map[], flushes);
    RunRowsBelow(flushes);
    RealtimeNeverDecreases(p.rows, p.lastSlot, f);
    HistoricalNeverDecreases(AfterRealtime(p.rows, p.lastSlot, f), p.lastSlot, f);
    hide AfterFlushes, Selected, Latest, AllWellFormed, WellFormedRun, RowsBelow;
    var rt, historical := Latest(Selected(f, p.lastSlot, true)), Latest(Selected(f, p.lastSlot, false));
    var middle, after := AfterRealtime(p.rows, p.lastSlot, f), FlushRows(p.rows, p.lastSlot, f);
    assert Lookup(middle, a) == LookupAfter(p.rows, rt, true, a);
    assert Lookup(after, a) == LookupAfter(middle, historical, false, a);
  }

  // ----- The proviso is needed -----

  lemma OneRecord(r: Record)
    ensures Latest([r]) == map[r.account := r]
  {
    assert [r] == [] + [r];
  }

  lemma OneBatch(b: Batch, lastSlot: nat, realtime: bool)
    ensures Selected([b], lastSlot, realtime) == if IsRealtime(b, lastSlot) == realtime then b.balances else []
    ensures MaxSlot([b]) == b.slot
  {
  }

  lemma TwoBatches(b: Batch, c: Batch, lastSlot: nat, realtime: bool)
    ensures Selected([b, c], lastSlot, realtime) == Selected([b], lastSlot, realtime)
                + Selected([c], lastSlot, realtime)
  {
    assert [b, c][..1] == [b];
    OneBatch(c, lastSlot, realtime);
  }

  // A row set in slot 2 is deleted by slot 3, and a backfill of slot 1 in the same flush brings it back
  // with its older balance and an id below the one it had before.
  lemma ResurrectionExists(r1: Record, r2: Record, r3: Record)
    requires r1.account == r2.account == r3.account
    requires !IsZero(r1) && !IsZero(r2) && IsZero(r3)
    requires r1.lastEventId / SLOT_UNIT == 1 && r2.lastEventId / SLOT_UNIT == 2 && r3.lastEventId / SLOT_UNIT == 3
    ensures var flushes := [[Batch(2, true, 0, [r2])], [Batch(3, true, 1, [r3]), Batch(1, false, 2, [r1])]];
            && Sound(flushes)
            && WinnerRow(History(flushes), r1.account) == None
            && Lookup(AfterFlushes(map[], flushes[..1]).rows, r1.account) == Some(r2)
            && Lookup(AfterFlushes(map[], flushes).rows, r1.account) == Some(r1)
            && r1.lastEventId < r2.lastEventId
  {
    hide AfterFlushes, History, WellFormedRun, Consistent, Latest, Selected, FlushRows;
    var b1, b2, b3 := Batch(1, false, 2, [r1]), Batch(2, true, 0, [r2]), Batch(3, true, 1, [r3]);
    var flushes: seq<seq<Batch>> := [[b2], [b3, b1]];
    assert flushes[..1] == [[b2]] && flushes == [[b2]] + [[b3, b1]];
    FirstFlush(b2, r2);
    SecondFlush(b1, b3, r1, r3);
    SecondFlushRows(AfterFlushes(map[], [[b2]]).rows, b1, b3, r1, r3);
    AfterOneMore(map[], [[b2]], [b3, b1]);
    SecondHistory(b2, b3, b1, r2, r3, r1);
    ThreeRecords(r1, r2, r3);
  }

  lemma SecondFlushRows(rows: Rows, b1: Batch, b3: Batch, r1: Record, r3: Record)
    requires Selected([b3, b1], 2, true) == [r3] && Selected([b3, b1], 2, false) == [r1]
    requires r1.account == r3.account && IsZero(r3) && !IsZero(r1)
    ensures Lookup(FlushRows(rows, 2, [b3, b1]), r1.account) == Some(r1)
  {
    OneRecord(r1);
    OneRecord(r3);
    assert Lookup(AfterRealtime(rows, 2, [b3, b1]), r1.account) == None;
  }

  lemma SecondHistory(b2: Batch, b3: Batch, b1: Batch, r2: Record, r3: Record, r1: Record)
    requires History([[b2]]) == [r2] && WellFormedRun([[b2]]) && AfterFlushes(map[], [[b2]]).lastSlot == 2
    requires Selected([b3, b1], 2, true) == [r3] && Selected([b3, b1], 2, false) == [r1]
    requires WellFormed(b3) && WellFormed(b1)
    ensures History([[b2], [b3, b1]]) == [r2] + ([r3] + [r1]) && WellFormedRun([[b2], [b3, b1]])
  {
    assert [[b2], [b3, b1]][..1] == [[b2]];
    assert AllWellFormed([b3, b1]);
  }

  lemma FirstFlush(b: Batch, r: Record)
    requires b.slot == 2 && b.isGrpc && b.balances == [r] && !IsZero(r) && r.lastEventId / SLOT_UNIT == 2
    ensures var p := AfterFlushes(map[], [[b]]); p.lastSlot == 2 && Lookup(p.rows, r.account) == Some(r)
    ensures History([[b]]) == [r] && WellFormedRun([[b]])
  {
    OneBatch(b, 0, true);
    OneBatch(b, 0, false);
    OneRecord(r);
    AppliedNothing(AfterRealtime(map[], 0, [b]));
    AfterOneMore(map[], [], [b]);
    assert [] + [[b]] == [[b]];
    assert Lookup(AfterRealtime(map[], 0, [b]), r.account) == Some(r);
    assert [[b]][..0] == [];
    assert AllWellFormed([b]) && WellFormedRun([[b]][..0]);
  }

  lemma ThreeRecords(r1: Record, r2: Record, r3: Record)
    requires r1.account == r2.account == r3.account && r1.lastEventId < r2.lastEventId < r3.lastEventId
    ensures Lookup(Latest([r2] + ([r3] + [r1])), r1.account) == Some(r3)
    ensures Consistent([r2] + ([r3] + [r1]))
  {
    OneRecord(r1);
    OneRecord(r2);
    OneRecord(r3);
    LatestOfConcatenation([r3], [r1], r1.account);
    LatestOfConcatenation([r2], [r3] + [r1], r1.account);
  }

  lemma SecondFlush(b1: Batch, b3: Batch, r1: Record, r3: Record)
    requires b1.slot == 1 && b3.slot == 3 && b1.balances == [r1] && b3.balances == [r3]
    ensures Selected([b3, b1], 2, true) == [r3] && Selected([b3, b1], 2, false) == [r1]
  {
    TwoBatches(b3, b1, 2, true);
    TwoBatches(b3, b1, 2, false);
    OneBatch(b1, 2, true);
    OneBatch(b1, 2, false);
    OneBatch(b3, 2, true);
    OneBatch(b3, 2, false);
  }
}
