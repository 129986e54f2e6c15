/** Messages, batches, and what flushing a list of batches does to the balance table. */
module FlushModel {
  import opened Wrappers
  import opened BalanceModel

  datatype RouterType = RouterEvent | RouterBalance

  // A decoded Kafka payload: source 1 is the gRPC stream, anything else a backfill.
  datatype Payload = Payload(slot: nat, source: nat, eventCount: nat, balances: seq<Record>)

  datatype Message = Message(offset: nat, payload: Option<Payload>)

  datatype Batch = Batch(slot: nat, isGrpc: bool, offset: nat, balances: seq<Record>)

  // buildBlockBatch: undecodable and empty messages yield no batch.
  function BuildBatch(router: RouterType, msg: Message): Option<Batch> {
    if msg.payload.None? || msg.payload.value.eventCount == 0 then None
    else
      var p := msg.payload.value;
      Some(Batch(p.slot, p.source == 1, msg.offset, if router.RouterBalance? then p.balances else []))
  }

  function BuiltFrom(router: RouterType, msgs: seq<Message>): seq<Batch> {
    if msgs == [] then []
    else
      var rest := BuiltFrom(router, msgs[..|msgs| - 1]);
      match BuildBatch(router, msgs[|msgs| - 1])
      case None => rest
      case Some(b) => rest + [b]
  }

  lemma {:induction false} BuiltFromConcat(router: RouterType, x: seq<Message>, y: seq<Message>)
    ensures BuiltFrom(router, x + y) == BuiltFrom(router, x) + BuiltFrom(router, y)
    decreases |y|
  {
    if y == [] {
      assert x + y == x;
    } else {
      assert (x + y)[..|x + y| - 1] == x + y[..|y| - 1];
      BuiltFromConcat(router, x, y[..|y| - 1]);
    }
  }

  // ----- One flush -----

  predicate IsRealtime(b: Batch, lastSlot: nat) {
    if lastSlot == 0 then b.isGrpc else b.slot > lastSlot
  }

  // The balances of the batches written in the given mode, in queue order.
  function Selected(batches: seq<Batch>, lastSlot: nat, realtime: bool): seq<Record> {
    if batches == [] then []
    else
      var last := batches[|batches| - 1];
      Selected(batches[..|batches| - 1], lastSlot, realtime)
      + if IsRealtime(last, lastSlot) == realtime then last.balances else []
  }

  function AfterRealtime(rows: Rows, lastSlot: nat, batches: seq<Batch>): Rows {
    Applied(rows, Latest(Selected(batches, lastSlot, true)), true)
  }

  // The realtime balances are written first, the historical ones after them.
  function FlushRows(rows: Rows, lastSlot: nat, batches: seq<Batch>): Rows {
    Applied(AfterRealtime(rows, lastSlot, batches), Latest(Selected(batches, lastSlot, false)), false)
  }

  function MaxSlot(batches: seq<Batch>): nat {
    if batches == [] then 0
    else
      var m, s := MaxSlot(batches[..|batches| - 1]), batches[|batches| - 1].slot;
      if s > m then s else m
  }

  lemma {:induction false} MaxSlotBounds(batches: seq<Batch>)
    ensures forall b :: b in batches ==> b.slot <= MaxSlot(batches)
    ensures batches != [] ==> exists b :: b in batches && b.slot == MaxSlot(batches)
  {
    if batches != [] {
      var init, last := batches[..|batches| - 1], batches[|batches| - 1];
      MaxSlotBounds(init);
      assert batches == init + [last];
      assert last in batches;
      if init == [] {
        assert MaxSlot(init) == 0;
      } else if last.slot < MaxSlot(batches) {
        var b :| b in init && b.slot == MaxSlot(init);
        assert b in batches;
      }
    }
  }

  function NextSlot(lastSlot: nat, batches: seq<Batch>): nat {
    if MaxSlot(batches) > lastSlot then MaxSlot(batches) else lastSlot
  }

  function TotalBalances(batches: seq<Batch>): nat {
    if batches == [] then 0
    else TotalBalances(batches[..|batches| - 1]) + |batches[|batches| - 1].balances|
  }

  lemma {:induction false} NoBalancesNoRecords(batches: seq<Batch>, lastSlot: nat)
    requires TotalBalances(batches) == 0
    ensures Selected(batches, lastSlot, true) == Selected(batches, lastSlot, false) == []
  {
    if batches != [] {
      NoBalancesNoRecords(batches[..|batches| - 1], lastSlot);
    }
  }

  lemma AppliedNothing(rows: Rows)
    ensures forall realtime :: Applied(rows, Latest([]), realtime) == rows
  {
    forall realtime
      ensures Applied(rows, Latest([]), realtime) == rows
    {
      SameLookupsSameRows(Applied(rows, Latest([]), realtime), rows);
    }
  }

  lemma {:induction false} SelectedOrigin(f: seq<Batch>, lastSlot: nat, realtime: bool, r: Record)
    requires r in Selected(f, lastSlot, realtime)
    ensures exists b :: b in f && r in b.balances && IsRealtime(b, lastSlot) == realtime
  {
    var init, last := f[..|f| - 1], f[|f| - 1];
    if r in Selected(init, lastSlot, realtime) {
      SelectedOrigin(init, lastSlot, realtime, r);
      var b :| b in init && r in b.balances && IsRealtime(b, lastSlot) == realtime;
      assert b in f;
    } else {
      assert last in f;
    }
  }

  lemma {:induction false} OriginSelected(f: seq<Batch>, lastSlot: nat, b: Batch, r: Record)
    requires b in f && r in b.balances
    ensures r in Selected(f, lastSlot, IsRealtime(b, lastSlot))
  {
    var init, last := f[..|f| - 1], f[|f| - 1];
    assert f == init + [last];
    if b != last {
      OriginSelected(init, lastSlot, b, r);
    }
  }

  // ----- What a flush does, in the batches' own fields -----

  // Live batches: before there is a watermark those of the gRPC stream, afterwards those of later slots.
  ghost predicate AllLive(f: seq<Batch>, lastSlot: nat) {
    forall b :: b in f ==> if lastSlot == 0 then b.isGrpc else b.slot > lastSlot
  }

  ghost predicate NoneLive(f: seq<Batch>, lastSlot: nat) {
    forall b :: b in f ==> if lastSlot == 0 then !b.isGrpc else b.slot <= lastSlot
  }

  // r is the one newest record of its account in the batches.
  ghost predicate NewestInFlush(f: seq<Batch>, r: Record) {
    && (exists b :: b in f && r in b.balances)
    && forall b, x :: b in f && x in b.balances && x.account == r.account && x != r ==> x.lastEventId < r.lastEventId
  }

  lemma NewestIsSelected(f: seq<Batch>, lastSlot: nat, realtime: bool, r: Record)
    requires NewestInFlush(f, r) && forall b :: b in f ==> IsRealtime(b, lastSlot) == realtime
    ensures IsSoleNewest(Selected(f, lastSlot, realtime), r)
    ensures Selected(f, lastSlot, !realtime) == []
  {
    var b :| b in f && r in b.balances;
    OriginSelected(f, lastSlot, b, r);
    forall x | x in Selected(f, lastSlot, realtime)
      ensures exists c :: c in f && x in c.balances
    {
      SelectedOrigin(f, lastSlot, realtime, x);
    }
    NothingSelected(f, lastSlot, !realtime);
  }

  lemma NothingSelected(f: seq<Batch>, lastSlot: nat, realtime: bool)
    requires forall b :: b in f ==> IsRealtime(b, lastSlot) != realtime
    ensures Selected(f, lastSlot, realtime) == []
  {
    if Selected(f, lastSlot, realtime) != [] {
      SelectedOrigin(f, lastSlot, realtime, Selected(f, lastSlot, realtime)[0]);
    }
  }

  // Live batches decide the rows of their accounts, whatever id was stored.
  lemma LiveFlushOverwrites(rows: Rows, lastSlot: nat, f: seq<Batch>, r: Record)
    requires AllLive(f, lastSlot) && NewestInFlush(f, r)
    ensures var after := FlushRows(rows, lastSlot, f);
            if r.balance == "0" then r.account !in after else r.account in after && after[r.account] == r
  {
    NewestIsSelected(f, lastSlot, true, r);
    RealtimeOverwrites(rows, Selected(f, lastSlot, true), r);
    AppliedNothing(AfterRealtime(rows, lastSlot, f));
  }

  // The others never overwrite newer data...
  lemma BackfillNeverLowers(rows: Rows, lastSlot: nat, f: seq<Batch>)
    requires NoneLive(f, lastSlot)
    ensures NeverDecreases(rows, FlushRows(rows, lastSlot, f))
  {
    NothingSelected(f, lastSlot, true);
    AppliedNothing(rows);
    HistoricalNeverLowers(rows, Selected(f, lastSlot, false));
  }

  // ...and neither delete it; what they have to say about older rows, they say.
  lemma BackfillIsGuarded(rows: Rows, lastSlot: nat, f: seq<Batch>, r: Record)
    requires NoneLive(f, lastSlot) && NewestInFlush(f, r)
    ensures var a, after := r.account, FlushRows(rows, lastSlot, f);
            && (a in rows && r.lastEventId < rows[a].lastEventId ==> a in after && after[a] == rows[a])
            && (r.balance == "0" && (a in rows ==> rows[a].lastEventId <= r.lastEventId) ==> a !in after)
            && (r.balance != "0" && (a in rows ==> rows[a].lastEventId < r.lastEventId) ==> a in after && after[a] == r)
  {
    NewestIsSelected(f, lastSlot, false, r);
    AppliedNothing(rows);
    HistoricalIsGuarded(rows, Selected(f, lastSlot, false), r);
  }

  // A message becomes a batch exactly when it decodes and holds an event; the batch has its slot and offset, is live
  // data exactly for source 1, and carries the balances for the balance router only.
  lemma BuildBatchMeans(router: RouterType, msg: Message)
    ensures BuildBatch(router, msg).Some? <==> msg.payload.Some? && msg.payload.value.eventCount > 0
    ensures BuildBatch(router, msg).Some? ==>
              var b, p := BuildBatch(router, msg).value, msg.payload.value;
              && b.slot == p.slot && b.offset == msg.offset && (b.isGrpc <==> p.source == 1)
              && b.balances == match router { case RouterBalance => p.balances case RouterEvent => [] }
  {
  }

  // ----- A sequence of flushes by one worker, from its start -----

  datatype Progress = Progress(rows: Rows, lastSlot: nat)

  function AfterFlushes(initial: Rows, flushes: seq<seq<Batch>>): Progress {
    if flushes == [] then Progress(initial, 0)
    else
      var p, f := AfterFlushes(initial, flushes[..|flushes| - 1]), flushes[|flushes| - 1];
      Progress(FlushRows(p.rows, p.lastSlot, f), NextSlot(p.lastSlot, f))
  }

  lemma AfterOneMore(initial: Rows, flushes: seq<seq<Batch>>, f: seq<Batch>)
    ensures var p := AfterFlushes(initial, flushes);
            AfterFlushes(initial, flushes + [f]) == Progress(FlushRows(p.rows, p.lastSlot, f), NextSlot(p.lastSlot, f))
  {
    assert (flushes + [f])[..|flushes|] == flushes;
  }
}
