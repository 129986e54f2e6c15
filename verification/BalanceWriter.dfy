/** The balance writer: deduplication, classification, and the chunked realtime and historical
    statements, run here with the update goroutine before the delete goroutine.
    BalanceSchedule shows that no other interleaving ends differently. */
module BalanceWriter {
  import opened Wrappers
  import opened BalanceModel

  const BATCH_SIZE := 2000

  ghost predicate Keyed(latest: Rows) {
    forall a :: a in latest ==> latest[a].account == a
  }

  // `records` all come from the deduplicated map `latest`.
  ghost predicate DrawnFrom(records: seq<Record>, latest: Rows) {
    && Keyed(latest)
    && forall r :: r in records ==> r.account in latest && latest[r.account] == r
  }

  function AccountsOf(records: seq<Record>): set<string> {
    set r | r in records :: r.account
  }

  // What one multi-row UPSERT or DELETE leaves in an account's row.
  function Stored(rows: Rows, written: seq<Record>, isDelete: bool, account: string): Option<Record> {
    if account !in AccountsOf(written) then Lookup(rows, account)
    else if isDelete then None
    else Some(LastFor(written, account))
  }

  function LastFor(written: seq<Record>, account: string): (r: Record)
    requires account in AccountsOf(written)
    ensures r in written && r.account == account
  {
    var last := written[|written| - 1];
    if last.account == account then last else LastFor(written[..|written| - 1], account)
  }

  function Write(rows: Rows, written: seq<Record>, isDelete: bool): (after: Rows)
    ensures forall a :: Lookup(after, a) == Stored(rows, written, isDelete, a)
  {
    map a | a in rows.Keys + AccountsOf(written) && Stored(rows, written, isDelete, a).Some?
          :: Stored(rows, written, isDelete, a).value
  }

  // A statement whose records come from one deduplicated map, seen through the map.
  lemma WriteFromLatest(rows: Rows, written: seq<Record>, isDelete: bool, latest: Rows)
    requires DrawnFrom(written, latest)
    ensures forall a :: Lookup(Write(rows, written, isDelete), a) ==
                        if a in latest && latest[a] in written
                        then (if isDelete then None else Some(latest[a])) else Lookup(rows, a)
  {
    forall a
      ensures a in AccountsOf(written) <==> a in latest && latest[a] in written
    {
      if a in latest && latest[a] in written {
        assert latest[a].account in AccountsOf(written);
      }
    }
  }

  // The stored ids that a SELECT ... WHERE account_address IN (accounts) returns.
  function StoredIds(rows: Rows, accounts: set<string>): map<string, int> {
    map a | a in accounts && a in rows :: rows[a].lastEventId
  }

  lemma StoredIdsOfConcatenation(rows: Rows, x: seq<Record>, y: seq<Record>)
    ensures StoredIds(rows, AccountsOf(x + y)) == StoredIds(rows, AccountsOf(x)) + StoredIds(rows, AccountsOf(y))
  {
    assert AccountsOf(x + y) == AccountsOf(x) + AccountsOf(y);
  }

  // The guard of historical mode.
  predicate Passes(existing: map<string, int>, r: Record, isDelete: bool) {
    if isDelete then r.account in existing && r.lastEventId >= existing[r.account]
    else r.account !in existing || r.lastEventId > existing[r.account]
  }

  class BalanceTable {
    var rows: Rows

    constructor ()
      ensures rows == map[]
    {
      rows := map[];
    }

    // INSERT ... VALUES (...),(...): an upsert by primary key, rows in order.
    method Upsert(batch: seq<Record>)
      modifies this
      ensures rows == Write(old(rows), batch, false)
    {
      rows := Write(rows, batch, false);
    }

    // DELETE FROM balance WHERE account_address IN (...)
    method Delete(batch: seq<Record>)
      modifies this
      ensures rows == Write(old(rows), batch, true)
    {
      rows := Write(rows, batch, true);
    }

    // upsertBalancesRealtime and deleteBalancesRealtime: one statement per chunk.
    method WriteRealtime(balances: seq<Record>, isDelete: bool, ghost latest: Rows)
      requires DrawnFrom(balances, latest)
      modifies this
      ensures rows == Write(old(rows), balances, isDelete)
    {
      ghost var before := rows;
      var i := 0;
      while i < |balances|
        invariant 0 <= i
        invariant rows == Write(before, balances[..if i < |balances| then i else |balances|], isDelete)
        decreases |balances| - i
      {
        var end := i + BATCH_SIZE;
        if end > |balances| {
          end := |balances|;
        }
        var batch := balances[i..end];
        assert balances[..end] == balances[..i] + batch;
        if isDelete {
          Delete(batch);
        } else {
          Upsert(batch);
        }
        WriteFromLatest(before, balances[..i], isDelete, latest);
        WriteFromLatest(Write(before, balances[..i], isDelete), batch, isDelete, latest);
        WriteFromLatest(before, balances[..end], isDelete, latest);
        SameLookupsSameRows(rows, Write(before, balances[..end], isDelete));
        i := i + BATCH_SIZE;
      }
      assert balances[..|balances|] == balances;
    }

    // filterBalancesByLastEventID: chunked SELECTs, then the guard, in any order.
    method Filter(balances: seq<Record>, isDelete: bool, ghost latest: Rows) returns (result: seq<Record>)
      requires DrawnFrom(balances, latest)
      ensures forall r :: r in result <==> r in balances && Passes(StoredIds(rows, AccountsOf(balances)), r, isDelete)
    {
      var existing: map<string, int> := map[];
      var i := 0;
      while i < |balances|
        invariant 0 <= i
        invariant existing == StoredIds(rows, AccountsOf(balances[..if i < |balances| then i else |balances|]))
        decreases |balances| - i
      {
        var end := i + BATCH_SIZE;
        if end > |balances| {
          end := |balances|;
        }
        assert balances[..end] == balances[..i] + balances[i..end];
        StoredIdsOfConcatenation(rows, balances[..i], balances[i..end]);
        existing := existing + StoredIds(rows, AccountsOf(balances[i..end]));
        i := i + BATCH_SIZE;
      }
      assert balances[..|balances|] == balances;
      result := [];
      for k := 0 to |balances|
        invariant forall r :: r in result <==> r in balances[..k] && Passes(existing, r, isDelete)
      {
        if Passes(existing, balances[k], isDelete) {
          result := result + [balances[k]];
        }
      }
    }

    method WriteSide(balances: seq<Record>, isDelete: bool, realtime: bool, ghost latest: Rows)
      requires DrawnFrom(balances, latest)
      requires forall r :: r in balances ==> IsZero(r) == isDelete
      modifies this
      ensures forall a :: Lookup(rows, a) ==
                          if a in latest && latest[a] in balances
                          then RowAfter(Lookup(old(rows), a), latest[a], realtime) else Lookup(old(rows), a)
    {
      ghost var before := rows;
      var written := balances;
      if !realtime {
        written := Filter(balances, isDelete, latest);
      }
      WriteRealtime(written, isDelete, latest);
      WriteFromLatest(before, written, isDelete, latest);
      forall a
        ensures Lookup(rows, a) == if a in latest && latest[a] in balances
                                   then RowAfter(Lookup(before, a), latest[a], realtime) else Lookup(before, a)
      {
        if a in latest && latest[a] in balances {
          assert latest[a].account in AccountsOf(balances);
        }
      }
    }

    // InsertBalances: afterwards the table is a single override by each account's newest record.
    method InsertBalances(balances: seq<Record>, realtime: bool)
      modifies this
      ensures rows == Applied(old(rows), Latest(balances), realtime)
    {
      var latest: Rows := map[];
      for i := 0 to |balances|
        invariant latest == Latest(balances[..i])
      {
        assert balances[..i + 1][..i] == balances[..i];
        var b := balances[i];
        if b.account !in latest || b.lastEventId > latest[b.account].lastEventId {
          latest := latest[b.account := b];
        }
      }
      assert balances[..|balances|] == balances;
      LatestIsNewest(balances);

      var toUpdate, toDelete := Classify(latest);
      ghost var before := rows;
      WriteSide(toUpdate, false, realtime, latest);
      WriteSide(toDelete, true, realtime, latest);
      SameLookupsSameRows(rows, Applied(before, latest, realtime));
    }
  }

  // The split into updates and deletions, in any iteration order of the map.
  method Classify(latest: Rows) returns (toUpdate: seq<Record>, toDelete: seq<Record>)
    requires Keyed(latest)
    ensures DrawnFrom(toUpdate, latest) && DrawnFrom(toDelete, latest)
    ensures forall a :: a in latest ==>
                (latest[a] in toDelete <==> IsZero(latest[a])) && (latest[a] in toUpdate <==> !IsZero(latest[a]))
    ensures forall r :: r in toUpdate ==> !IsZero(r)
    ensures forall r :: r in toDelete ==> IsZero(r)
  {
    toUpdate, toDelete := [], [];
    var todo := latest.Keys;
    while todo != {}
      invariant todo <= latest.Keys
      invariant DrawnFrom(toUpdate, latest) && DrawnFrom(toDelete, latest)
      invariant forall r :: r in toUpdate ==> !IsZero(r)
      invariant forall r :: r in toDelete ==> IsZero(r)
      invariant forall a :: a in latest && a !in todo ==>
                    if IsZero(latest[a]) then latest[a] in toDelete else latest[a] in toUpdate
      decreases todo
    {
      var a :| a in todo;
      todo := todo - {a};
      if IsZero(latest[a]) {
        toDelete := toDelete + [latest[a]];
      } else {
        toUpdate := toUpdate + [latest[a]];
      }
    }
  }
}
