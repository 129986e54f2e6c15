/** Balance records, the balance table as a map, and the effect one writer call has on it.
    The table's primary key is the account address. */
module BalanceModel {
  import opened Wrappers

  datatype Record = Record(account: string, owner: string, token: string, balance: string, lastEventId: int)

  type Rows = map<string, Record>

  // The writer treats a record whose balance prints as "0" as a deletion.
  predicate IsZero(r: Record) {
    r.balance == "0"
  }

  function Lookup(rows: Rows, account: string): Option<Record> {
    if account in rows then Some(rows[account]) else None
  }

  // The row that account should have when `newest` is its newest record.
  function Settled(newest: Record): Option<Record> {
    if IsZero(newest) then None else Some(newest)
  }

  lemma SameLookupsSameRows(x: Rows, y: Rows)
    requires forall a :: Lookup(x, a) == Lookup(y, a)
    ensures x == y
  {
    forall a
      ensures a in x <==> a in y
      ensures a in x ==> x[a] == y[a]
    {
      assert Lookup(x, a) == Lookup(y, a);
    }
  }

  // ----- Deduplication: one record per account, greatest id first seen -----

  function Keep(latest: Rows, r: Record): Rows {
    if r.account !in latest || r.lastEventId > latest[r.account].lastEventId
    then latest[r.account := r] else latest
  }

  function Latest(records: seq<Record>): Rows {
    if records == [] then map[]
    else Keep(Latest(records[..|records| - 1]), records[|records| - 1])
  }

  // `r` is a newest record of its account among `records`.
  ghost predicate IsNewest(records: seq<Record>, r: Record) {
    && r in records
    && forall other :: other in records && other.account == r.account ==> other.lastEventId <= r.lastEventId
  }

  lemma {:induction false} LatestIsNewest(records: seq<Record>)
    ensures forall a :: a in Latest(records) <==> exists r :: r in records && r.account == a
    ensures forall a :: a in Latest(records) ==>
                Latest(records)[a].account == a && IsNewest(records, Latest(records)[a])
  {
    if records != [] {
      var init, last := records[..|records| - 1], records[|records| - 1];
      LatestIsNewest(init);
      assert records == init + [last];
      hide Latest;
      KeepIsNewest(init, last, Latest(init));
    }
  }

  lemma KeepIsNewest(init: seq<Record>, last: Record, latest: Rows)
    requires forall a :: a in latest <==> exists r :: r in init && r.account == a
    requires forall a :: a in latest ==> latest[a].account == a && IsNewest(init, latest[a])
    ensures var more := Keep(latest, last);
            && (forall a :: a in more <==> exists r :: r in init + [last] && r.account == a)
            && (forall a :: a in more ==> more[a].account == a && IsNewest(init + [last], more[a]))
  {
    var records := init + [last];
    assert forall r :: r in records <==> r in init || r == last;
    assert last in records;
    forall a
      ensures a in Keep(latest, last) <==> exists r :: r in records && r.account == a
    {
      if exists r :: r in records && r.account == a {
        var r :| r in records && r.account == a;
      }
    }
  }

  // Which of two candidates survives: the second only with a strictly greater id.
  function Newer(x: Option<Record>, y: Option<Record>): Option<Record> {
    if y.None? then x
    else if x.None? || y.value.lastEventId > x.value.lastEventId then y
    else x
  }

  lemma KeepIsNewer(latest: Rows, r: Record, a: string)
    ensures Lookup(Keep(latest, r), a) ==
            if r.account == a then Newer(Lookup(latest, a), Some(r)) else Lookup(latest, a)
  {
  }

  // Deduplicating a concatenation is deduplicating its parts and comparing the survivors.
  lemma {:induction false} LatestOfConcatenation(x: seq<Record>, y: seq<Record>, a: string)
    ensures Lookup(Latest(x + y), a) == Newer(Lookup(Latest(x), a), Lookup(Latest(y), a))
    decreases |y|
  {
    if y == [] {
      assert x + y == x;
    } else {
      var init, last := y[..|y| - 1], y[|y| - 1];
      assert (x + y)[..|x + y| - 1] == x + init;
      LatestOfConcatenation(x, init, a);
      KeepIsNewer(Latest(x + init), last, a);
      KeepIsNewer(Latest(init), last, a);
    }
  }

  // On a tie the record that comes first survives.
  lemma {:induction false} FirstOfNewestSurvives(records: seq<Record>, i: nat)
    requires i < |records| && IsNewest(records, records[i])
    requires forall j :: 0 <= j < i && records[j].account == records[i].account ==>
               records[j].lastEventId < records[i].lastEventId
    ensures Lookup(Latest(records), records[i].account) == Some(records[i])
  {
    var init, last, r := records[..|records| - 1], records[|records| - 1], records[i];
    assert records == init + [last];
    if i < |records| - 1 {
      FirstOfNewestSurvives(init, i);
    } else {
      LatestIsNewest(init);
      hide Latest;
      if last.account in Latest(init) {
        assert Latest(init)[last.account] in init;
      }
    }
    assert Latest(records) == Keep(Latest(init), last);
  }

  // ----- The effect of one InsertBalances call, account by account -----

  // Realtime mode writes blindly; historical mode is guarded by the stored last_event_id.
  function RowAfter(before: Option<Record>, r: Record, realtime: bool): Option<Record> {
    if realtime then Settled(r)
    else if IsZero(r) then
      if before.Some? && r.lastEventId >= before.value.lastEventId then None else before
    else
      if before.None? || r.lastEventId > before.value.lastEventId then Some(r) else before
  }

  function LookupAfter(rows: Rows, latest: Rows, realtime: bool, account: string): Option<Record> {
    if account in latest then RowAfter(Lookup(rows, account), latest[account], realtime) else Lookup(rows, account)
  }

  // The single override that a whole call amounts to.
  function Applied(rows: Rows, latest: Rows, realtime: bool): (after: Rows)
    ensures forall a :: Lookup(after, a) == LookupAfter(rows, latest, realtime, a)
  {
    map a | a in rows.Keys + latest.Keys && LookupAfter(rows, latest, realtime, a).Some?
          :: LookupAfter(rows, latest, realtime, a).value
  }

  // Every account's row is either its old one or its new one.
  ghost predicate Between(before: Rows, after: Rows, middle: Rows) {
    forall a :: Lookup(middle, a) == Lookup(before, a) || Lookup(middle, a) == Lookup(after, a)
  }

  // ----- The same in the records' own fields -----

  // r is the one newest record of its account.
  ghost predicate IsSoleNewest(records: seq<Record>, r: Record) {
    r in records && forall x :: x in records && x.account == r.account && x != r ==> x.lastEventId < r.lastEventId
  }

  lemma SoleNewestSurvives(records: seq<Record>, r: Record)
    requires IsSoleNewest(records, r)
    ensures Lookup(Latest(records), r.account) == Some(r)
  {
    LatestIsNewest(records);
    var kept := Latest(records)[r.account];
    assert kept in records;
  }

  // A realtime call stores or deletes whatever was there.
  lemma RealtimeOverwrites(rows: Rows, records: seq<Record>, r: Record)
    requires IsSoleNewest(records, r)
    ensures var after := Applied(rows, Latest(records), true);
            if r.balance == "0" then r.account !in after else r.account in after && after[r.account] == r
  {
    SoleNewestSurvives(records, r);
    var after := Applied(rows, Latest(records), true);
    assert Lookup(after, r.account) == LookupAfter(rows, Latest(records), true, r.account);
  }

  // A historical call leaves a newer row alone, deletes a row that is no newer, and stores only what is newer than
  // the row or has none.
  lemma HistoricalIsGuarded(rows: Rows, records: seq<Record>, r: Record)
    requires IsSoleNewest(records, r)
    ensures var a, after := r.account, Applied(rows, Latest(records), false);
            && (a in rows && r.lastEventId < rows[a].lastEventId ==> a in after && after[a] == rows[a])
            && (r.balance == "0" && (a in rows ==> rows[a].lastEventId <= r.lastEventId) ==> a !in after)
            && (r.balance != "0" && (a in rows ==> rows[a].lastEventId < r.lastEventId) ==> a in after && after[a] == r)
            && (r.balance != "0" && a in rows && rows[a].lastEventId == r.lastEventId ==>
                a in after && after[a] == rows[a])
  {
    SoleNewestSurvives(records, r);
    var after := Applied(rows, Latest(records), false);
    assert Lookup(after, r.account) == LookupAfter(rows, Latest(records), false, r.account);
  }

  // Accounts without a record keep their rows.
  lemma OthersStay(rows: Rows, records: seq<Record>, realtime: bool, a: string)
    requires forall r :: r in records ==> r.account != a
    ensures Lookup(Applied(rows, Latest(records), realtime), a) == Lookup(rows, a)
  {
    LatestIsNewest(records);
  }

  // A row that stays does not get an older id.
  ghost predicate NeverDecreases(before: Rows, after: Rows) {
    forall a :: a in before && a in after ==> before[a].lastEventId <= after[a].lastEventId
  }

  lemma HistoricalNeverLowers(rows: Rows, records: seq<Record>)
    ensures NeverDecreases(rows, Applied(rows, Latest(records), false))
  {
    var after := Applied(rows, Latest(records), false);
    LatestIsNewest(records);
    forall a | a in rows && a in after
      ensures rows[a].lastEventId <= after[a].lastEventId
    {
      assert Lookup(after, a) == LookupAfter(rows, Latest(records), false, a);
    }
  }
}
