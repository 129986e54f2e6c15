/** QueryTopHoldersByToken on a cache miss: fetch a few more accounts than asked for, add them up by owner in
    64 bits, sort, truncate. */
module TopHolders {
  import opened Wrappers
  import opened Chunking
  import opened Formatting

  const DEFAULT_LIMIT: nat := 100
  const MAX_LIMIT: nat := 1000
  const UINT64: nat := MAX_UINT64 + 1

  // An account's balance, or an owner's.
  datatype Holder = Holder(owner: string, amount: nat)

  // ----- Limits and the cache key -----

  function LimitOf(requested: Option<int>): (limit: nat)
    ensures 0 < limit <= MAX_LIMIT
    ensures requested.None? || requested.value <= 0 ==> limit == 100
    ensures requested.Some? && 0 < requested.value <= 1000 ==> limit == requested.value
    ensures requested.Some? && requested.value > 1000 ==> limit == 1000
  {
    if requested.Some? && requested.value > 0 then Min(requested.value, MAX_LIMIT) else DEFAULT_LIMIT
  }

  // int(float64(limit) * 1.1)
  function FetchLimit(limit: nat): nat {
    11 * limit / 10
  }

  // The limit and a tenth of it more, rounded down.
  lemma FetchesTenthMore(limit: nat)
    ensures limit + limit / 10 == FetchLimit(limit)
  {
  }

  function Key(encoded: string, limit: nat): string {
    encoded + ":" + FormatInt(FetchLimit(limit))
  }

  // The key carries the fetch limit, not the limit; still only equal requests share it, whatever the token's text.
  lemma KeyInjective(x: string, xl: nat, y: string, yl: nat)
    ensures Key(x, xl) == Key(y, yl) <==> x == y && xl == yl
  {
    if Key(x, xl) == Key(y, yl) {
      var xf, yf := FormatInt(FetchLimit(xl)), FormatInt(FetchLimit(yl));
      assert Value(':') == 16;
      LastSeparator(':', x, xf, y, yf);
      FormatIntInjective(FetchLimit(xl), FetchLimit(yl));
    }
  }

  // ----- The table's view of one token -----

  // Reference: what an owner really holds.
  function TotalOf(accounts: seq<Holder>, owner: string): nat {
    if accounts == [] then 0
    else (if accounts[0].owner == owner then accounts[0].amount else 0) + TotalOf(accounts[1..], owner)
  }

  ghost predicate Holds(accounts: seq<Holder>, owner: string) {
    exists a :: a in accounts && a.owner == owner
  }

  predicate Descending(list: seq<Holder>) {
    forall i, j :: 0 <= i < j < |list| ==> list[i].amount >= list[j].amount
  }

  // ORDER BY balance DESC LIMIT n
  ghost predicate Fetched(rows: seq<Holder>, table: seq<Holder>, n: nat) {
    && Descending(rows) && |rows| == Min(n, |table|) && multiset(rows) <= multiset(table)
    && forall left, row :: left in multiset(table) - multiset(rows) && row in rows ==> left.amount <= row.amount
  }

  // Reference: the `limit` greatest owners by their real totals, in descending order.
  ghost predicate IsTopList(list: seq<Holder>, accounts: seq<Holder>, limit: nat) {
    && |list| <= limit && Descending(list)
    && (forall i, j :: 0 <= i < j < |list| ==> list[i].owner != list[j].owner)
    && (forall h :: h in list ==> Holds(accounts, h.owner) && h.amount == TotalOf(accounts, h.owner))
    && (forall o :: Holds(accounts, o) && !Holds(list, o) ==>
          |list| == limit && forall h :: h in list ==> TotalOf(accounts, o) <= h.amount)
  }

  ghost predicate Fits(accounts: seq<Holder>) {
    forall o :: TotalOf(accounts, o) <= MAX_UINT64
  }

  // ----- Totals -----

  lemma {:induction false} TotalOfConcatenation(a: seq<Holder>, b: seq<Holder>, owner: string)
    ensures TotalOf(a + b, owner) == TotalOf(a, owner) + TotalOf(b, owner)
  {
    if a == [] {
      assert a + b == b;
    } else {
      TotalOfConcatenation(a[1..], b, owner);
      assert (a + b)[1..] == a[1..] + b;
    }
  }

  lemma TotalSplit(accounts: seq<Holder>, i: nat, owner: string)
    requires i < |accounts|
    ensures var h, rest := accounts[i], accounts[..i] + accounts[i + 1..];
            && TotalOf(accounts, owner) == TotalOf(rest, owner) + (if h.owner == owner then h.amount else 0)
            && multiset(rest) == multiset(accounts) - multiset{h}
  {
    var h, tail := accounts[i], accounts[i..];
    assert accounts == accounts[..i] + tail && tail == [h] + accounts[i + 1..] && tail[1..] == accounts[i + 1..];
    TotalOfConcatenation(accounts[..i], tail, owner);
    TotalOfConcatenation(accounts[..i], accounts[i + 1..], owner);
  }

  lemma RestIsPart(part: seq<Holder>, accounts: seq<Holder>, others: seq<Holder>)
    requires part != [] && multiset(part) <= multiset(accounts)
    requires multiset(others) == multiset(accounts) - multiset{part[0]}
    ensures multiset(part[1..]) <= multiset(others)
  {
    assert part == [part[0]] + part[1..];
  }

  // A part of the accounts holds no more than all of them; a rearrangement holds the same.
  lemma {:induction false} TotalOfPart(part: seq<Holder>, accounts: seq<Holder>, owner: string)
    requires multiset(part) <= multiset(accounts)
    ensures TotalOf(part, owner) <= TotalOf(accounts, owner)
    ensures |part| == |accounts| ==> TotalOf(part, owner) == TotalOf(accounts, owner)
    decreases |part|
  {
    if part == [] {
      assert |part| == |accounts| ==> accounts == [];
    } else {
      assert part[0] in multiset(part);
      assert part[0] in accounts;
      var i :| 0 <= i < |accounts| && accounts[i] == part[0];
      var rest, others := part[1..], accounts[..i] + accounts[i + 1..];
      assert TotalOf(part, owner) == TotalOf(rest, owner) + if part[0].owner == owner then part[0].amount else 0;
      TotalSplit(accounts, i, owner);
      RestIsPart(part, accounts, others);
      hide TotalOf;
      TotalOfPart(rest, others, owner);
    }
  }

  // ----- The fill -----

  // Balances are stored from uint64 values.
  ghost predicate Stored(table: seq<Holder>) {
    forall a :: a in table ==> a.amount <= MAX_UINT64
  }

  // holderMap after some rows: every owner's total, modulo 2^64.
  ghost predicate Summed(holderMap: map<string, nat>, rows: seq<Holder>) {
    && (forall o :: o in holderMap <==> Holds(rows, o))
    && (forall o :: o in holderMap ==> holderMap[o] == TotalOf(rows, o) % UINT64)
  }

  method AddUp(rows: seq<Holder>) returns (holderMap: map<string, nat>)
    requires Stored(rows)
    ensures Summed(holderMap, rows)
    ensures forall o :: o in holderMap <==> Holds(rows, o)
    ensures forall o :: o in holderMap ==> holderMap[o] == TotalOf(rows, o) % 18_446_744_073_709_551_616
  {
    hide ParseUint64, FormatUint, Summed, TotalOf, Holds;
    holderMap := map[];
    NothingSummed(rows[..0]);
    for i := 0 to |rows|
      invariant Summed(holderMap, rows[..i])
    {
      AmountRoundTrip(rows[i].amount);
      var owner, bal := rows[i].owner, ParseUint64(FormatUint(rows[i].amount, 10));
      ghost var before := holderMap;
      if owner in holderMap {
        holderMap := holderMap[owner := (holderMap[owner] + bal) % UINT64];
      } else {
        holderMap := holderMap[owner := bal];
      }
      SummedStep(before, holderMap, rows[..i], rows[i]);
      assert rows[..i + 1] == rows[..i] + [rows[i]];
    }
    assert rows[..|rows|] == rows;
    SummedMeans(holderMap, rows);
  }

  lemma SummedMeans(holderMap: map<string, nat>, rows: seq<Holder>)
    requires Summed(holderMap, rows)
    ensures forall o :: o in holderMap <==> Holds(rows, o)
    ensures forall o :: o in holderMap ==> holderMap[o] == TotalOf(rows, o) % 18_446_744_073_709_551_616
  {
    hide TotalOf, Holds;
  }

  lemma NothingSummed(rows: seq<Holder>)
    requires rows == []
    ensures Summed(map[], rows)
  {
  }

  lemma WrappedSum(x: nat, y: nat)
    ensures (x % UINT64 + y) % UINT64 == (x + y) % UINT64
  {
    var q := x / UINT64;
    assert x + y == (x % UINT64 + y) + q * UINT64;
  }

  lemma SummedStep(before: map<string, nat>, after: map<string, nat>, rows: seq<Holder>, row: Holder)
    requires Summed(before, rows) && row.amount <= MAX_UINT64
    requires var had := if row.owner in before then before[row.owner] else 0;
             after == before[row.owner := (had + row.amount) % UINT64]
    ensures Summed(after, rows + [row])
  {
    forall o
      ensures o in after <==> Holds(rows + [row], o)
      ensures o in after ==> after[o] == TotalOf(rows + [row], o) % UINT64
    {
      HoldsOneMore(rows, row, o);
      TotalOfConcatenation(rows, [row], o);
      assert [row][1..] == [];
      if o == row.owner {
        if o !in before {
          NoAccountsNoTotal(rows, o);
        }
        WrappedSum(TotalOf(rows, o), row.amount);
      }
    }
  }

  lemma HoldsOneMore(rows: seq<Holder>, row: Holder, owner: string)
    ensures Holds(rows + [row], owner) <==> Holds(rows, owner) || row.owner == owner
  {
    assert row in rows + [row];
    assert forall a :: a in rows ==> a in rows + [row];
  }

  lemma {:induction false} NoAccountsNoTotal(accounts: seq<Holder>, owner: string)
    requires !Holds(accounts, owner)
    ensures TotalOf(accounts, owner) == 0
  {
    if accounts != [] {
      assert accounts[0] in accounts;
      assert forall a :: a in accounts[1..] ==> a in accounts;
      NoAccountsNoTotal(accounts[1..], owner);
    }
  }

  // The map's entries sorted by sort.Slice: descending, with ties in any order.
  method Sorted(holderMap: map<string, nat>) returns (list: seq<Holder>)
    ensures Descending(list)
    ensures forall i, j :: 0 <= i < j < |list| ==> list[i].owner != list[j].owner
    ensures forall h :: h in list <==> h.owner in holderMap && h.amount == holderMap[h.owner]
  {
    list := [];
    var rest := holderMap.Keys;
    while rest != {}
      invariant rest <= holderMap.Keys && Descending(list)
      invariant forall i, j :: 0 <= i < j < |list| ==> list[i].owner != list[j].owner
      invariant forall h :: h in list <==> h.owner in holderMap && h.owner !in rest && h.amount == holderMap[h.owner]
      invariant forall h, o :: h in list && o in rest ==> holderMap[o] <= h.amount
      decreases |rest|
    {
      GreatestExists(holderMap, rest);
      var owner :| owner in rest && forall o :: o in rest ==> holderMap[o] <= holderMap[owner];
      rest := rest - {owner};
      list := list + [Holder(owner, holderMap[owner])];
    }
  }

  lemma GreatestExists(holderMap: map<string, nat>, rest: set<string>)
    requires rest != {} && rest <= holderMap.Keys
    ensures exists owner :: owner in rest && forall o :: o in rest ==> holderMap[o] <= holderMap[owner]
    decreases |rest|
  {
    var one :| one in rest;
    var others := rest - {one};
    assert rest == others + {one};
    if others == {} {
      assert forall o :: o in rest ==> holderMap[o] <= holderMap[one];
    } else {
      GreatestExists(holderMap, others);
      var best :| best in others && forall o :: o in others ==> holderMap[o] <= holderMap[best];
      var owner := if holderMap[best] < holderMap[one] then one else best;
      assert owner in rest && forall o :: o in rest ==> holderMap[o] <= holderMap[owner];
    }
  }

  // A fresh fill: distinct owners in descending order, no more than asked for, none credited with more than it has;
  // and the true ranking of what was fetched, if that fits in 64 bits.
  method Fill(rows: seq<Holder>, ghost table: seq<Holder>, requested: Option<int>) returns (holders: seq<Holder>)
    requires Stored(table) && Fetched(rows, table, FetchLimit(LimitOf(requested)))
    ensures |holders| <= LimitOf(requested) && Descending(holders)
    ensures forall i, j :: 0 <= i < j < |holders| ==> holders[i].owner != holders[j].owner
    ensures forall h :: h in holders ==> Holds(table, h.owner) && h.amount <= TotalOf(table, h.owner)
    ensures Fits(table) ==> IsTopList(holders, rows, LimitOf(requested))
  {
    hide TotalOf, Holds, Summed, IsTopList, Fits;
    var limit := LimitOf(requested);
    RowsAreAccounts(rows, table);
    var holderMap := AddUp(rows);
    var list := Sorted(holderMap);
    holders := list;
    if |holders| > limit {
      holders := holders[..limit];
    }
    assert holders == list[..Min(limit, |list|)];
    ListIsSound(list, holderMap, rows, table);
    if Fits(table) {
      ListIsTrue(list, holderMap, rows, table);
      TruncatedIsTop(list, rows, limit);
    }
  }

  lemma RowsAreAccounts(rows: seq<Holder>, table: seq<Holder>)
    requires multiset(rows) <= multiset(table)
    ensures forall a :: a in rows ==> a in table
  {
    forall a | a in rows ensures a in table {
      assert a in multiset(rows);
      assert a in multiset(table);
    }
  }

  lemma ListIsSound(list: seq<Holder>, holderMap: map<string, nat>, rows: seq<Holder>, table: seq<Holder>)
    requires multiset(rows) <= multiset(table) && Summed(holderMap, rows)
    requires forall h :: h in list <==> h.owner in holderMap && h.amount == holderMap[h.owner]
    ensures forall h :: h in list ==> Holds(table, h.owner) && h.amount <= TotalOf(table, h.owner)
  {
    hide TotalOf;
    RowsAreAccounts(rows, table);
    forall h | h in list ensures Holds(table, h.owner) && h.amount <= TotalOf(table, h.owner) {
      TotalOfPart(rows, table, h.owner);
      assert TotalOf(rows, h.owner) % UINT64 <= TotalOf(rows, h.owner);
    }
  }

  lemma ListIsTrue(list: seq<Holder>, holderMap: map<string, nat>, rows: seq<Holder>, table: seq<Holder>)
    requires multiset(rows) <= multiset(table) && Summed(holderMap, rows) && Fits(table)
    requires forall h :: h in list <==> h.owner in holderMap && h.amount == holderMap[h.owner]
    ensures forall h :: h in list <==> Holds(rows, h.owner) && h.amount == TotalOf(rows, h.owner)
  {
    forall o ensures TotalOf(rows, o) % UINT64 == TotalOf(rows, o) {
      TotalOfPart(rows, table, o);
      assert TotalOf(table, o) <= MAX_UINT64;
    }
  }

  lemma TruncatedIsTop(list: seq<Holder>, rows: seq<Holder>, limit: nat)
    requires Descending(list)
    requires forall i, j :: 0 <= i < j < |list| ==> list[i].owner != list[j].owner
    requires forall h :: h in list <==> Holds(rows, h.owner) && h.amount == TotalOf(rows, h.owner)
    ensures IsTopList(list[..Min(limit, |list|)], rows, limit)
  {
    var top := list[..Min(limit, |list|)];
    forall o | Holds(rows, o) && !Holds(top, o)
      ensures |top| == limit && forall h :: h in top ==> TotalOf(rows, o) <= h.amount
    {
      var cut := Holder(o, TotalOf(rows, o));
      assert cut in list && cut !in top;
      var k :| 0 <= k < |list| && list[k] == cut;
      assert forall j :: 0 <= j < |top| ==> top[j] in top && top[j] == list[j];
    }
  }

  // ----- When the answer is right -----

  // The answers a fill can give on this table.
  ghost predicate Answers(holders: seq<Holder>, table: seq<Holder>, limit: nat) {
    exists rows :: Fetched(rows, table, FetchLimit(limit)) && IsTopList(holders, rows, limit)
  }

  ghost predicate AlwaysRight(limit: nat, n: nat) {
    forall holders, table :: |table| == n && Fits(table) && Answers(holders, table, limit) ==>
        IsTopList(holders, table, limit)
  }

  // On tables of n accounts every answer is the true ranking exactly when all accounts are fetched.
  lemma RightForSize(limit: nat, n: nat)
    requires 0 < limit <= MAX_LIMIT
    ensures AlwaysRight(limit, n) <==> n <= FetchLimit(limit)
  {
    if n <= FetchLimit(limit) {
      forall holders, table | |table| == n && Fits(table) && Answers(holders, table, limit)
        ensures IsTopList(holders, table, limit)
      {
        AllFetchedIsRight(holders, table, limit);
      }
    } else {
      UnfetchedIsWrong(limit, n);
    }
  }

  lemma AllFetchedIsRight(holders: seq<Holder>, table: seq<Holder>, limit: nat)
    requires |table| <= FetchLimit(limit) && Answers(holders, table, limit)
    ensures IsTopList(holders, table, limit)
  {
    var rows :| Fetched(rows, table, FetchLimit(limit)) && IsTopList(holders, rows, limit);
    SameSizeSameElements(rows, table);
    RowsAreAccounts(rows, table);
    RowsAreAccounts(table, rows);
    forall o
      ensures TotalOf(rows, o) == TotalOf(table, o)
      ensures Holds(rows, o) <==> Holds(table, o)
    {
      TotalOfPart(rows, table, o);
    }
  }

  lemma SameSizeSameElements(part: seq<Holder>, whole: seq<Holder>)
    requires multiset(part) <= multiset(whole) && |part| == |whole|
    ensures multiset(part) == multiset(whole)
  {
    var rest := multiset(whole) - multiset(part);
    assert |rest| == 0;
    assert multiset(whole) == multiset(part) + rest;
  }

  // n accounts of a single owner, the first m of them holding one unit each.
  function OneOwner(n: nat, m: nat): (accounts: seq<Holder>)
    ensures |accounts| == n && forall i :: 0 <= i < n ==> accounts[i] == Holder("a", if i < m then 1 else 0)
  {
    seq(n, i => Holder("a", if i < m then 1 else 0))
  }

  lemma {:induction false} OneOwnerTotals(n: nat, m: nat)
    requires m <= n
    ensures forall o :: TotalOf(OneOwner(n, m), o) == if o == "a" then m else 0
    decreases n
  {
    if n > 0 {
      var fewer := if m > 0 then m - 1 else 0;
      OneOwnerTotals(n - 1, fewer);
      assert OneOwner(n, m)[1..] == OneOwner(n - 1, fewer);
    }
  }

  // An owner of one account more than is fetched is credited with one unit less than it has.
  lemma UnfetchedIsWrong(limit: nat, n: nat)
    requires 0 < limit <= MAX_LIMIT && n > FetchLimit(limit)
    ensures !AlwaysRight(limit, n)
  {
    var f := FetchLimit(limit);
    var table, rows, holders := OneOwner(n, f + 1), OneOwner(f, f), [Holder("a", f)];
    OneOwnerTotals(n, f + 1);
    assert Fits(table);
    FirstRowsAreFetched(n, f);
    OneOwnerTop(f, limit);
    assert Answers(holders, table, limit);
    assert holders[0] in holders;
    assert !IsTopList(holders, table, limit);
  }

  lemma FirstRowsAreFetched(n: nat, f: nat)
    requires n > f
    ensures Fetched(OneOwner(f, f), OneOwner(n, f + 1), f)
  {
    var table, rows := OneOwner(n, f + 1), OneOwner(f, f);
    assert table == rows + table[f..];
    forall left, row | left in multiset(table) - multiset(rows) && row in rows ensures left.amount <= row.amount {
      assert left in table;
    }
  }

  lemma OneOwnerTop(f: nat, limit: nat)
    requires 0 < f && 0 < limit
    ensures IsTopList([Holder("a", f)], OneOwner(f, f), limit)
  {
    var rows, holders := OneOwner(f, f), [Holder("a", f)];
    OneOwnerTotals(f, f);
    assert rows[0] in rows && holders[0] in holders;
    forall h | h in holders ensures h == holders[0] {
    }
  }
}
