/** QueryBalancesByAccounts: answers from a short-lived cache, the rest from one query, merged by position.
    Between any two of its steps other requests and the cleaner may change the cache, and time passes. */
module AccountsQuery {
  import opened Wrappers
  import opened BalanceModel
  import opened Formatting
  import LockCache

  const MAX_ACCOUNTS: nat := 2000
  const TTL: nat := 5 * LockCache.SECOND

  // ----- Token names: four well-known mints are stored as a single digit -----

  const SOL_MINT := "So11111111111111111111111111111111111111111"
  const WSOL_MINT := "So11111111111111111111111111111111111111112"
  const USDC_MINT := "EPjFWdd5AufqSSqeM2qN1xzybapC8G4wEGGkZwyTDt1v"
  const USDT_MINT := "Es9vMFrzaCERmJfrF4H2FYD4KCoNkY11McCe8BenwNYB"
  const NATIVE_SOL := "11111111111111111111111111111111"

  function EncodeToken(token: string): string {
    if token == NATIVE_SOL || token == SOL_MINT then "0"
    else if token == WSOL_MINT then "1"
    else if token == USDC_MINT then "2"
    else if token == USDT_MINT then "3"
    else token
  }

  function DecodeToken(id: string): string {
    if id == "0" then SOL_MINT
    else if id == "1" then WSOL_MINT
    else if id == "2" then USDC_MINT
    else if id == "3" then USDT_MINT
    else id
  }

  // A mint comes back as it was stored, except the native one, which comes back as SOL. A mint is never a digit.
  lemma TokenRoundTrip(token: string)
    requires |token| > 1
    ensures DecodeToken(EncodeToken(token)) == token <==> token != NATIVE_SOL
    ensures DecodeToken(EncodeToken(NATIVE_SOL)) == SOL_MINT
    ensures EncodeToken(SOL_MINT) == "0" && EncodeToken(WSOL_MINT) == "1"
    ensures EncodeToken(USDC_MINT) == "2" && EncodeToken(USDT_MINT) == "3"
  {
    assert NATIVE_SOL[0] != SOL_MINT[0];
  }

  // ----- Answers -----

  datatype Balance = Balance(owner: string, token: string, amount: nat, lastEventId: int)

  datatype AccountResult = AccountResult(account: string, balance: Option<Balance>)

  datatype Error = TooManyAccounts | QueryFailed | ScanFailed | RowsFailed

  // What goes wrong in the database, if anything: the query, the scan of a row, or the iteration after some rows.
  datatype Fault = NoFault | QueryFails | ScanFails(after: nat) | RowsFail(after: nat)

  function FaultError(fault: Fault): Error
    requires !fault.NoFault?
  {
    match fault
    case QueryFails => QueryFailed
    case ScanFails(_) => ScanFailed
    case RowsFail(_) => RowsFailed
  }

  // The accounts a query for these returns a row for.
  function RowsFor(accounts: seq<string>, table: Rows): set<string> {
    set a | a in accounts && a in table
  }

  // The query fails at once; the scan of the row after k rows needs that row; the iteration may fail after the last.
  ghost predicate Reached(fault: Fault, missing: seq<string>, table: Rows) {
    match fault
    case NoFault => false
    case QueryFails => true
    case ScanFails(k) => k < |RowsFor(missing, table)|
    case RowsFail(k) => k <= |RowsFor(missing, table)|
  }

  function ViewOf(row: Record): Balance {
    Balance(row.owner, DecodeToken(row.token), ParseUint64(row.balance), row.lastEventId)
  }

  // Reference: one account looked up in the table.
  function DirectLookup(table: Rows, account: string): Option<Balance> {
    if account in table then Some(ViewOf(table[account])) else None
  }

  // ----- The cache -----

  // An account asked of the cache, and whether the cache had it.
  datatype Peeked = Peeked(account: string, found: bool)

  datatype Slot = Slot(result: Option<Balance>, validAt: nat)

  // Every unexpired answer is what the table says.
  predicate Agreeing(entries: map<string, Slot>, table: Rows, now: nat) {
    forall a :: a in entries && entries[a].result.Some? && !LockCache.Expired(entries[a].validAt, now) ==>
      entries[a].result == DirectLookup(table, a)
  }

  class QueryService {
    const table: Rows
    var entries: map<string, Slot>
    var now: nat
    ghost var fills: seq<string>      // the accounts this service has cached, in order
    ghost var peeks: seq<Peeked>      // what it has asked the cache, in order

    constructor (table: Rows, now: nat)
      requires forall a :: a in table ==> table[a].account == a
      ensures this.table == table && this.now == now && entries == map[] && fills == [] && peeks == [] && Valid()
    {
      this.table, this.entries, this.now, this.fills, this.peeks := table, map[], now, [], [];
    }

    // The primary key holds and the cache agrees with the table.
    ghost predicate Valid()
      reads this
    {
      (forall a :: a in table ==> table[a].account == a) && Agreeing(entries, table, now)
    }

    // Other callers: time passes, and the cache becomes any cache that agrees with the table.
    method Others()
      requires Valid()
      modifies this`now, this`entries
      ensures Valid() && old(now) <= now
    {
      var elapsed: int := *;
      if elapsed > 0 {
        ExpiryIsForGood(entries, table, now, now + elapsed);
        now := now + elapsed;
      }
      var changed: map<string, Slot> := *;
      if Agreeing(changed, table, now) {
        entries := changed;
      }
    }

    method DoRead(account: string) returns (cached: Option<Balance>)
      requires Valid()
      modifies this`now, this`entries, this`peeks
      ensures Valid()
      ensures cached == if account in entries && now / 1_000_000_000 <= entries[account].validAt
                        then entries[account].result else None
      ensures cached.Some? ==> cached == DirectLookup(table, account)
      ensures peeks == old(peeks) + [Peeked(account, cached.Some?)]
    {
      Others();
      peeks := peeks + [Peeked(account, account in entries && !LockCache.Expired(entries[account].validAt, now)
                                        && entries[account].result.Some?)];
      if account !in entries || LockCache.Expired(entries[account].validAt, now) {
        return None;
      }
      cached := entries[account].result;
    }

    method Store(account: string, balance: Balance)
      requires Valid() && DirectLookup(table, account) == Some(balance)
      modifies this`now, this`entries, this`fills
      ensures Valid()
      ensures account in entries
      ensures entries[account] == Slot(Some(balance), (now + 5_000_000_000) / 1_000_000_000 % 4_294_967_296)
      ensures fills == old(fills) + [account]
    {
      Others();
      fills := fills + [account];
      entries := entries[account := Slot(Some(balance), LockCache.ValidAt(now + TTL))];
    }

    // One result per position, in request order and with repetitions, each equal to a direct lookup of its account.
    // The only failures are an oversized request and the database's own.
    // Every position is asked of the cache; `missing` are those it did not have. Their rows are queried if there are
    // any, a fault is reported if and only if it is reached on the way through these rows, and otherwise each row
    // read is cached once.
    method QueryBalancesByAccounts(accounts: seq<string>, fault: Fault)
      returns (res: Result<seq<AccountResult>, Error>, ghost missing: seq<string>)
      requires Valid()
      modifies this
      ensures Valid()
      ensures |accounts| > 2000 ==> res == Failure(TooManyAccounts) && peeks == old(peeks) && fills == old(fills)
      ensures |accounts| <= 2000 ==> Asked(accounts, old(peeks), peeks, missing)
      ensures |accounts| <= 2000 ==> (res.Failure? <==> missing != [] && Reached(fault, missing, table))
      ensures |accounts| <= 2000 && res.Failure? ==>
                res.error == (if fault.QueryFails? then QueryFailed
                              else if fault.ScanFails? then ScanFailed else RowsFailed)
      ensures res.Success? ==> |res.value| == |accounts|
      ensures res.Success? ==> forall i :: 0 <= i < |accounts| ==>
                res.value[i] == AccountResult(accounts[i], DirectLookup(table, accounts[i]))
      ensures res.Success? ==> Cached(old(fills), fills, RowsFor(missing, table))
    {
      if |accounts| == 0 {
        return Success([]), [];
      }
      if |accounts| > MAX_ACCOUNTS {
        return Failure(TooManyAccounts), [];
      }
      var balanceMap: map<string, Balance>, absent: seq<string> := map[], [];
      for i := 0 to |accounts|
        invariant Valid() && Known(balanceMap, table) && fills == old(fills)
        invariant forall j :: 0 <= j < i ==> accounts[j] in balanceMap || accounts[j] in absent
        invariant Asked(accounts[..i], old(peeks), peeks, absent)
      {
        ghost var before, had := peeks, absent;
        var cached := DoRead(accounts[i]);
        if cached.Some? {
          balanceMap := balanceMap[accounts[i] := cached.value];
        } else {
          absent := absent + [accounts[i]];
        }
        AskedOneMore(accounts[..i], old(peeks), before, had, accounts[i], cached.Some?);
        assert accounts[..i] + [accounts[i]] == accounts[..i + 1];
      }
      assert accounts[..|accounts|] == accounts;
      missing := absent;
      assert absent == [] ==> RowsFor(absent, table) == {};
      if |absent| > 0 {
        if fault.QueryFails? {
          return Failure(QueryFailed), missing;
        }
        var failed: Option<Error>;
        ghost var added;
        balanceMap, failed, added := ReadRows(balanceMap, absent, fault);
        if failed.Some? {
          return Failure(failed.value), missing;
        }
        assert fills[|old(fills)|..] == added;
      }
      var results := MakeResult(balanceMap, accounts);
      return Success(results), missing;
    }

    // The rows come in any order; each is merged and cached, once, as it is read.
    method ReadRows(found: map<string, Balance>, missing: seq<string>, fault: Fault)
      returns (merged: map<string, Balance>, failed: Option<Error>, ghost added: seq<string>)
      requires Valid() && Known(found, table) && !fault.QueryFails?
      modifies this`now, this`entries, this`fills
      ensures Valid() && Known(merged, table) && found.Keys <= merged.Keys
      ensures failed.Some? <==> Reached(fault, missing, table)
      ensures failed.Some? ==> failed.value == FaultError(fault)
      ensures failed.None? ==> forall a :: a in missing && a in table ==> a in merged
      ensures fills == old(fills) + added
      ensures failed.None? ==> multiset(added) == multiset(RowsFor(missing, table))
    {
      hide Agreeing, ViewOf, Known, RowsFor;
      added := [];
      var rows := RowsFor(missing, table);
      RowsAre(missing, table);
      merged := found;
      var read := 0;
      while rows != {}
        invariant Valid() && Known(merged, table) && found.Keys <= merged.Keys
        invariant rows <= table.Keys && fills == old(fills) + added
        invariant multiset(added) + multiset(rows) == multiset(RowsFor(missing, table))
        invariant forall a :: a in missing && a in table && a !in rows ==> a in merged
        invariant read + |rows| == |RowsFor(missing, table)|
        invariant forall k: nat :: fault == RowsFail(k) || fault == ScanFails(k) ==> k >= read
        decreases |rows|
      {
        if fault == RowsFail(read) {
          return merged, Some(RowsFailed), added;
        }
        if fault == ScanFails(read) {
          return merged, Some(ScanFailed), added;
        }
        var key :| key in rows;
        RowRead(added, rows, key, RowsFor(missing, table));
        rows := rows - {key};
        read := read + 1;
        var row := table[key];
        KnownOneMore(merged, table, key);
        merged := merged[row.account := ViewOf(row)];
        Store(row.account, ViewOf(row));
        added := added + [key];
      }
      failed := if fault == RowsFail(read) then Some(RowsFailed) else None;
    }
  }

  // Every account was asked of the cache, in order, and `missing` are those it did not have.
  ghost predicate Asked(accounts: seq<string>, before: seq<Peeked>, after: seq<Peeked>, missing: seq<string>) {
    && |after| == |before| + |accounts| && after[..|before|] == before
    && (forall i :: 0 <= i < |accounts| ==> after[|before| + i].account == accounts[i])
    && (forall a :: a in missing <==> Peeked(a, false) in after[|before|..])
  }

  lemma AskedOneMore(accounts: seq<string>, before: seq<Peeked>, after: seq<Peeked>, missing: seq<string>,
                     account: string, found: bool)
    requires Asked(accounts, before, after, missing)
    ensures Asked(accounts + [account], before, after + [Peeked(account, found)],
                  if found then missing else missing + [account])
  {
    var more := after + [Peeked(account, found)];
    assert more[|before|..] == after[|before|..] + [Peeked(account, found)];
    assert more[..|before|] == after[..|before|];
  }

  // Since `before`, each of `rows` has been cached, once.
  ghost predicate Cached(before: seq<string>, after: seq<string>, rows: set<string>) {
    |before| <= |after| && after[..|before|] == before && multiset(after[|before|..]) == multiset(rows)
  }

  lemma RowRead(added: seq<string>, rows: set<string>, key: string, all: set<string>)
    requires key in rows && multiset(added) + multiset(rows) == multiset(all)
    ensures multiset(added + [key]) + multiset(rows - {key}) == multiset(all) && |rows - {key}| == |rows| - 1
  {
    assert rows == (rows - {key}) + {key};
  }

  // What has been found agrees with the table.
  ghost predicate Known(found: map<string, Balance>, table: Rows) {
    forall a :: a in found ==> DirectLookup(table, a) == Some(found[a])
  }

  lemma RowsAre(accounts: seq<string>, table: Rows)
    ensures forall a :: a in RowsFor(accounts, table) <==> a in accounts && a in table
  {
  }

  lemma KnownOneMore(found: map<string, Balance>, table: Rows, key: string)
    requires Known(found, table) && key in table && table[key].account == key
    ensures DirectLookup(table, key) == Some(ViewOf(table[key]))
    ensures Known(found[key := ViewOf(table[key])], table)
  {
    hide ViewOf;
  }

  function ResultFor(balanceMap: map<string, Balance>, account: string): AccountResult {
    AccountResult(account, if account in balanceMap then Some(balanceMap[account]) else None)
  }

  method MakeResult(balanceMap: map<string, Balance>, accounts: seq<string>) returns (results: seq<AccountResult>)
    ensures |results| == |accounts|
    ensures forall i :: 0 <= i < |accounts| ==> results[i] == ResultFor(balanceMap, accounts[i])
  {
    results := [];
    for i := 0 to |accounts|
      invariant |results| == i
      invariant forall j :: 0 <= j < i ==> results[j] == ResultFor(balanceMap, accounts[j])
    {
      results := results + [ResultFor(balanceMap, accounts[i])];
    }
  }

  // Expired answers stay expired, so agreement survives the passing of time.
  lemma ExpiryIsForGood(entries: map<string, Slot>, table: Rows, before: nat, now: nat)
    requires before <= now && Agreeing(entries, table, before)
    ensures Agreeing(entries, table, now)
  {
    forall a | a in entries && !LockCache.Expired(entries[a].validAt, now)
      ensures !LockCache.Expired(entries[a].validAt, before)
    {
      assert LockCache.UnixSeconds(before) <= LockCache.UnixSeconds(now);
    }
  }
}
