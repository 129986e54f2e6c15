/** The pool writer: duplicates are folded into the first record in place, the survivors are split by whether
    they have a creation time, and the two lists are shared out among workers and chunked into statements. */
module PoolWriter {
  import opened Wrappers
  import opened Chunking
  import opened Formatting

  const POOL_BATCH_SIZE: nat := 1000
  const MAX_WORKERS: nat := 4
  const MIN_BATCH_SIZE: nat := 100

  // What never changes about a pool record.
  datatype Identity = Identity(pool: string, accountKey: int, dex: int, token: string, quote: string,
                               tokenAccount: string, quoteAccount: string)

  class Pool {
    const id: Identity
    var createAt: int
    var updateAt: int

    constructor (id: Identity, createAt: int, updateAt: int)
      ensures this.id == id && this.createAt == createAt && this.updateAt == updateAt
    {
      this.id, this.createAt, this.updateAt := id, createAt, updateAt;
    }
  }

  // ----- The duplicate key -----

  function KeyOf(id: Identity): string {
    id.pool + "|" + FormatInt(id.accountKey) + "|" + id.tokenAccount + "|" + id.quoteAccount
  }

  lemma NoBarInNumber(n: int)
    ensures '|' !in FormatInt(n)
  {
    assert Value('|') == 16;
  }

  // Equal key strings are equal tuples, as long as the pool and the token account contain no bar.
  lemma KeyIsTuple(x: Identity, y: Identity)
    requires '|' !in x.pool + x.tokenAccount && '|' !in y.pool + y.tokenAccount
    ensures KeyOf(x) == KeyOf(y) <==>
            x.pool == y.pool && x.accountKey == y.accountKey && x.tokenAccount == y.tokenAccount
            && x.quoteAccount == y.quoteAccount
  {
    if KeyOf(x) == KeyOf(y) {
      NoBarInNumber(x.accountKey);
      NoBarInNumber(y.accountKey);
      var xt, yt := x.tokenAccount + "|" + x.quoteAccount, y.tokenAccount + "|" + y.quoteAccount;
      var xr, yr := FormatInt(x.accountKey) + "|" + xt, FormatInt(y.accountKey) + "|" + yt;
      assert KeyOf(x) == x.pool + ['|'] + xr && KeyOf(y) == y.pool + ['|'] + yr;
      FirstSeparator('|', x.pool, xr, y.pool, yr);
      FirstSeparator('|', FormatInt(x.accountKey), xt, FormatInt(y.accountKey), yt);
      FormatIntInjective(x.accountKey, y.accountKey);
      FirstSeparator('|', x.tokenAccount, x.quoteAccount, y.tokenAccount, y.quoteAccount);
    }
  }

  // Without that the keys can collide.
  lemma BarCollides()
    ensures exists x, y :: KeyOf(x) == KeyOf(y) && x.pool != y.pool
  {
    var x := Identity("a|1", 2, 0, "", "", "b", "c");
    var y := Identity("a", 1, 0, "", "", "2|b", "c");
    assert FormatUint(1, 10) == "1" && FormatUint(2, 10) == "2";
    assert KeyOf(x) == "a|1|2|b|c" == KeyOf(y);
  }

  // ----- Reference: the least nonzero creation time among the records that agree with the first -----

  predicate Agrees(x: Identity, y: Identity) {
    x.dex == y.dex && x.token == y.token && x.quote == y.quote
  }

  // A record's values before the call.
  datatype Input = Input(id: Identity, createAt: int)

  predicate Counts(p: Input, key: string, id: Identity) {
    KeyOf(p.id) == key && Agrees(p.id, id) && p.createAt != 0
  }

  function LeastCreateAt(inputs: seq<Input>, key: string, id: Identity): int {
    if inputs == [] then 0
    else
      var t, p := LeastCreateAt(inputs[..|inputs| - 1], key, id), inputs[|inputs| - 1];
      if Counts(p, key, id) && (t == 0 || p.createAt < t) then p.createAt else t
  }

  // It is one of the records' nonzero times and no other is less; it is 0 if no record has one.
  lemma {:induction false} LeastIsLeast(inputs: seq<Input>, key: string, id: Identity)
    ensures var t := LeastCreateAt(inputs, key, id);
            && (t != 0 ==> exists p :: p in inputs && Counts(p, key, id) && p.createAt == t)
            && (forall p :: p in inputs && Counts(p, key, id) ==> t != 0 && t <= p.createAt)
  {
    hide KeyOf, Agrees;
    if inputs != [] {
      var init, last := inputs[..|inputs| - 1], inputs[|inputs| - 1];
      LeastIsLeast(init, key, id);
      assert inputs == init + [last];
      assert last in inputs;
      var t := LeastCreateAt(inputs, key, id);
      if t != 0 && t != last.createAt {
        var p :| p in init && Counts(p, key, id) && p.createAt == t;
        assert p in inputs;
      }
    }
  }

  // The same in the records' fields: those with the key that name the same exchange and tokens count.
  lemma LeastOfAgreeing(inputs: seq<Input>, key: string, id: Identity)
    ensures var t := LeastCreateAt(inputs, key, id);
            && (forall p :: p in inputs && KeyOf(p.id) == key && p.createAt != 0 ==>
                  p.id.dex == id.dex && p.id.token == id.token && p.id.quote == id.quote ==> t != 0 && t <= p.createAt)
            && (t != 0 ==> exists p :: p in inputs && KeyOf(p.id) == key && p.id.dex == id.dex
                                       && p.id.token == id.token && p.id.quote == id.quote && p.createAt == t)
  {
    LeastIsLeast(inputs, key, id);
    hide KeyOf, LeastCreateAt;
  }

  lemma LeastOfNone(inputs: seq<Input>, key: string, id: Identity)
    requires forall p :: p in inputs ==> KeyOf(p.id) != key
    ensures LeastCreateAt(inputs, key, id) == 0
  {
    LeastIsLeast(inputs, key, id);
  }

  // The position of the first record with this key; |inputs| if there is none.
  function First(inputs: seq<Input>, key: string): (f: nat)
    ensures f <= |inputs|
  {
    if inputs == [] || KeyOf(inputs[0].id) == key then 0 else 1 + First(inputs[1..], key)
  }

  lemma {:induction false} FirstHasKey(inputs: seq<Input>, key: string)
    requires First(inputs, key) < |inputs|
    ensures KeyOf(inputs[First(inputs, key)].id) == key
  {
    hide KeyOf;
    if KeyOf(inputs[0].id) != key {
      FirstHasKey(inputs[1..], key);
    }
  }

  lemma {:induction false} FirstIsFirst(inputs: seq<Input>, key: string, i: nat)
    requires i < |inputs| && KeyOf(inputs[i].id) == key
    ensures First(inputs, key) <= i
  {
    hide KeyOf;
    if i > 0 && KeyOf(inputs[0].id) != key {
      FirstIsFirst(inputs[1..], key, i - 1);
    }
  }

  lemma KeyIsNew(inputs: seq<Input>, n: nat, key: string)
    requires n <= |inputs| && First(inputs, key) >= n
    ensures forall p :: p in inputs[..n] ==> KeyOf(p.id) != key
  {
    hide KeyOf;
    forall i | 0 <= i < n
      ensures KeyOf(inputs[i].id) != key
    {
      if KeyOf(inputs[i].id) == key {
        FirstIsFirst(inputs, key, i);
      }
    }
  }

  // ----- The fold -----

  ghost function Values(pools: seq<Pool>): (was: seq<Input>)
    reads pools
    ensures |was| == |pools| && forall i :: 0 <= i < |pools| ==> was[i] == Input(pools[i].id, pools[i].createAt)
  {
    seq(|pools|, i requires 0 <= i < |pools| reads pools => Input(pools[i].id, pools[i].createAt))
  }

  // `was` gives the records' values before the call.
  ghost predicate Snapshot(pools: seq<Pool>, was: seq<Input>) {
    && |was| == |pools|
    && (forall i :: 0 <= i < |pools| ==> was[i].id == pools[i].id)
    && (forall i, j :: 0 <= i < |pools| && 0 <= j < |pools| && pools[i] == pools[j] ==> was[i] == was[j])
  }

  // What a kept record's creation time is after n records.
  function Merged(was: seq<Input>, n: nat, key: string): int
    requires n <= |was| && First(was, key) < |was|
  {
    LeastCreateAt(was[..n], key, was[First(was, key)].id)
  }

  lemma MergedStep(was: seq<Input>, n: nat, key: string)
    requires n < |was| && First(was, key) < |was|
    ensures var p := was[n];
            Merged(was, n + 1, key) ==
              if Counts(p, key, was[First(was, key)].id)
                  && (Merged(was, n, key) == 0 || p.createAt < Merged(was, n, key))
              then p.createAt else Merged(was, n, key)
  {
    hide KeyOf, First, Agrees;
    assert was[..n + 1][..n] == was[..n];
  }

  // A record seen again changes nothing.
  lemma MergedTwice(was: seq<Input>, n: nat, key: string)
    requires n < |was| && First(was, key) < n && was[n] == was[First(was, key)]
    ensures Merged(was, n + 1, key) == Merged(was, n, key)
  {
    MergedStep(was, n, key);
    assert was[..n][First(was, key)] in was[..n];
    LeastIsLeast(was[..n], key, was[First(was, key)].id);
  }

  // poolMap after n records: the first record of every key seen, holding the merged time; nothing else has changed.
  ghost predicate Folded(kept: map<string, Pool>, pools: seq<Pool>, was: seq<Input>, n: nat)
    requires n <= |pools| && Snapshot(pools, was)
    reads pools
  {
    && (forall k :: k in kept <==> First(was, k) < n)
    && (forall k :: k in kept ==> kept[k] == pools[First(was, k)])
    && (forall k :: k in kept ==> pools[First(was, k)].createAt == Merged(was, n, k))
    && (forall i :: 0 <= i < |pools| && !IsKept(kept, pools[i]) ==> pools[i].createAt == was[i].createAt)
  }

  ghost predicate IsKept(kept: map<string, Pool>, p: Pool) {
    KeyOf(p.id) in kept && kept[KeyOf(p.id)] == p
  }

  lemma KeptByKey(kept: map<string, Pool>, pools: seq<Pool>, was: seq<Input>, n: nat)
    requires n <= |pools| && Snapshot(pools, was) && Folded(kept, pools, was, n)
    ensures forall k :: k in kept ==> KeyOf(kept[k].id) == k
  {
    hide KeyOf;
    forall k | k in kept
      ensures KeyOf(kept[k].id) == k
    {
      FirstHasKey(was, k);
    }
  }

  lemma FirstHere(was: seq<Input>, n: nat)
    requires n < |was|
    ensures forall k :: First(was, k) == n ==> k == KeyOf(was[n].id)
  {
    hide KeyOf, First;
    forall k | First(was, k) == n
      ensures k == KeyOf(was[n].id)
    {
      FirstHasKey(was, k);
    }
  }

  // A record with a new key enters the map.
  method FoldNew(kept: map<string, Pool>, pools: seq<Pool>, ghost was: seq<Input>, n: nat)
    returns (more: map<string, Pool>)
    requires n < |pools| && Snapshot(pools, was) && Folded(kept, pools, was, n) && KeyOf(pools[n].id) !in kept
    ensures Folded(more, pools, was, n + 1)
  {
    hide KeyOf, LeastCreateAt, First;
    var p := pools[n];
    var key := KeyOf(p.id);
    more := kept[key := p];
    FirstIsFirst(was, key, n);
    FirstHere(was, n);
    forall k | k in more
      ensures pools[First(was, k)].createAt == Merged(was, n + 1, k)
    {
      MergedStep(was, n, k);
      if k == key {
        KeyIsNew(was, n, key);
        LeastOfNone(was[..n], key, p.id);
      }
    }
  }

  // A record with a known key may lend its creation time to the first one.
  method FoldDuplicate(kept: map<string, Pool>, pools: seq<Pool>, ghost was: seq<Input>, n: nat)
    requires n < |pools| && Snapshot(pools, was) && Folded(kept, pools, was, n) && KeyOf(pools[n].id) in kept
    modifies pools
    ensures Folded(kept, pools, was, n + 1)
    ensures forall p :: p in pools ==> p.updateAt == old(p.updateAt)
  {
    hide KeyOf, Merged, LeastCreateAt, First;
    var p := pools[n];
    var key := KeyOf(p.id);
    var existing := kept[key];
    MergedStep(was, n, key);
    KeptByKey(kept, pools, was, n);
    FirstHere(was, n);
    if p == existing {
      MergedTwice(was, n, key);
    } else {
      assert !IsKept(kept, p);
    }
    if Agrees(p.id, existing.id) {
      if (existing.createAt == 0 && p.createAt != 0) || (p.createAt < existing.createAt && p.createAt != 0) {
        existing.createAt := p.createAt;
      }
    }
    forall k | k in kept
      ensures pools[First(was, k)].createAt == Merged(was, n + 1, k)
    {
      MergedStep(was, n, k);
      if k != key {
        FirstHasKey(was, k);
        assert pools[First(was, k)] != existing;
      }
    }
  }

  ghost predicate Distinct(list: seq<Pool>) {
    forall i, j :: 0 <= i < j < |list| ==> list[i] != list[j]
  }

  // Ranging over the map: its records, each once, in an order of its own choosing.
  method Range(kept: map<string, Pool>) returns (order: seq<Pool>)
    requires forall k :: k in kept ==> KeyOf(kept[k].id) == k
    ensures Distinct(order)
    ensures forall p :: p in order ==> IsKept(kept, p)
    ensures forall k :: k in kept ==> kept[k] in order
  {
    hide KeyOf;
    order := [];
    var keys := kept.Keys;
    while keys != {}
      invariant keys <= kept.Keys && Distinct(order)
      invariant forall p :: p in order ==> IsKept(kept, p) && KeyOf(p.id) !in keys
      invariant forall k :: k in kept && k !in keys ==> kept[k] in order
      decreases |keys|
    {
      var k :| k in keys;
      keys := keys - {k};
      order := order + [kept[k]];
    }
  }

  // Stamp the records and part them by creation time.
  method StampAndSplit(order: seq<Pool>, ghost pools: seq<Pool>, now: int)
    returns (withCreateAt: seq<Pool>, withoutCreateAt: seq<Pool>)
    requires Distinct(order) && forall p :: p in order ==> p in pools
    modifies pools
    ensures forall p :: p in pools ==>
                p.createAt == old(p.createAt) && p.updateAt == if p in order then now else old(p.updateAt)
    ensures forall p :: p in withCreateAt <==> p in order && p.createAt > 0
    ensures forall p :: p in withoutCreateAt <==> p in order && p.createAt <= 0
    ensures Distinct(withCreateAt) && Distinct(withoutCreateAt)
  {
    withCreateAt, withoutCreateAt := [], [];
    for i := 0 to |order|
      invariant forall p :: p in pools ==> p.createAt == old(p.createAt)
      invariant forall p :: p in pools ==> p.updateAt == if p in order[..i] then now else old(p.updateAt)
      invariant forall p :: p in withCreateAt <==> p in order[..i] && old(p.createAt) > 0
      invariant forall p :: p in withoutCreateAt <==> p in order[..i] && old(p.createAt) <= 0
      invariant Distinct(withCreateAt) && Distinct(withoutCreateAt)
    {
      var p := order[i];
      assert order[..i + 1] == order[..i] + [p];
      assert p !in order[..i];
      p.updateAt := now;
      if p.createAt > 0 {
        withCreateAt := withCreateAt + [p];
      } else {
        withoutCreateAt := withoutCreateAt + [p];
      }
    }
    assert order[..|order|] == order;
  }

  ghost predicate HasSurvivor(p: Pool, withCreateAt: seq<Pool>, withoutCreateAt: seq<Pool>) {
    exists q :: q in withCreateAt + withoutCreateAt && KeyOf(q.id) == KeyOf(p.id)
  }

  // The first record with its key.
  ghost predicate IsFirst(p: Pool, pools: seq<Pool>, was: seq<Input>)
    requires |was| == |pools|
  {
    First(was, KeyOf(p.id)) < |pools| && p == pools[First(was, KeyOf(p.id))]
  }

  // Each record is the first of its key and holds the least nonzero time of the records that agree with it.
  ghost predicate Survivors(list: seq<Pool>, pools: seq<Pool>, was: seq<Input>, now: int)
    requires |was| == |pools|
    reads list
  {
    && Distinct(list)
    && (forall p :: p in list ==> IsFirst(p, pools, was))
    && (forall p :: p in list ==> p.createAt == LeastCreateAt(was, KeyOf(p.id), p.id) && p.updateAt == now)
  }

  // The loop over the input.
  method FoldAll(pools: seq<Pool>) returns (poolMap: map<string, Pool>)
    modifies pools
    ensures Snapshot(pools, old(Values(pools))) && Folded(poolMap, pools, old(Values(pools)), |pools|)
    ensures forall p :: p in pools ==> p.updateAt == old(p.updateAt)
  {
    hide KeyOf;
    ghost var was := Values(pools);
    poolMap := map[];
    for n := 0 to |pools|
      invariant Folded(poolMap, pools, was, n)
      invariant forall p :: p in pools ==> p.updateAt == old(p.updateAt)
    {
      if KeyOf(pools[n].id) !in poolMap {
        poolMap := FoldNew(poolMap, pools, was, n);
      } else {
        FoldDuplicate(poolMap, pools, was, n);
      }
    }
  }

  // After the whole input the map's records are the survivors, and every record of the input has one.
  lemma FoldedRange(kept: map<string, Pool>, pools: seq<Pool>, was: seq<Input>, order: seq<Pool>)
    requires Snapshot(pools, was) && Folded(kept, pools, was, |pools|)
    requires forall p :: p in order ==> IsKept(kept, p)
    requires forall k :: k in kept ==> kept[k] in order
    ensures forall p :: p in order ==> p in pools && IsFirst(p, pools, was)
    ensures forall p :: p in order ==> p.createAt == LeastCreateAt(was, KeyOf(p.id), p.id)
    ensures forall i :: 0 <= i < |pools| ==> HasSurvivor(pools[i], order, [])
    ensures forall i :: 0 <= i < |pools| && pools[i] !in order ==> pools[i].createAt == was[i].createAt
  {
    hide KeyOf, LeastCreateAt;
    assert was[..|pools|] == was;
    KeptByKey(kept, pools, was, |pools|);
    forall i | 0 <= i < |pools|
      ensures HasSurvivor(pools[i], order, [])
    {
      FirstIsFirst(was, KeyOf(pools[i].id), i);
      assert kept[KeyOf(pools[i].id)] in order + [];
    }
  }

  // The fold and the ranging over its map.
  method Survive(pools: seq<Pool>) returns (order: seq<Pool>)
    modifies pools
    ensures Distinct(order)
    ensures forall p :: p in order ==> p in pools && IsFirst(p, pools, old(Values(pools)))
    ensures forall p :: p in order ==> p.createAt == LeastCreateAt(old(Values(pools)), KeyOf(p.id), p.id)
    ensures forall i :: 0 <= i < |pools| ==> HasSurvivor(pools[i], order, [])
    ensures forall p :: p in pools ==> p.updateAt == old(p.updateAt) && (p !in order ==> p.createAt == old(p.createAt))
  {
    var poolMap := FoldAll(pools);
    KeptByKey(poolMap, pools, old(Values(pools)), |pools|);
    order := Range(poolMap);
    FoldedRange(poolMap, pools, old(Values(pools)), order);
    hide KeyOf, Folded, IsKept, IsFirst, LeastCreateAt, Distinct, HasSurvivor, Snapshot;
  }

  method DedupAndSplitPools(pools: seq<Pool>, now: int) returns (withCreateAt: seq<Pool>, withoutCreateAt: seq<Pool>)
    modifies pools
    ensures Survivors(withCreateAt, pools, old(Values(pools)), now)
                && Survivors(withoutCreateAt, pools, old(Values(pools)), now)
    ensures forall p :: p in withCreateAt ==> p.createAt > 0
    ensures forall p :: p in withoutCreateAt ==> p.createAt <= 0
    ensures forall i :: 0 <= i < |pools| ==> HasSurvivor(pools[i], withCreateAt, withoutCreateAt)
    ensures forall p :: p in pools && p !in withCreateAt && p !in withoutCreateAt ==>
              p.createAt == old(p.createAt) && p.updateAt == old(p.updateAt)
  {
    hide KeyOf, IsFirst, LeastCreateAt;
    if |pools| == 0 {
      return [], [];
    }
    var order := Survive(pools);
    withCreateAt, withoutCreateAt := StampAndSplit(order, pools, now);
    forall i | 0 <= i < |pools|
      ensures HasSurvivor(pools[i], withCreateAt, withoutCreateAt)
    {
      assert HasSurvivor(pools[i], order, []);
      var q :| q in order + [] && KeyOf(q.id) == KeyOf(pools[i].id);
      assert q in withCreateAt + withoutCreateAt;
    }
  }

  // ----- allocateBatchSize -----

  // math.Round(a / b) for nonnegative a and positive b: halves go up.
  function Round(a: nat, b: nat): nat
    requires b > 0
  {
    (2 * a + b) / (2 * b)
  }

  // At least two workers share the lists.
  function Effective(maxWorkers: int): nat {
    if maxWorkers < 2 then 2 else maxWorkers
  }

  datatype Shares = Shares(with: nat, without: nat)

  // Workers for the two lists, after the corrections.
  function WorkerShares(withCount: nat, withoutCount: nat, maxWorkers: int): Shares
    requires withCount + withoutCount > 0
  {
    var m := Effective(maxWorkers);
    var w := Round(withCount * m, withCount + withoutCount);
    ShareBounds(withCount, withoutCount, m);
    if w == 0 && withCount > 0 then Shares(1, m)
    else if m - w == 0 && withoutCount > 0 then Shares(w - 1, 1)
    else Shares(w, m - w)
  }

  lemma ShareBounds(withCount: nat, withoutCount: nat, m: nat)
    requires withCount + withoutCount > 0
    ensures Round(withCount * m, withCount + withoutCount) <= m
    ensures withoutCount == 0 ==> Round(withCount * m, withCount + withoutCount) == m
    ensures Round(withCount * m, withCount + withoutCount) == 0 <==> 2 * (withCount * m) < withCount + withoutCount
  {
    var total := withCount + withoutCount;
    assert total * m == withCount * m + withoutCount * m;
    RoundBounds(withCount * m, total, m);
  }

  lemma RoundBounds(a: nat, total: nat, m: nat)
    requires 0 < total && a <= total * m
    ensures Round(a, total) <= m
    ensures a == total * m ==> Round(a, total) == m
    ensures Round(a, total) == 0 <==> 2 * a < total
  {
    var d, n := 2 * total, 2 * a + total;
    assert d * m == 2 * (total * m) && d * (m + 1) == d * m + d;
    DivBelow(n, d, m + 1);
    DivBelow(n, d, 1);
    DivBelow(n, d, m);
  }

  lemma DivBelow(n: nat, d: nat, q: nat)
    requires d > 0
    ensures n < d * q <==> n / d < q
  {
    assert n == (n / d) * d + n % d;
    if n / d < q {
      ProductMonotone(n / d + 1, q, d);
    } else {
      ProductMonotone(q, n / d, d);
    }
  }

  // The shares use all workers. One more than all is shared out exactly when the records with a creation time
  // are so few that their proportion rounds to nothing.
  lemma SharesTotal(withCount: nat, withoutCount: nat, maxWorkers: int)
    requires withCount + withoutCount > 0
    ensures var shares, m := WorkerShares(withCount, withoutCount, maxWorkers), Effective(maxWorkers);
            && shares.with + shares.without == m + (if 0 < 2 * (withCount * m) < withCount + withoutCount then 1 else 0)
            && (withCount > 0 ==> shares.with > 0)
            && (withoutCount > 0 ==> shares.without > 0)
  {
    hide Round;
    var m := Effective(maxWorkers);
    ShareBounds(withCount, withoutCount, m);
    if withCount > 0 {
      ProductMonotone(1, withCount, m);
    }
  }

  // The shares are the nearest to proportional, halves up. A list that would get no worker is given one: the first
  // list an extra one, the second list one of the first's.
  ghost predicate Proportional(shares: Shares, withCount: nat, withoutCount: nat, workers: nat) {
    var a, total := withCount * workers, withCount + withoutCount;
    if withCount == 0 then shares == Shares(0, workers)
    else if withoutCount == 0 then shares == Shares(workers, 0)
    else if 2 * a < total then shares == Shares(1, workers)
    else if 2 * a + total >= 2 * (workers * total) then shares == Shares(workers - 1, 1)
    else
      && shares.with + shares.without == workers
      && 2 * (shares.with * total) <= 2 * a + total < 2 * (shares.with * total) + 2 * total
  }

  lemma SharesAreProportional(withCount: nat, withoutCount: nat, maxWorkers: int)
    requires withCount + withoutCount > 0
    ensures Proportional(WorkerShares(withCount, withoutCount, maxWorkers), withCount, withoutCount,
                         if maxWorkers < 2 then 2 else maxWorkers)
  {
    var m, total := Effective(maxWorkers), withCount + withoutCount;
    var a := withCount * m;
    ShareBounds(withCount, withoutCount, m);
    RoundIsNearest(a, total);
    RoundReaches(a, total, m);
    var w := Round(a, total);
    hide Round;
    if withCount == 0 {
      assert a == 0;
    }
    assert withoutCount > 0 && withCount > 0 ==> (m - w == 0 <==> 2 * a + total >= 2 * (m * total));
  }

  lemma RoundReaches(a: nat, b: nat, m: nat)
    requires b > 0
    ensures m <= Round(a, b) <==> 2 * (m * b) <= 2 * a + b
  {
    var n, d := 2 * a + b, 2 * b;
    DivBelow(n, d, m);
    assert d * m == 2 * (m * b);
  }

  lemma RoundIsNearest(a: nat, b: nat)
    requires b > 0
    ensures 2 * (Round(a, b) * b) <= 2 * a + b < 2 * (Round(a, b) * b) + 2 * b
  {
    var n, d := 2 * a + b, 2 * b;
    assert n == (n / d) * d + n % d;
    assert (n / d) * d == 2 * ((n / d) * b);
  }

  // The least batch size of at least `least` with which `workers` batches hold `count` records.
  predicate IsBatchSize(size: nat, count: nat, workers: nat, least: nat) {
    && 0 < size && least <= size && count <= size * workers
    && (least < size ==> (size - 1) * workers < count)
  }

  method AllocateBatchSize(withCount: nat, withoutCount: nat, maxWorkers: int, minBatchSize: nat)
    returns (withSize: nat, withoutSize: nat)
    ensures withCount + withoutCount > 0 ==>
              Proportional(WorkerShares(withCount, withoutCount, maxWorkers), withCount, withoutCount,
                           if maxWorkers < 2 then 2 else maxWorkers)
    ensures withCount == 0 ==> withSize == 0
    ensures withoutCount == 0 ==> withoutSize == 0
    ensures withCount > 0 ==>
              IsBatchSize(withSize, withCount, WorkerShares(withCount, withoutCount, maxWorkers).with, minBatchSize)
    ensures withoutCount > 0 ==>
              IsBatchSize(withoutSize, withoutCount, WorkerShares(withCount, withoutCount, maxWorkers).without,
                  minBatchSize)
  {
    var totalCount := withCount + withoutCount;
    if totalCount == 0 {
      return 0, 0;
    }
    SharesAreProportional(withCount, withoutCount, maxWorkers);
    hide Proportional;
    var workers := maxWorkers;
    if workers < 2 {
      workers := 2;
    }
    ShareBounds(withCount, withoutCount, workers);
    var maxWithWorkers := Round(withCount * workers, totalCount);
    var maxWithoutWorkers := workers - maxWithWorkers;
    if maxWithWorkers == 0 && withCount > 0 {
      maxWithWorkers := maxWithWorkers + 1;
    } else if maxWithoutWorkers == 0 && withoutCount > 0 {
      maxWithWorkers := maxWithWorkers - 1;
      maxWithoutWorkers := maxWithoutWorkers + 1;
    }
    withSize, withoutSize := 0, 0;
    if withCount > 0 {
      withSize := SizeFor(withCount, maxWithWorkers, minBatchSize);
    }
    if withoutCount > 0 {
      withoutSize := SizeFor(withoutCount, maxWithoutWorkers, minBatchSize);
    }
  }

  method SizeFor(count: nat, workers: nat, minBatchSize: nat) returns (size: nat)
    requires count > 0 && workers > 0
    ensures IsBatchSize(size, count, workers, minBatchSize)
  {
    if count > minBatchSize * workers {
      size := (count + workers - 1) / workers;
      CeilDivAtMost(count, workers, size);
      CeilDivAtMost(count, workers, size - 1);
      CeilDivAtMost(count, workers, minBatchSize);
    } else {
      size := minBatchSize;
    }
  }

  // ----- How many goroutines run -----

  function LeastSize(count: nat, workers: nat, least: nat): nat
    requires workers > 0
  {
    if least < CeilDiv(count, workers) then CeilDiv(count, workers) else least
  }

  // Batches of that size for one list.
  function Goroutines(count: nat, workers: nat, least: nat): nat
    requires count > 0 ==> workers > 0
  {
    if count == 0 then 0
    else
      CeilDivAtMost(count, workers, 0);
      CeilDiv(count, LeastSize(count, workers, least))
  }

  lemma BatchSizeIsLeast(size: nat, count: nat, workers: nat, least: nat)
    requires count > 0 && workers > 0 && IsBatchSize(size, count, workers, least)
    ensures size == LeastSize(count, workers, least)
  {
    CeilDivAtMost(count, workers, size);
    CeilDivAtMost(count, workers, size - 1);
  }

  // The share of workers is never exceeded, and used up exactly when one worker less could not hold the list.
  lemma GoroutinesAtMost(count: nat, workers: nat, least: nat)
    requires count > 0 && workers > 0
    ensures 0 < Goroutines(count, workers, least) <= workers
    ensures Goroutines(count, workers, least) == workers <==> (workers - 1) * LeastSize(count, workers, least) < count
  {
    var size := LeastSize(count, workers, least);
    CeilDivAtMost(count, workers, 0);
    CeilDivAtMost(count, workers, size);
    CeilDivAtMost(count, size, 0);
    CeilDivAtMost(count, size, workers);
    CeilDivAtMost(count, size, workers - 1);
  }

  // With a minimum batch of at least the other workers' number, a list gets a goroutine for every minimum batch it
  // fills or begins, but no more than its share.
  lemma GoroutinesAreMin(count: nat, workers: nat, least: nat)
    requires 0 < workers <= least + 1 && 0 < least
    ensures Goroutines(count, workers, least) == Min(CeilDiv(count, least), workers)
  {
    CeilDivAtMost(count, least, 0);
    if count > 0 {
      GoroutinesAtMost(count, workers, least);
      CeilDivAtMost(count, workers, least);
      CeilDivAtMost(count, least, workers);
      if CeilDiv(count, workers) > least {
        CeilDivAtMost(count, workers, CeilDiv(count, workers) - 1);
        OneWorkerLess(CeilDiv(count, workers), workers);
      }
      hide CeilDiv, Goroutines;
      assert least * workers == workers * least;
    }
  }

  lemma OneWorkerLess(size: nat, workers: nat)
    requires 0 < workers <= size
    ensures (workers - 1) * size <= (size - 1) * workers
  {
    assert (workers - 1) * size == workers * size - size;
    assert (size - 1) * workers == size * workers - workers;
  }

  // One goroutine more than the limit runs exactly when the list with creation times is too short for a worker of
  // its own but not empty, and the other list needs all of them.
  lemma OneTooMany(withCount: nat, withoutCount: nat, maxWorkers: int, least: nat)
    requires withCount + withoutCount > 0
    ensures var m, shares := Effective(maxWorkers), WorkerShares(withCount, withoutCount, maxWorkers);
            && (withCount > 0 ==> shares.with > 0) && (withoutCount > 0 ==> shares.without > 0)
            && var running := Goroutines(withCount, shares.with, least)
                + Goroutines(withoutCount, shares.without, least);
            && running <= m + 1
            && (running == m + 1 <==>
                  && 0 < 2 * (withCount * m) < withCount + withoutCount
                  && (m - 1) * LeastSize(withoutCount, m, least) < withoutCount)
  {
    var m, shares := Effective(maxWorkers), WorkerShares(withCount, withoutCount, maxWorkers);
    SharesTotal(withCount, withoutCount, maxWorkers);
    ShareBounds(withCount, withoutCount, m);
    hide Goroutines, LeastSize, Round;
    if withCount > 0 {
      GoroutinesAtMost(withCount, shares.with, least);
    }
    if withoutCount > 0 {
      GoroutinesAtMost(withoutCount, shares.without, least);
    }
    NoGoroutine(shares, least);
  }

  lemma NoGoroutine(shares: Shares, least: nat)
    ensures Goroutines(0, shares.with, least) == 0 == Goroutines(0, shares.without, least)
  {
  }

  // For the limit of four workers and batches of at least 100.
  lemma FiveGoroutines(withCount: nat, withoutCount: nat)
    requires withCount + withoutCount > 0
    ensures var shares := WorkerShares(withCount, withoutCount, MAX_WORKERS);
            && (withCount > 0 ==> shares.with > 0) && (withoutCount > 0 ==> shares.without > 0)
            && var running := Goroutines(withCount, shares.with, MIN_BATCH_SIZE)
                + Goroutines(withoutCount, shares.without, MIN_BATCH_SIZE);
            && running <= MAX_WORKERS + 1
            && (running == MAX_WORKERS + 1 <==> 0 < 8 * withCount < withCount + withoutCount && withoutCount > 300)
  {
    OneTooMany(withCount, withoutCount, MAX_WORKERS, MIN_BATCH_SIZE);
    hide Goroutines, WorkerShares;
  }

  // ----- InsertPools -----

  // Goroutines, each with its statements, each with its rows, for any limits.
  method DispatchPools(withPools: seq<Pool>, withoutPools: seq<Pool>, maxWorkers: int, minBatchSize: nat)
    returns (withCreateAt: seq<seq<seq<Pool>>>, withoutCreateAt: seq<seq<seq<Pool>>>)
    ensures Partitions(Flatten(withCreateAt), withPools, POOL_BATCH_SIZE)
    ensures Partitions(Flatten(withoutCreateAt), withoutPools, POOL_BATCH_SIZE)
    ensures var w, o, m := |withPools|, |withoutPools|, Effective(maxWorkers);
            && |withCreateAt| + |withoutCreateAt| <= m + 1
            && (|withCreateAt| + |withoutCreateAt| == m + 1 <==>
                  0 < 2 * (w * m) < w + o && (m - 1) * LeastSize(o, m, minBatchSize) < o)
    ensures withPools != [] ==>
              var workers := WorkerShares(|withPools|, |withoutPools|, maxWorkers).with;
              workers > 0 && |withCreateAt| == Goroutines(|withPools|, workers, minBatchSize)
    ensures withoutPools != [] ==>
              var workers := WorkerShares(|withPools|, |withoutPools|, maxWorkers).without;
              workers > 0 && |withoutCreateAt| == Goroutines(|withoutPools|, workers, minBatchSize)
    ensures withPools == [] ==> withCreateAt == []
    ensures withoutPools == [] ==> withoutCreateAt == []
  {
    ghost var w, o := |withPools|, |withoutPools|;
    var withSize, withoutSize := AllocateBatchSize(|withPools|, |withoutPools|, maxWorkers, minBatchSize);
    withCreateAt := Dispatch(withPools, withSize, POOL_BATCH_SIZE);
    withoutCreateAt := Dispatch(withoutPools, withoutSize, POOL_BATCH_SIZE);
    hide WorkerShares, Flatten, CeilDiv, Partitions, LeastSize;
    if w + o > 0 {
      OneTooMany(w, o, maxWorkers, minBatchSize);
      if w > 0 {
        BatchSizeIsLeast(withSize, w, WorkerShares(w, o, maxWorkers).with, minBatchSize);
      }
      if o > 0 {
        BatchSizeIsLeast(withoutSize, o, WorkerShares(w, o, maxWorkers).without, minBatchSize);
      }
    }
  }

  // Every key's survivor is a row of exactly one statement, of the kind its creation time calls for. At most five
  // goroutines run, and five exactly when the survivors with a creation time are some but fewer than one in eight,
  // and those without are more than 300.
  method InsertPools(pools: seq<Pool>, now: int)
    returns (withCreateAt: seq<seq<seq<Pool>>>, withoutCreateAt: seq<seq<seq<Pool>>>)
    modifies pools
    ensures Partitions(Flatten(withCreateAt), Flatten(Flatten(withCreateAt)), 1000)
    ensures Partitions(Flatten(withoutCreateAt), Flatten(Flatten(withoutCreateAt)), 1000)
    ensures Survivors(Flatten(Flatten(withCreateAt)), pools, old(Values(pools)), now)
    ensures Survivors(Flatten(Flatten(withoutCreateAt)), pools, old(Values(pools)), now)
    ensures forall p :: p in Flatten(Flatten(withCreateAt)) ==> p.createAt > 0
    ensures forall p :: p in Flatten(Flatten(withoutCreateAt)) ==> p.createAt <= 0
    ensures forall i :: 0 <= i < |pools| ==>
              HasSurvivor(pools[i], Flatten(Flatten(withCreateAt)), Flatten(Flatten(withoutCreateAt)))
    ensures |withCreateAt| + |withoutCreateAt| <= 5
    ensures var w, o := |Flatten(Flatten(withCreateAt))|, |Flatten(Flatten(withoutCreateAt))|;
            |withCreateAt| + |withoutCreateAt| == 5 <==> 0 < 8 * w < w + o && o > 300
  {
    hide KeyOf, Survivors, WorkerShares;
    var withPools, withoutPools := DedupAndSplitPools(pools, now);
    withCreateAt, withoutCreateAt := DispatchPools(withPools, withoutPools, MAX_WORKERS, MIN_BATCH_SIZE);
    if |withPools| + |withoutPools| > 0 {
      FiveGoroutines(|withPools|, |withoutPools|);
    }
  }

  // Five goroutines do occur: one record with a creation time and a thousand without.
  lemma FifthGoroutine(withSize: nat, withoutSize: nat)
    requires IsBatchSize(withSize, 1, WorkerShares(1, 1000, 4).with, 100)
    requires IsBatchSize(withoutSize, 1000, WorkerShares(1, 1000, 4).without, 100)
    ensures CeilDiv(1, withSize) + CeilDiv(1000, withoutSize) == 5
  {
    assert withSize == 100 && withoutSize == 250;
  }
}
