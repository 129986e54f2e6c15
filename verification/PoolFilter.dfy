/** The LRU filter that keeps a pool from being emitted again, and the fold over events that uses it. */
module PoolFilter {
  import opened Wrappers

  const CACHE_SIZE := 50000

  type Byte = b: int | 0 <= b < 256 witness 0

  // EncodeBase58Strict accepts nothing but 32 bytes.
  type Address = s: seq<Byte> | |s| == 32 witness seq(32, _ => 0)

  // ----- Keys: pool address and account key, little-endian -----

  function LittleEndian(n: nat, bytes: nat): (s: seq<Byte>)
    ensures |s| == bytes
  {
    if bytes == 0 then [] else [n % 256] + LittleEndian(n / 256, bytes - 1)
  }

  function Power256(k: nat): nat {
    if k == 0 then 1 else 256 * Power256(k - 1)
  }

  lemma {:induction false} LittleEndianInjective(m: nat, n: nat, bytes: nat)
    requires m < Power256(bytes) && n < Power256(bytes) && LittleEndian(m, bytes) == LittleEndian(n, bytes)
    ensures m == n
  {
    if bytes > 0 {
      var x, y := LittleEndian(m, bytes), LittleEndian(n, bytes);
      assert x[0] == m % 256 && y[0] == n % 256;
      assert x[1..] == LittleEndian(m / 256, bytes - 1) && y[1..] == LittleEndian(n / 256, bytes - 1);
      LittleEndianInjective(m / 256, n / 256, bytes - 1);
    }
  }

  type Key = seq<Byte>

  function BuildKey(pool: Address, accountKey: nat): Key {
    pool + LittleEndian(accountKey, 8)
  }

  // Keys are equal exactly for equal pools and account keys.
  lemma BuildKeyInjective(p: Address, m: nat, q: Address, n: nat)
    requires m < 0x8000_0000_0000_0000 && n < 0x8000_0000_0000_0000
    ensures BuildKey(p, m) == BuildKey(q, n) <==> p == q && m == n
  {
    if BuildKey(p, m) == BuildKey(q, n) {
      assert BuildKey(p, m)[..32] == p && BuildKey(q, n)[..32] == q;
      assert BuildKey(p, m)[32..] == LittleEndian(m, 8) && BuildKey(q, n)[32..] == LittleEndian(n, 8);
      assert Power256(4) == 0x1_0000_0000;
      assert Power256(8) == 256 * (256 * (256 * (256 * Power256(4))));
      LittleEndianInjective(m, n, 8);
    }
  }

  // ----- Reference: what "recent" means -----

  function Without(keys: seq<Key>, k: Key): seq<Key> {
    if keys == [] then [] else (if keys[0] == k then [] else [keys[0]]) + Without(keys[1..], k)
  }

  // Distinct keys of a history, most recently checked first.
  function Recency(h: seq<Key>): seq<Key> {
    if h == [] then [] else [h[|h| - 1]] + Without(Recency(h[..|h| - 1]), h[|h| - 1])
  }

  // The distinct keys checked since k was last checked.
  function Since(h: seq<Key>, k: Key): set<Key> {
    if h == [] || h[|h| - 1] == k then {} else Since(h[..|h| - 1], k) + {h[|h| - 1]}
  }

  function Take(keys: seq<Key>, n: nat): seq<Key> {
    if |keys| <= n then keys else keys[..n]
  }

  ghost predicate NoDuplicates(keys: seq<Key>) {
    forall i, j :: 0 <= i < j < |keys| ==> keys[i] != keys[j]
  }

  function Position(keys: seq<Key>, k: Key): (p: nat)
    requires k in keys
    ensures p < |keys| && keys[p] == k && k !in keys[..p]
  {
    if keys[0] == k then 0
    else
      assert keys == [keys[0]] + keys[1..];
      var p := Position(keys[1..], k) + 1;
      assert keys[..p] == [keys[0]] + keys[1..][..p - 1];
      p
  }

  lemma {:induction false} WithoutMembers(keys: seq<Key>, x: Key)
    ensures forall k :: k in Without(keys, x) <==> k in keys && k != x
    ensures NoDuplicates(keys) ==> NoDuplicates(Without(keys, x))
  {
    if keys != [] {
      WithoutMembers(keys[1..], x);
      assert forall k :: k in keys <==> k == keys[0] || k in keys[1..];
      if NoDuplicates(keys) {
        assert NoDuplicates(keys[1..]);
        assert keys[0] !in keys[1..];
      }
    }
  }

  // Removing a key keeps the order of the others.
  lemma {:induction false} WithoutOrder(keys: seq<Key>, x: Key, k: Key, y: Key)
    requires k in keys && y in keys && k != x && y != x
    ensures k in Without(keys, x) && y in Without(keys, x)
    ensures Position(Without(keys, x), y) < Position(Without(keys, x), k) <==> Position(keys, y) < Position(keys, k)
  {
    WithoutMembers(keys, x);
    WithoutMembers(keys[1..], x);
    var w := Without(keys, x);
    if keys[0] != x {
      assert w == [keys[0]] + Without(keys[1..], x);
      assert w[1..] == Without(keys[1..], x);
    } else {
      assert w == Without(keys[1..], x);
    }
    if k != keys[0] && y != keys[0] {
      WithoutOrder(keys[1..], x, k, y);
    }
  }

  lemma {:induction false} RecencyMembers(h: seq<Key>)
    ensures forall k :: k in Recency(h) <==> k in h
    ensures NoDuplicates(Recency(h))
  {
    if h != [] {
      var init, last := h[..|h| - 1], h[|h| - 1];
      RecencyMembers(init);
      WithoutMembers(Recency(init), last);
      assert h == init + [last];
      var older := Without(Recency(init), last);
      assert last !in older;
      assert forall j :: 0 <= j < |older| ==> older[j] in older;
    }
  }

  // What precedes k in the recency order is what was checked since k.
  lemma {:induction false} BeforeIsSince(h: seq<Key>, k: Key, y: Key)
    requires k in h && y != k
    ensures k in Recency(h)
    ensures y in Since(h, k) <==> y in Recency(h) && Position(Recency(h), y) < Position(Recency(h), k)
  {
    var init, last := h[..|h| - 1], h[|h| - 1];
    assert h == init + [last];
    RecencyMembers(h);
    RecencyMembers(init);
    var r, older := Recency(h), Without(Recency(init), last);
    assert r[1..] == older;
    if last != k && last != y {
      BeforeIsSince(init, k, y);
      WithoutMembers(Recency(init), last);
      if y in init {
        WithoutOrder(Recency(init), last, k, y);
      }
    }
  }

  function Elements(keys: seq<Key>): set<Key> {
    set k | k in keys
  }

  lemma {:induction false} DistinctSize(keys: seq<Key>)
    requires NoDuplicates(keys)
    ensures |Elements(keys)| == |keys|
  {
    if keys != [] {
      DistinctSize(keys[1..]);
      assert Elements(keys) == {keys[0]} + Elements(keys[1..]);
    }
  }

  // A key is among the n most recent exactly when fewer than n distinct keys were checked since.
  lemma RecentMeansFewSince(h: seq<Key>, k: Key, n: nat)
    ensures k in Take(Recency(h), n) <==> k in h && |Since(h, k)| < n
  {
    RecencyMembers(h);
    if k in h {
      var r := Recency(h);
      var p := Position(r, k);
      assert Elements(r[..p]) == Since(h, k) by {
        forall y
          ensures y in Elements(r[..p]) <==> y in Since(h, k)
        {
          if y != k {
            BeforeIsSince(h, k, y);
          } else {
            SinceExcludes(h, k);
          }
          if y in r && y != k {
            assert Position(r, y) < p <==> y in r[..p];
          }
        }
      }
      DistinctSize(r[..p]);
    }
  }

  lemma {:induction false} SinceExcludes(h: seq<Key>, k: Key)
    ensures k !in Since(h, k)
  {
    if h != [] && h[|h| - 1] != k {
      SinceExcludes(h[..|h| - 1], k);
    }
  }

  // ----- The LRU list is the recency order, cut off -----

  lemma {:induction false} TakeWithout(keys: seq<Key>, x: Key, n: nat)
    requires NoDuplicates(keys)
    ensures x in Take(keys, n) ==> Without(Take(keys, n), x) == Take(Without(keys, x), n - 1)
    ensures x !in Take(keys, n) ==> Take(keys, n) == Take(Without(keys, x), n)
  {
    if keys != [] && n > 0 {
      var rest := keys[1..];
      TakeWithout(rest, x, n - 1);
      TakeCons(keys[0], rest, n);
      assert keys == [keys[0]] + rest;
      if keys[0] == x {
        WithoutAbsent(rest, x);
        WithoutAbsent(Take(rest, n - 1), x);
      } else if n > 1 {
        TakeCons(keys[0], Without(rest, x), n - 1);
        TakeCons(keys[0], Without(rest, x), n);
      }
    }
  }

  lemma TakeCons(k: Key, rest: seq<Key>, n: nat)
    requires n > 0
    ensures Take([k] + rest, n) == [k] + Take(rest, n - 1)
    ensures Take([k] + rest, n)[1..] == Take(rest, n - 1)
  {
  }

  lemma {:induction false} WithoutAbsent(keys: seq<Key>, x: Key)
    requires x !in keys
    ensures Without(keys, x) == keys
  {
    if keys != [] {
      WithoutAbsent(keys[1..], x);
    }
  }

  // Moving a hit to the front, or adding a miss and dropping the last, is one step of the cut-off recency order.
  lemma LruStep(h: seq<Key>, k: Key, n: nat)
    requires n > 0
    ensures var lru, next := Take(Recency(h), n), Take(Recency(h + [k]), n);
            next == if k in lru then [k] + Without(lru, k) else Take([k] + lru, n)
  {
    assert (h + [k])[..|h|] == h;
    RecencyMembers(h);
    TakeWithout(Recency(h), k, n);
    var lru := Take(Recency(h), n);
    assert Take([k] + Without(Recency(h), k), n) == [k] + Take(Without(Recency(h), k), n - 1);
    if k !in lru {
      assert Take([k] + lru, n) == [k] + Take(lru, n - 1);
    }
  }

  // ----- The cache -----

  // Pools of these exchanges share an address and are told apart by their token accounts.
  const RAYDIUM_CLMM := 2
  const METEORA_DLMM := 6
  const ORCA_WHIRLPOOL := 7

  function AccountKey(hash: seq<Byte> -> nat, base: Address, quote: Address, dex: nat): (key: nat)
    ensures key < 0x8000_0000_0000_0000
  {
    if dex in {RAYDIUM_CLMM, METEORA_DLMM, ORCA_WHIRLPOOL} then hash(base + quote) % 0x8000_0000_0000_0000 else 0
  }

  class PoolCache {
    const hash: seq<Byte> -> nat      // xxhash64
    const buf: array<Byte>
    var lru: seq<Key>                 // most recent first
    ghost var history: seq<Key>       // every key checked so far

    ghost predicate Valid()
      reads this
    {
      buf.Length == 64 && lru == Take(Recency(history), CACHE_SIZE)
    }

    constructor (hash: seq<Byte> -> nat)
      ensures Valid() && history == [] && this.hash == hash && fresh(buf)
    {
      this.hash := hash;
      buf := new Byte[64](_ => 0);
      lru, history := [], [];
    }

    method CalcAccountKey(base: Address, quote: Address) returns (key: nat)
      requires buf.Length == 64
      modifies buf
      ensures key == hash(base + quote) % 0x8000_0000_0000_0000
    {
      for i := 0 to |base|
        invariant forall j :: 0 <= j < i ==> buf[j] == base[j]
      {
        buf[i] := base[i];
      }
      var n := |base|;
      for i := 0 to |quote|
        invariant forall j :: 0 <= j < n ==> buf[j] == base[j]
        invariant forall j :: 0 <= j < i ==> buf[n + j] == quote[j]
      {
        buf[n + i] := quote[i];
      }
      assert buf[..n + |quote|] == base + quote;
      key := hash(buf[..n + |quote|]) % 0x8000_0000_0000_0000;
    }

    // A key exists exactly when fewer than CACHE_SIZE distinct keys were checked since its last check.
    method CheckAndInsert(pool: Address, base: Address, quote: Address, dex: nat) returns (accountKey: nat, known: bool)
      requires Valid()
      modifies this, buf
      ensures Valid()
      ensures accountKey == AccountKey(hash, base, quote, dex)
      ensures var key := BuildKey(pool, accountKey);
              && history == old(history) + [key]
              && known == (key in old(history) && |Since(old(history), key)| < CACHE_SIZE)
    {
      accountKey := 0;
      if dex in {RAYDIUM_CLMM, METEORA_DLMM, ORCA_WHIRLPOOL} {
        accountKey := CalcAccountKey(base, quote);
      }
      var key := BuildKey(pool, accountKey);
      LruStep(history, key, CACHE_SIZE);
      RecentMeansFewSince(history, key, CACHE_SIZE);
      known := key in lru;
      if known {
        lru := [key] + Without(lru, key);
      } else {
        lru := [key] + lru;
        if |lru| > CACHE_SIZE {
          lru := lru[..CACHE_SIZE];
        }
      }
      history := history + [key];
    }

    // Emit a pool model for every trade or liquidity event whose pool was not checked recently.
    method BuildPoolModels(events: seq<PoolEvent>) returns (result: seq<PoolModel>)
      requires Valid()
      modifies this, buf
      ensures Valid()
      ensures history == old(history) + KeysOf(hash, events)
      ensures result == Emitted(hash, old(history), events)
    {
      hide BuildKey, AccountKey, Since, KeysOf, Emitted;
      result := [];
      assert events[..0] == [];
      NothingEmitted(hash, old(history));
      for i := 0 to |events|
        invariant Valid()
        invariant history == old(history) + KeysOf(hash, events[..i])
        invariant result == Emitted(hash, old(history), events[..i])
      {
        EmitStep(hash, old(history), events, i);
        match events[i] {
          case Trade(pool, base, quote, dex, time) =>
            var accountKey, known := CheckAndInsert(pool, base, quote, dex);
            if !known {
              result := result + [PoolModel(pool, accountKey, dex, 0, time)];
            }
          case Liquidity(pool, base, quote, dex, time, isCreate) =>
            var accountKey, known := CheckAndInsert(pool, base, quote, dex);
            if !known {
              result := result + [PoolModel(pool, accountKey, dex, if isCreate then time else 0, time)];
            }
          case Other =>
        }
      }
      assert events[..|events|] == events;
    }
  }

  // ----- The fold -----

  datatype PoolEvent =
    | Trade(pool: Address, base: Address, quote: Address, dex: nat, time: int)
    | Liquidity(pool: Address, base: Address, quote: Address, dex: nat, time: int, isCreate: bool)
    | Other

  datatype PoolModel = PoolModel(pool: Address, accountKey: nat, dex: nat, createAt: int, updateAt: int)

  function ModelOf(hash: seq<Byte> -> nat, e: PoolEvent): PoolModel
    requires !e.Other?
  {
    var createAt := if e.Liquidity? && e.isCreate then e.time else 0;
    PoolModel(e.pool, AccountKey(hash, e.base, e.quote, e.dex), e.dex, createAt, e.time)
  }

  function KeysOf(hash: seq<Byte> -> nat, events: seq<PoolEvent>): seq<Key> {
    if events == [] then []
    else
      var init, last := events[..|events| - 1], events[|events| - 1];
      KeysOf(hash, init) + if last.Other? then [] else [BuildKey(last.pool, ModelOf(hash, last).accountKey)]
  }

  // Whether a check of k right after history h is reported as known.
  predicate Known(h: seq<Key>, k: Key) {
    k in h && |Since(h, k)| < CACHE_SIZE
  }

  function Emitted(hash: seq<Byte> -> nat, h: seq<Key>, events: seq<PoolEvent>): seq<PoolModel> {
    if events == [] then []
    else
      var init, last := events[..|events| - 1], events[|events| - 1];
      Emitted(hash, h, init) +
      if last.Other? || Known(h + KeysOf(hash, init), BuildKey(last.pool, ModelOf(hash, last).accountKey))
      then [] else [ModelOf(hash, last)]
  }

  lemma NothingEmitted(hash: seq<Byte> -> nat, h: seq<Key>)
    ensures h + KeysOf(hash, []) == h && Emitted(hash, h, []) == []
  {
  }

  lemma EmitStep(hash: seq<Byte> -> nat, h: seq<Key>, events: seq<PoolEvent>, i: nat)
    requires i < |events|
    ensures var e, before := events[i], h + KeysOf(hash, events[..i]);
            if e.Other? then
              && h + KeysOf(hash, events[..i + 1]) == before
              && Emitted(hash, h, events[..i + 1]) == Emitted(hash, h, events[..i])
            else
              var key := BuildKey(e.pool, AccountKey(hash, e.base, e.quote, e.dex));
              && h + KeysOf(hash, events[..i + 1]) == before + [key]
              && Emitted(hash, h, events[..i + 1]) ==
                 Emitted(hash, h, events[..i])
                 + if key in before && |Since(before, key)| < CACHE_SIZE then [] else [ModelOf(hash, e)]
  {
    hide BuildKey, AccountKey, Since;
    assert events[..i + 1][..i] == events[..i];
  }

  // The account key tells the pools of three exchanges apart, and is 0 for all others.
  ghost predicate IsAccountKey(hash: seq<Byte> -> nat, e: PoolEvent, accountKey: nat)
    requires !e.Other?
  {
    && (e.dex == 2 || e.dex == 6 || e.dex == 7 ==> accountKey == hash(e.base + e.quote) % 0x8000_0000_0000_0000)
    && (e.dex != 2 && e.dex != 6 && e.dex != 7 ==> accountKey == 0)
  }

  // A model carries its event's pool, exchange and time; a creation time only if the event creates the pool.
  ghost predicate IsModelOf(hash: seq<Byte> -> nat, e: PoolEvent, p: PoolModel) {
    && !e.Other? && p.pool == e.pool && p.dex == e.dex && p.updateAt == e.time && IsAccountKey(hash, e, p.accountKey)
    && (e.Liquidity? && e.isCreate ==> p.createAt == e.time)
    && (e.Trade? || !e.isCreate ==> p.createAt == 0)
  }

  // The event's key is not among the 50000 most recently checked after history h.
  ghost predicate IsUnknown(hash: seq<Byte> -> nat, h: seq<Key>, e: PoolEvent) {
    && !e.Other?
    && exists accountKey :: IsAccountKey(hash, e, accountKey) && NotRecent(h, BuildKey(e.pool, accountKey))
  }

  ghost predicate NotRecent(h: seq<Key>, key: Key) {
    key !in h || |Since(h, key)| >= 50000
  }

  // `at` lists the events that `result` holds the models of: exactly those whose key was unknown, in order.
  ghost predicate EmittedAt(hash: seq<Byte> -> nat, h: seq<Key>, events: seq<PoolEvent>, result: seq<PoolModel>,
                            at: seq<nat>) {
    && ModelsAt(hash, events, result, at)
    && (forall i :: 0 <= i < |events| ==> (i in at <==> UnknownAt(hash, h, events, i)))
  }

  ghost predicate ModelsAt(hash: seq<Byte> -> nat, events: seq<PoolEvent>, result: seq<PoolModel>, at: seq<nat>) {
    && |at| == |result|
    && (forall j, k :: 0 <= j < k < |at| ==> at[j] < at[k])
    && (forall j :: 0 <= j < |at| ==> at[j] < |events| && IsModelOf(hash, events[at[j]], result[j]))
  }

  lemma MoreModels(hash: seq<Byte> -> nat, init: seq<PoolEvent>, e: PoolEvent, result: seq<PoolModel>, at: seq<nat>,
                   model: PoolModel)
    requires ModelsAt(hash, init, result, at)
    ensures ModelsAt(hash, init + [e], result, at) && |init| !in at
    ensures IsModelOf(hash, e, model) ==> ModelsAt(hash, init + [e], result + [model], at + [|init|])
  {
    hide IsModelOf;
  }

  // The i-th event's key is unknown after the events before it.
  ghost predicate UnknownAt(hash: seq<Byte> -> nat, h: seq<Key>, events: seq<PoolEvent>, i: nat)
    requires i < |events|
  {
    IsUnknown(hash, h + KeysOf(hash, events[..i]), events[i])
  }

  lemma UnknownBefore(hash: seq<Byte> -> nat, h: seq<Key>, init: seq<PoolEvent>, e: PoolEvent)
    ensures forall i :: 0 <= i < |init| ==> UnknownAt(hash, h, init + [e], i) == UnknownAt(hash, h, init, i)
    ensures UnknownAt(hash, h, init + [e], |init|) == IsUnknown(hash, h + KeysOf(hash, init), e)
  {
    hide IsUnknown, KeysOf;
    var events := init + [e];
    assert events[..|init|] == init;
    forall i | 0 <= i < |init|
      ensures UnknownAt(hash, h, events, i) == UnknownAt(hash, h, init, i)
    {
      assert events[..i] == init[..i];
    }
  }

  lemma SkippedEvent(hash: seq<Byte> -> nat, h: seq<Key>, init: seq<PoolEvent>, e: PoolEvent, result: seq<PoolModel>,
                     at: seq<nat>, model: PoolModel)
    requires EmittedAt(hash, h, init, result, at) && !IsUnknown(hash, h + KeysOf(hash, init), e)
    ensures EmittedAt(hash, h, init + [e], result, at)
  {
    UnknownBefore(hash, h, init, e);
    MoreModels(hash, init, e, result, at, model);
    hide IsUnknown, ModelsAt, KeysOf, UnknownAt;
  }

  lemma EmittedEvent(hash: seq<Byte> -> nat, h: seq<Key>, init: seq<PoolEvent>, e: PoolEvent, result: seq<PoolModel>,
                     at: seq<nat>, model: PoolModel)
    requires EmittedAt(hash, h, init, result, at)
    requires IsUnknown(hash, h + KeysOf(hash, init), e) && IsModelOf(hash, e, model)
    ensures EmittedAt(hash, h, init + [e], result + [model], at + [|init|])
  {
    UnknownBefore(hash, h, init, e);
    MoreModels(hash, init, e, result, at, model);
    hide IsUnknown, IsModelOf, ModelsAt, KeysOf, UnknownAt;
    var more := at + [|init|];
    assert forall i :: i in more <==> i in at || i == |init|;
  }

  lemma {:induction false} EmittedExactly(hash: seq<Byte> -> nat, h: seq<Key>, events: seq<PoolEvent>)
    returns (at: seq<nat>)
    ensures EmittedAt(hash, h, events, Emitted(hash, h, events), at)
  {
    if events == [] {
      return [];
    }
    var n := |events| - 1;
    var init, e := events[..n], events[n];
    at := EmittedExactly(hash, h, init);
    UnknownExactly(hash, h + KeysOf(hash, init), e);
    assert init + [e] == events;
    hide EmittedAt, IsModelOf, BuildKey, KeysOf, ModelOf, Known, NotRecent, IsAccountKey;
    if IsUnknown(hash, h + KeysOf(hash, init), e) {
      ModelOfFields(hash, e);
      EmittedEvent(hash, h, init, e, Emitted(hash, h, init), at, ModelOf(hash, e));
      at := at + [n];
    } else {
      SkippedEvent(hash, h, init, e, Emitted(hash, h, init), at, PoolModel(seq(32, _ => 0), 0, 0, 0, 0));
    }
  }

  lemma UnknownExactly(hash: seq<Byte> -> nat, h: seq<Key>, e: PoolEvent)
    ensures IsUnknown(hash, h, e) <==> !(e.Other? || Known(h, BuildKey(e.pool, ModelOf(hash, e).accountKey)))
  {
    hide BuildKey, Since;
    if !e.Other? {
      assert IsAccountKey(hash, e, ModelOf(hash, e).accountKey);
      assert forall k :: IsAccountKey(hash, e, k) ==> k == ModelOf(hash, e).accountKey;
    }
  }

  lemma ModelOfFields(hash: seq<Byte> -> nat, e: PoolEvent)
    requires !e.Other?
    ensures IsModelOf(hash, e, ModelOf(hash, e))
  {
  }

  // If k was last checked at position i, the keys since are those checked after it.
  lemma {:induction false} SinceExactly(h: seq<Key>, i: nat, k: Key)
    requires i < |h| && h[i] == k && k !in h[i + 1..]
    ensures Since(h, k) == Elements(h[i + 1..])
  {
    var init, last := h[..|h| - 1], h[|h| - 1];
    if i < |h| - 1 {
      assert h[i + 1..] == init[i + 1..] + [last];
      SinceExactly(init, i, k);
    }
  }

  // If a key is checked at position i of a history and again, as unknown, at a later position j, then at least
  // CACHE_SIZE other distinct keys were checked in between.
  lemma EmittedAgainMeansManyBetween(h: seq<Key>, i: nat, j: nat)
    requires i < j < |h| && h[i] == h[j] && !Known(h[..j], h[j])
    ensures |Elements(h[i + 1..j]) - {h[j]}| >= CACHE_SIZE
  {
    var k := h[j];
    assert h[..j][i] == k;
    SinceWithin(h[..j], i, k);
    SinceExcludes(h[..j], k);
    assert h[..j][i + 1..] == h[i + 1..j];
    SubsetSize(Since(h[..j], k), Elements(h[i + 1..j]) - {k});
  }

  lemma {:induction false} SinceWithin(h: seq<Key>, i: nat, k: Key)
    requires i < |h| && h[i] == k
    ensures Since(h, k) <= Elements(h[i + 1..])
  {
    var init, last := h[..|h| - 1], h[|h| - 1];
    if last != k {
      SinceWithin(init, i, k);
      assert h[i + 1..] == init[i + 1..] + [last];
    }
  }

  lemma SubsetSize(x: set<Key>, y: set<Key>)
    requires x <= y
    ensures |x| <= |y|
  {
    assert y == x + (y - x);
  }
}
