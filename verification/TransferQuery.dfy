/** Transfers of a wallet: the two one-sided queries, their merge, and paging with an event-id cursor. */
module TransferQuery {
  import opened Chunking
  import opened Wrappers

  const MAX_ID: nat := 0xFFFF_FFFF_FFFF_FFFF
  const DEFAULT_LIMIT := 20
  const MAX_LIMIT := 1000

  datatype Transfer = Transfer(id: nat, from: string, to: string)

  // The table by event id, its key.
  type Table = map<nat, Transfer>

  ghost predicate Keyed(table: Table) {
    forall id :: id in table ==> table[id].id == id && id <= MAX_ID
  }

  datatype QueryType = FromWallet | ToWallet | All | Invalid

  datatype Request = Request(wallet: string, queryType: QueryType, eventId: Option<nat>, limit: Option<nat>)

  datatype Error = WalletRequired | InvalidQueryType

  // ----- Descending lists and the true top of a set -----

  predicate Descending(r: seq<nat>) {
    forall i, j :: 0 <= i < j < |r| ==> r[i] > r[j]
  }

  // r is the k greatest elements of s, greatest first.
  ghost predicate IsTop(r: seq<nat>, s: set<nat>, k: nat) {
    && Descending(r)
    && |r| <= k
    && (forall x :: x in r ==> x in s)
    && (|r| < k ==> forall x :: x in s ==> x in r)
    && (forall x, y :: x in s && x !in r && y in r ==> x < y)
  }

  function Elements(r: seq<nat>): set<nat> {
    set x | x in r
  }

  lemma {:induction false} DescendingSize(r: seq<nat>)
    requires Descending(r)
    ensures |Elements(r)| == |r|
  {
    if r != [] {
      DescendingSize(r[1..]);
      assert Elements(r) == {r[0]} + Elements(r[1..]);
      assert r[0] !in r[1..];
    }
  }

  lemma SubsetSize(x: set<nat>, y: set<nat>)
    requires x <= y
    ensures |x| <= |y|
    ensures x != y ==> |x| < |y|
  {
    assert |y| == |x| + |y - x| by { assert y == x + (y - x); }
    if x != y {
      var e :| e in y - x;
    }
  }

  // The true top is unique.
  lemma TopIsUnique(r: seq<nat>, q: seq<nat>, s: set<nat>, k: nat)
    requires IsTop(r, s, k) && IsTop(q, s, k)
    ensures r == q
  {
    TopSameElements(r, q, s, k);
    TopSameElements(q, r, s, k);
    SameDescending(r, q);
  }

  lemma TopSameElements(r: seq<nat>, q: seq<nat>, s: set<nat>, k: nat)
    requires IsTop(r, s, k) && IsTop(q, s, k)
    ensures forall x :: x in r ==> x in q
  {
    forall x | x in r
      ensures x in q
    {
      if x !in q {
        assert |q| == k;
        assert forall y :: y in q ==> y > x;
        assert forall y :: y in q ==> y in r;
        assert Elements(q) <= Elements(r) - {x};
        DescendingSize(r);
        DescendingSize(q);
        SubsetSize(Elements(q), Elements(r) - {x});
        assert false;
      }
    }
  }

  lemma {:induction false} SameDescending(r: seq<nat>, q: seq<nat>)
    requires Descending(r) && Descending(q)
    requires forall x :: x in r <==> x in q
    ensures r == q
  {
    DescendingSize(r);
    DescendingSize(q);
    assert Elements(r) == Elements(q);
    if r != [] {
      assert r[0] in r && q[0] in q;
      assert r[0] == q[0];
      assert forall x :: x in r[1..] <==> x in r && x != r[0];
      assert forall x :: x in q[1..] <==> x in q && x != q[0];
      SameDescending(r[1..], q[1..]);
    }
  }

  // ----- The one-sided query: filter, cursor, order, limit -----

  function Wanted(table: Table, wallet: string, isFrom: bool, before: Option<nat>): set<nat> {
    set id | id in table && (if isFrom then table[id].from else table[id].to) == wallet
        && (before.None? || id < before.value)
  }

  function Greatest(s: set<nat>): (m: nat)
    requires s != {}
    ensures m in s && forall x :: x in s ==> x <= m
  {
    GreatestExists(s);
    var m :| m in s && forall x :: x in s ==> x <= m;
    m
  }

  lemma {:induction false} GreatestExists(s: set<nat>)
    requires s != {}
    ensures exists m :: m in s && forall x :: x in s ==> x <= m
  {
    var e :| e in s;
    if s != {e} {
      var rest := s - {e};
      assert s == {e} + rest;
      GreatestExists(rest);
      var m :| m in rest && forall x :: x in rest ==> x <= m;
      var top := if m > e then m else e;
      assert forall x :: x in s ==> x == e || x in rest;
      assert top in s && forall x :: x in s ==> x <= top;
    }
  }

  // ORDER BY event_id DESC LIMIT k
  function Top(s: set<nat>, k: nat): (r: seq<nat>)
    ensures IsTop(r, s, k)
    decreases k
  {
    if k == 0 || s == {} then []
    else
      var m := Greatest(s);
      var rest := Top(s - {m}, k - 1);
      assert forall x :: x in rest ==> x in s - {m};
      assert forall j :: 0 <= j < |rest| ==> rest[j] in rest;
      [m] + rest
  }

  function BySide(table: Table, wallet: string, isFrom: bool, before: Option<nat>, limit: nat): seq<nat> {
    Top(Wanted(table, wallet, isFrom, before), limit)
  }

  // ----- The merge -----

  // The last id merged; before the first one, the greatest uint64.
  function LastMerged(merged: seq<nat>): nat {
    if merged == [] then MAX_ID else merged[|merged| - 1]
  }

  function Append(merged: seq<nat>, ev: nat): seq<nat> {
    if ev == LastMerged(merged) then merged else merged + [ev]
  }

  // One input list, i of whose ids have been consumed.
  ghost predicate Side(list: seq<nat>, i: nat, merged: seq<nat>) {
    && i <= |list| && Descending(list)
    && (forall k :: 0 <= k < i ==> list[k] in merged || list[k] == MAX_ID)
    && (forall k :: i <= k < |list| ==> list[k] < LastMerged(merged) || (k == i && list[k] == LastMerged(merged)))
  }

  ghost predicate Merging(from: seq<nat>, i: nat, to: seq<nat>, j: nat, merged: seq<nat>) {
    && Side(from, i, merged) && Side(to, j, merged)
    && Descending(merged)
    && (forall x :: x in merged ==> x < MAX_ID && (x in from || x in to))
  }

  // Consuming the greater head of the two lists.
  lemma MergeStep(from: seq<nat>, i: nat, to: seq<nat>, j: nat, merged: seq<nat>)
    requires Merging(from, i, to, j, merged) && i < |from| && (j < |to| ==> to[j] <= from[i])
    ensures Merging(from, i + 1, to, j, Append(merged, from[i]))
  {
    var ev := from[i];
    var more := Append(merged, ev);
    assert ev in from;
    assert forall x :: x in merged ==> x in more;
    assert forall x :: x in more ==> x in merged || x == ev;
    assert merged != [] ==> merged[|merged| - 1] in merged;
    if ev != LastMerged(merged) {
      assert ev in more && LastMerged(more) == ev;
    }
  }

  lemma MergeStepTo(from: seq<nat>, i: nat, to: seq<nat>, j: nat, merged: seq<nat>)
    requires Merging(from, i, to, j, merged) && j < |to| && (i < |from| ==> from[i] <= to[j])
    ensures Merging(from, i, to, j + 1, Append(merged, to[j]))
  {
    MergeStep(to, j, from, i, merged);
  }

  lemma MergeDone(from: seq<nat>, i: nat, to: seq<nat>, j: nat, merged: seq<nat>, limit: nat)
    requires Merging(from, i, to, j, merged) && |merged| <= limit
    requires |merged| == limit || (i == |from| && j == |to|)
    ensures IsTop(merged, Elements(from) + Elements(to) - {MAX_ID}, limit)
  {
    forall x | (x in from || x in to) && x != MAX_ID && x !in merged
      ensures |merged| == limit && (merged != [] ==> x < LastMerged(merged))
    {
      if x in from {
        var k :| 0 <= k < |from| && from[k] == x;
      } else {
        var k :| 0 <= k < |to| && to[k] == x;
      }
    }
  }

  // mergeTransferEventResponses on event ids: the rows come from one table, so equal ids are equal events.
  method Merge(from: seq<nat>, to: seq<nat>, limit: nat) returns (merged: seq<nat>)
    requires Descending(from) && Descending(to)
    requires forall k :: 0 <= k < |from| ==> from[k] <= MAX_ID
    requires forall k :: 0 <= k < |to| ==> to[k] <= MAX_ID
    ensures IsTop(merged, Elements(from) + Elements(to) - {MAX_ID}, limit)
  {
    assert |from| > 0 ==> from[0] <= MAX_ID;
    assert |to| > 0 ==> to[0] <= MAX_ID;
    merged := [];
    var i, j := 0, 0;
    var last := MAX_ID;
    assert Merging(from, i, to, j, merged);
    hide Merging, IsTop;
    while |merged| < limit && (i < |from| || j < |to|)
      invariant i <= |from| && j <= |to| && |merged| <= limit
      invariant Merging(from, i, to, j, merged) && last == LastMerged(merged)
      decreases |from| - i + |to| - j
    {
      var ev: nat := 0;
      if i < |from| && (j >= |to| || from[i] > to[j]) {
        MergeStep(from, i, to, j, merged);
        ev := from[i];
        i := i + 1;
      } else if j < |to| {
        MergeStepTo(from, i, to, j, merged);
        ev := to[j];
        j := j + 1;
      } else {
        assert false;     // the break on a nil event is never reached
      }
      assert Merging(from, i, to, j, Append(merged, ev));
      // Skip an id that both lists hold.
      if ev == last {
        continue;
      }
      last := ev;
      merged := merged + [ev];
    }
    MergeDone(from, i, to, j, merged, limit);
  }

  // Merging two truncated lists still gives the top of the two untruncated sets.
  lemma TopOfTruncated(from: seq<nat>, to: seq<nat>, m: seq<nat>, s1: set<nat>, s2: set<nat>, k: nat)
    requires IsTop(from, s1, k) && IsTop(to, s2, k)
    requires IsTop(m, Elements(from) + Elements(to), k)
    ensures IsTop(m, s1 + s2, k)
  {
    forall x, y | x in s1 + s2 && x !in m && y in m
      ensures x < y
    {
      if x in s1 {
        TruncatedBelow(from, m, Elements(from) + Elements(to), s1, k, x, y);
      } else {
        TruncatedBelow(to, m, Elements(from) + Elements(to), s2, k, x, y);
      }
    }
    if |m| < k {
      forall x | x in s1 + s2
        ensures x in m
      {
        ShortIsWhole(from, m, s1, k);
        ShortIsWhole(to, m, s2, k);
      }
    }
  }

  lemma ShortIsWhole(from: seq<nat>, m: seq<nat>, s: set<nat>, k: nat)
    requires IsTop(from, s, k) && Descending(m) && |m| < k && forall x :: x in from ==> x in m
    ensures forall x :: x in s ==> x in m
  {
    DescendingSize(from);
    DescendingSize(m);
    SubsetSize(Elements(from), Elements(m));
  }

  lemma TruncatedBelow(from: seq<nat>, m: seq<nat>, both: set<nat>, s: set<nat>, k: nat, x: nat, y: nat)
    requires IsTop(from, s, k) && IsTop(m, both, k) && Elements(from) <= both
    requires x in s && x !in m && y in m
    ensures x < y
  {
    if x !in from && y <= x {
      assert |from| == k;
      forall z | z in from
        ensures z in m && z != y
      {
        assert z in both && z > x;
      }
      DescendingSize(from);
      DescendingSize(m);
      SubsetSize(Elements(from), Elements(m) - {y});
      assert false;
    }
  }

  // ----- QueryTransferEvents -----

  function Limit(limit: Option<nat>): (k: nat)
    ensures 1 <= k <= MAX_LIMIT
    ensures limit.None? || limit.value == 0 ==> k == 20
    ensures limit.Some? && 0 < limit.value <= 1000 ==> k == limit.value
    ensures limit.Some? && limit.value > 1000 ==> k == 1000
  {
    if limit.None? || limit.value == 0 then DEFAULT_LIMIT
    else if limit.value > MAX_LIMIT then MAX_LIMIT else limit.value
  }

  function Cursor(eventId: Option<nat>): Option<nat> {
    if eventId.Some? && eventId.value != 0 then eventId else None
  }

  // Transfers to or from the wallet, below the cursor.
  function Involving(table: Table, wallet: string, before: Option<nat>): set<nat> {
    Wanted(table, wallet, true, before) + Wanted(table, wallet, false, before)
  }

  // The page type ALL gives: the merge of the two truncated sides.
  function PageOf(table: Table, wallet: string, before: Option<nat>, limit: nat): seq<nat> {
    Top(Elements(BySide(table, wallet, true, before, limit))
        + Elements(BySide(table, wallet, false, before, limit)) - {MAX_ID}, limit)
  }

  // A nonempty top of ids contains the greatest possible id if the set does.
  lemma TopHasGreatest(r: seq<nat>, s: set<nat>, k: nat)
    requires k > 0 && MAX_ID in s && forall x :: x in s ==> x <= MAX_ID
    ensures IsTop(r, s, k) ==> MAX_ID in r
  {
    if IsTop(r, s, k) && r != [] {
      assert r[0] in r;
    }
  }

  // The merge of two truncated sides is the top of both sides exactly when the greatest uint64 is no id.
  lemma MergedPage(from: seq<nat>, to: seq<nat>, m: seq<nat>, s1: set<nat>, s2: set<nat>, k: nat)
    requires k > 0 && IsTop(from, s1, k) && IsTop(to, s2, k) && forall x :: x in s1 + s2 ==> x <= MAX_ID
    requires IsTop(m, Elements(from) + Elements(to) - {MAX_ID}, k)
    ensures IsTop(m, s1 + s2, k) <==> MAX_ID !in s1 + s2
  {
    if MAX_ID in s1 + s2 {
      TopHasGreatest(m, s1 + s2, k);
    } else {
      assert Elements(from) + Elements(to) - {MAX_ID} == Elements(from) + Elements(to);
      TopOfTruncated(from, to, m, s1, s2, k);
    }
  }

  // That page is the top of the wallet's transfers exactly when the greatest uint64 is no id among them.
  lemma PageIsTop(table: Table, wallet: string, before: Option<nat>, limit: nat)
    requires Keyed(table) && limit > 0
    ensures IsTop(PageOf(table, wallet, before, limit), Involving(table, wallet, before), limit)
            <==> MAX_ID !in Involving(table, wallet, before)
  {
    var from, to := BySide(table, wallet, true, before, limit), BySide(table, wallet, false, before, limit);
    MergedPage(from, to, PageOf(table, wallet, before, limit),
               Wanted(table, wallet, true, before), Wanted(table, wallet, false, before), limit);
  }

  method QueryBothSides(table: Table, wallet: string, before: Option<nat>, limit: nat) returns (merged: seq<nat>)
    requires Keyed(table) && limit > 0
    ensures merged == PageOf(table, wallet, before, limit)
    ensures IsTop(merged, Involving(table, wallet, before), limit) <==> MAX_ID !in Involving(table, wallet, before)
  {
    var from := BySide(table, wallet, true, before, limit);
    var to := BySide(table, wallet, false, before, limit);
    assert forall k :: 0 <= k < |from| ==> from[k] in from;
    assert forall k :: 0 <= k < |to| ==> to[k] in to;
    merged := Merge(from, to, limit);
    TopIsUnique(merged, PageOf(table, wallet, before, limit), Elements(from) + Elements(to) - {MAX_ID}, limit);
    PageIsTop(table, wallet, before, limit);
  }

  function Asked(table: Table, req: Request): set<nat> {
    match req.queryType
    case FromWallet => Wanted(table, req.wallet, true, Cursor(req.eventId))
    case ToWallet => Wanted(table, req.wallet, false, Cursor(req.eventId))
    case All => Involving(table, req.wallet, Cursor(req.eventId))
    case Invalid => {}
  }

  // A transfer answers a request if it goes from, to, or either way of the wallet, as asked, and lies below the
  // cursor, if that is one.
  ghost predicate Matches(table: Table, req: Request, id: nat) {
    && id in table
    && (req.queryType == FromWallet ==> table[id].from == req.wallet)
    && (req.queryType == ToWallet ==> table[id].to == req.wallet)
    && (req.queryType == All ==> table[id].from == req.wallet || table[id].to == req.wallet)
    && req.queryType != Invalid
    && (req.eventId.Some? && req.eventId.value != 0 ==> id < req.eventId.value)
  }

  lemma AskedMatches(table: Table, req: Request)
    ensures forall id :: id in Asked(table, req) <==> Matches(table, req, id)
  {
  }

  lemma AskedSides(table: Table, req: Request)
    ensures req.queryType == FromWallet ==> Asked(table, req) == Wanted(table, req.wallet, true, Cursor(req.eventId))
    ensures req.queryType == ToWallet ==> Asked(table, req) == Wanted(table, req.wallet, false, Cursor(req.eventId))
    ensures req.queryType == All ==> Asked(table, req) == Involving(table, req.wallet, Cursor(req.eventId))
  {
  }

  lemma PageWithin(table: Table, wallet: string, before: Option<nat>, limit: nat)
    ensures var page := PageOf(table, wallet, before, limit);
            && Descending(page) && |page| <= limit && MAX_ID !in page
            && forall x :: x in page ==> x in Involving(table, wallet, before)
  {
  }

  // The page of ids a request gets.
  method Query(table: Table, req: Request) returns (page: Result<seq<nat>, Error>)
    requires Keyed(table)
    ensures req.wallet == "" ==> page == Failure(WalletRequired)
    ensures req.wallet != "" && req.queryType == Invalid ==> page == Failure(InvalidQueryType)
    ensures req.wallet != "" && req.queryType != Invalid ==>
              page.Success? &&
              (IsTop(page.value, Asked(table, req), Limit(req.limit)) <==>
                  !(req.queryType == All && 0xFFFF_FFFF_FFFF_FFFF in Asked(table, req)))
    ensures req.wallet != "" && req.queryType == All ==>
              page == Success(PageOf(table, req.wallet, Cursor(req.eventId), Limit(req.limit)))
    ensures page.Success? ==> Descending(page.value) && forall x :: x in page.value ==> Matches(table, req, x)
    ensures page.Success? ==> |page.value| <= Limit(req.limit)
    ensures page.Success? && !(req.queryType == All && Matches(table, req, 0xFFFF_FFFF_FFFF_FFFF)) ==>
              forall x :: Matches(table, req, x) && x !in page.value ==>
                |page.value| == Limit(req.limit) && forall y :: y in page.value ==> x < y
    ensures page.Success? && req.queryType == All ==> 0xFFFF_FFFF_FFFF_FFFF !in page.value
  {
    AskedMatches(table, req);
    AskedSides(table, req);
    hide Asked, Matches, Wanted;
    if req.wallet == "" {
      return Failure(WalletRequired);
    }
    var limit, before := Limit(req.limit), Cursor(req.eventId);
    match req.queryType {
      case FromWallet => page := Success(BySide(table, req.wallet, true, before, limit));
      case ToWallet => page := Success(BySide(table, req.wallet, false, before, limit));
      case All =>
        var merged := QueryBothSides(table, req.wallet, before, limit);
        page := Success(merged);
        PageWithin(table, req.wallet, before, limit);
      case Invalid => page := Failure(InvalidQueryType);
    }
  }

  // ----- Paging -----

  function Below(s: set<nat>, cursor: Option<nat>): set<nat> {
    set x | x in s && (cursor.None? || x < cursor.value)
  }

  lemma InvolvingBelow(table: Table, wallet: string, cursor: Option<nat>)
    ensures Involving(table, wallet, cursor) == Below(Involving(table, wallet, None), cursor)
  {
  }

  // What has been shown so far: everything of s from the cursor up.
  ghost predicate Shown(s: set<nat>, all: seq<nat>, cursor: Option<nat>) {
    && Descending(all)
    && cursor == (if all == [] then None else Some(all[|all| - 1]))
    && forall x :: x in all <==> x in s && x !in Below(s, cursor)
  }

  lemma ShownGrows(s: set<nat>, all: seq<nat>, cursor: Option<nat>, page: seq<nat>, limit: nat)
    requires Shown(s, all, cursor) && page != [] && IsTop(page, Below(s, cursor), limit)
    ensures Shown(s, all + page, Some(page[|page| - 1]))
    ensures |Below(s, Some(page[|page| - 1]))| < |Below(s, cursor)|
  {
    var last := page[|page| - 1];
    assert last in page;
    var now, next := Below(s, cursor), Below(s, Some(last));
    assert forall k :: 0 <= k < |page| ==> page[k] in page;
    assert last in now && last !in next && next <= now;
    SubsetSize(next, now);
    forall x
      ensures x in all + page <==> x in s && x !in next
    {
    }
    assert Descending(all + page) by {
      forall k | 0 <= k < |all|
        ensures all[k] > page[0]
      {
        assert all[k] in all && page[0] in now;
        assert all[k] >= all[|all| - 1];
      }
    }
  }

  lemma LastPage(s: set<nat>, all: seq<nat>, cursor: Option<nat>, k: nat)
    requires k > 0 && Shown(s, all, cursor) && IsTop([], Below(s, cursor), k)
    ensures Descending(all) && forall x :: x in all <==> x in s
  {
  }

  lemma LastIsNoZero(page: seq<nat>, s: set<nat>, k: nat)
    requires page != [] && IsTop(page, s, k) && 0 !in s
    ensures page[|page| - 1] != 0
  {
    assert page[|page| - 1] in page;
  }

  method NextPage(table: Table, wallet: string, cursor: Option<nat>, limit: Option<nat>) returns (page: seq<nat>)
    requires Keyed(table) && wallet != "" && MAX_ID !in Involving(table, wallet, None) && cursor != Some(0)
    ensures IsTop(page, Below(Involving(table, wallet, None), cursor), Limit(limit))
  {
    hide PageOf, IsTop;
    InvolvingBelow(table, wallet, cursor);
    var answer := Query(table, Request(wallet, All, cursor, limit));
    page := answer.value;
  }

  // Ask for type ALL again and again, with the cursor on the last id returned, until a page is empty.
  // Every transfer of the wallet comes exactly once, greatest id first.
  method PageThrough(table: Table, wallet: string, limit: Option<nat>) returns (all: seq<nat>)
    requires Keyed(table) && wallet != ""
    requires 0 !in Involving(table, wallet, None) && MAX_ID !in Involving(table, wallet, None)
    ensures Descending(all)
    ensures forall x :: x in all <==> x in Involving(table, wallet, None)
  {
    all := [];
    var cursor: Option<nat> := None;
    ghost var s := Involving(table, wallet, None);
    assert Shown(s, all, cursor);
    hide Shown, Involving, IsTop, Descending, Limit, Keyed;
    while true
      invariant Shown(s, all, cursor) && cursor != Some(0)
      decreases |Below(s, cursor)|
    {
      var page := NextPage(table, wallet, cursor, limit);
      if page == [] {
        LastPage(s, all, cursor, Limit(limit));
        return;
      }
      ShownGrows(s, all, cursor, page, Limit(limit));
      LastIsNoZero(page, Below(s, cursor), Limit(limit));
      all := all + page;
      cursor := Some(page[|page| - 1]);
    }
  }

  // ----- Exactly when paging works -----

  // The pages a client gets when it asks until a page is empty, with the cursor on the last id returned.
  ghost predicate IsPaging(table: Table, wallet: string, limit: Option<nat>, cursor: Option<nat>, pages: seq<seq<nat>>)
    decreases |pages|
  {
    && pages != []
    && pages[0] == PageOf(table, wallet, Cursor(cursor), Limit(limit))
    && if |pages| == 1 then pages[0] == []
       else pages[0] != [] && IsPaging(table, wallet, limit, Some(pages[0][|pages[0]| - 1]), pages[1..])
  }

  ghost predicate ShowsAll(table: Table, wallet: string, pages: seq<seq<nat>>) {
    && Descending(Flatten(pages))
    && forall x :: x in Flatten(pages) <==> x in Involving(table, wallet, None)
  }

  // Paging ends and shows every transfer of the wallet exactly once, in descending order, if and only if the wallet
  // has no transfer with id 0 or 2^64-1.
  lemma PagingWorksExactly(table: Table, wallet: string, limit: Option<nat>)
    requires Keyed(table)
    ensures (exists pages :: IsPaging(table, wallet, limit, None, pages) && ShowsAll(table, wallet, pages))
            <==> 0 !in Involving(table, wallet, None) && MAX_ID !in Involving(table, wallet, None)
  {
    var s := Involving(table, wallet, None);
    if 0 !in s && MAX_ID !in s {
      var pages := GoodPaging(table, wallet, limit, [], None);
      assert [] + Flatten(pages) == Flatten(pages);
      assert IsPaging(table, wallet, limit, None, pages) && ShowsAll(table, wallet, pages);
    } else {
      forall pages | IsPaging(table, wallet, limit, None, pages)
        ensures !ShowsAll(table, wallet, pages)
      {
        if MAX_ID in s {
          MaxIdIsDropped(table, wallet, limit, None, pages);
        } else {
          IdZeroNeverEnds(table, wallet, limit, None, pages);
        }
      }
    }
  }

  lemma OnePage(table: Table, wallet: string, limit: Option<nat>, cursor: Option<nat>)
    requires PageOf(table, wallet, Cursor(cursor), Limit(limit)) == []
    ensures IsPaging(table, wallet, limit, cursor, [[]]) && Flatten<nat>([[]]) == []
  {
  }

  lemma FirstPage(table: Table, wallet: string, limit: Option<nat>, cursor: Option<nat>, page: seq<nat>,
                  rest: seq<seq<nat>>)
    requires page == PageOf(table, wallet, Cursor(cursor), Limit(limit)) && page != []
    requires IsPaging(table, wallet, limit, Some(page[|page| - 1]), rest)
    ensures IsPaging(table, wallet, limit, cursor, [page] + rest) && Flatten([page] + rest) == page + Flatten(rest)
  {
    FlattenFront(page, rest);
    assert ([page] + rest)[1..] == rest;
  }

  lemma GoodPaging(table: Table, wallet: string, limit: Option<nat>, all: seq<nat>, cursor: Option<nat>)
    returns (pages: seq<seq<nat>>)
    requires Keyed(table) && 0 !in Involving(table, wallet, None) && MAX_ID !in Involving(table, wallet, None)
    requires Shown(Involving(table, wallet, None), all, cursor) && (cursor.Some? ==> cursor.value != 0)
    ensures IsPaging(table, wallet, limit, cursor, pages)
    ensures Descending(all + Flatten(pages))
    ensures forall x :: x in all + Flatten(pages) <==> x in Involving(table, wallet, None)
    decreases |Below(Involving(table, wallet, None), cursor)|
  {
    hide PageOf, IsTop, Involving, IsPaging, Flatten, Shown, Descending, Limit, Keyed;
    var s, page := Involving(table, wallet, None), PageOf(table, wallet, cursor, Limit(limit));
    InvolvingBelow(table, wallet, cursor);
    PageIsTop(table, wallet, cursor, Limit(limit));
    if page == [] {
      OnePage(table, wallet, limit, cursor);
      LastPage(s, all, cursor, Limit(limit));
      pages := [[]];
      assert all + [] == all;
    } else {
      ShownGrows(s, all, cursor, page, Limit(limit));
      LastIsNoZero(page, Below(s, cursor), Limit(limit));
      var rest := GoodPaging(table, wallet, limit, all + page, Some(page[|page| - 1]));
      FirstPage(table, wallet, limit, cursor, page, rest);
      pages := [page] + rest;
      assert (all + page) + Flatten(rest) == all + (page + Flatten(rest));
    }
  }

  // The greatest uint64 is on no page.
  lemma {:induction false} MaxIdIsDropped(table: Table, wallet: string, limit: Option<nat>, cursor: Option<nat>,
                                          pages: seq<seq<nat>>)
    requires IsPaging(table, wallet, limit, cursor, pages)
    ensures MAX_ID !in Flatten(pages)
    decreases |pages|
  {
    assert MAX_ID !in pages[0];
    if |pages| > 1 {
      MaxIdIsDropped(table, wallet, limit, Some(pages[0][|pages[0]| - 1]), pages[1..]);
    }
  }

  // With a transfer of id 0 no page is ever empty, because the cursor 0 means no cursor: the paging is endless.
  lemma {:induction false} IdZeroNeverEnds(table: Table, wallet: string, limit: Option<nat>, cursor: Option<nat>,
                                           pages: seq<seq<nat>>)
    requires Keyed(table) && 0 in Involving(table, wallet, None) && MAX_ID !in Involving(table, wallet, None)
    ensures !IsPaging(table, wallet, limit, cursor, pages)
    decreases |pages|
  {
    InvolvingBelow(table, wallet, Cursor(cursor));
    PageIsTop(table, wallet, Cursor(cursor), Limit(limit));
    assert 0 in Involving(table, wallet, Cursor(cursor));
    if |pages| > 1 && pages[0] != [] {
      IdZeroNeverEnds(table, wallet, limit, Some(pages[0][|pages[0]| - 1]), pages[1..]);
    }
  }
}
