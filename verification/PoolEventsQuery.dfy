/** QueryEventsByPool: the SQL statement and the cache key are built side by side from one request.
    Two requests share a cache entry exactly when they ask the same question. */
module PoolEventsQuery {
  import opened Wrappers
  import opened Formatting

  const DEFAULT_LIMIT: nat := 10
  const MAX_LIMIT: nat := 1000

  // TRADE_BUY, TRADE_SELL, ADD_LIQUIDITY, REMOVE_LIQUIDITY, BURN
  const DEFAULT_TYPES: seq<nat> := [1, 2, 4, 5, 7]

  datatype Request = Request(pool: string, eventTypes: seq<nat>, eventId: Option<nat>, limit: Option<nat>)

  // SQL parameters with the Go types they are bound with.
  datatype Param = Text(s: string) | Uint32(n: nat) | Uint64(n: nat)

  // The question a request asks, defaults applied.
  datatype Question = Question(pool: string, types: seq<nat>, before: Option<nat>, limit: nat)

  function Asked(req: Request): Question {
    Question(req.pool,
             if req.eventTypes == [] then DEFAULT_TYPES else req.eventTypes,
             if req.eventId.Some? && req.eventId.value != 0 then req.eventId else None,
             if req.limit.None? || req.limit.value == 0 then DEFAULT_LIMIT
             else if req.limit.value > MAX_LIMIT then MAX_LIMIT else req.limit.value)
  }

  // ----- What the builders produce -----

  function TypeParams(types: seq<nat>): seq<Param> {
    if types == [] then [] else TypeParams(types[..|types| - 1]) + [Uint32(types[|types| - 1])]
  }

  function Params(q: Question): seq<Param> {
    [Text(q.pool)] + TypeParams(q.types) + if q.before.Some? then [Uint64(q.before.value)] else []
  }

  function TypesKey(types: seq<nat>): string {
    if types == [] then "" else TypesKey(types[..|types| - 1]) + ":" + FormatUint(types[|types| - 1], 16)
  }

  function CursorKey(before: Option<nat>): string {
    if before.Some? then ":i" + FormatUint(before.value, 16) else ""
  }

  function Key(q: Question): string {
    q.pool + TypesKey(q.types) + CursorKey(q.before) + ":l" + FormatUint(q.limit, 16)
  }

  function Placeholders(n: nat): string {
    if n == 0 then "" else if n == 1 then "?" else Placeholders(n - 1) + ",?"
  }

  function Sql(q: Question): string {
    "SELECT ... WHERE pool_address = ?" + " AND event_type IN (" + Placeholders(|q.types|) + ")"
    + (if q.before.Some? then " AND event_id < ?" else "")
    + " ORDER BY event_id DESC" + " LIMIT " + FormatUint(q.limit, 10)
  }

  datatype Built = Built(sql: string, params: seq<Param>, key: string, limit: nat)

  // strings.TrimRight(strings.Repeat("?,", n), ",")
  method TrimmedPlaceholders(n: nat) returns (s: string)
    ensures s == Placeholders(n)
  {
    var repeated := "";
    for i := 0 to n
      invariant repeated == if i == 0 then "" else Placeholders(i) + ","
    {
      repeated := repeated + "?,";
    }
    s := repeated;
    while s != "" && s[|s| - 1] == ','
      invariant s == repeated || s == Placeholders(n)
      decreases |s|
    {
      PlaceholdersEnd(n);
      s := s[..|s| - 1];
    }
  }

  lemma PlaceholdersEnd(n: nat)
    ensures n > 0 ==> |Placeholders(n)| > 0 && Placeholders(n)[|Placeholders(n)| - 1] == '?'
  {
  }

  // The IN clause: one parameter and one key token per event type.
  method AppendTypes(eventTypes: seq<nat>, before: seq<Param>, keyBefore: string)
    returns (params: seq<Param>, key: string)
    ensures params == before + TypeParams(eventTypes)
    ensures key == keyBefore + TypesKey(eventTypes)
  {
    params, key := before, keyBefore;
    assert eventTypes[..0] == [];
    for i := 0 to |eventTypes|
      invariant params == before + TypeParams(eventTypes[..i])
      invariant key == keyBefore + TypesKey(eventTypes[..i])
    {
      assert eventTypes[..i + 1][..i] == eventTypes[..i];
      var hex := FormatUint(eventTypes[i], 16);
      assert key + ":" + hex == keyBefore + (TypesKey(eventTypes[..i]) + ":" + hex);
      params := params + [Uint32(eventTypes[i])];
      key := key + ":" + hex;
    }
    assert eventTypes[..|eventTypes|] == eventTypes;
  }

  // ----- What is built, in the request's own fields -----

  function RequestedTypes(req: Request): seq<nat> {
    if req.eventTypes == [] then [1, 2, 4, 5, 7] else req.eventTypes
  }

  ghost predicate HasCursor(req: Request) {
    req.eventId.Some? && req.eventId.value != 0
  }

  // The pool, the types in order, and at the end the cursor, if there is one.
  ghost predicate ParamsOf(req: Request, params: seq<Param>) {
    var types := RequestedTypes(req);
    && |params| == 1 + |types| + (if HasCursor(req) then 1 else 0)
    && params[0] == Text(req.pool)
    && (forall i :: 0 <= i < |types| ==> params[1 + i] == Uint32(types[i]))
    && (forall n: nat :: params[|params| - 1] == Uint64(n) <==> n != 0 && req.eventId == Some(n))
  }

  // 10 unless a positive limit is given, and never more than 1000.
  ghost predicate LimitOf(req: Request, limit: nat) {
    && (req.limit.None? || req.limit == Some(0) ==> limit == 10)
    && (forall n: nat :: 0 < n <= 1000 && req.limit == Some(n) ==> limit == n)
    && (forall n: nat :: n > 1000 && req.limit == Some(n) ==> limit == 1000)
  }

  // The key ends with the limit, and before it with the cursor, if there is one.
  ghost predicate KeyOf(req: Request, key: string, limit: nat) {
    var stem, tail := req.pool + TypesKey(RequestedTypes(req)), ":l" + FormatUint(limit, 16);
    && (!HasCursor(req) ==> key == stem + tail)
    && (forall n: nat :: n != 0 && req.eventId == Some(n) ==> key == stem + ":i" + FormatUint(n, 16) + tail)
  }

  // How many parameters a statement takes.
  function Marks(sql: string): nat {
    if sql == [] then 0 else Marks(sql[..|sql| - 1]) + if sql[|sql| - 1] == '?' then 1 else 0
  }

  lemma {:induction false} MarksConcat(x: string, y: string)
    ensures Marks(x + y) == Marks(x) + Marks(y)
    decreases |y|
  {
    if y == [] {
      assert x + y == x;
    } else {
      assert (x + y)[..|x + y| - 1] == x + y[..|y| - 1];
      MarksConcat(x, y[..|y| - 1]);
    }
  }

  lemma {:induction false} NoMarks(s: string)
    requires '?' !in s
    ensures Marks(s) == 0
  {
    if s != [] {
      NoMarks(s[..|s| - 1]);
    }
  }

  lemma {:induction false} PlaceholderMarks(n: nat)
    ensures Marks(Placeholders(n)) == n
  {
    if n > 0 {
      assert "?"[..0] == [];
      assert Marks("?") == 1;
      if n > 1 {
        PlaceholderMarks(n - 1);
        MarksConcat(Placeholders(n - 1), ",?");
        assert ",?" == "," + "?" && ","[..0] == [];
        MarksConcat(",", "?");
      }
    }
  }

  const HEAD := "SELECT ... WHERE pool_address = "
  const IN_LIST := " AND event_type IN ("
  const BEFORE := " AND event_id < "
  const ORDER := " ORDER BY event_id DESC LIMIT "

  lemma PlainHead()
    ensures '?' !in HEAD
  {
  }

  lemma PlainList()
    ensures '?' !in IN_LIST
  {
  }

  lemma PlainBefore()
    ensures '?' !in BEFORE
  {
  }

  lemma PlainOrder()
    ensures '?' !in ORDER
  {
  }

  lemma OneMark(text: string)
    requires '?' !in text
    ensures Marks(text) == 0 && Marks(text + "?") == 1
  {
    NoMarks(text);
    assert (text + "?")[..|text|] == text;
  }

  // The statement takes as many parameters as are sent, and asks for the greatest ids up to the limit.
  lemma SqlFits(q: Question)
    ensures Marks(Sql(q)) == |Params(q)|
    ensures AsksBelow(Sql(q), q.before.Some?, q.limit)
  {
    SqlAsksBelow(q);
    SqlParts(q);
    TypeParamsAt(q.types);
    FrontMarks(|q.types|);
    CursorMarks(q.before.Some?);
    OrderMarks(q.limit);
    var front, cursor, end := Front(|q.types|), CursorText(q.before.Some?), ORDER + FormatUint(q.limit, 10);
    hide Marks, Sql, Front, CursorText, FormatUint, AsksBelow;
    MarksConcat(front + cursor, end);
    MarksConcat(front, cursor);
  }

  function Front(n: nat): string {
    HEAD + "?" + (IN_LIST + Placeholders(n) + ")")
  }

  function CursorText(cursor: bool): string {
    if cursor then BEFORE + "?" else ""
  }

  lemma FrontMarks(n: nat)
    ensures Marks(Front(n)) == 1 + n
  {
    PlainHead();
    PlainList();
    OneMark(HEAD);
    NoMarks(IN_LIST);
    NoMarks(")");
    PlaceholderMarks(n);
    var list := Placeholders(n);
    hide Marks, Placeholders;
    MarksConcat(HEAD + "?", IN_LIST + list + ")");
    MarksConcat(IN_LIST + list, ")");
    MarksConcat(IN_LIST, list);
  }

  lemma CursorMarks(cursor: bool)
    ensures Marks(CursorText(cursor)) == if cursor then 1 else 0
  {
    PlainBefore();
    OneMark(BEFORE);
    NoMarks("");
  }

  lemma OrderMarks(limit: nat)
    ensures Marks(ORDER + FormatUint(limit, 10)) == 0
  {
    PlainOrder();
    NoMarks(ORDER);
    assert Value('?') == 16;
    NoMarks(FormatUint(limit, 10));
    hide Marks, FormatUint;
    MarksConcat(ORDER, FormatUint(limit, 10));
  }

  ghost predicate EndsWith(s: string, end: string) {
    exists start :: s == start + end
  }

  // The statement ends with the cursor's condition, if it has one, and the greatest ids first, up to the limit.
  ghost predicate AsksBelow(sql: string, cursor: bool, limit: nat) {
    EndsWith(sql, (if cursor then " AND event_id < ?" else ")") + (" ORDER BY event_id DESC LIMIT "
                  + FormatUint(limit, 10)))
  }

  lemma EndsWithTail(x: string, y: string, z: string)
    ensures EndsWith(x + y + z, y + z)
  {
    assert x + y + z == x + (y + z);
  }

  lemma SqlAsksBelow(q: Question)
    ensures AsksBelow(Sql(q), q.before.Some?, q.limit)
  {
    SqlParts(q);
    Texts();
    var list, front, order := HEAD + "?" + (IN_LIST + Placeholders(|q.types|)), Front(|q.types|),
                              ORDER + FormatUint(q.limit, 10);
    ClosedList(|q.types|);
    hide Sql, Placeholders, FormatUint, Front, EndsWith;
    if q.before.Some? {
      EndsWithTail(front, CursorText(true), order);
    } else {
      assert front + CursorText(false) == front;
      EndsWithTail(list, ")", order);
    }
  }

  lemma Texts()
    ensures CursorText(true) == " AND event_id < ?" && CursorText(false) == ""
    ensures ORDER == " ORDER BY event_id DESC LIMIT "
  {
  }

  lemma ClosedList(n: nat)
    ensures Front(n) == HEAD + "?" + (IN_LIST + Placeholders(n)) + ")"
  {
    hide Placeholders;
    var head, list := HEAD + "?", IN_LIST + Placeholders(n);
    assert head + (list + ")") == head + list + ")";
  }

  lemma SqlParts(q: Question)
    ensures Sql(q) == Front(|q.types|) + CursorText(q.before.Some?) + (ORDER + FormatUint(q.limit, 10))
  {
    ClosedList(|q.types|);
    Texts();
    var list, end := Placeholders(|q.types|), FormatUint(q.limit, 10);
    hide Placeholders, FormatUint, Front, CursorText;
    assert HEAD + "?" == "SELECT ... WHERE pool_address = ?";
    Regroup4(Front(|q.types|) + CursorText(q.before.Some?), " ORDER BY event_id DESC", " LIMIT ", end);
    Regroup4(HEAD + "?", IN_LIST, list, ")");
    assert " ORDER BY event_id DESC" + " LIMIT " == ORDER;
  }

  lemma Regroup4(x: string, y: string, z: string, end: string)
    ensures x + y + z + end == x + ((y + z) + end) == x + (y + z) + end
  {
    assert x + y + z == x + (y + z);
    assert x + (y + z) + end == x + ((y + z) + end);
  }

  lemma BuiltInFields(req: Request)
    ensures var q := Asked(req);
            ParamsOf(req, Params(q)) && LimitOf(req, q.limit) && KeyOf(req, Key(q), q.limit)
  {
    BuiltParams(req);
    BuiltKey(req);
    hide ParamsOf, KeyOf, Params, Key;
  }

  lemma BuiltParams(req: Request)
    ensures ParamsOf(req, Params(Asked(req)))
  {
    var types, types' := RequestedTypes(req), TypeParams(Asked(req).types);
    TypeParamsAt(Asked(req).types);
    assert Asked(req).types == types;
    var end := if HasCursor(req) then [Uint64(req.eventId.value)] else [];
    hide TypeParams, RequestedTypes;
    var params := [Text(req.pool)] + types' + end;
    assert Params(Asked(req)) == params;
    assert forall i :: 0 <= i < |types| ==> params[1 + i] == types'[i];
    if HasCursor(req) {
      assert params[|params| - 1] == end[0];
    } else {
      assert params[|params| - 1] == if types == [] then Text(req.pool) else types'[|types| - 1];
    }
    hide Params, Asked;
  }

  lemma BuiltKey(req: Request)
    ensures KeyOf(req, Key(Asked(req)), Asked(req).limit)
  {
    var q := Asked(req);
    hide TypesKey, FormatUint;
    var stem, tail := q.pool + TypesKey(q.types), ":l" + FormatUint(q.limit, 16);
    assert q.before.None? ==> Key(q) == stem + tail;
    assert q.before.Some? ==> Key(q) == stem + ":i" + FormatUint(q.before.value, 16) + tail;
  }

  // Requests that differ only in their cursors, one of them a real one, share neither parameters nor key.
  lemma CursorsDiffer(req: Request, n: nat)
    requires n != 0 && req.eventId != Some(n)
    ensures var q, p := Asked(req), Asked(req.(eventId := Some(n)));
            Params(q) != Params(p) && Key(q) != Key(p) && q.limit == p.limit && q.types == p.types
  {
    var q, p := Asked(req), Asked(req.(eventId := Some(n)));
    SameKeyIsSameStem(q, p);
    SameParams(q, p);
    hide Params, Key, Stem;
  }

  // The request handler up to the cache lookup: three builders appended to in step.
  method Build(req: Request) returns (result: Option<Built>)
    ensures req.pool == "" <==> result == None
    ensures req.pool != "" ==> var q := Asked(req); result == Some(Built(Sql(q), Params(q), Key(q), q.limit))
    ensures result.Some? ==>
              var b := result.value;
              && ParamsOf(req, b.params) && LimitOf(req, b.limit) && KeyOf(req, b.key, b.limit)
              && Marks(b.sql) == |b.params| && AsksBelow(b.sql, HasCursor(req), b.limit)
  {
    BuiltInFields(req);
    SqlFits(Asked(req));
    hide ParamsOf, LimitOf, KeyOf, Marks, AsksBelow;
    hide FormatUint, Placeholders, TypesKey, TypeParams;
    if req.pool == "" {
      return None;
    }
    var query := "SELECT ... WHERE pool_address = ?";
    var params := [Text(req.pool)];
    var key := req.pool;

    var eventTypes := req.eventTypes;
    if |eventTypes| == 0 {
      eventTypes := DEFAULT_TYPES;
    }
    var marks := TrimmedPlaceholders(|eventTypes|);
    query := query + " AND event_type IN (" + marks + ")";
    params, key := AppendTypes(eventTypes, params, key);
    ghost var q, queryBefore, keyBefore := Asked(req), query, key;

    if req.eventId.Some? && req.eventId.value != 0 {
      query := query + " AND event_id < ?";
      params := params + [Uint64(req.eventId.value)];
      key := key + ":i" + FormatUint(req.eventId.value, 16);
    }
    assert key == keyBefore + CursorKey(q.before);
    assert query == queryBefore + if q.before.Some? then " AND event_id < ?" else "";
    query := query + " ORDER BY event_id DESC";

    var limit := DEFAULT_LIMIT;
    if req.limit.Some? && req.limit.value > 0 {
      limit := req.limit.value;
      if limit > MAX_LIMIT {
        limit := MAX_LIMIT;
      }
    }
    query := query + " LIMIT " + FormatUint(limit, 10);
    key := key + ":l" + FormatUint(limit, 16);
    assert params == Params(q);
    assert limit == q.limit;
    assert key == Key(q);
    assert query == Sql(q);
    result := Some(Built(query, params, key, limit));
  }

  // ----- What a key tells about the question -----

  lemma HexIsPlain(n: nat)
    ensures ':' !in FormatUint(n, 16) && FormatUint(n, 16)[0] != 'i' && FormatUint(n, 16)[0] != 'l'
  {
    var s := FormatUint(n, 16);
    assert s[0] in s;
  }

  lemma MarkedHex(mark: char, n: nat)
    requires mark == 'i' || mark == 'l'
    ensures ':' !in [mark] + FormatUint(n, 16)
  {
    HexIsPlain(n);
  }

  lemma MarkedHexInjective(mark: char, m: nat, n: nat)
    requires [mark] + FormatUint(m, 16) == [mark] + FormatUint(n, 16)
    ensures m == n
  {
    assert ([mark] + FormatUint(m, 16))[1..] == FormatUint(m, 16);
    assert ([mark] + FormatUint(n, 16))[1..] == FormatUint(n, 16);
    FormatInjective(m, n, 16);
  }

  // The text up to the cursor.
  function Stem(q: Question): string {
    q.pool + TypesKey(q.types)
  }

  lemma KeyParts(q: Question)
    ensures Key(q) == (Stem(q) + CursorKey(q.before)) + [':'] + (['l'] + FormatUint(q.limit, 16))
    ensures q.before.Some? ==>
                Stem(q) + CursorKey(q.before) == Stem(q) + [':'] + (['i'] + FormatUint(q.before.value, 16))
    ensures q.before.None? ==> Stem(q) + CursorKey(q.before) == Stem(q)
  {
    assert ":l" == [':'] + ['l'] && ":i" == [':'] + ['i'];
  }

  lemma StemParts(q: Question)
    requires q.types != []
    ensures var n := |q.types| - 1;
            Stem(q) == (q.pool + TypesKey(q.types[..n])) + [':'] + FormatUint(q.types[n], 16)
  {
  }

  // A stem never ends like a cursor: the marker 'i' is no hex digit.
  lemma StemIsNoCursor(q: Question, stem: string, id: nat)
    requires q.types != []
    ensures Stem(q) != stem + [':'] + (['i'] + FormatUint(id, 16))
  {
    StemParts(q);
    var n := |q.types| - 1;
    HexIsPlain(q.types[n]);
    MarkedHex('i', id);
    if Stem(q) == stem + [':'] + (['i'] + FormatUint(id, 16)) {
      LastSeparator(':', q.pool + TypesKey(q.types[..n]), FormatUint(q.types[n], 16), stem, ['i'] + FormatUint(id, 16));
    }
  }

  // Read from its end, a key gives the limit, the cursor and the stem.
  lemma SameKeyIsSameStem(q: Question, p: Question)
    requires q.types != [] && p.types != []
    ensures Key(q) == Key(p) <==> q.limit == p.limit && q.before == p.before && Stem(q) == Stem(p)
  {
    KeyParts(q);
    KeyParts(p);
    hide Key, Stem, CursorKey;
    if Key(q) == Key(p) {
      MarkedHex('l', q.limit);
      MarkedHex('l', p.limit);
      var x, y := Stem(q) + CursorKey(q.before), Stem(p) + CursorKey(p.before);
      LastSeparator(':', x, ['l'] + FormatUint(q.limit, 16), y, ['l'] + FormatUint(p.limit, 16));
      MarkedHexInjective('l', q.limit, p.limit);
      if q.before.Some? && p.before.Some? {
        MarkedHex('i', q.before.value);
        MarkedHex('i', p.before.value);
        LastSeparator(':', Stem(q), ['i'] + FormatUint(q.before.value, 16),
                      Stem(p), ['i'] + FormatUint(p.before.value, 16));
        MarkedHexInjective('i', q.before.value, p.before.value);
      } else if q.before.Some? {
        StemIsNoCursor(p, Stem(q), q.before.value);
      } else if p.before.Some? {
        StemIsNoCursor(q, Stem(p), p.before.value);
      }
    }
  }

  lemma Regrouped(z: string, a: string, b: string)
    ensures z + (a + ":" + b) == (z + a) + [':'] + b
  {
  }

  lemma LastType(z: string, b: seq<nat>)
    requires b != []
    ensures var n := |b| - 1; z + TypesKey(b) == (z + TypesKey(b[..n])) + [':'] + FormatUint(b[n], 16)
  {
    var n := |b| - 1;
    hide FormatUint;
    Regrouped(z, TypesKey(b[..n]), FormatUint(b[n], 16));
  }

  lemma SameLastType(a: seq<nat>, z: string, b: seq<nat>)
    requires TypesKey(a) == z + TypesKey(b) && b != []
    ensures a != [] && a[|a| - 1] == b[|b| - 1] && TypesKey(a[..|a| - 1]) == z + TypesKey(b[..|b| - 1])
  {
    LastType(z, b);
    assert a != [];
    LastType("", a);
    hide TypesKey;
    var m, n := |a| - 1, |b| - 1;
    HexIsPlain(a[m]);
    HexIsPlain(b[n]);
    assert "" + TypesKey(a) == TypesKey(a) && "" + TypesKey(a[..m]) == TypesKey(a[..m]);
    LastSeparator(':', "" + TypesKey(a[..m]), FormatUint(a[m], 16), z + TypesKey(b[..n]), FormatUint(b[n], 16));
    FormatInjective(a[m], b[n], 16);
  }

  // If a list's text ends with another list's, the other is a tail of the list.
  lemma {:induction false} TailOfTypes(a: seq<nat>, z: string, b: seq<nat>)
    requires TypesKey(a) == z + TypesKey(b)
    ensures |b| <= |a| && a[|a| - |b|..] == b && z == TypesKey(a[..|a| - |b|])
    decreases |b|
  {
    hide FormatUint;
    if b == [] {
      assert z + "" == z && a[..|a|] == a;
    } else {
      SameLastType(a, z, b);
      hide TypesKey;
      var init, shorter := a[..|a| - 1], b[..|b| - 1];
      TailOfTypes(init, z, shorter);
      assert a == init + [a[|a| - 1]] && b == shorter + [b[|b| - 1]];
      assert init[..|a| - |b|] == a[..|a| - |b|];
    }
  }

  lemma {:induction false} TypesKeyConcat(a: seq<nat>, b: seq<nat>)
    ensures TypesKey(a + b) == TypesKey(a) + TypesKey(b)
    decreases |b|
  {
    if b == [] {
      assert a + b == a && TypesKey(a) + "" == TypesKey(a);
    } else {
      var n := |b| - 1;
      assert (a + b)[..|a + b| - 1] == a + b[..n];
      TypesKeyConcat(a, b[..n]);
      var hex := FormatUint(b[n], 16);
      assert (TypesKey(a) + TypesKey(b[..n])) + ":" + hex == TypesKey(a) + (TypesKey(b[..n]) + ":" + hex);
    }
  }

  // p's pool is q's pool followed by the text of the types ts, which q asks for in front of p's.
  predicate Absorbs(q: Question, p: Question, ts: seq<nat>) {
    p.pool == q.pool + TypesKey(ts) && q.types == ts + p.types
  }

  // Equal stems differ at most by event types that one request has in its pool and the other in its list.
  lemma SameStem(q: Question, p: Question)
    ensures Stem(q) == Stem(p) <==> (exists ts :: Absorbs(q, p, ts)) || (exists ts :: Absorbs(p, q, ts))
  {
    if Stem(q) == Stem(p) {
      if |q.pool| <= |p.pool| {
        SameStemLonger(q, p);
      } else {
        SameStemLonger(p, q);
      }
    }
    forall ts | Absorbs(q, p, ts)
      ensures Stem(q) == Stem(p)
    {
      AbsorbedStem(q, p, ts);
    }
    forall ts | Absorbs(p, q, ts)
      ensures Stem(q) == Stem(p)
    {
      AbsorbedStem(p, q, ts);
    }
  }

  lemma Joined(x: string, y: string, z: string)
    ensures x + (y + z) == (x + y) + z
  {
  }

  lemma AbsorbedStem(q: Question, p: Question, ts: seq<nat>)
    requires Absorbs(q, p, ts)
    ensures Stem(q) == Stem(p)
  {
    hide TypesKey;
    TypesKeyConcat(ts, p.types);
    Joined(q.pool, TypesKey(ts), TypesKey(p.types));
  }

  lemma SameStemLonger(q: Question, p: Question)
    requires Stem(q) == Stem(p) && |q.pool| <= |p.pool|
    ensures exists ts :: Absorbs(q, p, ts) && ts <= q.types
  {
    hide TypesKey;
    var z := p.pool[|q.pool|..];
    assert Stem(q)[..|q.pool|] == q.pool && Stem(p)[..|q.pool|] == p.pool[..|q.pool|];
    assert p.pool == q.pool + z;
    assert Stem(q)[|q.pool|..] == TypesKey(q.types) && Stem(p)[|q.pool|..] == z + TypesKey(p.types);
    TailOfTypes(q.types, z, p.types);
    var n := |q.types| - |p.types|;
    assert q.types == q.types[..n] + q.types[n..];
    assert Absorbs(q, p, q.types[..n]);
  }

  // ----- The parameters determine the question too -----

  lemma {:induction false} TypeParamsAt(types: seq<nat>)
    ensures |TypeParams(types)| == |types|
    ensures forall i :: 0 <= i < |types| ==> TypeParams(types)[i] == Uint32(types[i])
  {
    if types != [] {
      TypeParamsAt(types[..|types| - 1]);
    }
  }

  lemma ParamsInjective(q: Question, p: Question)
    requires Params(q) == Params(p)
    ensures q.pool == p.pool && q.types == p.types && q.before == p.before
  {
    TypeParamsAt(q.types);
    TypeParamsAt(p.types);
    var x, y := Params(q), Params(p);
    assert x[0] == Text(q.pool) && y[0] == Text(p.pool);
    assert x[|x| - 1].Uint64? <==> q.before.Some?;
    assert y[|y| - 1].Uint64? <==> p.before.Some?;
    assert |q.types| == |p.types|;
    forall i | 0 <= i < |q.types|
      ensures q.types[i] == p.types[i]
    {
      assert x[i + 1] == Uint32(q.types[i]) && y[i + 1] == Uint32(p.types[i]);
    }
  }

  lemma SameParams(q: Question, p: Question)
    ensures Params(q) == Params(p) <==> q.pool == p.pool && q.types == p.types && q.before == p.before
  {
    if Params(q) == Params(p) {
      ParamsInjective(q, p);
    }
  }

  // ----- When a shared key is safe -----

  // One request has event types at the end of its pool that the other has at the front of its list.
  ghost predicate Confused(q: Question, p: Question) {
    && q.before == p.before && q.limit == p.limit
    && exists ts :: ts != [] && (Absorbs(q, p, ts) || Absorbs(p, q, ts))
  }

  lemma AskedTypes(req: Request)
    ensures Asked(req).types != [] && Asked(req).pool == req.pool
    ensures Uint32s(req.eventTypes) ==> Uint32s(Asked(req).types)
  {
  }

  // Same key, same parameters: this fails for two requests exactly when they are confused. The limit decides no
  // parameter, but the SQL text, and with the parameters and the limit the SQL text is the same.
  lemma SharedKeyIsSameQuestion(r1: Request, r2: Request)
    ensures var q, p := Asked(r1), Asked(r2);
            && (Params(q) == Params(p) && q.limit == p.limit ==> Key(q) == Key(p) && Sql(q) == Sql(p))
            && (Key(q) == Key(p) ==> ((Params(q) != Params(p) || q.limit != p.limit) <==> Confused(q, p)))
            && (Confused(q, p) ==> Key(q) == Key(p))
  {
    var q, p := Asked(r1), Asked(r2);
    AskedTypes(r1);
    AskedTypes(r2);
    SameKeyIsSameStem(q, p);
    SameStem(q, p);
    SameParams(q, p);
    hide Key, Stem, Params, Sql, Asked, TypesKey;
    if exists ts :: Absorbs(q, p, ts) {
      var ts :| Absorbs(q, p, ts);
      NothingAbsorbed(q, p, ts);
    }
    if exists ts :: Absorbs(p, q, ts) {
      var ts :| Absorbs(p, q, ts);
      NothingAbsorbed(p, q, ts);
    }
  }

  // Without event types to absorb the pools and the lists are the same, and the other way round.
  lemma NothingAbsorbed(q: Question, p: Question, ts: seq<nat>)
    requires Absorbs(q, p, ts)
    ensures ts == [] <==> q.types == p.types
    ensures ts == [] ==> q.pool == p.pool
  {
    if ts == [] {
      assert q.pool + "" == q.pool && [] + p.types == p.types;
    } else {
      assert |q.types| > |p.types|;
    }
  }

  // What a protobuf request can carry.
  ghost predicate Uint32s(types: seq<nat>) {
    forall t :: t in types ==> t < 0x1_0000_0000
  }

  ghost predicate Receivable(req: Request) {
    && req.pool != "" && Uint32s(req.eventTypes)
    && (req.eventId.Some? ==> req.eventId.value < 0x1_0000_0000_0000_0000)
    && (req.limit.Some? ==> req.limit.value < 0x1_0000_0000)
  }

  ghost predicate ShareWrongly(r1: Request, r2: Request) {
    var q, p := Asked(r1), Asked(r2);
    Key(q) == Key(p) && !(Params(q) == Params(p) && q.limit == p.limit)
  }

  // Some requests for two pools share a key wrongly if and only if one pool is the other followed by the text of
  // some event types.
  lemma PoolsCollide(x: string, y: string)
    requires x != "" && y != ""
    ensures (exists r1, r2 :: Receivable(r1) && Receivable(r2) && r1.pool == x && r2.pool == y && ShareWrongly(r1, r2))
            <==> (exists ts :: ts != [] && Uint32s(ts) && (y == x + TypesKey(ts) || x == y + TypesKey(ts)))
  {
    hide TypesKey, ShareWrongly, Receivable;
    forall r1, r2 | Receivable(r1) && Receivable(r2) && r1.pool == x && r2.pool == y && ShareWrongly(r1, r2)
      ensures exists ts :: ts != [] && Uint32s(ts) && (y == x + TypesKey(ts) || x == y + TypesKey(ts))
    {
      CollisionNeedsTypes(r1, r2);
    }
    forall ts | ts != [] && Uint32s(ts) && (y == x + TypesKey(ts) || x == y + TypesKey(ts))
      ensures exists r1, r2 :: Receivable(r1) && Receivable(r2) && r1.pool == x && r2.pool == y && ShareWrongly(r1, r2)
    {
      CollidingRequests(x, y, ts);
    }
  }

  lemma CollidingRequests(x: string, y: string, ts: seq<nat>)
    requires x != "" && y != "" && ts != [] && Uint32s(ts) && (y == x + TypesKey(ts) || x == y + TypesKey(ts))
    ensures exists r1, r2 :: Receivable(r1) && Receivable(r2) && r1.pool == x && r2.pool == y && ShareWrongly(r1, r2)
  {
    hide TypesKey, ShareWrongly;
    if y == x + TypesKey(ts) {
      TypesCollide(x, y, ts);
      assert Receivable(Request(x, ts + [1], None, None)) && Receivable(Request(y, [1], None, None));
    } else {
      TypesCollide(y, x, ts);
      assert Receivable(Request(x, [1], None, None)) && Receivable(Request(y, ts + [1], None, None));
    }
  }

  lemma CollisionNeedsTypes(r1: Request, r2: Request)
    requires Receivable(r1) && Receivable(r2) && ShareWrongly(r1, r2)
    ensures exists ts :: ts != [] && Uint32s(ts)
                && (r2.pool == r1.pool + TypesKey(ts) || r1.pool == r2.pool + TypesKey(ts))
  {
    var q, p := Asked(r1), Asked(r2);
    AskedTypes(r1);
    AskedTypes(r2);
    SharedKeyIsSameQuestion(r1, r2);
    hide Key, Params, Asked, TypesKey;
    var ts :| ts != [] && (Absorbs(q, p, ts) || Absorbs(p, q, ts));
    assert Uint32s(ts) by {
      assert forall t :: t in ts ==> t in ts + p.types && t in ts + q.types;
    }
  }

  lemma TypesCollide(x: string, y: string, ts: seq<nat>)
    requires ts != [] && y == x + TypesKey(ts)
    ensures var r1, r2 := Request(x, ts + [1], None, None), Request(y, [1], None, None);
            ShareWrongly(r1, r2) && ShareWrongly(r2, r1)
  {
    hide FormatUint, Sql;
    var r1, r2 := Request(x, ts + [1], None, None), Request(y, [1], None, None);
    var q, p := Asked(r1), Asked(r2);
    assert Absorbs(q, p, ts);
    hide TypesKey, Key, Params;
    SharedKeyIsSameQuestion(r1, r2);
    assert Confused(q, p);
  }

  // Pools without a colon are never confused: their requests share a key exactly when they ask the same.
  lemma PlainPoolsNeverCollide(r1: Request, r2: Request)
    requires ':' !in r1.pool && ':' !in r2.pool
    ensures !ShareWrongly(r1, r2)
  {
    SharedKeyIsSameQuestion(r1, r2);
    var q, p := Asked(r1), Asked(r2);
    forall ts | ts != []
      ensures !Absorbs(q, p, ts) && !Absorbs(p, q, ts)
    {
      assert TypesKey(ts)[|TypesKey(ts[..|ts| - 1])|] == ':';
    }
  }

  // A colon in a pool address can break it: the two requests below share a key but not their parameters.
  lemma ColonCollides()
    ensures ShareWrongly(Request("A:1", [2], None, None), Request("A", [1, 2], None, None))
  {
    var r1, r2 := Request("A:1", [2], None, None), Request("A", [1, 2], None, None);
    assert FormatUint(1, 16) == "1";
    assert TypesKey([1]) == ":1";
    assert Absorbs(Asked(r2), Asked(r1), [1]);
    SharedKeyIsSameQuestion(r1, r2);
  }
}
