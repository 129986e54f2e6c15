/** One shard of the read-through cache: lookup or creation of entries, a reader/writer lock per entry, a cleaner
    that deletes keys concurrently, and the callers of Do and DoRead, interleaved at every lock, check and store.
    The closure passed to Do is the one the query services use: answer from the entry if it is unexpired and
    filled, otherwise fail when only a ready answer is wanted, otherwise query, store and set the expiry. */
module LockCache {
  import opened Wrappers

  // ----- Time: nanoseconds, with expiry kept in whole seconds as a uint32 -----

  const SECOND: nat := 1_000_000_000
  const UINT32: nat := 0x1_0000_0000

  function UnixSeconds(t: nat): nat {
    t / SECOND
  }

  function ValidAt(t: nat): nat {
    UnixSeconds(t) % UINT32
  }

  predicate Expired(validAt: nat, now: nat) {
    UnixSeconds(now) > validAt
  }

  // An unexpired stamp is less than a second past its time to live, wrap-around of the stored seconds included.
  lemma UnexpiredIsRecent(expiry: nat, now: nat)
    requires !Expired(ValidAt(expiry), now)
    ensures now < expiry + SECOND
  {
    assert UnixSeconds(expiry) % UINT32 <= UnixSeconds(expiry);
  }

  // Exactly when an entry counts as expired: whole seconds are compared, and the stored ones are cut to 32 bits.
  lemma ExpiresExactly(expiry: nat, now: nat)
    ensures !Expired(ValidAt(expiry), now) <==> now < (expiry / 1_000_000_000 % 4_294_967_296 + 1) * 1_000_000_000
  {
    assert SECOND == 1_000_000_000;
  }

  // ----- State -----

  type Value = int      // a query answer

  // The environment: what a direct database lookup returns at each moment, and each answer's time to live.
  datatype Config = Config(maxSize: nat, lookup: (string, nat) -> Value, ttl: Value -> nat)

  // A stored answer with its history: when it was queried, and the clock reading its expiry was computed from.
  datatype Fill = Fill(value: Value, queriedAt: nat, stamp: Option<nat>)

  datatype Entry = Entry(key: string, result: Option<Fill>, validAt: nat, inUse: int, readers: set<nat>,
                         writer: Option<nat>)

  datatype Op =
    | ReadThrough                             // Do(key, false, fn)
    | Store(value: Value, queriedAt: nat)     // Do(key, true, fn) storing a row queried beforehand
    | ReadOnly                                // DoRead(key, fn)
    | Clean                                   // cleanupExpired

  // Where a thread is with the entry it works on.
  datatype Point =
    | Found                                   // read from the map, not yet counted in inUse
    | Entered
    | ReadLocked
    | ReadReady(checkedAt: nat)               // unexpired at the first check, about to run fn
    | Checked(checkedAt: nat)                 // DoRead found it unexpired, holding no lock
    | Pinned(checkedAt: nat)
    | Reading(checkedAt: nat)
    | WaitWrite
    | WriteLocked
    | Queried(value: Value, queriedAt: nat)
    | Filling(value: Value, queriedAt: nat)   // result stored, expiry not yet set
    | WriteDone
    | Leaving

  datatype Pc =
    | Looking
    | Sweep
    | Sweeping(keys: set<string>)
    | Relooking
    | Creating
    | At(e: nat, point: Point)
    | Done

  // A run of the caller's function, and whether it found an answer in the entry.
  datatype FnRun =
    | Ready(found: bool)      // under the read lock, with onlyReady set
    | Full(found: bool)       // under the write lock
    | Failed                  // under the write lock, without an answer because the query failed
    | Peek                    // DoRead's

  datatype Thread = Thread(key: string, op: Op, startedAt: nat, pc: Pc, runs: seq<FnRun>)

  // What fn gave, and to which thread.
  datatype Answer =
    | Hit(thread: nat, key: string, fill: Fill, checkedAt: nat, runs: seq<FnRun>)
    | Fresh(thread: nat, key: string, value: Value, queriedAt: nat, startedAt: nat, answeredAt: nat, runs: seq<FnRun>)
    | NotReady(thread: nat, firstCheck: nat, secondCheck: nat, runs: seq<FnRun>)

  datatype State = State(now: nat, entries: seq<Entry>, table: map<string, nat>, threads: map<nat, Thread>,
                         answers: seq<Answer>)

  predicate Usable(entry: Entry, now: nat) {
    !Expired(entry.validAt, now) && entry.result.Some?
  }

  // ----- One step of a thread on its entry -----

  datatype Outcome = Outcome(entry: Entry, pc: Pc, said: Option<Answer>, ran: seq<FnRun>)

  // A thread waits only for locks. `fails` says that the query fails, if this step makes one.
  predicate CanMove(th: Thread, point: Point, entry: Entry) {
    match point
    case Entered => if th.op.Store? then entry.writer.None? && entry.readers == {} else entry.writer.None?
    case Pinned(_) => entry.writer.None?
    case WaitWrite => entry.writer.None? && entry.readers == {}
    case _ => true
  }

  function Move(cfg: Config, now: nat, t: nat, th: Thread, e: nat, point: Point, entry: Entry, fails: bool): Outcome {
    var unread := entry.(readers := entry.readers - {t});
    match point
    case Found =>
      if th.op.ReadOnly? then
        Outcome(entry, if Expired(entry.validAt, now) then Done else At(e, Checked(now)), None, [])
      else Outcome(entry.(inUse := entry.inUse + 1), At(e, Entered), None, [])
    case Entered =>
      if th.op.Store? then Outcome(entry.(writer := Some(t)), At(e, WriteLocked), None, [])
      else Outcome(entry.(readers := entry.readers + {t}), At(e, ReadLocked), None, [])
    case ReadLocked =>
      if Expired(entry.validAt, now) then Outcome(unread, At(e, WaitWrite), None, [])
      else Outcome(entry, At(e, ReadReady(now)), None, [])
    case ReadReady(c) =>
      // Only an error is returned from here: a hit goes on to the write lock and runs fn again.
      if Usable(entry, now) then Outcome(unread, At(e, WaitWrite), None, [Ready(true)])
      else Outcome(unread, At(e, Leaving), Some(NotReady(t, c, now, th.runs + [Ready(false)])), [Ready(false)])
    case Checked(c) => Outcome(entry.(inUse := entry.inUse + 1), At(e, Pinned(c)), None, [])
    case Pinned(c) => Outcome(entry.(readers := entry.readers + {t}), At(e, Reading(c)), None, [])
    case Reading(c) =>
      var hit := if entry.result.Some? then Some(Hit(t, th.key, entry.result.value, c, th.runs + [Peek])) else None;
      Outcome(unread, At(e, Leaving), hit, [Peek])
    case WaitWrite => Outcome(entry.(writer := Some(t)), At(e, WriteLocked), None, [])
    case WriteLocked =>
      if th.op.Store? then Outcome(entry, At(e, Queried(th.op.value, th.op.queriedAt)), None, [Full(false)])
      else if Usable(entry, now) then
        Outcome(entry, At(e, WriteDone), Some(Hit(t, th.key, entry.result.value, now, th.runs + [Full(true)])),
            [Full(true)])
      else if fails then Outcome(entry, At(e, WriteDone), None, [Failed])
      else Outcome(entry, At(e, Queried(cfg.lookup(th.key, now), now)), None, [Full(false)])
    case Queried(v, q) => Outcome(entry.(result := Some(Fill(v, q, None))), At(e, Filling(v, q)), None, [])
    case Filling(v, q) =>
      Outcome(entry.(result := Some(Fill(v, q, Some(now))), validAt := ValidAt(now + cfg.ttl(v))),
              At(e, WriteDone), Some(Fresh(t, th.key, v, q, th.startedAt, now, th.runs)), [])
    case WriteDone => Outcome(entry.(writer := None), At(e, Leaving), None, [])
    case Leaving => Outcome(entry.(inUse := entry.inUse - 1), Done, None, [])
  }

  // Which points hold which lock.
  predicate Writing(point: Point) {
    point.WriteLocked? || point.Queried? || point.Filling? || point.WriteDone?
  }

  predicate LockedForReading(point: Point) {
    point.ReadLocked? || point.ReadReady? || point.Reading?
  }

  // ----- Steps of the shard -----

  datatype Action =
    | Tick(d: nat)
    | Begin(t: nat, key: string, op: Op)
    | Find(t: nat)
    | CollectExpired(t: nat, keys: set<string>)
    | DeleteKeys(t: nat)
    | Create(t: nat)
    | OnEntry(t: nat, fails: bool)

  ghost predicate PcIs(s: State, t: nat, pcs: set<Pc>) {
    t in s.threads && s.threads[t].pc in pcs
  }

  ghost predicate Enabled(cfg: Config, s: State, a: Action) {
    match a
    case Tick(_) => true
    case Begin(t, key, op) =>
      t !in s.threads && (op.Store? ==> op.queriedAt == s.now && op.value == cfg.lookup(key, s.now))
    case Find(t) => PcIs(s, t, {Looking, Relooking})
    case CollectExpired(t, keys) => PcIs(s, t, {Sweep}) && Collectable(cfg, s, keys)
    case DeleteKeys(t) => t in s.threads && s.threads[t].pc.Sweeping?
    case Create(t) => PcIs(s, t, {Creating})
    case OnEntry(t, _) =>
      t in s.threads && s.threads[t].pc.At? && s.threads[t].pc.e < |s.entries|
      && CanMove(s.threads[t], s.threads[t].pc.point, s.entries[s.threads[t].pc.e])
  }

  // What a sweep may pick: nothing while the shard is less than half full, else unused expired entries.
  ghost predicate Collectable(cfg: Config, s: State, keys: set<string>) {
    && (|s.table| < cfg.maxSize / 2 ==> keys == {})
    && forall k :: k in keys ==> k in s.table && s.table[k] < |s.entries|
                                 && s.entries[s.table[k]].inUse == 0 && Expired(s.entries[s.table[k]].validAt, s.now)
  }

  function Go(s: State, t: nat, pc: Pc): State
    requires t in s.threads
  {
    s.(threads := s.threads[t := s.threads[t].(pc := pc)])
  }

  ghost function After(cfg: Config, s: State, a: Action): State
    requires Enabled(cfg, s, a)
  {
    match a
    case Tick(d) => s.(now := s.now + d)
    case Begin(t, key, op) =>
      s.(threads := s.threads[t := Thread(key, op, s.now, if op.Clean? then Sweep else Looking, [])])
    case Find(t) =>
      var th := s.threads[t];
      if th.key in s.table then Go(s, t, At(s.table[th.key], Found))
      else if th.op.ReadOnly? then Go(s, t, Done)
      else if th.pc.Looking? && |s.table| >= cfg.maxSize then Go(s, t, Sweep)
      else Go(s, t, Creating)
    case CollectExpired(t, keys) => Go(s, t, Sweeping(keys))
    case DeleteKeys(t) =>
      var th := s.threads[t];
      var kept := if |s.table| < cfg.maxSize / 2 then s.table else s.table - th.pc.keys;
      Go(s, t, if th.op.Clean? then Done else Relooking).(table := kept)
    case Create(t) =>
      // Under the shard lock: another thread may have created the entry meanwhile.
      var key := s.threads[t].key;
      if key in s.table && s.table[key] < |s.entries| then
        var e := s.table[key];
        Go(s, t, At(e, Entered)).(entries := s.entries[e := s.entries[e].(inUse := s.entries[e].inUse + 1)])
      else
        Go(s, t, At(|s.entries|, Entered)).(entries := s.entries + [Entry(key, None, 0, 1, {}, None)],
                                            table := s.table[key := |s.entries|])
    case OnEntry(t, fails) =>
      var th := s.threads[t];
      Apply(s, t, th.pc.e, Move(cfg, s.now, t, th, th.pc.e, th.pc.point, s.entries[th.pc.e], fails))
  }

  function Apply(s: State, t: nat, e: nat, o: Outcome): State
    requires t in s.threads && e < |s.entries|
  {
    var th := s.threads[t];
    s.(threads := s.threads[t := th.(pc := o.pc, runs := th.runs + o.ran)],
       entries := s.entries[e := o.entry],
       answers := if o.said.Some? then s.answers + [o.said.value] else s.answers)
  }

  function Start(now: nat): State {
    State(now, [], map[], map[], [])
  }

  // ----- What an answer is worth -----

  // The fill was looked up for this key, and its expiry was computed after the lookup.
  ghost predicate Genuine(cfg: Config, key: string, fill: Fill) {
    fill.value == cfg.lookup(key, fill.queriedAt) && (fill.stamp.Some? ==> fill.queriedAt <= fill.stamp.value)
  }

  // At time c the fill was within its time to live, give or take the second lost to whole-second expiry.
  ghost predicate RecentAt(cfg: Config, fill: Fill, c: nat) {
    fill.stamp.Some? ==> c < fill.stamp.value + cfg.ttl(fill.value) + SECOND
  }

  ghost predicate Justified(cfg: Config, answer: Answer) {
    match answer
    case Hit(_, key, fill, c, runs) =>
      && fill.stamp.Some? && Genuine(cfg, key, fill) && RecentAt(cfg, fill, c)
      && (runs == [Peek] || runs == [Full(true)] || runs == [Ready(true), Full(true)])
    case Fresh(_, key, value, q, started, answered, runs) =>
      && value == cfg.lookup(key, q) && started <= q <= answered
      && (runs == [Full(false)] || runs == [Ready(true), Full(false)])
    case NotReady(_, c1, c2, runs) =>
      (UnixSeconds(c1) < UnixSeconds(c2) || UnixSeconds(c2) == 0) && runs == [Ready(false)]
  }

  // ----- Invariant -----

  ghost predicate EntryOk(cfg: Config, entry: Entry) {
    && (entry.readers != {} ==> entry.writer.None?)
    && (entry.result.None? ==> entry.validAt == 0)
    && (entry.result.Some? ==>
          var fill := entry.result.value;
          && Genuine(cfg, entry.key, fill)
          && (fill.stamp.None? ==> entry.writer.Some?)
          && (fill.stamp.Some? ==> entry.validAt == ValidAt(fill.stamp.value + cfg.ttl(fill.value))))
  }

  // A fill without an expiry is in the hands of the writer that is about to set one.
  ghost predicate FillerOk(s: State, e: nat, entry: Entry) {
    entry.result.Some? && entry.result.value.stamp.None? && entry.writer.Some? ==>
      var w := entry.writer.value;
      w in s.threads && s.threads[w].pc == At(e, Filling(entry.result.value.value, entry.result.value.queriedAt))
  }

  // Every lock held on the entry is held by a thread that is inside the locked region.
  ghost predicate HoldersOk(s: State, e: nat, entry: Entry) {
    && (entry.writer.Some? ==>
          entry.writer.value in s.threads && s.threads[entry.writer.value].pc.At?
              && s.threads[entry.writer.value].pc.e == e
          && Writing(s.threads[entry.writer.value].pc.point))
    && (forall u :: u in entry.readers ==>
          u in s.threads && s.threads[u].pc.At? && s.threads[u].pc.e == e && LockedForReading(s.threads[u].pc.point))
  }

  ghost predicate CallOk(cfg: Config, now: nat, th: Thread) {
    && th.startedAt <= now
    && (!th.pc.At? && !th.pc.Done? ==> th.runs == [])
    && (th.op.Store? ==> th.op.queriedAt == th.startedAt && th.op.value == cfg.lookup(th.key, th.op.queriedAt))
  }

  // How often fn has run when a thread is at a point.
  predicate RunsAt(point: Point, runs: seq<FnRun>) {
    if point.WaitWrite? || point.WriteLocked? then runs == [] || runs == [Ready(true)]
    else if point.Queried? || point.Filling? then runs == [Full(false)] || runs == [Ready(true), Full(false)]
    else point.WriteDone? || point.Leaving? || runs == []
  }

  // DoRead has found the entry unexpired at time c; it was filled, unless that was in the clock's first second.
  ghost predicate PeekOk(cfg: Config, now: nat, th: Thread, entry: Entry, c: nat) {
    && th.startedAt <= c <= now
    && (entry.result.Some? ==> RecentAt(cfg, entry.result.value, c))
    && (entry.result.None? ==> UnixSeconds(c) == 0)
  }

  ghost predicate PointOk(cfg: Config, now: nat, t: nat, th: Thread, point: Point, entry: Entry) {
    && entry.key == th.key && RunsAt(point, th.runs)
    && match point
       case ReadLocked => t in entry.readers
       case ReadReady(c) => t in entry.readers && UnixSeconds(c) <= entry.validAt
       case Checked(c) => PeekOk(cfg, now, th, entry, c)
       case Pinned(c) => PeekOk(cfg, now, th, entry, c)
       case Reading(c) => t in entry.readers && PeekOk(cfg, now, th, entry, c)
       case WriteLocked => entry.writer == Some(t) && (entry.result.Some? ==> entry.result.value.stamp.Some?)
       case Queried(v, q) => entry.writer == Some(t) && v == cfg.lookup(th.key, q) && th.startedAt <= q <= now
       case Filling(v, q) =>
         entry.writer == Some(t) && v == cfg.lookup(th.key, q) && th.startedAt <= q <= now
             && entry.result == Some(Fill(v, q, None))
       case WriteDone => entry.writer == Some(t)
       case _ => true
  }

  ghost predicate ThreadOk(cfg: Config, s: State, t: nat)
    requires t in s.threads
  {
    var th := s.threads[t];
    CallOk(cfg, s.now, th) &&
    (th.pc.At? ==> th.pc.e < |s.entries| && PointOk(cfg, s.now, t, th, th.pc.point, s.entries[th.pc.e]))
  }

  // Every key in the table leads to an entry for that key.
  ghost predicate TableOk(s: State) {
    forall k :: k in s.table ==> s.table[k] < |s.entries| && s.entries[s.table[k]].key == k
  }

  ghost predicate Inv(cfg: Config, s: State) {
    && (forall e :: 0 <= e < |s.entries| ==>
        EntryOk(cfg, s.entries[e]) && FillerOk(s, e, s.entries[e]) && HoldersOk(s, e, s.entries[e]))
    && (forall t :: t in s.threads ==> ThreadOk(cfg, s, t))
    && TableOk(s)
    && (forall i :: 0 <= i < |s.answers| ==> Justified(cfg, s.answers[i]))
  }

  // ----- A move on an entry, seen by its thread and by the others -----

  // What thread t may do to an entry, as far as other threads can tell.
  ghost predicate Compatible(t: nat, now: nat, x: Entry, y: Entry) {
    && y.key == x.key
    && (forall u :: u != t ==> (u in x.readers <==> u in y.readers))
    && (x.writer != y.writer ==> x.writer in {None, Some(t)} && y.writer in {None, Some(t)})
    && (x.writer != Some(t) ==> y.validAt == x.validAt && y.result == x.result)
    && (y.result != x.result ==> y.result.Some? && y.result.value.stamp in {None, Some(now)})
  }

  // A fill still without an expiry cannot be seen by a thread that holds a lock of the entry and is not filling it.
  ghost predicate NoFillInProgress(entry: Entry) {
    entry.result.Some? ==> entry.result.value.stamp.Some?
  }

  lemma MoveKeepsEntry(cfg: Config, now: nat, t: nat, th: Thread, e: nat, point: Point, entry: Entry, fails: bool)
    requires CallOk(cfg, now, th) && EntryOk(cfg, entry) && PointOk(cfg, now, t, th, point, entry)
                 && CanMove(th, point, entry)
    requires !point.Filling? && entry.writer == Some(t) ==> NoFillInProgress(entry)
    ensures var o := Move(cfg, now, t, th, e, point, entry, fails);
            && Compatible(t, now, entry, o.entry) && EntryOk(cfg, o.entry)
            && (o.entry.writer == Some(t) && !(o.pc.At? && o.pc.point.Filling?) ==> NoFillInProgress(o.entry))
  {
    hide UnixSeconds, RunsAt;
  }

  lemma MoveCountsRuns(cfg: Config, now: nat, t: nat, th: Thread, e: nat, point: Point, entry: Entry, fails: bool)
    requires RunsAt(point, th.runs)
    ensures var o := Move(cfg, now, t, th, e, point, entry, fails); o.pc.At? ==> RunsAt(o.pc.point, th.runs + o.ran)
  {
    hide Expired, ValidAt;
    assert th.runs + [] == th.runs;
  }

  lemma MoveKeepsPoint(cfg: Config, now: nat, t: nat, th: Thread, e: nat, point: Point, entry: Entry, fails: bool)
    requires CallOk(cfg, now, th) && EntryOk(cfg, entry) && PointOk(cfg, now, t, th, point, entry)
                 && CanMove(th, point, entry)
    requires !point.Filling? && entry.writer == Some(t) ==> NoFillInProgress(entry)
    ensures var o := Move(cfg, now, t, th, e, point, entry, fails);
            && (o.pc.At? || o.pc.Done?)
            && (o.pc.At? ==> o.pc.e == e && PointOk(cfg, now, t, th.(runs := th.runs + o.ran), o.pc.point, o.entry))
  {
    RecentWhileUnexpired(cfg, entry, now);
    MoveCountsRuns(cfg, now, t, th, e, point, entry, fails);
    hide UnixSeconds, Genuine, RecentAt, RunsAt;
  }

  lemma MoveIsJustified(cfg: Config, now: nat, t: nat, th: Thread, e: nat, point: Point, entry: Entry, fails: bool)
    requires CallOk(cfg, now, th) && EntryOk(cfg, entry) && PointOk(cfg, now, t, th, point, entry)
                 && CanMove(th, point, entry)
    requires !point.Filling? && entry.writer == Some(t) ==> NoFillInProgress(entry)
    ensures var o := Move(cfg, now, t, th, e, point, entry, fails); o.said.Some? ==> Justified(cfg, o.said.value)
  {
    RecentWhileUnexpired(cfg, entry, now);
    hide ValidAt, UnixSeconds;
    if point.ReadReady? && !Usable(entry, now) {
      NotReadyBound(cfg, now, t, th, point, entry);
    }
  }

  // At the second check a refused answer means a later second, or the clock's first one.
  lemma NotReadyBound(cfg: Config, now: nat, t: nat, th: Thread, point: Point, entry: Entry)
    requires EntryOk(cfg, entry) && PointOk(cfg, now, t, th, point, entry) && point.ReadReady? && !Usable(entry, now)
    ensures UnixSeconds(point.checkedAt) < UnixSeconds(now) || UnixSeconds(now) == 0
  {
  }

  lemma RecentWhileUnexpired(cfg: Config, entry: Entry, now: nat)
    requires EntryOk(cfg, entry)
    ensures entry.result.Some? && !Expired(entry.validAt, now) ==> RecentAt(cfg, entry.result.value, now)
  {
    if entry.result.Some? && entry.result.value.stamp.Some? && !Expired(entry.validAt, now) {
      var fill := entry.result.value;
      UnexpiredIsRecent(fill.stamp.value + cfg.ttl(fill.value), now);
    }
  }

  lemma MoveIsLocal(cfg: Config, now: nat, t: nat, th: Thread, e: nat, point: Point, entry: Entry, fails: bool)
    requires CallOk(cfg, now, th) && EntryOk(cfg, entry) && PointOk(cfg, now, t, th, point, entry)
                 && CanMove(th, point, entry)
    requires !point.Filling? && entry.writer == Some(t) ==> NoFillInProgress(entry)
    requires HoldsOnlyAt(t, entry, At(e, point))
    ensures Local(cfg, now, t, th, e, entry, Move(cfg, now, t, th, e, point, entry, fails))
  {
    MoveKeepsEntry(cfg, now, t, th, e, point, entry, fails);
    MoveKeepsPoint(cfg, now, t, th, e, point, entry, fails);
    MoveIsJustified(cfg, now, t, th, e, point, entry, fails);
    hide Justified, EntryOk, CallOk, Compatible, Expired, NoFillInProgress;
  }

  // A compatible change of the entry is invisible to what another thread relies on.
  lemma OtherPointOk(cfg: Config, now: nat, t: nat, u: nat, th: Thread, point: Point, x: Entry, y: Entry)
    requires t != u && Compatible(t, now, x, y) && EntryOk(cfg, x) && PointOk(cfg, now, u, th, point, x)
    ensures PointOk(cfg, now, u, th, point, y)
  {
  }

  // What a move guarantees locally.
  ghost predicate Local(cfg: Config, now: nat, t: nat, th: Thread, e: nat, entry: Entry, o: Outcome) {
    && Compatible(t, now, entry, o.entry)
    && EntryOk(cfg, o.entry)
    && (o.pc.At? || o.pc.Done?)
    && (o.pc.At? ==> o.pc.e == e && PointOk(cfg, now, t, th.(runs := th.runs + o.ran), o.pc.point, o.entry))
    && (o.entry.writer == Some(t) && !(o.pc.At? && o.pc.point.Filling?) ==> NoFillInProgress(o.entry))
    && HoldsOnlyAt(t, o.entry, o.pc)
    && (o.said.Some? ==> Justified(cfg, o.said.value))
  }

  ghost predicate HoldsOnlyAt(t: nat, entry: Entry, pc: Pc) {
    && (entry.writer == Some(t) ==> pc.At? && Writing(pc.point))
    && (t in entry.readers ==> pc.At? && LockedForReading(pc.point))
  }

  lemma ApplyKeepsThreads(cfg: Config, s: State, t: nat, e: nat, o: Outcome)
    requires Inv(cfg, s) && t in s.threads && e < |s.entries|
    requires Local(cfg, s.now, t, s.threads[t], e, s.entries[e], o)
    ensures forall u :: u in s.threads ==> ThreadOk(cfg, Apply(s, t, e, o), u)
  {
    var s' := Apply(s, t, e, o);
    forall u | u in s.threads
      ensures ThreadOk(cfg, s', u)
    {
      assert ThreadOk(cfg, s, u);
      if u != t && s.threads[u].pc.At? && s.threads[u].pc.e == e {
        OtherPointOk(cfg, s.now, t, u, s.threads[u], s.threads[u].pc.point, s.entries[e], o.entry);
      }
    }
  }

  lemma ApplyKeepsEntries(cfg: Config, s: State, t: nat, e: nat, o: Outcome)
    requires Inv(cfg, s) && t in s.threads && e < |s.entries| && s.threads[t].pc.At? && s.threads[t].pc.e == e
    requires Local(cfg, s.now, t, s.threads[t], e, s.entries[e], o)
    ensures var s' := Apply(s, t, e, o);
            forall d :: 0 <= d < |s'.entries| ==>
              EntryOk(cfg, s'.entries[d]) && FillerOk(s', d, s'.entries[d]) && HoldersOk(s', d, s'.entries[d])
  {
    var s' := Apply(s, t, e, o);
    forall d | 0 <= d < |s'.entries|
      ensures EntryOk(cfg, s'.entries[d]) && FillerOk(s', d, s'.entries[d]) && HoldersOk(s', d, s'.entries[d])
    {
      assert EntryOk(cfg, s.entries[d]) && FillerOk(s, d, s.entries[d]) && HoldersOk(s, d, s.entries[d]);
    }
  }

  lemma ApplyKeepsInv(cfg: Config, s: State, t: nat, e: nat, o: Outcome)
    requires Inv(cfg, s) && t in s.threads && e < |s.entries| && s.threads[t].pc.At? && s.threads[t].pc.e == e
    requires Local(cfg, s.now, t, s.threads[t], e, s.entries[e], o)
    ensures Inv(cfg, Apply(s, t, e, o))
  {
    ApplyKeepsThreads(cfg, s, t, e, o);
    ApplyKeepsEntries(cfg, s, t, e, o);
    hide EntryOk, FillerOk, HoldersOk, ThreadOk, PointOk, Justified, HoldsOnlyAt;
    assert o.entry.key == s.entries[e].key;
  }

  lemma EntryStepInv(cfg: Config, s: State, t: nat, fails: bool)
    requires Inv(cfg, s) && Enabled(cfg, s, OnEntry(t, fails))
    ensures Inv(cfg, After(cfg, s, OnEntry(t, fails)))
  {
    hide Move, Local, Justified;
    var th := s.threads[t];
    var e := th.pc.e;
    assert ThreadOk(cfg, s, t);
    assert EntryOk(cfg, s.entries[e]) && FillerOk(s, e, s.entries[e]) && HoldersOk(s, e, s.entries[e]);
    MoveIsLocal(cfg, s.now, t, th, e, th.pc.point, s.entries[e], fails);
    ApplyKeepsInv(cfg, s, t, e, Move(cfg, s.now, t, th, e, th.pc.point, s.entries[e], fails));
  }

  // Nothing changes for the threads at work on an entry: locks and contents stay, only inUse may move.
  ghost predicate Quiet(s: State, s': State) {
    && s.now <= s'.now && |s.entries| <= |s'.entries|
    && (forall d :: 0 <= d < |s.entries| ==> s'.entries[d] == s.entries[d].(inUse := s'.entries[d].inUse))
    && (forall u :: u in s.threads && s.threads[u].pc.At? ==> u in s'.threads && s'.threads[u] == s.threads[u])
  }

  lemma QuietKeepsEntry(cfg: Config, s: State, s': State, d: nat)
    requires Quiet(s, s') && d < |s.entries|
    requires EntryOk(cfg, s.entries[d]) && FillerOk(s, d, s.entries[d]) && HoldersOk(s, d, s.entries[d])
    ensures EntryOk(cfg, s'.entries[d]) && FillerOk(s', d, s'.entries[d]) && HoldersOk(s', d, s'.entries[d])
  {
  }

  lemma QuietKeepsThread(cfg: Config, s: State, s': State, u: nat)
    requires Quiet(s, s') && u in s.threads && ThreadOk(cfg, s, u) && u in s'.threads && s'.threads[u] == s.threads[u]
    ensures ThreadOk(cfg, s', u)
  {
  }

  lemma NotOnEntryIsQuiet(cfg: Config, s: State, a: Action)
    requires Inv(cfg, s) && Enabled(cfg, s, a) && !a.OnEntry?
    ensures Quiet(s, After(cfg, s, a))
  {
    hide EntryOk, FillerOk, HoldersOk, ThreadOk, Collectable;
  }

  lemma QuietTable(cfg: Config, s: State, a: Action)
    requires TableOk(s) && Enabled(cfg, s, a) && !a.OnEntry?
    ensures TableOk(After(cfg, s, a)) && After(cfg, s, a).answers == s.answers
  {
  }

  // The thread that acts either stays off the entries or arrives at one it may use.
  lemma ActorOk(cfg: Config, s: State, a: Action, u: nat)
    requires TableOk(s) && Enabled(cfg, s, a) && !a.OnEntry? && u in After(cfg, s, a).threads
    requires u in s.threads ==> ThreadOk(cfg, s, u) && After(cfg, s, a).threads[u] != s.threads[u]
    ensures ThreadOk(cfg, After(cfg, s, a), u)
  {
    hide RecentAt, Expired, UnixSeconds, Collectable;
  }

  lemma QuietThreads(cfg: Config, s: State, a: Action)
    requires Inv(cfg, s) && Enabled(cfg, s, a) && !a.OnEntry?
    ensures Quiet(s, After(cfg, s, a))
    ensures forall u :: u in After(cfg, s, a).threads ==> ThreadOk(cfg, After(cfg, s, a), u)
  {
    var s' := After(cfg, s, a);
    NotOnEntryIsQuiet(cfg, s, a);
    hide After, Enabled, EntryOk, FillerOk, HoldersOk, PointOk, CallOk;
    forall u | u in s'.threads
      ensures ThreadOk(cfg, s', u)
    {
      if u in s.threads && s'.threads[u] == s.threads[u] {
        assert ThreadOk(cfg, s, u);
        QuietKeepsThread(cfg, s, s', u);
      } else {
        assert u in s.threads ==> ThreadOk(cfg, s, u);
        ActorOk(cfg, s, a, u);
      }
    }
  }

  lemma QuietEntries(cfg: Config, s: State, s': State)
    requires Inv(cfg, s) && Quiet(s, s')
    requires forall d :: |s.entries| <= d < |s'.entries| ==>
               s'.entries[d] == Entry(s'.entries[d].key, None, 0, s'.entries[d].inUse, {}, None)
    ensures forall d :: 0 <= d < |s'.entries| ==>
              EntryOk(cfg, s'.entries[d]) && FillerOk(s', d, s'.entries[d]) && HoldersOk(s', d, s'.entries[d])
  {
    forall d | 0 <= d < |s'.entries|
      ensures EntryOk(cfg, s'.entries[d]) && FillerOk(s', d, s'.entries[d]) && HoldersOk(s', d, s'.entries[d])
    {
      if d < |s.entries| {
        assert EntryOk(cfg, s.entries[d]) && FillerOk(s, d, s.entries[d]) && HoldersOk(s, d, s.entries[d]);
        QuietKeepsEntry(cfg, s, s', d);
      }
    }
  }

  lemma QuietStepInv(cfg: Config, s: State, a: Action)
    requires Inv(cfg, s) && Enabled(cfg, s, a) && !a.OnEntry?
    ensures Inv(cfg, After(cfg, s, a))
  {
    QuietThreads(cfg, s, a);
    QuietTable(cfg, s, a);
    NewEntries(cfg, s, a);
    hide After, Enabled, ThreadOk, EntryOk, FillerOk, HoldersOk, TableOk, Justified;
    QuietEntries(cfg, s, After(cfg, s, a));
  }

  // A step off the entries can only add an unfilled, unlocked one.
  lemma NewEntries(cfg: Config, s: State, a: Action)
    requires Enabled(cfg, s, a) && !a.OnEntry?
    ensures var s' := After(cfg, s, a);
            forall d :: |s.entries| <= d < |s'.entries| ==>
              s'.entries[d] == Entry(s'.entries[d].key, None, 0, s'.entries[d].inUse, {}, None)
  {
  }

  // ----- Runs -----

  ghost predicate IsRun(cfg: Config, states: seq<State>, actions: seq<Action>) {
    && |states| == |actions| + 1
    && states[0] == Start(states[0].now)
    && forall i :: 0 <= i < |actions| ==>
        Enabled(cfg, states[i], actions[i]) && states[i + 1] == After(cfg, states[i], actions[i])
  }

  lemma {:induction false} RunInv(cfg: Config, states: seq<State>, actions: seq<Action>, i: nat)
    requires IsRun(cfg, states, actions) && i < |states|
    ensures Inv(cfg, states[i])
  {
    if i > 0 {
      RunInv(cfg, states, actions, i - 1);
      var s, a := states[i - 1], actions[i - 1];
      match a {
        case OnEntry(t, fails) => EntryStepInv(cfg, s, t, fails);
        case _ => QuietStepInv(cfg, s, a);
      }
    }
  }

  // Whatever the interleaving, and whatever the cleaner deletes: a cached value handed out is what a direct lookup
  // of the same key returned, checked less than its time to live plus a second after its expiry was computed;
  // a fresh one was looked up during the call; and "not ready" means that a second passed between the two checks
  // (or that the clock still stands in its first second).
  lemma EveryAnswerIsJustified(cfg: Config, states: seq<State>, actions: seq<Action>, i: nat, k: nat)
    requires IsRun(cfg, states, actions) && i < |states| && k < |states[i].answers|
    ensures match states[i].answers[k]
            case Hit(_, key, fill, c, _) =>
              fill.stamp.Some? && fill.value == cfg.lookup(key, fill.queriedAt) && fill.queriedAt <= fill.stamp.value
              && c < fill.stamp.value + cfg.ttl(fill.value) + SECOND
            case Fresh(_, key, value, q, started, answered, _) =>
              value == cfg.lookup(key, q) && started <= q <= answered
            case NotReady(_, c1, c2, _) =>
              UnixSeconds(c1) < UnixSeconds(c2) || UnixSeconds(c2) == 0
  {
    RunInv(cfg, states, actions, i);
    assert Justified(cfg, states[i].answers[k]);
  }

  // A call of Do runs the caller's function twice exactly when the first run finds the answer: that run's answer is
  // dropped, and the run under the write lock answers. A refused call has made one run that found nothing.
  lemma HitRunsTwice(cfg: Config, states: seq<State>, actions: seq<Action>, i: nat, k: nat)
    requires IsRun(cfg, states, actions) && i < |states| && k < |states[i].answers|
    ensures var a := states[i].answers[k];
            && (|a.runs| == 2 <==> Ready(true) in a.runs)
            && (|a.runs| == 2 ==> a.runs[0] == Ready(true) && a.runs[1] == Full(a.Hit?))
            && (a.NotReady? <==> a.runs == [Ready(false)])
            && (a.Hit? && |a.runs| == 1 <==> a.runs == [Peek] || a.runs == [Full(true)])
  {
    RunInv(cfg, states, actions, i);
    assert Justified(cfg, states[i].answers[k]);
  }

  // In every reachable state, a thread about to run fn in ready mode is refused exactly when its entry has expired
  // since the first check, or has never been filled (then that check fell in the clock's first second).
  lemma NotReadyExactly(cfg: Config, states: seq<State>, actions: seq<Action>, i: nat, t: nat, fails: bool)
    requires IsRun(cfg, states, actions) && i < |states| && Enabled(cfg, states[i], OnEntry(t, fails))
    requires states[i].threads[t].pc.point.ReadReady?
    ensures var s, s' := states[i], After(cfg, states[i], OnEntry(t, fails));
            var entry, c := s.entries[s.threads[t].pc.e], s.threads[t].pc.point.checkedAt;
            && s'.answers == (if Expired(entry.validAt, s.now) || entry.result.None?
                              then s.answers + [NotReady(t, c, s.now, [Ready(false)])] else s.answers)
            && (entry.result.None? ==> UnixSeconds(c) == 0)
  {
    RunInv(cfg, states, actions, i);
    assert ThreadOk(cfg, states[i], t);
    assert EntryOk(cfg, states[i].entries[states[i].threads[t].pc.e]);
    assert [] + [Ready(false)] == [Ready(false)];
  }

  // ----- Sample runs -----

  ghost predicate Reachable(cfg: Config, s: State) {
    exists states, actions :: IsRun(cfg, states, actions) && states[|actions|] == s
  }

  lemma OneMore(cfg: Config, s: State, a: Action)
    requires Reachable(cfg, s) && Enabled(cfg, s, a)
    ensures Reachable(cfg, After(cfg, s, a))
  {
    hide After, Enabled;
    var states, actions :| IsRun(cfg, states, actions) && states[|actions|] == s;
    assert IsRun(cfg, states + [After(cfg, s, a)], actions + [a]);
  }

  // Answers worth 7, for a minute.
  const SAMPLE := Config(1, (key, t) => 7, v => 60 * SECOND)

  const FILL := Fill(7, SECOND, Some(SECOND))
  const FILLED := Fresh(1, "k", 7, SECOND, SECOND, SECOND, [Full(false)])

  // A shard with one entry, under the key "k".
  function One(now: nat, entry: Entry, threads: map<nat, Thread>, answers: seq<Answer>): State {
    State(now, [entry], map["k" := 0], threads, answers)
  }

  // One move of thread t on the entry, from and to states written out.
  lemma MoveOn(now: nat, t: nat, point: Point, from: State, to: State, o: Outcome)
    requires Reachable(SAMPLE, from) && |from.entries| == 1 && from.now == now && t in from.threads
    requires from.threads[t].pc == At(0, point) && CanMove(from.threads[t], point, from.entries[0])
    requires o == Move(SAMPLE, now, t, from.threads[t], 0, point, from.entries[0], false)
    requires to.threads.Keys == from.threads.Keys && to.threads[t].runs == from.threads[t].runs + o.ran
    requires to.threads[t] == from.threads[t].(pc := o.pc, runs := to.threads[t].runs)
    requires forall u :: u in to.threads && u != t ==> to.threads[u] == from.threads[u]
    requires to.answers == from.answers + if o.said.Some? then [o.said.value] else []
    requires to.now == now && to.table == from.table && to.entries == [o.entry]
    ensures Reachable(SAMPLE, to)
  {
    hide Move, CanMove, Reachable;
    OneMore(SAMPLE, from, OnEntry(t, false));
    assert from.entries[0 := o.entry] == [o.entry];
    assert After(SAMPLE, from, OnEntry(t, false)) == to;
  }

  // Thread 1 fills the entry.
  function Filling1(entry: Entry, point: Point, runs: seq<FnRun>, answers: seq<Answer>): State {
    One(SECOND, entry, map[1 := Thread("k", Store(7, SECOND), SECOND, At(0, point), runs)], answers)
  }

  function Owned(result: Option<Fill>, validAt: nat, writer: Option<nat>): Entry {
    Entry("k", result, validAt, 1, {}, writer)
  }

  lemma StartIsReachable(cfg: Config, now: nat)
    ensures Reachable(cfg, Start(now))
  {
    var states, none: seq<Action> := [Start(now)], [];
    assert IsRun(cfg, states, none) && states[|none|] == Start(now);
  }

  lemma SampleCreates()
    ensures Reachable(SAMPLE, Filling1(Owned(None, 0, None), Entered, [], []))
  {
    StartIsReachable(SAMPLE, SECOND);
    hide Reachable, Move;
    var s0 := Start(SECOND);
    OneMore(SAMPLE, s0, Begin(1, "k", Store(7, SECOND)));
    var s1 := After(SAMPLE, s0, Begin(1, "k", Store(7, SECOND)));
    OneMore(SAMPLE, s1, Find(1));
    var s2 := After(SAMPLE, s1, Find(1));
    OneMore(SAMPLE, s2, Create(1));
    assert After(SAMPLE, s2, Create(1)) == Filling1(Owned(None, 0, None), Entered, [], []);
  }

  lemma SampleLocks()
    ensures Reachable(SAMPLE, Filling1(Owned(None, 0, Some(1)), Queried(7, SECOND), [Full(false)], []))
  {
    SampleCreates();
    hide Reachable;
    var free, locked, q, ran := Owned(None, 0, None), Owned(None, 0, Some(1)), Queried(7, SECOND), [Full(false)];
    MoveOn(SECOND, 1, Entered, Filling1(free, Entered, [], []), Filling1(locked, WriteLocked, [], []),
           Outcome(locked, At(0, WriteLocked), None, []));
    MoveOn(SECOND, 1, WriteLocked, Filling1(locked, WriteLocked, [], []), Filling1(locked, q, ran, []),
           Outcome(locked, At(0, q), None, ran));
  }

  lemma SampleStores()
    ensures Reachable(SAMPLE, Filling1(Owned(Some(FILL), 61, Some(1)), WriteDone, [Full(false)], [FILLED]))
  {
    SampleLocks();
    hide Reachable;
    var locked, half := Owned(None, 0, Some(1)), Owned(Some(Fill(7, SECOND, None)), 0, Some(1));
    var full, ran, q, w := Owned(Some(FILL), 61, Some(1)), [Full(false)], Queried(7, SECOND), Filling(7, SECOND);
    MoveOn(SECOND, 1, q, Filling1(locked, q, ran, []), Filling1(half, w, ran, []), Outcome(half, At(0, w), None, []));
    MoveOn(SECOND, 1, w, Filling1(half, w, ran, []), Filling1(full, WriteDone, ran, [FILLED]),
           Outcome(full, At(0, WriteDone), Some(FILLED), []));
  }

  lemma SampleFills()
    ensures Reachable(SAMPLE, Filling1(Owned(Some(FILL), 61, None), Leaving, [Full(false)], [FILLED]))
  {
    SampleStores();
    hide Reachable;
    var full, done, ran := Owned(Some(FILL), 61, Some(1)), Owned(Some(FILL), 61, None), [Full(false)];
    MoveOn(SECOND, 1, WriteDone, Filling1(full, WriteDone, ran, [FILLED]), Filling1(done, Leaving, ran, [FILLED]),
           Outcome(done, At(0, Leaving), None, []));
  }

  // Thread 2 reads through while thread 1 is leaving.
  function Reading2(now: nat, entry: Entry, point: Point, runs: seq<FnRun>, answers: seq<Answer>): State {
    One(now, entry, map[1 := Thread("k", Store(7, SECOND), SECOND, At(0, Leaving), [Full(false)]),
                        2 := Thread("k", ReadThrough, SECOND, At(0, point), runs)], answers)
  }

  function Shared(readers: set<nat>, writer: Option<nat>, inUse: int): Entry {
    Entry("k", Some(FILL), 61, inUse, readers, writer)
  }

  lemma SampleEnters()
    ensures Reachable(SAMPLE, Reading2(SECOND, Shared({}, None, 1), Found, [], [FILLED]))
  {
    SampleFills();
    hide Reachable;
    var s0 := Filling1(Owned(Some(FILL), 61, None), Leaving, [Full(false)], [FILLED]);
    OneMore(SAMPLE, s0, Begin(2, "k", ReadThrough));
    var s1 := After(SAMPLE, s0, Begin(2, "k", ReadThrough));
    OneMore(SAMPLE, s1, Find(2));
    assert After(SAMPLE, s1, Find(2)) == Reading2(SECOND, Shared({}, None, 1), Found, [], [FILLED]);
  }

  // Its first check falls in the second the entry was filled in.
  lemma SampleChecks()
    ensures Reachable(SAMPLE, Reading2(SECOND, Shared({2}, None, 2), ReadReady(SECOND), [], [FILLED]))
  {
    SampleEnters();
    hide Reachable;
    var one, two, held := Shared({}, None, 1), Shared({}, None, 2), Shared({} + {2}, None, 2);
    assert held == Shared({2}, None, 2);
    var s1 := Reading2(SECOND, one, Found, [], [FILLED]);
    var s2 := Reading2(SECOND, two, Entered, [], [FILLED]);
    var s3 := Reading2(SECOND, held, ReadLocked, [], [FILLED]);
    var s4 := Reading2(SECOND, held, ReadReady(SECOND), [], [FILLED]);
    MoveOn(SECOND, 2, Found, s1, s2, Outcome(two, At(0, Entered), None, []));
    MoveOn(SECOND, 2, Entered, s2, s3, Outcome(held, At(0, ReadLocked), None, []));
    MoveOn(SECOND, 2, ReadLocked, s3, s4, Outcome(held, At(0, ReadReady(SECOND)), None, []));
  }

  // Both cases occur: the entry expires between the two checks and the call is refused...
  lemma RefusalOccurs()
    ensures exists s :: Reachable(SAMPLE, s) && NotReady(2, SECOND, 62 * SECOND, [Ready(false)]) in s.answers
  {
    SampleChecks();
    hide Reachable;
    var s0 := Reading2(SECOND, Shared({2}, None, 2), ReadReady(SECOND), [], [FILLED]);
    OneMore(SAMPLE, s0, Tick(61 * SECOND));
    var s1 := Reading2(62 * SECOND, Shared({2}, None, 2), ReadReady(SECOND), [], [FILLED]);
    assert After(SAMPLE, s0, Tick(61 * SECOND)) == s1;
    var none: seq<FnRun> := [];
    var refused := NotReady(2, SECOND, 62 * SECOND, none + [Ready(false)]);
    var s2 := Reading2(62 * SECOND, Shared({2} - {2}, None, 2), Leaving, [Ready(false)], [FILLED, refused]);
    MoveOn(62 * SECOND, 2, ReadReady(SECOND), s1, s2,
        Outcome(s2.entries[0], At(0, Leaving), Some(refused), [Ready(false)]));
    assert s2.answers[1] == refused;
  }

  // ...or it does not, and the hit runs fn twice.
  lemma DoubleRunOccurs()
    ensures exists s :: Reachable(SAMPLE, s) && Hit(2, "k", FILL, SECOND, [Ready(true), Full(true)]) in s.answers
  {
    SampleChecks();
    hide Reachable;
    var once, hit := [Ready(true)], Hit(2, "k", FILL, SECOND, [Ready(true)] + [Full(true)]);
    var s0 := Reading2(SECOND, Shared({2}, None, 2), ReadReady(SECOND), [], [FILLED]);
    var s1 := Reading2(SECOND, Shared({2} - {2}, None, 2), WaitWrite, once, [FILLED]);
    MoveOn(SECOND, 2, ReadReady(SECOND), s0, s1, Outcome(s1.entries[0], At(0, WaitWrite), None, once));
    var locked := Shared({2} - {2}, Some(2), 2);
    var s2 := Reading2(SECOND, locked, WriteLocked, once, [FILLED]);
    MoveOn(SECOND, 2, WaitWrite, s1, s2, Outcome(locked, At(0, WriteLocked), None, []));
    var s3 := Reading2(SECOND, locked, WriteDone, [Ready(true), Full(true)], [FILLED, hit]);
    assert [Ready(true)] + [Full(true)] == [Ready(true), Full(true)];
    MoveOn(SECOND, 2, WriteLocked, s2, s3, Outcome(locked, At(0, WriteDone), Some(hit), [Full(true)]));
    assert s3.answers[1] == hit;
  }

  // Two threads never hold an entry's write lock together, nor a writer together with a reader.
  lemma WritersExclude(cfg: Config, states: seq<State>, actions: seq<Action>, i: nat, t: nat, u: nat)
    requires IsRun(cfg, states, actions) && i < |states| && t != u
    requires t in states[i].threads && states[i].threads[t].pc.At? && u in states[i].threads
                 && states[i].threads[u].pc.At?
    requires states[i].threads[t].pc.e == states[i].threads[u].pc.e
    requires Writing(states[i].threads[t].pc.point)
    ensures !Writing(states[i].threads[u].pc.point) && !LockedForReading(states[i].threads[u].pc.point)
  {
    RunInv(cfg, states, actions, i);
    assert ThreadOk(cfg, states[i], t) && ThreadOk(cfg, states[i], u);
  }

  // No deadlock on an entry: when a thread waits for a lock, a thread that can move holds it.
  lemma SomeHolderCanMove(cfg: Config, states: seq<State>, actions: seq<Action>, i: nat, t: nat)
    requires IsRun(cfg, states, actions) && i < |states|
    requires t in states[i].threads && states[i].threads[t].pc.At? && !Enabled(cfg, states[i], OnEntry(t, false))
    ensures exists u :: u in states[i].threads && states[i].threads[u].pc.At?
                && states[i].threads[u].pc.e == states[i].threads[t].pc.e
                        && Enabled(cfg, states[i], OnEntry(u, false))
  {
    RunInv(cfg, states, actions, i);
    var s := states[i];
    assert ThreadOk(cfg, s, t);
    var e := s.threads[t].pc.e;
    assert HoldersOk(s, e, s.entries[e]);
    if s.entries[e].writer.Some? {
      assert Enabled(cfg, s, OnEntry(s.entries[e].writer.value, false));
    } else {
      var u :| u in s.entries[e].readers;
      assert Enabled(cfg, s, OnEntry(u, false));
    }
  }

  // On a database that does not change, the cache answers exactly what a direct lookup answers.
  lemma AgreesWithDirectLookup(cfg: Config, states: seq<State>, actions: seq<Action>, i: nat, k: nat)
    requires IsRun(cfg, states, actions) && i < |states| && k < |states[i].answers|
    requires forall key, x, y :: cfg.lookup(key, x) == cfg.lookup(key, y)
    ensures match states[i].answers[k]
            case Hit(_, key, fill, c, _) => fill.value == cfg.lookup(key, c)
            case Fresh(_, key, value, _, _, answered, _) => value == cfg.lookup(key, answered)
            case NotReady(_, _, _, _) => true
  {
    EveryAnswerIsJustified(cfg, states, actions, i, k);
  }
}
