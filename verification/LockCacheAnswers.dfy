/** Every call of the cache gets its answer: over all interleavings, a Do whose queries succeed ends with exactly one
    answer, and a DoRead of a filled, unexpired entry with a hit. */
module LockCacheAnswers {
  import opened Wrappers
  import opened LockCache

  // The answers given to thread t.
  function AnswersOf(answers: seq<Answer>, t: nat): seq<Answer> {
    if answers == [] then []
    else
      var init, last := answers[..|answers| - 1], answers[|answers| - 1];
      AnswersOf(init, t) + if last.thread == t then [last] else []
  }

  function Given(mine: seq<Answer>, said: Option<Answer>): seq<Answer> {
    if said.Some? then mine + [said.value] else mine
  }

  lemma AnswersOfMore(answers: seq<Answer>, more: seq<Answer>, t: nat)
    requires |more| <= 1
    ensures AnswersOf(answers + more, t) ==
            AnswersOf(answers, t) + if more != [] && more[0].thread == t then more else []
  {
    if more == [] {
      assert answers + more == answers;
    } else {
      assert (answers + more)[..|answers|] == answers;
    }
  }

  // ----- Where each kind of call can be -----

  predicate PointFits(op: Op, point: Point) {
    match point
    case Found => !op.Clean?
    case Checked(_) => op.ReadOnly?
    case Pinned(_) => op.ReadOnly?
    case Reading(_) => op.ReadOnly?
    case ReadLocked => op.ReadThrough?
    case ReadReady(_) => op.ReadThrough?
    case WaitWrite => op.ReadThrough?
    case Leaving => !op.Clean?
    case Queried(v, q) => op.ReadThrough? || op == Store(v, q)
    case Filling(v, q) => op.ReadThrough? || op == Store(v, q)
    case _ => op.ReadThrough? || op.Store?
  }

  predicate PcFits(th: Thread) {
    match th.pc
    case Looking => !th.op.Clean?
    case Sweep => !th.op.ReadOnly?
    case Sweeping(_) => !th.op.ReadOnly?
    case Relooking => th.op.ReadThrough? || th.op.Store?
    case Creating => th.op.ReadThrough? || th.op.Store?
    case At(_, point) => PointFits(th.op, point)
    case Done => true
  }

  // ----- What a call must have been given, and when -----

  predicate Open(pc: Pc) {
    !pc.Done? && !(pc.At? && (pc.point.WriteDone? || pc.point.Leaving?))
  }

  // A closed call: a failed query gives no answer; any other Do exactly one, from its last run of fn. A DoRead gives
  // a hit if it passed the expiry check, unless that fell in the clock's first second.
  predicate Served(th: Thread, mine: seq<Answer>) {
    match th.op
    case Clean => mine == []
    case ReadOnly =>
      || (th.runs == [] && mine == [])
      || (th.runs == [Peek] && mine == [] && UnixSeconds(th.startedAt) == 0)
      || (th.runs == [Peek] && |mine| == 1 && mine[0].Hit? && mine[0].key == th.key)
    case ReadThrough =>
      || (Failed in th.runs && mine == [])
      || (|mine| == 1 && mine[0].runs == th.runs && Answers(th, mine[0]))
    case Store(v, q) => |mine| == 1 && mine[0].runs == th.runs && Answers(th, mine[0])
  }

  predicate Answers(th: Thread, a: Answer) {
    && (a.Hit? || a.Fresh? ==> a.key == th.key)
    && (th.op.Store? ==> a.Fresh? && a.value == th.op.value && a.queriedAt == th.op.queriedAt)
    && (th.runs != [] && th.runs[|th.runs| - 1] == Full(false) ==> a.Fresh?)
    && (Failed !in th.runs)
  }

  predicate Account(th: Thread, mine: seq<Answer>) {
    PcFits(th) && if Open(th.pc) then mine == [] else Served(th, mine)
  }

  ghost predicate Accounts(s: State) {
    && (forall t :: t in s.threads ==> Account(s.threads[t], AnswersOf(s.answers, t)))
    && (forall t: nat :: t !in s.threads ==> AnswersOf(s.answers, t) == [])
  }

  // ----- Every step keeps the accounts -----

  lemma MoveFits(cfg: Config, now: nat, t: nat, th: Thread, e: nat, point: Point, entry: Entry, fails: bool)
    requires th.pc == At(e, point) && PcFits(th)
    ensures PcFits(th.(pc := Move(cfg, now, t, th, e, point, entry, fails).pc))
  {
    hide Expired, ValidAt;
  }

  lemma MoveServesStore(cfg: Config, now: nat, t: nat, th: Thread, e: nat, point: Point, entry: Entry, fails: bool,
                        mine: seq<Answer>)
    requires RunsAt(point, th.runs) && th.pc == At(e, point) && Account(th, mine) && th.op.Store?
    ensures var o := Move(cfg, now, t, th, e, point, entry, fails);
            var th', mine' := th.(pc := o.pc, runs := th.runs + o.ran), Given(mine, o.said);
            if Open(o.pc) then mine' == [] else Served(th', mine')
  {
    hide Expired, ValidAt;
    assert th.runs + [] == th.runs;
  }

  lemma MoveServesReadOnly(cfg: Config, now: nat, t: nat, th: Thread, e: nat, point: Point, entry: Entry, fails: bool,
                           mine: seq<Answer>)
    requires PointOk(cfg, now, t, th, point, entry) && th.pc == At(e, point) && Account(th, mine) && th.op.ReadOnly?
    ensures var o := Move(cfg, now, t, th, e, point, entry, fails);
            var th', mine' := th.(pc := o.pc, runs := th.runs + o.ran), Given(mine, o.said);
            if Open(o.pc) then mine' == [] else Served(th', mine')
  {
    hide Expired, ValidAt, RecentAt;
    assert th.runs + [] == th.runs;
  }

  // Where fn runs, or its result is stored.
  predicate Runs(point: Point) {
    point.ReadReady? || point.WriteLocked? || point.Filling?
  }

  lemma MoveRunsReadThrough(cfg: Config, now: nat, t: nat, th: Thread, e: nat, point: Point, entry: Entry,
                            fails: bool, mine: seq<Answer>)
    requires RunsAt(point, th.runs) && th.pc == At(e, point) && Account(th, mine) && th.op.ReadThrough? && Runs(point)
    ensures var o := Move(cfg, now, t, th, e, point, entry, fails);
            var th', mine' := th.(pc := o.pc, runs := th.runs + o.ran), Given(mine, o.said);
            if Open(o.pc) then mine' == [] else Served(th', mine')
  {
    hide Expired, ValidAt, PcFits;
    assert th.runs + [] == th.runs;
  }

  lemma MoveServesReadThrough(cfg: Config, now: nat, t: nat, th: Thread, e: nat, point: Point, entry: Entry,
                              fails: bool, mine: seq<Answer>)
    requires RunsAt(point, th.runs) && th.pc == At(e, point) && Account(th, mine) && th.op.ReadThrough?
    ensures var o := Move(cfg, now, t, th, e, point, entry, fails);
            var th', mine' := th.(pc := o.pc, runs := th.runs + o.ran), Given(mine, o.said);
            if Open(o.pc) then mine' == [] else Served(th', mine')
  {
    hide Expired, ValidAt, RunsAt;
    if Runs(point) {
      MoveRunsReadThrough(cfg, now, t, th, e, point, entry, fails, mine);
    } else {
      assert th.runs + [] == th.runs;
    }
  }

  lemma MoveKeepsAccount(cfg: Config, now: nat, t: nat, th: Thread, e: nat, point: Point, entry: Entry, fails: bool,
                         mine: seq<Answer>)
    requires PointOk(cfg, now, t, th, point, entry) && th.pc == At(e, point) && Account(th, mine)
    ensures var o := Move(cfg, now, t, th, e, point, entry, fails);
            Account(th.(pc := o.pc, runs := th.runs + o.ran), Given(mine, o.said))
  {
    MoveFits(cfg, now, t, th, e, point, entry, fails);
    match th.op {
      case Store(_, _) => MoveServesStore(cfg, now, t, th, e, point, entry, fails, mine);
      case ReadOnly => MoveServesReadOnly(cfg, now, t, th, e, point, entry, fails, mine);
      case ReadThrough => MoveServesReadThrough(cfg, now, t, th, e, point, entry, fails, mine);
      case Clean => assert false;
    }
    hide Move, Served;
  }

  lemma SaidToMover(cfg: Config, now: nat, t: nat, th: Thread, e: nat, point: Point, entry: Entry, fails: bool)
    ensures var o := Move(cfg, now, t, th, e, point, entry, fails); o.said.Some? ==> o.said.value.thread == t
  {
  }

  // What a step on an entry changes for its thread, and that it changes nothing for the others.
  lemma EntryStep(cfg: Config, s: State, t: nat, fails: bool)
    requires Enabled(cfg, s, OnEntry(t, fails))
    ensures var s', th := After(cfg, s, OnEntry(t, fails)), s.threads[t];
            var o := Move(cfg, s.now, t, th, th.pc.e, th.pc.point, s.entries[th.pc.e], fails);
            && s'.threads == s.threads[t := th.(pc := o.pc, runs := th.runs + o.ran)]
            && s'.entries == s.entries[th.pc.e := o.entry]
            && AnswersOf(s'.answers, t) == Given(AnswersOf(s.answers, t), o.said)
            && forall u: nat :: u != t ==> AnswersOf(s'.answers, u) == AnswersOf(s.answers, u)
  {
    var th := s.threads[t];
    var o := Move(cfg, s.now, t, th, th.pc.e, th.pc.point, s.entries[th.pc.e], fails);
    SaidToMover(cfg, s.now, t, th, th.pc.e, th.pc.point, s.entries[th.pc.e], fails);
    hide Move, CanMove, AnswersOf;
    var said := if o.said.Some? then [o.said.value] else [];
    assert s.answers + [] == s.answers;
    AnswersOfMore(s.answers, said, t);
    forall u: nat | u != t
      ensures AnswersOf(s.answers + said, u) == AnswersOf(s.answers, u)
    {
      AnswersOfMore(s.answers, said, u);
    }
  }

  lemma EntryStepAccounts(cfg: Config, s: State, t: nat, fails: bool)
    requires Inv(cfg, s) && Accounts(s) && Enabled(cfg, s, OnEntry(t, fails))
    ensures Accounts(After(cfg, s, OnEntry(t, fails)))
  {
    var th := s.threads[t];
    assert ThreadOk(cfg, s, t);
    MoveKeepsAccount(cfg, s.now, t, th, th.pc.e, th.pc.point, s.entries[th.pc.e], fails, AnswersOf(s.answers, t));
    EntryStep(cfg, s, t, fails);
    var s' := After(cfg, s, OnEntry(t, fails));
    hide Move, Account, PointOk, CanMove, Inv, AnswersOf, After, Given;
    forall u | u in s'.threads
      ensures Account(s'.threads[u], AnswersOf(s'.answers, u))
    {
      if u != t {
        assert s'.threads[u] == s.threads[u];
      }
    }
  }

  predicate QuietPc(th: Thread) {
    th.runs == [] && th.pc == if th.op.Clean? then Sweep else Looking
  }

  predicate QuietChange(th: Thread, th': Thread) {
    && th' == th.(pc := th'.pc) && !th.pc.At? && !th.pc.Done?
    && (PcFits(th) ==> PcFits(th'))
    && (th'.pc.Done? ==> th.op.ReadOnly? || th.op.Clean?)
    && (th'.pc.At? ==> th'.pc.point.Found? || th'.pc.point.Entered?)
  }

  // The pc a step off the entries takes its thread to.
  ghost function PcAfter(cfg: Config, s: State, t: nat, a: Action): Pc
    requires t in s.threads
  {
    var th := s.threads[t];
    match a
    case Find(_) =>
      if th.key in s.table then At(s.table[th.key], Found)
      else if th.op.ReadOnly? then Done
      else if th.pc.Looking? && |s.table| >= cfg.maxSize then Sweep
      else Creating
    case CollectExpired(_, keys) => Sweeping(keys)
    case DeleteKeys(_) => if th.op.Clean? then Done else Relooking
    case Create(_) =>
      At(if th.key in s.table && s.table[th.key] < |s.entries| then s.table[th.key] else |s.entries|, Entered)
    case _ => th.pc
  }

  lemma QuietFits(cfg: Config, s: State, a: Action)
    requires Enabled(cfg, s, a) && (a.Find? || a.CollectExpired? || a.DeleteKeys? || a.Create?)
    ensures var th := s.threads[a.t]; QuietChange(th, th.(pc := PcAfter(cfg, s, a.t, a)))
  {
    hide Collectable;
  }

  // A step off the entries changes at most one thread, and gives no answer.
  lemma QuietStep(cfg: Config, s: State, a: Action)
    requires Enabled(cfg, s, a) && !a.OnEntry?
    ensures var s' := After(cfg, s, a);
            && s'.answers == s.answers && s.threads.Keys <= s'.threads.Keys
            && (forall u :: u in s'.threads ==>
                  if u !in s.threads then QuietPc(s'.threads[u])
                  else s'.threads[u] == s.threads[u] || QuietChange(s.threads[u], s'.threads[u]))
  {
    hide Collectable, PcFits;
    if a.Find? || a.CollectExpired? || a.DeleteKeys? || a.Create? {
      QuietFits(cfg, s, a);
      var th := s.threads[a.t];
      hide QuietChange;
      assert After(cfg, s, a).threads == s.threads[a.t := th.(pc := PcAfter(cfg, s, a.t, a))];
    }
  }

  lemma QuietChangeAccount(th: Thread, th': Thread, mine: seq<Answer>)
    requires Account(th, mine) && QuietChange(th, th') && th.runs == []
    ensures Account(th', mine)
  {
  }

  lemma QuietStepAccounts(cfg: Config, s: State, a: Action)
    requires Inv(cfg, s) && Accounts(s) && Enabled(cfg, s, a) && !a.OnEntry?
    ensures Accounts(After(cfg, s, a))
  {
    QuietStep(cfg, s, a);
    var s' := After(cfg, s, a);
    forall u | u in s'.threads
      ensures Account(s'.threads[u], AnswersOf(s'.answers, u))
    {
      if u in s.threads {
        assert ThreadOk(cfg, s, u);
        hide After, Enabled, AnswersOf, Account, PcFits, PointOk;
        if s'.threads[u] != s.threads[u] {
          QuietChangeAccount(s.threads[u], s'.threads[u], AnswersOf(s.answers, u));
        }
      }
    }
    hide After, Enabled, AnswersOf, Account;
  }

  lemma {:induction false} RunAccounts(cfg: Config, states: seq<State>, actions: seq<Action>, i: nat)
    requires IsRun(cfg, states, actions) && i < |states|
    ensures Accounts(states[i])
  {
    if i > 0 {
      RunAccounts(cfg, states, actions, i - 1);
      RunInv(cfg, states, actions, i - 1);
      var s, a := states[i - 1], actions[i - 1];
      hide Accounts, Inv, After, Enabled;
      match a {
        case OnEntry(t, fails) => EntryStepAccounts(cfg, s, t, fails);
        case _ => QuietStepAccounts(cfg, s, a);
      }
    }
  }

  // ----- Every call is answered -----

  // The answer at k is the only one given to thread t.
  ghost predicate OnlyAnswer(answers: seq<Answer>, t: nat, k: nat) {
    k < |answers| && forall j :: 0 <= j < |answers| ==> (answers[j].thread == t <==> j == k)
  }

  lemma {:induction false} NoAnswer(answers: seq<Answer>, t: nat)
    requires AnswersOf(answers, t) == []
    ensures forall j :: 0 <= j < |answers| ==> answers[j].thread != t
  {
    if answers != [] {
      NoAnswer(answers[..|answers| - 1], t);
    }
  }

  lemma {:induction false} OneAnswer(answers: seq<Answer>, t: nat) returns (k: nat)
    requires |AnswersOf(answers, t)| == 1
    ensures OnlyAnswer(answers, t, k) && answers[k] == AnswersOf(answers, t)[0]
  {
    k := |answers| - 1;
    var init, last := answers[..k], answers[k];
    assert AnswersOf(answers, t) == AnswersOf(init, t) + if last.thread == t then [last] else [];
    hide AnswersOf;
    if last.thread == t {
      NoAnswer(init, t);
    } else {
      k := OneAnswer(init, t);
    }
  }

  lemma StepFails(cfg: Config, s: State, a: Action, t: nat)
    requires Enabled(cfg, s, a) && a != OnEntry(t, true) && t in After(cfg, s, a).threads
    requires t in s.threads ==> Failed !in s.threads[t].runs
    ensures Failed !in After(cfg, s, a).threads[t].runs
  {
    hide PcFits, AnswersOf, CanMove, Collectable, Expired, ValidAt;
    match a {
      case OnEntry(u, fails) =>
      case _ =>
        QuietStep(cfg, s, a);
        hide After;
    }
  }

  ghost predicate NeverTold(actions: seq<Action>, i: nat, t: nat) {
    i <= |actions| && forall j :: 0 <= j < i ==> actions[j] != OnEntry(t, true)
  }

  // A failed query is in a call's history only if one of its steps was told to fail.
  lemma {:induction false} FailsOnlyWhenTold(cfg: Config, states: seq<State>, actions: seq<Action>, i: nat, t: nat)
    requires IsRun(cfg, states, actions) && NeverTold(actions, i, t) && t in states[i].threads
    ensures Failed !in states[i].threads[t].runs
  {
    if i > 0 {
      if t in states[i - 1].threads {
        FailsOnlyWhenTold(cfg, states, actions, i - 1, t);
      }
      assert actions[i - 1] != OnEntry(t, true);
      hide After, Enabled, NeverTold;
      StepFails(cfg, states[i - 1], actions[i - 1], t);
    }
  }

  // A call of Do is over: it is about to count itself out of the entry, or has returned.
  predicate Over(pc: Pc) {
    pc.Done? || (pc.At? && pc.point.Leaving?)
  }

  // Whatever the interleaving, a call of Do none of whose queries fail ends with exactly one answer; one that
  // stores a row ends with that row.
  lemma EveryDoIsAnswered(cfg: Config, states: seq<State>, actions: seq<Action>, i: nat, t: nat) returns (k: nat)
    requires IsRun(cfg, states, actions) && i < |states| && t in states[i].threads
    requires states[i].threads[t].op.ReadThrough? || states[i].threads[t].op.Store?
    requires Over(states[i].threads[t].pc) && NeverTold(actions, i, t)
    ensures OnlyAnswer(states[i].answers, t, k)
    ensures var a, th := states[i].answers[k], states[i].threads[t];
            && a.runs == th.runs && (!a.NotReady? ==> a.key == th.key)
            && (th.op.Store? ==> a.Fresh? && a.value == th.op.value && a.queriedAt == th.op.queriedAt)
  {
    RunAccounts(cfg, states, actions, i);
    FailsOnlyWhenTold(cfg, states, actions, i, t);
    assert Account(states[i].threads[t], AnswersOf(states[i].answers, t));
    k := OneAnswer(states[i].answers, t);
  }

  // ----- A miss under the write lock is looked up -----

  // The call has looked v up at time q, and answers with that.
  predicate LookedUp(th: Thread, mine: seq<Answer>, v: Value, q: nat) {
    && th.op.ReadThrough? && (th.pc.At? || th.pc.Done?)
    && if th.pc.At? && (th.pc.point.Queried? || th.pc.point.Filling?) then
         mine == [] && th.pc.point.value == v && th.pc.point.queriedAt == q
       else
         && |mine| == 1 && mine[0].Fresh? && mine[0].key == th.key && mine[0].value == v && mine[0].queriedAt == q
         && (th.pc.Done? || th.pc.point.WriteDone? || th.pc.point.Leaving?)
  }

  lemma MoveKeepsLookedUp(cfg: Config, now: nat, t: nat, th: Thread, e: nat, point: Point, entry: Entry, fails: bool,
                          mine: seq<Answer>, v: Value, q: nat)
    requires th.pc == At(e, point) && LookedUp(th, mine, v, q)
    ensures var o := Move(cfg, now, t, th, e, point, entry, fails);
            LookedUp(th.(pc := o.pc, runs := th.runs + o.ran), Given(mine, o.said), v, q)
  {
  }

  lemma StepKeepsLookedUp(cfg: Config, s: State, a: Action, t: nat, v: Value, q: nat)
    requires Enabled(cfg, s, a) && t in s.threads && LookedUp(s.threads[t], AnswersOf(s.answers, t), v, q)
    ensures var s' := After(cfg, s, a);
            t in s'.threads && LookedUp(s'.threads[t], AnswersOf(s'.answers, t), v, q)
  {
    match a {
      case OnEntry(u, fails) =>
        EntryStep(cfg, s, u, fails);
        if u == t {
          var th := s.threads[t];
          MoveKeepsLookedUp(cfg, s.now, t, th, th.pc.e, th.pc.point, s.entries[th.pc.e], fails,
              AnswersOf(s.answers, t), v, q);
        }
        hide Move, After, AnswersOf;
      case _ =>
        QuietStep(cfg, s, a);
        hide After, AnswersOf;
    }
  }

  // The step of a read-through call that finds no unexpired, filled entry under the write lock, and no failure.
  ghost predicate Misses(s: State, a: Action, t: nat) {
    && a == OnEntry(t, false) && t in s.threads && s.threads[t].op.ReadThrough?
    && s.threads[t].pc.At? && s.threads[t].pc.point == WriteLocked && s.threads[t].pc.e < |s.entries|
    && var entry := s.entries[s.threads[t].pc.e];
       s.now / 1_000_000_000 > entry.validAt || entry.result.None?
  }

  lemma MissLooksUp(cfg: Config, s: State, a: Action, t: nat)
    requires Inv(cfg, s) && Accounts(s) && Enabled(cfg, s, a) && Misses(s, a, t)
    ensures var s' := After(cfg, s, a);
            && t in s'.threads && s'.threads[t].key == s.threads[t].key
            && LookedUp(s'.threads[t], AnswersOf(s'.answers, t), cfg.lookup(s.threads[t].key, s.now), s.now)
  {
    EntryStep(cfg, s, t, false);
    assert Account(s.threads[t], AnswersOf(s.answers, t));
    hide After, AnswersOf;
  }

  lemma {:induction false} RunKeepsLookedUp(cfg: Config, states: seq<State>, actions: seq<Action>, j: nat, i: nat,
                                            t: nat)
    requires IsRun(cfg, states, actions) && j < i < |states| && Misses(states[j], actions[j], t)
    ensures var key, now := states[j].threads[t].key, states[j].now;
            && t in states[i].threads && states[i].threads[t].key == key
            && LookedUp(states[i].threads[t], AnswersOf(states[i].answers, t), cfg.lookup(key, now), now)
  {
    if j == i - 1 {
      RunInv(cfg, states, actions, j);
      RunAccounts(cfg, states, actions, j);
      MissLooksUp(cfg, states[j], actions[j], t);
    } else {
      RunKeepsLookedUp(cfg, states, actions, j, i - 1, t);
      var s := states[j];
      hide Misses, LookedUp, AnswersOf;
      StepKeepsLookedUp(cfg, states[i - 1], actions[i - 1], t, cfg.lookup(s.threads[t].key, s.now), s.now);
      KeyStays(cfg, states[i - 1], actions[i - 1], t);
    }
  }

  lemma KeyStays(cfg: Config, s: State, a: Action, t: nat)
    requires Enabled(cfg, s, a) && t in s.threads
    ensures t in After(cfg, s, a).threads && After(cfg, s, a).threads[t].key == s.threads[t].key
  {
    match a {
      case OnEntry(u, fails) =>
        EntryStep(cfg, s, u, fails);
        hide Move, CanMove, After, AnswersOf;
      case _ =>
        QuietStep(cfg, s, a);
        hide After, PcFits;
    }
  }

  // A read-through call that finds nothing usable under the write lock asks the database then and there, and what
  // the database says is its one answer.
  lemma MissAnswersLookup(cfg: Config, states: seq<State>, actions: seq<Action>, j: nat, i: nat, t: nat)
    returns (k: nat)
    requires IsRun(cfg, states, actions) && j < i < |states| && Misses(states[j], actions[j], t)
    requires t in states[i].threads ==> Over(states[i].threads[t].pc)
    ensures OnlyAnswer(states[i].answers, t, k)
    ensures var a, s := states[i].answers[k], states[j];
            && a.Fresh? && a.key == s.threads[t].key && a.queriedAt == s.now
            && a.value == cfg.lookup(s.threads[t].key, s.now)
  {
    RunKeepsLookedUp(cfg, states, actions, j, i, t);
    k := OneAnswer(states[i].answers, t);
  }

  // The first check decides: a read-through runs fn under the read lock exactly if the entry is not expired, and
  // gives the lock back otherwise.
  lemma FirstCheckDecides(cfg: Config, s: State, t: nat, fails: bool)
    requires Enabled(cfg, s, OnEntry(t, fails)) && s.threads[t].pc.point == ReadLocked
    ensures var s', th, e := After(cfg, s, OnEntry(t, fails)), s.threads[t], s.threads[t].pc.e;
            && s'.threads[t].runs == th.runs && s'.answers == s.answers
            && (s.now / 1_000_000_000 <= s.entries[e].validAt ==>
                  s'.threads[t].pc == At(e, ReadReady(s.now)) && s'.entries[e].readers == s.entries[e].readers)
            && (s.now / 1_000_000_000 > s.entries[e].validAt ==>
                  s'.threads[t].pc == At(e, WaitWrite) && t !in s'.entries[e].readers)
  {
    assert s.threads[t].runs + [] == s.threads[t].runs;
  }

  // A read-through call that finds the entry filled and not expired under the write lock answers with what it holds,
  // asks nothing and changes nothing.
  lemma UsableIsHit(cfg: Config, s: State, t: nat, fails: bool)
    requires Enabled(cfg, s, OnEntry(t, fails)) && s.threads[t].op.ReadThrough? && s.threads[t].pc.point == WriteLocked
    requires var entry := s.entries[s.threads[t].pc.e];
             s.now / 1_000_000_000 <= entry.validAt && entry.result.Some?
    ensures var s', th := After(cfg, s, OnEntry(t, fails)), s.threads[t];
            && s'.answers == s.answers
                             + [Hit(t, th.key, s.entries[th.pc.e].result.value, s.now, th.runs + [Full(true)])]
            && s'.entries == s.entries && s'.table == s.table && s'.threads[t].pc == At(th.pc.e, WriteDone)
  {
    assert s.entries[s.threads[t].pc.e := s.entries[s.threads[t].pc.e]] == s.entries;
  }

  // What has been queried is stored with its expiry, counted from the moment of storing, in that entry alone.
  lemma FillIsStored(cfg: Config, s: State, t: nat, fails: bool)
    requires Enabled(cfg, s, OnEntry(t, fails)) && s.threads[t].pc.point.Filling?
    ensures var s', e, v, q := After(cfg, s, OnEntry(t, fails)), s.threads[t].pc.e, s.threads[t].pc.point.value,
                               s.threads[t].pc.point.queriedAt;
            && |s'.entries| == |s.entries| && s'.table == s.table
            && s'.entries[e].result == Some(Fill(v, q, Some(s.now)))
            && s'.entries[e].validAt == (s.now + cfg.ttl(v)) / 1_000_000_000 % 4_294_967_296
            && forall d :: 0 <= d < |s.entries| && d != e ==> s'.entries[d] == s.entries[d]
  {
    assert SECOND == 1_000_000_000;
  }

  // ----- A DoRead that finds a filled, unexpired entry -----

  // The step of a DoRead that finds its entry filled and not expired.
  ghost predicate FindsFilled(s: State, a: Action, t: nat) {
    && a.OnEntry? && a.t == t && t in s.threads && s.threads[t].op.ReadOnly?
    && s.threads[t].pc.At? && s.threads[t].pc.point == Found && s.threads[t].pc.e < |s.entries|
    && var entry := s.entries[s.threads[t].pc.e];
       s.now / 1_000_000_000 <= entry.validAt && entry.result.Some?
  }

  predicate IsFilled(s: State, e: nat) {
    e < |s.entries| && s.entries[e].result.Some?
  }

  // The call is on its way to the entry, which stays filled, or has been given a hit.
  predicate Peeks(th: Thread, filled: bool, mine: seq<Answer>) {
    && th.op.ReadOnly? && (th.pc.At? || th.pc.Done?)
    && if th.pc.At? && !th.pc.point.Leaving? then
         filled && mine == [] && (th.pc.point.Checked? || th.pc.point.Pinned? || th.pc.point.Reading?)
       else
         |mine| == 1 && mine[0].Hit? && mine[0].key == th.key
  }

  predicate Peeking(s: State, t: nat, mine: seq<Answer>) {
    t in s.threads && Peeks(s.threads[t], s.threads[t].pc.At? && IsFilled(s, s.threads[t].pc.e), mine)
  }

  lemma StaysFilled(cfg: Config, s: State, a: Action, e: nat)
    requires Enabled(cfg, s, a) && IsFilled(s, e)
    ensures IsFilled(After(cfg, s, a), e)
  {
    hide CanMove, Collectable, Expired, ValidAt;
  }

  lemma MovePeeks(cfg: Config, now: nat, t: nat, th: Thread, e: nat, point: Point, entry: Entry, fails: bool,
                  mine: seq<Answer>)
    requires th.pc == At(e, point) && Peeks(th, entry.result.Some?, mine)
    ensures var o := Move(cfg, now, t, th, e, point, entry, fails);
            && Peeks(th.(pc := o.pc, runs := th.runs + o.ran), o.entry.result.Some?, Given(mine, o.said))
            && (o.pc.At? ==> o.pc.e == e)
  {
    hide Expired, ValidAt;
  }

  lemma OwnStepPeeks(cfg: Config, s: State, t: nat, fails: bool)
    requires Enabled(cfg, s, OnEntry(t, fails)) && Peeking(s, t, AnswersOf(s.answers, t))
    ensures var s' := After(cfg, s, OnEntry(t, fails));
            t in s'.threads && s'.threads[t].key == s.threads[t].key && Peeking(s', t, AnswersOf(s'.answers, t))
  {
    EntryStep(cfg, s, t, fails);
    var th := s.threads[t];
    var mine, entry := AnswersOf(s.answers, t), s.entries[th.pc.e];
    MovePeeks(cfg, s.now, t, th, th.pc.e, th.pc.point, entry, fails, mine);
    var o := Move(cfg, s.now, t, th, th.pc.e, th.pc.point, entry, fails);
    hide Move, CanMove, After, AnswersOf, Peeks;
    assert After(cfg, s, OnEntry(t, fails)).threads[t] == th.(pc := o.pc, runs := th.runs + o.ran);
  }

  // What others do leaves a thread on an entry alone.
  lemma OtherStep(cfg: Config, s: State, a: Action, t: nat)
    requires Enabled(cfg, s, a) && t in s.threads && (s.threads[t].pc.At? || s.threads[t].pc.Done?)
    requires a.OnEntry? ==> a.t != t
    ensures var s' := After(cfg, s, a);
            && t in s'.threads && s'.threads[t] == s.threads[t]
            && AnswersOf(s'.answers, t) == AnswersOf(s.answers, t)
  {
    match a {
      case OnEntry(u, fails) =>
        EntryStep(cfg, s, u, fails);
        hide Move, CanMove, After, AnswersOf;
      case _ =>
        QuietStep(cfg, s, a);
        hide After, AnswersOf;
    }
  }

  lemma StepKeepsPeeking(cfg: Config, s: State, a: Action, t: nat)
    requires Enabled(cfg, s, a) && t in s.threads && Peeking(s, t, AnswersOf(s.answers, t))
    ensures var s' := After(cfg, s, a);
            && t in s'.threads && s'.threads[t].key == s.threads[t].key
            && Peeking(s', t, AnswersOf(s'.answers, t))
  {
    if a.OnEntry? && a.t == t {
      OwnStepPeeks(cfg, s, t, a.fails);
    } else {
      OtherStep(cfg, s, a, t);
      if s.threads[t].pc.At? && !s.threads[t].pc.point.Leaving? {
        StaysFilled(cfg, s, a, s.threads[t].pc.e);
      }
      hide After, Enabled, AnswersOf, IsFilled;
    }
  }

  lemma FilledIsPeeked(cfg: Config, s: State, a: Action, t: nat)
    requires Accounts(s) && Enabled(cfg, s, a) && FindsFilled(s, a, t)
    ensures var s' := After(cfg, s, a);
            t in s'.threads && s'.threads[t].key == s.threads[t].key && Peeking(s', t, AnswersOf(s'.answers, t))
  {
    EntryStep(cfg, s, t, a.fails);
    assert Account(s.threads[t], AnswersOf(s.answers, t));
    hide After, AnswersOf;
  }

  lemma {:induction false} RunKeepsPeeking(cfg: Config, states: seq<State>, actions: seq<Action>, j: nat, i: nat,
                                           t: nat)
    requires IsRun(cfg, states, actions) && j < i < |states| && FindsFilled(states[j], actions[j], t)
    ensures t in states[i].threads && states[i].threads[t].key == states[j].threads[t].key
    ensures Peeking(states[i], t, AnswersOf(states[i].answers, t))
  {
    if j == i - 1 {
      RunAccounts(cfg, states, actions, j);
      FilledIsPeeked(cfg, states[j], actions[j], t);
    } else {
      RunKeepsPeeking(cfg, states, actions, j, i - 1, t);
      hide FindsFilled, Peeking, AnswersOf;
      StepKeepsPeeking(cfg, states[i - 1], actions[i - 1], t);
    }
  }

  // A DoRead that finds its entry filled and not expired is given that key's answer, though the entry may expire,
  // be filled again or be deleted from the table before fn runs.
  lemma FilledIsRead(cfg: Config, states: seq<State>, actions: seq<Action>, j: nat, i: nat, t: nat) returns (k: nat)
    requires IsRun(cfg, states, actions) && j < i < |states| && FindsFilled(states[j], actions[j], t)
    requires t in states[i].threads ==> Over(states[i].threads[t].pc)
    ensures OnlyAnswer(states[i].answers, t, k)
    ensures states[i].answers[k].Hit? && states[i].answers[k].key == states[j].threads[t].key
  {
    RunKeepsPeeking(cfg, states, actions, j, i, t);
    k := OneAnswer(states[i].answers, t);
  }

  // A DoRead that finds no entry, or an expired one, is over at once and never runs fn.
  lemma AbsentIsNotRead(cfg: Config, s: State, a: Action, t: nat)
    requires Enabled(cfg, s, a) && t in s.threads && s.threads[t].op.ReadOnly?
    requires (a == Find(t) && s.threads[t].key !in s.table)
          || (a.OnEntry? && a.t == t && s.threads[t].pc.point == Found
              && s.now / 1_000_000_000 > s.entries[s.threads[t].pc.e].validAt)
    ensures After(cfg, s, a) == s.(threads := s.threads[t := s.threads[t].(pc := Done)])
  {
    var th := s.threads[t];
    assert th.runs + [] == th.runs;
    if a.OnEntry? {
      assert s.entries[th.pc.e := s.entries[th.pc.e]] == s.entries;
    }
  }

  // ----- Who is inside an entry -----

  // Counted in: from entering the entry to leaving it.
  predicate Inside(th: Thread, e: nat) {
    th.pc.At? && th.pc.e == e && !th.pc.point.Found? && !th.pc.point.Checked?
  }

  ghost function Users(threads: map<nat, Thread>, e: nat): set<nat> {
    set t | t in threads && Inside(threads[t], e)
  }

  ghost predicate Counted(s: State) {
    forall e: nat :: e < |s.entries| ==> s.entries[e].inUse == |Users(s.threads, e)|
  }

  lemma UsersAfter(threads: map<nat, Thread>, t: nat, th: Thread, e: nat)
    ensures |Users(threads[t := th], e)| ==
            |Users(threads, e)| + (if Inside(th, e) then 1 else 0)
            - if t in threads && Inside(threads[t], e) then 1 else 0
  {
    hide Inside;
    var before, after := Users(threads, e), Users(threads[t := th], e);
    assert after == before - {t} + if Inside(th, e) then {t} else {};
  }

  lemma MoveCounts(cfg: Config, now: nat, t: nat, th: Thread, e: nat, point: Point, entry: Entry, fails: bool)
    requires th.pc == At(e, point)
    ensures var o := Move(cfg, now, t, th, e, point, entry, fails);
            var th' := th.(pc := o.pc, runs := th.runs + o.ran);
            && o.entry.inUse == entry.inUse + (if Inside(th', e) then 1 else 0) - (if Inside(th, e) then 1 else 0)
            && (o.pc.At? ==> o.pc.e == e)
  {
    hide Expired, ValidAt;
  }

  lemma EntryStepCounts(cfg: Config, s: State, t: nat, fails: bool)
    requires Counted(s) && Enabled(cfg, s, OnEntry(t, fails))
    ensures Counted(After(cfg, s, OnEntry(t, fails)))
  {
    var th := s.threads[t];
    var e := th.pc.e;
    MoveCounts(cfg, s.now, t, th, e, th.pc.point, s.entries[e], fails);
    EntryStep(cfg, s, t, fails);
    var s', o := After(cfg, s, OnEntry(t, fails)), Move(cfg, s.now, t, th, e, th.pc.point, s.entries[e], fails);
    var th' := th.(pc := o.pc, runs := th.runs + o.ran);
    hide After, Move, CanMove, AnswersOf, Users;
    forall d: nat | d < |s'.entries|
      ensures s'.entries[d].inUse == |Users(s'.threads, d)|
    {
      UsersAfter(s.threads, t, th', d);
    }
  }

  lemma CreateCounts(cfg: Config, s: State, t: nat)
    requires Inv(cfg, s) && Counted(s) && Enabled(cfg, s, Create(t))
    ensures Counted(After(cfg, s, Create(t)))
  {
    var s', n := After(cfg, s, Create(t)), |s.entries|;
    forall u | u in s.threads
      ensures !Inside(s.threads[u], n)
    {
      assert ThreadOk(cfg, s, u);
    }
    assert Users(s.threads, n) == {};
    assert s'.threads == s.threads[t := s'.threads[t]];
    hide Inv, Users;
    forall d: nat | d < |s'.entries|
      ensures s'.entries[d].inUse == |Users(s'.threads, d)|
    {
      UsersAfter(s.threads, t, s'.threads[t], d);
    }
  }

  lemma QuietStepCounts(cfg: Config, s: State, a: Action)
    requires Inv(cfg, s) && Counted(s) && Enabled(cfg, s, a) && !a.OnEntry?
    ensures Counted(After(cfg, s, a))
  {
    if a.Create? {
      CreateCounts(cfg, s, a.t);
    } else if !a.Tick? {
      var s' := After(cfg, s, a);
      assert s'.entries == s.entries && s'.threads == s.threads[a.t := s'.threads[a.t]];
      forall d: nat | d < |s'.entries|
        ensures s'.entries[d].inUse == |Users(s'.threads, d)|
      {
        UsersAfter(s.threads, a.t, s'.threads[a.t], d);
        assert !Inside(s'.threads[a.t], d);
      }
    }
  }

  // Over any interleaving an entry's counter is the number of threads inside it; in particular it is never negative,
  // and no thread is inside an entry whose counter is 0.
  lemma {:induction false} InUseCounts(cfg: Config, states: seq<State>, actions: seq<Action>, i: nat)
    requires IsRun(cfg, states, actions) && i < |states|
    ensures Counted(states[i])
  {
    if i > 0 {
      InUseCounts(cfg, states, actions, i - 1);
      RunInv(cfg, states, actions, i - 1);
      var s, a := states[i - 1], actions[i - 1];
      hide Counted, Inv, After, Enabled;
      match a {
        case OnEntry(t, fails) => EntryStepCounts(cfg, s, t, fails);
        case _ => QuietStepCounts(cfg, s, a);
      }
    }
  }

  // ----- What leaves the table -----

  // The step that picked the keys, and what it picked them for.
  ghost predicate Collected(states: seq<State>, actions: seq<Action>, j: nat, t: nat, keys: set<string>) {
    && j < |actions| && j < |states| && actions[j] == CollectExpired(t, keys)
    && forall k :: k in keys ==>
                     k in states[j].table && states[j].table[k] < |states[j].entries|
                     && states[j].entries[states[j].table[k]].inUse == 0
                     && states[j].now / 1_000_000_000 > states[j].entries[states[j].table[k]].validAt
  }

  lemma SweepingBegins(cfg: Config, s: State, a: Action, t: nat, keys: set<string>)
    requires Enabled(cfg, s, a) && t in After(cfg, s, a).threads && After(cfg, s, a).threads[t].pc == Sweeping(keys)
    ensures a == CollectExpired(t, keys) || (t in s.threads && s.threads[t].pc == Sweeping(keys))
  {
    hide Expired, ValidAt, CanMove, Collectable;
  }

  lemma {:induction false} SweepingWasCollected(cfg: Config, states: seq<State>, actions: seq<Action>, i: nat, t: nat,
                                                keys: set<string>) returns (j: nat)
    requires IsRun(cfg, states, actions) && i < |states| && t in states[i].threads
    requires states[i].threads[t].pc == Sweeping(keys)
    ensures j < i && Collected(states, actions, j, t, keys)
  {
    j := i - 1;
    assert Enabled(cfg, states[j], actions[j]);
    hide After, Enabled;
    SweepingBegins(cfg, states[j], actions[j], t, keys);
    if actions[j] == CollectExpired(t, keys) {
      PicksExpired(cfg, states[j], t, keys);
    } else {
      j := SweepingWasCollected(cfg, states, actions, j, t, keys);
    }
  }

  lemma PicksExpired(cfg: Config, s: State, t: nat, keys: set<string>)
    requires Enabled(cfg, s, CollectExpired(t, keys))
    ensures forall k :: k in keys ==>
                          k in s.table && s.table[k] < |s.entries| && s.entries[s.table[k]].inUse == 0
                          && s.now / 1_000_000_000 > s.entries[s.table[k]].validAt
  {
  }

  lemma OnlySweepsDelete(cfg: Config, s: State, a: Action, key: string)
    requires Enabled(cfg, s, a) && key in s.table && key !in After(cfg, s, a).table
    ensures a.DeleteKeys? && key in s.threads[a.t].pc.keys && |s.table| >= cfg.maxSize / 2
  {
    hide Move, CanMove, Collectable;
  }

  // A key leaves the table only while the shard is at least half full, and only if the sweep that deletes it had
  // seen its entry unused and expired.
  lemma DeletedWasExpired(cfg: Config, states: seq<State>, actions: seq<Action>, i: nat, key: string)
    returns (j: nat, keys: set<string>)
    requires IsRun(cfg, states, actions) && i < |actions| && key in states[i].table && key !in states[i + 1].table
    ensures actions[i].DeleteKeys? && |states[i].table| >= cfg.maxSize / 2
    ensures j < i && key in keys && Collected(states, actions, j, actions[i].t, keys)
  {
    assert Enabled(cfg, states[i], actions[i]);
    OnlySweepsDelete(cfg, states[i], actions[i], key);
    keys := states[i].threads[actions[i].t].pc.keys;
    hide After, Collected;
    j := SweepingWasCollected(cfg, states, actions, i, actions[i].t, keys);
  }

  // ----- A call takes a bounded number of its own steps -----

  function Rank(pc: Pc): nat {
    match pc
    case Looking => 14
    case Sweep => 13
    case Sweeping(_) => 12
    case Relooking => 11
    case Creating => 10
    case At(_, point) => RankAt(point)
    case Done => 0
  }

  function RankAt(point: Point): nat {
    match point
    case Found => 10
    case Entered => 9
    case ReadLocked => 8
    case ReadReady(_) => 7
    case WaitWrite => 6
    case WriteLocked => 5
    case Queried(_, _) => 4
    case Filling(_, _) => 3
    case WriteDone => 2
    case Leaving => 1
    case Checked(_) => 4
    case Pinned(_) => 3
    case Reading(_) => 2
  }

  predicate IsStepOf(a: Action, t: nat) {
    !a.Tick? && a.t == t
  }

  function StepsOf(actions: seq<Action>, t: nat): nat {
    if actions == [] then 0
    else StepsOf(actions[..|actions| - 1], t) + if IsStepOf(actions[|actions| - 1], t) then 1 else 0
  }

  lemma MoveLowersRank(cfg: Config, now: nat, t: nat, th: Thread, e: nat, point: Point, entry: Entry, fails: bool)
    ensures Rank(Move(cfg, now, t, th, e, point, entry, fails).pc) < RankAt(point)
  {
    hide Expired, ValidAt;
  }

  lemma StepLowersRank(cfg: Config, s: State, a: Action, t: nat)
    requires Enabled(cfg, s, a)
    ensures var s' := After(cfg, s, a);
            && (t in s.threads ==> t in s'.threads && Rank(s'.threads[t].pc) <= Rank(s.threads[t].pc))
            && (t in s.threads && IsStepOf(a, t) ==> Rank(s'.threads[t].pc) < Rank(s.threads[t].pc))
            && (t !in s.threads && t in s'.threads ==> IsStepOf(a, t) && Rank(s'.threads[t].pc) <= 14)
            && (t !in s'.threads ==> !IsStepOf(a, t))
  {
    if a.OnEntry? {
      var th := s.threads[a.t];
      MoveLowersRank(cfg, s.now, a.t, th, th.pc.e, th.pc.point, s.entries[th.pc.e], a.fails);
    }
    hide Move, CanMove, Collectable, RankAt;
  }

  // Whatever the others do, a call is over after at most fifteen steps of its own, and it moves whenever the lock it
  // waits for is free.
  lemma {:induction false} CallTakesFewSteps(cfg: Config, states: seq<State>, actions: seq<Action>, i: nat, t: nat)
    requires IsRun(cfg, states, actions) && i < |states|
    ensures StepsOf(actions[..i], t) <= 15
    ensures t in states[i].threads ==> StepsOf(actions[..i], t) + Rank(states[i].threads[t].pc) <= 15
    ensures t !in states[i].threads ==> StepsOf(actions[..i], t) == 0
  {
    if i > 0 {
      CallTakesFewSteps(cfg, states, actions, i - 1, t);
      assert actions[..i][..i - 1] == actions[..i - 1];
      hide After, Enabled, Rank;
      StepLowersRank(cfg, states[i - 1], actions[i - 1], t);
    }
  }

  // ----- Sample runs: a cold read-through, and a DoRead of a filled entry -----

  function Cold(entry: Entry, point: Point, runs: seq<FnRun>, answers: seq<Answer>): State {
    One(SECOND, entry, map[1 := Thread("k", ReadThrough, SECOND, At(0, point), runs)], answers)
  }

  lemma ColdCreates()
    ensures Reachable(SAMPLE, Cold(Owned(None, 0, None), Entered, [], []))
  {
    StartIsReachable(SAMPLE, SECOND);
    hide Reachable, Move;
    var s0 := Start(SECOND);
    OneMore(SAMPLE, s0, Begin(1, "k", ReadThrough));
    var s1 := After(SAMPLE, s0, Begin(1, "k", ReadThrough));
    OneMore(SAMPLE, s1, Find(1));
    var s2 := After(SAMPLE, s1, Find(1));
    OneMore(SAMPLE, s2, Create(1));
    assert After(SAMPLE, s2, Create(1)) == Cold(Owned(None, 0, None), Entered, [], []);
  }

  lemma ColdMisses()
    ensures Reachable(SAMPLE, Cold(Owned(None, 0, Some(1)), Queried(7, SECOND), [Full(false)], []))
  {
    ColdCreates();
    hide Reachable;
    var free, locked, q, ran := Owned(None, 0, None), Owned(None, 0, Some(1)), Queried(7, SECOND), [Full(false)];
    var read := free.(readers := {} + {1});
    assert read.(readers := read.readers - {1}) == free;
    var s0, s1 := Cold(free, Entered, [], []), Cold(read, ReadLocked, [], []);
    var s2, s3 := Cold(free, WaitWrite, [], []), Cold(locked, WriteLocked, [], []);
    MoveOn(SECOND, 1, Entered, s0, s1, Outcome(read, At(0, ReadLocked), None, []));
    MoveOn(SECOND, 1, ReadLocked, s1, s2, Outcome(free, At(0, WaitWrite), None, []));
    MoveOn(SECOND, 1, WaitWrite, s2, s3, Outcome(locked, At(0, WriteLocked), None, []));
    MoveOn(SECOND, 1, WriteLocked, s3, Cold(locked, q, ran, []), Outcome(locked, At(0, q), None, ran));
  }

  lemma ColdStores()
    ensures Reachable(SAMPLE, Cold(Owned(Some(FILL), 61, Some(1)), WriteDone, [Full(false)], [FILLED]))
  {
    ColdMisses();
    hide Reachable;
    var locked, half := Owned(None, 0, Some(1)), Owned(Some(Fill(7, SECOND, None)), 0, Some(1));
    var full, ran, q, w := Owned(Some(FILL), 61, Some(1)), [Full(false)], Queried(7, SECOND), Filling(7, SECOND);
    MoveOn(SECOND, 1, q, Cold(locked, q, ran, []), Cold(half, w, ran, []), Outcome(half, At(0, w), None, []));
    MoveOn(SECOND, 1, w, Cold(half, w, ran, []), Cold(full, WriteDone, ran, [FILLED]),
           Outcome(full, At(0, WriteDone), Some(FILLED), []));
  }

  // The first read-through of a key asks the database and answers with what it says.
  lemma ColdReadAnswers()
    ensures Reachable(SAMPLE, Cold(Owned(Some(FILL), 61, None), Leaving, [Full(false)], [FILLED]))
  {
    ColdStores();
    hide Reachable;
    var full, done, ran := Owned(Some(FILL), 61, Some(1)), Owned(Some(FILL), 61, None), [Full(false)];
    MoveOn(SECOND, 1, WriteDone, Cold(full, WriteDone, ran, [FILLED]), Cold(done, Leaving, ran, [FILLED]),
           Outcome(done, At(0, Leaving), None, []));
  }

  // Thread 2 peeks at what thread 1 has stored.
  function Peek2(entry: Entry, point: Point, runs: seq<FnRun>, answers: seq<Answer>): State {
    One(SECOND, entry, map[1 := Thread("k", Store(7, SECOND), SECOND, At(0, Leaving), [Full(false)]),
                           2 := Thread("k", ReadOnly, SECOND, At(0, point), runs)], answers)
  }

  lemma PeekFinds()
    ensures Reachable(SAMPLE, Peek2(Shared({}, None, 1), Found, [], [FILLED]))
  {
    SampleFills();
    hide Reachable;
    var s0 := Filling1(Owned(Some(FILL), 61, None), Leaving, [Full(false)], [FILLED]);
    OneMore(SAMPLE, s0, Begin(2, "k", ReadOnly));
    var s1 := After(SAMPLE, s0, Begin(2, "k", ReadOnly));
    OneMore(SAMPLE, s1, Find(2));
    assert After(SAMPLE, s1, Find(2)) == Peek2(Shared({}, None, 1), Found, [], [FILLED]);
  }

  lemma PeekLocks()
    ensures Reachable(SAMPLE, Peek2(Shared({2}, None, 2), Reading(SECOND), [], [FILLED]))
  {
    PeekFinds();
    hide Reachable;
    var one, two, held := Shared({}, None, 1), Shared({}, None, 2), Shared({} + {2}, None, 2);
    assert held == Shared({2}, None, 2);
    var s0, s1 := Peek2(one, Found, [], [FILLED]), Peek2(one, Checked(SECOND), [], [FILLED]);
    var s2, s3 := Peek2(two, Pinned(SECOND), [], [FILLED]), Peek2(held, Reading(SECOND), [], [FILLED]);
    MoveOn(SECOND, 2, Found, s0, s1, Outcome(one, At(0, Checked(SECOND)), None, []));
    MoveOn(SECOND, 2, Checked(SECOND), s1, s2, Outcome(two, At(0, Pinned(SECOND)), None, []));
    MoveOn(SECOND, 2, Pinned(SECOND), s2, s3, Outcome(held, At(0, Reading(SECOND)), None, []));
  }

  // A DoRead of a filled, unexpired entry is a hit.
  lemma PeekHits()
    ensures exists s :: Reachable(SAMPLE, s) && Hit(2, "k", FILL, SECOND, [Peek]) in s.answers
  {
    PeekLocks();
    hide Reachable;
    var none: seq<FnRun> := [];
    assert none + [Peek] == [Peek];
    var hit := Hit(2, "k", FILL, SECOND, none + [Peek]);
    var s3 := Peek2(Shared({2}, None, 2), Reading(SECOND), [], [FILLED]);
    var s4 := Peek2(Shared({2} - {2}, None, 2), Leaving, [Peek], [FILLED, hit]);
    MoveOn(SECOND, 2, Reading(SECOND), s3, s4, Outcome(s4.entries[0], At(0, Leaving), Some(hit), [Peek]));
    assert s4.answers[1] == hit;
  }
}