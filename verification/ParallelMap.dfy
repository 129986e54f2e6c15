/** ParallelMap as a transition system: a dispatcher on an unbuffered input channel, workers, a result channel
    buffered for every input, a wait group, two closes, and the collector. */
module ParallelMap {

  // What a worker goroutine is doing.
  datatype Worker<R> =
    | Idle                              // receiving on the input channel
    | Holding(index: nat)               // about to run fn on its input
    | Computed(at: nat, result: R)      // about to send its result
    | Exited                            // the input channel was closed: wg.Done

  datatype Sent<R> = Sent(index: nat, result: R)

  datatype State<R> = State(
    next: nat,                          // inputs handed out so far
    inputClosed: bool,
    workers: seq<Worker<R>>,
    channel: seq<Sent<R>>,              // the result channel
    resultClosed: bool,
    collected: set<nat>,
    results: seq<R>,
    returned: bool)

  // fn, with one context per worker.
  datatype Task<!T, R, !C> = Task(inputs: seq<T>, contexts: seq<C>, fn: (C, T) -> R, zero: R)
  {
    function N(): nat { |inputs| }

    function W(): nat { |contexts| }

    function Start(): State<R> {
      State(0, false, seq(W(), _ => Idle), [], false, {}, seq(N(), _ => zero), false)
    }
  }

  datatype Step =
    | HandOut(worker: nat)    // rendezvous of dispatcher and worker
    | CloseInput
    | Compute(worker: nat)
    | SendResult(worker: nat)
    | Exit(worker: nat)
    | CloseResult             // after wg.Wait
    | Collect
    | Return

  predicate AllExited<R>(workers: seq<Worker<R>>) {
    forall w :: 0 <= w < |workers| ==> workers[w].Exited?
  }

  // Whether the goroutine that takes the step can take it, as the channel operations allow.
  predicate Enabled<T, R, C>(t: Task<T, R, C>, s: State<R>, step: Step)
  {
    !s.returned &&
    match step
    case HandOut(w) => s.next < t.N() && !s.inputClosed && w < |s.workers| && s.workers[w].Idle?
    case CloseInput => s.next == t.N() && !s.inputClosed
    case Compute(w) => w < |s.workers| && s.workers[w].Holding? && s.workers[w].index < t.N() && w < t.W()
    case SendResult(w) => w < |s.workers| && s.workers[w].Computed? && |s.channel| < t.N()
    case Exit(w) => w < |s.workers| && s.workers[w].Idle? && s.inputClosed
    case CloseResult => AllExited(s.workers) && !s.resultClosed
    case Collect => |s.channel| > 0 && s.channel[0].index < |s.results|
    case Return => |s.channel| == 0 && s.resultClosed
  }

  function After<T, R, C>(t: Task<T, R, C>, s: State<R>, step: Step): State<R>
    requires Enabled(t, s, step)
  {
    match step
    case HandOut(w) => s.(next := s.next + 1, workers := s.workers[w := Holding(s.next)])
    case CloseInput => s.(inputClosed := true)
    case Compute(w) =>
      var i := s.workers[w].index;
      s.(workers := s.workers[w := Computed(i, t.fn(t.contexts[w], t.inputs[i]))])
    case SendResult(w) =>
      s.(workers := s.workers[w := Idle], channel := s.channel + [Sent(s.workers[w].at, s.workers[w].result)])
    case Exit(w) => s.(workers := s.workers[w := Exited])
    case CloseResult => s.(resultClosed := true)
    case Collect =>
      var r := s.channel[0];
      s.(channel := s.channel[1..], collected := s.collected + {r.index}, results := s.results[r.index := r.result])
    case Return => s.(returned := true)
  }

  // ----- Where the indices are -----

  function HoldsIndex<R>(w: Worker<R>, i: nat): nat {
    if (w.Holding? && w.index == i) || (w.Computed? && w.at == i) then 1 else 0
  }

  function HeldCount<R>(workers: seq<Worker<R>>, i: nat): nat {
    if |workers| == 0 then 0 else HoldsIndex(workers[0], i) + HeldCount(workers[1..], i)
  }

  function ChannelCount<R>(channel: seq<Sent<R>>, i: nat): nat {
    if |channel| == 0 then 0 else (if channel[0].index == i then 1 else 0) + ChannelCount(channel[1..], i)
  }

  // In how many places index i is: unsent, in a worker's hands, in the result channel, collected.
  function Places<T, R, C>(t: Task<T, R, C>, s: State<R>, i: nat): nat {
    (if s.next <= i < t.N() then 1 else 0) + HeldCount(s.workers, i) + ChannelCount(s.channel, i)
        + (if i in s.collected then 1 else 0)
  }

  ghost predicate Conserved<T, R, C>(t: Task<T, R, C>, s: State<R>) {
    s.next <= t.N() && forall i: nat :: Places(t, s, i) == if i < t.N() then 1 else 0
  }

  lemma {:induction false} HeldCountUpdate<R>(workers: seq<Worker<R>>, w: nat, to: Worker<R>, i: nat)
    requires w < |workers|
    ensures HeldCount(workers[w := to], i) + HoldsIndex(workers[w], i) == HeldCount(workers, i) + HoldsIndex(to, i)
  {
    if w == 0 {
      assert workers[0 := to][1..] == workers[1..];
    } else {
      HeldCountUpdate(workers[1..], w - 1, to, i);
      assert workers[w := to][1..] == workers[1..][w - 1 := to];
    }
  }

  lemma {:induction false} HeldCountAtLeast<R>(workers: seq<Worker<R>>, w: nat, i: nat)
    requires w < |workers|
    ensures HeldCount(workers, i) >= HoldsIndex(workers[w], i)
  {
    if w > 0 {
      HeldCountAtLeast(workers[1..], w - 1, i);
    }
  }

  lemma {:induction false} HeldCountNone<R>(workers: seq<Worker<R>>, i: nat)
    requires forall w :: 0 <= w < |workers| ==> HoldsIndex(workers[w], i) == 0
    ensures HeldCount(workers, i) == 0
  {
    if workers != [] {
      HeldCountNone(workers[1..], i);
    }
  }

  lemma {:induction false} ChannelAppend<R>(channel: seq<Sent<R>>, r: Sent<R>, i: nat)
    ensures ChannelCount(channel + [r], i) == ChannelCount(channel, i) + if r.index == i then 1 else 0
  {
    if channel == [] {
      assert channel + [r] == [r] && [r][1..] == [];
    } else {
      ChannelAppend(channel[1..], r, i);
      assert (channel + [r])[1..] == channel[1..] + [r];
    }
  }

  lemma {:induction false} ChannelContains<R>(channel: seq<Sent<R>>, k: nat)
    requires k < |channel|
    ensures ChannelCount(channel, channel[k].index) >= 1
  {
    if k > 0 {
      ChannelContains(channel[1..], k - 1);
    }
  }

  ghost function Indices<R>(channel: seq<Sent<R>>): set<nat> {
    set r | r in channel :: r.index
  }

  // A channel in which no index occurs twice is as long as its set of indices.
  lemma {:induction false} ChannelSize<R>(channel: seq<Sent<R>>)
    requires forall i: nat :: ChannelCount(channel, i) <= 1
    ensures |Indices(channel)| == |channel|
  {
    if channel != [] {
      var i, rest := channel[0].index, channel[1..];
      forall j: nat
        ensures ChannelCount(rest, j) <= 1
      {
        assert ChannelCount(channel, j) <= 1;
      }
      ChannelSize(rest);
      assert Indices(channel) == {i} + Indices(rest);
      assert ChannelCount(channel, i) <= 1;
      if i in Indices(rest) {
        var k :| 0 <= k < |rest| && rest[k].index == i;
        ChannelContains(rest, k);
        assert false;
      }
    }
  }

  lemma {:induction false} BelowSize(s: set<nat>, n: nat)
    requires forall i :: i in s ==> i < n
    ensures |s| <= n
  {
    if n > 0 {
      BelowSize(s - {n - 1}, n - 1);
    }
  }

  // ----- Invariant -----

  ghost predicate Right<T, R(!new), C>(t: Task<T, R, C>, i: nat, r: R) {
    i < t.N() && exists w :: 0 <= w < t.W() && r == t.fn(t.contexts[w], t.inputs[i])
  }

  // The closes happen in order.
  ghost predicate Ordered<T, R, C>(t: Task<T, R, C>, s: State<R>) {
    && |s.workers| == t.W() && |s.results| == t.N()
    && (s.inputClosed ==> s.next == t.N())
    && (s.resultClosed ==> AllExited(s.workers))
    && (forall w :: 0 <= w < |s.workers| && s.workers[w].Exited? ==> s.inputClosed)
    && (s.returned ==> s.resultClosed && s.channel == [])
  }

  // Every result anywhere is fn of the input it is labelled with.
  ghost predicate Labelled<T, R(!new), C>(t: Task<T, R, C>, s: State<R>) {
    && |s.results| == t.N()
    && (forall w :: 0 <= w < |s.workers| && s.workers[w].Computed? ==> Right(t, s.workers[w].at, s.workers[w].result))
    && (forall k :: 0 <= k < |s.channel| ==> Right(t, s.channel[k].index, s.channel[k].result))
    && (forall i :: i in s.collected ==> i < t.N() && Right(t, i, s.results[i]))
    && (forall i :: 0 <= i < t.N() && i !in s.collected ==> s.results[i] == t.zero)
  }

  ghost predicate Inv<T, R(!new), C>(t: Task<T, R, C>, s: State<R>) {
    Conserved(t, s) && Ordered(t, s) && Labelled(t, s)
  }

  lemma StartInv<T, R(!new), C>(t: Task<T, R, C>)
    ensures Inv(t, t.Start())
  {
    var s := t.Start();
    forall i: nat
      ensures Places(t, s, i) == if i < t.N() then 1 else 0
    {
      HeldCountNone(s.workers, i);
    }
  }

  // An index that some worker holds is a valid index, is not collected, and leaves room in the result channel.
  lemma HeldIndex<T, R, C>(t: Task<T, R, C>, s: State<R>, w: nat, i: nat)
    requires Conserved(t, s) && w < |s.workers| && HoldsIndex(s.workers[w], i) == 1
    ensures i < t.N() && i !in s.collected && |s.channel| < t.N()
  {
    HeldCountAtLeast(s.workers, w, i);
    assert Places(t, s, i) == 1;
    forall j: nat
      ensures ChannelCount(s.channel, j) <= 1
    {
      assert Places(t, s, j) <= 1;
    }
    ChannelSize(s.channel);
    forall j | j in Indices(s.channel)
      ensures j < t.N() && j != i
    {
      assert Places(t, s, j) == if j < t.N() then 1 else 0;
      var k :| 0 <= k < |s.channel| && s.channel[k].index == j;
      ChannelContains(s.channel, k);
    }
    BelowSize(Indices(s.channel) + {i}, t.N());
  }

  // A result in the channel is for a valid index that is not collected yet.
  lemma ChannelIndex<T, R, C>(t: Task<T, R, C>, s: State<R>, k: nat)
    requires Conserved(t, s) && k < |s.channel|
    ensures s.channel[k].index < t.N() && s.channel[k].index !in s.collected
  {
    ChannelContains(s.channel, k);
    assert Places(t, s, s.channel[k].index) <= 1;
  }

  // Every step moves at most one index, from one place to the next.
  lemma StepConserves<T, R, C>(t: Task<T, R, C>, s: State<R>, step: Step)
    requires Conserved(t, s) && Enabled(t, s, step)
    ensures Conserved(t, After(t, s, step))
  {
    var s' := After(t, s, step);
    if step.Collect? {
      ChannelIndex(t, s, 0);
    }
    forall i: nat
      ensures Places(t, s', i) == if i < t.N() then 1 else 0
    {
      assert Places(t, s, i) == if i < t.N() then 1 else 0;
      match step {
        case HandOut(w) => HeldCountUpdate(s.workers, w, s'.workers[w], i);
        case Compute(w) => HeldCountUpdate(s.workers, w, s'.workers[w], i);
        case SendResult(w) =>
          HeldCountUpdate(s.workers, w, s'.workers[w], i);
          ChannelAppend(s.channel, s'.channel[|s.channel|], i);
        case Exit(w) => HeldCountUpdate(s.workers, w, s'.workers[w], i);
        case _ =>
      }
    }
  }

  lemma StepOrdered<T, R, C>(t: Task<T, R, C>, s: State<R>, step: Step)
    requires Ordered(t, s) && Enabled(t, s, step)
    ensures Ordered(t, After(t, s, step))
  {
  }

  lemma StepLabelled<T, R(!new), C>(t: Task<T, R, C>, s: State<R>, step: Step)
    requires Labelled(t, s) && Enabled(t, s, step)
    ensures Labelled(t, After(t, s, step))
  {
    var s' := After(t, s, step);
    match step {
      case Collect => assert Right(t, s.channel[0].index, s.channel[0].result);
      case Compute(w) => assert Right(t, s'.workers[w].at, s'.workers[w].result);
      case _ =>
    }
  }

  lemma StepInv<T, R(!new), C>(t: Task<T, R, C>, s: State<R>, step: Step)
    requires Inv(t, s) && Enabled(t, s, step)
    ensures Inv(t, After(t, s, step))
  {
    StepConserves(t, s, step);
    StepOrdered(t, s, step);
    StepLabelled(t, s, step);
  }

  // ----- No step ever blocks for good -----

  // A computed result can always be sent at once: the buffer has room and is still open.
  lemma SendNeverBlocks<T, R(!new), C>(t: Task<T, R, C>, s: State<R>, w: nat)
    requires Inv(t, s) && !s.returned && w < |s.workers| && s.workers[w].Computed?
    ensures Enabled(t, s, SendResult(w)) && !s.resultClosed
  {
    HeldIndex(t, s, w, s.workers[w].at);
  }

  function FirstActive<R>(workers: seq<Worker<R>>): (w: nat)
    requires !AllExited(workers)
    ensures w < |workers| && !workers[w].Exited?
  {
    if !workers[0].Exited? then 0 else FirstActive(workers[1..]) + 1
  }

  // Until the call has returned, some goroutine can move.
  function SomeStep<T, R(!new), C>(t: Task<T, R, C>, s: State<R>): (step: Step)
    requires Inv(t, s) && !s.returned
    ensures Enabled(t, s, step)
  {
    if |s.channel| > 0 then
      ChannelIndex(t, s, 0);
      Collect
    else if s.resultClosed then Return
    else if AllExited(s.workers) then CloseResult
    else
      var w := FirstActive(s.workers);
      match s.workers[w]
      case Holding(i) => HeldIndex(t, s, w, i); Compute(w)
      case Computed(_, _) => SendNeverBlocks(t, s, w); SendResult(w)
      case Idle => if s.inputClosed then Exit(w) else if s.next < t.N() then HandOut(w) else CloseInput
  }

  // ----- Every step is progress -----

  function WorkLeft<R>(w: Worker<R>): nat {
    match w
    case Idle => 1
    case Holding(_) => 4
    case Computed(_, _) => 3
    case Exited => 0
  }

  function WorkersLeft<R>(workers: seq<Worker<R>>): nat {
    if |workers| == 0 then 0 else WorkLeft(workers[0]) + WorkersLeft(workers[1..])
  }

  function Measure<T, R, C>(t: Task<T, R, C>, s: State<R>): nat
    requires s.next <= t.N()
  {
    4 * (t.N() - s.next) + WorkersLeft(s.workers) + |s.channel|
    + (if s.inputClosed then 0 else 1) + (if s.resultClosed then 0 else 1) + (if s.returned then 0 else 1)
  }

  lemma {:induction false} WorkersLeftUpdate<R>(workers: seq<Worker<R>>, w: nat, to: Worker<R>)
    requires w < |workers|
    ensures WorkersLeft(workers[w := to]) + WorkLeft(workers[w]) == WorkersLeft(workers) + WorkLeft(to)
  {
    if w == 0 {
      assert workers[0 := to][1..] == workers[1..];
    } else {
      WorkersLeftUpdate(workers[1..], w - 1, to);
      assert workers[w := to][1..] == workers[1..][w - 1 := to];
    }
  }

  lemma StepIsProgress<T, R(!new), C>(t: Task<T, R, C>, s: State<R>, step: Step)
    requires s.next <= t.N() && Enabled(t, s, step)
    ensures After(t, s, step).next <= t.N()
    ensures Measure(t, After(t, s, step)) == Measure(t, s) - 1
  {
    var s' := After(t, s, step);
    match step {
      case HandOut(w) => WorkersLeftUpdate(s.workers, w, s'.workers[w]);
      case Compute(w) => WorkersLeftUpdate(s.workers, w, s'.workers[w]);
      case SendResult(w) => WorkersLeftUpdate(s.workers, w, s'.workers[w]);
      case Exit(w) => WorkersLeftUpdate(s.workers, w, s'.workers[w]);
      case _ =>
    }
  }

  lemma {:induction false} StartMeasure<R>(n: nat)
    ensures WorkersLeft(seq<Worker<R>>(n, _ => Idle)) == n
  {
    if n > 0 {
      StartMeasure<R>(n - 1);
      assert seq<Worker<R>>(n, _ => Idle)[1..] == seq<Worker<R>>(n - 1, _ => Idle);
    }
  }

  // ----- Runs -----

  ghost predicate IsRun<T, R, C>(t: Task<T, R, C>, states: seq<State<R>>, steps: seq<Step>) {
    && |states| == |steps| + 1
    && states[0] == t.Start()
    && forall i :: 0 <= i < |steps| ==>
        Enabled(t, states[i], steps[i]) && states[i + 1] == After(t, states[i], steps[i])
  }

  // After i steps of any run, exactly 4N + W + 3 - i remain.
  lemma {:induction false} RunInv<T, R(!new), C>(t: Task<T, R, C>, states: seq<State<R>>, steps: seq<Step>, i: nat)
    requires IsRun(t, states, steps) && i < |states|
    ensures Inv(t, states[i])
    ensures Measure(t, states[i]) == 4 * t.N() + t.W() + 3 - i
  {
    if i == 0 {
      StartInv(t);
      StartMeasure<R>(t.W());
    } else {
      RunInv(t, states, steps, i - 1);
      StepInv(t, states[i - 1], steps[i - 1]);
      StepIsProgress(t, states[i - 1], steps[i - 1]);
    }
  }

  lemma {:induction false} ExitedLeavesNothing<R>(workers: seq<Worker<R>>)
    requires AllExited(workers)
    ensures WorkersLeft(workers) == 0
  {
    if workers != [] {
      ExitedLeavesNothing(workers[1..]);
    }
  }

  // With a worker every complete run of N inputs on W workers has 4N + W + 3 steps. Without one, and with inputs,
  // it has two.
  lemma RunLength<T, R(!new), C>(t: Task<T, R, C>, states: seq<State<R>>, steps: seq<Step>)
    requires IsRun(t, states, steps) && states[|steps|].returned
    ensures t.W() > 0 ==> |steps| == 4 * t.N() + t.W() + 3
    ensures t.W() == 0 && t.N() > 0 ==> |steps| == 2
  {
    var end := states[|steps|];
    RunInv(t, states, steps, |steps|);
    ExitedLeavesNothing(end.workers);
    if t.W() > 0 {
      assert end.workers[0].Exited?;
    } else {
      NoWorkerNoResult(t, states, steps, |steps|);
    }
  }

  // In every reachable state each index is in exactly one place.
  lemma ExactlyOnePlace<T, R(!new), C>(t: Task<T, R, C>, states: seq<State<R>>, steps: seq<Step>, k: nat, i: nat)
    requires IsRun(t, states, steps) && k < |states| && i < t.N()
    ensures Places(t, states[k], i) == 1
  {
    RunInv(t, states, steps, k);
  }

  // No send on a closed channel: the input channel is closed only when nothing is left to hand out,
  // the result channel only when no worker has anything left to send.
  lemma NoSendOnClosed<T, R(!new), C>(t: Task<T, R, C>, states: seq<State<R>>, steps: seq<Step>, k: nat)
    requires IsRun(t, states, steps) && k < |states|
    ensures states[k].inputClosed ==> states[k].next == t.N()
    ensures states[k].resultClosed ==> forall w :: 0 <= w < |states[k].workers| ==>
              !Enabled(t, states[k], SendResult(w)) && !states[k].workers[w].Holding?
  {
    RunInv(t, states, steps, k);
  }

  lemma ReturnedCollectedAll<T, R(!new), C>(t: Task<T, R, C>, s: State<R>)
    requires Inv(t, s) && s.returned && t.W() > 0
    ensures forall i :: 0 <= i < t.N() ==> i in s.collected
  {
    assert s.workers[0].Exited?;
    forall i: nat | i < t.N()
      ensures i in s.collected
    {
      HeldCountNone(s.workers, i);
      assert Places(t, s, i) == 1;
    }
  }

  // With a worker, a run that returns has put fn of the i-th input at position i, for some worker's context.
  lemma ReturnedIsRight<T, R(!new), C>(t: Task<T, R, C>, states: seq<State<R>>, steps: seq<Step>, k: nat)
    requires IsRun(t, states, steps) && k < |states| && states[k].returned && t.W() > 0
    ensures |states[k].results| == t.N()
    ensures forall i :: 0 <= i < t.N() ==> Right(t, i, states[k].results[i])
  {
    RunInv(t, states, steps, k);
    ReturnedCollectedAll(t, states[k]);
  }

  // If fn does not depend on its context, every run returns the sequential map.
  lemma ReturnedIsMap<T(!new), R(!new), C(!new)>(t: Task<T, R, C>, states: seq<State<R>>, steps: seq<Step>,
                                                 k: nat, f: T -> R)
    requires IsRun(t, states, steps) && k < |states| && states[k].returned && t.W() > 0
    requires forall c: C, x: T :: t.fn(c, x) == f(x)
    ensures states[k].results == seq(t.N(), i requires 0 <= i < t.N() => f(t.inputs[i]))
  {
    ReturnedIsRight(t, states, steps, k);
    forall i | 0 <= i < t.N()
      ensures states[k].results[i] == f(t.inputs[i])
    {
      assert Right(t, i, states[k].results[i]);
    }
  }

  // Without a worker the call still returns, with nothing computed.
  lemma {:induction false} NoWorkerNoResult<T, R(!new), C>(t: Task<T, R, C>, states: seq<State<R>>,
                                                           steps: seq<Step>, k: nat)
    requires IsRun(t, states, steps) && k < |states| && t.W() == 0
    ensures states[k].next == 0 && states[k].collected == {} && states[k].channel == []
    ensures states[k].results == seq(t.N(), _ => t.zero)
  {
    if k > 0 {
      NoWorkerNoResult(t, states, steps, k - 1);
      RunInv(t, states, steps, k - 1);
    }
  }

  // ----- The whole function -----

  function Contexts<C>(factory: nat -> C, n: nat): seq<C> {
    seq(n, i requires 0 <= i < n => factory(i))
  }

  // r is fn of x in the context of some worker.
  ghost predicate SomeContext<T, R(!new), C>(fn: (C, T) -> R, factory: nat -> C, x: T, r: R) {
    exists w: nat :: r == fn(factory(w), x)
  }

  // ParallelMap under any scheduler: `schedule` proposes the next step, and where it proposes a blocked one
  // some other goroutine moves. `factory(i)` is the context of the i-th worker.
  method Run<T, R(!new), C>(inputs: seq<T>, workerNum: int, factory: nat -> C, fn: (C, T) -> R, zero: R,
                            schedule: nat -> Step)
    returns (results: seq<R>, ghost steps: seq<Step>)
    ensures |results| == |inputs|
    ensures |inputs| >= 2 && workerNum >= 1 ==>
              |steps| == 4 * |inputs| + (if workerNum < |inputs| then workerNum else |inputs|) + 3
    ensures |inputs| <= 1 || workerNum >= 1 ==>
              forall i :: 0 <= i < |inputs| ==> SomeContext(fn, factory, inputs[i], results[i])
    ensures |inputs| >= 2 && workerNum < 1 ==> forall i :: 0 <= i < |inputs| ==> results[i] == zero
  {
    if |inputs| == 0 {
      return [], [];
    }
    if |inputs| == 1 {
      return [fn(factory(0), inputs[0])], [];
    }
    var workers := if workerNum < |inputs| then workerNum else |inputs|;
    var t := Task(inputs, Contexts(factory, if workers < 0 then 0 else workers), fn, zero);
    var s := t.Start();
    steps := [];
    ghost var states := [s];
    StartInv(t);
    assert IsRun(t, states, steps);
    hide Inv, Enabled, After, IsRun, Measure;
    while !s.returned
      invariant |states| == |steps| + 1 && IsRun(t, states, steps) && states[|steps|] == s
      invariant Inv(t, s) && s.next <= t.N()
      decreases Measure(t, s)
    {
      var k := Measure(t, s);
      var step := if Enabled(t, s, schedule(k)) then schedule(k) else SomeStep(t, s);
      StepInv(t, s, step);
      StepIsProgress(t, s, step);
      Extended(t, states, steps, step);
      s := After(t, s, step);
      states, steps := states + [s], steps + [step];
    }
    results := s.results;
    RunResult(t, states, steps, factory);
    RunLength(t, states, steps);
  }

  lemma Extended<T, R, C>(t: Task<T, R, C>, states: seq<State<R>>, steps: seq<Step>, step: Step)
    requires IsRun(t, states, steps) && Enabled(t, states[|steps|], step)
    ensures IsRun(t, states + [After(t, states[|steps|], step)], steps + [step])
  {
    hide Enabled, After;
  }

  lemma RunResult<T, R(!new), C>(t: Task<T, R, C>, states: seq<State<R>>, steps: seq<Step>, factory: nat -> C)
    requires IsRun(t, states, steps) && states[|steps|].returned && t.contexts == Contexts(factory, t.W())
    ensures |states[|steps|].results| == t.N()
    ensures t.W() > 0 ==> forall i :: 0 <= i < t.N() ==>
                SomeContext(t.fn, factory, t.inputs[i], states[|steps|].results[i])
    ensures t.W() == 0 ==> forall i :: 0 <= i < t.N() ==> states[|steps|].results[i] == t.zero
  {
    if t.W() > 0 {
      ReturnedIsRight(t, states, steps, |steps|);
      forall i | 0 <= i < t.N()
        ensures SomeContext(t.fn, factory, t.inputs[i], states[|steps|].results[i])
      {
        assert Right(t, i, states[|steps|].results[i]);
        var w: nat :| w < t.W() && states[|steps|].results[i] == t.fn(t.contexts[w], t.inputs[i]);
        assert t.contexts[w] == factory(w);
      }
    } else {
      NoWorkerNoResult(t, states, steps, |steps|);
    }
  }
}
