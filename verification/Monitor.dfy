/** A producer and any number of consumers over a bounded queue guarded by one mutex and two
    condition variables, each push and each pop signalling once. The producer pushes
    1, 2, ..., items and then one pill (-1) for each consumer. Steps interleave at every
    lock, test, signal and unlock, and a waiting thread may also wake for no reason. */
module Monitor {
  import opened Basics
  import opened Rings
  import opened Sums

  datatype Config = Config(items: nat, consumers: nat, capacity: nat) {
    /** How many values the producer pushes in all. */
    function Total(): nat { items + consumers }
    /** The k-th of them. */
    function Value(k: int): int { if k < items then k + 1 else -1 }
  }

  /** Where a thread is in queue_push or queue_pop: it wants the mutex; has it and is about to
      test; has put or taken a value and is about to signal; is about to unlock; waits on its
      condition variable; has returned from its thread function. */
  datatype Pc = WantLock | Test | Signal | Unlock | Waiting | Done

  /** sum and v are the locals of consumer_fn. */
  datatype Consumer = Consumer(pc: Pc, sum: int, v: int)

  datatype Holder = Free | ByProducer | ByConsumer(c: int)

  datatype Take = Take(who: int, value: int)

  /** taken records every pop, in order: it is not in the program and no step reads it. */
  datatype State = State(queue: seq<int>, lock: Holder, producer: Pc, pushed: int,
                         consumers: seq<Consumer>, taken: seq<Take>)

  datatype Step =
    | ProducerLock
    | ProducerTest
    | ProducerSignal(woken: int)
    | ProducerUnlock
    | ConsumerLock(c: int)
    | ConsumerTest(c: int)
    | ConsumerSignal(c: int)
    | ConsumerUnlock(c: int)
    | ProducerWakes
    | ConsumerWakes(c: int)

  function Init(cfg: Config): State {
    State([], Free, if cfg.Total() == 0 then Done else WantLock, 0,
          seq(cfg.consumers, _ => Consumer(WantLock, 0, 0)), [])
  }

  predicate At(s: State, c: int, pc: Pc) { 0 <= c < |s.consumers| && s.consumers[c].pc == pc }

  ghost predicate SomeWaits(s: State) { exists c :: At(s, c, Waiting) }

  ghost predicate Enabled(s: State, step: Step) {
    match step
    case ProducerLock => s.producer == WantLock && s.lock == Free
    case ProducerTest => s.producer == Test
    case ProducerSignal(woken) => s.producer == Signal && if SomeWaits(s) then At(s, woken, Waiting) else woken == -1
    case ProducerUnlock => s.producer == Unlock
    case ConsumerLock(c) => At(s, c, WantLock) && s.lock == Free
    case ConsumerTest(c) => At(s, c, Test)
    case ConsumerSignal(c) => At(s, c, Signal)
    case ConsumerUnlock(c) => At(s, c, Unlock)
    case ProducerWakes => s.producer == Waiting
    case ConsumerWakes(c) => At(s, c, Waiting)
  }

  function Move(s: State, c: int, pc: Pc): State {
    if 0 <= c < |s.consumers| then s.(consumers := s.consumers[c := s.consumers[c].(pc := pc)]) else s
  }

  function Push(cfg: Config, s: State): State {
    if |s.queue| == cfg.capacity then s.(producer := Waiting, lock := Free)
    else s.(producer := Signal, queue := s.queue + [cfg.Value(s.pushed)], pushed := s.pushed + 1)
  }

  function Pop(s: State, c: int): State
    requires 0 <= c < |s.consumers|
  {
    if s.queue == [] then Move(s, c, Waiting).(lock := Free)
    else
      var v := s.queue[0];
      s.(consumers := s.consumers[c := s.consumers[c].(pc := Signal, v := v)],
         queue := s.queue[1..], taken := s.taken + [Take(c, v)])
  }

  /** After the unlock consumer_fn tests for the pill. */
  function Leave(k: Consumer): Consumer {
    if k.v == -1 then k.(pc := Done) else k.(pc := WantLock, sum := k.sum + k.v)
  }

  function Apply(cfg: Config, s: State, step: Step): State
    requires Enabled(s, step)
  {
    match step
    case ProducerLock => s.(producer := Test, lock := ByProducer)
    case ProducerTest => Push(cfg, s)
    case ProducerSignal(woken) => Move(s, woken, WantLock).(producer := Unlock)
    case ProducerUnlock => s.(lock := Free, producer := if s.pushed == cfg.Total() then Done else WantLock)
    case ConsumerLock(c) => Move(s, c, Test).(lock := ByConsumer(c))
    case ConsumerTest(c) => Pop(s, c)
    case ConsumerSignal(c) => Move(s, c, Unlock).(producer := if s.producer == Waiting then WantLock else s.producer)
    case ConsumerUnlock(c) => s.(lock := Free, consumers := s.consumers[c := Leave(s.consumers[c])])
    case ProducerWakes => s.(producer := WantLock)
    case ConsumerWakes(c) => Move(s, c, WantLock)
  }

  predicate Spurious(step: Step) { step.ProducerWakes? || step.ConsumerWakes? }

  // --- counting consumers ----------------------------------------------------------------

  function Awake(k: Consumer): int { if k.pc == WantLock || k.pc == Test then 1 else 0 }

  /** The consumer holds a value it has not yet looked at. */
  predicate Holding(k: Consumer) { k.pc == Signal || k.pc == Unlock }

  predicate HasPill(k: Consumer) { k.pc == Done || (Holding(k) && k.v == -1) }

  function Ended(k: Consumer): int { if HasPill(k) then 1 else 0 }

  /** What the consumer has taken in data, counted in its sum or not yet. */
  function Credit(k: Consumer): int { if Holding(k) && k.v != -1 then k.sum + k.v else k.sum }

  // --- the invariant -------------------------------------------------------------------------

  predicate Inside(pc: Pc) { pc == Test || pc == Signal || pc == Unlock }

  /** The holder of the mutex is the one thread between lock and unlock. */
  ghost predicate LockInv(s: State) {
    && (s.lock == ByProducer <==> Inside(s.producer))
    && (forall c :: 0 <= c < |s.consumers| ==> (s.lock == ByConsumer(c) <==> Inside(s.consumers[c].pc)))
    && (s.lock.ByConsumer? ==> 0 <= s.lock.c < |s.consumers|)
  }

  /** What was taken and what is queued is, in order, what was pushed. */
  ghost predicate OrderInv(cfg: Config, s: State) {
    && |s.queue| <= cfg.capacity
    && s.pushed == |s.taken| + |s.queue| <= cfg.Total()
    && (forall k :: 0 <= k < |s.taken| ==> s.taken[k].value == cfg.Value(k) && 0 <= s.taken[k].who < |s.consumers|)
    && (forall k :: 0 <= k < |s.queue| ==> s.queue[k] == cfg.Value(|s.taken| + k))
    && (s.producer == Done ==> s.pushed == cfg.Total())
    && (s.producer == WantLock || s.producer == Test || s.producer == Waiting ==> s.pushed < cfg.Total())
  }

  /** While a consumer waits, there are as many awake to serve the queue as it is long, or the
      producer is about to wake one; a waiting producer has a full queue before it, or a
      consumer about to wake it. */
  ghost predicate SignalInv(cfg: Config, s: State) {
    && (SomeWaits(s) ==> |s.queue| <= Sum(s.consumers, Awake) + if s.producer == Signal then 1 else 0)
    && (s.producer == Waiting ==> |s.queue| == cfg.capacity || exists c :: At(s, c, Signal))
  }

  function PillsTaken(cfg: Config, s: State): int { if |s.taken| <= cfg.items then 0 else |s.taken| - cfg.items }

  /** A consumer has ended for every pill taken, and together the consumers hold the sum of
      the data taken. */
  ghost predicate CountInv(cfg: Config, s: State) {
    && |s.consumers| == cfg.consumers
    && Sum(s.consumers, Ended) == PillsTaken(cfg, s)
    && var n := Least(|s.taken|, cfg.items); 2 * Sum(s.consumers, Credit) == n * (n + 1)
  }

  /** What consumer c took: how many pills, and the sum of the data. */
  function PillsOf(taken: seq<Take>, c: int): int {
    if taken == [] then 0
    else var t := taken[|taken| - 1]; PillsOf(taken[..|taken| - 1], c) + if t.who == c && t.value == -1 then 1 else 0
  }

  function DataOf(taken: seq<Take>, c: int): int {
    if taken == [] then 0
    else var t := taken[|taken| - 1];
      DataOf(taken[..|taken| - 1], c) + if t.who == c && t.value != -1 then t.value else 0
  }

  ghost predicate ConsumerInv(s: State) {
    forall c :: 0 <= c < |s.consumers| ==> Accounts(s.consumers[c], s.taken, c)
  }

  predicate Accounts(k: Consumer, taken: seq<Take>, c: int) {
    PillsOf(taken, c) == Ended(k) && DataOf(taken, c) == Credit(k)
  }

  ghost predicate Inv(cfg: Config, s: State) {
    LockInv(s) && OrderInv(cfg, s) && SignalInv(cfg, s) && CountInv(cfg, s) && ConsumerInv(s)
  }

  // --- every step keeps it -------------------------------------------------------------------

  lemma LockKeeps(cfg: Config, s: State, step: Step)
    requires LockInv(s) && Enabled(s, step)
    ensures LockInv(Apply(cfg, s, step))
  {
  }

  lemma OrderKeeps(cfg: Config, s: State, step: Step)
    requires OrderInv(cfg, s) && Enabled(s, step)
    ensures OrderInv(cfg, Apply(cfg, s, step))
  {
  }

  /** The one consumer a step changes. */
  function Actor(step: Step): int {
    match step
    case ProducerSignal(woken) => woken
    case ConsumerLock(c) => c
    case ConsumerTest(c) => c
    case ConsumerSignal(c) => c
    case ConsumerUnlock(c) => c
    case ConsumerWakes(c) => c
    case _ => -1
  }

  lemma ActorChanges(cfg: Config, s: State, step: Step, f: Consumer -> int)
    requires Enabled(s, step)
    ensures var c := Actor(step); var r := Apply(cfg, s, step).consumers;
            && |r| == |s.consumers|
            && (forall j :: 0 <= j < |r| && j != c ==> r[j] == s.consumers[j])
            && if 0 <= c < |r| then Sum(r, f) == Sum(s.consumers, f) - f(s.consumers[c]) + f(r[c]) else r == s.consumers
  {
    var c := Actor(step);
    var r := Apply(cfg, s, step).consumers;
    if 0 <= c < |r| {
      assert r == s.consumers[c := r[c]];
      SumUpdate(s.consumers, f, c, r[c]);
    }
  }

  lemma SignalKeeps(cfg: Config, s: State, step: Step)
    requires LockInv(s) && OrderInv(cfg, s) && SignalInv(cfg, s) && Enabled(s, step)
    ensures SignalInv(cfg, Apply(cfg, s, step))
  {
    var r := Apply(cfg, s, step);
    ActorChanges(cfg, s, step, Awake);
    SumBetween(r.consumers, Awake, 1);
    if SomeWaits(r) { WaitersKept(cfg, s, step); }
    if s.producer == Waiting && |s.queue| != cfg.capacity {
      var c :| At(s, c, Signal);
      assert r.producer == Waiting ==> At(r, c, Signal);
    }
    if step.ConsumerTest? && s.queue != [] { assert At(r, step.c, Signal); }
  }

  /** Only a consumer that finds the queue empty starts to wait. */
  lemma WaitersKept(cfg: Config, s: State, step: Step)
    requires Enabled(s, step) && SomeWaits(Apply(cfg, s, step))
    ensures SomeWaits(s) || (step.ConsumerTest? && s.queue == [])
  {
    var r := Apply(cfg, s, step);
    ActorChanges(cfg, s, step, Awake);
    var c :| At(r, c, Waiting);
    assert At(s, c, Waiting) || c == Actor(step);
  }

  predicate Pops(s: State, step: Step) { step.ConsumerTest? && s.queue != [] }

  /** Only a pop changes what a consumer has taken: one pill, or one value to its credit. */
  lemma ActorTakes(cfg: Config, s: State, step: Step)
    requires Enabled(s, step) && 0 <= Actor(step) < |s.consumers|
    ensures var k := s.consumers[Actor(step)]; var r := Apply(cfg, s, step);
            var n := r.consumers[Actor(step)];
            if Pops(s, step) then
              && r.taken == s.taken + [Take(step.c, s.queue[0])] && Ended(k) == 0
              && Ended(n) == (if s.queue[0] == -1 then 1 else 0)
              && Credit(n) == Credit(k) + if s.queue[0] == -1 then 0 else s.queue[0]
            else r.taken == s.taken && Ended(n) == Ended(k) && Credit(n) == Credit(k)
  {
  }

  lemma TriangleStep(n: int, total: int, v: int)
    requires 2 * total == n * (n + 1) && v == n + 1
    ensures 2 * (total + v) == v * (v + 1)
  {
  }

  lemma CountKeeps(cfg: Config, s: State, step: Step)
    requires OrderInv(cfg, s) && CountInv(cfg, s) && Enabled(s, step)
    ensures CountInv(cfg, Apply(cfg, s, step))
  {
    ActorChanges(cfg, s, step, Ended);
    ActorChanges(cfg, s, step, Credit);
    if 0 <= Actor(step) < |s.consumers| { ActorTakes(cfg, s, step); }
    if Pops(s, step) && |s.taken| < cfg.items {
      TriangleStep(|s.taken|, Sum(s.consumers, Credit), s.queue[0]);
    }
  }

  lemma ConsumerKeeps(cfg: Config, s: State, step: Step)
    requires ConsumerInv(s) && Enabled(s, step)
    ensures ConsumerInv(Apply(cfg, s, step))
  {
    var r := Apply(cfg, s, step);
    ActorChanges(cfg, s, step, Ended);
    if 0 <= Actor(step) < |s.consumers| { ActorTakes(cfg, s, step); }
    forall c | 0 <= c < |s.consumers| ensures Accounts(r.consumers[c], r.taken, c) {
      assert Accounts(s.consumers[c], s.taken, c);
      if Pops(s, step) { assert r.taken[..|r.taken| - 1] == s.taken; }
    }
  }

  lemma StepKeeps(cfg: Config, s: State, step: Step)
    requires Inv(cfg, s) && Enabled(s, step)
    ensures Inv(cfg, Apply(cfg, s, step))
  {
    LockKeeps(cfg, s, step);
    OrderKeeps(cfg, s, step);
    SignalKeeps(cfg, s, step);
    CountKeeps(cfg, s, step);
    ConsumerKeeps(cfg, s, step);
  }

  lemma InitInv(cfg: Config)
    requires cfg.capacity > 0
    ensures Inv(cfg, Init(cfg))
  {
    var s := Init(cfg);
    SumConstant(s.consumers, Ended, 0);
    SumConstant(s.consumers, Credit, 0);
  }

  // --- deadlock freedom ----------------------------------------------------------------------

  ghost predicate Finished(s: State) {
    s.producer == Done && forall c :: 0 <= c < |s.consumers| ==> s.consumers[c].pc == Done
  }

  /** Some step is possible that is not a wakeup for no reason. */
  ghost predicate CanMove(s: State) { exists step :: Enabled(s, step) && !Spurious(step) }

  lemma Moves(s: State, step: Step)
    requires Enabled(s, step) && !Spurious(step)
    ensures CanMove(s)
  {
  }

  /** Whoever holds the mutex can go on. */
  lemma HolderMoves(s: State)
    requires LockInv(s) && s.lock != Free
    ensures CanMove(s)
  {
    match s.lock {
      case ByProducer =>
        if s.producer == Test { Moves(s, ProducerTest); }
        else if s.producer == Unlock { Moves(s, ProducerUnlock); }
        else if SomeWaits(s) { var c :| At(s, c, Waiting); Moves(s, ProducerSignal(c)); }
        else { Moves(s, ProducerSignal(-1)); }
      case ByConsumer(c) =>
        if At(s, c, Test) { Moves(s, ConsumerTest(c)); }
        else if At(s, c, Signal) { Moves(s, ConsumerSignal(c)); }
        else { Moves(s, ConsumerUnlock(c)); }
    }
  }

  lemma WaiterNotEnded(s: State, c: int)
    requires At(s, c, Waiting)
    ensures Sum(s.consumers, Ended) < |s.consumers|
  {
    SumBetween(s.consumers, Ended, 1);
    assert Ended(s.consumers[c]) == 0;
  }

  /** If nobody has the mutex and nobody wants it, no consumer waits. */
  lemma NoneWaits(cfg: Config, s: State)
    requires Inv(cfg, s) && cfg.capacity > 0 && s.lock == Free && s.producer != WantLock
    requires forall c :: !At(s, c, WantLock)
    ensures !SomeWaits(s)
  {
    if SomeWaits(s) {
      var c :| At(s, c, Waiting);
      WaiterNotEnded(s, c);
      forall j | 0 <= j < |s.consumers| ensures Awake(s.consumers[j]) == 0 { assert !At(s, j, WantLock); }
      SumConstant(s.consumers, Awake, 0);
    }
  }

  /** Deadlock freedom with single signals: with a consumer, or room for all items, every
      unfinished state has a step that is not a wakeup for no reason. */
  lemma NeverDeadlocked(cfg: Config, s: State)
    requires Inv(cfg, s) && cfg.capacity > 0 && !Finished(s)
    requires cfg.consumers > 0 || cfg.items <= cfg.capacity
    ensures CanMove(s)
  {
    if s.lock != Free {
      HolderMoves(s);
    } else if s.producer == WantLock {
      Moves(s, ProducerLock);
    } else if c :| At(s, c, WantLock) {
      Moves(s, ConsumerLock(c));
    } else {
      NoneWaits(cfg, s);
      forall c | 0 <= c < |s.consumers| ensures s.consumers[c].pc == Done && Ended(s.consumers[c]) == 1 {
        assert !At(s, c, WantLock) && !At(s, c, Waiting);
      }
      SumConstant(s.consumers, Ended, 1);
    }
  }

  // --- every run ends ------------------------------------------------------------------------

  function Weight(pc: Pc): int {
    match pc
    case Done => 0
    case Waiting => 0
    case Test => 1
    case WantLock => 2
    case Unlock => 3
    case Signal => 6
  }

  function ConsumerWeight(k: Consumer): int { Weight(k.pc) }

  /** What is still to be done. */
  function Measure(cfg: Config, s: State): int {
    6 * (cfg.Total() - s.pushed) + 6 * (cfg.Total() - |s.taken|) + Weight(s.producer) + Sum(s.consumers, ConsumerWeight)
  }

  /** Every step but a wakeup for no reason leaves less to be done, and such a wakeup adds 2. */
  lemma MeasureStep(cfg: Config, s: State, step: Step)
    requires Enabled(s, step) && LockInv(s)
    ensures Measure(cfg, Apply(cfg, s, step)) <= Measure(cfg, s) + if Spurious(step) then 2 else -1
  {
    ActorChanges(cfg, s, step, ConsumerWeight);
  }

  lemma MeasureBound(cfg: Config, s: State)
    requires Inv(cfg, s)
    ensures 0 <= Measure(cfg, s)
    ensures Measure(cfg, Init(cfg)) <= 14 * cfg.Total() + 2
  {
    SumBetween(s.consumers, ConsumerWeight, 6);
    SumConstant(Init(cfg).consumers, ConsumerWeight, 2);
  }

  ghost predicate IsRun(cfg: Config, ss: seq<State>, steps: seq<Step>) {
    && |ss| == |steps| + 1 && ss[0] == Init(cfg)
    && forall k :: 0 <= k < |steps| ==> StepAt(cfg, ss, steps, k)
  }

  ghost predicate StepAt(cfg: Config, ss: seq<State>, steps: seq<Step>, k: nat)
    requires k < |steps| && k + 1 < |ss|
  {
    Enabled(ss[k], steps[k]) && ss[k + 1] == Apply(cfg, ss[k], steps[k])
  }

  function SpuriousIn(steps: seq<Step>, k: nat): nat
    requires k <= |steps|
  {
    if k == 0 then 0 else SpuriousIn(steps, k - 1) + if Spurious(steps[k - 1]) then 1 else 0
  }

  lemma {:induction false} RunKeeps(cfg: Config, ss: seq<State>, steps: seq<Step>, k: nat)
    requires IsRun(cfg, ss, steps) && k < |ss| && cfg.capacity > 0
    ensures Inv(cfg, ss[k])
    ensures Measure(cfg, ss[k]) + k <= Measure(cfg, Init(cfg)) + 3 * SpuriousIn(steps, k)
  {
    if k == 0 {
      InitInv(cfg);
    } else {
      RunKeeps(cfg, ss, steps, k - 1);
      assert StepAt(cfg, ss, steps, k - 1);
      StepKeeps(cfg, ss[k - 1], steps[k - 1]);
      MeasureStep(cfg, ss[k - 1], steps[k - 1]);
    }
  }

  /** The demonstration ends: a run has at most 14 steps for every value pushed, two more, and
      three for every wakeup for no reason; until it is finished it can go on. */
  lemma EveryRunEnds(cfg: Config, ss: seq<State>, steps: seq<Step>)
    requires IsRun(cfg, ss, steps) && cfg.capacity > 0 && cfg.consumers > 0
    ensures |steps| <= 14 * cfg.Total() + 2 + 3 * SpuriousIn(steps, |steps|)
    ensures Finished(ss[|steps|]) || CanMove(ss[|steps|])
  {
    RunKeeps(cfg, ss, steps, |steps|);
    MeasureBound(cfg, ss[|steps|]);
    if !Finished(ss[|steps|]) { NeverDeadlocked(cfg, ss[|steps|]); }
  }

  /** The condition on the configuration is exact: with no consumer and more items than room,
      the producer alone runs into a state in which nothing more can happen. */
  lemma DeadlockFreeExactly(cfg: Config)
    requires cfg.capacity > 0
    ensures (forall ss, steps :: IsRun(cfg, ss, steps) ==> Finished(ss[|steps|]) || CanMove(ss[|steps|]))
            <==> cfg.consumers > 0 || cfg.items <= cfg.capacity
  {
    if cfg.consumers > 0 || cfg.items <= cfg.capacity {
      forall ss, steps | IsRun(cfg, ss, steps) ensures Finished(ss[|steps|]) || CanMove(ss[|steps|]) {
        RunKeeps(cfg, ss, steps, |steps|);
        if !Finished(ss[|steps|]) { NeverDeadlocked(cfg, ss[|steps|]); }
      }
    } else {
      var ss, steps := FillRun(cfg, cfg.capacity);
      ss, steps := Extend(cfg, ss, steps, ProducerLock);
      ss, steps := Extend(cfg, ss, steps, ProducerTest);
      forall step | Enabled(ss[|steps|], step) ensures Spurious(step) {
        assert !SomeWaits(ss[|steps|]);
      }
    }
  }

  lemma Extend(cfg: Config, ss: seq<State>, steps: seq<Step>, step: Step) returns (tt: seq<State>, more: seq<Step>)
    requires IsRun(cfg, ss, steps) && Enabled(ss[|steps|], step)
    ensures IsRun(cfg, tt, more) && tt[|more|] == Apply(cfg, ss[|steps|], step)
  {
    tt, more := ss + [Apply(cfg, ss[|steps|], step)], steps + [step];
    forall k | 0 <= k < |more| ensures StepAt(cfg, tt, more, k) {
      if k < |steps| { assert StepAt(cfg, ss, steps, k); }
    }
  }

  /** Without consumers the producer gets as far as pushing k items. */
  lemma {:induction false} FillRun(cfg: Config, k: nat) returns (ss: seq<State>, steps: seq<Step>)
    requires cfg.consumers == 0 && k < cfg.items && k <= cfg.capacity
    ensures IsRun(cfg, ss, steps)
    ensures ss[|steps|] == State(seq(k, i => cfg.Value(i)), Free, WantLock, k, [], [])
  {
    if k == 0 {
      ss, steps := [Init(cfg)], [];
    } else {
      ss, steps := FillRun(cfg, k - 1);
      ss, steps := Extend(cfg, ss, steps, ProducerLock);
      ss, steps := Extend(cfg, ss, steps, ProducerTest);
      assert !SomeWaits(ss[|steps|]);
      ss, steps := Extend(cfg, ss, steps, ProducerSignal(-1));
      ss, steps := Extend(cfg, ss, steps, ProducerUnlock);
    }
  }

  // --- what a finished run has done ----------------------------------------------------------

  /** What demo_producer_consumer adds up from its joins. */
  function SumField(k: Consumer): int { k.sum }

  lemma FinishedState(cfg: Config, s: State)
    requires Inv(cfg, s) && Finished(s) && cfg.consumers > 0
    ensures s.queue == [] && |s.taken| == cfg.Total()
    ensures forall k :: 0 <= k < cfg.Total() ==> s.taken[k].value == if k < cfg.items then k + 1 else -1
    ensures forall c :: 0 <= c < cfg.consumers ==> PillsOf(s.taken, c) == 1 && DataOf(s.taken, c) == s.consumers[c].sum
    ensures 2 * Sum(s.consumers, SumField) == cfg.items * (cfg.items + 1)
  {
    SumConstant(s.consumers, Ended, 1);
    forall c | 0 <= c < cfg.consumers ensures PillsOf(s.taken, c) == 1 && DataOf(s.taken, c) == s.consumers[c].sum {
      assert Accounts(s.consumers[c], s.taken, c);
    }
    SumSame(s.consumers, Credit, SumField);
  }

  /** Pills are conserved on every run that finishes: the queue is empty, everything pushed was
      taken in order, data before pills, every consumer took exactly one pill, and its sum is
      that of its data; the sums total items (items + 1) / 2. */
  lemma AllConsumed(cfg: Config, ss: seq<State>, steps: seq<Step>)
    requires IsRun(cfg, ss, steps) && cfg.capacity > 0 && cfg.consumers > 0 && Finished(ss[|steps|])
    ensures var s := ss[|steps|];
            && s.queue == [] && |s.taken| == cfg.Total() && |s.consumers| == cfg.consumers
            && (forall k :: 0 <= k < cfg.Total() ==> s.taken[k].value == if k < cfg.items then k + 1 else -1)
            && (forall c :: 0 <= c < cfg.consumers ==>
                  PillsOf(s.taken, c) == 1 && DataOf(s.taken, c) == s.consumers[c].sum)
            && 2 * Sum(s.consumers, SumField) == cfg.items * (cfg.items + 1)
  {
    RunKeeps(cfg, ss, steps, |steps|);
    FinishedState(cfg, ss[|steps|]);
  }

  // --- the queue itself ------------------------------------------------------------------------

  /** struct queue, as the thread that holds the mutex changes it. */
  class SharedQueue {
    const ring: Ring<int>

    ghost predicate Shows(cfg: Config, s: State)
      reads ring, ring.data
    {
      ring.Valid() && ring.data.Length == cfg.capacity && ring.Contents() == s.queue
    }

    /** queue_init */
    constructor (cfg: Config)
      requires cfg.capacity > 0
      ensures Shows(cfg, Init(cfg)) && fresh(ring) && fresh(ring.data)
    {
      ring := new Ring(cfg.capacity, 0);
    }

    /** queue_push between the lock and the signal or the wait. */
    method TestAndPush(ghost cfg: Config, ghost s: State, v: int) returns (waits: bool)
      requires Shows(cfg, s) && OrderInv(cfg, s) && s.producer == Test && v == cfg.Value(s.pushed)
      modifies ring, ring.data
      ensures Shows(cfg, Apply(cfg, s, ProducerTest))
      ensures waits <==> Apply(cfg, s, ProducerTest).producer == Waiting
      ensures waits <==> old(|ring.Contents()|) == cfg.capacity
      ensures ring.Contents() == if waits then old(ring.Contents()) else old(ring.Contents()) + [v]
    {
      waits := ring.count == ring.data.Length;
      if !waits { ring.Store(v); }
    }

    /** queue_pop between the lock and the signal or the wait. */
    method TestAndPop(ghost cfg: Config, ghost s: State, ghost c: int) returns (waits: bool, v: int)
      requires Shows(cfg, s) && At(s, c, Test)
      modifies ring
      ensures Shows(cfg, Apply(cfg, s, ConsumerTest(c)))
      ensures waits <==> At(Apply(cfg, s, ConsumerTest(c)), c, Waiting)
      ensures !waits ==> Apply(cfg, s, ConsumerTest(c)).taken == s.taken + [Take(c, v)]
      ensures waits <==> old(ring.Contents()) == []
      ensures old(ring.Contents()) == if waits then ring.Contents() else [v] + ring.Contents()
    {
      waits, v := ring.count == 0, 0;
      if !waits {
        v := ring.Fetch();
        assert s.queue == [v] + ring.Contents();
      }
    }
  }
}
