/** The green-thread scheduler: a table of slots searched cyclically for the next ready
    thread, tick delays, and an idle thread in slot 0. */
module GreenThreads {
  import opened Circular

  datatype State = Unused | Running | Ready | Blocked | Suspended

  datatype Slot = Slot(state: State, delay: int)

  /** cur is g_gtcur as an index into g_gttbl. */
  datatype Table = Table(slots: seq<Slot>, cur: int) {
    predicate Shape() { 0 <= cur < |slots| }
  }

  /** The three forms of the scheduler: the plain one, the do-while form, in which a
      cooperative yield also advances the timers, and the one that prefers every other
      thread to slot 0. */
  datatype Variant = Plain | DoWhile(cooperative: bool) | IdleLast

  const TIME_PERIOD: int := 10

  // --- the search --------------------------------------------------------------------------

  /** The first ready slot among left ones, from at on around the table. */
  function Scan(slots: seq<Slot>, at: int, left: nat): (p: int)
    requires 0 <= at < |slots|
    ensures p == -1 || (0 <= p < |slots| && slots[p].state == Ready)
    decreases left
  {
    if left == 0 then -1
    else if slots[at].state == Ready then at
    else Scan(slots, Advance(at, 1, |slots|), left - 1)
  }

  /** The slot that gt_yield switches to, or -1. */
  function Pick(t: Table, v: Variant): int
    requires t.Shape()
  {
    match v
    case Plain => Scan(t.slots, t.cur, |t.slots|)
    case DoWhile(_) => Scan(t.slots, Advance(t.cur, 1, |t.slots|), |t.slots| - 1)
    case IdleLast =>
      var p := Scan(t.slots, t.cur, |t.slots|);
      if p == 0 && |t.slots| > 1 && Scan(t.slots, 1, |t.slots| - 1) != -1 then Scan(t.slots, 1, |t.slots| - 1) else p
  }

  predicate Waits(s: Slot) { s.state == Blocked || s.state == Suspended }

  /** How many of the first k slots are blocked or suspended. */
  function Waiting(slots: seq<Slot>, k: nat): int
    requires k <= |slots|
  {
    if k == 0 then 0 else Waiting(slots, k - 1) + if Waits(slots[k - 1]) then 1 else 0
  }

  function Switch(t: Table, p: int): Table
    requires t.Shape() && 0 <= p < |t.slots|
  {
    var slots := if t.slots[t.cur].state == Running then t.slots[t.cur := t.slots[t.cur].(state := Ready)] else t.slots;
    Table(slots[p := slots[p].(state := Running)], p)
  }

  function TickSlot(s: Slot): Slot {
    if s.state == Blocked && s.delay > 0 then
      if s.delay - 1 <= 0 then Slot(Ready, 0) else Slot(Blocked, s.delay - 1)
    else s
  }

  /** gt_manage_timers */
  function TickAll(t: Table): Table {
    t.(slots := seq(|t.slots|, i requires 0 <= i < |t.slots| => TickSlot(t.slots[i])))
  }

  /** gt_yield: the table afterwards and the value returned. */
  function Yield(t: Table, v: Variant): (r: (Table, int))
    requires t.Shape()
    ensures r.0.Shape() && |r.0.slots| == |t.slots|
  {
    var u := if v == DoWhile(true) then TickAll(t) else t;
    var p := Pick(u, v);
    if p == -1 then (u, -Waiting(u.slots, |u.slots|)) else (Switch(u, p), 1)
  }

  /** Cyclic distance from slot i to slot j, the whole table if they are the same. */
  function Distance(i: int, j: int, n: int): int {
    if j > i then j - i else j - i + n
  }

  /** The search finds the nearest ready slot, and finds one if there is one. */
  lemma {:induction false} ScanNearest(slots: seq<Slot>, at: int, left: nat, j: int)
    requires 0 <= at < |slots| && 0 <= j < |slots| && slots[j].state == Ready && left <= |slots|
    requires j == at || Distance(at, j, |slots|) < left
    requires 0 < left
    ensures var p := Scan(slots, at, left);
            p != -1 && (p == at || (j != at && Distance(at, p, |slots|) <= Distance(at, j, |slots|)))
    decreases left
  {
    if slots[at].state != Ready {
      ScanNearest(slots, Advance(at, 1, |slots|), left - 1, j);
    }
  }

  predicate ReadyAt(t: Table, i: int) { 0 <= i < |t.slots| && t.slots[i].state == Ready }

  /** Distance in the order in which a variant serves the slots: the idle-last form leaves
      slot 0 out of the round. */
  function Turns(i: int, j: int, n: int, v: Variant): int {
    if v == IdleLast then (if j > i then j - i else j - i + n - 1) else Distance(i, j, n)
  }

  /** Some slot is picked exactly if one other than the current is ready, or the current
      itself where the search begins with it. */
  lemma PickFinds(t: Table, v: Variant)
    requires t.Shape()
    ensures Pick(t, v) == -1 <==> forall i :: ReadyAt(t, i) ==> i == t.cur && v.DoWhile?
    ensures Pick(t, v) != -1 ==> ReadyAt(t, Pick(t, v))
    ensures v.DoWhile? ==> Pick(t, v) != t.cur
  {
    forall i | ReadyAt(t, i) && !(i == t.cur && v.DoWhile?) ensures Pick(t, v) != -1 {
      if v.DoWhile? {
        ScanNearest(t.slots, Advance(t.cur, 1, |t.slots|), |t.slots| - 1, i);
      } else {
        ScanNearest(t.slots, t.cur, |t.slots|, i);
      }
    }
    if v.DoWhile? { ScanMisses(t.slots, Advance(t.cur, 1, |t.slots|), |t.slots| - 1); }
    assert Pick(t, v) != -1 ==> ReadyAt(t, Pick(t, v));
  }

  /** A search of fewer slots than the table has never comes back to the slot before its
      start. */
  lemma {:induction false} ScanMisses(slots: seq<Slot>, at: int, left: nat)
    requires 0 <= at < |slots| && left < |slots|
    ensures var p := Scan(slots, at, left); p == -1 || p == at || Distance(at, p, |slots|) < left
    decreases left
  {
    if left != 0 && slots[at].state != Ready {
      ScanMisses(slots, Advance(at, 1, |slots|), left - 1);
    }
  }

  /** The picked slot is the next one in turn: no ready slot other than the current one is
      nearer. In the idle-last form this is said of the slots from 1 on, and slot 0 is
      picked only if no other is ready. */
  lemma PickIsNext(t: Table, v: Variant, i: int)
    requires t.Shape() && i != t.cur && ReadyAt(t, i) && (v.DoWhile? || !ReadyAt(t, t.cur))
    ensures var p := Pick(t, v);
            && p != t.cur && ReadyAt(t, p)
            && (v == IdleLast && i != 0 ==> p != 0)
            && (v == IdleLast && i == 0 ==> p != 0 || forall j :: ReadyAt(t, j) ==> j == 0)
            && (v != IdleLast || i != 0 ==> p == i || Turns(t.cur, p, |t.slots|, v) < Turns(t.cur, i, |t.slots|, v))
  {
    PickFinds(t, v);
    var n := |t.slots|;
    match v
    case Plain => ScanNearest(t.slots, t.cur, n, i);
    case DoWhile(_) =>
      ScanNearest(t.slots, Advance(t.cur, 1, n), n - 1, i);
      ScanMisses(t.slots, Advance(t.cur, 1, n), n - 1);
    case IdleLast => IdleLastNext(t, i);
  }

  lemma IdleLastNext(t: Table, i: int)
    requires t.Shape() && !ReadyAt(t, t.cur) && ReadyAt(t, i)
    ensures var p := Pick(t, IdleLast);
            && p != t.cur && ReadyAt(t, p)
            && (i != 0 ==> p != 0)
            && (i != 0 ==> p == i || Turns(t.cur, p, |t.slots|, IdleLast) < Turns(t.cur, i, |t.slots|, IdleLast))
            && (i == 0 && p == 0 ==> forall j :: ReadyAt(t, j) ==> j == 0)
  {
    var n := |t.slots|;
    var first := Scan(t.slots, t.cur, n);
    ScanNearest(t.slots, t.cur, n, i);
    if n > 1 {
      forall j | ReadyAt(t, j) && j != 0 ensures Scan(t.slots, 1, n - 1) != -1 {
        ScanNearest(t.slots, 1, n - 1, j);
      }
      ScanMisses(t.slots, 1, n - 1);
      if i != 0 { ScanNearest(t.slots, 1, n - 1, i); }
    }
  }

  // --- the calls -----------------------------------------------------------------------------

  datatype Step =
    | YieldCall
    | Tick                       // the timer signal's gt_manage_timers
    | Go(memory: bool)           // gt_go; memory says whether a stack could be allocated
    | Stop
    | Delay(ms: int)
    | Suspend
    | Resume(id: int)

  function SetCur(t: Table, s: Slot): Table
    requires t.Shape()
  {
    t.(slots := t.slots[t.cur := s])
  }

  /** The first unused slot, or -1. */
  function FirstUnused(slots: seq<Slot>, from: nat): (p: int)
    requires from <= |slots|
    ensures p == -1 || (from <= p < |slots| && slots[p].state == Unused)
    ensures forall i :: from <= i < (if p == -1 then |slots| else p) ==> slots[i].state != Unused
    decreases |slots| - from
  {
    if from == |slots| then -1 else if slots[from].state == Unused then from else FirstUnused(slots, from + 1)
  }

  function DelayTicks(ms: int): int {
    if ms / TIME_PERIOD <= 0 then 1 else ms / TIME_PERIOD
  }

  function Apply(t: Table, v: Variant, step: Step): (r: Table)
    requires t.Shape()
    ensures r.Shape() && |r.slots| == |t.slots|
  {
    match step
    case YieldCall => Yield(t, v).0
    case Tick => TickAll(t)
    case Go(memory) =>
      var p := FirstUnused(t.slots, 0);
      if p == -1 || !memory then t else t.(slots := t.slots[p := Slot(Ready, 0)])
    case Stop => if t.cur == 0 then t else Yield(SetCur(t, t.slots[t.cur].(state := Unused)), v).0
    case Delay(ms) => if ms <= 0 then t else Yield(SetCur(t, Slot(Blocked, DelayTicks(ms))), v).0
    case Suspend => Yield(SetCur(t, t.slots[t.cur].(state := Suspended)), v).0
    case Resume(id) =>
      if 0 <= id < |t.slots| && t.slots[id].state == Suspended then
        t.(slots := t.slots[id := t.slots[id].(state := Ready)])
      else t
  }

  // --- what the calls do ----------------------------------------------------------------------

  /** A call of gt_manage_timers takes one tick from a blocked thread, which is ready after its
      last one, and leaves every other thread alone. */
  predicate Ticked(s: Slot, r: Slot) {
    if s.state != Blocked || s.delay <= 0 then r == s
    else if s.delay == 1 then r == Slot(Ready, 0)
    else r == Slot(Blocked, s.delay - 1)
  }

  lemma TimersExactly(t: Table)
    ensures TickAll(t).cur == t.cur && |TickAll(t).slots| == |t.slots|
    ensures forall i :: 0 <= i < |t.slots| ==> Ticked(t.slots[i], TickAll(t).slots[i])
  {
  }

  /** The thread can be switched to: it is ready, or gets ready by the tick of this yield. */
  predicate CanTake(t: Table, v: Variant, i: int) {
    ReadyAt(t, i) || (v == DoWhile(true) && 0 <= i < |t.slots| && t.slots[i].state == Blocked && t.slots[i].delay == 1)
  }

  /** A yield has someone to switch to; the do-while form never finds the current thread. */
  ghost predicate Takes(t: Table, v: Variant) {
    exists i :: CanTake(t, v, i) && (v.DoWhile? ==> i != t.cur)
  }

  /** The slot as the yield finds it. */
  predicate Timed(v: Variant, s: Slot, r: Slot) { if v == DoWhile(true) then Ticked(s, r) else r == s }

  ghost predicate TimedBut(t: Table, v: Variant, r: Table, i: int, j: int) {
    && |r.slots| == |t.slots|
    && forall k :: 0 <= k < |t.slots| && k != i && k != j ==> Timed(v, t.slots[k], r.slots[k])
  }

  /** What a yield leaves: either the next thread in turn is running, the one that ran is ready
      and all others are as the timers left them; or nobody can be switched to and nothing
      else happened. */
  ghost predicate Yielded(t: Table, v: Variant, r: Table)
    requires t.Shape()
  {
    if !Takes(t, v) then r.cur == t.cur && TimedBut(t, v, r, -1, -1)
    else
      && CanTake(t, v, r.cur) && TimedBut(t, v, r, t.cur, r.cur)
      && r.slots[r.cur] == Slot(Running, if ReadyAt(t, r.cur) then t.slots[r.cur].delay else 0)
      && (r.cur != t.cur ==>
            if t.slots[t.cur].state == Running then r.slots[t.cur] == t.slots[t.cur].(state := Ready)
            else Timed(v, t.slots[t.cur], r.slots[t.cur]))
      && (v.DoWhile? || !ReadyAt(t, t.cur) ==>
            r.cur != t.cur
            && (forall i :: CanTake(t, v, i) && i != t.cur && i != r.cur && (v == IdleLast ==> i != 0) ==>
                  Turns(t.cur, r.cur, |t.slots|, v) < Turns(t.cur, i, |t.slots|, v)))
      && (v == IdleLast && r.cur == 0 && !ReadyAt(t, t.cur) ==> forall i :: CanTake(t, v, i) ==> i == 0)
  }

  /** The slots whose threads wait for a tick or to be resumed. */
  function WaitingSlots(slots: seq<Slot>): set<int> { set i | 0 <= i < |slots| && Waits(slots[i]) }

  lemma {:induction false} WaitingCounts(slots: seq<Slot>, k: nat)
    requires k <= |slots|
    ensures Waiting(slots, k) == |set i | 0 <= i < k && Waits(slots[i])|
  {
    if k > 0 {
      WaitingCounts(slots, k - 1);
      var before, now := set i | 0 <= i < k - 1 && Waits(slots[i]), set i | 0 <= i < k && Waits(slots[i]);
      assert now == if Waits(slots[k - 1]) then before + {k - 1} else before;
    }
  }

  lemma SearchedTakes(t: Table, v: Variant)
    requires t.Shape()
    ensures var u := if v == DoWhile(true) then TickAll(t) else t;
            && (forall i :: ReadyAt(u, i) <==> CanTake(t, v, i))
            && (Pick(u, v) != -1 <==> Takes(t, v)) && (Pick(u, v) != -1 ==> CanTake(t, v, Pick(u, v)))
  {
    var u := if v == DoWhile(true) then TickAll(t) else t;
    PickFinds(u, v);
    assert forall i :: ReadyAt(u, i) <==> CanTake(t, v, i);
  }

  /** The slot that a yield switches to is the next in turn. */
  lemma TakesNext(t: Table, v: Variant, i: int)
    requires t.Shape() && Takes(t, v) && CanTake(t, v, i) && (v.DoWhile? || !ReadyAt(t, t.cur)) && i != t.cur
    ensures var p := Pick(if v == DoWhile(true) then TickAll(t) else t, v);
            && p != t.cur
            && (i != p && (v == IdleLast ==> i != 0) ==> Turns(t.cur, p, |t.slots|, v) < Turns(t.cur, i, |t.slots|, v))
            && (v == IdleLast && p == 0 ==> i == 0)
  {
    SearchedTakes(t, v);
    PickIsNext(if v == DoWhile(true) then TickAll(t) else t, v, i);
  }

  /** gt_yield switches to the next thread in turn exactly if there is one to switch to, and
      then returns 1; else it returns minus the number of threads that wait. */
  lemma YieldExactly(t: Table, v: Variant)
    requires t.Shape()
    ensures Yielded(t, v, Yield(t, v).0)
    ensures Yield(t, v).1 == if Takes(t, v) then 1 else -|WaitingSlots(Yield(t, v).0.slots)|
  {
    var u, r := if v == DoWhile(true) then TickAll(t) else t, Yield(t, v).0;
    SearchedTakes(t, v);
    WaitingCounts(u.slots, |u.slots|);
    if Takes(t, v) && (v.DoWhile? || !ReadyAt(t, t.cur)) {
      forall i | CanTake(t, v, i) && i != t.cur
        ensures r.cur != t.cur
        ensures i != r.cur && (v == IdleLast ==> i != 0) ==>
          Turns(t.cur, r.cur, |t.slots|, v) < Turns(t.cur, i, |t.slots|, v)
        ensures v == IdleLast && r.cur == 0 ==> i == 0
      {
        TakesNext(t, v, i);
      }
    }
  }

  /** gt_go makes the first unused slot ready, with no delay, exactly if there is one and there
      is memory for a stack; gt_resume makes a suspended thread ready; neither does anything
      else. */
  lemma GoExactly(t: Table, v: Variant, memory: bool)
    requires t.Shape()
    ensures var r := Apply(t, v, Go(memory));
            if !memory || (forall i :: 0 <= i < |t.slots| ==> t.slots[i].state != Unused) then r == t
            else exists p :: Started(t, r, p)
  {
    var p := FirstUnused(t.slots, 0);
    if memory && p != -1 { assert Started(t, Apply(t, v, Go(memory)), p); }
  }

  predicate Started(t: Table, r: Table, p: int) {
    && 0 <= p < |t.slots| && t.slots[p].state == Unused && (forall i :: 0 <= i < p ==> t.slots[i].state != Unused)
    && r.cur == t.cur && |r.slots| == |t.slots| && r.slots[p] == Slot(Ready, 0)
    && (forall i :: 0 <= i < |t.slots| && i != p ==> r.slots[i] == t.slots[i])
  }

  lemma ResumeExactly(t: Table, v: Variant, id: int)
    requires t.Shape()
    ensures var r := Apply(t, v, Resume(id));
            && r.cur == t.cur && |r.slots| == |t.slots|
            && (0 <= id < |t.slots| && t.slots[id].state == Suspended ==> ReadyAt(r, id))
            && (forall i :: 0 <= i < |t.slots| && (i != id || t.slots[i].state != Suspended) ==>
                  r.slots[i] == t.slots[i])
  {
  }

  /** The slot of a thread that gives up running: a delay is of whole ticks, at least one. */
  function GivenUp(s: Slot, step: Step): Slot {
    match step
    case Stop => Slot(Unused, s.delay)
    case Delay(ms) => Slot(Blocked, if ms < 2 * TIME_PERIOD then 1 else ms / TIME_PERIOD)
    case Suspend => Slot(State.Suspended, s.delay)
    case _ => s
  }

  /** A thread that stops, delays or suspends itself gives up its slot, blocks for its ticks or
      is suspended, and then yields. */
  lemma GivesUpExactly(t: Table, v: Variant, step: Step)
    requires t.Shape() && (step.Stop? || step.Delay? || step.Suspend?)
    ensures var r := Apply(t, v, step);
            if (step.Stop? && t.cur == 0) || (step.Delay? && step.ms <= 0) then r == t
            else Yielded(SetCur(t, GivenUp(t.slots[t.cur], step)), v, r)
  {
    YieldExactly(SetCur(t, GivenUp(t.slots[t.cur], step)), v);
  }

  /** Exactly the current slot runs; unless it is slot 0, slot 0 is ready; whoever is
      blocked has ticks left. */
  ghost predicate Inv(t: Table) {
    && t.Shape() && t.slots[t.cur].state == Running
    && (forall i :: 0 <= i < |t.slots| && i != t.cur ==> t.slots[i].state != Running)
    && (t.cur != 0 ==> t.slots[0].state == Ready)
    && (forall i :: 0 <= i < |t.slots| ==> (t.slots[i].state == Blocked ==> t.slots[i].delay > 0))
  }

  /** The idle thread only yields: it neither delays nor suspends itself. */
  ghost predicate Disciplined(t: Table, step: Step) {
    t.cur == 0 ==> !step.Suspend? && (step.Delay? ==> step.ms <= 0)
  }

  /** gt_init */
  function Init(n: nat): Table
    requires 0 < n
  {
    Table(seq(n, i => if i == 0 then Slot(Running, 0) else Slot(Unused, 0)), 0)
  }

  lemma InitInv(n: nat)
    requires 0 < n
    ensures Inv(Init(n))
  {
  }

  /** What a switch away from a thread that has already given up running needs. */
  lemma SwitchKeeps(t: Table, v: Variant)
    requires t.Shape() && (v == DoWhile(true) || t.slots[t.cur].state != Ready)
    requires forall i :: 0 <= i < |t.slots| && i != t.cur ==> t.slots[i].state != Running
    requires t.slots[t.cur].state == Running || (t.cur != 0 && t.slots[0].state == Ready)
    requires t.cur != 0 ==> t.slots[0].state == Ready
    requires forall i :: 0 <= i < |t.slots| ==> (t.slots[i].state == Blocked ==> t.slots[i].delay > 0)
    ensures Inv(Yield(t, v).0)
    ensures t.cur != 0 ==> Yield(t, v).1 == 1
  {
    var u := if v == DoWhile(true) then TickAll(t) else t;
    PickFinds(u, v);
    if t.cur != 0 { assert ReadyAt(u, 0); }
  }

  lemma TimersKeep(t: Table)
    requires Inv(t)
    ensures Inv(TickAll(t))
  {
  }

  /** Every call keeps the invariant, if the idle thread neither delays nor suspends itself. */
  lemma StepKeeps(t: Table, v: Variant, step: Step)
    requires Inv(t) && Disciplined(t, step)
    ensures Inv(Apply(t, v, step))
  {
    match step
    case YieldCall => SwitchKeeps(t, v);
    case Tick => TimersKeep(t);
    case Go(_) =>
    case Stop => if t.cur != 0 { SwitchKeeps(SetCur(t, t.slots[t.cur].(state := Unused)), v); }
    case Delay(ms) => if ms > 0 { SwitchKeeps(SetCur(t, Slot(Blocked, DelayTicks(ms))), v); }
    case Suspend => SwitchKeeps(SetCur(t, t.slots[t.cur].(state := Suspended)), v);
    case Resume(_) =>
  }

  /** gt_stop never gets to its assertion: the yield in it switches away for good. */
  lemma StopNeverReturns(t: Table, v: Variant)
    requires Inv(t) && t.cur != 0
    ensures Yield(SetCur(t, t.slots[t.cur].(state := Unused)), v).1 == 1
    ensures Apply(t, v, Stop).cur != t.cur && Apply(t, v, Stop).slots[t.cur].state == Unused
  {
    var u := SetCur(t, t.slots[t.cur].(state := Unused));
    SwitchKeeps(u, v);
    var w := if v == DoWhile(true) then TickAll(u) else u;
    PickFinds(w, v);
  }

  // --- the end of the scheduler loop ---------------------------------------------------------

  lemma {:induction false} WaitingNone(slots: seq<Slot>, k: nat)
    requires k <= |slots|
    ensures Waiting(slots, k) >= 0
    ensures Waiting(slots, k) == 0 <==> forall i :: 0 <= i < k ==> !Waits(slots[i])
  {
    if k > 0 { WaitingNone(slots, k - 1); }
  }

  /** gt_yield returns 0, which ends the scheduler loop, exactly if every other slot is
      unused; that happens only to the initial thread. */
  lemma SchedulerEnds(t: Table, v: Variant)
    requires Inv(t)
    ensures Yield(t, v).1 == 0 <==> forall i :: 0 <= i < |t.slots| && i != t.cur ==> t.slots[i].state == Unused
    ensures Yield(t, v).1 <= 0 ==> t.cur == 0
  {
    var u := if v == DoWhile(true) then TickAll(t) else t;
    SwitchKeeps(t, v);
    PickFinds(u, v);
    WaitingNone(u.slots, |u.slots|);
    assert forall i :: 0 <= i < |t.slots| && t.slots[i].state == Unused ==> u.slots[i].state == Unused;
    if forall i :: 0 <= i < |t.slots| && i != t.cur ==> t.slots[i].state == Unused {
      assert forall i :: 0 <= i < |t.slots| ==> u.slots[i].state == if i == t.cur then Running else Unused;
      assert forall i :: !ReadyAt(u, i);
    }
    if Pick(u, v) == -1 {
      forall i | 0 <= i < |u.slots| && i != t.cur && t.slots[i].state != Unused ensures Waits(u.slots[i]) {
        assert !ReadyAt(u, i);
      }
    }
  }

  /** The table a call searches, if the call searches at all. */
  function Searched(t: Table, v: Variant, step: Step): Table
    requires t.Shape()
  {
    var u := match step
      case Stop => SetCur(t, t.slots[t.cur].(state := Unused))
      case Delay(ms) => SetCur(t, Slot(Blocked, DelayTicks(ms)))
      case Suspend => SetCur(t, t.slots[t.cur].(state := Suspended))
      case _ => t;
    if v == DoWhile(true) then TickAll(u) else u
  }

  predicate Searches(t: Table, step: Step) {
    step.YieldCall? || step.Suspend? || (step.Stop? && t.cur != 0) || (step.Delay? && step.ms > 0)
  }

  /** A step that searches leaves the searched table, or switches in it; no other step
      changes the current slot. */
  lemma StepShape(t: Table, v: Variant, step: Step)
    requires t.Shape()
    ensures var u := Searched(t, v, step);
            && u.Shape() && u.cur == t.cur && |u.slots| == |t.slots|
            && (Searches(t, step) ==> Apply(t, v, step) == if Pick(u, v) == -1 then u else Switch(u, Pick(u, v)))
            && (!Searches(t, step) ==> Apply(t, v, step).cur == t.cur)
  {
  }

  /** There is another thread the call can hand the processor to: one that is ready, or,
      where the call advances the timers, one on its last tick. */
  ghost predicate HandsOver(t: Table, v: Variant) {
    exists i :: (ReadyAt(t, i) && i != t.cur) || LastTick(t, v, i)
  }

  predicate LastTick(t: Table, v: Variant, i: int) {
    v == DoWhile(true) && 0 <= i < |t.slots| && i != t.cur && t.slots[i].state == Blocked && t.slots[i].delay == 1
  }

  predicate HasRunner(t: Table) { t.Shape() && t.slots[t.cur].state == Running }

  /** A search after the current thread gave up the processor finds a slot exactly if there
      is one to hand over to. */
  lemma FindsExactly(t: Table, v: Variant, step: Step)
    requires Inv(t) && (step.Suspend? || (step.Delay? && step.ms > 0))
    ensures var u := Searched(t, v, step);
            Pick(u, v) != t.cur && (Pick(u, v) != -1 <==> HandsOver(t, v))
  {
    var u := Searched(t, v, step);
    PickFinds(u, v);
    forall i | 0 <= i < |t.slots| && i != t.cur
      ensures ReadyAt(u, i) <==> ReadyAt(t, i) || LastTick(t, v, i)
    {
    }
    if HandsOver(t, v) {
      var i :| (ReadyAt(t, i) && i != t.cur) || LastTick(t, v, i);
      PickIsNext(u, v, i);
    }
  }

  /** A thread that delays or suspends itself leaves a running current thread behind exactly
      if there is one to hand over to. */
  lemma RunsOnExactly(t: Table, v: Variant, step: Step)
    requires Inv(t) && (step.Suspend? || (step.Delay? && step.ms > 0))
    ensures HasRunner(Apply(t, v, step)) <==> HandsOver(t, v)
  {
    StepShape(t, v, step);
    FindsExactly(t, v, step);
    PickFinds(Searched(t, v, step), v);
  }

  /** When exactly a call keeps the invariant: the idle thread must not delay or suspend
      itself, except for a single tick that its own yield uses up. */
  lemma StepKeepsExactly(t: Table, v: Variant, step: Step)
    requires Inv(t)
    ensures Inv(Apply(t, v, step)) <==>
      Disciplined(t, step) || (v == DoWhile(true) && step.Delay? && DelayTicks(step.ms) == 1 && HandsOver(t, v))
  {
    if Disciplined(t, step) {
      StepKeeps(t, v, step);
    } else {
      RunsOnExactly(t, v, step);
      StepShape(t, v, step);
      FindsExactly(t, v, step);
    }
  }

  // --- runs ------------------------------------------------------------------------------------

  ghost predicate IsRun(ts: seq<Table>, steps: seq<Step>, v: Variant) {
    && |ts| == |steps| + 1 && Inv(ts[0])
    && forall k :: 0 <= k < |steps| ==> StepAt(ts, steps, v, k)
  }

  ghost predicate StepAt(ts: seq<Table>, steps: seq<Step>, v: Variant, k: nat)
    requires k < |steps| && k + 1 < |ts|
  {
    ts[k].Shape() && Disciplined(ts[k], steps[k]) && ts[k + 1] == Apply(ts[k], v, steps[k])
  }

  lemma {:induction false} RunKeeps(ts: seq<Table>, steps: seq<Step>, v: Variant, k: nat)
    requires IsRun(ts, steps, v) && k < |ts|
    ensures Inv(ts[k]) && |ts[k].slots| == |ts[0].slots|
  {
    if k > 0 {
      RunKeeps(ts, steps, v, k - 1);
      assert StepAt(ts, steps, v, k - 1);
      StepKeeps(ts[k - 1], v, steps[k - 1]);
    }
  }

  /** What holds after every call of a run: exactly the current slot is running, slot 0 is
      ready unless it runs, gt_stop would not come back, and the scheduler loop would end only
      with every other slot unused. */
  lemma AtEveryMoment(ts: seq<Table>, steps: seq<Step>, v: Variant, k: nat)
    requires IsRun(ts, steps, v) && k < |ts|
    ensures var t := ts[k];
            && t.Shape() && (forall i :: 0 <= i < |t.slots| ==> (t.slots[i].state == Running <==> i == t.cur))
            && (t.cur != 0 ==> ReadyAt(t, 0) && Yield(SetCur(t, t.slots[t.cur].(state := Unused)), v).1 == 1)
            && (Yield(t, v).1 == 0 <==> forall i :: 0 <= i < |t.slots| && i != t.cur ==> t.slots[i].state == Unused)
            && (Yield(t, v).1 == 0 ==> t.cur == 0)
  {
    RunKeeps(ts, steps, v, k);
    SchedulerEnds(ts[k], v);
    if ts[k].cur != 0 { StopNeverReturns(ts[k], v); }
  }

  /** How many of the first k steps gave the processor to another slot. */
  function Switches(ts: seq<Table>, k: nat): nat
    requires k < |ts|
  {
    if k == 0 then 0 else Switches(ts, k - 1) + if ts[k].cur != ts[k - 1].cur then 1 else 0
  }

  /** One step of waiting: a ready slot that is not picked stays ready, and every switch
      brings its turn nearer. */
  lemma TurnNearer(t: Table, v: Variant, step: Step, i: int)
    requires Inv(t) && Disciplined(t, step) && ReadyAt(t, i) && (v == IdleLast ==> i != 0)
    ensures var r := Apply(t, v, step);
            r.cur != i ==>
              && ReadyAt(r, i)
              && (r.cur == t.cur || Turns(r.cur, i, |t.slots|, v) < Turns(t.cur, i, |t.slots|, v))
  {
    StepShape(t, v, step);
    if Searches(t, step) {
      var u := Searched(t, v, step);
      assert u.slots[i] == t.slots[i];
      assert v.DoWhile? || !ReadyAt(u, u.cur);
      PickIsNext(u, v, i);
    }
  }

  /** Bounded waiting: from the moment a slot is ready, and until its turn comes, fewer
      switches happen than it had turns to wait, so it runs within one round of switches,
      whatever calls the others make. In the idle-last form this is said of every slot but 0. */
  lemma {:induction false} BoundedWaiting(ts: seq<Table>, steps: seq<Step>, v: Variant, i: int, from: nat, k: nat)
    requires IsRun(ts, steps, v) && from <= k < |ts| && ReadyAt(ts[from], i) && (v == IdleLast ==> i != 0)
    requires forall j :: from <= j <= k ==> ts[j].cur != i
    ensures ReadyAt(ts[k], i)
    ensures var n := |ts[0].slots|; var waited := Switches(ts, k) - Switches(ts, from);
            && waited + Turns(ts[k].cur, i, n, v) <= Turns(ts[from].cur, i, n, v)
            && waited < n - 1
  {
    RunKeeps(ts, steps, v, k);
    RunKeeps(ts, steps, v, from);
    if k > from {
      BoundedWaiting(ts, steps, v, i, from, k - 1);
      RunKeeps(ts, steps, v, k - 1);
      assert StepAt(ts, steps, v, k - 1);
      TurnNearer(ts[k - 1], v, steps[k - 1], i);
    }
  }

  /** One step of a suspension: only gt_resume of its number ends it. */
  lemma SuspendedStep(t: Table, v: Variant, step: Step, i: int)
    requires Inv(t) && Disciplined(t, step) && 0 <= i < |t.slots| && t.slots[i].state == State.Suspended
    ensures Apply(t, v, step).slots[i].state == if step == Resume(i) then Ready else State.Suspended
  {
    StepShape(t, v, step);
    if Searches(t, step) {
      var u := Searched(t, v, step);
      PickFinds(u, v);
      assert u.slots[i] == t.slots[i];
    }
  }

  /** A suspended thread stays suspended as long as nobody resumes it. */
  lemma {:induction false} StaysSuspended(ts: seq<Table>, steps: seq<Step>, v: Variant, i: int, from: nat, k: nat)
    requires IsRun(ts, steps, v) && from <= k < |ts|
    requires 0 <= i < |ts[from].slots| && ts[from].slots[i].state == State.Suspended
    requires Resume(i) !in steps[from..k]
    ensures i < |ts[k].slots| && ts[k].slots[i].state == State.Suspended
  {
    if k > from {
      assert steps[from..k] == steps[from..k - 1] + [steps[k - 1]];
      StaysSuspended(ts, steps, v, i, from, k - 1);
      RunKeeps(ts, steps, v, k - 1);
      assert StepAt(ts, steps, v, k - 1);
      SuspendedStep(ts[k - 1], v, steps[k - 1], i);
    }
  }

  /** A suspension ends with the first gt_resume of its number, and from then on fewer than
      N - 1 switches happen until the thread runs; in the idle-last form for every slot but 0. */
  lemma ResumedThenTurn(ts: seq<Table>, steps: seq<Step>, v: Variant, i: int, from: nat, at: nat, k: nat)
    requires IsRun(ts, steps, v) && from <= at < k < |ts|
    requires 0 <= i < |ts[from].slots| && ts[from].slots[i].state == State.Suspended
    requires Resume(i) !in steps[from..at] && steps[at] == Resume(i)
    requires (v == IdleLast ==> i != 0) && forall j :: at < j <= k ==> ts[j].cur != i
    ensures forall j :: from <= j <= at ==> i < |ts[j].slots| && ts[j].slots[i].state == State.Suspended
    ensures ReadyAt(ts[k], i) && Switches(ts, k) - Switches(ts, at + 1) < |ts[0].slots| - 1
  {
    forall j | from <= j <= at ensures i < |ts[j].slots| && ts[j].slots[i].state == State.Suspended {
      assert steps[from..j] <= steps[from..at];
      StaysSuspended(ts, steps, v, i, from, j);
    }
    RunKeeps(ts, steps, v, at);
    assert StepAt(ts, steps, v, at);
    SuspendedStep(ts[at], v, steps[at], i);
    BoundedWaiting(ts, steps, v, i, at + 1, k);
  }

  /** In the idle-last form the processor goes to slot 0 only when no slot is ready but the
      one that gave it up. */
  lemma IdleIsLast(t: Table, step: Step)
    requires Inv(t) && t.cur != 0 && Disciplined(t, step) && Apply(t, IdleLast, step).cur == 0
    ensures forall j :: ReadyAt(Apply(t, IdleLast, step), j) ==> j == t.cur
  {
    StepShape(t, IdleLast, step);
    var u := Searched(t, IdleLast, step);
    assert ReadyAt(u, 0);
    PickIsNext(u, IdleLast, 0);
    assert forall j :: ReadyAt(Apply(t, IdleLast, step), j) ==> j == t.cur || ReadyAt(u, j);
  }

  // --- delays ----------------------------------------------------------------------------------

  /** The step calls gt_manage_timers: the timer does, and in the cooperative do-while form
      every yield. */
  predicate Advances(t: Table, v: Variant, step: Step) {
    step.Tick? || (v == DoWhile(true) && Searches(t, step))
  }

  function TimerCalls(ts: seq<Table>, steps: seq<Step>, v: Variant, k: nat): nat
    requires k < |ts| && k <= |steps|
  {
    if k == 0 then 0 else TimerCalls(ts, steps, v, k - 1) + if Advances(ts[k - 1], v, steps[k - 1]) then 1 else 0
  }

  /** One step of a delay: only a timer call touches a blocked slot, and it takes one tick. */
  lemma DelayStep(t: Table, v: Variant, step: Step, i: int)
    requires Inv(t) && Disciplined(t, step) && 0 <= i < |t.slots| && t.slots[i].state == Blocked
    ensures var d := t.slots[i].delay - if Advances(t, v, step) then 1 else 0;
            var s := Apply(t, v, step).slots[i];
            if d > 0 then s == Slot(Blocked, d)
            else s.state == Ready || (s.state == Running && v == DoWhile(true) && Searches(t, step))
  {
    StepShape(t, v, step);
    if Searches(t, step) {
      var u := Searched(t, v, step);
      PickFinds(u, v);
      assert u.slots[i] == if v == DoWhile(true) then TickSlot(t.slots[i]) else t.slots[i];
    }
  }

  /** The call itself: the thread is blocked for its ticks, less the one that its own yield
      counts in the cooperative do-while form. */
  lemma DelayBegins(t: Table, v: Variant, ms: int)
    requires Inv(t) && t.cur != 0 && ms > 0
    ensures var d := DelayTicks(ms) - if v == DoWhile(true) then 1 else 0;
            Apply(t, v, Delay(ms)).slots[t.cur] == if d > 0 then Slot(Blocked, d) else Slot(Ready, 0)
  {
    var u := Searched(t, v, Delay(ms));
    assert ReadyAt(u, 0);
    PickIsNext(u, v, 0);
  }

  /** What the state of slot i says after calls of the timer calls of a delay of d ticks,
      before of which had happened one step earlier. */
  ghost predicate OnTime(t: Table, v: Variant, i: int, d: int, before: int, calls: int) {
    && 0 <= i < |t.slots|
    && (calls < d ==> t.slots[i] == Slot(Blocked, d - calls))
    && (before < d == calls ==> t.slots[i].state == Ready || (t.slots[i].state == Running && v == DoWhile(true)))
  }

  lemma StaysOnTime(t: Table, v: Variant, step: Step, i: int, d: int, before: int, calls: int)
    requires Inv(t) && Disciplined(t, step) && OnTime(t, v, i, d, before, calls)
    ensures OnTime(Apply(t, v, step), v, i, d, calls, calls + if Advances(t, v, step) then 1 else 0)
  {
    if calls < d { DelayStep(t, v, step, i); }
  }

  /** Exact delay: a thread that delays itself stays blocked until exactly the
      max(1, ms / TIME_PERIOD)-th call of gt_manage_timers, whatever other steps interleave;
      at that call it becomes ready, or is picked in the same step. */
  lemma {:induction false} ExactDelay(ts: seq<Table>, steps: seq<Step>, v: Variant, ms: int, k: nat)
    requires IsRun(ts, steps, v) && 0 < k < |ts| && steps[0] == Delay(ms) && ms > 0
    ensures OnTime(ts[k], v, ts[0].cur, DelayTicks(ms), TimerCalls(ts, steps, v, k - 1), TimerCalls(ts, steps, v, k))
    decreases k
  {
    assert StepAt(ts, steps, v, k - 1);
    if k == 1 {
      DelayBegins(ts[0], v, ms);
      assert TimerCalls(ts, steps, v, 0) == 0;
    } else {
      ExactDelay(ts, steps, v, ms, k - 1);
      RunKeeps(ts, steps, v, k - 1);
      StaysOnTime(ts[k - 1], v, steps[k - 1], ts[0].cur, DelayTicks(ms),
                  TimerCalls(ts, steps, v, k - 2), TimerCalls(ts, steps, v, k - 1));
    }
  }

  lemma {:induction false} TimerCallsGrow(ts: seq<Table>, steps: seq<Step>, v: Variant, j: nat, k: nat)
    requires j <= k < |ts| && k <= |steps|
    ensures TimerCalls(ts, steps, v, j) <= TimerCalls(ts, steps, v, k)
  {
    if j < k { TimerCallsGrow(ts, steps, v, j, k - 1); }
  }

  /** A delay and the wait after it: from the timer call that ends a delay on, fewer than N - 1
      switches happen until the thread runs, whatever calls the others make. */
  lemma DelayThenTurn(ts: seq<Table>, steps: seq<Step>, v: Variant, ms: int, from: nat, k: nat)
    requires IsRun(ts, steps, v) && steps != [] && steps[0] == Delay(ms) && ms > 0
    requires 0 < from <= k < |ts|
    requires TimerCalls(ts, steps, v, from - 1) < DelayTicks(ms) == TimerCalls(ts, steps, v, from)
    requires forall j :: from <= j <= k ==> ts[j].cur != ts[0].cur
    ensures forall j :: 0 < j < from ==>
      j < |ts| && ts[0].cur < |ts[j].slots| && ts[j].slots[ts[0].cur].state == Blocked
    ensures ReadyAt(ts[k], ts[0].cur)
    ensures Switches(ts, k) - Switches(ts, from) < |ts[0].slots| - 1
  {
    var i := ts[0].cur;
    assert StepAt(ts, steps, v, 0);
    forall j | 0 < j < from ensures i < |ts[j].slots| && ts[j].slots[i].state == Blocked {
      ExactDelay(ts, steps, v, ms, j);
      TimerCallsGrow(ts, steps, v, j, from - 1);
    }
    ExactDelay(ts, steps, v, ms, from);
    RunKeeps(ts, steps, v, from);
    BoundedWaiting(ts, steps, v, i, from, k);
  }

  // --- the table in place ------------------------------------------------------------------------

  /** Going once around the table from slot c visits what the two halves hold. */
  function Visited(slots: seq<Slot>, c: nat, p: nat, wrapped: bool): int
    requires c <= |slots| && p <= |slots|
  {
    if wrapped then Waiting(slots, |slots|) - Waiting(slots, c) + Waiting(slots, p)
    else Waiting(slots, p) - Waiting(slots, c)
  }

  lemma VisitedNext(slots: seq<Slot>, c: nat, p: nat, wrapped: bool)
    requires c < |slots| && p < |slots|
    ensures var q := Advance(p, 1, |slots|);
            Visited(slots, c, q, wrapped || q == 0)
            == Visited(slots, c, p, wrapped) + (if Waits(slots[p]) then 1 else 0)
               - (if q == 0 && wrapped then Waiting(slots, |slots|) else 0)
  {
    assert Waiting(slots, p + 1) == Waiting(slots, p) + if Waits(slots[p]) then 1 else 0;
    assert Waiting(slots, 0) == 0;
  }

  /** g_gttbl and g_gtcur, with the calls that change them. */
  class Scheduler {
    const variant: Variant
    const table: array<Slot>
    var cur: int

    ghost function View(): Table
      reads this, table
    {
      Table(table[..], cur)
    }

    ghost predicate Valid()
      reads this
    {
      0 <= cur < table.Length
    }

    /** gt_init */
    constructor (variant: Variant, n: nat)
      requires 0 < n
      ensures Valid() && fresh(table) && this.variant == variant
      ensures View() == Init(n)
    {
      this.variant := variant;
      var t := new Slot[n](i => Slot(Unused, 0));
      table := t;
      cur := 0;
      new;
      table[0] := Slot(Running, 0);
    }

    /** gt_manage_timers */
    method ManageTimers()
      requires Valid()
      modifies table
      ensures View() == TickAll(old(View()))
      ensures forall k :: 0 <= k < table.Length ==> Ticked(old(table[k]), table[k])
    {
      var i := 0;
      while i < table.Length
        invariant 0 <= i <= table.Length
        invariant forall k :: 0 <= k < table.Length ==>
          table[k] == if k < i then TickSlot(old(table[k])) else old(table[k])
      {
        if table[i].state == Blocked && table[i].delay > 0 {
          table[i] := Slot(Blocked, table[i].delay - 1);
          if table[i].delay <= 0 {
            table[i] := Slot(Ready, 0);
          }
        }
        i := i + 1;
      }
      assert View().slots == TickAll(old(View())).slots;
    }

    /** The search of the plain form: it tests the current slot first and gives up when it is
        back there. */
    method SearchFromCurrent() returns (p: int, waiting: int)
      requires Valid()
      ensures p == Scan(table[..], cur, table.Length)
      ensures p == -1 ==> waiting == Waiting(table[..], table.Length)
    {
      ghost var slots := table[..];
      ghost var left: nat := table.Length;
      ghost var wrapped := false;
      p := cur;
      waiting := 0;
      while table[p].state != Ready
        invariant 0 <= p < table.Length && 0 < left
        invariant left == if wrapped then cur - p else table.Length - (p - cur)
        invariant wrapped <==> p < cur
        invariant Scan(slots, cur, table.Length) == Scan(slots, p, left)
        invariant waiting == Visited(slots, cur, p, wrapped)
        decreases left
      {
        if Waits(table[p]) { waiting := waiting + 1; }
        VisitedNext(slots, cur, p, wrapped);
        p := p + 1;
        if p == table.Length { p := 0; wrapped := true; }
        left := left - 1;
        if p == cur {
          p := -1;
          return;
        }
      }
    }

    /** The search of the do-while form: it steps before it tests, so the current slot is
        never found. */
    method SearchAfterCurrent() returns (p: int, waiting: int)
      requires Valid()
      ensures p == Scan(table[..], Advance(cur, 1, table.Length), table.Length - 1)
      ensures p == -1 ==> waiting == Waiting(table[..], table.Length)
    {
      ghost var slots := table[..];
      ghost var left: nat := table.Length;
      ghost var wrapped := false;
      p := cur;
      waiting := 0;
      var found := false;
      while !found
        invariant 0 <= p < table.Length && 0 < left
        invariant left == if wrapped then cur - p else table.Length - (p - cur)
        invariant wrapped <==> p < cur
        invariant found ==> p != cur && table[p].state == Ready
        invariant found ==> Scan(slots, Advance(cur, 1, table.Length), table.Length - 1) == p
        invariant !found ==>
          Scan(slots, Advance(cur, 1, table.Length), table.Length - 1)
          == Scan(slots, Advance(p, 1, table.Length), left - 1)
        invariant !found ==> waiting == Visited(slots, cur, p, wrapped)
        decreases left, !found
      {
        if Waits(table[p]) { waiting := waiting + 1; }
        VisitedNext(slots, cur, p, wrapped);
        p := p + 1;
        if p == table.Length { p := 0; wrapped := true; }
        left := left - 1;
        if p == cur {
          p := -1;
          return;
        }
        found := table[p].state == Ready;
      }
    }

    /** The second loop of the idle-last form: the lowest ready slot but 0. */
    method ReadyNonidle() returns (p: int)
      requires Valid() && table.Length > 1
      ensures p == Scan(table[..], 1, table.Length - 1)
    {
      var i := 1;
      while i < table.Length
        invariant 1 <= i <= table.Length
        invariant Scan(table[..], 1, table.Length - 1) ==
          if i < table.Length then Scan(table[..], i, table.Length - i) else -1
      {
        if table[i].state == Ready { return i; }
        i := i + 1;
      }
      p := -1;
    }

    /** The search of the idle-last form. */
    method SearchIdleLast() returns (p: int, waiting: int)
      requires Valid()
      ensures p == Pick(View(), IdleLast)
      ensures p == -1 ==> waiting == Waiting(table[..], table.Length)
    {
      p, waiting := SearchFromCurrent();
      if p == 0 && table.Length > 1 {
        var other := ReadyNonidle();
        if other != -1 { p := other; }
      }
    }

    /** The search of the form at hand. */
    method Search() returns (p: int, waiting: int)
      requires Valid()
      ensures p == Pick(View(), variant)
      ensures p == -1 ==> waiting == Waiting(table[..], table.Length)
    {
      match variant {
        case Plain => p, waiting := SearchFromCurrent();
        case DoWhile(_) => p, waiting := SearchAfterCurrent();
        case IdleLast => p, waiting := SearchIdleLast();
      }
    }

    /** gt_yield */
    method YieldCall() returns (status: int)
      requires Valid()
      modifies this`cur, table
      ensures Valid()
      ensures (View(), status) == Yield(old(View()), variant)
      ensures Yielded(old(View()), variant, View())
      ensures status == if Takes(old(View()), variant) then 1 else -|WaitingSlots(table[..])|
    {
      YieldExactly(View(), variant);
      if variant == DoWhile(true) { ManageTimers(); }
      ghost var u := View();
      var p, waiting := Search();
      if p == -1 { return -waiting; }
      if table[cur].state == Running {
        table[cur] := table[cur].(state := Ready);
      }
      table[p] := table[p].(state := Running);
      cur := p;
      assert View().slots == Switch(u, p).slots;
      status := 1;
    }

    /** gt_go: the slot of the new thread, or -1 if there is none or no memory for a stack. */
    method Go(memory: bool) returns (id: int)
      requires Valid()
      modifies table
      ensures View() == Apply(old(View()), variant, Step.Go(memory))
      ensures id == if memory then FirstUnused(old(table[..]), 0) else -1
      ensures id == -1 <==> !memory || forall k :: 0 <= k < table.Length ==> old(table[k].state) != Unused
      ensures if id == -1 then View() == old(View()) else Started(old(View()), View(), id)
    {
      var i := 0;
      while i < table.Length && table[i].state != Unused
        invariant 0 <= i <= table.Length
        invariant FirstUnused(table[..], 0) == FirstUnused(table[..], i)
      {
        i := i + 1;
      }
      if i == table.Length || !memory { return -1; }
      table[i] := Slot(Ready, 0);
      id := i;
    }

    /** gt_stop: it comes back only in the initial thread, for which it does nothing. */
    method Stop() returns (status: int)
      requires Valid()
      modifies this`cur, table
      ensures Valid()
      ensures View() == Apply(old(View()), variant, Step.Stop)
      ensures old(cur) == 0 ==> View() == old(View())
      ensures old(cur) != 0 ==> Yielded(SetCur(old(View()), GivenUp(old(table[cur]), Step.Stop)), variant, View())
      ensures old(Inv(View())) ==> (status == 0 <==> old(cur) == 0)
    {
      status := 0;
      if cur != 0 {
        if Inv(View()) { StopNeverReturns(View(), variant); }
        table[cur] := table[cur].(state := Unused);
        assert View() == SetCur(old(View()), old(table[cur]).(state := Unused));
        status := YieldCall();
      }
    }

    /** gt_delay */
    method Delay(ms: int)
      requires Valid()
      modifies this`cur, table
      ensures Valid()
      ensures View() == Apply(old(View()), variant, Step.Delay(ms))
      ensures ms <= 0 ==> View() == old(View())
      ensures ms > 0 ==> Yielded(SetCur(old(View()), GivenUp(old(table[cur]), Step.Delay(ms))), variant, View())
    {
      if ms <= 0 { return; }
      var ticks := ms / TIME_PERIOD;
      if ticks <= 0 { ticks := 1; }
      table[cur] := Slot(Blocked, ticks);
      assert View() == SetCur(old(View()), Slot(Blocked, DelayTicks(ms)));
      var _ := YieldCall();
    }

    /** gt_suspend */
    method Suspend()
      requires Valid()
      modifies this`cur, table
      ensures Valid()
      ensures View() == Apply(old(View()), variant, Step.Suspend)
      ensures Yielded(SetCur(old(View()), GivenUp(old(table[cur]), Step.Suspend)), variant, View())
    {
      table[cur] := table[cur].(state := Suspended);
      assert View() == SetCur(old(View()), old(table[cur]).(state := Suspended));
      var _ := YieldCall();
    }

    /** gt_resume: the plain form does not check the number, so its caller must. */
    method Resume(id: int)
      requires Valid() && (variant == Plain ==> 0 <= id < table.Length)
      modifies table
      ensures View() == Apply(old(View()), variant, Step.Resume(id))
      ensures forall k :: 0 <= k < table.Length ==>
        if k == id && old(table[k].state) == State.Suspended then table[k].state == Ready
        else table[k] == old(table[k])
    {
      if variant != Plain && (id < 0 || id >= table.Length) { return; }
      if table[id].state == Suspended {
        table[id] := table[id].(state := Ready);
      }
    }
  }
}
