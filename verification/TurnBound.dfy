/** The bound on the turns that a ready co-routine waits is the best one: for every number of
    co-routines there is a history in which one of them waits 2 m - 2 turns. Each of the others
    is picked and delays itself, which brings the cursor back; the tick that wakes them all puts
    them before the one that waits, and they are all picked again, each in a call of its own. */
module TurnBound {
  import opened Basics
  import opened CoRoutines
  import opened ListSpec

  /** A history to n co-routines of priority 0: line is their ready list, asleep are those
      delayed until tick 1, in order. */
  ghost predicate Layout(r: Run, g: Config, n: nat, line: Ring<int>, asleep: seq<int>, tick: nat, phase: Phase) {
    && IsRun(r, g) && PhaseOf(r) == phase && r.s.Sized() && |r.s.priority| == n
    && (forall i :: 0 <= i < n ==> r.s.priority[i] == 0 && r.s.event[i] == Nowhere)
    && r.s.top == 0 && r.s.tick == tick
    && ListAt(r.s.lists, Ready(0)) == line && ListAt(r.s.lists, r.s.delayed).items == asleep
    && forall i :: i in asleep ==> 0 <= i < n && r.s.value[i] == 1
  }

  ghost predicate Big(g: Config) { 0 < g.priorities && 1 <= g.maxTick }

  // --- single steps ------------------------------------------------------------------------

  /** Who is in line is ready, and nobody else. */
  lemma LineHeld(r: Run, g: Config, n: nat, line: Ring<int>, asleep: seq<int>, tick: nat, phase: Phase)
    requires Big(g) && Layout(r, g, n, line, asleep, tick, phase)
    ensures InvTick(r.s, g) && line.WellFormed()
    ensures forall i :: i in line.items <==> 0 <= i < n && r.s.generic[i] == Ready(0)
    ensures forall i :: i in asleep ==> i !in line.items && r.s.generic[i] == r.s.delayed
    ensures Distinct(asleep)
    ensures asleep == [] || asleep[0] in asleep
    ensures ListAt(r.s.eventLists, Pending).items == []
  {
    RunKeeps(r, g);
    assert Holds(r.s.lists[Ready(0)], r.s.generic, Ready(0));
    assert Holds(r.s.lists[r.s.delayed], r.s.generic, r.s.delayed);
    FirstIsMember(asleep);
    if r.s.eventLists[Pending].items != [] {
      var c := HeadOf(r.s.eventLists, r.s.event, Pending);
    }
  }

  lemma Begin(g: Config) returns (t: Run)
    requires Big(g)
    ensures Layout(t, g, 0, Ring([], 0), [], 0, Outside)
  {
    t := Start(Initialised(g, 0, 0));
    RunBegins(t.s, g);
  }

  lemma AddOne(r: Run, g: Config, n: nat, line: Ring<int>) returns (t: Run)
    requires Big(g) && Layout(r, g, n, line, [], 0, Outside)
    ensures Layout(t, g, n + 1, line.InsertEnd(n), [], 0, Outside)
  {
    LineHeld(r, g, n, line, [], 0, Outside);
    t := Then(r, Created(0), Admit(r.s, g, 0));
    RunGrows(r, t.s, g, Created(0));
  }

  /** A call begins and finds nobody on the pending list. */
  lemma CallBegins(r: Run, g: Config, n: nat, line: Ring<int>, asleep: seq<int>, tick: nat) returns (t: Run)
    requires Big(g) && Layout(r, g, n, line, asleep, tick, Outside)
    ensures Layout(t, g, n, line, asleep, tick, Clearing)
    ensures t.Then? && t.before == r && t.step.Called?
  {
    t := Then(r, Called, r.s);
    RunGrows(r, r.s, g, Called);
  }

  lemma NobodyPends(r: Run, g: Config, n: nat, line: Ring<int>, asleep: seq<int>, tick: nat) returns (t: Run)
    requires Big(g) && Layout(r, g, n, line, asleep, tick, Clearing)
    ensures Layout(t, g, n, line, asleep, tick, Waking)
    ensures t.Then? && t.before == r && t.step.Cleared?
  {
    LineHeld(r, g, n, line, asleep, tick, Clearing);
    t := Then(r, Cleared, r.s);
    RunGrows(r, r.s, g, Cleared);
  }

  lemma PickOne(r: Run, g: Config, n: nat, line: Ring<int>, asleep: seq<int>, tick: nat, c: nat) returns (t: Run)
    requires Big(g) && Layout(r, g, n, line, asleep, tick, Waking) && line.Advance().At(c)
    ensures Layout(t, g, n, line.Advance(), asleep, tick, Outside) && t.s.current == c
    ensures t.Then? && t.before == r && t.step == Picked(c)
  {
    LineHeld(r, g, n, line, asleep, tick, Waking);
    assert c in line.items;
    var s := r.s.(top := 0, current := c, lists := r.s.lists[Ready(0) := line.Advance()]);
    assert HighestReady(s, c);
    t := Then(r, Picked(c), s);
    RunGrows(r, s, g, Picked(c));
  }

  /** The delayed list after one more delay until tick 1. */
  lemma SleepList(r: Run, g: Config, n: nat, line: Ring<int>, asleep: seq<int>, c: nat)
    requires Big(g) && Layout(r, g, n, line, asleep, 0, Outside) && c in line.items && r.s.current == c < n
    ensures var s := AddToDelayed(r.s, g, 1, None);
            s.delayed == r.s.delayed && ListAt(s.lists, s.delayed).items == asleep + [c] && s.value == r.s.value[c := 1]
  {
    LineHeld(r, g, n, line, asleep, 0, Outside);
    assert forall i :: 0 <= i < |asleep| ==> asleep[i] in asleep;
    UpperBoundUnique(Keys(asleep, r.s.value), 1, |asleep|);
    assert Inserted(asleep, |asleep|, c) == asleep + [c];
  }

  lemma SleepOne(r: Run, g: Config, n: nat, line: Ring<int>, asleep: seq<int>, c: nat) returns (t: Run)
    requires Big(g) && Layout(r, g, n, line, asleep, 0, Outside) && c in line.items && r.s.current == c
    ensures Layout(t, g, n, line.Remove(c), asleep + [c], 0, Outside)
    ensures t.Then? && t.before == r && t.step.Delayed?
  {
    LineHeld(r, g, n, line, asleep, 0, Outside);
    SleepList(r, g, n, line, asleep, c);
    DelayOnList(r.s, g, 1, None, 0);
    t := Then(r, Delayed(1, None), AddToDelayed(r.s, g, 1, None));
    RunGrows(r, t.s, g, Delayed(1, None));
  }

  lemma TickOn(r: Run, g: Config, n: nat, line: Ring<int>, asleep: seq<int>) returns (t: Run)
    requires Big(g) && Layout(r, g, n, line, asleep, 0, Waking)
    ensures Layout(t, g, n, line, asleep, 1, Waking)
    ensures t.Then? && t.before == r && t.step == Ticked
  {
    LineHeld(r, g, n, line, asleep, 0, Waking);
    t := Then(r, Ticked, Tick(r.s, g));
    RunGrows(r, t.s, g, Ticked);
  }

  lemma WakeOne(r: Run, g: Config, n: nat, line: Ring<int>, asleep: seq<int>) returns (t: Run)
    requires Big(g) && Layout(r, g, n, line, asleep, 1, Waking) && asleep != []
    ensures Layout(t, g, n, line.InsertEnd(asleep[0]), asleep[1..], 1, Waking) && asleep[0] !in line.items
    ensures t.Then? && t.before == r && t.step.Expired?
  {
    LineHeld(r, g, n, line, asleep, 1, Waking);
    var c := asleep[0];
    t := Then(r, Expired(c), Expire(r.s, g, c));
    RunGrows(r, t.s, g, Expired(c));
    IndexUnique(asleep, 0);
    assert Removed(asleep, 0) == asleep[1..];
  }

  // --- counting turns ----------------------------------------------------------------------

  function Length(r: Run): nat {
    match r
    case Start(_) => 0
    case Then(before, _, _) => Length(before) + 1
  }

  lemma {:induction false} PrefixIsShorter(r: Run, q: Run, c: int, m: nat)
    requires Waits(r, q, c, m)
    ensures Length(q) <= Length(r)
  {
    if r != q { PrefixIsShorter(r.before, q, c, m); }
  }

  /** 0 has waited since q, and turns times another was picked. */
  ghost predicate Waited(r: Run, q: Run, m: nat, turns: int) {
    Waits(r, q, 0, m) && Turns(r, q, 0) == turns
  }

  /** One more step with 0 in line. */
  lemma WaitOn(t: Run, q: Run, g: Config, m: nat, line: Ring<int>, asleep: seq<int>, tick: nat, phase: Phase,
               turns: int)
    requires Big(g) && t.Then? && Waited(t.before, q, m, turns) && !(t.step.Picked? && t.step.c == 0)
    requires Layout(t, g, m, line, asleep, tick, phase) && 0 in line.items && |line.items| <= m
    ensures Waited(t, q, m, turns + if t.step.Picked? then 1 else 0)
  {
    PrefixIsShorter(t.before, q, 0, m);
    LineHeld(t, g, m, line, asleep, tick, phase);
  }

  /** 0 waits on while a call begins. */
  lemma EnterWaiting(r: Run, q: Run, g: Config, m: nat, line: Ring<int>, asleep: seq<int>, tick: nat, turns: int)
    returns (t: Run)
    requires Big(g) && Waited(r, q, m, turns) && Layout(r, g, m, line, asleep, tick, Outside)
    requires 0 in line.items && |line.items| <= m
    ensures Layout(t, g, m, line, asleep, tick, Waking) && Waited(t, q, m, turns)
  {
    t := CallBegins(r, g, m, line, asleep, tick);
    WaitOn(t, q, g, m, line, asleep, tick, Clearing, turns);
    t := NobodyPends(t, g, m, line, asleep, tick);
    WaitOn(t, q, g, m, line, asleep, tick, Waking, turns);
  }

  // --- the stages --------------------------------------------------------------------------

  /** a, ..., b - 1 */
  function Span(a: nat, b: nat): (s: seq<int>)
    requires a <= b
    ensures |s| == b - a && forall i :: 0 <= i < |s| ==> s[i] == a + i
  {
    seq(b - a, i => a + i)
  }

  /** 0 and k, ..., m - 1 in line, the cursor on 0. */
  function Left(k: nat, m: nat): Ring<int>
    requires 1 <= k <= m
  {
    Ring([0] + Span(k, m), 1)
  }

  lemma {:induction false} Build(g: Config, n: nat) returns (r: Run)
    requires Big(g)
    ensures Layout(r, g, n, Ring(UpFrom0(n), 0), [], 0, Outside)
  {
    if n == 0 {
      r := Begin(g);
    } else {
      r := Build(g, n - 1);
      r := AddOne(r, g, n - 1, Ring(UpFrom0(n - 1), 0));
      assert Inserted(UpFrom0(n - 1), n - 1, n - 1) == UpFrom0(n);
    }
  }

  /** k is picked and delays itself: the cursor goes to k and falls back onto 0; then the next
      call begins. */
  lemma PickAndSleep(r: Run, q: Run, g: Config, m: nat, k: nat) returns (t: Run)
    requires Big(g) && 1 <= k < m && Layout(r, g, m, Left(k, m), Span(1, k), 0, Waking) && Waited(r, q, m, k - 1)
    ensures Layout(t, g, m, Left(k + 1, m), Span(1, k + 1), 0, Waking) && Waited(t, q, m, k)
  {
    var line := Left(k, m);
    t := PickOne(r, g, m, line, Span(1, k), 0, k);
    WaitOn(t, q, g, m, line.Advance(), Span(1, k), 0, Outside, k - 1);
    LineHeld(t, g, m, line.Advance(), Span(1, k), 0, Outside);
    IndexUnique(line.items, 1);
    assert Removed(line.items, 1) == [0] + Span(k + 1, m) && Span(1, k) + [k] == Span(1, k + 1);
    t := SleepOne(t, g, m, line.Advance(), Span(1, k), k);
    WaitOn(t, q, g, m, Left(k + 1, m), Span(1, k + 1), 0, Outside, k);
    t := EnterWaiting(t, q, g, m, Left(k + 1, m), Span(1, k + 1), 0, k);
  }

  lemma {:induction false} AllSleep(r: Run, q: Run, g: Config, m: nat, k: nat) returns (t: Run)
    requires Big(g) && 1 <= k <= m && Layout(r, g, m, Left(k, m), Span(1, k), 0, Waking) && Waited(r, q, m, k - 1)
    ensures Layout(t, g, m, Left(m, m), Span(1, m), 0, Waking) && Waited(t, q, m, m - 1)
    decreases m - k
  {
    if k == m {
      t := r;
    } else {
      t := PickAndSleep(r, q, g, m, k);
      t := AllSleep(t, q, g, m, k + 1);
    }
  }

  /** All are woken in one tick, each put before 0. */
  lemma {:induction false} AllWake(r: Run, q: Run, g: Config, m: nat, j: nat) returns (t: Run)
    requires Big(g) && 1 <= j <= m && Layout(r, g, m, Ring(Then0(j), j), Span(j, m), 1, Waking)
    requires Waited(r, q, m, m - 1)
    ensures Layout(t, g, m, Ring(Then0(m), m), [], 1, Waking) && Waited(t, q, m, m - 1)
    decreases m - j
  {
    if j == m {
      t := r;
    } else {
      t := WakeOne(r, g, m, Ring(Then0(j), j), Span(j, m));
      assert Inserted(Then0(j), j - 1, j) == Then0(j + 1) && Span(j, m)[1..] == Span(j + 1, m);
      assert Then0(j + 1)[j] == 0;
      WaitOn(t, q, g, m, Ring(Then0(j + 1), j + 1), Span(j + 1, m), 1, Waking, m - 1);
      t := AllWake(t, q, g, m, j + 1);
    }
  }

  /** The cursor goes from the end of the list, or from place c, up to the one before 0. */
  lemma {:induction false} AllAgain(r: Run, q: Run, g: Config, m: nat, c: nat) returns (t: Run)
    requires Big(g) && 0 <= c < m && Waited(r, q, m, m - 1 + c)
    requires Layout(r, g, m, Ring(Then0(m), if c == 0 then m else c), [], 1, Waking)
    ensures IsRun(t, g) && Waited(t, q, m, 2 * m - 2)
    decreases m - c
  {
    if c == m - 1 {
      t := r;
    } else {
      var line := Ring(Then0(m), if c == 0 then m else c);
      assert Then0(m)[m - 1] == 0;
      t := PickOne(r, g, m, line, [], 1, c + 1);
      WaitOn(t, q, g, m, Ring(Then0(m), c + 1), [], 1, Outside, m - 1 + c);
      t := EnterWaiting(t, q, g, m, Ring(Then0(m), c + 1), [], 1, m + c);
      t := AllAgain(t, q, g, m, c + 1);
    }
  }

  /** The bound of TurnComes is the best one: wherever delays are possible, and for every m,
      there is a history in which a co-routine that is always ready, with at most m at its
      priority, waits while others of that priority are picked 2 m - 2 times. */
  lemma TurnBoundIsTight(g: Config, m: nat) returns (r: Run, q: Run)
    requires 0 < g.priorities && 1 <= g.maxTick && 0 < m
    ensures IsRun(r, g) && Waits(r, q, 0, m) && Turns(r, q, 0) == 2 * m - 2
  {
    var b := Build(g, m);
    b := CallBegins(b, g, m, Ring(UpFrom0(m), 0), [], 0);
    b := NobodyPends(b, g, m, Ring(UpFrom0(m), 0), [], 0);
    q := PickOne(b, g, m, Ring(UpFrom0(m), 0), [], 0, 0);
    assert UpFrom0(m) == [0] + Span(1, m) && Span(1, 1) == [];
    LineHeld(q, g, m, Left(1, m), [], 0, Outside);
    assert Waited(q, q, m, 0);
    r := EnterWaiting(q, q, g, m, Left(1, m), [], 0, 0);
    r := AllSleep(r, q, g, m, 1);
    r := TickOn(r, g, m, Left(m, m), Span(1, m));
    WaitOn(r, q, g, m, Left(m, m), Span(1, m), 1, Waking, m - 1);
    assert Left(m, m).items == Then0(1);
    r := AllWake(r, q, g, m, 1);
    r := AllAgain(r, q, g, m, 0);
  }
}
