/** The co-routine scheduler: priority ready lists, two delayed lists exchanged when the
    tick counter wraps, event lists and the pending list filled by interrupts. */
module CoRoutines {
  import opened Basics
  import opened ListSpec

  /** The list a list item is on, as its container link records it. */
  datatype Place = Nowhere | Ready(p: int) | Delay1 | Delay2 | Pending | Waiting(q: int)

  /** The list holds exactly the items whose container link names it. */
  ghost predicate Holds(r: Ring<int>, places: seq<Place>, pl: Place) {
    && r.WellFormed()
    && forall c :: c in r.items <==> 0 <= c < |places| && places[c] == pl
  }

  lemma HoldsRemove(r: Ring<int>, places: seq<Place>, pl: Place, c: nat, other: Place)
    requires Holds(r, places, pl) && c in r.items && other != pl
    ensures Holds(r.Remove(c), places[c := other], pl)
  {
    RemoveMembers(r, c);
  }

  lemma HoldsInsert(r: Ring<int>, places: seq<Place>, pl: Place, c: nat, k: nat)
    requires Holds(r, places, pl) && c < |places| && places[c] != pl && k <= |r.items|
    ensures Holds(r.InsertAt(c, k), places[c := pl], pl)
  {
    InsertMembers(r, c, k);
  }

  lemma HoldsOther(r: Ring<int>, places: seq<Place>, pl: Place, c: nat, other: Place)
    requires Holds(r, places, pl) && c < |places| && places[c] != pl && other != pl
    ensures Holds(r, places[c := other], pl)
  {
  }

  /** The lists in memory, by address. */
  type Lists = map<Place, Ring<int>>

  function ListAt(lists: Lists, pl: Place): Ring<int> {
    if pl in lists then lists[pl] else Ring([], 0)
  }

  ghost predicate Held(lists: Lists, places: seq<Place>) {
    forall pl {:trigger Holds(lists[pl], places, pl)} :: pl in lists ==> Holds(lists[pl], places, pl)
  }

  /** An item is on the list its container link names. */
  lemma Listed(lists: Lists, places: seq<Place>, c: nat)
    requires Held(lists, places) && c < |places| && places[c] in lists
    ensures c in lists[places[c]].items && lists[places[c]].WellFormed()
  {
    assert Holds(lists[places[c]], places, places[c]);
  }

  /** The head of a non-empty list; its container link names the list. */
  ghost function HeadOf(lists: Lists, places: seq<Place>, pl: Place): (c: int)
    requires Held(lists, places) && pl in lists && lists[pl].items != []
    ensures 0 <= c < |places| && places[c] == pl && c == lists[pl].items[0]
  {
    assert Holds(lists[pl], places, pl);
    assert lists[pl].items[0] in lists[pl].items;
    lists[pl].items[0]
  }

  function Take(lists: Lists, places: seq<Place>, c: nat): Lists
    requires c < |places|
  {
    lists[places[c] := ListAt(lists, places[c]).Remove(c)]
  }

  lemma HeldTake(lists: Lists, places: seq<Place>, c: nat)
    requires Held(lists, places) && c < |places| && places[c] in lists && Nowhere !in lists
    ensures c in lists[places[c]].items
    ensures Held(Take(lists, places, c), places[c := Nowhere])
  {
    var from := places[c];
    assert Holds(lists[from], places, from);
    HoldsRemove(lists[from], places, from, c, Nowhere);
    forall pl | pl in lists && pl != from ensures Holds(lists[pl], places[c := Nowhere], pl) {
      HoldsOther(lists[pl], places, pl, c, Nowhere);
    }
  }

  function PutEnd(lists: Lists, pl: Place, c: nat): Lists {
    lists[pl := ListAt(lists, pl).InsertEnd(c)]
  }

  /** Insertion in the order of the items' values, behind equal ones. */
  function PutSorted(lists: Lists, pl: Place, c: nat, v: int, key: seq<int>): Lists {
    var r := ListAt(lists, pl);
    lists[pl := r.InsertAt(c, UpperBound(Keys(r.items, key), v))]
  }

  lemma HeldPut(lists: Lists, places: seq<Place>, c: nat, to: Place, k: nat)
    requires Held(lists, places) && c < |places| && places[c] == Nowhere && Nowhere !in lists
    requires to in lists && k <= |lists[to].items|
    ensures c !in lists[to].items
    ensures Held(lists[to := lists[to].InsertAt(c, k)], places[c := to])
  {
    assert Holds(lists[to], places, to);
    HoldsInsert(lists[to], places, to, c, k);
    forall pl | pl in lists && pl != to ensures Holds(lists[pl], places[c := to], pl) {
      HoldsOther(lists[pl], places, pl, c, to);
    }
  }

  lemma HeldGrow(lists: Lists, places: seq<Place>)
    requires Held(lists, places) && Nowhere !in lists
    ensures Held(lists, places + [Nowhere])
  {
    forall pl | pl in lists ensures Holds(lists[pl], places + [Nowhere], pl) {
      assert Holds(lists[pl], places, pl);
    }
  }

  predicate Within(items: seq<int>, n: nat) {
    forall i :: 0 <= i < |items| ==> 0 <= items[i] < n
  }

  /** The values the items carry, in list order. */
  function Keys(items: seq<int>, key: seq<int>): (k: seq<int>)
    ensures |k| == |items|
  {
    seq(|items|, i requires 0 <= i < |items| => if 0 <= items[i] < |key| then key[items[i]] else 0)
  }

  ghost predicate Ordered(items: seq<int>, key: seq<int>) {
    Within(items, |key|) && Sorted(Keys(items, key))
  }

  lemma OrderedInsert(items: seq<int>, key: seq<int>, c: nat, v: nat)
    requires Ordered(items, key) && c !in items && c < |key|
    ensures var k := UpperBound(Keys(items, key), v);
            Ordered(Inserted(items, k, c), key[c := v])
  {
    var keys := Keys(items, key);
    var k := UpperBound(keys, v);
    var s := Inserted(items, k, c);
    SortedInsert(keys, v);
    assert forall m :: 0 <= m < |items| ==> items[m] in items;
    assert Within(s, |key|);
    assert Keys(s, key[c := v]) == Inserted(keys, k, v);
  }

  lemma OrderedRemove(r: Ring<int>, key: seq<int>, c: nat)
    requires Ordered(r.items, key) && c in r.items
    ensures Ordered(r.Remove(c).items, key)
  {
    var s := r.Remove(c).items;
    var k := IndexOf(r.items, c);
    assert forall i :: 0 <= i < |s| ==> Keys(s, key)[i] == Keys(r.items, key)[if i < k then i else i + 1];
  }

  lemma OrderedGrow(items: seq<int>, key: seq<int>, v: nat)
    requires Ordered(items, key)
    ensures Ordered(items, key + [v])
  {
    assert Keys(items, key + [v]) == Keys(items, key);
  }

  /** The scheduler's variables. The last three are not in memory: how often the
      counter has wrapped, when each delay ends, and when each co-routine was last made
      ready because its delay had ended. */
  datatype State = State(
    priority: seq<int>,        // uxPriority
    value: seq<int>,           // xGenericListItem.xItemValue
    generic: seq<Place>,       // xGenericListItem.pxContainer
    eventValue: seq<int>,      // xEventListItem.xItemValue
    event: seq<Place>,         // xEventListItem.pxContainer
    lists: Lists,              // pxReadyCoRoutineLists, xDelayedCoRoutineList1 and 2
    eventLists: Lists,         // xPendingReadyCoRoutineList and the event lists of the queues
    delayed: Place,            // pxDelayedCoRoutineList
    overflow: Place,           // pxOverflowDelayedCoRoutineList
    current: int,              // pxCurrentCoRoutine
    top: int,                  // uxTopCoRoutineReadyPriority
    tick: nat,                 // xCoRoutineTickCount
    wraps: nat, due: seq<int>, woken: seq<int>)
  {
    function Epoch(g: Config): nat { CounterRange(wraps, g.maxTick + 1) }

    /** Unbounded time: what the counter shows plus its full range for every wrap. */
    function Now(g: Config): nat { Epoch(g) + tick }

    predicate Exists(c: int) { 0 <= c < |priority| }

    predicate Sized() {
      |value| == |generic| == |eventValue| == |event| == |due| == |woken| == |priority|
    }
  }

  function CounterRange(wraps: nat, range: nat): nat {
    if wraps == 0 then 0 else range + CounterRange(wraps - 1, range)
  }

  datatype Config = Config(priorities: nat, queues: nat, maxTick: nat)

  ghost predicate Addresses(s: State, g: Config) {
    && (forall pl :: pl in s.lists <==> pl.Delay1? || pl.Delay2? || (pl.Ready? && 0 <= pl.p < g.priorities))
    && (forall pl :: pl in s.eventLists <==> pl.Pending? || (pl.Waiting? && 0 <= pl.q < g.queues))
    && ((s.delayed == Delay1 && s.overflow == Delay2) || (s.delayed == Delay2 && s.overflow == Delay1))
  }

  /** Control blocks are in range; where the items may be: the generic item on the ready
      list of its own priority or on a delayed list, the event item on some list only
      while the generic item is delayed. */
  ghost predicate Blocks(s: State, g: Config) {
    && s.Sized()
    && (s.priority == [] || 0 <= s.current < |s.priority|)
    && forall c :: 0 <= c < |s.priority| ==>
         && 0 <= s.priority[c] < g.priorities && s.eventValue[c] == g.priorities - s.priority[c]
         && (s.generic[c] == Ready(s.priority[c]) || s.generic[c].Delay1? || s.generic[c].Delay2?)
         && (s.event[c].Nowhere? || s.event[c].Pending? || (s.event[c].Waiting? && 0 <= s.event[c].q < g.queues))
         && (!s.event[c].Nowhere? ==> !s.generic[c].Ready?)
  }

  /** Event lists are in priority order, highest first. */
  ghost predicate WaitOrdered(s: State) {
    forall pl :: pl in s.eventLists && pl.Waiting? ==> Ordered(s.eventLists[pl].items, s.eventValue)
  }

  ghost predicate NoneAbove(s: State, g: Config) {
    && 0 <= s.top < g.priorities
    && forall pl :: pl in s.lists && pl.Ready? && pl.p > s.top ==> s.lists[pl].items == []
  }

  ghost predicate Structure(s: State, g: Config) {
    && Addresses(s, g) && Blocks(s, g)
    && Held(s.lists, s.generic) && Held(s.eventLists, s.event)
    && WaitOrdered(s) && NoneAbove(s, g)
  }

  /** All wake values of a list lie within bounds and, counted from base, are when the
      items are due in unbounded time. */
  ghost predicate OnTime(items: seq<int>, value: seq<int>, due: seq<int>, low: nat, high: int, base: nat) {
    && Ordered(items, value)
    && forall c :: c in items ==>
         0 <= c < |value| && c < |due| && low <= value[c] <= high && due[c] == base + value[c]
  }

  /** Wake values on the current list are at least low, on the overflow list below the
      counter; both lists are in wake order. */
  ghost predicate Timed(s: State, g: Config, low: nat)
    requires s.delayed in s.lists && s.overflow in s.lists
  {
    && s.tick <= g.maxTick
    && OnTime(s.lists[s.delayed].items, s.value, s.due, low, g.maxTick, s.Epoch(g))
    && OnTime(s.lists[s.overflow].items, s.value, s.due, 0, s.tick - 1, s.Epoch(g) + g.maxTick + 1)
  }

  /** What holds between any two calls. */
  ghost predicate Inv(s: State, g: Config) {
    Structure(s, g) && Timed(s, g, s.tick + 1)
  }

  /** While a tick is being handled, items due at this very tick may still be delayed. */
  ghost predicate InvTick(s: State, g: Config) {
    Structure(s, g) && Timed(s, g, s.tick)
  }

  // --- making a co-routine ready --------------------------------------------------------

  /** uxListRemove of the event item. */
  function DropEvent(s: State, c: nat): State
    requires c < |s.event|
  {
    s.(eventLists := Take(s.eventLists, s.event, c), event := s.event[c := Nowhere])
  }

  lemma DropEventKeeps(s: State, g: Config, c: nat, low: nat)
    requires Structure(s, g) && s.Exists(c) && s.event[c] != Nowhere && Timed(s, g, low)
    ensures Structure(DropEvent(s, c), g) && Timed(DropEvent(s, c), g, low)
  {
    HeldTake(s.eventLists, s.event, c);
    var from := s.event[c];
    if from.Waiting? { OrderedRemove(s.eventLists[from], s.eventValue, c); }
  }

  /** uxListRemove of the generic item, then prvAddCoRoutineToReadyQueue. */
  function MoveToReady(s: State, c: nat): State
    requires c < |s.generic| == |s.priority|
  {
    var to := Ready(s.priority[c]);
    s.(top := if to.p > s.top then to.p else s.top,
       lists := PutEnd(Take(s.lists, s.generic, c), to, c),
       generic := s.generic[c := to])
  }

  lemma MoveToReadyLists(s: State, g: Config, c: nat)
    requires Structure(s, g) && s.Exists(c) && !s.generic[c].Ready? && s.event[c] == Nowhere
    ensures Structure(MoveToReady(s, c), g)
  {
    var from, to := s.generic[c], Ready(s.priority[c]);
    HeldTake(s.lists, s.generic, c);
    var mid := Take(s.lists, s.generic, c);
    HeldPut(mid, s.generic[c := Nowhere], c, to, mid[to].Behind());
    assert s.generic[c := Nowhere][c := to] == MoveToReady(s, c).generic;
  }

  lemma OnTimeRemove(r: Ring<int>, c: nat, value: seq<int>, due: seq<int>, low: nat, high: int, base: nat)
    requires OnTime(r.items, value, due, low, high, base) && r.WellFormed() && c in r.items
    ensures OnTime(r.Remove(c).items, value, due, low, high, base)
  {
    OrderedRemove(r, value, c);
    RemoveMembers(r, c);
  }

  lemma MoveToReadyTimes(s: State, g: Config, c: nat, low: nat)
    requires Structure(s, g) && s.Exists(c) && !s.generic[c].Ready? && s.event[c] == Nowhere && Timed(s, g, low)
    ensures var t := MoveToReady(s, c);
            t.delayed in t.lists && t.overflow in t.lists && Timed(t, g, low)
  {
    Listed(s.lists, s.generic, c);
    var t := MoveToReady(s, c);
    var r := s.lists[s.generic[c]];
    if s.generic[c] == s.delayed {
      OnTimeRemove(r, c, s.value, s.due, low, g.maxTick, s.Epoch(g));
    } else {
      OnTimeRemove(r, c, s.value, s.due, 0, s.tick - 1, s.Epoch(g) + g.maxTick + 1);
    }
    assert t.lists[s.generic[c]] == r.Remove(c);
  }

  lemma MoveToReadyKeeps(s: State, g: Config, c: nat, low: nat)
    requires Structure(s, g) && s.Exists(c) && !s.generic[c].Ready? && s.event[c] == Nowhere && Timed(s, g, low)
    ensures Structure(MoveToReady(s, c), g) && Timed(MoveToReady(s, c), g, low)
  {
    MoveToReadyLists(s, g, c);
    MoveToReadyTimes(s, g, c, low);
  }

  // --- delaying the running co-routine ----------------------------------------------------

  /** The wake value, computed modulo the counter range. */
  function WakeValue(tick: nat, ticks: nat, maxTick: nat): nat {
    if tick + ticks <= maxTick then tick + ticks else tick + ticks - (maxTick + 1)
  }

  ghost predicate MayDelay(s: State, g: Config, ticks: nat) {
    Inv(s, g) && 1 <= ticks <= g.maxTick && s.Exists(s.current) && s.generic[s.current].Ready?
  }

  /** The running co-routine's generic item moves to a delayed list in wake order; a
      wake value that wrapped goes to the overflow list. */
  function JoinDelayed(s: State, g: Config, ticks: nat): State
    requires s.Sized() && s.Exists(s.current)
  {
    var c, wake := s.current, WakeValue(s.tick, ticks, g.maxTick);
    var to := if wake < s.tick then s.overflow else s.delayed;
    s.(value := s.value[c := wake],
       generic := s.generic[c := to],
       lists := PutSorted(Take(s.lists, s.generic, c), to, c, wake, s.value),
       due := s.due[c := s.Now(g) + ticks])
  }

  lemma JoinDelayedLists(s: State, g: Config, ticks: nat)
    requires MayDelay(s, g, ticks)
    ensures Structure(JoinDelayed(s, g, ticks), g)
  {
    var t := JoinDelayed(s, g, ticks);
    var c, to := s.current, t.generic[s.current];
    HeldTake(s.lists, s.generic, c);
    var mid := Take(s.lists, s.generic, c);
    HeldPut(mid, s.generic[c := Nowhere], c, to, UpperBound(Keys(mid[to].items, s.value), t.value[c]));
    assert s.generic[c := Nowhere][c := to] == t.generic;
  }

  lemma OnTimeUpdate(items: seq<int>, value: seq<int>, due: seq<int>, low: nat, high: int,
                     base: nat, c: nat, v: nat, d: nat)
    requires OnTime(items, value, due, low, high, base) && c !in items && c < |value| == |due|
    ensures OnTime(items, value[c := v], due[c := d], low, high, base)
  {
    assert forall i :: 0 <= i < |items| ==> items[i] in items;
    assert Keys(items, value[c := v]) == Keys(items, value);
  }

  lemma OnTimeInsert(r: Ring<int>, value: seq<int>, due: seq<int>, low: nat, high: int, base: nat, c: nat, v: nat)
    requires OnTime(r.items, value, due, low, high, base) && r.WellFormed() && c !in r.items && c < |value| == |due|
    requires low <= v <= high
    ensures OnTime(r.InsertAt(c, UpperBound(Keys(r.items, value), v)).items,
                   value[c := v], due[c := base + v], low, high, base)
  {
    OrderedInsert(r.items, value, c, v);
    InsertMembers(r, c, UpperBound(Keys(r.items, value), v));
  }

  /** A wake value that wrapped, on the overflow list, stands for the requested time. */
  lemma JoinOverflowTimes(s: State, g: Config, ticks: nat)
    requires MayDelay(s, g, ticks) && s.tick + ticks > g.maxTick
    ensures var t := JoinDelayed(s, g, ticks);
            t.delayed in t.lists && t.overflow in t.lists && Timed(t, g, t.tick + 1)
  {
    var c, v := s.current, WakeValue(s.tick, ticks, g.maxTick);
    var d, o := s.lists[s.delayed], s.lists[s.overflow];
    assert Holds(d, s.generic, s.delayed) && Holds(o, s.generic, s.overflow);
    OnTimeInsert(o, s.value, s.due, 0, s.tick - 1, s.Epoch(g) + g.maxTick + 1, c, v);
    OnTimeUpdate(d.items, s.value, s.due, s.tick + 1, g.maxTick, s.Epoch(g), c, v, s.Now(g) + ticks);
  }

  /** A wake value that did not wrap, on the current list, stands for the requested time. */
  lemma JoinCurrentTimes(s: State, g: Config, ticks: nat)
    requires MayDelay(s, g, ticks) && s.tick + ticks <= g.maxTick
    ensures var t := JoinDelayed(s, g, ticks);
            t.delayed in t.lists && t.overflow in t.lists && Timed(t, g, t.tick + 1)
  {
    var c, v := s.current, WakeValue(s.tick, ticks, g.maxTick);
    var d, o := s.lists[s.delayed], s.lists[s.overflow];
    assert Holds(d, s.generic, s.delayed) && Holds(o, s.generic, s.overflow);
    OnTimeInsert(d, s.value, s.due, s.tick + 1, g.maxTick, s.Epoch(g), c, v);
    OnTimeUpdate(o.items, s.value, s.due, 0, s.tick - 1, s.Epoch(g) + g.maxTick + 1, c, v, s.Now(g) + ticks);
  }

  /** The event item joins an event list in priority order. */
  function JoinQueue(s: State, c: nat, queue: nat): State
    requires s.Sized() && s.Exists(c)
  {
    var q := Waiting(queue);
    s.(event := s.event[c := q],
       eventLists := PutSorted(s.eventLists, q, c, s.eventValue[c], s.eventValue))
  }

  lemma JoinQueueKeeps(s: State, g: Config, c: nat, queue: nat, low: nat)
    requires Structure(s, g) && s.Exists(c) && queue < g.queues && Timed(s, g, low)
    requires s.event[c] == Nowhere && !s.generic[c].Ready?
    ensures Structure(JoinQueue(s, c, queue), g) && Timed(JoinQueue(s, c, queue), g, low)
  {
    var q := Waiting(queue);
    var k := UpperBound(Keys(s.eventLists[q].items, s.eventValue), s.eventValue[c]);
    HeldPut(s.eventLists, s.event, c, q, k);
    OrderedInsert(s.eventLists[q].items, s.eventValue, c, s.eventValue[c]);
    assert s.eventValue[c := s.eventValue[c]] == s.eventValue;
  }

  /** vCoRoutineAddToDelayedList */
  function AddToDelayed(s: State, g: Config, ticks: nat, queue: Option<nat>): State
    requires s.Sized() && s.Exists(s.current)
  {
    var t := JoinDelayed(s, g, ticks);
    if queue.None? then t else JoinQueue(t, s.current, queue.value)
  }

  lemma AddToDelayedKeeps(s: State, g: Config, ticks: nat, queue: Option<nat>)
    requires MayDelay(s, g, ticks) && (queue.Some? ==> queue.value < g.queues)
    ensures Inv(AddToDelayed(s, g, ticks, queue), g)
  {
    JoinDelayedLists(s, g, ticks);
    if s.tick + ticks > g.maxTick { JoinOverflowTimes(s, g, ticks); } else { JoinCurrentTimes(s, g, ticks); }
    if queue.Some? { JoinQueueKeeps(JoinDelayed(s, g, ticks), g, s.current, queue.value, s.tick + 1); }
  }

  /** after is before with c put in behind all items whose value is not above v, and before all
      whose value is. */
  ghost predicate PutInOrder(before: seq<int>, after: seq<int>, value: seq<int>, c: int, v: int) {
    exists k :: PutAt(before, after, value, c, v, k)
  }

  ghost predicate PutAt(before: seq<int>, after: seq<int>, value: seq<int>, c: int, v: int, k: int) {
    && 0 <= k <= |before| && after == before[..k] + [c] + before[k..] && Within(before, |value|)
    && (forall i :: 0 <= i < k ==> value[before[i]] <= v)
    && (forall i :: k <= i < |before| ==> v < value[before[i]])
  }

  lemma SortedIsInOrder(before: seq<int>, value: seq<int>, c: int, v: int)
    requires Ordered(before, value)
    ensures PutInOrder(before, Inserted(before, UpperBound(Keys(before, value), v), c), value, c, v)
  {
    var k := UpperBound(Keys(before, value), v);
    SortedInsert(Keys(before, value), v);
    forall i | 0 <= i < |before| ensures i < k <==> value[before[i]] <= v {
      assert Keys(before, value)[i] == value[before[i]];
    }
    assert Inserted(before, k, c) == before[..k] + [c] + before[k..];
    assert PutAt(before, Inserted(before, k, c), value, c, v, k);
  }

  /** The caller has gone from its ready list to the delayed list that its wake time belongs to,
      in the order of wake times, and no other item has moved. */
  ghost predicate WentToSleep(s: State, t: State, g: Config, ticks: nat)
    requires s.Sized() && s.Exists(s.current)
  {
    var c := s.current;
    var wraps := s.tick + ticks > g.maxTick;
    var wake := if wraps then s.tick + ticks - g.maxTick - 1 else s.tick + ticks;
    var to := if wraps then s.overflow else s.delayed;
    && t.value == s.value[c := wake] && t.generic == s.generic[c := to] && t.due == s.due[c := s.Now(g) + ticks]
    && PutInOrder(ListAt(s.lists, to).items, ListAt(t.lists, to).items, s.value, c, wake)
    && ListAt(t.lists, Ready(s.priority[c])) == ListAt(s.lists, Ready(s.priority[c])).Remove(c)
    && (forall pl :: pl in s.lists && pl != to && pl != Ready(s.priority[c]) ==>
         ListAt(t.lists, pl) == ListAt(s.lists, pl))
  }

  /** The caller has joined the event list it gave, in priority order behind everybody of its
      own priority, or no event list if it gave none. */
  ghost predicate WentToWait(s: State, t: State, queue: Option<nat>)
    requires s.Sized() && s.Exists(s.current)
  {
    var c := s.current;
    if queue.None? then t.event == s.event && t.eventLists == s.eventLists
    else
      var q := Waiting(queue.value);
      && t.event == s.event[c := q]
      && PutInOrder(ListAt(s.eventLists, q).items, ListAt(t.eventLists, q).items, s.eventValue, c, s.eventValue[c])
      && (forall pl :: pl in s.eventLists && pl != q ==> ListAt(t.eventLists, pl) == ListAt(s.eventLists, pl))
  }

  lemma JoinDelayedExactly(s: State, g: Config, ticks: nat)
    requires MayDelay(s, g, ticks)
    ensures WentToSleep(s, JoinDelayed(s, g, ticks), g, ticks)
  {
    var wake := WakeValue(s.tick, ticks, g.maxTick);
    var to := if wake < s.tick then s.overflow else s.delayed;
    SortedIsInOrder(s.lists[to].items, s.value, s.current, wake);
  }

  /** vCoRoutineAddToDelayedList puts its caller to sleep until the wake time, on the event list
      as well if it gave one, and changes nothing else. */
  lemma AddToDelayedExactly(s: State, g: Config, ticks: nat, queue: Option<nat>)
    requires MayDelay(s, g, ticks) && (queue.Some? ==> queue.value < g.queues)
    ensures var t := AddToDelayed(s, g, ticks, queue);
            && WentToSleep(s, t, g, ticks) && WentToWait(s, t, queue)
            && t == s.(value := t.value, generic := t.generic, lists := t.lists, due := t.due,
                       event := t.event, eventLists := t.eventLists)
  {
    JoinDelayedExactly(s, g, ticks);
    if queue.Some? {
      SortedIsInOrder(s.eventLists[Waiting(queue.value)].items, s.eventValue, s.current, s.eventValue[s.current]);
    }
  }

  /** A delay of no ticks would stay on the current list with a wake value that is not above
      the counter. */
  lemma NoTicks(s: State, g: Config, queue: Option<nat>)
    requires Inv(s, g) && s.Exists(s.current) && s.generic[s.current].Ready?
    ensures var t := AddToDelayed(s, g, 0, queue);
            t.delayed == s.delayed && t.delayed in t.lists && s.current in t.lists[t.delayed].items
            && s.current < |t.value| && t.value[s.current] == s.tick == t.tick
  {
    var c := s.current;
    HeldTake(s.lists, s.generic, c);
    var mid := Take(s.lists, s.generic, c);
    assert Holds(mid[s.delayed], s.generic[c := Nowhere], s.delayed);
    InsertMembers(mid[s.delayed], c, UpperBound(Keys(mid[s.delayed].items, s.value), s.tick));
  }

  /** vCoRoutineAddToDelayedList keeps the invariant exactly for delays of at least one tick;
      a delay of none, asked for at the highest counter value, would leave an item on the
      current list when the lists are exchanged. */
  lemma DelayKeepsExactly(s: State, g: Config, ticks: nat, queue: Option<nat>)
    requires Inv(s, g) && ticks <= g.maxTick && s.Exists(s.current) && s.generic[s.current].Ready?
    requires queue.Some? ==> queue.value < g.queues
    ensures Inv(AddToDelayed(s, g, ticks, queue), g) <==> ticks >= 1
    ensures ticks == 0 ==>
      var t := AddToDelayed(s, g, ticks, queue); t.delayed in t.lists && t.lists[t.delayed].items != []
  {
    if ticks == 0 { NoTicks(s, g, queue); } else { AddToDelayedKeeps(s, g, ticks, queue); }
  }

  // --- creation --------------------------------------------------------------------------

  /** The control block is filled in and its generic item goes to the ready list. */
  function Admit(s: State, g: Config, p: nat): State
    requires p < g.priorities
  {
    var c := |s.priority|;
    s.(priority := s.priority + [p], value := s.value + [0], generic := s.generic + [Ready(p)],
       eventValue := s.eventValue + [g.priorities - p], event := s.event + [Nowhere],
       due := s.due + [0], woken := s.woken + [0],
       current := if c == 0 then c else s.current,
       top := if p > s.top then p else s.top,
       lists := PutEnd(s.lists, Ready(p), c))
  }

  /** A new co-routine is the last one, ready behind all others of its priority and waiting for
      nothing; the others are where they were, and only the first one created is current. */
  ghost predicate IsAdmitted(s: State, t: State, p: int) {
    var c := |s.priority|;
    && s.Sized() && t.Sized() && t.priority == s.priority + [p]
    && t.generic == s.generic + [Ready(p)] && t.event == s.event + [Nowhere]
    && t.current == (if s.priority == [] then c else s.current)
    && c in ListAt(t.lists, Ready(p)).items && c !in ListAt(s.lists, Ready(p)).items
    && |ListAt(t.lists, Ready(p)).items| == |ListAt(s.lists, Ready(p)).items| + 1
    && (forall d :: d in ListAt(s.lists, Ready(p)).items ==> d in ListAt(t.lists, Ready(p)).items)
    && (forall pl :: pl in s.lists && pl != Ready(p) ==> ListAt(t.lists, pl) == ListAt(s.lists, pl))
    && t.eventLists == s.eventLists && t.top == (if s.top < p then p else s.top)
    && t.tick == s.tick && t.delayed == s.delayed && t.overflow == s.overflow
  }

  lemma AdmitExactly(s: State, g: Config, p: nat)
    requires Structure(s, g) && p < g.priorities
    ensures IsAdmitted(s, Admit(s, g, p), p)
  {
    AdmitHeld(s, g, p);
    assert Holds(s.lists[Ready(p)], s.generic, Ready(p));
    InsertMembers(s.lists[Ready(p)], |s.priority|, s.lists[Ready(p)].Behind());
  }

  lemma AdmitHeld(s: State, g: Config, p: nat)
    requires Structure(s, g) && p < g.priorities
    ensures var t := Admit(s, g, p); Held(t.lists, t.generic) && Held(t.eventLists, t.event)
    ensures |s.priority| !in s.lists[Ready(p)].items
  {
    var c := |s.priority|;
    HeldGrow(s.lists, s.generic);
    HeldGrow(s.eventLists, s.event);
    HeldPut(s.lists, s.generic + [Nowhere], c, Ready(p), s.lists[Ready(p)].Behind());
    assert (s.generic + [Nowhere])[c := Ready(p)] == Admit(s, g, p).generic;
  }

  lemma AdmitOrders(s: State, g: Config, p: nat)
    requires Structure(s, g) && p < g.priorities
    ensures WaitOrdered(Admit(s, g, p))
  {
    forall pl | pl in s.eventLists && pl.Waiting?
      ensures Ordered(s.eventLists[pl].items, s.eventValue + [g.priorities - p])
    {
      OrderedGrow(s.eventLists[pl].items, s.eventValue, g.priorities - p);
    }
  }

  lemma AdmitLists(s: State, g: Config, p: nat)
    requires Structure(s, g) && p < g.priorities
    ensures Structure(Admit(s, g, p), g)
  {
    AdmitHeld(s, g, p);
    AdmitOrders(s, g, p);
  }

  lemma AdmitKeeps(s: State, g: Config, p: nat)
    requires Inv(s, g) && p < g.priorities
    ensures Inv(Admit(s, g, p), g)
  {
    AdmitLists(s, g, p);
    OrderedGrow(s.lists[s.delayed].items, s.value, 0);
    OrderedGrow(s.lists[s.overflow].items, s.value, 0);
  }

  // --- events ----------------------------------------------------------------------------

  /** xCoRoutineRemoveFromEventList: the head's event item moves to the pending list. */
  function Unblock(s: State, c: nat): State
    requires c < |s.event|
  {
    s.(event := s.event[c := Pending],
       eventLists := PutEnd(Take(s.eventLists, s.event, c), Pending, c))
  }

  lemma UnblockHeld(s: State, g: Config, c: nat)
    requires Structure(s, g) && s.Exists(c) && s.event[c].Waiting?
    ensures var t := Unblock(s, c);
            && Held(t.eventLists, t.event)
            && s.event[c] in t.eventLists && Ordered(t.eventLists[s.event[c]].items, s.eventValue)
  {
    var from := s.event[c];
    var mid := Take(s.eventLists, s.event, c);
    HeldTake(s.eventLists, s.event, c);
    HeldPut(mid, s.event[c := Nowhere], c, Pending, mid[Pending].Behind());
    assert s.event[c := Nowhere][c := Pending] == Unblock(s, c).event;
    OrderedRemove(s.eventLists[from], s.eventValue, c);
  }

  lemma UnblockKeeps(s: State, g: Config, c: nat)
    requires Structure(s, g) && s.Exists(c) && s.event[c].Waiting?
    ensures Structure(Unblock(s, c), g)
    ensures forall low :: Timed(s, g, low) ==> Timed(Unblock(s, c), g, low)
  {
    UnblockHeld(s, g, c);
  }

  /** An event has reached c: it was the head of the event list and is now on the pending list
      instead; the others that waited there still do, in their order, and nothing else changed. */
  ghost predicate Reached(s: State, t: State, queue: nat, c: int) {
    && s.Exists(c) && |t.event| == |s.event| == |s.priority| && t.event[c] == Pending
    && (forall d :: s.Exists(d) && d != c ==> t.event[d] == s.event[d])
    && ListAt(s.eventLists, Waiting(queue)).items == [c] + ListAt(t.eventLists, Waiting(queue)).items
    && c in ListAt(t.eventLists, Pending).items && c !in ListAt(s.eventLists, Pending).items
    && |ListAt(t.eventLists, Pending).items| == |ListAt(s.eventLists, Pending).items| + 1
    && (forall d :: d != c ==> (d in ListAt(t.eventLists, Pending).items <==> d in ListAt(s.eventLists, Pending).items))
    && (forall pl :: pl in s.eventLists && pl != Pending && pl != Waiting(queue) ==>
         ListAt(t.eventLists, pl) == ListAt(s.eventLists, pl))
    && t == s.(event := t.event, eventLists := t.eventLists)
  }

  lemma UnblockReaches(s: State, g: Config, queue: nat, c: int)
    requires Structure(s, g) && queue < g.queues && Head(s.eventLists, Waiting(queue)) == Some(c)
    ensures s.Exists(c) && Reached(s, Unblock(s, c), queue, c)
  {
    var from, pending := s.eventLists[Waiting(queue)], s.eventLists[Pending];
    assert Holds(from, s.event, Waiting(queue)) && Holds(pending, s.event, Pending);
    assert from.items[0] in from.items;
    IndexUnique(from.items, 0);
    assert from.items == [c] + Removed(from.items, 0);
    InsertMembers(pending, c, pending.Behind());
  }

  /** The head of an event list has the highest priority of all who wait there. */
  lemma HeadIsHighest(s: State, g: Config, queue: nat, c: nat)
    requires Structure(s, g) && queue < g.queues && c in s.eventLists[Waiting(queue)].items
    ensures var h := s.eventLists[Waiting(queue)].items[0];
            h < |s.priority| && c < |s.priority| && s.priority[c] <= s.priority[h]
  {
    var items := s.eventLists[Waiting(queue)].items;
    assert Holds(s.eventLists[Waiting(queue)], s.event, Waiting(queue));
    assert items[0] in items;
    var i :| 0 <= i < |items| && items[i] == c;
    assert Keys(items, s.eventValue)[0] <= Keys(items, s.eventValue)[i];
  }

  // --- time ------------------------------------------------------------------------------

  /** One tick: the counter wraps to 0, and at that moment the two lists change roles. */
  function Tick(s: State, g: Config): State {
    if s.tick < g.maxTick then s.(tick := s.tick + 1)
    else s.(tick := 0, wraps := s.wraps + 1, delayed := s.overflow, overflow := s.delayed)
  }

  /** The unsigned difference of two counter values. */
  function TicksBetween(last: nat, count: nat, maxTick: nat): (n: int) {
    if last <= count then count - last else count + (maxTick + 1) - last
  }

  lemma OneTickLess(last: nat, count: nat, maxTick: nat)
    requires last <= maxTick && count <= maxTick && last != count
    ensures TicksBetween(if last < maxTick then last + 1 else 0, count, maxTick)
            == TicksBetween(last, count, maxTick) - 1
  {
  }

  /** The current list is always empty when the lists are exchanged. */
  lemma EmptyAtSwap(s: State, g: Config)
    requires Inv(s, g) && s.tick == g.maxTick
    ensures s.lists[s.delayed].items == []
  {
    var items := s.lists[s.delayed].items;
    assert forall c :: c !in items;
    FirstIsMember(items);
  }

  lemma TickKeeps(s: State, g: Config)
    requires Inv(s, g)
    ensures InvTick(Tick(s, g), g) && Tick(s, g).Now(g) == s.Now(g) + 1
  {
    if s.tick == g.maxTick {
      EmptyAtSwap(s, g);
    }
  }

  /** The current list's head has timed out: it is due at this very tick. */
  lemma HeadIsDue(s: State, g: Config)
    requires InvTick(s, g) && s.lists[s.delayed].items != []
    ensures var c := s.lists[s.delayed].items[0];
            && s.Exists(c) && s.generic[c] == s.delayed
            && (s.value[c] <= s.tick <==> s.due[c] == s.Now(g))
  {
    assert Holds(s.lists[s.delayed], s.generic, s.delayed);
    assert s.lists[s.delayed].items[0] in s.lists[s.delayed].items;
  }

  /** Once the head is not due, nothing on the current list is. */
  lemma NoneDue(s: State, g: Config)
    requires InvTick(s, g)
    requires s.lists[s.delayed].items != [] ==>
      s.lists[s.delayed].items[0] < |s.value| && s.tick < s.value[s.lists[s.delayed].items[0]]
    ensures Inv(s, g)
  {
    var items := s.lists[s.delayed].items;
    forall c | c in items ensures s.tick + 1 <= s.value[c] {
      var i :| 0 <= i < |items| && items[i] == c;
      assert Keys(items, s.value)[0] <= Keys(items, s.value)[i];
    }
  }

  /** Between calls every delayed co-routine is due strictly later, and soon enough. */
  lemma DelayedIsFuture(s: State, g: Config, c: nat)
    requires Inv(s, g) && s.Exists(c) && !s.generic[c].Ready?
    ensures s.Now(g) < s.due[c] <= s.Now(g) + g.maxTick
  {
    assert Holds(s.lists[s.generic[c]], s.generic, s.generic[c]);
  }

  // --- before the first creation ----------------------------------------------------------

  function ReadyLists(n: nat): (m: Lists)
    ensures forall pl :: pl in m <==> pl.Ready? && 0 <= pl.p < n
    ensures forall pl :: pl in m ==> m[pl] == Ring([], 0)
  {
    if n == 0 then map[] else ReadyLists(n - 1)[Ready(n - 1) := Ring([], 0)]
  }

  function EventLists(n: nat): (m: Lists)
    ensures forall pl :: pl in m <==> pl.Waiting? && 0 <= pl.q < n
    ensures forall pl :: pl in m ==> m[pl] == Ring([], 0)
  {
    if n == 0 then map[] else EventLists(n - 1)[Waiting(n - 1) := Ring([], 0)]
  }

  function Blank(g: Config, tick: nat, wraps: nat): State {
    State([], [], [], [], [], map[], EventLists(g.queues), Nowhere, Nowhere, 0, 0, tick, wraps, [], [])
  }

  /** prvInitialiseCoRoutineLists */
  function Initialised(g: Config, tick: nat, wraps: nat): State {
    Blank(g, tick, wraps).(
      lists := ReadyLists(g.priorities)[Delay1 := Ring([], 0)][Delay2 := Ring([], 0)],
      eventLists := EventLists(g.queues)[Pending := Ring([], 0)],
      delayed := Delay1, overflow := Delay2)
  }

  lemma InitialisedIsInv(g: Config, tick: nat, wraps: nat)
    requires 0 < g.priorities && tick <= g.maxTick
    ensures Inv(Initialised(g, tick, wraps), g)
  {
    var s := Initialised(g, tick, wraps);
    forall pl | pl in s.lists ensures Holds(s.lists[pl], [], pl) {
      assert s.lists[pl] == Ring([], 0);
    }
    forall pl | pl in s.eventLists ensures Holds(s.eventLists[pl], [], pl) {
      assert s.eventLists[pl] == Ring([], 0);
    }
  }

  // --- what the scheduler's loops keep ----------------------------------------------------

  /** Only event items moved, each from the event list it waited on to the pending list. */
  ghost predicate OnlyInterrupts(s: State, t: State) {
    && t == s.(event := t.event, eventLists := t.eventLists)
    && |t.event| == |s.event|
    && forall c :: 0 <= c < |s.event| ==> t.event[c] == s.event[c] || (s.event[c].Waiting? && t.event[c].Pending?)
  }

  /** The co-routines whose event item is on some list. */
  ghost function Listening(s: State): set<int> {
    set c | 0 <= c < |s.event| && s.event[c] != Nowhere
  }

  ghost function Sleeping(s: State): set<int> {
    set c | 0 <= c < |s.generic| && !s.generic[c].Ready?
  }

  /** Some co-routines that were waiting for an event were made ready, nothing else. */
  ghost predicate Readied(s: State, t: State) {
    && t.priority == s.priority && t.value == s.value && t.due == s.due && t.woken == s.woken
    && t.tick == s.tick && t.wraps == s.wraps && t.delayed == s.delayed && t.current == s.current
    && |t.generic| == |s.generic| == |t.event| == |s.event| == |s.priority|
    && forall c :: 0 <= c < |s.priority| ==>
         if t.generic[c] == s.generic[c]
         then t.event[c] == s.event[c] || (s.event[c].Waiting? && t.event[c].Pending?)
         else !s.event[c].Nowhere? && t.event[c].Nowhere? && t.generic[c] == Ready(s.priority[c])
  }

  lemma ReadiedTransitive(s: State, t: State, u: State, g: Config)
    requires Readied(s, t) && Readied(t, u) && Blocks(s, g) && Blocks(t, g)
    ensures Readied(s, u)
  {
  }

  lemma InterruptsKeepTimes(s: State, t: State, g: Config, low: nat)
    requires OnlyInterrupts(s, t) && Structure(s, g) && Structure(t, g) && Timed(s, g, low)
    ensures Timed(t, g, low)
  {
  }

  lemma PendingMoves(s0: State, s1: State, s3: State, g: Config, c: nat)
    requires Blocks(s0, g) && Blocks(s1, g) && s1.Exists(c) && s1.event[c] == Pending
    requires OnlyInterrupts(s0, s1) && OnlyInterrupts(DropEvent(s1, c), s3)
    ensures Readied(s0, MoveToReady(s3, c))
    ensures Listening(MoveToReady(s3, c)) < Listening(s0)
  {
    assert c in Listening(s0) && c !in Listening(MoveToReady(s3, c));
  }

  /** Interrupts leave the pending list non-empty, and taking its head off keeps the structure. */
  lemma PendingHead(s0: State, s1: State, g: Config) returns (c: nat)
    requires Inv(s0, g) && Structure(s1, g) && OnlyInterrupts(s0, s1) && s0.eventLists[Pending].items != []
    ensures ListAt(s1.eventLists, Pending).items != [] && c == s1.eventLists[Pending].items[0]
    ensures s1.Exists(c) && s1.event[c] == Pending && Structure(DropEvent(s1, c), g)
  {
    Listed(s1.eventLists, s1.event, HeadOf(s0.eventLists, s0.event, Pending));
    c := HeadOf(s1.eventLists, s1.event, Pending);
    InterruptsKeepTimes(s0, s1, g, s0.tick + 1);
    DropEventKeeps(s1, g, c, s1.tick + 1);
  }

  lemma PendingStep(s0: State, s1: State, s3: State, g: Config, c: nat)
    requires Inv(s0, g) && Structure(s1, g) && Structure(s3, g) && s1.Exists(c) && s1.event[c] == Pending
    requires OnlyInterrupts(s0, s1) && OnlyInterrupts(DropEvent(s1, c), s3)
    ensures Inv(MoveToReady(s3, c), g) && Readied(s0, MoveToReady(s3, c))
    ensures Listening(MoveToReady(s3, c)) < Listening(s0)
  {
    var low := s0.tick + 1;
    InterruptsKeepTimes(s0, s1, g, low);
    DropEventKeeps(s1, g, c, low);
    InterruptsKeepTimes(DropEvent(s1, c), s3, g, low);
    MoveToReadyKeeps(s3, g, c, low);
    PendingMoves(s0, s1, s3, g, c);
  }

  /** Some time has passed; whoever was due was made ready at its own due time, and the
      others sleep on with the same due time. */
  ghost predicate Elapsed(s: State, t: State, g: Config) {
    && t.Sized() && s.Sized()
    && t.priority == s.priority && t.due == s.due && t.current == s.current && s.Now(g) <= t.Now(g)
    && forall c :: 0 <= c < |s.priority| ==>
         && (s.event[c] == Nowhere ==> t.event[c] == Nowhere)
         && if t.generic[c] == s.generic[c] then t.woken[c] == s.woken[c]
            else !s.generic[c].Ready? && t.generic[c].Ready? && t.woken[c] == t.due[c] <= t.Now(g)
  }

  lemma ElapsedTransitive(s: State, t: State, u: State, g: Config)
    requires Elapsed(s, t, g) && Elapsed(t, u, g)
    ensures Elapsed(s, u, g)
  {
  }

  /** A co-routine whose delay has ended: event item off its list if it is on one, generic
      item to the ready list, and the moment recorded. */
  function Expire(s: State, g: Config, c: nat): State
    requires s.Sized() && s.Exists(c)
  {
    var t := if s.event[c] == Nowhere then s else DropEvent(s, c);
    MoveToReady(t, c).(woken := s.woken[c := s.Now(g)])
  }

  lemma ExpireKeeps(s: State, g: Config, c: nat)
    requires InvTick(s, g) && s.Exists(c) && !s.generic[c].Ready?
    ensures InvTick(Expire(s, g, c), g)
  {
    var t := if s.event[c] == Nowhere then s else DropEvent(s, c);
    if s.event[c] != Nowhere { DropEventKeeps(s, g, c, s.tick); }
    MoveToReadyKeeps(t, g, c, t.tick);
  }

  lemma ExpireElapses(s0: State, s: State, g: Config, c: nat)
    requires Blocks(s0, g) && Blocks(s, g) && OnlyInterrupts(s0, s)
    requires s.Exists(c) && !s.generic[c].Ready? && s.due[c] == s.Now(g)
    ensures Elapsed(s0, Expire(s, g, c), g)
    ensures Sleeping(Expire(s, g, c)) < Sleeping(s0)
  {
    assert c in Sleeping(s0) && c !in Sleeping(Expire(s, g, c));
  }

  /** The head of the current list has timed out, and perhaps there have been interrupts since:
      it can be woken. */
  lemma HeadExpires(s0: State, s: State, g: Config, c: nat)
    requires InvTick(s0, g) && Structure(s, g) && OnlyInterrupts(s0, s)
    requires s0.lists[s0.delayed].items != [] && c == s0.lists[s0.delayed].items[0]
    requires c < |s0.value| && s0.value[c] <= s0.tick
    ensures s.Exists(c) && c < |s.value| && s.value[c] <= s.tick
    ensures var t := Expire(s, g, c);
            && InvTick(t, g) && Elapsed(s0, t, g) && Sleeping(t) < Sleeping(s0)
            && t.delayed == s0.delayed && t.tick == s0.tick && t.wraps == s0.wraps
  {
    HeadIsDue(s0, g);
    InterruptsKeepTimes(s0, s, g, s.tick);
    ExpireKeeps(s, g, c);
    ExpireElapses(s0, s, g, c);
  }

  /** c is ready and no ready co-routine has a higher priority. */
  ghost predicate HighestReady(s: State, c: int) {
    && s.Sized() && s.Exists(c) && s.generic[c] == Ready(s.priority[c])
    && forall d :: s.Exists(d) && s.generic[d].Ready? ==> s.priority[d] <= s.priority[c]
  }

  /** From s, the cursor of the highest non-empty ready list moved on to c, which became
      the current co-routine. */
  ghost predicate IsNext(s: State, t: State, c: int) {
    && HighestReady(t, c)
    && t == s.(top := t.priority[c], current := c,
               lists := s.lists[Ready(t.priority[c]) := ListAt(s.lists, Ready(t.priority[c])).Advance()])
    && t.lists[Ready(t.priority[c])].At(c)
  }

  /** What a call of the scheduler does to the co-routines that slept before it: those due
      by now are ready; whoever was made ready was so at its due time exactly, or was waiting
      for an event; who still sleeps is due later. */
  ghost predicate DelaysKept(s: State, t: State, g: Config) {
    && s.Sized() && t.Sized() && t.priority == s.priority && t.due == s.due
    && (forall c :: 0 <= c < |s.priority| && s.generic[c].Ready? ==> t.generic[c] == s.generic[c])
    && (forall c :: 0 <= c < |s.priority| && !s.generic[c].Ready? ==>
         && (s.event[c] == Nowhere ==> t.event[c] == Nowhere)
         && (s.due[c] <= t.Now(g) ==> t.generic[c] == Ready(t.priority[c]))
         && (t.generic[c].Ready? ==>
               (t.woken[c] == s.due[c] <= t.Now(g)) || (s.event[c] != Nowhere && t.woken[c] == s.woken[c])))
  }

  /** Advancing a cursor changes no membership. */
  lemma AdvanceHeld(lists: Lists, places: seq<Place>, pl: Place)
    requires Held(lists, places) && pl in lists
    ensures Held(lists[pl := lists[pl].Advance()], places)
  {
    forall other | other in lists ensures Holds(lists[pl := lists[pl].Advance()][other], places, other) {
      assert Holds(lists[other], places, other);
    }
  }

  /** Advancing the cursor of a ready list changes no membership. */
  lemma AdvanceKeeps(s: State, g: Config, p: int)
    requires Inv(s, g) && 0 <= p < g.priorities && s.lists[Ready(p)].items != []
    ensures var r := s.lists[Ready(p)].Advance();
            && 0 < r.cursor <= |r.items| && s.Exists(r.items[r.cursor - 1])
            && s.generic[r.items[r.cursor - 1]] == Ready(p)
            && Inv(s.(lists := s.lists[Ready(p) := r], current := r.items[r.cursor - 1]), g)
  {
    var r := s.lists[Ready(p)].Advance();
    assert Holds(s.lists[Ready(p)], s.generic, Ready(p));
    assert r.items[r.cursor - 1] in r.items;
    AdvanceHeld(s.lists, s.generic, Ready(p));
  }

  /** A ready co-routine is on the ready list of its priority, hence not above top. */
  lemma ReadyIsListed(s: State, g: Config, c: int)
    requires Structure(s, g) && s.Exists(c) && s.generic[c].Ready?
    ensures c in s.lists[Ready(s.priority[c])].items && s.priority[c] <= s.top
  {
    Listed(s.lists, s.generic, c);
  }

  lemma NothingReady(s: State, g: Config)
    requires Structure(s, g) && s.top == 0 && s.lists[Ready(0)].items == []
    ensures forall c :: s.Exists(c) ==> !s.generic[c].Ready?
  {
    forall c | s.Exists(c) && s.generic[c].Ready? ensures false {
      ReadyIsListed(s, g, c);
    }
  }

  /** An empty list at top lets the search go one lower. */
  lemma LowerTop(s: State, g: Config)
    requires Inv(s, g) && s.lists[Ready(s.top)].items == [] && s.top > 0
    ensures Inv(s.(top := s.top - 1), g)
  {
  }

  /** With a non-empty list at top, whoever is on it has the highest priority. */
  lemma TopIsNext(s: State, g: Config)
    requires Structure(s, g) && s.lists[Ready(s.top)].items != []
    ensures forall c :: s.Exists(c) && s.generic[c].Ready? ==> s.priority[c] <= s.top
    ensures forall c :: s.Exists(c) && s.generic[c] == Ready(s.top) ==> s.priority[c] == s.top
  {
    forall c | s.Exists(c) && s.generic[c].Ready? ensures s.priority[c] <= s.top {
      ReadyIsListed(s, g, c);
    }
  }

  lemma KeptInAll(s0: State, s1: State, s2: State, t: State, g: Config)
    requires Blocks(s0, g) && Blocks(s1, g) && Inv(s2, g)
    requires Readied(s0, s1) && Elapsed(s1, s2, g)
    requires t == s2.(top := t.top, current := t.current, lists := t.lists)
    ensures DelaysKept(s0, t, g)
  {
    forall c | 0 <= c < |s2.priority| && !s2.generic[c].Ready? ensures s2.Now(g) < s2.due[c] {
      DelayedIsFuture(s2, g, c);
    }
  }

  ghost predicate EventsServed(s: State, t: State) {
    && s.Sized() && t.Sized() && |s.priority| == |t.priority|
    && forall c :: s.Exists(c) && s.event[c] == Pending ==> t.generic[c] == Ready(t.priority[c])
  }

  /** Whoever was on the pending list when the call began is ready when it ends. */
  lemma PendingReadied(s0: State, s1: State, s2: State, t: State, g: Config)
    requires Blocks(s0, g) && Structure(s1, g) && s1.eventLists[Pending].items == []
    requires Readied(s0, s1) && Elapsed(s1, s2, g)
    requires t == s2.(top := t.top, current := t.current, lists := t.lists)
    ensures EventsServed(s0, t)
  {
    forall c | s0.Exists(c) && s1.event[c] == Pending ensures false {
      Listed(s1.eventLists, s1.event, c);
    }
  }

  // --- whole runs --------------------------------------------------------------------------

  /** The atomic steps of the scheduler and its callers. */
  datatype Step =
    | Created(p: nat)                              // xCoRoutineCreate
    | Delayed(ticks: nat, queue: Option<nat>)      // vCoRoutineAddToDelayedList
    | Interrupted(events: nat)                     // xCoRoutineRemoveFromEventList
    | Called                                       // vCoRoutineSchedule begins
    | Dropped(c: nat)                              // prvCheckPendingReadyList, interrupts disabled
    | Released(c: nat)                             // the rest of its round
    | Cleared                                      // prvCheckPendingReadyList ends
    | Ticked                                       // prvCheckDelayedList, outer loop
    | Expired(c: nat)                              // its inner loop
    | Picked(c: nat)                               // vCoRoutineSchedule, a co-routine found
    | Idle                                         // none found

  /** A history: the state now, and the steps that led to it. */
  datatype Run = Start(s: State) | Then(before: Run, step: Step, s: State)

  function Head(lists: Lists, pl: Place): Option<int> {
    var items := ListAt(lists, pl).items;
    if items == [] then None else Some(items[0])
  }

  /** What the inner loop of prvCheckDelayedList tests: the head, if any, has not timed out. */
  predicate Settled(s: State) {
    var h := Head(s.lists, s.delayed);
    h.Some? ==> 0 <= h.value < |s.value| && s.tick < s.value[h.value]
  }

  /** A step needs what the code tests before it. */
  ghost predicate Stepped(s: State, t: State, g: Config, step: Step) {
    s.Sized() &&
    match step
    case Created(p) => Settled(s) && p < g.priorities && t == Admit(s, g, p)
    case Delayed(ticks, queue) =>
      && Settled(s) && 1 <= ticks <= g.maxTick && s.Exists(s.current) && s.generic[s.current].Ready?
      && (queue.Some? ==> queue.value < g.queues) && t == AddToDelayed(s, g, ticks, queue)
    case Interrupted(queue) =>
      var h := Head(s.eventLists, Waiting(queue));
      queue < g.queues && h.Some? && s.Exists(h.value) && t == Unblock(s, h.value)
    case Called => t == s
    case Dropped(c) => Head(s.eventLists, Pending) == Some(c) && s.Exists(c) && t == DropEvent(s, c)
    case Released(c) => s.Exists(c) && s.event[c] == Nowhere && !s.generic[c].Ready? && t == MoveToReady(s, c)
    case Cleared => ListAt(s.eventLists, Pending).items == [] && t == s
    case Ticked => Settled(s) && t == Tick(s, g)
    case Expired(c) =>
      Head(s.lists, s.delayed) == Some(c) && s.Exists(c) && s.value[c] <= s.tick && t == Expire(s, g, c)
    case Picked(c) => IsNext(s, t, c) && NoneAbove(t, g)
    case Idle => t == s.(top := 0) && NoneAbove(t, g) && ListAt(t.lists, Ready(0)).items == []
  }

  /** Where vCoRoutineSchedule stands: outside of it, in the loop over the pending list, perhaps
      with a co-routine that was just taken off it, or past that loop. */
  datatype Phase = Outside | Clearing | Holding(c: int) | Waking

  function NextPhase(phase: Phase, step: Step): Phase {
    match step
    case Interrupted(_) => phase
    case Called => Clearing
    case Dropped(c) => Holding(c)
    case Released(_) => Clearing
    case Cleared => Waking
    case Ticked => Waking
    case Expired(_) => Waking
    case _ => Outside
  }

  function PhaseOf(r: Run): Phase {
    match r
    case Start(_) => Outside
    case Then(before, step, _) => NextPhase(PhaseOf(before), step)
  }

  /** Interrupts come at any time, the other steps in the order of the code. */
  predicate InOrder(phase: Phase, step: Step) {
    match step
    case Interrupted(_) => true
    case Created(_) => phase == Outside
    case Delayed(_, _) => phase == Outside
    case Called => phase == Outside
    case Dropped(_) => phase == Clearing
    case Released(c) => phase == Holding(c)
    case Cleared => phase == Clearing
    case _ => phase == Waking
  }

  ghost predicate Possible(r: Run, g: Config) {
    match r
    case Start(s) => 0 < g.priorities && s.tick <= g.maxTick && s == Initialised(g, s.tick, s.wraps)
    case Then(before, step, s) => Stepped(before.s, s, g, step) && InOrder(PhaseOf(before), step)
  }

  /** The history begins with the initialised lists, and each of its steps was possible. */
  ghost predicate IsRun(r: Run, g: Config) {
    forall q :: Part(r, q) ==> Possible(q, g)
  }

  ghost predicate Part(r: Run, q: Run) { Extends(r, q) }

  ghost predicate Extends(r: Run, q: Run) {
    r == q || (r.Then? && Extends(r.before, q))
  }

  lemma {:induction false} ExtendsTransitive(r: Run, q: Run, p: Run)
    requires Extends(r, q) && Extends(q, p)
    ensures Extends(r, p)
  {
    if r != q { ExtendsTransitive(r.before, q, p); }
  }

  lemma RunGrows(r: Run, t: State, g: Config, step: Step)
    requires IsRun(r, g) && Stepped(r.s, t, g, step) && InOrder(PhaseOf(r), step)
    ensures IsRun(Then(r, step, t), g)
  {
    forall q | Part(Then(r, step, t), q) ensures Possible(q, g) {
      assert q == Then(r, step, t) || Part(r, q);
    }
  }

  lemma RunBegins(s: State, g: Config)
    requires 0 < g.priorities && s.tick <= g.maxTick && s == Initialised(g, s.tick, s.wraps)
    ensures IsRun(Start(s), g)
  {
    forall q | Part(Start(s), q) ensures Possible(q, g) {
      assert q == Start(s);
    }
  }

  lemma RunLast(r: Run, g: Config)
    requires IsRun(r, g)
    ensures Possible(r, g)
    ensures r.Then? ==> IsRun(r.before, g) && Stepped(r.before.s, r.s, g, r.step) && InOrder(PhaseOf(r.before), r.step)
  {
    assert Part(r, r);
    if r.Then? { PrefixIsRun(r, r.before, g); }
  }

  lemma PrefixIsRun(r: Run, q: Run, g: Config)
    requires IsRun(r, g) && Extends(r, q)
    ensures IsRun(q, g)
  {
    forall p | Part(q, p) ensures Possible(p, g) {
      ExtendsTransitive(r, q, p);
      assert Part(r, p);
    }
  }

  lemma InvWeakens(s: State, g: Config)
    requires Inv(s, g)
    ensures InvTick(s, g) && Settled(s)
  {
    FirstIsMember(s.lists[s.delayed].items);
  }

  lemma SettledIsInv(s: State, g: Config)
    requires InvTick(s, g) && Settled(s)
    ensures Inv(s, g)
  {
    NoneDue(s, g);
  }

  /** The head of a non-empty list is a co-routine whose item is on it. */
  lemma HeadHeld(lists: Lists, places: seq<Place>, pl: Place)
    requires Held(lists, places) && pl in lists && Head(lists, pl).Some?
    ensures var c := Head(lists, pl).value; 0 <= c < |places| && places[c] == pl
  {
    var c := HeadOf(lists, places, pl);
  }

  /** Picking keeps the invariant. */
  lemma PickKeeps(s: State, t: State, g: Config, c: int)
    requires InvTick(s, g) && IsNext(s, t, c) && NoneAbove(t, g)
    ensures InvTick(t, g)
  {
    var p := t.priority[c];
    assert s.generic[c] == Ready(p) && s.priority[c] == p;
    Listed(s.lists, s.generic, c);
    AdvanceHeld(s.lists, s.generic, Ready(p));
  }

  /** The steps that interrupts and the loop over the pending list make. */
  lemma EventStepKeeps(s: State, t: State, g: Config, step: Step)
    requires InvTick(s, g) && Stepped(s, t, g, step)
    requires step.Interrupted? || step.Dropped? || step.Released? || step.Called? || step.Cleared?
    ensures InvTick(t, g)
  {
    match step
    case Interrupted(queue) =>
      HeadHeld(s.eventLists, s.event, Waiting(queue));
      UnblockKeeps(s, g, Head(s.eventLists, Waiting(queue)).value);
    case Dropped(c) =>
      HeadHeld(s.eventLists, s.event, Pending);
      DropEventKeeps(s, g, c, s.tick);
    case Released(c) => MoveToReadyKeeps(s, g, c, s.tick);
    case _ =>
  }

  /** The steps of the co-routines themselves. */
  lemma UserStepKeeps(s: State, t: State, g: Config, step: Step)
    requires InvTick(s, g) && Stepped(s, t, g, step) && (step.Created? || step.Delayed?)
    ensures InvTick(t, g)
  {
    SettledIsInv(s, g);
    if step.Created? { AdmitKeeps(s, g, step.p); } else { AddToDelayedKeeps(s, g, step.ticks, step.queue); }
    InvWeakens(t, g);
  }

  /** Every step keeps the invariant of a tick. */
  lemma StepKeeps(s: State, t: State, g: Config, step: Step)
    requires InvTick(s, g) && Stepped(s, t, g, step)
    ensures InvTick(t, g)
  {
    match step
    case Created(_) => UserStepKeeps(s, t, g, step);
    case Delayed(_, _) => UserStepKeeps(s, t, g, step);
    case Ticked =>
      SettledIsInv(s, g);
      TickKeeps(s, g);
    case Expired(c) =>
      HeadHeld(s.lists, s.generic, s.delayed);
      ExpireKeeps(s, g, c);
    case Picked(c) => PickKeeps(s, t, g, c);
    case Idle =>
    case _ => EventStepKeeps(s, t, g, step);
  }

  lemma {:induction false} RunKeeps(r: Run, g: Config)
    requires IsRun(r, g)
    ensures InvTick(r.s, g)
  {
    RunLast(r, g);
    match r
    case Start(s) =>
      InitialisedIsInv(g, s.tick, s.wraps);
      InvWeakens(s, g);
    case Then(before, step, s) =>
      RunKeeps(before, g);
      StepKeeps(before.s, s, g, step);
  }

  // --- delays over whole runs ----------------------------------------------------------------

  ghost predicate Asleep(s: State, c: int, due: int) {
    s.Sized() && s.Exists(c) && !s.generic[c].Ready? && s.due[c] == due
  }

  ghost predicate Awake(s: State, c: int) {
    s.Sized() && s.Exists(c) && s.generic[c] == Ready(s.priority[c])
  }

  /** An event reaches c, or its delay is found to have ended. */
  predicate Touches(s: State, step: Step, c: int) {
    match step
    case Interrupted(queue) => Head(s.eventLists, Waiting(queue)) == Some(c)
    case Dropped(d) => d == c
    case Released(d) => d == c
    case Expired(d) => d == c
    case _ => false
  }

  /** r continues q, and no step in between touches c. */
  ghost predicate Undisturbed(r: Run, q: Run, c: int) {
    r == q || (r.Then? && !Touches(r.before.s, r.step, c) && Undisturbed(r.before, q, c))
  }

  /** vCoRoutineAddToDelayedList puts its caller to sleep until now plus the delay. */
  lemma DelayStarts(s: State, t: State, g: Config, ticks: nat, queue: Option<nat>)
    requires InvTick(s, g) && Stepped(s, t, g, Delayed(ticks, queue))
    ensures Asleep(t, s.current, s.Now(g) + ticks)
  {
  }

  lemma StaysAsleep(s: State, t: State, g: Config, step: Step, c: int, due: int)
    requires Asleep(s, c, due) && Stepped(s, t, g, step) && !Touches(s, step, c)
    ensures Asleep(t, c, due)
  {
  }

  /** Between ticks a sleeper is due later than now, and while a tick is handled not earlier. */
  lemma SleeperIsDue(s: State, g: Config, c: int, due: int)
    requires InvTick(s, g) && Asleep(s, c, due)
    ensures s.Now(g) <= due && (Settled(s) ==> s.Now(g) < due)
  {
    Listed(s.lists, s.generic, c);
    if Settled(s) {
      SettledIsInv(s, g);
      DelayedIsFuture(s, g, c);
    }
  }

  /** As long as no event reaches it and its delay is not found to have ended, a co-routine
      sleeps, and unbounded time does not get past its due time. */
  lemma {:induction false} SleepsUntilDue(r: Run, q: Run, g: Config, c: int, due: int)
    requires IsRun(r, g) && Undisturbed(r, q, c) && Asleep(q.s, c, due)
    ensures Asleep(r.s, c, due) && r.s.Now(g) <= due && (Settled(r.s) ==> r.s.Now(g) < due)
  {
    if r != q {
      RunLast(r, g);
      SleepsUntilDue(r.before, q, g, c, due);
      StaysAsleep(r.before.s, r.s, g, r.step, c, due);
    }
    RunKeeps(r, g);
    SleeperIsDue(r.s, g, c, due);
  }

  /** r is the step that wakes c after its delay, undisturbed since q. */
  ghost predicate WakesAfter(r: Run, q: Run, c: int) {
    r.Then? && r.step.Expired? && r.step.c == c && Undisturbed(r.before, q, c)
  }

  lemma ExpiredAtDue(s: State, t: State, g: Config, c: nat, due: int)
    requires InvTick(s, g) && Stepped(s, t, g, Expired(c)) && Asleep(s, c, due)
    ensures t.Now(g) == due && Awake(t, c)
  {
    HeadIsDue(s, g);
  }

  lemma WakesAtDue(r: Run, q: Run, g: Config, c: int, due: int)
    requires IsRun(r, g) && WakesAfter(r, q, c) && Asleep(q.s, c, due)
    ensures r.s.Now(g) == due && Awake(r.s, c)
  {
    RunLast(r, g);
    SleepsUntilDue(r.before, q, g, c, due);
    RunKeeps(r.before, g);
    ExpiredAtDue(r.before.s, r.s, g, c, due);
  }

  /** No interrupt since q took c off an event list: c got no event. */
  ghost predicate NoEvent(r: Run, q: Run, c: int) {
    r == q || (r.Then? && !TakesOff(r.before.s, r.step, c) && NoEvent(r.before, q, c))
  }

  predicate TakesOff(s: State, step: Step, c: int) {
    step.Interrupted? && Head(s.eventLists, Waiting(step.events)) == Some(c)
  }

  /** c is not on its way from an event list to the ready list. */
  ghost predicate EventFree(r: Run, c: int) {
    r.s.Sized() && r.s.Exists(c) && r.s.event[c] != Pending && PhaseOf(r) != Holding(c)
  }

  /** A step that does not touch a sleeper leaves its event item where it is. */
  lemma EventStays(s: State, t: State, g: Config, step: Step, c: int, due: int)
    requires Asleep(s, c, due) && Stepped(s, t, g, step) && !Touches(s, step, c)
    ensures t.Sized() && t.Exists(c) && t.event[c] == s.event[c]
  {
  }

  /** Without an event, a sleeper is touched by nothing but the end of its delay. */
  lemma OnlyTimeTouches(r: Run, g: Config, c: int)
    requires IsRun(r, g) && r.Then? && EventFree(r.before, c)
    requires !TakesOff(r.before.s, r.step, c) && !(r.step.Expired? && r.step.c == c)
    ensures !Touches(r.before.s, r.step, c)
  {
    RunLast(r, g);
    RunKeeps(r.before, g);
    if r.step.Dropped? { HeadHeld(r.before.s.eventLists, r.before.s.event, Pending); }
  }

  lemma StaysEventFree(r: Run, g: Config, c: int, due: int)
    requires IsRun(r, g) && r.Then? && EventFree(r.before, c) && Asleep(r.before.s, c, due)
    requires !TakesOff(r.before.s, r.step, c) && !(r.step.Expired? && r.step.c == c)
    ensures !Touches(r.before.s, r.step, c) && EventFree(r, c)
  {
    RunLast(r, g);
    OnlyTimeTouches(r, g, c);
    EventStays(r.before.s, r.s, g, r.step, c, due);
  }

  lemma TimeGrows(s: State, t: State, g: Config, step: Step)
    requires InvTick(s, g) && Stepped(s, t, g, step)
    ensures s.Now(g) <= t.Now(g)
  {
  }

  /** At some moment since q the delay of c was found to have ended: unbounded time was due
      then, exactly, and c was made ready. */
  ghost predicate WokenSince(r: Run, q: Run, g: Config, c: int, due: int) {
    && r != q && r.Then?
    && ((WakesAfter(r, q, c) && r.s.Now(g) == due && Awake(r.s, c)) || WokenSince(r.before, q, g, c, due))
  }

  /** Either c was woken at exactly its due time, or it sleeps and that time has not come, but
      for the round of the loop in which it comes. */
  ghost predicate SleepsOrWoken(r: Run, q: Run, g: Config, c: int, due: int) {
    if WokenSince(r, q, g, c, due) then due <= r.s.Now(g)
    else Asleep(r.s, c, due) && r.s.Now(g) <= due && (Settled(r.s) ==> r.s.Now(g) < due)
  }

  lemma {:induction false} NoEventNoWaking(r: Run, q: Run, g: Config, c: int, due: int)
    requires IsRun(r, g) && NoEvent(r, q, c) && Asleep(q.s, c, due) && EventFree(q, c)
    ensures SleepsOrWoken(r, q, g, c, due)
    ensures !WokenSince(r, q, g, c, due) ==> Undisturbed(r, q, c) && EventFree(r, c)
  {
    if r == q {
      SleepsUntilDue(r, q, g, c, due);
    } else {
      RunLast(r, g);
      RunKeeps(r.before, g);
      NoEventNoWaking(r.before, q, g, c, due);
      TimeGrows(r.before.s, r.s, g, r.step);
      if !WokenSince(r.before, q, g, c, due) {
        if r.step.Expired? && r.step.c == c {
          WakesAtDue(r, q, g, c, due);
        } else {
          StaysEventFree(r, g, c, due);
          SleepsUntilDue(r, q, g, c, due);
        }
      }
    }
  }

  /** Whose delay it was that began with the last step of q, and when it ends. */
  ghost predicate BeginsDelay(q: Run, g: Config, c: int, due: int) {
    q.Then? && q.step.Delayed? && c == q.before.s.current && due == q.before.s.Now(g) + q.step.ticks
  }

  lemma DelayIsEventFree(q: Run, g: Config, c: int, due: int)
    requires IsRun(q, g) && BeginsDelay(q, g, c, due)
    ensures Asleep(q.s, c, due) && EventFree(q, c)
  {
    RunLast(q, g);
    RunKeeps(q.before, g);
    DelayStarts(q.before.s, q.s, g, q.step.ticks, q.step.queue);
  }

  /** Tick-wrap exactness: over any number of counter wraps and list exchanges, a delayed
      co-routine that gets no event, whether or not it waits for one, sleeps until exactly
      that round of the loop at which unbounded time is the time of the call plus the delay,
      and is made ready in it. */
  lemma WokenExactlyWhenDue(r: Run, q: Run, g: Config, c: int, due: int)
    requires IsRun(r, g) && Extends(r, q) && BeginsDelay(q, g, c, due) && NoEvent(r, q, c)
    ensures SleepsOrWoken(r, q, g, c, due)
  {
    PrefixIsRun(r, q, g);
    DelayIsEventFree(q, g, c, due);
    NoEventNoWaking(r, q, g, c, due);
  }

  /** The same of everybody who sleeps at a given moment with no event on its way. */
  ghost predicate SleepersKept(r: Run, q: Run, g: Config) {
    forall c, due :: Asleep(q.s, c, due) && q.s.event[c] != Pending && NoEvent(r, q, c) ==>
      SleepsOrWoken(r, q, g, c, due)
  }

  lemma RunKeepsSleepers(r: Run, q: Run, g: Config)
    requires IsRun(r, g) && Extends(r, q) && !PhaseOf(q).Holding?
    ensures SleepersKept(r, q, g)
  {
    forall c, due | Asleep(q.s, c, due) && q.s.event[c] != Pending && NoEvent(r, q, c)
      ensures SleepsOrWoken(r, q, g, c, due)
    {
      NoEventNoWaking(r, q, g, c, due);
    }
  }

  // --- events over whole runs ----------------------------------------------------------------

  ghost predicate OnPending(s: State, c: int) {
    s.Sized() && s.Exists(c) && s.event[c] == Pending
  }

  /** What a co-routine on the pending list has got to by each phase of the next call; an event
      that comes when the pending list has been done is late for this call. */
  ghost predicate OnItsWay(phase: Phase, s: State, c: int, late: bool) {
    && s.Sized() && s.Exists(c)
    && match phase
       case Outside => OnPending(s, c)
       case Clearing => OnPending(s, c) || Awake(s, c)
       case Holding(d) => OnPending(s, c) || Awake(s, c) || (c == d && s.event[c] == Nowhere)
       case Waking => (late && OnPending(s, c)) || Awake(s, c)
  }

  predicate Ends(step: Step) { step.Picked? || step.Idle? }

  /** r continues q, and no call of the scheduler has ended in between. */
  ghost predicate SameCall(r: Run, q: Run) {
    r == q || (r.Then? && !Ends(r.step) && SameCall(r.before, q))
  }

  lemma PendingStays(s: State, t: State, g: Config, step: Step, c: int)
    requires InvTick(s, g) && Stepped(s, t, g, step) && s.Exists(c) && s.event[c] == Pending
    requires step != Dropped(c) && step != Expired(c)
    ensures t.Sized() && t.Exists(c) && t.event[c] == Pending
  {
    if step.Interrupted? { HeadHeld(s.eventLists, s.event, Waiting(step.events)); }
  }

  lemma AwakeStays(s: State, t: State, g: Config, step: Step, c: int)
    requires InvTick(s, g) && Stepped(s, t, g, step) && Awake(s, c) && !step.Delayed?
    ensures Awake(t, c)
  {
    if step.Expired? { HeadHeld(s.lists, s.generic, s.delayed); }
  }

  lemma ClearedIsEmpty(s: State, g: Config, c: int)
    requires Structure(s, g) && s.Exists(c) && ListAt(s.eventLists, Pending).items == []
    ensures s.event[c] != Pending
  {
    if s.event[c] == Pending { Listed(s.eventLists, s.event, c); }
  }

  /** What is then said of it after one more step. */
  ghost predicate ComesNearer(phase: Phase, step: Step, t: State, c: int, late: bool) {
    if Ends(step) then Awake(t, c) || (late && OnPending(t, c)) else OnItsWay(NextPhase(phase, step), t, c, late)
  }

  lemma AwakeStep(s: State, t: State, g: Config, phase: Phase, step: Step, c: int, late: bool)
    requires InvTick(s, g) && Stepped(s, t, g, step) && InOrder(phase, step)
    requires OnItsWay(phase, s, c, late) && Awake(s, c)
    ensures ComesNearer(phase, step, t, c, late)
  {
    assert phase != Outside;
    AwakeStays(s, t, g, step, c);
  }

  lemma PendingAwakes(s: State, t: State, g: Config, phase: Phase, step: Step, c: int, late: bool)
    requires InvTick(s, g) && Stepped(s, t, g, step) && InOrder(phase, step)
    requires OnItsWay(phase, s, c, late) && OnPending(s, c)
    ensures ComesNearer(phase, step, t, c, late)
  {
    PendingTaken(s, t, g, step, c);
    if step != Dropped(c) && step != Expired(c) {
      PendingStays(s, t, g, step, c);
      PendingNearer(t, phase, step, c, late);
    }
  }

  lemma PendingNearer(t: State, phase: Phase, step: Step, c: int, late: bool)
    requires InOrder(phase, step) && OnPending(t, c) && !step.Cleared? && (phase == Waking ==> late)
    ensures ComesNearer(phase, step, t, c, late)
  {
  }

  lemma PendingTaken(s: State, t: State, g: Config, step: Step, c: int)
    requires InvTick(s, g) && Stepped(s, t, g, step) && OnPending(s, c)
    ensures !step.Cleared? && !Awake(s, c) && t.Sized() && t.Exists(c)
    ensures step == Dropped(c) ==> t.event[c] == Nowhere
    ensures step == Expired(c) ==> Awake(t, c)
  {
    if step.Cleared? { ClearedIsEmpty(s, g, c); }
  }

  lemma HeldAwakes(s: State, t: State, g: Config, phase: Phase, step: Step, c: int, late: bool)
    requires InvTick(s, g) && Stepped(s, t, g, step) && InOrder(phase, step)
    requires OnItsWay(phase, s, c, late) && !OnPending(s, c) && !Awake(s, c)
    ensures ComesNearer(phase, step, t, c, late)
  {
    assert phase == Holding(c) && s.event[c] == Nowhere;
    if step.Interrupted? {
      HeadHeld(s.eventLists, s.event, Waiting(step.events));
    } else {
      assert step == Released(c) && Awake(t, c);
    }
  }

  lemma OnItsWayStep(s: State, t: State, g: Config, phase: Phase, step: Step, c: int, late: bool)
    requires InvTick(s, g) && Stepped(s, t, g, step) && InOrder(phase, step)
    requires OnItsWay(phase, s, c, late)
    ensures ComesNearer(phase, step, t, c, late)
  {
    if Awake(s, c) {
      AwakeStep(s, t, g, phase, step, c, late);
    } else if OnPending(s, c) {
      PendingAwakes(s, t, g, phase, step, c, late);
    } else {
      HeldAwakes(s, t, g, phase, step, c, late);
    }
  }

  lemma {:induction false} OnItsWayInCall(r: Run, q: Run, g: Config, c: int)
    requires IsRun(r, g) && SameCall(r, q) && OnPending(q.s, c)
    ensures OnItsWay(PhaseOf(r), r.s, c, PhaseOf(q) == Waking)
  {
    if r != q {
      RunLast(r, g);
      RunKeeps(r.before, g);
      OnItsWayInCall(r.before, q, g, c);
      OnItsWayStep(r.before.s, r.s, g, PhaseOf(r.before), r.step, c, PhaseOf(q) == Waking);
    }
  }

  /** The history ends with the first end of a call since q. */
  ghost predicate EndsNextCall(r: Run, q: Run) {
    r.Then? && Ends(r.step) && SameCall(r.before, q)
  }

  /** No lost event: a co-routine on the pending list is awake at the end of the next call of
      the scheduler, or of the call that is clearing the list; if that had been done before the
      event came, the co-routine is awake at the end of this call or still on the list, and so
      awake at the end of the one after. */
  lemma EventWakes(r: Run, q: Run, g: Config, c: int)
    requires IsRun(r, g) && EndsNextCall(r, q) && OnPending(q.s, c)
    ensures Awake(r.s, c) || (PhaseOf(q) == Waking && OnPending(r.s, c))
    ensures PhaseOf(r) == Outside
  {
    RunLast(r, g);
    RunKeeps(r.before, g);
    OnItsWayInCall(r.before, q, g, c);
    OnItsWayStep(r.before.s, r.s, g, PhaseOf(r.before), r.step, c, PhaseOf(q) == Waking);
  }

  /** The same from the interrupt on that finds c at the head of an event list. */
  lemma InterruptWakes(r: Run, q: Run, g: Config, c: int)
    requires IsRun(r, g) && Extends(r, q) && EndsNextCall(r, q)
    requires q.Then? && TakesOff(q.before.s, q.step, c)
    ensures OnPending(q.s, c)
    ensures Awake(r.s, c) || (PhaseOf(q) == Waking && OnPending(r.s, c))
  {
    PrefixIsRun(r, q, g);
    RunLast(q, g);
    RunKeeps(q.before, g);
    UnblockReaches(q.before.s, g, q.step.events, c);
    EventWakes(r, q, g, c);
  }

  // --- turns over whole runs -------------------------------------------------------------------

  /** What a step does to the ready list of priority p: at most one list operation. */
  function ListOp(s: State, step: Step, p: int): Option<Op<int>> {
    match step
    case Created(p') => if p' == p then Some(Append(|s.priority|)) else None
    case Delayed(_, _) => if s.Exists(s.current) && s.priority[s.current] == p then Some(Delete(s.current)) else None
    case Released(c) => if s.Exists(c) && s.priority[c] == p then Some(Append(c)) else None
    case Expired(c) => if s.Exists(c) && s.priority[c] == p then Some(Append(c)) else None
    case Picked(c) => if s.Exists(c) && s.priority[c] == p then Some(Next) else None
    case _ => None
  }

  lemma MoveOnList(s: State, g: Config, c: nat, p: int)
    requires s.Sized() && Addresses(s, g) && Held(s.lists, s.generic)
    requires s.Exists(c) && !s.generic[c].Ready? && 0 <= p < g.priorities
    ensures var t := MoveToReady(s, c); var r := s.lists[Ready(p)];
            && c !in r.items && Ready(p) in t.lists
            && t.lists[Ready(p)] == if s.priority[c] == p then r.InsertEnd(c) else r
  {
    assert Holds(s.lists[Ready(p)], s.generic, Ready(p));
  }

  lemma DelayOnList(s: State, g: Config, ticks: nat, queue: Option<nat>, p: int)
    requires InvTick(s, g) && s.Exists(s.current) && s.generic[s.current].Ready? && 0 <= p < g.priorities
    ensures var t := AddToDelayed(s, g, ticks, queue); var r := s.lists[Ready(p)];
            && |t.generic| == |s.generic| && !t.generic[s.current].Ready? && Ready(p) in t.lists
            && (s.priority[s.current] == p ==> s.current in r.items)
            && t.lists[Ready(p)] == if s.priority[s.current] == p then r.Remove(s.current) else r
  {
    Listed(s.lists, s.generic, s.current);
  }

  lemma StepOnList(s: State, t: State, g: Config, step: Step, p: int)
    requires InvTick(s, g) && Stepped(s, t, g, step) && 0 <= p < g.priorities
    ensures var r, op := s.lists[Ready(p)], ListOp(s, step, p);
            && r.WellFormed() && Ready(p) in t.lists
            && (op.Some? ==> Enabled(r, op.value))
            && t.lists[Ready(p)] == if op.Some? then Apply(r, op.value) else r
  {
    assert Holds(s.lists[Ready(p)], s.generic, Ready(p));
    match step
    case Delayed(ticks, queue) => DelayOnList(s, g, ticks, queue, p);
    case Released(c) => MoveOnList(s, g, c, p);
    case Expired(c) => ExpireOnList(s, g, c, p);
    case Created(_) =>
    case Picked(_) =>
    case _ => NothingOnList(s, t, g, step, p);
  }

  lemma ExpireOnList(s: State, g: Config, c: nat, p: int)
    requires InvTick(s, g) && Head(s.lists, s.delayed) == Some(c) && s.Exists(c) && 0 <= p < g.priorities
    ensures var t := Expire(s, g, c); var r := s.lists[Ready(p)];
            && c !in r.items && Ready(p) in t.lists
            && t.lists[Ready(p)] == if s.priority[c] == p then r.InsertEnd(c) else r
  {
    HeadHeld(s.lists, s.generic, s.delayed);
    MoveOnList(s, g, c, p);
    if s.event[c] != Nowhere { MoveOnList(DropEvent(s, c), g, c, p); }
  }

  lemma NothingOnList(s: State, t: State, g: Config, step: Step, p: int)
    requires InvTick(s, g) && Stepped(s, t, g, step) && 0 <= p < g.priorities
    requires !step.Created? && !step.Delayed? && !step.Released? && !step.Expired? && !step.Picked?
    ensures ListOp(s, step, p) == None && t.lists == s.lists && Ready(p) in s.lists
  {
  }

  /** c is ready, with at most m on the list of its priority. */
  ghost predicate InLine(s: State, c: int, m: nat) {
    Awake(s, c) && |ListAt(s.lists, Ready(s.priority[c])).items| <= m
  }

  /** r continues q; all the while c is ready with at most m on its list, and is not picked. */
  ghost predicate Waits(r: Run, q: Run, c: int, m: nat) {
    && InLine(r.s, c, m)
    && (r == q || (r.Then? && !(r.step.Picked? && r.step.c == c) && Waits(r.before, q, c, m)))
  }

  /** How often since q somebody of priority p was picked. */
  ghost function Turns(r: Run, q: Run, p: int): nat {
    if r == q || r.Start? then 0
    else Turns(r.before, q, p) + if r.step.Picked? && r.s.top == p then 1 else 0
  }

  /** The ready list that c is on when it is ready. */
  function Line(s: State, c: int): Ring<int> {
    if 0 <= c < |s.priority| then ListAt(s.lists, Ready(s.priority[c])) else Ring([], 0)
  }

  predicate OnList(r: Ring<int>, c: int, m: nat) {
    r.WellFormed() && c in r.items && |r.items| <= m
  }

  /** The steps of the cursor that can be made before c must be reached. */
  function Way(r: Ring<int>, c: int, m: nat): int {
    if OnList(r, c, m) then Potential(r, c, m) else 0
  }

  lemma LineIsList(s: State, g: Config, c: int, m: nat)
    requires InvTick(s, g) && InLine(s, c, m)
    ensures OnList(Line(s, c), c, m) && 0 < Way(Line(s, c), c, m) < 2 * m
  {
    Listed(s.lists, s.generic, c);
    var r := Line(s, c);
    assert Misses(r, [], c, m);
    EveryItemIsReached(r, [], c, m);
  }

  /** A list operation that leaves c on the list, and does not step onto it. */
  lemma OpOnWay(r: Ring<int>, op: Op<int>, c: int, m: nat)
    requires OnList(r, c, m) && Enabled(r, op) && op != Delete(c) && OnList(Apply(r, op), c, m)
    requires op.Next? ==> !Apply(r, op).At(c)
    ensures Way(Apply(r, op), c, m) + (if op.Next? then 1 else 0) <= Way(r, c, m)
  {
    PotentialStep(r, op, c, m);
  }

  lemma PickPasses(s: State, t: State, d: int, c: int)
    requires s.Sized() && IsNext(s, t, d) && Awake(s, c) && d != c
    ensures t.priority == s.priority && s.Exists(d) && t.top == s.priority[d]
    ensures s.priority[d] == s.priority[c] ==> !Line(t, c).At(c)
  {
  }

  lemma PriorityStays(s: State, t: State, g: Config, step: Step, c: int)
    requires Stepped(s, t, g, step) && s.Exists(c)
    ensures t.Exists(c) && t.priority[c] == s.priority[c]
  {
  }

  /** A step with c in line before and after does not take c off. */
  lemma NotDeleted(s: State, t: State, g: Config, step: Step, c: int)
    requires InvTick(s, g) && Stepped(s, t, g, step) && Awake(s, c) && Awake(t, c)
    ensures ListOp(s, step, s.priority[c]) != Some(Delete(c))
  {
    if step.Delayed? { DelayOnList(s, g, step.ticks, step.queue, s.priority[c]); }
  }

  /** The cursor of c's list moves exactly by a pick at its priority, and not onto c if another
      is picked. */
  lemma NextIsPick(s: State, t: State, g: Config, step: Step, c: int)
    requires Stepped(s, t, g, step) && Awake(s, c) && !(step.Picked? && step.c == c)
    ensures var next := ListOp(s, step, s.priority[c]) == Some(Next);
            && (next ==> step.Picked? && !Line(t, c).At(c))
            && (step.Picked? && t.top == s.priority[c] ==> next)
  {
    if step.Picked? { PickPasses(s, t, step.c, c); }
  }

  lemma StepInLine(s: State, t: State, g: Config, step: Step, c: int, m: nat)
    requires InvTick(s, g) && InvTick(t, g) && Stepped(s, t, g, step) && InLine(s, c, m) && InLine(t, c, m)
    requires !(step.Picked? && step.c == c)
    ensures t.priority[c] == s.priority[c]
    ensures Way(Line(t, c), c, m) + (if step.Picked? && t.top == s.priority[c] then 1 else 0) <= Way(Line(s, c), c, m)
  {
    LineIsList(s, g, c, m);
    LineIsList(t, g, c, m);
    StepOnList(s, t, g, step, s.priority[c]);
    PriorityStays(s, t, g, step, c);
    NotDeleted(s, t, g, step, c);
    NextIsPick(s, t, g, step, c);
    var op := ListOp(s, step, s.priority[c]);
    if op.Some? { OpOnWay(Line(s, c), op.value, c, m); }
  }

  lemma {:induction false} TurnsShorten(r: Run, q: Run, g: Config, c: int, m: nat)
    requires IsRun(r, g) && Waits(r, q, c, m)
    ensures Extends(r, q) && InLine(q.s, c, m) && r.s.priority[c] == q.s.priority[c]
    ensures Turns(r, q, q.s.priority[c]) + Way(Line(r.s, c), c, m) <= Way(Line(q.s, c), c, m)
  {
    if r != q {
      RunLast(r, g);
      TurnsShorten(r.before, q, g, c, m);
      RunKeeps(r.before, g);
      RunKeeps(r, g);
      StepInLine(r.before.s, r.s, g, r.step, c, m);
    }
  }

  /** Round robin over whole runs: while c is ready with never more than m at its priority,
      at most 2 m - 2 times is somebody else of that priority picked before it. */
  lemma TurnComes(r: Run, q: Run, g: Config, c: int, m: nat)
    requires IsRun(r, g) && Waits(r, q, c, m)
    ensures InLine(q.s, c, m) && Turns(r, q, q.s.priority[c]) <= 2 * m - 2
  {
    TurnsShorten(r, q, g, c, m);
    PrefixIsRun(r, q, g);
    RunKeeps(r, g);
    RunKeeps(q, g);
    LineIsList(r.s, g, c, m);
    LineIsList(q.s, g, c, m);
  }

  // --- the scheduler ----------------------------------------------------------------------

  class Scheduler {
    const g: Config
    var s: State
    var lastTick: nat                  // xLastTickCount
    var passed: int                    // xPassedTicks
    ghost var run: Run                 // what has happened since the first creation

    /** Either nothing was created yet, or the scheduler's invariant holds. */
    ghost predicate Valid()
      reads this
    {
      ValidIn(Outside)
    }

    /** The same at some point of vCoRoutineSchedule. */
    ghost predicate ValidIn(phase: Phase)
      reads this
    {
      && lastTick == s.tick <= g.maxTick && 0 < g.priorities
      && (if s.delayed == Nowhere then s == Blank(g, s.tick, s.wraps) else s.priority != [] && Inv(s, g))
      && Recorded() && PhaseOf(run) == phase
    }

    /** The history so far leads to the state now, by possible steps alone. */
    ghost predicate Recorded()
      reads this
    {
      run.s == s && (s.delayed != Nowhere ==> IsRun(run, g))
    }

    ghost method Record(step: Step)
      requires IsRun(run, g) && Stepped(run.s, s, g, step) && InOrder(PhaseOf(run), step)
      modifies this`run
      ensures run == Then(old(run), step, s) && IsRun(run, g) && Extends(run, old(run))
    {
      RunGrows(run, s, g, step);
      run := Then(run, step, s);
    }

    /** Before any co-routine exists. */
    constructor (g: Config)
      requires 0 < g.priorities
      ensures Valid() && this.g == g && s == Blank(g, 0, 0)
    {
      this.g := g;
      s := Blank(g, 0, 0);
      lastTick, passed := 0, 0;
      run := Start(Blank(g, 0, 0));
    }

    /** prvInitialiseCoRoutineLists */
    method InitialiseLists()
      requires s == Blank(g, s.tick, s.wraps)
      modifies this`s
      ensures s == Initialised(g, old(s.tick), old(s.wraps))
    {
      for p := 0 to g.priorities
        invariant s == old(s).(lists := ReadyLists(p))
      {
        s := s.(lists := s.lists[Ready(p) := Ring([], 0)]);
      }
      s := s.(lists := s.lists[Delay1 := Ring([], 0)]);
      s := s.(lists := s.lists[Delay2 := Ring([], 0)]);
      s := s.(eventLists := s.eventLists[Pending := Ring([], 0)]);
      s := s.(delayed := Delay1, overflow := Delay2);
    }

    /** xCoRoutineCreate; memory says whether the control block could be allocated */
    method Create(p: nat, memory: bool) returns (pass: bool)
      requires Valid()
      modifies this`s, this`run
      ensures Valid() && pass == memory && (pass ==> s.delayed != Nowhere)
      ensures old(s).delayed != Nowhere ==> Extends(run, old(run))
      ensures s == if !pass then old(s)
                   else Admit(if old(s).delayed == Nowhere then Initialised(g, s.tick, s.wraps) else old(s), g,
                              if p >= g.priorities then g.priorities - 1 else p)
      ensures pass && old(s).delayed != Nowhere ==>
        IsAdmitted(old(s), s, if p < g.priorities then p else g.priorities - 1)
      ensures pass && old(s).delayed == Nowhere ==>
        s.priority == [if p < g.priorities then p else g.priorities - 1] && s.current == 0 && Awake(s, 0)
    {
      pass := memory;
      if !memory { return; }
      ghost var capped := if p >= g.priorities then g.priorities - 1 else p;
      if s.priority != [] { AdmitExactly(s, g, capped); }
      if s.priority == [] {
        InitialiseLists();
        InitialisedIsInv(g, s.tick, s.wraps);
        run := Start(s);
        RunBegins(s, g);
      }
      Join(if p >= g.priorities then g.priorities - 1 else p);
    }

    /** The new co-routine takes part. */
    method Join(p: nat)
      requires Inv(s, g) && p < g.priorities && run.s == s && IsRun(run, g) && PhaseOf(run) == Outside
      modifies this`s, this`run
      ensures s == Admit(old(s), g, p) && Inv(s, g) && run == Then(old(run), Created(p), s)
      ensures IsRun(run, g) && Extends(run, old(run))
    {
      InvWeakens(s, g);
      AdmitKeeps(s, g, p);
      FillIn(p);
      Record(Created(p));
    }

    /** The part of xCoRoutineCreate that fills in the control block. */
    method FillIn(p: nat)
      requires s.Sized() && p < g.priorities
      modifies this`s
      ensures s == Admit(old(s), g, p)
    {
      var c := |s.priority|;
      if c == 0 { s := s.(current := c); }
      s := s.(priority := s.priority + [p], value := s.value + [0], eventValue := s.eventValue + [g.priorities - p],
              generic := s.generic + [Nowhere], event := s.event + [Nowhere],
              due := s.due + [0], woken := s.woken + [0]);
      AddToReadyQueue(c);
      assert (old(s).generic + [Nowhere])[c := Ready(p)] == old(s).generic + [Ready(p)];
    }

    /** prvAddCoRoutineToReadyQueue */
    method AddToReadyQueue(c: nat)
      requires c < |s.priority| == |s.generic|
      modifies this`s
      ensures var p := old(s).priority[c];
              s == old(s).(top := if p > old(s).top then p else old(s).top,
                           lists := PutEnd(old(s).lists, Ready(p), c),
                           generic := old(s).generic[c := Ready(p)])
    {
      if s.priority[c] > s.top {
        s := s.(top := s.priority[c]);
      }
      s := s.(lists := PutEnd(s.lists, Ready(s.priority[c]), c), generic := s.generic[c := Ready(s.priority[c])]);
    }

    /** The first half of vCoRoutineAddToDelayedList. */
    method MoveToDelayed(ticks: nat)
      requires s.Sized() && s.Exists(s.current)
      modifies this`s
      ensures s == JoinDelayed(old(s), g, ticks)
    {
      var c, keys := s.current, s.value;
      var wake := WakeValue(s.tick, ticks, g.maxTick);
      s := s.(lists := Take(s.lists, s.generic, c), generic := s.generic[c := Nowhere]);
      s := s.(value := s.value[c := wake]);
      if wake < s.tick {
        s := s.(lists := PutSorted(s.lists, s.overflow, c, wake, keys), generic := s.generic[c := s.overflow]);
      } else {
        s := s.(lists := PutSorted(s.lists, s.delayed, c, wake, keys), generic := s.generic[c := s.delayed]);
      }
      s := s.(due := s.due[c := s.Now(g) + ticks]);
      assert old(s).generic[c := Nowhere][c := s.generic[c]] == old(s).generic[c := s.generic[c]];
    }

    /** vCoRoutineAddToDelayedList, called by the running co-routine */
    method AddToDelayedList(ticks: nat, queue: Option<nat>)
      requires Valid() && s.delayed != Nowhere && MayDelay(s, g, ticks) && (queue.Some? ==> queue.value < g.queues)
      modifies this`s, this`run
      ensures Valid() && s == AddToDelayed(old(s), g, ticks, queue) && run == Then(old(run), Delayed(ticks, queue), s)
      ensures WentToSleep(old(s), s, g, ticks) && WentToWait(old(s), s, queue)
      ensures s.due[s.current] == s.Now(g) + ticks && !s.generic[s.current].Ready?
    {
      InvWeakens(s, g);
      AddToDelayedKeeps(s, g, ticks, queue);
      AddToDelayedExactly(s, g, ticks, queue);
      MoveToDelayed(ticks);
      if queue.Some? {
        var c, q := s.current, Waiting(queue.value);
        s := s.(event := s.event[c := q], eventLists := PutSorted(s.eventLists, q, c, s.eventValue[c], s.eventValue));
      }
      Record(Delayed(ticks, queue));
    }

    /** xCoRoutineRemoveFromEventList, called by an interrupt when the event list is not empty */
    method RemoveFromEventList(queue: nat) returns (higher: bool)
      requires s.delayed != Nowhere && s.priority != [] && queue < g.queues
      requires Structure(s, g) && ListAt(s.eventLists, Waiting(queue)).items != [] && Recorded()
      modifies this`s, this`run
      ensures var c := old(s).eventLists[Waiting(queue)].items[0];
              && s.Exists(c) && s == Unblock(old(s), c)
              && higher == (s.priority[c] >= s.priority[s.current])
              && (forall d :: d in old(s).eventLists[Waiting(queue)].items ==>
                    s.Exists(d) && s.priority[d] <= s.priority[c])
      ensures Reached(old(s), s, queue, old(s).eventLists[Waiting(queue)].items[0])
      ensures Structure(s, g) && Recorded() && run == Then(old(run), Interrupted(queue), s)
      ensures forall low :: old(Timed(s, g, low)) ==> Timed(s, g, low)
    {
      var from := Waiting(queue);
      assert Holds(s.eventLists[from], s.event, from);
      var c := s.eventLists[from].items[0];
      forall d | d in s.eventLists[from].items ensures s.Exists(d) && s.priority[d] <= s.priority[c] {
        HeadIsHighest(s, g, queue, d);
      }
      UnblockKeeps(s, g, c);
      UnblockReaches(s, g, queue, c);
      s := s.(eventLists := Take(s.eventLists, s.event, c), event := s.event[c := Nowhere]);
      s := s.(eventLists := PutEnd(s.eventLists, Pending, c), event := s.event[c := Pending]);
      assert old(s).event[c := Nowhere][c := Pending] == old(s).event[c := Pending];
      Record(Interrupted(queue));
      higher := s.priority[c] >= s.priority[s.current];
    }

    /** An interrupt that finds someone on this event list. */
    method Interrupt(queue: nat)
      requires s.delayed != Nowhere && s.priority != [] && Structure(s, g) && Recorded()
      requires queue < g.queues && ListAt(s.eventLists, Waiting(queue)).items != []
      modifies this`s, this`run
      ensures Structure(s, g) && OnlyInterrupts(old(s), s) && Recorded() && Extends(run, old(run))
      ensures PhaseOf(run) == PhaseOf(old(run))
    {
      assert Holds(s.eventLists[Waiting(queue)], s.event, Waiting(queue));
      assert s.eventLists[Waiting(queue)].items[0] in s.eventLists[Waiting(queue)].items;
      var higher := RemoveFromEventList(queue);
    }

    /** Any number of interrupts, each taking a waiting co-routine off some event list. */
    method Interrupts()
      requires s.delayed != Nowhere && s.priority != [] && Structure(s, g) && Recorded()
      modifies this`s, this`run
      ensures Structure(s, g) && OnlyInterrupts(old(s), s) && Recorded() && Extends(run, old(run))
      ensures PhaseOf(run) == PhaseOf(old(run))
    {
      var n: int := *;
      while n > 0
        invariant Structure(s, g) && OnlyInterrupts(old(s), s) && Recorded() && Extends(run, old(run))
        invariant PhaseOf(run) == PhaseOf(old(run))
      {
        n := n - 1;
        var queue: int := *;
        if 0 <= queue < g.queues && s.eventLists[Waiting(queue)].items != [] {
          ghost var r0 := run;
          Interrupt(queue);
          ExtendsTransitive(run, r0, old(run));
        }
      }
    }

    /** uxListRemove of the generic item, then prvAddCoRoutineToReadyQueue. */
    method MoveToReadyList(c: nat)
      requires c < |s.generic| == |s.priority|
      modifies this`s
      ensures s == MoveToReady(old(s), c)
    {
      s := s.(lists := Take(s.lists, s.generic, c), generic := s.generic[c := Nowhere]);
      AddToReadyQueue(c);
      assert old(s).generic[c := Nowhere][c := s.generic[c]] == s.generic;
    }

    /** The second half of a round over the pending list. */
    method Release(c: nat)
      requires s.Sized() && s.Exists(c) && run.s == s && IsRun(run, g)
      requires s.event[c] == Nowhere && !s.generic[c].Ready? && PhaseOf(run) == Holding(c)
      modifies this`s, this`run
      ensures s == MoveToReady(old(s), c) && run == Then(old(run), Released(c), s)
      ensures IsRun(run, g) && Extends(run, old(run))
    {
      MoveToReadyList(c);
      Record(Released(c));
    }

    /** The first half of a round: interrupts, then the event item is taken off. */
    method UnlinkFirstPending() returns (c: nat, ghost before: State)
      requires ValidIn(Clearing) && s.delayed != Nowhere && s.eventLists[Pending].items != []
      modifies this`s, this`run
      ensures Structure(before, g) && OnlyInterrupts(old(s), before)
      ensures Recorded() && Extends(run, old(run)) && PhaseOf(run) == Holding(c)
      ensures before.Exists(c) && before.event[c] == Pending && s == DropEvent(before, c)
      ensures Structure(s, g) && s.priority != [] && s.delayed != Nowhere
    {
      ghost var s0 := s;
      Interrupts();
      before := s;
      ghost var r1 := run;
      ghost var head := PendingHead(s0, s, g);
      c := s.eventLists[Pending].items[0];
      Drop(c);
      ExtendsTransitive(run, r1, old(run));
    }

    /** The part of the round that runs with interrupts disabled. */
    method Drop(c: nat)
      requires s.Sized() && s.Exists(c) && run.s == s && IsRun(run, g)
      requires Head(s.eventLists, Pending) == Some(c) && PhaseOf(run) == Clearing
      modifies this`s, this`run
      ensures s == DropEvent(old(s), c) && run == Then(old(run), Dropped(c), s)
      ensures IsRun(run, g) && Extends(run, old(run))
    {
      s := DropEvent(s, c);
      Record(Dropped(c));
    }

    /** The rest of a round: more interrupts, then the co-routine in hand is made ready. */
    method FinishRound(c: nat, ghost s0: State, ghost before: State)
      requires Inv(s0, g) && Structure(before, g) && before.Exists(c) && before.event[c] == Pending
      requires OnlyInterrupts(s0, before) && s == DropEvent(before, c)
      requires Structure(s, g) && s.priority != [] && s.delayed != Nowhere && Recorded() && PhaseOf(run) == Holding(c)
      modifies this`s, this`run
      ensures Inv(s, g) && Readied(s0, s) && Listening(s) < Listening(s0) && s.delayed != Nowhere && s.priority != []
      ensures Recorded() && Extends(run, old(run)) && PhaseOf(run) == Clearing
    {
      Interrupts();
      ghost var r := run;
      PendingStep(s0, before, s, g, c);
      Release(c);
      ExtendsTransitive(run, r, old(run));
    }

    /** One round of the loop in prvCheckPendingReadyList. Interrupts may come before the
        event item is taken off and again before the generic item is moved. */
    method ReadyFirstPending()
      requires ValidIn(Clearing) && s.delayed != Nowhere && s.eventLists[Pending].items != []
      modifies this`s, this`run
      ensures ValidIn(Clearing) && s.delayed != Nowhere && Readied(old(s), s) && Extends(run, old(run))
      ensures Listening(s) < Listening(old(s))
    {
      ghost var s0 := s;
      var c, before := UnlinkFirstPending();
      ghost var r1 := run;
      FinishRound(c, s0, before);
      ExtendsTransitive(run, r1, old(run));
    }

    /** prvCheckPendingReadyList */
    method CheckPendingReadyList()
      requires ValidIn(Clearing) && s.delayed != Nowhere
      modifies this`s, this`run
      ensures ValidIn(Waking) && s.delayed != Nowhere && Readied(old(s), s) && Extends(run, old(run))
      ensures s.eventLists[Pending].items == []
    {
      while s.eventLists[Pending].items != []
        invariant ValidIn(Clearing) && s.delayed != Nowhere && Readied(old(s), s) && Extends(run, old(run))
        decreases Listening(s)
      {
        ghost var s0, r0 := s, run;
        ReadyFirstPending();
        ReadiedTransitive(old(s), s0, s, g);
        ExtendsTransitive(run, r0, old(run));
      }
      ghost var r1 := run;
      Record(Cleared);
      ExtendsTransitive(run, r1, old(run));
    }

    /** What the inner loop of prvCheckDelayedList does to a head that has timed out. */
    method Wake(c: nat)
      requires s.Sized() && s.Exists(c) && run.s == s && IsRun(run, g)
      requires Head(s.lists, s.delayed) == Some(c) && s.value[c] <= s.tick && PhaseOf(run) == Waking
      modifies this`s, this`run
      ensures s == Expire(old(s), g, c) && run == Then(old(run), Expired(c), s)
      ensures IsRun(run, g) && Extends(run, old(run))
    {
      TakeOff(c);
      Record(Expired(c));
    }

    method TakeOff(c: nat)
      requires s.Sized() && s.Exists(c)
      modifies this`s
      ensures s == Expire(old(s), g, c)
    {
      if s.event[c] != Nowhere {
        s := DropEvent(s, c);
      }
      MoveToReadyList(c);
      s := s.(woken := s.woken[c := s.Now(g)]);
    }

    /** The body of the inner loop of prvCheckDelayedList, for a head that has timed out. */
    method ExpireHead()
      requires s.delayed != Nowhere && s.priority != [] && InvTick(s, g) && Recorded() && PhaseOf(run) == Waking
      requires s.lists[s.delayed].items != [] && s.value[HeadOf(s.lists, s.generic, s.delayed)] <= s.tick
      modifies this`s, this`run
      ensures s.delayed != Nowhere && InvTick(s, g) && Elapsed(old(s), s, g) && Recorded() && Extends(run, old(run))
      ensures PhaseOf(run) == Waking
      ensures Sleeping(s) < Sleeping(old(s)) && s.tick == old(s).tick && s.wraps == old(s).wraps
    {
      ghost var s0, head := s, HeadOf(s.lists, s.generic, s.delayed);
      var c := s.lists[s.delayed].items[0];
      Interrupts();
      HeadExpires(s0, s, g, c);
      ghost var r1 := run;
      Wake(c);
      ExtendsTransitive(run, r1, old(run));
    }

    /** The inner loop of prvCheckDelayedList: wake whatever is due at this tick. */
    method WakeDue()
      requires s.delayed != Nowhere && s.priority != [] && InvTick(s, g) && Recorded() && PhaseOf(run) == Waking
      modifies this`s, this`run
      ensures PhaseOf(run) == Waking
      ensures s.delayed != Nowhere && Inv(s, g) && Elapsed(old(s), s, g) && Recorded() && Extends(run, old(run))
      ensures s.tick == old(s).tick && s.wraps == old(s).wraps
    {
      while s.lists[s.delayed].items != []
        invariant PhaseOf(run) == Waking
        invariant s.delayed != Nowhere && InvTick(s, g) && Elapsed(old(s), s, g) && Recorded() && Extends(run, old(run))
        invariant s.tick == old(s).tick && s.wraps == old(s).wraps
        decreases Sleeping(s)
      {
        ghost var s0, r0, head := s, run, HeadOf(s.lists, s.generic, s.delayed);
        if s.tick < s.value[s.lists[s.delayed].items[0]] {
          break;
        }
        ExpireHead();
        ElapsedTransitive(old(s), s0, s, g);
        ExtendsTransitive(run, r0, old(run));
      }
      NoneDue(s, g);
    }

    /** One round of the outer loop of prvCheckDelayedList. */
    method PassTick()
      requires s.delayed != Nowhere && s.priority != [] && Inv(s, g) && Recorded() && PhaseOf(run) == Waking
      modifies this`s, this`passed, this`run
      ensures s.delayed != Nowhere && s.priority != [] && Inv(s, g) && Elapsed(old(s), s, g)
      ensures Recorded() && Extends(run, old(run)) && PhaseOf(run) == Waking
      ensures s.tick == (if old(s).tick < g.maxTick then old(s).tick + 1 else 0)
      ensures s.Now(g) == old(s).Now(g) + 1 && passed == old(passed) - 1
    {
      ghost var s0 := s;
      TickKeeps(s, g);
      InvWeakens(s, g);
      s := s.(tick := if s.tick < g.maxTick then s.tick + 1 else 0);
      passed := passed - 1;
      if s.tick == 0 {
        s := s.(delayed := s.overflow, overflow := s.delayed, wraps := s.wraps + 1);
      }
      assert s == Tick(s0, g);
      Record(Ticked);
      ghost var s1, r1 := s, run;
      WakeDue();
      ElapsedTransitive(s0, s1, s, g);
      ExtendsTransitive(run, r1, old(run));
    }

    /** One more round, seen from an earlier moment. */
    method PassTickSince(count: nat, ghost from: State, ghost origin: Run)
      requires s.delayed != Nowhere && s.priority != [] && Inv(s, g) && Recorded() && PhaseOf(run) == Waking
      requires Elapsed(from, s, g) && Extends(run, origin)
      requires count <= g.maxTick && passed == TicksBetween(s.tick, count, g.maxTick) != 0
      modifies this`s, this`passed, this`run
      ensures s.delayed != Nowhere && s.priority != [] && Inv(s, g) && Recorded() && PhaseOf(run) == Waking
      ensures Elapsed(from, s, g) && Extends(run, origin)
      ensures s.Now(g) == old(s).Now(g) + 1 && passed == old(passed) - 1 == TicksBetween(s.tick, count, g.maxTick)
    {
      ghost var s0, r0 := s, run;
      OneTickLess(s.tick, count, g.maxTick);
      PassTick();
      ElapsedTransitive(from, s0, s, g);
      ExtendsTransitive(run, r0, origin);
    }

    /** prvCheckDelayedList, count being what xTaskGetTickCount returns */
    method CheckDelayedList(count: nat)
      requires ValidIn(Waking) && s.delayed != Nowhere && count <= g.maxTick
      modifies this
      ensures ValidIn(Waking) && s.delayed != Nowhere && s.tick == count
      ensures s.Now(g) == old(s).Now(g) + TicksBetween(old(s).tick, count, g.maxTick)
      ensures Elapsed(old(s), s, g) && Extends(run, old(run))
    {
      passed := TicksBetween(lastTick, count, g.maxTick);
      while passed != 0
        invariant s.delayed != Nowhere && s.priority != [] && Inv(s, g) && Elapsed(old(s), s, g)
        invariant Recorded() && Extends(run, old(run)) && PhaseOf(run) == Waking
        invariant s.Now(g) + passed == old(s).Now(g) + TicksBetween(old(s).tick, count, g.maxTick)
        invariant passed == TicksBetween(s.tick, count, g.maxTick)
        decreases passed
      {
        PassTickSince(count, old(s), old(run));
      }
      lastTick := s.tick;
    }

    /** The search of vCoRoutineSchedule for the highest priority with a ready co-routine. */
    method FindTop() returns (found: bool)
      requires Inv(s, g)
      modifies this`s
      ensures Inv(s, g) && s == old(s).(top := s.top)
      ensures found <==> ListAt(s.lists, Ready(s.top)).items != []
      ensures !found ==> s.top == 0
    {
      while ListAt(s.lists, Ready(s.top)).items == []
        invariant Inv(s, g) && s == old(s).(top := s.top)
        decreases s.top
      {
        if s.top == 0 { return false; }
        LowerTop(s, g);
        s := s.(top := s.top - 1);
      }
      found := true;
    }

    /** The last part of vCoRoutineSchedule: pick the next co-routine of the highest
        priority that has a ready one. */
    method PickNext() returns (ran: Option<int>)
      requires ValidIn(Waking) && s.delayed != Nowhere
      modifies this`s, this`run
      ensures Valid() && s.delayed != Nowhere
      ensures run == Then(old(run), if ran.Some? then Picked(s.current) else Idle, s)
      ensures ran.None? <==> forall c :: s.Exists(c) ==> !s.generic[c].Ready?
      ensures ran.None? ==> s == old(s).(top := 0)
      ensures ran.Some? ==> IsNext(old(s), s, ran.value)
    {
      var found := FindTop();
      if found {
        AdvanceTop();
        ran := Some(s.current);
        Record(Picked(s.current));
      } else {
        NothingReady(s, g);
        ran := None;
        Record(Idle);
      }
    }

    /** listGET_OWNER_OF_NEXT_ENTRY on the highest non-empty ready list */
    method AdvanceTop()
      requires Inv(s, g) && ListAt(s.lists, Ready(s.top)).items != []
      modifies this`s
      ensures Inv(s, g) && s.Exists(s.current) && IsNext(old(s), s, s.current)
    {
      var p := s.top;
      TopIsNext(s, g);
      AdvanceKeeps(s, g, p);
      s := s.(lists := s.lists[Ready(p) := s.lists[Ready(p)].Advance()]);
      s := s.(current := s.lists[Ready(p)].items[s.lists[Ready(p)].cursor - 1]);
    }

    /** vCoRoutineSchedule up to the call of the chosen co-routine */
    method Schedule(count: nat) returns (ran: Option<int>)
      requires Valid() && count <= g.maxTick
      modifies this
      ensures Valid() && (ran.None? || s.delayed != Nowhere)
      ensures old(s).delayed == Nowhere ==> ran.None? && s == old(s)
      ensures old(s).delayed != Nowhere ==>
        && s.tick == count
        && s.Now(g) == old(s).Now(g) + TicksBetween(old(s).tick, count, g.maxTick)
        && DelaysKept(old(s), s, g)
        && EventsServed(old(s), s)
        && (ran.None? <==> forall c :: s.Exists(c) ==> !s.generic[c].Ready?)
      ensures ran.Some? ==> s.current == ran.value && HighestReady(s, ran.value)
      ensures Extends(run, old(run)) && (old(s).delayed != Nowhere ==> SleepersKept(run, old(run), g))
      ensures old(s).delayed != Nowhere ==> run.Then? && run.step == if ran.Some? then Picked(s.current) else Idle
    {
      if s.delayed == Nowhere { return None; }
      ghost var s0 := s;
      Record(Called);
      ghost var r0 := run;
      CheckPendingReadyList();
      ghost var s1, r1 := s, run;
      CheckDelayedList(count);
      ghost var s2, r2 := s, run;
      ran := PickNext();
      ExtendsTransitive(run, r2, r1);
      ExtendsTransitive(run, r1, r0);
      ExtendsTransitive(run, r0, old(run));
      RunKeepsSleepers(run, old(run), g);
      KeptInAll(s0, s1, s2, s, g);
      PendingReadied(s0, s1, s2, s, g);
    }

    /** Any one call, with any arguments the code allows. */
    method AnyCall()
      requires Valid() && s.delayed != Nowhere
      modifies this
      ensures Valid() && s.delayed != Nowhere && Extends(run, old(run))
    {
      var p: nat, ticks: nat, queue: int, memory: bool := *, *, *, *;
      if
      case true =>
        var pass := Create(p, memory);
      case 1 <= ticks <= g.maxTick && s.generic[s.current].Ready? =>
        AddToDelayedList(ticks, if 0 <= queue < g.queues then Some(queue) else None);
      case 0 <= queue < g.queues && ListAt(s.eventLists, Waiting(queue)).items != [] =>
        ghost var s0 := s;
        Interrupt(queue);
        InterruptsKeepTimes(s0, s, g, s.tick + 1);
      case p <= g.maxTick =>
        var ran := Schedule(p);
    }
  }

  // --- every use of the scheduler ------------------------------------------------------------

  /** What WokenExactlyWhenDue, EventWakes and TurnComes say of one moment of a history and the rest. */
  ghost predicate OnTimeAndInTurn(r: Run, q: Run, g: Config) {
    && (forall c, due :: BeginsDelay(q, g, c, due) && NoEvent(r, q, c) ==> SleepsOrWoken(r, q, g, c, due))
    && (forall c :: OnPending(q.s, c) && EndsNextCall(r, q) ==>
         Awake(r.s, c) || (PhaseOf(q) == Waking && OnPending(r.s, c)))
    && (forall c, m: nat :: Waits(r, q, c, m) ==> InLine(q.s, c, m) && Turns(r, q, q.s.priority[c]) <= 2 * m - 2)
  }

  lemma RunsAreOnTime(r: Run, q: Run, g: Config)
    requires IsRun(r, g) && Extends(r, q)
    ensures OnTimeAndInTurn(r, q, g)
  {
    forall c, due | BeginsDelay(q, g, c, due) && NoEvent(r, q, c) ensures SleepsOrWoken(r, q, g, c, due) {
      WokenExactlyWhenDue(r, q, g, c, due);
    }
    forall c | OnPending(q.s, c) && EndsNextCall(r, q)
      ensures Awake(r.s, c) || (PhaseOf(q) == Waking && OnPending(r.s, c))
    {
      EventWakes(r, q, g, c);
    }
    forall c, m: nat | Waits(r, q, c, m) ensures InLine(q.s, c, m) && Turns(r, q, q.s.priority[c]) <= 2 * m - 2 {
      TurnComes(r, q, g, c, m);
    }
  }

  /** Any program that creates co-routines, lets the running one delay itself, interrupts and
      schedules, in any order and with any arguments the code allows: between any two moments
      of its history every delay and every turn is kept, and no event is lost. */
  method Drive(g: Config, rounds: nat) returns (sched: Scheduler)
    requires 0 < g.priorities
    ensures fresh(sched) && sched.g == g && sched.Valid() && IsRun(sched.run, g)
    ensures forall r, q :: Extends(sched.run, r) && Extends(r, q) ==> OnTimeAndInTurn(r, q, g)
  {
    sched := new Scheduler(g);
    var first: nat := *;
    var pass := sched.Create(first, true);
    for i := 0 to rounds
      invariant fresh(sched) && sched.g == g && sched.Valid() && sched.s.delayed != Nowhere
    {
      sched.AnyCall();
    }
    forall r, q | Extends(sched.run, r) && Extends(r, q) ensures OnTimeAndInTurn(r, q, g) {
      PrefixIsRun(sched.run, r, g);
      RunsAreOnTime(r, q, g);
    }
  }
}
