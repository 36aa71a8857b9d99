/** Event groups: tasks wait for bits, setting bits wakes whom they satisfy and then
    clears, in one go, what the woken asked to have cleared. */
module EventGroups {
  import opened Basics

  /** A word of event bits is the set of the positions of its one-bits, so that or, and,
      and-not are union, intersection and difference. */
  type Bits = set<int>

  const CLEAR_ON_EXIT: Bits := {24}             // eventCLEAR_EVENTS_ON_EXIT_BIT
  const UNBLOCKED: Bits := {25}                 // eventUNBLOCKED_DUE_TO_BIT_SET
  const WAIT_FOR_ALL: Bits := {26}              // eventWAIT_FOR_ALL_BITS
  const IN_USE: Bits := {31}                    // taskEVENT_LIST_ITEM_VALUE_IN_USE
  const CONTROL: Bits := set b | 24 <= b < 32   // eventEVENT_BITS_CONTROL_BYTES

  /** prvTestWaitCondition */
  predicate Satisfied(bits: Bits, wanted: Bits, all: bool) {
    if all then bits * wanted == wanted else bits * wanted != {}
  }

  /** The value a blocked task leaves in its event list item. */
  function Request(wanted: Bits, clear: bool, all: bool): Bits {
    wanted + (if clear then CLEAR_ON_EXIT else {}) + (if all then WAIT_FOR_ALL else {}) + IN_USE
  }

  function Wanted(item: Bits): Bits { item - CONTROL }

  predicate Clears(item: Bits) { item * CONTROL * CLEAR_ON_EXIT != {} }

  /** The test in the walk of xEventGroupSetBits. */
  predicate Matches(item: Bits, bits: Bits) {
    if item * CONTROL * WAIT_FOR_ALL == {} then Wanted(item) * bits != {}
    else Wanted(item) * bits == Wanted(item)
  }

  /** The request stored in an item is the one that was made: event and control bits do
      not mix. */
  lemma RequestDecodes(wanted: Bits, clear: bool, all: bool)
    requires wanted !! CONTROL
    ensures Wanted(Request(wanted, clear, all)) == wanted
    ensures Clears(Request(wanted, clear, all)) == clear
    ensures forall bits :: Matches(Request(wanted, clear, all), bits) == Satisfied(bits, wanted, all)
    ensures UNBLOCKED !! Request(wanted, clear, all)
  {
    var item := Request(wanted, clear, all);
    assert Wanted(item) == wanted;
    assert 24 in item * CONTROL * CLEAR_ON_EXIT <==> clear;
    assert 26 in item * CONTROL * WAIT_FOR_ALL <==> all;
    forall bits ensures Matches(item, bits) == Satisfied(bits, wanted, all) {
      assert wanted * bits == bits * wanted;
    }
  }

  /** What a woken task finds in its item. */
  function Answer(bits: Bits): Bits { bits + UNBLOCKED + IN_USE }

  lemma AnswerDecodes(bits: Bits)
    requires bits !! CONTROL
    ensures Answer(bits) - CONTROL == bits && Answer(bits) * UNBLOCKED != {}
  {
    assert 25 in Answer(bits) * UNBLOCKED;
  }

  /** What a blocked call was made with: its local variables. */
  datatype Call = Call(wanted: Bits, clear: bool, all: bool) {
    function Item(): Bits { Request(wanted, clear, all) }
  }

  /** An event group with its list of waiting tasks. item holds the event list items of
      the tasks inside a blocked call, whether still waiting or already unblocked. */
  datatype Group = Group(bits: Bits, waiting: seq<int>, item: map<int, Bits>, call: map<int, Call>)

  /** Every waiting task is on the list once and its item holds its request; an unblocked
      task's item holds the request still (timed out) or an answer that meets it. */
  ghost predicate Consistent(g: Group) {
    && g.bits !! CONTROL && g.item.Keys == g.call.Keys
    && (forall t :: t in g.waiting ==> t in g.item)
    && Different(g.waiting)
    && (forall t :: t in g.item ==> g.call[t].wanted !! CONTROL && ItemOk(g.item[t], g.call[t], t in g.waiting))
  }

  ghost predicate ItemOk(item: Bits, call: Call, waiting: bool) {
    item == call.Item() || (!waiting && item * UNBLOCKED != {} && Satisfied(item - CONTROL, call.wanted, call.all))
  }

  /** Nobody waits for what is already there. */
  ghost predicate NoLostWakeup(g: Group) {
    forall t :: t in g.waiting ==> t in g.item && !Matches(g.item[t], g.bits)
  }

  // --- setting bits -----------------------------------------------------------------------

  function ItemOf(item: map<int, Bits>, t: int): Bits {
    if t in item then item[t] else {}
  }

  /** The tasks whose request the bits do not meet, in list order. */
  function Unmatched(tasks: seq<int>, item: map<int, Bits>, bits: Bits): (u: seq<int>) {
    if tasks == [] then []
    else
      var rest, t := Unmatched(tasks[..|tasks| - 1], item, bits), tasks[|tasks| - 1];
      if Matches(ItemOf(item, t), bits) then rest else rest + [t]
  }

  /** All bits that the tasks woken by bits asked to have cleared. */
  function ClearMask(tasks: seq<int>, item: map<int, Bits>, bits: Bits): Bits {
    if tasks == [] then {}
    else
      var rest, t := ClearMask(tasks[..|tasks| - 1], item, bits), tasks[|tasks| - 1];
      if Matches(ItemOf(item, t), bits) && Clears(ItemOf(item, t)) then rest + Wanted(ItemOf(item, t)) else rest
  }

  function Answered(tasks: seq<int>, item: map<int, Bits>, bits: Bits): map<int, Bits> {
    map t | t in item :: if t in tasks && Matches(item[t], bits) then Answer(bits) else item[t]
  }

  /** xEventGroupSetBits */
  function SetBits(g: Group, add: Bits): Group {
    var b := g.bits + add;
    g.(bits := b - ClearMask(g.waiting, g.item, b),
       waiting := Unmatched(g.waiting, g.item, b),
       item := Answered(g.waiting, g.item, b))
  }

  lemma {:induction false} UnmatchedMembers(tasks: seq<int>, item: map<int, Bits>, bits: Bits)
    ensures forall t :: t in Unmatched(tasks, item, bits) <==> t in tasks && !Matches(ItemOf(item, t), bits)
  {
    if tasks != [] {
      var front, last := tasks[..|tasks| - 1], tasks[|tasks| - 1];
      UnmatchedMembers(front, item, bits);
      assert tasks == front + [last];
    }
  }

  lemma {:induction false} UnmatchedDistinct(tasks: seq<int>, item: map<int, Bits>, bits: Bits)
    requires Different(tasks)
    ensures Different(Unmatched(tasks, item, bits))
  {
    if tasks != [] {
      var front, last := tasks[..|tasks| - 1], tasks[|tasks| - 1];
      UnmatchedDistinct(front, item, bits);
      UnmatchedMembers(front, item, bits);
      assert last !in front;
      assert forall t :: t in Unmatched(front, item, bits) ==> t != last;
    }
  }

  ghost predicate WokenClears(t: int, item: map<int, Bits>, bits: Bits, b: int) {
    Matches(ItemOf(item, t), bits) && Clears(ItemOf(item, t)) && b in Wanted(ItemOf(item, t))
  }

  /** The mask has a bit exactly if some woken task asked for that bit to be cleared. */
  lemma {:induction false} ClearMaskMembers(tasks: seq<int>, item: map<int, Bits>, bits: Bits, b: int)
    ensures b in ClearMask(tasks, item, bits) <==> exists t :: t in tasks && WokenClears(t, item, bits, b)
  {
    if tasks != [] {
      var front, last := tasks[..|tasks| - 1], tasks[|tasks| - 1];
      ClearMaskMembers(front, item, bits, b);
      assert tasks == front + [last];
      if t :| t in front && WokenClears(t, item, bits, b) {
        assert t in tasks;
      } else if WokenClears(last, item, bits, b) {
        assert last in tasks;
      }
    }
  }

  /** The outcome of setting bits depends only on the set of waiting tasks: the list order
      decides neither who is woken, nor with what value, nor what is left. */
  lemma SetBitsIgnoresOrder(g: Group, h: Group, add: Bits)
    requires h == g.(waiting := h.waiting) && forall t :: t in g.waiting <==> t in h.waiting
    ensures SetBits(g, add) == SetBits(h, add).(waiting := SetBits(g, add).waiting)
    ensures forall t :: t in SetBits(g, add).waiting <==> t in SetBits(h, add).waiting
  {
    var b := g.bits + add;
    var x, y := ClearMask(g.waiting, g.item, b), ClearMask(h.waiting, g.item, b);
    forall m ensures m in x <==> m in y {
      ClearMaskMembers(g.waiting, g.item, b, m);
      ClearMaskMembers(h.waiting, g.item, b, m);
    }
    assert x == y;
    var m, n := Answered(g.waiting, g.item, b), Answered(h.waiting, g.item, b);
    assert forall t :: t in g.item ==> m[t] == n[t];
    assert m == n;
    UnmatchedMembers(g.waiting, g.item, b);
    UnmatchedMembers(h.waiting, g.item, b);
  }

  /** Setting bits wakes exactly the tasks whose condition holds on the old bits together
      with the new ones; each of them finds exactly that value, the others' items stay. */
  lemma SetBitsWakes(g: Group, add: Bits, t: int)
    requires Consistent(g) && add !! CONTROL && t in g.waiting
    ensures t in g.item && t in g.call
    ensures t !in SetBits(g, add).waiting <==> Satisfied(g.bits + add, g.call[t].wanted, g.call[t].all)
    ensures t !in SetBits(g, add).waiting ==>
      SetBits(g, add).item[t] == Answer(g.bits + add) && SetBits(g, add).item[t] - CONTROL == g.bits + add
    ensures t in SetBits(g, add).waiting ==> SetBits(g, add).item[t] == g.item[t]
  {
    UnmatchedMembers(g.waiting, g.item, g.bits + add);
    RequestDecodes(g.call[t].wanted, g.call[t].clear, g.call[t].all);
    AnswerDecodes(g.bits + add);
  }

  /** After setting bits nobody left on the list is satisfied, whatever held before. */
  lemma SetBitsServesAll(g: Group, add: Bits)
    requires Consistent(g)
    ensures NoLostWakeup(SetBits(g, add))
  {
    var b, h := g.bits + add, SetBits(g, add);
    UnmatchedMembers(g.waiting, g.item, b);
    forall t | t in h.waiting ensures t in h.item && !Matches(h.item[t], h.bits) {
      FewerBits(h.item[t], b, h.bits);
    }
  }

  lemma FewerBits(item: Bits, bits: Bits, less: Bits)
    requires less <= bits && !Matches(item, bits)
    ensures !Matches(item, less)
  {
    assert Wanted(item) * less <= Wanted(item) * bits;
  }

  /** Some task that waits in g is satisfied by these bits and asked to have b cleared. */
  ghost predicate AskedToClear(g: Group, bits: Bits, b: int) {
    exists t :: t in g.waiting && t in g.call && Satisfied(bits, g.call[t].wanted, g.call[t].all)
                && g.call[t].clear && b in g.call[t].wanted
  }

  /** What setting bits leaves, in terms of the calls the tasks made: whom it wakes and what
      they find, which bits stay, and that it touches nothing else. */
  ghost predicate BitsSet(g: Group, h: Group, add: Bits) {
    && (forall b :: b in h.bits <==> b in g.bits + add && !AskedToClear(g, g.bits + add, b))
    && h.call == g.call && h.item.Keys == g.item.Keys
    && (forall t :: t in h.waiting <==>
         t in g.waiting && t in g.call && !Satisfied(g.bits + add, g.call[t].wanted, g.call[t].all))
    && (forall t :: t in g.item ==>
         if t in g.waiting && t !in h.waiting
         then h.item[t] - CONTROL == g.bits + add && h.item[t] * UNBLOCKED != {}
         else h.item[t] == g.item[t])
  }

  lemma SetBitsLeaves(g: Group, add: Bits, b: int)
    requires Consistent(g) && add !! CONTROL
    ensures b in SetBits(g, add).bits <==> b in g.bits + add && !AskedToClear(g, g.bits + add, b)
  {
    var bits := g.bits + add;
    ClearMaskMembers(g.waiting, g.item, bits, b);
    forall t | t in g.waiting
      ensures t in g.call && (WokenClears(t, g.item, bits, b) <==>
        Satisfied(bits, g.call[t].wanted, g.call[t].all) && g.call[t].clear && b in g.call[t].wanted)
    {
      RequestDecodes(g.call[t].wanted, g.call[t].clear, g.call[t].all);
    }
    if t :| t in g.waiting && WokenClears(t, g.item, bits, b) { assert AskedToClear(g, bits, b); }
  }

  /** A bit stays set exactly if no woken task asked to have it cleared, a task stays waiting
      exactly if the new value does not meet its condition, and a woken one finds that value. */
  lemma SetBitsExactly(g: Group, add: Bits)
    requires Consistent(g) && add !! CONTROL
    ensures BitsSet(g, SetBits(g, add), add)
  {
    var h := SetBits(g, add);
    forall b ensures b in h.bits <==> b in g.bits + add && !AskedToClear(g, g.bits + add, b) {
      SetBitsLeaves(g, add, b);
    }
    UnmatchedMembers(g.waiting, g.item, g.bits + add);
    AnswerDecodes(g.bits + add);
    forall t | t in g.waiting
      ensures t in g.call && (t in h.waiting <==> !Satisfied(g.bits + add, g.call[t].wanted, g.call[t].all))
      ensures t in h.waiting ==> h.item[t] == g.item[t]
      ensures t !in h.waiting ==> h.item[t] == Answer(g.bits + add)
    {
      SetBitsWakes(g, add, t);
    }
  }

  lemma SetBitsConsistent(g: Group, add: Bits)
    requires Consistent(g) && add !! CONTROL
    ensures Consistent(SetBits(g, add))
  {
    var h := SetBits(g, add);
    UnmatchedMembers(g.waiting, g.item, g.bits + add);
    UnmatchedDistinct(g.waiting, g.item, g.bits + add);
    forall t | t in h.item ensures ItemOk(h.item[t], h.call[t], t in h.waiting) {
      if t in g.waiting { SetBitsWakes(g, add, t); }
    }
  }

  // --- the other calls, each split where the caller may block -------------------------------

  /** vTaskPlaceOnUnorderedEventList */
  function Block(g: Group, t: int, call: Call): Group {
    g.(waiting := g.waiting + [t], item := g.item[t := call.Item()], call := g.call[t := call])
  }

  /** xEventGroupWaitBits up to the point where it blocks; a value is returned at once. */
  function WaitBegin(g: Group, t: int, call: Call, ticks: nat): (Group, Option<Bits>) {
    if Satisfied(g.bits, call.wanted, call.all) then
      (if call.clear then g.(bits := g.bits - call.wanted) else g, Some(g.bits))
    else if ticks == 0 then (g, Some(g.bits))
    else (Block(g, t, call), None)
  }

  /** The rest of a blocked call, once the task runs again: the value its item was given,
      or, after a time-out, the bits as they are now. */
  function WaitEnd(g: Group, t: int): (Group, Bits)
    requires t in g.item && t in g.call
  {
    var h := g.(item := g.item - {t}, call := g.call - {t});
    if g.item[t] * UNBLOCKED != {} then (h, g.item[t] - CONTROL)
    else
      (if Satisfied(g.bits, g.call[t].wanted, g.call[t].all) && g.call[t].clear
       then h.(bits := g.bits - g.call[t].wanted) else h,
       g.bits - CONTROL)
  }

  /** xEventGroupSync up to the point where it blocks. */
  function SyncBegin(g: Group, t: int, add: Bits, wanted: Bits, ticks: nat): (Group, Option<Bits>) {
    var h := SetBits(g, add);
    if (g.bits + add) * wanted == wanted then (h.(bits := h.bits - wanted), Some(g.bits + add))
    else if ticks != 0 then (Block(h, t, Call(wanted, true, true)), None)
    else (h, Some(h.bits))
  }

  /** The block time of a waiting task expires: the kernel takes it off the list. */
  function Timeout(g: Group, t: int): Group {
    g.(waiting := Without(g.waiting, t))
  }

  function Without(s: seq<int>, t: int): (r: seq<int>)
    ensures forall x :: x in r <==> x in s && x != t
  {
    if s == [] then [] else
      var rest := Without(s[..|s| - 1], t);
      assert s == s[..|s| - 1] + [s[|s| - 1]];
      if s[|s| - 1] == t then rest else rest + [s[|s| - 1]]
  }

  lemma {:induction false} WithoutDistinct(s: seq<int>, t: int)
    requires Different(s)
    ensures Different(Without(s, t))
  {
    if s != [] {
      WithoutDistinct(s[..|s| - 1], t);
      assert s[|s| - 1] !in s[..|s| - 1];
      assert s[|s| - 1] !in Without(s[..|s| - 1], t);
    }
  }

  /** Task t has joined the list with its request in its item, and nothing else changed. */
  ghost predicate Joined(g: Group, h: Group, t: int, call: Call) {
    && h.bits == g.bits && h.waiting == g.waiting + [t]
    && h.call == g.call[t := call] && h.item.Keys == g.item.Keys + {t}
    && (forall x :: x in g.item && x != t ==> h.item[x] == g.item[x])
    && Wanted(h.item[t]) == call.wanted && Clears(h.item[t]) == call.clear && h.item[t] * UNBLOCKED == {}
    && (forall bits :: Matches(h.item[t], bits) <==> Satisfied(bits, call.wanted, call.all))
  }

  lemma BlockJoins(g: Group, t: int, call: Call)
    requires call.wanted !! CONTROL
    ensures Joined(g, Block(g, t, call), t, call)
  {
    RequestDecodes(call.wanted, call.clear, call.all);
  }

  /** A wait returns at once exactly if its condition holds or it may not block, with the bits
      as they were; it clears the bits it waited for exactly if it was satisfied and asked to;
      otherwise it joins the list. */
  lemma WaitExactly(g: Group, t: int, call: Call, ticks: nat)
    requires call.wanted !! CONTROL
    ensures var h, value := WaitBegin(g, t, call, ticks).0, WaitBegin(g, t, call, ticks).1;
            var now := Satisfied(g.bits, call.wanted, call.all);
            && (value.Some? <==> now || ticks == 0)
            && (value.Some? ==> value.value == g.bits && h == g.(bits := h.bits))
            && h.bits == (if now && call.clear then g.bits - call.wanted else g.bits)
            && (value.None? ==> Joined(g, h, t, call))
  {
    BlockJoins(g, t, call);
  }

  /** A task that was unblocked by bits returns the value it was given and leaves the bits
      alone; after a time-out it returns the bits as they are and clears the ones it waited for
      exactly if they meet its condition by now and it asked to. */
  lemma ResumeExactly(g: Group, t: int)
    requires Consistent(g) && t in g.item && t !in g.waiting
    ensures t in g.call
    ensures var h, value, c := WaitEnd(g, t).0, WaitEnd(g, t).1, g.call[t];
            var answered := g.item[t] * UNBLOCKED != {};
            && value == (if answered then g.item[t] - CONTROL else g.bits)
            && h.bits == (if !answered && Satisfied(g.bits, c.wanted, c.all) && c.clear then g.bits - c.wanted
                          else g.bits)
            && h.waiting == g.waiting && h.item == g.item - {t} && h.call == g.call - {t}
  {
    assert g.bits - CONTROL == g.bits;
  }

  /** A rendezvous sets its bits in every case. It is complete exactly if they make up the mask,
      which it then clears; else it returns what setting them left, or waits for all of the mask
      to be set and cleared. */
  lemma SyncExactly(g: Group, t: int, add: Bits, wanted: Bits, ticks: nat)
    requires Consistent(g) && add !! CONTROL && wanted !! CONTROL
    ensures var h, value := SyncBegin(g, t, add, wanted, ticks).0, SyncBegin(g, t, add, wanted, ticks).1;
            var g1 := SetBits(g, add);
            && BitsSet(g, g1, add)
            && (if wanted <= g.bits + add then value == Some(g.bits + add) && h == g1.(bits := g1.bits - wanted)
                else if ticks == 0 then value == Some(g1.bits) && h == g1
                else value.None? && Joined(g1, h, t, Call(wanted, true, true)))
  {
    SetBitsExactly(g, add);
    BlockJoins(SetBits(g, add), t, Call(wanted, true, true));
    assert (g.bits + add) * wanted == wanted <==> wanted <= g.bits + add;
  }

  /** A time-out takes the task off the list and does nothing else: it finds its request as it
      left it. */
  lemma TimeoutExactly(g: Group, t: int)
    requires Consistent(g) && t in g.waiting
    ensures var h := Timeout(g, t);
            && h == g.(waiting := h.waiting) && (forall x :: x in h.waiting <==> x in g.waiting && x != t)
            && Different(h.waiting) && t in h.item && h.item[t] * UNBLOCKED == {}
  {
    WithoutDistinct(g.waiting, t);
    RequestDecodes(g.call[t].wanted, g.call[t].clear, g.call[t].all);
  }

  // --- whole runs ---------------------------------------------------------------------------

  datatype Step =
    | Set(add: Bits)
    | Clear(mask: Bits)
    | Wait(t: int, call: Call, ticks: nat)
    | Sync(t: int, add: Bits, wanted: Bits, ticks: nat)
    | Expire(t: int)
    | Resume(t: int)

  /** A running task may make any call whose arguments pass the assertions; a waiting task
      may time out; an unblocked one may go on. */
  ghost predicate Enabled(g: Group, step: Step) {
    match step
    case Set(add) => add !! CONTROL
    case Clear(mask) => mask !! CONTROL
    case Wait(t, call, _) => t !in g.item && call.wanted !! CONTROL && call.wanted != {}
    case Sync(t, add, wanted, _) => t !in g.item && add !! CONTROL && wanted !! CONTROL && wanted != {}
    case Expire(t) => t in g.waiting
    case Resume(t) => t in g.item && t in g.call && t !in g.waiting
  }

  ghost function Apply(g: Group, step: Step): Group
    requires Enabled(g, step)
  {
    match step
    case Set(add) => SetBits(g, add)
    case Clear(mask) => g.(bits := g.bits - mask)
    case Wait(t, call, ticks) => WaitBegin(g, t, call, ticks).0
    case Sync(t, add, wanted, ticks) => SyncBegin(g, t, add, wanted, ticks).0
    case Expire(t) => Timeout(g, t)
    case Resume(t) => WaitEnd(g, t).0
  }

  ghost predicate Inv(g: Group) {
    Consistent(g) && NoLostWakeup(g)
  }

  lemma LessBitsKeep(g: Group, less: Bits)
    requires Inv(g) && less <= g.bits
    ensures Inv(g.(bits := less))
  {
    forall t | t in g.waiting ensures !Matches(g.item[t], less) {
      FewerBits(g.item[t], g.bits, less);
    }
  }

  lemma BlockKeeps(g: Group, t: int, call: Call)
    requires Inv(g) && t !in g.item && call.wanted !! CONTROL && !Satisfied(g.bits, call.wanted, call.all)
    ensures Inv(Block(g, t, call))
  {
    RequestDecodes(call.wanted, call.clear, call.all);
    var h := Block(g, t, call);
    assert forall x :: x in h.waiting <==> x in g.waiting || x == t;
  }

  lemma SetBitsKeeps(g: Group, add: Bits)
    requires Consistent(g) && add !! CONTROL
    ensures Inv(SetBits(g, add)) && SetBits(g, add).item.Keys == g.item.Keys && SetBits(g, add).bits <= g.bits + add
  {
    SetBitsConsistent(g, add);
    SetBitsServesAll(g, add);
  }

  lemma SyncKeeps(g: Group, t: int, add: Bits, wanted: Bits, ticks: nat)
    requires Inv(g) && Enabled(g, Sync(t, add, wanted, ticks))
    ensures Inv(SyncBegin(g, t, add, wanted, ticks).0)
  {
    var h := SetBits(g, add);
    SetBitsKeeps(g, add);
    if (g.bits + add) * wanted == wanted {
      LessBitsKeep(h, h.bits - wanted);
    } else if ticks != 0 {
      assert h.bits * wanted <= (g.bits + add) * wanted;
      BlockKeeps(h, t, Call(wanted, true, true));
    }
  }

  lemma ResumeKeeps(g: Group, t: int)
    requires Inv(g) && Enabled(g, Resume(t))
    ensures Inv(WaitEnd(g, t).0)
  {
    LessBitsKeep(g, g.bits - g.call[t].wanted);
  }

  lemma StepKeeps(g: Group, step: Step)
    requires Inv(g) && Enabled(g, step)
    ensures Inv(Apply(g, step))
  {
    match step
    case Set(add) => SetBitsKeeps(g, add);
    case Clear(mask) => LessBitsKeep(g, g.bits - mask);
    case Wait(t, call, ticks) =>
      if Satisfied(g.bits, call.wanted, call.all) {
        LessBitsKeep(g, g.bits - call.wanted);
      } else if ticks != 0 {
        BlockKeeps(g, t, call);
      }
    case Sync(t, add, wanted, ticks) => SyncKeeps(g, t, add, wanted, ticks);
    case Expire(t) => WithoutDistinct(g.waiting, t);
    case Resume(t) => ResumeKeeps(g, t);
  }

  ghost predicate IsRun(g: Group, steps: seq<Step>, h: Group)
    decreases |steps|
  {
    if steps == [] then g == h
    else Enabled(g, steps[0]) && IsRun(Apply(g, steps[0]), steps[1..], h)
  }

  const EMPTY: Group := Group({}, [], map[], map[])   // xEventGroupCreate

  /** No lost wake-up: however set, clear, wait, sync, time-out and resume interleave, no
      task waits for bits that are there. */
  lemma NeverALostWakeup(steps: seq<Step>, h: Group)
    requires IsRun(EMPTY, steps, h)
    ensures forall t :: t in h.waiting ==>
      t in h.item && t in h.call && !Satisfied(h.bits, h.call[t].wanted, h.call[t].all)
  {
    RunKeeps(EMPTY, steps, h);
    forall t | t in h.waiting ensures !Satisfied(h.bits, h.call[t].wanted, h.call[t].all) {
      RequestDecodes(h.call[t].wanted, h.call[t].clear, h.call[t].all);
    }
  }

  lemma {:induction false} RunKeeps(g: Group, steps: seq<Step>, h: Group)
    requires Inv(g) && IsRun(g, steps, h)
    ensures Inv(h)
    decreases |steps|
  {
    if steps != [] {
      StepKeeps(g, steps[0]);
      RunKeeps(Apply(g, steps[0]), steps[1..], h);
    }
  }

  /** In every reachable state: what a task that was unblocked by bits returns meets the
      condition it waited for; only after a time-out it may not. */
  lemma ReturnMeetsCondition(steps: seq<Step>, h: Group, t: int)
    requires IsRun(EMPTY, steps, h) && Enabled(h, Resume(t))
    ensures h.item[t] != h.call[t].Item() ==> Satisfied(WaitEnd(h, t).1, h.call[t].wanted, h.call[t].all)
    ensures h.item[t] == h.call[t].Item() ==> WaitEnd(h, t).1 == h.bits
  {
    RunKeeps(EMPTY, steps, h);
    RequestDecodes(h.call[t].wanted, h.call[t].clear, h.call[t].all);
  }

  /** What an unblocked task finds stays there until it goes on, whatever the others do. */
  lemma {:induction false} AnswerStays(g: Group, steps: seq<Step>, h: Group, t: int)
    requires Inv(g) && IsRun(g, steps, h) && t in g.item && t !in g.waiting && Resume(t) !in steps
    ensures t in h.item && t !in h.waiting && h.item[t] == g.item[t] && t in h.call && h.call[t] == g.call[t]
    decreases |steps|
  {
    if steps != [] {
      StepKeeps(g, steps[0]);
      AnswerStaysInStep(g, steps[0], t);
      AnswerStays(Apply(g, steps[0]), steps[1..], h, t);
    }
  }

  lemma AnswerStaysInStep(g: Group, step: Step, t: int)
    requires Inv(g) && Enabled(g, step) && t in g.item && t !in g.waiting && step != Resume(t)
    ensures var h := Apply(g, step);
            t in h.item && t !in h.waiting && h.item[t] == g.item[t] && t in h.call && h.call[t] == g.call[t]
  {
    if step.Set? { UnmatchedMembers(g.waiting, g.item, g.bits + step.add); }
    if step.Sync? { UnmatchedMembers(g.waiting, g.item, g.bits + step.add); }
  }

  /** One more task visited by the walk over the list. */
  lemma WalkStep(tasks: seq<int>, done: nat, item: map<int, Bits>, bits: Bits)
    requires Different(tasks) && done < |tasks| && tasks[done] in item
    ensures tasks[done] in Answered(tasks[..done], item, bits)
    ensures var t, before, after := tasks[done], tasks[..done], tasks[..done + 1];
            && Answered(before, item, bits)[t] == item[t]
            && Unmatched(after, item, bits) ==
                 Unmatched(before, item, bits) + (if Matches(item[t], bits) then [] else [t])
            && ClearMask(after, item, bits) ==
                 ClearMask(before, item, bits) +
                   (if Matches(item[t], bits) && Clears(item[t]) then Wanted(item[t]) else {})
            && Answered(after, item, bits) ==
                 (if Matches(item[t], bits) then Answered(before, item, bits)[t := Answer(bits)]
                  else Answered(before, item, bits))
  {
    var t, before, after := tasks[done], tasks[..done], tasks[..done + 1];
    assert after[..done] == before && after == before + [t];
    assert t !in before;
  }

  /** Passing over the item behind the prefix, or taking it off. */
  lemma PassOrTake(left: seq<int>, tasks: seq<int>, done: nat)
    requires done < |tasks|
    ensures var w, k := left + tasks[done..], |left|;
            && w == left + [tasks[done]] + tasks[done + 1..]
            && w[..k] + w[k + 1..] == left + [] + tasks[done + 1..]
  {
  }

  /** The walk over the original tasks and items stands at place k, having visited the first
      done of them and collected clear. */
  ghost predicate WalkedTo(tasks: seq<int>, items: map<int, Bits>, bits: Bits, done: nat,
                           waiting: seq<int>, item: map<int, Bits>, k: nat, clear: Bits)
  {
    && done <= |tasks|
    && waiting == Unmatched(tasks[..done], items, bits) + tasks[done..]
    && k == |Unmatched(tasks[..done], items, bits)|
    && clear == ClearMask(tasks[..done], items, bits)
    && item == Answered(tasks[..done], items, bits)
  }

  lemma WalkBegins(tasks: seq<int>, items: map<int, Bits>, bits: Bits)
    ensures WalkedTo(tasks, items, bits, 0, tasks, items, 0, {})
  {
    assert tasks[..0] == [] && items == Answered([], items, bits);
  }

  lemma WalkEnds(tasks: seq<int>, items: map<int, Bits>, bits: Bits, done: nat,
                 waiting: seq<int>, item: map<int, Bits>, k: nat, clear: Bits)
    requires WalkedTo(tasks, items, bits, done, waiting, item, k, clear) && k >= |waiting|
    ensures waiting == Unmatched(tasks, items, bits) && item == Answered(tasks, items, bits)
    ensures clear == ClearMask(tasks, items, bits)
  {
    assert tasks[..done] == tasks;
  }

  // --- the event group object ---------------------------------------------------------------

  class EventGroup {
    var bits: Bits               // uxEventBits
    var waiting: seq<int>        // xTasksWaitingForBits
    var item: map<int, Bits>     // the tasks' xEventListItem values
    var call: map<int, Call>     // the blocked callers' local variables

    ghost function View(): Group
      reads this
    {
      Group(bits, waiting, item, call)
    }

    /** xEventGroupCreate */
    constructor ()
      ensures View() == EMPTY
    {
      bits, waiting, item, call := {}, [], map[], map[];
    }

    /** One round of the walk. The successor is determined before an item may be taken
        off, so after a removal the walk goes on at the same place. */
    method Visit(k: nat, clear: Bits, ghost tasks: seq<int>, ghost items: map<int, Bits>, ghost done: nat)
      returns (k': nat, clear': Bits)
      requires WalkedTo(tasks, items, bits, done, waiting, item, k, clear) && k < |waiting|
      requires Different(tasks) && forall t :: t in tasks ==> t in items
      modifies this`waiting, this`item
      ensures WalkedTo(tasks, items, bits, done + 1, waiting, item, k', clear')
      ensures |waiting| - k' < old(|waiting|) - k
    {
      ghost var left := Unmatched(tasks[..done], items, bits);
      assert waiting[k] == tasks[done] && tasks[done] in tasks;
      WalkStep(tasks, done, items, bits);
      PassOrTake(left, tasks, done);
      k', clear' := k, clear;
      var t := waiting[k];
      var value := item[t];
      var matched := VisitTest(value);
      if matched {
        if value * CONTROL * CLEAR_ON_EXIT != {} {
          clear' := clear' + (value - CONTROL);
        }
        item := item[t := bits + UNBLOCKED + IN_USE];
        waiting := waiting[..k] + waiting[k + 1..];
      } else {
        k' := k + 1;
      }
    }

    /** The walk of xEventGroupSetBits over the list. */
    method Walk() returns (clear: Bits)
      requires Different(waiting) && forall t :: t in waiting ==> t in item
      modifies this`waiting, this`item
      ensures waiting == Unmatched(old(waiting), old(item), bits)
      ensures item == Answered(old(waiting), old(item), bits)
      ensures clear == ClearMask(old(waiting), old(item), bits)
    {
      ghost var tasks, items := waiting, item;
      clear := {};
      var k: nat := 0;
      ghost var done: nat := 0;
      WalkBegins(tasks, items, bits);
      while k < |waiting|
        invariant WalkedTo(tasks, items, bits, done, waiting, item, k, clear)
        decreases |waiting| - k
      {
        k, clear := Visit(k, clear, tasks, items, done);
        done := done + 1;
      }
      WalkEnds(tasks, items, bits, done, waiting, item, k, clear);
    }

    /** xEventGroupSetBits */
    method SetEventBits(add: Bits) returns (after: Bits)
      requires Consistent(View()) && add !! CONTROL
      modifies this`bits, this`waiting, this`item
      ensures View() == SetBits(old(View()), add) && after == bits
      ensures Inv(View()) && BitsSet(old(View()), View(), add)
    {
      SetBitsKeeps(View(), add);
      SetBitsExactly(View(), add);
      bits := bits + add;
      var clear := Walk();
      bits := bits - clear;
      after := bits;
    }

    /** Does a waiting task's request match the bits as they are now? */
    method VisitTest(value: Bits) returns (matched: bool)
      ensures matched == Matches(value, bits)
    {
      var control, wanted := value * CONTROL, value - CONTROL;
      if control * WAIT_FOR_ALL == {} {
        matched := wanted * bits != {};
      } else {
        matched := wanted * bits == wanted;
      }
    }

    /** xEventGroupWaitBits until it returns or blocks */
    method WaitBits(t: int, wanted: Bits, clear: bool, all: bool, ticks: nat) returns (value: Option<Bits>)
      requires Inv(View()) && t !in item && wanted !! CONTROL && wanted != {}
      modifies this
      ensures View() == WaitBegin(old(View()), t, Call(wanted, clear, all), ticks).0 && Inv(View())
      ensures value == WaitBegin(old(View()), t, Call(wanted, clear, all), ticks).1
      ensures value.Some? <==> Satisfied(old(bits), wanted, all) || ticks == 0
      ensures value.Some? ==> value.value == old(bits)
      ensures value.Some? ==> waiting == old(waiting) && item == old(item) && call == old(call)
      ensures bits == if Satisfied(old(bits), wanted, all) && clear then old(bits) - wanted else old(bits)
      ensures value.None? ==> Joined(old(View()), View(), t, Call(wanted, clear, all))
    {
      WaitExactly(View(), t, Call(wanted, clear, all), ticks);
      StepKeeps(View(), Wait(t, Call(wanted, clear, all), ticks));
      var current := bits;
      if Satisfied(current, wanted, all) {
        if clear {
          bits := bits - wanted;
        }
        return Some(current);
      } else if ticks == 0 {
        return Some(current);
      }
      waiting := waiting + [t];
      item := item[t := Request(wanted, clear, all)];
      call := call[t := Call(wanted, clear, all)];
      value := None;
    }

    /** xEventGroupSync until it returns or blocks */
    method SyncBits(t: int, add: Bits, wanted: Bits, ticks: nat) returns (value: Option<Bits>)
      requires Inv(View()) && t !in item && add !! CONTROL && wanted !! CONTROL && wanted != {}
      modifies this
      ensures View() == SyncBegin(old(View()), t, add, wanted, ticks).0 && Inv(View())
      ensures value == SyncBegin(old(View()), t, add, wanted, ticks).1
      ensures value.None? <==> !(wanted <= old(bits) + add) && ticks != 0
      ensures wanted <= old(bits) + add ==>
        value == Some(old(bits) + add) && View() == SetBits(old(View()), add).(bits := bits)
        && bits == SetBits(old(View()), add).bits - wanted
      ensures !(wanted <= old(bits) + add) && ticks == 0 ==>
        value == Some(bits) && BitsSet(old(View()), View(), add)
      ensures value.None? ==> Joined(SetBits(old(View()), add), View(), t, Call(wanted, true, true))
    {
      SyncExactly(View(), t, add, wanted, ticks);
      StepKeeps(View(), Sync(t, add, wanted, ticks));
      var original := bits;
      var after := SetEventBits(add);
      if (original + add) * wanted == wanted {
        bits := bits - wanted;
        return Some(original + add);
      } else if ticks == 0 {
        return Some(bits);
      }
      waiting := waiting + [t];
      item := item[t := Request(wanted, true, true)];
      call := call[t := Call(wanted, true, true)];
      value := None;
    }

    /** The part of a blocked xEventGroupWaitBits or xEventGroupSync after the task was
        unblocked. */
    method Finish(t: int) returns (value: Bits)
      requires Inv(View()) && t in item && t !in waiting
      modifies this
      ensures (View(), value) == WaitEnd(old(View()), t) && Inv(View())
      ensures var answered, c := old(item)[t] * UNBLOCKED != {}, old(call)[t];
              && value == (if answered then old(item)[t] - CONTROL else old(bits))
              && bits == (if !answered && Satisfied(old(bits), c.wanted, c.all) && c.clear then old(bits) - c.wanted
                          else old(bits))
      ensures waiting == old(waiting) && item == old(item) - {t} && call == old(call) - {t}
    {
      ResumeExactly(View(), t);
      StepKeeps(View(), Resume(t));
      value := item[t];
      var c := call[t];
      item, call := item - {t}, call - {t};
      if value * UNBLOCKED == {} {
        value := bits;
        if Satisfied(value, c.wanted, c.all) {
          if c.clear {
            bits := bits - c.wanted;
          }
        }
      }
      value := value - CONTROL;
    }

    /** xEventGroupClearBits */
    method ClearEventBits(mask: Bits) returns (before: Bits)
      requires Inv(View()) && mask !! CONTROL
      modifies this`bits
      ensures before == old(bits) && View() == old(View()).(bits := before - mask) && Inv(View())
    {
      StepKeeps(View(), Clear(mask));
      before := bits;
      bits := bits - mask;
    }
  }
}
