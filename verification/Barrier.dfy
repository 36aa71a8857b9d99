/** n tasks meeting again and again with xEventGroupSync: each sets its own bits and
    waits, without a time-out, for the whole mask. */
module Barrier {
  import opened Basics
  import opened EventGroups

  /** own[i] is what task i sets. */
  datatype Config = Config(own: seq<Bits>, mask: Bits) {
    ghost predicate Valid() {
      && 0 < |own| && mask != {} && mask !! CONTROL
      && forall i :: 0 <= i < |own| ==> own[i] !! CONTROL
    }

    /** Some bit of the mask is set by no task other than j. */
    ghost predicate Exclusive(j: int) {
      exists b :: b in mask && Missing(b, j)
    }

    ghost predicate Missing(b: int, j: int) {
      forall k :: 0 <= k < |own| && k != j ==> b !in own[k]
    }

    ghost predicate Covered() {
      forall b :: b in mask ==> exists k :: 0 <= k < |own| && b in own[k]
    }

    function Call(): Call { EventGroups.Call.Call(mask, true, true) }
  }

  /** entered and returned count each task's calls; round counts the meetings completed. */
  datatype State = State(g: Group, entered: seq<int>, returned: seq<int>, round: int)

  datatype Step = Enter(i: int) | Return(i: int) | SetOther(add: Bits) | ClearOther(bits: Bits)

  ghost predicate Enabled(s: State, c: Config, step: Step) {
    match step
    case Enter(i) => 0 <= i < |c.own| && |s.entered| == |s.returned| == |c.own| && i !in s.g.item
    case Return(i) => 0 <= i < |c.own| && |s.returned| == |c.own| && i in s.g.item && i in s.g.call && i !in s.g.waiting
    case SetOther(add) => add !! c.mask && add !! CONTROL
    case ClearOther(bits) => bits !! c.mask
  }

  ghost function Apply(s: State, c: Config, step: Step): State
    requires Enabled(s, c, step)
  {
    match step
    case Enter(i) =>
      var (h, value) := SyncBegin(s.g, i, c.own[i], c.mask, 1);
      var t := s.(g := h, entered := s.entered[i := s.entered[i] + 1]);
      if value.None? then t else t.(returned := s.returned[i := s.returned[i] + 1], round := s.round + 1)
    case Return(i) => s.(g := WaitEnd(s.g, i).0, returned := s.returned[i := s.returned[i] + 1])
    case SetOther(add) => s.(g := SetBits(s.g, add))
    case ClearOther(bits) => s.(g := s.g.(bits := s.g.bits - bits))
  }

  ghost function Init(c: Config): State {
    State(EMPTY, seq(|c.own|, i => 0), seq(|c.own|, i => 0), 0)
  }

  /** A task is in one of three phases: it waits in the next round, it was released from
      the current one and has not returned yet, or it is outside the call. */
  ghost predicate Phase(s: State, c: Config, i: int)
    requires 0 <= i < |s.entered| == |s.returned|
  {
    if i in s.g.waiting then s.entered[i] == s.round + 1 && s.returned[i] == s.round
    else if i in s.g.item then
      && s.entered[i] == s.round && s.returned[i] == s.round - 1
      && s.g.item[i] * UNBLOCKED != {} && c.mask <= s.g.item[i] - CONTROL
    else s.entered[i] == s.returned[i] == s.round
  }

  ghost predicate Inv(s: State, c: Config) {
    && |s.entered| == |s.returned| == |c.own| && Consistent(s.g)
    && (forall i :: 0 <= i < |c.own| ==> Phase(s, c, i))
    && (forall t :: t in s.g.item ==> 0 <= t < |c.own| && s.g.call[t] == c.Call())
    && (forall b :: b in c.mask ==> (b in s.g.bits <==> SetByWaiting(s, c, b)))
    && !(c.mask <= s.g.bits)
  }

  ghost predicate SetByWaiting(s: State, c: Config, b: int) {
    exists i :: i in s.g.waiting && 0 <= i < |c.own| && b in c.own[i]
  }

  // --- setting bits wakes everybody or nobody ------------------------------------------------

  lemma {:induction false} NobodyMatches(tasks: seq<int>, item: map<int, Bits>, bits: Bits)
    requires forall t :: t in tasks ==> !Matches(ItemOf(item, t), bits)
    ensures Unmatched(tasks, item, bits) == tasks && ClearMask(tasks, item, bits) == {}
    ensures Answered(tasks, item, bits) == item
  {
    if tasks != [] {
      assert tasks == tasks[..|tasks| - 1] + [tasks[|tasks| - 1]];
      NobodyMatches(tasks[..|tasks| - 1], item, bits);
    }
  }

  lemma WaiterMatches(s: State, c: Config, t: int, bits: Bits)
    requires Inv(s, c) && c.Valid() && t in s.g.waiting
    ensures t in s.g.item && (Matches(s.g.item[t], bits) <==> c.mask <= bits)
  {
    RequestDecodes(c.mask, true, true);
    assert bits * c.mask == c.mask <==> c.mask <= bits;
  }

  lemma NobodyWoken(s: State, c: Config, add: Bits)
    requires Inv(s, c) && c.Valid() && !(c.mask <= s.g.bits + add)
    ensures SetBits(s.g, add) == s.g.(bits := s.g.bits + add)
  {
    forall t | t in s.g.waiting ensures !Matches(ItemOf(s.g.item, t), s.g.bits + add) {
      WaiterMatches(s, c, t, s.g.bits + add);
    }
    NobodyMatches(s.g.waiting, s.g.item, s.g.bits + add);
  }

  lemma EverybodyWoken(s: State, c: Config, add: Bits)
    requires Inv(s, c) && c.Valid() && add !! CONTROL && c.mask <= s.g.bits + add
    ensures var h := SetBits(s.g, add);
            && Consistent(h) && h.waiting == [] && h.item.Keys == s.g.item.Keys && h.call == s.g.call
            && forall t :: t in s.g.item ==>
                 h.item[t] == if t in s.g.waiting then Answer(s.g.bits + add) else s.g.item[t]
  {
    var h, b := SetBits(s.g, add), s.g.bits + add;
    SetBitsConsistent(s.g, add);
    UnmatchedMembers(s.g.waiting, s.g.item, b);
    forall t | t in s.g.waiting ensures Matches(s.g.item[t], b) {
      WaiterMatches(s, c, t, b);
    }
    assert forall t :: t !in h.waiting;
    FirstIsMember(h.waiting);
  }

  // --- every step keeps the barrier's invariant -----------------------------------------------

  /** A task entering while bits are still missing waits. */
  lemma EnterBlocks(s: State, c: Config, i: int)
    requires Inv(s, c) && c.Valid() && Enabled(s, c, Enter(i)) && !(c.mask <= s.g.bits + c.own[i])
    ensures Apply(s, c, Enter(i)) ==
      s.(g := Block(s.g.(bits := s.g.bits + c.own[i]), i, c.Call()), entered := s.entered[i := s.round + 1])
  {
    NobodyWoken(s, c, c.own[i]);
    var b := s.g.bits + c.own[i];
    assert b * c.mask == c.mask <==> c.mask <= b;
    assert Phase(s, c, i);
  }

  lemma BlockedInv(s: State, c: Config, i: int, t: State)
    requires Inv(s, c) && c.Valid() && 0 <= i < |c.own| && i !in s.g.item && !(c.mask <= s.g.bits + c.own[i])
    requires t == s.(g := Block(s.g.(bits := s.g.bits + c.own[i]), i, c.Call()), entered := s.entered[i := s.round + 1])
    ensures Inv(t, c)
  {
    RequestDecodes(c.mask, true, true);
    assert forall x :: x in t.g.waiting <==> x in s.g.waiting || x == i;
    assert Phase(s, c, i);
    forall j | 0 <= j < |c.own| ensures Phase(t, c, j) {
      assert Phase(s, c, j);
    }
    forall m | m in c.mask ensures m in t.g.bits <==> SetByWaiting(t, c, m) {
      BlockedBit(s, c, i, t, m);
    }
  }

  lemma BlockedBit(s: State, c: Config, i: int, t: State, m: int)
    requires 0 <= i < |c.own| && t.g.waiting == s.g.waiting + [i]
    ensures SetByWaiting(t, c, m) <==> SetByWaiting(s, c, m) || m in c.own[i]
  {
    assert i in t.g.waiting;
    if SetByWaiting(s, c, m) {
      var j :| j in s.g.waiting && 0 <= j < |c.own| && m in c.own[j];
      assert j in t.g.waiting;
    }
  }

  lemma EnterWaits(s: State, c: Config, i: int)
    requires Inv(s, c) && c.Valid() && Enabled(s, c, Enter(i)) && !(c.mask <= s.g.bits + c.own[i])
    ensures var t := Apply(s, c, Enter(i));
            && t == s.(g := Block(s.g.(bits := s.g.bits + c.own[i]), i, c.Call()),
                     entered := s.entered[i := s.round + 1])
            && Inv(t, c)
  {
    EnterBlocks(s, c, i);
    BlockedInv(s, c, i, Apply(s, c, Enter(i)));
  }

  /** When the last missing bit comes, everybody else is waiting. */
  lemma AllHaveEntered(s: State, c: Config, i: int, j: int)
    requires Inv(s, c) && 0 <= i < |c.own| && c.mask <= s.g.bits + c.own[i]
    requires 0 <= j < |c.own| && c.Exclusive(j) && i != j
    ensures j in s.g.waiting
  {
    var b :| b in c.mask && c.Missing(b, j);
    assert b !in c.own[i] && SetByWaiting(s, c, b);
    var k :| k in s.g.waiting && 0 <= k < |c.own| && b in c.own[k];
    assert k == j;
  }

  /** What xEventGroupSync returns at once, if it does not block. */
  function Entering(s: State, c: Config, i: int): Option<Bits>
    requires 0 <= i < |c.own|
  {
    SyncBegin(s.g, i, c.own[i], c.mask, 1).1
  }

  /** The task that completes the mask returns at once, everybody else is released, and
      the bits of the mask are clear again. */
  lemma EnterReleases(s: State, c: Config, i: int)
    requires Inv(s, c) && c.Valid() && Enabled(s, c, Enter(i)) && c.mask <= s.g.bits + c.own[i]
    requires forall j :: 0 <= j < |c.own| ==> c.Exclusive(j)
    ensures var t := Apply(s, c, Enter(i));
            && Inv(t, c) && t.round == s.round + 1 && t.g.bits !! c.mask
            && forall j :: 0 <= j < |c.own| ==> t.entered[j] == t.round
    ensures Entering(s, c, i) == Some(s.g.bits + c.own[i])
  {
    EverybodyWoken(s, c, c.own[i]);
    AnswerDecodes(s.g.bits + c.own[i]);
    var b := s.g.bits + c.own[i];
    assert b * c.mask == c.mask;
    var t := Apply(s, c, Enter(i));
    assert t.g == SetBits(s.g, c.own[i]).(bits := SetBits(s.g, c.own[i]).bits - c.mask);
    forall j | 0 <= j < |c.own| ensures Phase(t, c, j) && t.entered[j] == t.round {
      assert Phase(s, c, j);
      if j != i { AllHaveEntered(s, c, i, j); }
    }
  }

  lemma ReturnKeeps(s: State, c: Config, i: int)
    requires Inv(s, c) && c.Valid() && Enabled(s, c, Return(i))
    ensures Inv(Apply(s, c, Return(i)), c)
    ensures c.mask <= WaitEnd(s.g, i).1
  {
    var t := Apply(s, c, Return(i));
    assert Phase(s, c, i);
    forall j | 0 <= j < |c.own| ensures Phase(t, c, j) {
      assert Phase(s, c, j);
    }
    forall m | m in c.mask ensures m in t.g.bits <==> SetByWaiting(t, c, m) {
      assert SetByWaiting(s, c, m) <==> SetByWaiting(t, c, m);
    }
  }

  lemma OtherKeeps(s: State, c: Config, step: Step)
    requires Inv(s, c) && c.Valid() && Enabled(s, c, step) && (step.SetOther? || step.ClearOther?)
    ensures Inv(Apply(s, c, step), c)
  {
    var t := Apply(s, c, step);
    if step.SetOther? {
      assert !(c.mask <= s.g.bits + step.add) by {
        var m :| m in c.mask && m !in s.g.bits;
        assert m !in step.add;
      }
      NobodyWoken(s, c, step.add);
    }
    assert t.g.waiting == s.g.waiting && t.g.item == s.g.item;
    forall j | 0 <= j < |c.own| ensures Phase(t, c, j) {
      assert Phase(s, c, j);
    }
    forall m | m in c.mask ensures m in t.g.bits <==> SetByWaiting(t, c, m) {
      assert SetByWaiting(s, c, m) <==> SetByWaiting(t, c, m);
    }
  }

  lemma StepKeeps(s: State, c: Config, step: Step)
    requires Inv(s, c) && c.Valid() && Enabled(s, c, step)
    requires forall j :: 0 <= j < |c.own| ==> c.Exclusive(j)
    ensures Inv(Apply(s, c, step), c)
  {
    match step
    case Enter(i) =>
      if c.mask <= s.g.bits + c.own[i] { EnterReleases(s, c, i); } else { EnterWaits(s, c, i); }
    case Return(i) => ReturnKeeps(s, c, i);
    case _ => OtherKeeps(s, c, step);
  }

  // --- whole runs -----------------------------------------------------------------------------

  ghost predicate IsRun(s: State, c: Config, steps: seq<Step>, t: State)
    decreases |steps|
  {
    if steps == [] then s == t
    else Enabled(s, c, steps[0]) && IsRun(Apply(s, c, steps[0]), c, steps[1..], t)
  }

  lemma {:induction false} RunKeeps(s: State, c: Config, steps: seq<Step>, t: State)
    requires Inv(s, c) && c.Valid() && IsRun(s, c, steps, t)
    requires forall j :: 0 <= j < |c.own| ==> c.Exclusive(j)
    ensures Inv(t, c)
    decreases |steps|
  {
    if steps != [] {
      StepKeeps(s, c, steps[0]);
      RunKeeps(Apply(s, c, steps[0]), c, steps[1..], t);
    }
  }

  lemma InitInv(c: Config)
    requires c.Valid()
    ensures Inv(Init(c), c)
  {
    forall i | 0 <= i < |c.own| ensures Phase(Init(c), c, i) {
    }
    assert exists b :: b in c.mask;
  }

  /** No task has returned from more meetings than every other task has come to. */
  ghost predicate NobodyEarly(s: State) {
    forall i, j :: 0 <= i < |s.returned| && 0 <= j < |s.entered| ==> s.returned[i] <= s.entered[j]
  }

  ghost predicate Safe(c: Config) {
    forall steps, t :: IsRun(Init(c), c, steps, t) ==> NobodyEarly(t)
  }

  /** The entry that ends a round returns the whole mask, comes after everybody has entered
      the round, and leaves the mask clear. */
  ghost predicate EndsRound(s: State, c: Config, i: int)
    requires Enabled(s, c, Enter(i))
  {
    var t := Apply(s, c, Enter(i));
    && c.mask <= Entering(s, c, i).GetOr({}) && t.g.bits !! c.mask
    && |t.entered| == |c.own| && t.round == s.round + 1
    && forall j :: 0 <= j < |c.own| ==> t.entered[j] == t.round
  }

  /** In every reachable state of a barrier whose tasks each have a bit of their own: a
      task that returned from a round leaves nobody behind, the task that completes the mask
      and whoever is released return the whole mask, the mask is clear after every round, and
      the tasks are never all blocked. */
  lemma BarrierHolds(c: Config, steps: seq<Step>, t: State)
    requires c.Valid() && IsRun(Init(c), c, steps, t)
    requires forall j :: 0 <= j < |c.own| ==> c.Exclusive(j)
    ensures NobodyEarly(t)
    ensures forall i :: Enabled(t, c, Return(i)) ==> c.mask <= WaitEnd(t.g, i).1
    ensures forall i :: Enabled(t, c, Enter(i)) && Entering(t, c, i).Some? ==> EndsRound(t, c, i)
    ensures c.Covered() ==> exists i :: 0 <= i < |c.own| && (Enabled(t, c, Enter(i)) || Enabled(t, c, Return(i)))
  {
    InitInv(c);
    RunKeeps(Init(c), c, steps, t);
    forall i | 0 <= i < |c.own| ensures t.returned[i] <= t.round <= t.entered[i] {
      assert Phase(t, c, i);
    }
    forall i | Enabled(t, c, Return(i)) ensures c.mask <= WaitEnd(t.g, i).1 {
      ReturnKeeps(t, c, i);
    }
    forall i | Enabled(t, c, Enter(i)) && Entering(t, c, i).Some? ensures EndsRound(t, c, i) {
      if c.mask <= t.g.bits + c.own[i] { EnterReleases(t, c, i); } else { EnterBlocks(t, c, i); }
    }
    if c.Covered() {
      var m :| m in c.mask && m !in t.g.bits;
      var k :| 0 <= k < |c.own| && m in c.own[k];
      assert k !in t.g.waiting;
      assert Enabled(t, c, Enter(k)) || Enabled(t, c, Return(k));
    }
  }

  // --- the condition is exact -------------------------------------------------------------------

  /** The first k tasks except j have entered and wait; nobody else has done anything. */
  ghost predicate Gathering(s: State, c: Config, k: int, j: int) {
    && Inv(s, c) && s.round == 0
    && (forall i :: 0 <= i < |c.own| ==> (i in s.g.item <==> i < k && i != j))
    && (forall i :: 0 <= i < |c.own| ==> (i in s.g.waiting <==> i < k && i != j))
    && (forall i :: 0 <= i < |c.own| ==> s.returned[i] == 0 && s.entered[i] == if i < k && i != j then 1 else 0)
  }

  /** The task that completes the mask returns, although j has not entered. */
  lemma OneLeaves(s: State, c: Config, k: int, j: int) returns (t: State)
    requires c.Valid() && 0 <= k < |c.own| && 0 <= j < |c.own| && k != j && Gathering(s, c, k, j)
    requires c.mask <= s.g.bits + c.own[k]
    ensures Enabled(s, c, Enter(k)) && t == Apply(s, c, Enter(k)) && !NobodyEarly(t)
  {
    t := Apply(s, c, Enter(k));
    assert (s.g.bits + c.own[k]) * c.mask == c.mask;
    assert t.returned[k] == 1 > t.entered[j];
  }

  lemma OneMoreWaits(s: State, c: Config, k: int, j: int) returns (u: State)
    requires c.Valid() && 0 <= k < |c.own| && 0 <= j < |c.own| && k != j && Gathering(s, c, k, j)
    requires !(c.mask <= s.g.bits + c.own[k])
    ensures Enabled(s, c, Enter(k)) && u == Apply(s, c, Enter(k)) && Gathering(u, c, k + 1, j)
  {
    EnterWaits(s, c, k);
    u := Apply(s, c, Enter(k));
    assert forall x :: x in u.g.waiting <==> x in s.g.waiting || x == k;
  }

  /** Without a bit of its own, task j is not waited for: the others, entering one after
      another, complete the mask, and the last of them returns. */
  lemma {:induction false} OthersComplete(s: State, c: Config, k: int, j: int) returns (steps: seq<Step>, t: State)
    requires c.Valid() && 0 <= k <= |c.own| && 0 <= j < |c.own| && !c.Exclusive(j) && Gathering(s, c, k, j)
    ensures IsRun(s, c, steps, t) && !NobodyEarly(t)
    decreases |c.own| - k
  {
    if k == |c.own| {
      EverybodyMissed(s, c, k, j);
    } else if k == j {
      steps, t := OthersComplete(s, c, k + 1, j);
    } else if c.mask <= s.g.bits + c.own[k] {
      t := OneLeaves(s, c, k, j);
      steps := [Enter(k)];
      assert IsRun(t, c, steps[1..], t);
    } else {
      var u := OneMoreWaits(s, c, k, j);
      var rest;
      rest, t := OthersComplete(u, c, k + 1, j);
      steps := [Enter(k)] + rest;
      assert steps[1..] == rest;
    }
  }

  /** If all others waited, every bit of the mask would be set. */
  lemma EverybodyMissed(s: State, c: Config, k: int, j: int)
    requires c.Valid() && k == |c.own| && 0 <= j < |c.own| && Gathering(s, c, k, j)
    ensures c.Exclusive(j)
  {
    var b :| b in c.mask && b !in s.g.bits;
    assert !SetByWaiting(s, c, b);
    assert c.Missing(b, j);
  }

  /** The barrier works on every run exactly if every task sets some bit of the mask that
      no other task sets. */
  lemma SafeExactlyWithOwnBits(c: Config)
    requires c.Valid()
    ensures Safe(c) <==> forall j :: 0 <= j < |c.own| ==> c.Exclusive(j)
  {
    if forall j :: 0 <= j < |c.own| ==> c.Exclusive(j) {
      forall steps, t | IsRun(Init(c), c, steps, t) ensures NobodyEarly(t) {
        BarrierHolds(c, steps, t);
      }
    } else {
      var j :| 0 <= j < |c.own| && !c.Exclusive(j);
      InitInv(c);
      var steps, t := OthersComplete(Init(c), c, 0, j);
    }
  }
}
