/** Any number of producer and consumer clients over a ring guarded by three semaphores, with
    the admission counters and totals of the server. Steps interleave at every semaphore
    operation and, inside the critical section, between the two halves of an update. */
module SemRing {
  import opened Basics
  import opened Rings
  import opened Sums

  datatype Config = Config(capacity: nat, maxProducers: nat, maxConsumers: nat)

  datatype Role = Producer | Consumer

  /** Where a client's thread is. Half is between the two updates of a critical section;
      LastPost is after the client was refused or signed off, before it frees the mutex. */
  datatype Pc =
    | Arriving | Checking | Admitted                                // handle_client up to the task
    | Idle                                                          // between two items
    | WantSlot | WantMutex | Inside | Half | Through | PostSlot     // producer, consumer
    | Leaving | Exiting | LastPost                                  // handle_client from the task on
    | Gone

  datatype Client = Client(role: Role, pc: Pc, item: int)

  /** An item with the client that put it in or took it out. */
  datatype Entry = Entry(who: int, item: int)

  /** entered and left record the items in the order they were put in and taken out: they are
      not in the program and no step reads them. */
  datatype State = State(queue: seq<int>, itemNum: int, produced: int, consumed: int,
                         producers: int, consumers: int, empty: int, full: int, mutex: int,
                         clients: seq<Client>, entered: seq<Entry>, left: seq<Entry>)

  datatype Step =
    | Advance(c: int)            // the client's next operation
    | Begin(c: int, item: int)   // it has an item to put in, or asks for one
    | GiveUp(c: int)             // its timed wait for an item ran out or failed
    | SignOff(c: int)            // it disconnects

  function Init(cfg: Config, roles: seq<Role>): State {
    State([], 0, 0, 0, 0, 0, cfg.capacity, 0, 1,
          seq(|roles|, i requires 0 <= i < |roles| => Client(roles[i], Arriving, 0)), [], [])
  }

  predicate At(s: State, c: int, pc: Pc) { 0 <= c < |s.clients| && s.clients[c].pc == pc }

  function Tokens(s: State, r: Role): int { if r == Producer then s.empty else s.full }

  function Admissions(s: State, r: Role): int { if r == Producer then s.producers else s.consumers }

  function Limit(cfg: Config, r: Role): nat { if r == Producer then cfg.maxProducers else cfg.maxConsumers }

  /** The next operation of a client is possible: only waits for a semaphore can block. */
  predicate Ready(s: State, k: Client) {
    match k.pc
    case Idle => false
    case Gone => false
    case Arriving => s.mutex > 0
    case WantMutex => s.mutex > 0
    case Leaving => s.mutex > 0
    case WantSlot => Tokens(s, k.role) > 0
    case _ => true
  }

  predicate Enabled(s: State, step: Step) {
    0 <= step.c < |s.clients| &&
    var k := s.clients[step.c];
    match step
    case Advance(_) => Ready(s, k)
    case Begin(_, _) => k.pc == Idle
    case GiveUp(_) => k.pc == WantSlot && k.role == Consumer
    case SignOff(_) => k.pc == Idle
  }

  /** The client after its next operation. */
  function Next(cfg: Config, s: State, k: Client): Client {
    match k.pc
    case Arriving => k.(pc := Checking)
    case Checking => k.(pc := if Admissions(s, k.role) >= Limit(cfg, k.role) then LastPost else Admitted)
    case Admitted => k.(pc := Idle)
    case WantSlot => k.(pc := WantMutex)
    case WantMutex => k.(pc := Inside)
    case Inside => if k.role == Consumer && s.queue != [] then k.(pc := Half, item := s.queue[0]) else k.(pc := Half)
    case Half => k.(pc := Through)
    case Through => k.(pc := PostSlot)
    case PostSlot => k.(pc := Idle)
    case Leaving => k.(pc := Exiting)
    case Exiting => k.(pc := LastPost)
    case LastPost => k.(pc := Gone)
    case _ => k
  }

  function Admit(s: State, r: Role, delta: int): State {
    if r == Producer then s.(producers := s.producers + delta) else s.(consumers := s.consumers + delta)
  }

  /** What the next operation of client k, whose number is c, does to everything but the client. */
  function Effect(cfg: Config, s: State, c: int, k: Client): State {
    match k.pc
    case Arriving => s.(mutex := s.mutex - 1)
    case Checking => if Admissions(s, k.role) >= Limit(cfg, k.role) then s else Admit(s, k.role, 1)
    case Admitted => s.(mutex := s.mutex + 1)
    case WantSlot => if k.role == Producer then s.(empty := s.empty - 1) else s.(full := s.full - 1)
    case WantMutex => s.(mutex := s.mutex - 1)
    case Inside =>
      if k.role == Producer then s.(produced := s.produced + 1)
      else if s.queue == [] then s
      else s.(queue := s.queue[1..], itemNum := s.itemNum - 1, left := s.left + [Entry(c, s.queue[0])])
    case Half =>
      if k.role == Producer then
        s.(queue := s.queue + [k.item], itemNum := s.itemNum + 1, entered := s.entered + [Entry(c, k.item)])
      else s.(consumed := s.consumed + 1)
    case Through => s.(mutex := s.mutex + 1)
    case PostSlot => if k.role == Producer then s.(full := s.full + 1) else s.(empty := s.empty + 1)
    case Leaving => s.(mutex := s.mutex - 1)
    case Exiting => if Admissions(s, k.role) > 0 then Admit(s, k.role, -1) else s
    case LastPost => s.(mutex := s.mutex + 1)
    case _ => s
  }

  function Changed(cfg: Config, s: State, step: Step): Client
    requires Enabled(s, step)
  {
    var k := s.clients[step.c];
    match step
    case Advance(_) => Next(cfg, s, k)
    case Begin(_, item) => k.(pc := WantSlot, item := item)
    case GiveUp(_) => k.(pc := Leaving)
    case SignOff(_) => k.(pc := Leaving)
  }

  function Apply(cfg: Config, s: State, step: Step): State
    requires Enabled(s, step)
  {
    var r := if step.Advance? then Effect(cfg, s, step.c, s.clients[step.c]) else s;
    r.(clients := s.clients[step.c := Changed(cfg, s, step)])
  }

  // --- what a client holds ---------------------------------------------------------------------

  function One(b: bool): int { if b then 1 else 0 }

  predicate InSection(k: Client) { k.pc == Inside || k.pc == Half || k.pc == Through }

  /** A free cell taken from empty and not yet filled, or freed and not yet given back. */
  function Cell(k: Client): int {
    One(if k.role == Producer then k.pc == WantMutex || k.pc == Inside || k.pc == Half
        else k.pc == Half || k.pc == Through || k.pc == PostSlot)
  }

  /** An item taken from full and still in the ring, or put there and not yet announced. */
  function Item(k: Client): int {
    One(if k.role == Consumer then k.pc == WantMutex || k.pc == Inside
        else k.pc == Through || k.pc == PostSlot)
  }

  function Lock(k: Client): int {
    One(k.pc == Checking || k.pc == Admitted || InSection(k) || k.pc == Exiting || k.pc == LastPost)
  }

  function PutHalf(k: Client): int { One(k.role == Producer && k.pc == Half) }

  function TakeHalf(k: Client): int { One(k.role == Consumer && k.pc == Half) }

  /** The client counts as admitted. */
  predicate In(k: Client) {
    k.pc == Admitted || k.pc == Idle || k.pc == WantSlot || k.pc == WantMutex || InSection(k) || k.pc == PostSlot
    || k.pc == Leaving || k.pc == Exiting
  }

  function InProducer(k: Client): int { One(k.role == Producer && In(k)) }

  function InConsumer(k: Client): int { One(k.role == Consumer && In(k)) }

  // --- the invariant ---------------------------------------------------------------------------

  /** Every token is accounted for: in its semaphore, in the ring, or in a client's hands. */
  ghost predicate TokenInv(cfg: Config, s: State) {
    && s.empty >= 0 && s.full >= 0 && s.mutex >= 0
    && s.empty + |s.queue| + Sum(s.clients, Cell) == cfg.capacity
    && s.full + Sum(s.clients, Item) == |s.queue|
    && s.mutex + Sum(s.clients, Lock) == 1
  }

  function Items(entries: seq<Entry>): (r: seq<int>)
    ensures |r| == |entries| && forall i :: 0 <= i < |r| ==> r[i] == entries[i].item
  {
    seq(|entries|, i requires 0 <= i < |entries| => entries[i].item)
  }

  /** Items leave in the order they entered, and the counters count them. */
  ghost predicate ItemInv(s: State) {
    && Items(s.entered) == Items(s.left) + s.queue
    && s.itemNum == |s.queue|
    && s.produced == |s.entered| + Sum(s.clients, PutHalf)
    && s.consumed + Sum(s.clients, TakeHalf) == |s.left|
  }

  ghost predicate AdmissionInv(cfg: Config, s: State) {
    && s.producers == Sum(s.clients, InProducer) <= cfg.maxProducers
    && s.consumers == Sum(s.clients, InConsumer) <= cfg.maxConsumers
  }

  ghost predicate Inv(cfg: Config, s: State) { TokenInv(cfg, s) && ItemInv(s) && AdmissionInv(cfg, s) }

  lemma InitInv(cfg: Config, roles: seq<Role>)
    ensures Inv(cfg, Init(cfg, roles))
  {
    var cs := Init(cfg, roles).clients;
    SumConstant(cs, Cell, 0);
    SumConstant(cs, Item, 0);
    SumConstant(cs, Lock, 0);
    SumConstant(cs, PutHalf, 0);
    SumConstant(cs, TakeHalf, 0);
    SumConstant(cs, InProducer, 0);
    SumConstant(cs, InConsumer, 0);
  }

  // --- who holds a token finds what it stands for ------------------------------------------------

  /** A client inside its critical section finds room for its item, or an item. */
  lemma RoomInside(cfg: Config, s: State, c: int)
    requires TokenInv(cfg, s) && (At(s, c, Inside) || At(s, c, Half))
    ensures s.clients[c].role == Producer ==> |s.queue| < cfg.capacity
    ensures s.clients[c].role == Consumer && At(s, c, Inside) ==> |s.queue| > 0
  {
    SumCovers(s.clients, Cell, c, c);
    SumCovers(s.clients, Item, c, c);
  }

  /** A client that signs off is among those its counter counts. */
  lemma CountedAtExit(cfg: Config, s: State, c: int)
    requires AdmissionInv(cfg, s) && At(s, c, Exiting)
    ensures Admissions(s, s.clients[c].role) > 0
  {
    SumCovers(s.clients, InProducer, c, c);
    SumCovers(s.clients, InConsumer, c, c);
  }

  // --- every step keeps it -----------------------------------------------------------------------

  /** The client a step changes holds afterwards what the step took from the semaphores and
      the ring, and no longer holds what it gave back. */
  lemma TokensMove(cfg: Config, s: State, c: int, k: Client)
    requires Ready(s, k)
    requires k.pc == Inside && k.role == Consumer ==> s.queue != []
    ensures var r := Effect(cfg, s, c, k); var n := Next(cfg, s, k);
            && r.empty + |r.queue| + Cell(n) == s.empty + |s.queue| + Cell(k)
            && r.full + Item(n) - |r.queue| == s.full + Item(k) - |s.queue|
            && r.mutex + Lock(n) == s.mutex + Lock(k)
            && r.empty >= Least(0, s.empty) && r.full >= Least(0, s.full) && r.mutex >= Least(0, s.mutex)
  {
  }

  lemma ItemsMove(cfg: Config, s: State, c: int, k: Client)
    requires Ready(s, k) && Items(s.entered) == Items(s.left) + s.queue && s.itemNum == |s.queue|
    requires k.pc == Inside && k.role == Consumer ==> s.queue != []
    ensures var r := Effect(cfg, s, c, k); var n := Next(cfg, s, k);
            && Items(r.entered) == Items(r.left) + r.queue && r.itemNum == |r.queue|
            && r.produced - |r.entered| - PutHalf(n) == s.produced - |s.entered| - PutHalf(k)
            && r.consumed - |r.left| + TakeHalf(n) == s.consumed - |s.left| + TakeHalf(k)
  {
  }

  lemma AdmissionsMove(cfg: Config, s: State, c: int, k: Client)
    requires Ready(s, k) && s.producers <= cfg.maxProducers && s.consumers <= cfg.maxConsumers
    requires k.pc == Exiting ==> Admissions(s, k.role) > 0
    ensures var r := Effect(cfg, s, c, k); var n := Next(cfg, s, k);
            && r.producers - InProducer(n) == s.producers - InProducer(k) && r.producers <= cfg.maxProducers
            && r.consumers - InConsumer(n) == s.consumers - InConsumer(k) && r.consumers <= cfg.maxConsumers
  {
  }

  /** A sum over the clients after a step. */
  lemma StepSum(cfg: Config, s: State, step: Step, f: Client -> int)
    requires Enabled(s, step)
    ensures Sum(Apply(cfg, s, step).clients, f) == Sum(s.clients, f) - f(s.clients[step.c]) + f(Changed(cfg, s, step))
  {
    SumUpdate(s.clients, f, step.c, Changed(cfg, s, step));
  }

  lemma TokensKept(cfg: Config, s: State, step: Step)
    requires TokenInv(cfg, s) && Enabled(s, step)
    ensures TokenInv(cfg, Apply(cfg, s, step))
  {
    StepSum(cfg, s, step, Cell);
    StepSum(cfg, s, step, Item);
    StepSum(cfg, s, step, Lock);
    if At(s, step.c, Inside) || At(s, step.c, Half) { RoomInside(cfg, s, step.c); }
    if step.Advance? { TokensMove(cfg, s, step.c, s.clients[step.c]); }
  }

  lemma ItemsKept(cfg: Config, s: State, step: Step)
    requires TokenInv(cfg, s) && ItemInv(s) && Enabled(s, step)
    ensures ItemInv(Apply(cfg, s, step))
  {
    StepSum(cfg, s, step, PutHalf);
    StepSum(cfg, s, step, TakeHalf);
    if At(s, step.c, Inside) { RoomInside(cfg, s, step.c); }
    if step.Advance? { ItemsMove(cfg, s, step.c, s.clients[step.c]); }
  }

  lemma AdmissionsKept(cfg: Config, s: State, step: Step)
    requires AdmissionInv(cfg, s) && Enabled(s, step)
    ensures AdmissionInv(cfg, Apply(cfg, s, step))
  {
    StepSum(cfg, s, step, InProducer);
    StepSum(cfg, s, step, InConsumer);
    if At(s, step.c, Exiting) { CountedAtExit(cfg, s, step.c); }
    if step.Advance? { AdmissionsMove(cfg, s, step.c, s.clients[step.c]); }
  }

  lemma StepKeeps(cfg: Config, s: State, step: Step)
    requires Inv(cfg, s) && Enabled(s, step)
    ensures Inv(cfg, Apply(cfg, s, step))
  {
    TokensKept(cfg, s, step);
    ItemsKept(cfg, s, step);
    AdmissionsKept(cfg, s, step);
  }

  // --- every run -----------------------------------------------------------------------------------

  ghost predicate IsRun(s: State, cfg: Config, steps: seq<Step>, t: State)
    decreases |steps|
  {
    if steps == [] then s == t
    else Enabled(s, steps[0]) && IsRun(Apply(cfg, s, steps[0]), cfg, steps[1..], t)
  }

  /** Some run of some clients, all of them arriving, leads to s. */
  ghost predicate Reachable(cfg: Config, s: State) {
    exists roles, steps :: IsRun(Init(cfg, roles), cfg, steps, s)
  }

  lemma {:induction false} RunKeeps(s: State, cfg: Config, steps: seq<Step>, t: State)
    requires Inv(cfg, s) && IsRun(s, cfg, steps, t)
    ensures Inv(cfg, t)
    decreases |steps|
  {
    if steps != [] {
      StepKeeps(cfg, s, steps[0]);
      RunKeeps(Apply(cfg, s, steps[0]), cfg, steps[1..], t);
    }
  }

  lemma ReachableInv(cfg: Config, s: State)
    requires Reachable(cfg, s)
    ensures Inv(cfg, s)
  {
    var roles, steps :| IsRun(Init(cfg, roles), cfg, steps, s);
    InitInv(cfg, roles);
    RunKeeps(Init(cfg, roles), cfg, steps, s);
  }

  /** The ignored results of rb_push and rb_pop are always 0: a producer about to push never
      finds the ring full, a consumer about to pop never finds it empty. */
  lemma ResultsAreZero(cfg: Config, s: State, c: int)
    requires Reachable(cfg, s) && (At(s, c, Inside) || At(s, c, Half))
    ensures s.clients[c].role == Producer ==> |s.queue| < cfg.capacity
    ensures s.clients[c].role == Consumer && At(s, c, Inside) ==> |s.queue| > 0
  {
    ReachableInv(cfg, s);
    RoomInside(cfg, s, c);
  }

  /** Items leave in the order they entered: those that left are the first ones that entered,
      and those that entered since stand in the ring. */
  lemma FirstInFirstOut(cfg: Config, s: State)
    requires Reachable(cfg, s)
    ensures Items(s.left) <= Items(s.entered) && s.queue == Items(s.entered)[|s.left|..]
  {
    ReachableInv(cfg, s);
  }

  // --- whose items they are ----------------------------------------------------------------------

  /** The items of one client, in their order. */
  function Of(entries: seq<Entry>, c: int): seq<int> {
    if entries == [] then []
    else
      var rest, last := Of(entries[..|entries| - 1], c), entries[|entries| - 1];
      if last.who == c then rest + [last.item] else rest
  }

  lemma OfAppend(entries: seq<Entry>, e: Entry, c: int)
    ensures Of(entries + [e], c) == if e.who == c then Of(entries, c) + [e.item] else Of(entries, c)
  {
    assert (entries + [e])[..|entries|] == entries;
  }

  function SetOutWith(step: Step, c: int): seq<int> {
    if step.Begin? && step.c == c then [step.item] else []
  }

  /** The items client c set out with in these steps, in their order. */
  function Begun(steps: seq<Step>, c: int): seq<int>
    decreases |steps|
  {
    if steps == [] then []
    else SetOutWith(steps[0], c) + Begun(steps[1..], c)
  }

  /** The item a producer has set out with and not yet put in. */
  function Pending(k: Client): seq<int> {
    if k.pc == WantSlot || k.pc == WantMutex || k.pc == Inside || k.pc == Half then [k.item] else []
  }

  predicate Is(s: State, c: int, r: Role) { 0 <= c < |s.clients| && s.clients[c].role == r }

  /** A step of a producer's enters the item it had pending, or lets it set out with one. */
  lemma OwnClientStep(cfg: Config, s: State, step: Step)
    requires Enabled(s, step) && Is(s, step.c, Producer)
    ensures var k, n := s.clients[step.c], Changed(cfg, s, step);
            if step.Advance? && k.pc == Half then Pending(k) == [k.item] && Pending(n) == []
            else Pending(n) == Pending(k) + SetOutWith(step, step.c)
  {
  }

  lemma EnteredStep(cfg: Config, s: State, step: Step)
    requires Enabled(s, step)
    ensures var t, k := Apply(cfg, s, step), s.clients[step.c];
            t.entered == if step.Advance? && k.pc == Half && k.role == Producer then s.entered + [Entry(step.c, k.item)]
                         else s.entered
  {
  }

  /** All that producer c has put in or has pending. */
  function Account(s: State, c: int): seq<int> {
    if 0 <= c < |s.clients| then Of(s.entered, c) + Pending(s.clients[c]) else []
  }

  lemma Regroup(a: seq<int>, b: seq<int>, c: seq<int>)
    ensures (a + b) + c == a + (b + c)
  {
  }

  lemma OthersItemsStep(cfg: Config, s: State, step: Step, c: int)
    requires Enabled(s, step) && Is(s, c, Producer) && step.c != c
    ensures Account(Apply(cfg, s, step), c) == Account(s, c) + []
  {
    EnteredStep(cfg, s, step);
    OfAppend(s.entered, Entry(step.c, s.clients[step.c].item), c);
  }

  lemma OwnItemsStep(cfg: Config, s: State, step: Step)
    requires Enabled(s, step) && Is(s, step.c, Producer)
    ensures Account(Apply(cfg, s, step), step.c) == Account(s, step.c) + SetOutWith(step, step.c)
  {
    var c, k := step.c, s.clients[step.c];
    EnteredStep(cfg, s, step);
    OwnClientStep(cfg, s, step);
    OfAppend(s.entered, Entry(c, k.item), c);
    Regroup(Of(s.entered, c), Pending(k), SetOutWith(step, c));
  }

  lemma {:induction false} OwnItemsRun(s: State, cfg: Config, steps: seq<Step>, t: State, c: int)
    requires IsRun(s, cfg, steps, t) && Is(s, c, Producer)
    ensures Is(t, c, Producer) && Account(t, c) == Account(s, c) + Begun(steps, c)
    decreases |steps|
  {
    if steps != [] {
      var next := Apply(cfg, s, steps[0]);
      if steps[0].c == c { OwnItemsStep(cfg, s, steps[0]); } else { OthersItemsStep(cfg, s, steps[0], c); }
      OwnItemsRun(next, cfg, steps[1..], t, c);
      Regroup(Account(s, c), SetOutWith(steps[0], c), Begun(steps[1..], c));
    }
  }

  /** On every run, what a producer has put in is what it set out with, each item once and in
      its own order, but for the last one while that is still under way. */
  lemma OwnItemsEnter(cfg: Config, roles: seq<Role>, steps: seq<Step>, s: State, c: int)
    requires IsRun(Init(cfg, roles), cfg, steps, s) && 0 <= c < |roles| && roles[c] == Producer
    ensures Is(s, c, Producer) && Of(s.entered, c) + Pending(s.clients[c]) == Begun(steps, c)
  {
    var start := Init(cfg, roles);
    OwnItemsRun(start, cfg, steps, s, c);
    assert Account(start, c) == [];
  }

  /** Only producers have put items in and only consumers have taken them out, and a consumer
      holds the item it took out last until it asks for the next one. */
  ghost predicate HandedInv(s: State) {
    && (forall e :: e in s.entered ==> Is(s, e.who, Producer))
    && (forall e :: e in s.left ==> Is(s, e.who, Consumer))
    && (forall c :: Is(s, c, Consumer) ==> Handed(s, c))
  }

  ghost predicate Handed(s: State, c: int) {
    (At(s, c, Half) || At(s, c, Through) || At(s, c, PostSlot)) ==>
      Of(s.left, c) != [] && Of(s.left, c)[|Of(s.left, c)| - 1] == s.clients[c].item
  }

  lemma HandedStep(cfg: Config, s: State, step: Step)
    requires HandedInv(s) && TokenInv(cfg, s) && Enabled(s, step)
    ensures HandedInv(Apply(cfg, s, step))
  {
    var t, k := Apply(cfg, s, step), s.clients[step.c];
    if At(s, step.c, Inside) { RoomInside(cfg, s, step.c); }
    assert forall c, r :: Is(t, c, r) <==> Is(s, c, r);
    assert Is(s, step.c, k.role);
    forall c | Is(t, c, Consumer) ensures Handed(t, c) {
      if t.left != s.left { OfAppend(s.left, Entry(step.c, s.queue[0]), c); }
    }
  }

  lemma {:induction false} HandedRun(s: State, cfg: Config, steps: seq<Step>, t: State)
    requires HandedInv(s) && Inv(cfg, s) && IsRun(s, cfg, steps, t)
    ensures HandedInv(t)
    decreases |steps|
  {
    if steps != [] {
      HandedStep(cfg, s, steps[0]);
      StepKeeps(cfg, s, steps[0]);
      HandedRun(Apply(cfg, s, steps[0]), cfg, steps[1..], t);
    }
  }

  /** Items enter from producers and leave to consumers, and a consumer that has been in its
      section holds the item that it took out last. */
  lemma ItemsAreHandedOn(cfg: Config, s: State)
    requires Reachable(cfg, s)
    ensures HandedInv(s)
  {
    var roles, steps :| IsRun(Init(cfg, roles), cfg, steps, s);
    InitInv(cfg, roles);
    HandedRun(Init(cfg, roles), cfg, steps, s);
  }

  /** At most one client is inside a critical section. */
  lemma MutualExclusion(cfg: Config, s: State, c: int, d: int)
    requires Reachable(cfg, s) && 0 <= c < d < |s.clients|
    ensures Lock(s.clients[c]) == 0 || Lock(s.clients[d]) == 0
  {
    ReachableInv(cfg, s);
    SumCovers(s.clients, Lock, c, d);
  }

  /** No more clients are admitted than the limits allow, and the guard on the counter at
      sign-off never fails. */
  lemma AdmissionsHold(cfg: Config, s: State, c: int)
    requires Reachable(cfg, s)
    ensures s.producers == Sum(s.clients, InProducer) <= cfg.maxProducers
    ensures s.consumers == Sum(s.clients, InConsumer) <= cfg.maxConsumers
    ensures At(s, c, Exiting) ==> Admissions(s, s.clients[c].role) > 0
  {
    ReachableInv(cfg, s);
    if At(s, c, Exiting) { CountedAtExit(cfg, s, c); }
  }

  /** A client is admitted exactly if there are fewer clients of its role than allowed, and is
      then one more of them; else it is refused and nothing else changes. */
  lemma AdmittedWhileRoom(cfg: Config, s: State, c: int)
    requires Reachable(cfg, s) && At(s, c, Checking)
    ensures Enabled(s, Advance(c))
    ensures var r, role := Apply(cfg, s, Advance(c)), s.clients[c].role;
            var counts := if role == Producer then InProducer else InConsumer;
            && (r.clients[c].pc == Admitted <==> Sum(s.clients, counts) < Limit(cfg, role))
            && (r.clients[c].pc == Admitted ==> Admissions(r, role) == Admissions(s, role) + 1)
            && (r.clients[c].pc != Admitted ==> r.clients[c].pc == LastPost && r == s.(clients := r.clients))
            && r.clients == s.clients[c := s.clients[c].(pc := r.clients[c].pc)]
  {
    ReachableInv(cfg, s);
  }

  /** Whenever nobody is inside a critical section, the count of items is the difference of the
      totals and the length of the queue. */
  lemma TotalsOutside(cfg: Config, s: State)
    requires Reachable(cfg, s) && s.mutex == 1
    ensures s.itemNum == s.produced - s.consumed == |s.queue| == |s.entered| - |s.left|
  {
    ReachableInv(cfg, s);
    SumBelow(s.clients, PutHalf, Lock);
    SumBelow(s.clients, TakeHalf, Lock);
    SumBetween(s.clients, PutHalf, 1);
    SumBetween(s.clients, TakeHalf, 1);
  }

  /** A wait for an item that gives up takes nothing: neither an item nor a token. */
  lemma GivingUpTakesNothing(cfg: Config, s: State, c: int)
    requires Enabled(s, GiveUp(c))
    ensures var r := Apply(cfg, s, GiveUp(c));
            && r == s.(clients := r.clients) && r.clients[c].pc == Leaving
            && Sum(r.clients, Item) == Sum(s.clients, Item) && Sum(r.clients, Cell) == Sum(s.clients, Cell)
  {
    var k := Changed(cfg, s, GiveUp(c));
    SumUpdate(s.clients, Item, c, k);
    SumUpdate(s.clients, Cell, c, k);
  }

  /** The operations a client has yet to do until it is between two items, or gone. */
  function ToDo(pc: Pc): nat {
    match pc
    case WantSlot => 6
    case WantMutex => 5
    case Inside => 4
    case Half => 3
    case Through => 2
    case PostSlot => 1
    case Arriving => 3
    case Checking => 2
    case Admitted => 1
    case Leaving => 3
    case Exiting => 2
    case LastPost => 1
    case _ => 0
  }

  /** An operation brings its client one nearer to its end and moves nobody else; only a client
      with nothing left to do is idle or gone, and nobody is gone but by LastPost. */
  lemma OneOperationLess(cfg: Config, s: State, c: int)
    requires Enabled(s, Advance(c))
    ensures var r := Apply(cfg, s, Advance(c)); var k, n := s.clients[c], r.clients[c];
            && ToDo(n.pc) == ToDo(k.pc) - 1 && r.clients == s.clients[c := n] && n.role == k.role
            && (ToDo(n.pc) == 0 <==> n.pc == Idle || n.pc == Gone) && (n.pc == Gone <==> k.pc == LastPost)
            && (n.pc == LastPost ==> k.pc == Checking || k.pc == Exiting)
  {
    var k := s.clients[c];
    assert ToDo(Next(cfg, s, k).pc) == ToDo(k.pc) - 1;
  }

  ghost predicate Quiet(s: State) { forall c :: 0 <= c < |s.clients| ==> !Enabled(s, Advance(c)) }

  lemma QuietState(cfg: Config, s: State)
    requires Inv(cfg, s) && Quiet(s)
    ensures s.mutex == 1
    ensures forall c :: 0 <= c < |s.clients| ==> At(s, c, Idle) || At(s, c, WantSlot) || At(s, c, Gone)
    ensures forall c :: At(s, c, WantSlot) ==> |s.queue| == if s.clients[c].role == Producer then cfg.capacity else 0
    ensures cfg.capacity > 0 ==> forall c, d :: At(s, c, WantSlot) && At(s, d, WantSlot) ==>
      s.clients[c].role == s.clients[d].role
  {
    forall c | 0 <= c < |s.clients| ensures Lock(s.clients[c]) == 0 {
      assert !Enabled(s, Advance(c));
    }
    SumConstant(s.clients, Lock, 0);
    forall c | 0 <= c < |s.clients|
      ensures At(s, c, Idle) || At(s, c, WantSlot) || At(s, c, Gone)
      ensures Cell(s.clients[c]) == 0 && Item(s.clients[c]) == 0
      ensures At(s, c, WantSlot) ==> Tokens(s, s.clients[c].role) == 0
    {
      assert !Enabled(s, Advance(c));
    }
    SumConstant(s.clients, Cell, 0);
    SumConstant(s.clients, Item, 0);
  }

  /** Nothing is lost between the semaphores: when no client can go on by itself, the mutex is
      free, nobody is under way, a waiting producer has a full ring before it and a waiting
      consumer an empty one; so they never wait for each other. */
  lemma NeverBothWaiting(cfg: Config, s: State)
    requires Reachable(cfg, s) && Quiet(s)
    ensures s.mutex == 1
    ensures forall c :: 0 <= c < |s.clients| ==> At(s, c, Idle) || At(s, c, WantSlot) || At(s, c, Gone)
    ensures forall c :: At(s, c, WantSlot) ==> |s.queue| == if s.clients[c].role == Producer then cfg.capacity else 0
    ensures cfg.capacity > 0 ==> forall c, d :: At(s, c, WantSlot) && At(s, d, WantSlot) ==>
      s.clients[c].role == s.clients[d].role
  {
    ReachableInv(cfg, s);
    QuietState(cfg, s);
  }

  // --- the shared memory itself ----------------------------------------------------------------------

  /** Both halves of the critical section of client c. */
  function Section(cfg: Config, s: State, c: int): State
    requires At(s, c, Inside)
  {
    Apply(cfg, Apply(cfg, s, Advance(c)), Advance(c))
  }

  /** What the two halves come to, for the ring and the totals. */
  lemma SectionEffect(cfg: Config, s: State, c: int)
    requires At(s, c, Inside)
    ensures var k, r := s.clients[c], Section(cfg, s, c);
            if k.role == Producer then
              r.queue == s.queue + [k.item] && r.itemNum == s.itemNum + 1
              && r.produced == s.produced + 1 && r.consumed == s.consumed
            else
              r.produced == s.produced && r.consumed == s.consumed + 1
              && (s.queue != [] ==>
                    r.queue == s.queue[1..] && r.itemNum == s.itemNum - 1 && r.clients[c].item == s.queue[0])
  {
    var k, t := s.clients[c], Apply(cfg, s, Advance(c));
    assert t.clients[c] == Next(cfg, s, k) && t.clients[c].pc == Half && t.clients[c].role == k.role;
  }

  /** The ring and the totals, as the critical sections change them. */
  class Shared {
    const ring: Ring<int>
    var produced: int
    var consumed: int

    ghost predicate Shows(cfg: Config, s: State)
      reads this, ring, ring.data
    {
      && ring.Valid() && ring.data.Length == cfg.capacity
      && ring.Contents() == s.queue && ring.count == s.itemNum
      && produced == s.produced && consumed == s.consumed
    }

    constructor (cfg: Config, roles: seq<Role>)
      requires cfg.capacity > 0
      ensures Shows(cfg, Init(cfg, roles)) && fresh(ring) && fresh(ring.data)
    {
      ring := new Ring(cfg.capacity, 0);
      produced, consumed := 0, 0;
    }

    /** A producer's critical section: the push it does not check succeeds. */
    method Put(item: int, ghost cfg: Config, ghost s: State, ghost c: int) returns (status: int)
      requires Shows(cfg, s) && Inv(cfg, s) && At(s, c, Inside) && s.clients[c] == Client(Producer, Inside, item)
      modifies this`produced, ring, ring.data
      ensures status == 0 && Shows(cfg, Section(cfg, s, c))
      ensures ring.Contents() == old(ring.Contents()) + [item] && produced == old(produced) + 1
    {
      RoomInside(cfg, s, c);
      SectionEffect(cfg, s, c);
      produced := produced + 1;
      status := ring.Push(item);
    }

    /** A consumer's critical section: the pop it does not check succeeds, with the oldest item. */
    method TakeOut(ghost cfg: Config, ghost s: State, ghost c: int) returns (status: int, item: int)
      requires Shows(cfg, s) && Inv(cfg, s) && At(s, c, Inside) && s.clients[c].role == Consumer
      modifies this`consumed, ring
      ensures status == 0 && Shows(cfg, Section(cfg, s, c))
      ensures item == Section(cfg, s, c).clients[c].item
      ensures [item] + ring.Contents() == old(ring.Contents()) && consumed == old(consumed) + 1
    {
      RoomInside(cfg, s, c);
      SectionEffect(cfg, s, c);
      status, item := ring.Pop(0);
      consumed := consumed + 1;
      assert s.queue[0] == item && s.queue[1..] == ring.Contents();
    }
  }
}
