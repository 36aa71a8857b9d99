/** One writer and one reader on a stream or message buffer, interleaved at every load of
    xHead and xTail, every byte copied and every notification. */
module StreamMachine {
  import opened Circular
  import opened Frames

  /** length is xLength, trigger is xTriggerLevelBytes. */
  datatype Config = Config(length: nat, trigger: nat, isMessage: bool) {
    predicate Valid() { 2 <= length && 2 * length <= SIZE_RANGE && 1 <= trigger < length }

    /** xBytesToStoreMessageLength */
    function Kept(): nat { if isMessage then HEADER else 0 }
  }

  /** Where xStreamBufferSend stands. data is what it was called with, need xRequiredSpace,
      space xSpace; seen is how many bytes had been taken when xTail was loaded. */
  datatype Writer =
    | WIdle
    | WCheck(data: seq<int>, need: int)                                  // at the critical section
    | WBlocked(data: seq<int>, need: int, space: int)                    // in xTaskNotifyWait
    | WWoken(data: seq<int>, need: int, space: int)                      // before xTaskWaitingToSend = NULL
    | WAgain(data: seq<int>, need: int, space: int)                      // at xTaskCheckForTimeOut
    | WSpace(data: seq<int>, need: int, space: int)                      // at if( xSpace == 0 )
    | WLoadTail(data: seq<int>, need: int)                               // first load of xTail
    | WLoadAgain(data: seq<int>, need: int, original: int)               // second load of xTail
    | WLoadHead(data: seq<int>, need: int, original: int, tail: int, seen: int)
    | WCompare(data: seq<int>, need: int, original: int, space: int, seen: int)  // third load of xTail
    | WCopy(bytes: seq<int>, k: int, data: seq<int>)                     // copying byte k;
                                                                         // data is what will count as sent
    | WPublished                                                         // before the test against the trigger level
    | WNotify                                                            // at sbSEND_COMPLETED

  /** Where xStreamBufferReceive or xStreamBufferNextMessageLengthBytes stands. available is
      xBytesAvailable; whole is how many messages had been sent when xHead was loaded. */
  datatype Reader =
    | RIdle
    | RCheck(max: int)                                                   // at the critical section
    | RBlocked(max: int)                                                 // in xTaskNotifyWait
    | RWoken(max: int)                                                   // before xTaskWaitingToReceive = NULL
    | RLoad(max: int)                                                    // at prvBytesInBuffer
    | RCopy(max: int, available: int, got: seq<int>, goal: int, whole: int)
    | RNotify                                                            // at sbRECEIVE_COMPLETED
    | RPeek                                                              // a peek, at prvBytesInBuffer
    | RPeekCopy(available: int, got: seq<int>, whole: int)               // copying the header
    | RPeeked(available: int, answer: int)                               // past its assertion, returning answer

  /** Shared memory and the two tasks. The last four record what has happened: all bytes
      and messages sent, and all bytes and messages taken. */
  datatype State = State(
    buf: seq<int>, head: int, tail: int,
    toReceive: bool,          // xTaskWaitingToReceive != NULL
    toSend: bool,             // xTaskWaitingToSend != NULL
    readerNotified: bool, writerNotified: bool,
    w: Writer, r: Reader,
    sent: seq<int>, taken: seq<int>, sentMessages: seq<seq<int>>, takenMessages: seq<seq<int>>)

  function Init(c: Config): State {
    State(seq(c.length, i => 0), 0, 0, false, false, false, false, WIdle, RIdle, [], [], [], [])
  }

  /** xRequiredSpace: a stream buffer caps it, since it may send in part. */
  function Need(c: Config, data: seq<int>): int {
    if c.isMessage then |data| + HEADER else if |data| > c.length - 1 then c.length - 1 else |data|
  }

  /** Call xStreamBufferSend. A message that can never fit is not waited for. */
  function StartSend(s: State, c: Config, data: seq<int>, wait: bool): State {
    var need := Need(c, data);
    s.(w := if wait && need <= c.length - 1 then WCheck(data, need) else WSpace(data, need, 0))
  }

  /** The choice of prvWriteMessageToBuffer, given the space found. */
  function Decide(c: Config, data: seq<int>, need: int, space: int): Writer
    requires 0 <= space
  {
    if c.isMessage then
      if space >= need then WCopy(Header(|data|) + data, 0, data) else WCopy([], 0, [])
    else if |data| <= space then WCopy(data, 0, data) else WCopy(data[..space], 0, data[..space])
  }

  /** Where the writer stands after its next step. timeout is looked at where a block time
      can run out; taken only stamps the load of xTail. */
  function NextWriter(w: Writer, c: Config, head: nat, tail: nat, taken: nat, timeout: bool): Writer
    requires SafeWriter(w, c)
  {
    match w
    case WIdle => WIdle
    case WCheck(data, need) =>
      var space := SpaceBetween(tail, head, c.length);
      if space < need then WBlocked(data, need, space) else if 0 <= space then WSpace(data, need, space) else WIdle
    case WBlocked(data, need, space) => WWoken(data, need, space)
    case WWoken(data, need, space) => WAgain(data, need, space)
    case WAgain(data, need, space) => if timeout then WSpace(data, need, space) else WCheck(data, need)
    case WSpace(data, need, space) => if space == 0 then WLoadTail(data, need) else Decide(c, data, need, space)
    case WLoadTail(data, need) => WLoadAgain(data, need, tail)
    case WLoadAgain(data, need, original) => WLoadHead(data, need, original, tail, taken)
    case WLoadHead(data, need, original, loaded, seen) =>
      WCompare(data, need, original, SpaceBetween(loaded, head, c.length), seen)
    case WCompare(data, need, original, space, seen) =>
      if original != tail then WLoadTail(data, need) else Decide(c, data, need, space)
    case WCopy(bytes, k, data) =>
      if k < |bytes| then WCopy(bytes, k + 1, data) else if data == [] then WIdle else WPublished
    case WPublished => if BytesBetween(tail, head, c.length) >= c.trigger then WNotify else WIdle
    case WNotify => WIdle
  }

  /** The writer's next step with its effect on shared memory and on the other task. */
  function WriterStep(s: State, c: Config, timeout: bool): State
    requires c.Valid() && 0 <= s.head < c.length == |s.buf| && 0 <= s.tail < c.length && SafeWriter(s.w, c)
  {
    var t := s.(w := NextWriter(s.w, c, s.head, s.tail, |s.taken|, timeout));
    match s.w
    case WCheck(_, _) => if t.w.WBlocked? then t.(writerNotified := false, toSend := true) else t
    case WBlocked(_, _, _) => t.(writerNotified := false)
    case WWoken(_, _, _) => t.(toSend := false)
    case WCopy(bytes, k, data) =>
      if k < |bytes| then t.(buf := s.buf[Advance(s.head, k, c.length) := bytes[k]])
      else if data == [] then t
      else t.(head := Advance(s.head, |bytes|, c.length), sent := s.sent + bytes,
              sentMessages := s.sentMessages + [data])
    case WNotify => if s.toReceive then t.(readerNotified := true, toReceive := false) else t
    case _ => t
  }

  /** prvReadMessageFromBuffer begins: a header in message mode, else as much as wanted. */
  function StartCopy(c: Config, max: int, available: int, whole: int): Reader {
    var goal := if c.isMessage then HEADER else if max < available then max else available;
    RCopy(max, available, [], goal, whole)
  }

  /** Where the reader stands after its next step; whole only stamps the load of xHead. */
  function NextReader(r: Reader, c: Config, buf: seq<int>, head: nat, tail: nat, whole: nat): Reader
    requires SafeReader(r, c) && |buf| == c.length && tail < c.length
  {
    match r
    case RIdle => RIdle
    case RCheck(max) =>
      var available := BytesBetween(tail, head, c.length);
      if available <= c.Kept() then RBlocked(max) else StartCopy(c, max, available, whole)
    case RBlocked(max) => RWoken(max)
    case RWoken(max) => RLoad(max)
    case RLoad(max) =>
      var available := BytesBetween(tail, head, c.length);
      if available <= c.Kept() then RIdle else StartCopy(c, max, available, whole)
    case RCopy(max, available, got, goal, w) =>
      if |got| < goal then RCopy(max, available, got + [buf[Advance(tail, |got|, c.length)]], goal, w)
      else if c.isMessage && goal == HEADER then
        var count := if Value(got) > max then 0
          else if Value(got) < available - HEADER then Value(got) else available - HEADER;
        if count == 0 then RIdle else RCopy(max, available, got, HEADER + count, w)
      else if goal == 0 then RIdle
      else RNotify
    case RNotify => RIdle
    case RPeek =>
      var available := BytesBetween(tail, head, c.length);
      if !c.isMessage then RPeeked(0, 0)
      else if available > HEADER then RPeekCopy(available, [], whole)
      else RPeeked(available, 0)
    case RPeekCopy(available, got, w) =>
      if |got| < HEADER then RPeekCopy(available, got + [buf[Advance(tail, |got|, c.length)]], w)
      else RPeeked(available, Value(got))
    case RPeeked(_, _) => RIdle
  }

  /** The reader's next step with its effect on shared memory and on the other task. */
  function ReaderStep(s: State, c: Config): State
    requires c.Valid() && 0 <= s.head < c.length == |s.buf| && 0 <= s.tail < c.length && SafeReader(s.r, c)
  {
    var t := s.(r := NextReader(s.r, c, s.buf, s.head, s.tail, |s.sentMessages|));
    match s.r
    case RCheck(_) => if t.r.RBlocked? then t.(readerNotified := false, toReceive := true) else t
    case RBlocked(_) => t.(readerNotified := false)
    case RWoken(_) => t.(toReceive := false)
    case RCopy(_, _, got, goal, _) =>
      if t.r.RNotify? then
        t.(tail := Advance(s.tail, goal, c.length), taken := s.taken + got,
           takenMessages := if c.isMessage && HEADER <= |got| then s.takenMessages + [got[HEADER..]]
                            else s.takenMessages)
      else t
    case RNotify => if s.toSend then t.(writerNotified := true, toSend := false) else t
    case _ => t
  }

  /** What makes the writer's step well defined. */
  predicate SafeWriter(w: Writer, c: Config) {
    match w
    case WSpace(_, _, space) => 0 <= space
    case WLoadHead(_, _, _, tail, _) => 0 <= tail
    case WCompare(_, _, _, space, _) => 0 <= space
    case WCopy(bytes, k, _) => 0 <= k <= |bytes| <= c.length
    case _ => true
  }

  /** What makes the reader's step well defined. */
  predicate SafeReader(r: Reader, c: Config) {
    match r
    case RCheck(max) => 0 <= max
    case RBlocked(max) => 0 <= max
    case RWoken(max) => 0 <= max
    case RLoad(max) => 0 <= max
    case RCopy(max, _, got, goal, _) => 0 <= max && |got| <= goal <= c.length
    case RPeekCopy(_, got, _) => |got| <= HEADER <= c.length
    case _ => true
  }

  /** A task starts a call, takes a step in one, or something else notifies it. A task in
      xTaskNotifyWait goes on when notified, or when its block time ends. */
  datatype Step =
    | Send(data: seq<int>, wait: bool)
    | Receive(max: int, wait: bool)
    | Peek
    | WriterGoes(timeout: bool)
    | ReaderGoes(timeout: bool)
    | NotifyWriter
    | NotifyReader

  ghost predicate Enabled(s: State, c: Config, step: Step) {
    match step
    case Send(data, _) => s.w.WIdle? && |data| + HEADER < SIZE_RANGE
    case Receive(max, _) => s.r.RIdle? && 0 <= max
    case Peek => s.r.RIdle?
    case WriterGoes(timeout) => !s.w.WIdle? && (s.w.WBlocked? ==> timeout || s.writerNotified)
    case ReaderGoes(timeout) => !s.r.RIdle? && (s.r.RBlocked? ==> timeout || s.readerNotified)
    case NotifyWriter => true
    case NotifyReader => true
  }

  ghost function Apply(s: State, c: Config, step: Step): State
    requires RingInv(s, c) && Enabled(s, c, step)
  {
    match step
    case Send(data, wait) => StartSend(s, c, data, wait)
    case Receive(max, wait) => s.(r := if wait then RCheck(max) else RLoad(max))
    case Peek => s.(r := RPeek)
    case WriterGoes(timeout) => WriterStep(s, c, timeout)
    case ReaderGoes(_) => ReaderStep(s, c)
    case NotifyWriter => s.(writerNotified := true)
    case NotifyReader => s.(readerNotified := true)
  }

  // --- the ring: counters, cells and stale values ---------------------------------------------

  /** How many bytes may still be sent. */
  function Free(s: State, c: Config): int { c.length - 1 - (|s.sent| - |s.taken|) }

  /** The indices are those of the byte counters, and every byte sent but not yet taken
      stands in its cell. */
  ghost predicate Stored(buf: seq<int>, head: int, tail: int, sent: seq<int>, taken: seq<int>, n: nat) {
    && 0 < n == |buf|
    && |taken| <= |sent| <= |taken| + n - 1
    && head == Cell(|sent|, n) && tail == Cell(|taken|, n)
    && (forall i :: |taken| <= i < |sent| ==> buf[Cell(i, n)] == sent[i])
  }

  ghost predicate RingInv(s: State, c: Config) {
    && c.Valid() && Stored(s.buf, s.head, s.tail, s.sent, s.taken, c.length)
    && (forall i :: 0 <= i < |s.taken| ==> s.taken[i] == s.sent[i])
    && WriterInv(s.w, c, s.buf, |s.sent|, |s.taken|)
    && ReaderInv(s.r, c, s.sent, |s.taken|)
  }

  /** Any space the writer holds is at most what is really free; what it has copied so far
      stands in free cells. */
  ghost predicate WriterInv(w: Writer, c: Config, buf: seq<int>, sent: nat, taken: nat)
    requires c.Valid() && |buf| == c.length
  {
    var free := c.length - 1 - (sent - taken);
    && SafeWriter(w, c)
    && match w
       case WCheck(data, need) => need == Need(c, data) <= c.length - 1
       case WBlocked(data, need, space) => need == Need(c, data) <= c.length - 1 && 0 <= space <= free && space < need
       case WWoken(data, need, space) => need == Need(c, data) <= c.length - 1 && 0 <= space <= free
       case WAgain(data, need, space) => need == Need(c, data) <= c.length - 1 && 0 <= space <= free
       case WSpace(data, need, space) => need == Need(c, data) && 0 <= space <= free
       case WLoadTail(data, need) => need == Need(c, data)
       case WLoadAgain(data, need, _) => need == Need(c, data)
       case WLoadHead(data, need, _, tail, seen) =>
         need == Need(c, data) && 0 <= seen <= taken && sent <= seen + c.length - 1 && tail == Cell(seen, c.length)
       case WCompare(data, need, _, space, seen) =>
         need == Need(c, data) && 0 <= space == c.length - 1 - (sent - seen) && 0 <= seen <= taken
       case WCopy(bytes, k, data) => |bytes| <= free && Copied(bytes, k, buf, sent, c.length)
       case _ => true
  }

  ghost predicate Copied(bytes: seq<int>, k: int, buf: seq<int>, sent: nat, n: nat)
    requires 0 < n == |buf| && k <= |bytes|
  {
    forall j :: 0 <= j < k ==> buf[Cell(sent + j, n)] == bytes[j]
  }

  /** The count of bytes the reader holds is at most what is really there; what it has
      copied so far is what was sent next. */
  ghost predicate ReaderInv(r: Reader, c: Config, sent: seq<int>, taken: nat) {
    && SafeReader(r, c)
    && (r.RCopy? ==>
         && |r.got| <= r.goal <= r.available <= |sent| - taken
         && (!c.isMessage ==> r.goal == if r.max < r.available then r.max else r.available)
         && forall i :: 0 <= i < |r.got| ==> r.got[i] == sent[taken + i])
    && (r.RPeekCopy? ==>
         && c.isMessage && HEADER <= r.available <= |sent| - taken
         && forall i :: 0 <= i < |r.got| ==> r.got[i] == sent[taken + i])
  }

  /** The reader is about to copy a byte out. */
  predicate Copies(r: Reader) {
    (r.RCopy? && |r.got| < r.goal) || (r.RPeekCopy? && |r.got| < HEADER)
  }

  // --- steps of the writer keep it ---------------------------------------------------------------

  /** The cell of one more byte is none of those of the bytes before it, back to a length. */
  lemma CopyOne(buf: seq<int>, head: int, tail: int, sent: seq<int>, taken: seq<int>, n: nat, bytes: seq<int>, k: nat)
    requires Stored(buf, head, tail, sent, taken, n) && k < |bytes| <= n - 1 - (|sent| - |taken|)
    requires Copied(bytes, k, buf, |sent|, n)
    ensures var cell := Advance(head, k, n);
            && 0 <= cell < n
            && Stored(buf[cell := bytes[k]], head, tail, sent, taken, n)
            && Copied(bytes, k + 1, buf[cell := bytes[k]], |sent|, n)
  {
    CellAdvance(|sent|, k, n);
    forall i | |taken| <= i < |sent| + k ensures Cell(i, n) != Cell(|sent| + k, n) {
      CellsDiffer(i, |sent| + k, n);
    }
  }

  /** Copying one byte touches no byte that was sent and not yet taken. */
  lemma CopyInKeeps(s: State, c: Config, timeout: bool)
    requires RingInv(s, c) && s.w.WCopy? && s.w.k < |s.w.bytes|
    ensures RingInv(WriterStep(s, c, timeout), c)
  {
    CopyOne(s.buf, s.head, s.tail, s.sent, s.taken, c.length, s.w.bytes, s.w.k);
  }

  lemma StoredPublish(buf: seq<int>, head: int, tail: int, sent: seq<int>, taken: seq<int>, n: nat, bytes: seq<int>)
    requires Stored(buf, head, tail, sent, taken, n) && |bytes| <= n - 1 - (|sent| - |taken|)
    requires Copied(bytes, |bytes|, buf, |sent|, n)
    ensures Stored(buf, Advance(head, |bytes|, n), tail, sent + bytes, taken, n)
  {
    CellAdvance(|sent|, |bytes|, n);
    forall i | |sent| <= i < |sent| + |bytes| ensures buf[Cell(i, n)] == bytes[i - |sent|] {
      assert buf[Cell(|sent| + (i - |sent|), n)] == bytes[i - |sent|];
    }
  }

  lemma PublishKeeps(s: State, c: Config, timeout: bool)
    requires RingInv(s, c) && s.w.WCopy? && s.w.k == |s.w.bytes|
    ensures RingInv(WriterStep(s, c, timeout), c)
  {
    var t := WriterStep(s, c, timeout);
    if s.w.data != [] {
      assert t.head == Advance(s.head, |s.w.bytes|, c.length) && t.sent == s.sent + s.w.bytes && t.w == WPublished;
      StoredPublish(s.buf, s.head, s.tail, s.sent, s.taken, c.length, s.w.bytes);
      ReaderSeesMore(s.r, c, s.sent, s.w.bytes, |s.taken|);
      TakenStays(s.taken, s.sent, s.w.bytes);
    }
  }

  lemma ReaderSeesMore(r: Reader, c: Config, sent: seq<int>, more: seq<int>, taken: nat)
    requires ReaderInv(r, c, sent, taken)
    ensures ReaderInv(r, c, sent + more, taken)
  {
  }

  lemma TakenStays(taken: seq<int>, sent: seq<int>, more: seq<int>)
    requires |taken| <= |sent| && forall i :: 0 <= i < |taken| ==> taken[i] == sent[i]
    ensures forall i :: 0 <= i < |taken| ==> taken[i] == (sent + more)[i]
  {
  }

  /** What the writer decides to copy fits into the space it has found. */
  lemma DecideFits(c: Config, data: seq<int>, space: int, buf: seq<int>, sent: nat, taken: nat)
    requires c.Valid() && |buf| == c.length && 0 <= space <= c.length - 1 - (sent - taken) && taken <= sent
    ensures WriterInv(Decide(c, data, Need(c, data), space), c, buf, sent, taken)
  {
  }

  /** The space found at any moment is at most what is free now, since only the writer
      itself uses it up. */
  lemma SpaceIsFree(w: Writer, c: Config, buf: seq<int>, sent: nat, taken: nat, timeout: bool)
    requires c.Valid() && |buf| == c.length && taken <= sent <= taken + c.length - 1
    requires WriterInv(w, c, buf, sent, taken) && !w.WCopy?
    ensures WriterInv(NextWriter(w, c, Cell(sent, c.length), Cell(taken, c.length), taken, timeout),
              c, buf, sent, taken)
  {
    match w
    case WCheck(_, _) => CountsExact(taken, sent, c.length);
    case WLoadHead(_, _, _, _, seen) => CountsExact(seen, sent, c.length);
    case WSpace(data, _, space) => DecideFits(c, data, space, buf, sent, taken);
    case WCompare(data, _, _, space, _) => DecideFits(c, data, space, buf, sent, taken);
    case _ =>
  }

  /** Only copying writes to memory; the other steps change flags. */
  lemma WriterLeavesMemory(s: State, c: Config, timeout: bool)
    requires c.Valid() && 0 <= s.head < c.length == |s.buf| && 0 <= s.tail < c.length
    requires SafeWriter(s.w, c) && !s.w.WCopy?
    ensures var t := WriterStep(s, c, timeout);
            && t.buf == s.buf && t.head == s.head && t.tail == s.tail && t.sent == s.sent
            && t.taken == s.taken && t.r == s.r
            && t.w == NextWriter(s.w, c, s.head, s.tail, |s.taken|, timeout)
            && t.sentMessages == s.sentMessages && t.takenMessages == s.takenMessages
  {
  }

  lemma SpaceKeeps(s: State, c: Config, timeout: bool)
    requires RingInv(s, c) && !s.w.WCopy?
    ensures RingInv(WriterStep(s, c, timeout), c)
  {
    WriterLeavesMemory(s, c, timeout);
    SpaceIsFree(s.w, c, s.buf, |s.sent|, |s.taken|, timeout);
  }

  lemma WriterRing(s: State, c: Config, timeout: bool)
    requires RingInv(s, c) && !s.w.WIdle?
    ensures RingInv(WriterStep(s, c, timeout), c)
  {
    if s.w.WCopy? {
      if s.w.k < |s.w.bytes| { CopyInKeeps(s, c, timeout); } else { PublishKeeps(s, c, timeout); }
    } else {
      SpaceKeeps(s, c, timeout);
    }
  }

  // --- steps of the reader keep it ---------------------------------------------------------------

  /** The byte about to be copied out is the next one sent. */
  lemma ByteIsNext(s: State, c: Config)
    requires RingInv(s, c) && Copies(s.r)
    ensures var i := Advance(s.tail, |s.r.got|, c.length); var at := |s.taken| + |s.r.got|;
            0 <= i < |s.buf| && at < |s.sent| && s.buf[i] == s.sent[at]
  {
    var at := |s.taken| + |s.r.got|;
    CellAdvance(|s.taken|, |s.r.got|, c.length);
    assert s.buf[Cell(at, c.length)] == s.sent[at];
  }

  lemma CopyOutKeeps(s: State, c: Config)
    requires RingInv(s, c) && Copies(s.r)
    ensures RingInv(ReaderStep(s, c), c)
  {
    ByteIsNext(s, c);
    ReaderLeavesMemory(s, c);
  }

  lemma StoredTake(buf: seq<int>, head: int, tail: int, sent: seq<int>, taken: seq<int>, n: nat, got: seq<int>)
    requires Stored(buf, head, tail, sent, taken, n) && |got| <= |sent| - |taken|
    ensures Stored(buf, head, Advance(tail, |got|, n), sent, taken + got, n)
  {
    CellAdvance(|taken|, |got|, n);
  }

  lemma WriterGainsSpace(w: Writer, c: Config, buf: seq<int>, sent: nat, taken: nat, more: nat)
    requires c.Valid() && |buf| == c.length && WriterInv(w, c, buf, sent, taken)
    ensures WriterInv(w, c, buf, sent, taken + more)
  {
  }

  /** The end of a copy, as one equation. */
  lemma Takes(s: State, c: Config)
    requires RingInv(s, c) && s.r.RCopy? && |s.r.got| == s.r.goal && !(c.isMessage && s.r.goal == HEADER)
    ensures var t := ReaderStep(s, c);
            t == if s.r.goal == 0 then s.(r := RIdle)
                 else s.(r := RNotify, tail := Advance(s.tail, |s.r.got|, c.length),
                         taken := s.taken + s.r.got, takenMessages := t.takenMessages)
  {
  }

  lemma TakenGrows(taken: seq<int>, sent: seq<int>, got: seq<int>)
    requires |taken| + |got| <= |sent| && forall i :: 0 <= i < |taken| ==> taken[i] == sent[i]
    requires forall i :: 0 <= i < |got| ==> got[i] == sent[|taken| + i]
    ensures forall i :: 0 <= i < |taken + got| ==> (taken + got)[i] == sent[i]
  {
  }

  lemma TakenRing(s: State, c: Config, messages: seq<seq<int>>)
    requires RingInv(s, c) && s.r.RCopy?
    ensures RingInv(s.(r := RNotify, tail := Advance(s.tail, |s.r.got|, c.length),
                       taken := s.taken + s.r.got, takenMessages := messages), c)
  {
    TakenGrows(s.taken, s.sent, s.r.got);
    StoredTake(s.buf, s.head, s.tail, s.sent, s.taken, c.length, s.r.got);
    WriterGainsSpace(s.w, c, s.buf, |s.sent|, |s.taken|, |s.r.got|);
  }

  lemma TakeKeeps(s: State, c: Config)
    requires RingInv(s, c) && s.r.RCopy? && |s.r.got| == s.r.goal && !(c.isMessage && s.r.goal == HEADER)
    ensures RingInv(ReaderStep(s, c), c)
  {
    Takes(s, c);
    if s.r.goal != 0 { TakenRing(s, c, ReaderStep(s, c).takenMessages); }
  }

  /** Only the end of a copy takes bytes out; the other steps change flags. */
  lemma ReaderLeavesMemory(s: State, c: Config)
    requires c.Valid() && 0 <= s.head < c.length == |s.buf| && 0 <= s.tail < c.length && SafeReader(s.r, c)
    requires !NextReader(s.r, c, s.buf, s.head, s.tail, |s.sentMessages|).RNotify?
    ensures var t := ReaderStep(s, c);
            && t.buf == s.buf && t.head == s.head && t.tail == s.tail && t.sent == s.sent
            && t.taken == s.taken && t.w == s.w
            && t.r == NextReader(s.r, c, s.buf, s.head, s.tail, |s.sentMessages|)
            && t.sentMessages == s.sentMessages && t.takenMessages == s.takenMessages
  {
  }

  lemma CountIsThere(r: Reader, c: Config, buf: seq<int>, sent: seq<int>, taken: nat, whole: nat)
    requires c.Valid() && |buf| == c.length && taken <= |sent| <= taken + c.length - 1
    requires ReaderInv(r, c, sent, taken) && !r.RCopy? && !Copies(r)
    ensures ReaderInv(NextReader(r, c, buf, Cell(|sent|, c.length), Cell(taken, c.length), whole), c, sent, taken)
  {
    CountsExact(taken, |sent|, c.length);
  }

  lemma CountKeeps(s: State, c: Config)
    requires RingInv(s, c) && !s.r.RCopy? && !Copies(s.r)
    ensures RingInv(ReaderStep(s, c), c)
  {
    ReaderLeavesMemory(s, c);
    CountIsThere(s.r, c, s.buf, s.sent, |s.taken|, |s.sentMessages|);
  }

  // --- messages -----------------------------------------------------------------------------------

  /** In message mode what was sent and what was taken are whole frames, the messages taken
      are the first ones sent, and a writer in mid-copy is copying one frame. */
  ghost predicate FrameInv(s: State, c: Config) {
    c.isMessage ==>
      && AreMessages(s.sentMessages) && s.sent == Flatten(s.sentMessages)
      && s.takenMessages <= s.sentMessages && s.taken == Flatten(s.takenMessages)
      && WriterFrames(s.w) && ReaderFrames(s.r, s.sentMessages, |s.takenMessages|)
      && PeekFrames(s.r, s.sentMessages, |s.takenMessages|)
  }

  ghost predicate WriterFrames(w: Writer) {
    match w
    case WCheck(data, _) => |data| + HEADER < SIZE_RANGE
    case WBlocked(data, _, _) => |data| + HEADER < SIZE_RANGE
    case WWoken(data, _, _) => |data| + HEADER < SIZE_RANGE
    case WAgain(data, _, _) => |data| + HEADER < SIZE_RANGE
    case WSpace(data, _, _) => |data| + HEADER < SIZE_RANGE
    case WLoadTail(data, _) => |data| + HEADER < SIZE_RANGE
    case WLoadAgain(data, _, _) => |data| + HEADER < SIZE_RANGE
    case WLoadHead(data, _, _, _, _) => |data| + HEADER < SIZE_RANGE
    case WCompare(data, _, _, _, _) => |data| + HEADER < SIZE_RANGE
    case WCopy(bytes, _, data) => data != [] ==> bytes == Frame(data) && IsMessage(data)
    case _ => true
  }

  /** The bytes the reader counted are whole frames, at least one; once past the header it
      is reading exactly the oldest message, for which the caller has room. */
  ghost predicate ReaderFrames(r: Reader, sent: seq<seq<int>>, taken: nat) {
    r.RCopy? ==>
      && taken < r.whole <= |sent| && r.available == |Flatten(sent[taken..r.whole])|
      && (r.goal == HEADER || (r.goal == HEADER + |sent[taken]| && |sent[taken]| <= r.max))
      && r.goal != 0
  }

  /** The same of a peek; what it is about to return is the length of the oldest message, or 0
      when it found no byte at all. */
  ghost predicate PeekFrames(r: Reader, sent: seq<seq<int>>, taken: nat) {
    && (r.RPeekCopy? ==> taken < r.whole <= |sent| && r.available == |Flatten(sent[taken..r.whole])|)
    && (r.RPeeked? ==>
          if r.available > HEADER then taken < |sent| && r.answer == |sent[taken]|
          else r.available == 0 && r.answer == 0)
  }

  // --- notifications ------------------------------------------------------------------------------

  /** A task is registered only while it is in or just after its wait. A registered and not
      notified reader has fewer bytes than the trigger level to read, or the writer has not
      come to its completion step yet; a registered and not notified writer lacks space, or
      the reader has not come to its completion step yet. */
  ghost predicate NotifyInv(s: State, c: Config) {
    && (s.toReceive ==> s.r.RBlocked? || s.r.RWoken?)
    && (s.toSend ==> s.w.WBlocked? || s.w.WWoken?)
    && (s.r.RBlocked? && !s.readerNotified ==>
          s.toReceive && (|s.sent| - |s.taken| < c.trigger || s.w.WPublished? || s.w.WNotify?))
    && (s.w.WBlocked? && !s.writerNotified ==>
          s.toSend && (Free(s, c) < s.w.need || s.r.RNotify?))
  }

  /** All that holds in every reachable state. */
  ghost predicate Inv(s: State, c: Config) {
    RingInv(s, c) && FrameInv(s, c) && NotifyInv(s, c)
  }

  lemma FlattenSplit(ms: seq<seq<int>>, k: nat)
    requires k <= |ms|
    ensures Flatten(ms) == Flatten(ms[..k]) + Flatten(ms[k..])
  {
    assert ms == ms[..k] + ms[k..];
    FlattenAppend(ms[..k], ms[k..]);
  }

  lemma WriterFramesStep(w: Writer, c: Config, head: nat, tail: nat, taken: nat, timeout: bool)
    requires c.isMessage && SafeWriter(w, c) && WriterFrames(w)
    ensures WriterFrames(NextWriter(w, c, head, tail, taken, timeout))
  {
  }

  lemma MoreMessages(r: Reader, sent: seq<seq<int>>, more: seq<seq<int>>, taken: nat)
    requires ReaderFrames(r, sent, taken) && PeekFrames(r, sent, taken)
    ensures ReaderFrames(r, sent + more, taken) && PeekFrames(r, sent + more, taken)
  {
    if r.RCopy? || r.RPeekCopy? { assert (sent + more)[taken..r.whole] == sent[taken..r.whole]; }
  }

  /** Publishing one more message. */
  lemma PublishedFrames(s: State, c: Config, head: int)
    requires FrameInv(s, c) && c.isMessage && s.w.WCopy? && s.w.data != []
    ensures FrameInv(s.(w := WPublished, head := head, sent := s.sent + s.w.bytes,
                        sentMessages := s.sentMessages + [s.w.data]), c)
  {
    FlattenAppend(s.sentMessages, [s.w.data]);
    FlattenOne(s.w.data);
    MoreMessages(s.r, s.sentMessages, [s.w.data], |s.takenMessages|);
  }

  lemma WriterKeepsFrames(s: State, c: Config, timeout: bool)
    requires RingInv(s, c) && FrameInv(s, c)
    ensures FrameInv(WriterStep(s, c, timeout), c)
  {
    if c.isMessage {
      WriterFramesStep(s.w, c, s.head, s.tail, |s.taken|, timeout);
      if !s.w.WCopy? {
        WriterLeavesMemory(s, c, timeout);
      } else if s.w.k == |s.w.bytes| && s.w.data != [] {
        PublishedFrames(s, c, WriterStep(s, c, timeout).head);
      }
    }
  }

  /** Bytes read from the front of whole frames, past the first header. */
  lemma FrontRead(ms: seq<seq<int>>, got: seq<int>)
    requires AreMessages(ms) && ms != [] && HEADER <= |got| && got <= Flatten(ms)
    ensures Value(got[..HEADER]) == |ms[0]|
    ensures |got| == HEADER + |ms[0]| ==> got[HEADER..] == ms[0] && got == Frame(ms[0])
  {
    ParseFront(ms);
    var s := Flatten(ms);
    assert got[..HEADER] == s[..HEADER];
    if |got| == HEADER + |ms[0]| {
      assert got == s[..HEADER + |ms[0]|] && s[..HEADER + |ms[0]|] == Frame(ms[0]);
    }
  }

  /** What is read from the tail past a header begins with the oldest message's, which is
      wholly among the messages counted. */
  lemma ReadIsOldest(s: State, c: Config, got: seq<int>, whole: int)
    requires RingInv(s, c) && FrameInv(s, c) && c.isMessage
    requires |s.takenMessages| < whole <= |s.sentMessages| && HEADER <= |got| <= |s.sent| - |s.taken|
    requires forall i :: 0 <= i < |got| ==> got[i] == s.sent[|s.taken| + i]
    ensures var m := s.sentMessages[|s.takenMessages|];
            && 0 < |m| && HEADER + |m| <= |Flatten(s.sentMessages[|s.takenMessages|..whole])|
            && Value(got[..HEADER]) == |m|
            && (|got| == HEADER + |m| ==> got[HEADER..] == m && got == Frame(m))
  {
    var ms, g := s.sentMessages, |s.takenMessages|;
    FlattenSplit(ms, g);
    assert ms[..g] == s.takenMessages;
    ParseFront(ms[g..whole]);
    var rest := Flatten(ms[g..]);
    assert forall i :: 0 <= i < |got| ==> got[i] == rest[i];
    FrontRead(ms[g..], got);
  }

  /** The header that the reader copies is the length of the oldest message, and the whole
      message is among the bytes it counted. */
  lemma HeaderIsOldest(s: State, c: Config)
    requires RingInv(s, c) && FrameInv(s, c) && c.isMessage && s.r.RCopy? && HEADER <= |s.r.got|
    ensures var g := |s.takenMessages|;
            && g < |s.sentMessages| && 0 < |s.sentMessages[g]| && HEADER + |s.sentMessages[g]| <= s.r.available
            && Value(s.r.got[..HEADER]) == |s.sentMessages[g]|
            && (|s.r.got| == HEADER + |s.sentMessages[g]| ==>
                  s.r.got[HEADER..] == s.sentMessages[g] && s.r.got == Frame(s.sentMessages[g]))
  {
    ReadIsOldest(s, c, s.r.got, s.r.whole);
  }

  /** A peek that has copied the header returns the length of the oldest message. */
  lemma PeekIsOldest(s: State, c: Config)
    requires RingInv(s, c) && FrameInv(s, c) && s.r.RPeekCopy? && |s.r.got| == HEADER
    ensures var t, g := ReaderStep(s, c), |s.takenMessages|;
            g < |s.sentMessages| && t == s.(r := RPeeked(s.r.available, |s.sentMessages[g]|)) && FrameInv(t, c)
  {
    ReadIsOldest(s, c, s.r.got, s.r.whole);
    assert s.r.got[..HEADER] == s.r.got;
  }

  /** At the end of the header, the copy goes on to the whole oldest message, or is given
      up if the caller has no room for it. */
  lemma HeaderStep(s: State, c: Config)
    requires RingInv(s, c) && FrameInv(s, c) && c.isMessage && s.r.RCopy? && |s.r.got| == s.r.goal == HEADER
    ensures var m := |s.sentMessages[|s.takenMessages|]|;
            |s.takenMessages| < |s.sentMessages| &&
            ReaderStep(s, c) == s.(r := if m > s.r.max then RIdle
                else RCopy(s.r.max, s.r.available, s.r.got, HEADER + m, s.r.whole))
    ensures RingInv(ReaderStep(s, c), c) && FrameInv(ReaderStep(s, c), c)
  {
    HeaderIsOldest(s, c);
    assert s.r.got[..HEADER] == s.r.got;
  }

  /** Counting at a moment finds whole frames, at least one if more than a header is there. */
  lemma CountFrames(s: State, c: Config)
    requires RingInv(s, c) && FrameInv(s, c) && c.isMessage
    ensures |s.sent| - |s.taken| == |Flatten(s.sentMessages[|s.takenMessages|..])|
    ensures |s.sent| - |s.taken| > HEADER ==> |s.takenMessages| < |s.sentMessages|
    ensures |s.sent| - |s.taken| <= HEADER ==> |s.sent| == |s.taken|
  {
    var ms, g := s.sentMessages, |s.takenMessages|;
    FlattenSplit(ms, g);
    assert ms[..g] == s.takenMessages;
    if |s.sent| - |s.taken| <= HEADER { NoHalfFrames(ms[g..]); }
  }

  lemma TakeFrame(s: State, c: Config)
    requires RingInv(s, c) && FrameInv(s, c) && c.isMessage && s.r.RCopy? && |s.r.got| == s.r.goal != HEADER
    ensures var t, g := ReaderStep(s, c), |s.takenMessages|;
            && g < |s.sentMessages| && t.takenMessages == s.takenMessages + [s.sentMessages[g]] && FrameInv(t, c)
  {
    var t, g := ReaderStep(s, c), |s.takenMessages|;
    HeaderIsOldest(s, c);
    FlattenAppend(s.takenMessages, [s.sentMessages[g]]);
    FlattenOne(s.sentMessages[g]);
    assert t.taken == s.taken + s.r.got && t.r == RNotify;
  }

  lemma ReaderKeepsFrames(s: State, c: Config)
    requires RingInv(s, c) && FrameInv(s, c)
    ensures FrameInv(ReaderStep(s, c), c)
  {
    if !c.isMessage {
    } else if s.r.RCopy? && |s.r.got| == s.r.goal {
      if s.r.goal == HEADER { HeaderStep(s, c); } else { TakeFrame(s, c); }
    } else if s.r.RPeekCopy? && |s.r.got| == HEADER {
      PeekIsOldest(s, c);
    } else {
      ReaderLeavesMemory(s, c);
      CountFrames(s, c);
      CountsExact(|s.taken|, |s.sent|, c.length);
      var ms := s.sentMessages;
      assert ms[|s.takenMessages|..|ms|] == ms[|s.takenMessages|..];
    }
  }

  lemma ReaderRing(s: State, c: Config)
    requires RingInv(s, c) && FrameInv(s, c)
    ensures RingInv(ReaderStep(s, c), c)
  {
    if Copies(s.r) {
      CopyOutKeeps(s, c);
    } else if !s.r.RCopy? {
      CountKeeps(s, c);
    } else if c.isMessage && s.r.goal == HEADER {
      HeaderStep(s, c);
    } else {
      TakeKeeps(s, c);
    }
  }

  /** Publishing opens the writer's window, and the test against the trigger level closes
      it only if there are too few bytes. */
  lemma PublishKeepsNotify(s: State, c: Config, timeout: bool)
    requires Inv(s, c) && s.w.WCopy?
    ensures NotifyInv(WriterStep(s, c, timeout), c)
  {
    var t := WriterStep(s, c, timeout);
    assert t.r == s.r && t.toReceive == s.toReceive && t.readerNotified == s.readerNotified && t.toSend == s.toSend;
    assert t.taken == s.taken && (t.sent == s.sent || t.w.WPublished?);
  }

  lemma WriterKeepsNotify(s: State, c: Config, timeout: bool)
    requires Inv(s, c)
    ensures NotifyInv(WriterStep(s, c, timeout), c)
  {
    if s.w.WCopy? {
      PublishKeepsNotify(s, c, timeout);
    } else if s.w.WCheck? || s.w.WPublished? {
      TestKeepsNotify(s, c, timeout);
    } else {
      WriterLeavesMemory(s, c, timeout);
    }
  }

  /** What the writer tests against the room or the trigger level. */
  lemma TestKeepsNotify(s: State, c: Config, timeout: bool)
    requires Inv(s, c) && (s.w.WCheck? || s.w.WPublished?)
    ensures NotifyInv(WriterStep(s, c, timeout), c)
  {
    WriterLeavesMemory(s, c, timeout);
    CountsExact(|s.taken|, |s.sent|, c.length);
  }

  lemma TakeKeepsNotify(s: State, c: Config)
    requires Inv(s, c) && NextReader(s.r, c, s.buf, s.head, s.tail, |s.sentMessages|).RNotify?
    ensures NotifyInv(ReaderStep(s, c), c)
  {
    var t := ReaderStep(s, c);
    assert t.r.RNotify? && t.w == s.w && t.toSend == s.toSend && t.toReceive == s.toReceive;
    assert t.writerNotified == s.writerNotified;
  }

  lemma ReaderKeepsNotify(s: State, c: Config)
    requires Inv(s, c)
    ensures NotifyInv(ReaderStep(s, c), c)
  {
    if NextReader(s.r, c, s.buf, s.head, s.tail, |s.sentMessages|).RNotify? {
      TakeKeepsNotify(s, c);
    } else {
      ReaderLeavesMemory(s, c);
      CountsExact(|s.taken|, |s.sent|, c.length);
      if c.isMessage { CountFrames(s, c); }
    }
  }

  lemma StepKeeps(s: State, c: Config, step: Step)
    requires Inv(s, c) && Enabled(s, c, step)
    ensures Inv(Apply(s, c, step), c)
  {
    match step
    case Send(data, wait) =>
    case Receive(max, wait) =>
    case Peek =>
    case WriterGoes(timeout) =>
      WriterRing(s, c, timeout);
      WriterKeepsFrames(s, c, timeout);
      WriterKeepsNotify(s, c, timeout);
    case ReaderGoes(_) =>
      ReaderRing(s, c);
      ReaderKeepsFrames(s, c);
      ReaderKeepsNotify(s, c);
    case NotifyWriter =>
    case NotifyReader =>
  }

  // --- whole runs -----------------------------------------------------------------------------------

  ghost predicate IsRun(s: State, c: Config, steps: seq<Step>, t: State)
    requires Inv(s, c)
    decreases |steps|
  {
    if steps == [] then s == t
    else Enabled(s, c, steps[0]) && (StepKeeps(s, c, steps[0]); IsRun(Apply(s, c, steps[0]), c, steps[1..], t))
  }

  lemma InitInv(c: Config)
    requires c.Valid()
    ensures Inv(Init(c), c)
  {
  }

  ghost predicate Reachable(s: State, c: Config) {
    c.Valid() && (InitInv(c); exists steps :: IsRun(Init(c), c, steps, s))
  }

  lemma {:induction false} RunKeeps(s: State, c: Config, steps: seq<Step>, t: State)
    requires Inv(s, c) && IsRun(s, c, steps, t)
    ensures Inv(t, c)
    decreases |steps|
  {
    if steps != [] {
      StepKeeps(s, c, steps[0]);
      RunKeeps(Apply(s, c, steps[0]), c, steps[1..], t);
    }
  }

  lemma ReachableInv(s: State, c: Config)
    requires Reachable(s, c)
    ensures Inv(s, c)
  {
    InitInv(c);
    var steps :| IsRun(Init(c), c, steps, s);
    RunKeeps(Init(c), c, steps, s);
  }

  /** What is received is always a prefix of what was sent: of the bytes, and in message
      mode of the messages, each of them whole. */
  lemma ReceivedIsPrefix(s: State, c: Config)
    requires Reachable(s, c)
    ensures s.taken <= s.sent
    ensures c.isMessage ==> s.takenMessages <= s.sentMessages && s.taken == Flatten(s.takenMessages)
  {
    ReachableInv(s, c);
  }

  /** The writer and the reader are never about to touch the same cell, and every cell is
      inside the store. */
  lemma NoSharedCell(s: State, c: Config)
    requires Reachable(s, c)
    requires s.w.WCopy? && s.w.k < |s.w.bytes| && Copies(s.r)
    ensures 0 <= Advance(s.head, s.w.k, c.length) < |s.buf| && 0 <= Advance(s.tail, |s.r.got|, c.length) < |s.buf|
    ensures Advance(s.head, s.w.k, c.length) != Advance(s.tail, |s.r.got|, c.length)
  {
    ReachableInv(s, c);
    CellAdvance(|s.sent|, s.w.k, c.length);
    CellAdvance(|s.taken|, |s.r.got|, c.length);
    CellsDiffer(|s.taken| + |s.r.got|, |s.sent| + s.w.k, c.length);
  }

  // --- what each step of a call does -----------------------------------------------------------------

  /** A send that may wait goes to check for space, unless it is a message that can never fit; a
      message needs room for its length too, a stream send for no more than the whole buffer. */
  lemma SendEnters(s: State, c: Config, data: seq<int>, wait: bool)
    requires Inv(s, c) && Enabled(s, c, Send(data, wait))
    ensures var t := Apply(s, c, Send(data, wait));
            var need := if c.isMessage then HEADER + |data| else if |data| < c.length then |data| else c.length - 1;
            t == s.(w := if wait && need < c.length then WCheck(data, need) else WSpace(data, need, 0))
  {
  }

  /** A send blocks exactly if less room is free than it needs, and is then registered with its
      notification cleared; else it goes on with the room there is. */
  lemma SendBlocksExactly(s: State, c: Config, timeout: bool)
    requires Inv(s, c) && s.w.WCheck?
    ensures var t, free := Apply(s, c, WriterGoes(timeout)), Free(s, c);
            t == if free < s.w.need
                 then s.(w := WBlocked(s.w.data, s.w.need, free), writerNotified := false, toSend := true)
                 else s.(w := WSpace(s.w.data, s.w.need, free))
  {
    CountsExact(|s.taken|, |s.sent|, c.length);
  }

  /** A send that is woken up is registered no longer and checks for space again, until its time
      has run out; then it goes on with the room it found last. */
  lemma SendWakes(s: State, c: Config, timeout: bool)
    requires Inv(s, c) && Enabled(s, c, WriterGoes(timeout)) && (s.w.WBlocked? || s.w.WWoken? || s.w.WAgain?)
    ensures var t, d, need, space := Apply(s, c, WriterGoes(timeout)), s.w.data, s.w.need, s.w.space;
            t == if s.w.WBlocked? then s.(w := WWoken(d, need, space), writerNotified := false)
                 else if s.w.WWoken? then s.(w := WAgain(d, need, space), toSend := false)
                 else s.(w := if timeout then WSpace(d, need, space) else WCheck(d, need))
  {
  }

  /** What a send writes when it has found some room: a message whole with its length before it,
      or nothing of it; of a stream as much of its front as there is room for. */
  ghost predicate Writes(w: Writer, c: Config, data: seq<int>, space: int) {
    && w.WCopy? && w.k == 0 && 0 <= space
    && if c.isMessage then
         if HEADER + |data| <= space then w.bytes == Header(|data|) + data && w.data == data
         else w.bytes == w.data == []
       else w.bytes == w.data == data[..if |data| < space then |data| else space]
  }

  /** A send that holds some room writes; one that holds none looks once more: it loads the tail
      twice and the head, and writes into the room that was free at the second load of the tail,
      unless the tail has moved on since the first. */
  lemma SendWrites(s: State, c: Config, timeout: bool)
    requires Inv(s, c) && (s.w.WSpace? || s.w.WLoadTail? || s.w.WLoadAgain? || s.w.WLoadHead? || s.w.WCompare?)
    ensures var t := Apply(s, c, WriterGoes(timeout)); var w, d, need := t.w, s.w.data, s.w.need;
            && t == s.(w := w)
            && match s.w
               case WSpace(_, _, space) => if space == 0 then w == WLoadTail(d, need) else Writes(w, c, d, space)
               case WLoadTail(_, _) => w == WLoadAgain(d, need, s.tail)
               case WLoadAgain(_, _, original) => w == WLoadHead(d, need, original, s.tail, |s.taken|)
               case WLoadHead(_, _, original, _, seen) =>
                 w == WCompare(d, need, original, c.length - 1 - (|s.sent| - seen), seen)
               case WCompare(_, _, original, space, _) =>
                 if original != s.tail then w == WLoadTail(d, need) else Writes(w, c, d, space)
               case _ => false
  {
    WriterLeavesMemory(s, c, timeout);
    if s.w.WLoadHead? { CountsExact(s.w.seen, |s.sent|, c.length); }
  }

  /** The copy writes byte by byte into the cells behind those sent. */
  lemma SendCopies(s: State, c: Config, timeout: bool)
    requires Inv(s, c) && s.w.WCopy? && s.w.k < |s.w.bytes|
    ensures var t, w, cell := Apply(s, c, WriterGoes(timeout)), s.w, Cell(|s.sent| + s.w.k, c.length);
            0 <= cell < |s.buf| && t == s.(buf := s.buf[cell := w.bytes[w.k]], w := WCopy(w.bytes, w.k + 1, w.data))
  {
    CellAdvance(|s.sent|, s.w.k, c.length);
  }

  /** Only the end of the copy counts as sent; nothing is sent of a message that did not fit. */
  lemma SendPublishes(s: State, c: Config, timeout: bool)
    requires Inv(s, c) && s.w.WCopy? && s.w.k == |s.w.bytes|
    ensures var t, w := Apply(s, c, WriterGoes(timeout)), s.w;
            t == if w.data == [] then s.(w := WIdle)
                 else s.(w := WPublished, head := Cell(|s.sent| + |w.bytes|, c.length), sent := s.sent + w.bytes,
                         sentMessages := s.sentMessages + [w.data])
  {
    CellAdvance(|s.sent|, s.w.k, c.length);
  }

  /** A send notifies a registered reader, and takes it off the register, exactly if the buffer
      then holds as many bytes as the trigger level. */
  lemma SendNotifies(s: State, c: Config, timeout: bool)
    requires Inv(s, c) && (s.w.WPublished? || s.w.WNotify?)
    ensures var t := Apply(s, c, WriterGoes(timeout));
            t == if s.w.WPublished? then s.(w := if |s.sent| - |s.taken| >= c.trigger then WNotify else WIdle)
                 else s.(w := WIdle, readerNotified := s.readerNotified || s.toReceive, toReceive := false)
  {
    CountsExact(|s.taken|, |s.sent|, c.length);
  }

  /** A receive starts to copy with this many bytes in the buffer: those of a length first, or as
      many as are wanted and there. */
  ghost predicate Starts(r: Reader, c: Config, max: int, there: int) {
    && r.RCopy? && r.max == max && r.available == there && r.got == []
    && r.goal == if c.isMessage then HEADER else if max < there then max else there
  }

  /** A receive blocks, or gives up, exactly if the buffer is empty, whatever the trigger level:
      a blocked one is registered with its notification cleared. Else it starts to copy with all
      the bytes there are. */
  lemma ReceiveBlocksExactly(s: State, c: Config, timeout: bool)
    requires Inv(s, c) && (s.r.RCheck? || s.r.RLoad?)
    ensures var t, there := Apply(s, c, ReaderGoes(timeout)), |s.sent| - |s.taken|;
            if there == 0 then
              t == if s.r.RCheck? then s.(r := RBlocked(s.r.max), readerNotified := false, toReceive := true)
                   else s.(r := RIdle)
            else t == s.(r := t.r) && Starts(t.r, c, s.r.max, there)
  {
    CountsExact(|s.taken|, |s.sent|, c.length);
    if c.isMessage { CountFrames(s, c); }
  }

  /** A receive that is woken up is registered no longer and looks once more. */
  lemma ReceiveWakes(s: State, c: Config, timeout: bool)
    requires Inv(s, c) && Enabled(s, c, ReaderGoes(timeout)) && (s.r.RBlocked? || s.r.RWoken?)
    ensures var t := Apply(s, c, ReaderGoes(timeout));
            t == if s.r.RBlocked? then s.(r := RWoken(s.r.max), readerNotified := false)
                 else s.(r := RLoad(s.r.max), toReceive := false)
  {
  }

  /** The copy goes on with the next byte sent. */
  lemma ReceiveCopies(s: State, c: Config, timeout: bool)
    requires Inv(s, c) && s.r.RCopy? && |s.r.got| < s.r.goal
    ensures var t, r := Apply(s, c, ReaderGoes(timeout)), s.r;
            && |s.taken| + |r.got| < |s.sent|
            && t == s.(r := RCopy(r.max, r.available, r.got + [s.sent[|s.taken| + |r.got|]], r.goal, r.whole))
  {
    ByteIsNext(s, c);
  }

  /** At its end a stream receive has taken as many bytes as it wanted and had counted, the next
      ones sent, and nothing else happened. */
  lemma ReceiveTakes(s: State, c: Config, timeout: bool)
    requires Inv(s, c) && s.r.RCopy? && |s.r.got| == s.r.goal && !c.isMessage
    ensures var t := Apply(s, c, ReaderGoes(timeout));
            var count := if s.r.max < s.r.available then s.r.max else s.r.available;
            if count == 0 then t == s.(r := RIdle)
            else
              && t == s.(r := RNotify, tail := Cell(|s.taken| + count, c.length), taken := t.taken)
              && |t.taken| == |s.taken| + count && t.taken <= s.sent
  {
    Takes(s, c);
    CellAdvance(|s.taken|, |s.r.got|, c.length);
    TakenGrows(s.taken, s.sent, s.r.got);
  }

  lemma ReceiveNotifies(s: State, c: Config, timeout: bool)
    requires Inv(s, c) && s.r.RNotify?
    ensures Apply(s, c, ReaderGoes(timeout))
            == s.(r := RIdle, writerNotified := s.writerNotified || s.toSend, toSend := false)
  {
  }

  /** No further call begins. */
  predicate Continues(step: Step) { !step.Send? && !step.Receive? && !step.Peek? }

  /** A stream receive that counted these bytes is still copying, or has ended and has taken as
      many bytes as it wanted and had counted. */
  ghost predicate Receiving(s: State, max: int, available: int, before: nat) {
    if s.r.RCopy? then s.r.max == max && s.r.available == available && |s.taken| == before
    else (s.r.RNotify? || s.r.RIdle?) && |s.taken| == before + if max < available then max else available
  }

  lemma ReceivingStep(s: State, c: Config, step: Step, max: int, available: int, before: nat)
    requires Inv(s, c) && !c.isMessage && Enabled(s, c, step) && Continues(step)
    requires Receiving(s, max, available, before)
    ensures Receiving(Apply(s, c, step), max, available, before)
  {
    if step.ReaderGoes? {
      if s.r.RCopy? && |s.r.got| < s.r.goal {
        ReceiveCopies(s, c, step.timeout);
      } else if s.r.RCopy? {
        ReceiveTakes(s, c, step.timeout);
      } else {
        ReceiveNotifies(s, c, step.timeout);
      }
    } else if step.WriterGoes? {
      assert Apply(s, c, step).r == s.r && Apply(s, c, step).taken == s.taken;
    }
  }

  /** A stream receive that has started to copy ends by taking the smaller of what it wanted and
      what it counted, however it interleaves with the writer. */
  lemma {:induction false} StreamReceiveTakes(s: State, c: Config, steps: seq<Step>, t: State,
                                              max: int, available: int, before: nat)
    requires Inv(s, c) && !c.isMessage && IsRun(s, c, steps, t) && (forall step :: step in steps ==> Continues(step))
    requires Receiving(s, max, available, before)
    ensures Receiving(t, max, available, before) && Inv(t, c)
    decreases |steps|
  {
    if steps != [] {
      assert steps[0] in steps;
      ReceivingStep(s, c, steps[0], max, available, before);
      StepKeeps(s, c, steps[0]);
      StreamReceiveTakes(Apply(s, c, steps[0]), c, steps[1..], t, max, available, before);
    }
  }

  /** A send that copies these bytes is still copying, or has ended and has sent exactly them. */
  ghost predicate Sending(s: State, bytes: seq<int>, data: seq<int>, before: seq<int>) {
    if s.w.WCopy? then s.w.bytes == bytes && s.w.data == data && s.sent == before
    else (s.w.WPublished? || s.w.WNotify? || s.w.WIdle?) && s.sent == before + bytes
  }

  lemma SendingStep(s: State, c: Config, step: Step, bytes: seq<int>, data: seq<int>, before: seq<int>)
    requires Inv(s, c) && Enabled(s, c, step) && Continues(step) && (data == [] ==> bytes == [])
    requires Sending(s, bytes, data, before)
    ensures Sending(Apply(s, c, step), bytes, data, before)
  {
    if step.WriterGoes? {
      SendingGoes(s, c, step.timeout, bytes, data, before);
    } else {
      WriterStays(s, c, step);
    }
  }

  lemma SendingGoes(s: State, c: Config, timeout: bool, bytes: seq<int>, data: seq<int>, before: seq<int>)
    requires Inv(s, c) && Enabled(s, c, WriterGoes(timeout)) && (data == [] ==> bytes == [])
    requires Sending(s, bytes, data, before)
    ensures Sending(Apply(s, c, WriterGoes(timeout)), bytes, data, before)
  {
    if s.w.WCopy? && s.w.k < |s.w.bytes| {
      SendCopies(s, c, timeout);
    } else if s.w.WCopy? {
      SendPublishes(s, c, timeout);
    } else {
      SendNotifies(s, c, timeout);
    }
  }

  lemma WriterStays(s: State, c: Config, step: Step)
    requires Inv(s, c) && Enabled(s, c, step) && !step.WriterGoes? && !step.Send?
    ensures Apply(s, c, step).w == s.w && Apply(s, c, step).sent == s.sent
  {
  }

  /** A send that has begun to write ends by having sent what it began to write, and nothing
      else, however it interleaves with the reader. */
  lemma {:induction false} SendSends(s: State, c: Config, steps: seq<Step>, t: State,
                                     bytes: seq<int>, data: seq<int>, before: seq<int>)
    requires Inv(s, c) && IsRun(s, c, steps, t) && (forall step :: step in steps ==> Continues(step))
    requires (data == [] ==> bytes == []) && Sending(s, bytes, data, before)
    ensures Sending(t, bytes, data, before) && Inv(t, c)
    decreases |steps|
  {
    if steps != [] {
      assert steps[0] in steps;
      SendingStep(s, c, steps[0], bytes, data, before);
      StepKeeps(s, c, steps[0]);
      SendSends(Apply(s, c, steps[0]), c, steps[1..], t, bytes, data, before);
    }
  }

  /** A peek of a message buffer finds all the bytes there are, and none exactly if there are none;
      of a stream buffer it gives up. */
  lemma PeekCounts(s: State, c: Config, timeout: bool)
    requires Inv(s, c) && s.r.RPeek?
    ensures var t, there := Apply(s, c, ReaderGoes(timeout)), |s.sent| - |s.taken|;
            t == s.(r := if !c.isMessage || there == 0 then RPeeked(0, 0)
                         else RPeekCopy(there, [], |s.sentMessages|))
  {
    CountsExact(|s.taken|, |s.sent|, c.length);
    if c.isMessage { CountFrames(s, c); }
  }

  /** A peek takes nothing and changes nothing but where it stands. */
  lemma PeekTakesNothing(s: State, c: Config)
    requires Inv(s, c) && (s.r.RPeek? || s.r.RPeekCopy? || s.r.RPeeked?)
    ensures ReaderStep(s, c) == s.(r := ReaderStep(s, c).r)
  {
  }

  /** A peek, while the writer goes on: when it returns, its answer is the length of the oldest
      message, or 0 if it had found none, and its assertion that there is then no byte at all
      never fails. */
  lemma PeekAgrees(s: State, c: Config)
    requires Reachable(s, c) && s.r.RPeeked? && c.isMessage
    ensures s.r.available > HEADER ==>
      |s.takenMessages| < |s.sentMessages| && s.r.answer == |s.sentMessages[|s.takenMessages|]| > 0
    ensures s.r.available <= HEADER ==> s.r.available == 0 && s.r.answer == 0
  {
    ReachableInv(s, c);
  }

  /** Space and byte counts that one side still holds while the other has gone on are never
      more than what is really there. */
  lemma StaleIsUnder(s: State, c: Config)
    requires Reachable(s, c)
    ensures s.w.WSpace? || s.w.WCompare? || s.w.WBlocked? ==> s.w.space <= Free(s, c)
    ensures s.w.WCopy? ==> |s.w.bytes| <= Free(s, c)
    ensures s.r.RCopy? || s.r.RPeekCopy? ==> s.r.available <= |s.sent| - |s.taken|
  {
    ReachableInv(s, c);
  }

  /** Registered, and nothing on its way that would wake the task up. */
  ghost predicate BothBlocked(s: State) {
    s.w.WBlocked? && !s.writerNotified && s.r.RBlocked? && !s.readerNotified
  }

  /** No lost notification: a blocked reader that nobody notified has fewer bytes than the
      trigger level, unless the writer is just about to complete; and symmetrically. */
  lemma NoLostNotification(s: State, c: Config)
    requires Reachable(s, c)
    ensures s.r.RBlocked? && !s.readerNotified ==>
      s.toReceive && (|s.sent| - |s.taken| < c.trigger || s.w.WPublished? || s.w.WNotify?)
    ensures s.w.WBlocked? && !s.writerNotified ==> s.toSend && (Free(s, c) < s.w.need || s.r.RNotify?)
    ensures s.r.RCheck? ==> !s.toReceive
    ensures s.w.WCheck? ==> !s.toSend
  {
    ReachableInv(s, c);
  }

  /** With a trigger level no higher than what one byte of data takes up, the two tasks
      never block each other. */
  lemma NeverBothBlocked(s: State, c: Config)
    requires Reachable(s, c) && c.trigger <= c.Kept() + 1
    ensures !BothBlocked(s)
  {
    ReachableInv(s, c);
    if c.isMessage { CountFrames(s, c); }
  }

  lemma {:induction false} Concatenate(s: State, c: Config, front: seq<Step>, t: State, back: seq<Step>, u: State)
    requires Inv(s, c) && Inv(t, c) && IsRun(s, c, front, t) && IsRun(t, c, back, u)
    ensures IsRun(s, c, front + back, u)
    decreases |front|
  {
    if front == [] {
      assert front + back == back;
    } else {
      StepKeeps(s, c, front[0]);
      Concatenate(Apply(s, c, front[0]), c, front[1..], t, back, u);
      assert (front + back)[1..] == front[1..] + back;
    }
  }

  /** One step that leads from s to t. */
  ghost predicate Leads(s: State, c: Config, step: Step, t: State) {
    Inv(s, c) && Enabled(s, c, step) && t == Apply(s, c, step) && Inv(t, c)
  }

  lemma OneStep(s: State, c: Config, step: Step, t: State)
    requires Leads(s, c, step, t)
    ensures IsRun(s, c, [step], t)
  {
    assert [step][1..] == [];
  }

  /** The end of a copy publishes the bytes. */
  lemma Publishes(s: State, c: Config) returns (t: State)
    requires Inv(s, c) && s.w.WCopy? && s.w.k == |s.w.bytes| && s.w.data != []
    ensures Leads(s, c, WriterGoes(false), t)
    ensures t == s.(w := WPublished, head := t.head, sent := s.sent + s.w.bytes, sentMessages := t.sentMessages)
  {
    StepKeeps(s, c, WriterGoes(false));
    t := Apply(s, c, WriterGoes(false));
  }

  /** With fewer bytes than the trigger level nobody is notified. */
  lemma PassesOver(s: State, c: Config) returns (t: State)
    requires Inv(s, c) && s.w == WPublished && |s.sent| - |s.taken| < c.trigger
    ensures Leads(s, c, WriterGoes(false), t) && t == s.(w := WIdle)
  {
    CountsExact(|s.taken|, |s.sent|, c.length);
    StepKeeps(s, c, WriterGoes(false));
    t := Apply(s, c, WriterGoes(false));
  }

  lemma CopiesByte(s: State, c: Config) returns (t: State)
    requires Inv(s, c) && s.w.WCopy? && s.w.k < |s.w.bytes|
    ensures Leads(s, c, WriterGoes(false), t)
    ensures t == s.(w := WCopy(s.w.bytes, s.w.k + 1, s.w.data), buf := t.buf)
  {
    StepKeeps(s, c, WriterGoes(false));
    t := Apply(s, c, WriterGoes(false));
  }

  lemma SendStarts(s: State, c: Config, data: seq<int>) returns (t: State)
    requires Inv(s, c) && Enabled(s, c, Send(data, true)) && Need(c, data) <= c.length - 1
    ensures Leads(s, c, Send(data, true), t) && t == s.(w := WCheck(data, Need(c, data)))
  {
    StepKeeps(s, c, Send(data, true));
    t := Apply(s, c, Send(data, true));
  }

  lemma CheckPasses(s: State, c: Config) returns (t: State)
    requires Inv(s, c) && s.w.WCheck? && s.w.need <= Free(s, c)
    ensures Leads(s, c, WriterGoes(false), t) && t == s.(w := WSpace(s.w.data, s.w.need, Free(s, c)))
  {
    CountsExact(|s.taken|, |s.sent|, c.length);
    StepKeeps(s, c, WriterGoes(false));
    t := Apply(s, c, WriterGoes(false));
  }

  lemma CheckBlocks(s: State, c: Config) returns (t: State)
    requires Inv(s, c) && s.w.WCheck? && Free(s, c) < s.w.need
    ensures Leads(s, c, WriterGoes(false), t)
    ensures t == s.(w := WBlocked(s.w.data, s.w.need, Free(s, c)), writerNotified := false, toSend := true)
  {
    CountsExact(|s.taken|, |s.sent|, c.length);
    StepKeeps(s, c, WriterGoes(false));
    t := Apply(s, c, WriterGoes(false));
  }

  lemma SpaceDecides(s: State, c: Config) returns (t: State)
    requires Inv(s, c) && s.w.WSpace? && 0 < s.w.space
    ensures Leads(s, c, WriterGoes(false), t) && t == s.(w := Decide(c, s.w.data, s.w.need, s.w.space))
  {
    StepKeeps(s, c, WriterGoes(false));
    t := Apply(s, c, WriterGoes(false));
  }

  lemma Before(s: State, c: Config, step: Step, t: State, rest: seq<Step>, u: State)
    requires Leads(s, c, step, t) && IsRun(t, c, rest, u)
    ensures IsRun(s, c, [step] + rest, u)
  {
    assert ([step] + rest)[1..] == rest;
  }

  /** The rest of a copy, the publication and the test against the trigger level. */
  lemma {:induction false} FinishQuietly(s: State, c: Config) returns (steps: seq<Step>, t: State)
    requires Inv(s, c) && s.w.WCopy? && s.w.data != [] && |s.sent| - |s.taken| + |s.w.bytes| < c.trigger
    ensures IsRun(s, c, steps, t) && Inv(t, c)
    ensures t.w == WIdle && t.r == s.r && t.readerNotified == s.readerNotified
    ensures |t.sent| == |s.sent| + |s.w.bytes| && t.taken == s.taken
    decreases |s.w.bytes| - s.w.k
  {
    var u;
    if s.w.k == |s.w.bytes| {
      u := Publishes(s, c);
      t := PassesOver(u, c);
      OneStep(u, c, WriterGoes(false), t);
      steps := [WriterGoes(false)];
    } else {
      u := CopiesByte(s, c);
      steps, t := FinishQuietly(u, c);
    }
    Before(s, c, WriterGoes(false), u, steps, t);
    steps := [WriterGoes(false)] + steps;
  }

  /** A blocking send of data for which there is space begins to copy. */
  lemma SendBegins(s: State, c: Config, data: seq<int>) returns (steps: seq<Step>, t: State)
    requires Inv(s, c) && Enabled(s, c, Send(data, true)) && 0 < Need(c, data) <= Free(s, c)
    ensures IsRun(s, c, steps, t) && Inv(t, c)
    ensures t == s.(w := Decide(c, data, Need(c, data), Free(s, c)))
  {
    var s1 := SendStarts(s, c, data);
    var s2 := CheckPasses(s1, c);
    t := SpaceDecides(s2, c);
    OneStep(s2, c, WriterGoes(false), t);
    Before(s1, c, WriterGoes(false), s2, [WriterGoes(false)], t);
    steps := [WriterGoes(false)] + [WriterGoes(false)];
    Before(s, c, Send(data, true), s1, steps, t);
    steps := [Send(data, true)] + steps;
  }

  /** A blocking send of data for which there is too little space blocks. */
  lemma SendBlocks(s: State, c: Config, data: seq<int>) returns (steps: seq<Step>, t: State)
    requires Inv(s, c) && Enabled(s, c, Send(data, true)) && Free(s, c) < Need(c, data) <= c.length - 1
    ensures IsRun(s, c, steps, t)
    ensures t.w.WBlocked? && !t.writerNotified && t.r == s.r && t.readerNotified == s.readerNotified
  {
    var s1 := SendStarts(s, c, data);
    t := CheckBlocks(s1, c);
    OneStep(s1, c, WriterGoes(false), t);
    Before(s, c, Send(data, true), s1, [WriterGoes(false)], t);
    steps := [Send(data, true)] + [WriterGoes(false)];
  }

  /** A blocking receive on an empty buffer blocks. */
  lemma ReceiveBlocks(c: Config) returns (steps: seq<Step>, t: State)
    requires c.Valid()
    ensures Inv(Init(c), c) && IsRun(Init(c), c, steps, t) && Inv(t, c)
    ensures t == Init(c).(r := RBlocked(1), toReceive := true)
  {
    var go, receive := ReaderGoes(false), Receive(1, true);
    InitInv(c);
    StepKeeps(Init(c), c, receive);
    var s1 := Apply(Init(c), c, receive);
    StepKeeps(s1, c, go);
    t := Apply(s1, c, go);
    OneStep(s1, c, go, t);
    Before(Init(c), c, receive, s1, [go], t);
    steps := [receive] + [go];
  }

  /** With a higher trigger level they can: the reader waits on the empty buffer, the writer
      sends one byte, which is too little to wake the reader, and then waits for space. */
  lemma CanBothBlock(c: Config) returns (s: State)
    requires c.Valid() && c.trigger > c.Kept() + 1
    ensures Reachable(s, c) && BothBlocked(s)
  {
    var a, s1 := ReceiveBlocks(c);
    var b, s2 := SendBegins(s1, c, [7]);
    var d, s3 := FinishQuietly(s2, c);
    var long := seq(c.length - 1 - c.Kept(), i => 7);
    var e, s4 := SendBlocks(s3, c, long);
    s := s4;
    Concatenate(s2, c, d, s3, e, s4);
    Concatenate(s1, c, b, s2, d + e, s4);
    Concatenate(Init(c), c, a, s1, b + (d + e), s4);
  }

  /** The two tasks can never be blocked on each other exactly if the trigger level is at
      most what one byte of data takes up in the buffer. */
  lemma NeverBothBlockedExactly(c: Config)
    requires c.Valid()
    ensures (forall s :: Reachable(s, c) ==> !BothBlocked(s)) <==> c.trigger <= c.Kept() + 1
  {
    if c.trigger <= c.Kept() + 1 {
      forall s | Reachable(s, c) ensures !BothBlocked(s) {
        NeverBothBlocked(s, c);
      }
    } else {
      var s := CanBothBlock(c);
    }
  }
}
