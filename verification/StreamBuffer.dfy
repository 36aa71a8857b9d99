/** The byte ring of stream and message buffers, one call at a time. */
module StreamBuffer {
  import opened Circular
  import opened Frames

  /** n bytes read from a circular store, starting at a given index. */
  function Fetch(b: seq<int>, from: nat, n: nat): (s: seq<int>)
    requires from < |b| && n <= |b|
    ensures |s| == n
  {
    seq(n, j requires 0 <= j < n => b[Advance(from, j, |b|)])
  }

  function Offset(i: nat, from: nat, n: nat): int {
    if i >= from then i - from else i + n - from
  }

  /** The store after data was written to it, starting at a given index. */
  function Stored(b: seq<int>, from: nat, data: seq<int>): (s: seq<int>)
    requires from < |b|
    ensures |s| == |b|
  {
    seq(|b|, i requires 0 <= i < |b| =>
      if Offset(i, from, |b|) < |data| then data[Offset(i, from, |b|)] else b[i])
  }

  lemma FetchStored(b: seq<int>, from: nat, data: seq<int>)
    requires from < |b| && |data| <= |b|
    ensures Fetch(Stored(b, from, data), from, |data|) == data
  {
  }

  /** Writing behind n bytes leaves them alone, as long as the two do not overlap. */
  lemma StoredKeeps(b: seq<int>, at: nat, n: nat, data: seq<int>)
    requires at < |b| && n + |data| <= |b|
    ensures 0 <= Advance(at, n, |b|) < |b|
    ensures Fetch(Stored(b, Advance(at, n, |b|), data), at, n) == Fetch(b, at, n)
  {
    var s, f := Stored(b, Advance(at, n, |b|), data), Fetch(b, at, n);
    assert forall j :: 0 <= j < n ==> s[Advance(at, j, |b|)] == f[j];
  }

  lemma FetchSplit(b: seq<int>, at: nat, n: nat, m: nat)
    requires at < |b| && n + m <= |b|
    ensures 0 <= Advance(at, n, |b|) < |b|
    ensures Fetch(b, at, n + m) == Fetch(b, at, n) + Fetch(b, Advance(at, n, |b|), m)
  {
  }

  /** Writing in two pieces is writing the whole. */
  lemma StoredTwice(b: seq<int>, from: nat, x: seq<int>, y: seq<int>)
    requires from < |b| && |x| + |y| <= |b|
    ensures 0 <= Advance(from, |x|, |b|) < |b|
    ensures Stored(Stored(b, from, x), Advance(from, |x|, |b|), y) == Stored(b, from, x + y)
  {
  }

  /** Appending to the bytes between tail and head. */
  lemma ContentsAppend(b: seq<int>, tail: nat, n: nat, data: seq<int>)
    requires tail < |b| && n + |data| <= |b|
    ensures 0 <= Advance(tail, n, |b|) < |b|
    ensures Fetch(Stored(b, Advance(tail, n, |b|), data), tail, n + |data|) == Fetch(b, tail, n) + data
  {
    var h := Advance(tail, n, |b|);
    FetchSplit(Stored(b, h, data), tail, n, |data|);
    StoredKeeps(b, tail, n, data);
    FetchStored(b, h, data);
  }

  lemma ThreeParts(s: seq<int>, x: seq<int>, y: seq<int>, z: seq<int>)
    requires s == x + (y + z)
    ensures |s| == |x| + |y| + |z|
    ensures s[..|x|] == x && s[|x|..|x| + |y|] == y && s[|x| + |y|..] == z
  {
  }

  /** The store read in three pieces, the first of them h bytes and the second k. */
  lemma FetchThree(b: seq<int>, tail: nat, h: nat, k: nat, n: nat)
    requires tail < |b| && h + k <= n <= |b|
    ensures var s := Fetch(b, tail, n); var body := Advance(tail, h, |b|); var after := Advance(body, k, |b|);
            && 0 <= body < |b| && 0 <= after < |b|
            && Fetch(b, tail, h) == s[..h] && Fetch(b, body, k) == s[h..h + k]
            && Fetch(b, after, n - h - k) == s[h + k..]
  {
    FetchSplit(b, tail, h, n - h);
    var body := Advance(tail, h, |b|);
    FetchSplit(b, body, k, n - h - k);
    ThreeParts(Fetch(b, tail, n), Fetch(b, tail, h), Fetch(b, body, k), Fetch(b, Advance(body, k, |b|), n - h - k));
  }

  /** Where the oldest message stands in the store. */
  lemma FrontFrame(b: seq<int>, tail: nat, n: nat, ms: seq<seq<int>>)
    requires tail < |b| && n <= |b| && AreMessages(ms) && ms != [] && Fetch(b, tail, n) == Flatten(ms)
    ensures HEADER + |ms[0]| <= n
    ensures Value(Fetch(b, tail, HEADER)) == |ms[0]|
    ensures 0 <= Advance(tail, HEADER, |b|) < |b| && Fetch(b, Advance(tail, HEADER, |b|), |ms[0]|) == ms[0]
    ensures var after := Advance(Advance(tail, HEADER, |b|), |ms[0]|, |b|);
            && 0 <= after < |b| && Fetch(b, after, n - HEADER - |ms[0]|) == Flatten(ms[1..])
  {
    ParseFront(ms);
    FetchThree(b, tail, HEADER, |ms[0]|, n);
  }

  class Buffer {
    const buffer: array<int>      // pucBuffer, of xLength bytes
    const isMessage: bool         // sbFLAGS_IS_MESSAGE_BUFFER
    var tail: nat                 // xTail
    var head: nat                 // xHead
    ghost var messages: seq<seq<int>>

    ghost predicate Shape()
      reads this, buffer
    {
      && 2 <= buffer.Length && 2 * buffer.Length <= SIZE_RANGE
      && tail < buffer.Length && head < buffer.Length
    }

    ghost function Contents(): (s: seq<int>)
      requires Shape()
      reads this, buffer
    {
      Fetch(buffer[..], tail, BytesBetween(tail, head, buffer.Length))
    }

    /** In message mode the bytes between tail and head are whole frames. */
    ghost predicate Valid()
      reads this, buffer
    {
      && Shape()
      && (isMessage ==> AreMessages(messages) && Contents() == Flatten(messages))
    }

    /** prvInitialiseNewStreamBuffer; the create functions ask for one byte more than the
        user does. */
    constructor (size: nat, isMessage: bool)
      requires 0 < size && 2 * (size + 1) <= SIZE_RANGE
      ensures Valid() && fresh(buffer) && this.isMessage == isMessage && buffer.Length == size + 1
      ensures Contents() == [] && messages == []
    {
      buffer := new int[size + 1];
      this.isMessage := isMessage;
      tail, head, messages := 0, 0, [];
    }

    /** prvBytesInBuffer */
    method BytesInBuffer() returns (count: nat)
      requires Shape()
      ensures count == |Contents()| < buffer.Length
    {
      count := buffer.Length + head;
      count := count - tail;
      if count >= buffer.Length {
        count := count - buffer.Length;
      }
    }

    /** xStreamBufferSpacesAvailable with nobody else at work */
    method SpacesAvailable() returns (space: nat)
      requires Shape()
      ensures space == buffer.Length - 1 - |Contents()|
    {
      space := buffer.Length + tail;
      space := space - head;
      space := space - 1;
      if space >= buffer.Length {
        space := space - buffer.Length;
      }
    }

    /** memcpy into the store */
    method CopyIn(at: nat, data: seq<int>, from: nat, count: nat)
      requires at + count <= buffer.Length && from + count <= |data|
      modifies buffer
      ensures forall i :: 0 <= i < buffer.Length ==>
        buffer[i] == if at <= i < at + count then data[from + i - at] else old(buffer[i])
    {
      for k := 0 to count
        invariant forall i :: 0 <= i < buffer.Length ==>
          buffer[i] == if at <= i < at + k then data[from + i - at] else old(buffer[i])
      {
        buffer[at + k] := data[from + k];
      }
    }

    /** prvWriteBytesToBuffer: up to the end of the store first, the rest from its start */
    method WriteBytes(data: seq<int>, at: nat) returns (next: nat)
      requires 0 < |data| <= buffer.Length && at < buffer.Length
      modifies buffer
      ensures buffer[..] == Stored(old(buffer[..]), at, data)
      ensures next == Advance(at, |data|, buffer.Length) < buffer.Length
    {
      var first := if buffer.Length - at < |data| then buffer.Length - at else |data|;
      CopyIn(at, data, 0, first);
      if |data| > first {
        CopyIn(0, data, first, |data| - first);
      }
      next := at + |data|;
      if next >= buffer.Length {
        next := next - buffer.Length;
      }
    }

    /** memcpy out of the store */
    method CopyOut(at: nat, count: nat) returns (data: seq<int>)
      requires at + count <= buffer.Length
      ensures data == buffer[at..at + count]
    {
      data := [];
      for k := 0 to count
        invariant data == buffer[at..at + k]
      {
        data := data + [buffer[at + k]];
      }
    }

    /** prvReadBytesFromBuffer */
    method ReadBytes(count: nat, at: nat) returns (data: seq<int>, next: nat)
      requires 0 < count <= buffer.Length && at < buffer.Length
      ensures data == Fetch(buffer[..], at, count)
      ensures next == Advance(at, count, buffer.Length) < buffer.Length
    {
      var first := if buffer.Length - at < count then buffer.Length - at else count;
      data := CopyOut(at, first);
      if count > first {
        var rest := CopyOut(0, count - first);
        data := data + rest;
      }
      next := at + count;
      if next >= buffer.Length {
        next := next - buffer.Length;
      }
    }

    /** prvWriteMessageToBuffer */
    method WriteMessage(data: seq<int>, space: nat) returns (sent: nat)
      requires Valid() && space <= buffer.Length - 1 - |Contents()| && |data| + HEADER < SIZE_RANGE
      modifies this`head, this`messages, buffer
      ensures Valid() && tail == old(tail)
      ensures isMessage ==>
        && sent == (if |data| + HEADER <= space then |data| else 0)
        && messages == (if 0 < sent then old(messages) + [data] else old(messages))
        && Contents() == (if 0 < sent then old(Contents()) + Frame(data) else old(Contents()))
      ensures !isMessage ==>
        sent == (if |data| < space then |data| else space) && Contents() == old(Contents()) + data[..sent]
    {
      if isMessage {
        sent := WriteFrame(data, space);
        return;
      }
      sent := if |data| < space then |data| else space;
      if sent != 0 {
        ContentsAppend(buffer[..], tail, |Contents()|, data[..sent]);
        head := WriteBytes(data[..sent], head);
      }
    }

    /** prvWriteMessageToBuffer in message mode: the length, then the data, published
        together. */
    method WriteFrame(data: seq<int>, space: nat) returns (sent: nat)
      requires Valid() && isMessage && space <= buffer.Length - 1 - |Contents()| && |data| + HEADER < SIZE_RANGE
      modifies this`head, this`messages, buffer
      ensures Valid() && tail == old(tail)
      ensures sent == (if |data| + HEADER <= space then |data| else 0)
      ensures messages == (if 0 < sent then old(messages) + [data] else old(messages))
      ensures Contents() == (if 0 < sent then old(Contents()) + Frame(data) else old(Contents()))
    {
      ghost var b, count := buffer[..], |Contents()|;
      assert head == Advance(tail, count, buffer.Length);
      var next, payload := head, data;
      if space >= |data| + HEADER {
        StoredKeeps(b, tail, count, Header(|data|));
        next := WriteBytes(Header(|data|), next);
      } else {
        payload := [];
      }
      sent := |payload|;
      if sent != 0 {
        StoredTwice(b, head, Header(|data|), data);
        ContentsAppend(b, tail, count, Frame(data));
        FlattenAppend(messages, [data]);
        FlattenOne(data);
        head := WriteBytes(payload, next);
        messages := messages + [data];
      }
    }

    /** xStreamBufferSend with no block time, and xStreamBufferSendFromISR */
    method Send(data: seq<int>) returns (sent: nat)
      requires Valid() && |data| + HEADER < SIZE_RANGE
      modifies this`head, this`messages, buffer
      ensures Valid() && tail == old(tail)
      ensures isMessage ==>
        && (0 < sent <==> data != [] && |old(Contents())| + |Frame(data)| < buffer.Length)
        && (0 < sent ==> sent == |data| && messages == old(messages) + [data])
        && (sent == 0 ==> messages == old(messages))
      ensures !isMessage ==>
        && sent <= |data| && Contents() == old(Contents()) + data[..sent]
        && (sent < |data| ==> |Contents()| == buffer.Length - 1)
    {
      var space := SpacesAvailable();
      sent := WriteMessage(data, space);
    }

    /** prvReadMessageFromBuffer */
    method ReadMessage(max: nat, available: nat) returns (data: seq<int>)
      requires Valid() && available == |Contents()| && (if isMessage then HEADER < available else 0 < available)
      modifies this`tail, this`messages
      ensures Valid() && head == old(head)
      ensures isMessage ==>
        && old(messages) != []
        && (if |old(messages[0])| <= max
            then data == old(messages[0]) && messages == old(messages)[1..]
            else data == [] && messages == old(messages) && tail == old(tail))
      ensures !isMessage ==>
        && |data| == (if max < available then max else available)
        && old(Contents()) == data + Contents()
    {
      if isMessage {
        data := ReadFrame(max, available);
        return;
      }
      var count := if max < available then max else available;
      FetchSplit(buffer[..], tail, count, available - count);
      data := [];
      if count != 0 {
        data, tail := ReadBytes(count, tail);
      }
    }

    /** prvReadMessageFromBuffer in message mode: a message the caller has no room for is
        left where it is. */
    method ReadFrame(max: nat, available: nat) returns (data: seq<int>)
      requires Valid() && isMessage && HEADER < available == |Contents()|
      modifies this`tail, this`messages
      ensures Valid() && head == old(head) && old(messages) != []
      ensures if |old(messages[0])| <= max
              then data == old(messages[0]) && messages == old(messages)[1..]
              else data == [] && messages == old(messages) && tail == old(tail)
    {
      assert messages != [];
      FrontFrame(buffer[..], tail, available, messages);
      var header, next := ReadBytes(HEADER, tail);
      var length, left := Value(header), available - HEADER;
      if length > max {
        length := 0;
      }
      var count := if length < left then length else left;
      data := [];
      if count != 0 {
        data, tail := ReadBytes(count, next);
        messages := messages[1..];
      }
    }

    /** xStreamBufferReceive with no block time, and xStreamBufferReceiveFromISR */
    method Receive(max: nat) returns (data: seq<int>)
      requires Valid()
      modifies this`tail, this`messages
      ensures Valid() && head == old(head)
      ensures isMessage ==>
        if old(messages) != [] && |old(messages)[0]| <= max
        then data == old(messages)[0] && messages == old(messages)[1..]
        else data == [] && messages == old(messages) && tail == old(tail)
      ensures !isMessage ==>
        && old(Contents()) == data + Contents()
        && (|data| == max || (|data| < max && Contents() == []))
    {
      var available := BytesInBuffer();
      if available > (if isMessage then HEADER else 0) {
        data := ReadMessage(max, available);
      } else {
        if isMessage { NoHalfFrames(messages); }
        data := [];
      }
    }

    /** xStreamBufferNextMessageLengthBytes, with the assertion it makes when no more than a
        header's worth of bytes is there */
    method NextMessageLength() returns (length: nat)
      requires Valid()
      ensures length == if isMessage && messages != [] then |messages[0]| else 0
    {
      length := 0;
      if isMessage {
        var available := BytesInBuffer();
        if available > HEADER {
          assert messages != [];
          FrontFrame(buffer[..], tail, available, messages);
          var header, next := ReadBytes(HEADER, tail);
          length := Value(header);
        } else {
          NoHalfFrames(messages);
          assert available == 0;
        }
      }
    }
  }
}
