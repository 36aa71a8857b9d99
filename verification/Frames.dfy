/** Bytes in a circular store, and messages framed by their length. */
module Frames {
  import opened Circular

  const HEADER: nat := 8                          // sizeof( configMESSAGE_BUFFER_LENGTH_TYPE ), a size_t
  const SIZE_RANGE: nat := 0x1_0000_0000_0000_0000 // how many values a size_t has

  // --- bytes and space between two indices -----------------------------------------------------

  /** prvBytesInBuffer on given head and tail. */
  function BytesBetween(tail: int, head: int, n: int): int {
    var count := n + head - tail;
    if count >= n then count - n else count
  }

  /** xStreamBufferSpacesAvailable on given head and tail. */
  function SpaceBetween(tail: int, head: int, n: int): int {
    var space := n + tail - head - 1;
    if space >= n then space - n else space
  }

  /** Both counts are exact whatever the wrapping, and no intermediate value leaves the
      range 0 to 2 n - 1. */
  lemma CountsExact(read: nat, written: nat, n: nat)
    requires 0 < n && read <= written < read + n
    ensures BytesBetween(Cell(read, n), Cell(written, n), n) == written - read
    ensures SpaceBetween(Cell(read, n), Cell(written, n), n) == n - 1 - (written - read)
    ensures 0 <= n + Cell(written, n) - Cell(read, n) < 2 * n
    ensures 0 <= n + Cell(read, n) - Cell(written, n) - 1 < 2 * n
  {
    CellAdvance(read, written - read, n);
  }

  // --- length headers ---------------------------------------------------------------------------

  /** The low k bytes of v, lowest first. */
  function Little(v: nat, k: nat): (s: seq<int>)
    ensures |s| == k
  {
    if k == 0 then [] else [v % 256] + Little(v / 256, k - 1)
  }

  function Value(s: seq<int>): int {
    if s == [] then 0 else s[0] + 256 * Value(s[1..])
  }

  function Power(k: nat): nat {
    if k == 0 then 1 else 256 * Power(k - 1)
  }

  lemma {:induction false} LittleValue(v: nat, k: nat)
    requires v < Power(k)
    ensures Value(Little(v, k)) == v
  {
    if k > 0 {
      LittleValue(v / 256, k - 1);
      assert Little(v, k)[1..] == Little(v / 256, k - 1);
    }
  }

  function Header(v: nat): (s: seq<int>)
    ensures |s| == HEADER
  {
    Little(v, HEADER)
  }

  /** Every length a size_t can hold survives the way through the header. */
  lemma HeaderRoundTrip(v: nat)
    requires v < SIZE_RANGE
    ensures Value(Header(v)) == v
  {
    assert Power(2) == 0x1_0000 && Power(4) == 0x1_0000_0000
      && Power(6) == 0x1_0000_0000_0000 && Power(8) == SIZE_RANGE;
    LittleValue(v, HEADER);
  }

  // --- frames -----------------------------------------------------------------------------------

  ghost predicate IsMessage(m: seq<int>) {
    0 < |m| < SIZE_RANGE
  }

  ghost predicate AreMessages(ms: seq<seq<int>>) {
    forall i :: 0 <= i < |ms| ==> IsMessage(ms[i])
  }

  function Frame(m: seq<int>): (s: seq<int>)
    ensures |s| == HEADER + |m|
  {
    Header(|m|) + m
  }

  function Flatten(ms: seq<seq<int>>): seq<int> {
    if ms == [] then [] else Frame(ms[0]) + Flatten(ms[1..])
  }

  lemma AppendAssociates(a: seq<int>, b: seq<int>, c: seq<int>)
    ensures a + (b + c) == (a + b) + c && [] + a == a
  {
  }

  lemma {:induction false} FlattenAppend(ms: seq<seq<int>>, ns: seq<seq<int>>)
    ensures Flatten(ms + ns) == Flatten(ms) + Flatten(ns)
  {
    if ms == [] {
      assert ms + ns == ns;
      AppendAssociates(Flatten(ns), [], []);
    } else {
      FlattenAppend(ms[1..], ns);
      assert (ms + ns)[1..] == ms[1..] + ns && (ms + ns)[0] == ms[0];
      AppendAssociates(Frame(ms[0]), Flatten(ms[1..]), Flatten(ns));
    }
  }

  lemma FlattenOne(m: seq<int>)
    ensures Flatten([m]) == Frame(m)
  {
  }

  /** The front of a framed byte sequence gives back the oldest message. */
  lemma ParseFront(ms: seq<seq<int>>)
    requires AreMessages(ms) && ms != []
    ensures var s := Flatten(ms);
            && HEADER < HEADER + |ms[0]| <= |s|
            && Value(s[..HEADER]) == |ms[0]|
            && s[HEADER..HEADER + |ms[0]|] == ms[0]
            && s[HEADER + |ms[0]|..] == Flatten(ms[1..])
  {
    HeaderRoundTrip(|ms[0]|);
    var s := Flatten(ms);
    assert s == Header(|ms[0]|) + ms[0] + Flatten(ms[1..]);
    assert s[..HEADER] == Header(|ms[0]|);
  }

  /** A framed byte sequence that is no longer than a header is empty. */
  lemma NoHalfFrames(ms: seq<seq<int>>)
    requires AreMessages(ms) && |Flatten(ms)| <= HEADER
    ensures ms == []
  {
    if ms != [] {
      ParseFront(ms);
      assert false;
    }
  }

  /** Bytes can be framed in one way only. */
  lemma {:induction false} FramingUnique(ms: seq<seq<int>>, ns: seq<seq<int>>)
    requires AreMessages(ms) && AreMessages(ns) && Flatten(ms) == Flatten(ns)
    ensures ms == ns
  {
    if ms == [] || ns == [] {
      NoHalfFrames(ms);
      NoHalfFrames(ns);
    } else {
      ParseFront(ms);
      ParseFront(ns);
      FramingUnique(ms[1..], ns[1..]);
    }
  }
}
