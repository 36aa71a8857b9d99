/** What a kernel list means, free of pointers: the items in ring order and the
    position of the walking cursor. */
module ListSpec {
  import opened Basics

  /** cursor is a ring position: 0 is the end marker, k + 1 is items[k]. */
  datatype Ring<T(==)> = Ring(items: seq<T>, cursor: nat) {

    predicate WellFormed() {
      && cursor <= |items|
      && Distinct(items)
    }

    function InsertAt(x: T, k: nat): Ring<T>
      requires k <= |items|
    {
      Ring(Inserted(items, k, x), if cursor > k then cursor + 1 else cursor)
    }

    /** The place just behind the cursor: what stands there is reached last. */
    function Behind(): (k: nat)
      ensures k <= |items|
    {
      if 0 < cursor <= |items| then cursor - 1 else |items|
    }

    function InsertEnd(x: T): Ring<T> {
      InsertAt(x, Behind())
    }

    /** A cursor standing on the removed item steps back to its predecessor. */
    function RemoveAt(k: nat): Ring<T>
      requires k < |items|
    {
      Ring(Removed(items, k), if cursor > k then cursor - 1 else cursor)
    }

    function Remove(x: T): Ring<T> {
      if x in items then RemoveAt(IndexOf(items, x)) else this
    }

    /** Step to the next item, skipping the end marker when there is an item. */
    function Advance(): Ring<T> {
      if cursor < |items| then Ring(items, cursor + 1)
      else if items == [] then Ring(items, 0)
      else Ring(items, 1)
    }

    predicate At(x: T) {
      0 < cursor <= |items| && items[cursor - 1] == x
    }

    /** How many cursor steps until x is reached; the full round if the cursor is on it. */
    function Distance(x: T): (d: nat)
      requires x in items && cursor <= |items|
    {
      var p := IndexOf(items, x) + 1;
      if p > cursor then p - cursor else |items| - cursor + p
    }
  }

  /** s with x put at place k: s[..k] + [x] + s[k..], element by element. */
  function Inserted<T>(s: seq<T>, k: nat, x: T): (t: seq<T>)
    requires k <= |s|
    ensures |t| == |s| + 1
  {
    seq(|s| + 1, i requires 0 <= i <= |s| => if i < k then s[i] else if i == k then x else s[i - 1])
  }

  /** s without what stands at place k: s[..k] + s[k + 1..], element by element. */
  function Removed<T>(s: seq<T>, k: nat): (t: seq<T>)
    requires k < |s|
    ensures |t| == |s| - 1
  {
    seq(|s| - 1, i requires 0 <= i < |s| - 1 => if i < k then s[i] else s[i + 1])
  }

  lemma InsertedRemoved<T>(s: seq<T>, k: nat, x: T)
    requires k <= |s|
    ensures Inserted(s, k, x) == s[..k] + [x] + s[k..]
    ensures Removed(Inserted(s, k, x), k) == s
    ensures k < |s| ==> Removed(s, k) == s[..k] + s[k + 1..]
  {
  }

  function IndexOf<T(==)>(s: seq<T>, x: T): (k: nat)
    requires x in s
    ensures k < |s| && s[k] == x
    ensures forall i :: 0 <= i < k ==> s[i] != x
  {
    if s[0] == x then 0 else 1 + IndexOf(s[1..], x)
  }

  /** In a list without repetitions an item has one place only. */
  lemma IndexUnique<T>(s: seq<T>, k: nat)
    requires Distinct(s) && k < |s|
    ensures IndexOf(s, s[k]) == k
  {
    DistinctIsDifferent(s);
  }

  lemma InsertMembers<T>(r: Ring<T>, x: T, k: nat)
    requires r.WellFormed() && k <= |r.items| && x !in r.items
    ensures r.InsertAt(x, k).WellFormed()
    ensures forall y :: y in r.InsertAt(x, k).items <==> y == x || y in r.items
  {
    var s := Inserted(r.items, k, x);
    DistinctIsDifferent(r.items);
    DistinctIsDifferent(s);
    assert s[k] == x;
    forall i | 0 <= i < |r.items| ensures r.items[i] in s {
      assert s[if i < k then i else i + 1] == r.items[i];
    }
  }

  lemma RemoveMembers<T>(r: Ring<T>, x: T)
    requires r.WellFormed() && x in r.items
    ensures r.Remove(x).WellFormed()
    ensures forall y :: y in r.Remove(x).items <==> y != x && y in r.items
  {
    var k := IndexOf(r.items, x);
    var s := Removed(r.items, k);
    DistinctIsDifferent(r.items);
    DistinctIsDifferent(s);
    forall i | 0 <= i < |r.items| && i != k ensures r.items[i] in s {
      assert s[if i < k then i else i - 1] == r.items[i];
    }
  }

  /** Removing what was just inserted gives back the earlier list, cursor included. */
  lemma RemoveUndoesInsertAt<T>(r: Ring<T>, x: T, k: nat)
    requires r.WellFormed() && k <= |r.items| && x !in r.items
    ensures x in r.InsertAt(x, k).items
    ensures r.InsertAt(x, k).Remove(x) == r
  {
    var s := r.InsertAt(x, k);
    InsertMembers(r, x, k);
    assert s.items[k] == x;
    IndexUnique(s.items, k);
    InsertedRemoved(r.items, k, x);
  }

  // --- cursor fairness -------------------------------------------------------------

  /** One thing that can happen to a round-robin list. */
  datatype Op<T> = Append(x: T) | Delete(x: T) | Next

  ghost predicate Enabled<T>(r: Ring<T>, op: Op<T>) {
    match op
    case Append(x) => x !in r.items
    case Delete(x) => x in r.items
    case Next => true
  }

  function Apply<T(==)>(r: Ring<T>, op: Op<T>): Ring<T>
    requires r.WellFormed() && Enabled(r, op)
  {
    match op
    case Append(x) => r.InsertEnd(x)
    case Delete(x) => r.Remove(x)
    case Next => r.Advance()
  }

  lemma InsertIndex<T>(r: Ring<T>, y: T, k: nat, x: T)
    requires r.WellFormed() && y !in r.items && k <= |r.items|
    ensures y in r.InsertAt(y, k).items && IndexOf(r.InsertAt(y, k).items, y) == k
    ensures x in r.items ==> x in r.InsertAt(y, k).items
    ensures x in r.items ==>
              var i := IndexOf(r.items, x);
              IndexOf(r.InsertAt(y, k).items, x) == if i < k then i else i + 1
  {
    var s := r.InsertAt(y, k);
    InsertMembers(r, y, k);
    IndexUnique(s.items, k);
    if x in r.items {
      var i := IndexOf(r.items, x);
      IndexUnique(s.items, if i < k then i else i + 1);
    }
  }

  lemma DeleteIndex<T>(r: Ring<T>, y: T, x: T)
    requires r.WellFormed() && y in r.items && x in r.items && x != y
    ensures x in r.Remove(y).items
    ensures var i, k := IndexOf(r.items, x), IndexOf(r.items, y);
            i != k && IndexOf(r.Remove(y).items, x) == if i < k then i else i - 1
  {
    var s := r.Remove(y);
    var i, k := IndexOf(r.items, x), IndexOf(r.items, y);
    var j := if i < k then i else i - 1;
    RemoveMembers(r, y);
    assert s.items[j] == x;
    IndexUnique(s.items, j);
  }

  lemma AppendDistance<T>(r: Ring<T>, y: T, x: T)
    requires r.WellFormed() && y !in r.items && x in r.items
    ensures x in r.InsertEnd(y).items
    ensures r.InsertEnd(y).Distance(x) == r.Distance(x) + if r.At(x) then 1 else 0
  {
    InsertIndex(r, y, r.Behind(), x);
    if r.At(x) { IndexUnique(r.items, r.cursor - 1); }
  }

  lemma DeleteDistance<T>(r: Ring<T>, y: T, x: T)
    requires r.WellFormed() && y in r.items && x in r.items && x != y
    ensures x in r.Remove(y).items
    ensures r.Remove(y).Distance(x) <= r.Distance(x)
  {
    DeleteIndex(r, y, x);
  }

  /** A newly appended item is reached after every other item, except that an item under
      the cursor has its turn behind it. */
  lemma AppendedIsLast<T>(r: Ring<T>, x: T, y: T)
    requires r.WellFormed() && x !in r.items && y in r.items
    ensures x in r.InsertEnd(x).items && y in r.InsertEnd(x).items
    ensures r.InsertEnd(x).Distance(y) < r.InsertEnd(x).Distance(x) <==> !r.At(y)
  {
    InsertIndex(r, x, r.Behind(), y);
    if r.At(y) { IndexUnique(r.items, r.cursor - 1); }
  }

  lemma NextDistance<T>(r: Ring<T>, x: T)
    requires r.WellFormed() && x in r.items
    ensures r.Advance().At(x) <==> r.Distance(x) == 1
    ensures !r.Advance().At(x) ==> r.Advance().Distance(x) == r.Distance(x) - 1
  {
    var s := r.Advance();
    if s.At(x) { IndexUnique(r.items, s.cursor - 1); }
  }

  /** The distance of an item that stays drops by one with every cursor step until the
      item is reached, never grows by a deletion, and grows by an append exactly when
      the cursor stands on the item. */
  lemma DistanceStep<T>(r: Ring<T>, op: Op<T>, x: T)
    requires r.WellFormed() && Enabled(r, op)
    requires x in r.items && op != Delete(x)
    ensures x in Apply(r, op).items
    ensures op.Next? ==> (Apply(r, op).At(x) <==> r.Distance(x) == 1)
    ensures op.Next? && !Apply(r, op).At(x) ==> Apply(r, op).Distance(x) == r.Distance(x) - 1
    ensures op.Delete? ==> Apply(r, op).Distance(x) <= r.Distance(x)
    ensures op.Append? ==> Apply(r, op).Distance(x) == r.Distance(x) + if r.At(x) then 1 else 0
  {
    match op
    case Append(y) => AppendDistance(r, y, x);
    case Delete(y) => DeleteDistance(r, y, x);
    case Next => NextDistance(r, x);
  }

  /** A run over lists of at most m items in which x stays and no cursor step returns x. */
  ghost predicate Misses<T>(r: Ring<T>, ops: seq<Op<T>>, x: T, m: nat)
    decreases |ops|
  {
    && r.WellFormed() && x in r.items && |r.items| <= m
    && (ops != [] ==>
          && Enabled(r, ops[0]) && ops[0] != Delete(x)
          && !(ops[0].Next? && Apply(r, ops[0]).At(x))
          && Misses(Apply(r, ops[0]), ops[1..], x, m))
  }

  function CountNext<T>(ops: seq<Op<T>>): nat {
    if ops == [] then 0 else (if ops[0].Next? then 1 else 0) + CountNext(ops[1..])
  }

  /** How often something is appended while the cursor stands on x. */
  ghost function AppendsUnder<T>(r: Ring<T>, ops: seq<Op<T>>, x: T, m: nat): nat
    requires Misses(r, ops, x, m)
    decreases |ops|
  {
    if ops == [] then 0
    else (if ops[0].Append? && r.At(x) then 1 else 0) + AppendsUnder(Apply(r, ops[0]), ops[1..], x, m)
  }

  /** Fairness: only appends made while the cursor stands on x can delay x beyond its
      initial distance. */
  lemma {:induction false} ReachedWithinDistance<T>(r: Ring<T>, ops: seq<Op<T>>, x: T, m: nat)
    requires Misses(r, ops, x, m)
    ensures CountNext(ops) < r.Distance(x) + AppendsUnder(r, ops, x, m)
    decreases |ops|
  {
    if ops != [] {
      DistanceStep(r, ops[0], x);
      ReachedWithinDistance(Apply(r, ops[0]), ops[1..], x, m);
    }
  }

  /** Steps left before x must be reached: straight to x when the cursor is before it,
      else to the end of the list first and then up to x, at most m items. */
  function Potential<T(==)>(r: Ring<T>, x: T, m: nat): nat
    requires r.WellFormed() && x in r.items && |r.items| <= m
  {
    var p := IndexOf(r.items, x) + 1;
    if r.cursor < p then p - r.cursor else |r.items| - r.cursor + m
  }

  lemma PotentialAppend<T>(r: Ring<T>, y: T, x: T, m: nat)
    requires r.WellFormed() && y !in r.items && x in r.items && |r.items| < m
    ensures r.InsertEnd(y).WellFormed() && x in r.InsertEnd(y).items
    ensures Potential(r.InsertEnd(y), x, m) <= Potential(r, x, m)
  {
    InsertMembers(r, y, r.Behind());
    InsertIndex(r, y, r.Behind(), x);
  }

  lemma PotentialDelete<T>(r: Ring<T>, y: T, x: T, m: nat)
    requires r.WellFormed() && y in r.items && x in r.items && x != y && |r.items| <= m
    ensures r.Remove(y).WellFormed() && x in r.Remove(y).items
    ensures Potential(r.Remove(y), x, m) <= Potential(r, x, m)
  {
    RemoveMembers(r, y);
    DeleteIndex(r, y, x);
  }

  lemma PotentialStep<T>(r: Ring<T>, op: Op<T>, x: T, m: nat)
    requires r.WellFormed() && Enabled(r, op) && op != Delete(x)
    requires x in r.items && |r.items| <= m && |Apply(r, op).items| <= m
    ensures Apply(r, op).WellFormed() && x in Apply(r, op).items
    ensures !op.Next? ==> Potential(Apply(r, op), x, m) <= Potential(r, x, m)
    ensures op.Next? && !Apply(r, op).At(x) ==> Potential(Apply(r, op), x, m) < Potential(r, x, m)
  {
    match op
    case Append(y) => PotentialAppend(r, y, x, m);
    case Delete(y) => PotentialDelete(r, y, x, m);
    case Next =>
  }

  /** No starvation: over lists of at most m items, fewer than 2 m cursor steps can be
      taken without reaching an item that stays, whatever is appended or deleted. */
  lemma {:induction false} EveryItemIsReached<T>(r: Ring<T>, ops: seq<Op<T>>, x: T, m: nat)
    requires Misses(r, ops, x, m)
    ensures CountNext(ops) < Potential(r, x, m) < 2 * m
    decreases |ops|
  {
    if ops != [] {
      PotentialStep(r, ops[0], x, m);
      EveryItemIsReached(Apply(r, ops[0]), ops[1..], x, m);
    }
  }

  // --- how tight the bound is --------------------------------------------------------

  /** An item that is not under the cursor is reached a little sooner. */
  lemma SoonerElsewhere<T>(r: Ring<T>, x: T, m: nat)
    requires r.WellFormed() && x in r.items && |r.items| <= m && !r.At(x)
    ensures Potential(r, x, m) <= if m <= 2 then m else 2 * m - 2
  {
  }

  lemma Before<T>(r: Ring<T>, op: Op<T>, rest: seq<Op<T>>, x: T, m: nat)
    requires r.WellFormed() && x in r.items && |r.items| <= m && Enabled(r, op) && op != Delete(x)
    requires !(op.Next? && Apply(r, op).At(x)) && Misses(Apply(r, op), rest, x, m)
    ensures Misses(r, [op] + rest, x, m)
    ensures CountNext([op] + rest) == CountNext(rest) + if op.Next? then 1 else 0
  {
    assert ([op] + rest)[1..] == rest;
  }

  /** 0, 1, ..., k - 1 */
  function UpFrom0(k: nat): (s: seq<int>)
    ensures |s| == k && forall i :: 0 <= i < k ==> s[i] == i
    ensures Distinct(s)
  {
    var s: seq<int> := seq(k, i => i);
    DistinctIsDifferent(s);
    s
  }

  /** 1, ..., k - 1, 0 */
  function Then0(k: nat): (s: seq<int>)
    requires 0 < k
    ensures |s| == k && s[k - 1] == 0 && forall i :: 0 <= i < k - 1 ==> s[i] == i + 1
    ensures Distinct(s)
  {
    var s: seq<int> := seq(k, i => if i < k - 1 then i + 1 else 0);
    DistinctIsDifferent(s);
    s
  }

  /** The cursor walks up to the item before 0. */
  lemma {:induction false} WalkUp(m: nat, c: nat) returns (ops: seq<Op<int>>)
    requires 1 <= c < m
    ensures Misses(Ring(Then0(m), c), ops, 0, m) && CountNext(ops) == m - 1 - c
    decreases m - c
  {
    if c == m - 1 {
      ops := [];
    } else {
      var rest := WalkUp(m, c + 1);
      Before(Ring(Then0(m), c), Next, rest, 0, m);
      ops := [Next] + rest;
    }
  }

  /** With the cursor on 0, the others are appended again, each before 0, and walked through. */
  lemma {:induction false} Refill(m: nat, j: nat) returns (ops: seq<Op<int>>)
    requires 1 <= j <= m
    ensures Misses(Ring(Then0(j), j), ops, 0, m) && CountNext(ops) == m - 1
    decreases m - j
  {
    var r := Ring(Then0(j), j);
    if j < m {
      var rest := Refill(m, j + 1);
      assert Inserted(r.items, j - 1, j) == Then0(j + 1);
      assert Apply(r, Append(j)) == Ring(Then0(j + 1), j + 1);
      Before(r, Append(j), rest, 0, m);
      ops := [Append(j)] + rest;
    } else if m == 1 {
      ops := [];
    } else {
      var rest := WalkUp(m, 1);
      Before(r, Next, rest, 0, m);
      ops := [Next] + rest;
    }
  }

  /** With the cursor on the last item, all but 0 are deleted from the back, which brings the
      cursor back onto 0. */
  lemma {:induction false} Empty(m: nat, k: nat) returns (ops: seq<Op<int>>)
    requires 1 <= k <= m
    ensures Misses(Ring(UpFrom0(k), k), ops, 0, m) && CountNext(ops) == m - 1
  {
    var r := Ring(UpFrom0(k), k);
    if k == 1 {
      assert UpFrom0(1) == Then0(1);
      ops := Refill(m, 1);
    } else {
      var rest := Empty(m, k - 1);
      IndexUnique(r.items, k - 1);
      assert Removed(r.items, k - 1) == UpFrom0(k - 1);
      assert Apply(r, Delete(k - 1)) == Ring(UpFrom0(k - 1), k - 1);
      Before(r, Delete(k - 1), rest, 0, m);
      ops := [Delete(k - 1)] + rest;
    }
  }

  /** From place c the cursor walks to the end of the list, then the others are deleted and
      appended again, and it walks through all of them a second time. */
  lemma {:induction false} Overtake(m: nat, c: nat) returns (ops: seq<Op<int>>)
    requires 1 <= c <= m
    ensures Misses(Ring(UpFrom0(m), c), ops, 0, m) && CountNext(ops) == 2 * m - 1 - c
    decreases m - c
  {
    if c == m {
      ops := Empty(m, m);
    } else {
      var rest := Overtake(m, c + 1);
      Before(Ring(UpFrom0(m), c), Next, rest, 0, m);
      ops := [Next] + rest;
    }
  }

  /** Fewer than 2 m steps is the best bound: 2 m - 2 can be taken without reaching an item. */
  lemma BoundIsTight(m: nat)
    requires 0 < m
    ensures exists r: Ring<int>, ops, x :: Misses(r, ops, x, m) && CountNext(ops) == 2 * m - 2
  {
    var ops := Overtake(m, 1);
  }

  /** Every item not under the cursor is reached within one list length exactly if the lists
      never have more than two items. */
  lemma OneRoundExactly(m: nat)
    ensures (forall r: Ring<int>, ops, x :: Misses(r, ops, x, m) && !r.At(x) ==> CountNext(ops) < m) <==> m <= 2
  {
    if m <= 2 {
      forall r: Ring<int>, ops, x | Misses(r, ops, x, m) && !r.At(x) ensures CountNext(ops) < m {
        EveryItemIsReached(r, ops, x, m);
        SoonerElsewhere(r, x, m);
      }
    } else {
      var ops := Overtake(m, 2);
      assert !Ring(UpFrom0(m), 2).At(0);
    }
  }

  // --- sorted insertion ------------------------------------------------------------

  predicate Sorted(s: seq<int>) {
    forall i, j :: 0 <= i < j < |s| ==> s[i] <= s[j]
  }

  /** Where the search from the front stops: the first value above v. */
  function UpperBound(s: seq<int>, v: int): (k: nat)
    ensures k <= |s|
    ensures forall i :: 0 <= i < k ==> s[i] <= v
    ensures k < |s| ==> s[k] > v
  {
    if s == [] || s[0] > v then 0 else 1 + UpperBound(s[1..], v)
  }

  /** The two contract facts determine the position. */
  lemma UpperBoundUnique(s: seq<int>, v: int, k: nat)
    requires k <= |s|
    requires forall i :: 0 <= i < k ==> s[i] <= v
    requires k < |s| ==> s[k] > v
    ensures k == UpperBound(s, v)
  {
  }

  /** Inserting at the upper bound keeps the list sorted and puts the newcomer behind
      every item of equal value and before every larger one. */
  lemma SortedInsert(s: seq<int>, v: int)
    requires Sorted(s)
    ensures Sorted(Inserted(s, UpperBound(s, v), v))
    ensures forall i :: 0 <= i < |s| ==> (i < UpperBound(s, v) <==> s[i] <= v)
  {
    var k := UpperBound(s, v);
    forall i | k <= i < |s| ensures s[i] > v {
      assert s[k] <= s[i];
    }
  }
}
