/** The intrusive kernel list: a circular doubly linked ring through an end marker,
    with a cursor, a length counter and a container link in every item. */
module KernelList {
  import opened Basics
  import opened ListSpec

  class ListItem {
    var value: nat            // xItemValue
    var next: ListItem?       // pxNext
    var previous: ListItem?   // pxPrevious
    var container: List?      // pxContainer

    /** vListInitialiseItem: not recorded as being on a list. */
    constructor (v: nat)
      ensures container == null && value == v
    {
      value := v;
      container := null;
    }
  }

  /** A ring laid out flat: the end marker, the items in order, the end marker again. */
  ghost predicate IsChain(c: seq<ListItem>) {
    && 2 <= |c| && c[0] == c[|c| - 1]
    && forall i, j :: 0 <= i < j < |c| - 1 ==> c[i] != c[j]
  }

  ghost predicate Linked(c: seq<ListItem>)
    reads c
  {
    && (forall i {:trigger c[i].next} :: 0 <= i < |c| - 1 ==> c[i].next == c[i + 1])
    && (forall i {:trigger c[i].previous} :: 0 < i < |c| ==> c[i].previous == c[i - 1])
  }

  /** Every item between the markers belongs to the list; no value exceeds the marker's. */
  ghost predicate Owned(c: seq<ListItem>, l: List, max: nat)
    reads c
  {
    && (forall i {:trigger c[i].container} :: 0 < i < |c| - 1 ==> c[i].container == l)
    && (forall i {:trigger c[i].value} :: 0 <= i < |c| ==> c[i].value <= max)
  }

  ghost function Splice(c: seq<ListItem>, k: nat, x: ListItem): (d: seq<ListItem>)
    requires k < |c|
  {
    Inserted(c, k + 1, x)
  }

  /** The items of a ring, with the cursor. */
  ghost function RingOf(c: seq<ListItem>, cursor: nat): Ring<ListItem>
    requires 2 <= |c|
  {
    Ring(seq(|c| - 2, i requires 0 <= i < |c| - 2 => c[i + 1]), cursor)
  }

  ghost function ValuesOf(c: seq<ListItem>): (s: seq<int>)
    requires 2 <= |c|
    reads c
  {
    seq(|c| - 2, i requires 0 <= i < |c| - 2 reads c => c[i + 1].value)
  }

  /** Given a ring linked everywhere but between places k and k + 1, where x stands
      linked to both: the ring with x in it. */
  lemma LinkIn(c: seq<ListItem>, cursor: nat, k: nat, x: ListItem, l: List, max: nat)
    returns (d: seq<ListItem>, cursor': nat)
    requires IsChain(c) && k < |c| - 1 && x !in c && cursor < |c| - 1
    requires x.previous == c[k] && x.next == c[k + 1] && c[k].next == x && c[k + 1].previous == x
    requires forall i {:trigger c[i].next} :: 0 <= i < |c| - 1 && i != k ==> c[i].next == c[i + 1]
    requires forall i {:trigger c[i].previous} :: 0 < i < |c| && i != k + 1 ==> c[i].previous == c[i - 1]
    requires Owned(c, l, max) && x.container == l && x.value <= max
    ensures IsChain(d) && Linked(d) && Owned(d, l, max)
    ensures |d| == |c| + 1 && d[0] == c[0]
    ensures cursor' < |d| - 1 && d[cursor'] == c[cursor]
    ensures RingOf(d, cursor') == RingOf(c, cursor).InsertAt(x, k)
  {
    d := Splice(c, k, x);
    cursor' := if cursor > k then cursor + 1 else cursor;
    forall i | 0 <= i < |d| - 1 ensures d[i].next == d[i + 1] {
      if i < k { assert d[i] == c[i]; } else if i > k + 1 { assert d[i] == c[i - 1]; }
    }
    forall i | 0 < i < |d| ensures d[i].previous == d[i - 1] {
      if i <= k { assert d[i] == c[i]; } else if i > k + 2 { assert d[i] == c[i - 1]; }
    }
    assert RingOf(d, cursor').items == RingOf(c, cursor).InsertAt(x, k).items;
  }

  /** Given a ring linked everywhere but around place k + 1, whose neighbours are linked
      to one another: the ring without what stands there. */
  lemma LinkOut(c: seq<ListItem>, cursor: nat, k: nat, l: List, max: nat)
    returns (d: seq<ListItem>, cursor': nat)
    requires IsChain(c) && k < |c| - 2 && cursor < |c| - 1
    requires c[k].next == c[k + 2] && c[k + 2].previous == c[k]
    requires forall i {:trigger c[i].next} :: 0 <= i < |c| - 1 && i != k && i != k + 1 ==> c[i].next == c[i + 1]
    requires forall i {:trigger c[i].previous} :: 0 < i < |c| && i != k + 1 && i != k + 2 ==> c[i].previous == c[i - 1]
    requires forall i {:trigger c[i].container} :: 0 < i < |c| - 1 && i != k + 1 ==> c[i].container == l
    requires forall i {:trigger c[i].value} :: 0 <= i < |c| ==> c[i].value <= max
    ensures IsChain(d) && Linked(d) && Owned(d, l, max)
    ensures |d| == |c| - 1 && d[0] == c[0]
    ensures cursor' < |d| - 1 && d[cursor'] == if cursor == k + 1 then c[k] else c[cursor]
    ensures RingOf(d, cursor') == RingOf(c, cursor).RemoveAt(k)
    ensures c[k + 1] !in d
  {
    d := Removed(c, k + 1);
    cursor' := if cursor > k then cursor - 1 else cursor;
    forall i | 0 <= i < |d| - 1 ensures d[i].next == d[i + 1] {
      if i < k { assert d[i] == c[i]; } else if i > k { assert d[i] == c[i + 1]; }
    }
    forall i | 0 < i < |d| ensures d[i].previous == d[i - 1] {
      if i <= k { assert d[i] == c[i]; } else if i > k + 1 { assert d[i] == c[i + 1]; }
    }
    assert RingOf(d, cursor').items == RingOf(c, cursor).RemoveAt(k).items;
  }

  lemma ValuesSplice(c: seq<ListItem>, d: seq<ListItem>, k: nat, x: ListItem)
    requires 2 <= |c| && k <= |c| - 2 && |d| == |c| + 1
    requires RingOf(d, 0).items == Inserted(RingOf(c, 0).items, k, x)
    ensures ValuesOf(d) == Inserted(ValuesOf(c), k, x.value)
  {
    var e, b := RingOf(d, 0).items, RingOf(c, 0).items;
    assert forall i :: 0 <= i < |e| ==> ValuesOf(d)[i] == e[i].value;
    assert forall i :: 0 <= i < |b| ==> ValuesOf(c)[i] == b[i].value;
  }

  class List {
    const maxDelay: nat       // portMAX_DELAY
    const end: ListItem       // xListEnd
    var length: nat           // uxNumberOfItems
    var index: ListItem       // pxIndex
    ghost var chain: seq<ListItem>
    ghost var cursor: nat

    ghost predicate Shape()
      reads this
    {
      && IsChain(chain) && chain[0] == end
      && length == |chain| - 2
      && cursor < |chain| - 1 && index == chain[cursor]
    }

    ghost predicate Valid()
      reads this, end, chain
    {
      Shape() && Linked(chain) && Owned(chain, this, maxDelay) && end.value == maxDelay
    }

    /** The abstract list: items without the marker, and the cursor. */
    ghost function View(): (r: Ring<ListItem>)
      requires Shape()
      reads this
    {
      RingOf(chain, cursor)
    }

    lemma ViewWellFormed()
      requires Shape()
      ensures View().WellFormed() && |View().items| == length
    {
      DistinctIsDifferent(View().items);
    }

    /** vListInitialise */
    constructor (max: nat)
      ensures Valid() && fresh(end) && maxDelay == max
      ensures View() == Ring([], 0)
    {
      maxDelay := max;
      var e := new ListItem(max);
      e.next := e;
      e.previous := e;
      end := e;
      index := e;
      length := 0;
      chain := [e, e];
      cursor := 0;
    }

    /** vListInsertEnd */
    method InsertEnd(x: ListItem)
      requires Valid() && x !in chain && x.value <= maxDelay
      modifies this`length, this`chain, this`cursor, chain`next, chain`previous, x`next, x`previous, x`container
      ensures Valid()
      ensures View() == old(View()).InsertEnd(x)
    {
      ghost var k := View().Behind();
      assert index == chain[k + 1] && index.previous == chain[k];
      var at := index;
      x.next := at;
      x.previous := at.previous;
      at.previous.next := x;
      at.previous := x;
      x.container := this;
      length := length + 1;
      chain, cursor := LinkIn(chain, cursor, k, x, this, maxDelay);
    }

    /** The search of vListInsert: the last item whose value does not exceed v. A value
        equal to the marker's would never end the walk, so it goes to the back directly. */
    method FindPlace(v: nat) returns (it: ListItem, ghost k: nat)
      requires Valid() && v <= maxDelay
      ensures k < |chain| - 1 && it == chain[k]
      ensures k == UpperBound(ValuesOf(chain), v)
    {
      if v == maxDelay {
        it, k := end.previous, |chain| - 2;
      } else {
        it, k := end, 0;
        while it.next.value <= v
          invariant k < |chain| - 1 && it == chain[k]
          invariant forall i :: 0 < i <= k ==> chain[i].value <= v
          decreases |chain| - k
        {
          it, k := it.next, k + 1;
        }
      }
      UpperBoundUnique(ValuesOf(chain), v, k);
    }

    /** The splice of vListInsert. */
    method LinkAfter(it: ListItem, x: ListItem, ghost k: nat)
      requires Valid() && x !in chain && x.value <= maxDelay
      requires k < |chain| - 1 && it == chain[k]
      modifies this`length, this`chain, this`cursor, chain`next, chain`previous, x`next, x`previous, x`container
      ensures Valid()
      ensures View() == old(View()).InsertAt(x, k)
    {
      assert it.next == chain[k + 1];
      x.next := it.next;
      x.next.previous := x;
      x.previous := it;
      it.next := x;
      x.container := this;
      length := length + 1;
      chain, cursor := LinkIn(chain, cursor, k, x, this, maxDelay);
    }

    /** vListInsert */
    method Insert(x: ListItem)
      requires Valid() && x !in chain && x.value <= maxDelay
      modifies this`length, this`chain, this`cursor, chain`next, chain`previous, x`next, x`previous, x`container
      ensures Valid()
      ensures View() == old(View()).InsertAt(x, UpperBound(old(ValuesOf(chain)), x.value))
      ensures Sorted(old(ValuesOf(chain))) ==> Sorted(ValuesOf(chain))
    {
      ghost var k: nat;
      var it: ListItem;
      it, k := FindPlace(x.value);
      ghost var c, values := chain, ValuesOf(chain);
      LinkAfter(it, x, k);
      assert ValuesOf(c) == values;
      if Sorted(values) {
        SortedInsert(values, x.value);
        ValuesSplice(c, chain, k, x);
      }
    }

    /** The link assignments of uxListRemove: the neighbours are linked to one another. */
    method Bypass(x: ListItem, ghost k: nat)
      requires Valid() && k < length && x == chain[k + 1]
      modifies chain`next, chain`previous, x`container
      ensures chain[k].next == chain[k + 2] && chain[k + 2].previous == chain[k] && x.container == null
      ensures x.previous == chain[k]
      ensures forall i {:trigger chain[i].next} ::
        0 <= i < |chain| - 1 && i != k && i != k + 1 ==> chain[i].next == chain[i + 1]
      ensures forall i {:trigger chain[i].previous} ::
        0 < i < |chain| && i != k + 1 && i != k + 2 ==> chain[i].previous == chain[i - 1]
      ensures forall i {:trigger chain[i].container} ::
        0 < i < |chain| - 1 && i != k + 1 ==> chain[i].container == this
    {
      assert x.next == chain[k + 2] && x.previous == chain[k];
      x.next.previous := x.previous;
      x.previous.next := x.next;
      x.container := null;
    }

    /** The splice of uxListRemove. */
    method Unlink(x: ListItem, ghost k: nat)
      requires Valid() && k < length && x == chain[k + 1]
      modifies this, chain`next, chain`previous, x`container
      ensures Valid() && x.container == null && x !in chain
      ensures View() == old(View()).RemoveAt(k)
    {
      Bypass(x, k);
      if index == x {
        index := x.previous;
      }
      length := length - 1;
      chain, cursor := LinkOut(chain, cursor, k, this, maxDelay);
    }

    /** uxListRemove: the item knows its list. */
    static method Remove(x: ListItem) returns (left: nat)
      requires x.container != null && x.container.Valid() && x in x.container.View().items
      modifies x.container, x.container.chain`next, x.container.chain`previous, x`container
      ensures var l := old(x.container);
              && l.Valid() && x.container == null && x !in l.chain
              && l.View() == old(l.View()).Remove(x)
              && left == |l.View().items|
    {
      var l := x.container;
      l.Unlink(x, IndexOf(l.View().items, x));
      left := l.length;
    }

    /** Two lists that share no item, and no marker. */
    ghost predicate Apart(other: List)
      reads this, other
    {
      this != other && forall x :: x in chain ==> x !in other.chain
    }

    lemma ChainMembers()
      requires Shape()
      ensures forall x :: x in chain <==> x == end || x in View().items
    {
      assert View().items == chain[1..|chain| - 1];
      forall x | x in chain ensures x == end || x in View().items {
        var i :| 0 <= i < |chain| && chain[i] == x;
        if 0 < i < |chain| - 1 { assert View().items[i - 1] == x; }
      }
    }

    /** uxListRemove among other lists: they stay as they were. */
    static method RemoveAmong(x: ListItem, ghost others: set<List>)
      requires x.container != null && x.container.Valid() && x in x.container.View().items
      requires forall o :: o in others ==> o.Valid() && x.container.Apart(o)
      modifies x.container, x.container.chain`next, x.container.chain`previous, x`container
      ensures var l := old(x.container);
              && l.Valid() && x.container == null && x !in l.chain
              && l.View() == old(l.View()).Remove(x)
              && forall y :: y in l.chain ==> y in old(l.chain)
      ensures forall o :: o in others ==> o.Valid() && o.View() == old(o.View()) && o.chain == old(o.chain)
    {
      ghost var from: List := x.container;
      ghost var touched := from.chain;
      from.ChainMembers();
      from.ViewWellFormed();
      RemoveMembers(from.View(), x);
      forall o, y | o in others && y in o.chain ensures y !in touched {
        assert from.Apart(o);
      }
      var left := List.Remove(x);
      from.ChainMembers();
      forall o | o in others ensures o.Valid() && o.View() == old(o.View()) && o.chain == old(o.chain) {
        assert old(o.Valid());
        assert o.chain == old(o.chain) && o.length == old(o.length);
        assert forall y :: y in o.chain ==> y.next == old(y.next) && y.previous == old(y.previous);
      }
    }

    /** vListInsert among other lists: they stay as they were. */
    method InsertAmong(x: ListItem, ghost others: set<List>)
      requires Valid() && x !in chain && x.value <= maxDelay
      requires forall o :: o in others ==> o.Valid() && Apart(o) && x !in o.chain
      modifies this`length, this`chain, this`cursor, chain`next, chain`previous, x`next, x`previous, x`container
      ensures Valid() && x.container == this
      ensures View() == old(View()).InsertAt(x, UpperBound(old(ValuesOf(chain)), x.value))
      ensures forall y :: y in chain ==> y == x || y in old(chain)
      ensures forall o :: o in others ==> o.Valid() && o.View() == old(o.View()) && o.chain == old(o.chain)
    {
      ghost var touched := chain + [x];
      ChainMembers();
      ViewWellFormed();
      InsertMembers(View(), x, UpperBound(ValuesOf(chain), x.value));
      forall o, y | o in others && y in o.chain ensures y !in touched {
        assert Apart(o);
      }
      Insert(x);
      ChainMembers();
      assert x in View().items;
      forall o | o in others ensures o.Valid() && o.View() == old(o.View()) && o.chain == old(o.chain) {
        assert old(o.Valid());
        assert o.chain == old(o.chain) && o.length == old(o.length);
        assert forall y :: y in o.chain ==> y.next == old(y.next) && y.previous == old(y.previous);
      }
    }

    /** An item goes from its list to another one, as the scheduler moves them: both rings
        represent what they should, every other ring stays as it was, and still no two of them
        share anything. */
    static method Move(x: ListItem, to: List, ghost others: set<List>)
      requires x.container != null && x.container.Valid() && x in x.container.View().items
      requires to.Valid() && x.container.Apart(to) && x.value <= to.maxDelay
      requires forall o :: o in others ==> o.Valid() && x.container.Apart(o) && to.Apart(o)
      modifies x.container, x.container.chain`next, x.container.chain`previous, x
      modifies to`length, to`chain, to`cursor, to.chain`next, to.chain`previous
      ensures x.container == to && to.Valid() && old(x.container).Valid() && old(x.container).Apart(to)
      ensures old(x.container).View() == old(x.container.View()).Remove(x)
      ensures to.View() == old(to.View()).InsertAt(x, UpperBound(old(ValuesOf(to.chain)), x.value))
      ensures forall o :: o in others ==>
        o.Valid() && o.View() == old(o.View()) && old(x.container).Apart(o) && to.Apart(o)
    {
      ghost var from: List := x.container;
      from.ChainMembers();
      RemoveAmong(x, others + {to});
      assert ValuesOf(to.chain) == old(ValuesOf(to.chain));
      to.InsertAmong(x, others + {from});
    }

    /** listGET_OWNER_OF_NEXT_ENTRY, the item standing for its owner */
    method NextEntry() returns (x: ListItem)
      requires Valid() && length > 0
      modifies this`index, this`cursor
      ensures Valid() && View() == old(View()).Advance() && View().At(x)
    {
      index, cursor := index.next, cursor + 1;
      if index == end {
        index, cursor := index.next, 1;
      }
      x := index;
    }

    /** listGET_OWNER_OF_HEAD_ENTRY */
    method HeadEntry() returns (x: ListItem)
      requires Valid() && length > 0
      ensures x == View().items[0]
    {
      x := end.next;
    }
  }
}
