/** A ring of a fixed number of cells with a count, as the bounded buffers keep it. */
module Rings {
  import opened Circular

  /** The queue that count cells from head on hold, oldest first. */
  function Window<T>(cells: seq<T>, head: int, count: int): (s: seq<T>)
    requires 0 <= head < |cells| && 0 <= count <= |cells|
    ensures |s| == count
    decreases count
  {
    if count == 0 then [] else [cells[head]] + Window(cells, Advance(head, 1, |cells|), count - 1)
  }

  /** Writing the cell after the last one appends to the queue. */
  lemma {:induction false} WindowStore<T>(cells: seq<T>, head: int, count: int, x: T)
    requires 0 <= head < |cells| && 0 <= count < |cells|
    ensures var tail := Advance(head, count, |cells|);
            0 <= tail < |cells| && Window(cells[tail := x], head, count + 1) == Window(cells, head, count) + [x]
    decreases count
  {
    var tail := Advance(head, count, |cells|);
    if count > 0 {
      WindowStore(cells, Advance(head, 1, |cells|), count - 1, x);
    } else {
      assert Window(cells[tail := x], Advance(head, 1, |cells|), 0) == [];
    }
  }

  lemma Wraps(i: int, n: int)
    requires 0 <= i < n
    ensures (i + 1) % n == Advance(i, 1, n)
  {
  }

  class Ring<T> {
    const data: array<T>
    var head: int
    var tail: int
    var count: int

    ghost predicate Valid()
      reads this
    {
      0 <= head < data.Length && 0 <= count <= data.Length && tail == Advance(head, count, data.Length)
    }

    /** The queue the ring stands for, oldest first. */
    ghost function Contents(): (s: seq<T>)
      reads this, data
      requires Valid()
      ensures |s| == count
    {
      Window(data[..], head, count)
    }

    /** rb_init, queue_init */
    constructor (capacity: nat, blank: T)
      requires capacity > 0
      ensures Valid() && fresh(data) && data.Length == capacity && Contents() == []
    {
      data := new T[capacity](_ => blank);
      head, tail, count := 0, 0, 0;
    }

    /** The body of a push, for a caller that knows there is room. */
    method Store(x: T)
      requires Valid() && count < data.Length
      modifies this`tail, this`count, data
      ensures Valid() && Contents() == old(Contents()) + [x]
    {
      WindowStore(data[..], head, count, x);
      Wraps(tail, data.Length);
      data[tail] := x;
      assert data[..] == old(data[..])[old(tail) := x];
      tail := (tail + 1) % data.Length;
      count := count + 1;
    }

    /** The body of a pop, for a caller that knows there is an item. */
    method Fetch() returns (x: T)
      requires Valid() && count > 0
      modifies this`head, this`count
      ensures Valid() && [x] + Contents() == old(Contents())
    {
      Wraps(head, data.Length);
      x := data[head];
      head := (head + 1) % data.Length;
      count := count - 1;
    }

    /** rb_push: -1 and no change when full. */
    method Push(x: T) returns (status: int)
      requires Valid()
      modifies this`tail, this`count, data
      ensures Valid()
      ensures Contents() == if status == 0 then old(Contents()) + [x] else old(Contents())
      ensures status == if old(|Contents()|) < data.Length then 0 else -1
    {
      if count == data.Length { return -1; }
      Store(x);
      status := 0;
    }

    /** rb_pop: -1 and no change when empty. */
    method Pop(blank: T) returns (status: int, x: T)
      requires Valid()
      modifies this`head, this`count
      ensures Valid()
      ensures if status == 0 then [x] + Contents() == old(Contents()) else Contents() == old(Contents())
      ensures status == if old(|Contents()|) > 0 then 0 else -1
    {
      if count == 0 { return -1, blank; }
      x := Fetch();
      status := 0;
    }
  }
}
