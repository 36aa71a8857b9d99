/** Sums over a sequence, for counting the threads that are in a given place. */
module Sums {

  function Sum<T>(s: seq<T>, f: T -> int): int {
    if s == [] then 0 else Sum(s[..|s| - 1], f) + f(s[|s| - 1])
  }

  lemma {:induction false} SumUpdate<T>(s: seq<T>, f: T -> int, i: nat, x: T)
    requires i < |s|
    ensures Sum(s[i := x], f) == Sum(s, f) - f(s[i]) + f(x)
  {
    var last := |s| - 1;
    if i == last {
      assert s[i := x][..last] == s[..last];
    } else {
      assert s[i := x][..last] == s[..last][i := x];
      SumUpdate(s[..last], f, i, x);
    }
  }

  /** Bounds on the terms bound the sum, and a sum at a bound pins every term. */
  lemma {:induction false} SumBetween<T(!new)>(s: seq<T>, f: T -> int, hi: int)
    requires forall x :: 0 <= f(x) <= hi
    ensures 0 <= Sum(s, f) <= hi * |s|
    ensures Sum(s, f) == 0 ==> forall i :: 0 <= i < |s| ==> f(s[i]) == 0
    ensures Sum(s, f) == hi * |s| ==> forall i :: 0 <= i < |s| ==> f(s[i]) == hi
  {
    if s != [] {
      SumBetween(s[..|s| - 1], f, hi);
      assert hi * |s| == hi * (|s| - 1) + hi;
    }
  }

  lemma {:induction false} SumConstant<T>(s: seq<T>, f: T -> int, v: int)
    requires forall i :: 0 <= i < |s| ==> f(s[i]) == v
    ensures Sum(s, f) == v * |s|
  {
    if s != [] {
      SumConstant(s[..|s| - 1], f, v);
      assert v * |s| == v * (|s| - 1) + v;
    }
  }

  lemma {:induction false} SumSame<T>(s: seq<T>, f: T -> int, g: T -> int)
    requires forall i :: 0 <= i < |s| ==> f(s[i]) == g(s[i])
    ensures Sum(s, f) == Sum(s, g)
  {
    if s != [] { SumSame(s[..|s| - 1], f, g); }
  }

  lemma {:induction false} SumBelow<T(!new)>(s: seq<T>, f: T -> int, g: T -> int)
    requires forall x :: f(x) <= g(x)
    ensures Sum(s, f) <= Sum(s, g)
  {
    if s != [] { SumBelow(s[..|s| - 1], f, g); }
  }

  /** One term is at most the sum, and two are. */
  lemma {:induction false} SumCovers<T(!new)>(s: seq<T>, f: T -> int, i: nat, j: nat)
    requires i <= j < |s| && forall x :: 0 <= f(x) <= 1
    ensures Sum(s, f) >= f(s[j]) + if i < j then f(s[i]) else 0
  {
    SumBetween(s[..|s| - 1], f, 1);
    if j < |s| - 1 {
      SumCovers(s[..|s| - 1], f, i, j);
    } else if i < j {
      SumCovers(s[..|s| - 1], f, i, i);
    }
  }
}
