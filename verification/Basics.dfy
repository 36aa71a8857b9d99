/** Small notions that several models share. */
module Basics {

  datatype Option<T> = None | Some(value: T) {
    function GetOr(default: T): T {
      if Some? then value else default
    }
  }

  function Least(a: int, b: int): int { if a < b then a else b }

  /** No element occurs twice; Different says the same of places. */
  predicate Distinct<T(==)>(s: seq<T>) {
    s == [] || (s[0] !in s[1..] && Distinct(s[1..]))
  }

  ghost predicate Different<T>(s: seq<T>) {
    forall i, j :: 0 <= i < j < |s| ==> s[i] != s[j]
  }

  lemma {:induction false} DistinctIsDifferent<T>(s: seq<T>)
    ensures Distinct(s) <==> Different(s)
  {
    if s != [] {
      DistinctIsDifferent(s[1..]);
      if Distinct(s) {
        assert forall j :: 0 < j < |s| ==> s[j] == s[1..][j - 1];
      } else if s[0] in s[1..] {
        var j :| 0 <= j < |s| - 1 && s[1..][j] == s[0];
        assert s[j + 1] == s[0];
      } else {
        assert forall j :: 0 <= j < |s| - 1 ==> s[1..][j] == s[j + 1];
      }
    }
  }

  lemma FirstIsMember<T>(s: seq<T>)
    ensures s == [] || s[0] in s
  {
  }
}
