/** Sequences: joining, order, and searching a sorted one. */
module Sequences {

  ghost function Flatten<T>(ss: seq<seq<T>>): seq<T> {
    if ss == [] then [] else ss[0] + Flatten(ss[1..])
  }

  lemma FlattenNothing<T>()
    ensures Flatten<T>([]) == []
  {
  }

  lemma {:induction false} FlattenAppend<T>(ss: seq<seq<T>>, s: seq<T>)
    ensures Flatten(ss + [s]) == Flatten(ss) + s
  {
    if ss == [] {
      assert [s][1..] == [];
    } else {
      assert (ss + [s])[1..] == ss[1..] + [s];
      FlattenAppend(ss[1..], s);
    }
  }

  ghost predicate NoRepeats<T(!new)>(s: seq<T>) {
    forall i, j :: 0 <= i < j < |s| ==> s[i] != s[j]
  }

  /** a is b without some of its elements. */
  ghost predicate Subsequence<T>(a: seq<T>, b: seq<T>) {
    a == [] ||
    (b != [] && (Subsequence(a, b[..|b| - 1]) || (a[|a| - 1] == b[|b| - 1] && Subsequence(a[..|a| - 1], b[..|b| - 1]))))
  }

  ghost predicate Increasing(s: seq<nat>) {
    forall i, j :: 0 <= i < j < |s| ==> s[i] < s[j]
  }

  ghost predicate Sorted(s: seq<nat>) {
    forall i, j :: 0 <= i < j < |s| ==> s[i] <= s[j]
  }

  /** std::lower_bound on s[lo..hi]: the first position whose element is not below x. */
  method LowerBound(s: seq<nat>, lo: nat, hi: nat, x: nat) returns (p: nat)
    requires Sorted(s) && lo <= hi <= |s|
    ensures lo <= p <= hi
    ensures forall i :: lo <= i < p ==> s[i] < x
    ensures forall i :: p <= i < hi ==> x <= s[i]
  {
    var l, h := lo, hi;
    while l < h
      invariant lo <= l <= h <= hi
      invariant forall i :: lo <= i < l ==> s[i] < x
      invariant forall i :: h <= i < hi ==> x <= s[i]
    {
      var mid := (l + h) / 2;
      if s[mid] < x {
        l := mid + 1;
      } else {
        h := mid;
      }
    }
    p := l;
  }
}
