/** Sequences without repetition, and taking an element out of one. */
module Sequences {
  predicate Distinct<T(==)>(s: seq<T>) {
    forall i, j | 0 <= i < j < |s| :: s[i] != s[j]
  }

  /** Where x first occurs, or the length of s. */
  function IndexOf<T(==)>(s: seq<T>, x: T): (i: nat)
    ensures i <= |s| && (i < |s| ==> s[i] == x)
    ensures x in s <==> i < |s|
    ensures forall j | 0 <= j < i :: s[j] != x
  {
    if s == [] || s[0] == x then 0 else 1 + IndexOf(s[1..], x)
  }

  function RemovedAt<T>(s: seq<T>, i: nat): seq<T>
    requires i < |s|
  {
    s[..i] + s[i + 1..]
  }

  /** Without the first occurrence of x, if there is one. */
  function Without<T(==)>(s: seq<T>, x: T): seq<T> {
    var i := IndexOf(s, x);
    if i < |s| then RemovedAt(s, i) else s
  }

  /** Taking an element out leaves all others where they were. */
  lemma WithoutParts<T>(front: seq<T>, x: T, back: seq<T>)
    requires x !in front
    ensures Without(front + [x] + back, x) == front + back && Without(front, x) == front
  {
    var s := front + [x] + back;
    assert s[|front|] == x && forall i | 0 <= i < |front| :: s[i] == front[i];
    assert IndexOf(s, x) == |front|;
  }
}
