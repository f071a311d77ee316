/** Where something with a given name first stands in a sequence, and what is left without it. */
module Sequences {
  /** The first position whose element has the name `x`, or the length. */
  function First<T>(s: seq<T>, name: T -> string, x: string): (i: nat)
    ensures i <= |s| && (forall j | 0 <= j < i :: name(s[j]) != x) && (i < |s| ==> name(s[i]) == x)
  {
    if s == [] || name(s[0]) == x then 0 else 1 + First(s[1..], name, x)
  }

  /** `s` without the element at `i`. */
  function Drop<T>(s: seq<T>, i: nat): seq<T>
    requires i < |s|
  {
    s[..i] + s[i + 1..]
  }

  /** The elements that satisfy `keep`, in their order. */
  function Filter<T>(s: seq<T>, keep: T -> bool): seq<T> {
    if s == [] then [] else (if keep(s[0]) then [s[0]] else []) + Filter(s[1..], keep)
  }

  lemma {:induction false} FilterKeeps<T>(s: seq<T>, keep: T -> bool)
    ensures forall x :: x in Filter(s, keep) <==> x in s && keep(x)
  {
    if s != [] {
      FilterKeeps(s[1..], keep);
      assert s == [s[0]] + s[1..];
    }
  }

  lemma {:induction false} FilterAll<T>(s: seq<T>, keep: T -> bool)
    requires forall i | 0 <= i < |s| :: keep(s[i])
    ensures Filter(s, keep) == s
  {
    if s != [] { FilterAll(s[1..], keep); }
  }

  lemma {:induction false} FilterDrop<T>(s: seq<T>, keep: T -> bool, k: nat)
    requires k < |s| && !keep(s[k]) && forall i | 0 <= i < |s| && i != k :: keep(s[i])
    ensures Filter(s, keep) == Drop(s, k)
  {
    if k == 0 {
      FilterAll(s[1..], keep);
      assert Drop(s, 0) == s[1..];
    } else {
      FilterDrop(s[1..], keep, k - 1);
      assert Drop(s, k) == [s[0]] + Drop(s[1..], k - 1);
    }
  }
}
