/**
 What the list sort of the hash table computes: a bottom-up merge sort on
 sequences, and the proof that it is the one stable sorting of its input.
 */
module MergeSort {

  /** On the elements of `dom`, "compares at most 0" is total and transitive. */
  ghost predicate Preorder<T>(dom: set<T>, cmp: (T, T) -> int) {
    && (forall a, b | a in dom && b in dom :: cmp(a, b) <= 0 || cmp(b, a) <= 0)
    && (forall a, b, c | a in dom && b in dom && c in dom :: cmp(a, b) <= 0 && cmp(b, c) <= 0 ==> cmp(a, c) <= 0)
  }

  ghost predicate Within<T>(s: seq<T>, dom: set<T>) {
    forall i | 0 <= i < |s| :: s[i] in dom
  }

  function Merge<T>(p: seq<T>, q: seq<T>, cmp: (T, T) -> int): (r: seq<T>)
    ensures |r| == |p| + |q|
  {
    if p == [] then q
    else if q == [] then p
    else if cmp(p[0], q[0]) <= 0 then [p[0]] + Merge(p[1..], q, cmp)
    else [q[0]] + Merge(p, q[1..], cmp)
  }

  function Min(a: nat, b: nat): nat { if a < b then a else b }

  /** One pass: neighbouring runs of length `k` are merged two by two. */
  function Pass<T>(s: seq<T>, k: nat, cmp: (T, T) -> int): (r: seq<T>)
    requires k > 0
    ensures |r| == |s|
  {
    if s == [] then []
    else
      var m, e := Min(k, |s|), Min(2 * k, |s|);
      Merge(s[..m], s[m..e], cmp) + Pass(s[e..], k, cmp)
  }

  /** Passes with doubling run length, until one pass merges everything at once. */
  function SortFrom<T>(s: seq<T>, k: nat, cmp: (T, T) -> int): seq<T>
    requires k > 0
    decreases |s| - k
  {
    if |s| <= 2 * k then Pass(s, k, cmp) else SortFrom(Pass(s, k, cmp), 2 * k, cmp)
  }

  ghost predicate Sorted<T>(s: seq<T>, cmp: (T, T) -> int) {
    forall i, j | 0 <= i < j < |s| :: cmp(s[i], s[j]) <= 0
  }

  /** Every aligned run of length `k` is sorted. */
  ghost predicate RunsSorted<T>(s: seq<T>, k: nat, cmp: (T, T) -> int)
    requires k > 0
    decreases |s|
  {
    s == [] || (Sorted(s[..Min(k, |s|)], cmp) && RunsSorted(s[Min(k, |s|)..], k, cmp))
  }

  predicate Same<T>(x: T, y: T, cmp: (T, T) -> int) {
    cmp(x, y) <= 0 && cmp(y, x) <= 0
  }

  /** The elements that compare equal to `x`, in order. */
  function Class<T>(s: seq<T>, x: T, cmp: (T, T) -> int): seq<T> {
    if s == [] then []
    else Own(s[0], x, cmp) + Class(s[1..], x, cmp)
  }

  function Own<T>(a: T, x: T, cmp: (T, T) -> int): seq<T> {
    if Same(x, a, cmp) then [a] else []
  }

  /** Equal elements keep their order, and none is lost or invented. */
  ghost predicate Stable<T>(s: seq<T>, r: seq<T>, cmp: (T, T) -> int, dom: set<T>) {
    forall x | x in dom :: Class(s, x, cmp) == Class(r, x, cmp)
  }

  lemma ClassCons<T>(a: T, s: seq<T>, x: T, cmp: (T, T) -> int)
    ensures Class([a] + s, x, cmp) == Own(a, x, cmp) + Class(s, x, cmp)
  {
    assert ([a] + s)[1..] == s;
  }

  lemma {:induction false} ClassAppend<T>(s: seq<T>, t: seq<T>, x: T, cmp: (T, T) -> int)
    ensures Class(s + t, x, cmp) == Class(s, x, cmp) + Class(t, x, cmp)
  {
    if s == [] {
      assert s + t == t;
    } else {
      ClassAppend(s[1..], t, x, cmp);
      AppendStep(s, t, x, cmp);
    }
  }

  lemma AppendStep<T>(s: seq<T>, t: seq<T>, x: T, cmp: (T, T) -> int)
    requires s != [] && Class(s[1..] + t, x, cmp) == Class(s[1..], x, cmp) + Class(t, x, cmp)
    ensures Class(s + t, x, cmp) == Class(s, x, cmp) + Class(t, x, cmp)
  {
    ClassStep(s, x, cmp);
    ConsAppend(s, t);
    hide *;
    ClassCons(s[0], s[1..] + t, x, cmp);
    Assoc(Own(s[0], x, cmp), Class(s[1..], x, cmp), Class(t, x, cmp));
  }

  lemma ConsAppend<T>(s: seq<T>, t: seq<T>)
    requires s != []
    ensures s + t == [s[0]] + (s[1..] + t)
  {
  }

  lemma ClassStep<T>(s: seq<T>, x: T, cmp: (T, T) -> int)
    requires s != []
    ensures Class(s, x, cmp) == Own(s[0], x, cmp) + Class(s[1..], x, cmp)
  {
  }

  lemma Assoc<T>(a: seq<T>, b: seq<T>, c: seq<T>)
    ensures (a + b) + c == a + (b + c)
  {
  }

  lemma {:induction false} ClassEmpty<T>(s: seq<T>, x: T, cmp: (T, T) -> int)
    requires forall i | 0 <= i < |s| :: !Same(x, s[i], cmp)
    ensures Class(s, x, cmp) == []
  {
    if s != [] { ClassEmpty(s[1..], x, cmp); }
  }

  lemma MultisetCons<T>(s: seq<T>)
    requires s != []
    ensures multiset(s) == multiset{s[0]} + multiset(s[1..])
  {
    assert s == [s[0]] + s[1..];
  }

  lemma {:induction false} MergeMembers<T>(p: seq<T>, q: seq<T>, cmp: (T, T) -> int)
    ensures multiset(Merge(p, q, cmp)) == multiset(p) + multiset(q)
  {
    if p != [] && q != [] {
      if cmp(p[0], q[0]) <= 0 {
        MergeMembers(p[1..], q, cmp);
        MultisetCons(p);
      } else {
        MergeMembers(p, q[1..], cmp);
        MultisetCons(q);
      }
    }
  }

  lemma MergeFrom<T>(p: seq<T>, q: seq<T>, cmp: (T, T) -> int, i: nat)
    requires i < |p| + |q|
    ensures Merge(p, q, cmp)[i] in p || Merge(p, q, cmp)[i] in q
  {
    MergeMembers(p, q, cmp);
    assert Merge(p, q, cmp)[i] in multiset(Merge(p, q, cmp));
  }

  lemma SortedCons<T>(a: T, s: seq<T>, cmp: (T, T) -> int)
    requires Sorted(s, cmp) && forall i | 0 <= i < |s| :: cmp(a, s[i]) <= 0
    ensures Sorted([a] + s, cmp)
  {
  }

  lemma {:induction false} MergeSorted<T>(p: seq<T>, q: seq<T>, cmp: (T, T) -> int, dom: set<T>)
    requires Preorder(dom, cmp) && Within(p, dom) && Within(q, dom) && Sorted(p, cmp) && Sorted(q, cmp)
    ensures Sorted(Merge(p, q, cmp), cmp)
  {
    if p != [] && q != [] {
      var first := cmp(p[0], q[0]) <= 0;
      var a := if first then p[0] else q[0];
      var p', q' := if first then p[1..] else p, if first then q else q[1..];
      MergeSorted(p', q', cmp, dom);
      forall i | 0 <= i < |p'| + |q'|
        ensures cmp(a, Merge(p', q', cmp)[i]) <= 0
      {
        MergeFrom(p', q', cmp, i);
      }
      SortedCons(a, Merge(p', q', cmp), cmp);
    }
  }

  /** If `b` goes before all of the sorted `p`, no element of `p` compares equal to it. */
  lemma NoneSame<T>(p: seq<T>, b: T, x: T, cmp: (T, T) -> int, dom: set<T>)
    requires Preorder(dom, cmp) && Within(p, dom) && Sorted(p, cmp) && x in dom && b in dom
    requires p != [] && cmp(p[0], b) > 0 && Same(x, b, cmp)
    ensures Class(p, x, cmp) == []
  {
    forall i | 0 <= i < |p|
      ensures !Same(x, p[i], cmp)
    {
      assert i == 0 || cmp(p[0], p[i]) <= 0;
      assert p[0] in dom && p[i] in dom;
    }
    ClassEmpty(p, x, cmp);
  }

  lemma StableP<T>(p: seq<T>, q: seq<T>, x: T, cmp: (T, T) -> int)
    requires p != [] && q != [] && cmp(p[0], q[0]) <= 0
    requires Class(Merge(p[1..], q, cmp), x, cmp) == Class(p[1..], x, cmp) + Class(q, x, cmp)
    ensures Class(Merge(p, q, cmp), x, cmp) == Class(p, x, cmp) + Class(q, x, cmp)
  {
    var m := Merge(p[1..], q, cmp);
    assert Merge(p, q, cmp) == [p[0]] + m;
    hide Merge;
    ClassStep(p, x, cmp);
    hide Class, Own;
    ClassCons(p[0], m, x, cmp);
    Assoc(Own(p[0], x, cmp), Class(p[1..], x, cmp), Class(q, x, cmp));
  }

  lemma StableQ<T>(p: seq<T>, q: seq<T>, x: T, cmp: (T, T) -> int)
    requires p != [] && q != [] && cmp(p[0], q[0]) > 0
    requires Class(Merge(p, q[1..], cmp), x, cmp) == Class(p, x, cmp) + Class(q[1..], x, cmp)
    requires Same(x, q[0], cmp) ==> Class(p, x, cmp) == []
    ensures Class(Merge(p, q, cmp), x, cmp) == Class(p, x, cmp) + Class(q, x, cmp)
  {
    var m := Merge(p, q[1..], cmp);
    assert Merge(p, q, cmp) == [q[0]] + m;
    hide Merge;
    ClassStep(q, x, cmp);
    hide Class;
    ClassCons(q[0], m, x, cmp);
    Swap(Own(q[0], x, cmp), Class(p, x, cmp), Class(q[1..], x, cmp));
  }

  lemma Swap<T>(a: seq<T>, b: seq<T>, c: seq<T>)
    requires a == [] || b == []
    ensures a + (b + c) == b + (a + c)
  {
  }

  lemma {:induction false} MergeStable<T>(p: seq<T>, q: seq<T>, x: T, cmp: (T, T) -> int, dom: set<T>)
    requires Preorder(dom, cmp) && Within(p, dom) && Within(q, dom) && x in dom && Sorted(p, cmp)
    ensures Class(Merge(p, q, cmp), x, cmp) == Class(p, x, cmp) + Class(q, x, cmp)
  {
    if p == [] {
      assert Class(p, x, cmp) == [];
    } else if q == [] {
      assert Class(q, x, cmp) == [];
    } else {
      if cmp(p[0], q[0]) <= 0 {
        MergeStable(p[1..], q, x, cmp, dom);
        hide Merge, Class;
        StableP(p, q, x, cmp);
      } else {
        MergeStable(p, q[1..], x, cmp, dom);
        hide Merge, Class;
        if Same(x, q[0], cmp) {
          NoneSame(p, q[0], x, cmp, dom);
        }
        StableQ(p, q, x, cmp);
      }
    }
  }

  /** The next two runs, and what follows them. */
  lemma SplitRuns<T>(s: seq<T>, k: nat, cmp: (T, T) -> int) returns (p: seq<T>, q: seq<T>, rest: seq<T>)
    requires k > 0 && s != [] && RunsSorted(s, k, cmp)
    ensures s == p + (q + rest) && Sorted(p, cmp) && Sorted(q, cmp) && RunsSorted(rest, k, cmp)
    ensures Pass(s, k, cmp) == Merge(p, q, cmp) + Pass(rest, k, cmp)
    ensures |p| + |q| == Min(2 * k, |s|) && |rest| < |s|
  {
    hide Merge, Sorted, RunsSorted;
    var m, e := Min(k, |s|), Min(2 * k, |s|);
    p, q, rest := s[..m], s[m..e], s[e..];
    SplitTwice(s, m, e);
    FirstRun(s, k, cmp);
    if s[m..] == [] {
      NoRuns(k, cmp);
      assert q == [] && rest == [];
    } else {
      FirstRun(s[m..], k, cmp);
      assert Min(k, |s[m..]|) == e - m;
    }
  }

  lemma SplitTwice<T>(s: seq<T>, m: nat, e: nat)
    requires m <= e <= |s|
    ensures s == s[..m] + (s[m..e] + s[e..]) && s[m..][..e - m] == s[m..e] && s[m..][e - m..] == s[e..]
  {
  }

  lemma FirstRun<T>(s: seq<T>, k: nat, cmp: (T, T) -> int)
    requires k > 0 && s != [] && RunsSorted(s, k, cmp)
    ensures Sorted(s[..Min(k, |s|)], cmp) && RunsSorted(s[Min(k, |s|)..], k, cmp)
  {
  }

  lemma NoRuns<T>(k: nat, cmp: (T, T) -> int)
    requires k > 0
    ensures Sorted<T>([], cmp) && RunsSorted<T>([], k, cmp)
  {
  }

  lemma WithinParts<T>(p: seq<T>, q: seq<T>, rest: seq<T>, dom: set<T>)
    requires Within(p + (q + rest), dom)
    ensures Within(p, dom) && Within(q, dom) && Within(rest, dom)
  {
    var t := q + rest;
    assert forall i | 0 <= i < |p| :: p[i] == (p + t)[i];
    assert forall i | 0 <= i < |t| :: t[i] == (p + t)[|p| + i];
    assert forall i | 0 <= i < |q| :: q[i] == t[i];
    assert forall i | 0 <= i < |rest| :: rest[i] == t[|q| + i];
  }

  lemma WithinSame<T>(s: seq<T>, r: seq<T>, dom: set<T>)
    requires Within(s, dom) && multiset(r) == multiset(s)
    ensures Within(r, dom)
  {
    forall i | 0 <= i < |r|
      ensures r[i] in dom
    {
      assert r[i] in multiset(r);
      assert r[i] in s;
    }
  }

  lemma JoinRuns<T>(r: seq<T>, rest: seq<T>, k: nat, cmp: (T, T) -> int)
    requires k > 0 && Sorted(r, cmp) && RunsSorted(rest, k, cmp)
    requires r != [] && |r| == Min(k, |r| + |rest|)
    ensures RunsSorted(r + rest, k, cmp)
  {
    var s := r + rest;
    assert s[..|r|] == r && s[|r|..] == rest;
  }

  lemma {:induction false} PassMembers<T>(s: seq<T>, k: nat, cmp: (T, T) -> int)
    requires k > 0
    ensures multiset(Pass(s, k, cmp)) == multiset(s)
    decreases |s|
  {
    if s != [] {
      var m, e := Min(k, |s|), Min(2 * k, |s|);
      var r := Pass(s[e..], k, cmp);
      assert Pass(s, k, cmp) == Merge(s[..m], s[m..e], cmp) + r;
      MergeMembers(s[..m], s[m..e], cmp);
      PassMembers(s[e..], k, cmp);
      hide Merge, Pass;
      assert s == s[..m] + s[m..e] + s[e..];
    }
  }

  lemma {:induction false} PassSorted<T>(s: seq<T>, k: nat, cmp: (T, T) -> int, dom: set<T>)
    requires k > 0 && Preorder(dom, cmp) && Within(s, dom) && RunsSorted(s, k, cmp)
    ensures RunsSorted(Pass(s, k, cmp), 2 * k, cmp)
    decreases |s|
  {
    if s != [] {
      var p, q, rest := SplitRuns(s, k, cmp);
      WithinParts(p, q, rest, dom);
      hide Pass, Merge, RunsSorted, Sorted, Within, Preorder;
      MergeSorted(p, q, cmp, dom);
      PassSorted(rest, k, cmp, dom);
      JoinRuns(Merge(p, q, cmp), Pass(rest, k, cmp), 2 * k, cmp);
    }
  }

  lemma {:induction false} PassStable<T>(s: seq<T>, k: nat, x: T, cmp: (T, T) -> int, dom: set<T>)
    requires k > 0 && Preorder(dom, cmp) && Within(s, dom) && x in dom && RunsSorted(s, k, cmp)
    ensures Class(Pass(s, k, cmp), x, cmp) == Class(s, x, cmp)
    decreases |s|
  {
    if s != [] {
      var p, q, rest := SplitRuns(s, k, cmp);
      WithinParts(p, q, rest, dom);
      hide Class, Pass, Merge, RunsSorted, Sorted, Within, Preorder;
      MergeStable(p, q, x, cmp, dom);
      PassStable(rest, k, x, cmp, dom);
      ClassAppend(Merge(p, q, cmp), Pass(rest, k, cmp), x, cmp);
      ClassAppend(q, rest, x, cmp);
      ClassAppend(p, q + rest, x, cmp);
      Assoc(Class(p, x, cmp), Class(q, x, cmp), Class(rest, x, cmp));
    }
  }

  lemma {:induction false} SingleRuns<T>(s: seq<T>, cmp: (T, T) -> int)
    ensures RunsSorted(s, 1, cmp)
    decreases |s|
  {
    if s != [] { SingleRuns(s[1..], cmp); }
  }

  lemma {:induction false} SortFromCorrect<T>(s: seq<T>, k: nat, cmp: (T, T) -> int, dom: set<T>)
    requires k > 0 && Preorder(dom, cmp) && Within(s, dom) && RunsSorted(s, k, cmp)
    ensures Sorted(SortFrom(s, k, cmp), cmp) && Stable(s, SortFrom(s, k, cmp), cmp, dom)
    decreases |s| - k
  {
    var r := Pass(s, k, cmp);
    hide Pass, Class, Preorder;
    PassSorted(s, k, cmp, dom);
    forall x | x in dom ensures Class(s, x, cmp) == Class(r, x, cmp) { PassStable(s, k, x, cmp, dom); }
    if |s| <= 2 * k {
      assert r == [] || r[..Min(2 * k, |r|)] == r;
    } else {
      PassMembers(s, k, cmp);
      WithinSame(s, r, dom);
      SortFromCorrect(r, 2 * k, cmp, dom);
    }
  }

  /** The bottom-up merge sort sorts, stably. */
  lemma SortCorrect<T>(s: seq<T>, cmp: (T, T) -> int, dom: set<T>)
    requires Preorder(dom, cmp) && Within(s, dom)
    ensures Sorted(SortFrom(s, 1, cmp), cmp) && Stable(s, SortFrom(s, 1, cmp), cmp, dom)
  {
    SingleRuns(s, cmp);
    SortFromCorrect(s, 1, cmp, dom);
  }

  lemma {:induction false} ClassHead<T>(s: seq<T>, i: nat, x: T, cmp: (T, T) -> int)
    requires i < |s| && Same(x, s[i], cmp)
    ensures Class(s, x, cmp) != []
  {
    if i > 0 { ClassHead(s[1..], i - 1, x, cmp); }
  }

  lemma {:induction false} ClassMember<T>(s: seq<T>, x: T, cmp: (T, T) -> int)
    requires Class(s, x, cmp) != []
    ensures exists i :: 0 <= i < |s| && Same(x, s[i], cmp) && Class(s, x, cmp)[0] == s[i]
  {
    if Same(x, s[0], cmp) {
      assert Class(s, x, cmp)[0] == s[0];
    } else {
      ClassMember(s[1..], x, cmp);
      var i :| 0 <= i < |s[1..]| && Same(x, s[1..][i], cmp) && Class(s[1..], x, cmp)[0] == s[1..][i];
      assert s[i + 1] == s[1..][i];
    }
  }

  /** Sorting stably leaves no choice: two stable sortings of one sequence are equal. */
  lemma {:induction false} StableSortUnique<T>(r: seq<T>, t: seq<T>, cmp: (T, T) -> int, dom: set<T>)
    requires Preorder(dom, cmp) && Within(r, dom) && Within(t, dom)
    requires Sorted(r, cmp) && Sorted(t, cmp) && Stable(r, t, cmp, dom)
    ensures r == t
  {
    if r != [] {
      SameFirst(r, t, cmp, dom);
      forall x | x in dom
        ensures Class(r[1..], x, cmp) == Class(t[1..], x, cmp)
      {
        SameRest(r, t, x, cmp);
      }
      StableSortUnique(r[1..], t[1..], cmp, dom);
    } else if t != [] {
      NonEmptyClass(t, cmp, dom);
      assert false;
    }
  }

  lemma NonEmptyClass<T>(t: seq<T>, cmp: (T, T) -> int, dom: set<T>)
    requires Preorder(dom, cmp) && Within(t, dom) && t != []
    ensures t[0] in dom && Class(t, t[0], cmp) != []
  {
    ClassHead(t, 0, t[0], cmp);
  }

  lemma SameRest<T>(r: seq<T>, t: seq<T>, x: T, cmp: (T, T) -> int)
    requires r != [] && t != [] && r[0] == t[0] && Class(r, x, cmp) == Class(t, x, cmp)
    ensures Class(r[1..], x, cmp) == Class(t[1..], x, cmp)
  {
    var own := Own(r[0], x, cmp);
    assert Class(r, x, cmp)[|own|..] == Class(r[1..], x, cmp);
    assert Class(t, x, cmp)[|own|..] == Class(t[1..], x, cmp);
  }

  lemma SameFirst<T>(r: seq<T>, t: seq<T>, cmp: (T, T) -> int, dom: set<T>)
    requires Preorder(dom, cmp) && Within(r, dom) && Within(t, dom)
    requires Sorted(r, cmp) && Sorted(t, cmp) && Stable(r, t, cmp, dom) && r != []
    ensures t != [] && r[0] == t[0]
  {
    assert Class(r, r[0], cmp) == Class(t, r[0], cmp);
    ClassHead(r, 0, r[0], cmp);
    ClassMember(t, r[0], cmp);
    var i :| 0 <= i < |t| && Same(r[0], t[i], cmp) && Class(t, r[0], cmp)[0] == t[i];
    assert Class(r, t[0], cmp) == Class(t, t[0], cmp);
    ClassHead(t, 0, t[0], cmp);
    ClassMember(r, t[0], cmp);
    var j :| 0 <= j < |r| && Same(t[0], r[j], cmp) && Class(r, t[0], cmp)[0] == r[j];
    assert cmp(t[0], t[i]) <= 0 && cmp(r[0], r[j]) <= 0;
    assert Same(r[0], t[0], cmp);
    assert Class(r, r[0], cmp)[0] == r[0];
    assert Class(t, r[0], cmp)[0] == t[0];
  }

  lemma {:induction false} SortMembers<T>(s: seq<T>, k: nat, cmp: (T, T) -> int)
    requires k > 0
    ensures multiset(SortFrom(s, k, cmp)) == multiset(s) && |SortFrom(s, k, cmp)| == |s|
    decreases |s| - k
  {
    PassMembers(s, k, cmp);
    if |s| > 2 * k {
      SortMembers(Pass(s, k, cmp), 2 * k, cmp);
    }
  }
}
