/**
 The in-place bottom-up merge sort on the application-order list. Only `prev`
 and `next` are written; the list that results is the one MergeSort computes.
 */
module ListSort {
  import opened Elements
  import opened MergeSort

  /** `s` from index `i` on hangs together by `next`, starting at `h`; where its last element points is left open. */
  ghost predicate Run<V>(h: Elem?<V>, s: seq<Elem<V>>, i: nat)
    reads s`next
  {
    && i <= |s| && (i < |s| ==> h == s[i])
    && forall t {:trigger s[t].next} :: i <= t < |s| - 1 ==> s[t].next == s[t + 1]
  }

  /** A run that ends the list. */
  ghost predicate Ending<V>(h: Elem?<V>, s: seq<Elem<V>>, i: nat)
    reads s`next
  {
    && i <= |s| && h == (if i < |s| then s[i] else null)
    && forall t {:trigger s[t].next} :: i <= t < |s| ==> s[t].next == if t == |s| - 1 then null else s[t + 1]
  }

  /** What has been emitted so far: all links but the last `next`. */
  ghost predicate Emitted<V>(list: Elem?<V>, tail: Elem?<V>, out: seq<Elem<V>>)
    reads out`prev, out`next
  {
    && Distinct(out) && Run(list, out, 0)
    && (out == [] ==> list == null && tail == null)
    && (out != [] ==> tail == out[|out| - 1])
    && forall i {:trigger out[i].prev} :: 0 <= i < |out| ==> out[i].prev == if i == 0 then null else out[i - 1]
  }

  /** None of `s` from index `i` on has been emitted. */
  ghost predicate Ahead<V>(out: seq<Elem<V>>, s: seq<Elem<V>>, i: nat) {
    Distinct(s) && forall t | i <= t < |s| :: s[t] !in out
  }

  method Emit<V>(list: Elem?<V>, tail: Elem?<V>, e: Elem<V>, ghost out: seq<Elem<V>>) returns (list': Elem?<V>)
    requires Emitted(list, tail, out) && e !in out
    modifies out`next, e`prev
    ensures Emitted(list', e, out + [e])
  {
    list' := list;
    if tail != null {
      tail.next := e;
    } else {
      list' := e;
    }
    e.prev := tail;
  }

  /** The state of one merge: `out` is emitted, `ps` from `i` and `qs` from `j` are still linked from `p` and `q`. */
  ghost predicate Merging<V>(list: Elem?<V>, tail: Elem?<V>, p: Elem?<V>, q: Elem?<V>,
                             out: seq<Elem<V>>, ps: seq<Elem<V>>, i: nat, qs: seq<Elem<V>>, j: nat)
    reads out`prev, out`next, ps`next, qs`next
  {
    && Emitted(list, tail, out)
    && Run(p, ps, i) && Ahead(out, ps, i)
    && Ending(q, qs, j) && Ahead(out, qs, j)
    && forall x | x in ps :: x !in qs
  }

  method TakeP<V>(list: Elem?<V>, tail: Elem?<V>, p: Elem<V>, ghost q: Elem?<V>,
                  ghost out: seq<Elem<V>>, ghost ps: seq<Elem<V>>, ghost i: nat, ghost qs: seq<Elem<V>>, ghost j: nat)
    returns (list': Elem?<V>, p': Elem?<V>)
    requires Merging(list, tail, p, q, out, ps, i, qs, j) && i < |ps|
    modifies out`next, ps`prev
    ensures Merging(list', p, p', q, out + [p], ps, i + 1, qs, j)
  {
    assert p in ps;
    p' := p.next;
    list' := Emit(list, tail, p, out);
  }

  method TakeQ<V>(list: Elem?<V>, tail: Elem?<V>, ghost p: Elem?<V>, q: Elem<V>,
                  ghost out: seq<Elem<V>>, ghost ps: seq<Elem<V>>, ghost i: nat, ghost qs: seq<Elem<V>>, ghost j: nat)
    returns (list': Elem?<V>, q': Elem?<V>)
    requires Merging(list, tail, p, q, out, ps, i, qs, j)
    modifies out`next, qs`prev
    ensures j < |qs| && Merging(list', q, p, q', out + [q], ps, i, qs, j + 1)
  {
    assert q in qs;
    q' := q.next;
    list' := Emit(list, tail, q, out);
  }

  /** What is still to be merged: the run `ps` from `i` with `qs` from `j` up to `n`. */
  ghost function ToMerge<V>(ps: seq<Elem<V>>, i: nat, qs: seq<Elem<V>>, j: nat, n: nat, cmp: (Elem<V>, Elem<V>) -> int): seq<Elem<V>>
    requires i <= |ps| && j <= n <= |qs|
  {
    Merge(ps[i..], qs[j..n], cmp)
  }

  lemma ToMergeP<V>(ps: seq<Elem<V>>, i: nat, qs: seq<Elem<V>>, j: nat, n: nat, cmp: (Elem<V>, Elem<V>) -> int)
    requires i < |ps| && j <= n <= |qs| && (j < n ==> cmp(ps[i], qs[j]) <= 0)
    ensures ToMerge(ps, i, qs, j, n, cmp) == [ps[i]] + ToMerge(ps, i + 1, qs, j, n, cmp)
  {
    assert ps[i..] == [ps[i]] + ps[i + 1..];
    if j == n && i + 1 == |ps| {
      assert qs[j..n] == [] && ps[i + 1..] == [];
    }
  }

  lemma ToMergeQ<V>(ps: seq<Elem<V>>, i: nat, qs: seq<Elem<V>>, j: nat, n: nat, cmp: (Elem<V>, Elem<V>) -> int)
    requires i <= |ps| && j < n <= |qs| && (i < |ps| ==> cmp(ps[i], qs[j]) > 0)
    ensures ToMerge(ps, i, qs, j, n, cmp) == [qs[j]] + ToMerge(ps, i, qs, j + 1, n, cmp)
  {
    assert qs[j..n] == [qs[j]] + qs[j + 1..n];
    if i == |ps| {
      assert ps[i..] == [];
    }
  }

  lemma ToMergeEnds<V>(ps: seq<Elem<V>>, qs: seq<Elem<V>>, n: nat, cmp: (Elem<V>, Elem<V>) -> int)
    requires n <= |qs|
    ensures ToMerge(ps, 0, qs, 0, n, cmp) == Merge(ps, qs[..n], cmp)
    ensures ToMerge(ps, |ps|, qs, n, n, cmp) == []
  {
    assert ps[0..] == ps && qs[0..n] == qs[..n];
    assert ps[|ps|..] == [] && qs[n..n] == [];
  }

  /** One turn of the merge loop: the next element `e` of the merge moves to the output. */
  method MergeStep<V>(list: Elem?<V>, tail: Elem?<V>, p: Elem?<V>, psize: nat, q: Elem?<V>, qsize: nat, cmp: (Elem<V>, Elem<V>) -> int,
                      ghost out: seq<Elem<V>>, ghost ps: seq<Elem<V>>, ghost i: nat, ghost qs: seq<Elem<V>>, ghost j: nat, ghost n: nat)
    returns (list': Elem?<V>, e: Elem<V>, p': Elem?<V>, psize': nat, q': Elem?<V>, qsize': nat, ghost i': nat, ghost j': nat)
    requires Merging(list, tail, p, q, out, ps, i, qs, j)
    requires psize == |ps| - i && j <= n <= |qs| && (qsize > 0 && q != null <==> j < n)
    requires psize > 0 || (qsize > 0 && q != null)
    modifies out`next, ps`prev, qs`prev
    ensures Merging(list', e, p', q', out + [e], ps, i', qs, j')
    ensures i <= i' && psize' == |ps| - i' && j <= j' <= n && qsize' == qsize - (j' - j)
    ensures ToMerge(ps, i, qs, j, n, cmp) == [e] + ToMerge(ps, i', qs, j', n, cmp)
    ensures i' + j' == i + j + 1 && (e in ps || e in qs)
  {
    hide Emitted, Ahead, ToMerge;
    p', psize', q', qsize', i', j' := p, psize, q, qsize, i, j;
    if psize == 0 || (qsize > 0 && q != null && cmp(p, q) > 0) {
      ToMergeQ(ps, i, qs, j, n, cmp);
      e := q;
      list', q' := TakeQ(list, tail, p, q, out, ps, i, qs, j);
      qsize', j' := qsize - 1, j + 1;
    } else {
      ToMergeP(ps, i, qs, j, n, cmp);
      e := p;
      list', p' := TakeP(list, tail, p, q, out, ps, i, qs, j);
      psize', i' := psize - 1, i + 1;
    }
  }

  /** The merge loop: run `ps` and the first `insize` elements of `qs` move to the output, merged. */
  method MergeRuns<V>(list0: Elem?<V>, tail0: Elem?<V>, p0: Elem?<V>, psize0: nat, q0: Elem?<V>, insize: nat, cmp: (Elem<V>, Elem<V>) -> int,
                      ghost out0: seq<Elem<V>>, ghost ps: seq<Elem<V>>, ghost qs: seq<Elem<V>>, ghost all: set<Elem<V>>)
    returns (list: Elem?<V>, tail: Elem?<V>, q: Elem?<V>, ghost out: seq<Elem<V>>)
    requires Merging(list0, tail0, p0, q0, out0, ps, 0, qs, 0) && psize0 == |ps|
    requires Inside(out0, all) && Inside(ps, all) && Inside(qs, all)
    modifies all`prev, all`next
    ensures var n := Min(insize, |qs|);
      && out == out0 + Merge(ps, qs[..n], cmp)
      && Emitted(list, tail, out) && Ending(q, qs, n) && Ahead(out, qs, n)
    ensures Inside(out, all)
  {
    hide Emitted, Run, Ahead, ToMerge, Merge;
    ghost var n := Min(insize, |qs|);
    ghost var i, j := 0, 0;
    var p, psize, qsize := p0, psize0, insize;
    list, tail, q, out := list0, tail0, q0, out0;
    ToMergeEnds(ps, qs, n, cmp);
    while psize > 0 || (qsize > 0 && q != null)
      invariant Merging(list, tail, p, q, out, ps, i, qs, j)
      invariant psize == |ps| - i && j <= n && qsize == insize - j
      invariant out + ToMerge(ps, i, qs, j, n, cmp) == out0 + Merge(ps, qs[..n], cmp)
      invariant Inside(out, all)
      decreases |ps| + n - i - j
    {
      ghost var done := out;
      var e;
      list, e, p, psize, q, qsize, i, j := MergeStep(list, tail, p, psize, q, qsize, cmp, out, ps, i, qs, j, n);
      tail := e;
      out := done + [e];
      Assoc(done, [e], ToMerge(ps, i, qs, j, n, cmp));
    }
  }

  /** Step off one run: `q` is `insize` elements after `p`, or the end of the list. */
  method Advance<V>(p: Elem<V>, insize: nat, ghost rest: seq<Elem<V>>) returns (q: Elem?<V>, psize: nat)
    requires insize > 0 && rest != [] && Ending(p, rest, 0)
    ensures psize == Min(insize, |rest|) && Ending(q, rest, psize)
  {
    q, psize := p, 0;
    for i := 0 to insize
      invariant psize == i <= |rest| && q == if i < |rest| then rest[i] else null
      invariant i == |rest| ==> i == 0
    {
      psize := psize + 1;
      q := q.next;
      if q == null { break; }
    }
  }

  lemma EndingSuffix<V>(h: Elem?<V>, s: seq<Elem<V>>, i: nat)
    requires Ending(h, s, i)
    ensures Ending(h, s[i..], 0) && (h == null <==> s[i..] == [])
  {
    forall t {:trigger s[i..][t].next} | 0 <= t < |s[i..]|
      ensures s[i..][t].next == if t == |s[i..]| - 1 then null else s[i..][t + 1]
    {
      assert s[i + t].next == if i + t == |s| - 1 then null else s[i + t + 1];
    }
  }

  lemma AheadSuffix<V>(out: seq<Elem<V>>, s: seq<Elem<V>>, i: nat)
    requires Ahead(out, s, i) && i <= |s|
    ensures Ahead(out, s[i..], 0)
  {
  }

  lemma RunPrefix<V>(h: Elem?<V>, s: seq<Elem<V>>, m: nat)
    requires Ending(h, s, 0) && m <= |s|
    ensures Run(h, s[..m], 0)
  {
    forall t {:trigger s[..m][t].next} | 0 <= t < m - 1
      ensures s[..m][t].next == s[..m][t + 1]
    {
      assert s[t].next == s[t + 1];
    }
  }

  /** Splitting the list into a run and what follows sets up a merge. */
  lemma SetUp<V>(list: Elem?<V>, tail: Elem?<V>, p: Elem?<V>, q: Elem?<V>, out: seq<Elem<V>>, rest: seq<Elem<V>>, m: nat)
    requires Emitted(list, tail, out) && Ending(p, rest, 0) && Ahead(out, rest, 0)
    requires m <= |rest| && Ending(q, rest, m)
    ensures Merging(list, tail, p, q, out, rest[..m], 0, rest[m..], 0)
  {
    RunPrefix(p, rest, m);
    EndingSuffix(q, rest, m);
    assert Distinct(rest[..m]) && Distinct(rest[m..]);
    forall x | x in rest[..m]
      ensures x !in rest[m..]
    {
      var a :| 0 <= a < m && rest[..m][a] == x;
      assert rest[a] == x;
    }
  }

  ghost predicate Inside<V>(s: seq<Elem<V>>, all: set<Elem<V>>) {
    forall x | x in s :: x in all
  }

  /** What the number of merges so far says about how much of `total` is `left`. */
  ghost predicate Counted(nmerges: nat, left: nat, total: nat, insize: nat) {
    if nmerges == 0 then left == total
    else if nmerges == 1 then left == total - Min(2 * insize, total)
    else total > 2 * insize
  }

  lemma CountNext(nmerges: nat, left: nat, total: nat, insize: nat)
    requires Counted(nmerges, left, total, insize) && left > 0
    ensures Counted(nmerges + 1, left - Min(2 * insize, left), total, insize)
  {
  }

  lemma CountEnds(nmerges: nat, total: nat, insize: nat)
    requires total > 0
    ensures Counted(0, total, total, insize)
    ensures Counted(nmerges, 0, total, insize) ==> (nmerges <= 1 <==> total <= 2 * insize)
  {
  }

  /** A pass over `s` has put out `out` and has `rest` to go. */
  ghost predicate Produced<V>(out: seq<Elem<V>>, rest: seq<Elem<V>>, s: seq<Elem<V>>, insize: nat, cmp: (Elem<V>, Elem<V>) -> int)
    requires insize > 0
  {
    out + Pass(rest, insize, cmp) == Pass(s, insize, cmp)
  }

  lemma ProducedEnds<V>(out: seq<Elem<V>>, s: seq<Elem<V>>, insize: nat, cmp: (Elem<V>, Elem<V>) -> int)
    requires insize > 0
    ensures Produced([], s, s, insize, cmp)
    ensures Produced(out, [], s, insize, cmp) ==> out == Pass(s, insize, cmp)
  {
  }

  /** One turn of a pass: the next two runs are merged onto the output. */
  method MergeBlock<V>(list0: Elem?<V>, tail0: Elem?<V>, p: Elem<V>, insize: nat, nmerges0: nat, cmp: (Elem<V>, Elem<V>) -> int,
                       ghost s: seq<Elem<V>>, ghost out0: seq<Elem<V>>, ghost rest: seq<Elem<V>>, ghost all: set<Elem<V>>)
    returns (list: Elem?<V>, tail: Elem?<V>, p': Elem?<V>, nmerges: nat, ghost out: seq<Elem<V>>, ghost rest': seq<Elem<V>>)
    requires insize > 0 && rest != [] && Counted(nmerges0, |rest|, |s|, insize)
    requires Produced(out0, rest, s, insize, cmp)
    requires Emitted(list0, tail0, out0) && Ending(p, rest, 0) && Ahead(out0, rest, 0)
    requires Inside(out0, all) && Inside(rest, all)
    modifies all`prev, all`next
    ensures Emitted(list, tail, out) && Ending(p', rest', 0) && Ahead(out, rest', 0)
    ensures Inside(out, all) && Inside(rest', all) && (p' == null <==> rest' == [])
    ensures |rest'| < |rest| && Counted(nmerges, |rest'|, |s|, insize)
    ensures Produced(out, rest', s, insize, cmp)
  {
    hide Emitted, Ending, Ahead, Merge, Pass, Produced, Counted, Merging;
    nmerges := nmerges0 + 1;
    var q, psize := Advance(p, insize, rest);
    ghost var ps, qs := rest[..psize], rest[psize..];
    ghost var n := Min(insize, |qs|);
    SetUp(list0, tail0, p, q, out0, rest, psize);
    list, tail, p', out := MergeRuns(list0, tail0, p, psize, q, insize, cmp, out0, ps, qs, all);
    rest' := qs[n..];
    EndingSuffix(p', qs, n);
    AheadSuffix(out, qs, n);
    BlockDone(out0, rest, nmerges0, s, insize, cmp);
  }

  /** What one merge does to the bookkeeping of a pass. */
  lemma BlockDone<V>(out: seq<Elem<V>>, rest: seq<Elem<V>>, nmerges: nat, s: seq<Elem<V>>, insize: nat, cmp: (Elem<V>, Elem<V>) -> int)
    requires insize > 0 && rest != []
    requires Produced(out, rest, s, insize, cmp) && Counted(nmerges, |rest|, |s|, insize)
    ensures var m := Min(insize, |rest|); var qs := rest[m..]; var n := Min(insize, |qs|);
      && n <= |qs| && |qs[n..]| < |rest| && Counted(nmerges + 1, |qs[n..]|, |s|, insize)
      && Produced(out + Merge(rest[..m], qs[..n], cmp), qs[n..], s, insize, cmp)
  {
    hide Merge;
    var m, e := Min(insize, |rest|), Min(2 * insize, |rest|);
    var qs := rest[m..];
    var n := Min(insize, |qs|);
    CountNext(nmerges, |rest|, |s|, insize);
    assert m + n == e && qs[..n] == rest[m..e] && qs[n..] == rest[e..];
    Assoc(out, Merge(rest[..m], qs[..n], cmp), Pass(qs[n..], insize, cmp));
  }

  /** One pass over the list; the number of merges tells whether it was the last. */
  method SortPass<V>(first: Elem<V>, insize: nat, cmp: (Elem<V>, Elem<V>) -> int, ghost s: seq<Elem<V>>, ghost all: set<Elem<V>>)
    returns (list: Elem?<V>, tail: Elem?<V>, nmerges: nat, ghost out: seq<Elem<V>>)
    requires insize > 0 && s != [] && Distinct(s) && Ending(first, s, 0) && Inside(s, all)
    modifies all`prev, all`next
    ensures out == Pass(s, insize, cmp) && Emitted(list, tail, out) && Ending(list, out, 0)
    ensures nmerges <= 1 <==> |s| <= 2 * insize
    ensures Inside(out, all)
  {
    hide *;
    ProducedEnds([], s, insize, cmp);
    CountEnds(0, |s|, insize);
    ghost var rest := s;
    var p: Elem?<V> := first;
    list, tail, nmerges, out := null, null, 0, [];
    NothingEmitted(s, all);
    while p != null
      invariant Emitted(list, tail, out) && Ending(p, rest, 0) && Ahead(out, rest, 0)
      invariant Inside(out, all) && Inside(rest, all) && (p == null <==> rest == [])
      invariant Produced(out, rest, s, insize, cmp)
      invariant Counted(nmerges, |rest|, |s|, insize)
      decreases |rest|
    {
      list, tail, p, nmerges, out, rest := MergeBlock(list, tail, p, insize, nmerges, cmp, s, out, rest, all);
    }
    ProducedEnds(out, s, insize, cmp);
    CountEnds(nmerges, |s|, insize);
    Finish(list, tail, out, all);
  }

  lemma NothingEmitted<V>(s: seq<Elem<V>>, all: set<Elem<V>>)
    requires Distinct(s)
    ensures Emitted<V>(null, null, []) && Ahead([], s, 0) && Inside([], all)
  {
  }

  method Finish<V>(list: Elem?<V>, tail: Elem?<V>, ghost out: seq<Elem<V>>, ghost all: set<Elem<V>>)
    requires Emitted(list, tail, out) && Inside(out, all)
    modifies all`next
    ensures Emitted(list, tail, out) && Ending(list, out, 0)
  {
    if tail != null {
      tail.next := null;
    }
  }

  lemma LinkedEnding<V>(s: seq<Elem<V>>)
    requires AppLinked(s) && s != []
    ensures Ending(s[0], s, 0) && Inside(s, set e | e in s)
  {
  }

  lemma BothLinks<V>(list: Elem?<V>, tail: Elem?<V>, out: seq<Elem<V>>)
    requires Emitted(list, tail, out) && Ending(list, out, 0)
    ensures AppLinked(out)
  {
  }

  /** HASH_SRT: passes with run lengths 1, 2, 4, ... until one pass needs a single merge. */
  method SortList<V>(first: Elem<V>, cmp: (Elem<V>, Elem<V>) -> int, ghost s: seq<Elem<V>>, ghost all: set<Elem<V>>)
    returns (list: Elem?<V>, tail: Elem?<V>, ghost out: seq<Elem<V>>)
    requires s != [] && Distinct(s) && Ending(first, s, 0) && Inside(s, all)
    modifies all`prev, all`next
    ensures out == SortFrom(s, 1, cmp) && AppLinked(out) && Distinct(out)
    ensures out != [] && list == out[0] && tail == out[|out| - 1]
  {
    var insize, looping := 1, true;
    list, tail, out := first, null, s;
    while looping
      invariant insize > 0 && |out| == |s| && Distinct(out) && Ending(list, out, 0) && Inside(out, all)
      invariant looping ==> SortFrom(out, insize, cmp) == SortFrom(s, 1, cmp)
      invariant !looping ==> out == SortFrom(s, 1, cmp) && Emitted(list, tail, out)
      decreases looping, |s| - insize
    {
      var nmerges;
      list, tail, nmerges, out := SortPass(list, insize, cmp, out, all);
      if nmerges <= 1 {
        looping := false;
      }
      insize := insize * 2;
    }
    BothLinks(list, tail, out);
  }
}
