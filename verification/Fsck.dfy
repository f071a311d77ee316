/** HASH_FSCK, the table's own integrity check: on a valid table it finds nothing. */
module Fsck {
  import opened Elements
  import opened Buckets
  import opened HashTable

  /** `c` can be walked forward from `h`. */
  ghost predicate Forward<V>(h: Elem?<V>, c: seq<Elem<V>>)
    reads c`hhNext
  {
    && h == (if c == [] then null else c[0])
    && forall i {:trigger c[i].hhNext} | 0 <= i < |c| :: c[i].hhNext == if i == |c| - 1 then null else c[i + 1]
  }

  ghost predicate Backward<V>(c: seq<Elem<V>>)
    reads c`hhPrev
  {
    forall i {:trigger c[i].hhPrev} | 0 <= i < |c| :: c[i].hhPrev == if i == 0 then null else c[i - 1]
  }

  /** The same for the application order. */
  ghost predicate AppForward<V>(h: Elem?<V>, s: seq<Elem<V>>)
    reads s`next
  {
    && h == (if s == [] then null else s[0])
    && forall i {:trigger s[i].next} | 0 <= i < |s| :: s[i].next == if i == |s| - 1 then null else s[i + 1]
  }

  ghost predicate AppBackward<V>(s: seq<Elem<V>>)
    reads s`prev
  {
    forall i {:trigger s[i].prev} | 0 <= i < |s| :: s[i].prev == if i == 0 then null else s[i - 1]
  }

  /** Walk one chain, comparing each back link with the element just left. */
  method WalkChain<V>(first: Elem?<V>, ghost c: seq<Elem<V>>) returns (count: nat, ok: bool)
    requires Forward(first, c)
    ensures count == |c| && (ok <==> Backward(c))
  {
    var thh, prev := first, null;
    count, ok := 0, true;
    while thh != null
      invariant count <= |c| && thh == (if count < |c| then c[count] else null)
      invariant prev == (if count == 0 then null else c[count - 1])
      invariant ok <==> forall i {:trigger c[i].hhPrev} | 0 <= i < count :: c[i].hhPrev == if i == 0 then null else c[i - 1]
      decreases |c| - count
    {
      if prev != thh.hhPrev { ok := false; }
      count, prev, thh := count + 1, thh, thh.hhNext;
    }
  }

  /** The same walk along the application order. */
  method WalkOrder<V>(first: Elem?<V>, ghost s: seq<Elem<V>>) returns (count: nat, ok: bool)
    requires AppForward(first, s)
    ensures count == |s| && (ok <==> AppBackward(s))
  {
    var thh, prev := first, null;
    count, ok := 0, true;
    while thh != null
      invariant count <= |s| && thh == (if count < |s| then s[count] else null)
      invariant prev == (if count == 0 then null else s[count - 1])
      invariant ok <==> forall i {:trigger s[i].prev} | 0 <= i < count :: s[i].prev == if i == 0 then null else s[i - 1]
      decreases |s| - count
    {
      if prev != thh.prev { ok := false; }
      count, prev, thh := count + 1, thh, thh.next;
    }
  }

  ghost function Total<V>(cs: seq<seq<Elem<V>>>): nat {
    if cs == [] then 0 else Total(cs[..|cs| - 1]) + |cs[|cs| - 1]|
  }

  ghost predicate Separate<V>(cs: seq<seq<Elem<V>>>) {
    && (forall b | 0 <= b < |cs| :: Distinct(cs[b]))
    && (forall a, b, i | 0 <= a < |cs| && 0 <= b < |cs| && a != b && 0 <= i < |cs[a]| :: cs[a][i] !in cs[b])
  }

  lemma PlacedSeparate<V>(cs: seq<seq<Elem<V>>>, hash: string -> nat)
    requires Placed(cs, hash)
    ensures Separate(cs)
  {
    forall b | 0 <= b < |cs|
      ensures forall a, i | 0 <= a < |cs| && a != b && 0 <= i < |cs[a]| :: cs[a][i] !in cs[b]
    {
      ChainsDisjoint(cs, hash, b);
    }
  }

  lemma {:induction false} DistinctSize<V>(s: seq<Elem<V>>)
    requires Distinct(s)
    ensures |SetOf(s)| == |s|
  {
    if s != [] {
      var m := |s| - 1;
      DistinctSize(s[..m]);
      assert s == s[..m] + [s[m]];
      SetOfAppend(s[..m], s[m]);
    }
  }

  /** No element is counted twice over the chains. */
  lemma {:induction false} TotalIsItems<V>(cs: seq<seq<Elem<V>>>)
    requires Separate(cs)
    ensures Total(cs) == |Items(cs)|
  {
    if cs != [] {
      var m := |cs| - 1;
      var ds := cs[..m];
      TotalIsItems(ds);
      DistinctSize(cs[m]);
      ItemsSplit(cs);
      assert Items(ds) !! SetOf(cs[m]);
    }
  }

  lemma ItemsSplit<V>(cs: seq<seq<Elem<V>>>)
    requires cs != []
    ensures Items(cs) == Items(cs[..|cs| - 1]) + SetOf(cs[|cs| - 1])
  {
    var m := |cs| - 1;
    forall b, i | 0 <= b < |cs| && 0 <= i < |cs[b]|
      ensures cs[b][i] in Items(cs[..m]) + SetOf(cs[m])
    {
      if b < m { assert cs[..m][b][i] == cs[b][i]; }
    }
  }

  /** The chains and the order of a table that may be damaged otherwise can be walked forward. */
  ghost predicate Walkable<V>(t: Table<V>)
    reads t, t.buckets, t.order, Items(t.chains)
  {
    && t.buckets.Length == |t.chains| == t.numBuckets
    && (forall b | 0 <= b < |t.chains| :: Forward(t.buckets[b].hhHead, t.chains[b]))
    && AppForward(t.head, t.order)
  }

  /** All that HASH_FSCK looks at. */
  ghost predicate Sound<V>(t: Table<V>)
    requires Walkable(t)
    reads t, t.buckets, t.order, Items(t.chains)
  {
    && (forall b | 0 <= b < |t.chains| :: Backward(t.chains[b]) && t.buckets[b].count == |t.chains[b]|)
    && AppBackward(t.order)
    && Total(t.chains) == |t.order| == t.numItems
  }

  lemma TotalNext<V>(cs: seq<seq<Elem<V>>>, b: nat)
    requires b < |cs|
    ensures Total(cs[..b + 1]) == Total(cs[..b]) + |cs[b]|
  {
    assert cs[..b + 1][..b] == cs[..b];
  }

  lemma TotalZero<V>()
    ensures Total<V>([]) == 0
  {
  }

  /** The chain half of HASH_FSCK. */
  method CheckChains<V>(t: Table<V>) returns (count: nat, ok: bool)
    requires Walkable(t)
    ensures count == Total(t.chains)
    ensures ok <==> forall b | 0 <= b < |t.chains| :: Backward(t.chains[b]) && t.buckets[b].count == |t.chains[b]|
  {
    hide Total, AppForward, Backward, Forward;
    assert t.chains[..0] == [];
    TotalZero<V>();
    count, ok := 0, true;
    for b := 0 to t.numBuckets
      invariant count == Total(t.chains[..b])
      invariant ok <==> forall i | 0 <= i < b :: Backward(t.chains[i]) && t.buckets[i].count == |t.chains[i]|
    {
      var bktCount, good := WalkChain(t.buckets[b].hhHead, t.chains[b]);
      TotalNext(t.chains, b);
      if !good || t.buckets[b].count != bktCount { ok := false; }
      count := count + bktCount;
    }
    assert t.chains[..t.numBuckets] == t.chains;
  }

  /** HASH_FSCK passes exactly the tables whose back links and counts are right. */
  method Check<V>(t: Table<V>) returns (ok: bool)
    requires t.head != null ==> Walkable(t)
    ensures ok <==> t.head == null || Sound(t)
  {
    hide Total, AppForward, Backward, Forward, AppBackward;
    ok := true;
    if t.head != null {
      var chained, good := CheckChains(t);
      var listed, inOrder := WalkOrder(t.head, t.order);
      ok := good && chained == t.numItems && inOrder && listed == t.numItems;
    }
  }

  /** The invariant that every operation keeps implies all of it. */
  lemma ValidIsSound<V>(t: Table<V>)
    requires t.Valid() && t.head != null
    ensures Walkable(t) && Sound(t)
  {
    PlacedSeparate(t.chains, t.hash);
    TotalIsItems(t.chains);
    DistinctSize(t.order);
    forall b | 0 <= b < |t.chains|
      ensures Forward(t.buckets[b].hhHead, t.chains[b]) && Backward(t.chains[b]) && t.buckets[b].count == |t.chains[b]|
    {
      assert ChainLinked(t.buckets[b].hhHead, t.chains[b]);
    }
  }
}
