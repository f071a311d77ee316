module Buckets {
  import opened Elements

  datatype Bucket<V> = Bucket(hhHead: Elem?<V>, count: nat, expandMult: nat)

  ghost function Items<V>(cs: seq<seq<Elem<V>>>): set<Elem<V>> {
    set b, i | 0 <= b < |cs| && 0 <= i < |cs[b]| :: cs[b][i]
  }

  ghost predicate ChainLinked<V>(head: Elem?<V>, c: seq<Elem<V>>)
    reads c`hhPrev, c`hhNext
  {
    && head == (if c == [] then null else c[0])
    && (forall i {:trigger c[i].hhPrev} :: 0 <= i < |c| ==> c[i].hhPrev == if i == 0 then null else c[i-1])
    && (forall i {:trigger c[i].hhNext} :: 0 <= i < |c| ==> c[i].hhNext == if i == |c|-1 then null else c[i+1])
  }

  /** HASH_TO_BKT. */
  function Slot(hashv: nat, n: nat): (s: nat)
    requires n > 0
    ensures s < n
  {
    hashv % n
  }

  ghost predicate Placed<V>(cs: seq<seq<Elem<V>>>, hash: string -> nat) {
    && |cs| > 0
    && (forall b, e | 0 <= b < |cs| && e in cs[b] :: Slot(hash(e.key), |cs|) == b)
    && (forall b | 0 <= b < |cs| :: Distinct(cs[b]))
  }

  ghost predicate Linked<V>(bs: array<Bucket<V>>, cs: seq<seq<Elem<V>>>)
    reads bs, Items(cs)`hhPrev, Items(cs)`hhNext
  {
    && bs.Length == |cs|
    && (forall b | 0 <= b < |cs| :: bs[b].count == |cs[b]| && ChainLinked(bs[b].hhHead, cs[b]))
  }

  /** Elements of one chain are never met in another. */
  lemma ChainsDisjoint<V>(cs: seq<seq<Elem<V>>>, hash: string -> nat, b: nat)
    requires Placed(cs, hash) && b < |cs|
    ensures forall i, j | 0 <= i < |cs| && i != b && 0 <= j < |cs[i]| :: cs[i][j] !in cs[b]
  {
    forall i, j | 0 <= i < |cs| && i != b && 0 <= j < |cs[i]|
      ensures cs[i][j] !in cs[b]
    {
      assert Slot(hash(cs[i][j].key), |cs|) == i;
    }
  }

  method PushChain<V>(head: Elem?<V>, e: Elem<V>, ghost c: seq<Elem<V>>)
    requires ChainLinked(head, c) && Distinct(c) && e !in c
    modifies e`hhPrev, e`hhNext, c`hhPrev
    ensures ChainLinked(e, [e] + c)
  {
    e.hhNext := head;
    e.hhPrev := null;
    if head != null { head.hhPrev := e; }
  }

  method PushFront<V>(bs: array<Bucket<V>>, b: nat, e: Elem<V>, ghost cs: seq<seq<Elem<V>>>, ghost hash: string -> nat)
    requires Placed(cs, hash) && Linked(bs, cs)
    requires b == Slot(hash(e.key), |cs|) && e !in Items(cs)
    modifies bs, e`hhPrev, e`hhNext, Items(cs)`hhPrev
    ensures Linked(bs, cs[b := [e] + cs[b]])
    ensures bs[b].expandMult == old(bs[b].expandMult)
    ensures forall i | 0 <= i < bs.Length && i != b :: bs[i] == old(bs[i])
  {
    ChainsDisjoint(cs, hash, b);
    assert forall i | 0 <= i < |cs| :: e !in cs[i];
    PushChain(bs[b].hhHead, e, cs[b]);
    bs[b] := bs[b].(count := bs[b].count + 1, hhHead := e);
    forall i | 0 <= i < |cs| && i != b
      ensures ChainLinked(bs[i].hhHead, cs[i])
    {
      assert old(ChainLinked(bs[i].hhHead, cs[i]));
      assert forall j | 0 <= j < |cs[i]| :: cs[i][j] !in cs[b] && cs[i][j] != e;
    }
  }

  lemma PlacedPush<V>(cs: seq<seq<Elem<V>>>, hash: string -> nat, e: Elem<V>, b: nat)
    requires Placed(cs, hash) && b == Slot(hash(e.key), |cs|) && e !in Items(cs)
    ensures Placed(cs[b := [e] + cs[b]], hash)
  {
    assert forall i | 0 <= i < |cs| :: e !in cs[i];
  }

  method UnlinkChain<V>(head: Elem?<V>, e: Elem<V>, ghost k: nat, ghost c: seq<Elem<V>>) returns (head': Elem?<V>)
    requires ChainLinked(head, c) && Distinct(c) && k < |c| && c[k] == e
    modifies c`hhPrev, c`hhNext
    ensures ChainLinked(head', c[..k] + c[k+1..])
  {
    head' := if head == e then e.hhNext else head;
    if e.hhPrev != null { e.hhPrev.hhNext := e.hhNext; }
    if e.hhNext != null { e.hhNext.hhPrev := e.hhPrev; }
  }

  method Unlink<V>(bs: array<Bucket<V>>, b: nat, e: Elem<V>, ghost k: nat, ghost cs: seq<seq<Elem<V>>>, ghost hash: string -> nat)
    requires Placed(cs, hash) && Linked(bs, cs)
    requires b < |cs| && k < |cs[b]| && cs[b][k] == e
    modifies bs, Items(cs)`hhPrev, Items(cs)`hhNext
    ensures Linked(bs, cs[b := cs[b][..k] + cs[b][k+1..]])
    ensures bs[b].expandMult == old(bs[b].expandMult)
    ensures forall i | 0 <= i < bs.Length && i != b :: bs[i] == old(bs[i])
  {
    ChainsDisjoint(cs, hash, b);
    var head := UnlinkChain(bs[b].hhHead, e, k, cs[b]);
    bs[b] := bs[b].(count := bs[b].count - 1, hhHead := head);
    forall i | 0 <= i < |cs| && i != b
      ensures ChainLinked(bs[i].hhHead, cs[i])
    {
      assert old(ChainLinked(bs[i].hhHead, cs[i]));
      assert forall j | 0 <= j < |cs[i]| :: cs[i][j] !in cs[b] && cs[i][j] != e;
    }
  }
}
