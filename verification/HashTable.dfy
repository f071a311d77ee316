/**
 The intrusive hash table: every element is on the application-order list and on
 the chain of its bucket.
 */
module HashTable {
  import opened Bits
  import opened Elements
  import opened Buckets
  import opened Expand
  import opened MergeSort
  import opened ListSort
  import Bloom

  const INITIAL_BUCKETS: nat := 32
  const INITIAL_LOG2: nat := 5
  const BKT_CAPACITY_THRESH: nat := 10

  datatype BloomSize = NoBloom | BloomBits(nbits: nat)

  function Max(a: nat, b: nat): nat { if a > b then a else b }

  /** The longest chain a bucket with this multiplier may have while expansion is allowed. */
  function Cap(expandMult: nat, ideal: nat): nat {
    (expandMult + 1) * Max(BKT_CAPACITY_THRESH, ideal)
  }

  /** The fields by which a table decides on its size. */
  datatype Sizing = Sizing(numBuckets: nat, idealChainMaxlen: nat, nonidealItems: nat, ineffExpands: nat, noexpand: nat)

  class Table<V> {
    const hash: string -> nat
    const bloomSize: BloomSize
    var head: Elem?<V>
    var tail: Elem?<V>
    var buckets: array<Bucket<V>>
    var numBuckets: nat
    var log2NumBuckets: nat
    var numItems: nat
    var idealChainMaxlen: nat
    var nonidealItems: nat
    var ineffExpands: nat
    var noexpand: nat
    var bloomBv: array<bv8>

    ghost var order: seq<Elem<V>>
    ghost var chains: seq<seq<Elem<V>>>
    ghost var expansions: nat

    ghost predicate OrderOk()
      reads this`head, this`tail, this`order, this`numItems, order`prev, order`next
    {
      && (head == null <==> order == [])
      && (head != null ==> head == order[0] && tail == order[|order| - 1])
      && (head != null ==> numItems == |order|)
      && Distinct(order) && AppLinked(order)
    }

    ghost predicate BucketsOk()
      reads this`buckets, this`numBuckets, this`log2NumBuckets, this`expansions, this`chains
      reads buckets, Items(chains)`hhPrev, Items(chains)`hhNext, Items(chains)`hashv
    {
      && numBuckets == buckets.Length == Pow2(log2NumBuckets)
      && log2NumBuckets == INITIAL_LOG2 + expansions
      && ArrayOk(buckets, chains, hash)
    }

    ghost predicate BoundOk()
      reads this`buckets, this`idealChainMaxlen, this`noexpand, this`ineffExpands, buckets
    {
      && (noexpand == 1 <==> ineffExpands > 1)
      && (noexpand != 1 ==> forall b | 0 <= b < buckets.Length :: buckets[b].count <= Cap(buckets[b].expandMult, idealChainMaxlen))
    }

    ghost predicate BloomCovers(s: seq<Elem<V>>)
      reads this`bloomBv, bloomBv
    {
      bloomSize.BloomBits? ==>
        && bloomBv.Length == Bloom.ByteLen(bloomSize.nbits)
        && forall e | e in s :: Bloom.Test(bloomBv, bloomSize.nbits, hash(e.key))
    }

    ghost predicate Valid()
      reads this, buckets, bloomBv, order`prev, order`next
      reads Items(chains)`hhPrev, Items(chains)`hhNext, Items(chains)`hashv
    {
      && OrderOk()
      && DistinctKeys(order)
      && (head != null ==>
        && BucketsOk() && BoundOk() && Items(chains) == SetOf(order)
        && BloomCovers(order) && bloomBv as object != buckets)
    }

    ghost function Size(): Sizing
      reads this`numBuckets, this`idealChainMaxlen, this`nonidealItems, this`ineffExpands, this`noexpand
    {
      Sizing(numBuckets, idealChainMaxlen, nonidealItems, ineffExpands, noexpand)
    }

    /** With one element more the chain of `key` reaches the threshold of its bucket, and expansion is on. */
    ghost predicate Crowds(key: string)
      requires 0 < |chains| == buckets.Length
      reads this`noexpand, this`chains, this`buckets, buckets
    {
      var b := Slot(hash(key), |chains|);
      noexpand != 1 && |chains[b]| + 1 >= (buckets[b].expandMult + 1) * 10
    }

    /** The table has just been expanded, from where it was at `was`. */
    ghost predicate Expanded(was: Sizing)
      reads this, buckets
    {
      && numBuckets == 2 * was.numBuckets
      && 0 < numBuckets && idealChainMaxlen == CeilDiv(numItems, numBuckets) > 0
      && nonidealItems == Nonideal(chains, idealChainMaxlen) && Tuned(buckets, idealChainMaxlen)
      && ineffExpands == (if nonidealItems > numItems / 2 then was.ineffExpands + 1 else 0)
      && noexpand == (if ineffExpands > 1 then 1 else was.noexpand)
    }

    constructor (hash: string -> nat, bloomSize: BloomSize)
      ensures Valid() && order == [] && head == null
      ensures this.hash == hash && this.bloomSize == bloomSize
      ensures fresh(buckets) && fresh(bloomBv)
    {
      this.hash, this.bloomSize := hash, bloomSize;
      head, tail, order, chains := null, null, [], [];
      buckets := new Bucket<V>[0];
      bloomBv := new bv8[0];
    }

    /** HASH_FIND: the guard of the Bloom filter never hides an element that is there. */
    method Find(key: string) returns (out: Elem?<V>)
      requires Valid()
      ensures Valid()
      ensures out != null ==> out in order && out.key == key
      ensures out == null ==> forall e | e in order :: e.key != key
    {
      out := null;
      if head != null {
        var hashv := hash(key);
        var bkt := ToBkt(hashv);
        if BloomTest(hashv) {
          out := FindInBkt(buckets[bkt].hhHead, key, chains[bkt]);
        }
        FindCovers(key);
      }
    }

    lemma FindCovers(key: string)
      requires Valid() && head != null
      ensures forall e | e in order && e.key == key :: e in chains[Slot(hash(key), numBuckets)]
      ensures forall b, e | 0 <= b < |chains| && e in chains[b] :: e in order
      ensures forall e | e in order && e.key == key :: BloomTest(hash(key))
    {
      forall e | e in order && e.key == key
        ensures e in chains[Slot(hash(key), numBuckets)]
      {
        assert e in SetOf(order);
        var b, i :| 0 <= b < |chains| && 0 <= i < |chains[b]| && chains[b][i] == e;
        assert e in chains[b];
      }
      forall b, e | 0 <= b < |chains| && e in chains[b]
        ensures e in order
      {
        assert e in Items(chains);
      }
    }

    /**
     What the invariant comes to: the number of buckets is 32 doubled once for
     each expansion, every element is on the chain of its hash value and on no
     other, and as long as expansion is allowed no chain is too long.
     */
    lemma Shape()
      requires Valid() && head != null
      ensures numBuckets == |chains| == 32 * Pow2(expansions)
      ensures forall e, b | 0 <= b < |chains| :: e in chains[b] <==> e in order && b == Slot(hash(e.key), numBuckets)
      ensures noexpand != 1 ==>
        forall b | 0 <= b < |chains| :: |chains[b]| <= (buckets[b].expandMult + 1) * Max(10, idealChainMaxlen)
    {
      PowSum(expansions);
      forall e, b | 0 <= b < |chains|
        ensures e in chains[b] <==> e in order && b == Slot(hash(e.key), numBuckets)
      {
        FindCovers(if e in order then e.key else "");
        if e in chains[b] {
          InPlace(b, e);
        }
      }
    }

    /** No element doubles the buckets of a table that holds, with it, fewer than ten. */
    lemma CrowdNeedsTen(key: string)
      requires Valid() && head != null && |order| + 1 < 10
      ensures |chains| == buckets.Length > 0 && !Crowds(key)
    {
      var c := chains[Slot(hash(key), |chains|)];
      assert forall i | 0 <= i < |c| :: c[i] in Items(chains);
      NoLonger(c, order);
    }

    lemma InPlace(b: nat, e: Elem<V>)
      requires BucketsOk() && b < |chains| && e in chains[b]
      ensures b == Slot(hash(e.key), numBuckets)
    {
    }

    predicate BloomTest(hashv: nat)
      requires bloomSize.BloomBits? ==> bloomBv.Length == Bloom.ByteLen(bloomSize.nbits)
      reads this`bloomBv, bloomBv
    {
      bloomSize.NoBloom? || Bloom.Test(bloomBv, bloomSize.nbits, hashv)
    }

    /** There is a filter, and it has the bit of this hash value. */
    ghost predicate LetsThrough(hashv: nat)
      reads this`bloomBv, bloomBv
    {
      && bloomSize.BloomBits? && bloomBv.Length == Bloom.ByteLen(bloomSize.nbits)
      && Bloom.Test(bloomBv, bloomSize.nbits, hashv)
    }

    ghost predicate SharesBit(h: nat, k: nat) {
      bloomSize.BloomBits? && Bloom.Index(h, bloomSize.nbits) == Bloom.Index(k, bloomSize.nbits)
    }

    /** HASH_TO_BKT: the mask is a reduction modulo the number of buckets. */
    function ToBkt(hashv: nat): (b: nat)
      requires numBuckets == Pow2(log2NumBuckets)
      reads this`numBuckets, this`log2NumBuckets
      ensures b == Slot(hashv, numBuckets)
    {
      MaskIsMod(hashv, log2NumBuckets);
      And(hashv, numBuckets - 1)
    }

    /** The part of HASH_EXPAND_BUCKETS that replaces the bucket array. */
    method DoubleBuckets()
      requires BucketsOk() && numItems > 0
      modifies this`buckets, this`numBuckets, this`log2NumBuckets, this`idealChainMaxlen, this`nonidealItems, this`chains, this`expansions
      modifies Items(chains)`hhPrev, Items(chains)`hhNext
      ensures BucketsOk() && fresh(buckets)
      ensures log2NumBuckets == old(log2NumBuckets) + 1
      ensures numBuckets == 2 * old(numBuckets) && expansions == old(expansions) + 1
      ensures Doubled(old(chains), chains, hash)
      ensures idealChainMaxlen == CeilDiv(numItems, numBuckets) > 0
      ensures nonidealItems == Nonideal(chains, idealChainMaxlen) && Tuned(buckets, idealChainMaxlen)
    {
      hide ArrayOk, Tuned, Nonideal, Items;
      var ideal := IdealLength(numItems, log2NumBuckets + 1);
      var nb, nonideal;
      ghost var cs;
      nb, nonideal, cs := DoubledArray(buckets, ideal, chains, hash);
      idealChainMaxlen, nonidealItems := ideal, nonideal;
      numBuckets := numBuckets * 2;
      log2NumBuckets := log2NumBuckets + 1;
      buckets, chains, expansions := nb, cs, expansions + 1;
    }

    /** HASH_EXPAND_BUCKETS. */
    method ExpandBuckets()
      requires BucketsOk() && numItems > 0
      modifies this`buckets, this`numBuckets, this`log2NumBuckets, this`idealChainMaxlen, this`nonidealItems
      modifies this`ineffExpands, this`noexpand, this`chains, this`expansions
      modifies Items(chains)`hhPrev, Items(chains)`hhNext
      ensures BucketsOk() && fresh(buckets)
      ensures log2NumBuckets == old(log2NumBuckets) + 1
      ensures Doubled(old(chains), chains, hash)
      ensures idealChainMaxlen == CeilDiv(numItems, numBuckets) > 0
      ensures nonidealItems == Nonideal(chains, idealChainMaxlen) && Tuned(buckets, idealChainMaxlen)
      ensures ineffExpands == if nonidealItems > Shr(numItems, 1) then old(ineffExpands) + 1 else 0
      ensures noexpand == if ineffExpands > 1 then 1 else old(noexpand)
      ensures expansions == old(expansions) + 1 && Expanded(old(Size()))
    {
      hide ArrayOk, Tuned, Nonideal, Doubled, CeilDiv;
      DoubleBuckets();
      ineffExpands := if nonidealItems > Shr(numItems, 1) then ineffExpands + 1 else 0;
      if ineffExpands > 1 {
        noexpand := 1;
      }
    }

    /** The memset of HASH_MAKE_TABLE. */
    method ZeroTable()
      modifies this`numItems, this`idealChainMaxlen, this`nonidealItems, this`ineffExpands, this`noexpand
      ensures numItems == idealChainMaxlen == nonidealItems == ineffExpands == noexpand == 0
    {
      numItems, idealChainMaxlen, nonidealItems, ineffExpands, noexpand := 0, 0, 0, 0, 0;
    }

    /** HASH_MAKE_TABLE: an empty table of 32 buckets. */
    method MakeTable()
      requires head != null
      modifies this`tail, this`buckets, this`numBuckets, this`log2NumBuckets, this`numItems, this`idealChainMaxlen
      modifies this`nonidealItems, this`ineffExpands, this`noexpand, this`bloomBv, this`chains, this`expansions
      ensures tail == head && numItems == 0 && expansions == 0 && noexpand == 0
      ensures Size() == Sizing(32, 0, 0, 0, 0)
      ensures forall b | 0 <= b < buckets.Length :: buckets[b].count == buckets[b].expandMult == 0
      ensures BucketsOk() && BoundOk() && Items(chains) == {}
      ensures fresh(buckets) && fresh(bloomBv) && bloomBv as object != buckets
      ensures bloomSize.BloomBits? ==> bloomBv.Length == Bloom.ByteLen(bloomSize.nbits)
      ensures bloomSize.BloomBits? ==> forall h :: !Bloom.Test(bloomBv, bloomSize.nbits, h)
    {
      hide ArrayOk, Items, Cap, Pow2;
      ZeroTable();
      tail, numBuckets, log2NumBuckets, expansions := head, INITIAL_BUCKETS, INITIAL_LOG2, 0;
      bloomBv := EmptyBloom(bloomSize);
      buckets, chains := EmptyArray(INITIAL_BUCKETS, hash);
      InitialSize();
    }

    /** The application-order half of HASH_ADD_KEYPTR. */
    method LinkLast(e: Elem<V>)
      requires OrderOk() && head != null && e !in order
      modifies this`tail, this`order, this`numItems, e`prev, e`next, order`next
      ensures OrderOk() && order == old(order) + [e] && numItems > 0
    {
      e.next := null;
      tail.next := e;
      e.prev := tail;
      tail := e;
      numItems := numItems + 1;
      order := order + [e];
    }

    /** The relinking half of HASH_ADD_TO_BKT. */
    method PushBkt(b: nat, e: Elem<V>)
      requires BucketsOk() && b == Slot(hash(e.key), numBuckets)
      requires e !in Items(chains) && e.hashv == hash(e.key)
      modifies this`chains, buckets, Items(chains)`hhPrev, e`hhPrev, e`hhNext
      ensures BucketsOk() && Items(chains) == old(Items(chains)) + {e}
      ensures chains == old(Pushed(chains, e, hash)) && buckets[b].count == old(|chains[b]|) + 1
      ensures buckets[b].expandMult == old(buckets[b].expandMult)
      ensures forall i | 0 <= i < buckets.Length && i != b :: buckets[i] == old(buckets[i])
    {
      PlacedPush(chains, hash, e, b);
      ItemsPush(chains, b, e);
      PushFront(buckets, b, e, chains, hash);
      chains := chains[b := [e] + chains[b]];
    }

    lemma CrowdsIs(key: string)
      requires BucketsOk()
      ensures |chains| == buckets.Length == numBuckets
      ensures var b := Slot(hash(key), numBuckets);
        Crowds(key) <==> noexpand != 1 && |chains[b]| + 1 >= (buckets[b].expandMult + 1) * BKT_CAPACITY_THRESH
    {
    }

    /** HASH_ADD_TO_BKT. */
    method AddToBkt(e: Elem<V>)
      requires BucketsOk() && BoundOk() && numItems > 0
      requires e !in Items(chains) && e.hashv == hash(e.key)
      modifies this`buckets, this`numBuckets, this`log2NumBuckets, this`idealChainMaxlen, this`nonidealItems
      modifies this`ineffExpands, this`noexpand, this`chains, this`expansions, buckets
      modifies Items(chains)`hhPrev, Items(chains)`hhNext, e`hhPrev, e`hhNext
      ensures BucketsOk() && BoundOk() && Items(chains) == old(Items(chains)) + {e}
      ensures buckets == old(buckets) || fresh(buckets)
      ensures old(Crowds(e.key)) ==> expansions == old(expansions) + 1 && Expanded(old(Size()))
      ensures old(Crowds(e.key)) ==> Doubled(old(Pushed(chains, e, hash)), chains, hash)
      ensures !old(Crowds(e.key)) ==> expansions == old(expansions) && Size() == old(Size()) && buckets == old(buckets)
      ensures !old(Crowds(e.key)) ==> chains == old(Pushed(chains, e, hash))
      ensures !old(Crowds(e.key)) ==> forall i | 0 <= i < buckets.Length :: buckets[i].expandMult == old(buckets[i].expandMult)
    {
      hide ArrayOk, Cap, Tuned, Nonideal, Doubled, CeilDiv, Pushed, Expanded, Crowds;
      CrowdsIs(e.key);
      var b := ToBkt(e.hashv);
      PushBkt(b, e);
      ghost var cs := chains;
      if buckets[b].count >= (buckets[b].expandMult + 1) * BKT_CAPACITY_THRESH && noexpand != 1 {
        ExpandBuckets();
        DoubledItems(cs, chains, hash);
        TunedIsBounded(buckets, idealChainMaxlen);
      } else {
        BelowThreshold(buckets[b], idealChainMaxlen);
      }
    }

    lemma OrderFacts()
      requires OrderOk()
      ensures head == null <==> order == []
      ensures Distinct(order)
    {
    }

    /** HASH_ADD_KEYPTR, up to the hash function: a new table if need be, and the end of the application-order list. */
    method Append(e: Elem<V>)
      requires Valid() && e !in order
      modifies this, e`prev, e`next, order`next
      ensures OrderOk() && order == old(order) + [e] && head != null && numItems > 0 && e !in Items(chains)
      ensures BucketsOk() && BoundOk() && Items(chains) == SetOf(old(order)) && BloomCovers(old(order))
      ensures bloomBv as object != buckets
      ensures old(head) != null ==> buckets == old(buckets) && bloomBv == old(bloomBv) && chains == old(chains)
      ensures old(head) != null ==> Size() == old(Size()) && expansions == old(expansions)
      ensures old(head) == null ==> fresh(buckets) && fresh(bloomBv) && Items(chains) == {}
      ensures old(head) == null ==> Size() == Sizing(32, 0, 0, 0, 0) && expansions == 0 && |chains| == buckets.Length > 0 && !Crowds(e.key)
      ensures forall h | LetsThrough(h) :: old(head != null && LetsThrough(h))
    {
      hide ArrayOk, Cap, OrderOk, BucketsOk, BoundOk, DistinctKeys;
      OrderFacts();
      if head == null {
        StartTable(e);
      } else {
        LinkLast(e);
      }
    }

    /** The first element brings the table into being. */
    method StartTable(e: Elem<V>)
      requires head == null
      modifies this, e`prev, e`next
      ensures OrderOk() && order == [e] && head != null && numItems == 1
      ensures Size() == Sizing(32, 0, 0, 0, 0) && expansions == 0 && |chains| == buckets.Length > 0 && !Crowds(e.key)
      ensures BucketsOk() && BoundOk() && Items(chains) == {}
      ensures fresh(buckets) && fresh(bloomBv) && bloomBv as object != buckets
      ensures bloomSize.BloomBits? ==> bloomBv.Length == Bloom.ByteLen(bloomSize.nbits)
      ensures forall h :: !LetsThrough(h)
    {
      hide ArrayOk, Items, Cap, AppLinked;
      e.next := null;
      head := e;
      e.prev := null;
      MakeTable();
      numItems := numItems + 1;
      EmptyNotCrowded(e.key);
      order := [e];
      SingleLinked(e);
    }

    lemma EmptyNotCrowded(key: string)
      requires BucketsOk() && forall b | 0 <= b < buckets.Length :: buckets[b].count == buckets[b].expandMult == 0
      ensures |chains| == buckets.Length > 0 && !Crowds(key)
    {
    }

    /** HASH_BLOOM_ADD, when compiled in. */
    method BloomAdd(hashv: nat, ghost s: seq<Elem<V>>, ghost e: Elem<V>)
      requires BloomCovers(s) && hashv == hash(e.key)
      modifies bloomBv
      ensures BloomCovers(s + [e])
      ensures forall h :: LetsThrough(h) <==> old(LetsThrough(h)) || SharesBit(h, hashv)
    {
      if bloomSize.BloomBits? {
        Bloom.Add(bloomBv, bloomSize.nbits, hashv);
      }
    }

    /** HASH_ADD_KEYPTR before the Bloom filter hears of it. */
    method Insert(e: Elem<V>)
      requires Valid() && e !in order
      modifies this, buckets, e`prev, e`next, e`hashv, e`hhPrev, e`hhNext
      modifies order`next, order`hhPrev, order`hhNext
      ensures OrderOk() && order == old(order) + [e] && head != null && e.hashv == hash(e.key)
      ensures BucketsOk() && BoundOk() && Items(chains) == SetOf(old(order)) + {e}
      ensures BloomCovers(old(order)) && bloomBv as object != buckets
      ensures forall h | LetsThrough(h) :: old(head != null && LetsThrough(h))
      ensures old(head) != null ==> bloomBv == old(bloomBv) && bloomBv[..] == old(bloomBv[..])
      ensures buckets == old(buckets) || fresh(buckets)
      ensures bloomBv == old(bloomBv) || fresh(bloomBv)
      ensures old(head) == null ==> expansions == 0 && Size() == Sizing(32, 0, 0, 0, 0)
      ensures old(head != null && Crowds(e.key)) ==> expansions == old(expansions) + 1 && Expanded(old(Size()))
      ensures old(head != null && Crowds(e.key)) ==> Doubled(old(Pushed(chains, e, hash)), chains, hash)
      ensures old(head != null && !Crowds(e.key)) ==> expansions == old(expansions) && Size() == old(Size()) && buckets == old(buckets)
      ensures old(head != null && !Crowds(e.key)) ==> chains == old(Pushed(chains, e, hash))
      ensures old(head != null && !Crowds(e.key)) ==> forall i | 0 <= i < buckets.Length :: buckets[i].expandMult == old(buckets[i].expandMult)
    {
      hide ArrayOk, Cap, AppLinked, BucketsOk, BoundOk, BloomCovers, OrderOk, DistinctKeys, Pushed, Doubled, Expanded, Crowds, Slot;
      Append(e);
      e.hashv := hash(e.key);
      AddToBkt(e);
    }

    /** HASH_ADD_KEYPTR of an element with a new key. */
    method Add(e: Elem<V>)
      requires Valid() && e !in order
      requires forall x | x in order :: x.key != e.key
      modifies this, buckets, bloomBv, e`prev, e`next, e`hashv, e`hhPrev, e`hhNext
      modifies order`next, order`hhPrev, order`hhNext
      ensures Valid() && order == old(order) + [e]
      ensures forall h :: LetsThrough(h) <==> old(head != null && LetsThrough(h)) || SharesBit(h, hash(e.key))
      ensures buckets == old(buckets) || fresh(buckets)
      ensures bloomBv == old(bloomBv) || fresh(bloomBv)
      ensures old(head) == null ==> expansions == 0 && Size() == Sizing(32, 0, 0, 0, 0)
      ensures old(head != null && Crowds(e.key)) ==> expansions == old(expansions) + 1 && Expanded(old(Size()))
      ensures old(head != null && Crowds(e.key)) ==> Doubled(old(Pushed(chains, e, hash)), chains, hash)
      ensures old(head != null && !Crowds(e.key)) ==> expansions == old(expansions) && Size() == old(Size()) && buckets == old(buckets)
      ensures old(head != null && !Crowds(e.key)) ==> chains == old(Pushed(chains, e, hash))
      ensures old(head != null && !Crowds(e.key)) ==> forall i | 0 <= i < buckets.Length :: buckets[i].expandMult == old(buckets[i].expandMult)
    {
      hide ArrayOk, BucketsOk, BoundOk, BloomCovers, OrderOk, DistinctKeys, SetOf, Pushed, Doubled, Expanded, Crowds, LetsThrough, SharesBit, Slot;
      KeysAppend(order, e);
      SetOfAppend(order, e);
      Insert(e);
      BloomAdd(e.hashv, old(order), e);
    }

    /** The application-order half of HASH_DELETE, on a list of two or more. */
    method UnlinkOrder(e: Elem<V>, ghost k: nat)
      requires OrderOk() && |order| >= 2 && k < |order| && order[k] == e
      modifies this`head, this`tail, this`order, this`numItems, order`prev, order`next
      ensures OrderOk() && order == Without(old(order), k) && head != null
    {
      hide AppLinked, Distinct;
      Neighbours(e, k);
      var h := if e.prev == null then e.next else head;
      var t := if e == tail then e.prev else tail;
      UnlinkApp(e, order, k);
      DistinctWithout(order, k);
      Adopt(h, t, Without(order, k));
    }

    lemma Neighbours(e: Elem<V>, k: nat)
      requires OrderOk() && k < |order| && order[k] == e
      ensures e.prev == (if k == 0 then null else order[k - 1])
      ensures e.next == (if k == |order| - 1 then null else order[k + 1])
      ensures e == tail <==> k == |order| - 1
    {
    }

    /** `s` becomes the application order. */
    method Adopt(h: Elem<V>, t: Elem<V>, ghost s: seq<Elem<V>>)
      requires s != [] && Distinct(s) && AppLinked(s) && h == s[0] && t == s[|s| - 1]
      requires numItems == |s| + 1
      modifies this`head, this`tail, this`order, this`numItems
      ensures OrderOk() && order == s && head != null
    {
      head, tail, order, numItems := h, t, s, numItems - 1;
    }

    /** HASH_DEL_IN_BKT on the bucket of `e`. */
    method DelInBkt(e: Elem<V>)
      requires BucketsOk() && BoundOk() && e in Items(chains)
      modifies this`chains, buckets, Items(chains)`hhPrev, Items(chains)`hhNext
      ensures BucketsOk() && BoundOk() && Items(chains) == old(Items(chains)) - {e}
      ensures forall i | 0 <= i < buckets.Length :: buckets[i].expandMult == old(buckets[i].expandMult)
    {
      var b := ToBkt(e.hashv);
      ghost var k := PlaceOf(chains, hash, e);
      assert b == Slot(hash(e.key), |chains|);
      RemovePlaced(chains, hash, b, k);
      Unlink(buckets, b, e, k, chains, hash);
      chains := chains[b := Without(chains[b], k)];
    }

    /** HASH_DELETE of an element that is not alone. */
    method DeleteLinked(e: Elem<V>, ghost k: nat)
      requires OrderOk() && BucketsOk() && BoundOk() && Items(chains) == SetOf(order)
      requires |order| >= 2 && k < |order| && order[k] == e
      modifies this`head, this`tail, this`order, this`numItems, this`chains
      modifies buckets, order`prev, order`next, order`hhPrev, order`hhNext
      ensures OrderOk() && BucketsOk() && BoundOk() && Items(chains) == SetOf(order)
      ensures order == Without(old(order), k) && head != null
      ensures forall i | 0 <= i < buckets.Length :: buckets[i].expandMult == old(buckets[i].expandMult)
    {
      hide ArrayOk, Cap, OrderOk, BucketsOk, BoundOk;
      OrderFacts();
      SetOfWithout(order, k);
      UnlinkOrder(e, k);
      DelInBkt(e);
    }

    /** HASH_DELETE: the last element takes the whole table with it. */
    method Delete(e: Elem<V>, ghost k: nat)
      requires Valid() && k < |order| && order[k] == e
      modifies this`head, this`tail, this`order, this`numItems, this`chains
      modifies buckets, order`prev, order`next, order`hhPrev, order`hhNext
      ensures Valid() && order == Without(old(order), k)
      ensures forall i | 0 <= i < buckets.Length :: buckets[i].expandMult == old(buckets[i].expandMult)
    {
      hide ArrayOk, Cap, OrderOk, BucketsOk, BoundOk, BloomCovers, DistinctKeys, Without;
      OrderFacts();
      Neighbours(e, k);
      BloomWithout(order, k);
      KeysWithout(order, k);
      if e.prev == null && e.next == null {
        FreeTable();
      } else {
        DeleteLinked(e, k);
      }
    }

    method FreeTable()
      requires |order| == 1
      modifies this`head, this`order
      ensures OrderOk() && order == Without(old(order), 0) && head == null
    {
      head, order := null, [];
    }

    lemma BloomWithout(s: seq<Elem<V>>, k: nat)
      requires BloomCovers(s) && k < |s|
      ensures BloomCovers(Without(s, k))
    {
    }

    /** HASH_SRT on a table that is there. */
    method SortItems(cmp: (Elem<V>, Elem<V>) -> int)
      requires OrderOk() && head != null && DistinctKeys(order)
      modifies this`head, this`tail, this`order, order`prev, order`next
      ensures OrderOk() && head != null && DistinctKeys(order) && SetOf(order) == SetOf(old(order))
      ensures order == SortFrom(old(order), 1, cmp) && multiset(order) == multiset(old(order))
    {
      hide AppLinked, SortFrom, DistinctKeys, Ending, Distinct, Inside;
      SortMembers(order, 1, cmp);
      LinkedEnding(order);
      InsideSetOf(order);
      var list, tl;
      ghost var out;
      list, tl, out := SortList(head, cmp, order, SetOf(order));
      SameSet(order, out);
      Reorder(list, tl, out);
    }

    /** HASH_SRT: only the application order changes; no chain, and so no lookup, is touched. */
    method Sort(cmp: (Elem<V>, Elem<V>) -> int)
      requires Valid()
      modifies this`head, this`tail, this`order, order`prev, order`next
      ensures Valid() && order == SortFrom(old(order), 1, cmp)
    {
      hide ArrayOk, BucketsOk, BoundOk, BloomCovers, OrderOk, SortFrom, DistinctKeys;
      OrderFacts();
      SortMembers(order, 1, cmp);
      if head != null {
        BloomSame(order, SortFrom(order, 1, cmp));
        SortItems(cmp);
      }
    }

    method Reorder(h: Elem<V>, t: Elem<V>, ghost s: seq<Elem<V>>)
      requires s != [] && Distinct(s) && AppLinked(s) && h == s[0] && t == s[|s| - 1] && numItems == |s|
      modifies this`head, this`tail, this`order
      ensures OrderOk() && order == s && head != null
    {
      tail, head, order := t, h, s;
    }

    lemma BloomSame(s: seq<Elem<V>>, t: seq<Elem<V>>)
      requires BloomCovers(s) && multiset(t) == multiset(s)
      ensures BloomCovers(t)
    {
      forall e | e in t
        ensures e in s
      {
        assert e in multiset(t);
      }
    }
  }

  /** `e` in front on the chain of its hash value. */
  ghost function Pushed<V>(cs: seq<seq<Elem<V>>>, e: Elem<V>, hash: string -> nat): seq<seq<Elem<V>>>
    requires |cs| > 0
  {
    var b := Slot(hash(e.key), |cs|);
    cs[b := [e] + cs[b]]
  }

  lemma {:induction false} PowSum(n: nat)
    ensures Pow2(INITIAL_LOG2 + n) == 32 * Pow2(n)
  {
    if n > 0 {
      PowSum(n - 1);
    } else {
      assert Pow2(5) == 2 * Pow2(4) && Pow2(4) == 2 * Pow2(3) && Pow2(3) == 2 * Pow2(2) && Pow2(2) == 2 * Pow2(1);
    }
  }

  ghost function SetOf<V>(s: seq<Elem<V>>): set<Elem<V>> {
    set e | e in s
  }

  ghost predicate DistinctKeys<V>(s: seq<Elem<V>>) {
    forall i, j | 0 <= i < j < |s| :: s[i].key != s[j].key
  }

  ghost predicate ArrayOk<V>(bs: array<Bucket<V>>, cs: seq<seq<Elem<V>>>, hash: string -> nat)
    reads bs, Items(cs)`hhPrev, Items(cs)`hhNext, Items(cs)`hashv
  {
    && Placed(cs, hash) && Linked(bs, cs)
    && forall e | e in Items(cs) :: e.hashv == hash(e.key)
  }

  lemma AllPending<V>(bs: array<Bucket<V>>, cs: seq<seq<Elem<V>>>, hash: string -> nat)
    requires ArrayOk(bs, cs, hash)
    ensures Pending(bs, cs, 0, hash)
  {
    forall k | 0 <= k < |cs|
      ensures Rest(bs[k].hhHead, cs[k], 0, hash)
    {
      assert forall t | 0 <= t < |cs[k]| :: cs[k][t] in Items(cs);
    }
  }

  method DoubledArray<V>(bs: array<Bucket<V>>, ideal: nat, ghost cs0: seq<seq<Elem<V>>>, ghost hash: string -> nat)
    returns (nb: array<Bucket<V>>, nonideal: nat, ghost cs: seq<seq<Elem<V>>>)
    requires ideal > 0 && ArrayOk(bs, cs0, hash)
    modifies Items(cs0)`hhPrev, Items(cs0)`hhNext
    ensures fresh(nb) && nb.Length == |cs| == 2 * bs.Length && ArrayOk(nb, cs, hash) && Tuned(nb, ideal) && nonideal == Nonideal(cs, ideal)
    ensures Doubled(cs0, cs, hash)
  {
    AllPending(bs, cs0, hash);
    nb, nonideal, cs := Redistribute(bs, ideal, cs0, hash);
    MovedIsDoubled(cs0, cs, hash);
  }

  /** Every new chain `b` is the part of old chain `b mod n` that hashes to it, reversed. */
  ghost predicate Doubled<V>(old_: seq<seq<Elem<V>>>, cs: seq<seq<Elem<V>>>, hash: string -> nat)
    requires |old_| > 0
  {
    && |cs| == 2 * |old_|
    && Items(cs) == Items(old_)
    && forall b | 0 <= b < |cs| :: cs[b] == Picked(old_[Slot(b, |old_|)], b, |cs|, hash)
  }

  lemma DoubledItems<V>(old_: seq<seq<Elem<V>>>, cs: seq<seq<Elem<V>>>, hash: string -> nat)
    requires |old_| > 0 && Doubled(old_, cs, hash)
    ensures Items(cs) == Items(old_)
  {
  }

  lemma MovedIsDoubled<V>(old_: seq<seq<Elem<V>>>, cs: seq<seq<Elem<V>>>, hash: string -> nat)
    requires Placed(old_, hash) && MovedAll(old_, cs, |old_|, 0, hash)
    ensures Doubled(old_, cs, hash)
  {
    forall b, k | 0 <= b < |cs| && 0 <= k < |cs[b]|
      ensures cs[b][k] in Items(old_)
    {
      PickedFrom(old_[Slot(b, |old_|)], b, |cs|, hash);
      assert cs[b][k] in old_[Slot(b, |old_|)];
    }
    forall s, k | 0 <= s < |old_| && 0 <= k < |old_[s]|
      ensures old_[s][k] in Items(cs)
    {
      var e := old_[s][k];
      var b := Slot(hash(e.key), |cs|);
      DoublingSplits(hash(e.key), |old_|);
      assert Slot(b, |old_|) == s;
      PickedAll(old_[s], b, |cs|, hash, e);
      var t :| 0 <= t < |cs[b]| && cs[b][t] == e;
    }
  }

  lemma {:induction false} PickedAll<V>(c: seq<Elem<V>>, b: nat, m: nat, hash: string -> nat, e: Elem<V>)
    requires m > 0 && e in c && Slot(hash(e.key), m) == b
    ensures e in Picked(c, b, m, hash)
  {
    var k := |c| - 1;
    if e != c[k] {
      PickedAll(c[..k], b, m, hash, e);
    }
  }

  method FindInBkt<V>(first: Elem?<V>, key: string, ghost c: seq<Elem<V>>) returns (out: Elem?<V>)
    requires ChainLinked(first, c)
    ensures out != null ==> out in c && out.key == key
    ensures out == null ==> forall e | e in c :: e.key != key
  {
    out := first;
    ghost var j := 0;
    while out != null
      invariant j <= |c| && out == if j < |c| then c[j] else null
      invariant forall t | 0 <= t < j :: c[t].key != key
      decreases |c| - j
    {
      if out.key == key { break; }
      out := out.hhNext;
      j := j + 1;
    }
  }

  lemma BelowThreshold<V>(b: Bucket<V>, ideal: nat)
    ensures b.count < (b.expandMult + 1) * BKT_CAPACITY_THRESH ==> b.count <= Cap(b.expandMult, ideal)
  {
    MulMono(b.expandMult + 1, BKT_CAPACITY_THRESH, Max(BKT_CAPACITY_THRESH, ideal));
  }

  lemma SingleLinked<V>(e: Elem<V>)
    requires e.prev == null && e.next == null
    ensures AppLinked([e])
  {
  }

  lemma KeysAppend<V>(s: seq<Elem<V>>, e: Elem<V>)
    requires DistinctKeys(s) && forall x | x in s :: x.key != e.key
    ensures DistinctKeys(s + [e])
  {
  }

  /** A chain of distinct elements is no longer than a list that has them all. */
  lemma {:induction false} NoLonger<V>(c: seq<Elem<V>>, s: seq<Elem<V>>)
    requires Distinct(c) && forall i | 0 <= i < |c| :: c[i] in SetOf(s)
    ensures |c| <= |s|
    decreases |c|
  {
    if c != [] {
      var n := |c| - 1;
      var k :| 0 <= k < |s| && s[k] == c[n];
      var t := Without(s, k);
      forall i | 0 <= i < n
        ensures c[..n][i] in SetOf(t)
      {
        var j :| 0 <= j < |s| && s[j] == c[i];
        assert t[if j < k then j else j - 1] == c[i];
      }
      NoLonger(c[..n], t);
    }
  }

  lemma SetOfAppend<V>(s: seq<Elem<V>>, e: Elem<V>)
    ensures SetOf(s + [e]) == SetOf(s) + {e}
  {
  }

  ghost function Without<T>(s: seq<T>, k: nat): seq<T>
    requires k < |s|
  {
    s[..k] + s[k + 1..]
  }

  lemma DistinctWithout<T>(s: seq<T>, k: nat)
    requires Distinct(s) && k < |s|
    ensures Distinct(Without(s, k))
  {
  }

  lemma KeysWithout<V>(s: seq<Elem<V>>, k: nat)
    requires DistinctKeys(s) && k < |s|
    ensures DistinctKeys(Without(s, k))
  {
  }

  lemma SetOfWithout<V>(s: seq<Elem<V>>, k: nat)
    requires k < |s| && Distinct(s)
    ensures SetOf(Without(s, k)) == SetOf(s) - {s[k]}
  {
    forall e | e in s && e != s[k]
      ensures e in Without(s, k)
    {
      var i :| 0 <= i < |s| && s[i] == e;
      assert Without(s, k)[if i < k then i else i - 1] == e;
    }
  }

  /** The position of an element in the chain of its bucket. */
  lemma PlaceOf<V>(cs: seq<seq<Elem<V>>>, hash: string -> nat, e: Elem<V>) returns (k: nat)
    requires Placed(cs, hash) && e in Items(cs)
    ensures k < |cs[Slot(hash(e.key), |cs|)]| && cs[Slot(hash(e.key), |cs|)][k] == e
  {
    var b, i :| 0 <= b < |cs| && 0 <= i < |cs[b]| && cs[b][i] == e;
    assert e in cs[b];
    k := i;
  }

  lemma RemovePlaced<V>(cs: seq<seq<Elem<V>>>, hash: string -> nat, b: nat, k: nat)
    requires Placed(cs, hash) && b < |cs| && k < |cs[b]|
    ensures var cs' := cs[b := Without(cs[b], k)];
      Placed(cs', hash) && Items(cs') == Items(cs) - {cs[b][k]}
  {
    var e, c := cs[b][k], Without(cs[b], k);
    var cs' := cs[b := c];
    ChainsDisjoint(cs, hash, b);
    forall i, x | 0 <= i < |cs'| && x in cs'[i]
      ensures x in cs[i] && x != e
    {
    }
    forall i, j | 0 <= i < |cs| && 0 <= j < |cs[i]| && cs[i][j] != e
      ensures cs[i][j] in Items(cs')
    {
      if i == b {
        assert cs'[b][if j < k then j else j - 1] == cs[i][j];
      } else {
        assert cs'[i][j] == cs[i][j];
      }
    }
  }

  /** A rearrangement of distinct elements with distinct keys. */
  lemma SameSet<V>(s: seq<Elem<V>>, t: seq<Elem<V>>)
    requires DistinctKeys(s) && multiset(t) == multiset(s) && Distinct(t)
    ensures SetOf(t) == SetOf(s) && DistinctKeys(t)
  {
    assert forall e :: e in s <==> e in multiset(s);
    assert forall e :: e in t <==> e in multiset(t);
    forall i, j | 0 <= i < j < |t|
      ensures t[i].key != t[j].key
    {
      assert t[i] in s && t[j] in s;
    }
  }

  lemma InsideSetOf<V>(s: seq<Elem<V>>)
    ensures Inside(s, SetOf(s))
  {
  }

  lemma InitialSize()
    ensures Pow2(INITIAL_LOG2) == INITIAL_BUCKETS
  {
    assert Pow2(2) == 4;
    assert Pow2(4) == 16;
  }

  /** HASH_BLOOM_MAKE. */
  method EmptyBloom(size: BloomSize) returns (bv: array<bv8>)
    ensures fresh(bv) && (size.BloomBits? ==> bv.Length == Bloom.ByteLen(size.nbits))
    ensures size.BloomBits? ==> forall h :: !Bloom.Test(bv, size.nbits, h)
  {
    bv := new bv8[if size.BloomBits? then Bloom.ByteLen(size.nbits) else 0](_ => 0);
    if size.BloomBits? {
      Bloom.ClearTestsNone(bv, size.nbits);
    }
  }

  method EmptyArray<V>(n: nat, ghost hash: string -> nat) returns (nb: array<Bucket<V>>, ghost cs: seq<seq<Elem<V>>>)
    requires n > 0
    ensures fresh(nb) && nb.Length == n && ArrayOk(nb, cs, hash) && Items(cs) == {}
    ensures forall b | 0 <= b < n :: nb[b].count == nb[b].expandMult == 0
  {
    nb := new Bucket<V>[n](_ => Bucket(null, 0, 0));
    cs := seq(n, _ => []);
  }

  /** Right after an expansion no chain is longer than its bucket's multiplier allows. */
  lemma TunedIsBounded<V>(bs: array<Bucket<V>>, ideal: nat)
    requires ideal > 0 && Tuned(bs, ideal)
    ensures forall b | 0 <= b < bs.Length :: bs[b].count <= Cap(bs[b].expandMult, ideal)
  {
    forall b | 0 <= b < bs.Length
      ensures bs[b].count <= Cap(bs[b].expandMult, ideal)
    {
      CapCovers(bs[b].count, ideal);
    }
  }

  lemma CapCovers(count: nat, ideal: nat)
    requires ideal > 0
    ensures count <= Cap(Mult(count, ideal), ideal)
  {
    var m, x := Mult(count, ideal) + 1, Max(BKT_CAPACITY_THRESH, ideal);
    if count > ideal {
      assert count < ideal * m;
    }
    assert m * ideal <= m * x by { MulMono(m, ideal, x); }
  }

  lemma MulMono(m: nat, a: nat, b: nat)
    requires a <= b
    ensures m * a <= m * b
  {
  }
}
