/** The hash table of providers. */
module NpHash {
  import opened Sequences
  import opened Elements
  import opened Buckets
  import opened HashTable
  import opened Trailing
  import opened Hub

  class MainNp {
    const keyVals: seq<string>
    var appCount: int

    constructor (keyVals: seq<string>)
      ensures this.keyVals == keyVals && appCount == 0
    {
      this.keyVals, appCount := keyVals, 0;
    }
  }

  ghost function ValuesOf(s: seq<Elem<MainNp>>): seq<MainNp> {
    seq(|s|, i requires 0 <= i < |s| => s[i].value)
  }

  ghost function NpsOf(s: seq<Elem<MainNp>>): seq<Np>
    reads ValuesOf(s)
  {
    seq(|s|, i requires 0 <= i < |s| reads ValuesOf(s) => NpOf(s[i].key, ValuesOf(s)[i]))
  }

  ghost function NpOf(key: string, v: MainNp): Np
    reads v
  {
    Np(key, v.keyVals, v.appCount)
  }

  class HashStructNp {
    const npHash: Table<MainNp>
    ghost var repr: set<object>

    ghost predicate TableIn()
      reads this, npHash
    {
      && this in repr && npHash in repr
      && (forall i | 0 <= i < |npHash.order| :: npHash.order[i] in repr && npHash.order[i].value in repr)
      && Distinct(ValuesOf(npHash.order))
    }

    ghost predicate Valid()
      reads this, npHash, npHash.buckets, npHash.bloomBv, npHash.order, Items(npHash.chains)
    {
      TableIn() && npHash.Valid()
    }

    ghost function View(): seq<Np>
      reads npHash, ValuesOf(npHash.order)
    {
      NpsOf(npHash.order)
    }

    constructor (hash: string -> nat, bloomSize: BloomSize)
      ensures TableIn() && npHash.head == null && npHash.order == []
      ensures Valid() && View() == [] && fresh(repr) && fresh(npHash.buckets) && fresh(npHash.bloomBv)
    {
      npHash := new Table<MainNp>(hash, bloomSize);
      new;
      repr := {this, npHash};
    }

    lemma EmptyIsValid()
      requires TableIn() && npHash.head == null && npHash.order == []
      ensures Valid() && View() == []
    {
    }

    lemma KeysDiffer(k: nat)
      requires npHash.Valid() && k < |npHash.order|
      ensures forall j | 0 <= j < k :: npHash.order[j].key != npHash.order[k].key
    {
    }

    lemma NpAtPlace(k: nat, np: string)
      requires k <= |npHash.order| && forall j | 0 <= j < k :: npHash.order[j].key != np
      requires k < |npHash.order| ==> npHash.order[k].key == np
      ensures NpAt(View(), np) == k
    {
      var i := NpAt(View(), np);
      assert k < |View()| ==> View()[k].name == npHash.order[k].key;
      assert i < |View()| ==> View()[i].name == npHash.order[i].key;
    }

    /** HASH_FIND_STR, and where the element is. */
    method FindStr(np: string) returns (s: Elem?<MainNp>, ghost k: nat)
      requires Valid()
      ensures Valid() && View() == old(View())
      ensures k == NpAt(View(), np) <= |npHash.order| == |View()|
      ensures if s == null then k == |npHash.order| else k < |npHash.order| && s == npHash.order[k]
    {
      hide Table.Valid, NpAt;
      s := npHash.Find(np);
      k := |npHash.order|;
      if s != null {
        k :| 0 <= k < |npHash.order| && npHash.order[k] == s;
        KeysDiffer(k);
      }
      NpAtPlace(k, np);
    }

    /** add_np_to_hash. */
    method AddNp(np: string, keyVals: seq<string>) returns (ret: int)
      requires Valid()
      modifies repr, npHash.buckets, npHash.bloomBv
      ensures Valid() && fresh(repr - old(repr))
      ensures ret == (if Known(old(View()), np) then -1 else 0)
      ensures View() == if ret == 0 then old(View()) + [Np(np, keyVals, 0)] else old(View())
      ensures npHash.buckets == old(npHash.buckets) || fresh(npHash.buckets)
      ensures npHash.bloomBv == old(npHash.bloomBv) || fresh(npHash.bloomBv)
    {
      hide Table.OrderOk, Table.BucketsOk, Table.BoundOk, Table.BloomCovers, NpAt;
      var s, k := FindStr(np);
      if s != null {
        return -1;
      }
      var v := new MainNp(keyVals);
      var n := new Elem(np, v);
      AddNew(n);
      ret := 0;
    }

    /** HASH_ADD_KEYPTR of a new provider. */
    method AddNew(n: Elem<MainNp>)
      requires Valid() && NpAt(View(), n.key) == |View()| && n !in repr && n.value !in repr
      modifies repr, npHash.buckets, npHash.bloomBv, n
      ensures Valid() && repr == old(repr) + {n, n.value}
      ensures View() == old(View()) + [NpOf(n.key, n.value)]
      ensures npHash.buckets == old(npHash.buckets) || fresh(npHash.buckets)
      ensures npHash.bloomBv == old(npHash.bloomBv) || fresh(npHash.bloomBv)
    {
      hide Table.Expanded, Table.Crowds, Pushed, Doubled, Table.OrderOk, Table.BucketsOk, Table.BoundOk, Table.BloomCovers, NpAt;
      assert forall i | 0 <= i < |npHash.order| :: View()[i].name == npHash.order[i].key;
      repr := repr + {n, n.value};
      npHash.Add(n);
    }

    /** del_np_from_hash. */
    method DelNp(np: string) returns (ret: int)
      requires Valid()
      modifies repr, npHash.buckets
      ensures Valid() && repr == old(repr)
      ensures View() == WithoutNpAt(old(View()), np) && ret == if Known(old(View()), np) then 0 else -1
      ensures npHash.buckets == old(npHash.buckets) && npHash.bloomBv == old(npHash.bloomBv)
    {
      hide Table.OrderOk, Table.BucketsOk, Table.BoundOk, Table.BloomCovers, NpAt;
      var s, k := FindStr(np);
      if s == null {
        return -1;
      }
      Unlink(s, k);
      ret := 0;
    }

    method Unlink(s: Elem<MainNp>, ghost k: nat)
      requires Valid() && k < |npHash.order| && s == npHash.order[k]
      modifies repr, npHash.buckets
      ensures Valid() && View() == Drop(old(View()), k) && repr == old(repr)
      ensures npHash.buckets == old(npHash.buckets) && npHash.bloomBv == old(npHash.bloomBv)
    {
      hide Table.OrderOk, Table.BucketsOk, Table.BoundOk, Table.BloomCovers;
      npHash.Delete(s, k);
      assert forall i | 0 <= i < |npHash.order| :: ValuesOf(npHash.order)[i] == ValuesOf(old(npHash.order))[if i < k then i else i + 1];
    }

    /** incr_np_app_cnt_hash and decr_np_app_cnt_hash. */
    method BumpAppCnt(np: string, d: int)
      requires Valid()
      modifies repr
      ensures Valid() && View() == Bump(old(View()), np, d) && repr == old(repr)
      ensures npHash.buckets == old(npHash.buckets) && npHash.bloomBv == old(npHash.bloomBv)
      ensures npHash.order == old(npHash.order)
    {
      hide Table.OrderOk, Table.BucketsOk, Table.BoundOk, Table.BloomCovers, NpAt;
      var s, k := FindStr(np);
      if s != null {
        ghost var vs, was := ValuesOf(npHash.order), View();
        assert vs[k] == s.value;
        s.value.appCount := s.value.appCount + d;
        assert forall i | 0 <= i < |vs| && i != k :: vs[i] != vs[k];
        assert View() == was[k := was[k].(appCount := was[k].appCount + d)];
      }
    }

    /** get_np_app_cnt_hash. */
    method GetAppCnt(np: string) returns (count: int)
      requires Valid()
      ensures Valid() && View() == old(View())
      ensures count == if Known(View(), np) then View()[NpAt(View(), np)].appCount else -1
    {
      hide Table.OrderOk, Table.BucketsOk, Table.BoundOk, Table.BloomCovers, NpAt;
      var s, k := FindStr(np);
      if s == null {
        return -1;
      }
      count := s.value.appCount;
    }

    /** The walk of print_hash_np, with the counts. */
    method Contents() returns (nps: seq<Np>)
      requires Valid()
      ensures nps == old(View())
    {
      hide Table.BucketsOk, Table.BoundOk, Table.BloomCovers;
      var s := npHash.head;
      ghost var order := npHash.order;
      nps := [];
      while s != null
        invariant |nps| <= |order| && s == if |nps| < |order| then order[|nps|] else null
        invariant nps == View()[..|nps|]
        decreases |order| - |nps|
      {
        nps := nps + [Np(s.key, s.value.keyVals, s.value.appCount)];
        s := s.next;
      }
    }
  }
}
