/** The hash registry of applications: a hash table of records. */
module AppHash {
  import opened Sequences
  import opened Elements
  import opened Buckets
  import opened HashTable
  import opened Trailing
  import opened Registry
  import opened Entries
  import Hub

  ghost function KeysOf(s: seq<Elem<Entry>>): seq<string> {
    seq(|s|, i requires 0 <= i < |s| => s[i].key)
  }

  ghost function ValuesOf(s: seq<Elem<Entry>>): seq<Entry> {
    seq(|s|, i requires 0 <= i < |s| => s[i].value)
  }

  ghost predicate NoneBare(es: seq<Entry>) {
    forall i | 0 <= i < |es| :: !es[i].bare
  }

  lemma NoneBareAppend(es: seq<Entry>, e: Entry)
    ensures NoneBare(es) && !e.bare ==> NoneBare(es + [e])
  {
  }

  lemma NoneBareDrop(es: seq<Entry>, k: nat)
    requires k < |es|
    ensures NoneBare(es) ==> NoneBare(Drop(es, k))
  {
  }

  class HashStructApp {
    const appHash: Table<Entry>
    ghost var repr: set<object>

    ghost predicate TableIn()
      reads this, appHash
    {
      && this in repr && appHash in repr
      && forall i | 0 <= i < |appHash.order| :: appHash.order[i] in repr
    }

    ghost predicate Valid()
      reads this, appHash, appHash.buckets, appHash.bloomBv, appHash.order, Items(appHash.chains)
      reads ValuesOf(appHash.order), NodesOf(ValuesOf(appHash.order))
    {
      TableIn() && appHash.Valid() && RecordsOk(ValuesOf(appHash.order), repr, true)
    }

    ghost function View(): Apps
      reads appHash, ValuesOf(appHash.order)
    {
      AppsOf(KeysOf(appHash.order), ValuesOf(appHash.order))
    }

    /** Every application came with a provider, be it the placeholder. */
    ghost predicate NoBare()
      reads appHash
    {
      NoneBare(ValuesOf(appHash.order))
    }

    constructor (hash: string -> nat, bloomSize: BloomSize)
      ensures NoBare() && TableIn() && appHash.head == null && appHash.order == []
      ensures Valid() && View() == [] && fresh(repr) && fresh(appHash.buckets) && fresh(appHash.bloomBv)
    {
      appHash := new Table<Entry>(hash, bloomSize);
      new;
      repr := {this, appHash};
    }

    lemma EmptyIsValid()
      requires TableIn() && appHash.head == null && appHash.order == []
      ensures Valid() && NoBare() && View() == []
    {
    }

    /** HASH_FIND_STR, and where the element is. */
    method FindStr(app: string) returns (s: Elem?<Entry>, ghost k: nat)
      requires Valid()
      ensures Valid() && View() == old(View())
      ensures k == Lookup(View(), app) <= |appHash.order| == |View()|
      ensures if s == null then k == |appHash.order| else k < |appHash.order| && s == appHash.order[k]
    {
      hide Table.Valid, Lookup;
      s := appHash.Find(app);
      k := |appHash.order|;
      if s != null {
        k :| 0 <= k < |appHash.order| && appHash.order[k] == s;
        KeysDiffer(k);
      }
      LookupIs(KeysOf(appHash.order), ValuesOf(appHash.order), k, app);
    }

    lemma KeysDiffer(k: nat)
      requires appHash.Valid() && k < |appHash.order|
      ensures forall j | 0 <= j < k :: appHash.order[j].key != appHash.order[k].key
    {
    }
  
    lemma NotThere(app: string)
      requires Lookup(View(), app) == |View()|
      ensures forall x | x in appHash.order :: x.key != app
    {
      forall x | x in appHash.order
        ensures x.key != app
      {
        var i :| 0 <= i < |appHash.order| && appHash.order[i] == x;
        assert View()[i].name == x.key;
      }
    }

    /** HASH_ADD_KEYPTR of a new element; it writes no record. */
    method LinkElem(e: Elem<Entry>)
      requires TableIn() && appHash.Valid() && Lookup(View(), e.key) == |View()| && e in repr && e !in appHash.order
      modifies appHash, appHash.buckets, appHash.bloomBv, appHash.order, e
      ensures TableIn() && appHash.Valid()
      ensures appHash.buckets == old(appHash.buckets) || fresh(appHash.buckets)
      ensures appHash.bloomBv == old(appHash.bloomBv) || fresh(appHash.bloomBv)
      ensures KeysOf(appHash.order) == old(KeysOf(appHash.order)) + [e.key]
      ensures ValuesOf(appHash.order) == old(ValuesOf(appHash.order)) + [e.value]
      ensures forall x: Entry {:trigger x.nodes} | old(allocated(x)) ::
        x.npListHead == old(x.npListHead) && x.npCount == old(x.npCount) && x.nodes == old(x.nodes)
      ensures forall x: NpNode {:trigger x.next} | old(allocated(x)) :: x.next == old(x.next)
    {
      hide Table.OrderOk, Table.BucketsOk, Table.BoundOk, Table.BloomCovers, Lookup;
      NotThere(e.key);
      appHash.Add(e);
    }

    /** A new record, and HASH_ADD_KEYPTR of it; it writes no other record. */
    method AddElem(app: string, npTemp: NpNode?) returns (n: Entry)
      requires TableIn() && appHash.Valid() && Lookup(View(), app) == |View()|
      requires npTemp != null ==> npTemp.next == null
      modifies appHash, appHash.buckets, appHash.bloomBv, appHash.order, this`repr
      ensures TableIn() && appHash.Valid() && old(repr) <= repr && fresh(repr - old(repr) - {npTemp})
      ensures appHash.buckets == old(appHash.buckets) || fresh(appHash.buckets)
      ensures appHash.bloomBv == old(appHash.bloomBv) || fresh(appHash.bloomBv)
      ensures fresh(n) && n in repr && n.Valid() && n.nodes == (if npTemp == null then [] else [npTemp])
      ensures (npTemp != null ==> npTemp in repr) && n.npCount == 1 && n.bare == (npTemp == null)
      ensures KeysOf(appHash.order) == old(KeysOf(appHash.order)) + [app]
      ensures ValuesOf(appHash.order) == old(ValuesOf(appHash.order)) + [n]
      ensures forall x: Entry {:trigger x.nodes} | old(allocated(x)) ::
        x.npListHead == old(x.npListHead) && x.npCount == old(x.npCount) && x.nodes == old(x.nodes)
      ensures forall x: NpNode {:trigger x.next} | old(allocated(x)) :: x.next == old(x.next)
    {
      hide Table.OrderOk, Table.BucketsOk, Table.BoundOk, Table.BloomCovers, Lookup, AppsOf;
      n := new Entry(npTemp);
      var e := new Elem(app, n);
      repr := repr + {e, n} + Opt(npTemp);
      assert View() == old(View());
      LinkElem(e);
      n.npCount := n.npCount + 1;
    }

    /** The branch for an application not seen before. */
    method AddNew(app: string, npTemp: NpNode?)
      requires Valid() && Lookup(View(), app) == |View()|
      requires npTemp != null ==> npTemp.next == null && npTemp !in repr
      modifies repr, appHash.buckets, appHash.bloomBv
      ensures Valid() && View() == old(View()) + [App(app, if npTemp == null then [] else [npTemp.name])]
      ensures old(repr) <= repr && fresh(repr - old(repr) - {npTemp})
      ensures old(NoBare()) && npTemp != null ==> NoBare()
      ensures appHash.buckets == old(appHash.buckets) || fresh(appHash.buckets)
      ensures appHash.bloomBv == old(appHash.bloomBv) || fresh(appHash.bloomBv)
    {
      hide Table.Valid, AppsOf, Lookup, RecordsIn, CountsOk, NoneBare;
      ghost var es, keys, was := ValuesOf(appHash.order), KeysOf(appHash.order), repr;
      RecordsDisjoint(es, repr, true, npTemp);
      var n := AddElem(app, npTemp);
      Untouched(es);
      RecordsAppend(es, n, was, repr, true);
      AppsAppend(keys, es, app, n);
      NoneBareAppend(es, n);
      assert n.Names() == if npTemp == null then [] else [npTemp.name];
    }

    ghost method Own(n: NpNode)
      requires RecordsOk(ValuesOf(appHash.order), repr + {n}, true)
      modifies this`repr
      ensures repr == old(repr) + {n} && RecordsOk(ValuesOf(appHash.order), repr, true)
    {
      hide Table.Valid;
      repr := repr + {n};
    }

    /** The branch for a known application, at position `k`. */
    method AddKnown(s: Elem<Entry>, npTemp: NpNode, ghost k: nat) returns (ret: int)
      requires Valid() && k < |appHash.order| && s == appHash.order[k]
      requires npTemp.next == null && npTemp !in repr
      modifies repr
      ensures Valid() && old(repr) <= repr && fresh(repr - old(repr) - {npTemp})
      ensures old(NoBare()) ==> NoBare()
      ensures appHash.buckets == old(appHash.buckets) && appHash.bloomBv == old(appHash.bloomBv)
      ensures var r := old(View());
        if npTemp.name in r[k].nps then ret == -1 && View() == r
        else ret == 0 && View() == r[k := App(r[k].name, r[k].nps + [npTemp.name])]
    {
    hide Table.OrderOk, Table.BucketsOk, Table.BoundOk, Table.BloomCovers, AppsOf, RecordsOk, NoneBare;
      ghost var es, keys := ValuesOf(appHash.order), KeysOf(appHash.order);
      RecordAt(es, k, repr, true);
      ret := AddTo(s.value, npTemp, keys, es, k, repr, true);
      Own(npTemp);
    }

    /** add_app_ref_hash; `np` is the name or the null pointer. */
    method AddAppRef(app: string, np: Option<string>) returns (ret: int)
      requires Valid() && Add(View(), app, np).Ok?
      modifies repr, appHash.buckets, appHash.bloomBv
      ensures Valid() && Ok(View(), ret) == Add(old(View()), app, np)
      ensures fresh(repr - old(repr))
      ensures old(NoBare()) && np.Some? ==> NoBare()
      ensures appHash.buckets == old(appHash.buckets) || fresh(appHash.buckets)
      ensures appHash.bloomBv == old(appHash.bloomBv) || fresh(appHash.bloomBv)
    {
      hide Table.OrderOk, Table.BucketsOk, Table.BoundOk, Table.BloomCovers, Lookup;
      var npTemp: NpNode? := null;
      if np.Some? {
        npTemp := new NpNode(np.value);
      }
      var s, k := FindStr(app);
      if s == null {
        AddNew(app, npTemp);
        ret := 0;
      } else {
        ret := AddKnown(s, npTemp, k);
      }
    }

    /** HASH_DELETE of the element at position `k`; it writes no record. */
    method DropElem(s: Elem<Entry>, ghost k: nat)
      requires TableIn() && appHash.Valid() && k < |appHash.order| && s == appHash.order[k]
      modifies appHash, appHash.buckets, appHash.order
      ensures TableIn() && appHash.Valid()
      ensures appHash.buckets == old(appHash.buckets) && appHash.bloomBv == old(appHash.bloomBv)
      ensures KeysOf(appHash.order) == Drop(old(KeysOf(appHash.order)), k)
      ensures ValuesOf(appHash.order) == Drop(old(ValuesOf(appHash.order)), k)
      ensures forall x: Entry {:trigger x.nodes} | old(allocated(x)) ::
        x.npListHead == old(x.npListHead) && x.npCount == old(x.npCount) && x.nodes == old(x.nodes)
      ensures forall x: NpNode {:trigger x.next} | old(allocated(x)) :: x.next == old(x.next)
    {
      hide Table.OrderOk, Table.BucketsOk, Table.BoundOk, Table.BloomCovers;
      appHash.Delete(s, k);
    }

    /** The branch for the empty name: the whole application goes. */
    method DelApp(s: Elem<Entry>, ghost k: nat)
      requires Valid() && k < |appHash.order| && s == appHash.order[k]
      modifies repr, appHash.buckets
      ensures Valid() && View() == Drop(old(View()), k)
      ensures old(NoBare()) ==> NoBare()
      ensures appHash.buckets == old(appHash.buckets) && appHash.bloomBv == old(appHash.bloomBv) && repr == old(repr)
    {
      hide Table.Valid, AppsOf, RecordsIn, CountsOk, NoneBare;
      ghost var es, keys := ValuesOf(appHash.order), KeysOf(appHash.order);
      DropElem(s, k);
      NoneBareDrop(es, k);
      Untouched(es);
      RecordsDrop(es, k, repr, true);
      AppsDrop(keys, es, k);
    }

    /** The branch for a provider of a known application. */
    method DelNp(s: Elem<Entry>, np: string, ghost k: nat) returns (ret: int)
      requires Valid() && k < |appHash.order| && s == appHash.order[k] && View()[k].nps != []
      modifies repr
      ensures Valid() && repr == old(repr)
      ensures old(NoBare()) ==> NoBare()
      ensures appHash.buckets == old(appHash.buckets) && appHash.bloomBv == old(appHash.bloomBv)
      ensures var r := old(View()); var i := Find(r[k].nps, np);
        if i < |r[k].nps| then ret == 0 && View() == WithoutNp(r, k, i) else ret == -1 && View() == r
    {
      hide Table.OrderOk, Table.BucketsOk, Table.BoundOk, Table.BloomCovers, AppsOf, RecordsOk, NoneBare;
      ghost var es, keys := ValuesOf(appHash.order), KeysOf(appHash.order);
      RecordAt(es, k, repr, true);
      ret := CutFrom(s.value, np, keys, es, k, repr, true);
    }

    /** del_app_ref_hash. */
    method DelAppRef(app: string, np: string) returns (ret: int)
      requires Valid() && DelHash(View(), app, np).Ok?
      modifies repr, appHash.buckets
      ensures Valid() && Ok(View(), ret) == DelHash(old(View()), app, np) && repr == old(repr)
      ensures old(NoBare()) ==> NoBare()
      ensures appHash.buckets == old(appHash.buckets) && appHash.bloomBv == old(appHash.bloomBv)
    {
      hide Valid, View, Lookup, Find;
      var s, k := FindStr(app);
      if s == null {
        return -1;
      }
      if |np| != 0 {
        ret := DelNp(s, np, k);
      } else {
        DelApp(s, k);
        ret := 0;
      }
    }

    /** The walk of print_hash_app. */
    method Contents() returns (apps: Apps)
      requires Valid()
      ensures apps == old(View())
    {
      hide Table.BucketsOk, RecordsOk, Table.BoundOk, Table.BloomCovers;
      var s := appHash.head;
      ghost var order := appHash.order;
      apps := [];
      while s != null
        invariant |apps| <= |order| && s == if |apps| < |order| then order[|apps|] else null
        invariant Valid() && View() == old(View()) && appHash.order == order && apps == View()[..|apps|]
        decreases |order| - |apps|
      {
        RecordAt(ValuesOf(appHash.order), |apps|, repr, true);
        var nps := s.value.Collect();
        apps := apps + [App(s.key, nps)];
        s := s.next;
      }
    }

    /** One turn of the sweep of unregister_np. */
    method SweepNext(s: Elem<Entry>, np: string, flag: bool, q: NpNode?, ghost k: nat) returns (stop: bool, b: NpNode?)
      requires Valid() && NoBare() && k < |appHash.order| && s == appHash.order[k]
      requires flag ==> Hub.SweepApp(View()[k].nps, np, flag).Some?
      modifies repr
      ensures Valid() && NoBare() && repr == old(repr) && appHash.order == old(appHash.order)
      ensures appHash.buckets == old(appHash.buckets) && appHash.bloomBv == old(appHash.bloomBv)
      ensures var r := old(View()); var out := Hub.SweepApp(r[k].nps, np, flag);
        && (stop <==> out.None?)
        && View() == if stop then r else r[k := App(r[k].name, out.value)]
    {
      hide Table.OrderOk, Table.BucketsOk, Table.BoundOk, Table.BloomCovers, AppsOf, RecordsOk, Hub.SweepApp;
      ghost var es, keys := ValuesOf(appHash.order), KeysOf(appHash.order);
      RecordAt(es, k, repr, true);
      stop, b := SweepFrom(s.value, np, flag, q, keys, es, k, repr);
    }

    /** The sweep of unregister_np over all applications, in their order. */
    method SweepAll(np: string) returns (done: bool)
      requires Valid() && NoBare() && !Hub.SweepApps(View(), np, false).Broken?
      modifies repr
      ensures Valid() && NoBare() && repr == old(repr)
      ensures appHash.buckets == old(appHash.buckets) && appHash.bloomBv == old(appHash.bloomBv)
      ensures var w := Hub.SweepApps(old(View()), np, false);
        if done then w == Hub.Swept(View()) else w.Abandoned? && View() == old(View())
    {
      hide Table.BucketsOk, Table.BoundOk, Table.BloomCovers, RecordsOk, SoFar, Hub.SweepApp, Hub.SweepApps;
      var s, flag, q: NpNode? := appHash.head, false, null;
      ghost var order, was, k := appHash.order, View(), 0;
      SweepStart(was, np);
      while s != null
        invariant k <= |order| && s == (if k < |order| then order[k] else null) && flag == (k > 0)
        invariant Valid() && NoBare() && appHash.order == order && repr == old(repr)
        invariant appHash.buckets == old(appHash.buckets) && appHash.bloomBv == old(appHash.bloomBv)
        invariant SoFar(was, View(), np, k) && |was| == |order|
        decreases |order| - k
      {
        SweepStep(was, View(), np, k);
        var stop;
        stop, q := SweepNext(s, np, flag, q, k);
        if stop {
          return false;
        }
        s, flag, k := s.next, true, k + 1;
      }
      SweepEnd(was, View(), np);
      done := true;
    }

    /** get_reg_hash. */
    method GetReg(app: string, np: string) returns (n: NpNode?)
      requires Valid()
      ensures Valid() && View() == old(View())
      ensures n != null <==> Registered(View(), app, np)
      ensures n != null ==> n.name == np
    {
      hide Table.OrderOk, Table.BucketsOk, Table.BoundOk, Table.BloomCovers, Lookup;
      var s, k := FindStr(app);
      if s == null {
        return null;
      }
      RecordAt(ValuesOf(appHash.order), k, repr, true);
      n := s.value.Search(np);
      assert View()[k].nps == s.value.Names();
    }
  }

  /** The sweep is done with the first `k` applications: what is left of it is the sweep of the rest. */
  ghost predicate SoFar(was: Apps, now: Apps, np: string, k: nat) {
    && k <= |was| == |now| && now[k..] == was[k..]
    && var rest := Hub.SweepApps(was[k..], np, k > 0);
       Hub.SweepApps(was, np, false) == if rest.Swept? then Hub.Swept(now[..k] + rest.apps) else rest
  }

  lemma SweepStart(was: Apps, np: string)
    ensures SoFar(was, was, np, 0)
  {
    assert was[0..] == was;
    var rest := Hub.SweepApps(was, np, false);
    assert rest.Swept? ==> was[..0] + rest.apps == rest.apps;
  }

  lemma SweepStep(was: Apps, now: Apps, np: string, k: nat)
    requires SoFar(was, now, np, k) && k < |was| && !Hub.SweepApps(was, np, false).Broken?
    ensures var out := Hub.SweepApp(now[k].nps, np, k > 0);
      if out.None? then k == 0 && now == was && Hub.SweepApps(was, np, false).Abandoned?
      else SoFar(was, now[k := App(now[k].name, out.value)], np, k + 1)
  {
    assert now[k] == now[k..][0] == was[k..][0] == was[k];
    var out := Hub.SweepApp(now[k].nps, np, k > 0);
    assert was[k..][1..] == was[k + 1..];
    if out.None? {
      assert now == now[0..] && was == was[0..];
    } else {
      var next := now[k := App(now[k].name, out.value)];
      assert next[k + 1..] == now[k..][1..];
      assert next[..k + 1] == now[..k] + [next[k]];
      var rest := Hub.SweepApps(was[k + 1..], np, true);
      if rest.Swept? {
        assert now[..k] + ([next[k]] + rest.apps) == next[..k + 1] + rest.apps;
      }
    }
  }

  lemma SweepEnd(was: Apps, now: Apps, np: string)
    requires SoFar(was, now, np, |was|)
    ensures Hub.SweepApps(was, np, false) == Hub.Swept(now)
  {
    assert was[|was|..] == [] && now[..|was|] + [] == now;
  }
}
