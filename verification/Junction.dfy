/** The hub itself: the two hash tables, and the calls that register and unregister. */
module Junction {
  import opened Buckets
  import opened HashTable
  import opened Trailing
  import opened Registry
  import opened Entries
  import opened AppHash
  import opened NpHash
  import opened Hub
  import opened Accounting

  class Nj {
    const hstructApp: HashStructApp
    const hstructNp: HashStructNp

    /** The tables share nothing. */
    ghost predicate Apart()
      reads hstructApp, hstructNp, hstructApp.appHash, hstructNp.npHash
    {
      && hstructApp.repr !! hstructNp.repr
      && hstructApp.appHash.buckets !in hstructNp.repr && hstructApp.appHash.bloomBv !in hstructNp.repr
      && hstructNp.npHash.buckets !in hstructApp.repr && hstructNp.npHash.bloomBv !in hstructApp.repr
      && hstructApp.appHash.buckets as object != hstructNp.npHash.buckets && hstructApp.appHash.bloomBv != hstructNp.npHash.bloomBv
      && hstructApp.appHash.buckets as object != hstructNp.npHash.bloomBv
      && hstructApp.appHash.bloomBv as object != hstructNp.npHash.buckets
    }

    ghost function Repr(): set<object>
      reads hstructApp, hstructNp, hstructApp.appHash, hstructNp.npHash
    {
      hstructApp.repr + hstructNp.repr
        + {hstructApp.appHash.buckets, hstructApp.appHash.bloomBv, hstructNp.npHash.buckets, hstructNp.npHash.bloomBv}
    }

    ghost predicate Valid()
      reads hstructApp, hstructApp.appHash, hstructApp.appHash.buckets, hstructApp.appHash.bloomBv
      reads hstructApp.appHash.order, Items(hstructApp.appHash.chains)
      reads AppHash.ValuesOf(hstructApp.appHash.order), NodesOf(AppHash.ValuesOf(hstructApp.appHash.order))
      reads hstructNp, hstructNp.npHash, hstructNp.npHash.buckets, hstructNp.npHash.bloomBv
      reads hstructNp.npHash.order, Items(hstructNp.npHash.chains)
    {
      hstructApp.Valid() && hstructApp.NoBare() && hstructNp.Valid() && Apart()
    }

    ghost function View(): State
      reads hstructApp.appHash, AppHash.ValuesOf(hstructApp.appHash.order)
      reads hstructNp.npHash, NpHash.ValuesOf(hstructNp.npHash.order)
    {
      State(hstructApp.View(), hstructNp.View())
    }

    constructor (hash: string -> nat, bloomSize: BloomSize)
      ensures Valid() && View() == START && fresh(Repr())
    {
      hide HashStructApp.Valid, HashStructNp.Valid, HashStructApp.View, HashStructNp.View, HashStructApp.NoBare;
      hstructApp := new HashStructApp(hash, bloomSize);
      hstructNp := new HashStructNp(hash, bloomSize);
      new;
      hstructApp.EmptyIsValid();
      hstructNp.EmptyIsValid();
    }

    // One table at a time

    method AddApp(app: string, np: string) returns (ret: int)
      requires Valid()
      modifies Repr()
      ensures Valid() && hstructNp.View() == old(hstructNp.View()) && fresh(Repr() - old(Repr()))
      ensures Ok(hstructApp.View(), ret) == Add(old(hstructApp.View()), app, Some(np))
    {
      hide Table.OrderOk, Table.BucketsOk, Table.BoundOk, Table.BloomCovers, RecordsOk, HashStructApp.View;
      ret := hstructApp.AddAppRef(app, Some(np));
    }

    method DelApp(app: string, np: string) returns (ret: int)
      requires Valid() && DelHash(hstructApp.View(), app, np).Ok?
      modifies Repr()
      ensures Valid() && hstructNp.View() == old(hstructNp.View()) && fresh(Repr() - old(Repr()))
      ensures Ok(hstructApp.View(), ret) == DelHash(old(hstructApp.View()), app, np)
    {
      hide Table.OrderOk, Table.BucketsOk, Table.BoundOk, Table.BloomCovers, RecordsOk, HashStructApp.View, DelHash;
      ret := hstructApp.DelAppRef(app, np);
    }

    method SweepAppsOf(np: string) returns (done: bool)
      requires Valid() && !SweepApps(hstructApp.View(), np, false).Broken?
      modifies Repr()
      ensures Valid() && hstructNp.View() == old(hstructNp.View()) && fresh(Repr() - old(Repr()))
      ensures var w := SweepApps(old(hstructApp.View()), np, false);
        if done then w == Swept(hstructApp.View()) else w.Abandoned? && hstructApp.View() == old(hstructApp.View())
    {
      hide Table.OrderOk, Table.BucketsOk, Table.BoundOk, Table.BloomCovers, RecordsOk, HashStructApp.View, SweepApps;
      done := hstructApp.SweepAll(np);
    }

    method FindNp(np: string) returns (found: bool)
      requires Valid()
      ensures Valid() && View() == old(View())
      ensures found <==> Known(hstructNp.View(), np)
    {
      hide Table.OrderOk, Table.BucketsOk, Table.BoundOk, Table.BloomCovers, RecordsOk, NpAt;
      ghost var es := AppHash.ValuesOf(hstructApp.appHash.order);
      RecordsApart(es, hstructApp.repr, true, hstructNp.repr);
      var s, k := hstructNp.FindStr(np);
      found := s != null;
      RecordsUntouched(es, hstructApp.repr, true);
    }

    method BumpNp(np: string, d: int)
      requires Valid()
      modifies hstructNp.repr
      ensures Valid() && hstructApp.View() == old(hstructApp.View()) && Repr() == old(Repr())
      ensures hstructApp.appHash.order == old(hstructApp.appHash.order)
      ensures hstructApp.repr == old(hstructApp.repr) && hstructNp.repr == old(hstructNp.repr)
      ensures hstructNp.View() == Bump(old(hstructNp.View()), np, d)
    {
      hide Table.OrderOk, Table.BucketsOk, Table.BoundOk, Table.BloomCovers, RecordsOk, HashStructNp.View, Bump;
      ghost var es := AppHash.ValuesOf(hstructApp.appHash.order);
      RecordsApart(es, hstructApp.repr, true, hstructNp.repr);
      hstructNp.BumpAppCnt(np, d);
      RecordsUntouched(es, hstructApp.repr, true);
    }

    method AddNp(np: string, keyVals: seq<string>) returns (ret: int)
      requires Valid()
      modifies Repr()
      ensures Valid() && hstructApp.View() == old(hstructApp.View()) && fresh(Repr() - old(Repr()))
      ensures ret == (if Known(old(hstructNp.View()), np) then -1 else 0)
      ensures hstructNp.View() == if ret == 0 then old(hstructNp.View()) + [Np(np, keyVals, 0)] else old(hstructNp.View())
    {
      hide Table.OrderOk, Table.BucketsOk, Table.BoundOk, Table.BloomCovers, RecordsOk, HashStructNp.View, Known;
      ghost var es := AppHash.ValuesOf(hstructApp.appHash.order);
      RecordsApart(es, hstructApp.repr, true, hstructNp.repr);
      ret := hstructNp.AddNp(np, keyVals);
      RecordsUntouched(es, hstructApp.repr, true);
    }

    method DelNp(np: string)
      requires Valid()
      modifies Repr()
      ensures Valid() && hstructApp.View() == old(hstructApp.View()) && fresh(Repr() - old(Repr()))
      ensures hstructNp.View() == WithoutNpAt(old(hstructNp.View()), np)
    {
      hide Table.OrderOk, Table.BucketsOk, Table.BoundOk, Table.BloomCovers, RecordsOk, HashStructNp.View, Known, WithoutNpAt;
      ghost var es := AppHash.ValuesOf(hstructApp.appHash.order);
      RecordsApart(es, hstructApp.repr, true, hstructNp.repr);
      var ret := hstructNp.DelNp(np);
      RecordsUntouched(es, hstructApp.repr, true);
    }

    // The calls

    /** register_app. */
    method DoRegisterApp(app: string, np: string) returns (ret: int)
      requires Valid()
      modifies Repr()
      ensures Valid() && fresh(Repr() - old(Repr()))
      ensures Done(View(), ret) == RegisterApp(old(View()), app, np)
    {
      hide Valid, HashStructApp.View, HashStructNp.View, Add, Bump, Known;
      if |np| != 0 {
        var found := FindNp(np);
        if !found {
          return -1;
        }
      }
      AddIsOk(hstructApp.View(), app, np);
      ret := AddApp(app, np);
      if ret == -1 {
        return;
      }
      BumpNp(np, 1);
      ret := 1;
    }

    /** unregister_app. */
    method DoUnregisterApp(app: string, np: string) returns (ret: int)
      requires Valid() && UnregisterApp(View(), app, np).Done?
      modifies Repr()
      ensures Valid() && fresh(Repr() - old(Repr()))
      ensures Done(View(), ret) == UnregisterApp(old(View()), app, np)
    {
      hide Valid, HashStructApp.View, HashStructNp.View, DelHash, Known;
      if |np| != 0 {
        var found := FindNp(np);
        if !found {
          return -1;
        }
      }
      ret := DelApp(app, np);
      if ret == -1 {
        return;
      }
      ret := 1;
    }

    /** register_np. */
    method DoRegisterNp(np: string, keyVals: seq<string>) returns (ret: int)
      requires Valid()
      modifies Repr()
      ensures Valid() && fresh(Repr() - old(Repr()))
      ensures Done(View(), ret) == RegisterNp(old(View()), np, keyVals)
    {
      hide Valid, HashStructApp.View, HashStructNp.View, Known;
      ret := AddNp(np, keyVals);
      if ret == -1 {
        return;
      }
      ret := 1;
    }

    /** unregister_np. */
    method DoUnregisterNp(np: string) returns (ret: int)
      requires Valid() && UnregisterNp(View(), np).Done?
      modifies Repr()
      ensures Valid() && fresh(Repr() - old(Repr()))
      ensures Done(View(), ret) == UnregisterNp(old(View()), np)
    {
      hide Valid, HashStructApp.View, HashStructNp.View, SweepApps, WithoutNpAt;
      var done := SweepAppsOf(np);
      if !done {
        return -1;
      }
      DelNp(np);
      ret := 1;
    }

    /** The walk of dec_all_np_counts_hash: it takes as many steps as np_count says, and stays on the list. */
    method DecList(e: Entry, ghost k: nat)
      requires Valid() && k < |hstructApp.appHash.order| && hstructApp.appHash.order[k].value == e
      modifies hstructNp.repr
      ensures Valid() && Repr() == old(Repr()) && hstructApp.View() == old(hstructApp.View())
      ensures hstructNp.View() == BumpAll(old(hstructNp.View()), old(e.Names()), -1)
    {
      hide Table.OrderOk, Table.BucketsOk, Table.BoundOk, Table.BloomCovers, RecordsOk, HashStructNp.View, HashStructApp.View, Bump;
      ghost var es := AppHash.ValuesOf(hstructApp.appHash.order);
      RecordAt(es, k, hstructApp.repr, true);
      RecordsApart(es, hstructApp.repr, true, hstructNp.repr);
      ghost var names, i := e.Names(), 0;
      var cnt, ptr := e.npCount, e.npListHead;
      while cnt != 0
        invariant cnt == |names| - i && 0 <= i <= |names| && ptr == if i < |e.nodes| then e.nodes[i] else null
        invariant Valid() && hstructApp.View() == old(hstructApp.View()) && Repr() == old(Repr())
        invariant hstructApp.appHash.order == old(hstructApp.appHash.order)
        invariant hstructNp.repr == old(hstructNp.repr) && hstructApp.repr == old(hstructApp.repr)
        invariant BumpAll(hstructNp.View(), names[i..], -1) == BumpAll(old(hstructNp.View()), names, -1)
        decreases cnt
      {
        assert names[i..][1..] == names[i + 1..];
        BumpNp(ptr.name, -1);
        ptr, cnt, i := ptr.next, cnt - 1, i + 1;
      }
    }

    method FindApp(app: string) returns (e: Entry?, ghost k: nat)
      requires Valid()
      ensures Valid() && View() == old(View())
      ensures k == Lookup(View().apps, app) && |hstructApp.appHash.order| == |View().apps|
      ensures if e == null then k == |View().apps|
        else k < |View().apps| && hstructApp.appHash.order[k].value == e && e.Names() == View().apps[k].nps
    {
      hide Table.OrderOk, Table.BucketsOk, Table.BoundOk, Table.BloomCovers, RecordsOk, Lookup;
      var s;
      s, k := hstructApp.FindStr(app);
      e := if s == null then null else s.value;
    }

    /** dec_all_np_counts_hash. */
    method DecAllNpCounts(app: string)
      requires Valid()
      modifies hstructNp.repr
      ensures Valid() && Repr() == old(Repr()) && View().apps == old(View().apps)
      ensures var i := Lookup(View().apps, app);
        View().nps == if i < |View().apps| then BumpAll(old(View().nps), View().apps[i].nps, -1) else old(View().nps)
    {
      hide Valid, HashStructApp.View, HashStructNp.View, Lookup, BumpAll;
      var e, k := FindApp(app);
      if e != null {
        DecList(e, k);
      }
    }

    /** What the print functions show. */
    method Contents() returns (state: State)
      requires Valid()
      ensures state == old(View())
    {
      hide Table.OrderOk, Table.BucketsOk, Table.BoundOk, Table.BloomCovers, RecordsOk;
      var apps := hstructApp.Contents();
      var nps := hstructNp.Contents();
      state := State(apps, nps);
    }

    method DoCall(call: Call) returns (ret: int)
      requires Valid() && Step(View(), call).Done?
      modifies Repr()
      ensures Valid() && fresh(Repr() - old(Repr()))
      ensures Done(View(), ret) == Step(old(View()), call)
    {
      hide Valid, View, RegisterApp, UnregisterApp, RegisterNp, UnregisterNp;
      match call {
        case RegApp(app, np) => ret := DoRegisterApp(app, np);
        case UnregApp(app, np) => ret := DoUnregisterApp(app, np);
        case RegNp(np, keyVals) => ret := DoRegisterNp(np, keyVals);
        case UnregNp(np) => ret := DoUnregisterNp(np);
      }
    }
  }

  lemma AddIsOk(apps: Apps, app: string, np: string)
    ensures var out := Add(apps, app, Some(np)); out.Ok? && (out.ret == -1 ==> out.apps == apps)
  {
  }
}
