/** Whole runs of the two application registries, side by side. */
module Simulation {
  import opened HashTable
  import opened Registry
  import opened AppHash
  import opened AppList

  datatype Log = Ran(apps: Apps, rets: seq<int>) | Stuck

  function After(l: Log, out: Outcome): Log
    requires l.Ran?
  {
    match out
    case Fault => Stuck
    case Ok(apps, ret) => Ran(apps, l.rets + [ret])
  }

  /** What the hash registry does from the start of the hub on. */
  function HashLog(ops: seq<Op>): Log {
    if ops == [] then Ran([], [])
    else
      var l := HashLog(ops[..|ops| - 1]);
      if l.Stuck? then Stuck else After(l, HashStep(l.apps, ops[|ops| - 1]))
  }

  function ListLog(ops: seq<Op>): Log {
    if ops == [] then Ran([], [])
    else
      var l := ListLog(ops[..|ops| - 1]);
      if l.Stuck? then Stuck else After(l, ListStep(l.apps, ops[|ops| - 1]))
  }

  /** Every call is one of those on which the implementations agree. */
  ghost predicate AllCommon(ops: seq<Op>) {
    forall i | 0 <= i < |ops| :: HashLog(ops[..i]).Ran? && Common(HashLog(ops[..i]).apps, ops[i])
  }

  ghost predicate SameSoFar(ops: seq<Op>) {
    forall i | 0 <= i <= |ops| :: HashLog(ops[..i]) == ListLog(ops[..i])
  }

  lemma {:induction false} LogsProper(ops: seq<Op>)
    ensures HashLog(ops).Ran? ==> Proper(HashLog(ops).apps)
    ensures ListLog(ops).Ran? ==> Proper(ListLog(ops).apps)
  {
    if ops != [] {
      var n := |ops| - 1;
      LogsProper(ops[..n]);
      var h, l := HashLog(ops[..n]), ListLog(ops[..n]);
      if h.Ran? { KeepsProper(h.apps, ops[n]); }
      if l.Ran? { KeepsProper(l.apps, ops[n]); }
    }
  }

  lemma {:induction false} SameUpTo(ops: seq<Op>, n: nat)
    requires AllCommon(ops) && n <= |ops|
    ensures HashLog(ops[..n]).Ran? && HashLog(ops[..n]) == ListLog(ops[..n])
  {
    if n > 0 {
      var pre := ops[..n];
      assert pre[..n - 1] == ops[..n - 1] && pre[n - 1] == ops[n - 1];
      SameUpTo(ops, n - 1);
      LogsProper(pre[..n - 1]);
      SameStep(HashLog(pre[..n - 1]).apps, pre[n - 1]);
    }
  }

  lemma {:induction false} CommonUpTo(ops: seq<Op>, n: nat)
    requires SameSoFar(ops) && n <= |ops|
    ensures HashLog(ops[..n]).Ran?
    ensures forall i | 0 <= i < n :: HashLog(ops[..i]).Ran? && Common(HashLog(ops[..i]).apps, ops[i])
  {
    hide HashStep, ListStep, Common, Proper;
    if n > 0 {
      var pre := ops[..n];
      assert pre[..n - 1] == ops[..n - 1] && pre[n - 1] == ops[n - 1];
      CommonUpTo(ops, n - 1);
      LogsProper(ops[..n - 1]);
      var l := HashLog(ops[..n - 1]);
      SameStep(l.apps, ops[n - 1]);
      NeverBothFault(l.apps, ops[n - 1]);
      AfterInjective(l, HashStep(l.apps, ops[n - 1]), ListStep(l.apps, ops[n - 1]));
    }
  }

  lemma AfterInjective(l: Log, a: Outcome, b: Outcome)
    requires l.Ran? && After(l, a) == After(l, b)
    ensures a == b
  {
    if a.Ok? && b.Ok? {
      assert (l.rets + [a.ret])[|l.rets|] == (l.rets + [b.ret])[|l.rets|];
    }
  }

  lemma NeverBothFault(r: Apps, op: Op)
    ensures !(HashStep(r, op).Fault? && ListStep(r, op).Fault?)
  {
  }

  /** The two registries give the same answers and hold the same all along a run exactly when all its calls are common. */
  lemma Simulation(ops: seq<Op>)
    ensures SameSoFar(ops) <==> AllCommon(ops)
  {
    if AllCommon(ops) {
      forall i | 0 <= i <= |ops|
        ensures HashLog(ops[..i]) == ListLog(ops[..i])
      {
        SameUpTo(ops, i);
      }
    }
    if SameSoFar(ops) {
      CommonUpTo(ops, |ops|);
    }
  }

  method DoHash(t: HashStructApp, op: Op) returns (ret: int)
    requires t.Valid() && HashStep(t.View(), op).Ok?
    modifies t.repr, t.appHash.buckets, t.appHash.bloomBv
    ensures t.Valid() && Ok(t.View(), ret) == HashStep(old(t.View()), op)
    ensures fresh(t.repr - old(t.repr))
    ensures t.appHash.buckets == old(t.appHash.buckets) || fresh(t.appHash.buckets)
    ensures t.appHash.bloomBv == old(t.appHash.bloomBv) || fresh(t.appHash.bloomBv)
  {
    hide HashStructApp.Valid, HashStructApp.View, Add, DelHash, Registered;
    match op {
      case Register(app, np) => ret := t.AddAppRef(app, Some(np));
      case Unregister(app, np) => ret := t.DelAppRef(app, np);
      case Remove(app) => ret := t.DelAppRef(app, "");
      case Query(app, np) =>
        var n := t.GetReg(app, np);
        ret := if n != null then 1 else 0;
    }
  }

  method DoList(t: AppDcll, op: Op) returns (ret: int)
    requires t.Valid() && ListStep(t.View(), op).Ok?
    modifies t.repr
    ensures t.Valid() && Ok(t.View(), ret) == ListStep(old(t.View()), op)
    ensures fresh(t.repr - old(t.repr))
  {
    hide AppDcll.Valid, AppDcll.View, Add, DelList, Registered;
    match op {
      case Register(app, np) => ret := t.AddAppRef(app, Some(np));
      case Unregister(app, np) => ret := t.DelAppRef(app, Some(np));
      case Remove(app) => ret := t.DelAppRef(app, None);
      case Query(app, np) =>
        var n := t.GetReg(app, np);
        ret := if n != null then 1 else 0;
    }
  }

  lemma {:induction false} RanBefore(ops: seq<Op>, n: nat)
    requires HashLog(ops).Ran? && n < |ops|
    ensures HashLog(ops[..n]).Ran? && HashStep(HashLog(ops[..n]).apps, ops[n]).Ok?
    ensures HashLog(ops[..n + 1]) == After(HashLog(ops[..n]), HashStep(HashLog(ops[..n]).apps, ops[n]))
  {
    assert ops[..n + 1][..n] == ops[..n];
    if n == |ops| - 1 {
      assert ops[..n + 1] == ops;
    } else {
      var pre := ops[..|ops| - 1];
      RanBefore(pre, n);
      assert pre[..n] == ops[..n] && pre[..n + 1] == ops[..n + 1];
    }
  }

  lemma {:induction false} ListRanBefore(ops: seq<Op>, n: nat)
    requires ListLog(ops).Ran? && n < |ops|
    ensures ListLog(ops[..n]).Ran? && ListStep(ListLog(ops[..n]).apps, ops[n]).Ok?
    ensures ListLog(ops[..n + 1]) == After(ListLog(ops[..n]), ListStep(ListLog(ops[..n]).apps, ops[n]))
  {
    assert ops[..n + 1][..n] == ops[..n];
    if n == |ops| - 1 {
      assert ops[..n + 1] == ops;
    } else {
      var pre := ops[..|ops| - 1];
      ListRanBefore(pre, n);
      assert pre[..n] == ops[..n] && pre[..n + 1] == ops[..n + 1];
    }
  }

  /** A run of the hash registry on a table of its own. */
  method RunHash(hash: string -> nat, bloomSize: BloomSize, ops: seq<Op>) returns (apps: Apps, rets: seq<int>)
    requires HashLog(ops).Ran?
    ensures Ran(apps, rets) == HashLog(ops)
  {
    hide HashStructApp.Valid, HashStructApp.View, HashStep;
    var t := new HashStructApp(hash, bloomSize);
    rets := [];
    for i := 0 to |ops|
      invariant t.Valid() && Ran(t.View(), rets) == HashLog(ops[..i])
      invariant fresh(t.repr) && fresh(t.appHash.buckets) && fresh(t.appHash.bloomBv)
    {
      RanBefore(ops, i);
      var ret := DoHash(t, ops[i]);
      rets := rets + [ret];
    }
    assert ops[..|ops|] == ops;
    apps := t.Contents();
  }

  /** A run of the list registry. */
  method RunList(ops: seq<Op>) returns (apps: Apps, rets: seq<int>)
    requires ListLog(ops).Ran?
    ensures Ran(apps, rets) == ListLog(ops)
  {
    hide AppDcll.Valid, AppDcll.View, ListStep;
    var t := new AppDcll();
    rets := [];
    for i := 0 to |ops|
      invariant t.Valid() && Ran(t.View(), rets) == ListLog(ops[..i])
      invariant fresh(t.repr)
    {
      ListRanBefore(ops, i);
      var ret := DoList(t, ops[i]);
      rets := rets + [ret];
    }
    assert ops[..|ops|] == ops;
    apps := t.Contents();
  }

  /** The same common calls on the real structures of both give the same answers and the same contents. */
  method RunBoth(hash: string -> nat, bloomSize: BloomSize, ops: seq<Op>)
    returns (hashed: Apps, hashRets: seq<int>, listed: Apps, listRets: seq<int>)
    requires AllCommon(ops)
    ensures hashed == listed && hashRets == listRets
    ensures Ran(hashed, hashRets) == HashLog(ops) && Proper(hashed)
  {
    SameUpTo(ops, |ops|);
    assert ops[..|ops|] == ops;
    LogsProper(ops);
    hashed, hashRets := RunHash(hash, bloomSize, ops);
    listed, listRets := RunList(ops);
  }
}
