/** The two hash registries as structures guarded by the lock: each operation looks up and acts under one hold. */
module Concurrent {
  import opened Sequences
  import opened Registry
  import opened Trailing
  import opened Hub
  import opened Accounting
  import opened Linearize
  import S = Simulation
  import R = Realize
  import T = TwoHolds

  // Applications

  /** HASH_FIND_STR. */
  function Pointer(r: Apps, app: string): Option<nat> {
    var i := Lookup(r, app);
    if i < |r| then Some(i) else None
  }

  /** What an operation does with the pointer it got, whatever has become of the registry since. */
  function ActOn(r: Apps, op: Registry.Op, at: Option<nat>): Outcome {
    match at
    case None =>
      (match op
       case Register(app, np) => Ok(r + [App(app, [np])], 0)
       case Query(_, _) => Ok(r, 0)
       case _ => Ok(r, -1))
    case Some(i) =>
      if i >= |r| then Fault
      else match op
        case Register(app, np) =>
          if np in r[i].nps then Ok(r, -1) else Ok(r[i := App(r[i].name, r[i].nps + [np])], 0)
        case Unregister(_, np) =>
          if np == "" then Ok(Drop(r, i), 0)
          else if r[i].nps == [] then Fault
          else
            var k := Find(r[i].nps, np);
            if k < |r[i].nps| then Ok(WithoutNp(r, i, k), 0) else Ok(r, -1)
        case Remove(_) => Ok(Drop(r, i), 0)
        case Query(_, np) => Ok(r, if np in r[i].nps then 1 else 0)
  }

  lemma ActOnFresh(r: Apps, op: Registry.Op)
    ensures ActOn(r, op, Pointer(r, op.app)) == HashStep(r, op)
  {
    var i := Lookup(r, op.app);
    if i < |r| { assert r[i].name == op.app; }
  }

  /** Queries take the read lock, all else the write lock. */
  function AppHashObject(): Object<Apps, Registry.Op, Option<nat>> {
    Object([],
      (op: Registry.Op) => op.Query?,
      (r: Apps, op: Registry.Op) => Pointer(r, op.app),
      (r: Apps, op: Registry.Op, at: Option<nat>) => Result_(ActOn(r, op, at)))
  }

  function Result_(out: Outcome): Option<(Apps, int)> {
    match out
    case Ok(apps, ret) => Some((apps, ret))
    case Fault => None
  }

  lemma {:induction false} SequentialApps(ops: seq<Registry.Op>)
    ensures Sequential(AppHashObject(), ops) == match S.HashLog(ops) case Ran(apps, rets) => Some((apps, rets)) case Stuck => None
  {
    if ops != [] {
      var n := |ops| - 1;
      SequentialApps(ops[..n]);
      if S.HashLog(ops[..n]).Ran? {
        ActOnFresh(S.HashLog(ops[..n]).apps, ops[n]);
      }
    }
  }

  lemma AppsReadOnly()
    ensures ReadsOnly(AppHashObject())
  {
  }

  /** Application names stay distinct, and so do the providers of each, in every interleaving of the hash registry. */
  lemma AppsStayProper(threads: set<Thread>, es: seq<Event<Registry.Op>>)
    requires Possible(AppHashObject(), Start(AppHashObject(), threads), es)
    ensures var s := After(AppHashObject(), Start(AppHashObject(), threads), es);
      S.HashLog(OpsOf(s.log)) == S.Ran(s.state, RetsOf(s.log)) && Proper(s.state) && Seen(s.log) == Performed(es)
  {
    hide Possible, After, Start, Performed;
    var s := After(AppHashObject(), Start(AppHashObject(), threads), es);
    AppsReadOnly();
    Linearizable(AppHashObject(), threads, es);
    SequentialApps(OpsOf(s.log));
    S.LogsProper(OpsOf(s.log));
  }

  /** Every run of the hash registry that does not break is an interleaving, by whichever threads its calls come. */
  lemma AppsRealizable(threads: set<Thread>, ops: seq<Registry.Op>, who: seq<Thread>) returns (es: seq<Event<Registry.Op>>)
    requires S.HashLog(ops).Ran? && |who| == |ops| && forall i | 0 <= i < |who| :: who[i] in threads
    ensures Possible(AppHashObject(), Start(AppHashObject(), threads), es)
    ensures var s := After(AppHashObject(), Start(AppHashObject(), threads), es);
      OpsOf(s.log) == ops && R.WhoOf(s.log) == who && S.Ran(s.state, RetsOf(s.log)) == S.HashLog(ops)
  {
    hide Possible, After, Start;
    SequentialApps(ops);
    es := R.Realizable(AppHashObject(), threads, ops, who);
  }

  /** From the start of a query to its look-up, beside other readers. */
  lemma Querying(s0: System<Apps, Registry.Op, Option<nat>>, es: seq<Event<Registry.Op>>, t: Thread, op: Registry.Op)
    returns (fs: seq<Event<Registry.Op>>)
    requires op.Query? && Possible(AppHashObject(), s0, es)
    requires var s := After(AppHashObject(), s0, es);
      && t in s.phase && s.phase[t] == Outside && t in s.lock.pc && s.lock.writerWriting == 0
      && s.lock.mutex == R.L.Free && forall u | u in s.lock.pc :: s.lock.pc[u] == R.L.Idle
    ensures Possible(AppHashObject(), s0, fs)
    ensures var s := After(AppHashObject(), s0, es); var r := After(AppHashObject(), s0, fs);
      && r.phase == s.phase[t := Found(op, Pointer(s.state, op.app))] && r.state == s.state
      && r.lock.pc == s.lock.pc && r.lock.mutex == R.L.Free && r.lock.writerWriting == 0
  {
    hide Possible, After;
    var b := AppHashObject();
    fs := R.Called(b, s0, es, Begin(t, op), t, R.L.RLock);
    R.Extend(b, s0, fs, Look(t));
    fs := fs + [Look(t)];
  }

  /** Two threads can be in the middle of their queries at the same time. */
  lemma QueriesOverlap(p: Registry.Op, q: Registry.Op) returns (es: seq<Event<Registry.Op>>)
    requires p.Query? && q.Query?
    ensures Possible(AppHashObject(), Start(AppHashObject(), {0, 1}), es)
    ensures After(AppHashObject(), Start(AppHashObject(), {0, 1}), es).phase == map[0 := Found(p, None), 1 := Found(q, None)]
  {
    var s0 := Start(AppHashObject(), {0, 1});
    T.StartCalm({0, 1});
    es := Querying(s0, [], 0, p);
    es := Querying(s0, es, 1, q);
  }

  // Providers

  datatype NpOp = AddNp(np: string, keyVals: seq<string>) | DelNp(np: string)

  /** What add_np_to_hash and del_np_from_hash do with the pointer they got. */
  function NpActOn(nps: seq<Np>, op: NpOp, at: Option<nat>): Option<(seq<Np>, int)> {
    match op
    case AddNp(np, keyVals) => if at == None then Some((nps + [Np(np, keyVals, 0)], 0)) else Some((nps, -1))
    case DelNp(_) =>
      match at
      case None => Some((nps, -1))
      case Some(i) => if i < |nps| then Some((Drop(nps, i), 0)) else None
  }

  function NpPointer(nps: seq<Np>, np: string): Option<nat> {
    if Known(nps, np) then Some(NpAt(nps, np)) else None
  }

  function NpHashObject(): Object<seq<Np>, NpOp, Option<nat>> {
    Object([],
      (op: NpOp) => false,
      (nps: seq<Np>, op: NpOp) => NpPointer(nps, op.np),
      (nps: seq<Np>, op: NpOp, at: Option<nat>) => NpActOn(nps, op, at))
  }

  /** The sequential specification, as HashStructNp has it. */
  function NpStep(nps: seq<Np>, op: NpOp): (seq<Np>, int) {
    match op
    case AddNp(np, keyVals) => if Known(nps, np) then (nps, -1) else (nps + [Np(np, keyVals, 0)], 0)
    case DelNp(np) => (WithoutNpAt(nps, np), if Known(nps, np) then 0 else -1)
  }

  function NpRun(ops: seq<NpOp>): (seq<Np>, seq<int>) {
    if ops == [] then ([], [])
    else
      var (nps, rets) := NpRun(ops[..|ops| - 1]);
      var (nps', ret) := NpStep(nps, ops[|ops| - 1]);
      (nps', rets + [ret])
  }

  /** With a fresh pointer the functions take that step. */
  lemma NpActOnFresh(nps: seq<Np>, op: NpOp)
    ensures NpActOn(nps, op, NpPointer(nps, op.np)) == Some(NpStep(nps, op))
  {
  }

  lemma NpStepProper(nps: seq<Np>, op: NpOp)
    requires NpsProper(nps)
    ensures NpsProper(NpStep(nps, op).0)
  {
    if op.AddNp? {
      if !Known(nps, op.np) { AppendNp(nps, Np(op.np, op.keyVals, 0)); }
    } else {
      DropNp(nps, op.np);
    }
  }

  /** An addition is answered 0 exactly if the provider is new, and is last then; a deletion exactly if it is there, and takes it and no other. */
  lemma NpStepMeans(nps: seq<Np>, op: NpOp)
    requires NpsProper(nps)
    ensures var (t, ret) := NpStep(nps, op);
      && (ret == 0 || (ret == -1 && t == nps))
      && (op.AddNp? ==> (ret == 0 <==> !Known(nps, op.np)) && Known(t, op.np) && (ret == 0 ==> t == nps + [Np(op.np, op.keyVals, 0)]))
      && (op.DelNp? ==> (ret == 0 <==> Known(nps, op.np)) && !Known(t, op.np) && t == Filter(nps, OtherNp(op.np)))
  {
    hide Known, Filter;
    if op.AddNp? {
      if !Known(nps, op.np) { AppendNp(nps, Np(op.np, op.keyVals, 0)); }
    } else {
      WithoutIsFilter(nps, op.np);
      DropNp(nps, op.np);
      UnknownStays(nps, op.np);
    }
  }

  lemma UnknownStays(nps: seq<Np>, np: string)
    ensures !Known(nps, np) ==> WithoutNpAt(nps, np) == nps
  {
  }

  lemma {:induction false} SequentialNps(ops: seq<NpOp>)
    ensures Sequential(NpHashObject(), ops) == Some(NpRun(ops)) && NpsProper(NpRun(ops).0)
  {
    if ops != [] {
      var n := |ops| - 1;
      SequentialNps(ops[..n]);
      NpActOnFresh(NpRun(ops[..n]).0, ops[n]);
      NpStepProper(NpRun(ops[..n]).0, ops[n]);
    }
  }

  /** In every interleaving the hash table of providers holds and answers what the sequential run does, and names stay distinct. */
  lemma NpsStayProper(threads: set<Thread>, es: seq<Event<NpOp>>)
    requires Possible(NpHashObject(), Start(NpHashObject(), threads), es)
    ensures var s := After(NpHashObject(), Start(NpHashObject(), threads), es);
      NpRun(OpsOf(s.log)) == (s.state, RetsOf(s.log)) && NpsProper(s.state) && Seen(s.log) == Performed(es)
  {
    hide Possible, After, Start, Performed;
    Linearizable(NpHashObject(), threads, es);
    SequentialNps(OpsOf(After(NpHashObject(), Start(NpHashObject(), threads), es).log));
  }
}
