/**
 Concurrent use of a structure guarded by the reader-writer lock. Each operation
 takes the lock, looks its name up, acts on what it found, and gives the lock
 back; between any two of these steps, and inside the lock functions, every
 other thread may run.
 */
module Linearize {
  import L = RdwrLock
  import opened Registry

  type Thread = L.Thread

  /**
   A guarded structure: which operations only take the read lock, what a look-up
   returns, and what an operation makes of that, whatever has become of the
   structure since. An operation that breaks the program has no outcome.
   */
  datatype Object<!S, !O, !P> =
    Object(start: S, isRead: O -> bool, look: (S, O) -> P, act: (S, O, P) -> Option<(S, int)>)

  ghost predicate ReadsOnly<S(!new), O(!new), P(!new)>(b: Object<S, O, P>) {
    forall s, o, p | b.isRead(o) && b.act(s, o, p).Some? :: b.act(s, o, p).value.0 == s
  }

  /** Operations one after the other, each looking up and acting at once. */
  function Sequential<S, O, P>(b: Object<S, O, P>, ops: seq<O>): Option<(S, seq<int>)> {
    if ops == [] then Some((b.start, []))
    else match Sequential(b, ops[..|ops| - 1])
      case None => None
      case Some(r) =>
        var op := ops[|ops| - 1];
        match b.act(r.0, op, b.look(r.0, op))
        case None => None
        case Some(out) => Some((out.0, r.1 + [out.1]))
  }

  /** Where a thread is in its operation; `at` is what the look-up returned. */
  datatype Phase<O, P> =
    | Outside
    | Waiting(op: O)
    | Found(op: O, at: P)
    | Finished(op: O, ret: int)

  datatype Record<O> = Record(t: Thread, op: O, ret: int)

  /** The lock, what it guards, the threads, and the operations in the order in which they acted. */
  datatype System<S, O, P> =
    System(lock: L.State, state: S, phase: map<Thread, Phase<O, P>>, log: seq<Record<O>>)

  datatype Event<O> =
    | Begin(t: Thread, op: O)
    | Inner(e: L.Event)
    | Look(t: Thread)
    | Act(t: Thread)
    | End(t: Thread)

  function Start<S, O, P>(b: Object<S, O, P>, threads: set<Thread>): System<S, O, P> {
    System(L.Start(threads), b.start, map t | t in threads :: Outside, [])
  }

  function LockOf(isRead: bool): L.Op { if isRead then L.RLock else L.WLock }

  function UnlockOf(isRead: bool): L.Op { if isRead then L.RUnlock else L.WUnlock }

  predicate Can<S, O, P>(b: Object<S, O, P>, s: System<S, O, P>, e: Event<O>) {
    match e
    case Begin(t, op) => t in s.phase && s.phase[t].Outside? && L.Enabled(s.lock, L.Call(t, LockOf(b.isRead(op))))
    case Inner(f) => !f.Call? && L.Enabled(s.lock, f)
    case Look(t) => t in s.phase && s.phase[t].Waiting? && t in s.lock.pc && s.lock.pc[t].Idle?
    case Act(t) => t in s.phase && s.phase[t].Found? && b.act(s.state, s.phase[t].op, s.phase[t].at).Some?
    case End(t) => t in s.phase && s.phase[t].Finished? && L.Enabled(s.lock, L.Call(t, UnlockOf(b.isRead(s.phase[t].op))))
  }

  function Next<S, O, P>(b: Object<S, O, P>, s: System<S, O, P>, e: Event<O>): System<S, O, P>
    requires Can(b, s, e)
  {
    match e
    case Begin(t, op) =>
      s.(lock := L.Apply(s.lock, L.Call(t, LockOf(b.isRead(op)))), phase := s.phase[t := Waiting(op)])
    case Inner(f) => s.(lock := L.Apply(s.lock, f))
    case Look(t) =>
      var op := s.phase[t].op;
      s.(phase := s.phase[t := Found(op, b.look(s.state, op))])
    case Act(t) =>
      var op := s.phase[t].op;
      var out := b.act(s.state, op, s.phase[t].at).value;
      System(s.lock, out.0, s.phase[t := Finished(op, out.1)], s.log + [Record(t, op, out.1)])
    case End(t) =>
      s.(lock := L.Apply(s.lock, L.Call(t, UnlockOf(b.isRead(s.phase[t].op)))), phase := s.phase[t := Outside])
  }

  predicate Possible<S, O, P>(b: Object<S, O, P>, s: System<S, O, P>, es: seq<Event<O>>)
    decreases |es|, 0
  {
    es == [] || (Possible(b, s, es[..|es| - 1]) && Can(b, After(b, s, es[..|es| - 1]), es[|es| - 1]))
  }

  function After<S, O, P>(b: Object<S, O, P>, s: System<S, O, P>, es: seq<Event<O>>): System<S, O, P>
    requires Possible(b, s, es)
    decreases |es|, 1
  {
    if es == [] then s else Next(b, After(b, s, es[..|es| - 1]), es[|es| - 1])
  }

  predicate HoldsFor(lock: L.State, t: Thread, isRead: bool) {
    if isRead then t in lock.rholds else t in lock.wholds
  }

  /** What a thread's phase says about its place in the lock functions and its hold. */
  predicate Agrees<S, O, P>(b: Object<S, O, P>, lock: L.State, t: Thread, p: Phase<O, P>)
    requires t in lock.pc
  {
    var pc := lock.pc[t];
    match p
    case Outside => true
    case Waiting(op) =>
      var take := LockOf(b.isRead(op));
      || pc == L.Entering(take) || pc == L.Testing(take) || pc == L.Sleeping(take) || pc == L.Woken(take)
      || ((pc == L.Leaving(take, 0) || pc.Idle?) && HoldsFor(lock, t, b.isRead(op)))
    case Found(op, _) => pc.Idle? && HoldsFor(lock, t, b.isRead(op))
    case Finished(op, _) => pc.Idle? && HoldsFor(lock, t, b.isRead(op))
  }

  ghost predicate PhasesOk<S, O, P>(b: Object<S, O, P>, s: System<S, O, P>) {
    s.phase.Keys == s.lock.pc.Keys && forall t | t in s.phase :: Agrees(b, s.lock, t, s.phase[t])
  }

  /** No pointer is stale: it is what a look-up would return now. */
  ghost predicate PointersOk<S, O, P>(b: Object<S, O, P>, s: System<S, O, P>) {
    forall t | t in s.phase && s.phase[t].Found? :: s.phase[t].at == b.look(s.state, s.phase[t].op)
  }

  function OpsOf<O>(log: seq<Record<O>>): seq<O> { seq(|log|, i requires 0 <= i < |log| => log[i].op) }

  function RetsOf<O>(log: seq<Record<O>>): seq<int> { seq(|log|, i requires 0 <= i < |log| => log[i].ret) }

  /** The operations, one after the other in the order of the log, leave the same state and return the same. */
  ghost predicate LogOk<S, O, P>(b: Object<S, O, P>, s: System<S, O, P>) {
    Sequential(b, OpsOf(s.log)) == Some((s.state, RetsOf(s.log)))
  }

  ghost predicate SysInv<S, O, P>(b: Object<S, O, P>, s: System<S, O, P>) {
    L.Inv(s.lock) && PhasesOk(b, s) && PointersOk(b, s) && LogOk(b, s)
  }

  /** An event of the lock leaves every thread in agreement with its phase. */
  lemma InnerAgrees<S, O, P>(b: Object<S, O, P>, lock: L.State, f: L.Event, t: Thread, p: Phase<O, P>)
    requires L.Enabled(lock, f) && !f.Call? && t in lock.pc && Agrees(b, lock, t, p)
    ensures t in L.Apply(lock, f).pc && Agrees(b, L.Apply(lock, f), t, p)
  {
    hide L.Act, L.Roused, L.Enabled, L.Apply;
    L.Others(lock, f);
    L.ActorHolds(lock, f);
    LockFields(lock, f);
    if t == f.t {
      OwnAgrees(b, lock, f, p);
    }
  }

  lemma LockFields(lock: L.State, f: L.Event)
    requires L.Enabled(lock, f)
    ensures var r, a := L.Apply(lock, f), L.Act(lock, f); r.rholds == a.rholds && r.wholds == a.wholds
  {
  }

  lemma OwnAgrees<S, O, P>(b: Object<S, O, P>, lock: L.State, f: L.Event, p: Phase<O, P>)
    requires L.Enabled(lock, f) && !f.Call? && f.t in lock.pc && Agrees(b, lock, f.t, p)
    ensures Agrees(b, L.Apply(lock, f), f.t, p)
  {
  }

  lemma CallAgrees<S, O, P>(b: Object<S, O, P>, lock: L.State, f: L.Event, t: Thread, p: Phase<O, P>)
    requires L.Enabled(lock, f) && f.Call? && t in lock.pc && t != f.t && Agrees(b, lock, t, p)
    ensures t in L.Apply(lock, f).pc && Agrees(b, L.Apply(lock, f), t, p)
  {
  }

  lemma CallEnters(lock: L.State, f: L.Event)
    requires L.Enabled(lock, f) && f.Call?
    ensures L.Apply(lock, f).pc[f.t] == L.Entering(f.op)
  {
  }

  /** The event of the lock that a begin or an end makes. */
  function CallOf<S, O, P>(b: Object<S, O, P>, s: System<S, O, P>, e: Event<O>): L.Event
    requires Can(b, s, e) && (e.Begin? || e.End?)
  {
    L.Call(e.t, if e.Begin? then LockOf(b.isRead(e.op)) else UnlockOf(b.isRead(s.phase[e.t].op)))
  }

  lemma KeepsPhases<S, O, P>(b: Object<S, O, P>, s: System<S, O, P>, e: Event<O>)
    requires PhasesOk(b, s) && Can(b, s, e)
    ensures PhasesOk(b, Next(b, s, e))
  {
    hide L.Apply, L.Enabled;
    var r := Next(b, s, e);
    if e.Inner? {
      L.Others(s.lock, e.e);
      forall t | t in r.phase
        ensures Agrees(b, r.lock, t, r.phase[t])
      {
        InnerAgrees(b, s.lock, e.e, t, s.phase[t]);
      }
    } else if e.Begin? || e.End? {
      var f := CallOf(b, s, e);
      L.Others(s.lock, f);
      CallEnters(s.lock, f);
      forall t | t in r.phase
        ensures Agrees(b, r.lock, t, r.phase[t])
      {
        if t != e.t { CallAgrees(b, s.lock, f, t, s.phase[t]); }
      }
    }
  }

  /** While one thread writes, no other is between its look-up and its end. */
  lemma Alone<S, O, P>(b: Object<S, O, P>, s: System<S, O, P>, t: Thread, u: Thread)
    requires L.CountsOk(s.lock) && PhasesOk(b, s) && t in s.phase && u in s.phase && t != u
    requires s.phase[t].Found? && !b.isRead(s.phase[t].op)
    ensures !s.phase[u].Found?
  {
    L.Two(s.lock.wholds);
    L.Two(s.lock.rholds);
  }

  lemma KeepsPointers<S(!new), O(!new), P(!new)>(b: Object<S, O, P>, s: System<S, O, P>, e: Event<O>)
    requires ReadsOnly(b) && L.CountsOk(s.lock) && PhasesOk(b, s) && PointersOk(b, s) && Can(b, s, e)
    ensures PointersOk(b, Next(b, s, e))
  {
    hide L.Apply, L.Enabled, L.CountsOk, PhasesOk;
    if e.Act? && !b.isRead(s.phase[e.t].op) {
      forall u | u in s.phase && u != e.t
        ensures !s.phase[u].Found?
      {
        Alone(b, s, e.t, u);
      }
    }
  }

  lemma LogSnoc<O>(log: seq<Record<O>>, x: Record<O>)
    ensures OpsOf(log + [x]) == OpsOf(log) + [x.op] && RetsOf(log + [x]) == RetsOf(log) + [x.ret]
    ensures OpsOf(log + [x])[..|log|] == OpsOf(log)
  {
  }

  lemma KeepsLog<S, O, P>(b: Object<S, O, P>, s: System<S, O, P>, e: Event<O>)
    requires PointersOk(b, s) && LogOk(b, s) && Can(b, s, e)
    ensures LogOk(b, Next(b, s, e))
  {
    hide L.Apply, L.Enabled;
    if e.Act? {
      var op := s.phase[e.t].op;
      LogSnoc(s.log, Record(e.t, op, b.act(s.state, op, s.phase[e.t].at).value.1));
      assert s.phase[e.t].at == b.look(s.state, op);
    }
  }

  lemma KeepsLock<S, O, P>(b: Object<S, O, P>, s: System<S, O, P>, e: Event<O>)
    requires L.Inv(s.lock) && PhasesOk(b, s) && Can(b, s, e)
    ensures L.Inv(Next(b, s, e).lock)
  {
    hide L.Apply, L.Enabled, L.Inv;
    if e.Inner? {
      L.KeepsInv(s.lock, e.e);
    } else if e.Begin? || e.End? {
      L.KeepsInv(s.lock, CallOf(b, s, e));
    }
  }

  lemma StartInv<S, O, P>(b: Object<S, O, P>, threads: set<Thread>)
    ensures SysInv(b, Start(b, threads))
  {
    L.StartOk(threads);
    var s := Start(b, threads);
    assert OpsOf(s.log) == [] && RetsOf(s.log) == [];
  }

  lemma {:induction false} RunKeeps<S(!new), O(!new), P(!new)>(b: Object<S, O, P>, threads: set<Thread>, es: seq<Event<O>>)
    requires ReadsOnly(b) && Possible(b, Start(b, threads), es)
    ensures SysInv(b, After(b, Start(b, threads), es))
    decreases |es|
  {
    if es == [] {
      StartInv(b, threads);
    } else {
      var s, e := After(b, Start(b, threads), es[..|es| - 1]), es[|es| - 1];
      RunKeeps(b, threads, es[..|es| - 1]);
      hide L.Apply, L.Enabled, L.Inv, PhasesOk, PointersOk, LogOk, Next, Can, ReadsOnly;
      Counts(s.lock);
      KeepsLock(b, s, e);
      KeepsPhases(b, s, e);
      KeepsPointers(b, s, e);
      KeepsLog(b, s, e);
    }
  }

  lemma Counts(lock: L.State)
    requires L.Inv(lock)
    ensures L.CountsOk(lock)
  {
  }

  // What the log says about the events

  /** An event of this thread's operation, as opposed to one of the lock. */
  predicate Own<O>(e: Event<O>, t: Thread) {
    !e.Inner? && e.t == t
  }

  function LastOwn<O>(es: seq<Event<O>>, t: Thread): Option<Event<O>> {
    if es == [] then None
    else if Own(es[|es| - 1], t) then Some(es[|es| - 1])
    else LastOwn(es[..|es| - 1], t)
  }

  /** The operation that the thread began last. */
  function LastBegun<O>(es: seq<Event<O>>, t: Thread): Option<O> {
    if es == [] then None
    else if es[|es| - 1].Begin? && es[|es| - 1].t == t then Some(es[|es| - 1].op)
    else LastBegun(es[..|es| - 1], t)
  }

  /** One entry for each act: its thread, and the operation which that thread began last. */
  function Performed<O>(es: seq<Event<O>>): seq<(Thread, Option<O>)> {
    if es == [] then []
    else
      var r, e := Performed(es[..|es| - 1]), es[|es| - 1];
      if e.Act? then r + [(e.t, LastBegun(es[..|es| - 1], e.t))] else r
  }

  /** The place in the log of the thread's last act. */
  ghost function LastPlace<O>(es: seq<Event<O>>, t: Thread): nat {
    if es == [] then 0
    else if es[|es| - 1] == Act(t) then |Performed(es[..|es| - 1])|
    else LastPlace(es[..|es| - 1], t)
  }

  function Seen<O>(log: seq<Record<O>>): seq<(Thread, Option<O>)> {
    seq(|log|, i requires 0 <= i < |log| => (log[i].t, Some(log[i].op)))
  }

  predicate InStep<S, O(==), P>(es: seq<Event<O>>, t: Thread, p: Phase<O, P>) {
    match p
    case Outside => LastOwn(es, t) == None || LastOwn(es, t) == Some(End(t))
    case Waiting(op) => LastOwn(es, t) == Some(Begin(t, op)) && LastBegun(es, t) == Some(op)
    case Found(op, _) => LastOwn(es, t) == Some(Look(t)) && LastBegun(es, t) == Some(op)
    case Finished(op, _) => LastOwn(es, t) == Some(Act(t)) && LastBegun(es, t) == Some(op)
  }

  ghost predicate Follows<S, O, P>(s: System<S, O, P>, es: seq<Event<O>>) {
    && (forall t | t in s.phase :: InStep<S, O, P>(es, t, s.phase[t]))
    && Seen(s.log) == Performed(es)
    && forall t | t in s.phase && s.phase[t].Finished? ::
         LastPlace(es, t) < |s.log| && s.log[LastPlace(es, t)] == Record(t, s.phase[t].op, s.phase[t].ret)
  }

  lemma FollowsNext<S, O, P>(b: Object<S, O, P>, s: System<S, O, P>, es: seq<Event<O>>, e: Event<O>)
    requires Follows(s, es) && Can(b, s, e)
    ensures Follows(Next(b, s, e), es + [e])
  {
    hide L.Apply, L.Enabled;
    var r, fs := Next(b, s, e), es + [e];
    assert fs[..|fs| - 1] == es;
    if e.Act? {
      LogSnoc(s.log, r.log[|s.log|]);
      assert Seen(r.log) == Seen(s.log) + [(e.t, Some(s.phase[e.t].op))];
    }
    forall t | t in r.phase
      ensures InStep<S, O, P>(fs, t, r.phase[t])
    {
      assert t in s.phase && InStep<S, O, P>(es, t, s.phase[t]);
    }
    forall t | t in r.phase && r.phase[t].Finished?
      ensures LastPlace(fs, t) < |r.log| && r.log[LastPlace(fs, t)] == Record(t, r.phase[t].op, r.phase[t].ret)
    {
      assert |Seen(s.log)| == |s.log|;
    }
  }

  lemma {:induction false} RunFollows<S, O, P>(b: Object<S, O, P>, threads: set<Thread>, es: seq<Event<O>>)
    requires Possible(b, Start(b, threads), es)
    ensures Follows(After(b, Start(b, threads), es), es)
    decreases |es|
  {
    if es == [] {
      assert Seen(Start(b, threads).log) == [];
    } else {
      var s, e := After(b, Start(b, threads), es[..|es| - 1]), es[|es| - 1];
      RunFollows(b, threads, es[..|es| - 1]);
      hide Next, Can, Follows;
      FollowsNext(b, s, es[..|es| - 1], e);
      assert es[..|es| - 1] + [e] == es;
    }
  }

  lemma {:induction false} PossiblePrefix<S, O, P>(b: Object<S, O, P>, s: System<S, O, P>, es: seq<Event<O>>, n: nat)
    requires Possible(b, s, es) && n < |es|
    ensures Possible(b, s, es[..n]) && Can(b, After(b, s, es[..n]), es[n])
    decreases |es|
  {
    hide Can, Next;
    if n < |es| - 1 {
      PossiblePrefix(b, s, es[..|es| - 1], n);
      assert es[..|es| - 1][..n] == es[..n];
    }
  }

  /** A thread's own events come in turn: begin, look, act, end. */
  lemma InTurn<S, O, P>(b: Object<S, O, P>, threads: set<Thread>, es: seq<Event<O>>, n: nat)
    requires Possible(b, Start(b, threads), es) && n < |es| && !es[n].Inner?
    ensures var last := LastOwn(es[..n], es[n].t);
      match es[n]
      case Begin(t, _) => last == None || last == Some(End(t))
      case Look(t) => last.Some? && last.value.Begin?
      case Act(t) => last == Some(Look(t))
      case End(t) => last == Some(Act(t))
  {
    hide Possible, After, LastOwn, L.Enabled;
    PossiblePrefix(b, Start(b, threads), es, n);
    RunFollows(b, threads, es[..n]);
    var s := After(b, Start(b, threads), es[..n]);
    assert InStep<S, O, P>(es[..n], es[n].t, s.phase[es[n].t]);
  }

  /** The last own event of a thread, and where it is. */
  lemma {:induction false} LastOwnAt<O>(es: seq<Event<O>>, t: Thread) returns (a: nat)
    requires LastOwn(es, t).Some?
    ensures a < |es| && LastOwn(es, t) == Some(es[a]) && Own(es[a], t) && forall k | a < k < |es| :: !Own(es[k], t)
  {
    var n := |es| - 1;
    if Own(es[n], t) {
      a := n;
    } else {
      a := LastOwnAt(es[..n], t);
    }
  }

  /** Every operation acts once between its begin and its end. */
  lemma ActsWithin<S, O, P>(b: Object<S, O, P>, threads: set<Thread>, es: seq<Event<O>>, p: nat)
    returns (begin: nat, look: nat, act: nat)
    requires Possible(b, Start(b, threads), es) && p < |es| && es[p].End?
    ensures begin < look < act < p
    ensures es[begin].Begin? && es[begin].t == es[p].t && es[look] == Look(es[p].t) && es[act] == Act(es[p].t)
    ensures forall k | begin < k < p && k != look && k != act :: !Own(es[k], es[p].t)
  {
    hide Possible;
    var t := es[p].t;
    InTurn(b, threads, es, p);
    act := LastOwnAt(es[..p], t);
    InTurn(b, threads, es, act);
    look := LastOwnAt(es[..act], t);
    InTurn(b, threads, es, look);
    begin := LastOwnAt(es[..look], t);
  }

  lemma {:induction false} PerformedGrows<O>(es: seq<Event<O>>, m: nat, n: nat)
    requires m <= n <= |es|
    ensures |Performed(es[..m])| <= |Performed(es[..n])|
    ensures m < n && es[m].Act? ==> |Performed(es[..m])| < |Performed(es[..n])|
    decreases n
  {
    if m < n {
      assert es[..n][..n - 1] == es[..n - 1];
      PerformedGrows(es, m, n - 1);
    }
  }

  /** The place in the log of an act. */
  function Place<O>(es: seq<Event<O>>, act: nat): nat
    requires act < |es| && es[act].Act?
  {
    |Performed(es[..act])|
  }

  lemma {:induction false} PlaceHolds<O>(es: seq<Event<O>>, act: nat)
    requires act < |es| && es[act].Act?
    ensures Place(es, act) < |Performed(es)|
    ensures Performed(es)[Place(es, act)] == (es[act].t, LastBegun(es[..act], es[act].t))
  {
    if act < |es| - 1 {
      assert es[..|es| - 1][..act] == es[..act];
      PlaceHolds(es[..|es| - 1], act);
    }
  }

  /** An operation that has ended before another begins comes before it in the log. */
  lemma OrderKept<S, O, P>(b: Object<S, O, P>, threads: set<Thread>, es: seq<Event<O>>, p: nat, q: nat, act: nat)
    returns (before: nat)
    requires Possible(b, Start(b, threads), es) && p < q < act < |es| && es[p].End? && es[q].Begin? && es[act] == Act(es[q].t)
    ensures before < p && es[before] == Act(es[p].t) && forall k | before < k < p :: !Own(es[k], es[p].t)
    ensures Place(es, before) < Place(es, act)
  {
    hide Possible, Performed;
    var begin, look;
    begin, look, before := ActsWithin(b, threads, es, p);
    PerformedGrows(es, before, act);
  }

  /**
   Every interleaving of any number of threads amounts to one sequential run of
   the operations: the log has one record for each act, in the order of the
   acts, with the operation that the acting thread began last; the guarded state
   is what these operations leave one after the other, and each returns what it
   returns there: it is what its thread takes away.
   */
  lemma Linearizable<S(!new), O(!new), P(!new)>(b: Object<S, O, P>, threads: set<Thread>, es: seq<Event<O>>)
    requires ReadsOnly(b) && Possible(b, Start(b, threads), es)
    ensures var s := After(b, Start(b, threads), es);
      && Seen(s.log) == Performed(es)
      && Sequential(b, OpsOf(s.log)) == Some((s.state, RetsOf(s.log)))
      && forall t | t in s.phase && s.phase[t].Finished? ::
           LastPlace(es, t) < |s.log| && s.log[LastPlace(es, t)] == Record(t, s.phase[t].op, s.phase[t].ret)
  {
    hide Possible, After, Performed;
    RunKeeps(b, threads, es);
    RunFollows(b, threads, es);
  }
}
