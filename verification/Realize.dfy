/** The other direction of linearizability: every sequential run, by whichever threads, is an interleaving of the guarded structure. */
module Realize {
  import L = RdwrLock
  import T = TwoHolds
  import opened Registry
  import opened Linearize

  lemma Extend<S, O, P>(b: Object<S, O, P>, s0: System<S, O, P>, es: seq<Event<O>>, e: Event<O>)
    requires Possible(b, s0, es) && Can(b, After(b, s0, es), e)
    ensures Possible(b, s0, es + [e]) && After(b, s0, es + [e]) == Next(b, After(b, s0, es), e)
  {
    hide Can, Next;
    assert (es + [e])[..|es|] == es;
  }

  /** An event of the lock where nobody sleeps. */
  lemma InnerStep<S, O, P>(b: Object<S, O, P>, s0: System<S, O, P>, es: seq<Event<O>>, f: L.Event) returns (fs: seq<Event<O>>)
    requires Possible(b, s0, es) && !f.Call?
    requires L.Enabled(After(b, s0, es).lock, f) && L.Sleepers(After(b, s0, es).lock) == {}
    ensures Possible(b, s0, fs)
    ensures var s := After(b, s0, es); var a := L.Act(s.lock, f);
      && After(b, s0, fs) == s.(lock := L.State(a.readersReading, a.writerWriting, a.mutex, s.lock.pc[f.t := a.pc], a.rholds, a.wholds))
      && (!a.pc.Sleeping? ==> L.Sleepers(After(b, s0, fs).lock) == {})
  {
    hide L.Act, L.Enabled, L.Apply, L.Sleepers, Possible, After;
    L.Alone(After(b, s0, es).lock, f);
    Extend(b, s0, es, Inner(f));
    fs := es + [Inner(f)];
  }

  /** The way through a lock function that has just been called on a lock with nobody on the way to it. */
  lemma Through<S, O, P>(b: Object<S, O, P>, s0: System<S, O, P>, es: seq<Event<O>>, lock: L.State, t: L.Thread, op: L.Op)
    returns (fs: seq<Event<O>>)
    requires lock.mutex == L.Free && t in lock.pc && (forall u | u in lock.pc :: lock.pc[u] == L.Idle)
    requires !L.TestEffect(lock, t, op).pc.Sleeping?
    requires Possible(b, s0, es) && After(b, s0, es).lock == L.Apply(lock, L.Call(t, op))
    ensures Possible(b, s0, fs) && After(b, s0, fs) == After(b, s0, es).(lock := L.Visited(lock, t, op))
  {
    hide Possible, After, L.Apply, L.Sleepers;
    T.NoSleepers(lock);
    L.Alone(lock, L.Call(t, op));
    fs := InnerStep(b, s0, es, L.Acquire(t));
    L.Again(lock.pc, t, L.Entering(op), L.Testing(op));
    fs := InnerStep(b, s0, fs, L.Test(t));
    L.Again(lock.pc, t, L.Testing(op), After(b, s0, fs).lock.pc[t]);
    fs := Depart(b, s0, fs, lock.pc, t);
  }

  lemma Depart<S, O, P>(b: Object<S, O, P>, s0: System<S, O, P>, es: seq<Event<O>>, pc: map<L.Thread, L.Pc>, t: L.Thread)
    returns (fs: seq<Event<O>>)
    requires Possible(b, s0, es) && t in pc && pc[t] == L.Idle
    requires var lock := After(b, s0, es).lock;
      && L.Sleepers(lock) == {} && t in lock.pc && lock.pc == pc[t := lock.pc[t]]
      && (lock.pc[t] == L.Notifying(L.RUnlock) || lock.pc[t] == L.Notifying(L.WUnlock) || lock.pc[t].Leaving?)
    ensures Possible(b, s0, fs)
    ensures var s := After(b, s0, es); After(b, s0, fs) == s.(lock := s.lock.(mutex := L.Free, pc := pc))
  {
    hide Possible, After, L.Apply, L.Sleepers;
    fs := es;
    var p := After(b, s0, es).lock.pc[t];
    if p.Notifying? {
      fs := InnerStep(b, s0, fs, if p.op == L.RUnlock then L.Signal(t, {}) else L.Broadcast(t));
      L.Again(pc, t, p, After(b, s0, fs).lock.pc[t]);
    }
    fs := InnerStep(b, s0, fs, L.Release(t));
    assert After(b, s0, fs).lock.pc == pc;
  }

  /** Nobody is in an operation. */
  ghost predicate Resting<S, O, P>(s: System<S, O, P>) {
    T.Calm(s.lock) && s.phase.Keys == s.lock.pc.Keys && forall t | t in s.phase :: s.phase[t] == Outside
  }

  lemma Called<S, O, P>(b: Object<S, O, P>, s0: System<S, O, P>, es: seq<Event<O>>, e: Event<O>, t: L.Thread, op: L.Op)
    returns (fs: seq<Event<O>>)
    requires Possible(b, s0, es) && Can(b, After(b, s0, es), e) && (e.Begin? || e.End?) && e.t == t
    requires var s := After(b, s0, es);
      && op == (if e.Begin? then LockOf(b.isRead(e.op)) else UnlockOf(b.isRead(s.phase[t].op)))
      && s.lock.mutex == L.Free && t in s.lock.pc && (forall u | u in s.lock.pc :: s.lock.pc[u] == L.Idle)
      && !L.TestEffect(s.lock, t, op).pc.Sleeping?
    ensures Possible(b, s0, fs)
    ensures var s := After(b, s0, es);
      After(b, s0, fs) == s.(lock := L.Visited(s.lock, t, op), phase := s.phase[t := if e.Begin? then Waiting(e.op) else Outside])
  {
    hide Possible, After, L.Apply, L.Visited, L.TestEffect;
    var s := After(b, s0, es);
    Extend(b, s0, es, e);
    fs := Through(b, s0, es + [e], s.lock, t, op);
  }

  lemma BackAgain(lock: L.State, t: L.Thread, isRead: bool)
    requires T.Calm(lock) && t in lock.pc
    ensures var held := L.Visited(lock, t, LockOf(isRead));
      && L.Visited(held, t, UnlockOf(isRead)) == lock && held.pc == lock.pc && held.mutex == L.Free
      && !L.TestEffect(lock, t, LockOf(isRead)).pc.Sleeping? && !L.TestEffect(held, t, UnlockOf(isRead)).pc.Sleeping?
  {
    T.ReadAndBack(lock, t);
    T.WriteAndBack(lock, t);
  }

  /** One whole operation, undisturbed. */
  lemma Turn<S, O, P>(b: Object<S, O, P>, s0: System<S, O, P>, es: seq<Event<O>>, t: L.Thread, op: O) returns (fs: seq<Event<O>>)
    requires Possible(b, s0, es) && Resting(After(b, s0, es)) && t in After(b, s0, es).phase
    requires var s := After(b, s0, es); b.act(s.state, op, b.look(s.state, op)).Some?
    ensures Possible(b, s0, fs)
    ensures var s := After(b, s0, es); var out := b.act(s.state, op, b.look(s.state, op)).value;
      After(b, s0, fs) == System(s.lock, out.0, s.phase, s.log + [Record(t, op, out.1)])
  {
    hide Possible, After, L.Visited, L.TestEffect, L.Apply;
    var s := After(b, s0, es);
    var isRead := b.isRead(op);
    BackAgain(s.lock, t, isRead);
    fs := Called(b, s0, es, Begin(t, op), t, LockOf(isRead));
    Extend(b, s0, fs, Look(t));
    fs := fs + [Look(t)];
    Extend(b, s0, fs, Act(t));
    fs := fs + [Act(t)];
    fs := Called(b, s0, fs, End(t), t, UnlockOf(isRead));
    var out := b.act(s.state, op, b.look(s.state, op)).value;
    Back(s.phase, t, Waiting(op), Found(op, b.look(s.state, op)), Finished(op, out.1));
  }

  lemma Back<O, P>(m: map<L.Thread, Phase<O, P>>, t: L.Thread, p: Phase<O, P>, q: Phase<O, P>, r: Phase<O, P>)
    requires t in m && m[t] == Outside
    ensures m[t := p][t := q][t := r][t := Outside] == m
  {
  }

  function WhoOf<O>(log: seq<Record<O>>): seq<L.Thread> {
    seq(|log|, i requires 0 <= i < |log| => log[i].t)
  }

  /** The run `es` comes to rest with this log and the state and answers of the sequential run. */
  ghost predicate Realizes<S, O, P>(b: Object<S, O, P>, threads: set<L.Thread>, es: seq<Event<O>>, ops: seq<O>, who: seq<L.Thread>)
    requires Sequential(b, ops).Some?
  {
    && Possible(b, Start(b, threads), es)
    && var s := After(b, Start(b, threads), es);
       && Resting(s) && s.phase.Keys == threads && OpsOf(s.log) == ops && WhoOf(s.log) == who
       && (s.state, RetsOf(s.log)) == Sequential(b, ops).value
  }

  /**
   Whatever operations some threads want to perform, in whatever order, if they
   do not break one after the other there is an interleaving in which they act
   in just that order, and come to rest.
   */
  lemma {:induction false} Realizable<S, O, P>(b: Object<S, O, P>, threads: set<L.Thread>, ops: seq<O>, who: seq<L.Thread>)
    returns (es: seq<Event<O>>)
    requires Sequential(b, ops).Some? && |who| == |ops| && forall i | 0 <= i < |who| :: who[i] in threads
    ensures Realizes(b, threads, es, ops, who)
    decreases |ops|
  {
    hide Realizes, Sequential;
    if ops == [] {
      es := [];
      NothingYet(b, threads);
    } else {
      var n := |ops| - 1;
      assert ops == ops[..n] + [ops[n]] && who == who[..n] + [who[n]];
      SequentialSnoc(b, ops[..n], ops[n]);
      es := Realizable(b, threads, ops[..n], who[..n]);
      es := OneMore(b, threads, es, ops[..n], who[..n], ops[n], who[n]);
    }
  }

  lemma NothingYet<S, O, P>(b: Object<S, O, P>, threads: set<L.Thread>)
    ensures Realizes(b, threads, [], [], [])
  {
    var s0 := Start(b, threads);
    T.StartCalm(threads);
    assert OpsOf(s0.log) == [] && WhoOf(s0.log) == [] && RetsOf(s0.log) == [];
  }

  lemma SequentialSnoc<S, O, P>(b: Object<S, O, P>, ops: seq<O>, op: O)
    requires Sequential(b, ops + [op]).Some?
    ensures Sequential(b, ops).Some?
    ensures var r := Sequential(b, ops).value; var out := b.act(r.0, op, b.look(r.0, op));
      out.Some? && Sequential(b, ops + [op]).value == (out.value.0, r.1 + [out.value.1])
  {
    assert (ops + [op])[..|ops|] == ops;
  }

  lemma OneMore<S, O, P>(b: Object<S, O, P>, threads: set<L.Thread>, es: seq<Event<O>>, ops: seq<O>, who: seq<L.Thread>, op: O, t: L.Thread)
    returns (fs: seq<Event<O>>)
    requires Sequential(b, ops).Some? && Realizes(b, threads, es, ops, who)
    requires Sequential(b, ops + [op]).Some? && t in threads
    ensures Realizes(b, threads, fs, ops + [op], who + [t])
  {
    hide Possible, After, Sequential, OpsOf, RetsOf, WhoOf, T.Calm;
    SequentialSnoc(b, ops, op);
    var s := After(b, Start(b, threads), es);
    fs := Turn(b, Start(b, threads), es, t, op);
    LogGrows(s.log, After(b, Start(b, threads), fs).log[|s.log|]);
  }

  lemma LogGrows<O>(log: seq<Record<O>>, x: Record<O>)
    ensures OpsOf(log + [x]) == OpsOf(log) + [x.op] && RetsOf(log + [x]) == RetsOf(log) + [x.ret]
    ensures WhoOf(log + [x]) == WhoOf(log) + [x.t]
  {
  }
}
