/**
 The reader-writer lock, built from one mutex and one condition variable, as a
 transition system over any number of threads. Each statement between two
 points where another thread may run is one event; waiting on the condition
 variable releases the mutex in the same event, a sleeper may wake for no
 reason, and a thread that was never asleep may overtake a woken one.
 */
module RdwrLock {

  type Thread = nat

  datatype Op = RLock | WLock | RUnlock | WUnlock

  datatype Pc =
    | Idle
    | Entering(op: Op)            // about to lock the mutex
    | Testing(op: Op)             // holds the mutex, about to look at the counters
    | Sleeping(op: Op)            // waits on lock_free
    | Woken(op: Op)               // left the wait queue, about to lock the mutex again
    | Notifying(op: Op)           // holds the mutex, about to signal or broadcast
    | Leaving(op: Op, ret: int)   // about to unlock the mutex and return

  datatype Owner = Free | By(t: Thread)

  /** `rholds` and `wholds` record which threads hold the lock; the code does not have them. */
  datatype State = State(
    readersReading: int, writerWriting: int, mutex: Owner, pc: map<Thread, Pc>,
    rholds: multiset<Thread>, wholds: multiset<Thread>)

  datatype Event =
    | Call(t: Thread, op: Op)
    | Acquire(t: Thread)
    | Test(t: Thread)
    | Signal(t: Thread, woken: set<Thread>)
    | Broadcast(t: Thread)
    | Spurious(t: Thread)
    | Release(t: Thread)

  function Start(threads: set<Thread>): State {
    State(0, 0, Free, map t | t in threads :: Idle, multiset{}, multiset{})
  }

  function Sleepers(s: State): set<Thread> {
    set t | t in s.pc && s.pc[t].Sleeping?
  }

  predicate Enabled(s: State, e: Event) {
    && e.t in s.pc
    && match e
       case Call(t, _) => s.pc[t].Idle?
       case Acquire(t) => (s.pc[t].Entering? || s.pc[t].Woken?) && s.mutex == Free
       case Test(t) => s.pc[t].Testing?
       // a signal wakes at least one sleeper if there is any
       case Signal(t, woken) => s.pc[t] == Notifying(RUnlock) && woken <= Sleepers(s) && (woken == {} ==> Sleepers(s) == {})
       case Broadcast(t) => s.pc[t] == Notifying(WUnlock)
       case Spurious(t) => s.pc[t].Sleeping?
       case Release(t) => s.pc[t].Leaving?
  }

  /** What an event does to the shared fields and to the thread it belongs to. */
  datatype Effect = Effect(
    readersReading: int, writerWriting: int, mutex: Owner, pc: Pc,
    rholds: multiset<Thread>, wholds: multiset<Thread>)

  /** Only the thread itself moves. */
  function Move(s: State, mutex: Owner, pc: Pc): Effect {
    Effect(s.readersReading, s.writerWriting, mutex, pc, s.rholds, s.wholds)
  }

  /** The critical section of thread `t` up to the next release, wait or notification. */
  function TestEffect(s: State, t: Thread, op: Op): Effect {
    match op
    case RLock =>
      if s.writerWriting != 0 then Move(s, Free, Sleeping(RLock))
      else Effect(s.readersReading + 1, s.writerWriting, s.mutex, Leaving(RLock, 0), s.rholds + multiset{t}, s.wholds)
    case WLock =>
      if s.writerWriting != 0 || s.readersReading != 0 then Move(s, Free, Sleeping(WLock))
      else Effect(s.readersReading, s.writerWriting + 1, s.mutex, Leaving(WLock, 0), s.rholds, s.wholds + multiset{t})
    case RUnlock =>
      if s.readersReading == 0 then Move(s, s.mutex, Leaving(RUnlock, -1))
      else Effect(s.readersReading - 1, s.writerWriting, s.mutex,
                  if s.readersReading - 1 == 0 then Notifying(RUnlock) else Leaving(RUnlock, 0),
                  s.rholds - multiset{t}, s.wholds)
    case WUnlock =>
      if s.writerWriting == 0 then Move(s, s.mutex, Leaving(WUnlock, -1))
      else Effect(s.readersReading, 0, s.mutex, Notifying(WUnlock), s.rholds, s.wholds - multiset{t})
  }

  function Act(s: State, e: Event): Effect
    requires Enabled(s, e)
  {
    match e
    case Call(t, op) => Move(s, s.mutex, Entering(op))
    case Acquire(t) => Move(s, By(t), Testing(s.pc[t].op))
    case Test(t) => TestEffect(s, t, s.pc[t].op)
    case Signal(t, _) => Move(s, s.mutex, Leaving(RUnlock, 0))
    case Broadcast(t) => Move(s, s.mutex, Leaving(WUnlock, 0))
    case Spurious(t) => Move(s, s.mutex, Woken(s.pc[t].op))
    case Release(t) => Move(s, Free, Idle)
  }

  /** The sleepers an event wakes. */
  function Roused(s: State, e: Event): set<Thread> {
    match e
    case Signal(_, woken) => woken
    case Broadcast(_) => Sleepers(s)
    case _ => {}
  }

  function Wake(pc: map<Thread, Pc>, woken: set<Thread>): map<Thread, Pc> {
    map t | t in pc :: if t in woken && pc[t].Sleeping? then Woken(pc[t].op) else pc[t]
  }

  function Apply(s: State, e: Event): State
    requires Enabled(s, e)
  {
    var a := Act(s, e);
    State(a.readersReading, a.writerWriting, a.mutex, Wake(s.pc, Roused(s, e))[e.t := a.pc], a.rholds, a.wholds)
  }

  /** A thread gives back only what it holds. */
  predicate Matched(s: State, e: Event) {
    e.Call? ==> (e.op == RUnlock ==> e.t in s.rholds) && (e.op == WUnlock ==> e.t in s.wholds)
  }

  /** Every event is enabled where it happens. */
  predicate Feasible(s: State, es: seq<Event>)
    decreases |es|, 0
  {
    es == [] || (Feasible(s, es[..|es| - 1]) && Enabled(After(s, es[..|es| - 1]), es[|es| - 1]))
  }

  function After(s: State, es: seq<Event>): State
    requires Feasible(s, es)
    decreases |es|, 1
  {
    if es == [] then s else Apply(After(s, es[..|es| - 1]), es[|es| - 1])
  }

  /** A feasible run in which every call is matched. */
  predicate Legal(s: State, es: seq<Event>)
    decreases |es|
  {
    Feasible(s, es) &&
    (es == [] || (Legal(s, es[..|es| - 1]) && Matched(After(s, es[..|es| - 1]), es[|es| - 1])))
  }

  predicate InMutex(pc: Pc) {
    pc.Testing? || pc.Notifying? || pc.Leaving?
  }

  predicate Giving(pc: Pc, op: Op) {
    pc == Entering(op) || pc == Testing(op)
  }

  /** Only lock operations wait; only the two unlock operations notify, each in its own way. */
  predicate Shape(pc: Pc) {
    && (pc.Sleeping? || pc.Woken? ==> pc.op == RLock || pc.op == WLock)
    && (pc.Notifying? ==> pc.op == RUnlock || pc.op == WUnlock)
  }

  ghost predicate MutexOk(s: State) {
    && (s.mutex.By? ==> s.mutex.t in s.pc)
    && forall t | t in s.pc :: Shape(s.pc[t]) && (InMutex(s.pc[t]) <==> s.mutex == By(t))
  }

  ghost predicate Counted(readers: int, writers: int, rholds: multiset<Thread>, wholds: multiset<Thread>) {
    && readers == |rholds| && writers == |wholds| <= 1
    && (readers == 0 || writers == 0)
  }

  /** The two counters are the numbers of holds, and exclude each other. */
  ghost predicate CountsOk(s: State) {
    Counted(s.readersReading, s.writerWriting, s.rholds, s.wholds)
  }

  ghost predicate HoldsOk(s: State) {
    forall t | t in s.pc ::
      && (Giving(s.pc[t], RUnlock) ==> t in s.rholds)
      && (Giving(s.pc[t], WUnlock) ==> t in s.wholds)
  }

  /** Readers wait only for a writer, or for a broadcast that is about to come. */
  ghost predicate ReadersOk(s: State) {
    forall t | t in s.pc && s.pc[t] == Sleeping(RLock) ::
      s.writerWriting != 0 || exists u :: u in s.pc && s.pc[u] == Notifying(WUnlock)
  }

  /** Someone will yet look at a free lock: woken, about to notify, or about to test. */
  predicate Pending(pc: Pc) {
    pc.Woken? || pc.Notifying? || pc == Testing(RLock) || pc == Testing(WLock)
  }

  ghost predicate WakeupsOk(s: State) {
    s.readersReading == 0 && s.writerWriting == 0 && Sleepers(s) != {} ==>
      exists u :: u in s.pc && Pending(s.pc[u])
  }

  ghost predicate Inv(s: State) {
    MutexOk(s) && CountsOk(s) && HoldsOk(s) && ReadersOk(s) && WakeupsOk(s)
  }

  /** An event changes another thread's program counter only by waking it. */
  lemma Others(s: State, e: Event)
    requires Enabled(s, e)
    ensures Apply(s, e).pc.Keys == s.pc.Keys && e.t in s.pc && Apply(s, e).pc[e.t] == Act(s, e).pc
    ensures forall u | u in s.pc && u != e.t ::
      Apply(s, e).pc[u] == if u in Roused(s, e) && s.pc[u].Sleeping? then Woken(s.pc[u].op) else s.pc[u]
  {
    hide Act, Roused;
  }

  lemma ActorMutex(s: State, e: Event)
    requires MutexOk(s) && Enabled(s, e)
    ensures var a := Act(s, e);
      && Shape(a.pc) && (InMutex(a.pc) <==> a.mutex == By(e.t))
      && (a.mutex == s.mutex || (a.mutex in {Free, By(e.t)} && s.mutex in {Free, By(e.t)}))
  {
    assert e.t in s.pc;
  }

  lemma KeepsMutex(s: State, e: Event)
    requires MutexOk(s) && Enabled(s, e)
    ensures MutexOk(Apply(s, e))
  {
    hide Act, Enabled, Roused;
    Others(s, e);
    ActorMutex(s, e);
    var r := Apply(s, e);
    forall t | t in r.pc
      ensures Shape(r.pc[t]) && (InMutex(r.pc[t]) <==> r.mutex == By(t))
    {
      assert t in s.pc;
    }
  }

  lemma Put(m: multiset<Thread>, t: Thread)
    ensures |m + multiset{t}| == |m| + 1
    ensures t in m ==> |m - multiset{t}| == |m| - 1
  {
  }

  lemma TestCounts(s: State, t: Thread, op: Op)
    requires CountsOk(s)
    requires (op == RUnlock ==> t in s.rholds) && (op == WUnlock ==> t in s.wholds)
    ensures var a := TestEffect(s, t, op); Counted(a.readersReading, a.writerWriting, a.rholds, a.wholds)
  {
    Put(s.rholds, t);
    Put(s.wholds, t);
    match op {
      case RLock =>
      case WLock =>
      case RUnlock =>
      case WUnlock =>
    }
  }

  lemma KeepsCounts(s: State, e: Event)
    requires CountsOk(s) && HoldsOk(s) && Enabled(s, e)
    ensures CountsOk(Apply(s, e))
  {
    hide TestEffect, Wake, Roused, Counted;
    if e.Test? {
      assert Giving(s.pc[e.t], s.pc[e.t].op);
      TestCounts(s, e.t, s.pc[e.t].op);
    }
  }

  lemma OtherHolds(s: State, e: Event, u: Thread)
    requires Enabled(s, e) && u != e.t
    ensures Act(s, e).rholds[u] == s.rholds[u] && Act(s, e).wholds[u] == s.wholds[u]
  {
    hide Sleepers;
  }

  lemma ComingHolds(s: State, e: Event)
    requires Enabled(s, e)
    ensures var a := Act(s, e); a.pc.Entering? || a.pc.Testing? ==> a.rholds == s.rholds && a.wholds == s.wholds
    ensures var a := Act(s, e); forall op | Giving(a.pc, op) ::
      Giving(s.pc[e.t], op) || e == Call(e.t, op) || s.pc[e.t] == Woken(op)
  {
    hide Sleepers;
  }

  /** A thread's holds change only when it is granted the lock or gives it back. */
  lemma ActorHolds(s: State, e: Event)
    requires Enabled(s, e)
    ensures var a := Act(s, e); forall u | u != e.t :: a.rholds[u] == s.rholds[u] && a.wholds[u] == s.wholds[u]
    ensures var a := Act(s, e); a.pc.Entering? || a.pc.Testing? ==> a.rholds == s.rholds && a.wholds == s.wholds
    ensures var a := Act(s, e); forall op | Giving(a.pc, op) ::
      Giving(s.pc[e.t], op) || e == Call(e.t, op) || s.pc[e.t] == Woken(op)
  {
    hide Act, Enabled, Giving;
    ComingHolds(s, e);
    forall u | u != e.t
      ensures Act(s, e).rholds[u] == s.rholds[u] && Act(s, e).wholds[u] == s.wholds[u]
    {
      OtherHolds(s, e, u);
    }
  }

  lemma KeepsHolds(s: State, e: Event)
    requires MutexOk(s) && HoldsOk(s) && Enabled(s, e) && Matched(s, e)
    ensures HoldsOk(Apply(s, e))
  {
    hide Act, Enabled, Roused;
    Others(s, e);
    ActorHolds(s, e);
    var r := Apply(s, e);
    forall t | t in r.pc
      ensures Giving(r.pc[t], RUnlock) ==> t in r.rholds
      ensures Giving(r.pc[t], WUnlock) ==> t in r.wholds
    {
      assert t in s.pc;
    }
  }

  lemma ActorReaders(s: State, e: Event)
    requires Enabled(s, e)
    ensures var a := Act(s, e); a.pc == Sleeping(RLock) ==> a.writerWriting != 0
    ensures var a := Act(s, e); s.writerWriting != 0 && a.writerWriting == 0 ==> a.pc == Notifying(WUnlock)
    ensures s.pc[e.t] == Notifying(WUnlock) ==> Roused(s, e) == Sleepers(s)
  {
  }

  lemma KeepsReaders(s: State, e: Event)
    requires ReadersOk(s) && Enabled(s, e)
    ensures ReadersOk(Apply(s, e))
  {
    hide Act, Enabled, Roused;
    var r := Apply(s, e);
    Others(s, e);
    ActorReaders(s, e);
    forall t | t in r.pc && r.pc[t] == Sleeping(RLock)
      ensures r.writerWriting != 0 || exists u :: u in r.pc && r.pc[u] == Notifying(WUnlock)
    {
      if t != e.t {
        assert s.pc[t] == Sleeping(RLock) && t in Sleepers(s);
        if s.writerWriting == 0 {
          var u :| u in s.pc && s.pc[u] == Notifying(WUnlock);
          assert u in r.pc;
        } else if r.writerWriting == 0 {
          assert r.pc[e.t] == Notifying(WUnlock);
        }
      }
    }
  }

  /** After an event that leaves the lock free its thread is pending, or was not. */
  lemma ActorWakeups(s: State, e: Event)
    requires MutexOk(s) && CountsOk(s) && Enabled(s, e) && e.t in s.pc
    requires Act(s, e).readersReading == 0 && Act(s, e).writerWriting == 0
    ensures Pending(Act(s, e).pc)
      || (s.readersReading == 0 && s.writerWriting == 0 && !Act(s, e).pc.Sleeping?
          && (Pending(s.pc[e.t]) ==> Sleepers(s) == {} || exists w :: w in Roused(s, e) && w in Sleepers(s)))
  {
    if e.Signal? && e.woken != {} {
      var w :| w in e.woken;
      assert w in Roused(s, e) && w in Sleepers(s);
    }
    if e.Broadcast? && Sleepers(s) != {} {
      var w :| w in Sleepers(s);
      assert w in Roused(s, e);
    }
  }

  lemma KeepsWakeups(s: State, e: Event)
    requires MutexOk(s) && CountsOk(s) && WakeupsOk(s) && Enabled(s, e)
    ensures WakeupsOk(Apply(s, e))
  {
    hide Act, Enabled, Roused, MutexOk, CountsOk;
    var r := Apply(s, e);
    Others(s, e);
    if r.readersReading == 0 && r.writerWriting == 0 && Sleepers(r) != {} {
      ActorWakeups(s, e);
      if Pending(r.pc[e.t]) {
      } else {
        var t :| t in Sleepers(r);
        assert t in Sleepers(s) && t != e.t;
        var u :| u in s.pc && Pending(s.pc[u]);
        if u == e.t {
          var w :| w in Roused(s, e) && w in Sleepers(s);
          assert w == e.t || r.pc[w].Woken?;
        } else {
          assert r.pc[u] == s.pc[u];
        }
      }
    }
  }

  /** Every event keeps the invariant, as long as threads give back only what they hold. */
  lemma KeepsInv(s: State, e: Event)
    requires Inv(s) && Enabled(s, e) && Matched(s, e)
    ensures Inv(Apply(s, e)) && Apply(s, e).pc.Keys == s.pc.Keys
  {
    hide Apply, Act, Enabled, MutexOk, CountsOk, HoldsOk, ReadersOk, WakeupsOk;
    KeepsMutex(s, e);
    KeepsCounts(s, e);
    KeepsHolds(s, e);
    KeepsReaders(s, e);
    KeepsWakeups(s, e);
    Others(s, e);
  }

  lemma StartOk(threads: set<Thread>)
    ensures Inv(Start(threads))
  {
  }

  /** The invariant holds after every run. */
  lemma {:induction false} RunOk(threads: set<Thread>, es: seq<Event>)
    requires Legal(Start(threads), es)
    ensures Inv(After(Start(threads), es)) && After(Start(threads), es).pc.Keys == threads
    decreases |es|
  {
    if es == [] {
      StartOk(threads);
    } else {
      var s, e := After(Start(threads), es[..|es| - 1]), es[|es| - 1];
      RunOk(threads, es[..|es| - 1]);
      hide Apply, Act, Enabled, Inv;
      KeepsInv(s, e);
    }
  }

  /** Readers exclude writers, and writers each other, in every run of matched calls. */
  lemma Exclusion(threads: set<Thread>, es: seq<Event>)
    requires Legal(Start(threads), es)
    ensures var s := After(Start(threads), es);
      && s.readersReading == |s.rholds| && s.writerWriting == |s.wholds| <= 1
      && (forall t, u | t in s.wholds :: u !in s.rholds && (u in s.wholds ==> u == t))
  {
    RunOk(threads, es);
    var s := After(Start(threads), es);
    Two(s.wholds);
    Two(s.rholds);
  }

  lemma Two(m: multiset<Thread>)
    ensures forall t, u | t in m && u in m && t != u :: |m| >= 2
    ensures forall t | t in m :: |m| >= 1
  {
    forall t, u | t in m && u in m && t != u
      ensures |m| >= 2
    {
      assert |m - multiset{t} - multiset{u}| == |m| - 2;
    }
    forall t | t in m
      ensures |m| >= 1
    {
      Put(m, t);
    }
  }

  /** An unlock that finds its counter at 0. */
  predicate Unfounded(s: State, op: Op) {
    (op == RUnlock && s.readersReading == 0) || (op == WUnlock && s.writerWriting == 0)
  }

  /** A lock function is left with -1 exactly by an unlock that finds its counter at 0, and else with 0; a thread stays with the function it called. */
  lemma AnswerIs(s: State, e: Event)
    requires Enabled(s, e) && !e.Call? && !e.Release?
    ensures var pc := Act(s, e).pc;
      && !pc.Idle? && pc.op == s.pc[e.t].op
      && (pc.Leaving? ==> pc.ret == if e.Test? && Unfounded(s, pc.op) then -1 else 0)
      && (s.pc[e.t].Notifying? ==> pc == Leaving(pc.op, 0))
  {
  }

  ghost predicate AnswersOk(s: State) {
    forall t | t in s.pc && s.pc[t].Leaving? :: s.pc[t].ret == 0
  }

  lemma KeepsAnswers(s: State, e: Event)
    requires Inv(s) && AnswersOk(s) && Enabled(s, e)
    ensures AnswersOk(Apply(s, e))
  {
    hide Act, Roused, Wake, MutexOk, ReadersOk, WakeupsOk;
    Others(s, e);
    if Act(s, e).pc.Leaving? {
      LeavingIs(s, e);
      AnswerIs(s, e);
      if e.Test? {
        assert Giving(s.pc[e.t], s.pc[e.t].op);
        Two(s.rholds);
        Two(s.wholds);
      }
    }
  }

  lemma LeavingIs(s: State, e: Event)
    requires Enabled(s, e) && Act(s, e).pc.Leaving?
    ensures !e.Call? && !e.Release?
  {
  }

  /** As long as threads give back only what they hold, every call of a lock function returns 0. */
  lemma {:induction false} AnswersZero(threads: set<Thread>, es: seq<Event>)
    requires Legal(Start(threads), es)
    ensures AnswersOk(After(Start(threads), es))
    decreases |es|
  {
    if es != [] {
      AnswersZero(threads, es[..|es| - 1]);
      RunOk(threads, es[..|es| - 1]);
      KeepsAnswers(After(Start(threads), es[..|es| - 1]), es[|es| - 1]);
    } else {
      StartAnswers(threads);
    }
  }

  lemma StartAnswers(threads: set<Thread>)
    ensures AnswersOk(Start(threads))
  {
  }

  /** Giving back a read lock keeps the books exactly when the thread holds one, or nobody is counted. */
  lemma RUnlockBooks(s: State, t: Thread)
    requires CountsOk(s) && t in s.pc && s.pc[t] == Testing(RUnlock)
    ensures CountsOk(Apply(s, Test(t))) <==> t in s.rholds || s.readersReading == 0
  {
    Put(s.rholds, t);
    if t !in s.rholds {
      assert s.rholds - multiset{t} == s.rholds;
    }
  }

  lemma WUnlockBooks(s: State, t: Thread)
    requires CountsOk(s) && t in s.pc && s.pc[t] == Testing(WUnlock)
    ensures CountsOk(Apply(s, Test(t))) <==> t in s.wholds || s.writerWriting == 0
  {
    Put(s.wholds, t);
    if t !in s.wholds {
      assert s.wholds - multiset{t} == s.wholds;
    }
  }

  lemma Extend(s: State, es: seq<Event>, e: Event)
    requires Feasible(s, es) && Enabled(After(s, es), e)
    ensures Feasible(s, es + [e]) && After(s, es + [e]) == Apply(After(s, es), e)
  {
    assert (es + [e])[..|es|] == es;
  }

  /** Without matched calls a reader and a writer can hold the lock together. */
  lemma UnmatchedBreaksExclusion()
    ensures exists es ::
      && Feasible(Start({0, 1, 2}), es)
      && 0 in After(Start({0, 1, 2}), es).rholds && 2 in After(Start({0, 1, 2}), es).wholds
  {
    var s := Start({0, 1, 2});
    var es := Visit(s, [], 0, RLock);
    es := Visit(s, es, 1, RUnlock);
    es := Visit(s, es, 2, WLock);
    assert 0 in After(s, es).rholds && 2 in After(s, es).wholds;
  }

  /** What one undisturbed visit to the lock functions does, if nobody waits. */
  function Visited(s: State, t: Thread, op: Op): State {
    var a := TestEffect(s, t, op);
    State(a.readersReading, a.writerWriting, Free, s.pc, a.rholds, a.wholds)
  }

  /** Where nobody sleeps an event changes its own thread's program counter and no other. */
  lemma Alone(s: State, e: Event)
    requires Enabled(s, e) && Sleepers(s) == {}
    ensures var a := Act(s, e);
      Apply(s, e) == State(a.readersReading, a.writerWriting, a.mutex, s.pc[e.t := a.pc], a.rholds, a.wholds)
    ensures !Act(s, e).pc.Sleeping? ==> Sleepers(Apply(s, e)) == {}
  {
    hide Act, Enabled;
    assert forall t | t in s.pc :: t !in Sleepers(s);
    assert Wake(s.pc, Roused(s, e)) == s.pc;
  }

  lemma Extended(s: State, es: seq<Event>, e: Event) returns (fs: seq<Event>)
    requires Feasible(s, es) && Enabled(After(s, es), e) && Sleepers(After(s, es)) == {}
    ensures Feasible(s, fs)
    ensures var r, a := After(s, es), Act(After(s, es), e);
      After(s, fs) == State(a.readersReading, a.writerWriting, a.mutex, r.pc[e.t := a.pc], a.rholds, a.wholds)
    ensures !Act(After(s, es), e).pc.Sleeping? ==> Sleepers(After(s, fs)) == {}
  {
    hide Act, Enabled, Apply;
    Alone(After(s, es), e);
    Extend(s, es, e);
    fs := es + [e];
  }

  lemma VisitTest(s: State, es: seq<Event>, t: Thread, op: Op) returns (fs: seq<Event>)
    requires Feasible(s, es)
    requires var r := After(s, es);
      r.mutex == Free && t in r.pc && r.pc[t] == Idle && Sleepers(r) == {} && !TestEffect(r, t, op).pc.Sleeping?
    ensures Feasible(s, fs) && Sleepers(After(s, fs)) == {}
    ensures var r := After(s, es); var a := TestEffect(r, t, op);
      After(s, fs) == State(a.readersReading, a.writerWriting, By(t), r.pc[t := a.pc], a.rholds, a.wholds)
  {
    hide Feasible, After, Apply, Sleepers, Wake, Roused, TestEffect;
    var r := After(s, es);
    fs := Extended(s, es, Call(t, op));
    assert After(s, fs) == r.(pc := r.pc[t := Entering(op)]);
    fs := Extended(s, fs, Acquire(t));
    Again(r.pc, t, Entering(op), Testing(op));
    assert After(s, fs) == r.(pc := r.pc[t := Testing(op)], mutex := By(t));
    TestInMutex(r, r.pc[t := Testing(op)], t, op);
    fs := Extended(s, fs, Test(t));
    Again(r.pc, t, Testing(op), After(s, fs).pc[t]);
  }

  lemma TestInMutex(r: State, pc: map<Thread, Pc>, t: Thread, op: Op)
    requires r.mutex == Free && !TestEffect(r, t, op).pc.Sleeping?
    ensures TestEffect(r.(pc := pc, mutex := By(t)), t, op) == TestEffect(r, t, op).(mutex := By(t))
  {
  }

  lemma Again(pc: map<Thread, Pc>, t: Thread, a: Pc, b: Pc)
    ensures pc[t := a][t := b] == pc[t := b]
  {
  }

  lemma Visit(s: State, es: seq<Event>, t: Thread, op: Op) returns (fs: seq<Event>)
    requires Feasible(s, es)
    requires var r := After(s, es);
      r.mutex == Free && t in r.pc && (forall u | u in r.pc :: r.pc[u] == Idle) && !TestEffect(r, t, op).pc.Sleeping?
    ensures Feasible(s, fs) && After(s, fs) == Visited(After(s, es), t, op)
  {
    hide Feasible, After, Apply;
    var r := After(s, es);
    fs := VisitTest(s, es, t, op);
    if After(s, fs).pc[t].Notifying? {
      fs := Extended(s, fs, if op == RUnlock then Signal(t, {}) else Broadcast(t));
    }
    fs := Extended(s, fs, Release(t));
    assert After(s, fs).pc == r.pc;
  }

  /** Any threads can read together: there is a run that ends with exactly these holding the lock. */
  lemma {:induction false} ReadersShare(threads: set<Thread>, readers: set<Thread>) returns (es: seq<Event>)
    requires readers <= threads
    ensures Feasible(Start(threads), es)
    ensures var s := After(Start(threads), es);
      && s.rholds == multiset(readers) && s.readersReading == |readers| && s.wholds == multiset{} && s.writerWriting == 0
      && s.mutex == Free && s.pc == Start(threads).pc
    decreases readers
  {
    if readers == {} {
      es := [];
    } else {
      var t :| t in readers;
      es := ReadersShare(threads, readers - {t});
      es := Visit(Start(threads), es, t, RLock);
      assert multiset(readers - {t}) + multiset{t} == multiset(readers);
    }
  }

  lemma NoneRoused(s: State, e: Event)
    requires Enabled(s, e) && (e.Acquire? || e.Test? || e.Spurious?)
    ensures var a := Act(s, e);
      Apply(s, e) == State(a.readersReading, a.writerWriting, a.mutex, s.pc[e.t := a.pc], a.rholds, a.wholds)
  {
    assert Wake(s.pc, {}) == s.pc;
  }

  /** A sleeper may wake for no reason; if it still has to wait, it tests, sleeps again, and nothing has changed. */
  lemma SpuriousHarmless(s: State, t: Thread)
    requires t in s.pc && s.pc[t].Sleeping? && s.mutex == Free && TestEffect(s, t, s.pc[t].op).pc == s.pc[t]
    ensures Enabled(s, Spurious(t))
    ensures var a := Apply(s, Spurious(t)); Enabled(a, Acquire(t))
    ensures var b := Apply(Apply(s, Spurious(t)), Acquire(t)); Enabled(b, Test(t)) && Apply(b, Test(t)) == s
  {
    var op := s.pc[t].op;
    NoneRoused(s, Spurious(t));
    var a := Apply(s, Spurious(t));
    NoneRoused(a, Acquire(t));
    var b := Apply(a, Acquire(t));
    NoneRoused(b, Test(t));
    Again(s.pc, t, Woken(op), Testing(op));
    Again(s.pc, t, Testing(op), s.pc[t]);
    assert s.pc[t := s.pc[t]] == s.pc;
  }

  /** A thread that has just come may get the lock before one that has been woken for it. */
  lemma Overtaken(s: State, t: Thread, w: Thread, op: Op)
    requires t in s.pc && w in s.pc && s.pc[t] == Entering(op) && s.pc[w].Woken? && s.mutex == Free
    requires s.writerWriting == 0 && (op == RLock || (op == WLock && s.readersReading == 0))
    ensures Enabled(s, Acquire(t)) && Enabled(Apply(s, Acquire(t)), Test(t))
    ensures var b := Apply(Apply(s, Acquire(t)), Test(t));
      b.pc[w] == s.pc[w] && b.pc[t] == Leaving(op, 0) && if op == RLock then t in b.rholds else t in b.wholds
  {
    NoneRoused(s, Acquire(t));
    NoneRoused(Apply(s, Acquire(t)), Test(t));
  }

  /** Nobody is on the way into or through the lock functions: all are outside or asleep. */
  predicate Quiet(s: State) {
    forall t | t in s.pc :: s.pc[t].Idle? || s.pc[t].Sleeping?
  }

  lemma QuietSleeper(s: State, t: Thread)
    requires CountsOk(s) && ReadersOk(s) && WakeupsOk(s) && Quiet(s) && t in s.pc && s.pc[t].Sleeping?
    ensures s.pc[t].op == RLock ==> s.wholds != multiset{}
    ensures s.pc[t].op == WLock ==> s.wholds != multiset{} || s.rholds != multiset{}
  {
    assert t in Sleepers(s);
  }

  /** No wake-up is lost: once all is quiet, readers sleep only behind a writer, and nobody sleeps at a free lock. */
  lemma NoLostWakeup(threads: set<Thread>, es: seq<Event>, t: Thread)
    requires Legal(Start(threads), es)
    requires var s := After(Start(threads), es); Quiet(s) && t in s.pc && s.pc[t].Sleeping?
    ensures var s := After(Start(threads), es);
      && (s.pc[t].op == RLock ==> s.wholds != multiset{})
      && (s.pc[t].op == WLock ==> s.wholds != multiset{} || s.rholds != multiset{})
  {
    hide CountsOk, ReadersOk, WakeupsOk, Quiet;
    RunOk(threads, es);
    QuietSleeper(After(Start(threads), es), t);
  }

  /** Everything but a new call and a wake-up for no reason. */
  predicate Internal(e: Event) {
    !e.Call? && !e.Spurious?
  }

  /** The lock functions never get stuck by themselves: unless all is quiet, some event of theirs can happen. */
  lemma NeverStuck(threads: set<Thread>, es: seq<Event>)
    requires Legal(Start(threads), es)
    ensures var s := After(Start(threads), es);
      Quiet(s) <==> !exists e :: Internal(e) && Enabled(s, e)
  {
    hide Enabled, CountsOk, HoldsOk, ReadersOk, WakeupsOk, MutexOk, Quiet;
    RunOk(threads, es);
    var s := After(Start(threads), es);
    if !Quiet(s) {
      Someone(s);
    } else {
      forall e | Internal(e)
        ensures !Enabled(s, e)
      {
        QuietNoEvent(s, e);
      }
    }
  }

  lemma QuietNoEvent(s: State, e: Event)
    requires Quiet(s) && Internal(e)
    ensures !Enabled(s, e)
  {
    assert e.t in s.pc ==> s.pc[e.t].Idle? || s.pc[e.t].Sleeping?;
  }

  lemma Someone(s: State)
    requires MutexOk(s) && !Quiet(s)
    ensures exists e :: Internal(e) && Enabled(s, e)
  {
    var t :| t in s.pc && !s.pc[t].Idle? && !s.pc[t].Sleeping?;
    var u := if s.mutex.By? then s.mutex.t else t;
    assert u in s.pc && (s.mutex.By? ==> InMutex(s.pc[u]));
    var pc := s.pc[u];
    var e :=
      if pc.Entering? || pc.Woken? then Acquire(u)
      else if pc.Testing? then Test(u)
      else if pc == Notifying(RUnlock) then Signal(u, Sleepers(s))
      else if pc == Notifying(WUnlock) then Broadcast(u)
      else Release(u);
    assert Internal(e) && Enabled(s, e);
  }
}
