/**
 The four lock functions as code, in terms of who holds the lock, and any number
 of threads that run them: each waits for the mutex, goes through its critical
 section, sleeps and tests again, notifies, and gives the mutex back.
 */
module LockCode {
  import opened RdwrLock

  class PthreadRdwr {
    var readersReading: int
    var writerWriting: int
    ghost var rholds: multiset<Thread>
    ghost var wholds: multiset<Thread>

    /** The counters are the numbers of holds, and readers and writers exclude each other. */
    ghost predicate Booked()
      reads this
    {
      Counted(readersReading, writerWriting, rholds, wholds)
    }

    /** pthread_rdwr_init_np. */
    constructor ()
      ensures Booked() && rholds == wholds == multiset{}
    {
      readersReading, writerWriting := 0, 0;
      rholds, wholds := multiset{}, multiset{};
    }

    /** pthread_rdwr_rlock_np with the mutex: a read hold is granted exactly if nobody writes; if not, the thread waits. */
    method RLockTurn(t: Thread) returns (granted: bool)
      requires Booked()
      modifies this
      ensures Booked() && wholds == old(wholds)
      ensures granted <==> old(wholds) == multiset{}
      ensures rholds == if granted then old(rholds) + multiset{t} else old(rholds)
    {
      Put(rholds, t);
      if writerWriting != 0 {
        return false;
      }
      readersReading := readersReading + 1;
      rholds := rholds + multiset{t};
      granted := true;
    }

    /** pthread_rdwr_wlock_np with the mutex: a write hold is granted exactly if nobody holds the lock. */
    method WLockTurn(t: Thread) returns (granted: bool)
      requires Booked()
      modifies this
      ensures Booked() && rholds == old(rholds)
      ensures granted <==> old(rholds) == old(wholds) == multiset{}
      ensures wholds == if granted then old(wholds) + multiset{t} else old(wholds)
    {
      Put(wholds, t);
      if writerWriting != 0 || readersReading != 0 {
        return false;
      }
      writerWriting := writerWriting + 1;
      wholds := wholds + multiset{t};
      granted := true;
    }

    /**
     pthread_rdwr_runlock_np with the mutex. A holder gives back one hold and
     signals exactly if the lock is free after it; where nobody reads, the call
     is refused; a thread without a hold beside readers breaks the books.
     */
    method RUnlockTurn(t: Thread) returns (ret: int, notify: bool)
      requires Booked()
      modifies this
      ensures wholds == old(wholds) && rholds == old(rholds) - multiset{t}
      ensures Booked() <==> t in old(rholds) || old(rholds) == multiset{}
      ensures ret == if old(rholds) == multiset{} then -1 else 0
      ensures t in old(rholds) ==> (notify <==> rholds == wholds == multiset{})
      ensures old(rholds) == multiset{} ==> !notify
    {
      Put(rholds, t);
      NotIn(rholds, t);
      rholds := rholds - multiset{t};
      if readersReading == 0 {
        return -1, false;
      }
      readersReading := readersReading - 1;
      ret, notify := 0, readersReading == 0;
    }

    /** pthread_rdwr_wunlock_np with the mutex: whoever calls it, a write hold ends; it broadcasts exactly if there was one. */
    method WUnlockTurn(t: Thread) returns (ret: int, notify: bool)
      requires Booked()
      modifies this
      ensures rholds == old(rholds) && wholds == old(wholds) - multiset{t}
      ensures Booked() <==> t in old(wholds) || old(wholds) == multiset{}
      ensures notify <==> old(wholds) != multiset{}
      ensures ret == if notify then 0 else -1
      ensures t in old(wholds) ==> rholds == wholds == multiset{}
    {
      Put(wholds, t);
      NotIn(wholds, t);
      wholds := wholds - multiset{t};
      if writerWriting == 0 {
        return -1, false;
      }
      writerWriting := 0;
      ret, notify := 0, true;
    }
  }

  lemma NotIn(m: multiset<Thread>, t: Thread)
    ensures t !in m ==> m - multiset{t} == m
    ensures |m| == 0 <==> m == multiset{}
  {
  }

  /** The threads, the mutex, and the lock they share. */
  class Threads {
    const lock: PthreadRdwr
    var mutex: Owner
    var pc: map<Thread, Pc>

    ghost predicate Mirrors(s: State)
      reads this, lock
    {
      && lock.readersReading == s.readersReading && lock.writerWriting == s.writerWriting
      && lock.rholds == s.rholds && lock.wholds == s.wholds
      && mutex == s.mutex && pc == s.pc
    }

    constructor (threads: set<Thread>)
      ensures Mirrors(RdwrLock.Start(threads)) && fresh(lock)
    {
      lock := new PthreadRdwr();
      mutex := Free;
      pc := map t | t in threads :: Idle;
    }

    /** The state after a critical section that wakes nobody. */
    ghost function Shifted(s: State, t: Thread, a: Effect): State {
      State(a.readersReading, a.writerWriting, a.mutex, s.pc[t := a.pc], a.rholds, a.wholds)
    }

    method ReadLock(t: Thread, ghost s: State)
      requires Mirrors(s) && CountsOk(s) && t in pc
      modifies this, lock
      ensures Mirrors(Shifted(s, t, TestEffect(s, t, RLock)))
    {
      Put(s.rholds, t);
      NotIn(s.wholds, t);
      var granted := lock.RLockTurn(t);
      if granted {
        pc := pc[t := Leaving(RLock, 0)];
      } else {
        CondWait(t, RLock);
      }
    }

    method WriteLock(t: Thread, ghost s: State)
      requires Mirrors(s) && CountsOk(s) && t in pc
      modifies this, lock
      ensures Mirrors(Shifted(s, t, TestEffect(s, t, WLock)))
    {
      Put(s.wholds, t);
      NotIn(s.rholds, t);
      NotIn(s.wholds, t);
      var granted := lock.WLockTurn(t);
      if granted {
        pc := pc[t := Leaving(WLock, 0)];
      } else {
        CondWait(t, WLock);
      }
    }

    method ReadUnlock(t: Thread, ghost s: State)
      requires Mirrors(s) && CountsOk(s) && t in pc && t in s.rholds
      modifies this, lock
      ensures Mirrors(Shifted(s, t, TestEffect(s, t, RUnlock)))
    {
      Put(s.rholds, t);
      NotIn(s.rholds - multiset{t}, t);
      NotIn(s.wholds, t);
      var ret, notify := lock.RUnlockTurn(t);
      pc := pc[t := if notify then Notifying(RUnlock) else Leaving(RUnlock, ret)];
    }

    method WriteUnlock(t: Thread, ghost s: State)
      requires Mirrors(s) && CountsOk(s) && t in pc && t in s.wholds
      modifies this, lock
      ensures Mirrors(Shifted(s, t, TestEffect(s, t, WUnlock)))
    {
      Put(s.wholds, t);
      NotIn(s.wholds - multiset{t}, t);
      var ret, notify := lock.WUnlockTurn(t);
      pc := pc[t := if notify then Notifying(WUnlock) else Leaving(WUnlock, ret)];
    }

    /** The critical section of the function that thread `t` runs. */
    method Section(t: Thread, op: Op, ghost s: State)
      requires Mirrors(s) && CountsOk(s) && t in pc
      requires (op == RUnlock ==> t in s.rholds) && (op == WUnlock ==> t in s.wholds)
      modifies this, lock
      ensures Mirrors(Shifted(s, t, TestEffect(s, t, op)))
    {
      hide TestEffect, CountsOk;
      match op {
        case RLock => ReadLock(t, s);
        case WLock => WriteLock(t, s);
        case RUnlock => ReadUnlock(t, s);
        case WUnlock => WriteUnlock(t, s);
      }
    }

    /** pthread_cond_wait: to sleep, and give the mutex up. */
    method CondWait(t: Thread, op: Op)
      modifies this`mutex, this`pc
      ensures mutex == Free && pc == old(pc)[t := Sleeping(op)]
    {
      mutex, pc := Free, pc[t := Sleeping(op)];
    }

    /** What one event does. */
    method Perform(e: Event, ghost s: State)
      requires Mirrors(s) && Inv(s) && Enabled(s, e)
      modifies this, lock
      ensures Mirrors(Apply(s, e))
    {
      hide Wake, Roused, TestEffect;
      TestNeeds(s, e);
      if e.Test? {
        WakeNone(s.pc);
        Section(e.t, pc[e.t].op, s);
        assert Roused(s, e) == {} by { TestRouses(s, e); }
      } else {
        Primitive(e, s);
      }
    }

    lemma TestNeeds(s: State, e: Event)
      requires Inv(s) && Enabled(s, e)
      ensures CountsOk(s) && e.t in s.pc
      ensures e.Test? ==> (s.pc[e.t].op == RUnlock ==> e.t in s.rholds) && (s.pc[e.t].op == WUnlock ==> e.t in s.wholds)
    {
      if e.Test? { assert Giving(s.pc[e.t], s.pc[e.t].op); }
    }

    lemma TestRouses(s: State, e: Event)
      requires e.Test?
      ensures Roused(s, e) == {}
    {
    }

    lemma WakeNone(pc: map<Thread, Pc>)
      ensures Wake(pc, {}) == pc
    {
    }

    /** Everything outside the critical sections: the calls, the mutex and the condition variable. */
    method Primitive(e: Event, ghost s: State)
      requires Mirrors(s) && Enabled(s, e) && !e.Test?
      modifies this`mutex, this`pc
      ensures Mirrors(Apply(s, e))
    {
      hide TestEffect, Wake;
      WakeNone(s.pc);
      match e {
        case Call(t, op) => pc := pc[t := Entering(op)];
        case Acquire(t) => mutex, pc := By(t), pc[t := Testing(pc[t].op)];
        case Signal(t, woken) => pc := Wake(pc, woken)[t := Leaving(RUnlock, 0)];
        case Broadcast(t) => pc := Wake(pc, Asleep())[t := Leaving(WUnlock, 0)];
        case Spurious(t) => pc := pc[t := Woken(pc[t].op)];
        case Release(t) => mutex, pc := Free, pc[t := Idle];
      }
    }

    function Asleep(): set<Thread>
      reads this`pc
    {
      set t | t in pc && pc[t].Sleeping?
    }
  }

  /** Any legal schedule of any threads, run on a lock of its own, keeps readers and writers apart, and the counters right. */
  method RunThreads(threads: set<Thread>, es: seq<Event>) returns (readers: int, writers: int, pc: map<Thread, Pc>)
    requires Legal(Start(threads), es)
    ensures var s := After(Start(threads), es);
      && readers == s.readersReading == |s.rholds| && writers == s.writerWriting == |s.wholds| <= 1
      && (readers == 0 || writers == 0) && pc == s.pc
  {
    var m := new Threads(threads);
    for i := 0 to |es|
      invariant fresh(m) && fresh(m.lock)
      invariant Legal(Start(threads), es[..i]) && m.Mirrors(After(Start(threads), es[..i]))
    {
      LegalPrefix(Start(threads), es, i);
      RunOk(threads, es[..i]);
      m.Perform(es[i], After(Start(threads), es[..i]));
    }
    assert es[..|es|] == es;
    RunOk(threads, es);
    readers, writers, pc := m.lock.readersReading, m.lock.writerWriting, m.pc;
  }

  lemma {:induction false} LegalPrefix(s: State, es: seq<Event>, n: nat)
    requires Legal(s, es) && n < |es|
    ensures Legal(s, es[..n]) && Legal(s, es[..n + 1])
    ensures Enabled(After(s, es[..n]), es[n]) && After(s, es[..n + 1]) == Apply(After(s, es[..n]), es[n])
    decreases |es|
  {
    hide Apply, Enabled, Matched;
    assert es[..n + 1][..n] == es[..n];
    if n == |es| - 1 {
      assert es[..n + 1] == es;
    } else {
      var pre := es[..|es| - 1];
      LegalPrefix(s, pre, n);
      assert pre[..n] == es[..n] && pre[..n + 1] == es[..n + 1];
    }
  }
}
