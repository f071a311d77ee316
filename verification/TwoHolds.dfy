/**
 Concurrent use of the list registry. Its operations look their application up
 under a read hold, give that back, and act on the pointer under a write hold;
 in between every other thread may run. A pointer is the identity of a node.
 */
module TwoHolds {
  import L = RdwrLock
  import opened Sequences
  import opened Trailing
  import opened Registry
  import S = Simulation

  type Thread = L.Thread

  datatype Cell = Cell(id: nat, app: App)

  /** The list, and the identity that the next node will have. */
  datatype Cells = Cells(list: seq<Cell>, next: nat)

  function Apps(c: Cells): Registry.Apps {
    seq(|c.list|, i requires 0 <= i < |c.list| => c.list[i].app)
  }

  ghost predicate IdsOk(c: Cells) {
    && (forall i | 0 <= i < |c.list| :: c.list[i].id < c.next)
    && (forall i, j | 0 <= i < j < |c.list| :: c.list[i].id != c.list[j].id)
  }

  /** The position of a node, or the length if it has been freed. */
  function Place(s: seq<Cell>, id: nat): (i: nat)
    ensures i <= |s| && (forall j | 0 <= j < i :: s[j].id != id) && (i < |s| ==> s[i].id == id)
  {
    if s == [] || s[0].id == id then 0 else 1 + Place(s[1..], id)
  }

  /** search_app. */
  function Pointer(c: Cells, app: string): Option<nat> {
    var i := Lookup(Apps(c), app);
    if i < |c.list| then Some(c.list[i].id) else None
  }

  function WithNps(c: Cells, i: nat, nps: seq<string>): Cells
    requires i < |c.list|
  {
    c.(list := c.list[i := Cell(c.list[i].id, App(c.list[i].app.name, nps))])
  }

  /** What add_app_ref and del_app_ref do with the pointer; there is no outcome if the node has been freed. */
  function ActOn(c: Cells, op: Op, at: Option<nat>): Option<(Cells, int)> {
    match at
    case None =>
      (match op
       case Register(app, np) => Some((Cells(c.list + [Cell(c.next, App(app, [np]))], c.next + 1), 0))
       case Query(_, _) => Some((c, 0))
       case _ => Some((c, -1)))
    case Some(id) =>
      var i := Place(c.list, id);
      if i == |c.list| then None
      else
        var nps := c.list[i].app.nps;
        match op
        case Register(_, np) => if np in nps then Some((c, -1)) else Some((WithNps(c, i, nps + [np]), 0))
        case Unregister(_, np) =>
          var k := if |nps| == 1 then 0 else Find(nps, np);
          if k < |nps| then Some((WithNps(c, i, Drop(nps, k)), 0)) else Some((c, -1))
        case Remove(_) => Some((c.(list := Drop(c.list, i)), 0))
        case Query(_, np) => Some((c, if np in nps then 1 else 0))
  }

  function OutcomeOf(r: Option<(Cells, int)>): Outcome {
    match r
    case None => Fault
    case Some(out) => Ok(Apps(out.0), out.1)
  }

  lemma PlaceIs(c: Cells, i: nat)
    requires IdsOk(c) && i < |c.list|
    ensures Place(c.list, c.list[i].id) == i
  {
  }

  lemma AppsWith(c: Cells, i: nat, nps: seq<string>)
    requires i < |c.list|
    ensures Apps(WithNps(c, i, nps)) == Apps(c)[i := App(c.list[i].app.name, nps)]
  {
  }

  lemma AppsDrop(c: Cells, i: nat)
    requires i < |c.list|
    ensures Apps(c.(list := Drop(c.list, i))) == Drop(Apps(c), i)
  {
  }

  lemma AppsAppend(c: Cells, a: App)
    ensures Apps(Cells(c.list + [Cell(c.next, a)], c.next + 1)) == Apps(c) + [a]
  {
  }

  /** On a fresh pointer the operations are those of the specification. */
  lemma ActOnFresh(c: Cells, op: Op)
    requires IdsOk(c)
    ensures OutcomeOf(ActOn(c, op, Pointer(c, op.app))) == ListStep(Apps(c), op)
  {
    hide Apps, WithNps, IdsOk;
    var i := Lookup(Apps(c), op.app);
    SameLength(c);
    if i < |c.list| {
      PlaceIs(c, i);
      var nps := c.list[i].app.nps;
      match op {
        case Register(_, np) => AppsWith(c, i, nps + [np]);
        case Unregister(_, np) =>
          var k := if |nps| == 1 then 0 else Find(nps, np);
          if k < |nps| { AppsWith(c, i, Drop(nps, k)); }
        case Remove(_) => AppsDrop(c, i);
        case Query(_, _) =>
      }
    } else if op.Register? {
      AppsAppend(c, App(op.app, [op.np]));
    }
  }

  lemma SameLength(c: Cells)
    ensures |Apps(c)| == |c.list| && forall i | 0 <= i < |c.list| :: Apps(c)[i] == c.list[i].app
  {
  }

  ghost predicate Alive(c: Cells, at: Option<nat>) {
    at.Some? && Place(c.list, at.value) < |c.list|
  }

  function NpsAt(c: Cells, at: Option<nat>): seq<string>
    requires Alive(c, at)
  {
    c.list[Place(c.list, at.value)].app.nps
  }

  lemma OtherEntry(r: Registry.Apps, i: nat, j: nat, np: string)
    requires i < |r| && j < |r| && i != j
    ensures r[i := App(r[i].name, r[i].nps + [np])] != r[j := App(r[j].name, r[j].nps + [np])]
  {
    assert |r[i].nps + [np]| != |r[i].nps|;
    assert r[i := App(r[i].name, r[i].nps + [np])][i] != r[j := App(r[j].name, r[j].nps + [np])][i];
  }

  lemma Longer(r: Registry.Apps, i: nat, np: string)
    requires i < |r|
    ensures r[i := App(r[i].name, r[i].nps + [np])] != r
  {
    assert |r[i].nps + [np]| != |r[i].nps|;
    assert r[i := App(r[i].name, r[i].nps + [np])][i] != r[i];
  }

  /**
   The late insertion does what it should exactly if its pointer is still what a
   look-up would return, or that and a live node found instead both hold the provider.
   */
  lemma ListSafe(c: Cells, app: string, np: string, at: Option<nat>)
    requires IdsOk(c)
    ensures OutcomeOf(ActOn(c, Register(app, np), at)) == ListStep(Apps(c), Register(app, np)) <==>
      || at == Pointer(c, app)
      || (Alive(c, at) && Alive(c, Pointer(c, app)) && np in NpsAt(c, at) && np in NpsAt(c, Pointer(c, app)))
  {
    hide Apps, WithNps, IdsOk;
    ActOnFresh(c, Register(app, np));
    SameLength(c);
    var r, p := Apps(c), Pointer(c, app);
    var j := Lookup(r, app);
    AppsAppend(c, App(app, [np]));
    if j < |r| {
      PlaceIs(c, j);
      AppsWith(c, j, r[j].nps + [np]);
      Longer(r, j, np);
    }
    if Alive(c, at) {
      var i := Place(c.list, at.value);
      AppsWith(c, i, r[i].nps + [np]);
      Longer(r, i, np);
      if j < |r| && i != j { OtherEntry(r, i, j, np); }
    }
  }

  // Threads

  datatype Phase =
    | Outside
    | Searching(op: Op)                       // asks for the read lock
    | Looked(op: Op, at: Option<nat>)         // has its pointer
    | Leaving(op: Op, at: Option<nat>)        // gives the read lock back
    | Returning(op: Op, at: Option<nat>)      // asks for the write lock
    | Finished(op: Op, ret: int)              // has acted

  datatype Record = Record(t: Thread, op: Op, ret: int)

  datatype System = System(lock: L.State, cells: Cells, phase: map<Thread, Phase>, log: seq<Record>)

  datatype Event =
    | Search(t: Thread, op: Op)
    | Inner(e: L.Event)
    | Look(t: Thread)
    | Leave(t: Thread)
    | Return(t: Thread)
    | Act(t: Thread)
    | End(t: Thread)

  const EMPTY := Cells([], 0)

  function Start(threads: set<Thread>): System {
    System(L.Start(threads), EMPTY, map t | t in threads :: Outside, [])
  }

  /** The lock function that an event calls. */
  function CallOf(e: Event): Option<L.Op> {
    match e
    case Search(_, _) => Some(L.RLock)
    case Leave(_) => Some(L.RUnlock)
    case Return(_) => Some(L.WLock)
    case End(_) => Some(L.WUnlock)
    case _ => None
  }

  predicate InPhase(p: Phase, e: Event) {
    match e
    case Search(_, op) => p.Outside? && !op.Query?
    case Look(_) => p.Searching?
    case Leave(_) => p.Looked?
    case Return(_) => p.Leaving?
    case Act(_) => p.Returning?
    case End(_) => p.Finished?
    case Inner(_) => true
  }

  predicate Can(s: System, e: Event) {
    if e.Inner? then !e.e.Call? && L.Enabled(s.lock, e.e)
    else
      && e.t in s.phase && InPhase(s.phase[e.t], e) && e.t in s.lock.pc && s.lock.pc[e.t].Idle?
      && (e.Act? ==> ActOn(s.cells, s.phase[e.t].op, s.phase[e.t].at).Some?)
  }

  function NextPhase(s: System, e: Event): Phase
    requires !e.Inner? && Can(s, e)
  {
    var p := s.phase[e.t];
    match e
    case Search(_, op) => Searching(op)
    case Look(_) => Looked(p.op, Pointer(s.cells, p.op.app))
    case Leave(_) => Leaving(p.op, p.at)
    case Return(_) => Returning(p.op, p.at)
    case Act(_) => Finished(p.op, ActOn(s.cells, p.op, p.at).value.1)
    case End(_) => Outside
  }

  function Next(s: System, e: Event): System
    requires Can(s, e)
  {
    if e.Inner? then s.(lock := L.Apply(s.lock, e.e))
    else
      var p := NextPhase(s, e);
      var r := s.(phase := s.phase[e.t := p]);
      if CallOf(e).Some? then r.(lock := L.Apply(s.lock, L.Call(e.t, CallOf(e).value)))
      else if e.Act? then
        r.(cells := ActOn(s.cells, s.phase[e.t].op, s.phase[e.t].at).value.0, log := s.log + [Record(e.t, p.op, p.ret)])
      else r
  }

  predicate Possible(s: System, es: seq<Event>)
    decreases |es|, 0
  {
    es == [] || (Possible(s, es[..|es| - 1]) && Can(After(s, es[..|es| - 1]), es[|es| - 1]))
  }

  function After(s: System, es: seq<Event>): System
    requires Possible(s, es)
    decreases |es|, 1
  {
    if es == [] then s else Next(After(s, es[..|es| - 1]), es[|es| - 1])
  }

  lemma Extend(s: System, es: seq<Event>, e: Event)
    requires Possible(s, es) && Can(After(s, es), e)
    ensures Possible(s, es + [e]) && After(s, es + [e]) == Next(After(s, es), e)
  {
    hide Can, Next;
    assert (es + [e])[..|es|] == es;
  }

  // Runs in which no act meets a stale pointer

  ghost predicate AllFresh(s: System, es: seq<Event>)
    requires Possible(s, es)
    decreases |es|
  {
    es == [] ||
    var r, e := After(s, es[..|es| - 1]), es[|es| - 1];
    && AllFresh(s, es[..|es| - 1])
    && (e.Act? ==> r.phase[e.t].at == Pointer(r.cells, r.phase[e.t].op.app))
  }

  function OpsOf(log: seq<Record>): seq<Op> { seq(|log|, i requires 0 <= i < |log| => log[i].op) }

  function RetsOf(log: seq<Record>): seq<int> { seq(|log|, i requires 0 <= i < |log| => log[i].ret) }

  ghost predicate LogOk(s: System) {
    IdsOk(s.cells) && S.ListLog(OpsOf(s.log)) == S.Ran(Apps(s.cells), RetsOf(s.log))
  }

  lemma ActKeepsIds(c: Cells, op: Op, at: Option<nat>)
    requires IdsOk(c) && ActOn(c, op, at).Some?
    ensures IdsOk(ActOn(c, op, at).value.0)
  {
    hide Place, Find;
    if at.Some? {
      DropKeepsIds(c, Place(c.list, at.value));
    }
  }

  lemma DropKeepsIds(c: Cells, i: nat)
    requires IdsOk(c) && i < |c.list|
    ensures IdsOk(c.(list := Drop(c.list, i)))
  {
    assert forall j | 0 <= j < |c.list| - 1 :: Drop(c.list, i)[j] == c.list[if j < i then j else j + 1];
  }

  lemma LogSnoc(log: seq<Record>, x: Record)
    ensures OpsOf(log + [x]) == OpsOf(log) + [x.op] && RetsOf(log + [x]) == RetsOf(log) + [x.ret]
    ensures OpsOf(log + [x])[..|log|] == OpsOf(log)
  {
  }

  lemma FreshAct(s: System, e: Event)
    requires LogOk(s) && Can(s, e) && (e.Act? ==> s.phase[e.t].at == Pointer(s.cells, s.phase[e.t].op.app))
    ensures LogOk(Next(s, e))
  {
    hide L.Apply, L.Enabled, ActOn, IdsOk, Pointer, Apps;
    if e.Act? {
      var op, at := s.phase[e.t].op, s.phase[e.t].at;
      ActOnFresh(s.cells, op);
      ActKeepsIds(s.cells, op, at);
      LogSnoc(s.log, Record(e.t, op, ActOn(s.cells, op, at).value.1));
    }
  }

  /** As long as no act meets a stale pointer, an interleaving is a sequential run of the list registry, and names stay distinct. */
  lemma {:induction false} FreshRun(threads: set<Thread>, es: seq<Event>)
    requires Possible(Start(threads), es) && AllFresh(Start(threads), es)
    ensures var s := After(Start(threads), es);
      IdsOk(s.cells) && S.ListLog(OpsOf(s.log)) == S.Ran(Apps(s.cells), RetsOf(s.log)) && Proper(Apps(s.cells))
    decreases |es|
  {
    if es == [] {
      var s := Start(threads);
      assert OpsOf(s.log) == [] && RetsOf(s.log) == [] && Apps(s.cells) == [];
    } else {
      hide Can, Next;
      FreshRun(threads, es[..|es| - 1]);
      FreshAct(After(Start(threads), es[..|es| - 1]), es[|es| - 1]);
    }
    S.LogsProper(OpsOf(After(Start(threads), es).log));
  }

  // Two threads, one after the other in each half

  /** Nobody holds the lock, and nobody is on the way to it. */
  predicate Calm(lock: L.State) {
    && lock.readersReading == 0 && lock.writerWriting == 0 && lock.mutex == L.Free
    && lock.rholds == multiset{} && lock.wholds == multiset{}
    && forall t | t in lock.pc :: lock.pc[t] == L.Idle
  }

  /** An event of the lock where nobody sleeps. */
  lemma InnerStep(s0: System, es: seq<Event>, f: L.Event) returns (fs: seq<Event>)
    requires Possible(s0, es) && !f.Call? && L.Enabled(After(s0, es).lock, f) && L.Sleepers(After(s0, es).lock) == {}
    ensures Possible(s0, fs)
    ensures var s := After(s0, es); var a := L.Act(s.lock, f);
      && After(s0, fs) == s.(lock := L.State(a.readersReading, a.writerWriting, a.mutex, s.lock.pc[f.t := a.pc], a.rholds, a.wholds))
      && (!a.pc.Sleeping? ==> L.Sleepers(After(s0, fs).lock) == {})
  {
    hide L.Act, L.Enabled, L.Apply, L.Sleepers, Possible, After;
    L.Alone(After(s0, es).lock, f);
    Extend(s0, es, Inner(f));
    fs := es + [Inner(f)];
  }

  /** An undisturbed visit to a lock function, from the event that calls it to its return. */
  lemma Visit(s0: System, es: seq<Event>, e: Event) returns (fs: seq<Event>)
    requires Possible(s0, es) && CallOf(e).Some? && Can(After(s0, es), e)
    requires var s := After(s0, es);
      s.lock.mutex == L.Free && (forall u | u in s.lock.pc :: s.lock.pc[u] == L.Idle)
      && !L.TestEffect(s.lock, e.t, CallOf(e).value).pc.Sleeping?
    ensures Possible(s0, fs)
    ensures var s := After(s0, es);
      After(s0, fs) == s.(phase := s.phase[e.t := NextPhase(s, e)], lock := L.Visited(s.lock, e.t, CallOf(e).value))
  {
    hide Possible, After, L.Apply, L.Sleepers;
    var s, op, t := After(s0, es), CallOf(e).value, e.t;
    NoSleepers(s.lock);
    L.Alone(s.lock, L.Call(t, op));
    Extend(s0, es, e);
    fs := es + [e];
    fs := InnerStep(s0, fs, L.Acquire(t));
    L.Again(s.lock.pc, t, L.Entering(op), L.Testing(op));
    fs := InnerStep(s0, fs, L.Test(t));
    L.Again(s.lock.pc, t, L.Testing(op), After(s0, fs).lock.pc[t]);
    fs := Depart(s0, fs, s.lock.pc, t);
  }

  lemma NoSleepers(lock: L.State)
    requires forall u | u in lock.pc :: lock.pc[u] == L.Idle
    ensures L.Sleepers(lock) == {}
  {
  }

  /** The end of a visit: the notification, if there is one to give, and the release of the mutex. */
  lemma Depart(s0: System, es: seq<Event>, pc: map<Thread, L.Pc>, t: Thread) returns (fs: seq<Event>)
    requires Possible(s0, es) && t in pc && pc[t] == L.Idle
    requires var lock := After(s0, es).lock;
      && L.Sleepers(lock) == {} && t in lock.pc && lock.pc == pc[t := lock.pc[t]]
      && (lock.pc[t] == L.Notifying(L.RUnlock) || lock.pc[t] == L.Notifying(L.WUnlock) || lock.pc[t].Leaving?)
    ensures Possible(s0, fs)
    ensures var s := After(s0, es); After(s0, fs) == s.(lock := s.lock.(mutex := L.Free, pc := pc))
  {
    hide Possible, After, L.Apply, L.Sleepers;
    fs := es;
    var p := After(s0, es).lock.pc[t];
    if p.Notifying? {
      fs := InnerStep(s0, fs, if p.op == L.RUnlock then L.Signal(t, {}) else L.Broadcast(t));
      L.Again(pc, t, p, After(s0, fs).lock.pc[t]);
    }
    fs := InnerStep(s0, fs, L.Release(t));
    assert After(s0, fs).lock.pc == pc;
  }

  /** The first hold of an operation, undisturbed: it leaves a pointer and a free lock. */
  lemma FirstHold(s0: System, es: seq<Event>, t: Thread, op: Op) returns (fs: seq<Event>)
    requires Possible(s0, es) && !op.Query?
    requires var s := After(s0, es); Calm(s.lock) && t in s.phase && t in s.lock.pc && s.phase[t] == Outside
    ensures Possible(s0, fs)
    ensures var s := After(s0, es);
      After(s0, fs) == s.(phase := s.phase[t := Leaving(op, Pointer(s.cells, op.app))])
  {
    hide Possible, After, ActOn, Pointer;
    var s := After(s0, es);
    fs := Visit(s0, es, Search(t, op));
    var r := After(s0, fs);
    Extend(s0, fs, Look(t));
    fs := fs + [Look(t)];
    fs := Visit(s0, fs, Leave(t));
    ReadAndBack(s.lock, t);
    Thrice(s.phase, t, Searching(op), Looked(op, Pointer(s.cells, op.app)), Leaving(op, Pointer(s.cells, op.app)));
  }

  lemma Thrice(m: map<Thread, Phase>, t: Thread, a: Phase, b: Phase, c: Phase)
    ensures m[t := a][t := b][t := c] == m[t := c]
  {
  }

  lemma ReadAndBack(lock: L.State, t: Thread)
    requires Calm(lock)
    ensures L.Visited(L.Visited(lock, t, L.RLock), t, L.RUnlock) == lock
  {
    assert multiset{} + multiset{t} - multiset{t} == multiset{};
  }

  lemma WriteAndBack(lock: L.State, t: Thread)
    requires Calm(lock)
    ensures L.Visited(L.Visited(lock, t, L.WLock), t, L.WUnlock) == lock
  {
    assert multiset{} + multiset{t} - multiset{t} == multiset{};
  }

  /** The second hold, undisturbed: the operation acts on its pointer. */
  lemma SecondHold(s0: System, es: seq<Event>, t: Thread) returns (fs: seq<Event>)
    requires Possible(s0, es)
    requires var s := After(s0, es);
      && Calm(s.lock) && t in s.phase && t in s.lock.pc && s.phase[t].Leaving?
      && ActOn(s.cells, s.phase[t].op, s.phase[t].at).Some?
    ensures Possible(s0, fs)
    ensures var s := After(s0, es); var r := After(s0, fs);
      && r.lock == s.lock && r.phase == s.phase[t := Outside]
      && r.cells == ActOn(s.cells, s.phase[t].op, s.phase[t].at).value.0
  {
    hide Possible, After, ActOn;
    var s := After(s0, es);
    var p := s.phase[t];
    fs := Visit(s0, es, Return(t));
    Extend(s0, fs, Act(t));
    fs := fs + [Act(t)];
    fs := Visit(s0, fs, End(t));
    WriteAndBack(s.lock, t);
    Thrice(s.phase, t, Returning(p.op, p.at), Finished(p.op, ActOn(s.cells, p.op, p.at).value.1), Outside);
  }

  lemma StartCalm(threads: set<Thread>)
    ensures Possible(Start(threads), []) && After(Start(threads), []) == Start(threads) && Calm(Start(threads).lock)
    ensures Start(threads).phase.Keys == Start(threads).lock.pc.Keys == threads
  {
  }

  lemma Two(app: string, np: string, np': string)
    ensures var once := Cells([Cell(0, App(app, [np]))], 1);
      && Pointer(EMPTY, app) == None && ActOn(EMPTY, Register(app, np), None) == Some((once, 0))
      && ActOn(once, Register(app, np'), None)
           == Some((Cells([Cell(0, App(app, [np])), Cell(1, App(app, [np']))], 2), 0))
  {
    assert Apps(EMPTY) == [];
    assert EMPTY.list + [Cell(0, App(app, [np]))] == [Cell(0, App(app, [np]))];
    assert [Cell(0, App(app, [np]))] + [Cell(1, App(app, [np']))] == [Cell(0, App(app, [np])), Cell(1, App(app, [np']))];
  }

  /** Two threads that register one new application at the same time leave two of its name. */
  lemma ListRace(app: string, np: string, np': string)
    ensures exists es :: Possible(Start({0, 1}), es) && !Proper(Apps(After(Start({0, 1}), es).cells))
  {
    hide ActOn, Pointer, Apps, Possible, After, Calm;
    var s0 := Start({0, 1});
    StartCalm({0, 1});
    Two(app, np, np');
    var es := FirstHold(s0, [], 0, Register(app, np));
    es := FirstHold(s0, es, 1, Register(app, np'));
    es := SecondHold(s0, es, 0);
    es := SecondHold(s0, es, 1);
    TwoOfOneName(app, np, np');
    assert !Proper(Apps(After(s0, es).cells));
  }

  lemma TwoOfOneName(app: string, np: string, np': string)
    ensures !Proper(Apps(Cells([Cell(0, App(app, [np])), Cell(1, App(app, [np']))], 2)))
  {
    var r := Apps(Cells([Cell(0, App(app, [np])), Cell(1, App(app, [np']))], 2));
    assert r[0].name == r[1].name;
  }

  lemma Gone(app: string, np: string, np': string)
    ensures var once := Cells([Cell(0, App(app, [np]))], 1);
      && Pointer(once, app) == Some(0) && ActOn(once, Remove(app), Some(0)) == Some((Cells([], 1), 0))
      && ActOn(Cells([], 1), Register(app, np'), Some(0)) == None
  {
    var once := Cells([Cell(0, App(app, [np]))], 1);
    assert Apps(once) == [App(app, [np])];
    assert Lookup(Apps(once), app) == 0 && Drop(once.list, 0) == [];
  }

  /** The thread may go on with a pointer to a node that is gone, though the call itself is a proper one. */
  predicate MeetsFreed(s: System, t: Thread) {
    && t in s.phase && s.phase[t].Leaving? && Calm(s.lock)
    && ActOn(s.cells, s.phase[t].op, s.phase[t].at) == None && ListStep(Apps(s.cells), s.phase[t].op).Ok?
  }

  /** A thread that has looked an application up meets freed memory if another removes it before the write hold. */
  lemma FreedExample(app: string, np: string, np': string)
    ensures exists es :: Possible(Start({0, 1}), es) && MeetsFreed(After(Start({0, 1}), es), 0)
  {
    hide ActOn, Pointer, Apps, Possible, After, Calm;
    var s0 := Start({0, 1});
    StartCalm({0, 1});
    Two(app, np, np');
    Gone(app, np, np');
    var es := FirstHold(s0, [], 0, Register(app, np));
    es := SecondHold(s0, es, 0);
    es := FirstHold(s0, es, 0, Register(app, np'));
    es := FirstHold(s0, es, 1, Remove(app));
    es := SecondHold(s0, es, 1);
    assert After(s0, es).phase[0] == Leaving(Register(app, np'), Some(0));
    assert MeetsFreed(After(s0, es), 0);
  }
}
