/**
 What a history of the table comes to, on the sequence of pairs it is measured
 against: what each call changes and what it answers, after any other calls.
 */
module TableLaws {
  import opened Sequences
  import opened MergeSort
  import opened TableRuns

  ghost predicate HoldsKey<V(!new)>(s: Pairs<V>, key: string) {
    exists i :: 0 <= i < |s| && s[i].0 == key
  }

  ghost predicate KeysDiffer<V(!new)>(s: Pairs<V>) {
    forall i, j | 0 <= i < j < |s| :: s[i].0 != s[j].0
  }

  function OtherKey<V>(key: string): ((string, V)) -> bool {
    (p: (string, V)) => p.0 != key
  }

  // One call

  lemma PutIs<V(!new)>(s: Pairs<V>, key: string, value: V, order: (string, string) -> int)
    ensures Step(s, Put(key, value), order) == if HoldsKey(s, key) then (s, Refused) else (s + [(key, value)], Done)
  {
    if Position(s, key) < |s| { assert s[Position(s, key)].0 == key; }
  }

  lemma DropIs<V(!new)>(s: Pairs<V>, key: string, order: (string, string) -> int)
    requires KeysDiffer(s)
    ensures Step(s, TableRuns.Drop(key), order) == (Filter(s, OtherKey(key)), if HoldsKey(s, key) then Done else Refused)
  {
    var i := Position(s, key);
    if i < |s| {
      assert s[i].0 == key;
      FilterDrop(s, OtherKey(key), i);
    } else {
      FilterAll(s, OtherKey(key));
    }
  }

  lemma LookIs<V(!new)>(s: Pairs<V>, key: string, order: (string, string) -> int)
    requires KeysDiffer(s)
    ensures var (t, a) := Step(s, Look(key), order);
      && t == s && (a.Missing? <==> !HoldsKey(s, key)) && (a.Missing? || a.Found?)
      && forall v :: a == Found(v) <==> (key, v) in s
  {
    var i := Position(s, key);
    if i < |s| {
      assert s[i].0 == key && s[i] in s;
    }
  }

  lemma {:induction false} Once<V(!new)>(s: Pairs<V>, x: (string, V))
    requires KeysDiffer(s)
    ensures multiset(s)[x] <= 1
  {
    if s != [] {
      assert s == [s[0]] + s[1..];
      Once(s[1..], x);
      assert x in multiset(s[1..]) ==> x in s[1..];
    }
  }

  lemma Twice<T>(t: seq<T>, i: nat, j: nat)
    requires i < j < |t| && t[i] == t[j]
    ensures multiset(t)[t[i]] >= 2
  {
    var a, b := t[..j], t[j..];
    assert t == a + b && a[i] == t[i] && b[0] == t[j];
    assert t[i] in a && t[i] in b;
  }

  lemma ArrangeIs<V(!new)>(s: Pairs<V>, order: (string, string) -> int)
    requires KeysDiffer(s)
    ensures var (t, a) := Step(s, Arrange, order); multiset(t) == multiset(s) && KeysDiffer(t) && a == Done
  {
    var t := Step(s, Arrange, order).0;
    SortMembers(s, 1, ByKey(order));
    forall i, j | 0 <= i < j < |t|
      ensures t[i].0 != t[j].0
    {
      assert t[i] in multiset(t) && t[j] in multiset(t);
      assert t[i] in s && t[j] in s;
      if t[i] == t[j] {
        Twice(t, i, j);
      }
      Once(s, t[i]);
    }
  }

  lemma {:induction false} FilterKeys<V(!new)>(s: Pairs<V>, key: string)
    requires KeysDiffer(s)
    ensures KeysDiffer(Filter(s, OtherKey(key))) && !HoldsKey(Filter(s, OtherKey(key)), key)
    ensures forall x :: x in Filter(s, OtherKey(key)) <==> x in s && x.0 != key
  {
    if s != [] {
      FilterKeys(s[1..], key);
      assert s == [s[0]] + s[1..];
      var rest := Filter(s[1..], OtherKey(key));
      forall i | 0 <= i < |rest|
        ensures rest[i].0 != s[0].0 && rest[i].0 != key
      {
        assert rest[i] in rest && rest[i] in s[1..];
      }
    }
  }

  lemma StepKeys<V(!new)>(s: Pairs<V>, op: Op<V>, order: (string, string) -> int)
    requires KeysDiffer(s)
    ensures KeysDiffer(Step(s, op, order).0)
  {
    match op {
      case Put(key, value) => PutIs(s, key, value, order);
      case Drop(key) =>
        DropIs(s, key, order);
        FilterKeys(s, key);
      case Look(key) => LookIs(s, key, order);
      case Arrange => ArrangeIs(s, order);
    }
  }

  // Whole histories

  lemma RunSnoc<V(!new)>(ops: seq<Op<V>>, op: Op<V>, order: (string, string) -> int)
    ensures var (s, answers) := Run([], ops, order); var (t, a) := Step(s, op, order);
      Run([], ops + [op], order) == (t, answers + [a])
  {
    assert (ops + [op])[..|ops|] == ops;
  }

  lemma RunTwo<V(!new)>(ops: seq<Op<V>>, p: Op<V>, q: Op<V>, order: (string, string) -> int)
    ensures var (s, answers) := Run([], ops, order); var (t, a) := Step(s, p, order); var (u, b) := Step(t, q, order);
      Run([], ops + [p, q], order) == (u, answers + [a, b])
  {
    hide Step, Run;
    RunSnoc(ops, p, order);
    RunSnoc(ops + [p], q, order);
    assert ops + [p, q] == ops + [p] + [q];
    var answers, a, b := Run([], ops, order).1, Step(Run([], ops, order).0, p, order).1, Step(Run([], ops + [p], order).0, q, order).1;
    assert answers + [a] + [b] == answers + [a, b];
  }

  /** No key is there twice, whatever has been called. */
  lemma {:induction false} RunKeys<V(!new)>(ops: seq<Op<V>>, order: (string, string) -> int)
    ensures KeysDiffer(Run([], ops, order).0)
    decreases |ops|
  {
    hide Step;
    if ops != [] {
      var n := |ops| - 1;
      RunKeys(ops[..n], order);
      StepKeys(Run([], ops[..n], order).0, ops[n], order);
    }
  }

  /** A put of a new key is last and is found; of a key that is there it is refused and changes nothing. */
  lemma AfterPut<V(!new)>(ops: seq<Op<V>>, key: string, value: V, order: (string, string) -> int)
    ensures var (s, answers) := Run([], ops, order);
      var (t, more) := Run([], ops + [Put(key, value), Look(key)], order);
      if HoldsKey(s, key) then
        t == s && exists v :: (key, v) in s && more == answers + [Refused, Found(v)]
      else t == s + [(key, value)] && more == answers + [Done, Found(value)]
  {
    hide Step, Run;
    var s := Run([], ops, order).0;
    RunKeys(ops, order);
    RunTwo(ops, Put(key, value), Look(key), order);
    PutIs(s, key, value, order);
    StepKeys(s, Put(key, value), order);
    var t := Step(s, Put(key, value), order).0;
    LookIs(t, key, order);
    if HoldsKey(s, key) {
      var v := Step(t, Look(key), order).1.value;
      assert (key, v) in s;
    } else {
      assert t[|s|] == (key, value);
    }
  }

  /** A drop takes the pair of its key and no other, and the key is missing; it is refused exactly if the key is not there. */
  lemma AfterDrop<V(!new)>(ops: seq<Op<V>>, key: string, order: (string, string) -> int)
    ensures var (s, answers) := Run([], ops, order);
      Run([], ops + [TableRuns.Drop(key), Look(key)], order)
        == (Filter(s, OtherKey(key)), answers + [if HoldsKey(s, key) then Done else Refused, Missing])
  {
    hide Step, Run;
    var s := Run([], ops, order).0;
    RunKeys(ops, order);
    RunTwo(ops, TableRuns.Drop(key), Look(key), order);
    DropIs(s, key, order);
    FilterKeys(s, key);
    LookIs(Filter(s, OtherKey(key)), key, order);
  }

  /** A look-up changes nothing and finds exactly the value that stands with the key. */
  lemma AfterLook<V(!new)>(ops: seq<Op<V>>, key: string, order: (string, string) -> int)
    ensures var (s, answers) := Run([], ops, order); var (t, more) := Run([], ops + [Look(key)], order);
      && t == s && |more| == |answers| + 1 && more[..|answers|] == answers
      && (more[|answers|] == Missing <==> !HoldsKey(s, key))
      && forall v :: more[|answers|] == Found(v) <==> (key, v) in s
  {
    hide Step, Run;
    RunKeys(ops, order);
    RunSnoc(ops, Look(key), order);
    LookIs(Run([], ops, order).0, key, order);
  }

  ghost function PairSet<V(!new)>(s: Pairs<V>): set<(string, V)> {
    set p | p in s
  }

  /** Arranging keeps every pair and, by a total preorder of the keys, sorts them, equal ones as they stood. */
  lemma AfterArrange<V(!new)>(ops: seq<Op<V>>, order: (string, string) -> int, keys: set<string>)
    requires Preorder(keys, order) && forall p | p in Run([], ops, order).0 :: p.0 in keys
    ensures var (s, answers) := Run([], ops, order); var (t, more) := Run([], ops + [Arrange], order);
      && multiset(t) == multiset(s) && more == answers + [Done]
      && Sorted(t, ByKey(order)) && Stable(s, t, ByKey(order), PairSet(s))
  {
    hide SortFrom, Run;
    var s := Run([], ops, order).0;
    RunKeys(ops, order);
    RunSnoc(ops, Arrange, order);
    ArrangeIs(s, order);
    SortCorrect(s, ByKey(order), PairSet(s));
  }

  // The same on a finite map

  function MapStep<V>(m: map<string, V>, op: Op<V>): (map<string, V>, Answer<V>) {
    match op
    case Put(key, value) => if key in m then (m, Refused) else (m[key := value], Done)
    case Drop(key) => if key in m then (m - {key}, Done) else (m, Refused)
    case Look(key) => (m, if key in m then Found(m[key]) else Missing)
    case Arrange => (m, Done)
  }

  function MapRun<V>(ops: seq<Op<V>>): (map<string, V>, seq<Answer<V>>) {
    if ops == [] then (map[], [])
    else
      var (m, answers) := MapRun(ops[..|ops| - 1]);
      var (m', a) := MapStep(m, ops[|ops| - 1]);
      (m', answers + [a])
  }

  ghost predicate Represents<V(!new)>(s: Pairs<V>, m: map<string, V>) {
    KeysDiffer(s) && forall key, v :: (key, v) in s <==> key in m && m[key] == v
  }

  lemma HoldsIs<V(!new)>(s: Pairs<V>, m: map<string, V>, key: string)
    requires Represents(s, m)
    ensures HoldsKey(s, key) <==> key in m
  {
    if HoldsKey(s, key) {
      var i :| 0 <= i < |s| && s[i].0 == key;
      assert (key, s[i].1) in s;
    }
    if key in m {
      assert (key, m[key]) in s;
    }
  }

  lemma StepIsMap<V(!new)>(s: Pairs<V>, m: map<string, V>, op: Op<V>, order: (string, string) -> int)
    requires Represents(s, m)
    ensures Represents(Step(s, op, order).0, MapStep(m, op).0) && Step(s, op, order).1 == MapStep(m, op).1
  {
    hide Step, KeysDiffer, HoldsKey;
    StepKeys(s, op, order);
    match op {
      case Put(key, value) =>
        HoldsIs(s, m, key);
        PutIs(s, key, value, order);
      case Drop(key) =>
        HoldsIs(s, m, key);
        DropIs(s, key, order);
        FilterKeys(s, key);
      case Look(key) =>
        HoldsIs(s, m, key);
        LookIs(s, key, order);
        if key in m { assert (key, m[key]) in s; }
      case Arrange =>
        ArrangeIs(s, order);
        SamePairs(s, Step(s, op, order).0);
    }
  }

  lemma SamePairs<T(!new)>(s: seq<T>, t: seq<T>)
    requires multiset(t) == multiset(s)
    ensures forall x :: x in t <==> x in s
  {
    assert forall x :: x in t <==> x in multiset(t);
    assert forall x :: x in s <==> x in multiset(s);
  }

  /** The answers are those of a finite map, which knows nothing of order: however often the table is sorted, no answer changes. */
  lemma {:induction false} RunIsMap<V(!new)>(ops: seq<Op<V>>, order: (string, string) -> int)
    ensures Represents(Run([], ops, order).0, MapRun(ops).0) && Run([], ops, order).1 == MapRun(ops).1
    decreases |ops|
  {
    hide Step, MapStep;
    if ops != [] {
      var n := |ops| - 1;
      RunIsMap(ops[..n], order);
      StepIsMap(Run([], ops[..n], order).0, MapRun(ops[..n]).0, ops[n], order);
    }
  }
}
