/**
 Whole runs of the hash table against a sequence of pairs. A client looks a key
 up before adding it, as every user of the table does; it may also delete, look
 up and sort, in any order and any number of times.
 */
module TableRuns {
  import opened Bits
  import opened Sequences
  import opened Elements
  import opened Buckets
  import opened MergeSort
  import opened HashTable

  datatype Op<V> = Put(key: string, value: V) | Drop(key: string) | Look(key: string) | Arrange
  datatype Answer<V> = Done | Refused | Found(value: V) | Missing

  type Pairs<V> = seq<(string, V)>

  /** The position of a key, or the length. */
  function Position<V>(s: Pairs<V>, key: string): (i: nat)
    ensures i <= |s| && (forall j | 0 <= j < i :: s[j].0 != key) && (i < |s| ==> s[i].0 == key)
  {
    First(s, (p: (string, V)) => p.0, key)
  }

  function ByKey<V>(order: (string, string) -> int): ((string, V), (string, V)) -> int {
    (p: (string, V), q: (string, V)) => order(p.0, q.0)
  }

  function ElemByKey<V>(order: (string, string) -> int): (Elem<V>, Elem<V>) -> int {
    (p: Elem<V>, q: Elem<V>) => order(p.key, q.key)
  }

  function Step<V>(s: Pairs<V>, op: Op<V>, order: (string, string) -> int): (Pairs<V>, Answer<V>) {
    match op
    case Put(key, value) => if Position(s, key) < |s| then (s, Refused) else (s + [(key, value)], Done)
    case Drop(key) =>
      var i := Position(s, key);
      if i < |s| then (s[..i] + s[i + 1..], Done) else (s, Refused)
    case Look(key) =>
      var i := Position(s, key);
      (s, if i < |s| then Found(s[i].1) else Missing)
    case Arrange => (SortFrom(s, 1, ByKey(order)), Done)
  }

  function Run<V>(s: Pairs<V>, ops: seq<Op<V>>, order: (string, string) -> int): (Pairs<V>, seq<Answer<V>>) {
    if ops == [] then (s, [])
    else
      var (t, answers) := Run(s, ops[..|ops| - 1], order);
      var (u, a) := Step(t, ops[|ops| - 1], order);
      (u, answers + [a])
  }

  /** The puts of a run that have left ten pairs or more. */
  function CrowdedPuts<V>(ops: seq<Op<V>>, order: (string, string) -> int): nat {
    if ops == [] then 0
    else
      var n := |ops| - 1;
      var (s, a) := Step(Run([], ops[..n], order).0, ops[n], order);
      CrowdedPuts(ops[..n], order) + if ops[n].Put? && a.Done? && |s| >= 10 then 1 else 0
  }

  /** The table has never held ten pairs. */
  ghost predicate NeverTen<V(!new)>(ops: seq<Op<V>>, order: (string, string) -> int) {
    forall n: nat | n <= |ops| :: |Run([], ops[..n], order).0| < 10
  }

  lemma {:induction false} NeverCrowded<V(!new)>(ops: seq<Op<V>>, order: (string, string) -> int)
    requires NeverTen(ops, order)
    ensures CrowdedPuts(ops, order) == 0
    decreases |ops|
  {
    hide Step;
    if ops != [] {
      var n := |ops| - 1;
      forall m: nat | m <= n
        ensures |Run([], ops[..n][..m], order).0| < 10
      {
        assert ops[..n][..m] == ops[..m];
      }
      NeverCrowded(ops[..n], order);
      assert ops[..n + 1] == ops;
    }
  }

  /** How often the buckets of a table have been doubled since it came into being. */
  ghost function Doublings<V>(t: Table<V>): nat
    reads t
  {
    if t.head == null then 0 else t.expansions
  }

  /** Elements and pairs say the same. */
  ghost predicate Matches<V(!new)>(es: seq<Elem<V>>, s: Pairs<V>)
  {
    |es| == |s| && forall i | 0 <= i < |es| :: es[i].key == s[i].0 && es[i].value == s[i].1
  }

  lemma {:induction false} MergeMatches<V(!new)>(p: seq<Elem<V>>, q: seq<Elem<V>>, p': Pairs<V>, q': Pairs<V>, order: (string, string) -> int)
    requires Matches(p, p') && Matches(q, q')
    ensures Matches(Merge(p, q, ElemByKey(order)), Merge(p', q', ByKey(order)))
  {
    if p != [] && q != [] {
      if order(p[0].key, q[0].key) <= 0 {
        MergeMatches(p[1..], q, p'[1..], q', order);
      } else {
        MergeMatches(p, q[1..], p', q'[1..], order);
      }
    }
  }

  lemma MatchesAppend<V(!new)>(p: seq<Elem<V>>, q: seq<Elem<V>>, p': Pairs<V>, q': Pairs<V>)
    requires Matches(p, p') && Matches(q, q')
    ensures Matches(p + q, p' + q')
  {
  }

  lemma {:induction false} PassMatches<V(!new)>(s: seq<Elem<V>>, s': Pairs<V>, k: nat, order: (string, string) -> int)
    requires k > 0 && Matches(s, s')
    ensures Matches(Pass(s, k, ElemByKey(order)), Pass(s', k, ByKey(order)))
    decreases |s|
  {
    if s != [] {
      var m, e := Min(k, |s|), Min(2 * k, |s|);
      MergeMatches(s[..m], s[m..e], s'[..m], s'[m..e], order);
      PassMatches(s[e..], s'[e..], k, order);
      MatchesAppend(Merge(s[..m], s[m..e], ElemByKey(order)), Pass(s[e..], k, ElemByKey(order)),
                    Merge(s'[..m], s'[m..e], ByKey(order)), Pass(s'[e..], k, ByKey(order)));
    }
  }

  lemma {:induction false} SortMatches<V(!new)>(s: seq<Elem<V>>, s': Pairs<V>, k: nat, order: (string, string) -> int)
    requires k > 0 && Matches(s, s')
    ensures Matches(SortFrom(s, k, ElemByKey(order)), SortFrom(s', k, ByKey(order)))
    decreases |s| - k
  {
    PassMatches(s, s', k, order);
    if |s| > 2 * k {
      SortMatches(Pass(s, k, ElemByKey(order)), Pass(s', k, ByKey(order)), 2 * k, order);
    }
  }

  lemma PositionOf<V(!new)>(es: seq<Elem<V>>, s: Pairs<V>, out: Elem?<V>, key: string)
    requires Matches(es, s) && DistinctKeys(es)
    requires out != null ==> out in es && out.key == key
    requires out == null ==> forall e | e in es :: e.key != key
    ensures var i := Position(s, key);
      if out == null then i == |s| else i < |s| && es[i] == out && s[i].1 == out.value
  {
    var i := Position(s, key);
    if out != null {
      var j :| 0 <= j < |es| && es[j] == out;
      assert s[j].0 == key;
    } else {
      assert forall j | 0 <= j < |es| :: es[j] in es && es[j].key == s[j].0;
    }
  }

  method DoPut<V(!new)>(t: Table<V>, key: string, value: V, ghost s: Pairs<V>, ghost order: (string, string) -> int)
    returns (a: Answer<V>, ghost s': Pairs<V>)
    requires t.Valid() && Matches(t.order, s)
    modifies t, t.buckets, t.bloomBv, t.order
    ensures t.Valid() && Matches(t.order, s') && (s', a) == Step(s, Put(key, value), order)
    ensures Doublings(t) <= old(Doublings(t)) + if a.Done? && |s'| >= 10 then 1 else 0
    ensures (t.buckets == old(t.buckets) || fresh(t.buckets)) && (t.bloomBv == old(t.bloomBv) || fresh(t.bloomBv))
    ensures forall e | e in t.order :: e in old(t.order) || fresh(e)
  {
    hide Table.OrderOk, Table.BucketsOk, Table.BoundOk, Table.BloomCovers;
    KeysOf(t);
    var out := t.Find(key);
    PositionOf(t.order, s, out, key);
    if out != null {
      a, s' := Refused, s;
    } else {
      var e := new Elem(key, value);
      if t.head != null && |t.order| + 1 < 10 {
        t.CrowdNeedsTen(key);
      }
      t.Add(e);
      a, s' := Done, s + [(key, value)];
    }
  }

  lemma KeysOf<V(!new)>(t: Table<V>)
    requires t.Valid()
    ensures DistinctKeys(t.order) && Distinct(t.order) && (t.head == null <==> t.order == [])
  {
  }

  method DoDrop<V(!new)>(t: Table<V>, key: string, ghost s: Pairs<V>, ghost order: (string, string) -> int)
    returns (a: Answer<V>, ghost s': Pairs<V>)
    requires t.Valid() && Matches(t.order, s)
    modifies t, t.buckets, t.order
    ensures t.Valid() && Matches(t.order, s') && (s', a) == Step(s, Drop(key), order)
    ensures Doublings(t) <= old(Doublings(t))
    ensures t.buckets == old(t.buckets) && t.bloomBv == old(t.bloomBv)
    ensures forall e | e in t.order :: e in old(t.order)
  {
    hide Table.Valid, Without;
    KeysOf(t);
    var out := t.Find(key);
    PositionOf(t.order, s, out, key);
    if out == null {
      a, s' := Refused, s;
    } else {
      ghost var i := Position(s, key);
      ghost var es := t.order;
      t.Delete(out, i);
      MatchesWithout(es, s, i);
      a, s' := Done, s[..i] + s[i + 1..];
    }
  }

  lemma MatchesWithout<V(!new)>(es: seq<Elem<V>>, s: Pairs<V>, i: nat)
    requires Matches(es, s) && i < |s|
    ensures Matches(Without(es, i), s[..i] + s[i + 1..])
    ensures forall e | e in Without(es, i) :: e in es
  {
  }

  lemma SameMembers<T>(s: seq<T>, t: seq<T>)
    requires multiset(t) == multiset(s)
    ensures forall x | x in t :: x in s
  {
    forall x | x in t
      ensures x in s
    {
      assert x in multiset(t);
    }
  }

  method DoLook<V(!new)>(t: Table<V>, key: string, ghost s: Pairs<V>, ghost order: (string, string) -> int)
    returns (a: Answer<V>)
    requires t.Valid() && Matches(t.order, s)
    ensures t.Valid() && Matches(t.order, s) && (s, a) == Step(s, Look(key), order)
  {
    hide Table.Valid;
    KeysOf(t);
    var out := t.Find(key);
    PositionOf(t.order, s, out, key);
    a := if out == null then Missing else Found(out.value);
  }

  method DoArrange<V(!new)>(t: Table<V>, order: (string, string) -> int, ghost s: Pairs<V>)
    returns (a: Answer<V>, ghost s': Pairs<V>)
    requires t.Valid() && Matches(t.order, s)
    modifies t, t.order
    ensures t.Valid() && Matches(t.order, s') && (s', a) == Step(s, Arrange, order)
    ensures Doublings(t) <= old(Doublings(t))
    ensures t.buckets == old(t.buckets) && t.bloomBv == old(t.bloomBv)
    ensures forall e | e in t.order :: e in old(t.order)
  {
    hide Table.Valid, SortFrom;
    ghost var es := t.order;
    KeysOf(t);
    SortMembers(es, 1, ElemByKey(order));
    SameMembers(es, SortFrom(es, 1, ElemByKey(order)));
    t.Sort(ElemByKey(order));
    SortMatches(es, s, 1, order);
    a, s' := Done, SortFrom(s, 1, ByKey(order));
    KeysOf(t);
  }

  method DoOp<V(!new)>(t: Table<V>, op: Op<V>, order: (string, string) -> int, ghost s: Pairs<V>)
    returns (a: Answer<V>, ghost s': Pairs<V>)
    requires t.Valid() && Matches(t.order, s)
    modifies t, t.buckets, t.bloomBv, t.order
    ensures t.Valid() && Matches(t.order, s') && (s', a) == Step(s, op, order)
    ensures Doublings(t) <= old(Doublings(t)) + if op.Put? && a.Done? && |s'| >= 10 then 1 else 0
    ensures (t.buckets == old(t.buckets) || fresh(t.buckets)) && (t.bloomBv == old(t.bloomBv) || fresh(t.bloomBv))
    ensures forall e | e in t.order :: e in old(t.order) || fresh(e)
  {
    hide Table.Valid, Matches, Step;
    match op {
      case Put(key, value) => a, s' := DoPut(t, key, value, s, order);
      case Drop(key) => a, s' := DoDrop(t, key, s, order);
      case Look(key) =>
        a := DoLook(t, key, s, order);
        s' := s;
      case Arrange => a, s' := DoArrange(t, order, s);
    }
  }

  /** Iterate the table in application order. */
  method Contents<V(!new)>(t: Table<V>, ghost s: Pairs<V>) returns (r: Pairs<V>)
    requires t.Valid() && Matches(t.order, s)
    ensures r == s && t.Valid()
  {
    var e := t.head;
    r := [];
    while e != null
      invariant |r| <= |s| && e == (if |r| < |s| then t.order[|r|] else null)
      invariant r == s[..|r|]
      decreases |s| - |r|
    {
      r := r + [(e.key, e.value)];
      e := e.next;
    }
  }

  /**
   Any history of a table, from its creation, gives the answers and leaves the
   contents that the sequence of pairs gives and leaves, whatever the hash
   function and with or without a Bloom filter; and its buckets are doubled at
   most once for each put that leaves ten pairs or more.
   */
  method RunTable<V(!new)>(hash: string -> nat, bloomSize: BloomSize, ops: seq<Op<V>>, order: (string, string) -> int)
    returns (contents: Pairs<V>, answers: seq<Answer<V>>, size: nat)
    ensures (contents, answers) == Run([], ops, order)
    ensures if contents == [] then size == 0 else 32 <= size <= 32 * Pow2(CrowdedPuts(ops, order))
    ensures contents != [] && NeverTen(ops, order) ==> size == 32
  {
    hide Table.Valid, Step, Table.OrderOk, Pow2, NeverTen;
    var t := new Table<V>(hash, bloomSize);
    ghost var s: Pairs<V> := [];
    answers := [];
    for i := 0 to |ops|
      invariant t.Valid() && Matches(t.order, s)
      invariant (s, answers) == Run([], ops[..i], order) && Doublings(t) <= CrowdedPuts(ops[..i], order)
      invariant fresh(t) && fresh(t.buckets) && fresh(t.bloomBv) && fresh(t.order)
    {
      var a;
      ghost var es := t.order;
      a, s := DoOp(t, ops[i], order, s);
      assert forall j | 0 <= j < |t.order| :: t.order[j] in es || fresh(t.order[j]);
      answers := answers + [a];
      assert ops[..i + 1][..i] == ops[..i];
    }
    assert ops[..|ops|] == ops;
    contents := Contents(t, s);
    size := SizeOf(t, CrowdedPuts(ops, order));
    if NeverTen(ops, order) {
      NeverCrowded(ops, order);
      NoDoubling();
    }
  }

  lemma NoDoubling()
    ensures Pow2(0) == 1
  {
  }

  lemma {:induction false} PowMonotone(m: nat, n: nat)
    requires m <= n
    ensures 1 <= Pow2(m) <= Pow2(n)
  {
    if m < n {
      PowMonotone(m, n - 1);
    } else if m > 0 {
      PowMonotone(m - 1, n - 1);
    }
  }

  /** The number of buckets, if there is a table. */
  method SizeOf<V(!new)>(t: Table<V>, ghost n: nat) returns (size: nat)
    requires t.Valid() && Doublings(t) <= n
    ensures if t.order == [] then size == 0 else 32 <= size <= 32 * Pow2(n)
  {
    hide Pow2;
    if t.head == null {
      return 0;
    }
    t.Shape();
    PowMonotone(0, t.expansions);
    PowMonotone(t.expansions, n);
    size := t.numBuckets;
  }
}
