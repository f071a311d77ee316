/** The records of a whole registry, and what a change to one of them does to the rest. */
module Entries {
  import opened Sequences
  import opened Elements
  import opened Trailing
  import opened Registry
  import Hub

  ghost function NodesOf(es: seq<Entry>): set<NpNode>
    reads es
  {
    set i, j | 0 <= i < |es| && 0 <= j < |es[i].nodes| :: es[i].nodes[j]
  }

  ghost predicate EntriesOk(es: seq<Entry>)
    reads es, NodesOf(es)
  {
    && Distinct(es)
    && (forall i | 0 <= i < |es| :: es[i].Valid())
    && (forall i, j, n | 0 <= i < |es| && 0 <= j < |es| && i != j && n in es[i].nodes :: n !in es[j].nodes)
  }

  /** The abstract registry: names from the keys, providers from the records. */
  ghost function AppsOf(keys: seq<string>, es: seq<Entry>): Apps
    requires |keys| == |es|
    reads es
  {
    seq(|es|, i requires 0 <= i < |es| reads es => App(keys[i], es[i].Names()))
  }

  lemma LookupIs(keys: seq<string>, es: seq<Entry>, i: nat, app: string)
    requires |keys| == |es| && i <= |es| && (forall j | 0 <= j < i :: keys[j] != app)
    requires i < |es| ==> keys[i] == app
    ensures Lookup(AppsOf(keys, es), app) == i
  {
    var r := AppsOf(keys, es);
    var l := Lookup(r, app);
    assert l < |r| ==> r[l].name == keys[l];
    assert i < |r| ==> r[i].name == keys[i];
  }

  lemma EntriesAppend(es: seq<Entry>, e: Entry)
    requires EntriesOk(es) && e !in es && e.Valid() && forall n | n in e.nodes :: n !in NodesOf(es)
    ensures EntriesOk(es + [e])
  {
    var fs := es + [e];
    forall i, j, n | 0 <= i < |fs| && 0 <= j < |fs| && i != j && n in fs[i].nodes
      ensures n !in fs[j].nodes
    {
      if i < |es| && j == |es| {
        var k :| 0 <= k < |es[i].nodes| && es[i].nodes[k] == n;
        assert n in NodesOf(es);
      }
    }
  }

  lemma EntriesDrop(es: seq<Entry>, k: nat)
    requires EntriesOk(es) && k < |es|
    ensures EntriesOk(Drop(es, k))
  {
    var fs := Drop(es, k);
    assert forall i | 0 <= i < |fs| :: fs[i] == es[if i < k then i else i + 1];
  }

  lemma AppsAppend(keys: seq<string>, es: seq<Entry>, key: string, e: Entry)
    requires |keys| == |es|
    ensures AppsOf(keys + [key], es + [e]) == AppsOf(keys, es) + [App(key, e.Names())]
  {
  }

  lemma AppsDrop(keys: seq<string>, es: seq<Entry>, k: nat)
    requires |keys| == |es| && k < |es|
    ensures AppsOf(Drop(keys, k), Drop(es, k)) == Drop(AppsOf(keys, es), k)
  {
  }

  lemma NamesDrop(ns: seq<NpNode>, k: nat)
    requires k < |ns|
    ensures NamesOf(Drop(ns, k)) == Drop(NamesOf(ns), k)
  {
  }

  /** A change to record `k` and its nodes, or nodes new to the registry, leaves the other records alone. */
  twostate lemma OneChanged(new es: seq<Entry>, new k: nat)
    requires old(allocated(es))
    requires k < |es| && old(EntriesOk(es)) && es[k].Valid()
    requires forall i {:trigger es[i]} | 0 <= i < |es| && i != k :: unchanged(es[i])
    requires forall n | n in old(NodesOf(es)) && n !in old(es[k].nodes) :: n.next == old(n.next)
    requires forall n | n in es[k].nodes :: n in old(es[k].nodes) || n !in old(NodesOf(es))
    ensures EntriesOk(es)
    ensures forall i | 0 <= i < |es| && i != k :: es[i].nodes == old(es[i].nodes) && es[i].npCount == old(es[i].npCount)
  {
    forall i | 0 <= i < |es| && i != k
      ensures es[i].Valid() && forall n | n in es[i].nodes :: n in old(NodesOf(es)) && n !in old(es[k].nodes)
    {
      assert es[i].nodes == old(es[i].nodes) && old(es[i].Valid());
      assert forall j | 0 <= j < |es[i].nodes| :: es[i].nodes[j] in old(NodesOf(es));
    }
  }

  /** Records none of which was written are still in order. */
  twostate lemma Untouched(new es: seq<Entry>)
    requires old(allocated(es)) && old(EntriesOk(es))
    requires forall i | 0 <= i < |es| ::
      es[i].npListHead == old(es[i].npListHead) && es[i].npCount == old(es[i].npCount) && es[i].nodes == old(es[i].nodes)
    requires forall i, j | 0 <= i < |es| && 0 <= j < |es[i].nodes| :: es[i].nodes[j].next == old(es[i].nodes[j].next)
    ensures EntriesOk(es) && NodesOf(es) == old(NodesOf(es))
    ensures forall keys | |keys| == |es| :: AppsOf(keys, es) == old(AppsOf(keys, es))
  {
    forall i | 0 <= i < |es|
      ensures es[i].Valid() && forall n | n in es[i].nodes :: n in old(NodesOf(es))
    {
      assert es[i].nodes == old(es[i].nodes) && old(es[i].Valid());
      assert forall j | 0 <= j < |es[i].nodes| :: es[i].nodes[j] in old(NodesOf(es));
    }
    forall keys | |keys| == |es|
      ensures AppsOf(keys, es) == old(AppsOf(keys, es))
    {
      assert forall i | 0 <= i < |es| :: es[i].Names() == old(es[i].Names());
    }
  }

  /**
   What np_count is: in the hash registry the length of the trailing list, one
   more if the application came without a provider; in the list registry the
   length, one less if it came with one.
   */
  ghost predicate CountsOk(es: seq<Entry>, hashed: bool)
    reads es
  {
    forall i | 0 <= i < |es| ::
      es[i].npCount == |es[i].nodes| + if hashed == es[i].bare then (if hashed then 1 else -1) else 0
  }

  /** The records and their nodes are all in `repr`. */
  ghost predicate RecordsIn(es: seq<Entry>, repr: set<object>)
    reads es
  {
    && (forall i | 0 <= i < |es| :: es[i] in repr)
    && (forall i, j | 0 <= i < |es| && 0 <= j < |es[i].nodes| :: es[i].nodes[j] in repr)
  }

  ghost predicate RecordsOk(es: seq<Entry>, repr: set<object>, hashed: bool)
    reads es, NodesOf(es)
  {
    EntriesOk(es) && RecordsIn(es, repr) && CountsOk(es, hashed)
  }

  lemma RecordsApart(es: seq<Entry>, repr: set<object>, hashed: bool, other: set<object>)
    requires RecordsOk(es, repr, hashed) && repr !! other
    ensures forall i | 0 <= i < |es| :: es[i] !in other
    ensures forall i, j | 0 <= i < |es| && 0 <= j < |es[i].nodes| :: es[i].nodes[j] !in other
  {
  }

  /** The same for records with their counts. */
  twostate lemma RecordsUntouched(new es: seq<Entry>, new repr: set<object>, new hashed: bool)
    requires old(allocated(es)) && old(allocated(repr)) && old(RecordsOk(es, repr, hashed))
    requires forall i | 0 <= i < |es| ::
      es[i].npListHead == old(es[i].npListHead) && es[i].npCount == old(es[i].npCount) && es[i].nodes == old(es[i].nodes)
    requires forall i, j | 0 <= i < |es| && 0 <= j < |es[i].nodes| :: es[i].nodes[j].next == old(es[i].nodes[j].next)
    ensures RecordsOk(es, repr, hashed)
    ensures forall keys | |keys| == |es| :: AppsOf(keys, es) == old(AppsOf(keys, es))
  {
    Untouched(es);
  }

  /** The abstract registry after record `k` has changed and no other. */
  lemma AppsChanged(keys: seq<string>, was: Apps, es: seq<Entry>, k: nat)
    requires |keys| == |es| == |was| && k < |es|
    requires forall i | 0 <= i < |es| :: was[i].name == keys[i] && (i != k ==> was[i].nps == es[i].Names())
    ensures AppsOf(keys, es) == was[k := App(keys[k], es[k].Names())]
  {
  }

  lemma RecordAt(es: seq<Entry>, k: nat, repr: set<object>, hashed: bool)
    requires RecordsOk(es, repr, hashed) && k < |es|
    ensures EntriesOk(es) && es[k].Valid() && es[k] in repr
    ensures forall j | 0 <= j < |es[k].nodes| :: es[k].nodes[j] in NodesOf(es) && es[k].nodes[j] in repr
    ensures NodesOf(es) <= repr
    ensures hashed && !es[k].bare ==> es[k].npCount == |es[k].nodes|
  {
  }

  /** A change to record `k` that moves its count with its length keeps all records in order. */
  twostate lemma RecordChanged(new es: seq<Entry>, new k: nat, new was: set<object>, new repr: set<object>, new hashed: bool)
    requires old(allocated(es)) && old(allocated(was))
    requires k < |es| && old(RecordsOk(es, was, hashed)) && es[k].Valid() && was <= repr
    requires forall i | 0 <= i < |es| && i != k :: unchanged(es[i])
    requires forall n | n in old(NodesOf(es)) && n !in old(es[k].nodes) :: n.next == old(n.next)
    requires forall n | n in es[k].nodes :: n in repr && (n in old(es[k].nodes) || n !in old(NodesOf(es)))
    requires es[k].npCount - |es[k].nodes| == old(es[k].npCount - |es[k].nodes|)
    ensures RecordsOk(es, repr, hashed)
    ensures forall i | 0 <= i < |es| && i != k :: es[i].nodes == old(es[i].nodes)
  {
    OneChanged(es, k);
    assert forall i | 0 <= i < |es| && i != k :: es[i].npCount == old(es[i].npCount);
  }

  /** A record new to the registry. */
  lemma RecordsAppend(es: seq<Entry>, n: Entry, was: set<object>, repr: set<object>, hashed: bool)
    requires RecordsOk(es, was, hashed) && was <= repr && n !in es && n in repr && n.Valid()
    requires n.npCount == |n.nodes| + if hashed == n.bare then (if hashed then 1 else -1) else 0
    requires forall j | 0 <= j < |n.nodes| :: n.nodes[j] in repr && n.nodes[j] !in NodesOf(es)
    ensures RecordsOk(es + [n], repr, hashed)
  {
    EntriesAppend(es, n);
  }

  lemma RecordsDrop(es: seq<Entry>, k: nat, repr: set<object>, hashed: bool)
    requires RecordsOk(es, repr, hashed) && k < |es|
    ensures RecordsOk(Drop(es, k), repr, hashed)
  {
    EntriesDrop(es, k);
    var fs := Drop(es, k);
    assert forall i | 0 <= i < |fs| :: fs[i] == es[if i < k then i else i + 1];
  }

  lemma RecordsDisjoint(es: seq<Entry>, repr: set<object>, hashed: bool, npTemp: NpNode?)
    requires RecordsOk(es, repr, hashed) && npTemp !in repr
    ensures EntriesOk(es) && npTemp != null ==> npTemp !in NodesOf(es)
  {
  }

  ghost function Opt(n: NpNode?): set<object> {
    if n == null then {} else {n}
  }

  /** AddNp on record `k`. */
  method AddAt(e: Entry, npTemp: NpNode, ghost es: seq<Entry>, ghost k: nat, ghost repr: set<object>, ghost hashed: bool)
    returns (ret: int)
    requires k < |es| && es[k] == e && RecordsOk(es, repr, hashed) && npTemp !in repr && npTemp.next == null
    modifies e, e.nodes
    ensures RecordsOk(es, repr + {npTemp}, hashed)
    ensures forall i | 0 <= i < |es| && i != k :: es[i].nodes == old(es[i].nodes)
    ensures ret == if npTemp.name in old(e.Names()) then -1 else 0
    ensures e.Names() == if ret == 0 then old(e.Names()) + [npTemp.name] else old(e.Names())
  {
    hide RecordsOk;
    RecordAt(es, k, repr, hashed);
    ret := e.AddNp(npTemp);
    RecordChanged(es, k, repr, repr + {npTemp}, hashed);
  }

  /** Registration of a known application with a further provider. */
  method AddTo(e: Entry, npTemp: NpNode,
    ghost keys: seq<string>, ghost es: seq<Entry>, ghost k: nat, ghost repr: set<object>, ghost hashed: bool)
    returns (ret: int)
    requires |keys| == |es| && k < |es| && es[k] == e && RecordsOk(es, repr, hashed)
    requires npTemp !in repr && npTemp.next == null
    modifies e, e.nodes
    ensures RecordsOk(es, repr + {npTemp}, hashed)
    ensures var r := old(AppsOf(keys, es));
      if npTemp.name in r[k].nps then ret == -1 && AppsOf(keys, es) == r
      else ret == 0 && AppsOf(keys, es) == r[k := App(r[k].name, r[k].nps + [npTemp.name])]
  {
    hide RecordsOk;
    ghost var was := AppsOf(keys, es);
    assert was[k] == App(keys[k], e.Names());
    ret := AddAt(e, npTemp, es, k, repr, hashed);
    AppsChanged(keys, was, es, k);
  }

  /** DelChecked on record `k`. */
  method CutAt(e: Entry, np: string, ghost es: seq<Entry>, ghost k: nat, ghost repr: set<object>, ghost hashed: bool)
    returns (ret: int)
    requires k < |es| && es[k] == e && RecordsOk(es, repr, hashed) && e.nodes != []
    modifies e, e.nodes
    ensures RecordsOk(es, repr, hashed)
    ensures forall i | 0 <= i < |es| && i != k :: es[i].nodes == old(es[i].nodes)
    ensures var i := Find(old(e.Names()), np);
      if i < |old(e.Names())| then ret == 0 && e.Names() == Drop(old(e.Names()), i) else ret == -1 && e.Names() == old(e.Names())
  {
    hide RecordsOk;
    RecordAt(es, k, repr, hashed);
    ghost var ns, i := e.nodes, Find(e.Names(), np);
    ret := e.DelChecked(np);
    if i < |ns| { NamesDrop(ns, i); }
    RecordChanged(es, k, repr, repr, hashed);
  }

  /** Removal of a provider as the hash registry does it. */
  method CutFrom(e: Entry, np: string,
    ghost keys: seq<string>, ghost es: seq<Entry>, ghost k: nat, ghost repr: set<object>, ghost hashed: bool)
    returns (ret: int)
    requires |keys| == |es| && k < |es| && es[k] == e && RecordsOk(es, repr, hashed) && AppsOf(keys, es)[k].nps != []
    modifies e, e.nodes
    ensures RecordsOk(es, repr, hashed)
    ensures var r := old(AppsOf(keys, es)); var i := Find(r[k].nps, np);
      if i < |r[k].nps| then ret == 0 && AppsOf(keys, es) == WithoutNp(r, k, i) else ret == -1 && AppsOf(keys, es) == r
  {
    hide RecordsOk;
    ghost var was := AppsOf(keys, es);
    assert was[k] == App(keys[k], e.Names());
    ret := CutAt(e, np, es, k, repr, hashed);
    AppsChanged(keys, was, es, k);
  }

  /** DelLone on record `k`. */
  method CutLoneAt(e: Entry, np: string, ghost es: seq<Entry>, ghost k: nat, ghost repr: set<object>, ghost hashed: bool)
    returns (ret: int)
    requires k < |es| && es[k] == e && RecordsOk(es, repr, hashed)
    modifies e, e.nodes
    ensures RecordsOk(es, repr, hashed)
    ensures forall i | 0 <= i < |es| && i != k :: es[i].nodes == old(es[i].nodes)
    ensures var i := if |old(e.Names())| == 1 then 0 else Find(old(e.Names()), np);
      if i < |old(e.Names())| then ret == 0 && e.Names() == Drop(old(e.Names()), i) else ret == -1 && e.Names() == old(e.Names())
  {
    hide RecordsOk;
    RecordAt(es, k, repr, hashed);
    ghost var ns, i := e.nodes, if |e.nodes| == 1 then 0 else Find(e.Names(), np);
    ret := e.DelLone(np);
    if i < |ns| { NamesDrop(ns, i); }
    RecordChanged(es, k, repr, repr, hashed);
  }

  /** Removal of a provider as the list registry does it. */
  method CutLone(e: Entry, np: string,
    ghost keys: seq<string>, ghost es: seq<Entry>, ghost k: nat, ghost repr: set<object>, ghost hashed: bool)
    returns (ret: int)
    requires |keys| == |es| && k < |es| && es[k] == e && RecordsOk(es, repr, hashed)
    modifies e, e.nodes
    ensures RecordsOk(es, repr, hashed)
    ensures var r := old(AppsOf(keys, es)); var i := if |r[k].nps| == 1 then 0 else Find(r[k].nps, np);
      if i < |r[k].nps| then ret == 0 && AppsOf(keys, es) == WithoutNp(r, k, i) else ret == -1 && AppsOf(keys, es) == r
  {
    hide RecordsOk;
    ghost var was := AppsOf(keys, es);
    assert was[k] == App(keys[k], e.Names());
    ret := CutLoneAt(e, np, es, k, repr, hashed);
    AppsChanged(keys, was, es, k);
  }

  lemma SweepNeeds(ns: seq<NpNode>, np: string, flag: bool)
    requires flag ==> Hub.SweepApp(NamesOf(ns), np, flag).Some?
    ensures flag && Find(NamesOf(ns), np) == |ns| ==> |ns| == 1
  {
  }

  lemma SweepNames(ns: seq<NpNode>, left: seq<NpNode>, np: string, flag: bool, stop: bool)
    requires var i := Find(NamesOf(ns), np);
      && (stop <==> !flag && i == |ns|) && (flag && i == |ns| ==> |ns| == 1)
      && left == if stop then ns else if i < |ns| then Drop(ns, i) else []
    ensures var out := Hub.SweepApp(NamesOf(ns), np, flag);
      && (stop <==> out.None?) && NamesOf(left) == if stop then NamesOf(ns) else out.value
  {
    var i := Find(NamesOf(ns), np);
    if i < |ns| { NamesDrop(ns, i); }
  }

  /** SweepTurn on record `k`. */
  method SweepAt(e: Entry, np: string, flag: bool, q: NpNode?, ghost es: seq<Entry>, ghost k: nat, ghost repr: set<object>)
    returns (stop: bool, b: NpNode?)
    requires k < |es| && es[k] == e && RecordsOk(es, repr, true) && !e.bare
    requires flag ==> Hub.SweepApp(e.Names(), np, flag).Some?
    modifies e, e.nodes
    ensures RecordsOk(es, repr, true)
    ensures forall i | 0 <= i < |es| && i != k :: es[i].nodes == old(es[i].nodes)
    ensures var out := Hub.SweepApp(old(e.Names()), np, flag);
      && (stop <==> out.None?) && e.Names() == if stop then old(e.Names()) else out.value
  {
    hide RecordsOk, Hub.SweepApp, NamesOf, Find;
    RecordAt(es, k, repr, true);
    ghost var ns := e.nodes;
    SweepNeeds(ns, np, flag);
    stop, b := e.SweepTurn(np, flag, q);
    SweepNames(ns, e.nodes, np, flag, stop);
    RecordChanged(es, k, repr, repr, true);
  }

  /** The turn of unregister_np on the record at `k`. */
  method SweepFrom(e: Entry, np: string, flag: bool, q: NpNode?,
    ghost keys: seq<string>, ghost es: seq<Entry>, ghost k: nat, ghost repr: set<object>)
    returns (stop: bool, b: NpNode?)
    requires |keys| == |es| && k < |es| && es[k] == e && RecordsOk(es, repr, true) && !e.bare
    requires flag ==> Hub.SweepApp(AppsOf(keys, es)[k].nps, np, flag).Some?
    modifies e, e.nodes
    ensures RecordsOk(es, repr, true)
    ensures var r := old(AppsOf(keys, es)); var out := Hub.SweepApp(r[k].nps, np, flag);
      && (stop <==> out.None?)
      && AppsOf(keys, es) == if stop then r else r[k := App(r[k].name, out.value)]
  {
    hide RecordsOk, Hub.SweepApp;
    ghost var was := AppsOf(keys, es);
    assert was[k] == App(keys[k], e.Names());
    stop, b := SweepAt(e, np, flag, q, es, k, repr);
    AppsChanged(keys, was, es, k);
  }
}
