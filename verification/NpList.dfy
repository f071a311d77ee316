/** The list registry of providers: a circular list of the same records. */
module NpList {
  import opened Sequences
  import opened Elements
  import opened Trailing
  import opened Circular
  import opened Hub
  import opened NpHash
  import opened Accounting

  ghost function RecordsOf(s: seq<Node<MainNp>>): seq<MainNp> {
    seq(|s|, i requires 0 <= i < |s| => s[i].value)
  }

  ghost function ListOf(s: seq<Node<MainNp>>): seq<Np>
    reads RecordsOf(s)
  {
    seq(|s|, i requires 0 <= i < |s| reads RecordsOf(s) => NpOf(s[i].data, RecordsOf(s)[i]))
  }

  /** add_np; a provider that is there is replaced, its count forgotten. */
  function Replaced(nps: seq<Np>, np: string, keyVals: seq<string>): seq<Np> {
    WithoutNpAt(nps, np) + [Np(np, keyVals, 0)]
  }

  /** Whatever was registered under the name is gone, the rest is as it was, and the new registration is last. */
  lemma ReplacedMeans(nps: seq<Np>, np: string, keyVals: seq<string>)
    requires NpsProper(nps)
    ensures Replaced(nps, np, keyVals) == Filter(nps, OtherNp(np)) + [Np(np, keyVals, 0)] && NpsProper(Replaced(nps, np, keyVals))
  {
    WithoutIsFilter(nps, np);
    DropNp(nps, np);
    AppendNp(WithoutNpAt(nps, np), Np(np, keyVals, 0));
  }

  class NpDcll {
    const list: List<MainNp>
    ghost var repr: set<object>

    ghost predicate Valid()
      reads this, list, list.order
    {
      && this in repr && list in repr
      && (forall i | 0 <= i < |list.order| :: list.order[i] in repr && list.order[i].value in repr)
      && list.Valid() && Distinct(RecordsOf(list.order))
      && forall i, j | 0 <= i < j < |list.order| :: list.order[i].data != list.order[j].data
    }

    ghost function View(): seq<Np>
      reads list, RecordsOf(list.order)
    {
      ListOf(list.order)
    }

    constructor ()
      ensures Valid() && View() == [] && fresh(repr)
    {
      list := new List<MainNp>();
      new;
      repr := {this, list};
    }

    /** search_np, and where the node is. */
    method SearchNp(np: string) returns (s: Node?<MainNp>, ghost k: nat)
      requires Valid()
      ensures Valid() && View() == old(View())
      ensures k == NpAt(View(), np) <= |list.order| == |View()|
      ensures if s == null then k == |list.order| else k < |list.order| && s == list.order[k]
    {
      hide NpAt;
      s := list.Search(np);
      k := |list.order|;
      if s != null {
        k :| 0 <= k < |list.order| && list.order[k] == s;
      }
      ghost var i := NpAt(View(), np);
      assert k < |View()| ==> View()[k].name == list.order[k].data;
      assert i < |View()| ==> View()[i].name == list.order[i].data;
    }

    /** del_np_node of the node at position `k`. */
    method DelNpNode(s: Node<MainNp>, ghost k: nat)
      requires Valid() && k < |list.order| && s == list.order[k]
      modifies repr
      ensures Valid() && View() == Drop(old(View()), k) && repr == old(repr)
    {
      hide Ring;
      list.Remove(s, k);
      assert forall i | 0 <= i < |list.order| :: RecordsOf(list.order)[i] == RecordsOf(old(list.order))[if i < k then i else i + 1];
    }

    method AddNode(n: Node<MainNp>)
      requires Valid() && NpAt(View(), n.data) == |View()| && n !in repr && n.value !in repr
      modifies repr, n
      ensures Valid() && repr == old(repr) + {n, n.value}
      ensures View() == old(View()) + [NpOf(n.data, n.value)]
    {
      hide Ring, NpAt;
      assert forall i | 0 <= i < |list.order| :: View()[i].name == list.order[i].data;
      repr := repr + {n, n.value};
      list.InsertLast(n);
    }

    /** add_np. */
    method AddNp(np: string, keyVals: seq<string>)
      requires Valid()
      modifies repr
      ensures Valid() && fresh(repr - old(repr))
      ensures View() == Replaced(old(View()), np, keyVals)
    {
      hide Ring, NpAt;
      var temp, k := SearchNp(np);
      ghost var was := View();
      if temp != null {
        DelNpNode(temp, k);
      }
      Gone(was, np);
      var v := new MainNp(keyVals);
      var n := new Node(np, v);
      assert View() == WithoutNpAt(was, np);
      AddNode(n);
    }

    lemma Gone(was: seq<Np>, np: string)
      requires Valid() && View() == WithoutNpAt(was, np)
      requires forall i, j | 0 <= i < j < |was| :: was[i].name != was[j].name
      ensures NpAt(View(), np) == |View()|
    {
      var k := NpAt(was, np);
      forall j | 0 <= j < |View()|
        ensures View()[j].name != np
      {
        assert View()[j] == was[if j < k then j else j + 1];
      }
    }

    /** incr_np_app_cnt and decr_np_app_cnt. */
    method BumpAppCnt(np: string, d: int)
      requires Valid()
      modifies repr
      ensures Valid() && View() == Bump(old(View()), np, d) && repr == old(repr)
    {
      hide Ring, NpAt;
      var s, k := SearchNp(np);
      if s != null {
        ghost var vs, was := RecordsOf(list.order), View();
        assert vs[k] == s.value;
        s.value.appCount := s.value.appCount + d;
        assert forall i | 0 <= i < |vs| && i != k :: vs[i] != vs[k];
        assert View() == was[k := was[k].(appCount := was[k].appCount + d)];
      }
    }

    /** get_np_app_cnt. */
    method GetAppCnt(np: string) returns (count: int)
      requires Valid()
      ensures Valid() && View() == old(View())
      ensures count == if Known(View(), np) then View()[NpAt(View(), np)].appCount else -1
    {
      hide Ring, NpAt;
      var s, k := SearchNp(np);
      if s == null {
        return -1;
      }
      count := s.value.appCount;
    }
  }

  /** The list registry and the hash registry take a registration the same way exactly if the provider is new. */
  lemma SameRegistration(s: State, np: string, keyVals: seq<string>)
    requires NpsProper(s.nps)
    ensures RegisterNp(s, np, keyVals).state.nps == Replaced(s.nps, np, keyVals)
      <==> !Known(s.nps, np) || (NpAt(s.nps, np) == |s.nps| - 1 && s.nps[|s.nps| - 1] == Np(np, keyVals, 0))
  {
    var i, n := NpAt(s.nps, np), |s.nps|;
    var r := Replaced(s.nps, np, keyVals);
    if Known(s.nps, np) {
      assert |r| == n && r[n - 1] == Np(np, keyVals, 0);
      assert i < n - 1 ==> s.nps[n - 1].name != np;
      if i == n - 1 && s.nps[n - 1] == Np(np, keyVals, 0) {
        assert r == s.nps;
      }
    }
  }

  /** A second registration is refused by the one and wipes the count in the other. */
  lemma ReplacedExample()
    ensures RegisterNp(State([], [Np("x", [], 1)]), "x", []) == Done(State([], [Np("x", [], 1)]), -1)
    ensures Replaced([Np("x", [], 1)], "x", []) == [Np("x", [], 0)]
  {
    assert NpAt([Np("x", [], 1)], "x") == 0;
    assert Drop([Np("x", [], 1)], 0) == [];
  }
}
