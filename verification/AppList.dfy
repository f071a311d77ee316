/** The list registry of applications: a circular list of records. */
module AppList {
  import opened Sequences
  import opened Elements
  import opened Trailing
  import opened Circular
  import opened Registry
  import opened Entries

  ghost function DataOf(s: seq<Node<Entry>>): seq<string> {
    seq(|s|, i requires 0 <= i < |s| => s[i].data)
  }

  ghost function ValuesOf(s: seq<Node<Entry>>): seq<Entry> {
    seq(|s|, i requires 0 <= i < |s| => s[i].value)
  }

  class AppDcll {
    const list: List<Entry>
    ghost var repr: set<object>

    ghost predicate ListIn()
      reads this, list, list.order
    {
      && this in repr && list in repr
      && (forall i | 0 <= i < |list.order| :: list.order[i] in repr)
      && list.Valid() && NoDup(DataOf(list.order))
    }

    ghost predicate Valid()
      reads this, list, list.order, ValuesOf(list.order), NodesOf(ValuesOf(list.order))
    {
      ListIn() && RecordsOk(ValuesOf(list.order), repr, false)
    }

    ghost function View(): Apps
      reads list, ValuesOf(list.order)
    {
      AppsOf(DataOf(list.order), ValuesOf(list.order))
    }

    constructor ()
      ensures Valid() && View() == [] && fresh(repr)
    {
      list := new List<Entry>();
      new;
      repr := {this, list};
    }

    /** search_app, and where the node is. */
    method SearchApp(app: string) returns (s: Node?<Entry>, ghost k: nat)
      requires Valid()
      ensures Valid() && View() == old(View())
      ensures k == Lookup(View(), app) <= |list.order| == |View()|
      ensures if s == null then k == |list.order| else k < |list.order| && s == list.order[k]
    {
      hide Lookup;
      s := list.Search(app);
      k := |list.order|;
      if s != null {
        k :| 0 <= k < |list.order| && list.order[k] == s;
        assert forall j | 0 <= j < k :: DataOf(list.order)[j] != DataOf(list.order)[k];
      }
      LookupIs(DataOf(list.order), ValuesOf(list.order), k, app);
    }

    /** Linking of a new node; it writes no record. */
    method LinkNode(n: Node<Entry>)
      requires ListIn() && Lookup(View(), n.data) == |View()| && n in repr && n !in list.order
      modifies list, list.order, n
      ensures ListIn()
      ensures DataOf(list.order) == old(DataOf(list.order)) + [n.data]
      ensures ValuesOf(list.order) == old(ValuesOf(list.order)) + [n.value]
      ensures forall x: Entry {:trigger x.nodes} | old(allocated(x)) ::
        x.npListHead == old(x.npListHead) && x.npCount == old(x.npCount) && x.nodes == old(x.nodes)
      ensures forall x: NpNode {:trigger x.next} | old(allocated(x)) :: x.next == old(x.next)
    {
      hide Lookup, Ring;
      assert forall i | 0 <= i < |list.order| :: View()[i].name == list.order[i].data;
      list.InsertLast(n);
    }

    /** A new record and its node. */
    method AddNode(app: string, npTemp: NpNode?) returns (e: Entry)
      requires ListIn() && Lookup(View(), app) == |View()|
      requires npTemp != null ==> npTemp.next == null
      modifies list, list.order, this`repr
      ensures ListIn() && old(repr) <= repr && fresh(repr - old(repr) - {npTemp})
      ensures fresh(e) && e in repr && e.Valid() && e.nodes == (if npTemp == null then [] else [npTemp])
      ensures (npTemp != null ==> npTemp in repr) && e.npCount == 0 && e.bare == (npTemp == null)
      ensures DataOf(list.order) == old(DataOf(list.order)) + [app]
      ensures ValuesOf(list.order) == old(ValuesOf(list.order)) + [e]
      ensures forall x: Entry {:trigger x.nodes} | old(allocated(x)) ::
        x.npListHead == old(x.npListHead) && x.npCount == old(x.npCount) && x.nodes == old(x.nodes)
      ensures forall x: NpNode {:trigger x.next} | old(allocated(x)) :: x.next == old(x.next)
    {
      hide Lookup, Ring;
      e := new Entry(npTemp);
      var n := new Node(app, e);
      repr := repr + {e, n} + Opt(npTemp);
      assert View() == old(View());
      LinkNode(n);
    }

    /** The branch for an application not seen before. */
    method AddNew(app: string, npTemp: NpNode?)
      requires Valid() && Lookup(View(), app) == |View()|
      requires npTemp != null ==> npTemp.next == null && npTemp !in repr
      modifies repr
      ensures Valid() && View() == old(View()) + [App(app, if npTemp == null then [] else [npTemp.name])]
      ensures old(repr) <= repr && fresh(repr - old(repr) - {npTemp})
    {
      hide AppsOf, Lookup, RecordsIn, CountsOk, Ring;
      ghost var es, keys, was := ValuesOf(list.order), DataOf(list.order), repr;
      RecordsDisjoint(es, repr, false, npTemp);
      var e := AddNode(app, npTemp);
      Untouched(es);
      RecordsAppend(es, e, was, repr, false);
      AppsAppend(keys, es, app, e);
      assert e.Names() == if npTemp == null then [] else [npTemp.name];
    }

    ghost method Own(n: NpNode)
      requires RecordsOk(ValuesOf(list.order), repr + {n}, false)
      modifies this`repr
      ensures repr == old(repr) + {n} && RecordsOk(ValuesOf(list.order), repr, false)
    {
      repr := repr + {n};
    }

    /** The branch for a known application, at position `k`. */
    method AddKnown(s: Node<Entry>, npTemp: NpNode, ghost k: nat) returns (ret: int)
      requires Valid() && k < |list.order| && s == list.order[k]
      requires npTemp.next == null && npTemp !in repr
      modifies repr
      ensures Valid() && old(repr) <= repr && fresh(repr - old(repr) - {npTemp})
      ensures var r := old(View());
        if npTemp.name in r[k].nps then ret == -1 && View() == r
        else ret == 0 && View() == r[k := App(r[k].name, r[k].nps + [npTemp.name])]
    {
      hide Ring, AppsOf, RecordsOk;
      ghost var es, keys := ValuesOf(list.order), DataOf(list.order);
      RecordAt(es, k, repr, false);
      ret := AddTo(s.value, npTemp, keys, es, k, repr, false);
      Own(npTemp);
    }

    /** add_app_ref; `np` is the name or the null pointer. */
    method AddAppRef(app: string, np: Option<string>) returns (ret: int)
      requires Valid() && Add(View(), app, np).Ok?
      modifies repr
      ensures Valid() && Ok(View(), ret) == Add(old(View()), app, np)
      ensures fresh(repr - old(repr))
    {
      hide Ring, Lookup;
      var npTemp: NpNode? := null;
      if np.Some? {
        npTemp := new NpNode(np.value);
      }
      var s, k := SearchApp(app);
      if s == null {
        AddNew(app, npTemp);
        ret := 0;
      } else {
        ret := AddKnown(s, npTemp, k);
      }
    }

    /** Unlinking of the node at position `k`; it writes no record. */
    method DropNode(s: Node<Entry>, ghost k: nat)
      requires ListIn() && k < |list.order| && s == list.order[k]
      modifies list, list.order
      ensures ListIn()
      ensures DataOf(list.order) == Drop(old(DataOf(list.order)), k)
      ensures ValuesOf(list.order) == Drop(old(ValuesOf(list.order)), k)
      ensures forall x: Entry {:trigger x.nodes} | old(allocated(x)) ::
        x.npListHead == old(x.npListHead) && x.npCount == old(x.npCount) && x.nodes == old(x.nodes)
      ensures forall x: NpNode {:trigger x.next} | old(allocated(x)) :: x.next == old(x.next)
    {
      DropNoDup(DataOf(list.order), k);
      list.Remove(s, k);
      assert DataOf(list.order) == Drop(old(DataOf(list.order)), k);
    }

    /** The branch for a null name: the whole application goes. */
    method DelApp(s: Node<Entry>, ghost k: nat)
      requires Valid() && k < |list.order| && s == list.order[k]
      modifies repr
      ensures Valid() && View() == Drop(old(View()), k) && repr == old(repr)
    {
      hide Ring, AppsOf, RecordsIn, CountsOk;
      ghost var es, keys := ValuesOf(list.order), DataOf(list.order);
      DropNode(s, k);
      Untouched(es);
      RecordsDrop(es, k, repr, false);
      AppsDrop(keys, es, k);
    }

    /** The branch for a provider of a known application. */
    method DelNp(s: Node<Entry>, np: string, ghost k: nat) returns (ret: int)
      requires Valid() && k < |list.order| && s == list.order[k]
      modifies repr
      ensures Valid() && repr == old(repr)
      ensures var r := old(View()); var i := if |r[k].nps| == 1 then 0 else Find(r[k].nps, np);
        if i < |r[k].nps| then ret == 0 && View() == WithoutNp(r, k, i) else ret == -1 && View() == r
    {
      hide Ring, AppsOf, RecordsOk;
      ghost var es, keys := ValuesOf(list.order), DataOf(list.order);
      RecordAt(es, k, repr, false);
      ret := CutLone(s.value, np, keys, es, k, repr, false);
    }

    /** search_app, and del_app_ref of what it found; `None` is the null pointer. */
    method DelAppRef(app: string, np: Option<string>) returns (ret: int)
      requires Valid()
      modifies repr
      ensures Valid() && Ok(View(), ret) == DelList(old(View()), app, np) && repr == old(repr)
    {
      hide Valid, View, Lookup, Find;
      var s, k := SearchApp(app);
      if s == null {
        return -1;
      }
      if np.None? {
        DelApp(s, k);
        ret := 0;
      } else {
        ret := DelNp(s, np.value, k);
      }
    }

    /** The walk of print_app_reg. */
    method Contents() returns (apps: Apps)
      requires Valid()
      ensures apps == old(View())
    {
      var s, i := list.head, list.count;
      apps := [];
      while i != 0
        invariant 0 <= i <= list.count && |apps| == list.count - i && (i > 0 ==> s == list.order[|apps|])
        invariant Valid() && View() == old(View()) && apps == View()[..|apps|]
      {
        RecordAt(ValuesOf(list.order), |apps|, repr, false);
        var nps := s.value.Collect();
        apps := apps + [App(s.data, nps)];
        s, i := s.next, i - 1;
      }
    }

    /** get_reg_list. */
    method GetReg(app: string, np: string) returns (n: NpNode?)
      requires Valid()
      ensures Valid() && View() == old(View())
      ensures n != null <==> Registered(View(), app, np)
      ensures n != null ==> n.name == np
    {
      hide Ring, Lookup;
      var s, k := SearchApp(app);
      if s == null {
        return null;
      }
      RecordAt(ValuesOf(list.order), k, repr, false);
      n := s.value.Search(np);
      assert View()[k].nps == s.value.Names();
    }
  }
}
