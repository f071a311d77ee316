/**
 An application's record: its count and its trailing, singly linked list of the
 providers it registered with.
 */
module Trailing {
  import opened Sequences
  import opened Elements

  class NpNode {
    const name: string
    var next: NpNode?

    constructor (name: string)
      ensures this.name == name && next == null
    {
      this.name := name;
      next := null;
    }
  }

  ghost function NamesOf(ns: seq<NpNode>): seq<string> {
    seq(|ns|, i requires 0 <= i < |ns| => ns[i].name)
  }

  ghost predicate NoDup(s: seq<string>) {
    forall i, j | 0 <= i < j < |s| :: s[i] != s[j]
  }

  /** The first position of `x`, or the length. */
  function Find(s: seq<string>, x: string): (i: nat)
    ensures i <= |s| && (forall j | 0 <= j < i :: s[j] != x) && (i < |s| ==> s[i] == x)
  {
    First(s, (y: string) => y, x)
  }

  class Entry {
    var npListHead: NpNode?
    var npCount: int
    ghost var nodes: seq<NpNode>
    ghost const bare: bool    // created without a provider

    ghost predicate Valid()
      reads this, nodes
    {
      && Distinct(nodes)
      && npListHead == (if nodes == [] then null else nodes[0])
      && (forall i {:trigger nodes[i].next} | 0 <= i < |nodes| :: nodes[i].next == if i == |nodes| - 1 then null else nodes[i + 1])
    }

    ghost function Names(): seq<string>
      reads this
    {
      NamesOf(nodes)
    }

    /** A record whose list is empty or holds just `first`. */
    constructor (first: NpNode?)
      requires first != null ==> first.next == null
      ensures Valid() && npCount == 0
      ensures nodes == (if first == null then [] else [first]) && bare == (first == null)
    {
      npListHead, npCount, bare := first, 0, first == null;
      nodes := if first == null then [] else [first];
    }

    /** The walk of search_reg and get_reg. */
    method Search(npName: string) returns (n: NpNode?)
      requires Valid()
      ensures n == null <==> npName !in Names()
      ensures n != null ==> n in nodes && n.name == npName
    {
      n := npListHead;
      ghost var i := 0;
      while n != null
        invariant i <= |nodes| && n == if i < |nodes| then nodes[i] else null
        invariant forall j | 0 <= j < i :: nodes[j].name != npName
        decreases |nodes| - i
      {
        if n.name == npName {
          assert Names()[i] == npName;
          return;
        }
        n, i := n.next, i + 1;
      }
    }

    /** The walk of the print functions. */
    method Collect() returns (names: seq<string>)
      requires Valid()
      ensures names == Names()
    {
      var n := npListHead;
      names := [];
      while n != null
        invariant |names| <= |nodes| && n == if |names| < |nodes| then nodes[|names|] else null
        invariant names == Names()[..|names|]
        decreases |nodes| - |names|
      {
        names := names + [n.name];
        n := n.next;
      }
    }

    /** Walk to the last node, unless a node of this name is met: the loop of the two add functions. */
    method LastUnless(npName: string) returns (b: NpNode, found: bool)
      requires Valid() && nodes != []
      ensures found <==> npName in Names()
      ensures !found ==> b == nodes[|nodes| - 1]
    {
      var m: NpNode? := npListHead;
      b := npListHead;
      found := false;
      ghost var i := 0;
      while m != null
        invariant i <= |nodes| && m == if i < |nodes| then nodes[i] else null
        invariant b == nodes[if i == 0 then 0 else i - 1]
        invariant forall j | 0 <= j < i :: nodes[j].name != npName
        decreases |nodes| - i
      {
        if m.name == npName {
          assert Names()[i] == npName;
          found := true;
          return;
        }
        b, m, i := m, m.next, i + 1;
      }
    }

    /** Registration with a further provider, as both registries do it for a known application. */
    method AddNp(npTemp: NpNode) returns (ret: int)
      requires Valid() && npTemp !in nodes && npTemp.next == null
      modifies this, nodes
      ensures Valid() && npCount == old(npCount) + if ret == 0 then 1 else 0
      ensures ret == if npTemp.name in old(Names()) then -1 else 0
      ensures nodes == if ret == 0 then old(nodes) + [npTemp] else old(nodes)
    {
      if npListHead == null {
        npListHead := npTemp;
      } else {
        var b, found := LastUnless(npTemp.name);
        if found {
          return -1;
        }
        b.next := npTemp;
      }
      nodes := nodes + [npTemp];
      npCount := npCount + 1;
      ret := 0;
    }

    /** Unlink `m`, which comes after `b`. */
    method CutAfter(b: NpNode, m: NpNode, ghost i: nat)
      requires Valid() && 0 < i < |nodes| && b == nodes[i - 1] && m == nodes[i]
      modifies this`nodes, this`npCount, b
      ensures Valid() && nodes == Drop(old(nodes), i) && npCount == old(npCount) - 1
    {
      b.next := m.next;
      nodes := Drop(nodes, i);
      npCount := npCount - 1;
    }

    /** Unlink the node after the head that has this name, if there is one. */
    method UnlinkAfterHead(npName: string) returns (flag: bool)
      requires Valid() && nodes != [] && nodes[0].name != npName
      modifies this`nodes, this`npCount, nodes
      ensures Valid()
      ensures var i := Find(old(Names()), npName);
        if i < |old(nodes)| then flag && nodes == Drop(old(nodes), i) && npCount == old(npCount) - 1
        else !flag && nodes == old(nodes) && npCount == old(npCount)
    {
      var b: NpNode, m: NpNode? := npListHead, npListHead.next;
      ghost var i, names := 1, Names();
      flag := false;
      while m != null
        invariant 1 <= i <= |nodes| && m == (if i < |nodes| then nodes[i] else null) && b == nodes[i - 1]
        invariant Valid() && nodes == old(nodes) && npCount == old(npCount) && Names() == names && !flag
        invariant forall j | 0 <= j < i :: names[j] != npName
        decreases |nodes| - i
      {
        if m.name == npName {
          FindIs(names, npName, i);
          CutAfter(b, m, i);
          flag := true;
          return;
        }
        b, m, i := m, m.next, i + 1;
      }
    }

    /** The removal part of del_app_ref_hash; it reads the head's name without a check. */
    method DelChecked(npName: string) returns (ret: int)
      requires Valid() && nodes != []
      modifies this, nodes
      ensures Valid()
      ensures var i := Find(old(Names()), npName);
        if i < |old(nodes)| then ret == 0 && nodes == Drop(old(nodes), i) && npCount == old(npCount) - 1
        else ret == -1 && nodes == old(nodes) && npCount == old(npCount)
    {
      FindFirst(Names(), npName);
      if npListHead.name == npName {
        DropHead();
        return 0;
      }
      var flag := UnlinkAfterHead(npName);
      ret := if flag then 0 else -1;
    }

    /** The removal part of del_app_ref; a node that is alone goes whatever its name. */
    method DelLone(npName: string) returns (ret: int)
      requires Valid()
      modifies this, nodes
      ensures Valid()
      ensures var i := if |old(nodes)| == 1 then 0 else Find(old(Names()), npName);
        if i < |old(nodes)| then ret == 0 && nodes == Drop(old(nodes), i) && npCount == old(npCount) - 1
        else ret == -1 && nodes == old(nodes) && npCount == old(npCount)
    {
      if npListHead == null {
        return -1;
      }
      FindFirst(Names(), npName);
      if npListHead.next == null || npListHead.name == npName {
        DropHead();
        return 0;
      }
      var flag := UnlinkAfterHead(npName);
      ret := if flag then 0 else -1;
    }

    /** The search of unregister_np; `q` is what an earlier search has left behind. */
    method Trace(npName: string, q: NpNode?) returns (p: NpNode?, b: NpNode?)
      requires Valid()
      ensures var i := Find(Names(), npName);
        if i == |nodes| then p == null else p == nodes[i] && (i > 0 ==> b == nodes[i - 1])
    {
      p, b := npListHead, q;
      ghost var i := 0;
      while p != null
        invariant i <= |nodes| && p == (if i < |nodes| then nodes[i] else null) && (i > 0 ==> b == nodes[i - 1])
        invariant forall j | 0 <= j < i :: Names()[j] != npName
        decreases |nodes| - i
      {
        if p.name == npName {
          FindIs(Names(), npName, i);
          return;
        }
        b, p, i := p, p.next, i + 1;
      }
      FindNone(Names(), npName);
    }

    /** One turn of unregister_np: search, and removal by the count and by what the search left in `p` and `b`. */
    method SweepTurn(npName: string, flag: bool, q: NpNode?) returns (stop: bool, b: NpNode?)
      requires Valid() && npCount == |nodes|
      requires flag && Find(Names(), npName) == |nodes| ==> |nodes| == 1
      modifies this, nodes
      ensures Valid() && npCount == |nodes|
      ensures stop <==> !flag && Find(old(Names()), npName) == |old(nodes)|
      ensures var i := Find(old(Names()), npName);
        nodes == if stop then old(nodes) else if i < |old(nodes)| then Drop(old(nodes), i) else []
    {
      ghost var i := Find(Names(), npName);
      var p;
      p, b := Trace(npName, q);
      stop := !flag && p == null;
      if stop {
        return;
      }
      if npCount == 1 {
        npListHead := null;
        npCount := npCount - 1;
        nodes := [];
      } else if p == npListHead {
        DropHead();
      } else {
        CutAfter(b, p, i);
      }
    }

    /** Drop the head of the list. */
    method DropHead()
      requires Valid() && nodes != []
      modifies this
      ensures Valid() && nodes == Drop(old(nodes), 0) && npCount == old(npCount) - 1
    {
      npListHead := npListHead.next;
      npCount := npCount - 1;
      nodes := Drop(nodes, 0);
    }
  }

  lemma {:induction false} FindIs(s: seq<string>, x: string, i: nat)
    requires i < |s| && s[i] == x && forall j | 0 <= j < i :: s[j] != x
    ensures Find(s, x) == i
  {
  }

  lemma FindNone(s: seq<string>, x: string)
    requires forall j | 0 <= j < |s| :: s[j] != x
    ensures Find(s, x) == |s|
  {
  }

  lemma FindFirst(s: seq<string>, x: string)
    requires s != []
    ensures Find(s, x) == 0 <==> s[0] == x
  {
  }
}
