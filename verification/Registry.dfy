/**
 The registry of applications as both implementations are meant to keep it: an
 ordered map from application names to duplicate-free lists of provider names.
 The two deletions are written down as each implementation performs them.
 */
module Registry {
  import opened Sequences
  import opened Trailing

  datatype Option<T> = None | Some(value: T)

  datatype App = App(name: string, nps: seq<string>)

  type Apps = seq<App>

  /** What a call returns and leaves; `Fault` is a use of a null or unset pointer. */
  datatype Outcome = Ok(apps: Apps, ret: int) | Fault

  /** The position of an application, or the length. */
  function Lookup(r: Apps, name: string): (i: nat)
    ensures i <= |r| && (forall j | 0 <= j < i :: r[j].name != name) && (i < |r| ==> r[i].name == name)
  {
    First(r, (a: App) => a.name, name)
  }

  /** add_app_ref and add_app_ref_hash; `None` is the null pointer. */
  function Add(r: Apps, app: string, np: Option<string>): Outcome {
    var i := Lookup(r, app);
    if i == |r| then Ok(r + [App(app, if np.Some? then [np.value] else [])], 0)
    else if np.None? then Fault
    else if np.value in r[i].nps then Ok(r, -1)
    else Ok(r[i := App(app, r[i].nps + [np.value])], 0)
  }

  function WithoutNp(r: Apps, i: nat, k: nat): Apps
    requires i < |r| && k < |r[i].nps|
  {
    r[i := App(r[i].name, Drop(r[i].nps, k))]
  }

  /** del_app_ref_hash; the empty provider name asks for the whole application. */
  function DelHash(r: Apps, app: string, np: string): Outcome {
    var i := Lookup(r, app);
    if i == |r| then Ok(r, -1)
    else if np == "" then Ok(Drop(r, i), 0)
    else if r[i].nps == [] then Fault
    else
      var k := Find(r[i].nps, np);
      if k < |r[i].nps| then Ok(WithoutNp(r, i, k), 0) else Ok(r, -1)
  }

  /** search_app, then del_app_ref on what it found; `None` asks for the whole application. */
  function DelList(r: Apps, app: string, np: Option<string>): Outcome {
    var i := Lookup(r, app);
    if i == |r| then Ok(r, -1)
    else if np.None? then Ok(Drop(r, i), 0)
    else
      var k := if |r[i].nps| == 1 then 0 else Find(r[i].nps, np.value);
      if k < |r[i].nps| then Ok(WithoutNp(r, i, k), 0) else Ok(r, -1)
  }

  predicate Registered(r: Apps, app: string, np: string) {
    var i := Lookup(r, app);
    i < |r| && np in r[i].nps
  }

  datatype Op =
    | Register(app: string, np: string)
    | Unregister(app: string, np: string)
    | Remove(app: string)
    | Query(app: string, np: string)

  function HashStep(r: Apps, op: Op): Outcome {
    match op
    case Register(app, np) => Add(r, app, Some(np))
    case Unregister(app, np) => DelHash(r, app, np)
    case Remove(app) => DelHash(r, app, "")
    case Query(app, np) => Ok(r, if Registered(r, app, np) then 1 else 0)
  }

  function ListStep(r: Apps, op: Op): Outcome {
    match op
    case Register(app, np) => Add(r, app, Some(np))
    case Unregister(app, np) => DelList(r, app, Some(np))
    case Remove(app) => DelList(r, app, None)
    case Query(app, np) => Ok(r, if Registered(r, app, np) then 1 else 0)
  }

  /**
   The two forms part only on unregistrations: the empty name means something
   else to each, and a list with less than two entries is treated differently.
   */
  predicate Common(r: Apps, op: Op) {
    op.Unregister? ==>
      var i := Lookup(r, op.app);
      i == |r| || (op.np != "" && (op.np in r[i].nps || |r[i].nps| >= 2))
  }

  ghost predicate Proper(r: Apps) {
    && (forall i, j | 0 <= i < j < |r| :: r[i].name != r[j].name)
    && (forall i | 0 <= i < |r| :: NoDup(r[i].nps))
  }

  lemma DropNoDup(s: seq<string>, k: nat)
    requires NoDup(s) && k < |s|
    ensures NoDup(Drop(s, k))
    ensures forall x :: x in Drop(s, k) <==> x in s && x != s[k]
  {
    forall x | x in s && x != s[k]
      ensures x in Drop(s, k)
    {
      var i :| 0 <= i < |s| && s[i] == x;
      assert Drop(s, k)[if i < k then i else i - 1] == x;
    }
  }

  lemma AddProper(r: Apps, app: string, np: Option<string>)
    requires Proper(r)
    ensures Add(r, app, np).Ok? ==> Proper(Add(r, app, np).apps)
  {
  }

  lemma WithoutProper(r: Apps, i: nat, k: nat)
    requires Proper(r) && i < |r| && k < |r[i].nps|
    ensures Proper(WithoutNp(r, i, k))
  {
    DropNoDup(r[i].nps, k);
  }

  lemma DropProper(r: Apps, i: nat)
    requires Proper(r) && i < |r|
    ensures Proper(Drop(r, i))
  {
    assert forall j | 0 <= j < |r| - 1 :: Drop(r, i)[j] == r[if j < i then j else j + 1];
  }

  /** Names stay distinct, and so do the providers of each application, whatever is called. */
  lemma KeepsProper(r: Apps, op: Op)
    requires Proper(r)
    ensures HashStep(r, op).Ok? ==> Proper(HashStep(r, op).apps)
    ensures ListStep(r, op).Ok? ==> Proper(ListStep(r, op).apps)
  {
    hide Proper, Add, Lookup, Find, WithoutNp;
    if op.Register? {
      AddProper(r, op.app, Some(op.np));
    }
    var i := Lookup(r, op.app);
    if i < |r| {
      DropProper(r, i);
      forall k: nat | k < |r[i].nps|
        ensures Proper(WithoutNp(r, i, k))
      {
        WithoutProper(r, i, k);
      }
    }
  }

  lemma FindMember(s: seq<string>, x: string)
    ensures Find(s, x) < |s| <==> x in s
  {
  }

  /** The implementations take the same step exactly on the common calls. */
  lemma SameStep(r: Apps, op: Op)
    requires Proper(r)
    ensures HashStep(r, op) == ListStep(r, op) <==> Common(r, op)
  {
    if op.Unregister? {
      var i := Lookup(r, op.app);
      if i < |r| {
        FindMember(r[i].nps, op.np);
        assert |Drop(r, i)| == |r| - 1;
        if |r[i].nps| == 1 && op.np !in r[i].nps {
          assert Drop(r[i].nps, 0) != r[i].nps;
        }
      }
    }
  }

  /** The lone-node shortcut of del_app_ref forgets a registration it was not asked about. */
  lemma LoneNodeExample()
    ensures ListStep([App("a", ["x"])], Unregister("a", "y")) == Ok([App("a", [])], 0)
    ensures HashStep([App("a", ["x"])], Unregister("a", "y")) == Ok([App("a", ["x"])], -1)
  {
    assert Lookup([App("a", ["x"])], "a") == 0;
    assert Drop(["x"], 0) == [];
  }
}
