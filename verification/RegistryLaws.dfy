/** What the calls of the two registries of applications answer, and which registrations they change. */
module RegistryLaws {
  import opened Sequences
  import opened Trailing
  import opened Registry

  predicate Present(r: Apps, app: string) {
    Lookup(r, app) < |r|
  }

  // Where applications stand after a change

  lemma AfterUpdate(r: Apps, i: nat, nps: seq<string>, a: string, x: string)
    requires i < |r| && i == Lookup(r, r[i].name)
    ensures var t := r[i := App(r[i].name, nps)];
      && (Present(t, a) <==> Present(r, a))
      && (Registered(t, a, x) <==> if a == r[i].name then x in nps else Registered(r, a, x))
  {
    var t := r[i := App(r[i].name, nps)];
    var j, k := Lookup(r, a), Lookup(t, a);
    assert k < |r| ==> r[k].name == a;
    assert j < |r| ==> t[j].name == a;
  }

  lemma AfterAppend(r: Apps, app: App, a: string, x: string)
    requires !Present(r, app.name)
    ensures var t := r + [app];
      && (Present(t, a) <==> Present(r, a) || a == app.name)
      && (Registered(t, a, x) <==> if a == app.name then x in app.nps else Registered(r, a, x))
  {
    var t := r + [app];
    var j, k := Lookup(r, a), Lookup(t, a);
    assert t[|r|] == app;
    assert j < |r| ==> t[j].name == a;
  }

  lemma AfterDrop(r: Apps, i: nat, a: string, x: string)
    requires Proper(r) && i < |r|
    ensures var t := Drop(r, i);
      && (Present(t, a) <==> Present(r, a) && a != r[i].name)
      && (Registered(t, a, x) <==> Registered(r, a, x) && a != r[i].name)
  {
    var t := Drop(r, i);
    var j, k := Lookup(r, a), Lookup(t, a);
    assert k < |t| ==> t[k] == r[if k < i then k else k + 1];
    assert j < |r| && j != i ==> t[if j < i then j else j - 1] == r[j];
  }

  // The answers

  /** A registration is answered 0 exactly if it is new, and is there afterwards in any case. */
  lemma AddMeans(r: Apps, app: string, np: string)
    ensures var out := Add(r, app, Some(np));
      && out.Ok? && Registered(out.apps, app, np)
      && (out.ret == 0 <==> !Registered(r, app, np)) && (out.ret != 0 ==> out == Ok(r, -1))
      && forall a, x :: Registered(out.apps, a, x) <==> Registered(r, a, x) || (a == app && x == np)
  {
    hide Lookup;
    var i, t := Lookup(r, app), Add(r, app, Some(np)).apps;
    LookupIs(r, app);
    forall a, x
      ensures Registered(t, a, x) <==> Registered(r, a, x) || (a == app && x == np)
    {
      if i == |r| {
        AfterAppend(r, App(app, [np]), a, x);
      } else if np !in r[i].nps {
        AfterUpdate(r, i, r[i].nps + [np], a, x);
      }
    }
  }

  lemma LookupIs(r: Apps, app: string)
    ensures var i := Lookup(r, app); i <= |r| && (i < |r| ==> r[i].name == app)
  {
  }

  /** A registration goes to the end of its application's list, and a new application to the end of the registry. */
  lemma AddIsLast(r: Apps, app: string, np: string)
    requires !Registered(r, app, np)
    ensures var t := Add(r, app, Some(np)).apps; var i := Lookup(r, app);
      && |t| == (if i < |r| then |r| else |r| + 1)
      && (forall j | 0 <= j < |r| && j != i :: t[j] == r[j])
      && t[i] == App(app, (if i < |r| then r[i].nps else []) + [np])
  {
    assert [] + [np] == [np];
  }

  /** The list registry and the hash registry remove a whole application alike: 0 exactly if it is there. */
  lemma RemoveMeans(r: Apps, app: string)
    requires Proper(r)
    ensures HashStep(r, Remove(app)) == ListStep(r, Remove(app))
    ensures var out := HashStep(r, Remove(app));
      && out.Ok? && (out.ret == 0 <==> Present(r, app)) && (out.ret != 0 ==> out == Ok(r, -1))
      && out.apps == Filter(r, OtherApp(app))
  {
    var i := Lookup(r, app);
    if i < |r| {
      FilterDrop(r, OtherApp(app), i);
    } else {
      FilterAll(r, OtherApp(app));
    }
  }

  function OtherApp(app: string): App -> bool {
    (a: App) => a.name != app
  }

  function OtherThan(np: string): string -> bool {
    (x: string) => x != np
  }

  lemma FilterName(nps: seq<string>, np: string)
    requires NoDup(nps)
    ensures var k := Find(nps, np); Filter(nps, OtherThan(np)) == if k < |nps| then Drop(nps, k) else nps
  {
    var k := Find(nps, np);
    if k < |nps| {
      FilterDrop(nps, OtherThan(np), k);
    } else {
      FilterAll(nps, OtherThan(np));
    }
  }

  /** The hash registry takes a registration back, answering 0, exactly if it is there, and takes no other. */
  lemma DelHashMeans(r: Apps, app: string, np: string)
    requires Proper(r) && np != "" && DelHash(r, app, np).Ok?
    ensures var out := DelHash(r, app, np);
      && (out.ret == 0 <==> Registered(r, app, np)) && (out.ret != 0 ==> out == Ok(r, -1))
      && |out.apps| == |r|
      && (forall i | 0 <= i < |r| ::
            out.apps[i] == if r[i].name == app then App(app, Filter(r[i].nps, OtherThan(np))) else r[i])
      && forall a, x :: Registered(out.apps, a, x) <==> Registered(r, a, x) && !(a == app && x == np)
  {
    hide Lookup, Find;
    LookupIs(r, app);
    var i, t := Lookup(r, app), DelHash(r, app, np).apps;
    OneOfName(r, app);
    if i < |r| {
      FindMember(r[i].nps, np);
      FilterName(r[i].nps, np);
      var k := Find(r[i].nps, np);
      if k < |r[i].nps| {
        TakenAt(r, i, np, k);
      }
    }
  }

  lemma OneOfName(r: Apps, app: string)
    requires Proper(r)
    ensures forall i | 0 <= i < |r| :: r[i].name == app <==> i == Lookup(r, app)
  {
  }

  lemma TakenAt(r: Apps, i: nat, np: string, k: nat)
    requires Proper(r) && i < |r| && i == Lookup(r, r[i].name) && k < |r[i].nps| && r[i].nps[k] == np
    ensures forall a, x ::
      Registered(WithoutNp(r, i, k), a, x) <==> Registered(r, a, x) && !(a == r[i].name && x == np)
  {
    hide Lookup;
    DropNoDup(r[i].nps, k);
    forall a, x
      ensures Registered(WithoutNp(r, i, k), a, x) <==> Registered(r, a, x) && !(a == r[i].name && x == np)
    {
      AfterUpdate(r, i, Drop(r[i].nps, k), a, x);
    }
  }

  /** The list registry does the same, but a provider that is alone goes whatever it was asked for. */
  lemma DelListMeans(r: Apps, app: string, np: string)
    requires Proper(r)
    ensures var out := DelList(r, app, Some(np)); var i := Lookup(r, app);
      && out.Ok? && (out.ret == 0 <==> i < |r| && (np in r[i].nps || |r[i].nps| == 1))
      && (out.ret != 0 ==> out == Ok(r, -1)) && |out.apps| == |r|
      && (forall j | 0 <= j < |r| && j != i :: out.apps[j] == r[j])
      && (i < |r| ==> out.apps[i] == App(app, if |r[i].nps| == 1 then [] else Filter(r[i].nps, OtherThan(np))))
  {
    hide Find;
    var i := Lookup(r, app);
    if i < |r| {
      FindMember(r[i].nps, np);
      FilterName(r[i].nps, np);
      if |r[i].nps| == 1 { assert Drop(r[i].nps, 0) == []; }
    }
  }

  /** A query changes nothing, and answers 1 exactly if some application of the name holds the provider. */
  lemma QueryMeans(r: Apps, app: string, np: string)
    requires Proper(r)
    ensures HashStep(r, Query(app, np)) == ListStep(r, Query(app, np))
    ensures HashStep(r, Query(app, np)) ==
      Ok(r, if exists i :: 0 <= i < |r| && r[i].name == app && np in r[i].nps then 1 else 0)
  {
    OneOfName(r, app);
    if Registered(r, app, np) { assert r[Lookup(r, app)].name == app; }
  }
}
