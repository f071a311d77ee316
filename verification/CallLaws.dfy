/** What the four calls of the hub answer, and what they change. */
module CallLaws {
  import opened Sequences
  import opened Trailing
  import opened Registry
  import opened RegistryLaws
  import opened Hub
  import opened Accounting

  // register_app

  /**
   The answer is 1 exactly if the registration is there now and was not before,
   which takes a provider that is known, or none; in every other case it is -1
   and nothing has changed.
   */
  lemma RegisterAppAnswer(s: State, app: string, np: string)
    ensures var out := RegisterApp(s, app, np);
      && out.Done?
      && (out.ret == 1 <==> Registered(out.state.apps, app, np) && !Registered(s.apps, app, np))
      && (out.ret == 1 <==> (np == "" || Known(s.nps, np)) && !Registered(s.apps, app, np))
      && (out.ret != 1 ==> out == Done(s, -1))
  {
    hide Add, Registered, Bump, Known;
    AddMeans(s.apps, app, np);
  }

  /** A registration adds itself and no other, behind what was there, and one to the count of its provider. */
  lemma RegisterAppDoes(s: State, app: string, np: string)
    requires NpsProper(s.nps) && RegisterApp(s, app, np).ret == 1
    ensures var t := RegisterApp(s, app, np).state; var i := Lookup(s.apps, app);
      && (forall a, x :: Registered(t.apps, a, x) <==> Registered(s.apps, a, x) || (a == app && x == np))
      && |t.apps| == (if i < |s.apps| then |s.apps| else |s.apps| + 1)
      && (forall j | 0 <= j < |s.apps| && j != i :: t.apps[j] == s.apps[j])
      && t.apps[i] == App(app, (if i < |s.apps| then s.apps[i].nps else []) + [np])
      && |t.nps| == |s.nps|
      && forall j | 0 <= j < |s.nps| ::
           t.nps[j] == s.nps[j].(appCount := s.nps[j].appCount + if s.nps[j].name == np then 1 else 0)
  {
    hide Add, Registered, Bump, Known, Lookup;
    RegisterAppAnswer(s, app, np);
    AddMeans(s.apps, app, np);
    AddIsLast(s.apps, app, np);
    BumpFacts(s.nps, np, 1);
  }

  // unregister_app

  /** With a provider the answer is 1 exactly if the registration was there, and it is gone then; if not, it is -1 and nothing has changed. */
  lemma UnregisterAppAnswer(s: State, app: string, np: string)
    requires Consistent(s) && np != "" && UnregisterApp(s, app, np).Done?
    ensures var out := UnregisterApp(s, app, np);
      && (out.ret == 1 <==> Registered(s.apps, app, np)) && (out.ret != 1 ==> out == Done(s, -1))
      && out.state.nps == s.nps
      && forall a, x :: Registered(out.state.apps, a, x) <==> Registered(s.apps, a, x) && !(a == app && x == np)
  {
    hide DelHash, Known;
    if Known(s.nps, np) {
      DelHashMeans(s.apps, app, np);
      DelRet(s.apps, app, np);
    } else {
      NotTaken(s, app, np, np);
    }
  }

  /** The provider goes from the list of that application; all else stays where it is. */
  lemma UnregisterAppDoes(s: State, app: string, np: string)
    requires Consistent(s) && np != "" && UnregisterApp(s, app, np).Done?
    ensures var t := UnregisterApp(s, app, np).state;
      && |t.apps| == |s.apps|
      && forall i | 0 <= i < |s.apps| ::
           t.apps[i] == if s.apps[i].name == app then App(app, Filter(s.apps[i].nps, OtherThan(np))) else s.apps[i]
  {
    hide DelHash, Known, Filter;
    if Known(s.nps, np) {
      DelHashMeans(s.apps, app, np);
    } else {
      forall i | 0 <= i < |s.apps|
        ensures Filter(s.apps[i].nps, OtherThan(np)) == s.apps[i].nps
      {
        FilterAll(s.apps[i].nps, OtherThan(np));
      }
    }
  }

  /** Without a provider all of the application goes, and the answer is 1 exactly if it was there. */
  lemma UnregisterAllAnswer(s: State, app: string)
    requires Proper(s.apps)
    ensures var out := UnregisterApp(s, app, "");
      && out == Done(State(Filter(s.apps, OtherApp(app)), s.nps), if Present(s.apps, app) then 1 else -1)
      && (out.ret == -1 ==> out.state == s)
  {
    hide DelHash, Filter;
    RemoveMeans(s.apps, app);
    assert HashStep(s.apps, Remove(app)) == DelHash(s.apps, app, "");
    DelRet(s.apps, app, "");
  }

  /**
   As prescribed, the same registrations go, and the count of every provider
   that was taken from the application goes down by one, and no other.
   */
  lemma UnregisterAppMeans(s: State, app: string, np: string)
    requires Consistent(s)
    ensures var out := UnregisterAppIntended(s, app, np);
      && out.Done? && (out.ret == 1 <==> if np == "" then Present(s.apps, app) else Registered(s.apps, app, np))
      && (out.ret != 1 ==> out == Done(s, -1))
      && |out.state.nps| == |s.nps|
      && (forall j | 0 <= j < |s.nps| ::
            out.state.nps[j] == s.nps[j].(appCount := s.nps[j].appCount - One(Taken(s, app, np, s.nps[j].name))))
      && (UnregisterApp(s, app, np).Done? ==> out.state.apps == UnregisterApp(s, app, np).state.apps)
  {
    hide DelHash, Known, Bump, BumpAll, Filter;
    UnregisterAppBreaks(s, app, np);
    var i := Lookup(s.apps, app);
    if np == "" {
      UnregisterAllAnswer(s, app);
      if i < |s.apps| { BumpAllFacts(s.nps, s.apps[i].nps, -1); }
    } else if UnregisterApp(s, app, np).Done? {
      UnregisterAppAnswer(s, app, np);
      BumpFacts(s.nps, np, -1);
    }
  }

  /**
   To unregister what has just been registered is answered 1 and gives the
   applications back as they were; one that was new stays, with an empty list.
   */
  lemma RegisterUnregister(s: State, app: string, np: string)
    requires Consistent(s) && np != "" && RegisterApp(s, app, np).ret == 1
    ensures var t := RegisterApp(s, app, np).state; var out := UnregisterApp(t, app, np);
      && out.Done? && out.ret == 1
      && out.state.apps == if Present(s.apps, app) then s.apps else s.apps + [App(app, [])]
  {
    hide RegisterApp, Known, Filter, Lookup, Registered, UnregisterApp;
    RegisterAppAnswer(s, app, np);
    var t, i := RegisterApp(s, app, np).state, Lookup(s.apps, app);
    RegisterAppDoes(s, app, np);
    RegisterAppConsistent(s, app, np);
    Stands(s.apps, t.apps, app, np);
    UnregisterAppBreaks(t, app, np);
    UnregisterAppAnswer(t, app, np);
    UnregisterAppDoes(t, app, np);
    LastOut(if i < |s.apps| then s.apps[i].nps else [], np);
    OneOfName(t.apps, app);
    LookupIs(s.apps, app);
    var u := UnregisterApp(t, app, np).state.apps;
    assert u == if i < |s.apps| then s.apps else s.apps + [App(app, [])];
  }

  /** The application stands where it stood, or last. */
  lemma Stands(r: Apps, t: Apps, app: string, np: string)
    requires |t| == (if Lookup(r, app) < |r| then |r| else |r| + 1)
    requires forall j | 0 <= j < |r| && j != Lookup(r, app) :: t[j] == r[j]
    requires t[Lookup(r, app)].name == app && !Registered(r, app, np)
    ensures Lookup(t, app) == Lookup(r, app)
    ensures Lookup(r, app) < |r| ==> np !in r[Lookup(r, app)].nps
  {
  }

  lemma LastOut(nps: seq<string>, np: string)
    requires np !in nps
    ensures Filter(nps + [np], OtherThan(np)) == nps
  {
    FilterDrop(nps + [np], OtherThan(np), |nps|);
    assert Drop(nps + [np], |nps|) == nps;
  }

  // register_np

  /**
   The answer is 1 exactly if the provider was not known; it is then, last, with
   its pairs and no applications. Otherwise it is -1 and nothing has changed.
   */
  lemma RegisterNpAnswer(s: State, np: string, keyVals: seq<string>)
    requires NpsProper(s.nps)
    ensures var out := RegisterNp(s, np, keyVals);
      && out.Done? && (out.ret == 1 <==> Known(out.state.nps, np) && !Known(s.nps, np))
      && (out.ret == 1 <==> !Known(s.nps, np)) && (out.ret != 1 ==> out == Done(s, -1))
      && out.state.apps == s.apps && (forall y :: Known(out.state.nps, y) <==> Known(s.nps, y) || y == np)
      && (out.ret == 1 ==> out.state.nps == s.nps + [Np(np, keyVals, 0)])
  {
    hide Known;
    if !Known(s.nps, np) {
      AppendNp(s.nps, Np(np, keyVals, 0));
    }
  }

  // unregister_np

  /** The answer is -1 exactly if the first application does not hold the provider, and nothing has changed then. */
  lemma UnregisterNpAnswer(s: State, np: string)
    requires UnregisterNp(s, np).Done?
    ensures var out := UnregisterNp(s, np);
      && (out.ret == -1 <==> s.apps != [] && np !in s.apps[0].nps)
      && (out.ret == 1 <==> s.apps == [] || np in s.apps[0].nps)
      && (out.ret == -1 ==> out.state == s)
  {
    if s.apps != [] {
      FindMember(s.apps[0].nps, np);
      SweepBroken(s.apps[1..], np);
    }
  }

  /** What a sweep leaves of a list: without the provider if it holds it, and nothing if not. */
  lemma {:induction false} SweptLists(apps: Apps, np: string, flag: bool)
    requires SweepApps(apps, np, flag).Swept? && forall i | 0 <= i < |apps| :: NoDup(apps[i].nps)
    ensures var r := SweepApps(apps, np, flag).apps;
      && |r| == |apps|
      && forall i | 0 <= i < |apps| ::
           && r[i] == App(apps[i].name, if np in apps[i].nps then Filter(apps[i].nps, OtherThan(np)) else [])
           && (np in apps[i].nps || |apps[i].nps| == 1)
  {
    hide Filter;
    if apps != [] {
      FindMember(apps[0].nps, np);
      FilterName(apps[0].nps, np);
      SweptLists(apps[1..], np, true);
    }
  }

  /**
   After an answer of 1 the provider is gone from the table and from every list
   that held it; an application that did not hold it had one other, and has
   none now.
   */
  lemma UnregisterNpDoes(s: State, np: string)
    requires Consistent(s) && UnregisterNp(s, np).Done? && UnregisterNp(s, np).ret == 1
    ensures var t := UnregisterNp(s, np).state;
      && t.nps == Filter(s.nps, OtherNp(np)) && !Known(t.nps, np) && |t.apps| == |s.apps|
      && forall i | 0 <= i < |s.apps| ::
           && t.apps[i] == App(s.apps[i].name, if np in s.apps[i].nps then Filter(s.apps[i].nps, OtherThan(np)) else [])
           && (np in s.apps[i].nps || |s.apps[i].nps| == 1)
  {
    hide Filter;
    SweptLists(s.apps, np, false);
    WithoutIsFilter(s.nps, np);
    DropNp(s.nps, np);
  }
}
