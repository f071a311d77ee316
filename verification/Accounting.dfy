/** What the calls of the hub keep, where they fall short of their comments, and when they do not. */
module Accounting {
  import opened Sequences
  import opened Trailing
  import opened Registry
  import opened RegistryLaws
  import opened Hub

  // Positions in the table of providers

  lemma NpAtIs(nps: seq<Np>, i: nat)
    requires NpsProper(nps) && i < |nps|
    ensures NpAt(nps, nps[i].name) == i && Known(nps, nps[i].name)
  {
  }

  lemma KnownIff(nps: seq<Np>, x: string)
    ensures Known(nps, x) <==> exists i :: 0 <= i < |nps| && nps[i].name == x
  {
    if Known(nps, x) {
      assert nps[NpAt(nps, x)].name == x;
    }
  }

  lemma BumpFacts(nps: seq<Np>, x: string, d: int)
    requires NpsProper(nps)
    ensures var r := Bump(nps, x, d);
      && |r| == |nps| && NpsProper(r)
      && (forall i | 0 <= i < |nps| :: r[i] == nps[i].(appCount := nps[i].appCount + if nps[i].name == x then d else 0))
      && (forall y :: Known(r, y) <==> Known(nps, y))
  {
    var r := Bump(nps, x, d);
    forall i | 0 <= i < |nps|
      ensures r[i] == nps[i].(appCount := nps[i].appCount + if nps[i].name == x then d else 0)
    {
      if nps[i].name == x {
        NpAtIs(nps, i);
      }
    }
    forall y
      ensures Known(r, y) <==> Known(nps, y)
    {
      KnownIff(r, y);
      KnownIff(nps, y);
      if Known(nps, y) {
        assert r[NpAt(nps, y)].name == y;
      }
    }
  }

  lemma AppendNp(nps: seq<Np>, n: Np)
    requires NpsProper(nps) && !Known(nps, n.name)
    ensures NpsProper(nps + [n])
    ensures forall y :: Known(nps + [n], y) <==> Known(nps, y) || y == n.name
  {
    var r := nps + [n];
    assert r[|nps|] == n;
    KnownIff(nps, n.name);
    forall y
      ensures Known(r, y) <==> Known(nps, y) || y == n.name
    {
      KnownIff(r, y);
      KnownIff(nps, y);
      if Known(nps, y) {
        assert r[NpAt(nps, y)].name == y;
      }
    }
  }

  lemma DropKnown(nps: seq<Np>, x: string, y: string)
    requires NpsProper(nps)
    ensures Known(WithoutNpAt(nps, x), y) <==> Known(nps, y) && y != x
  {
    hide NpAt;
    var r, k := WithoutNpAt(nps, x), NpAt(nps, x);
    assert forall i | 0 <= i < |r| :: r[i] == nps[if i < k then i else i + 1];
    KnownIff(r, y);
    KnownIff(nps, y);
    if Known(nps, y) && y != x {
      var i := NpAt(nps, y);
      assert r[if i < k then i else i - 1].name == y;
    }
  }

  lemma DropNp(nps: seq<Np>, x: string)
    requires NpsProper(nps)
    ensures var r := WithoutNpAt(nps, x);
      && NpsProper(r)
      && (forall y :: Known(r, y) <==> Known(nps, y) && y != x)
      && (forall i | 0 <= i < |r| :: r[i] in nps)
  {
    hide Known;
    var r, k := WithoutNpAt(nps, x), NpAt(nps, x);
    assert forall i | 0 <= i < |r| :: r[i] == nps[if i < k then i else i + 1];
    forall y
      ensures Known(r, y) <==> Known(nps, y) && y != x
    {
      DropKnown(nps, x, y);
    }
  }

  // Holders

  function One(b: bool): nat { if b then 1 else 0 }

  lemma {:induction false} HoldersAppend(apps: Apps, a: App, x: string)
    ensures Holders(apps + [a], x) == Holders(apps, x) + One(Holds(a, x))
  {
    if apps == [] {
      assert apps + [a] == [a];
    } else {
      assert (apps + [a])[1..] == apps[1..] + [a];
      HoldersAppend(apps[1..], a, x);
    }
  }

  lemma {:induction false} HoldersUpdate(apps: Apps, i: nat, a: App, x: string)
    requires i < |apps|
    ensures Holders(apps[i := a], x) == Holders(apps, x) - One(Holds(apps[i], x)) + One(Holds(a, x))
  {
    if i > 0 {
      assert apps[i := a][1..] == apps[1..][i - 1 := a];
      HoldersUpdate(apps[1..], i - 1, a, x);
    }
  }

  lemma {:induction false} HoldersDrop(apps: Apps, i: nat, x: string)
    requires i < |apps|
    ensures Holders(Drop(apps, i), x) == Holders(apps, x) - One(Holds(apps[i], x))
  {
    if i == 0 {
      assert Drop(apps, 0) == apps[1..];
    } else {
      assert Drop(apps, i)[0] == apps[0] && Drop(apps, i)[1..] == Drop(apps[1..], i - 1);
      HoldersDrop(apps[1..], i - 1, x);
    }
  }

  lemma {:induction false} NoHolders(apps: Apps, x: string)
    ensures Holders(apps, x) == 0 <==> forall i | 0 <= i < |apps| :: x !in apps[i].nps
  {
    if apps != [] {
      NoHolders(apps[1..], x);
      assert forall i | 1 <= i < |apps| :: apps[i] == apps[1..][i - 1];
      if forall i | 0 <= i < |apps| :: x !in apps[i].nps {
        assert forall i | 0 <= i < |apps[1..]| :: apps[1..][i] == apps[i + 1];
      }
    }
  }

  // The sweep of unregister_np

  /** The applications a sweep may meet and still do what is meant: those that hold the provider. */
  ghost predicate AllHold(apps: Apps, np: string) {
    forall i | 0 <= i < |apps| :: np in apps[i].nps
  }

  lemma {:induction false} SweepAll(apps: Apps, np: string, flag: bool)
    ensures AllHold(apps, np) <==> SweepApps(apps, np, flag) == Swept(ForgetAll(apps, np))
  {
    if apps == [] {
      assert ForgetAll(apps, np) == [];
    } else {
      FindMember(apps[0].nps, np);
      SweepAll(apps[1..], np, true);
      assert ForgetAll(apps, np) == [App(apps[0].name, Forget(apps[0].nps, np))] + ForgetAll(apps[1..], np);
      assert AllHold(apps, np) <==> np in apps[0].nps && AllHold(apps[1..], np) by {
        assert forall i | 1 <= i < |apps| :: apps[i] == apps[1..][i - 1];
        assert forall i | 0 <= i < |apps[1..]| :: apps[1..][i] == apps[i + 1];
      }
      if SweepApps(apps, np, flag) == Swept(ForgetAll(apps, np)) {
        SweptHead(apps, np, flag);
      }
    }
  }

  lemma SweptHead(apps: Apps, np: string, flag: bool)
    requires apps != [] && SweepApps(apps, np, flag) == Swept(ForgetAll(apps, np))
    ensures np in apps[0].nps && SweepApps(apps[1..], np, true) == Swept(ForgetAll(apps[1..], np))
  {
    FindMember(apps[0].nps, np);
    var w, rest := SweepApps(apps, np, flag), SweepApps(apps[1..], np, true);
    assert rest.Swept?;
    assert w.apps[0] == ForgetAll(apps, np)[0];
    assert ForgetAll(apps, np)[1..] == ForgetAll(apps[1..], np);
    assert w.apps[1..] == rest.apps;
  }

  /** unregister_np does what is meant exactly if every application holds the provider, or it is unknown and somebody is there. */
  lemma UnregisterNpAsIntended(s: State, np: string)
    requires Consistent(s) && np != ""
    ensures UnregisterNp(s, np) == UnregisterNpIntended(s, np)
      <==> if Known(s.nps, np) then AllHold(s.apps, np) else s.apps != []
  {
    if Known(s.nps, np) {
      SweepAll(s.apps, np, false);
    } else if s.apps != [] {
      assert Known(s.nps, np) || np !in s.apps[0].nps;
      FindMember(s.apps[0].nps, np);
    }
  }

  /** It breaks exactly if the first application holds the provider and a later one has none at all, or several others. */
  lemma {:induction false} SweepBroken(apps: Apps, np: string)
    ensures SweepApps(apps, np, true).Broken?
      <==> exists i :: 0 <= i < |apps| && np !in apps[i].nps && |apps[i].nps| != 1
    ensures !SweepApps(apps, np, true).Abandoned?
  {
    if apps != [] {
      FindMember(apps[0].nps, np);
      SweepBroken(apps[1..], np);
      assert forall i | 1 <= i < |apps| :: apps[i] == apps[1..][i - 1];
      if SweepApps(apps[1..], np, true).Broken? {
        var i :| 0 <= i < |apps[1..]| && np !in apps[1..][i].nps && |apps[1..][i].nps| != 1;
        assert np !in apps[i + 1].nps && |apps[i + 1].nps| != 1;
      }
    }
  }

  lemma UnregisterNpBreaks(s: State, np: string)
    ensures UnregisterNp(s, np).Crash? <==>
      && s.apps != [] && np in s.apps[0].nps
      && exists i :: 0 <= i < |s.apps| && np !in s.apps[i].nps && |s.apps[i].nps| != 1
  {
    if s.apps != [] {
      FindMember(s.apps[0].nps, np);
      SweepBroken(s.apps[1..], np);
      assert forall i | 1 <= i < |s.apps| :: s.apps[i] == s.apps[1..][i - 1];
      if SweepApps(s.apps[1..], np, true).Broken? {
        var i :| 0 <= i < |s.apps[1..]| && np !in s.apps[1..][i].nps && |s.apps[1..][i].nps| != 1;
        assert np !in s.apps[i + 1].nps && |s.apps[i + 1].nps| != 1;
      }
    }
  }

  /** unregister_app breaks exactly on a known provider and an application whose list has run empty. */
  lemma UnregisterAppBreaks(s: State, app: string, np: string)
    ensures UnregisterApp(s, app, np).Crash? <==>
      && np != "" && Known(s.nps, np)
      && Lookup(s.apps, app) < |s.apps| && s.apps[Lookup(s.apps, app)].nps == []
  {
  }

  // Consistency

  lemma {:induction false} SweptFacts(apps: Apps, np: string, flag: bool)
    requires SweepApps(apps, np, flag).Swept? && forall i | 0 <= i < |apps| :: NoDup(apps[i].nps)
    ensures var r := SweepApps(apps, np, flag).apps;
      && |r| == |apps|
      && (forall i | 0 <= i < |apps| :: r[i].name == apps[i].name && NoDup(r[i].nps))
      && (forall i, x | 0 <= i < |apps| && x in r[i].nps :: x in apps[i].nps && x != np)
  {
    if apps != [] {
      FindMember(apps[0].nps, np);
      if np in apps[0].nps {
        DropNoDup(apps[0].nps, Find(apps[0].nps, np));
      }
      SweptFacts(apps[1..], np, true);
    }
  }

  lemma SweptConsistent(s: State, np: string)
    requires Consistent(s) && UnregisterNp(s, np).Done?
    ensures Consistent(UnregisterNp(s, np).state)
  {
    if SweepApps(s.apps, np, false).Swept? {
      SweptFacts(s.apps, np, false);
      DropNp(s.nps, np);
    }
  }

  lemma ForgetFacts(apps: Apps, np: string)
    requires forall i | 0 <= i < |apps| :: NoDup(apps[i].nps)
    ensures var r := ForgetAll(apps, np);
      forall i | 0 <= i < |apps| ::
        r[i].name == apps[i].name && NoDup(r[i].nps) && forall x :: x in r[i].nps <==> x in apps[i].nps && x != np
  {
    forall i | 0 <= i < |apps|
      ensures NoDup(Forget(apps[i].nps, np)) && forall x :: x in Forget(apps[i].nps, np) <==> x in apps[i].nps && x != np
    {
      FindMember(apps[i].nps, np);
      if np in apps[i].nps {
        DropNoDup(apps[i].nps, Find(apps[i].nps, np));
      }
    }
  }

  function OtherNp(np: string): Np -> bool {
    (n: Np) => n.name != np
  }

  /** Forgetting a provider is filtering it out. */
  lemma ForgetIsFilter(nps: seq<string>, np: string)
    requires NoDup(nps)
    ensures Forget(nps, np) == Filter(nps, OtherThan(np))
  {
    FilterName(nps, np);
  }

  lemma WithoutIsFilter(nps: seq<Np>, np: string)
    requires NpsProper(nps)
    ensures WithoutNpAt(nps, np) == Filter(nps, OtherNp(np))
  {
    var k := NpAt(nps, np);
    if k < |nps| {
      FilterDrop(nps, OtherNp(np), k);
    } else {
      FilterAll(nps, OtherNp(np));
    }
  }

  /**
   unregister_np as meant: the provider is filtered out of the list of every
   application and out of the table, and all else, the order, the other
   providers with their pairs and counts, and the applications, is as it was.
   */
  lemma UnregisterNpMeans(s: State, np: string)
    requires Consistent(s) && Known(s.nps, np)
    ensures var t := UnregisterNpIntended(s, np).state;
      && !Known(t.nps, np) && t.nps == Filter(s.nps, OtherNp(np))
      && |t.apps| == |s.apps|
      && forall i | 0 <= i < |s.apps| ::
           t.apps[i].name == s.apps[i].name && t.apps[i].nps == Filter(s.apps[i].nps, OtherThan(np))
  {
    hide Filter;
    DropNp(s.nps, np);
    WithoutIsFilter(s.nps, np);
    forall i | 0 <= i < |s.apps|
      ensures Forget(s.apps[i].nps, np) == Filter(s.apps[i].nps, OtherThan(np))
    {
      ForgetIsFilter(s.apps[i].nps, np);
    }
  }

  lemma ForgetConsistent(s: State, np: string)
    requires Consistent(s)
    ensures Consistent(UnregisterNpIntended(s, np).state)
  {
    ForgetFacts(s.apps, np);
    DropNp(s.nps, np);
  }

  lemma RegisterAppConsistent(s: State, app: string, np: string)
    requires Consistent(s)
    ensures RegisterApp(s, app, np).Done? && Consistent(RegisterApp(s, app, np).state)
  {
    hide Lookup, Known, NpAt, Bump;
    KeepsProper(s.apps, Registry.Register(app, np));
    BumpFacts(s.nps, np, 1);
  }

  lemma DelHashRefers(apps: Apps, nps: seq<Np>, app: string, np: string)
    requires Proper(apps) && Refers(apps, nps) && DelHash(apps, app, np).Ok?
    ensures Refers(DelHash(apps, app, np).apps, nps)
  {
    hide Known;
    var i := Lookup(apps, app);
    if i < |apps| && np != "" {
      var k := Find(apps[i].nps, np);
      if k < |apps[i].nps| {
        DropNoDup(apps[i].nps, k);
      }
    }
  }

  lemma UnregisterAppConsistent(s: State, app: string, np: string)
    requires Consistent(s) && UnregisterApp(s, app, np).Done?
    ensures Consistent(UnregisterApp(s, app, np).state)
  {
    hide Lookup, Known, NpAt, DelHash, Refers;
    if np == "" || Known(s.nps, np) {
      KeepsProper(s.apps, Registry.Unregister(app, np));
      DelHashRefers(s.apps, s.nps, app, np);
    }
  }

  lemma {:induction false} BumpAllFacts(nps: seq<Np>, names: seq<string>, d: int)
    requires NpsProper(nps) && NoDup(names)
    ensures var r := BumpAll(nps, names, d);
      && |r| == |nps| && NpsProper(r)
      && (forall i | 0 <= i < |nps| :: r[i] == nps[i].(appCount := nps[i].appCount + if nps[i].name in names then d else 0))
      && (forall y :: Known(r, y) <==> Known(nps, y))
    decreases names
  {
    if names != [] {
      BumpFacts(nps, names[0], d);
      BumpAllFacts(Bump(nps, names[0], d), names[1..], d);
      assert forall j | 1 <= j < |names| :: names[j] != names[0];
    }
  }

  /** Names stay distinct, and every provider an application names stays known, whatever is called. */
  lemma KeepsConsistent(s: State, call: Call)
    requires Consistent(s) && Named(call)
    ensures Step(s, call).Done? ==> Consistent(Step(s, call).state)
    ensures StepIntended(s, call).Done? && Consistent(StepIntended(s, call).state)
  {
    hide Consistent, Refers;
    match call {
      case RegApp(app, np) => RegisterAppConsistent(s, app, np);
      case UnregApp(app, np) =>
        UnregisterIntendedConsistent(s, app, np);
        if UnregisterApp(s, app, np).Done? { UnregisterAppConsistent(s, app, np); }
      case RegNp(np, keyVals) => RegisterNpConsistent(s, np, keyVals);
      case UnregNp(np) =>
        ForgetConsistent(s, np);
        if UnregisterNp(s, np).Done? { SweptConsistent(s, np); }
    }
  }

  lemma RegisterNpConsistent(s: State, np: string, keyVals: seq<string>)
    requires Consistent(s) && np != ""
    ensures Consistent(RegisterNp(s, np, keyVals).state)
  {
    hide Known;
    if !Known(s.nps, np) {
      AppendNp(s.nps, Np(np, keyVals, 0));
    }
  }

  lemma UnregisterIntendedConsistent(s: State, app: string, np: string)
    requires Consistent(s)
    ensures UnregisterAppIntended(s, app, np).Done? && Consistent(UnregisterAppIntended(s, app, np).state)
  {
    UnregisterAppBreaks(s, app, np);
    if UnregisterApp(s, app, np).Done? {
      UnregisterAppConsistent(s, app, np);
      BumpFacts(s.nps, np, -1);
      var i := Lookup(s.apps, app);
      if i < |s.apps| { BumpAllFacts(s.nps, s.apps[i].nps, -1); }
    }
  }

  // Counts

  /** The count recorded for a known provider. */
  function CountOf(nps: seq<Np>, x: string): int
    requires Known(nps, x)
  {
    nps[NpAt(nps, x)].appCount
  }

  lemma BumpCount(nps: seq<Np>, y: string, d: int, x: string)
    requires NpsProper(nps) && Known(nps, x)
    ensures Known(Bump(nps, y, d), x) && CountOf(Bump(nps, y, d), x) == CountOf(nps, x) + if x == y then d else 0
  {
    var r := Bump(nps, y, d);
    BumpFacts(nps, y, d);
    NpAtIs(r, NpAt(nps, x));
  }

  lemma BumpAllCount(nps: seq<Np>, names: seq<string>, d: int, x: string)
    requires NpsProper(nps) && NoDup(names) && Known(nps, x)
    ensures Known(BumpAll(nps, names, d), x)
    ensures CountOf(BumpAll(nps, names, d), x) == CountOf(nps, x) + if x in names then d else 0
  {
    var r := BumpAll(nps, names, d);
    BumpAllFacts(nps, names, d);
    NpAtIs(r, NpAt(nps, x));
  }

  lemma AppendCount(nps: seq<Np>, n: Np, x: string)
    requires NpsProper(nps) && !Known(nps, n.name) && (Known(nps, x) || x == n.name)
    ensures Known(nps + [n], x)
    ensures CountOf(nps + [n], x) == if x == n.name then n.appCount else CountOf(nps, x)
  {
    AppendNp(nps, n);
    var r := nps + [n];
    NpAtIs(r, if x == n.name then |nps| else NpAt(nps, x));
  }

  lemma DropCount(nps: seq<Np>, y: string, x: string)
    requires NpsProper(nps) && Known(nps, x) && x != y
    ensures Known(WithoutNpAt(nps, y), x) && CountOf(WithoutNpAt(nps, y), x) == CountOf(nps, x)
  {
    var r, i, k := WithoutNpAt(nps, y), NpAt(nps, x), NpAt(nps, y);
    DropNp(nps, y);
    NpAtIs(r, if i < k then i else i - 1);
  }

  /** The providers that a removal takes from the application. */
  predicate Taken(s: State, app: string, np: string, x: string) {
    var i := Lookup(s.apps, app);
    i < |s.apps| && x in s.apps[i].nps && (x == np || np == "")
  }

  lemma AddHolders(apps: Apps, app: string, np: string, x: string)
    ensures var out := Add(apps, app, Some(np));
      out.Ok? && Holders(out.apps, x) == Holders(apps, x) + One(out.ret == 0 && x == np)
  {
    var i, out := Lookup(apps, app), Add(apps, app, Some(np));
    if i == |apps| {
      HoldersAppend(apps, App(app, [np]), x);
    } else if np !in apps[i].nps {
      HoldersUpdate(apps, i, App(app, apps[i].nps + [np]), x);
    }
  }

  lemma DelHolders(s: State, app: string, np: string, x: string)
    requires Proper(s.apps) && DelHash(s.apps, app, np).Ok?
    ensures var out := DelHash(s.apps, app, np);
      Holders(out.apps, x) == Holders(s.apps, x) - One(out.ret == 0 && Taken(s, app, np, x))
    ensures DelHash(s.apps, app, np).ret != 0 ==> !Taken(s, app, np, x)
  {
    var apps, i := s.apps, Lookup(s.apps, app);
    if i < |apps| {
      if np == "" {
        HoldersDrop(apps, i, x);
      } else {
        var k := Find(apps[i].nps, np);
        FindMember(apps[i].nps, np);
        if k < |apps[i].nps| {
          DropNoDup(apps[i].nps, k);
          HoldersUpdate(apps, i, App(apps[i].name, Drop(apps[i].nps, k)), x);
        }
      }
    }
  }

  /** Registration keeps every count in step with the applications. */
  lemma RegisterAppSlack(s: State, app: string, np: string, x: string)
    requires Consistent(s) && Known(s.nps, x)
    ensures var t := RegisterApp(s, app, np).state; Known(t.nps, x) && Slack(t, x) == Slack(s, x)
  {
    hide Known, NpAt, Lookup, Bump;
    AddHolders(s.apps, app, np, x);
    BumpCount(s.nps, np, 1, x);
  }

  /** unregister_app leaves the count of every provider it takes one too high. */
  lemma UnregisterAppSlack(s: State, app: string, np: string, x: string)
    requires Consistent(s) && Known(s.nps, x) && UnregisterApp(s, app, np).Done?
    ensures var t := UnregisterApp(s, app, np).state;
      Known(t.nps, x) && Slack(t, x) == Slack(s, x) + One(Taken(s, app, np, x))
  {
    hide NpAt, Lookup, DelHash;
    if np == "" || Known(s.nps, np) {
      DelHolders(s, app, np, x);
      assert DelHash(s.apps, app, np).ret == -1 || DelHash(s.apps, app, np).ret == 0 by { DelRet(s.apps, app, np); }
    } else {
      NotTaken(s, app, np, x);
    }
  }

  lemma DelRet(apps: Apps, app: string, np: string)
    requires DelHash(apps, app, np).Ok?
    ensures DelHash(apps, app, np).ret == -1 || DelHash(apps, app, np).ret == 0
  {
  }

  lemma NotTaken(s: State, app: string, np: string, x: string)
    requires Refers(s.apps, s.nps) && np != "" && !Known(s.nps, np)
    ensures !Taken(s, app, np, x)
  {
  }

  /** With the prescribed decrements no count goes astray. */
  lemma UnregisterIntendedSlack(s: State, app: string, np: string, x: string)
    requires Consistent(s) && Known(s.nps, x)
    ensures var t := UnregisterAppIntended(s, app, np).state; Known(t.nps, x) && Slack(t, x) == Slack(s, x)
  {
    hide NpAt, DelHash, Slack;
    var i := Lookup(s.apps, app);
    UnregisterAppBreaks(s, app, np);
    if np == "" || Registered(s.apps, app, np) {
      var t := UnregisterApp(s, app, np).state;
      UnregisterAppSlack(s, app, np, x);
      UnregisterRet(s, app, np);
      if i < |s.apps| {
        BumpAllCount(s.nps, s.apps[i].nps, -1, x);
        BumpCount(s.nps, np, -1, x);
        SlackIs(s, x);
        SlackIs(t, x);
        SlackIs(UnregisterAppIntended(s, app, np).state, x);
      }
    }
  }

  lemma SlackIs(s: State, x: string)
    requires Known(s.nps, x)
    ensures Slack(s, x) == CountOf(s.nps, x) - Holders(s.apps, x)
  {
  }

  lemma UnregisterRet(s: State, app: string, np: string)
    requires Refers(s.apps, s.nps) && (np == "" || Registered(s.apps, app, np))
    ensures var out := UnregisterApp(s, app, np);
      out.Done? && out.state.nps == s.nps && (out.ret == -1 <==> Lookup(s.apps, app) == |s.apps|)
  {
    var i := Lookup(s.apps, app);
    if i < |s.apps| && np != "" {
      FindMember(s.apps[i].nps, np);
    }
  }

  lemma {:induction false} HoldersSame(a: Apps, b: Apps, x: string)
    requires |a| == |b| && forall i | 0 <= i < |a| :: x in b[i].nps ==> x in a[i].nps
    ensures Holders(b, x) <= Holders(a, x)
    ensures (forall i | 0 <= i < |a| :: x in a[i].nps ==> x in b[i].nps) ==> Holders(b, x) == Holders(a, x)
  {
    if a != [] {
      HoldersSame(a[1..], b[1..], x);
    }
  }

  lemma UnregisterNpSlack(s: State, np: string, x: string)
    requires Consistent(s) && Known(s.nps, x) && UnregisterNp(s, np).Done?
    requires Known(UnregisterNp(s, np).state.nps, x)
    ensures Slack(UnregisterNp(s, np).state, x) >= Slack(s, x)
  {
    hide NpAt;
    if SweepApps(s.apps, np, false).Swept? {
      DropNp(s.nps, np);
      SweptFacts(s.apps, np, false);
      DropCount(s.nps, np, x);
      HoldersSame(s.apps, SweepApps(s.apps, np, false).apps, x);
    }
  }

  lemma ForgetSlack(s: State, np: string, x: string)
    requires Consistent(s) && Known(s.nps, x) && Known(UnregisterNpIntended(s, np).state.nps, x)
    ensures Slack(UnregisterNpIntended(s, np).state, x) == Slack(s, x)
  {
    hide NpAt;
    if Known(s.nps, np) {
      DropNp(s.nps, np);
      ForgetFacts(s.apps, np);
      DropCount(s.nps, np, x);
      HoldersSame(s.apps, ForgetAll(s.apps, np), x);
    }
  }

  lemma RegisterNpSlack(s: State, np: string, keyVals: seq<string>, x: string)
    requires Consistent(s) && np != "" && Known(RegisterNp(s, np, keyVals).state.nps, x)
    ensures Slack(RegisterNp(s, np, keyVals).state, x) == if Known(s.nps, x) then Slack(s, x) else 0
  {
    if !Known(s.nps, np) {
      AppendNp(s.nps, Np(np, keyVals, 0));
      AppendCount(s.nps, Np(np, keyVals, 0), x);
      if x == np {
        NoHolders(s.apps, x);
        assert forall i | 0 <= i < |s.apps| :: x !in s.apps[i].nps;
      }
    }
  }

  // Totals: counting the registrations by provider and by application

  function Held(nps: seq<Np>, names: seq<string>): nat {
    if nps == [] then 0 else One(nps[0].name in names) + Held(nps[1..], names)
  }

  lemma {:induction false} HeldAdd(nps: seq<Np>, names: seq<string>, y: string)
    requires NpsProper(nps) && y !in names
    ensures Held(nps, names + [y]) == Held(nps, names) + One(Known(nps, y))
  {
    if nps != [] {
      HeldAdd(nps[1..], names, y);
      KnownIff(nps, y);
      KnownIff(nps[1..], y);
      assert forall i | 1 <= i < |nps| :: nps[i] == nps[1..][i - 1];
      assert Known(nps[1..], y) ==> nps[0].name != y;
      assert Known(nps, y) <==> nps[0].name == y || Known(nps[1..], y);
    }
  }

  lemma {:induction false} HeldNone(nps: seq<Np>)
    ensures Held(nps, []) == 0
  {
    if nps != [] { HeldNone(nps[1..]); }
  }

  lemma {:induction false} HeldReal(nps: seq<Np>, names: seq<string>)
    requires NpsProper(nps) && NoDup(names) && !Known(nps, "")
    requires forall x | x in names && x != "" :: Known(nps, x)
    ensures Held(nps, names) == Real(names)
    decreases |names|
  {
    hide Known;
    if names == [] {
      HeldNone(nps);
    } else {
      var n := |names| - 1;
      HeldReal(nps, names[..n]);
      HeldAdd(nps, names[..n], names[n]);
      assert names == names[..n] + [names[n]];
    }
  }

  function ByProvider(apps: Apps, nps: seq<Np>): nat {
    if nps == [] then 0 else Holders(apps, nps[0].name) + ByProvider(apps, nps[1..])
  }

  lemma {:induction false} Exchange(apps: Apps, nps: seq<Np>)
    requires apps != []
    ensures ByProvider(apps, nps) == Held(nps, apps[0].nps) + ByProvider(apps[1..], nps)
  {
    if nps != [] {
      Exchange(apps, nps[1..]);
    }
  }

  lemma {:induction false} NoApps(nps: seq<Np>)
    ensures ByProvider([], nps) == 0
  {
    if nps != [] { NoApps(nps[1..]); }
  }

  lemma {:induction false} ByApplication(apps: Apps, nps: seq<Np>)
    requires Proper(apps) && NpsProper(nps) && Refers(apps, nps) && !Known(nps, "")
    ensures ByProvider(apps, nps) == Registrations(apps)
  {
    if apps == [] {
      NoApps(nps);
    } else {
      assert forall i | 0 <= i < |apps[1..]| :: apps[1..][i] == apps[i + 1];
      Exchange(apps, nps);
      HeldReal(nps, apps[0].nps);
      ByApplication(apps[1..], nps);
    }
  }

  lemma {:induction false} CountedByProvider(apps: Apps, nps: seq<Np>)
    requires forall i | 0 <= i < |nps| :: nps[i].appCount == Holders(apps, nps[i].name)
    ensures TotalCount(nps) == ByProvider(apps, nps)
  {
    if nps != [] { CountedByProvider(apps, nps[1..]); }
  }

  // Whole runs

  ghost predicate Balanced(s: State) {
    forall x | Known(s.nps, x) :: Slack(s, x) == 0
  }

  lemma IntendedBalance(s: State, call: Call)
    requires Consistent(s) && Named(call) && Balanced(s) && StepIntended(s, call).Done?
    ensures Balanced(StepIntended(s, call).state)
  {
    hide Slack, Known;
    forall x | Known(StepIntended(s, call).state.nps, x)
      ensures Slack(StepIntended(s, call).state, x) == 0
    {
      IntendedSlack(s, call, x);
    }
  }

  lemma IntendedSlack(s: State, call: Call, x: string)
    requires Consistent(s) && Named(call) && StepIntended(s, call).Done? && Known(StepIntended(s, call).state.nps, x)
    ensures Slack(StepIntended(s, call).state, x) == if Known(s.nps, x) then Slack(s, x) else 0
  {
    hide Slack, RegisterNp, RegisterApp, UnregisterAppIntended;
    IntendedKnown(s, call, x);
    match call {
      case RegApp(app, np) => RegisterAppSlack(s, app, np, x);
      case UnregApp(app, np) => UnregisterIntendedSlack(s, app, np, x);
      case RegNp(np, keyVals) => RegisterNpSlack(s, np, keyVals, x);
      case UnregNp(np) => ForgetSlack(s, np, x);
    }
  }

  lemma IntendedKnown(s: State, call: Call, x: string)
    requires Consistent(s) && StepIntended(s, call).Done? && Known(StepIntended(s, call).state.nps, x)
    ensures Known(s.nps, x) || call.RegNp?
  {
    if !call.RegNp? {
      BumpFacts(s.nps, call.np, 1);
      BumpFacts(s.nps, call.np, -1);
      DropNp(s.nps, call.np);
      if call.UnregApp? {
        var i := Lookup(s.apps, call.app);
        if i < |s.apps| { BumpAllFacts(s.nps, s.apps[i].nps, -1); }
      }
    }
  }

  /**
   As prescribed, no run breaks, every count is the number of applications that
   hold the provider, and the counts add up to the registrations.
   */
  lemma {:induction false} IntendedRunBalanced(calls: seq<Call>)
    requires AllNamed(calls)
    ensures var r := RunIntended(calls);
      r.Done? && Consistent(r.state) && Balanced(r.state) && TotalCount(r.state.nps) == Registrations(r.state.apps)
    decreases |calls|
  {
    if calls != [] {
      var n := |calls| - 1;
      IntendedRunBalanced(calls[..n]);
      var s := RunIntended(calls[..n]).state;
      KeepsConsistent(s, calls[n]);
      IntendedBalance(s, calls[n]);
      BalancedTotal(RunIntended(calls).state);
    }
  }

  lemma BalancedTotal(s: State)
    requires Consistent(s) && Balanced(s)
    ensures TotalCount(s.nps) == Registrations(s.apps)
  {
    forall i | 0 <= i < |s.nps|
      ensures s.nps[i].appCount == Holders(s.apps, s.nps[i].name)
    {
      NpAtIs(s.nps, i);
      assert Slack(s, s.nps[i].name) == 0;
    }
    CountedByProvider(s.apps, s.nps);
    ByApplication(s.apps, s.nps);
  }

  lemma CodeKnown(s: State, call: Call, x: string)
    requires Consistent(s) && Step(s, call).Done? && Known(Step(s, call).state.nps, x)
    ensures Known(s.nps, x) || call.RegNp?
  {
    if !call.RegNp? {
      BumpFacts(s.nps, call.np, 1);
      DropNp(s.nps, call.np);
    }
  }

  lemma CodeSlack(s: State, call: Call, x: string)
    requires Consistent(s) && Named(call) && Step(s, call).Done? && Known(Step(s, call).state.nps, x)
    ensures Slack(Step(s, call).state, x) >= if Known(s.nps, x) then Slack(s, x) else 0
  {
    hide Slack, RegisterNp, RegisterApp, UnregisterApp, UnregisterNp;
    CodeKnown(s, call, x);
    match call {
      case RegApp(app, np) => RegisterAppSlack(s, app, np, x);
      case UnregApp(app, np) => UnregisterAppSlack(s, app, np, x);
      case RegNp(np, keyVals) => RegisterNpSlack(s, np, keyVals, x);
      case UnregNp(np) => UnregisterNpSlack(s, np, x);
    }
  }

  /** In every run of the code names stay consistent, and no count falls below the number of holders. */
  lemma {:induction false} CodeRunConsistent(calls: seq<Call>)
    requires AllNamed(calls) && Run(calls).Done?
    ensures var s := Run(calls).state; Consistent(s) && forall x | Known(s.nps, x) :: Slack(s, x) >= 0
    decreases |calls|
  {
    if calls != [] {
      var n := |calls| - 1;
      CodeRunConsistent(calls[..n]);
      var s := Run(calls[..n]).state;
      KeepsConsistent(s, calls[n]);
      assert Run(calls) == Step(s, calls[n]) && Named(calls[n]);
      forall x | Known(Run(calls).state.nps, x)
        ensures Slack(Run(calls).state, x) >= 0
      {
        CodeSlack(s, calls[n], x);
      }
    }
  }

  /**
   The application is unknown; or all of it goes and it has no known provider;
   or the provider is unknown, or missing from a list that is not empty.
   */
  predicate NothingToTake(s: State, app: string, np: string) {
    var i := Lookup(s.apps, app);
    || i == |s.apps|
    || (np == "" && forall x | x in s.apps[i].nps :: !Known(s.nps, x))
    || (np != "" && (Known(s.nps, np) ==> np !in s.apps[i].nps && s.apps[i].nps != []))
  }

  lemma NothingToTakeIs(s: State, app: string, np: string)
    requires Consistent(s)
    ensures NothingToTake(s, app, np)
      <==> !UnregisterApp(s, app, np).Crash? && forall x | Known(s.nps, x) :: !Taken(s, app, np, x)
  {
    UnregisterAppBreaks(s, app, np);
    if np != "" && !Known(s.nps, np) { NotTaken(s, app, np, np); }
    if Known(s.nps, np) { assert Taken(s, app, np, np) <==> Lookup(s.apps, app) < |s.apps| && np in s.apps[Lookup(s.apps, app)].nps; }
  }

  /** unregister_app does what is prescribed exactly if there is nothing for it to take, and no empty list to stumble over. */
  lemma UnregisterAppAsIntended(s: State, app: string, np: string)
    requires Consistent(s)
    ensures UnregisterApp(s, app, np) == UnregisterAppIntended(s, app, np) <==> NothingToTake(s, app, np)
  {
    hide NpAt, DelHash, Slack, NothingToTake;
    NothingToTakeIs(s, app, np);
    UnregisterIntendedConsistent(s, app, np);
    if !UnregisterApp(s, app, np).Crash? {
      forall x | Known(s.nps, x) && Taken(s, app, np, x)
        ensures UnregisterApp(s, app, np) != UnregisterAppIntended(s, app, np)
      {
        UnregisterAppSlack(s, app, np, x);
        UnregisterIntendedSlack(s, app, np, x);
      }
      if forall x | Known(s.nps, x) :: !Taken(s, app, np, x) {
        NothingTaken(s, app, np);
      }
    }
  }

  lemma NothingTaken(s: State, app: string, np: string)
    requires Consistent(s) && UnregisterApp(s, app, np).Done?
    requires forall x | Known(s.nps, x) :: !Taken(s, app, np, x)
    ensures UnregisterApp(s, app, np) == UnregisterAppIntended(s, app, np)
  {
    var i := Lookup(s.apps, app);
    if np == "" {
      if i < |s.apps| {
        BumpAllFacts(s.nps, s.apps[i].nps, -1);
        forall j | 0 <= j < |s.nps|
          ensures s.nps[j].name !in s.apps[i].nps
        {
          NpAtIs(s.nps, j);
          assert !Taken(s, app, np, s.nps[j].name);
        }
        assert BumpAll(s.nps, s.apps[i].nps, -1) == s.nps;
      }
    } else if Known(s.nps, np) {
      assert !Taken(s, app, np, np);
      if i < |s.apps| { FindMember(s.apps[i].nps, np); }
    } else {
      NotTaken(s, app, np, np);
    }
  }
}
