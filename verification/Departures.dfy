/** Runs from the start of the hub in which a call does not do what it is meant to do. */
module Departures {
  import opened Sequences
  import opened Trailing
  import opened Registry
  import opened Hub

  lemma RunSnoc(calls: seq<Call>, call: Call)
    requires Run(calls).Done?
    ensures Run(calls + [call]) == Step(Run(calls).state, call)
  {
    assert (calls + [call])[..|calls|] == calls;
  }

  /** One more call, from a state that is known. */
  lemma Next(calls: seq<Call>, call: Call, more: seq<Call>, s: State)
    requires Run(calls).Done? && Run(calls).state == s && more == calls + [call]
    ensures Run(more) == Step(s, call)
  {
    RunSnoc(calls, call);
  }

  const X0: Np := Np("x", [], 0)
  const X1: Np := Np("x", [], 1)
  const Y0: Np := Np("y", [], 0)
  const Y1: Np := Np("y", [], 1)

  lemma NoPlaces()
    ensures NpAt([], "x") == 0 && NpAt([], "y") == 0 && Lookup([], "a") == 0
  {
  }

  lemma TwoProviders()
    ensures Run([RegNp("x", []), RegNp("y", [])]) == Done(State([], [X0, Y0]), 1)
  {
    hide Run;
    NoPlaces();
    Begin();
    Next([], RegNp("x", []), [RegNp("x", [])], START);
    assert [X0][0] == X0;
    Next([RegNp("x", [])], RegNp("y", []), [RegNp("x", []), RegNp("y", [])], State([], [X0]));
  }

  lemma Begin()
    ensures Run([]) == Done(START, 1)
  {
  }

  // unregister_app

  lemma RegisterX()
    ensures RegisterApp(State([], [X0]), "a", "x") == Done(State([App("a", ["x"])], [X1]), 1)
  {
    assert NpAt([X0], "x") == 0;
  }

  lemma UnregisterX()
    ensures UnregisterApp(State([App("a", ["x"])], [X1]), "a", "x") == Done(State([App("a", [])], [X1]), 1)
  {
    assert NpAt([X1], "x") == 0 && Lookup([App("a", ["x"])], "a") == 0 && Find(["x"], "x") == 0;
    assert Drop(["x"], 0) == [];
  }

  lemma UnregisterXAgain()
    ensures UnregisterApp(State([App("a", [])], [X1]), "a", "x") == Crash
  {
    assert NpAt([X1], "x") == 0 && Lookup([App("a", [])], "a") == 0;
  }

  /** A provider that was registered and given up by its only application still counts one. */
  lemma LeakExample()
    ensures Run([RegNp("x", []), RegApp("a", "x"), UnregApp("a", "x")]) == Done(State([App("a", [])], [X1]), 1)
  {
    hide Run, RegisterApp, UnregisterApp;
    NoPlaces();
    Begin();
    Next([], RegNp("x", []), [RegNp("x", [])], START);
    RegisterX();
    Next([RegNp("x", [])], RegApp("a", "x"), [RegNp("x", []), RegApp("a", "x")], State([], [X0]));
    UnregisterX();
    Next([RegNp("x", []), RegApp("a", "x")], UnregApp("a", "x"),
         [RegNp("x", []), RegApp("a", "x"), UnregApp("a", "x")], State([App("a", ["x"])], [X1]));
  }

  /** The same unregistration once more reads the name of a node that is not there. */
  lemma EmptyListExample()
    ensures Run([RegNp("x", []), RegApp("a", "x"), UnregApp("a", "x"), UnregApp("a", "x")]) == Crash
  {
    hide Run, UnregisterApp;
    LeakExample();
    UnregisterXAgain();
    Next([RegNp("x", []), RegApp("a", "x"), UnregApp("a", "x")], UnregApp("a", "x"),
         [RegNp("x", []), RegApp("a", "x"), UnregApp("a", "x"), UnregApp("a", "x")], State([App("a", [])], [X1]));
  }

  // unregister_np

  lemma RegisterAWithY()
    ensures RegisterApp(State([], [X0, Y0]), "a", "y") == Done(State([App("a", ["y"])], [X0, Y1]), 1)
  {
    assert [X0, Y0][0].name == "x" && [X0, Y0][1].name == "y";
    assert NpAt([X0, Y0], "y") == 1;
  }

  lemma SweepStops()
    ensures UnregisterNp(State([App("a", ["y"])], [X0, Y1]), "x") == Done(State([App("a", ["y"])], [X0, Y1]), -1)
  {
    assert Find(["y"], "x") == 1;
  }

  /** An application without the provider keeps it from being unregistered. */
  lemma AbandonedExample()
    ensures Run([RegNp("x", []), RegNp("y", []), RegApp("a", "y"), UnregNp("x")])
      == Done(State([App("a", ["y"])], [X0, Y1]), -1)
  {
    hide Run, RegisterApp, UnregisterNp;
    TwoProviders();
    RegisterAWithY();
    Next([RegNp("x", []), RegNp("y", [])], RegApp("a", "y"),
         [RegNp("x", []), RegNp("y", []), RegApp("a", "y")], State([], [X0, Y0]));
    SweepStops();
    Next([RegNp("x", []), RegNp("y", []), RegApp("a", "y")], UnregNp("x"),
         [RegNp("x", []), RegNp("y", []), RegApp("a", "y"), UnregNp("x")], State([App("a", ["y"])], [X0, Y1]));
  }

  lemma RegisterAWithX()
    ensures RegisterApp(State([], [X0, Y0]), "a", "x") == Done(State([App("a", ["x"])], [X1, Y0]), 1)
  {
    assert [X0, Y0][0].name == "x";
    assert NpAt([X0, Y0], "x") == 0;
  }

  lemma RegisterBWithY()
    ensures RegisterApp(State([App("a", ["x"])], [X1, Y0]), "b", "y")
      == Done(State([App("a", ["x"]), App("b", ["y"])], [X1, Y1]), 1)
  {
    assert [X1, Y0][0].name == "x" && [X1, Y0][1].name == "y";
    assert NpAt([X1, Y0], "y") == 1 && Lookup([App("a", ["x"])], "b") == 1;
  }

  /** Two providers, and an application with each. */
  lemma TwoOfEach()
    ensures Run([RegNp("x", []), RegNp("y", []), RegApp("a", "x"), RegApp("b", "y")])
      == Done(State([App("a", ["x"]), App("b", ["y"])], [X1, Y1]), 1)
  {
    hide Run, RegisterApp;
    TwoProviders();
    RegisterAWithX();
    Next([RegNp("x", []), RegNp("y", [])], RegApp("a", "x"),
         [RegNp("x", []), RegNp("y", []), RegApp("a", "x")], State([], [X0, Y0]));
    RegisterBWithY();
    Next([RegNp("x", []), RegNp("y", []), RegApp("a", "x")], RegApp("b", "y"),
         [RegNp("x", []), RegNp("y", []), RegApp("a", "x"), RegApp("b", "y")], State([App("a", ["x"])], [X1, Y0]));
  }

  lemma SweepTakesY()
    ensures UnregisterNp(State([App("a", ["x"]), App("b", ["y"])], [X1, Y1]), "x")
      == Done(State([App("a", []), App("b", [])], [Y1]), 1)
  {
    var apps := [App("a", ["x"]), App("b", ["y"])];
    assert Find(["x"], "x") == 0 && Find(["y"], "x") == 1 && Drop(["x"], 0) == [];
    assert apps[1..][1..] == [];
    assert SweepApps(apps[1..], "x", true) == Swept([App("b", [])]);
    assert [X1, Y1][0].name == "x";
    assert NpAt([X1, Y1], "x") == 0 && Drop([X1, Y1], 0) == [Y1];
  }

  /** A later application loses a provider that nobody asked to unregister. */
  lemma LoneProviderExample()
    ensures Run([RegNp("x", []), RegNp("y", []), RegApp("a", "x"), RegApp("b", "y"), UnregNp("x")])
      == Done(State([App("a", []), App("b", [])], [Y1]), 1)
  {
    hide Run, UnregisterNp;
    TwoOfEach();
    SweepTakesY();
    Next([RegNp("x", []), RegNp("y", []), RegApp("a", "x"), RegApp("b", "y")], UnregNp("x"),
         [RegNp("x", []), RegNp("y", []), RegApp("a", "x"), RegApp("b", "y"), UnregNp("x")],
         State([App("a", ["x"]), App("b", ["y"])], [X1, Y1]));
  }

  lemma RegisterBAlone()
    ensures RegisterApp(State([App("a", ["x"]), App("b", ["y"])], [X1, Y1]), "b", "")
      == Done(State([App("a", ["x"]), App("b", ["y", ""])], [X1, Y1]), 1)
  {
    var apps := [App("a", ["x"]), App("b", ["y"])];
    assert apps[0].name == "a" && apps[1].name == "b";
    assert Lookup(apps, "b") == 1 && "" !in ["y"] && ["y"] + [""] == ["y", ""];
    assert [X1, Y1][0].name == "x" && [X1, Y1][1].name == "y";
    assert NpAt([X1, Y1], "") == 2;
  }

  lemma SweepBreaks()
    ensures UnregisterNp(State([App("a", ["x"]), App("b", ["y", ""])], [X1, Y1]), "x") == Crash
  {
    var apps := [App("a", ["x"]), App("b", ["y", ""])];
    assert Find(["x"], "x") == 0;
    assert ["y", ""][0] != "x" && ["y", ""][1] != "x";
    assert Find(["y", ""], "x") == 2;
    assert SweepApps(apps[1..], "x", true) == Broken;
  }

  /** A later application with two other entries makes the sweep follow a null pointer. */
  lemma BrokenSweepExample()
    ensures Run([RegNp("x", []), RegNp("y", []), RegApp("a", "x"), RegApp("b", "y"), RegApp("b", ""), UnregNp("x")]) == Crash
  {
    hide Run, RegisterApp, UnregisterNp;
    TwoOfEach();
    RegisterBAlone();
    Next([RegNp("x", []), RegNp("y", []), RegApp("a", "x"), RegApp("b", "y")], RegApp("b", ""),
         [RegNp("x", []), RegNp("y", []), RegApp("a", "x"), RegApp("b", "y"), RegApp("b", "")],
         State([App("a", ["x"]), App("b", ["y"])], [X1, Y1]));
    SweepBreaks();
    Next([RegNp("x", []), RegNp("y", []), RegApp("a", "x"), RegApp("b", "y"), RegApp("b", "")], UnregNp("x"),
         [RegNp("x", []), RegNp("y", []), RegApp("a", "x"), RegApp("b", "y"), RegApp("b", ""), UnregNp("x")],
         State([App("a", ["x"]), App("b", ["y", ""])], [X1, Y1]));
  }
}
