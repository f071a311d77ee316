/** By how much the counts of the code are off after a whole run: exactly by the registrations that ended without being counted down. */
module Losses {
  import opened Sequences
  import opened Trailing
  import opened Registry
  import opened Hub
  import opened Accounting

  /** The applications that hold `x` and nothing else. */
  function Lone(apps: Apps, x: string): nat {
    if apps == [] then 0 else One(apps[0].nps == [x]) + Lone(apps[1..], x)
  }

  /** A sweep for another provider takes `x` from the applications that hold nothing else, and from no other. */
  lemma {:induction false} SweptHolders(apps: Apps, np: string, flag: bool, x: string)
    requires SweepApps(apps, np, flag).Swept? && x != np && forall i | 0 <= i < |apps| :: NoDup(apps[i].nps)
    ensures Holders(SweepApps(apps, np, flag).apps, x) + Lone(apps, x) == Holders(apps, x)
  {
    if apps != [] {
      var nps, k := apps[0].nps, Find(apps[0].nps, np);
      FindMember(nps, np);
      if k < |nps| {
        DropNoDup(nps, k);
      } else {
        assert |nps| == 1 && nps == [nps[0]];
      }
      SweptHolders(apps[1..], np, true, x);
    }
  }

  lemma SweepSlack(s: State, np: string, x: string)
    requires Consistent(s) && Known(s.nps, x) && UnregisterNp(s, np).Done? && Known(UnregisterNp(s, np).state.nps, x)
    ensures Slack(UnregisterNp(s, np).state, x) == Slack(s, x) + if UnregisterNp(s, np).ret == 1 then Lone(s.apps, x) else 0
  {
    hide NpAt;
    if SweepApps(s.apps, np, false).Swept? {
      DropNp(s.nps, np);
      DropCount(s.nps, np, x);
      SweptHolders(s.apps, np, false, x);
    }
  }

  /** The registrations with `x` that a call ends and does not count down. */
  function LossOf(s: State, call: Call, x: string): nat {
    match call
    case UnregApp(app, np) => One(Taken(s, app, np, x))
    case UnregNp(np) => if UnregisterNp(s, np).Done? && UnregisterNp(s, np).ret == 1 then Lone(s.apps, x) else 0
    case _ => 0
  }

  /** The call registers a provider `x` that was not known. */
  predicate Begins(s: State, call: Call, x: string) {
    call.RegNp? && call.np == x && !Known(s.nps, x)
  }

  /** What was lost over a run since `x` was last registered itself. */
  function Lost(calls: seq<Call>, x: string): nat
    requires Run(calls).Done?
    decreases |calls|
  {
    if calls == [] then 0
    else
      var n := |calls| - 1;
      var s := Run(calls[..n]).state;
      if Begins(s, calls[n], x) then 0 else Lost(calls[..n], x) + LossOf(s, calls[n], x)
  }

  lemma StepLoss(s: State, call: Call, x: string)
    requires Consistent(s) && Named(call) && Step(s, call).Done? && Known(Step(s, call).state.nps, x)
    ensures var slack := Slack(Step(s, call).state, x);
      if Known(s.nps, x) then slack == Slack(s, x) + LossOf(s, call, x) else slack == 0 && Begins(s, call, x)
  {
    hide Slack, RegisterNp, RegisterApp, UnregisterApp, UnregisterNp, Consistent, Lone, Taken, Known;
    CodeKnown(s, call, x);
    match call {
      case RegApp(app, np) => RegisterAppSlack(s, app, np, x);
      case UnregApp(app, np) => UnregisterAppSlack(s, app, np, x);
      case RegNp(np, keyVals) =>
        RegisterNpSlack(s, np, keyVals, x);
        NewlyKnown(s, np, keyVals, x);
      case UnregNp(np) => SweepSlack(s, np, x);
    }
  }

  lemma NewlyKnown(s: State, np: string, keyVals: seq<string>, x: string)
    requires Consistent(s) && Known(RegisterNp(s, np, keyVals).state.nps, x)
    ensures Known(s.nps, x) || x == np
  {
    hide Known;
    if !Known(s.nps, np) { AppendNp(s.nps, Np(np, keyVals, 0)); }
  }

  /** After every run of the code, the count of a provider exceeds the number of its applications by exactly what was lost. */
  lemma {:induction false} CodeRunSlack(calls: seq<Call>, x: string)
    requires AllNamed(calls) && Run(calls).Done? && Known(Run(calls).state.nps, x)
    ensures Slack(Run(calls).state, x) == Lost(calls, x)
    decreases |calls|
  {
    hide Slack, Step, Consistent, Known, Lone, Taken, Named;
    StartKnowsNone(x);
    if calls != [] {
      var n := |calls| - 1;
      var s := Run(calls[..n]).state;
      CodeRunConsistent(calls[..n]);
      assert Named(calls[n]);
      StepLoss(s, calls[n], x);
      if Known(s.nps, x) {
        Continues(s, calls[n], x);
        CodeRunSlack(calls[..n], x);
      }
    }
  }

  lemma Continues(s: State, call: Call, x: string)
    requires Known(s.nps, x)
    ensures !Begins(s, call, x)
  {
  }

  lemma StartKnowsNone(x: string)
    ensures !Known(START.nps, x)
  {
  }
}
