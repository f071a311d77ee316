/**
 Applications and providers together: what the four calls of the hub do to both
 registries, as the code does it and as its comments prescribe it.
 */
module Hub {
  import opened Sequences
  import opened Trailing
  import opened Registry

  datatype Np = Np(name: string, keyVals: seq<string>, appCount: int)

  datatype State = State(apps: Apps, nps: seq<Np>)

  datatype Result = Done(state: State, ret: int) | Crash

  /** The position of a provider, or the length. */
  function NpAt(nps: seq<Np>, name: string): (i: nat)
    ensures i <= |nps| && (forall j | 0 <= j < i :: nps[j].name != name) && (i < |nps| ==> nps[i].name == name)
  {
    First(nps, (n: Np) => n.name, name)
  }

  predicate Known(nps: seq<Np>, name: string) {
    NpAt(nps, name) < |nps|
  }

  /** incr_np_app_cnt_hash and decr_np_app_cnt_hash; a provider that is not there is no error. */
  function Bump(nps: seq<Np>, name: string, d: int): seq<Np> {
    var i := NpAt(nps, name);
    if i < |nps| then nps[i := nps[i].(appCount := nps[i].appCount + d)] else nps
  }

  /** register_app; without a provider the code passes the empty name on, and a node of that name is made. */
  function RegisterApp(s: State, app: string, np: string): Result {
    if np != "" && !Known(s.nps, np) then Done(s, -1)
    else
      var out := Add(s.apps, app, Some(np));
      if out.ret == -1 then Done(s, -1) else Done(State(out.apps, Bump(s.nps, np, 1)), 1)
  }

  /** unregister_app; no count is decremented. */
  function UnregisterApp(s: State, app: string, np: string): Result {
    if np != "" && !Known(s.nps, np) then Done(s, -1)
    else match DelHash(s.apps, app, np)
      case Fault => Crash
      case Ok(apps, ret) => Done(State(apps, s.nps), if ret == -1 then -1 else 1)
  }

  /** register_np, once the name and the pairs have been taken from its argument. */
  function RegisterNp(s: State, np: string, keyVals: seq<string>): Result {
    if Known(s.nps, np) then Done(s, -1) else Done(State(s.apps, s.nps + [Np(np, keyVals, 0)]), 1)
  }

  /** What the sweep of unregister_np over the applications comes to. */
  datatype Sweep = Swept(apps: Apps) | Abandoned | Broken

  /** One turn of that sweep; `flag` says that an earlier application held the provider. */
  function SweepApp(nps: seq<string>, np: string, flag: bool): Option<seq<string>> {
    var k := Find(nps, np);
    if k < |nps| then Some(Drop(nps, k))
    else if flag && |nps| == 1 then Some([])
    else None
  }

  function SweepApps(apps: Apps, np: string, flag: bool): Sweep {
    if apps == [] then Swept([])
    else match SweepApp(apps[0].nps, np, flag)
      case None => if flag then Broken else Abandoned
      case Some(nps) =>
        match SweepApps(apps[1..], np, true)
        case Swept(rest) => Swept([App(apps[0].name, nps)] + rest)
        case other => other
  }

  function WithoutNpAt(nps: seq<Np>, name: string): seq<Np> {
    var i := NpAt(nps, name);
    if i < |nps| then Drop(nps, i) else nps
  }

  /** unregister_np; the result of the removal from the table is not looked at. */
  function UnregisterNp(s: State, np: string): Result {
    match SweepApps(s.apps, np, false)
    case Broken => Crash
    case Abandoned => Done(s, -1)
    case Swept(apps) => Done(State(apps, WithoutNpAt(s.nps, np)), 1)
  }

  datatype Call =
    | RegApp(app: string, np: string)
    | UnregApp(app: string, np: string)
    | RegNp(np: string, keyVals: seq<string>)
    | UnregNp(np: string)

  function Step(s: State, call: Call): Result {
    match call
    case RegApp(app, np) => RegisterApp(s, app, np)
    case UnregApp(app, np) => UnregisterApp(s, app, np)
    case RegNp(np, keyVals) => RegisterNp(s, np, keyVals)
    case UnregNp(np) => UnregisterNp(s, np)
  }

  // What is prescribed

  /** `nps` without `np`. */
  function Forget(nps: seq<string>, np: string): seq<string> {
    var k := Find(nps, np);
    if k < |nps| then Drop(nps, k) else nps
  }

  function ForgetAll(apps: Apps, np: string): Apps {
    seq(|apps|, i requires 0 <= i < |apps| => App(apps[i].name, Forget(apps[i].nps, np)))
  }

  /** The provider goes from every application that holds it and from the table, if it is there. */
  function UnregisterNpIntended(s: State, np: string): Result {
    if Known(s.nps, np) then Done(State(ForgetAll(s.apps, np), WithoutNpAt(s.nps, np)), 1) else Done(s, -1)
  }

  /** dec_all_np_counts_hash, driven by the list. */
  function BumpAll(nps: seq<Np>, names: seq<string>, d: int): seq<Np>
    decreases names
  {
    if names == [] then nps else BumpAll(Bump(nps, names[0], d), names[1..], d)
  }

  /** Unregistration with the decrements that the comments on del_app_ref ask for. */
  function UnregisterAppIntended(s: State, app: string, np: string): Result {
    var i := Lookup(s.apps, app);
    if np != "" && !Registered(s.apps, app, np) then Done(s, -1)
    else match UnregisterApp(s, app, np)
      case Crash => Crash
      case Done(t, ret) =>
        if ret == -1 then Done(t, ret)
        else Done(State(t.apps, if np == "" then BumpAll(t.nps, s.apps[i].nps, -1) else Bump(t.nps, np, -1)), ret)
  }

  function StepIntended(s: State, call: Call): Result {
    match call
    case RegApp(app, np) => RegisterApp(s, app, np)
    case UnregApp(app, np) => UnregisterAppIntended(s, app, np)
    case RegNp(np, keyVals) => RegisterNp(s, np, keyVals)
    case UnregNp(np) => UnregisterNpIntended(s, np)
  }

  // Consistency

  predicate Holds(a: App, np: string) {
    np in a.nps
  }

  /** How many applications hold `np`. */
  function Holders(apps: Apps, np: string): nat {
    if apps == [] then 0 else (if Holds(apps[0], np) then 1 else 0) + Holders(apps[1..], np)
  }

  predicate NpsProper(nps: seq<Np>) {
    forall i, j | 0 <= i < j < |nps| :: nps[i].name != nps[j].name
  }

  /** Every non-empty name in a trailing list is that of a registered provider. */
  ghost predicate Refers(apps: Apps, nps: seq<Np>) {
    forall i, x | 0 <= i < |apps| && x in apps[i].nps && x != "" :: Known(nps, x)
  }

  /** How far the count of a provider is from the number of applications that hold it. */
  function Slack(s: State, np: string): int
    requires Known(s.nps, np)
  {
    s.nps[NpAt(s.nps, np)].appCount - Holders(s.apps, np)
  }

  ghost predicate Consistent(s: State) {
    Proper(s.apps) && NpsProper(s.nps) && Refers(s.apps, s.nps) && !Known(s.nps, "")
  }

  /** Provider names in calls come from strtok, so they are not empty. */
  predicate Named(call: Call) {
    (call.RegNp? || call.UnregNp?) ==> call.np != ""
  }

  const START := State([], [])

  /** A run of the code from the start of the hub. */
  function Run(calls: seq<Call>): Result {
    if calls == [] then Done(START, 1)
    else match Run(calls[..|calls| - 1])
      case Crash => Crash
      case Done(s, _) => Step(s, calls[|calls| - 1])
  }

  /** A run as prescribed. */
  function RunIntended(calls: seq<Call>): Result {
    if calls == [] then Done(START, 1)
    else match RunIntended(calls[..|calls| - 1])
      case Crash => Crash
      case Done(s, _) => StepIntended(s, calls[|calls| - 1])
  }

  ghost predicate AllNamed(calls: seq<Call>) {
    forall i | 0 <= i < |calls| :: Named(calls[i])
  }

  function TotalCount(nps: seq<Np>): int {
    if nps == [] then 0 else nps[0].appCount + TotalCount(nps[1..])
  }

  /** The entries of a trailing list that are not the placeholder. */
  function Real(names: seq<string>): nat {
    if names == [] then 0
    else Real(names[..|names| - 1]) + if names[|names| - 1] == "" then 0 else 1
  }

  function Registrations(apps: Apps): nat {
    if apps == [] then 0 else Real(apps[0].nps) + Registrations(apps[1..])
  }
}
