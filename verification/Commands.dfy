/** The four calls as they arrive: as strings, taken apart with strtok. */
module Commands {
  import opened Registry
  import opened Strings
  import opened ArgList
  import opened Hub
  import opened Accounting
  import opened HashTable
  import opened Entries
  import AppHash
  import opened Junction

  datatype Command =
    | AppReg(buff: string)
    | AppUnreg(buff: string)
    | NpReg(buff: string)
    | NpUnreg(buff: string)

  /** A call, an argument that is turned down, or a string in which strtok does not find what the code copies. */
  datatype Parsed = Calls(call: Call) | Refused | Breaks

  function Second(ts: seq<string>): string {
    if |ts| > 1 then ts[1] else ""
  }

  /** register_np checks that the first pair is "npname" and a name; the array of pairs needs a "::" somewhere. */
  function ParseNp(buff: string): Parsed {
    var ts := Tokens(buff, '#');
    if ts == [] then Refused
    else
      var parts := Tokens(ts[0], ':');
      if parts == [] || parts[0] != "npname" || |parts| == 1 then Refused
      else if Occurrences(buff, SEP) == 0 then Breaks
      else Calls(RegNp(parts[1], Extracted(buff)))
  }

  /** register_np lets a name pass that extract_key_val then stumbles over. */
  lemma SingleColonBreaks()
    ensures ParseNp("npname:x") == Breaks
  {
    PastEndExample();
    NameSplit();
  }

  lemma NameSplit()
    ensures Tokens("npname:x", ':') == ["npname", "x"]
  {
    hide Tokens;
    TakeToken("x", "", ':');
    NoTokens(':');
    assert "x" + "" == "x" && ["x"] + [] == ["x"];
    SkipGap(":", "x", ':');
    TakeToken("npname", ":" + "x", ':');
    assert "npname" + (":" + "x") == "npname:x" && ["npname"] + ["x"] == ["npname", "x"];
  }

  /** register_np breaks exactly on a first pair that is "npname" and a name, in a string without any "::". */
  lemma RegisterNpBreaks(buff: string)
    ensures ParseNp(buff).Breaks? <==>
      var ts := Tokens(buff, '#');
      && ts != [] && |Tokens(ts[0], ':')| > 1 && Tokens(ts[0], ':')[0] == "npname"
      && NullAt(buff) >= Occurrences(buff, SEP) + 1
  {
    ExtractsSafely(buff);
  }

  /** An application and, if there is one, a provider; just a provider. */
  function Parse(c: Command): Parsed {
    var ts := Tokens(c.buff, ':');
    match c
    case NpReg(buff) => ParseNp(buff)
    case AppReg(_) => if ts == [] then Breaks else Calls(RegApp(ts[0], Second(ts)))
    case AppUnreg(_) => if ts == [] then Breaks else Calls(UnregApp(ts[0], Second(ts)))
    case NpUnreg(_) => if ts == [] then Breaks else Calls(UnregNp(ts[0]))
  }

  function Perform(s: State, c: Command): Result {
    match Parse(c)
    case Calls(call) => Step(s, call)
    case Refused => Done(s, -1)
    case Breaks => Crash
  }

  function RunCommands(cs: seq<Command>): Result {
    if cs == [] then Done(START, 1)
    else match RunCommands(cs[..|cs| - 1])
      case Crash => Crash
      case Done(s, _) => Perform(s, cs[|cs| - 1])
  }

  /** Names come from strtok, so they are not empty. */
  lemma ParsedIsNamed(c: Command)
    requires Parse(c).Calls?
    ensures Named(Parse(c).call)
  {
    TokensAre(c.buff, ':');
    var ts := Tokens(c.buff, '#');
    if c.NpReg? {
      TokensAre(ts[0], ':');
    }
  }

  lemma PerformKeeps(s: State, c: Command)
    requires Consistent(s) && (forall x | Known(s.nps, x) :: Slack(s, x) >= 0) && Perform(s, c).Done?
    ensures var t := Perform(s, c).state; Consistent(t) && forall x | Known(t.nps, x) :: Slack(t, x) >= 0
  {
    hide Parse, Step, Slack, Consistent;
    if Parse(c).Calls? {
      var call := Parse(c).call;
      ParsedIsNamed(c);
      KeepsConsistent(s, call);
      forall x | Known(Step(s, call).state.nps, x)
        ensures Slack(Step(s, call).state, x) >= 0
      {
        CodeSlack(s, call, x);
      }
    }
  }

  /** Whatever strings arrive, in whatever order: as long as nothing breaks, the two registries are consistent. */
  lemma {:induction false} CommandsConsistent(cs: seq<Command>)
    requires RunCommands(cs).Done?
    ensures var s := RunCommands(cs).state; Consistent(s) && forall x | Known(s.nps, x) :: Slack(s, x) >= 0
    decreases |cs|
  {
    if cs != [] {
      CommandsConsistent(cs[..|cs| - 1]);
      PerformKeeps(RunCommands(cs[..|cs| - 1]).state, cs[|cs| - 1]);
    }
  }

  /** strtok for the application and, if there is one, the provider. */
  method SplitNames(buff: string) returns (app: string, np: string)
    requires Tokens(buff, ':') != []
    ensures app == Tokens(buff, ':')[0] && np == Second(Tokens(buff, ':'))
  {
    hide Tokens;
    var strtok := new Strtok(buff);
    var first := strtok.Next(':');
    app := first.value;
    var s := strtok.Next(':');
    np := if s.Some? then s.value else "";
  }

  /** The name and the pairs, or a refusal. */
  method SplitNp(buff: string) returns (ok: bool, np: string, keyVals: seq<string>)
    requires !ParseNp(buff).Breaks?
    ensures ParseNp(buff) == if ok then Calls(RegNp(np, keyVals)) else Refused
  {
    hide Tokens, Occurrences, Extracted;
    ok, np, keyVals := false, "", [];
    var outer := new Strtok(buff);
    var emptytest := outer.Next('#');
    if emptytest == None { return; }
    var inner := new Strtok(emptytest.value);
    emptytest := inner.Next(':');
    if emptytest == None || emptytest.value != "npname" { return; }
    emptytest := inner.Next(':');
    if emptytest == None { return; }
    ok, np := true, emptytest.value;
    ExtractsSafely(buff);
    var out := ExtractKeyVal(buff);
    keyVals := Filled(out.slots, Extracted(buff));
  }

  /** The slots up to the null pointer. */
  method Filled(slots: array<Option<string>>, ghost kv: seq<string>) returns (r: seq<string>)
    requires |kv| < slots.Length && slots[|kv|] == None && forall i | 0 <= i < |kv| :: slots[i] == Some(kv[i])
    ensures r == kv
  {
    r := [];
    while slots[|r|] != None
      invariant |r| <= |kv| && r == kv[..|r|]
      decreases |kv| - |r|
    {
      r := r + [slots[|r|].value];
    }
  }

  /** The string functions at the head of the four calls. */
  method ParseCommand(c: Command) returns (p: Parsed)
    requires !Parse(c).Breaks?
    ensures p == Parse(c)
  {
    hide Tokens, ParseNp;
    match c {
      case AppReg(buff) =>
        var app, np := SplitNames(buff);
        p := Calls(RegApp(app, np));
      case AppUnreg(buff) =>
        var app, np := SplitNames(buff);
        p := Calls(UnregApp(app, np));
      case NpReg(buff) =>
        var ok, np, keyVals := SplitNp(buff);
        p := if ok then Calls(RegNp(np, keyVals)) else Refused;
      case NpUnreg(buff) =>
        var np, rest := SplitNames(buff);
        p := Calls(UnregNp(np));
    }
  }

  method ParseBeside(nj: Nj, c: Command) returns (p: Parsed)
    requires nj.Valid() && !Parse(c).Breaks?
    ensures nj.Valid() && nj.View() == old(nj.View()) && nj.Repr() == old(nj.Repr())
    ensures p == Parse(c)
  {
    hide Table.OrderOk, Table.BucketsOk, Table.BoundOk, Table.BloomCovers, RecordsOk, Parse;
    ghost var es := AppHash.ValuesOf(nj.hstructApp.appHash.order);
    RecordsApart(es, nj.hstructApp.repr, true, {});
    p := ParseCommand(c);
    RecordsUntouched(es, nj.hstructApp.repr, true);
  }

  /** A command, performed on the hub. */
  method DoCommand(nj: Nj, c: Command) returns (ret: int)
    requires nj.Valid() && Perform(nj.View(), c).Done?
    modifies nj.Repr()
    ensures nj.Valid() && fresh(nj.Repr() - old(nj.Repr()))
    ensures Done(nj.View(), ret) == Perform(old(nj.View()), c)
  {
    hide Nj.Valid, Nj.View, Parse, Step;
    var p := ParseBeside(nj, c);
    if p.Refused? {
      return -1;
    }
    ret := nj.DoCall(p.call);
  }

  lemma {:induction false} CommandsPrefix(cs: seq<Command>, n: nat)
    requires RunCommands(cs).Done? && n < |cs|
    ensures RunCommands(cs[..n]).Done? && RunCommands(cs[..n + 1]) == Perform(RunCommands(cs[..n]).state, cs[n])
    ensures RunCommands(cs[..n + 1]).Done?
  {
    assert cs[..n + 1][..n] == cs[..n];
    if n == |cs| - 1 {
      assert cs[..n + 1] == cs;
    } else {
      var pre := cs[..|cs| - 1];
      CommandsPrefix(pre, n);
      assert pre[..n] == cs[..n] && pre[..n + 1] == cs[..n + 1];
    }
  }

  /** `ret` is the answer to command `i` of a run. */
  predicate Answer(cs: seq<Command>, i: nat, ret: int) {
    i < |cs| && RunCommands(cs[..i + 1]).Done? && RunCommands(cs[..i + 1]).ret == ret
  }

  ghost predicate Answers(cs: seq<Command>, rets: seq<int>) {
    forall i | 0 <= i < |rets| :: Answer(cs, i, rets[i])
  }

  lemma NoCommands(cs: seq<Command>)
    ensures RunCommands(cs[..0]) == Done(START, 1)
  {
    assert cs[..0] == [];
  }

  /**
   Any sequence of commands that does not break, performed on a hub of its own,
   answers and leaves what the specification says, and leaves it consistent.
   */
  method RunHub(hash: string -> nat, bloomSize: BloomSize, cs: seq<Command>) returns (state: State, rets: seq<int>)
    requires RunCommands(cs).Done?
    ensures state == RunCommands(cs).state && |rets| == |cs| && Answers(cs, rets)
    ensures Consistent(state)
  {
    hide Nj.Valid, Nj.View, Perform, RunCommands, Consistent;
    var nj := new Nj(hash, bloomSize);
    rets := [];
    NoCommands(cs);
    for i := 0 to |cs|
      invariant nj.Valid() && fresh(nj.Repr()) && |rets| == i && Answers(cs, rets)
      invariant RunCommands(cs[..i]).Done? && nj.View() == RunCommands(cs[..i]).state
    {
      CommandsPrefix(cs, i);
      var ret := DoCommand(nj, cs[i]);
      assert Answer(cs, i, ret);
      rets := rets + [ret];
    }
    assert cs[..|cs|] == cs;
    CommandsConsistent(cs);
    state := nj.Contents();
  }
}
