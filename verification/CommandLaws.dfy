/** What the calls as strings come to: which call a string is, for all names and any runs of delimiters, and what the hub answers. */
module CommandLaws {
  import Sequences
  import opened Registry
  import opened RegistryLaws
  import opened Strings
  import opened ArgList
  import opened Hub
  import opened Accounting
  import opened CallLaws
  import opened Commands
  import Convert
  import Request

  predicate Only(s: string, d: char) {
    forall i | 0 <= i < |s| :: s[i] == d
  }

  lemma NoTokensIff(s: string, d: char)
    ensures Tokens(s, d) == [] <==> Only(s, d)
  {
    var n := Skip(s, d);
    if Only(s, d) { SkipIs(s, d, |s|); }
  }

  // register_app, unregister_app, unregister_np

  /** Two names, whatever colons stand around them and whatever comes behind: the application and the provider. */
  lemma TwoNames(app: string, np: string, more: seq<string>, gaps: seq<string>)
    requires IsToken(app, ':') && IsToken(np, ':') && AllTokens(more, ':')
    requires |gaps| == |more| + 3 && GapsOk(gaps, ':')
    ensures var buff := Weave([app, np] + more, gaps);
      && Parse(AppReg(buff)) == Calls(RegApp(app, np))
      && Parse(AppUnreg(buff)) == Calls(UnregApp(app, np))
      && Parse(NpUnreg(buff)) == Calls(UnregNp(app))
  {
    hide Tokens, Weave, GapsOk;
    TokensOfWeave([app, np] + more, gaps, ':');
  }

  /** One name: no provider. */
  lemma OneName(app: string, gaps: seq<string>)
    requires IsToken(app, ':') && |gaps| == 2 && GapsOk(gaps, ':')
    ensures var buff := Weave([app], gaps);
      && Parse(AppReg(buff)) == Calls(RegApp(app, ""))
      && Parse(AppUnreg(buff)) == Calls(UnregApp(app, ""))
      && Parse(NpUnreg(buff)) == Calls(UnregNp(app))
  {
    hide Tokens, Weave, GapsOk;
    TokensOfWeave([app], gaps, ':');
  }

  /** They break exactly on strings of nothing but colons, and never turn one down. */
  lemma NamelessBreaks(buff: string)
    ensures Parse(AppReg(buff)).Breaks? <==> Only(buff, ':')
    ensures Parse(AppUnreg(buff)).Breaks? <==> Only(buff, ':')
    ensures Parse(NpUnreg(buff)).Breaks? <==> Only(buff, ':')
    ensures !Parse(AppReg(buff)).Refused? && !Parse(AppUnreg(buff)).Refused? && !Parse(NpUnreg(buff)).Refused?
  {
    hide Tokens;
    NoTokensIff(buff, ':');
  }

  // register_np

  /** Behind `i` colons stand "npname" and a colon, and at `j` something else than a colon. */
  predicate NameAt(t: string, i: nat, j: nat) {
    && i + 6 < j < |t| && (forall k | 0 <= k < i :: t[k] == ':')
    && t[i..i + 6] == "npname" && t[i + 6] == ':' && t[j] != ':'
  }

  /** The text begins with "npname" and a name. */
  ghost predicate NamesProvider(t: string) {
    exists i: nat, j: nat :: NameAt(t, i, j)
  }

  lemma FirstName(u: string)
    ensures u[..Span(u, ':')] == "npname" && !Only(u[Span(u, ':')..], ':')
      <==> 6 < |u| && u[..6] == "npname" && u[6] == ':' && !Only(u[6..], ':')
  {
    if 6 < |u| && u[..6] == "npname" && u[6] == ':' {
      assert forall k | 0 <= k < 6 :: u[k] == u[..6][k];
      SpanIs(u, ':', 6);
    }
    if u[..Span(u, ':')] == "npname" {
      assert Span(u, ':') == |"npname"|;
    }
  }

  lemma Shifted(t: string, i: nat)
    requires i + 6 <= |t|
    ensures t[i..i + 6] == t[i..][..6] && t[i + 6..] == t[i..][6..]
  {
  }

  lemma Parts(t: string)
    ensures var u := t[Skip(t, ':')..];
      (|Tokens(t, ':')| > 1 && Tokens(t, ':')[0] == "npname")
      <==> (6 < |u| && u[..6] == "npname" && u[6] == ':' && !Only(u[6..], ':'))
  {
    hide Tokens, Only;
    var u := t[Skip(t, ':')..];
    TokensUnfold(t);
    if u != [] {
      FirstName(u);
      NoTokensIff(u[Span(u, ':')..], ':');
    }
  }

  lemma TokensUnfold(t: string)
    ensures var u := t[Skip(t, ':')..];
      Tokens(t, ':') == if u == [] then [] else [u[..Span(u, ':')]] + Tokens(u[Span(u, ':')..], ':')
  {
  }

  lemma PartsIff(t: string)
    ensures |Tokens(t, ':')| > 1 && Tokens(t, ':')[0] == "npname" <==> NamesProvider(t)
  {
    hide Tokens;
    Parts(t);
    var i := Skip(t, ':');
    if |Tokens(t, ':')| > 1 && Tokens(t, ':')[0] == "npname" {
      Shifted(t, i);
      var k :| 0 <= k < |t[i + 6..]| && t[i + 6..][k] != ':';
      assert NameAt(t, i, i + 6 + k);
    }
    if NamesProvider(t) {
      var h: nat, j: nat :| NameAt(t, h, j);
      assert t[h] == t[h..h + 6][0];
      SkipIs(t, ':', h);
      Shifted(t, h);
      assert t[h + 6..][j - h - 6] == t[j];
    }
  }

  /** register_np turns a string down exactly if it has no token, or its first does not begin with "npname" and a name. */
  lemma NpRefused(buff: string)
    ensures ParseNp(buff).Refused? <==> Only(buff, '#') || !NamesProvider(Tokens(buff, '#')[0])
  {
    hide Tokens, Occurrences, Extracted;
    NoTokensIff(buff, '#');
    if !Only(buff, '#') {
      PartsIff(Tokens(buff, '#')[0]);
    }
  }

  /**
   Any tokens with any runs of '#' around them, of which the first is "npname"
   and a name with any runs of ':' around them: the name is taken, and as many
   tokens as there are "::"; without any "::" the call breaks.
   */
  lemma NpParsed(n: string, more: seq<string>, colons: seq<string>, rest: seq<string>, gaps: seq<string>)
    requires IsToken(n, ':') && AllTokens(more, ':') && |colons| == |more| + 3 && GapsOk(colons, ':')
    requires AllTokens([Weave(["npname", n] + more, colons)] + rest, '#') && |gaps| == |rest| + 2 && GapsOk(gaps, '#')
    ensures var ts := [Weave(["npname", n] + more, colons)] + rest;
      Parse(NpReg(Weave(ts, gaps))) ==
        if TotalOccurrences(ts) == 0 then Breaks else Calls(RegNp(n, ts[..Min(|ts|, TotalOccurrences(ts))]))
  {
    hide Tokens, Weave, GapsOk, Occurrences, TotalOccurrences;
    var ts := [Weave(["npname", n] + more, colons)] + rest;
    TokensOfWeave(ts, gaps, '#');
    TokensOfWeave(["npname", n] + more, colons, ':');
    CountTokens(Weave(ts, gaps));
  }

  /** A name and pairs: the provider of that name, with exactly these pairs. */
  lemma NpPairsParsed(n: string, rest: seq<string>, gaps: seq<string>)
    requires IsToken(n, ':') && '#' !in n && Pairs(rest) && |gaps| == |rest| + 2 && GapsOk(gaps, '#')
    ensures var ts := ["npname" + SEP + n] + rest;
      Parse(NpReg(Weave(ts, gaps))) == Calls(RegNp(n, ts)) && Parse(NpReg(Join(ts))) == Calls(RegNp(n, ts))
  {
    hide Tokens, Weave, GapsOk, Occurrences, TotalOccurrences, Join, Extracted;
    var first := "npname" + SEP + n;
    var ts := [first] + rest;
    PairTokens(n, rest);
    Request.NameOf("npname", n);
    TokensOfWeave(ts, gaps, '#');
    TokensOfJoin(ts);
    PairsTaken(Weave(ts, gaps), n, ts);
    PairsTaken(Join(ts), n, ts);
  }

  lemma PairTokens(n: string, rest: seq<string>)
    requires IsToken(n, ':') && '#' !in n && Pairs(rest)
    ensures var ts := ["npname" + SEP + n] + rest;
      AllTokens(ts, '#') && forall i | 0 <= i < |ts| :: Occurrences(ts[i], SEP) == 1
  {
    hide Occurrences;
    Convert.OneSeparator("npname", n);
  }

  lemma PairsTaken(buff: string, n: string, ts: seq<string>)
    requires Tokens(buff, '#') == ts != [] && (forall i | 0 <= i < |ts| :: Occurrences(ts[i], SEP) == 1)
    requires Tokens(ts[0], ':') == ["npname", n]
    ensures ParseNp(buff) == Calls(RegNp(n, ts))
  {
    hide Tokens, Occurrences, TotalOccurrences;
    ExtractedIsTokens(buff);
    CountTokens(buff);
    OneEach(ts);
  }

  // Runs of strings

  lemma CommandsSnoc(cs: seq<Command>, c: Command)
    requires RunCommands(cs).Done?
    ensures RunCommands(cs + [c]) == Perform(RunCommands(cs).state, c)
  {
    assert (cs + [c])[..|cs|] == cs;
  }

  /** An application and a provider, and nothing behind them. */
  lemma TwoNamesOnly(app: string, np: string, gaps: seq<string>)
    requires IsToken(app, ':') && IsToken(np, ':') && |gaps| == 3 && GapsOk(gaps, ':')
    ensures Parse(AppReg(Weave([app, np], gaps))) == Calls(RegApp(app, np))
    ensures Parse(AppUnreg(Weave([app, np], gaps))) == Calls(UnregApp(app, np))
  {
    hide Parse, GapsOk;
    TwoNames(app, np, [], gaps);
    assert [app, np] + [] == [app, np];
  }

  /**
   After any commands: the two names as a string register that application with
   that provider, and the answer is 1 exactly if the provider is known and the
   registration is new.
   */
  lemma RegisterByString(cs: seq<Command>, app: string, np: string, gaps: seq<string>)
    requires IsToken(app, ':') && IsToken(np, ':') && |gaps| == 3 && GapsOk(gaps, ':') && RunCommands(cs).Done?
    ensures var s := RunCommands(cs).state; var out := RunCommands(cs + [AppReg(Weave([app, np], gaps))]);
      && out.Done? && (out.ret == 1 <==> Known(s.nps, np) && !Registered(s.apps, app, np))
      && (out.ret != 1 ==> out == Done(s, -1))
      && (out.ret == 1 ==> forall a, x ::
            Registered(out.state.apps, a, x) <==> Registered(s.apps, a, x) || (a == app && x == np))
  {
    hide Parse, GapsOk, RunCommands, RegisterApp, Registered, Known, Lookup, Weave;
    var s := RunCommands(cs).state;
    CommandsSnoc(cs, AppReg(Weave([app, np], gaps)));
    TwoNamesOnly(app, np, gaps);
    RegisterAppAnswer(s, app, np);
    CommandsConsistent(cs);
    if RegisterApp(s, app, np).ret == 1 { RegisterAppDoes(s, app, np); }
  }

  /**
   After any commands: the two names as a string take that registration back
   and no other, the answer is 1 exactly if it was there, and the call breaks
   exactly on a known provider and an application with an empty list.
   */
  lemma UnregisterByString(cs: seq<Command>, app: string, np: string, gaps: seq<string>)
    requires IsToken(app, ':') && IsToken(np, ':') && |gaps| == 3 && GapsOk(gaps, ':') && RunCommands(cs).Done?
    ensures var s := RunCommands(cs).state; var out := RunCommands(cs + [AppUnreg(Weave([app, np], gaps))]);
      && (out.Crash? <==> Known(s.nps, np) && Present(s.apps, app) && s.apps[Lookup(s.apps, app)].nps == [])
      && (out.Done? ==>
        && (out.ret == 1 <==> Registered(s.apps, app, np)) && (out.ret != 1 ==> out == Done(s, -1))
        && (forall a, x :: Registered(out.state.apps, a, x) <==> Registered(s.apps, a, x) && !(a == app && x == np)))
  {
    hide Parse, GapsOk, RunCommands, UnregisterApp, Registered, Known, Lookup, Weave;
    var s := RunCommands(cs).state;
    CommandsSnoc(cs, AppUnreg(Weave([app, np], gaps)));
    TwoNamesOnly(app, np, gaps);
    UnregisterAppBreaks(s, app, np);
    CommandsConsistent(cs);
    if UnregisterApp(s, app, np).Done? { UnregisterAppAnswer(s, app, np); }
  }

  /** To register a pair of names and to unregister it again, after any commands. */
  lemma ThereAndBack(cs: seq<Command>, app: string, np: string, gaps: seq<string>, gaps': seq<string>)
    requires IsToken(app, ':') && IsToken(np, ':') && RunCommands(cs).Done?
    requires |gaps| == |gaps'| == 3 && GapsOk(gaps, ':') && GapsOk(gaps', ':')
    requires var s := RunCommands(cs).state; Known(s.nps, np) && !Registered(s.apps, app, np)
    ensures var s := RunCommands(cs).state;
      var out := RunCommands(cs + [AppReg(Weave([app, np], gaps))] + [AppUnreg(Weave([app, np], gaps'))]);
      && out.Done? && out.ret == 1
      && out.state.apps == if Present(s.apps, app) then s.apps else s.apps + [App(app, [])]
  {
    hide Parse, GapsOk, RunCommands, UnregisterApp, RegisterApp, Registered, Known, Lookup, Weave;
    var s, c, d := RunCommands(cs).state, AppReg(Weave([app, np], gaps)), AppUnreg(Weave([app, np], gaps'));
    TwoNamesOnly(app, np, gaps);
    TwoNamesOnly(app, np, gaps');
    CommandsSnoc(cs, c);
    RegisterAppAnswer(s, app, np);
    CommandsSnoc(cs + [c], d);
    CommandsConsistent(cs);
    RegisterUnregister(s, app, np);
  }

  /** register_np answers a string it turns down with -1, and changes nothing. */
  lemma RefusedByString(cs: seq<Command>, buff: string)
    requires RunCommands(cs).Done? && (Only(buff, '#') || !NamesProvider(Tokens(buff, '#')[0]))
    ensures RunCommands(cs + [NpReg(buff)]) == Done(RunCommands(cs).state, -1)
  {
    hide ParseNp, RunCommands, Tokens;
    CommandsSnoc(cs, NpReg(buff));
    NpRefused(buff);
  }

  /** A name and pairs register that provider with these pairs, exactly if it is not known. */
  lemma ProvideByString(cs: seq<Command>, n: string, rest: seq<string>, gaps: seq<string>)
    requires IsToken(n, ':') && '#' !in n && Pairs(rest) && |gaps| == |rest| + 2 && GapsOk(gaps, '#') && RunCommands(cs).Done?
    ensures var s, ts := RunCommands(cs).state, ["npname" + SEP + n] + rest;
      RunCommands(cs + [NpReg(Weave(ts, gaps))]) ==
        if Known(s.nps, n) then Done(s, -1) else Done(State(s.apps, s.nps + [Np(n, ts, 0)]), 1)
  {
    hide Parse, GapsOk, RunCommands, Known, Weave, RegisterNp;
    CommandsSnoc(cs, NpReg(Weave(["npname" + SEP + n] + rest, gaps)));
    NpPairsParsed(n, rest, gaps);
    CommandsConsistent(cs);
    RegisterNpAnswer(RunCommands(cs).state, n, ["npname" + SEP + n] + rest);
  }

  /**
   A name unregisters that provider: the answer is -1, and nothing changes,
   exactly if the first application does not hold it; otherwise it is 1, and
   neither the table nor any list has the provider, unless the call breaks.
   */
  lemma WithdrawByString(cs: seq<Command>, np: string, gaps: seq<string>)
    requires IsToken(np, ':') && |gaps| == 2 && GapsOk(gaps, ':') && RunCommands(cs).Done?
    ensures var s := RunCommands(cs).state; var out := RunCommands(cs + [NpUnreg(Weave([np], gaps))]);
      if s.apps != [] && np !in s.apps[0].nps then out == Done(s, -1)
      else
        && (out.Crash? <==> exists i :: 0 <= i < |s.apps| && np !in s.apps[i].nps && |s.apps[i].nps| != 1)
        && (out.Done? ==> out.ret == 1 && !Known(out.state.nps, np) && forall a :: !Registered(out.state.apps, a, np))
  {
    hide Parse, GapsOk, RunCommands, Known, Weave, UnregisterNp;
    var s := RunCommands(cs).state;
    CommandsSnoc(cs, NpUnreg(Weave([np], gaps)));
    OneName(np, gaps);
    UnregisterNpBreaks(s, np);
    CommandsConsistent(cs);
    if UnregisterNp(s, np).Done? {
      UnregisterNpAnswer(s, np);
      if UnregisterNp(s, np).ret == 1 {
        UnregisterNpDoes(s, np);
        Gone(s.apps, UnregisterNp(s, np).state.apps, np);
      }
    }
  }

  lemma Gone(r: Apps, t: Apps, np: string)
    requires |t| == |r|
    requires forall i | 0 <= i < |r| ::
      t[i] == App(r[i].name, if np in r[i].nps then Sequences.Filter(r[i].nps, OtherThan(np)) else [])
    ensures forall a :: !Registered(t, a, np)
  {
    hide Sequences.Filter;
    forall i | 0 <= i < |t|
      ensures np !in t[i].nps
    {
      Sequences.FilterKeeps(r[i].nps, OtherThan(np));
    }
  }
}
