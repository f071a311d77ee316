/** The request envelope: what appGetnotify writes and the hub reads. */
module Request {
  import opened Registry
  import opened Strings
  import opened ArgList
  import opened Convert

  // sprintf("%d") and atoi

  const DIGITS := "0123456789"

  predicate IsDigit(c: char) { '0' <= c <= '9' }

  function Digit(c: char): nat
    requires IsDigit(c)
  {
    (c as int) - ('0' as int)
  }

  function PrintNat(n: nat): string {
    if n < 10 then [DIGITS[n]] else PrintNat(n / 10) + [DIGITS[n % 10]]
  }

  function PrintInt(n: int): string {
    if n < 0 then "-" + PrintNat(-n) else PrintNat(n)
  }

  /** The digits at the front of `s`, read behind those that make up `acc`. */
  function ReadDigits(s: string, acc: int): int {
    if s == [] || !IsDigit(s[0]) then acc else ReadDigits(s[1..], 10 * acc + Digit(s[0]))
  }

  predicate IsSpace(c: char) { c == ' ' || '\t' <= c <= '\r' }

  function Atoi(s: string): int {
    if s == [] then 0
    else if IsSpace(s[0]) then Atoi(s[1..])
    else if s[0] == '-' then -ReadDigits(s[1..], 0)
    else if s[0] == '+' then ReadDigits(s[1..], 0)
    else ReadDigits(s, 0)
  }

  lemma {:induction false} ReadAppend(s: string, t: string, acc: int)
    requires forall i | 0 <= i < |s| :: IsDigit(s[i])
    ensures ReadDigits(s + t, acc) == ReadDigits(t, ReadDigits(s, acc))
  {
    if s == [] {
      assert s + t == t;
    } else {
      assert (s + t)[1..] == s[1..] + t;
      ReadAppend(s[1..], t, 10 * acc + Digit(s[0]));
    }
  }

  lemma {:induction false} ReadPrinted(n: nat)
    ensures PrintNat(n) != [] && (forall i | 0 <= i < |PrintNat(n)| :: IsDigit(PrintNat(n)[i]))
    ensures ReadDigits(PrintNat(n), 0) == n
  {
    if n >= 10 {
      ReadPrinted(n / 10);
      ReadAppend(PrintNat(n / 10), [DIGITS[n % 10]], 0);
      assert [DIGITS[n % 10]][1..] == [];
    } else {
      assert [DIGITS[n]][1..] == [];
    }
  }

  /** The printed form has no leading zero, and a sign only in front of a negative number. */
  lemma {:induction false} PrintedShort(n: nat)
    ensures PrintNat(n) != [] && (|PrintNat(n)| > 1 ==> PrintNat(n)[0] != '0') && (PrintNat(n)[0] == '0' <==> n == 0)
    ensures n > 0 ==> PrintInt((-1) * n) == "-" + PrintInt(n)
  {
    if n >= 10 {
      PrintedShort(n / 10);
      assert PrintNat(n)[0] == PrintNat(n / 10)[0];
    } else {
      assert DIGITS[0] == '0' && forall i | 0 < i < 10 :: DIGITS[i] != '0';
    }
  }

  /** A printed number reads back, and it can stand before a '#'. */
  lemma AtoiOfPrint(n: int)
    ensures Atoi(PrintInt(n)) == n && IsToken(PrintInt(n), '#')
  {
    ReadPrinted(if n < 0 then -n else n);
    if n < 0 {
      assert PrintInt(n)[1..] == PrintNat(-n);
    }
  }

  /** atoi skips white space, takes one sign, and reads digits up to the first character that is none. */
  lemma {:induction false} AtoiReads(gap: string, sign: string, n: nat, rest: string)
    requires (forall i | 0 <= i < |gap| :: IsSpace(gap[i])) && (sign == "" || sign == "+" || sign == "-")
    requires rest != [] ==> !IsDigit(rest[0])
    ensures Atoi(gap + (sign + (PrintNat(n) + rest))) == (if sign == "-" then -1 else 1) * n
    decreases |gap|
  {
    var s := gap + (sign + (PrintNat(n) + rest));
    if gap != [] {
      assert s[1..] == gap[1..] + (sign + (PrintNat(n) + rest));
      AtoiReads(gap[1..], sign, n, rest);
    } else {
      ReadPrinted(n);
      ReadAppend(PrintNat(n), rest, 0);
      assert s == sign + (PrintNat(n) + rest);
      assert sign == "" ==> s == PrintNat(n) + rest;
      assert sign != "" ==> s[1..] == PrintNat(n) + rest;
    }
  }

  // The envelope

  /** What appGetnotify puts together. */
  function Encoded(pid: int, keyVals: string, choice: char): string {
    PrintInt(pid) + "##" + keyVals + (if choice == 'B' then "##TYPE::B" else if choice == 'N' then "##TYPE::N" else "")
  }

  datatype Decoded = Decoded(choice: char, pid: int, npName: string, pairs: seq<string>)

  /** Every strtok of the decoding finds its token, and there is something to extract. */
  predicate Decodable(data: string) {
    var ts := Tokens(data, '#');
    && |ts| >= 2 && |Tokens(ts[1], ':')| >= 2
    && ArgsAt(data) <= |data| && Occurrences(data[ArgsAt(data)..], SEP) >= 1
  }

  /** Two characters behind the first token. */
  function ArgsAt(data: string): nat {
    var n := Skip(data, '#');
    n + Span(data[n..], '#') + 2
  }

  function Decode(data: string): Decoded
    requires Decodable(data)
  {
    var ts := Tokens(data, '#');
    Decoded(data[|data| - 1], Atoi(ts[0]), Tokens(ts[1], ':')[1], Extracted(data[ArgsAt(data)..]))
  }

  /** The request-building part of appGetnotify: strcpy and strcat into one buffer. */
  method AppGetnotify(pid: int, keyVals: string, choice: char) returns (data: string)
    ensures data == Encoded(pid, keyVals, choice)
    ensures choice == 'B' || choice == 'N' ==>
      forall npName | Arguments(keyVals, npName) ::
        Decodable(data) && Decode(data) == Decoded(choice, pid, npName, Tokens(keyVals, '#') + [TypePair(choice)])
    ensures choice != 'B' && choice != 'N' ==> Tokens(data, '#') == [PrintInt(pid)] + Tokens(keyVals, '#')
  {
    hide PrintInt, Decode, Decodable, Arguments, Tokens;
    data := PrintInt(pid);
    data := data + "##";
    data := data + keyVals;
    if choice == 'B' {
      data := data + "##TYPE::B";
    } else if choice == 'N' {
      data := data + "##TYPE::N";
    }
    if choice == 'B' || choice == 'N' {
      forall npName | Arguments(keyVals, npName)
        ensures Decodable(data) && Decode(data) == Decoded(choice, pid, npName, Tokens(keyVals, '#') + [TypePair(choice)])
      {
        RoundTrip(pid, keyVals, npName, choice);
      }
    } else {
      AtoiOfPrint(pid);
      TokensAppend(PrintInt(pid), "##" + keyVals, '#');
      OneToken(PrintInt(pid));
      SkipGap("##", keyVals, '#');
      assert data == PrintInt(pid) + ("##" + keyVals);
    }
  }

  lemma OneToken(p: string)
    requires IsToken(p, '#')
    ensures Tokens(p, '#') == [p]
  {
    TakeToken(p, "", '#');
    NoTokens('#');
    assert p + "" == p && [p] + [] == [p];
  }

  /** The choice of app_getnotify_method and the decoding prefix of np_getnotify_method. */
  method NpGetnotify(data: string) returns (choice: char, pid: int, npName: string, pointer: array<Option<string>>)
    requires Decodable(data)
    ensures var d := Decode(data);
      && choice == d.choice && pid == d.pid && npName == d.npName
      && 0 < |d.pairs| < pointer.Length && pointer[|d.pairs|] == None
      && forall i | 0 <= i < |d.pairs| :: pointer[i] == Some(d.pairs[i])
  {
    hide Tokens, Occurrences, Atoi, Extracted, Span, Skip;
    FirstPlace(data);
    choice := data[|data| - 1];
    var rough := new Strtok(data);
    var appname := rough.Next('#');
    var j := FirstEnd(data);
    pid := Atoi(appname.value);
    var one := rough.Next('#');
    var parts := new Strtok(one.value);
    var key := parts.Next(':');
    var name := parts.Next(':');
    npName := name.value;
    ExtractsSafely(data[j + 2..]);
    var out := ExtractKeyVal(data[j + 2..]);
    pointer := out.slots;
  }

  lemma FirstPlace(data: string)
    requires Tokens(data, '#') != []
    ensures |data| > 0
  {
  }

  /** strlen of the buffer once strtok has cut off all behind its first token. */
  method FirstEnd(r: string) returns (j: nat)
    ensures j == Skip(r, '#') + Span(r[Skip(r, '#')..], '#')
  {
    j := 0;
    while j < |r| && r[j] == '#'
      invariant j <= |r| && forall i | 0 <= i < j :: r[i] == '#'
    {
      j := j + 1;
    }
    SkipIs(r, '#', j);
    ghost var n := j;
    while j < |r| && r[j] != '#'
      invariant n <= j <= |r| && forall i | n <= i < j :: r[i] != '#'
    {
      j := j + 1;
    }
    SpanIs(r[n..], '#', j - n);
  }

  // The round trip

  /** Tokens of two texts, where the second begins with a delimiter. */
  lemma {:induction false} TokensAppend(s: string, u: string, d: char)
    requires u != [] ==> u[0] == d
    ensures Tokens(s + u, d) == Tokens(s, d) + Tokens(u, d)
    decreases |s|
  {
    hide Tokens, GapsOf, Span, Skip;
    Unfold(s, d);
    var n := Skip(s, d);
    var t := s[n..];
    if t == [] {
      SkipGap(s, u, d);
    } else {
      var m := Span(t, d);
      var rest := t[m..];
      TokensAppend(rest, u, d);
      TakeToken(t[..m], rest + u, d);
      SkipGap(s[..n], t[..m] + (rest + u), d);
      Regroup(s, n, m, u);
      Assoc([t[..m]], Tokens(rest, d), Tokens(u, d));
    }
  }

  lemma Regroup(s: string, n: nat, m: nat, u: string)
    requires n + m <= |s|
    ensures s + u == s[..n] + (s[n..][..m] + (s[n..][m..] + u))
  {
  }

  lemma Assoc<T>(a: seq<T>, b: seq<T>, c: seq<T>)
    ensures a + b + c == a + (b + c)
  {
  }

  function TypePair(choice: char): string {
    "TYPE::" + [choice]
  }

  lemma TypePairIs(choice: char)
    requires choice == 'B' || choice == 'N'
    ensures Pair(TypePair(choice)) && Tokens("##" + TypePair(choice), '#') == [TypePair(choice)]
  {
    hide Tokens, Occurrences;
    var t := TypePair(choice);
    SkipGap("##", t, '#');
    TakeToken(t, "", '#');
    NoTokens('#');
    assert t + "" == t && [t] + [] == [t];
    SpanIs(t, ':', 4);
    assert t[4..6] == SEP;
    TypeOnce(t, choice);
  }

  lemma TypeOnce(t: string, choice: char)
    requires t == TypePair(choice) && choice != ':'
    ensures Occurrences(t, SEP) == 1
  {
    forall i: nat | i < 4
      ensures !OccursAt(t, SEP, i)
    {
      assert t[i..i + 2][0] != SEP[0];
    }
    assert t[4..6] == SEP;
    SkipTo(t, SEP, 4);
    forall i: nat
      ensures !OccursAt(t[5..], SEP, i)
    {
      if i == 0 { assert t[5..][0..2][1] == choice; }
    }
    NoneLeft(t[5..], SEP);
  }

  /** The name behind "npname::". */
  lemma NameOf(key: string, name: string)
    requires IsToken(key, ':') && IsToken(name, ':')
    ensures Tokens(key + SEP + name, ':') == [key, name]
  {
    hide Tokens;
    TakeToken(name, "", ':');
    NoTokens(':');
    assert name + "" == name && [name] + [] == [name];
    SkipGap(SEP, name, ':');
    TakeToken(key, SEP + name, ':');
    assert key + SEP + name == key + (SEP + name) && [key] + [name] == [key, name];
  }

  /** A well-formed argument string: pairs between any runs of '#', of which the first names the provider. */
  predicate Arguments(keyVals: string, npName: string) {
    var ts := Tokens(keyVals, '#');
    Pairs(ts) && ts != [] && ts[0] == "npname" + SEP + npName && IsToken(npName, ':')
  }

  lemma TokensOfRequest(pid: int, keyVals: string, choice: char)
    requires choice == 'B' || choice == 'N'
    ensures var data, args := Encoded(pid, keyVals, choice), keyVals + ("##" + TypePair(choice));
      && Tokens(data, '#') == [PrintInt(pid)] + Tokens(args, '#')
      && Tokens(args, '#') == Tokens(keyVals, '#') + [TypePair(choice)]
      && ArgsAt(data) == |PrintInt(pid)| + 2 <= |data| && data[ArgsAt(data)..] == args
      && data[|data| - 1] == choice
  {
    hide Tokens, PrintNat, Atoi;
    var p, tail := PrintInt(pid), "##" + TypePair(choice);
    AtoiOfPrint(pid);
    TypePairIs(choice);
    TokensAppend(keyVals, tail, '#');
    var data, args := Encoded(pid, keyVals, choice), keyVals + tail;
    assert data == p + ("##" + args);
    SkipGap("##", args, '#');
    TakeToken(p, "##" + args, '#');
    FirstToken(p, args);
    assert data[|p| + 2..] == args;
  }

  lemma FirstToken(p: string, args: string)
    requires IsToken(p, '#')
    ensures ArgsAt(p + ("##" + args)) == |p| + 2
  {
    var data := p + ("##" + args);
    SkipIs(data, '#', 0);
    assert data[0..] == data;
    SpanIs(data, '#', |p|);
  }

  /** The request for some pairs is the process, the pairs and the choice, with "##" between them. */
  lemma RequestText(pid: int, ts: seq<string>, choice: char)
    requires (choice == 'B' || choice == 'N') && ts != []
    ensures Encoded(pid, Join(ts), choice) == Join([PrintInt(pid)] + ts + [TypePair(choice)])
  {
    hide PrintInt;
    JoinSnoc(ts, TypePair(choice));
    var more := ts + [TypePair(choice)];
    assert [PrintInt(pid)] + ts + [TypePair(choice)] == [PrintInt(pid)] + more;
    assert ([PrintInt(pid)] + more)[1..] == more;
    assert choice == 'B' ==> "##TYPE::B" == "##" + TypePair(choice);
    assert choice == 'N' ==> "##TYPE::N" == "##" + TypePair(choice);
  }

  lemma {:induction false} JoinSnoc(ts: seq<string>, t: string)
    requires ts != []
    ensures Join(ts + [t]) == Join(ts) + "##" + t
  {
    assert (ts + [t])[1..] == ts[1..] + [t];
    if |ts| > 1 {
      JoinSnoc(ts[1..], t);
    }
  }

  /**
   For every process, well-formed argument string and choice, the hub decodes
   from the request exactly the process, the provider's name, the choice, and
   the pairs, with the choice as one more pair.
   */
  lemma RoundTrip(pid: int, keyVals: string, npName: string, choice: char)
    requires (choice == 'B' || choice == 'N') && Arguments(keyVals, npName)
    ensures var data := Encoded(pid, keyVals, choice);
      Decodable(data) && Decode(data) == Decoded(choice, pid, npName, Tokens(keyVals, '#') + [TypePair(choice)])
  {
    hide Tokens, PrintInt, Atoi, Encoded, Pair, Occurrences, ArgsAt;
    var ts, args := Tokens(keyVals, '#'), keyVals + ("##" + TypePair(choice));
    TokensOfRequest(pid, keyVals, choice);
    TypePairIs(choice);
    AtoiOfPrint(pid);
    NameOf("npname", npName);
    AllOnce(ts + [TypePair(choice)]);
    ExtractedIsTokens(args);
    CountTokens(args);
    OneEach(ts + [TypePair(choice)]);
  }

  lemma AllOnce(ts: seq<string>)
    requires Pairs(ts)
    ensures forall i | 0 <= i < |ts| :: Occurrences(ts[i], SEP) == 1
  {
  }

  /**
   From the application to the provider: it gets one pair for each of its keys,
   and every pair of the request and the choice are among them, exactly if
   compare_array accepts the request and no two of its pairs contradict each other.
   */
  lemma Delivered(pid: int, keyVals: string, npName: string, choice: char, np: seq<string>)
    requires (choice == 'B' || choice == 'N') && Arguments(keyVals, npName) && Pairs(np)
    ensures Decodable(Encoded(pid, keyVals, choice))
    ensures var ts := Decode(Encoded(pid, keyVals, choice)).pairs;
      && HaveKeys(np) && HaveKeys(ts)
      && var sent := Extracted(Text(Buffer(Merged(np, ts))));
         && |sent| == |np| && HaveKeys(sent)
         && (forall i | 0 <= i < |np| :: KeyOf(sent[i]) == KeyOf(np[i]))
         && (Accepted(np, ts) && OneRequest(ts) <==>
             TypePair(choice) in sent && forall x | x in Tokens(keyVals, '#') :: x in sent)
  {
    hide Tokens, Encoded, Pair, Merged, Decode, Decodable, Buffer, Accepted, OneRequest;
    var ts := Tokens(keyVals, '#') + [TypePair(choice)];
    RoundTrip(pid, keyVals, npName, choice);
    TypePairIs(choice);
    Reparsed(np, ts);
    MergedFacts(np, ts);
    Lossless(np, ts);
    assert ts[|ts| - 1] == TypePair(choice);
    assert forall x | x in Tokens(keyVals, '#') :: x in ts;
  }
}
