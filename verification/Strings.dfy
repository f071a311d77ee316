/** The C string functions the argument language is built on: strtok, strstr, and counting with them. */
module Strings {
  import opened Registry

  // strtok with a set of one character: "##" and "::" are such sets

  /** The length of the longest prefix without `d`. */
  function Span(s: string, d: char): (n: nat)
    ensures n <= |s| && (forall i | 0 <= i < n :: s[i] != d) && (n < |s| ==> s[n] == d)
  {
    if s == [] || s[0] == d then 0 else 1 + Span(s[1..], d)
  }

  /** The number of leading `d`s. */
  function Skip(s: string, d: char): (n: nat)
    ensures n <= |s| && (forall i | 0 <= i < n :: s[i] == d) && (n < |s| ==> s[n] != d)
  {
    if s == [] || s[0] != d then 0 else 1 + Skip(s[1..], d)
  }

  /** What repeated calls of strtok return. */
  function Tokens(s: string, d: char): seq<string>
    decreases |s|
  {
    var t := s[Skip(s, d)..];
    if t == [] then [] else [t[..Span(t, d)]] + Tokens(t[Span(t, d)..], d)
  }

  predicate IsToken(t: string, d: char) {
    t != [] && d !in t
  }

  predicate AllTokens(ts: seq<string>, d: char) {
    forall i | 0 <= i < |ts| :: IsToken(ts[i], d)
  }

  lemma {:induction false} TokensAre(s: string, d: char)
    ensures AllTokens(Tokens(s, d), d)
    decreases |s|
  {
    var t := s[Skip(s, d)..];
    if t != [] {
      TokensAre(t[Span(t, d)..], d);
    }
  }

  lemma SpanIs(s: string, d: char, n: nat)
    requires n <= |s| && (forall i | 0 <= i < n :: s[i] != d) && (n < |s| ==> s[n] == d)
    ensures Span(s, d) == n
  {
  }

  lemma SkipIs(s: string, d: char, n: nat)
    requires n <= |s| && (forall i | 0 <= i < n :: s[i] == d) && (n < |s| ==> s[n] != d)
    ensures Skip(s, d) == n
  {
  }

  /** Leading delimiters do not matter. */
  lemma {:induction false} SkipGap(gap: string, s: string, d: char)
    requires forall i | 0 <= i < |gap| :: gap[i] == d
    ensures Tokens(gap + s, d) == Tokens(s, d)
  {
    var n := Skip(s, d);
    SkipIs(gap + s, d, |gap| + n);
    assert (gap + s)[|gap| + n..] == s[n..];
  }

  /** A token, then the end or a delimiter. */
  lemma {:induction false} TakeToken(t: string, s: string, d: char)
    requires IsToken(t, d) && (s != [] ==> s[0] == d)
    ensures Tokens(t + s, d) == [t] + Tokens(s, d)
  {
    SkipIs(t + s, d, 0);
    SpanIs(t + s, d, |t|);
    assert (t + s)[0..] == t + s && (t + s)[..|t|] == t && (t + s)[|t|..] == s;
  }

  /** Tokens with a gap before each, and one at the end. */
  function Weave(ts: seq<string>, gaps: seq<string>): string
    requires |gaps| == |ts| + 1
    decreases |ts|
  {
    if ts == [] then gaps[0] else gaps[0] + ts[0] + Weave(ts[1..], gaps[1..])
  }

  /** All gaps consist of `d`, and those between two tokens are not empty. */
  predicate GapsOk(gaps: seq<string>, d: char) {
    && (forall i, j | 0 <= i < |gaps| && 0 <= j < |gaps[i]| :: gaps[i][j] == d)
    && forall i | 0 < i < |gaps| - 1 :: gaps[i] != []
  }

  lemma GapsTail(gaps: seq<string>, d: char)
    requires |gaps| > 1 && GapsOk(gaps, d)
    ensures GapsOk(gaps[1..], d) && (|gaps| > 2 ==> gaps[1] != []) && (forall j | 0 <= j < |gaps[0]| :: gaps[0][j] == d)
    ensures forall j | 0 <= j < |gaps[1]| :: gaps[1][j] == d
  {
    assert forall i | 0 <= i < |gaps[1..]| :: gaps[1..][i] == gaps[i + 1];
  }

  /** What follows a token in a weave begins with a delimiter. */
  lemma WeaveHead(ts: seq<string>, gaps: seq<string>, d: char)
    requires |gaps| == |ts| + 1 && (ts != [] ==> gaps[0] != []) && forall j | 0 <= j < |gaps[0]| :: gaps[0][j] == d
    ensures Weave(ts, gaps) != [] ==> Weave(ts, gaps)[0] == d
  {
  }

  lemma WeaveCons(x: string, ts: seq<string>, gap: string, gaps: seq<string>)
    requires |gaps| == |ts| + 1
    ensures Weave([x] + ts, [gap] + gaps) == gap + x + Weave(ts, gaps)
  {
    assert ([x] + ts)[1..] == ts && ([gap] + gaps)[1..] == gaps;
  }

  lemma {:induction false} TokensOfWeave(ts: seq<string>, gaps: seq<string>, d: char)
    requires |gaps| == |ts| + 1 && AllTokens(ts, d) && GapsOk(gaps, d)
    ensures Tokens(Weave(ts, gaps), d) == ts
    decreases |ts|
  {
    if ts == [] {
      SkipGap(gaps[0], "", d);
      assert gaps[0] + "" == gaps[0];
    } else {
      WeaveStep(ts, gaps, d);
      TokensOfWeave(ts[1..], gaps[1..], d);
    }
  }

  lemma WeaveStep(ts: seq<string>, gaps: seq<string>, d: char)
    requires ts != [] && |gaps| == |ts| + 1 && AllTokens(ts, d) && GapsOk(gaps, d)
    ensures GapsOk(gaps[1..], d) && Tokens(Weave(ts, gaps), d) == [ts[0]] + Tokens(Weave(ts[1..], gaps[1..]), d)
  {
    hide Tokens, GapsOk, Weave;
    GapsTail(gaps, d);
    WeaveHead(ts[1..], gaps[1..], d);
    var rest := Weave(ts[1..], gaps[1..]);
    TakeToken(ts[0], rest, d);
    SkipGap(gaps[0], ts[0] + rest, d);
    WeaveCons(ts[0], ts[1..], gaps[0], gaps[1..]);
    assert gaps[0] + ts[0] + rest == gaps[0] + (ts[0] + rest);
    assert [ts[0]] + ts[1..] == ts && [gaps[0]] + gaps[1..] == gaps;
  }

  /** The gaps between the tokens of `s`. */
  function GapsOf(s: string, d: char): (gaps: seq<string>)
    ensures |gaps| == |Tokens(s, d)| + 1 && gaps[0] == s[..Skip(s, d)]
    decreases |s|
  {
    var t := s[Skip(s, d)..];
    [s[..Skip(s, d)]] + if t == [] then [] else GapsOf(t[Span(t, d)..], d)
  }

  lemma GapsCons(gap: string, rest: seq<string>, d: char)
    requires GapsOk(rest, d) && rest != [] && (|rest| > 1 ==> rest[0] != []) && forall j | 0 <= j < |gap| :: gap[j] == d
    ensures GapsOk([gap] + rest, d)
  {
  }

  /** Every string is its tokens with such gaps; so strtok finds exactly the maximal runs without the delimiter. */
  lemma {:induction false} WeaveOfTokens(s: string, d: char)
    ensures GapsOk(GapsOf(s, d), d) && s == Weave(Tokens(s, d), GapsOf(s, d))
    decreases |s|
  {
    hide GapsOk, Weave, Tokens, GapsOf, Span, Skip;
    var n := Skip(s, d);
    var t := s[n..];
    Unfold(s, d);
    if t == [] {
      NoWeave(s, d);
    } else {
      var m := Span(t, d);
      WeaveOfTokens(t[m..], d);
      GapsCons(s[..n], GapsOf(t[m..], d), d);
      WeaveCons(t[..m], Tokens(t[m..], d), s[..n], GapsOf(t[m..], d));
      Split(s, n, m);
    }
  }

  lemma Split(s: string, n: nat, m: nat)
    requires n + m <= |s|
    ensures s == s[..n] + s[n..][..m] + s[n..][m..]
  {
  }

  lemma Unfold(s: string, d: char)
    ensures var t := s[Skip(s, d)..];
      if t == [] then Tokens(s, d) == [] && GapsOf(s, d) == [s]
      else
        && Tokens(s, d) == [t[..Span(t, d)]] + Tokens(t[Span(t, d)..], d)
        && GapsOf(s, d) == [s[..Skip(s, d)]] + GapsOf(t[Span(t, d)..], d)
        && (|GapsOf(t[Span(t, d)..], d)| > 1 ==> GapsOf(t[Span(t, d)..], d)[0] != [])
        && Span(t, d) > 0
  {
    var t := s[Skip(s, d)..];
    if t == [] {
      assert s[..Skip(s, d)] == s;
    } else {
      var u := t[Span(t, d)..];
      if |GapsOf(u, d)| > 1 {
        assert u != [] && u[0] == d;
        assert GapsOf(u, d)[0] == u[..Skip(u, d)] && Skip(u, d) > 0;
      }
    }
  }

  lemma NoWeave(s: string, d: char)
    requires forall j | 0 <= j < |s| :: s[j] == d
    ensures GapsOk([s], d) && Weave([], [s]) == s
  {
  }

  /** The state strtok keeps between its calls. */
  class Strtok {
    var text: string
    var pos: nat

    ghost predicate Valid()
      reads this
    {
      pos <= |text|
    }

    ghost function Rest(): string
      requires Valid()
      reads this
    {
      text[pos..]
    }

    /** strtok with a string: the scan starts over. */
    constructor (s: string)
      ensures Valid() && Rest() == s
    {
      text, pos := s, 0;
    }

    /** strtok: past the delimiters, and up to the next. */
    method Next(d: char) returns (t: Option<string>)
      requires Valid()
      modifies this
      ensures Valid() && text == old(text)
      ensures var ts := Tokens(old(Rest()), d);
        if ts == [] then t == None else t == Some(ts[0]) && Tokens(Rest(), d) == ts[1..]
    {
      hide Tokens;
      var start := pos;
      while start < |text| && text[start] == d
        invariant pos <= start <= |text| && forall i | pos <= i < start :: text[i] == d
      {
        start := start + 1;
      }
      var end := start;
      while end < |text| && text[end] != d
        invariant start <= end <= |text| && forall i | start <= i < end :: text[i] != d
      {
        end := end + 1;
      }
      NextToken(text, pos, start, end, d);
      t := if start == |text| then None else Some(text[start..end]);
      pos := if end < |text| then end + 1 else end;
    }
  }

  lemma NoTokens(d: char)
    ensures Tokens([], d) == []
  {
  }

  lemma NextToken(text: string, pos: nat, start: nat, end: nat, d: char)
    requires pos <= start <= end <= |text|
    requires (forall i | pos <= i < start :: text[i] == d) && (start < |text| ==> text[start] != d)
    requires (forall i | start <= i < end :: text[i] != d) && (end < |text| ==> text[end] == d)
    ensures if start == |text| then Tokens(text[pos..], d) == []
      else Tokens(text[pos..], d) == [text[start..end]] + Tokens(text[if end < |text| then end + 1 else end..], d)
  {
    hide Tokens;
    var gap, t, s := text[pos..start], text[start..end], text[end..];
    SkipGap(gap, text[start..], d);
    assert text[pos..] == gap + text[start..] && text[start..] == t + s;
    if start == |text| {
      NoTokens(d);
      assert text[start..] == [];
    } else {
      TakeToken(t, s, d);
      if end < |text| {
        assert s == [d] + text[end + 1..];
        SkipGap([d], text[end + 1..], d);
      }
    }
  }

  // strstr

  predicate OccursAt(s: string, x: string, i: nat) {
    i + |x| <= |s| && s[i..i + |x|] == x
  }

  lemma OccursLater(s: string, x: string, i: nat)
    requires s != []
    ensures OccursAt(s[1..], x, i) <==> OccursAt(s, x, i + 1)
  {
    if i + |x| < |s| {
      assert s[1..][i..i + |x|] == s[i + 1..i + 1 + |x|];
    }
  }

  /** Where `x` first occurs. */
  function Strstr(s: string, x: string): Option<nat> {
    if OccursAt(s, x, 0) then Some(0)
    else if s == [] then None
    else match Strstr(s[1..], x)
      case None => None
      case Some(i) => Some(i + 1)
  }

  lemma {:induction false} StrstrIs(s: string, x: string)
    ensures var r := Strstr(s, x);
      if r == None then forall i: nat :: !OccursAt(s, x, i)
      else OccursAt(s, x, r.value) && forall i: nat | i < r.value :: !OccursAt(s, x, i)
  {
    if !OccursAt(s, x, 0) && s != [] {
      StrstrIs(s[1..], x);
      forall i: nat
        ensures i > 0 ==> (OccursAt(s, x, i) <==> OccursAt(s[1..], x, i - 1))
      {
        if i > 0 { OccursLater(s, x, i - 1); }
      }
    }
  }
}
