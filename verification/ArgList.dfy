/** The argument language: lists of key::val pairs, separated by runs of '#'. */
module ArgList {
  import opened Registry
  import opened Strings

  const SEP := "::"

  function Min(a: nat, b: nat): nat { if a < b then a else b }

  // Counting

  /** How often `x` occurs, occurrences that overlap counted separately. */
  function Occurrences(s: string, x: string): nat {
    if s == [] then 0 else (if OccursAt(s, x, 0) then 1 else 0) + Occurrences(s[1..], x)
  }

  ghost function Places(s: string, x: string): set<nat> {
    set i: nat | i < |s| && OccursAt(s, x, i)
  }

  /** The count is the number of places at which `x` occurs. */
  lemma {:induction false} OccurrencesArePlaces(s: string, x: string)
    ensures Occurrences(s, x) == |Places(s, x)|
  {
    hide OccursAt, Places;
    if s == [] {
      NoPlaces(x);
    } else {
      OccurrencesArePlaces(s[1..], x);
      PlacesStep(s, x);
      ShiftSize(Places(s[1..], x));
    }
  }

  lemma NoPlaces(x: string)
    ensures Places("", x) == {}
  {
  }

  lemma PlacesStep(s: string, x: string)
    requires s != []
    ensures Places(s, x) == (if OccursAt(s, x, 0) then {0} else {}) + Shift(Places(s[1..], x))
    ensures 0 !in Shift(Places(s[1..], x))
  {
    hide OccursAt;
    forall i: nat
      ensures i + 1 in Places(s, x) <==> i in Places(s[1..], x)
    {
      OccursLater(s, x, i);
    }
    assert forall i | i in Places(s, x) && i > 0 :: i - 1 in Places(s[1..], x);
  }

  ghost function Shift(a: set<nat>): set<nat> {
    set i | i in a :: i + 1
  }

  lemma {:induction false} ShiftSize(a: set<nat>)
    ensures |Shift(a)| == |a|
  {
    if a != {} {
      var i :| i in a;
      ShiftSize(a - {i});
      assert Shift(a) == Shift(a - {i}) + {i + 1} by {
        assert forall j | j in a && j != i :: j in a - {i};
      }
      assert i + 1 !in Shift(a - {i});
    } else {
      assert Shift(a) == {};
    }
  }

  lemma {:induction false} SkipTo(s: string, x: string, r: nat)
    requires r < |s| && OccursAt(s, x, r) && forall i: nat | i < r :: !OccursAt(s, x, i)
    ensures Occurrences(s, x) == 1 + Occurrences(s[r + 1..], x)
  {
    if r > 0 {
      OccursLater(s, x, r - 1);
      forall i: nat | i < r - 1
        ensures !OccursAt(s[1..], x, i)
      {
        OccursLater(s, x, i);
      }
      SkipTo(s[1..], x, r - 1);
      assert s[1..][r..] == s[r + 1..];
    }
  }

  lemma {:induction false} NoneLeft(s: string, x: string)
    requires forall i: nat :: !OccursAt(s, x, i)
    ensures Occurrences(s, x) == 0
  {
    if s != [] {
      forall i: nat
        ensures !OccursAt(s[1..], x, i)
      {
        OccursLater(s, x, i);
      }
      NoneLeft(s[1..], x);
    }
  }

  lemma CountNext(s: string, x: string, tmp: nat)
    requires x != [] && tmp <= |s|
    ensures match Strstr(s[tmp..], x)
      case None => Occurrences(s[tmp..], x) == 0
      case Some(r) => tmp + r < |s| && Occurrences(s[tmp..], x) == 1 + Occurrences(s[tmp + r + 1..], x)
  {
    var rest := s[tmp..];
    StrstrIs(rest, x);
    match Strstr(rest, x) {
      case None => NoneLeft(rest, x);
      case Some(r) =>
        SkipTo(rest, x, r);
        assert rest[r + 1..] == s[tmp + r + 1..];
    }
  }

  /** count_args: after each match the search goes on one character further. */
  method CountArgs(myString: string, delim: string) returns (count: nat)
    requires delim != []
    ensures count == Occurrences(myString, delim)
  {
    hide Occurrences, Strstr;
    count := 0;
    var tmp := 0;
    assert myString[0..] == myString;
    while true
      invariant tmp <= |myString|
      invariant count + Occurrences(myString[tmp..], delim) == Occurrences(myString, delim)
      decreases |myString| - tmp
    {
      var r := Strstr(myString[tmp..], delim);
      CountNext(myString, delim, tmp);
      if r == None {
        return;
      }
      count := count + 1;
      tmp := tmp + r.value + 1;
    }
  }

  /** No "::" reaches over a '#'. */
  lemma {:induction false} CountAcross(a: string, b: string)
    requires b != [] ==> b[0] == '#'
    ensures Occurrences(a + b, SEP) == Occurrences(a, SEP) + Occurrences(b, SEP)
  {
    if a == [] {
      assert a + b == b;
    } else {
      assert (a + b)[1..] == a[1..] + b;
      CountAcross(a[1..], b);
      AcrossFirst(a, b);
    }
  }

  lemma AcrossFirst(a: string, b: string)
    requires a != [] && (b != [] ==> b[0] == '#')
    ensures OccursAt(a + b, SEP, 0) <==> OccursAt(a, SEP, 0)
  {
    if |a + b| >= 2 {
      assert (a + b)[0..2] == [(a + b)[0], (a + b)[1]];
      assert (a + b)[0..2] == SEP <==> (a + b)[0] == ':' && (a + b)[1] == ':';
    }
    if |a| >= 2 {
      assert a[0..2] == SEP <==> a[0] == ':' && a[1] == ':';
    }
  }

  lemma {:induction false} CountGap(gap: string, s: string)
    requires forall i | 0 <= i < |gap| :: gap[i] == '#'
    ensures Occurrences(gap + s, SEP) == Occurrences(s, SEP)
  {
    if gap == [] {
      assert gap + s == s;
    } else {
      assert (gap + s)[1..] == gap[1..] + s;
      CountGap(gap[1..], s);
      assert (gap + s)[0] == '#';
      if |gap + s| >= 2 { assert (gap + s)[0..2][0] != SEP[0]; }
    }
  }

  function TotalOccurrences(ts: seq<string>): nat {
    if ts == [] then 0 else Occurrences(ts[0], SEP) + TotalOccurrences(ts[1..])
  }

  lemma TotalCons(t: string, ts: seq<string>)
    ensures TotalOccurrences([t] + ts) == Occurrences(t, SEP) + TotalOccurrences(ts)
  {
    assert ([t] + ts)[1..] == ts;
  }

  /** The count of the whole is that of its tokens. */
  lemma {:induction false} CountTokens(s: string)
    ensures Occurrences(s, SEP) == TotalOccurrences(Tokens(s, '#'))
    decreases |s|
  {
    hide Tokens, Occurrences, TotalOccurrences, Span, Skip, GapsOf;
    var n := Skip(s, '#');
    var t := s[n..];
    Unfold(s, '#');
    CountGap(s[..n], t);
    if t == [] {
      Nothing();
      assert s[..n] + t == s;
    } else {
      var m := Span(t, '#');
      CountTokens(t[m..]);
      CountAcross(t[..m], t[m..]);
      TotalCons(t[..m], Tokens(t[m..], '#'));
      Split(s, n, m);
      assert s[..n] + t == s && t[..m] + t[m..] == t;
    }
  }

  lemma Nothing()
    ensures Occurrences([], SEP) == 0 && TotalOccurrences([]) == 0
  {
  }

  // Extraction

  /** The slots that extract_key_val fills before it writes the null pointer. */
  function Extracted(usage: string): seq<string> {
    var ts := Tokens(usage, '#');
    ts[..Min(|ts|, Occurrences(usage, SEP))]
  }

  function Max(a: nat, b: nat): nat { if a > b then a else b }

  /** The index at which extract_key_val writes the null pointer; its array has one slot more than there are "::". */
  function NullAt(usage: string): nat {
    Max(1, Min(|Tokens(usage, '#')|, Occurrences(usage, SEP)))
  }

  /** A null pointer is followed, the array is left, or the slots are filled. */
  datatype Extraction = NoToken | PastEnd(slots: array<Option<string>>) | Slots(slots: array<Option<string>>)

  /** extract_key_val: without a token it copies from a null pointer, and without any "::" it writes behind its one slot. */
  method ExtractKeyVal(usage: string) returns (out: Extraction)
    ensures match out
      case NoToken => Tokens(usage, '#') == []
      case PastEnd(keyVal) => Tokens(usage, '#') != [] && NullAt(usage) >= keyVal.Length == Occurrences(usage, SEP) + 1
      case Slots(keyVal) =>
        && Tokens(usage, '#') != [] && NullAt(usage) < keyVal.Length == Occurrences(usage, SEP) + 1
        && |Extracted(usage)| == NullAt(usage) && keyVal[NullAt(usage)] == None
        && forall i | 0 <= i < NullAt(usage) :: keyVal[i] == Some(Extracted(usage)[i])
  {
    hide Tokens, Occurrences;
    var cnt := CountArgs(usage, SEP);
    var keyVal := new Option<string>[cnt + 1](_ => None);
    var strtok := new Strtok(usage);
    ghost var ts := Tokens(usage, '#');
    var ptr := strtok.Next('#');
    if ptr == None {
      return NoToken;
    }
    keyVal[0] := ptr;
    var i := 1;
    while i < cnt
      invariant 1 <= i <= Max(1, cnt) && i <= |ts| && strtok.Valid() && Tokens(strtok.Rest(), '#') == ts[i..]
      invariant forall j | 0 <= j < i :: j <= cnt && keyVal[j] == Some(ts[j])
    {
      ptr := strtok.Next('#');
      if ptr == None {
        break;
      }
      keyVal[i] := ptr;
      i := i + 1;
    }
    if i >= keyVal.Length {
      return PastEnd(keyVal);
    }
    keyVal[i] := None;
    out := Slots(keyVal);
  }

  /** It stays within its memory exactly on strings with a "::" in them. */
  lemma ExtractsSafely(usage: string)
    ensures Tokens(usage, '#') != [] && NullAt(usage) < Occurrences(usage, SEP) + 1 <==> Occurrences(usage, SEP) >= 1
  {
    hide Tokens, Occurrences;
    CountTokens(usage);
    if Occurrences(usage, SEP) >= 1 {
      SomeToken(Tokens(usage, '#'));
    }
  }

  /** It does so and loses no token exactly if there is a token and there are at least as many "::" as tokens. */
  lemma ExtractsAll(usage: string)
    ensures Occurrences(usage, SEP) >= 1 && Extracted(usage) == Tokens(usage, '#')
      <==> 1 <= |Tokens(usage, '#')| <= Occurrences(usage, SEP)
  {
    ExtractsSafely(usage);
  }

  lemma PastEndExample()
    ensures Tokens("npname:x", '#') == ["npname:x"] && NullAt("npname:x") == 1 == Occurrences("npname:x", SEP) + 1
  {
    hide Tokens, Occurrences;
    var u := "npname:x";
    TakeToken(u, "", '#');
    NoTokens('#');
    assert u + "" == u && [u] + [] == [u];
    forall i: nat
      ensures !OccursAt(u, SEP, i)
    {
      if i + 2 <= |u| { assert u[i..i + 2] == [u[i], u[i + 1]] && u[i..i + 2][0] == u[i] && u[i..i + 2][1] == u[i + 1]; }
    }
    NoneLeft(u, SEP);
  }

  lemma NoTokenExample()
    ensures Tokens("###", '#') == [] && Tokens("", '#') == []
  {
    NoTokens('#');
    SkipGap("###", "", '#');
    assert "###" + "" == "###";
  }

  lemma SomeToken(ts: seq<string>)
    requires TotalOccurrences(ts) >= 1
    ensures ts != []
  {
  }

  /** A well-formed pair: a key, "::", and a value without a further "::". */
  predicate Pair(p: string) {
    && IsToken(p, '#') && '\0' !in p && p[0] != ':'
    && Occurrences(p, SEP) == 1 && OccursAt(p, SEP, Span(p, ':'))
  }

  predicate Pairs(ts: seq<string>) {
    forall i | 0 <= i < |ts| :: Pair(ts[i])
  }

  lemma {:induction false} OneEach(ts: seq<string>)
    requires forall i | 0 <= i < |ts| :: Occurrences(ts[i], SEP) == 1
    ensures TotalOccurrences(ts) == |ts|
  {
    if ts != [] { OneEach(ts[1..]); }
  }

  /** Nothing is lost if every token has its "::" exactly once. */
  lemma ExtractedIsTokens(s: string)
    requires forall i | 0 <= i < |Tokens(s, '#')| :: Occurrences(Tokens(s, '#')[i], SEP) == 1
    ensures Extracted(s) == Tokens(s, '#')
  {
    CountTokens(s);
    OneEach(Tokens(s, '#'));
  }

  /** Extraction recovers the pairs from any string that puts runs of '#' between, before and behind them. */
  lemma ExtractedOfWeave(ts: seq<string>, gaps: seq<string>)
    requires |gaps| == |ts| + 1 && Pairs(ts) && GapsOk(gaps, '#')
    ensures Extracted(Weave(ts, gaps)) == ts
  {
    hide Tokens, Weave, Occurrences;
    TokensOfWeave(ts, gaps, '#');
    ExtractedIsTokens(Weave(ts, gaps));
  }

  // Joining

  /** Pairs with "##" between them. */
  function Join(ts: seq<string>): string {
    if ts == [] then "" else if |ts| == 1 then ts[0] else ts[0] + "##" + Join(ts[1..])
  }

  lemma {:induction false} TokensOfJoin(ts: seq<string>)
    requires AllTokens(ts, '#')
    ensures Tokens(Join(ts), '#') == ts
  {
    hide Tokens;
    NoTokens('#');
    if |ts| == 1 {
      TakeToken(ts[0], "", '#');
      assert ts[0] + "" == ts[0] && [ts[0]] + [] == ts;
    } else if |ts| > 1 {
      var rest := Join(ts[1..]);
      TokensOfJoin(ts[1..]);
      SkipGap("##", rest, '#');
      TakeToken(ts[0], "##" + rest, '#');
      assert Join(ts) == ts[0] + ("##" + rest) && [ts[0]] + ts[1..] == ts;
    }
  }

  /** "##" between `n` tokens, and nothing around them. */
  function Between(n: nat): (gaps: seq<string>)
    ensures |gaps| == n + 1
  {
    seq(n + 1, i => if 0 < i < n then "##" else "")
  }

  /** Joining is weaving with "##" between the tokens and nothing around them. */
  lemma {:induction false} JoinIsWeave(ts: seq<string>)
    ensures Join(ts) == Weave(ts, Between(|ts|))
  {
    if |ts| == 1 {
      assert Weave(ts[1..], Between(1)[1..]) == "";
    } else if |ts| > 1 {
      var n := |ts| - 1;
      JoinIsWeave(ts[1..]);
      var inner := Between(n);
      assert Between(n + 1)[1..] == inner[0 := "##"];
      WeaveFirst(ts[1..], inner, "##");
    }
  }

  lemma WeaveFirst(ts: seq<string>, gaps: seq<string>, gap: string)
    requires ts != [] && |gaps| == |ts| + 1 && gaps[0] == ""
    ensures Weave(ts, gaps[0 := gap]) == gap + Weave(ts, gaps)
  {
    assert gaps[0 := gap][1..] == gaps[1..];
  }

  lemma PairsAreTokens(ts: seq<string>)
    requires Pairs(ts)
    ensures AllTokens(ts, '#')
  {
  }

  /** Extraction inverts joining. */
  lemma ExtractedOfJoin(ts: seq<string>)
    requires Pairs(ts)
    ensures Extracted(Join(ts)) == ts
  {
    hide Tokens, Join, Occurrences;
    PairsAreTokens(ts);
    TokensOfJoin(ts);
    ExtractedIsTokens(Join(ts));
  }

  // Keys and values

  /** A key can be extracted: strtok finds something that is not a colon. */
  predicate HasKey(p: string) {
    Tokens(p, ':') != []
  }

  function KeyOf(p: string): string
    requires HasKey(p)
  {
    Tokens(p, ':')[0]
  }

  /** extract_key. */
  method ExtractKey(keyVal: string) returns (key: string)
    requires HasKey(keyVal)
    ensures key == KeyOf(keyVal)
  {
    var strtok := new Strtok(keyVal);
    var ptr := strtok.Next(':');
    key := ptr.value;
  }

  /** extract_val: what follows two characters behind the key. */
  method ExtractVal(keyVal: string) returns (val: string)
    requires HasKey(keyVal) && |KeyOf(keyVal)| + 2 <= |keyVal|
    ensures val == keyVal[|KeyOf(keyVal)| + 2..]
  {
    var strtok := new Strtok(keyVal);
    var ptr := strtok.Next(':');
    val := keyVal[|ptr.value| + 2..];
  }

  lemma KeyOfPair(p: string)
    requires p != [] && p[0] != ':'
    ensures HasKey(p) && KeyOf(p) == p[..Span(p, ':')]
  {
    SkipIs(p, ':', 0);
    assert p[0..] == p;
  }

  /** Key, "::" and value make up the pair again exactly if the first colon begins a "::". */
  lemma SplitsBack(p: string)
    requires p != [] && p[0] != ':'
    ensures HasKey(p)
    ensures |KeyOf(p)| + 2 <= |p| && p == KeyOf(p) + SEP + p[|KeyOf(p)| + 2..] <==> OccursAt(p, SEP, Span(p, ':'))
  {
    hide Tokens;
    KeyOfPair(p);
    var n := Span(p, ':');
    if n + 2 <= |p| {
      assert p == p[..n] + p[n..n + 2] + p[n + 2..];
      if p == KeyOf(p) + SEP + p[n + 2..] {
        assert (KeyOf(p) + SEP + p[n + 2..])[n..n + 2] == SEP;
      }
    }
  }
}
