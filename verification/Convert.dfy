/** A request's pairs against a provider's: the check of its keys, the merge with the defaults, and the look-up of a value. */
module Convert {
  import opened Registry
  import opened Strings
  import opened ArgList

  predicate HaveKeys(ts: seq<string>) {
    forall i | 0 <= i < |ts| :: HasKey(ts[i])
  }

  /** The position of the first pair with this key, or the length. */
  function FirstKey(ts: seq<string>, key: string): (i: nat)
    requires HaveKeys(ts)
    ensures i <= |ts| && (forall j | 0 <= j < i :: KeyOf(ts[j]) != key) && (i < |ts| ==> KeyOf(ts[i]) == key)
  {
    if ts == [] || KeyOf(ts[0]) == key then 0 else 1 + FirstKey(ts[1..], key)
  }

  predicate HasKeyIn(ts: seq<string>, key: string)
    requires HaveKeys(ts)
  {
    FirstKey(ts, key) < |ts|
  }

  lemma FirstKeyIs(ts: seq<string>, key: string, i: nat)
    requires HaveKeys(ts) && i <= |ts| && (forall j | 0 <= j < i :: KeyOf(ts[j]) != key) && (i < |ts| ==> KeyOf(ts[i]) == key)
    ensures FirstKey(ts, key) == i
  {
  }

  /** The inner loop of compare_array and forward_convert, and the key it has extracted last. */
  method FindKey(ts: seq<string>, key: string) returns (i: nat, last: Option<string>)
    requires HaveKeys(ts)
    ensures i == FirstKey(ts, key) && (last == None <==> ts == [])
  {
    i, last := 0, None;
    while i < |ts|
      invariant i <= |ts| && (last == None <==> i == 0) && forall j | 0 <= j < i :: KeyOf(ts[j]) != key
    {
      var k := ExtractKey(ts[i]);
      last := Some(k);
      if k == key {
        break;
      }
      i := i + 1;
    }
    FirstKeyIs(ts, key, i);
  }

  /** compare_array: is every key of the request one of the provider's? It frees a key that it has not got if a list is empty. */
  method CompareArray(np: seq<string>, getn: seq<string>) returns (r: Option<int>)
    requires HaveKeys(np) && HaveKeys(getn)
    ensures r == if np == [] || getn == [] then None else Some(if Accepted(np, getn) then 0 else -1)
  {
    var keyOne, keyTwo: Option<string> := None, None;
    var ret := 0;
    for one := 0 to |getn|
      invariant ret == 0 && (keyOne == None <==> one == 0) && (keyTwo == None <==> one == 0 || np == [])
      invariant forall i | 0 <= i < one :: HasKeyIn(np, KeyOf(getn[i]))
    {
      var key := ExtractKey(getn[one]);
      keyOne := Some(key);
      var two, last := FindKey(np, key);
      keyTwo := if last == None then keyTwo else last;
      if two == |np| {
        ret := -1;
        break;
      }
    }
    if keyOne == None || keyTwo == None {
      return None;
    }
    r := Some(ret);
  }

  predicate Accepted(np: seq<string>, getn: seq<string>)
    requires HaveKeys(np) && HaveKeys(getn)
  {
    forall i | 0 <= i < |getn| :: HasKeyIn(np, KeyOf(getn[i]))
  }

  /** The request's pair with the key of `p`, or else `p` itself. */
  function Pick(p: string, getn: seq<string>): string
    requires HasKey(p) && HaveKeys(getn)
  {
    var i := FirstKey(getn, KeyOf(p));
    if i < |getn| then getn[i] else p
  }

  function Merged(np: seq<string>, getn: seq<string>): seq<string>
    requires HaveKeys(np) && HaveKeys(getn)
  {
    seq(|np|, i requires 0 <= i < |np| => Pick(np[i], getn))
  }

  /** What forward_convert leaves in memory: the text ends two characters early, and the last '#' stays behind its end. */
  function Buffer(ts: seq<string>): string {
    Join(ts) + "\0#\0"
  }

  /** Every pair with "##" behind it. */
  function Appended(ts: seq<string>): string {
    if ts == [] then "" else Appended(ts[..|ts| - 1]) + ts[|ts| - 1] + "##"
  }

  lemma {:induction false} AppendedCons(t: string, ts: seq<string>)
    ensures Appended([t] + ts) == t + "##" + Appended(ts)
    decreases |ts|
  {
    if ts == [] {
      assert ([t] + ts)[..0] == [];
    } else {
      var n := |ts| - 1;
      AppendedCons(t, ts[..n]);
      assert ([t] + ts)[..n + 1] == [t] + ts[..n];
    }
  }

  lemma {:induction false} AppendedIsJoin(ts: seq<string>)
    requires ts != []
    ensures Appended(ts) == Join(ts) + "##"
  {
    assert [ts[0]] + ts[1..] == ts;
    AppendedCons(ts[0], ts[1..]);
    if |ts| > 1 {
      AppendedIsJoin(ts[1..]);
    }
  }

  /** forward_convert. */
  method ForwardConvert(np: seq<string>, getn: seq<string>) returns (fillit: string)
    requires np != [] && HaveKeys(np) && HaveKeys(getn)
    ensures fillit == Buffer(Merged(np, getn))
  {
    hide Appended, Buffer, FirstKey;
    var ret := "";
    EmptyAppended();
    ghost var ts := Merged(np, getn);
    for two := 0 to |np|
      invariant ret == Appended(ts[..two])
    {
      AppendedSnoc(ts, two);
      var key := ExtractKey(np[two]);
      var one, last := FindKey(getn, key);
      if one < |getn| {
        ret := ret + getn[one] + "##";
      } else {
        ret := ret + np[two] + "##";
      }
    }
    assert ts[..|np|] == ts;
    fillit := ret + "\0";
    fillit := Ended(ts, fillit);
  }

  /** The last step: the terminator moves two characters forward. */
  method Ended(ghost ts: seq<string>, buf: string) returns (fillit: string)
    requires ts != [] && buf == Appended(ts) + "\0"
    ensures fillit == Buffer(ts)
  {
    AppendedIsJoin(ts);
    fillit := buf[|buf| - 3 := '\0'];
    assert fillit == Join(ts) + "\0#\0";
  }

  lemma EmptyAppended()
    ensures Appended([]) == ""
  {
  }

  lemma AppendedSnoc(ts: seq<string>, k: nat)
    requires k < |ts|
    ensures Appended(ts[..k + 1]) == Appended(ts[..k]) + ts[k] + "##"
  {
    assert ts[..k + 1][..k] == ts[..k];
  }

  /** The text in a buffer, up to its terminator. */
  function Text(buf: string): string {
    buf[..Span(buf, '\0')]
  }

  predicate Found(buf: string, key: string) {
    Strstr(Text(buf), key + SEP) != None
  }

  /** Where strstr finds the key. */
  function Occurrence(buf: string, key: string): (i: nat)
    requires Found(buf, key)
    ensures i <= |buf|
  {
    StrstrIs(Text(buf), key + SEP);
    Strstr(Text(buf), key + SEP).value
  }

  /** What get_val_from_args copies: from the occurrence to the next '#', seen by strcpy as far as a terminator. */
  function Fetched(buf: string, key: string): string
    requires Found(buf, key)
  {
    var occ := buf[Occurrence(buf, key)..];
    Text(occ[..Span(occ, '#')])
  }

  /** get_val_from_args. It reads on to a '#', whether or not the text has ended. */
  method GetValFromArgs(buf: string, key: string) returns (val: string)
    requires Found(buf, key) && '#' in buf[Occurrence(buf, key)..]
    ensures val == Fetched(buf, key)
  {
    var occ := Occurrence(buf, key);
    ghost var rest := buf[occ..];
    ghost var n := Span(rest, '#');
    var local, i := "", occ;
    while buf[i] != '#'
      invariant occ <= i <= occ + n < |buf| && local == rest[..i - occ]
      decreases |buf| - i
    {
      assert buf[i] == rest[i - occ];
      local := local + [buf[i]];
      i := i + 1;
    }
    assert rest[i - occ] == buf[i];
    val := Text(local);
  }

  // The merge fills in defaults

  lemma PairFacts(p: string)
    requires Pair(p)
    ensures HasKey(p) && KeyOf(p) == p[..Span(p, ':')] && IsToken(p, '#') && Occurrences(p, SEP) == 1
    ensures OccursAt(p, KeyOf(p) + SEP, 0) && '#' !in KeyOf(p) && '\0' !in KeyOf(p) && KeyOf(p) != []
  {
    KeyOfPair(p);
    var n := Span(p, ':');
    assert p[..n + 2] == p[..n] + p[n..n + 2];
  }

  lemma PairsHaveKeys(ts: seq<string>)
    requires Pairs(ts)
    ensures HaveKeys(ts)
  {
    forall i | 0 <= i < |ts|
      ensures HasKey(ts[i])
    {
      PairFacts(ts[i]);
    }
  }

  /** One pair for each key of the provider, in its order: the request's first with this key, or the default. */
  lemma MergedFacts(np: seq<string>, getn: seq<string>)
    requires HaveKeys(np) && HaveKeys(getn)
    ensures var m := Merged(np, getn);
      |m| == |np| && HaveKeys(m) && forall i | 0 <= i < |np| :: KeyOf(m[i]) == KeyOf(np[i])
    ensures Pairs(np) && Pairs(getn) ==> Pairs(Merged(np, getn))
  {
  }

  /** Where the request has the key its first pair with it counts, and where it has not, the default. */
  lemma MergedFrom(np: seq<string>, getn: seq<string>, i: nat)
    requires HaveKeys(np) && HaveKeys(getn) && i < |np|
    ensures (forall j | 0 <= j < |getn| :: KeyOf(getn[j]) != KeyOf(np[i])) ==> Merged(np, getn)[i] == np[i]
    ensures forall j | 0 <= j < |getn| && KeyOf(getn[j]) == KeyOf(np[i]) && KeyOf(np[i]) !in KeysOf(getn[..j]) ::
      Merged(np, getn)[i] == getn[j]
  {
    hide Tokens;
    forall j | 0 <= j < |getn| && KeyOf(getn[j]) == KeyOf(np[i]) && KeyOf(np[i]) !in KeysOf(getn[..j])
      ensures Merged(np, getn)[i] == getn[j]
    {
      assert forall h | 0 <= h < j :: KeysOf(getn[..j])[h] == KeyOf(getn[h]);
      FirstKeyIs(getn, KeyOf(np[i]), j);
    }
  }

  function KeysOf(ts: seq<string>): seq<string>
    requires HaveKeys(ts)
  {
    seq(|ts|, i requires 0 <= i < |ts| => KeyOf(ts[i]))
  }

  /** Parsing what forward_convert wrote gives the merged pairs. */
  lemma Reparsed(np: seq<string>, getn: seq<string>)
    requires Pairs(np) && Pairs(getn)
    ensures HaveKeys(np) && HaveKeys(getn)
    ensures Text(Buffer(Merged(np, getn))) == Join(Merged(np, getn))
    ensures Extracted(Text(Buffer(Merged(np, getn)))) == Merged(np, getn)
  {
    hide Merged, Tokens, Join, Pair;
    PairsHaveKeys(np);
    PairsHaveKeys(getn);
    var m := Merged(np, getn);
    MergedFacts(np, getn);
    TextOfBuffer(m);
    ExtractedOfJoin(m);
  }

  lemma {:induction false} JoinHasNoEnd(ts: seq<string>)
    requires forall i | 0 <= i < |ts| :: '\0' !in ts[i]
    ensures '\0' !in Join(ts)
  {
    if |ts| > 1 { JoinHasNoEnd(ts[1..]); }
  }

  lemma TextOfBuffer(ts: seq<string>)
    requires Pairs(ts)
    ensures Text(Buffer(ts)) == Join(ts)
  {
    JoinHasNoEnd(ts);
    SpanIs(Buffer(ts), '\0', |Join(ts)|);
  }

  lemma PickAgain(np: seq<string>, getn: seq<string>, i: nat)
    requires HaveKeys(np) && HaveKeys(getn) && HaveKeys(Merged(np, getn)) && i < |np|
    ensures var m := Merged(np, getn); Pick(np[i], m) == m[FirstKey(np, KeyOf(np[i]))]
  {
    var m, j := Merged(np, getn), FirstKey(np, KeyOf(np[i]));
    MergedFacts(np, getn);
    FirstKeyIs(m, KeyOf(np[i]), j);
  }

  /** The default that counts for a key is the first with it. */
  ghost predicate OneDefault(np: seq<string>, getn: seq<string>)
    requires HaveKeys(np) && HaveKeys(getn)
  {
    forall i | 0 <= i < |np| ::
      np[i] == np[FirstKey(np, KeyOf(np[i]))] || HasKeyIn(getn, KeyOf(np[i]))
  }

  /** Merging the result once more changes nothing, exactly if no key has two defaults that are left to it. */
  lemma Idempotent(np: seq<string>, getn: seq<string>)
    requires HaveKeys(np) && HaveKeys(getn)
    ensures HaveKeys(Merged(np, getn))
    ensures Merged(np, Merged(np, getn)) == Merged(np, getn) <==> OneDefault(np, getn)
  {
    MergedFacts(np, getn);
    var m := Merged(np, getn);
    var mm := Merged(np, m);
    forall i | 0 <= i < |np|
      ensures mm[i] == m[i] <==> np[i] == np[FirstKey(np, KeyOf(np[i]))] || HasKeyIn(getn, KeyOf(np[i]))
    {
      PickAgain(np, getn, i);
    }
    if OneDefault(np, getn) {
      assert mm == m;
    }
  }

  /** No two pairs of the request differ under the same key. */
  ghost predicate OneRequest(getn: seq<string>)
    requires HaveKeys(getn)
  {
    forall i | 0 <= i < |getn| :: getn[i] == getn[FirstKey(getn, KeyOf(getn[i]))]
  }

  /** Every pair of the request comes through, exactly if compare_array accepts it and no two pairs contradict each other. */
  lemma Lossless(np: seq<string>, getn: seq<string>)
    requires HaveKeys(np) && HaveKeys(getn)
    ensures (forall x | x in getn :: x in Merged(np, getn)) <==> Accepted(np, getn) && OneRequest(getn)
  {
    MergedFacts(np, getn);
    forall i | 0 <= i < |getn|
      ensures getn[i] in Merged(np, getn)
        <==> HasKeyIn(np, KeyOf(getn[i])) && getn[i] == getn[FirstKey(getn, KeyOf(getn[i]))]
    {
      KeptIff(np, getn, i);
    }
    if forall x | x in getn :: x in Merged(np, getn) {
      forall i | 0 <= i < |getn|
        ensures HasKeyIn(np, KeyOf(getn[i])) && getn[i] == getn[FirstKey(getn, KeyOf(getn[i]))]
      {
        assert getn[i] in getn;
      }
    }
  }

  lemma KeptIff(np: seq<string>, getn: seq<string>, i: nat)
    requires HaveKeys(np) && HaveKeys(getn) && i < |getn|
    ensures getn[i] in Merged(np, getn)
      <==> HasKeyIn(np, KeyOf(getn[i])) && getn[i] == getn[FirstKey(getn, KeyOf(getn[i]))]
  {
    hide Tokens, FirstKey;
    MergedFacts(np, getn);
    var m, key := Merged(np, getn), KeyOf(getn[i]);
    var k, j := FirstKey(getn, key), FirstKey(np, key);
    assert k < |getn|;
    if j < |np| {
      assert m[j] == getn[k];
    }
    if getn[i] in m {
      var h :| 0 <= h < |m| && m[h] == getn[i];
      assert KeyOf(np[h]) == key;
    }
  }

  // Looking values up in the buffer

  /** What a look-up of `key` comes to, pair by pair. */
  function ValueIn(ts: seq<string>, key: string): Option<string> {
    if ts == [] then None
    else match Strstr(ts[0], key + SEP)
      case Some(o) => StrstrIs(ts[0], key + SEP); Some(ts[0][o..])
      case None => ValueIn(ts[1..], key)
  }

  lemma StrstrUnique(s: string, x: string, i: nat)
    requires OccursAt(s, x, i) && forall j: nat | j < i :: !OccursAt(s, x, j)
    ensures Strstr(s, x) == Some(i)
  {
    StrstrIs(s, x);
  }

  /** A text without '#' occurs on one side of a '#' or on the other. */
  lemma Across(t: string, u: string, x: string, i: nat)
    requires x != [] && '#' !in x
    ensures OccursAt(t + "#" + u, x, i) <==> OccursAt(t, x, i) || (i > |t| && OccursAt(u, x, i - |t| - 1))
  {
    var s := t + "#" + u;
    if i + |x| <= |s| {
      if i + |x| <= |t| {
        assert s[i..i + |x|] == t[i..i + |x|];
      } else if i > |t| {
        assert s[i..i + |x|] == u[i - |t| - 1..i - |t| - 1 + |x|];
      } else {
        assert s[i..i + |x|][|t| - i] == '#';
      }
    }
  }

  lemma StrstrLeft(t: string, u: string, x: string, o: nat)
    requires x != [] && '#' !in x && Strstr(t, x) == Some(o)
    ensures Strstr(t + "#" + u, x) == Some(o)
  {
    hide OccursAt, Strstr;
    StrstrIs(t, x);
    Inside(t, x, o);
    forall i: nat | i < o
      ensures !OccursAt(t + "#" + u, x, i)
    {
      Across(t, u, x, i);
    }
    Across(t, u, x, o);
    StrstrUnique(t + "#" + u, x, o);
  }

  lemma Inside(t: string, x: string, o: nat)
    requires OccursAt(t, x, o)
    ensures o <= |t|
  {
  }

  lemma StrstrRight(t: string, u: string, x: string)
    requires x != [] && '#' !in x && Strstr(t, x) == None
    ensures Strstr(t + "#" + u, x) == match Strstr(u, x) case None => None case Some(i) => Some(|t| + 1 + i)
  {
    hide OccursAt, Strstr;
    StrstrIs(t, x);
    StrstrIs(u, x);
    forall i: nat
      ensures OccursAt(t + "#" + u, x, i) <==> i > |t| && OccursAt(u, x, i - |t| - 1)
    {
      Across(t, u, x, i);
    }
    match Strstr(u, x) {
      case Some(i) => StrstrUnique(t + "#" + u, x, |t| + 1 + i);
      case None => StrstrIs(t + "#" + u, x);
    }
  }

  /** The empty text holds no key. */
  lemma StrstrEmpty(x: string)
    requires x != []
    ensures Strstr([], x) == None
  {
  }

  // One pair at the head of the buffer

  lemma TextCons(t: string, buf: string)
    requires '\0' !in t
    ensures Text(t + buf) == t + Text(buf)
  {
    SpanIs(t + buf, '\0', |t| + Span(buf, '\0'));
  }

  /** A look-up that the first pair answers. */
  lemma FetchedHere(t: string, buf: string, key: string, o: nat)
    requires IsToken(t, '#') && '\0' !in t && '#' !in key && buf != [] && buf[0] == '#'
    requires Strstr(t, key + SEP) == Some(o) && o <= |t|
    ensures Found(t + buf, key) && Fetched(t + buf, key) == t[o..]
  {
    TextCons(t, buf);
    TextHash(buf);
    StrstrLeft(t, Text(buf)[1..], key + SEP, o);
    assert Text(t + buf) == t + "#" + Text(buf)[1..];
    assert (t + buf)[o..] == t[o..] + buf;
    SpanIs(t[o..] + buf, '#', |t| - o);
    assert (t[o..] + buf)[..|t| - o] == t[o..];
    SpanIs(t[o..], '\0', |t| - o);
  }

  lemma TextHash(buf: string)
    requires buf != [] && buf[0] == '#'
    ensures Text(buf) != [] && Text(buf)[0] == '#' && [Text(buf)[0]] + Text(buf)[1..] == Text(buf) && Text(buf)[1..] == Text(buf[1..])
  {
  }

  /** A look-up that the first pair leaves to the rest. */
  lemma FetchedLater(t: string, buf: string, key: string)
    requires '#' !in t && '\0' !in t && '#' !in key && Strstr(t, key + SEP) == None
    ensures Found(t + "#" + buf, key) <==> Found(buf, key)
    ensures Found(buf, key) ==> Fetched(t + "#" + buf, key) == Fetched(buf, key)
  {
    TextCons(t + "#", buf);
    StrstrRight(t, Text(buf), key + SEP);
    if Found(buf, key) {
      var i := Occurrence(buf, key);
      assert Occurrence(t + "#" + buf, key) == |t| + 1 + i;
      assert (t + "#" + buf)[|t| + 1 + i..] == buf[i..];
    }
  }

  lemma HashFirst(buf: string, key: string)
    requires '#' !in key
    ensures Found("#" + buf, key) <==> Found(buf, key)
    ensures Found(buf, key) ==> Fetched("#" + buf, key) == Fetched(buf, key)
  {
    StrstrEmpty(key + SEP);
    FetchedLater("", buf, key);
    assert "" + "#" + buf == "#" + buf;
  }

  lemma TokenOf(t: string)
    requires Pair(t)
    ensures IsToken(t, '#') && '\0' !in t
  {
  }

  /** The last pair ends at the terminator. */
  lemma LastPair(t: string, end: string, key: string)
    requires IsToken(t, '#') && '\0' !in t && end == "\0#\0"
    ensures Found(t + end, key) <==> Strstr(t, key + SEP) != None
    ensures Found(t + end, key) ==>
      Strstr(t, key + SEP).value <= |t| && Fetched(t + end, key) == t[Strstr(t, key + SEP).value..]
  {
    hide Span, Text, OccursAt, Strstr;
    LastText(t);
    StrstrIs(t, key + SEP);
    if Strstr(t, key + SEP).Some? {
      var o := Strstr(t, key + SEP).value;
      Inside(t, key + SEP, o);
      LastText(t[o..]);
      DropPart(t, end, o);
    }
  }

  lemma DropPart(t: string, u: string, o: nat)
    requires o <= |t|
    ensures (t + u)[o..] == t[o..] + u
  {
  }

  lemma LastText(u: string)
    requires '#' !in u && '\0' !in u
    ensures Text(u + "\0#\0") == u
    ensures Text((u + "\0#\0")[..Span(u + "\0#\0", '#')]) == u
  {
    SpanIs(u + "\0#\0", '\0', |u|);
    SpanIs(u + "\0#\0", '#', |u| + 1);
    assert (u + "\0#\0")[..|u| + 1] == u + "\0";
    SpanIs(u + "\0", '\0', |u|);
  }

  /** The look-up in the buffer is the look-up pair by pair; the last pair is no exception, since a '#' follows its terminator. */
  lemma {:induction false} FetchedIs(ts: seq<string>, key: string)
    requires ts != [] && Pairs(ts) && '#' !in key
    ensures ValueIn(ts, key) == if Found(Buffer(ts), key) then Some(Fetched(Buffer(ts), key)) else None
  {
    hide Pair, Found, Fetched, Strstr;
    var t := ts[0];
    TokenOf(t);
    StrstrIs(t, key + SEP);
    if |ts| == 1 {
      LastPair(t, "\0#\0", key);
      assert Join(ts) == t;
      assert ValueIn(ts[1..], key) == None;
    } else {
      var rest := Buffer(ts[1..]);
      FetchedIs(ts[1..], key);
      assert Buffer(ts) == t + ("##" + rest) == t + "#" + ("#" + rest);
      if Strstr(t, key + SEP).Some? {
        FetchedHere(t, "##" + rest, key, Strstr(t, key + SEP).value);
      } else {
        FetchedLater(t, "#" + rest, key);
        HashFirst(rest, key);
      }
    }
  }

  /** The first pair in which the key and "::" occur, or the number of pairs. */
  function Holder(ts: seq<string>, key: string): (i: nat)
    ensures i <= |ts| && (forall j | 0 <= j < i :: Strstr(ts[j], key + SEP) == None)
    ensures i < |ts| ==> Strstr(ts[i], key + SEP) != None
  {
    if ts == [] || Strstr(ts[0], key + SEP) != None then 0 else 1 + Holder(ts[1..], key)
  }

  lemma {:induction false} ValueInHolder(ts: seq<string>, key: string)
    requires Holder(ts, key) < |ts|
    ensures var t := ts[Holder(ts, key)]; var o := Strstr(t, key + SEP).value;
      o <= |t| && ValueIn(ts, key) == Some(t[o..])
  {
    hide Strstr, OccursAt;
    if Holder(ts, key) == 0 {
      StrstrIs(ts[0], key + SEP);
      Inside(ts[0], key + SEP, Strstr(ts[0], key + SEP).value);
    } else {
      ValueInHolder(ts[1..], key);
    }
  }

  /** The scan for the end of a pair stays within the buffer. */
  lemma HashAhead(ts: seq<string>, key: string)
    requires Pairs(ts) && Found(Buffer(ts), key)
    ensures '#' in Buffer(ts)[Occurrence(Buffer(ts), key)..]
  {
    hide Strstr;
    TextOfBuffer(ts);
    StrstrIs(Join(ts), key + SEP);
    var o := Occurrence(Buffer(ts), key);
    assert Buffer(ts)[o..][|Join(ts)| + 1 - o] == '#';
  }

  lemma KeyInPair(p: string)
    requires Pair(p)
    ensures HasKey(p) && Strstr(p, KeyOf(p) + SEP) == Some(0) && '#' !in KeyOf(p)
  {
    PairFacts(p);
    StrstrUnique(p, KeyOf(p) + SEP, 0);
  }

  /**
   Whatever key of the provider is asked for in what forward_convert wrote, the
   scan stays in the buffer and returns what stands in the first pair that has
   "key::" anywhere, from there on; so the right pair comes back exactly if that
   text is the pair, and in particular if no pair before it has "key::".
   */
  lemma WholePair(np: seq<string>, getn: seq<string>, j: nat)
    requires Pairs(np) && Pairs(getn) && j < |np|
    ensures HaveKeys(np) && HaveKeys(getn)
    ensures var m, key := Merged(np, getn), KeyOf(np[j]); var i := Holder(m, key);
      && i <= j && Found(Buffer(m), key) && '#' in Buffer(m)[Occurrence(Buffer(m), key)..]
      && Strstr(m[i], key + SEP).value <= |m[i]|
      && (Fetched(Buffer(m), key) == m[j] <==> m[i][Strstr(m[i], key + SEP).value..] == m[j])
      && (i == j ==> Fetched(Buffer(m), key) == m[j])
  {
    hide Tokens, Pair, Strstr, Merged, Found, Fetched, Buffer, ValueIn, Holder;
    PairsHaveKeys(np);
    PairsHaveKeys(getn);
    var m, key := Merged(np, getn), KeyOf(np[j]);
    MergedFacts(np, getn);
    KeyInPair(m[j]);
    ValueInHolder(m, key);
    FetchedIs(m, key);
    HashAhead(m, key);
  }

  /** A key and a value without colons have one "::" between them. */
  lemma OneSeparator(k: string, v: string)
    requires IsToken(k, ':') && ':' !in v
    ensures Occurrences(k + SEP + v, SEP) == 1
  {
    hide Occurrences;
    var p, n := k + SEP + v, |k|;
    assert p[n..n + 2] == SEP;
    forall i: nat | i < n
      ensures !OccursAt(p, SEP, i)
    {
      assert p[i..i + 2][0] == k[i];
    }
    SkipTo(p, SEP, n);
    var r := p[n + 1..];
    assert r == ":" + v;
    forall i: nat
      ensures !OccursAt(r, SEP, i)
    {
      if i + 2 <= |r| { assert r[i..i + 2][1] == v[i]; }
    }
    NoneLeft(r, SEP);
  }

  /** They make a pair. */
  lemma PairOf(k: string, v: string)
    requires IsToken(k, ':') && ':' !in v && '#' !in k + v && '\0' !in k + v
    ensures Pair(k + SEP + v)
  {
    hide Occurrences;
    var p, n := k + SEP + v, |k|;
    SpanIs(p, ':', n);
    assert p[n..n + 2] == SEP;
    OneSeparator(k, v);
  }

  lemma InDiscount()
    ensures Strstr("discount::5", "count" + SEP) == Some(3) && "discount::5"[3..] == "count::5"
  {
    var t, x := "discount::5", "count" + SEP;
    assert t[3..10] == x;
    assert t[0..7][0] != x[0] && t[1..8][0] != x[0] && t[2..9][0] != x[0];
    StrstrUnique(t, x, 3);
  }

  /** A key that ends in another key hides that key's pair. */
  lemma HiddenExample()
    ensures Pairs(["discount::5", "count::1"])
    ensures var buf := Buffer(["discount::5", "count::1"]); Found(buf, "count") && Fetched(buf, "count") == "count::5"
  {
    hide Pair, Strstr, Found, Fetched, Buffer;
    var ts := ["discount::5", "count::1"];
    PairOf("discount", "5");
    PairOf("count", "1");
    assert "discount" + SEP + "5" == ts[0] && "count" + SEP + "1" == ts[1];
    InDiscount();
    FetchedIs(ts, "count");
  }

  /** The key occurs in an earlier pair, and yet the right pair comes back. */
  lemma HarmlessExample()
    ensures Holder(["xcount::1", "count::1"], "count") == 0
    ensures ValueIn(["xcount::1", "count::1"], "count") == Some("count::1")
  {
    var ts, t, x := ["xcount::1", "count::1"], "xcount::1", "count" + SEP;
    assert t[1..8] == x && t[0..7][0] != x[0];
    StrstrUnique(t, x, 1);
    assert t[1..] == "count::1";
  }
}
