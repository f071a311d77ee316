/**
 Bucket expansion: every chain of the old array is drained, front to back, and
 each element is pushed onto the front of its chain in an array twice as long.
 */
module Expand {
  import opened Bits
  import opened Elements
  import opened Buckets

  /** The members of chain `c` that belong in bucket `b` of `m`, last first. */
  ghost function Picked<V>(c: seq<Elem<V>>, b: nat, m: nat, hash: string -> nat): seq<Elem<V>>
    requires m > 0
  {
    if c == [] then []
    else
      var e, r := c[|c| - 1], Picked(c[..|c| - 1], b, m, hash);
      if Slot(hash(e.key), m) == b then [e] + r else r
  }

  /** New chain `b` once old chains `0..i` and the first `j` elements of chain `i` have moved. */
  ghost function Moved<V>(old_: seq<seq<Elem<V>>>, i: nat, j: nat, b: nat, hash: string -> nat): seq<Elem<V>>
    requires |old_| > 0 && i <= |old_| && (i < |old_| ==> j <= |old_[i]|)
  {
    var s := Slot(b, |old_|);
    if s < i then Picked(old_[s], b, 2 * |old_|, hash)
    else if s == i then Picked(old_[i][..j], b, 2 * |old_|, hash)
    else []
  }

  ghost predicate MovedAll<V>(old_: seq<seq<Elem<V>>>, cs: seq<seq<Elem<V>>>, i: nat, j: nat, hash: string -> nat)
    requires |old_| > 0 && i <= |old_| && (i < |old_| ==> j <= |old_[i]|)
  {
    && |cs| == 2 * |old_|
    && forall b | 0 <= b < |cs| :: cs[b] == Moved(old_, i, j, b, hash)
  }

  function Excess(n: nat, ideal: nat): nat {
    if n > ideal then n - ideal else 0
  }

  ghost function Nonideal<V>(cs: seq<seq<Elem<V>>>, ideal: nat): nat {
    if cs == [] then 0 else Nonideal(cs[..|cs| - 1], ideal) + Excess(|cs[|cs| - 1]|, ideal)
  }

  lemma {:induction false} NonidealPush<V>(cs: seq<seq<Elem<V>>>, ideal: nat, b: nat, c: seq<Elem<V>>)
    requires b < |cs| && |c| == |cs[b]| + 1
    ensures Nonideal(cs[b := c], ideal) == Nonideal(cs, ideal) + if |c| > ideal then 1 else 0
  {
    var m := |cs| - 1;
    if b == m {
      assert cs[b := c][..m] == cs[..m];
    } else {
      assert cs[b := c][..m] == cs[..m][b := c];
      NonidealPush(cs[..m], ideal, b, c);
    }
  }

  /** The places at which a chain is longer than it should be. */
  ghost function Beyond<V>(cs: seq<seq<Elem<V>>>, ideal: nat): set<(nat, nat)> {
    set b: nat, i: nat | b < |cs| && ideal <= i < |cs[b]| :: (b, i)
  }

  /** The excess is the number of these places. */
  lemma {:induction false} NonidealCounts<V>(cs: seq<seq<Elem<V>>>, ideal: nat)
    ensures Nonideal(cs, ideal) == |Beyond(cs, ideal)|
  {
    if cs == [] {
      assert Beyond(cs, ideal) == {};
    } else {
      var n := |cs| - 1;
      NonidealCounts(cs[..n], ideal);
      var last := Row(n, ideal, Excess(|cs[n]|, ideal));
      RowSize(n, ideal, Excess(|cs[n]|, ideal));
      assert Beyond(cs, ideal) == Beyond(cs[..n], ideal) + last;
      assert Beyond(cs[..n], ideal) !! last;
    }
  }

  ghost function Row(b: nat, from: nat, n: nat): set<(nat, nat)> {
    set i: nat | from <= i < from + n :: (b, i)
  }

  lemma {:induction false} RowSize(b: nat, from: nat, n: nat)
    ensures |Row(b, from, n)| == n
  {
    if n == 0 {
      assert Row(b, from, 0) == {};
    } else {
      RowSize(b, from, n - 1);
      assert Row(b, from, n) == Row(b, from, n - 1) + {(b, from + n - 1)};
    }
  }

  ghost predicate Tuned<V>(bs: array<Bucket<V>>, ideal: nat)
    requires ideal > 0
    reads bs
  {
    forall b | 0 <= b < bs.Length :: bs[b].expandMult == Mult(bs[b].count, ideal)
  }

  /** The expansion threshold multiplier of a chain of the given length. */
  function Mult(count: nat, ideal: nat): nat
    requires ideal > 0
  {
    if count > ideal then count / ideal else 0
  }

  /** It says how often the ideal length goes into a chain that is longer. */
  lemma MultIs(count: nat, ideal: nat)
    requires ideal > 0
    ensures Mult(count, ideal) * ideal <= count
    ensures Mult(count, ideal) == 0 <==> count <= ideal
    ensures count > ideal ==> count < (Mult(count, ideal) + 1) * ideal
  {
    if count > ideal {
      var m := count / ideal;
      assert count == m * ideal + count % ideal;
      assert (m + 1) * ideal == m * ideal + ideal;
      if m == 0 { assert false; }
    }
  }

  method Tune<V>(nb: array<Bucket<V>>, b: nat, ideal: nat, nonideal0: nat, ghost cs: seq<seq<Elem<V>>>) returns (nonideal: nat)
    requires ideal > 0 && Linked(nb, cs) && b < nb.Length
    requires forall i | 0 <= i < nb.Length && i != b :: nb[i].expandMult == Mult(nb[i].count, ideal)
    requires nb[b].count > 0 && nb[b].expandMult == Mult(nb[b].count - 1, ideal)
    modifies nb
    ensures Linked(nb, cs) && Tuned(nb, ideal)
    ensures nonideal == nonideal0 + if nb[b].count > ideal then 1 else 0
  {
    nonideal := nonideal0;
    if nb[b].count > ideal {
      nonideal := nonideal + 1;
      nb[b] := nb[b].(expandMult := nb[b].count / ideal);
    }
  }

  lemma {:induction false} MoveOne<V>(old_: seq<seq<Elem<V>>>, cs: seq<seq<Elem<V>>>, i: nat, j: nat, b: nat, hash: string -> nat)
    requires Placed(old_, hash) && i < |old_| && j < |old_[i]|
    requires MovedAll(old_, cs, i, j, hash)
    requires b == Slot(hash(old_[i][j].key), |cs|)
    ensures MovedAll(old_, cs[b := [old_[i][j]] + cs[b]], i, j + 1, hash)
  {
    var e := old_[i][j];
    assert e in old_[i];
    DoublingSplits(hash(e.key), |old_|);
    assert Slot(b, |old_|) == i;
    assert old_[i][..j+1][..j] == old_[i][..j];
    assert old_[i][..j+1][j] == e;
  }

  lemma ItemsPush<V>(cs: seq<seq<Elem<V>>>, b: nat, e: Elem<V>)
    requires b < |cs|
    ensures Items(cs[b := [e] + cs[b]]) == Items(cs) + {e}
  {
    var c, cs' := cs[b], cs[b := [e] + cs[b]];
    assert cs'[b][0] == e;
    forall i, j | 0 <= i < |cs| && 0 <= j < |cs[i]|
      ensures cs[i][j] in Items(cs')
    {
      if i == b { assert cs'[b][j + 1] == c[j]; } else { assert cs'[i][j] == cs[i][j]; }
    }
  }

  /** One step of the expansion: push `e` and account for an over-full chain. */
  method Rebucket<V>(nb: array<Bucket<V>>, b: nat, e: Elem<V>, ideal: nat, nonideal0: nat,
                     ghost cs: seq<seq<Elem<V>>>, ghost hash: string -> nat)
    returns (nonideal: nat)
    requires ideal > 0 && Placed(cs, hash) && Linked(nb, cs) && Tuned(nb, ideal)
    requires nonideal0 == Nonideal(cs, ideal)
    requires b == Slot(hash(e.key), |cs|) && e !in Items(cs)
    modifies nb, e`hhPrev, e`hhNext, Items(cs)`hhPrev
    ensures var cs' := cs[b := [e] + cs[b]];
      Placed(cs', hash) && Linked(nb, cs') && nonideal == Nonideal(cs', ideal) && Items(cs') == Items(cs) + {e}
    ensures Tuned(nb, ideal)
  {
    hide ChainLinked, Nonideal, Mult;
    NonidealPush(cs, ideal, b, [e] + cs[b]);
    PlacedPush(cs, hash, e, b);
    ItemsPush(cs, b, e);
    PushFront(nb, b, e, cs, hash);
    nonideal := Tune(nb, b, ideal, nonideal0, cs[b := [e] + cs[b]]);
  }

  lemma {:induction false} PickedFrom<V>(c: seq<Elem<V>>, b: nat, m: nat, hash: string -> nat)
    requires m > 0
    ensures forall e | e in Picked(c, b, m, hash) :: e in c
  {
    if c != [] {
      PickedFrom(c[..|c| - 1], b, m, hash);
    }
  }

  /** Only elements already passed are in the new chains. */
  lemma MovedItems<V>(old_: seq<seq<Elem<V>>>, cs: seq<seq<Elem<V>>>, i: nat, j: nat, hash: string -> nat)
    requires Placed(old_, hash) && i < |old_| && j <= |old_[i]|
    requires MovedAll(old_, cs, i, j, hash)
    ensures forall t | j <= t < |old_[i]| :: old_[i][t] !in Items(cs)
    ensures Items(cs) <= Items(old_)
  {
    forall b, k | 0 <= b < |cs| && 0 <= k < |cs[b]|
      ensures cs[b][k] in Items(old_)
      ensures forall t | j <= t < |old_[i]| :: old_[i][t] != cs[b][k]
    {
      var e, s := cs[b][k], Slot(b, |old_|);
      if s < i {
        PickedFrom(old_[s], b, 2 * |old_|, hash);
        assert e in old_[s];
        ChainsDisjoint(old_, hash, s);
      } else {
        PickedFrom(old_[i][..j], b, 2 * |old_|, hash);
        assert e in old_[i][..j];
        assert e in old_[i];
      }
    }
  }

  /**
   The new array once old chains `0..i` and the first `j` elements of chain `i`
   have moved: `cs` are its chains, and the counters are those of the chains.
   */
  ghost predicate Spread<V>(nb: array<Bucket<V>>, cs: seq<seq<Elem<V>>>, ideal: nat, nonideal: nat,
                            old_: seq<seq<Elem<V>>>, i: nat, j: nat, hash: string -> nat)
    requires ideal > 0 && |old_| > 0 && i <= |old_| && (i < |old_| ==> j <= |old_[i]|)
    reads nb, Items(cs)`hhPrev, Items(cs)`hhNext
  {
    && MovedAll(old_, cs, i, j, hash)
    && Placed(cs, hash) && Linked(nb, cs) && Tuned(nb, ideal)
    && nonideal == Nonideal(cs, ideal)
  }

  /** What is left of a chain being drained is still linked forward. */
  ghost predicate Rest<V>(h: Elem?<V>, c: seq<Elem<V>>, j: nat, hash: string -> nat)
    reads c`hhNext, c`hashv
  {
    && j <= |c| && h == (if j < |c| then c[j] else null)
    && (forall t {:trigger c[t].hhNext} :: j <= t < |c| ==> c[t].hhNext == if t == |c| - 1 then null else c[t + 1])
    && (forall t {:trigger c[t].hashv} :: j <= t < |c| ==> c[t].hashv == hash(c[t].key))
  }

  method MoveNext<V>(nb: array<Bucket<V>>, e: Elem<V>, ideal: nat, nonideal0: nat,
                     ghost old_: seq<seq<Elem<V>>>, ghost i: nat, ghost j: nat, ghost cs0: seq<seq<Elem<V>>>, ghost hash: string -> nat)
    returns (nonideal: nat, ghost cs: seq<seq<Elem<V>>>)
    requires ideal > 0 && Placed(old_, hash) && i < |old_| && j < |old_[i]|
    requires e == old_[i][j] && e.hashv == hash(e.key)
    requires Spread(nb, cs0, ideal, nonideal0, old_, i, j, hash)
    modifies nb, e`hhNext, Items(old_)`hhPrev
    ensures Spread(nb, cs, ideal, nonideal, old_, i, j + 1, hash)
  {
    assert nb.Length == |cs0| > 0 && e in Items(old_);
    hide Slot, Linked, Tuned, Nonideal, MovedAll, Placed, Items;
    var b := Slot(e.hashv, nb.Length);
    MovedItems(old_, cs0, i, j, hash);
    MoveOne(old_, cs0, i, j, b, hash);
    nonideal := Rebucket(nb, b, e, ideal, nonideal0, cs0, hash);
    cs := cs0[b := [e] + cs0[b]];
  }

  method DrainStep<V>(nb: array<Bucket<V>>, thh: Elem<V>, ideal: nat, nonideal0: nat,
                      ghost old_: seq<seq<Elem<V>>>, ghost i: nat, ghost j: nat, ghost cs0: seq<seq<Elem<V>>>, ghost hash: string -> nat)
    returns (nxt: Elem?<V>, nonideal: nat, ghost cs: seq<seq<Elem<V>>>)
    requires ideal > 0 && Placed(old_, hash) && i < |old_| && j < |old_[i]|
    requires Spread(nb, cs0, ideal, nonideal0, old_, i, j, hash) && Rest(thh, old_[i], j, hash)
    modifies nb, old_[i]`hhNext, Items(old_)`hhPrev
    ensures Spread(nb, cs, ideal, nonideal, old_, i, j + 1, hash) && Rest(nxt, old_[i], j + 1, hash)
  {
    assert Distinct(old_[i]) && thh == old_[i][j];
    hide Spread, Placed, Items;
    nxt := thh.hhNext;
    nonideal, cs := MoveNext(nb, thh, ideal, nonideal0, old_, i, j, cs0, hash);
  }

  method Drain<V>(nb: array<Bucket<V>>, first: Elem?<V>, ideal: nat, nonideal0: nat,
                  ghost old_: seq<seq<Elem<V>>>, ghost i: nat, ghost cs0: seq<seq<Elem<V>>>, ghost hash: string -> nat)
    returns (nonideal: nat, ghost cs: seq<seq<Elem<V>>>)
    requires ideal > 0 && Placed(old_, hash) && i < |old_|
    requires Spread(nb, cs0, ideal, nonideal0, old_, i, 0, hash) && Rest(first, old_[i], 0, hash)
    modifies nb, Items(old_)`hhPrev, old_[i]`hhNext
    ensures Spread(nb, cs, ideal, nonideal, old_, i, |old_[i]|, hash)
  {
    hide Spread, Placed, Items;
    ghost var j := 0;
    var thh := first;
    nonideal, cs := nonideal0, cs0;
    while thh != null
      invariant Rest(thh, old_[i], j, hash)
      invariant Spread(nb, cs, ideal, nonideal, old_, i, j, hash)
      decreases |old_[i]| - j
    {
      thh, nonideal, cs := DrainStep(nb, thh, ideal, nonideal, old_, i, j, cs, hash);
      j := j + 1;
    }
  }

  /** Old chains from `i` on are still to be drained. */
  ghost predicate Pending<V>(bs: array<Bucket<V>>, old_: seq<seq<Elem<V>>>, i: nat, hash: string -> nat)
    reads bs, Items(old_)`hhNext, Items(old_)`hashv
  {
    && bs.Length == |old_| && i <= |old_|
    && forall k | i <= k < |old_| :: Rest(bs[k].hhHead, old_[k], 0, hash)
  }

  lemma MovedNext<V>(old_: seq<seq<Elem<V>>>, cs: seq<seq<Elem<V>>>, i: nat, hash: string -> nat)
    requires Placed(old_, hash) && i < |old_|
    requires MovedAll(old_, cs, i, |old_[i]|, hash)
    ensures MovedAll(old_, cs, i + 1, 0, hash)
  {
    assert old_[i][..|old_[i]|] == old_[i];
    if i + 1 < |old_| {
      assert old_[i + 1][..0] == [];
    }
  }

  method ExpandStep<V>(bs: array<Bucket<V>>, nb: array<Bucket<V>>, i: nat, ideal: nat, nonideal0: nat,
                       ghost old_: seq<seq<Elem<V>>>, ghost cs0: seq<seq<Elem<V>>>, ghost hash: string -> nat)
    returns (nonideal: nat, ghost cs: seq<seq<Elem<V>>>)
    requires ideal > 0 && Placed(old_, hash) && i < |old_| && bs != nb
    requires Pending(bs, old_, i, hash) && Spread(nb, cs0, ideal, nonideal0, old_, i, 0, hash)
    modifies nb, Items(old_)`hhPrev, Items(old_)`hhNext
    ensures Pending(bs, old_, i + 1, hash) && Spread(nb, cs, ideal, nonideal, old_, i + 1, 0, hash)
  {
    ChainsDisjoint(old_, hash, i);
    nonideal, cs := Drain(nb, bs[i].hhHead, ideal, nonideal0, old_, i, cs0, hash);
    MovedNext(old_, cs, i, hash);
    forall k | i < k < |old_|
      ensures Rest(bs[k].hhHead, old_[k], 0, hash)
    {
      assert old(Rest(bs[k].hhHead, old_[k], 0, hash));
      assert forall j | 0 <= j < |old_[k]| :: old_[k][j] !in old_[i];
    }
  }

  /** HASH_EXPAND_BUCKETS, up to the swap of the arrays. */
  method Redistribute<V>(bs: array<Bucket<V>>, ideal: nat, ghost old_: seq<seq<Elem<V>>>, ghost hash: string -> nat)
    returns (nb: array<Bucket<V>>, nonideal: nat, ghost cs: seq<seq<Elem<V>>>)
    requires ideal > 0 && Placed(old_, hash) && Pending(bs, old_, 0, hash)
    modifies Items(old_)`hhPrev, Items(old_)`hhNext
    ensures fresh(nb) && Spread(nb, cs, ideal, nonideal, old_, |old_|, 0, hash)
  {
    nb := new Bucket<V>[2 * bs.Length](_ => Bucket(null, 0, 0));
    cs := seq(2 * bs.Length, _ => []);
    nonideal := 0;
    NothingMoved(old_, cs, ideal, hash);
    for i := 0 to bs.Length
      invariant Pending(bs, old_, i, hash) && Spread(nb, cs, ideal, nonideal, old_, i, 0, hash)
    {
      nonideal, cs := ExpandStep(bs, nb, i, ideal, nonideal, old_, cs, hash);
    }
  }

  lemma {:induction false} NothingMoved<V>(old_: seq<seq<Elem<V>>>, cs: seq<seq<Elem<V>>>, ideal: nat, hash: string -> nat)
    requires |old_| > 0 && |cs| == 2 * |old_| && forall b | 0 <= b < |cs| :: cs[b] == []
    ensures MovedAll(old_, cs, 0, 0, hash) && Placed(cs, hash) && Nonideal(cs, ideal) == 0
  {
    assert old_[0][..0] == [];
    NonidealNone(cs, ideal);
  }

  lemma {:induction false} NonidealNone<V>(cs: seq<seq<Elem<V>>>, ideal: nat)
    requires forall b | 0 <= b < |cs| :: cs[b] == []
    ensures Nonideal(cs, ideal) == 0
  {
    if cs != [] { NonidealNone(cs[..|cs| - 1], ideal); }
  }
}
