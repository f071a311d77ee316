/** The Bloom filter in front of a lookup: a bit vector stored in bytes. */
module Bloom {
  import opened Bits

  function Bit(k: nat): bv8
    requires k < 8
  {
    1 << k
  }

  /** The byte array holds 2^nbits bits, in at least one byte. */
  function ByteLen(nbits: nat): nat {
    Pow2(nbits) / 8 + if Pow2(nbits) % 8 != 0 then 1 else 0
  }

  function Index(hashv: nat, nbits: nat): (i: nat)
    ensures i / 8 < ByteLen(nbits)
  {
    MaskIsMod(hashv, nbits);
    And(hashv, Pow2(nbits) - 1)
  }

  predicate Test(bv: array<bv8>, nbits: nat, hashv: nat)
    requires bv.Length == ByteLen(nbits)
    reads bv
  {
    var i := Index(hashv, nbits);
    bv[i / 8] & Bit(i % 8) != 0
  }

  /** A filter without bits lets nothing through. */
  lemma ClearTestsNone(bv: array<bv8>, nbits: nat)
    requires bv.Length == ByteLen(nbits) && forall i | 0 <= i < bv.Length :: bv[i] == 0
    ensures forall h :: !Test(bv, nbits, h)
  {
    forall h
      ensures !Test(bv, nbits, h)
    {
      var b := Bit(Index(h, nbits) % 8);
      assert 0 & b == 0;
    }
  }

  lemma SetTest(x: bv8, j: nat, k: nat)
    requires j < 8 && k < 8
    ensures (x | Bit(j)) & Bit(k) != 0 <==> x & Bit(k) != 0 || j == k
  {
    assert Bit(0) == 1 && Bit(1) == 2 && Bit(2) == 4 && Bit(3) == 8;
    assert Bit(4) == 16 && Bit(5) == 32 && Bit(6) == 64 && Bit(7) == 128;
  }

  /** HASH_BLOOM_ADD: afterwards exactly the hash values sharing the new bit test positive as well. */
  method Add(bv: array<bv8>, nbits: nat, hashv: nat)
    requires bv.Length == ByteLen(nbits)
    modifies bv
    ensures forall h :: Test(bv, nbits, h) <==> old(Test(bv, nbits, h)) || Index(h, nbits) == Index(hashv, nbits)
  {
    var i := Index(hashv, nbits);
    ghost var was := bv[..];
    bv[i / 8] := bv[i / 8] | Bit(i % 8);
    forall h
      ensures Test(bv, nbits, h) <==> old(Test(bv, nbits, h)) || Index(h, nbits) == i
    {
      var k := Index(h, nbits);
      SetTest(was[k / 8], i % 8, k % 8);
    }
  }
}
