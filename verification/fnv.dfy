/**
 * The 64-bit FNV-1a hash (Fowler/Noll/Vo, as in IETF draft-eastlake-fnv),
 * the hash behind Go's `hash/fnv.New64a`.
 *
 * The state is a 64-bit word; arithmetic on `bv64` wraps modulo 2^64, which
 * is exactly the multiplication the algorithm prescribes.
 */
module Fnv {
  import opened GoStrings

  /**
   * One FNV-1a round: xor the byte into the low bits, then multiply by the
   * 64-bit FNV prime 0x100000001b3 (written out here so that the verifier
   * can compute with it).
   */
  function Step(h: bv64, b: Byte): bv64 {
    (h ^ (b as bv8 as bv64)) * 0x0000_0100_0000_01b3
  }

  /** The rounds for every byte of `data`, first byte first, starting from state `h`. */
  function Fold(h: bv64, data: GoString): bv64
    decreases |data|
  {
    if data == [] then h else Fold(Step(h, data[0]), data[1..])
  }

  /**
   * The FNV-1a sum of `data`, as `fnv.New64a()` followed by `Write(data)`
   * and `Sum64()`: the rounds start from the 64-bit offset basis
   * 0xcbf29ce484222325.
   */
  function Sum64(data: GoString): bv64 {
    Fold(0xcbf2_9ce4_8422_2325, data)
  }

  /** Hashing in two writes gives the same state as hashing the concatenation. */
  lemma {:induction false} FoldAppend(h: bv64, a: GoString, b: GoString)
    ensures Fold(h, a + b) == Fold(Fold(h, a), b)
    decreases |a|
  {
    if a == [] {
      assert a + b == b;
    } else {
      assert (a + b)[0] == a[0];
      assert (a + b)[1..] == a[1..] + b;
      FoldAppend(Step(h, a[0]), a[1..], b);
    }
  }

  /** The sum of `data` followed by one more byte is one more round on the sum of `data`. */
  lemma Sum64Snoc(data: GoString, b: Byte)
    ensures Sum64(data + [b]) == Step(Sum64(data), b)
  {
    FoldAppend(0xcbf2_9ce4_8422_2325, data, [b]);
    assert [b][1..] == [];
  }

  /** Published FNV-1a 64 test vectors: the sums of "" and of "a". */
  lemma KnownSums()
    ensures Sum64("") == 0xcbf2_9ce4_8422_2325
    ensures Sum64("a") == 0xaf63_dc4c_8601_ec8c
  {
    var a: GoString := "a";
    assert a[0] == 'a' && a[1..] == [];
    assert Step(0xcbf2_9ce4_8422_2325, 'a') == 0xaf63_dc4c_8601_ec8c;
  }


  /** Folding a byte in front of the rest is one round, then the rest. */
  lemma FoldCons(h: bv64, b: Byte, rest: GoString)
    ensures Fold(h, [b] + rest) == Fold(Step(h, b), rest)
  {
    assert ([b] + rest)[1..] == rest;
  }

  /** Three known rounds fold three leading bytes at once. */
  lemma FoldThree(h0: bv64, h1: bv64, h2: bv64, h3: bv64, b0: Byte, b1: Byte, b2: Byte, rest: GoString)
    requires Step(h0, b0) == h1 && Step(h1, b1) == h2 && Step(h2, b2) == h3
    ensures Fold(h0, [b0, b1, b2] + rest) == Fold(h3, rest)
  {
    assert [b0, b1, b2] + rest == [b0] + ([b1] + ([b2] + rest));
    FoldCons(h0, b0, [b1] + ([b2] + rest));
    FoldCons(h1, b1, [b2] + rest);
    FoldCons(h2, b2, rest);
  }

  /** The six rounds of "foobar", from the offset basis. */
  lemma FoobarRounds()
    ensures Step(0xcbf2_9ce4_8422_2325, 'f') == 0xaf63_db4c_8601_ead9
    ensures Step(0xaf63_db4c_8601_ead9, 'o') == 0x0898_5907_b541_d342
    ensures Step(0x0898_5907_b541_d342, 'o') == 0xdcb2_7518_fed9_d577
    ensures Step(0xdcb2_7518_fed9_d577, 'b') == 0xdd12_0e79_0c25_12af
    ensures Step(0xdd12_0e79_0c25_12af, 'a') == 0xcac1_65af_a2fe_f40a
    ensures Step(0xcac1_65af_a2fe_f40a, 'r') == 0x8594_4171_f739_67e8
  {
  }

  /** The published FNV-1a 64 vector for "foobar", one round per byte. */
  lemma KnownSumFoobar()
    ensures Sum64("foobar") == 0x8594_4171_f739_67e8
  {
    var empty: GoString := [];
    FoobarRounds();
    assert "foobar" == ['f'] + (['o'] + (['o'] + (['b'] + (['a'] + (['r'] + empty)))));
    FoldCons(0xcbf2_9ce4_8422_2325, 'f', "oobar");
    FoldCons(0xaf63_db4c_8601_ead9, 'o', "obar");
    FoldCons(0x0898_5907_b541_d342, 'o', "bar");
    FoldCons(0xdcb2_7518_fed9_d577, 'b', "ar");
    FoldCons(0xdd12_0e79_0c25_12af, 'a', "r");
    FoldCons(0xcac1_65af_a2fe_f40a, 'r', empty);
  }
}
