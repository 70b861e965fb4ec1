/**
 * The FNV-1a 64 sums of the URLs the urlinfo tests use (urlinfo_test.go):
 * the three entries of malwareURLs and the lookup that must miss. Each sum
 * is worked out one round per byte, so that the digest database's
 * answers on these strings can be stated outright.
 */
module UrlSums {
  import opened GoStrings
  import Fnv

  /** Rounds 1 to 3 of "miss": the hash state around each byte. */
  lemma MissRounds0()
    ensures Fnv.Step(0xcbf2_9ce4_8422_2325, 'm') == 0xaf63_e04c_8601_f358
    ensures Fnv.Step(0xaf63_e04c_8601_f358, 'i') == 0x08a9_5307_b550_3c43
    ensures Fnv.Step(0x08a9_5307_b550_3c43, 's') == 0x07f4_4619_1756_4590
  {
  }

  /** Folding "miss" from byte 1: rounds 1 to 3 taken, the rest left. */
  lemma MissChunk0()
    ensures Fnv.Fold(0xcbf2_9ce4_8422_2325, "miss") == Fnv.Fold(0x07f4_4619_1756_4590, "s")
  {
    MissRounds0();
    assert "miss" == ['m', 'i', 's'] + "s";
    Fnv.FoldThree(0xcbf2_9ce4_8422_2325, 0xaf63_e04c_8601_f358, 0x08a9_5307_b550_3c43, 0x07f4_4619_1756_4590, 'm', 'i', 's', "s");
  }

  /** Round 4 of "miss": the hash state around each byte. */
  lemma MissRounds1()
    ensures Fnv.Step(0x07f4_4619_1756_4590, 's') == 0xda58_ffa2_a798_c0b9
  {
  }

  /** Folding "miss" from byte 4: round 4 taken, which ends the string. */
  lemma MissChunk1()
    ensures Fnv.Fold(0x07f4_4619_1756_4590, "s") == 0xda58_ffa2_a798_c0b9
  {
    var empty: GoString := [];
    MissRounds1();
    assert "s" == ['s'] + empty;
    Fnv.FoldCons(0x07f4_4619_1756_4590, 's', empty);
  }

  /** The FNV-1a 64 sum of "miss". */
  lemma SumMiss()
    ensures Fnv.Sum64("miss") == 0xda58_ffa2_a798_c0b9
  {
    MissChunk0();
    MissChunk1();
  }

  /** Rounds 1 to 3 of "evilfoo.com": the hash state around each byte. */
  lemma EvilFooRounds0()
    ensures Fnv.Step(0xcbf2_9ce4_8422_2325, 'e') == 0xaf63_d84c_8601_e5c0
    ensures Fnv.Step(0xaf63_d84c_8601_e5c0, 'v') == 0x088e_4007_b539_5442
    ensures Fnv.Step(0x088e_4007_b539_5442, 'i') == 0xc30a_f818_f06a_0511
  {
  }

  /** Folding "evilfoo.com" from byte 1: rounds 1 to 3 taken, the rest left. */
  lemma EvilFooChunk0()
    ensures Fnv.Fold(0xcbf2_9ce4_8422_2325, "evilfoo.com") == Fnv.Fold(0xc30a_f818_f06a_0511, "lfoo.com")
  {
    EvilFooRounds0();
    assert "evilfoo.com" == ['e', 'v', 'i'] + "lfoo.com";
    Fnv.FoldThree(0xcbf2_9ce4_8422_2325, 0xaf63_d84c_8601_e5c0, 0x088e_4007_b539_5442, 0xc30a_f818_f06a_0511, 'e', 'v', 'i', "lfoo.com");
  }

  /** Rounds 4 to 6 of "evilfoo.com": the hash state around each byte. */
  lemma EvilFooRounds1()
    ensures Fnv.Step(0xc30a_f818_f06a_0511, 'l') == 0xd5a9_0f60_8427_5367
    ensures Fnv.Step(0xd5a9_0f60_8427_5367, 'f') == 0x3598_2200_8ed2_0ab3
    ensures Fnv.Step(0x3598_2200_8ed2_0ab3, 'o') == 0xe38c_a2f2_aee8_73d4
  {
  }

  /** Folding "evilfoo.com" from byte 4: rounds 4 to 6 taken, the rest left. */
  lemma EvilFooChunk1()
    ensures Fnv.Fold(0xc30a_f818_f06a_0511, "lfoo.com") == Fnv.Fold(0xe38c_a2f2_aee8_73d4, "o.com")
  {
    EvilFooRounds1();
    assert "lfoo.com" == ['l', 'f', 'o'] + "o.com";
    Fnv.FoldThree(0xc30a_f818_f06a_0511, 0xd5a9_0f60_8427_5367, 0x3598_2200_8ed2_0ab3, 0xe38c_a2f2_aee8_73d4, 'l', 'f', 'o', "o.com");
  }

  /** Rounds 7 to 9 of "evilfoo.com": the hash state around each byte. */
  lemma EvilFooRounds2()
    ensures Fnv.Step(0xe38c_a2f2_aee8_73d4, 'o') == 0x906c_9d5f_34fc_a6c1
    ensures Fnv.Step(0x906c_9d5f_34fc_a6c1, '.') == 0x6536_57c7_094f_a81d
    ensures Fnv.Step(0x6536_57c7_094f_a81d, 'c') == 0x4aff_a534_d25b_4e1a
  {
  }

  /** Folding "evilfoo.com" from byte 7: rounds 7 to 9 taken, the rest left. */
  lemma EvilFooChunk2()
    ensures Fnv.Fold(0xe38c_a2f2_aee8_73d4, "o.com") == Fnv.Fold(0x4aff_a534_d25b_4e1a, "om")
  {
    EvilFooRounds2();
    assert "o.com" == ['o', '.', 'c'] + "om";
    Fnv.FoldThree(0xe38c_a2f2_aee8_73d4, 0x906c_9d5f_34fc_a6c1, 0x6536_57c7_094f_a81d, 0x4aff_a534_d25b_4e1a, 'o', '.', 'c', "om");
  }

  /** Rounds 10 to 11 of "evilfoo.com": the hash state around each byte. */
  lemma EvilFooRounds3()
    ensures Fnv.Step(0x4aff_a534_d25b_4e1a, 'o') == 0xcbb4_2dc1_7126_50cf
    ensures Fnv.Step(0xcbb4_2dc1_7126_50cf, 'm') == 0x497a_61b3_441b_0346
  {
  }

  /** Folding "evilfoo.com" from byte 10: rounds 10 to 11 taken, which ends the string. */
  lemma EvilFooChunk3()
    ensures Fnv.Fold(0x4aff_a534_d25b_4e1a, "om") == 0x497a_61b3_441b_0346
  {
    var empty: GoString := [];
    EvilFooRounds3();
    assert "om" == ['o'] + (['m'] + empty);
    Fnv.FoldCons(0x4aff_a534_d25b_4e1a, 'o', "m");
    Fnv.FoldCons(0xcbb4_2dc1_7126_50cf, 'm', empty);
  }

  /** The FNV-1a 64 sum of "evilfoo.com". */
  lemma SumEvilFoo()
    ensures Fnv.Sum64("evilfoo.com") == 0x497a_61b3_441b_0346
  {
    EvilFooChunk0();
    EvilFooChunk1();
    EvilFooChunk2();
    EvilFooChunk3();
  }

  /** Rounds 1 to 3 of "malware.com": the hash state around each byte. */
  lemma MalwareRounds0()
    ensures Fnv.Step(0xcbf2_9ce4_8422_2325, 'm') == 0xaf63_e04c_8601_f358
    ensures Fnv.Step(0xaf63_e04c_8601_f358, 'a') == 0x08a9_5b07_b550_49db
    ensures Fnv.Step(0x08a9_5b07_b550_49db, 'l') == 0x080f_6519_176d_41f5
  {
  }

  /** Folding "malware.com" from byte 1: rounds 1 to 3 taken, the rest left. */
  lemma MalwareChunk0()
    ensures Fnv.Fold(0xcbf2_9ce4_8422_2325, "malware.com") == Fnv.Fold(0x080f_6519_176d_41f5, "ware.com")
  {
    MalwareRounds0();
    assert "malware.com" == ['m', 'a', 'l'] + "ware.com";
    Fnv.FoldThree(0xcbf2_9ce4_8422_2325, 0xaf63_e04c_8601_f358, 0x08a9_5b07_b550_49db, 0x080f_6519_176d_41f5, 'm', 'a', 'l', "ware.com");
  }

  /** Rounds 4 to 6 of "malware.com": the hash state around each byte. */
  lemma MalwareRounds1()
    ensures Fnv.Step(0x080f_6519_176d_41f5, 'w') == 0x1f6a_4ba2_cea6_4fe6
    ensures Fnv.Step(0x1f6a_4ba2_cea6_4fe6, 'a') == 0x07ee_0ca5_2499_2265
    ensures Fnv.Step(0x07ee_0ca5_2499_2265, 'r') == 0x12a1_939d_3034_ed15
  {
  }

  /** Folding "malware.com" from byte 4: rounds 4 to 6 taken, the rest left. */
  lemma MalwareChunk1()
    ensures Fnv.Fold(0x080f_6519_176d_41f5, "ware.com") == Fnv.Fold(0x12a1_939d_3034_ed15, "e.com")
  {
    MalwareRounds1();
    assert "ware.com" == ['w', 'a', 'r'] + "e.com";
    Fnv.FoldThree(0x080f_6519_176d_41f5, 0x1f6a_4ba2_cea6_4fe6, 0x07ee_0ca5_2499_2265, 0x12a1_939d_3034_ed15, 'w', 'a', 'r', "e.com");
  }

  /** Rounds 7 to 9 of "malware.com": the hash state around each byte. */
  lemma MalwareRounds2()
    ensures Fnv.Step(0x12a1_939d_3034_ed15, 'e') == 0xdd7b_4418_e9ef_7550
    ensures Fnv.Step(0xdd7b_4418_e9ef_7550, '.') == 0x47ea_3455_81e4_a51a
    ensures Fnv.Step(0x47ea_3455_81e4_a51a, 'c') == 0x179c_664b_b785_2c9b
  {
  }

  /** Folding "malware.com" from byte 7: rounds 7 to 9 taken, the rest left. */
  lemma MalwareChunk2()
    ensures Fnv.Fold(0x12a1_939d_3034_ed15, "e.com") == Fnv.Fold(0x179c_664b_b785_2c9b, "om")
  {
    MalwareRounds2();
    assert "e.com" == ['e', '.', 'c'] + "om";
    Fnv.FoldThree(0x12a1_939d_3034_ed15, 0xdd7b_4418_e9ef_7550, 0x47ea_3455_81e4_a51a, 0x179c_664b_b785_2c9b, 'e', '.', 'c', "om");
  }

  /** Rounds 10 to 11 of "malware.com": the hash state around each byte. */
  lemma MalwareRounds3()
    ensures Fnv.Step(0x179c_664b_b785_2c9b, 'o') == 0xa3ee_c6a8_d74b_629c
    ensures Fnv.Step(0xa3ee_c6a8_d74b_629c, 'm') == 0xda1e_81e5_d519_1f83
  {
  }

  /** Folding "malware.com" from byte 10: rounds 10 to 11 taken, which ends the string. */
  lemma MalwareChunk3()
    ensures Fnv.Fold(0x179c_664b_b785_2c9b, "om") == 0xda1e_81e5_d519_1f83
  {
    var empty: GoString := [];
    MalwareRounds3();
    assert "om" == ['o'] + (['m'] + empty);
    Fnv.FoldCons(0x179c_664b_b785_2c9b, 'o', "m");
    Fnv.FoldCons(0xa3ee_c6a8_d74b_629c, 'm', empty);
  }

  /** The FNV-1a 64 sum of "malware.com". */
  lemma SumMalware()
    ensures Fnv.Sum64("malware.com") == 0xda1e_81e5_d519_1f83
  {
    MalwareChunk0();
    MalwareChunk1();
    MalwareChunk2();
    MalwareChunk3();
  }

  /** Rounds 1 to 3 of "foo.com/evil": the hash state around each byte. */
  lemma FooEvilRounds0()
    ensures Fnv.Step(0xcbf2_9ce4_8422_2325, 'f') == 0xaf63_db4c_8601_ead9
    ensures Fnv.Step(0xaf63_db4c_8601_ead9, 'o') == 0x0898_5907_b541_d342
    ensures Fnv.Step(0x0898_5907_b541_d342, 'o') == 0xdcb2_7518_fed9_d577
  {
  }

  /** Folding "foo.com/evil" from byte 1: rounds 1 to 3 taken, the rest left. */
  lemma FooEvilChunk0()
    ensures Fnv.Fold(0xcbf2_9ce4_8422_2325, "foo.com/evil") == Fnv.Fold(0xdcb2_7518_fed9_d577, ".com/evil")
  {
    FooEvilRounds0();
    assert "foo.com/evil" == ['f', 'o', 'o'] + ".com/evil";
    Fnv.FoldThree(0xcbf2_9ce4_8422_2325, 0xaf63_db4c_8601_ead9, 0x0898_5907_b541_d342, 0xdcb2_7518_fed9_d577, 'f', 'o', 'o', ".com/evil");
  }

  /** Rounds 4 to 6 of "foo.com/evil": the hash state around each byte. */
  lemma FooEvilRounds1()
    ensures Fnv.Step(0xdcb2_7518_fed9_d577, '.') == 0xdd12_5279_0c25_863b
    ensures Fnv.Step(0xdd12_5279_0c25_863b, 'c') == 0xcba8_7baf_a3c3_4788
    ensures Fnv.Step(0xcba8_7baf_a3c3_4788, 'o') == 0xd292_1273_44d3_2d85
  {
  }

  /** Folding "foo.com/evil" from byte 4: rounds 4 to 6 taken, the rest left. */
  lemma FooEvilChunk1()
    ensures Fnv.Fold(0xdcb2_7518_fed9_d577, ".com/evil") == Fnv.Fold(0xd292_1273_44d3_2d85, "m/evil")
  {
    FooEvilRounds1();
    assert ".com/evil" == ['.', 'c', 'o'] + "m/evil";
    Fnv.FoldThree(0xdcb2_7518_fed9_d577, 0xdd12_5279_0c25_863b, 0xcba8_7baf_a3c3_4788, 0xd292_1273_44d3_2d85, '.', 'c', 'o', "m/evil");
  }

  /** Rounds 7 to 9 of "foo.com/evil": the hash state around each byte. */
  lemma FooEvilRounds2()
    ensures Fnv.Step(0xd292_1273_44d3_2d85, 'm') == 0xa163_41dd_f2d7_0138
    ensures Fnv.Step(0xa163_41dd_f2d7_0138, '/') == 0x12aa_0323_a356_da15
    ensures Fnv.Step(0x12aa_0323_a356_da15, 'e') == 0x0dbd_c58e_8c95_2c50
  {
  }

  /** Folding "foo.com/evil" from byte 7: rounds 7 to 9 taken, the rest left. */
  lemma FooEvilChunk2()
    ensures Fnv.Fold(0xd292_1273_44d3_2d85, "m/evil") == Fnv.Fold(0x0dbd_c58e_8c95_2c50, "vil")
  {
    FooEvilRounds2();
    assert "m/evil" == ['m', '/', 'e'] + "vil";
    Fnv.FoldThree(0xd292_1273_44d3_2d85, 0xa163_41dd_f2d7_0138, 0x12aa_0323_a356_da15, 0x0dbd_c58e_8c95_2c50, 'm', '/', 'e', "vil");
  }

  /** Rounds 10 to 12 of "foo.com/evil": the hash state around each byte. */
  lemma FooEvilRounds3()
    ensures Fnv.Step(0x0dbd_c58e_8c95_2c50, 'v') == 0xeea2_d738_e17a_0492
    ensures Fnv.Step(0xeea2_d738_e17a_0492, 'i') == 0xf8b8_b0a7_2256_7681
    ensures Fnv.Step(0xf8b8_b0a7_2256_7681, 'l') == 0xf84b_18ff_58ec_14b7
  {
  }

  /** Folding "foo.com/evil" from byte 10: rounds 10 to 12 taken, which ends the string. */
  lemma FooEvilChunk3()
    ensures Fnv.Fold(0x0dbd_c58e_8c95_2c50, "vil") == 0xf84b_18ff_58ec_14b7
  {
    var empty: GoString := [];
    FooEvilRounds3();
    assert "vil" == ['v', 'i', 'l'] + empty;
    Fnv.FoldThree(0x0dbd_c58e_8c95_2c50, 0xeea2_d738_e17a_0492, 0xf8b8_b0a7_2256_7681, 0xf84b_18ff_58ec_14b7, 'v', 'i', 'l', empty);
  }

  /** The FNV-1a 64 sum of "foo.com/evil". */
  lemma SumFooEvil()
    ensures Fnv.Sum64("foo.com/evil") == 0xf84b_18ff_58ec_14b7
  {
    FooEvilChunk0();
    FooEvilChunk1();
    FooEvilChunk2();
    FooEvilChunk3();
  }
}
