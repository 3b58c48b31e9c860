// Two strings with the same FNV-1a hash (hw1/HashTable.c): neither document
// names nor query words are checked for this.
module FnvCollision {
  import opened Bytes
  import opened Fnv

  // The states of the hash while it reads s.
  predicate States(h: seq<bv64>, s: seq<byte>) {
    |h| == |s| + 1 && forall i {:trigger s[i]} :: 0 <= i < |s| ==> FnvStep(h[i], s[i]) == h[i + 1]
  }

  lemma {:induction false} StatesLead(h: seq<bv64>, s: seq<byte>)
    requires States(h, s)
    ensures FnvFrom(h[0], s) == h[|s|]
    decreases s
  {
    hide FnvStep;
    if s != [] {
      assert FnvStep(h[0], s[0]) == h[1];
      var rest, h' := s[1..], h[1..];
      forall i {:trigger rest[i]} | 0 <= i < |rest| ensures FnvStep(h'[i], rest[i]) == h'[i + 1] {
        assert rest[i] == s[i + 1];
      }
      StatesLead(h', rest);
    }
  }

  lemma {:induction false} FnvConcat(h: bv64, s: seq<byte>, t: seq<byte>)
    ensures FnvFrom(h, s + t) == FnvFrom(FnvFrom(h, s), t)
    decreases s
  {
    hide FnvStep;
    if s == [] {
      assert s + t == t;
    } else {
      assert (s + t)[1..] == s[1..] + t;
      FnvConcat(FnvStep(h, s[0]), s[1..], t);
    }
  }

  // "77kepQFQ8Kl" and "!0IC=VloaY"
  const FIRST_STRING: CString := [55, 55, 107, 101, 112, 81, 70, 81, 56, 75, 108]
  const SECOND_STRING: CString := [33, 48, 73, 67, 61, 86, 108, 111, 97, 89]

  lemma FirstPart1()
    ensures FnvFrom(0xcbf2_9ce4_8422_2325, [55, 55, 107, 101]) == 0xce29_dde1_6eec_0b17
  {
    assert FnvStep(0xcbf2_9ce4_8422_2325, 55) == 0xaf63_aa4c_8601_9796;
    assert FnvStep(0xaf63_aa4c_8601_9796, 55) == 0x7f2_0107_b4b4_a693;
    assert FnvStep(0x7f2_0107_b4b4_a693, 107) == 0x34de_b818_0ef7_b768;
    assert FnvStep(0x34de_b818_0ef7_b768, 101) == 0xce29_dde1_6eec_0b17;
    hide FnvStep;
    var h := [0xcbf2_9ce4_8422_2325, 0xaf63_aa4c_8601_9796, 0x7f2_0107_b4b4_a693,
              0x34de_b818_0ef7_b768, 0xce29_dde1_6eec_0b17];
    StatesLead(h, [55, 55, 107, 101]);
  }

  lemma FirstPart2()
    ensures FnvFrom(0xce29_dde1_6eec_0b17, [112, 81, 70, 81]) == 0x756_8611_a6af_642d
  {
    assert FnvStep(0xce29_dde1_6eec_0b17, 112) == 0x3d2f_6d0f_7b17_6005;
    assert FnvStep(0x3d2f_6d0f_7b17_6005, 81) == 0xef6_a54e_28b8_aebc;
    assert FnvStep(0xef6_a54e_28b8_aebc, 70) == 0x25c9_ddcf_31d1_52ce;
    assert FnvStep(0x25c9_ddcf_31d1_52ce, 81) == 0x756_8611_a6af_642d;
    hide FnvStep;
    var h := [0xce29_dde1_6eec_0b17, 0x3d2f_6d0f_7b17_6005, 0xef6_a54e_28b8_aebc,
              0x25c9_ddcf_31d1_52ce, 0x756_8611_a6af_642d];
    StatesLead(h, [112, 81, 70, 81]);
  }

  lemma FirstPart3()
    ensures FnvFrom(0x756_8611_a6af_642d, [56, 75, 108]) == 0x0
  {
    assert FnvStep(0x756_8611_a6af_642d, 56) == 0x2769_e4fe_3c07_0faf;
    assert FnvStep(0x2769_e4fe_3c07_0faf, 75) == 0x6c;
    assert FnvStep(0x6c, 108) == 0x0;
    hide FnvStep;
    var h := [0x756_8611_a6af_642d, 0x2769_e4fe_3c07_0faf, 0x6c, 0x0];
    StatesLead(h, [56, 75, 108]);
  }

  lemma FirstHashesToZero()
    ensures FNVHash64(FIRST_STRING) == 0
  {
    hide FnvFrom;
    FirstPart1();
    FirstPart2();
    FirstPart3();
    assert FIRST_STRING == [55, 55, 107, 101] + ([112, 81, 70, 81] + [56, 75, 108]);
    FnvConcat(FNV1_64_INIT, [55, 55, 107, 101], [112, 81, 70, 81] + [56, 75, 108]);
    FnvConcat(0xce29_dde1_6eec_0b17, [112, 81, 70, 81], [56, 75, 108]);
  }

  lemma SecondPart1()
    ensures FnvFrom(0xcbf2_9ce4_8422_2325, [33, 48, 73, 67]) == 0x4e94_2c6d_6d32_da2c
  {
    assert FnvStep(0xcbf2_9ce4_8422_2325, 33) == 0xaf63_9c4c_8601_7fcc;
    assert FnvStep(0xaf63_9c4c_8601_7fcc, 48) == 0x7c2_9207_b48c_7934;
    assert FnvStep(0x7c2_9207_b48c_7934, 73) == 0xbc17_a017_cab2_6f67;
    assert FnvStep(0xbc17_a017_cab2_6f67, 67) == 0x4e94_2c6d_6d32_da2c;
    hide FnvStep;
    var h := [0xcbf2_9ce4_8422_2325, 0xaf63_9c4c_8601_7fcc, 0x7c2_9207_b48c_7934,
              0xbc17_a017_cab2_6f67, 0x4e94_2c6d_6d32_da2c];
    StatesLead(h, [33, 48, 73, 67]);
  }

  lemma SecondPart2()
    ensures FnvFrom(0x4e94_2c6d_6d32_da2c, [61, 86, 108, 111]) == 0xd241_ee7c_2cb9_f7a2
  {
    assert FnvStep(0x4e94_2c6d_6d32_da2c, 61) == 0xb8a1_8ef0_8d68_8ae3;
    assert FnvStep(0xb8a1_8ef0_8d68_8ae3, 86) == 0x2310_97c0_48a3_b18f;
    assert FnvStep(0x2310_97c0_48a3_b18f, 108) == 0x38e3_bebb_6e27_44b9;
    assert FnvStep(0x38e3_bebb_6e27_44b9, 111) == 0xd241_ee7c_2cb9_f7a2;
    hide FnvStep;
    var h := [0x4e94_2c6d_6d32_da2c, 0xb8a1_8ef0_8d68_8ae3, 0x2310_97c0_48a3_b18f,
              0x38e3_bebb_6e27_44b9, 0xd241_ee7c_2cb9_f7a2];
    StatesLead(h, [61, 86, 108, 111]);
  }

  lemma SecondPart3()
    ensures FnvFrom(0xd241_ee7c_2cb9_f7a2, [97, 89]) == 0x0
  {
    assert FnvStep(0xd241_ee7c_2cb9_f7a2, 97) == 0x59;
    assert FnvStep(0x59, 89) == 0x0;
    hide FnvStep;
    var h := [0xd241_ee7c_2cb9_f7a2, 0x59, 0x0];
    StatesLead(h, [97, 89]);
  }

  lemma SecondHashesToZero()
    ensures FNVHash64(SECOND_STRING) == 0
  {
    hide FnvFrom;
    SecondPart1();
    SecondPart2();
    SecondPart3();
    assert SECOND_STRING == [33, 48, 73, 67] + ([61, 86, 108, 111] + [97, 89]);
    FnvConcat(FNV1_64_INIT, [33, 48, 73, 67], [61, 86, 108, 111] + [97, 89]);
    FnvConcat(0x4e94_2c6d_6d32_da2c, [61, 86, 108, 111], [97, 89]);
  }

  // Two different strings, neither empty nor with a NUL, that share their hash.
  lemma StringsCollide()
    ensures FNVHash64(FIRST_STRING) == FNVHash64(SECOND_STRING) && FIRST_STRING != SECOND_STRING
    ensures |FIRST_STRING| > 0 && |SECOND_STRING| > 0 && 0 !in FIRST_STRING && 0 !in SECOND_STRING
  {
    hide FnvFrom;
    FirstHashesToZero();
    SecondHashesToZero();
    assert |FIRST_STRING| != |SECOND_STRING|;
  }

  // "foobar"
  const FOOBAR: CString := [102, 111, 111, 98, 97, 114]

  // Published values of the 64-bit FNV-1a hash.
  lemma KnownHashes()
    ensures FNVHash64([]) == 0xcbf2_9ce4_8422_2325 && FNVHash64(FOOBAR) == 0x8594_4171_f739_67e8
  {
    FoobarStates1();
    FoobarStates2();
    hide FnvStep;
    var h := [0xcbf2_9ce4_8422_2325, 0xaf63_db4c_8601_ead9, 0x0898_5907_b541_d342, 0xdcb2_7518_fed9_d577,
              0xdd12_0e79_0c25_12af, 0xcac1_65af_a2fe_f40a, 0x8594_4171_f739_67e8];
    StatesLead(h, FOOBAR);
  }

  lemma FoobarStates1()
    ensures FnvStep(0xcbf2_9ce4_8422_2325, 102) == 0xaf63_db4c_8601_ead9
    ensures FnvStep(0xaf63_db4c_8601_ead9, 111) == 0x0898_5907_b541_d342
    ensures FnvStep(0x0898_5907_b541_d342, 111) == 0xdcb2_7518_fed9_d577
  {
  }

  lemma FoobarStates2()
    ensures FnvStep(0xdcb2_7518_fed9_d577, 98) == 0xdd12_0e79_0c25_12af
    ensures FnvStep(0xdd12_0e79_0c25_12af, 97) == 0xcac1_65af_a2fe_f40a
    ensures FnvStep(0xcac1_65af_a2fe_f40a, 114) == 0x8594_4171_f739_67e8
  {
  }
}
