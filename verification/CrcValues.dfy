/** The values by which this CRC is known, its residue and its check value, and how a
    payload ends in it. */
module CrcValues {
  import opened Crc32
  import opened ErrorDetection

  /** A word of four bytes, the lowest first. */
  function LittleEndian(x: bv32): (bytes: seq<bv8>)
    ensures |bytes| == 4
  {
    [(x & 0xFF) as bv8, ((x >> 8) & 0xFF) as bv8, ((x >> 16) & 0xFF) as bv8, (x >> 24) as bv8]
  }

  lemma LowestFour(a: bv8, b: bv8, c: bv8, d: bv8)
    ensures Pack([a, b, c, d])
         == Xor(a as bv32,
                Double(Xor(b as bv32, Double(Xor(c as bv32, Double(Xor(d as bv32, Double(0, 8)), 8)), 8)), 8))
  {
    hide Xor, Double;
    assert [a, b, c, d][1..] == [b, c, d] && [b, c, d][1..] == [c, d] && [c, d][1..] == [d] && [d][1..] == [];
    assert Pack([d]) == Xor(d as bv32, Double(0, 8));
    assert Pack([c, d]) == Xor(c as bv32, Double(Pack([d]), 8));
    assert Pack([b, c, d]) == Xor(b as bv32, Double(Pack([c, d]), 8));
  }

  lemma PackOfBytes(x: bv32)
    ensures Pack(LittleEndian(x)) == x
  {
    var bytes := LittleEndian(x);
    LowestFour(bytes[0], bytes[1], bytes[2], bytes[3]);
    hide Pack;
  }

  lemma {:induction false} RunOfZeros(bytes: seq<bv8>)
    requires forall i :: 0 <= i < |bytes| ==> bytes[i] == 0
    ensures Run(0, bytes) == 0
  {
    if bytes != [] {
      StepsOfZero(8);
      XorSelf(0);
      assert bytes[0] == 0;
      RunOfZeros(bytes[1..]);
    }
  }

  /** A run over four bytes is 32 steps of the register with them in it. */
  lemma RunOfFour(s: bv32, bytes: seq<bv8>)
    requires |bytes| == 4
    ensures Run(s, bytes) == Steps(Xor(s, Pack(bytes)), 32)
  {
    hide Run, Steps, Xor, Pack;
    var zeros: seq<bv8> := [0, 0, 0, 0];
    RunOfZeros(zeros);
    RunDifference(s, bytes, 0, zeros);
    PackOfZeros();
    XorSelf(Run(s, bytes));
    XorSelf(s);
    XorSelf(Pack(bytes));
  }

  lemma PackOfZeros()
    ensures Pack([0, 0, 0, 0]) == 0
  {
    LowestFour(0, 0, 0, 0);
    hide Pack;
  }

  lemma ComplementDiffers(x: bv32)
    ensures Xor(x, Complement(x)) == 0xFFFF_FFFF
  {
  }

  /** Any bytes with their checksum after them, lowest byte first, leave the
      residue of this CRC in the register. */
  lemma Residue(bytes: seq<bv8>)
    ensures Run(0xFFFF_FFFF, bytes + LittleEndian(Checksum(bytes))) == 0xDEBB_20E3
  {
    hide Run, Steps, Xor, Pack, LittleEndian, Complement;
    var s := Run(0xFFFF_FFFF, bytes);
    var end := LittleEndian(Checksum(bytes));
    RunConcat(0xFFFF_FFFF, bytes, end);
    RunOfFour(s, end);
    PackOfBytes(Checksum(bytes));
    ComplementDiffers(s);
    StepsOfOnes();
  }

  lemma StepsOfOnes()
    ensures Steps(0xFFFF_FFFF, 32) == 0xDEBB_20E3
  {
    hide Steps;
    StepsNone(0xFFFF_FFFF);
    OneMore(0xFFFF_FFFF, 0, 0xFFFF_FFFF);
    OneMore(0xFFFF_FFFF, 1, 0x9247_7CDF);
    OneMore(0xFFFF_FFFF, 2, 0xA49B_3D4F);
    OneMore(0xFFFF_FFFF, 3, 0xBFF5_1D87);
    OneMore(0xFFFF_FFFF, 4, 0xB242_0DE3);
    OneMore(0xFFFF_FFFF, 5, 0xB499_85D1);
    OneMore(0xFFFF_FFFF, 6, 0xB7F4_41C8);
    OneMore(0xFFFF_FFFF, 7, 0x5BFA_20E4);
    OneMore(0xFFFF_FFFF, 8, 0x2DFD_1072);
    OneMore(0xFFFF_FFFF, 9, 0x16FE_8839);
    OneMore(0xFFFF_FFFF, 10, 0xE6C7_C73C);
    OneMore(0xFFFF_FFFF, 11, 0x7363_E39E);
    OneMore(0xFFFF_FFFF, 12, 0x39B1_F1CF);
    OneMore(0xFFFF_FFFF, 13, 0xF160_7BC7);
    OneMore(0xFFFF_FFFF, 14, 0x9508_BEC3);
    OneMore(0xFFFF_FFFF, 15, 0xA73C_DC41);
    OneMore(0xFFFF_FFFF, 16, 0xBE26_ED00);
    OneMore(0xFFFF_FFFF, 17, 0x5F13_7680);
    OneMore(0xFFFF_FFFF, 18, 0x2F89_BB40);
    OneMore(0xFFFF_FFFF, 19, 0x17C4_DDA0);
    OneMore(0xFFFF_FFFF, 20, 0x0BE2_6ED0);
    OneMore(0xFFFF_FFFF, 21, 0x05F1_3768);
    OneMore(0xFFFF_FFFF, 22, 0x02F8_9BB4);
    OneMore(0xFFFF_FFFF, 23, 0x017C_4DDA);
    OneMore(0xFFFF_FFFF, 24, 0x00BE_26ED);
    OneMore(0xFFFF_FFFF, 25, 0xEDE7_9056);
    OneMore(0xFFFF_FFFF, 26, 0x76F3_C82B);
    OneMore(0xFFFF_FFFF, 27, 0xD6C1_6735);
    OneMore(0xFFFF_FFFF, 28, 0x86D8_30BA);
    OneMore(0xFFFF_FFFF, 29, 0x436C_185D);
    OneMore(0xFFFF_FFFF, 30, 0xCC0E_8F0E);
    OneMore(0xFFFF_FFFF, 31, 0x6607_4787);
  }

  lemma ComplementOfOnes()
    ensures Complement(0xFFFF_FFFF) == 0
  {
  }

  /** The checksum of nothing. */
  lemma ChecksumOfNothing()
    ensures Checksum([]) == 0
  {
    ComplementOfOnes();
  }

  /** Eight steps, one by one. */
  lemma EightSteps(x: bv32, a: bv32, b: bv32, c: bv32, d: bv32, e: bv32, f: bv32, g: bv32, h: bv32)
    requires Step(x) == a && Step(a) == b && Step(b) == c && Step(c) == d
    requires Step(d) == e && Step(e) == f && Step(f) == g && Step(g) == h
    ensures Steps(x, 8) == h
  {
    hide Steps;
    StepsNone(x);
    OneMore(x, 0, x);
    OneMore(x, 1, a);
    OneMore(x, 2, b);
    OneMore(x, 3, c);
    OneMore(x, 4, d);
    OneMore(x, 5, e);
    OneMore(x, 6, f);
    OneMore(x, 7, g);
  }

  lemma RunNext(s: bv32, b: bv8, rest: seq<bv8>, x: bv32, t: bv32)
    requires Xor(s, b as bv32) == x && Steps(x, 8) == t
    ensures Run(s, [b] + rest) == Run(t, rest)
  {
    hide Steps, Xor;
    assert ([b] + rest)[1..] == rest;
  }

  /** The check value: the checksum of the digits from 1 to 9. */
  lemma CheckValue()
    ensures Checksum([0x31, 0x32, 0x33, 0x34, 0x35, 0x36, 0x37, 0x38, 0x39]) == 0xCBF4_3926
  {
    FirstFour();
    NextThree();
    LastTwo();
    hide Run, Complement;
    ComplementOfCheck();
    var digits: seq<bv8> := [0x31, 0x32, 0x33, 0x34, 0x35, 0x36, 0x37, 0x38, 0x39];
    assert digits == [0x31, 0x32, 0x33, 0x34] + ([0x35, 0x36, 0x37] + [0x38, 0x39]);
    RunConcat(0xFFFF_FFFF, [0x31, 0x32, 0x33, 0x34], [0x35, 0x36, 0x37] + [0x38, 0x39]);
    RunConcat(0x641C_1F5C, [0x35, 0x36, 0x37], [0x38, 0x39]);
  }

  lemma FirstFour()
    ensures Run(0xFFFF_FFFF, [0x31, 0x32, 0x33, 0x34]) == 0x641C_1F5C
  {
    RunNone(0x641C_1F5C);
    EightSteps(0xFFFF_FFCE, 0x7FFF_FFE7, 0xD247_7CD3, 0x849B_3D49, 0xAFF5_1D84,
               0x57FA_8EC2, 0x2BFD_4761, 0xF846_2090, 0x7C23_1048);
    EightSteps(0x7C23_107A, 0x3E11_883D, 0xF2B0_473E, 0x7958_239F, 0xD114_92EF,
               0x8532_CA57, 0xAF21_E60B, 0xBA28_7025, 0xB0AC_BB32);
    EightSteps(0xB0AC_BB01, 0xB5EE_DEA0, 0x5AF7_6F50, 0x2D7B_B7A8, 0x16BD_DBD4,
               0x0B5E_EDEA, 0x05AF_76F5, 0xEF6F_385A, 0x77B7_9C2D);
    EightSteps(0x77B7_9C19, 0xD663_4D2C, 0x6B31_A696, 0x3598_D34B, 0xF774_EA85,
               0x9602_F662, 0x4B01_7B31, 0xC838_3EB8, 0x641C_1F5C);
    hide Steps, Run, Step;
    RunNext(0xFFFF_FFFF, 0x31, [0x32, 0x33, 0x34], 0xFFFF_FFCE, 0x7C23_1048);
    RunNext(0x7C23_1048, 0x32, [0x33, 0x34], 0x7C23_107A, 0xB0AC_BB32);
    RunNext(0xB0AC_BB32, 0x33, [0x34], 0xB0AC_BB01, 0x77B7_9C2D);
    RunNext(0x77B7_9C2D, 0x34, [], 0x77B7_9C19, 0x641C_1F5C);
    assert [0x31] + [0x32, 0x33, 0x34] == [0x31, 0x32, 0x33, 0x34];
    assert [0x32] + [0x33, 0x34] == [0x32, 0x33, 0x34];
    assert [0x33] + [0x34] == [0x33, 0x34];
  }

  lemma NextThree()
    ensures Run(0x641C_1F5C, [0x35, 0x36, 0x37]) == 0xAFFC_9660
  {
    RunNone(0xAFFC_9660);
    EightSteps(0x641C_1F69, 0xDFB6_8C94, 0x6FDB_464A, 0x37ED_A325, 0xF64E_52B2,
               0x7B27_2959, 0xD02B_178C, 0x6815_8BC6, 0x340A_C5E3);
    EightSteps(0x340A_C5D5, 0xF7BD_E1CA, 0x7BDE_F0E5, 0xD057_FB52, 0x682B_FDA9,
               0xD9AD_7DF4, 0x6CD6_BEFA, 0x366B_5F7D, 0xF68D_2C9E);
    EightSteps(0xF68D_2CA9, 0x96FE_1574, 0x4B7F_0ABA, 0x25BF_855D, 0xFF67_418E,
               0x7FB3_A0C7, 0xD261_5343, 0x8488_2A81, 0xAFFC_9660);
    hide Steps, Run, Step;
    RunNext(0x641C_1F5C, 0x35, [0x36, 0x37], 0x641C_1F69, 0x340A_C5E3);
    RunNext(0x340A_C5E3, 0x36, [0x37], 0x340A_C5D5, 0xF68D_2C9E);
    RunNext(0xF68D_2C9E, 0x37, [], 0xF68D_2CA9, 0xAFFC_9660);
    assert [0x35] + [0x36, 0x37] == [0x35, 0x36, 0x37];
    assert [0x36] + [0x37] == [0x36, 0x37];
  }

  lemma LastTwo()
    ensures Run(0xAFFC_9660, [0x38, 0x39]) == 0x340B_C6D9
  {
    RunNone(0x340B_C6D9);
    EightSteps(0xAFFC_9658, 0x57FE_4B2C, 0x2BFF_2596, 0x15FF_92CB, 0xE747_4A45,
               0x9E1B_2602, 0x4F0D_9301, 0xCA3E_4AA0, 0x651F_2550);
    EightSteps(0x651F_2569, 0xDF37_1194, 0x6F9B_88CA, 0x37CD_C465, 0xF65E_6112,
               0x7B2F_3089, 0xD02F_1B64, 0x6817_8DB2, 0x340B_C6D9);
    hide Steps, Run, Step;
    RunNext(0xAFFC_9660, 0x38, [0x39], 0xAFFC_9658, 0x651F_2550);
    RunNext(0x651F_2550, 0x39, [], 0x651F_2569, 0x340B_C6D9);
    assert [0x38] + [0x39] == [0x38, 0x39];
  }

  lemma RunNone(s: bv32)
    ensures Run(s, []) == s
  {
  }

  lemma ComplementOfCheck()
    ensures Complement(0x340B_C6D9) == 0xCBF4_3926
  {
  }

  /** A sealed payload ends in its checksum, highest byte first. */
  lemma SealedEnds(payload: seq<bv8>)
    ensures
      var s, n := Sealed(payload), |payload|;
      && |s| == n + 4 && s[..n] == payload
      && s[n] as bv32 * 0x100_0000 + s[n + 1] as bv32 * 0x1_0000 + s[n + 2] as bv32 * 0x100 + s[n + 3] as bv32
      == Checksum(payload)
  {
    hide Sealed, Checksum;
    SealedChecksum(payload);
    var s, n, end := Sealed(payload), |payload|, BigEndian(Checksum(payload));
    assert s[n] == s[n..][0] && s[n + 1] == s[n..][1] && s[n + 2] == s[n..][2] && s[n + 3] == s[n..][3];
    HighestFirst(Checksum(payload));
  }

  lemma HighestFirst(x: bv32)
    ensures
      var b := BigEndian(x);
      b[0] as bv32 * 0x100_0000 + b[1] as bv32 * 0x1_0000 + b[2] as bv32 * 0x100 + b[3] as bv32 == x
  {
  }
}
