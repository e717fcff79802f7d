/** SHA-256, SHA-384 and SHA-512 of "abc", the examples that go with FIPS 180-4, worked out step by step. */
module Sha2Examples {
  import opened Sha2
  import opened Sha2Variants
  import opened Sha2Roots
  import opened Sha2Steps

  /* ---- The message "abc" ---- */

  const ABC: Bytes := [0x61, 0x62, 0x63]

  /** The message, the bit behind it, zeros, and its length of 24 bits. */
  function AbcBlock(zeros: nat): (b: Bytes)
    ensures |b| == zeros + 5
  {
    [0x61, 0x62, 0x63, 0x80] + Repeat(0, zeros) + [24]
  }

  lemma {:induction false} NoNumber(n: nat)
    ensures NumberBytes(0, n) == Repeat(0, n)
  {
    if n > 0 {
      NoNumber(n - 1);
    }
  }

  lemma AbcPadded<W(!new)>(alg: Algorithm<W>)
    ensures ABC + Padding(alg, 3) == AbcBlock(alg.Block() - 5)
  {
    NoNumber(alg.LengthBytes() - 1);
    assert NumberBytes(24, alg.LengthBytes()) == Repeat(0, alg.LengthBytes() - 1) + [24];
    assert Repeat(0, Gap(alg, 3)) + Repeat(0, alg.LengthBytes() - 1) == Repeat(0, alg.Block() - 5);
  }

  lemma OutputAll<W(!new)>(alg: Algorithm<W>, r: Regs<W>)
    ensures Output(alg, r, 6) == alg.bigBytes(r.a) + alg.bigBytes(r.b) + alg.bigBytes(r.c) + alg.bigBytes(r.d)
                                 + alg.bigBytes(r.e) + alg.bigBytes(r.f)
    ensures Output(alg, r, 8) == Output(alg, r, 6) + alg.bigBytes(r.g) + alg.bigBytes(r.h)
  {
    assert Output(alg, r, 1) == alg.bigBytes(r.a) by {
      assert Output(alg, r, 0) == [];
    }
    assert Output(alg, r, 2) == alg.bigBytes(r.a) + alg.bigBytes(r.b);
    assert Output(alg, r, 3) == alg.bigBytes(r.a) + alg.bigBytes(r.b) + alg.bigBytes(r.c);
    assert Output(alg, r, 4) == alg.bigBytes(r.a) + alg.bigBytes(r.b) + alg.bigBytes(r.c) + alg.bigBytes(r.d);
    assert Output(alg, r, 5) == Output(alg, r, 4) + alg.bigBytes(r.e);
    assert Output(alg, r, 7) == Output(alg, r, 6) + alg.bigBytes(r.g);
  }

  lemma NoRounds<W(!new)>(alg: Algorithm<W>, b: Bytes)
    requires |b| == alg.Block()
    ensures AfterRounds(alg, alg.h0, b, 0) == alg.h0
  {
  }

  /* ---- SHA-256 ---- */

  /* The schedule of the block that "abc" is padded to. */

  const W256_0: Octet<bv32> :=
    Octet(0x61626380, 0x00000000, 0x00000000, 0x00000000, 0x00000000, 0x00000000, 0x00000000, 0x00000000)
  const W256_1: Octet<bv32> :=
    Octet(0x00000000, 0x00000000, 0x00000000, 0x00000000, 0x00000000, 0x00000000, 0x00000000, 0x00000018)
  const W256_2: Octet<bv32> :=
    Octet(0x61626380, 0x000f0000, 0x7da86405, 0x600003c6, 0x3e9d7b78, 0x0183fc00, 0x12dcbfdb, 0xe2e2c38e)
  const W256_3: Octet<bv32> :=
    Octet(0xc8215c1a, 0xb73679a2, 0xe5bc3909, 0x32663c5b, 0x9d209d67, 0xec8726cb, 0x702138a4, 0xd3b7973b)
  const W256_4: Octet<bv32> :=
    Octet(0x93f5997f, 0x3b68ba73, 0xaff4ffc1, 0xf10a5c62, 0x0a8b3996, 0x72af830a, 0x9409e33e, 0x24641522)
  const W256_5: Octet<bv32> :=
    Octet(0x9f47bf94, 0xf0a64f5a, 0x3e246a79, 0x27333ba3, 0x0c4763f2, 0x840abf27, 0x7a290d5d, 0x065c43da)
  const W256_6: Octet<bv32> :=
    Octet(0xfb3e89cb, 0xcc7617db, 0xb9e66c34, 0xa9993667, 0x84badedd, 0xc21462bc, 0x1487472c, 0xb20f7a99)
  const W256_7: Octet<bv32> :=
    Octet(0xef57b9cd, 0xebe6b238, 0x9fe3095e, 0x78bc8d4b, 0xa43fcf15, 0x668b2ff8, 0xeeaba2cc, 0x12b1edeb)

  lemma Words256_2()
    ensures Follow32(W256_0, W256_1, W256_2)
  {
  }

  lemma Words256_3()
    ensures Follow32(W256_1, W256_2, W256_3)
  {
  }

  lemma Words256_4()
    ensures Follow32(W256_2, W256_3, W256_4)
  {
  }

  lemma Words256_5()
    ensures Follow32(W256_3, W256_4, W256_5)
  {
  }

  lemma Words256_6()
    ensures Follow32(W256_4, W256_5, W256_6)
  {
  }

  lemma Words256_7()
    ensures Follow32(W256_5, W256_6, W256_7)
  {
  }

  /* The registers of SHA-256 after every sixteen rounds. */

  const R256_0: Regs<bv32> :=
    Regs(0x6a09e667, 0xbb67ae85, 0x3c6ef372, 0xa54ff53a, 0x510e527f, 0x9b05688c, 0x1f83d9ab, 0x5be0cd19)
  const R256_16: Regs<bv32> :=
    Regs(0xb0fa238e, 0xc0645fde, 0xd932eb16, 0x87912990, 0x07590dcd, 0x0b92f20c, 0x745a48de, 0x1e578218)
  const R256_32: Regs<bv32> :=
    Regs(0x73b33bf5, 0xea992a22, 0xa0060b30, 0x363482c9, 0xba591112, 0x0109ab3a, 0xade79437, 0x6112a3b7)
  const R256_48: Regs<bv32> :=
    Regs(0x4172328d, 0xa14c14b0, 0x72ab4b91, 0x26628815, 0xfecf0bc6, 0xd57b94a9, 0xb7755da1, 0xa80f11f0)
  const R256_64: Regs<bv32> :=
    Regs(0x506e3058, 0xd39a2165, 0x04d24d6c, 0xb85e2ce9, 0x5ef50f24, 0xfb121210, 0x948d25b6, 0x961f4894)

  lemma Rounds256_0()
    ensures Eight32Rounds(Eight32Rounds(R256_0, C256_0, W256_0), C256_1, W256_1) == R256_16
  {
    var r0 := Regs(0x6a09e667, 0xbb67ae85, 0x3c6ef372, 0xa54ff53a, 0x510e527f, 0x9b05688c, 0x1f83d9ab, 0x5be0cd19);
    var r1 := Moved32(r0, 0x428a2f98, 0x61626380, 0x5d6aebcd, 0xfa2a4622);
    var r2 := Moved32(r1, 0x71374491, 0x00000000, 0x5a6ad9ad, 0x78ce7989);
    var r3 := Moved32(r2, 0xb5c0fbcf, 0x00000000, 0xc8c347a7, 0xf92939eb);
    var r4 := Moved32(r3, 0xe9b5dba5, 0x00000000, 0xd550f666, 0x24e00850);
    var r5 := Moved32(r4, 0x3956c25b, 0x00000000, 0x04409a6a, 0x43ada245);
    var r6 := Moved32(r5, 0x59f111f1, 0x00000000, 0x2b4209f5, 0x714260ad);
    var r7 := Moved32(r6, 0x923f82a4, 0x00000000, 0xe5030380, 0x9b27a401);
    var r8 := Moved32(r7, 0xab1c5ed5, 0x00000000, 0x85a07b5f, 0x0c657a79);
    var r9 := Moved32(r8, 0xd807aa98, 0x00000000, 0x8e04ecb9, 0x32ca2d8c);
    var r10 := Moved32(r9, 0x12835b01, 0x00000000, 0x8c87346b, 0x1cc92596);
    var r11 := Moved32(r10, 0x243185be, 0x00000000, 0x4798a3f4, 0x436b23e8);
    var r12 := Moved32(r11, 0x550c7dc3, 0x00000000, 0xf71fc5a9, 0x816fd6e9);
    var r13 := Moved32(r12, 0x72be5d74, 0x00000000, 0x87912990, 0x1e578218);
    var r14 := Moved32(r13, 0x80deb1fe, 0x00000000, 0xd932eb16, 0x745a48de);
    var r15 := Moved32(r14, 0x9bdc06a7, 0x00000000, 0xc0645fde, 0x0b92f20c);
    var r16 := Moved32(r15, 0xc19bf174, 0x00000018, 0xb0fa238e, 0x07590dcd);
  }

  lemma Rounds256_16()
    ensures Eight32Rounds(Eight32Rounds(R256_16, C256_2, W256_2), C256_3, W256_3) == R256_32
  {
    var r0 := Regs(0xb0fa238e, 0xc0645fde, 0xd932eb16, 0x87912990, 0x07590dcd, 0x0b92f20c, 0x745a48de, 0x1e578218);
    var r1 := Moved32(r0, 0xe49b69c1, 0x61626380, 0x21da9a9b, 0x8034229c);
    var r2 := Moved32(r1, 0xefbe4786, 0x000f0000, 0xc2fbd9d1, 0x846ee454);
    var r3 := Moved32(r2, 0x0fc19dc6, 0x7da86405, 0xfe777bbf, 0xcc899961);
    var r4 := Moved32(r3, 0x240ca1cc, 0x600003c6, 0xe1f20c33, 0xb0638179);
    var r5 := Moved32(r4, 0x2de92c6f, 0x3e9d7b78, 0x9dc68b63, 0x8ada8930);
    var r6 := Moved32(r5, 0x4a7484aa, 0x0183fc00, 0xc2606d6d, 0xe1257970);
    var r7 := Moved32(r6, 0x5cb0a9dc, 0x12dcbfdb, 0xa7a3623f, 0x49f5114a);
    var r8 := Moved32(r7, 0x76f988da, 0xe2e2c38e, 0xc5d53d8d, 0xaa47c347);
    var r9 := Moved32(r8, 0x983e5152, 0xc8215c1a, 0x1c2c2838, 0x2823ef91);
    var r10 := Moved32(r9, 0xa831c66d, 0xb73679a2, 0xcde8037d, 0x14383d8e);
    var r11 := Moved32(r10, 0xb00327c8, 0xe5bc3909, 0xb62ec4bc, 0xc74c6516);
    var r12 := Moved32(r11, 0xbf597fc7, 0x32663c5b, 0x77d37528, 0xedffbff8);
    var r13 := Moved32(r12, 0xc6e00bf3, 0x9d209d67, 0x363482c9, 0x6112a3b7);
    var r14 := Moved32(r13, 0xd5a79147, 0xec8726cb, 0xa0060b30, 0xade79437);
    var r15 := Moved32(r14, 0x06ca6351, 0x702138a4, 0xea992a22, 0x0109ab3a);
    var r16 := Moved32(r15, 0x14292967, 0xd3b7973b, 0x73b33bf5, 0xba591112);
  }

  lemma Rounds256_32()
    ensures Eight32Rounds(Eight32Rounds(R256_32, C256_4, W256_4), C256_5, W256_5) == R256_48
  {
    var r0 := Regs(0x73b33bf5, 0xea992a22, 0xa0060b30, 0x363482c9, 0xba591112, 0x0109ab3a, 0xade79437, 0x6112a3b7);
    var r1 := Moved32(r0, 0x27b70a85, 0x93f5997f, 0x98e12507, 0x9cd9f5f6);
    var r2 := Moved32(r1, 0x2e1b2138, 0x3b68ba73, 0xfe604df5, 0x59249dd3);
    var r3 := Moved32(r2, 0x4d2c6dfc, 0xaff4ffc1, 0xa9a7738c, 0x085f3833);
    var r4 := Moved32(r3, 0x53380d13, 0xf10a5c62, 0x65a0cfe4, 0xf4b002d6);
    var r5 := Moved32(r4, 0x650a7354, 0x0a8b3996, 0x41a65cb1, 0x0772a26b);
    var r6 := Moved32(r5, 0x766a0abb, 0x72af830a, 0x34df1604, 0xa507a53d);
    var r7 := Moved32(r6, 0x81c2c92e, 0x9409e33e, 0x6dc57a8a, 0xf0781bc8);
    var r8 := Moved32(r7, 0x92722c85, 0x24641522, 0x79ea687a, 0x1efbc0a0);
    var r9 := Moved32(r8, 0xa2bfe8a1, 0x9f47bf94, 0xd6670766, 0x26352d63);
    var r10 := Moved32(r9, 0xa81a664b, 0xf0a64f5a, 0xdf46652f, 0x838b2711);
    var r11 := Moved32(r10, 0xc24b8b70, 0x3e246a79, 0x17aa0dfe, 0xdecd4715);
    var r12 := Moved32(r11, 0xc76c51a3, 0x27333ba3, 0x9d4baf93, 0xfda24c2e);
    var r13 := Moved32(r12, 0xd192e819, 0x0c4763f2, 0x26628815, 0xa80f11f0);
    var r14 := Moved32(r13, 0xd6990624, 0x840abf27, 0x72ab4b91, 0xb7755da1);
    var r15 := Moved32(r14, 0xf40e3585, 0x7a290d5d, 0xa14c14b0, 0xd57b94a9);
    var r16 := Moved32(r15, 0x106aa070, 0x065c43da, 0x4172328d, 0xfecf0bc6);
  }

  lemma Rounds256_48()
    ensures Eight32Rounds(Eight32Rounds(R256_48, C256_6, W256_6), C256_7, W256_7) == R256_64
  {
    var r0 := Regs(0x4172328d, 0xa14c14b0, 0x72ab4b91, 0x26628815, 0xfecf0bc6, 0xd57b94a9, 0xb7755da1, 0xa80f11f0);
    var r1 := Moved32(r0, 0x19a4c116, 0xfb3e89cb, 0x05757ceb, 0xbd714038);
    var r2 := Moved32(r1, 0x1e376c08, 0xcc7617db, 0xf11bfaa8, 0x6e5c390c);
    var r3 := Moved32(r2, 0x2748774c, 0xb9e66c34, 0x7a0508a1, 0x52f1ccf7);
    var r4 := Moved32(r3, 0x34b0bcb5, 0xa9993667, 0x886e7a22, 0x49231c1e);
    var r5 := Moved32(r4, 0x391c0cb3, 0x84badedd, 0x101fd28f, 0x529e7d00);
    var r6 := Moved32(r5, 0x4ed8aa4a, 0xc21462bc, 0xf5702fdb, 0x9f4787c3);
    var r7 := Moved32(r6, 0x5b9cca4f, 0x1487472c, 0x3ec45cdb, 0xe50e1b4f);
    var r8 := Moved32(r7, 0x682e6ff3, 0xb20f7a99, 0x38cc9913, 0x54cb266b);
    var r9 := Moved32(r8, 0x748f82ee, 0xef57b9cd, 0xfcd1887b, 0x9b5e906c);
    var r10 := Moved32(r9, 0x78a5636f, 0xebe6b238, 0xc062d46f, 0x7e44008e);
    var r11 := Moved32(r10, 0x84c87814, 0x9fe3095e, 0xffb70472, 0x6d83bfc6);
    var r12 := Moved32(r11, 0x8cc70208, 0x78bc8d4b, 0xb6ae8fff, 0xb21bad3d);
    var r13 := Moved32(r12, 0x90befffa, 0xa43fcf15, 0xb85e2ce9, 0x961f4894);
    var r14 := Moved32(r13, 0xa4506ceb, 0x668b2ff8, 0x04d24d6c, 0x948d25b6);
    var r15 := Moved32(r14, 0xbef9a3f7, 0xeeaba2cc, 0xd39a2165, 0xfb121210);
    var r16 := Moved32(r15, 0xc67178f2, 0x12b1edeb, 0x506e3058, 0x5ef50f24);
  }

  lemma BigIs32()
    ensures Big32([0x61, 0x62, 0x63, 0x80]) == 0x61626380
    ensures Big32([0, 0, 0, 0]) == 0 && Big32([0, 0, 0, 24]) == 24
  {
  }

  lemma FirstWords32(alg: Algorithm<bv32>, j: nat)
    requires IsNarrow(alg) && j < 16
    ensures Schedule(alg, AbcBlock(59), j) == if j == 0 then 0x61626380 else if j < 15 then 0 else 24
  {
    hide Big32;
    var part := AbcBlock(59)[alg.Offset(j)..alg.Offset(j + 1)];
    BigIs32();
    assert part == if j == 0 then [0x61, 0x62, 0x63, 0x80]
                   else if j < 15 then [0, 0, 0, 0] else [0, 0, 0, 24];
  }

  lemma FirstOctets32(alg: Algorithm<bv32>)
    requires IsNarrow(alg)
    ensures Shows(alg, AbcBlock(59), 0, W256_0) && Shows(alg, AbcBlock(59), 8, W256_1)
  {
    hide Schedule, IsNarrow;
    SizesAre32(alg);
    forall j | 0 <= j < 16
      ensures Schedule(alg, AbcBlock(59), j) == if j == 0 then 0x61626380 else if j < 15 then 0 else 24
    {
      FirstWords32(alg, j);
    }
  }

  lemma AllWords32(alg: Algorithm<bv32>)
    requires IsNarrow(alg)
    ensures Shows(alg, AbcBlock(59), 0, W256_0) && Shows(alg, AbcBlock(59), 8, W256_1)
    ensures Shows(alg, AbcBlock(59), 16, W256_2) && Shows(alg, AbcBlock(59), 24, W256_3)
    ensures Shows(alg, AbcBlock(59), 32, W256_4) && Shows(alg, AbcBlock(59), 40, W256_5)
    ensures Shows(alg, AbcBlock(59), 48, W256_6) && Shows(alg, AbcBlock(59), 56, W256_7)
  {
    hide Shows, Follow32, IsNarrow;
    var b := AbcBlock(59);
    FirstOctets32(alg);
    Words256_2();
    EightWords32(alg, b, 0, W256_0, W256_1, W256_2);
    Words256_3();
    EightWords32(alg, b, 8, W256_1, W256_2, W256_3);
    Words256_4();
    EightWords32(alg, b, 16, W256_2, W256_3, W256_4);
    Words256_5();
    EightWords32(alg, b, 24, W256_3, W256_4, W256_5);
    Words256_6();
    EightWords32(alg, b, 32, W256_4, W256_5, W256_6);
    Words256_7();
    EightWords32(alg, b, 40, W256_5, W256_6, W256_7);
  }

  lemma AllRounds256(alg: Algorithm<bv32>)
    requires IsNarrow(alg) && alg.h0 == R256_0
    ensures AfterRounds(alg, alg.h0, AbcBlock(59), 64) == R256_64
  {
    hide Shows, IsNarrow, AfterRounds, AbcBlock, Eight32Rounds, K256, Constants32;
    var b := AbcBlock(59);
    SizesAre32(alg);
    NoRounds(alg, b);
    AllWords32(alg);
    ConstantsAre256_0();
    EightRoundsAre32(alg, b, 0, R256_0, W256_0);
    EightRoundsAre32(alg, b, 8, Eight32Rounds(R256_0, C256_0, W256_0), W256_1);
    Rounds256_0();
    ConstantsAre256_2();
    EightRoundsAre32(alg, b, 16, R256_16, W256_2);
    EightRoundsAre32(alg, b, 24, Eight32Rounds(R256_16, C256_2, W256_2), W256_3);
    Rounds256_16();
    ConstantsAre256_4();
    EightRoundsAre32(alg, b, 32, R256_32, W256_4);
    EightRoundsAre32(alg, b, 40, Eight32Rounds(R256_32, C256_4, W256_4), W256_5);
    Rounds256_32();
    ConstantsAre256_6();
    EightRoundsAre32(alg, b, 48, R256_48, W256_6);
    EightRoundsAre32(alg, b, 56, Eight32Rounds(R256_48, C256_6, W256_6), W256_7);
    Rounds256_48();
  }

  lemma Sums256()
    ensures BigBytes32(Add32(0x6a09e667, 0x506e3058)) ==
            [0xba, 0x78, 0x16, 0xbf]
    ensures BigBytes32(Add32(0xbb67ae85, 0xd39a2165)) ==
            [0x8f, 0x01, 0xcf, 0xea]
    ensures BigBytes32(Add32(0x3c6ef372, 0x04d24d6c)) ==
            [0x41, 0x41, 0x40, 0xde]
    ensures BigBytes32(Add32(0xa54ff53a, 0xb85e2ce9)) ==
            [0x5d, 0xae, 0x22, 0x23]
    ensures BigBytes32(Add32(0x510e527f, 0x5ef50f24)) ==
            [0xb0, 0x03, 0x61, 0xa3]
    ensures BigBytes32(Add32(0x9b05688c, 0xfb121210)) ==
            [0x96, 0x17, 0x7a, 0x9c]
    ensures BigBytes32(Add32(0x1f83d9ab, 0x948d25b6)) ==
            [0xb4, 0x10, 0xff, 0x61]
    ensures BigBytes32(Add32(0x5be0cd19, 0x961f4894)) ==
            [0xf2, 0x00, 0x15, 0xad]
  {
  }

  lemma Sha256Is(little: bool)
    ensures var alg := Sha256(little);
            IsNarrow(alg) && alg.h0 == R256_0 && alg.digestWords == 8
  {
  }

  lemma Output256(alg: Algorithm<bv32>)
    requires IsNarrow(alg) && alg.h0 == R256_0 && alg.digestWords == 8 && alg.Rounds() <= |alg.k|
    ensures Output(alg, AddRegs(alg, R256_0, R256_64), 8) ==
            [0xba, 0x78, 0x16, 0xbf] + [0x8f, 0x01, 0xcf, 0xea] + [0x41, 0x41, 0x40, 0xde] + [0x5d, 0xae, 0x22, 0x23] +
            [0xb0, 0x03, 0x61, 0xa3] + [0x96, 0x17, 0x7a, 0x9c] + [0xb4, 0x10, 0xff, 0x61] + [0xf2, 0x00, 0x15, 0xad]
  {
    hide K256, Add32, BigBytes32, Output;
    OutputAll(alg, AddRegs(alg, R256_0, R256_64));
    Sums256();
  }

  /** SHA-256 of "abc" on a machine of either byte order. */
  lemma Sha256OfAbc(little: bool)
    ensures Digest(Sha256(little), ABC) ==
            [0xba, 0x78, 0x16, 0xbf] + [0x8f, 0x01, 0xcf, 0xea] + [0x41, 0x41, 0x40, 0xde] + [0x5d, 0xae, 0x22, 0x23] +
            [0xb0, 0x03, 0x61, 0xa3] + [0x96, 0x17, 0x7a, 0x9c] + [0xb4, 0x10, 0xff, 0x61] + [0xf2, 0x00, 0x15, 0xad]
  {
    var alg, b := Sha256(little), AbcBlock(59);
    Sha256Is(little);
    SizesAre32(alg);
    hide Sha256, IsNarrow, AddRegs, AbcBlock, Fold, AfterRounds, Output, Padding;
    AbcPadded(alg);
    BlocksChain(alg, [], b);
    assert [] + b == b;
    AllRounds256(alg);
    Output256(alg);
  }

  /* ---- SHA-512 ---- */

  /* The schedule of the block that "abc" is padded to. */

  const W512_0: Octet<bv64> :=
    Octet(0x6162638000000000, 0x0000000000000000, 0x0000000000000000, 0x0000000000000000,
          0x0000000000000000, 0x0000000000000000, 0x0000000000000000, 0x0000000000000000)
  const W512_1: Octet<bv64> :=
    Octet(0x0000000000000000, 0x0000000000000000, 0x0000000000000000, 0x0000000000000000,
          0x0000000000000000, 0x0000000000000000, 0x0000000000000000, 0x0000000000000018)
  const W512_2: Octet<bv64> :=
    Octet(0x6162638000000000, 0x00030000000000c0, 0x0a9699a24c700003, 0x00000c0060000603,
          0x549ef62639858996, 0x00c0003300003c00, 0x1497007a8a0e9dbc, 0x62e56500cc0780f0)
  const W512_3: Octet<bv64> :=
    Octet(0x7760dd475a538797, 0xf1554b711c1c0003, 0xca2993a4345d9ff2, 0x5e0e66b5c783dd32,
          0xe25a625d00494b62, 0x9f44486fb1e4fbd2, 0xb31b8c2b06085f2f, 0x0e987660934142f6)
  const W512_4: Octet<bv64> :=
    Octet(0xa4af2cfd09fbb924, 0xad289e2e0bd53186, 0x3c74563aa2f9673e, 0x6ccdcd14cc14b53f,
          0xc3f925b337f22bde, 0x5bcc77a75ad95b54, 0x3ec2257adca09a52, 0x28246960001fc5eb)
  const W512_5: Octet<bv64> :=
    Octet(0x04e33a75ce2be88a, 0x7d5314b3c359e0e7, 0xaef7a285ff251266, 0x0b8472581deea04f,
          0xb174e26eddc7b033, 0x5d63bae58ddd88de, 0x4c044007b744ccbb, 0xe6a9aa4d74dc7d43)
  const W512_6: Octet<bv64> :=
    Octet(0xebeaf1237248019c, 0x361e80b2d00f3193, 0x2e9839125df3b175, 0x3319629293ad5363,
          0x9cbc5d89ac1b89d5, 0x275e23ffeeca50b7, 0x3b80d680bf69ef58, 0x0d0696933945a125)
  const W512_7: Octet<bv64> :=
    Octet(0x7533eabcb786ff00, 0xb89826cee6fbf0e5, 0x249b4fbcad623e9f, 0x4aea9df2b02d6f1e,
          0x2cc57475a55e8d8f, 0xb2574ae938d8be89, 0xc1b35a57b16d6aea, 0xcc4918b5949206bb)
  const W512_8: Octet<bv64> :=
    Octet(0x5099c3add79f90ec, 0x5ea81d78e7660bf1, 0xebee6267405ac2a9, 0xb01f21926108a4ab,
          0x786433dd2fe65556, 0xc54a6eaa24a0552c, 0xb3c8f1530bdbaa9e, 0xbb8abfe56f469338)
  const W512_9: Octet<bv64> :=
    Octet(0xf63d4265cc1c5a78, 0xbe8355ea73129afb, 0x49e2db8ebdcfbeb5, 0x82269d4a883a3d99,
          0xfdf53df3011f362b, 0x464af5671d71c12e, 0xe449b68198ec611c, 0x92aeeed1a7bcf7d2)

  lemma Words512_2()
    ensures Follow64(W512_0, W512_1, W512_2)
  {
  }

  lemma Words512_3()
    ensures Follow64(W512_1, W512_2, W512_3)
  {
  }

  lemma Words512_4()
    ensures Follow64(W512_2, W512_3, W512_4)
  {
  }

  lemma Words512_5()
    ensures Follow64(W512_3, W512_4, W512_5)
  {
  }

  lemma Words512_6()
    ensures Follow64(W512_4, W512_5, W512_6)
  {
  }

  lemma Words512_7()
    ensures Follow64(W512_5, W512_6, W512_7)
  {
  }

  lemma Words512_8()
    ensures Follow64(W512_6, W512_7, W512_8)
  {
  }

  lemma Words512_9()
    ensures Follow64(W512_7, W512_8, W512_9)
  {
  }

  /* The registers of SHA-512 after every sixteen rounds. */

  const R512_0: Regs<bv64> :=
    Regs(0x6a09e667f3bcc908, 0xbb67ae8584caa73b, 0x3c6ef372fe94f82b, 0xa54ff53a5f1d36f1,
         0x510e527fade682d1, 0x9b05688c2b3e6c1f, 0x1f83d9abfb41bd6b, 0x5be0cd19137e2179)
  const R512_16: Regs<bv64> :=
    Regs(0x0ae07c86b1181c75, 0xfa967eed85a08028, 0x44249631255d2ca0, 0x5e41214388186c14,
         0xa77b7c035dd4c161, 0x874bfe5f6aae9f2f, 0x860acf9effba6f61, 0xcdf3bff2883fc9d9)
  const R512_32: Regs<bv64> :=
    Regs(0xff4d3f1f0d46a736, 0x4c4fbbb75f1873a6, 0x74bf40f869094c63, 0xe62349090f47d30a,
         0x3cd388e119e8162e, 0x73e025d91b9efea3, 0xf0aec2fe1437f085, 0x0fcdf99710f21584)
  const R512_48: Regs<bv64> :=
    Regs(0x6b69fc1bb482feac, 0xf61e672694de2d67, 0x021fbadbabab5ac6, 0xc47c9d5c7ea8a234,
         0x35264334c03ac8ad, 0xc6bc35740d8daa9a, 0xe95c2a57572d64d9, 0x858d832ae0e8911c)
  const R512_64: Regs<bv64> :=
    Regs(0xab44e86276478d85, 0xa81dedbb9f19e643, 0xcfcd928c5424e2b6, 0x3857dfd2fc37d3ba,
         0xcd881ee59ca6bc53, 0x84058865d60a05fa, 0x09aee5bda1644de5, 0xa6af4e9c9f807e51)
  const R512_80: Regs<bv64> :=
    Regs(0x73a54f399fa4b1b2, 0x10d9c4c4295599f6, 0xd67806db8b148677, 0x654ef9abec389ca9,
         0xd08446aa79693ed7, 0x9bb4d39778c07f9e, 0x25c96a7768fb2aa3, 0xceb9fc3691ce8326)

  lemma Rounds512_0()
    ensures Eight64Rounds(Eight64Rounds(R512_0, C512_0, W512_0), C512_1, W512_1) == R512_16
  {
    var r0 := Regs(0x6a09e667f3bcc908, 0xbb67ae8584caa73b, 0x3c6ef372fe94f82b, 0xa54ff53a5f1d36f1,
                   0x510e527fade682d1, 0x9b05688c2b3e6c1f, 0x1f83d9abfb41bd6b, 0x5be0cd19137e2179);
    var r1 := Moved64(r0, 0x428a2f98d728ae22, 0x6162638000000000, 0xf6afceb8bcfcddf5, 0x58cb02347ab51f91);
    var r2 := Moved64(r1, 0x7137449123ef65cd, 0x0000000000000000, 0x1320f8c9fb872cc0, 0xc3d4ebfd48650ffa);
    var r3 := Moved64(r2, 0xb5c0fbcfec4d3b2f, 0x0000000000000000, 0xebcffc07203d91f3, 0xdfa9b239f2697812);
    var r4 := Moved64(r3, 0xe9b5dba58189dbbc, 0x0000000000000000, 0x5a83cb3e80050e82, 0x0b47b4bb1928990e);
    var r5 := Moved64(r4, 0x3956c25bf348b538, 0x0000000000000000, 0xb680953951604860, 0x745aca4a342ed2e2);
    var r6 := Moved64(r5, 0x59f111f1b605d019, 0x0000000000000000, 0xaf573b02403e89cd, 0x96f60209b6dc35ba);
    var r7 := Moved64(r6, 0x923f82a4af194f9b, 0x0000000000000000, 0xc4875b0c7abc076b, 0x5a6c781f54dcc00c);
    var r8 := Moved64(r7, 0xab1c5ed5da6d8118, 0x0000000000000000, 0x8093d195e0054fa3, 0x86f67263a0f0ec0a);
    var r9 := Moved64(r8, 0xd807aa98a3030242, 0x0000000000000000, 0xf1eca5544cb89225, 0xd0403c398fc40002);
    var r10 := Moved64(r9, 0x12835b0145706fbe, 0x0000000000000000, 0x81782d4a5db48f03, 0x00091f460be46c52);
    var r11 := Moved64(r10, 0x243185be4ee4b28c, 0x0000000000000000, 0x69854c4aa0f25b59, 0xd375471bde1ba3f4);
    var r12 := Moved64(r11, 0x550c7dc3d5ffb4e2, 0x0000000000000000, 0xdb0a9963f80c2eaa, 0x475975b91a7a462c);
    var r13 := Moved64(r12, 0x72be5d74f27b896f, 0x0000000000000000, 0x5e41214388186c14, 0xcdf3bff2883fc9d9);
    var r14 := Moved64(r13, 0x80deb1fe3b1696b1, 0x0000000000000000, 0x44249631255d2ca0, 0x860acf9effba6f61);
    var r15 := Moved64(r14, 0x9bdc06a725c71235, 0x0000000000000000, 0xfa967eed85a08028, 0x874bfe5f6aae9f2f);
    var r16 := Moved64(r15, 0xc19bf174cf692694, 0x0000000000000018, 0x0ae07c86b1181c75, 0xa77b7c035dd4c161);
  }

  lemma Rounds512_16()
    ensures Eight64Rounds(Eight64Rounds(R512_16, C512_2, W512_2), C512_3, W512_3) == R512_32
  {
    var r0 := Regs(0x0ae07c86b1181c75, 0xfa967eed85a08028, 0x44249631255d2ca0, 0x5e41214388186c14,
                   0xa77b7c035dd4c161, 0x874bfe5f6aae9f2f, 0x860acf9effba6f61, 0xcdf3bff2883fc9d9);
    var r1 := Moved64(r0, 0xe49b69c19ef14ad2, 0x6162638000000000, 0xcaf81a425d800537, 0x2deecc6b39d64d78);
    var r2 := Moved64(r1, 0xefbe4786384f25e3, 0x00030000000000c0, 0x4725be249ad19e6b, 0xf47e8353f8047455);
    var r3 := Moved64(r2, 0x0fc19dc68b8cd5b5, 0x0a9699a24c700003, 0x3c4b4104168e3edb, 0x29695fd88d81dbd0);
    var r4 := Moved64(r3, 0x240ca1cc77ac9c65, 0x00000c0060000603, 0x9a3fb4d38ab6cf06, 0xf14998dd5f70767e);
    var r5 := Moved64(r4, 0x2de92c6f592b0275, 0x549ef62639858996, 0x8dc5ae65569d3855, 0x4bb9e66d1145bfdc);
    var r6 := Moved64(r5, 0x4a7484aa6ea6e483, 0x00c0003300003c00, 0xda34d6673d452dcf, 0x8e30ff09ad488753);
    var r7 := Moved64(r6, 0x5cb0a9dcbd41fbd4, 0x1497007a8a0e9dbc, 0x3e2644567b709a78, 0x0ac2b11da8f571c6);
    var r8 := Moved64(r7, 0x76f988da831153b5, 0x62e56500cc0780f0, 0x4f6877b58fe55484, 0xc66005f87db55233);
    var r9 := Moved64(r8, 0x983e5152ee66dfab, 0x7760dd475a538797, 0x9aff71163fa3a940, 0xd3ecf13769180e6f);
    var r10 := Moved64(r9, 0xa831c66d2db43210, 0xf1554b711c1c0003, 0x0bc5f791f8e6816b, 0x6ddf1fd7edcce336);
    var r11 := Moved64(r10, 0xb00327c898fb213f, 0xca2993a4345d9ff2, 0x884c3bc27bc4f941, 0xe6e48c9a8e948365);
    var r12 := Moved64(r11, 0xbf597fc7beef0ee4, 0x5e0e66b5c783dd32, 0xeab4a9e5771b8d09, 0x09068a4e255a0dac);
    var r13 := Moved64(r12, 0xc6e00bf33da88fc2, 0xe25a625d00494b62, 0xe62349090f47d30a, 0x0fcdf99710f21584);
    var r14 := Moved64(r13, 0xd5a79147930aa725, 0x9f44486fb1e4fbd2, 0x74bf40f869094c63, 0xf0aec2fe1437f085);
    var r15 := Moved64(r14, 0x06ca6351e003826f, 0xb31b8c2b06085f2f, 0x4c4fbbb75f1873a6, 0x73e025d91b9efea3);
    var r16 := Moved64(r15, 0x142929670a0e6e70, 0x0e987660934142f6, 0xff4d3f1f0d46a736, 0x3cd388e119e8162e);
  }

  lemma Rounds512_32()
    ensures Eight64Rounds(Eight64Rounds(R512_32, C512_4, W512_4), C512_5, W512_5) == R512_48
  {
    var r0 := Regs(0xff4d3f1f0d46a736, 0x4c4fbbb75f1873a6, 0x74bf40f869094c63, 0xe62349090f47d30a,
                   0x3cd388e119e8162e, 0x73e025d91b9efea3, 0xf0aec2fe1437f085, 0x0fcdf99710f21584);
    var r1 := Moved64(r0, 0x27b70a8546d22ffc, 0xa4af2cfd09fbb924, 0xa0509015ca08c8d4, 0xe1034573654a106f);
    var r2 := Moved64(r1, 0x2e1b21385c26c926, 0xad289e2e0bd53186, 0x60d4e6995ed91fe6, 0xefabbd8bf47c041a);
    var r3 := Moved64(r2, 0x4d2c6dfc5ac42aed, 0x3c74563aa2f9673e, 0x2c59ec7743632621, 0x0fbae670fa780fd3);
    var r4 := Moved64(r3, 0x53380d139d95b3df, 0x6ccdcd14cc14b53f, 0x1a081afc59fdbc2c, 0xf098082f502b44cd);
    var r5 := Moved64(r4, 0x650a73548baf63de, 0xc3f925b337f22bde, 0x88df85b0bbe77514, 0x8fbfd0162bbf4675);
    var r6 := Moved64(r5, 0x766a0abb3c77b2a8, 0x5bcc77a75ad95b54, 0x002bb8e4cd989567, 0x66adcfa249ac7bbd);
    var r7 := Moved64(r6, 0x81c2c92e47edaee6, 0x3ec2257adca09a52, 0xb3bb8542b3376de5, 0xb49596c20feba7de);
    var r8 := Moved64(r7, 0x92722c851482353b, 0x28246960001fc5eb, 0x8e01e125b855d225, 0x0c710a47ba6a567b);
    var r9 := Moved64(r8, 0xa2bfe8a14cf10364, 0x04e33a75ce2be88a, 0xb01521dd6a6be12c, 0x169008b3a4bb170b);
    var r10 := Moved64(r9, 0xa81a664bbc423001, 0x7d5314b3c359e0e7, 0xe96f89dd48cbd851, 0xf0996439e7b50cb1);
    var r11 := Moved64(r10, 0xc24b8b70d0f89791, 0xaef7a285ff251266, 0xbc05ba8de5d3c480, 0x639cb938e14dc190);
    var r12 := Moved64(r11, 0xc76c51a30654be30, 0x0b8472581deea04f, 0x35d7e7f41defcbd5, 0xcc5100997f5710f2);
    var r13 := Moved64(r12, 0xd192e819d6ef5218, 0xb174e26eddc7b033, 0xc47c9d5c7ea8a234, 0x858d832ae0e8911c);
    var r14 := Moved64(r13, 0xd69906245565a910, 0x5d63bae58ddd88de, 0x021fbadbabab5ac6, 0xe95c2a57572d64d9);
    var r15 := Moved64(r14, 0xf40e35855771202a, 0x4c044007b744ccbb, 0xf61e672694de2d67, 0xc6bc35740d8daa9a);
    var r16 := Moved64(r15, 0x106aa07032bbd1b8, 0xe6a9aa4d74dc7d43, 0x6b69fc1bb482feac, 0x35264334c03ac8ad);
  }

  lemma Rounds512_48()
    ensures Eight64Rounds(Eight64Rounds(R512_48, C512_6, W512_6), C512_7, W512_7) == R512_64
  {
    var r0 := Regs(0x6b69fc1bb482feac, 0xf61e672694de2d67, 0x021fbadbabab5ac6, 0xc47c9d5c7ea8a234,
                   0x35264334c03ac8ad, 0xc6bc35740d8daa9a, 0xe95c2a57572d64d9, 0x858d832ae0e8911c);
    var r1 := Moved64(r0, 0x19a4c116b8d2d0c8, 0xebeaf1237248019c, 0x571f323d96b3a047, 0x271580ed6c3e5650);
    var r2 := Moved64(r1, 0x1e376c085141ab53, 0x361e80b2d00f3193, 0xca9bd862c5050918, 0xdfe091dab182e645);
    var r3 := Moved64(r2, 0x2748774cdf8eeb99, 0x2e9839125df3b175, 0x813a43dd2c502043, 0x07a0d8ef821c5e1a);
    var r4 := Moved64(r3, 0x34b0bcb5e19b48a8, 0x3319629293ad5363, 0xd43f83727325dd77, 0x483f80a82eaee23e);
    var r5 := Moved64(r4, 0x391c0cb3c5c95a63, 0x9cbc5d89ac1b89d5, 0x03df11b32d42e203, 0x504f94e40591cffa);
    var r6 := Moved64(r5, 0x4ed8aa4ae3418acb, 0x275e23ffeeca50b7, 0xd63f68037ddf06aa, 0xa6781efe1aa1ce02);
    var r7 := Moved64(r6, 0x5b9cca4f7763e373, 0x3b80d680bf69ef58, 0xf650857b5babda4d, 0x9ccfb31a86df0f86);
    var r8 := Moved64(r7, 0x682e6ff3d6b2b8a3, 0x0d0696933945a125, 0x63b460e42748817e, 0xc6b4dd2a9931c509);
    var r9 := Moved64(r8, 0x748f82ee5defb2fc, 0x7533eabcb786ff00, 0x7a52912943d52b05, 0xd2e89bbd91e00be0);
    var r10 := Moved64(r9, 0x78a5636f43172f60, 0xb89826cee6fbf0e5, 0x4b81c3aec976ea4b, 0x70505988124351ac);
    var r11 := Moved64(r10, 0x84c87814a1f0ab72, 0x249b4fbcad623e9f, 0x581ecb3355dcd9b8, 0x6a3c9b0f71c8bf36);
    var r12 := Moved64(r11, 0x8cc702081a6439ec, 0x4aea9df2b02d6f1e, 0x2c074484ef1eac8c, 0x4797cde4ed370692);
    var r13 := Moved64(r12, 0x90befffa23631e28, 0x2cc57475a55e8d8f, 0x3857dfd2fc37d3ba, 0xa6af4e9c9f807e51);
    var r14 := Moved64(r13, 0xa4506cebde82bde9, 0xb2574ae938d8be89, 0xcfcd928c5424e2b6, 0x09aee5bda1644de5);
    var r15 := Moved64(r14, 0xbef9a3f7b2c67915, 0xc1b35a57b16d6aea, 0xa81dedbb9f19e643, 0x84058865d60a05fa);
    var r16 := Moved64(r15, 0xc67178f2e372532b, 0xcc4918b5949206bb, 0xab44e86276478d85, 0xcd881ee59ca6bc53);
  }

  lemma Rounds512_64()
    ensures Eight64Rounds(Eight64Rounds(R512_64, C512_8, W512_8), C512_9, W512_9) == R512_80
  {
    var r0 := Regs(0xab44e86276478d85, 0xa81dedbb9f19e643, 0xcfcd928c5424e2b6, 0x3857dfd2fc37d3ba,
                   0xcd881ee59ca6bc53, 0x84058865d60a05fa, 0x09aee5bda1644de5, 0xa6af4e9c9f807e51);
    var r1 := Moved64(r0, 0xca273eceea26619c, 0x5099c3add79f90ec, 0x5a806d7e9821a501, 0xaa84b086688a5c45);
    var r2 := Moved64(r1, 0xd186b8c721c0c207, 0x5ea81d78e7660bf1, 0xeeb9c21bb0102598, 0x3b5fed0d6a1f96e1);
    var r3 := Moved64(r2, 0xeada7dd6cde0eb1e, 0xebee6267405ac2a9, 0x46c4210ab2cc155d, 0x29fab5a7bff53366);
    var r4 := Moved64(r3, 0xf57d4f7fee6ed178, 0xb01f21926108a4ab, 0x54ba35cf56a0340e, 0x1c66f46d95690bcf);
    var r5 := Moved64(r4, 0x06f067aa72176fba, 0x786433dd2fe65556, 0x181839d609c79748, 0x0ada78ba2d446140);
    var r6 := Moved64(r5, 0x0a637dc5a2c898a6, 0xc54a6eaa24a0552c, 0xfb6aaae5d0b6a447, 0xe3711cb6564d112d);
    var r7 := Moved64(r6, 0x113f9804bef90dae, 0xb3c8f1530bdbaa9e, 0x7652c579cb60f19c, 0xaff62c9665ff80fa);
    var r8 := Moved64(r7, 0x1b710b35131c471b, 0xbb8abfe56f469338, 0xf15e9664b2803575, 0x947c3dfafee570ef);
    var r9 := Moved64(r8, 0x28db77f523047d84, 0xf63d4265cc1c5a78, 0x358406d165aee9ab, 0x8c7b5fd91a794ca0);
    var r10 := Moved64(r9, 0x32caab7b40c72493, 0xbe8355ea73129afb, 0x20878dcd29cdfaf5, 0x054d3536539948d0);
    var r11 := Moved64(r10, 0x3c9ebe0a15c9bebc, 0x49e2db8ebdcfbeb5, 0x33d48dabb5521de2, 0x2ba18245b50de4cf);
    var r12 := Moved64(r11, 0x431d67c49c100d4c, 0x82269d4a883a3d99, 0xc8960e6be864b916, 0x995019a6ff3ba3de);
    var r13 := Moved64(r12, 0x4cc5d4becb3e42b6, 0xfdf53df3011f362b, 0x654ef9abec389ca9, 0xceb9fc3691ce8326);
    var r14 := Moved64(r13, 0x597f299cfc657e2a, 0x464af5671d71c12e, 0xd67806db8b148677, 0x25c96a7768fb2aa3);
    var r15 := Moved64(r14, 0x5fcb6fab3ad6faec, 0xe449b68198ec611c, 0x10d9c4c4295599f6, 0x9bb4d39778c07f9e);
    var r16 := Moved64(r15, 0x6c44198c4a475817, 0x92aeeed1a7bcf7d2, 0x73a54f399fa4b1b2, 0xd08446aa79693ed7);
  }

  lemma BigIs64()
    ensures Big64([0x61, 0x62, 0x63, 0x80, 0, 0, 0, 0]) == 0x6162638000000000
    ensures Big64([0, 0, 0, 0, 0, 0, 0, 0]) == 0 && Big64([0, 0, 0, 0, 0, 0, 0, 24]) == 24
  {
  }

  lemma FirstWords64(alg: Algorithm<bv64>, j: nat)
    requires IsWide(alg) && j < 16
    ensures Schedule(alg, AbcBlock(123), j) == if j == 0 then 0x6162638000000000 else if j < 15 then 0 else 24
  {
    hide Big64;
    var part := AbcBlock(123)[alg.Offset(j)..alg.Offset(j + 1)];
    BigIs64();
    assert part == if j == 0 then [0x61, 0x62, 0x63, 0x80, 0, 0, 0, 0]
                   else if j < 15 then [0, 0, 0, 0, 0, 0, 0, 0] else [0, 0, 0, 0, 0, 0, 0, 24];
  }

  lemma FirstOctets64(alg: Algorithm<bv64>)
    requires IsWide(alg)
    ensures Shows(alg, AbcBlock(123), 0, W512_0) && Shows(alg, AbcBlock(123), 8, W512_1)
  {
    hide Schedule, IsWide;
    SizesAre64(alg);
    forall j | 0 <= j < 16
      ensures Schedule(alg, AbcBlock(123), j) == if j == 0 then 0x6162638000000000 else if j < 15 then 0 else 24
    {
      FirstWords64(alg, j);
    }
  }

  lemma AllWords64(alg: Algorithm<bv64>)
    requires IsWide(alg)
    ensures Shows(alg, AbcBlock(123), 0, W512_0) && Shows(alg, AbcBlock(123), 8, W512_1)
    ensures Shows(alg, AbcBlock(123), 16, W512_2) && Shows(alg, AbcBlock(123), 24, W512_3)
    ensures Shows(alg, AbcBlock(123), 32, W512_4) && Shows(alg, AbcBlock(123), 40, W512_5)
    ensures Shows(alg, AbcBlock(123), 48, W512_6) && Shows(alg, AbcBlock(123), 56, W512_7)
    ensures Shows(alg, AbcBlock(123), 64, W512_8) && Shows(alg, AbcBlock(123), 72, W512_9)
  {
    hide Shows, Follow64, IsWide;
    var b := AbcBlock(123);
    FirstOctets64(alg);
    Words512_2();
    EightWords64(alg, b, 0, W512_0, W512_1, W512_2);
    Words512_3();
    EightWords64(alg, b, 8, W512_1, W512_2, W512_3);
    Words512_4();
    EightWords64(alg, b, 16, W512_2, W512_3, W512_4);
    Words512_5();
    EightWords64(alg, b, 24, W512_3, W512_4, W512_5);
    Words512_6();
    EightWords64(alg, b, 32, W512_4, W512_5, W512_6);
    Words512_7();
    EightWords64(alg, b, 40, W512_5, W512_6, W512_7);
    Words512_8();
    EightWords64(alg, b, 48, W512_6, W512_7, W512_8);
    Words512_9();
    EightWords64(alg, b, 56, W512_7, W512_8, W512_9);
  }

  lemma AllRounds512(alg: Algorithm<bv64>)
    requires IsWide(alg) && alg.h0 == R512_0
    ensures AfterRounds(alg, alg.h0, AbcBlock(123), 80) == R512_80
  {
    hide Shows, IsWide, AfterRounds, AbcBlock, Eight64Rounds, K512, Constants64;
    var b := AbcBlock(123);
    SizesAre64(alg);
    NoRounds(alg, b);
    AllWords64(alg);
    ConstantsAre512_0();
    EightRoundsAre64(alg, b, 0, R512_0, W512_0);
    EightRoundsAre64(alg, b, 8, Eight64Rounds(R512_0, C512_0, W512_0), W512_1);
    Rounds512_0();
    ConstantsAre512_2();
    EightRoundsAre64(alg, b, 16, R512_16, W512_2);
    EightRoundsAre64(alg, b, 24, Eight64Rounds(R512_16, C512_2, W512_2), W512_3);
    Rounds512_16();
    ConstantsAre512_4();
    EightRoundsAre64(alg, b, 32, R512_32, W512_4);
    EightRoundsAre64(alg, b, 40, Eight64Rounds(R512_32, C512_4, W512_4), W512_5);
    Rounds512_32();
    ConstantsAre512_6();
    EightRoundsAre64(alg, b, 48, R512_48, W512_6);
    EightRoundsAre64(alg, b, 56, Eight64Rounds(R512_48, C512_6, W512_6), W512_7);
    Rounds512_48();
    ConstantsAre512_8();
    EightRoundsAre64(alg, b, 64, R512_64, W512_8);
    EightRoundsAre64(alg, b, 72, Eight64Rounds(R512_64, C512_8, W512_8), W512_9);
    Rounds512_64();
  }

  lemma Sums512()
    ensures BigBytes64(Add64(0x6a09e667f3bcc908, 0x73a54f399fa4b1b2)) ==
            [0xdd, 0xaf, 0x35, 0xa1, 0x93, 0x61, 0x7a, 0xba]
    ensures BigBytes64(Add64(0xbb67ae8584caa73b, 0x10d9c4c4295599f6)) ==
            [0xcc, 0x41, 0x73, 0x49, 0xae, 0x20, 0x41, 0x31]
    ensures BigBytes64(Add64(0x3c6ef372fe94f82b, 0xd67806db8b148677)) ==
            [0x12, 0xe6, 0xfa, 0x4e, 0x89, 0xa9, 0x7e, 0xa2]
    ensures BigBytes64(Add64(0xa54ff53a5f1d36f1, 0x654ef9abec389ca9)) ==
            [0x0a, 0x9e, 0xee, 0xe6, 0x4b, 0x55, 0xd3, 0x9a]
    ensures BigBytes64(Add64(0x510e527fade682d1, 0xd08446aa79693ed7)) ==
            [0x21, 0x92, 0x99, 0x2a, 0x27, 0x4f, 0xc1, 0xa8]
    ensures BigBytes64(Add64(0x9b05688c2b3e6c1f, 0x9bb4d39778c07f9e)) ==
            [0x36, 0xba, 0x3c, 0x23, 0xa3, 0xfe, 0xeb, 0xbd]
    ensures BigBytes64(Add64(0x1f83d9abfb41bd6b, 0x25c96a7768fb2aa3)) ==
            [0x45, 0x4d, 0x44, 0x23, 0x64, 0x3c, 0xe8, 0x0e]
    ensures BigBytes64(Add64(0x5be0cd19137e2179, 0xceb9fc3691ce8326)) ==
            [0x2a, 0x9a, 0xc9, 0x4f, 0xa5, 0x4c, 0xa4, 0x9f]
  {
  }

  lemma Sha512Is(little: bool)
    ensures var alg := Sha512(little);
            IsWide(alg) && alg.h0 == R512_0 && alg.digestWords == 8
  {
  }

  lemma Output512(alg: Algorithm<bv64>)
    requires IsWide(alg) && alg.h0 == R512_0 && alg.digestWords == 8 && alg.Rounds() <= |alg.k|
    ensures Output(alg, AddRegs(alg, R512_0, R512_80), 8) ==
            [0xdd, 0xaf, 0x35, 0xa1, 0x93, 0x61, 0x7a, 0xba] + [0xcc, 0x41, 0x73, 0x49, 0xae, 0x20, 0x41, 0x31] +
            [0x12, 0xe6, 0xfa, 0x4e, 0x89, 0xa9, 0x7e, 0xa2] + [0x0a, 0x9e, 0xee, 0xe6, 0x4b, 0x55, 0xd3, 0x9a] +
            [0x21, 0x92, 0x99, 0x2a, 0x27, 0x4f, 0xc1, 0xa8] + [0x36, 0xba, 0x3c, 0x23, 0xa3, 0xfe, 0xeb, 0xbd] +
            [0x45, 0x4d, 0x44, 0x23, 0x64, 0x3c, 0xe8, 0x0e] + [0x2a, 0x9a, 0xc9, 0x4f, 0xa5, 0x4c, 0xa4, 0x9f]
  {
    hide K512, Add64, BigBytes64, Output;
    OutputAll(alg, AddRegs(alg, R512_0, R512_80));
    Sums512();
  }

  /** SHA-512 of "abc" on a machine of either byte order. */
  lemma Sha512OfAbc(little: bool)
    ensures Digest(Sha512(little), ABC) ==
            [0xdd, 0xaf, 0x35, 0xa1, 0x93, 0x61, 0x7a, 0xba] + [0xcc, 0x41, 0x73, 0x49, 0xae, 0x20, 0x41, 0x31] +
            [0x12, 0xe6, 0xfa, 0x4e, 0x89, 0xa9, 0x7e, 0xa2] + [0x0a, 0x9e, 0xee, 0xe6, 0x4b, 0x55, 0xd3, 0x9a] +
            [0x21, 0x92, 0x99, 0x2a, 0x27, 0x4f, 0xc1, 0xa8] + [0x36, 0xba, 0x3c, 0x23, 0xa3, 0xfe, 0xeb, 0xbd] +
            [0x45, 0x4d, 0x44, 0x23, 0x64, 0x3c, 0xe8, 0x0e] + [0x2a, 0x9a, 0xc9, 0x4f, 0xa5, 0x4c, 0xa4, 0x9f]
  {
    var alg, b := Sha512(little), AbcBlock(123);
    Sha512Is(little);
    SizesAre64(alg);
    hide Sha512, IsWide, AddRegs, AbcBlock, Fold, AfterRounds, Output, Padding;
    AbcPadded(alg);
    BlocksChain(alg, [], b);
    assert [] + b == b;
    AllRounds512(alg);
    Output512(alg);
  }

  /* ---- SHA-384 ---- */

  /* The registers of SHA-384 after every sixteen rounds. */

  const R384_0: Regs<bv64> :=
    Regs(0xcbbb9d5dc1059ed8, 0x629a292a367cd507, 0x9159015a3070dd17, 0x152fecd8f70e5939,
         0x67332667ffc00b31, 0x8eb44a8768581511, 0xdb0c2e0d64f98fa7, 0x47b5481dbefa4fa4)
  const R384_16: Regs<bv64> :=
    Regs(0x1eab6159ae87ef6d, 0x7e32dc0e9f414783, 0xe5f06744c0d7563a, 0x185f9ff038a50f39,
         0x153b895cfbc436c5, 0x3a9950aaa5e75884, 0x2fa93d1ce9523015, 0x8b4acfc4d2b8afe6)
  const R384_32: Regs<bv64> :=
    Regs(0x4ba456ec244033ed, 0x4c5c38df7ec8baf4, 0xbbed541a5128088c, 0xe428bb43afe3d63e,
         0x7cf40857056d86b0, 0x422ceea0200e9ee4, 0x7973aadbde294be9, 0x6a8527525f898726)
  const R384_48: Regs<bv64> :=
    Regs(0xa6998d63a5d09e04, 0xeb3753f4283f4818, 0xef5e3885a2f238df, 0x51dcaa36995c301d,
         0xe21095012ee0b72a, 0x0ae48cf840bb8be9, 0x740e347f24e18fda, 0xe37f778353998050)
  const R384_64: Regs<bv64> :=
    Regs(0x24a1124262a331c7, 0x56fb5883f1c87a05, 0x3dc764f89e54043a, 0x1ca93a293d544328,
         0x06edacae6e7b54ad, 0xf5198a41eb80e022, 0xa57784945550cf94, 0xefbef83a35c0319e)
  const R384_80: Regs<bv64> :=
    Regs(0xff44d7e1849dbfb3, 0x5306143f64497b00, 0x95d33150de6df44c, 0x055b73814cf102b4,
         0x1952e0c3a227c0f2, 0xca06a219cc701096, 0xc7f7bff08ebf0d30, 0xc4b149710f5d6a71)

  lemma Rounds384_0()
    ensures Eight64Rounds(Eight64Rounds(R384_0, C512_0, W512_0), C512_1, W512_1) == R384_16
  {
    var r0 := Regs(0xcbbb9d5dc1059ed8, 0x629a292a367cd507, 0x9159015a3070dd17, 0x152fecd8f70e5939,
                   0x67332667ffc00b31, 0x8eb44a8768581511, 0xdb0c2e0d64f98fa7, 0x47b5481dbefa4fa4);
    var r1 := Moved64(r0, 0x428a2f98d728ae22, 0x6162638000000000, 0x470994ad30873f88, 0xbd03f724be6075f9);
    var r2 := Moved64(r1, 0x7137449123ef65cd, 0x0000000000000000, 0x2e91230306a12ae0, 0x5e1b4e1695372b9e);
    var r3 := Moved64(r2, 0xb5c0fbcfec4d3b2f, 0x0000000000000000, 0xeebe5d379be707ad, 0x54074a65aef34336);
    var r4 := Moved64(r3, 0xe9b5dba58189dbbc, 0x0000000000000000, 0xe308483153e15ad6, 0x086c5b2d36a89178);
    var r5 := Moved64(r4, 0x3956c25bf348b538, 0x0000000000000000, 0x3a7a023c593d8479, 0x8aa1144850633794);
    var r6 := Moved64(r5, 0x59f111f1b605d019, 0x0000000000000000, 0x333199a85f92b052, 0x7a6316f0ef047ce7);
    var r7 := Moved64(r6, 0x923f82a4af194f9b, 0x0000000000000000, 0x76f0741213dd2ef6, 0x74063cba385f0675);
    var r8 := Moved64(r7, 0xab1c5ed5da6d8118, 0x0000000000000000, 0x02f2a04d3aab1629, 0x1688b9bf14980fc0);
    var r9 := Moved64(r8, 0xd807aa98a3030242, 0x0000000000000000, 0x73e5b2a1704a0349, 0xfd00139f705907d0);
    var r10 := Moved64(r9, 0x12835b0145706fbe, 0x0000000000000000, 0xbf3f67ba12882648, 0x652e311d4f0a4257);
    var r11 := Moved64(r10, 0x243185be4ee4b28c, 0x0000000000000000, 0x33254508bb2ea48d, 0x9e18991c4f39f0ba);
    var r12 := Moved64(r11, 0x550c7dc3d5ffb4e2, 0x0000000000000000, 0xc1fdb2a0205ea0e5, 0x04732e8bc4044582);
    var r13 := Moved64(r12, 0x72be5d74f27b896f, 0x0000000000000000, 0x185f9ff038a50f39, 0x8b4acfc4d2b8afe6);
    var r14 := Moved64(r13, 0x80deb1fe3b1696b1, 0x0000000000000000, 0xe5f06744c0d7563a, 0x2fa93d1ce9523015);
    var r15 := Moved64(r14, 0x9bdc06a725c71235, 0x0000000000000000, 0x7e32dc0e9f414783, 0x3a9950aaa5e75884);
    var r16 := Moved64(r15, 0xc19bf174cf692694, 0x0000000000000018, 0x1eab6159ae87ef6d, 0x153b895cfbc436c5);
  }

  lemma Rounds384_16()
    ensures Eight64Rounds(Eight64Rounds(R384_16, C512_2, W512_2), C512_3, W512_3) == R384_32
  {
    var r0 := Regs(0x1eab6159ae87ef6d, 0x7e32dc0e9f414783, 0xe5f06744c0d7563a, 0x185f9ff038a50f39,
                   0x153b895cfbc436c5, 0x3a9950aaa5e75884, 0x2fa93d1ce9523015, 0x8b4acfc4d2b8afe6);
    var r1 := Moved64(r0, 0xe49b69c19ef14ad2, 0x6162638000000000, 0x33ef2cebbf1739aa, 0x9d1a64baf1d366aa);
    var r2 := Moved64(r1, 0xefbe4786384f25e3, 0x00030000000000c0, 0x7df1b65f1b87d6ca, 0x5b6e369d36e8e181);
    var r3 := Moved64(r2, 0x0fc19dc68b8cd5b5, 0x0a9699a24c700003, 0x63a24014a34bb0f6, 0xe13e610eae680d85);
    var r4 := Moved64(r3, 0x240ca1cc77ac9c65, 0x00000c0060000603, 0xf1aabd313309509b, 0x674385f0d87db94f);
    var r5 := Moved64(r4, 0x2de92c6f592b0275, 0x549ef62639858996, 0x9ba737ae88a72c64, 0x3fc2614c43906c0f);
    var r6 := Moved64(r5, 0x4a7484aa6ea6e483, 0x00c0003300003c00, 0x042c2dc9a5bf558a, 0x19316bebc88e01f2);
    var r7 := Moved64(r6, 0x5cb0a9dcbd41fbd4, 0x1497007a8a0e9dbc, 0x7799c75acc748c0f, 0xa7bbd65bf64f58c8);
    var r8 := Moved64(r7, 0x76f988da831153b5, 0x62e56500cc0780f0, 0xccf99a80f92bf002, 0xe52a24fae4e8fc9b);
    var r9 := Moved64(r8, 0x983e5152ee66dfab, 0x7760dd475a538797, 0xae993474363efe68, 0x587f308d58681928);
    var r10 := Moved64(r9, 0xa831c66d2db43210, 0xf1554b711c1c0003, 0x335063d1a2aec92f, 0xc2d6d65e38c6ea79);
    var r11 := Moved64(r10, 0xb00327c898fb213f, 0xca2993a4345d9ff2, 0x53a78b0cca01ba37, 0x3b65a26c3c92c8f3);
    var r12 := Moved64(r11, 0xbf597fc7beef0ee4, 0x5e0e66b5c783dd32, 0xab7ffa529f622930, 0xb9d8a2f2762901ea);
    var r13 := Moved64(r12, 0xc6e00bf33da88fc2, 0xe25a625d00494b62, 0xe428bb43afe3d63e, 0x6a8527525f898726);
    var r14 := Moved64(r13, 0xd5a79147930aa725, 0x9f44486fb1e4fbd2, 0xbbed541a5128088c, 0x7973aadbde294be9);
    var r15 := Moved64(r14, 0x06ca6351e003826f, 0xb31b8c2b06085f2f, 0x4c5c38df7ec8baf4, 0x422ceea0200e9ee4);
    var r16 := Moved64(r15, 0x142929670a0e6e70, 0x0e987660934142f6, 0x4ba456ec244033ed, 0x7cf40857056d86b0);
  }

  lemma Rounds384_32()
    ensures Eight64Rounds(Eight64Rounds(R384_32, C512_4, W512_4), C512_5, W512_5) == R384_48
  {
    var r0 := Regs(0x4ba456ec244033ed, 0x4c5c38df7ec8baf4, 0xbbed541a5128088c, 0xe428bb43afe3d63e,
                   0x7cf40857056d86b0, 0x422ceea0200e9ee4, 0x7973aadbde294be9, 0x6a8527525f898726);
    var r1 := Moved64(r0, 0x27b70a8546d22ffc, 0xa4af2cfd09fbb924, 0xaa4a6ab2ac5f5dd8, 0xad2b1ecfb5bfc556);
    var r2 := Moved64(r1, 0x2e1b21385c26c926, 0xad289e2e0bd53186, 0x9cb941f2ced774b3, 0x029f66c7b4569bf0);
    var r3 := Moved64(r2, 0x4d2c6dfc5ac42aed, 0x3c74563aa2f9673e, 0x39265f358594de27, 0x3f7b1c260c82e54f);
    var r4 := Moved64(r3, 0x53380d139d95b3df, 0x6ccdcd14cc14b53f, 0x09cca487d39b02a1, 0x4a22b37b58a5b1b0);
    var r5 := Moved64(r4, 0x650a73548baf63de, 0xc3f925b337f22bde, 0xd48d97ce438cf4f0, 0xa239e00b8baa0410);
    var r6 := Moved64(r5, 0x766a0abb3c77b2a8, 0x5bcc77a75ad95b54, 0xd6f41e25a8b634d6, 0x25755cb8179dd0b0);
    var r7 := Moved64(r6, 0x81c2c92e47edaee6, 0x3ec2257adca09a52, 0x54078334358573b4, 0x0e419fb0802b0efc);
    var r8 := Moved64(r7, 0x92722c851482353b, 0x28246960001fc5eb, 0xdb24f9a03f4fff6b, 0xd30e99b4b394b090);
    var r9 := Moved64(r8, 0xa2bfe8a14cf10364, 0x04e33a75ce2be88a, 0x3604c53a845efc37, 0x791b2b4af7338b99);
    var r10 := Moved64(r9, 0xa81a664bbc423001, 0x7d5314b3c359e0e7, 0xf41b1c0eee89bdc6, 0xe319b77d9e4e87f9);
    var r11 := Moved64(r10, 0xc24b8b70d0f89791, 0xaef7a285ff251266, 0x36644ae374632e3a, 0x458250878a3972b2);
    var r12 := Moved64(r11, 0xc76c51a30654be30, 0x0b8472581deea04f, 0x88806f6ae9fcd65b, 0xcfde2e6ea54fa576);
    var r13 := Moved64(r12, 0xd192e819d6ef5218, 0xb174e26eddc7b033, 0x51dcaa36995c301d, 0xe37f778353998050);
    var r14 := Moved64(r13, 0xd69906245565a910, 0x5d63bae58ddd88de, 0xef5e3885a2f238df, 0x740e347f24e18fda);
    var r15 := Moved64(r14, 0xf40e35855771202a, 0x4c044007b744ccbb, 0xeb3753f4283f4818, 0x0ae48cf840bb8be9);
    var r16 := Moved64(r15, 0x106aa07032bbd1b8, 0xe6a9aa4d74dc7d43, 0xa6998d63a5d09e04, 0xe21095012ee0b72a);
  }

  lemma Rounds384_48()
    ensures Eight64Rounds(Eight64Rounds(R384_48, C512_6, W512_6), C512_7, W512_7) == R384_64
  {
    var r0 := Regs(0xa6998d63a5d09e04, 0xeb3753f4283f4818, 0xef5e3885a2f238df, 0x51dcaa36995c301d,
                   0xe21095012ee0b72a, 0x0ae48cf840bb8be9, 0x740e347f24e18fda, 0xe37f778353998050);
    var r1 := Moved64(r0, 0x19a4c116b8d2d0c8, 0xebeaf1237248019c, 0xd3698fb64df175b0, 0xc2f0b90ffce80739);
    var r2 := Moved64(r1, 0x1e376c085141ab53, 0x361e80b2d00f3193, 0x317a3b295b991914, 0x1cadff2e6cb5aa4d);
    var r3 := Moved64(r2, 0x2748774cdf8eeb99, 0x2e9839125df3b175, 0x0941da08148ba463, 0x833eb9a4bb5a073e);
    var r4 := Moved64(r3, 0x34b0bcb5e19b48a8, 0x3319629293ad5363, 0x494ac238d68c3d0b, 0x80c8fc138e645028);
    var r5 := Moved64(r4, 0x391c0cb3c5c95a63, 0x9cbc5d89ac1b89d5, 0xc87e9168db9e97de, 0x65cf7f6a829aca04);
    var r6 := Moved64(r5, 0x4ed8aa4ae3418acb, 0x275e23ffeeca50b7, 0xedb4448879391dbb, 0x7729c85475dd318f);
    var r7 := Moved64(r6, 0x5b9cca4f7763e373, 0x3b80d680bf69ef58, 0x073775c2456dc7db, 0xa9cca0b6266b1d77);
    var r8 := Moved64(r7, 0x682e6ff3d6b2b8a3, 0x0d0696933945a125, 0x54de8857b24afaf7, 0x8de51cff2ae4b068);
    var r9 := Moved64(r8, 0x748f82ee5defb2fc, 0x7533eabcb786ff00, 0x8a9cdd80f7f09c05, 0xa60ba5e9ebaeb96a);
    var r10 := Moved64(r9, 0x78a5636f43172f60, 0xb89826cee6fbf0e5, 0x3eeb22a7524d8d7f, 0xe2e6830b139df58f);
    var r11 := Moved64(r10, 0x84c87814a1f0ab72, 0x249b4fbcad623e9f, 0x0ed77c9cde8883d3, 0x38413a2052387a9e);
    var r12 := Moved64(r11, 0x8cc702081a6439ec, 0x4aea9df2b02d6f1e, 0xe64e4135f9d30dbc, 0x45b640454c75c349);
    var r13 := Moved64(r12, 0x90befffa23631e28, 0x2cc57475a55e8d8f, 0x1ca93a293d544328, 0xefbef83a35c0319e);
    var r14 := Moved64(r13, 0xa4506cebde82bde9, 0xb2574ae938d8be89, 0x3dc764f89e54043a, 0xa57784945550cf94);
    var r15 := Moved64(r14, 0xbef9a3f7b2c67915, 0xc1b35a57b16d6aea, 0x56fb5883f1c87a05, 0xf5198a41eb80e022);
    var r16 := Moved64(r15, 0xc67178f2e372532b, 0xcc4918b5949206bb, 0x24a1124262a331c7, 0x06edacae6e7b54ad);
  }

  lemma Rounds384_64()
    ensures Eight64Rounds(Eight64Rounds(R384_64, C512_8, W512_8), C512_9, W512_9) == R384_80
  {
    var r0 := Regs(0x24a1124262a331c7, 0x56fb5883f1c87a05, 0x3dc764f89e54043a, 0x1ca93a293d544328,
                   0x06edacae6e7b54ad, 0xf5198a41eb80e022, 0xa57784945550cf94, 0xefbef83a35c0319e);
    var r1 := Moved64(r0, 0xca273eceea26619c, 0x5099c3add79f90ec, 0xeb85d19201c89694, 0x9ced24983eec8723);
    var r2 := Moved64(r1, 0xd186b8c721c0c207, 0x5ea81d78e7660bf1, 0xcc981ab3a59c1db4, 0xeac5516336bc8882);
    var r3 := Moved64(r2, 0xeada7dd6cde0eb1e, 0xebee6267405ac2a9, 0xceef5d997e148b44, 0x617bbf70bb165212);
    var r4 := Moved64(r3, 0xf57d4f7fee6ed178, 0xb01f21926108a4ab, 0x689edf608a8e3f14, 0x3280d88472c100fd);
    var r5 := Moved64(r4, 0x06f067aa72176fba, 0x786433dd2fe65556, 0x1e6e0255ab88079f, 0xf2001138439902b1);
    var r6 := Moved64(r5, 0x0a637dc5a2c898a6, 0xc54a6eaa24a0552c, 0x8c5d3b7fdad66e70, 0x90d18ec8b69f0345);
    var r7 := Moved64(r6, 0x113f9804bef90dae, 0xb3c8f1530bdbaa9e, 0x32e5ed8655871e9b, 0x51105f6241313777);
    var r8 := Moved64(r7, 0x1b710b35131c471b, 0xbb8abfe56f469338, 0xbcd5061679be7336, 0x454b99f654443ad0);
    var r9 := Moved64(r8, 0x28db77f523047d84, 0xf63d4265cc1c5a78, 0xe7d913b6678e78ef, 0x1ff613b5aa63776e);
    var r10 := Moved64(r9, 0x32caab7b40c72493, 0xbe8355ea73129afb, 0xe6b8cb8dfa3475ab, 0x2e75f34303d39bb0);
    var r11 := Moved64(r10, 0x3c9ebe0a15c9bebc, 0x49e2db8ebdcfbeb5, 0xfdd4a30e168c4ae5, 0x83a35dbe2a64fc26);
    var r12 := Moved64(r11, 0x431d67c49c100d4c, 0x82269d4a883a3d99, 0x12aeb6268dfa3e14, 0xf660943b276786f7);
    var r13 := Moved64(r12, 0x4cc5d4becb3e42b6, 0xfdf53df3011f362b, 0x055b73814cf102b4, 0xc4b149710f5d6a71);
    var r14 := Moved64(r13, 0x597f299cfc657e2a, 0x464af5671d71c12e, 0x95d33150de6df44c, 0xc7f7bff08ebf0d30);
    var r15 := Moved64(r14, 0x5fcb6fab3ad6faec, 0xe449b68198ec611c, 0x5306143f64497b00, 0xca06a219cc701096);
    var r16 := Moved64(r15, 0x6c44198c4a475817, 0x92aeeed1a7bcf7d2, 0xff44d7e1849dbfb3, 0x1952e0c3a227c0f2);
  }

  lemma AllRounds384(alg: Algorithm<bv64>)
    requires IsWide(alg) && alg.h0 == R384_0
    ensures AfterRounds(alg, alg.h0, AbcBlock(123), 80) == R384_80
  {
    hide Shows, IsWide, AfterRounds, AbcBlock, Eight64Rounds, K512, Constants64;
    var b := AbcBlock(123);
    SizesAre64(alg);
    NoRounds(alg, b);
    AllWords64(alg);
    ConstantsAre512_0();
    EightRoundsAre64(alg, b, 0, R384_0, W512_0);
    EightRoundsAre64(alg, b, 8, Eight64Rounds(R384_0, C512_0, W512_0), W512_1);
    Rounds384_0();
    ConstantsAre512_2();
    EightRoundsAre64(alg, b, 16, R384_16, W512_2);
    EightRoundsAre64(alg, b, 24, Eight64Rounds(R384_16, C512_2, W512_2), W512_3);
    Rounds384_16();
    ConstantsAre512_4();
    EightRoundsAre64(alg, b, 32, R384_32, W512_4);
    EightRoundsAre64(alg, b, 40, Eight64Rounds(R384_32, C512_4, W512_4), W512_5);
    Rounds384_32();
    ConstantsAre512_6();
    EightRoundsAre64(alg, b, 48, R384_48, W512_6);
    EightRoundsAre64(alg, b, 56, Eight64Rounds(R384_48, C512_6, W512_6), W512_7);
    Rounds384_48();
    ConstantsAre512_8();
    EightRoundsAre64(alg, b, 64, R384_64, W512_8);
    EightRoundsAre64(alg, b, 72, Eight64Rounds(R384_64, C512_8, W512_8), W512_9);
    Rounds384_64();
  }

  lemma Sums384()
    ensures BigBytes64(Add64(0xcbbb9d5dc1059ed8, 0xff44d7e1849dbfb3)) ==
            [0xcb, 0x00, 0x75, 0x3f, 0x45, 0xa3, 0x5e, 0x8b]
    ensures BigBytes64(Add64(0x629a292a367cd507, 0x5306143f64497b00)) ==
            [0xb5, 0xa0, 0x3d, 0x69, 0x9a, 0xc6, 0x50, 0x07]
    ensures BigBytes64(Add64(0x9159015a3070dd17, 0x95d33150de6df44c)) ==
            [0x27, 0x2c, 0x32, 0xab, 0x0e, 0xde, 0xd1, 0x63]
    ensures BigBytes64(Add64(0x152fecd8f70e5939, 0x055b73814cf102b4)) ==
            [0x1a, 0x8b, 0x60, 0x5a, 0x43, 0xff, 0x5b, 0xed]
    ensures BigBytes64(Add64(0x67332667ffc00b31, 0x1952e0c3a227c0f2)) ==
            [0x80, 0x86, 0x07, 0x2b, 0xa1, 0xe7, 0xcc, 0x23]
    ensures BigBytes64(Add64(0x8eb44a8768581511, 0xca06a219cc701096)) ==
            [0x58, 0xba, 0xec, 0xa1, 0x34, 0xc8, 0x25, 0xa7]
  {
  }

  lemma Sha384Is(little: bool)
    ensures var alg := Sha384(little);
            IsWide(alg) && alg.h0 == R384_0 && alg.digestWords == 6
  {
  }

  lemma Output384(alg: Algorithm<bv64>)
    requires IsWide(alg) && alg.h0 == R384_0 && alg.digestWords == 6 && alg.Rounds() <= |alg.k|
    ensures Output(alg, AddRegs(alg, R384_0, R384_80), 6) ==
            [0xcb, 0x00, 0x75, 0x3f, 0x45, 0xa3, 0x5e, 0x8b] + [0xb5, 0xa0, 0x3d, 0x69, 0x9a, 0xc6, 0x50, 0x07] +
            [0x27, 0x2c, 0x32, 0xab, 0x0e, 0xde, 0xd1, 0x63] + [0x1a, 0x8b, 0x60, 0x5a, 0x43, 0xff, 0x5b, 0xed] +
            [0x80, 0x86, 0x07, 0x2b, 0xa1, 0xe7, 0xcc, 0x23] + [0x58, 0xba, 0xec, 0xa1, 0x34, 0xc8, 0x25, 0xa7]
  {
    hide K512, Add64, BigBytes64, Output;
    OutputAll(alg, AddRegs(alg, R384_0, R384_80));
    Sums384();
  }

  /** SHA-384 of "abc" on a machine of either byte order. */
  lemma Sha384OfAbc(little: bool)
    ensures Digest(Sha384(little), ABC) ==
            [0xcb, 0x00, 0x75, 0x3f, 0x45, 0xa3, 0x5e, 0x8b] + [0xb5, 0xa0, 0x3d, 0x69, 0x9a, 0xc6, 0x50, 0x07] +
            [0x27, 0x2c, 0x32, 0xab, 0x0e, 0xde, 0xd1, 0x63] + [0x1a, 0x8b, 0x60, 0x5a, 0x43, 0xff, 0x5b, 0xed] +
            [0x80, 0x86, 0x07, 0x2b, 0xa1, 0xe7, 0xcc, 0x23] + [0x58, 0xba, 0xec, 0xa1, 0x34, 0xc8, 0x25, 0xa7]
  {
    var alg, b := Sha384(little), AbcBlock(123);
    Sha384Is(little);
    SizesAre64(alg);
    hide Sha384, IsWide, AddRegs, AbcBlock, Fold, AfterRounds, Output, Padding;
    AbcPadded(alg);
    BlocksChain(alg, [], b);
    assert [] + b == b;
    AllRounds384(alg);
    Output384(alg);
  }
}
