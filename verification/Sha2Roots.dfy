/** The constants of SHA-2 as cube roots, and the initial values as square roots, of the first primes
    (FIPS 180-4). */
module Sha2Roots {
  import opened Sha2
  import opened Sha2Variants

  datatype Octet<W> = Octet(w0: W, w1: W, w2: W, w3: W, w4: W, w5: W, w6: W, w7: W)

  /* ---- 32-bit words ---- */

  /** `k` is the first 32 bits of the fraction of the cube root of `p`. */
  predicate CubeRoot32(p: nat, k: bv32) {
    var c := if p < 8 then 1 else if p < 27 then 2 else if p < 64 then 3 else if p < 125 then 4
             else if p < 216 then 5 else if p < 343 then 6 else 7;
    var r := c * 0x1_0000_0000 + k as nat;
    r * r * r <= p * 0x1_0000_0000_0000_0000_0000_0000 < (r + 1) * (r + 1) * (r + 1)
  }

  /** `k` is the first 32 bits of the fraction of the square root of `p`. */
  predicate SquareRoot32(p: nat, k: bv32) {
    var c := if p < 4 then 1 else if p < 9 then 2 else if p < 16 then 3 else if p < 25 then 4
             else if p < 36 then 5 else if p < 49 then 6 else 7;
    var r := c * 0x1_0000_0000 + k as nat;
    r * r <= p * 0x1_0000_0000_0000_0000 < (r + 1) * (r + 1)
  }

  /** The constants from `t` on are cube roots of these. */
  ghost predicate CubeRoots32(t: nat, primes: seq<nat>) {
    t + |primes| <= |K256| && forall i :: 0 <= i < |primes| ==> CubeRoot32(primes[i], K256[t + i])
  }

  function Constants32(t: nat): Octet<bv32>
    requires t + 8 <= |K256|
  {
    Octet(K256[t], K256[t + 1], K256[t + 2], K256[t + 3], K256[t + 4], K256[t + 5], K256[t + 6], K256[t + 7])
  }

  /* The constants, eight at a time. */

  const C256_0: Octet<bv32> :=
    Octet(0x428a2f98, 0x71374491, 0xb5c0fbcf, 0xe9b5dba5, 0x3956c25b, 0x59f111f1, 0x923f82a4, 0xab1c5ed5)
  const C256_1: Octet<bv32> :=
    Octet(0xd807aa98, 0x12835b01, 0x243185be, 0x550c7dc3, 0x72be5d74, 0x80deb1fe, 0x9bdc06a7, 0xc19bf174)
  const C256_2: Octet<bv32> :=
    Octet(0xe49b69c1, 0xefbe4786, 0x0fc19dc6, 0x240ca1cc, 0x2de92c6f, 0x4a7484aa, 0x5cb0a9dc, 0x76f988da)
  const C256_3: Octet<bv32> :=
    Octet(0x983e5152, 0xa831c66d, 0xb00327c8, 0xbf597fc7, 0xc6e00bf3, 0xd5a79147, 0x06ca6351, 0x14292967)
  const C256_4: Octet<bv32> :=
    Octet(0x27b70a85, 0x2e1b2138, 0x4d2c6dfc, 0x53380d13, 0x650a7354, 0x766a0abb, 0x81c2c92e, 0x92722c85)
  const C256_5: Octet<bv32> :=
    Octet(0xa2bfe8a1, 0xa81a664b, 0xc24b8b70, 0xc76c51a3, 0xd192e819, 0xd6990624, 0xf40e3585, 0x106aa070)
  const C256_6: Octet<bv32> :=
    Octet(0x19a4c116, 0x1e376c08, 0x2748774c, 0x34b0bcb5, 0x391c0cb3, 0x4ed8aa4a, 0x5b9cca4f, 0x682e6ff3)
  const C256_7: Octet<bv32> :=
    Octet(0x748f82ee, 0x78a5636f, 0x84c87814, 0x8cc70208, 0x90befffa, 0xa4506ceb, 0xbef9a3f7, 0xc67178f2)

  lemma ConstantsAre256_0()
    ensures |K256| == 64
    ensures Constants32(0) == C256_0
    ensures Constants32(8) == C256_1
  {
  }

  lemma ConstantsAre256_2()
    ensures |K256| == 64
    ensures Constants32(16) == C256_2
    ensures Constants32(24) == C256_3
  {
  }

  lemma ConstantsAre256_4()
    ensures |K256| == 64
    ensures Constants32(32) == C256_4
    ensures Constants32(40) == C256_5
  {
  }

  lemma ConstantsAre256_6()
    ensures |K256| == 64
    ensures Constants32(48) == C256_6
    ensures Constants32(56) == C256_7
  {
  }

  lemma Eight32(t: nat, p: nat, q: nat, r: nat, s: nat, u: nat, v: nat, w: nat, x: nat,
                a: bv32, b: bv32, c: bv32, d: bv32, e: bv32, f: bv32, g: bv32, h: bv32)
    requires t + 8 <= |K256| && Constants32(t) == Octet(a, b, c, d, e, f, g, h)
    requires CubeRoot32(p, a) && CubeRoot32(q, b) && CubeRoot32(r, c) && CubeRoot32(s, d)
    requires CubeRoot32(u, e) && CubeRoot32(v, f) && CubeRoot32(w, g) && CubeRoot32(x, h)
    ensures CubeRoots32(t, [p, q, r, s, u, v, w, x])
  {
    hide CubeRoot32, K256;
  }

  lemma More32(t: nat, primes: seq<nat>, more: seq<nat>)
    requires CubeRoots32(t, primes) && CubeRoots32(t + |primes|, more)
    ensures CubeRoots32(t, primes + more)
  {
    hide CubeRoot32, K256;
  }

  lemma Cubes256_0()
    ensures CubeRoots32(0, [2, 3, 5, 7, 11, 13, 17, 19])
  {
    hide K256, Constants32;
    ConstantsAre256_0();
    Eight32(0, 2, 3, 5, 7, 11, 13, 17, 19,
            0x428a2f98, 0x71374491, 0xb5c0fbcf, 0xe9b5dba5, 0x3956c25b, 0x59f111f1, 0x923f82a4, 0xab1c5ed5);
  }

  lemma Cubes256_1()
    ensures CubeRoots32(8, [23, 29, 31, 37, 41, 43, 47, 53])
  {
    hide K256, Constants32;
    ConstantsAre256_0();
    Eight32(8, 23, 29, 31, 37, 41, 43, 47, 53,
            0xd807aa98, 0x12835b01, 0x243185be, 0x550c7dc3, 0x72be5d74, 0x80deb1fe, 0x9bdc06a7, 0xc19bf174);
  }

  lemma Cubes256_2()
    ensures CubeRoots32(16, [59, 61, 67, 71, 73, 79, 83, 89])
  {
    hide K256, Constants32;
    ConstantsAre256_2();
    Eight32(16, 59, 61, 67, 71, 73, 79, 83, 89,
            0xe49b69c1, 0xefbe4786, 0x0fc19dc6, 0x240ca1cc, 0x2de92c6f, 0x4a7484aa, 0x5cb0a9dc, 0x76f988da);
  }

  lemma Cubes256_3()
    ensures CubeRoots32(24, [97, 101, 103, 107, 109, 113, 127, 131])
  {
    hide K256, Constants32;
    ConstantsAre256_2();
    Eight32(24, 97, 101, 103, 107, 109, 113, 127, 131,
            0x983e5152, 0xa831c66d, 0xb00327c8, 0xbf597fc7, 0xc6e00bf3, 0xd5a79147, 0x06ca6351, 0x14292967);
  }

  lemma Cubes256_4()
    ensures CubeRoots32(32, [137, 139, 149, 151, 157, 163, 167, 173])
  {
    hide K256, Constants32;
    ConstantsAre256_4();
    Eight32(32, 137, 139, 149, 151, 157, 163, 167, 173,
            0x27b70a85, 0x2e1b2138, 0x4d2c6dfc, 0x53380d13, 0x650a7354, 0x766a0abb, 0x81c2c92e, 0x92722c85);
  }

  lemma Cubes256_5()
    ensures CubeRoots32(40, [179, 181, 191, 193, 197, 199, 211, 223])
  {
    hide K256, Constants32;
    ConstantsAre256_4();
    Eight32(40, 179, 181, 191, 193, 197, 199, 211, 223,
            0xa2bfe8a1, 0xa81a664b, 0xc24b8b70, 0xc76c51a3, 0xd192e819, 0xd6990624, 0xf40e3585, 0x106aa070);
  }

  lemma Cubes256_6()
    ensures CubeRoots32(48, [227, 229, 233, 239, 241, 251, 257, 263])
  {
    hide K256, Constants32;
    ConstantsAre256_6();
    Eight32(48, 227, 229, 233, 239, 241, 251, 257, 263,
            0x19a4c116, 0x1e376c08, 0x2748774c, 0x34b0bcb5, 0x391c0cb3, 0x4ed8aa4a, 0x5b9cca4f, 0x682e6ff3);
  }

  lemma Cubes256_7()
    ensures CubeRoots32(56, [269, 271, 277, 281, 283, 293, 307, 311])
  {
    hide K256, Constants32;
    ConstantsAre256_6();
    Eight32(56, 269, 271, 277, 281, 283, 293, 307, 311,
            0x748f82ee, 0x78a5636f, 0x84c87814, 0x8cc70208, 0x90befffa, 0xa4506ceb, 0xbef9a3f7, 0xc67178f2);
  }

  /** Each constant is a cube root of its prime (section 4.2.2). */
  lemma K256IsCubeRoots()
    ensures CubeRoots32(0,
      [2, 3, 5, 7, 11, 13, 17, 19] + [23, 29, 31, 37, 41, 43, 47, 53] +
      [59, 61, 67, 71, 73, 79, 83, 89] + [97, 101, 103, 107, 109, 113, 127, 131] +
      [137, 139, 149, 151, 157, 163, 167, 173] + [179, 181, 191, 193, 197, 199, 211, 223] +
      [227, 229, 233, 239, 241, 251, 257, 263] + [269, 271, 277, 281, 283, 293, 307, 311])
  {
    hide CubeRoots32;
    var p: seq<nat> := [2, 3, 5, 7, 11, 13, 17, 19];
    Cubes256_0();
    Cubes256_1();
    More32(0, p, [23, 29, 31, 37, 41, 43, 47, 53]);
    p := p + [23, 29, 31, 37, 41, 43, 47, 53];
    Cubes256_2();
    More32(0, p, [59, 61, 67, 71, 73, 79, 83, 89]);
    p := p + [59, 61, 67, 71, 73, 79, 83, 89];
    Cubes256_3();
    More32(0, p, [97, 101, 103, 107, 109, 113, 127, 131]);
    p := p + [97, 101, 103, 107, 109, 113, 127, 131];
    Cubes256_4();
    More32(0, p, [137, 139, 149, 151, 157, 163, 167, 173]);
    p := p + [137, 139, 149, 151, 157, 163, 167, 173];
    Cubes256_5();
    More32(0, p, [179, 181, 191, 193, 197, 199, 211, 223]);
    p := p + [179, 181, 191, 193, 197, 199, 211, 223];
    Cubes256_6();
    More32(0, p, [227, 229, 233, 239, 241, 251, 257, 263]);
    p := p + [227, 229, 233, 239, 241, 251, 257, 263];
    Cubes256_7();
    More32(0, p, [269, 271, 277, 281, 283, 293, 307, 311]);
    p := p + [269, 271, 277, 281, 283, 293, 307, 311];
  }

  /* ---- 64-bit words ---- */

  /** `k` is the first 64 bits of the fraction of the cube root of `p`. */
  predicate CubeRoot64(p: nat, k: bv64) {
    var c := if p < 8 then 1 else if p < 27 then 2 else if p < 64 then 3 else if p < 125 then 4
             else if p < 216 then 5 else if p < 343 then 6 else 7;
    var r := c * 0x1_0000_0000_0000_0000 + k as nat;
    r * r * r <= p * 0x1_0000_0000_0000_0000_0000_0000_0000_0000_0000_0000_0000_0000 < (r + 1) * (r + 1) * (r + 1)
  }

  /** `k` is the first 64 bits of the fraction of the square root of `p`. */
  predicate SquareRoot64(p: nat, k: bv64) {
    var c := if p < 4 then 1 else if p < 9 then 2 else if p < 16 then 3 else if p < 25 then 4
             else if p < 36 then 5 else if p < 49 then 6 else 7;
    var r := c * 0x1_0000_0000_0000_0000 + k as nat;
    r * r <= p * 0x1_0000_0000_0000_0000_0000_0000_0000_0000 < (r + 1) * (r + 1)
  }

  /** The constants from `t` on are cube roots of these. */
  ghost predicate CubeRoots64(t: nat, primes: seq<nat>) {
    t + |primes| <= |K512| && forall i :: 0 <= i < |primes| ==> CubeRoot64(primes[i], K512[t + i])
  }

  function Constants64(t: nat): Octet<bv64>
    requires t + 8 <= |K512|
  {
    Octet(K512[t], K512[t + 1], K512[t + 2], K512[t + 3], K512[t + 4], K512[t + 5], K512[t + 6], K512[t + 7])
  }

  /* The constants, eight at a time. */

  const C512_0: Octet<bv64> :=
    Octet(0x428a2f98d728ae22, 0x7137449123ef65cd, 0xb5c0fbcfec4d3b2f, 0xe9b5dba58189dbbc,
          0x3956c25bf348b538, 0x59f111f1b605d019, 0x923f82a4af194f9b, 0xab1c5ed5da6d8118)
  const C512_1: Octet<bv64> :=
    Octet(0xd807aa98a3030242, 0x12835b0145706fbe, 0x243185be4ee4b28c, 0x550c7dc3d5ffb4e2,
          0x72be5d74f27b896f, 0x80deb1fe3b1696b1, 0x9bdc06a725c71235, 0xc19bf174cf692694)
  const C512_2: Octet<bv64> :=
    Octet(0xe49b69c19ef14ad2, 0xefbe4786384f25e3, 0x0fc19dc68b8cd5b5, 0x240ca1cc77ac9c65,
          0x2de92c6f592b0275, 0x4a7484aa6ea6e483, 0x5cb0a9dcbd41fbd4, 0x76f988da831153b5)
  const C512_3: Octet<bv64> :=
    Octet(0x983e5152ee66dfab, 0xa831c66d2db43210, 0xb00327c898fb213f, 0xbf597fc7beef0ee4,
          0xc6e00bf33da88fc2, 0xd5a79147930aa725, 0x06ca6351e003826f, 0x142929670a0e6e70)
  const C512_4: Octet<bv64> :=
    Octet(0x27b70a8546d22ffc, 0x2e1b21385c26c926, 0x4d2c6dfc5ac42aed, 0x53380d139d95b3df,
          0x650a73548baf63de, 0x766a0abb3c77b2a8, 0x81c2c92e47edaee6, 0x92722c851482353b)
  const C512_5: Octet<bv64> :=
    Octet(0xa2bfe8a14cf10364, 0xa81a664bbc423001, 0xc24b8b70d0f89791, 0xc76c51a30654be30,
          0xd192e819d6ef5218, 0xd69906245565a910, 0xf40e35855771202a, 0x106aa07032bbd1b8)
  const C512_6: Octet<bv64> :=
    Octet(0x19a4c116b8d2d0c8, 0x1e376c085141ab53, 0x2748774cdf8eeb99, 0x34b0bcb5e19b48a8,
          0x391c0cb3c5c95a63, 0x4ed8aa4ae3418acb, 0x5b9cca4f7763e373, 0x682e6ff3d6b2b8a3)
  const C512_7: Octet<bv64> :=
    Octet(0x748f82ee5defb2fc, 0x78a5636f43172f60, 0x84c87814a1f0ab72, 0x8cc702081a6439ec,
          0x90befffa23631e28, 0xa4506cebde82bde9, 0xbef9a3f7b2c67915, 0xc67178f2e372532b)
  const C512_8: Octet<bv64> :=
    Octet(0xca273eceea26619c, 0xd186b8c721c0c207, 0xeada7dd6cde0eb1e, 0xf57d4f7fee6ed178,
          0x06f067aa72176fba, 0x0a637dc5a2c898a6, 0x113f9804bef90dae, 0x1b710b35131c471b)
  const C512_9: Octet<bv64> :=
    Octet(0x28db77f523047d84, 0x32caab7b40c72493, 0x3c9ebe0a15c9bebc, 0x431d67c49c100d4c,
          0x4cc5d4becb3e42b6, 0x597f299cfc657e2a, 0x5fcb6fab3ad6faec, 0x6c44198c4a475817)

  lemma ConstantsAre512_0()
    ensures |K512| == 80
    ensures Constants64(0) == C512_0
    ensures Constants64(8) == C512_1
  {
  }

  lemma ConstantsAre512_2()
    ensures |K512| == 80
    ensures Constants64(16) == C512_2
    ensures Constants64(24) == C512_3
  {
  }

  lemma ConstantsAre512_4()
    ensures |K512| == 80
    ensures Constants64(32) == C512_4
    ensures Constants64(40) == C512_5
  {
  }

  lemma ConstantsAre512_6()
    ensures |K512| == 80
    ensures Constants64(48) == C512_6
    ensures Constants64(56) == C512_7
  {
  }

  lemma ConstantsAre512_8()
    ensures |K512| == 80
    ensures Constants64(64) == C512_8
    ensures Constants64(72) == C512_9
  {
  }

  lemma Eight64(t: nat, p: nat, q: nat, r: nat, s: nat, u: nat, v: nat, w: nat, x: nat,
                a: bv64, b: bv64, c: bv64, d: bv64, e: bv64, f: bv64, g: bv64, h: bv64)
    requires t + 8 <= |K512| && Constants64(t) == Octet(a, b, c, d, e, f, g, h)
    requires CubeRoot64(p, a) && CubeRoot64(q, b) && CubeRoot64(r, c) && CubeRoot64(s, d)
    requires CubeRoot64(u, e) && CubeRoot64(v, f) && CubeRoot64(w, g) && CubeRoot64(x, h)
    ensures CubeRoots64(t, [p, q, r, s, u, v, w, x])
  {
    hide CubeRoot64, K512;
  }

  lemma More64(t: nat, primes: seq<nat>, more: seq<nat>)
    requires CubeRoots64(t, primes) && CubeRoots64(t + |primes|, more)
    ensures CubeRoots64(t, primes + more)
  {
    hide CubeRoot64, K512;
  }

  lemma Cubes512_0()
    ensures CubeRoots64(0, [2, 3, 5, 7, 11, 13, 17, 19])
  {
    hide K512, Constants64;
    ConstantsAre512_0();
    Eight64(0, 2, 3, 5, 7, 11, 13, 17, 19,
            0x428a2f98d728ae22, 0x7137449123ef65cd, 0xb5c0fbcfec4d3b2f, 0xe9b5dba58189dbbc,
            0x3956c25bf348b538, 0x59f111f1b605d019, 0x923f82a4af194f9b, 0xab1c5ed5da6d8118);
  }

  lemma Cubes512_1()
    ensures CubeRoots64(8, [23, 29, 31, 37, 41, 43, 47, 53])
  {
    hide K512, Constants64;
    ConstantsAre512_0();
    Eight64(8, 23, 29, 31, 37, 41, 43, 47, 53,
            0xd807aa98a3030242, 0x12835b0145706fbe, 0x243185be4ee4b28c, 0x550c7dc3d5ffb4e2,
            0x72be5d74f27b896f, 0x80deb1fe3b1696b1, 0x9bdc06a725c71235, 0xc19bf174cf692694);
  }

  lemma Cubes512_2()
    ensures CubeRoots64(16, [59, 61, 67, 71, 73, 79, 83, 89])
  {
    hide K512, Constants64;
    ConstantsAre512_2();
    Eight64(16, 59, 61, 67, 71, 73, 79, 83, 89,
            0xe49b69c19ef14ad2, 0xefbe4786384f25e3, 0x0fc19dc68b8cd5b5, 0x240ca1cc77ac9c65,
            0x2de92c6f592b0275, 0x4a7484aa6ea6e483, 0x5cb0a9dcbd41fbd4, 0x76f988da831153b5);
  }

  lemma Cubes512_3()
    ensures CubeRoots64(24, [97, 101, 103, 107, 109, 113, 127, 131])
  {
    hide K512, Constants64;
    ConstantsAre512_2();
    Eight64(24, 97, 101, 103, 107, 109, 113, 127, 131,
            0x983e5152ee66dfab, 0xa831c66d2db43210, 0xb00327c898fb213f, 0xbf597fc7beef0ee4,
            0xc6e00bf33da88fc2, 0xd5a79147930aa725, 0x06ca6351e003826f, 0x142929670a0e6e70);
  }

  lemma Cubes512_4()
    ensures CubeRoots64(32, [137, 139, 149, 151, 157, 163, 167, 173])
  {
    hide K512, Constants64;
    ConstantsAre512_4();
    Eight64(32, 137, 139, 149, 151, 157, 163, 167, 173,
            0x27b70a8546d22ffc, 0x2e1b21385c26c926, 0x4d2c6dfc5ac42aed, 0x53380d139d95b3df,
            0x650a73548baf63de, 0x766a0abb3c77b2a8, 0x81c2c92e47edaee6, 0x92722c851482353b);
  }

  lemma Cubes512_5()
    ensures CubeRoots64(40, [179, 181, 191, 193, 197, 199, 211, 223])
  {
    hide K512, Constants64;
    ConstantsAre512_4();
    Eight64(40, 179, 181, 191, 193, 197, 199, 211, 223,
            0xa2bfe8a14cf10364, 0xa81a664bbc423001, 0xc24b8b70d0f89791, 0xc76c51a30654be30,
            0xd192e819d6ef5218, 0xd69906245565a910, 0xf40e35855771202a, 0x106aa07032bbd1b8);
  }

  lemma Cubes512_6()
    ensures CubeRoots64(48, [227, 229, 233, 239, 241, 251, 257, 263])
  {
    hide K512, Constants64;
    ConstantsAre512_6();
    Eight64(48, 227, 229, 233, 239, 241, 251, 257, 263,
            0x19a4c116b8d2d0c8, 0x1e376c085141ab53, 0x2748774cdf8eeb99, 0x34b0bcb5e19b48a8,
            0x391c0cb3c5c95a63, 0x4ed8aa4ae3418acb, 0x5b9cca4f7763e373, 0x682e6ff3d6b2b8a3);
  }

  lemma Cubes512_7()
    ensures CubeRoots64(56, [269, 271, 277, 281, 283, 293, 307, 311])
  {
    hide K512, Constants64;
    ConstantsAre512_6();
    Eight64(56, 269, 271, 277, 281, 283, 293, 307, 311,
            0x748f82ee5defb2fc, 0x78a5636f43172f60, 0x84c87814a1f0ab72, 0x8cc702081a6439ec,
            0x90befffa23631e28, 0xa4506cebde82bde9, 0xbef9a3f7b2c67915, 0xc67178f2e372532b);
  }

  lemma Cubes512_8()
    ensures CubeRoots64(64, [313, 317, 331, 337, 347, 349, 353, 359])
  {
    hide K512, Constants64;
    ConstantsAre512_8();
    Eight64(64, 313, 317, 331, 337, 347, 349, 353, 359,
            0xca273eceea26619c, 0xd186b8c721c0c207, 0xeada7dd6cde0eb1e, 0xf57d4f7fee6ed178,
            0x06f067aa72176fba, 0x0a637dc5a2c898a6, 0x113f9804bef90dae, 0x1b710b35131c471b);
  }

  lemma Cubes512_9()
    ensures CubeRoots64(72, [367, 373, 379, 383, 389, 397, 401, 409])
  {
    hide K512, Constants64;
    ConstantsAre512_8();
    Eight64(72, 367, 373, 379, 383, 389, 397, 401, 409,
            0x28db77f523047d84, 0x32caab7b40c72493, 0x3c9ebe0a15c9bebc, 0x431d67c49c100d4c,
            0x4cc5d4becb3e42b6, 0x597f299cfc657e2a, 0x5fcb6fab3ad6faec, 0x6c44198c4a475817);
  }

  /** Each constant is a cube root of its prime (section 4.2.3). */
  lemma K512IsCubeRoots()
    ensures CubeRoots64(0,
      [2, 3, 5, 7, 11, 13, 17, 19] + [23, 29, 31, 37, 41, 43, 47, 53] +
      [59, 61, 67, 71, 73, 79, 83, 89] + [97, 101, 103, 107, 109, 113, 127, 131] +
      [137, 139, 149, 151, 157, 163, 167, 173] + [179, 181, 191, 193, 197, 199, 211, 223] +
      [227, 229, 233, 239, 241, 251, 257, 263] + [269, 271, 277, 281, 283, 293, 307, 311] +
      [313, 317, 331, 337, 347, 349, 353, 359] + [367, 373, 379, 383, 389, 397, 401, 409])
  {
    hide CubeRoots64;
    var p: seq<nat> := [2, 3, 5, 7, 11, 13, 17, 19];
    Cubes512_0();
    Cubes512_1();
    More64(0, p, [23, 29, 31, 37, 41, 43, 47, 53]);
    p := p + [23, 29, 31, 37, 41, 43, 47, 53];
    Cubes512_2();
    More64(0, p, [59, 61, 67, 71, 73, 79, 83, 89]);
    p := p + [59, 61, 67, 71, 73, 79, 83, 89];
    Cubes512_3();
    More64(0, p, [97, 101, 103, 107, 109, 113, 127, 131]);
    p := p + [97, 101, 103, 107, 109, 113, 127, 131];
    Cubes512_4();
    More64(0, p, [137, 139, 149, 151, 157, 163, 167, 173]);
    p := p + [137, 139, 149, 151, 157, 163, 167, 173];
    Cubes512_5();
    More64(0, p, [179, 181, 191, 193, 197, 199, 211, 223]);
    p := p + [179, 181, 191, 193, 197, 199, 211, 223];
    Cubes512_6();
    More64(0, p, [227, 229, 233, 239, 241, 251, 257, 263]);
    p := p + [227, 229, 233, 239, 241, 251, 257, 263];
    Cubes512_7();
    More64(0, p, [269, 271, 277, 281, 283, 293, 307, 311]);
    p := p + [269, 271, 277, 281, 283, 293, 307, 311];
    Cubes512_8();
    More64(0, p, [313, 317, 331, 337, 347, 349, 353, 359]);
    p := p + [313, 317, 331, 337, 347, 349, 353, 359];
    Cubes512_9();
    More64(0, p, [367, 373, 379, 383, 389, 397, 401, 409]);
    p := p + [367, 373, 379, 383, 389, 397, 401, 409];
  }

  /* ---- Initial values (section 5.3) ---- */

  lemma H256IsSquareRoots(little: bool)
    ensures var h := Sha256(little).h0;
            && SquareRoot32(2, h.a) && SquareRoot32(3, h.b) && SquareRoot32(5, h.c) && SquareRoot32(7, h.d)
            && SquareRoot32(11, h.e) && SquareRoot32(13, h.f) && SquareRoot32(17, h.g) && SquareRoot32(19, h.h)
  {
    hide K256;
  }

  lemma H384IsSquareRoots(little: bool)
    ensures var h := Sha384(little).h0;
            && SquareRoot64(23, h.a) && SquareRoot64(29, h.b) && SquareRoot64(31, h.c) && SquareRoot64(37, h.d)
            && SquareRoot64(41, h.e) && SquareRoot64(43, h.f) && SquareRoot64(47, h.g) && SquareRoot64(53, h.h)
  {
    hide K512;
  }

  lemma H512IsSquareRoots(little: bool)
    ensures var h := Sha512(little).h0;
            && SquareRoot64(2, h.a) && SquareRoot64(3, h.b) && SquareRoot64(5, h.c) && SquareRoot64(7, h.d)
            && SquareRoot64(11, h.e) && SquareRoot64(13, h.f) && SquareRoot64(17, h.g) && SquareRoot64(19, h.h)
  {
    hide K512;
  }
}
