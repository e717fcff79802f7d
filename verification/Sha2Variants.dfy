/** SHA-256, SHA-384 and SHA-512, each for machines of either byte order. */
module Sha2Variants {
  import opened Sha2

  /* ---- 32-bit words ---- */

  function S32(n: bv6, x: bv32): bv32
    requires n < 32
  {
    (x >> n) | (x << (32 - n))
  }

  /* The six functions of SHA-256 (FIPS 180-4 section 4.1.2). */

  function Add32(x: bv32, y: bv32): bv32 { x + y }

  function Ch32(x: bv32, y: bv32, z: bv32): bv32 { (x & y) ^ (!x & z) }

  function Maj32(x: bv32, y: bv32, z: bv32): bv32 { (x & y) ^ (x & z) ^ (y & z) }

  function BigSigma0_256(x: bv32): bv32 { S32(2, x) ^ S32(13, x) ^ S32(22, x) }

  function BigSigma1_256(x: bv32): bv32 { S32(6, x) ^ S32(11, x) ^ S32(25, x) }

  function Sigma0_256(x: bv32): bv32 { S32(7, x) ^ S32(18, x) ^ (x >> 3) }

  function Sigma1_256(x: bv32): bv32 { S32(17, x) ^ S32(19, x) ^ (x >> 10) }

  function Same32(w: bv32): bv32 { w }

  function Join32(a: bv8, b: bv8, c: bv8, d: bv8): bv32 {
    (a as bv32 << 24) | (b as bv32 << 16) | (c as bv32 << 8) | d as bv32
  }

  function Big32(b: Bytes): bv32 {
    if |b| == 4 then Join32(b[0], b[1], b[2], b[3]) else 0
  }

  function Little32(b: Bytes): bv32 {
    if |b| == 4 then Join32(b[3], b[2], b[1], b[0]) else 0
  }

  function BigBytes32(w: bv32): Bytes {
    [((w >> 24) & 0xFF) as bv8, ((w >> 16) & 0xFF) as bv8, ((w >> 8) & 0xFF) as bv8, (w & 0xFF) as bv8]
  }

  function LittleBytes32(w: bv32): Bytes {
    [(w & 0xFF) as bv8, ((w >> 8) & 0xFF) as bv8, ((w >> 16) & 0xFF) as bv8, ((w >> 24) & 0xFF) as bv8]
  }

  /** REVERSE32. */
  function Reverse32(w: bv32): bv32 {
    var tmp := (w >> 16) | (w << 16);
    ((tmp & 0xFF00_FF00) >> 8) | ((tmp & 0x00FF_00FF) << 8)
  }

  lemma Reverse32Joins(a: bv8, b: bv8, c: bv8, d: bv8)
    ensures Reverse32(Join32(d, c, b, a)) == Join32(a, b, c, d)
  {
  }

  lemma Reverse32Swaps(w: bv32)
    ensures Reverse32(w) & 0xFF == (w >> 24) & 0xFF && (Reverse32(w) >> 8) & 0xFF == (w >> 16) & 0xFF
    ensures (Reverse32(w) >> 16) & 0xFF == (w >> 8) & 0xFF && (Reverse32(w) >> 24) & 0xFF == w & 0xFF
  {
  }

  /** Reversing turns a word read in one byte order into the same bytes read in the other. */
  lemma Reverse32Reorders(b: Bytes, w: bv32)
    requires |b| == 4
    ensures Reverse32(Little32(b)) == Big32(b)
    ensures LittleBytes32(Reverse32(w)) == BigBytes32(w)
  {
    hide Reverse32, Join32;
    Reverse32Joins(b[0], b[1], b[2], b[3]);
    Reverse32Swaps(w);
  }

  lemma Joined32(w: bv32)
    ensures Join32(((w >> 24) & 0xFF) as bv8, ((w >> 16) & 0xFF) as bv8, ((w >> 8) & 0xFF) as bv8,
                   (w & 0xFF) as bv8) == w
  {
  }

  lemma Stored32(w: bv32)
    ensures Little32(LittleBytes32(w)) == w && Big32(BigBytes32(w)) == w
  {
    hide Join32;
    Joined32(w);
  }

  /* ---- 64-bit words ---- */

  function S64(n: bv7, x: bv64): bv64
    requires n < 64
  {
    (x >> n) | (x << (64 - n))
  }

  /* The six functions of SHA-384 and SHA-512 (section 4.1.3). */

  function Add64(x: bv64, y: bv64): bv64 { x + y }

  function Ch64(x: bv64, y: bv64, z: bv64): bv64 { (x & y) ^ (!x & z) }

  function Maj64(x: bv64, y: bv64, z: bv64): bv64 { (x & y) ^ (x & z) ^ (y & z) }

  function BigSigma0_512(x: bv64): bv64 { S64(28, x) ^ S64(34, x) ^ S64(39, x) }

  function BigSigma1_512(x: bv64): bv64 { S64(14, x) ^ S64(18, x) ^ S64(41, x) }

  function Sigma0_512(x: bv64): bv64 { S64(1, x) ^ S64(8, x) ^ (x >> 7) }

  function Sigma1_512(x: bv64): bv64 { S64(19, x) ^ S64(61, x) ^ (x >> 6) }

  function Same64(w: bv64): bv64 { w }

  function Join64(a: bv8, b: bv8, c: bv8, d: bv8, e: bv8, f: bv8, g: bv8, h: bv8): bv64 {
    (a as bv64 << 56) | (b as bv64 << 48) | (c as bv64 << 40) | (d as bv64 << 32)
    | (e as bv64 << 24) | (f as bv64 << 16) | (g as bv64 << 8) | h as bv64
  }

  function Big64(b: Bytes): bv64 {
    if |b| == 8 then Join64(b[0], b[1], b[2], b[3], b[4], b[5], b[6], b[7]) else 0
  }

  function Little64(b: Bytes): bv64 {
    if |b| == 8 then Join64(b[7], b[6], b[5], b[4], b[3], b[2], b[1], b[0]) else 0
  }

  function BigBytes64(w: bv64): Bytes {
    [((w >> 56) & 0xFF) as bv8, ((w >> 48) & 0xFF) as bv8, ((w >> 40) & 0xFF) as bv8, ((w >> 32) & 0xFF) as bv8,
     ((w >> 24) & 0xFF) as bv8, ((w >> 16) & 0xFF) as bv8, ((w >> 8) & 0xFF) as bv8, (w & 0xFF) as bv8]
  }

  function LittleBytes64(w: bv64): Bytes {
    [(w & 0xFF) as bv8, ((w >> 8) & 0xFF) as bv8, ((w >> 16) & 0xFF) as bv8, ((w >> 24) & 0xFF) as bv8,
     ((w >> 32) & 0xFF) as bv8, ((w >> 40) & 0xFF) as bv8, ((w >> 48) & 0xFF) as bv8, ((w >> 56) & 0xFF) as bv8]
  }

  /** REVERSE64. */
  function Reverse64(w: bv64): bv64 {
    var tmp := (w >> 32) | (w << 32);
    var tmp2 := ((tmp & 0xFF00_FF00_FF00_FF00) >> 8) | ((tmp & 0x00FF_00FF_00FF_00FF) << 8);
    ((tmp2 & 0xFFFF_0000_FFFF_0000) >> 16) | ((tmp2 & 0x0000_FFFF_0000_FFFF) << 16)
  }

  lemma Reverse64Joins(a: bv8, b: bv8, c: bv8, d: bv8, e: bv8, f: bv8, g: bv8, h: bv8)
    ensures Reverse64(Join64(h, g, f, e, d, c, b, a)) == Join64(a, b, c, d, e, f, g, h)
  {
  }

  lemma Reverse64Swaps(w: bv64)
    ensures var r := Reverse64(w);
            && r & 0xFF == (w >> 56) & 0xFF && (r >> 8) & 0xFF == (w >> 48) & 0xFF
            && (r >> 16) & 0xFF == (w >> 40) & 0xFF && (r >> 24) & 0xFF == (w >> 32) & 0xFF
            && (r >> 32) & 0xFF == (w >> 24) & 0xFF && (r >> 40) & 0xFF == (w >> 16) & 0xFF
            && (r >> 48) & 0xFF == (w >> 8) & 0xFF && (r >> 56) & 0xFF == w & 0xFF
  {
  }

  lemma Reverse64Reorders(b: Bytes, w: bv64)
    requires |b| == 8
    ensures Reverse64(Little64(b)) == Big64(b)
    ensures LittleBytes64(Reverse64(w)) == BigBytes64(w)
  {
    hide Reverse64, Join64;
    Reverse64Joins(b[0], b[1], b[2], b[3], b[4], b[5], b[6], b[7]);
    Reverse64Swaps(w);
  }

  lemma Joined64(w: bv64)
    ensures Join64(((w >> 56) & 0xFF) as bv8, ((w >> 48) & 0xFF) as bv8, ((w >> 40) & 0xFF) as bv8,
                   ((w >> 32) & 0xFF) as bv8, ((w >> 24) & 0xFF) as bv8, ((w >> 16) & 0xFF) as bv8,
                   ((w >> 8) & 0xFF) as bv8, (w & 0xFF) as bv8) == w
  {
  }

  lemma Stored64(w: bv64)
    ensures Little64(LittleBytes64(w)) == w && Big64(BigBytes64(w)) == w
  {
    hide Join64;
    Joined64(w);
  }

  /* ---- The algorithms ---- */

  const K256: seq<bv32> :=
    [0x428a2f98, 0x71374491, 0xb5c0fbcf, 0xe9b5dba5, 0x3956c25b, 0x59f111f1, 0x923f82a4, 0xab1c5ed5] +
    [0xd807aa98, 0x12835b01, 0x243185be, 0x550c7dc3, 0x72be5d74, 0x80deb1fe, 0x9bdc06a7, 0xc19bf174] +
    [0xe49b69c1, 0xefbe4786, 0x0fc19dc6, 0x240ca1cc, 0x2de92c6f, 0x4a7484aa, 0x5cb0a9dc, 0x76f988da] +
    [0x983e5152, 0xa831c66d, 0xb00327c8, 0xbf597fc7, 0xc6e00bf3, 0xd5a79147, 0x06ca6351, 0x14292967] +
    [0x27b70a85, 0x2e1b2138, 0x4d2c6dfc, 0x53380d13, 0x650a7354, 0x766a0abb, 0x81c2c92e, 0x92722c85] +
    [0xa2bfe8a1, 0xa81a664b, 0xc24b8b70, 0xc76c51a3, 0xd192e819, 0xd6990624, 0xf40e3585, 0x106aa070] +
    [0x19a4c116, 0x1e376c08, 0x2748774c, 0x34b0bcb5, 0x391c0cb3, 0x4ed8aa4a, 0x5b9cca4f, 0x682e6ff3] +
    [0x748f82ee, 0x78a5636f, 0x84c87814, 0x8cc70208, 0x90befffa, 0xa4506ceb, 0xbef9a3f7, 0xc67178f2]

  const K512: seq<bv64> :=
    [0x428a2f98d728ae22, 0x7137449123ef65cd, 0xb5c0fbcfec4d3b2f, 0xe9b5dba58189dbbc,
     0x3956c25bf348b538, 0x59f111f1b605d019, 0x923f82a4af194f9b, 0xab1c5ed5da6d8118] +
    [0xd807aa98a3030242, 0x12835b0145706fbe, 0x243185be4ee4b28c, 0x550c7dc3d5ffb4e2,
     0x72be5d74f27b896f, 0x80deb1fe3b1696b1, 0x9bdc06a725c71235, 0xc19bf174cf692694] +
    [0xe49b69c19ef14ad2, 0xefbe4786384f25e3, 0x0fc19dc68b8cd5b5, 0x240ca1cc77ac9c65,
     0x2de92c6f592b0275, 0x4a7484aa6ea6e483, 0x5cb0a9dcbd41fbd4, 0x76f988da831153b5] +
    [0x983e5152ee66dfab, 0xa831c66d2db43210, 0xb00327c898fb213f, 0xbf597fc7beef0ee4,
     0xc6e00bf33da88fc2, 0xd5a79147930aa725, 0x06ca6351e003826f, 0x142929670a0e6e70] +
    [0x27b70a8546d22ffc, 0x2e1b21385c26c926, 0x4d2c6dfc5ac42aed, 0x53380d139d95b3df,
     0x650a73548baf63de, 0x766a0abb3c77b2a8, 0x81c2c92e47edaee6, 0x92722c851482353b] +
    [0xa2bfe8a14cf10364, 0xa81a664bbc423001, 0xc24b8b70d0f89791, 0xc76c51a30654be30,
     0xd192e819d6ef5218, 0xd69906245565a910, 0xf40e35855771202a, 0x106aa07032bbd1b8] +
    [0x19a4c116b8d2d0c8, 0x1e376c085141ab53, 0x2748774cdf8eeb99, 0x34b0bcb5e19b48a8,
     0x391c0cb3c5c95a63, 0x4ed8aa4ae3418acb, 0x5b9cca4f7763e373, 0x682e6ff3d6b2b8a3] +
    [0x748f82ee5defb2fc, 0x78a5636f43172f60, 0x84c87814a1f0ab72, 0x8cc702081a6439ec,
     0x90befffa23631e28, 0xa4506cebde82bde9, 0xbef9a3f7b2c67915, 0xc67178f2e372532b] +
    [0xca273eceea26619c, 0xd186b8c721c0c207, 0xeada7dd6cde0eb1e, 0xf57d4f7fee6ed178,
     0x06f067aa72176fba, 0x0a637dc5a2c898a6, 0x113f9804bef90dae, 0x1b710b35131c471b] +
    [0x28db77f523047d84, 0x32caab7b40c72493, 0x3c9ebe0a15c9bebc, 0x431d67c49c100d4c,
     0x4cc5d4becb3e42b6, 0x597f299cfc657e2a, 0x5fcb6fab3ad6faec, 0x6c44198c4a475817]

  /** Both byte orders keep words so that they can be read back. */
  function Narrow(little: bool): Algorithm<bv32> {
    Algorithm(
      false, K256,
      Regs(0x6a09e667, 0xbb67ae85, 0x3c6ef372, 0xa54ff53a,
           0x510e527f, 0x9b05688c, 0x1f83d9ab, 0x5be0cd19),
      8, 56,
      Add32, Ch32, Maj32, BigSigma0_256, BigSigma1_256, Sigma0_256, Sigma1_256,
      Big32, BigBytes32,
      if little then Little32 else Big32,
      if little then LittleBytes32 else BigBytes32,
      if little then Reverse32 else Same32)
  }

  function Wide(little: bool, h0: Regs<bv64>, digestWords: nat): Algorithm<bv64> {
    Algorithm(
      true, K512, h0, digestWords, 126,
      Add64, Ch64, Maj64, BigSigma0_512, BigSigma1_512, Sigma0_512, Sigma1_512,
      Big64, BigBytes64,
      if little then Little64 else Big64,
      if little then LittleBytes64 else BigBytes64,
      if little then Reverse64 else Same64)
  }

  function Sha256(little: bool): Algorithm<bv32> {
    Narrow(little)
  }

  /** SHA-384 is SHA-512 from other initial values, cut to six words. */
  function Sha384(little: bool): Algorithm<bv64> {
    Wide(little,
         Regs(0xcbbb9d5dc1059ed8, 0x629a292a367cd507, 0x9159015a3070dd17, 0x152fecd8f70e5939,
              0x67332667ffc00b31, 0x8eb44a8768581511, 0xdb0c2e0d64f98fa7, 0x47b5481dbefa4fa4),
         6)
  }

  function Sha512(little: bool): Algorithm<bv64> {
    Wide(little,
         Regs(0x6a09e667f3bcc908, 0xbb67ae8584caa73b, 0x3c6ef372fe94f82b, 0xa54ff53a5f1d36f1,
              0x510e527fade682d1, 0x9b05688c2b3e6c1f, 0x1f83d9abfb41bd6b, 0x5be0cd19137e2179),
         8)
  }

  lemma Sums32(x: bv32, y: bv32, z: bv32)
    ensures Add32(x + y, z) == x + y + z && Add32(x, y + z) == x + y + z
  {
  }

  lemma Nested32(x: bv32, y: bv32, z: bv32)
    ensures Add32(Add32(x, y), z) == Add32(x + y, z) && Add32(x, Add32(y, z)) == Add32(x, y + z)
  {
    assert Add32(x, y) == x + y && Add32(y, z) == y + z;
  }

  lemma Swapped32(x: bv32, y: bv32)
    ensures Add32(x, y) == Add32(y, x)
  {
  }

  lemma Add32Laws(x: bv32, y: bv32, z: bv32)
    ensures Add32(x, y) == Add32(y, x) && Add32(Add32(x, y), z) == Add32(x, Add32(y, z))
  {
    hide Add32;
    Sums32(x, y, z);
    Nested32(x, y, z);
    Swapped32(x, y);
  }

  lemma Sums64(x: bv64, y: bv64, z: bv64)
    ensures Add64(x + y, z) == x + y + z && Add64(x, y + z) == x + y + z
  {
  }

  lemma Nested64(x: bv64, y: bv64, z: bv64)
    ensures Add64(Add64(x, y), z) == Add64(x + y, z) && Add64(x, Add64(y, z)) == Add64(x, y + z)
  {
    assert Add64(x, y) == x + y && Add64(y, z) == y + z;
  }

  lemma Swapped64(x: bv64, y: bv64)
    ensures Add64(x, y) == Add64(y, x)
  {
  }

  lemma Add64Laws(x: bv64, y: bv64, z: bv64)
    ensures Add64(x, y) == Add64(y, x) && Add64(Add64(x, y), z) == Add64(x, Add64(y, z))
  {
    hide Add64;
    Sums64(x, y, z);
    Nested64(x, y, z);
    Swapped64(x, y);
  }

  lemma Lengths32(w: bv32)
    ensures |BigBytes32(w)| == 4 && |LittleBytes32(w)| == 4
  {
  }

  lemma Lengths64(w: bv64)
    ensures |BigBytes64(w)| == 8 && |LittleBytes64(w)| == 8
  {
  }

  lemma NarrowSizes(little: bool)
    ensures var alg := Narrow(little);
            && alg.wide == false && |alg.k| == alg.Rounds() && alg.digestWords <= 8 && alg.lastClear == 56
  {
  }

  lemma NarrowAdds(little: bool, x: bv32, y: bv32, z: bv32)
    ensures var alg := Narrow(little);
            alg.add(x, y) == alg.add(y, x) && alg.add(alg.add(x, y), z) == alg.add(x, alg.add(y, z))
  {
    hide Add32;
    Add32Laws(x, y, z);
  }

  lemma NarrowStores(little: bool, w: bv32)
    ensures var alg := Narrow(little);
            && |alg.hostBytes(w)| == 4 && alg.host(alg.hostBytes(w)) == w
            && alg.hostBytes(alg.toHost(w)) == alg.bigBytes(w)
  {
    hide Big32, Little32, BigBytes32, LittleBytes32, Reverse32;
    Stored32(w);
    Lengths32(w);
    Reverse32Reorders([0, 0, 0, 0], w);
  }

  lemma NarrowLoads(little: bool, b: Bytes)
    requires |b| == 4
    ensures var alg := Narrow(little); alg.toHost(alg.host(b)) == alg.big(b)
  {
    hide Big32, Little32, Reverse32;
    Reverse32Reorders(b, 0);
  }

  lemma NarrowAdding(little: bool)
    ensures Narrow(little).Adds()
  {
    hide Narrow;
    var alg := Narrow(little);
    forall x, y ensures alg.add(x, y) == alg.add(y, x) {
      NarrowAdds(little, x, y, x);
    }
    forall x, y, z ensures alg.add(alg.add(x, y), z) == alg.add(x, alg.add(y, z)) {
      NarrowAdds(little, x, y, z);
    }
  }

  lemma NarrowStoring(little: bool)
    ensures Narrow(little).Stores()
  {
    hide Narrow;
    var alg := Narrow(little);
    NarrowSizes(little);
    forall w ensures |alg.hostBytes(w)| == 4 && alg.host(alg.hostBytes(w)) == w {
      NarrowStores(little, w);
    }
    forall w ensures alg.hostBytes(alg.toHost(w)) == alg.bigBytes(w) {
      NarrowStores(little, w);
    }
    forall b: Bytes | |b| == 4 ensures alg.toHost(alg.host(b)) == alg.big(b) {
      NarrowLoads(little, b);
    }
  }

  lemma NarrowIsLawful(little: bool)
    ensures Narrow(little).Lawful()
  {
    hide Narrow, Algorithm.Adds, Algorithm.Stores;
    NarrowSizes(little);
    NarrowAdding(little);
    NarrowStoring(little);
  }

  lemma WideSizes(little: bool, h0: Regs<bv64>, digestWords: nat)
    requires digestWords <= 8
    ensures var alg := Wide(little, h0, digestWords);
            && alg.wide == true && |alg.k| == alg.Rounds() && alg.digestWords <= 8 && alg.lastClear == 126
  {
  }

  lemma WideAdds(little: bool, h0: Regs<bv64>, digestWords: nat, x: bv64, y: bv64, z: bv64)
    ensures var alg := Wide(little, h0, digestWords);
            alg.add(x, y) == alg.add(y, x) && alg.add(alg.add(x, y), z) == alg.add(x, alg.add(y, z))
  {
    hide Add64;
    Add64Laws(x, y, z);
  }

  lemma WideStores(little: bool, h0: Regs<bv64>, digestWords: nat, w: bv64)
    ensures var alg := Wide(little, h0, digestWords);
            && |alg.hostBytes(w)| == 8 && alg.host(alg.hostBytes(w)) == w
            && alg.hostBytes(alg.toHost(w)) == alg.bigBytes(w)
  {
    hide Big64, Little64, BigBytes64, LittleBytes64, Reverse64;
    Stored64(w);
    Lengths64(w);
    Reverse64Reorders([0, 0, 0, 0, 0, 0, 0, 0], w);
  }

  lemma WideLoads(little: bool, h0: Regs<bv64>, digestWords: nat, b: Bytes)
    requires |b| == 8
    ensures var alg := Wide(little, h0, digestWords); alg.toHost(alg.host(b)) == alg.big(b)
  {
    hide Big64, Little64, Reverse64;
    Reverse64Reorders(b, 0);
  }

  lemma WideAdding(little: bool, h0: Regs<bv64>, digestWords: nat)
    ensures Wide(little, h0, digestWords).Adds()
  {
    hide Wide;
    var alg := Wide(little, h0, digestWords);
    forall x, y ensures alg.add(x, y) == alg.add(y, x) {
      WideAdds(little, h0, digestWords, x, y, x);
    }
    forall x, y, z ensures alg.add(alg.add(x, y), z) == alg.add(x, alg.add(y, z)) {
      WideAdds(little, h0, digestWords, x, y, z);
    }
  }

  lemma WideStoring(little: bool, h0: Regs<bv64>, digestWords: nat)
    requires digestWords <= 8
    ensures Wide(little, h0, digestWords).Stores()
  {
    hide Wide;
    var alg := Wide(little, h0, digestWords);
    WideSizes(little, h0, digestWords);
    forall w ensures |alg.hostBytes(w)| == 8 && alg.host(alg.hostBytes(w)) == w {
      WideStores(little, h0, digestWords, w);
    }
    forall w ensures alg.hostBytes(alg.toHost(w)) == alg.bigBytes(w) {
      WideStores(little, h0, digestWords, w);
    }
    forall b: Bytes | |b| == 8 ensures alg.toHost(alg.host(b)) == alg.big(b) {
      WideLoads(little, h0, digestWords, b);
    }
  }

  lemma WideIsLawful(little: bool, h0: Regs<bv64>, digestWords: nat)
    requires digestWords <= 8
    ensures Wide(little, h0, digestWords).Lawful()
  {
    hide Wide, Algorithm.Adds, Algorithm.Stores;
    WideSizes(little, h0, digestWords);
    WideAdding(little, h0, digestWords);
    WideStoring(little, h0, digestWords);
  }

  /** So everything proved of lawful algorithms holds of these. */
  lemma AllAreLawful(little: bool)
    ensures Sha256(little).Lawful() && Sha384(little).Lawful() && Sha512(little).Lawful()
  {
    NarrowIsLawful(little);
    WideIsLawful(little, Sha384(little).h0, 6);
    WideIsLawful(little, Sha512(little).h0, 8);
  }
}
