/** The rounds and the schedule of SHA-2 with the functions of each word size by name, eight rounds and
    eight words at a time. */
module Sha2Steps {
  import opened Sha2
  import opened Sha2Variants
  import opened Sha2Roots

  /** Eight words of the schedule, from the one for round `t` on. */
  ghost predicate Shows<W(!new)>(alg: Algorithm<W>, block: Bytes, t: nat, v: Octet<W>) {
    && |block| == alg.Block()
    && Schedule(alg, block, t) == v.w0 && Schedule(alg, block, t + 1) == v.w1
    && Schedule(alg, block, t + 2) == v.w2 && Schedule(alg, block, t + 3) == v.w3
    && Schedule(alg, block, t + 4) == v.w4 && Schedule(alg, block, t + 5) == v.w5
    && Schedule(alg, block, t + 6) == v.w6 && Schedule(alg, block, t + 7) == v.w7
  }

  /** Each block goes on from the chaining value that the ones before it have left. */
  lemma BlocksChain<W(!new)>(alg: Algorithm<W>, blocks: Bytes, block: Bytes)
    requires |block| == alg.Block() && alg.Rounds() <= |alg.k|
    ensures Fold(alg, []) == alg.h0
    ensures var r := Fold(alg, blocks);
            Fold(alg, blocks + block) == AddRegs(alg, r, AfterRounds(alg, r, block, alg.Rounds()))
  {
    hide AfterRounds, AddRegs;
    var all := blocks + block;
    assert all[..|all| - alg.Block()] == blocks && all[|all| - alg.Block()..] == block;
  }

  /* ---- 32-bit words ---- */

  /** One round, with the functions of SHA-256 by name. */
  function Round32(r: Regs<bv32>, k: bv32, w: bv32): Regs<bv32> {
    var t1 := Add32(Add32(Add32(Add32(r.h, BigSigma1_256(r.e)), Ch32(r.e, r.f, r.g)), k), w);
    var t2 := Add32(BigSigma0_256(r.a), Maj32(r.a, r.b, r.c));
    Regs(Add32(t1, t2), r.a, r.b, r.c, Add32(r.d, t1), r.e, r.f, r.g)
  }

  /** The next word of the schedule, from those 2, 7, 15 and 16 places before it. */
  function Next32(w: bv32, x: bv32, y: bv32, z: bv32): bv32 {
    Add32(Add32(Add32(Sigma1_256(w), x), Sigma0_256(y)), z)
  }

  /** What SHA-256 computes with. */
  ghost predicate IsNarrow(alg: Algorithm<bv32>) {
    && !alg.wide && alg.k == K256 && alg.add == Add32 && alg.ch == Ch32 && alg.maj == Maj32
    && alg.bigSigma0 == BigSigma0_256 && alg.bigSigma1 == BigSigma1_256
    && alg.sigma0 == Sigma0_256 && alg.sigma1 == Sigma1_256 && alg.big == Big32 && alg.bigBytes == BigBytes32
  }

  lemma RoundIs32(alg: Algorithm<bv32>, r: Regs<bv32>, k: bv32, w: bv32)
    requires IsNarrow(alg)
    ensures Round(alg, r, k, w) == Round32(r, k, w)
  {
    hide Add32, BigSigma0_256, BigSigma1_256, Sigma0_256, Sigma1_256, Ch32, Maj32;
  }

  lemma NextIs32(alg: Algorithm<bv32>, w: bv32, x: bv32, y: bv32, z: bv32)
    requires IsNarrow(alg)
    ensures alg.add(alg.add(alg.add(alg.sigma1(w), x), alg.sigma0(y)), z) == Next32(w, x, y, z)
  {
    hide Add32, BigSigma0_256, BigSigma1_256, Sigma0_256, Sigma1_256, Ch32, Maj32;
  }

  /** The sizes of section 1, figure 1, and the number of rounds. */
  lemma SizesAre32(alg: Algorithm<bv32>)
    requires IsNarrow(alg)
    ensures alg.Block() == 64 && alg.LengthBytes() == 8 && alg.Rounds() == 64 && |alg.k| == |K256| == 64
  {
  }

  /** The word of the schedule for a round from the sixteenth on, in terms of earlier ones. */
  lemma NextWord32(alg: Algorithm<bv32>, block: Bytes, t: nat, w: bv32, x: bv32, y: bv32, z: bv32)
    requires IsNarrow(alg) && |block| == 64 && t >= 16
    requires Schedule(alg, block, t - 2) == w && Schedule(alg, block, t - 7) == x
    requires Schedule(alg, block, t - 15) == y && Schedule(alg, block, t - 16) == z
    ensures Schedule(alg, block, t) == Next32(w, x, y, z)
  {
    hide IsNarrow, Next32;
    SizesAre32(alg);
    NextIs32(alg, w, x, y, z);
  }

  /** `u`, `v` and `x` follow each other in the schedule. */
  predicate Follow32(u: Octet<bv32>, v: Octet<bv32>, x: Octet<bv32>) {
    && x.w0 == Next32(v.w6, v.w1, u.w1, u.w0) && x.w1 == Next32(v.w7, v.w2, u.w2, u.w1)
    && x.w2 == Next32(x.w0, v.w3, u.w3, u.w2) && x.w3 == Next32(x.w1, v.w4, u.w4, u.w3)
    && x.w4 == Next32(x.w2, v.w5, u.w5, u.w4) && x.w5 == Next32(x.w3, v.w6, u.w6, u.w5)
    && x.w6 == Next32(x.w4, v.w7, u.w7, u.w6) && x.w7 == Next32(x.w5, x.w0, v.w0, u.w7)
  }

  lemma FourWords32(alg: Algorithm<bv32>, block: Bytes, t: nat, u: Octet<bv32>, v: Octet<bv32>, x: Octet<bv32>)
    requires IsNarrow(alg) && |block| == 64 && Follow32(u, v, x)
    requires Shows(alg, block, t, u) && Shows(alg, block, t + 8, v)
    ensures Schedule(alg, block, t + 16) == x.w0 && Schedule(alg, block, t + 17) == x.w1
    ensures Schedule(alg, block, t + 18) == x.w2 && Schedule(alg, block, t + 19) == x.w3
  {
    hide IsNarrow, Next32, Schedule;
    SizesAre32(alg);
    NextWord32(alg, block, t + 16, v.w6, v.w1, u.w1, u.w0);
    NextWord32(alg, block, t + 17, v.w7, v.w2, u.w2, u.w1);
    NextWord32(alg, block, t + 18, x.w0, v.w3, u.w3, u.w2);
    NextWord32(alg, block, t + 19, x.w1, v.w4, u.w4, u.w3);
  }

  lemma EightWords32(alg: Algorithm<bv32>, block: Bytes, t: nat, u: Octet<bv32>, v: Octet<bv32>, x: Octet<bv32>)
    requires IsNarrow(alg) && |block| == 64 && Follow32(u, v, x)
    requires Shows(alg, block, t, u) && Shows(alg, block, t + 8, v)
    ensures Shows(alg, block, t + 16, x)
  {
    hide IsNarrow, Next32, Schedule;
    SizesAre32(alg);
    FourWords32(alg, block, t, u, v, x);
    NextWord32(alg, block, t + 20, x.w2, v.w5, u.w5, u.w4);
    NextWord32(alg, block, t + 21, x.w3, v.w6, u.w6, u.w5);
    NextWord32(alg, block, t + 22, x.w4, v.w7, u.w7, u.w6);
    NextWord32(alg, block, t + 23, x.w5, x.w0, v.w0, u.w7);
  }

  function Eight32Rounds(r: Regs<bv32>, k: Octet<bv32>, v: Octet<bv32>): Regs<bv32> {
    Round32(Round32(Round32(Round32(Round32(Round32(Round32(Round32(
      r, k.w0, v.w0), k.w1, v.w1), k.w2, v.w2), k.w3, v.w3), k.w4, v.w4), k.w5, v.w5), k.w6, v.w6), k.w7, v.w7)
  }

  /** The state after a round that puts `a` into the first register and `e` into the fifth. */
  function Moved32(r: Regs<bv32>, k: bv32, w: bv32, a: bv32, e: bv32): Regs<bv32>
    requires Round32(r, k, w) == Regs(a, r.a, r.b, r.c, e, r.e, r.f, r.g)
  {
    Regs(a, r.a, r.b, r.c, e, r.e, r.f, r.g)
  }

  lemma OneRound32(alg: Algorithm<bv32>, block: Bytes, t: nat, r: Regs<bv32>, w: bv32)
    requires IsNarrow(alg) && |block| == 64 && t < |K256| && Schedule(alg, block, t) == w
    requires AfterRounds(alg, alg.h0, block, t) == r
    ensures AfterRounds(alg, alg.h0, block, t + 1) == Round32(r, K256[t], w)
  {
    hide Round32, K256, Schedule, Round;
    RoundIs32(alg, r, K256[t], w);
  }

  lemma FourRounds32(alg: Algorithm<bv32>, block: Bytes, t: nat, r: Regs<bv32>,
                    k: bv32, l: bv32, m: bv32, n: bv32, w: bv32, x: bv32, y: bv32, z: bv32)
    requires IsNarrow(alg) && |block| == 64 && t + 4 <= |K256| && AfterRounds(alg, alg.h0, block, t) == r
    requires K256[t] == k && K256[t + 1] == l && K256[t + 2] == m && K256[t + 3] == n
    requires Schedule(alg, block, t) == w && Schedule(alg, block, t + 1) == x
    requires Schedule(alg, block, t + 2) == y && Schedule(alg, block, t + 3) == z
    ensures AfterRounds(alg, alg.h0, block, t + 4) ==
            Round32(Round32(Round32(Round32(r, k, w), l, x), m, y), n, z)
  {
    hide Round32, K256, Schedule, Round, AfterRounds, IsNarrow;
    SizesAre32(alg);
    OneRound32(alg, block, t, r, w);
    OneRound32(alg, block, t + 1, Round32(r, k, w), x);
    OneRound32(alg, block, t + 2, Round32(Round32(r, k, w), l, x), y);
    OneRound32(alg, block, t + 3, Round32(Round32(Round32(r, k, w), l, x), m, y), z);
  }

  lemma EightRoundsAre32(alg: Algorithm<bv32>, block: Bytes, t: nat, r: Regs<bv32>, v: Octet<bv32>)
    requires IsNarrow(alg) && |block| == 64 && t + 8 <= |K256| && Shows(alg, block, t, v)
    requires AfterRounds(alg, alg.h0, block, t) == r
    ensures AfterRounds(alg, alg.h0, block, t + 8) == Eight32Rounds(r, Constants32(t), v)
  {
    hide Round32, K256, Schedule, Round, AfterRounds, IsNarrow;
    SizesAre32(alg);
    var k := Constants32(t);
    FourRounds32(alg, block, t, r, k.w0, k.w1, k.w2, k.w3, v.w0, v.w1, v.w2, v.w3);
    var s := Round32(Round32(Round32(Round32(r, k.w0, v.w0), k.w1, v.w1), k.w2, v.w2), k.w3, v.w3);
    FourRounds32(alg, block, t + 4, s, k.w4, k.w5, k.w6, k.w7, v.w4, v.w5, v.w6, v.w7);
  }

  /* ---- 64-bit words ---- */

  /** One round, with the functions of SHA-512 by name. */
  function Round64(r: Regs<bv64>, k: bv64, w: bv64): Regs<bv64> {
    var t1 := Add64(Add64(Add64(Add64(r.h, BigSigma1_512(r.e)), Ch64(r.e, r.f, r.g)), k), w);
    var t2 := Add64(BigSigma0_512(r.a), Maj64(r.a, r.b, r.c));
    Regs(Add64(t1, t2), r.a, r.b, r.c, Add64(r.d, t1), r.e, r.f, r.g)
  }

  /** The next word of the schedule, from those 2, 7, 15 and 16 places before it. */
  function Next64(w: bv64, x: bv64, y: bv64, z: bv64): bv64 {
    Add64(Add64(Add64(Sigma1_512(w), x), Sigma0_512(y)), z)
  }

  /** What SHA-384 and SHA-512 compute with. */
  ghost predicate IsWide(alg: Algorithm<bv64>) {
    && alg.wide && alg.k == K512 && alg.add == Add64 && alg.ch == Ch64 && alg.maj == Maj64
    && alg.bigSigma0 == BigSigma0_512 && alg.bigSigma1 == BigSigma1_512
    && alg.sigma0 == Sigma0_512 && alg.sigma1 == Sigma1_512 && alg.big == Big64 && alg.bigBytes == BigBytes64
  }

  lemma RoundIs64(alg: Algorithm<bv64>, r: Regs<bv64>, k: bv64, w: bv64)
    requires IsWide(alg)
    ensures Round(alg, r, k, w) == Round64(r, k, w)
  {
    hide Add64, BigSigma0_512, BigSigma1_512, Sigma0_512, Sigma1_512, Ch64, Maj64;
  }

  lemma NextIs64(alg: Algorithm<bv64>, w: bv64, x: bv64, y: bv64, z: bv64)
    requires IsWide(alg)
    ensures alg.add(alg.add(alg.add(alg.sigma1(w), x), alg.sigma0(y)), z) == Next64(w, x, y, z)
  {
    hide Add64, BigSigma0_512, BigSigma1_512, Sigma0_512, Sigma1_512, Ch64, Maj64;
  }

  /** The sizes of section 1, figure 1, and the number of rounds. */
  lemma SizesAre64(alg: Algorithm<bv64>)
    requires IsWide(alg)
    ensures alg.Block() == 128 && alg.LengthBytes() == 16 && alg.Rounds() == 80 && |alg.k| == |K512| == 80
  {
  }

  /** The word of the schedule for a round from the sixteenth on, in terms of earlier ones. */
  lemma NextWord64(alg: Algorithm<bv64>, block: Bytes, t: nat, w: bv64, x: bv64, y: bv64, z: bv64)
    requires IsWide(alg) && |block| == 128 && t >= 16
    requires Schedule(alg, block, t - 2) == w && Schedule(alg, block, t - 7) == x
    requires Schedule(alg, block, t - 15) == y && Schedule(alg, block, t - 16) == z
    ensures Schedule(alg, block, t) == Next64(w, x, y, z)
  {
    hide IsWide, Next64;
    SizesAre64(alg);
    NextIs64(alg, w, x, y, z);
  }

  /** `u`, `v` and `x` follow each other in the schedule. */
  predicate Follow64(u: Octet<bv64>, v: Octet<bv64>, x: Octet<bv64>) {
    && x.w0 == Next64(v.w6, v.w1, u.w1, u.w0) && x.w1 == Next64(v.w7, v.w2, u.w2, u.w1)
    && x.w2 == Next64(x.w0, v.w3, u.w3, u.w2) && x.w3 == Next64(x.w1, v.w4, u.w4, u.w3)
    && x.w4 == Next64(x.w2, v.w5, u.w5, u.w4) && x.w5 == Next64(x.w3, v.w6, u.w6, u.w5)
    && x.w6 == Next64(x.w4, v.w7, u.w7, u.w6) && x.w7 == Next64(x.w5, x.w0, v.w0, u.w7)
  }

  lemma FourWords64(alg: Algorithm<bv64>, block: Bytes, t: nat, u: Octet<bv64>, v: Octet<bv64>, x: Octet<bv64>)
    requires IsWide(alg) && |block| == 128 && Follow64(u, v, x)
    requires Shows(alg, block, t, u) && Shows(alg, block, t + 8, v)
    ensures Schedule(alg, block, t + 16) == x.w0 && Schedule(alg, block, t + 17) == x.w1
    ensures Schedule(alg, block, t + 18) == x.w2 && Schedule(alg, block, t + 19) == x.w3
  {
    hide IsWide, Next64, Schedule;
    SizesAre64(alg);
    NextWord64(alg, block, t + 16, v.w6, v.w1, u.w1, u.w0);
    NextWord64(alg, block, t + 17, v.w7, v.w2, u.w2, u.w1);
    NextWord64(alg, block, t + 18, x.w0, v.w3, u.w3, u.w2);
    NextWord64(alg, block, t + 19, x.w1, v.w4, u.w4, u.w3);
  }

  lemma EightWords64(alg: Algorithm<bv64>, block: Bytes, t: nat, u: Octet<bv64>, v: Octet<bv64>, x: Octet<bv64>)
    requires IsWide(alg) && |block| == 128 && Follow64(u, v, x)
    requires Shows(alg, block, t, u) && Shows(alg, block, t + 8, v)
    ensures Shows(alg, block, t + 16, x)
  {
    hide IsWide, Next64, Schedule;
    SizesAre64(alg);
    FourWords64(alg, block, t, u, v, x);
    NextWord64(alg, block, t + 20, x.w2, v.w5, u.w5, u.w4);
    NextWord64(alg, block, t + 21, x.w3, v.w6, u.w6, u.w5);
    NextWord64(alg, block, t + 22, x.w4, v.w7, u.w7, u.w6);
    NextWord64(alg, block, t + 23, x.w5, x.w0, v.w0, u.w7);
  }

  function Eight64Rounds(r: Regs<bv64>, k: Octet<bv64>, v: Octet<bv64>): Regs<bv64> {
    Round64(Round64(Round64(Round64(Round64(Round64(Round64(Round64(
      r, k.w0, v.w0), k.w1, v.w1), k.w2, v.w2), k.w3, v.w3), k.w4, v.w4), k.w5, v.w5), k.w6, v.w6), k.w7, v.w7)
  }

  /** The state after a round that puts `a` into the first register and `e` into the fifth. */
  function Moved64(r: Regs<bv64>, k: bv64, w: bv64, a: bv64, e: bv64): Regs<bv64>
    requires Round64(r, k, w) == Regs(a, r.a, r.b, r.c, e, r.e, r.f, r.g)
  {
    Regs(a, r.a, r.b, r.c, e, r.e, r.f, r.g)
  }

  lemma OneRound64(alg: Algorithm<bv64>, block: Bytes, t: nat, r: Regs<bv64>, w: bv64)
    requires IsWide(alg) && |block| == 128 && t < |K512| && Schedule(alg, block, t) == w
    requires AfterRounds(alg, alg.h0, block, t) == r
    ensures AfterRounds(alg, alg.h0, block, t + 1) == Round64(r, K512[t], w)
  {
    hide Round64, K512, Schedule, Round;
    RoundIs64(alg, r, K512[t], w);
  }

  lemma FourRounds64(alg: Algorithm<bv64>, block: Bytes, t: nat, r: Regs<bv64>,
                    k: bv64, l: bv64, m: bv64, n: bv64, w: bv64, x: bv64, y: bv64, z: bv64)
    requires IsWide(alg) && |block| == 128 && t + 4 <= |K512| && AfterRounds(alg, alg.h0, block, t) == r
    requires K512[t] == k && K512[t + 1] == l && K512[t + 2] == m && K512[t + 3] == n
    requires Schedule(alg, block, t) == w && Schedule(alg, block, t + 1) == x
    requires Schedule(alg, block, t + 2) == y && Schedule(alg, block, t + 3) == z
    ensures AfterRounds(alg, alg.h0, block, t + 4) ==
            Round64(Round64(Round64(Round64(r, k, w), l, x), m, y), n, z)
  {
    hide Round64, K512, Schedule, Round, AfterRounds, IsWide;
    SizesAre64(alg);
    OneRound64(alg, block, t, r, w);
    OneRound64(alg, block, t + 1, Round64(r, k, w), x);
    OneRound64(alg, block, t + 2, Round64(Round64(r, k, w), l, x), y);
    OneRound64(alg, block, t + 3, Round64(Round64(Round64(r, k, w), l, x), m, y), z);
  }

  lemma EightRoundsAre64(alg: Algorithm<bv64>, block: Bytes, t: nat, r: Regs<bv64>, v: Octet<bv64>)
    requires IsWide(alg) && |block| == 128 && t + 8 <= |K512| && Shows(alg, block, t, v)
    requires AfterRounds(alg, alg.h0, block, t) == r
    ensures AfterRounds(alg, alg.h0, block, t + 8) == Eight64Rounds(r, Constants64(t), v)
  {
    hide Round64, K512, Schedule, Round, AfterRounds, IsWide;
    SizesAre64(alg);
    var k := Constants64(t);
    FourRounds64(alg, block, t, r, k.w0, k.w1, k.w2, k.w3, v.w0, v.w1, v.w2, v.w3);
    var s := Round64(Round64(Round64(Round64(r, k.w0, v.w0), k.w1, v.w1), k.w2, v.w2), k.w3, v.w3);
    FourRounds64(alg, block, t + 4, s, k.w4, k.w5, k.w6, k.w7, v.w4, v.w5, v.w6, v.w7);
  }
}
