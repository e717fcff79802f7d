/** The hash functions of FIPS 180-4 over any word type: SHA-256 with 32-bit words, SHA-384 and
    SHA-512 with 64-bit words. */
module Sha2 {

  type Bytes = seq<bv8>

  /** What distinguishes one hash function, and one byte order of the machine, from another.
      `host` and `hostBytes` read and write a word as the machine keeps it in memory; `toHost` is the
      conversion between that and the big-endian order of the standard. */
  datatype Algorithm<!W(!new)> = Algorithm(
    wide: bool,
    k: seq<W>,
    h0: Regs<W>,
    digestWords: nat,
    lastClear: nat,
    add: (W, W) -> W,
    ch: (W, W, W) -> W,
    maj: (W, W, W) -> W,
    bigSigma0: W -> W,
    bigSigma1: W -> W,
    sigma0: W -> W,
    sigma1: W -> W,
    big: Bytes -> W,
    bigBytes: W -> Bytes,
    host: Bytes -> W,
    hostBytes: W -> Bytes,
    toHost: W -> W)
  {
    function WordBytes(): nat {
      if wide then 8 else 4
    }

    function Block(): nat {
      if wide then 128 else 64
    }

    /** Bytes of the message length at the end of the padding. */
    function LengthBytes(): nat {
      if wide then 16 else 8
    }

    function Short(): nat {
      Block() - LengthBytes()
    }

    function Rounds(): nat {
      if wide then 80 else 64
    }

    /** Where word `j` of a block starts. */
    function Offset(j: nat): nat {
      if wide then 8 * j else 4 * j
    }

    /** Addition modulo two to the word length, of which order and grouping do not matter. */
    ghost predicate Adds() {
      && (forall x, y :: add(x, y) == add(y, x))
      && (forall x, y, z :: add(add(x, y), z) == add(x, add(y, z)))
    }

    /** The machine reads back the words it stores, and its conversion makes them big-endian. */
    ghost predicate Stores() {
      && (forall w :: |hostBytes(w)| == WordBytes() && host(hostBytes(w)) == w)
      && (forall b :: |b| == WordBytes() ==> toHost(host(b)) == big(b))
      && (forall w :: hostBytes(toHost(w)) == bigBytes(w))
    }

    ghost predicate Lawful() {
      |k| == Rounds() && digestWords <= 8 && Short() <= lastClear <= Block() && Adds() && Stores()
    }
  }

  /** The eight working variables, or the chaining value. */
  datatype Regs<W> = Regs(a: W, b: W, c: W, d: W, e: W, f: W, g: W, h: W)

  /* ---- The standard's definition ---- */

  /** The sixteen words of a block, most significant byte first (section 5.2). */
  function Word<W(!new)>(alg: Algorithm<W>, block: Bytes, j: nat): W
    requires |block| == alg.Block() && j < 16
  {
    alg.big(block[alg.Offset(j)..alg.Offset(j + 1)])
  }

  /** The message schedule (sections 6.2.2 and 6.4.2, step 1). */
  function Schedule<W(!new)>(alg: Algorithm<W>, block: Bytes, t: nat): W
    requires |block| == alg.Block()
  {
    if t < 16 then Word(alg, block, t)
    else
      alg.add(alg.add(alg.add(alg.sigma1(Schedule(alg, block, t - 2)), Schedule(alg, block, t - 7)),
                      alg.sigma0(Schedule(alg, block, t - 15))),
              Schedule(alg, block, t - 16))
  }

  function T1<W(!new)>(alg: Algorithm<W>, r: Regs<W>, k: W, w: W): W {
    alg.add(alg.add(alg.add(alg.add(r.h, alg.bigSigma1(r.e)), alg.ch(r.e, r.f, r.g)), k), w)
  }

  function T2<W(!new)>(alg: Algorithm<W>, r: Regs<W>): W {
    alg.add(alg.bigSigma0(r.a), alg.maj(r.a, r.b, r.c))
  }

  /** One round (step 3). */
  function Round<W(!new)>(alg: Algorithm<W>, r: Regs<W>, k: W, w: W): Regs<W> {
    Regs(alg.add(T1(alg, r, k, w), T2(alg, r)), r.a, r.b, r.c, alg.add(r.d, T1(alg, r, k, w)), r.e, r.f, r.g)
  }

  function AfterRounds<W(!new)>(alg: Algorithm<W>, r: Regs<W>, block: Bytes, t: nat): Regs<W>
    requires |block| == alg.Block() && t <= |alg.k|
  {
    if t == 0 then r
    else Round(alg, AfterRounds(alg, r, block, t - 1), alg.k[t - 1], Schedule(alg, block, t - 1))
  }

  function AddRegs<W(!new)>(alg: Algorithm<W>, r: Regs<W>, s: Regs<W>): Regs<W> {
    Regs(alg.add(r.a, s.a), alg.add(r.b, s.b), alg.add(r.c, s.c), alg.add(r.d, s.d),
         alg.add(r.e, s.e), alg.add(r.f, s.f), alg.add(r.g, s.g), alg.add(r.h, s.h))
  }

  function Compress<W(!new)>(alg: Algorithm<W>, r: Regs<W>, block: Bytes): Regs<W>
    requires |block| == alg.Block() && alg.Rounds() <= |alg.k|
  {
    AddRegs(alg, r, AfterRounds(alg, r, block, alg.Rounds()))
  }

  /** The chaining value after whole blocks. */
  function Fold<W(!new)>(alg: Algorithm<W>, blocks: Bytes): Regs<W>
    requires alg.Rounds() <= |alg.k|
    decreases |blocks|
  {
    var b := alg.Block();
    if |blocks| < b then alg.h0
    else Compress(alg, Fold(alg, blocks[..|blocks| - b]), blocks[|blocks| - b..])
  }

  function Repeat(b: bv8, n: nat): (r: Bytes)
    ensures |r| == n
  {
    seq(n, _ => b)
  }

  /** Big-endian bytes of a number, which is cut to `n` bytes. */
  function NumberBytes(x: nat, n: nat): (r: Bytes)
    ensures |r| == n
  {
    if n == 0 then [] else NumberBytes(x / 256, n - 1) + [(x % 256) as bv8]
  }

  function Power256(n: nat): (p: nat)
    ensures p > 0
  {
    if n == 0 then 1 else 256 * Power256(n - 1)
  }

  /** The byte at `i` has the weight of as many powers of 256 as there are bytes behind it. */
  lemma {:induction false} NumberByte(x: nat, n: nat, i: nat)
    requires i < n
    ensures NumberBytes(x, n)[i] == (x / Power256(n - 1 - i) % 256) as bv8
  {
    if i == n - 1 {
      assert Power256(0) == 1;
    } else {
      NumberByte(x / 256, n - 1, i);
      DivideTwice(x, Power256(n - 2 - i));
    }
  }

  lemma DivideTwice(x: nat, p: nat)
    requires p > 0
    ensures x / 256 / p == x / (256 * p)
  {
    var q, r := x / 256 / p, x / 256 % p;
    assert x / 256 == p * q + r;
    assert x == 256 * (p * q + r) + x % 256;
    Quotient(x, 256 * p, q, 256 * r + x % 256);
  }

  lemma Quotient(x: nat, m: nat, q: nat, r: nat)
    requires r < m && x == m * q + r
    ensures x / m == q
  {
    var k := x / m;
    assert x == m * k + x % m;
    MoreTimes(m, k, q);
    MoreTimes(m, q, k);
  }

  lemma {:induction false} MoreTimes(m: nat, a: nat, b: nat)
    ensures a < b ==> m * a + m <= m * b
    decreases b
  {
    if a < b {
      var c := b - 1;
      MoreTimes(m, a, c);
      assert m * (c + 1) == m * c + m;
    }
  }

  /** How many zero bytes follow the 0x80 byte. */
  function Gap<W(!new)>(alg: Algorithm<W>, n: nat): nat {
    var used := n % alg.Block() + 1 + alg.LengthBytes();
    if used <= alg.Block() then alg.Block() - used else 2 * alg.Block() - used
  }

  /** Padding (sections 5.1.1 and 5.1.2) of a message of whole bytes. */
  function Padding<W(!new)>(alg: Algorithm<W>, n: nat): Bytes {
    [0x80] + Repeat(0, Gap(alg, n)) + NumberBytes(8 * n, alg.LengthBytes())
  }

  lemma DivIs(n: int, b: int, q: int, r: int)
    requires (b == 64 || b == 128) && n == q * b + r && 0 <= r < b
    ensures n / b == q && n % b == r
  {
  }

  lemma ModShift(n: nat, c: nat, b: nat)
    requires b == 64 || b == 128
    ensures (n + c) % b == (n % b + c) % b
  {
    var u := n % b + c;
    if b == 64 {
      DivIs(n + c, 64, n / 64 + u / 64, u % 64);
    } else {
      DivIs(n + c, 128, n / 128 + u / 128, u % 128);
    }
  }

  lemma NextMultiple(v: nat, b: nat)
    requires (b == 64 || b == 128) && v % b == 0
    ensures (v > 0 ==> v >= b) && (v > b ==> v >= 2 * b)
  {
    if b == 64 {
      assert v == v / 64 * 64;
    } else {
      assert v == v / 128 * 128;
    }
  }

  lemma PaddingEnds<W(!new)>(alg: Algorithm<W>, n: nat)
    ensures (n + |Padding(alg, n)|) % alg.Block() == 0
  {
    var b, u := alg.Block(), n % alg.Block();
    ModShift(n, |Padding(alg, n)|, b);
    DivIs(u + |Padding(alg, n)|, b, if u + 1 + alg.LengthBytes() <= b then 1 else 2, 0);
  }

  /** The padding ends a block, and no smaller gap does. */
  lemma GapIsSmallest<W(!new)>(alg: Algorithm<W>, n: nat, k: nat)
    ensures (n + |Padding(alg, n)|) % alg.Block() == 0
    ensures (n + 1 + k + alg.LengthBytes()) % alg.Block() == 0 ==> Gap(alg, n) <= k
  {
    PaddingEnds(alg, n);
    hide Padding;
    var c := 1 + k + alg.LengthBytes();
    ModShift(n, c, alg.Block());
    if (n + c) % alg.Block() == 0 {
      NextMultiple(n % alg.Block() + c, alg.Block());
    }
  }

  /** The first digest words of a chaining value, most significant byte first. */
  function Output<W(!new)>(alg: Algorithm<W>, r: Regs<W>, n: nat): Bytes
    requires n <= 8
  {
    if n == 0 then []
    else Output(alg, r, n - 1) + alg.bigBytes([r.a, r.b, r.c, r.d, r.e, r.f, r.g, r.h][n - 1])
  }

  function Digest<W(!new)>(alg: Algorithm<W>, message: Bytes): Bytes
    requires alg.Rounds() <= |alg.k| && alg.digestWords <= 8
  {
    Output(alg, Fold(alg, message + Padding(alg, |message|)), alg.digestWords)
  }
}
