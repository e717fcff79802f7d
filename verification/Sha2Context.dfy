/** The streaming context of sha2.c: a chaining value, one block of buffer that doubles as the ring
    of sixteen schedule words, and a bit count. */
module Sha2Contexts {
  import opened Sha2

  /* ---- The ring of schedule words in the buffer ---- */

  /** Word `j` as the machine reads it. */
  function RingWord<W(!new)>(alg: Algorithm<W>, ring: Bytes, j: nat): W
    requires |ring| == alg.Block() && j < 16
  {
    alg.host(ring[alg.Offset(j)..alg.Offset(j + 1)])
  }

  function Stored<W(!new)>(alg: Algorithm<W>, ring: Bytes, j: nat, w: W): (r: Bytes)
    requires |ring| == alg.Block() && j < 16
  {
    ring[..alg.Offset(j)] + alg.hostBytes(w) + ring[alg.Offset(j + 1)..]
  }

  lemma Lengths<W(!new)>(alg: Algorithm<W>)
    requires alg.Lawful()
    ensures |alg.k| == alg.Rounds() && alg.digestWords <= 8 && alg.Short() <= alg.lastClear <= alg.Block()
  {
  }

  lemma HostLength<W(!new)>(alg: Algorithm<W>, w: W)
    requires alg.Lawful()
    ensures |alg.hostBytes(w)| == alg.WordBytes() && alg.host(alg.hostBytes(w)) == w
  {
  }

  lemma StoredWord<W(!new)>(alg: Algorithm<W>, ring: Bytes, j: nat, w: W, i: nat)
    requires alg.Lawful() && |ring| == alg.Block() && j < 16 && i < 16
    ensures |Stored(alg, ring, j, w)| == alg.Block()
    ensures RingWord(alg, Stored(alg, ring, j, w), i) == if i == j then w else RingWord(alg, ring, i)
    ensures Stored(alg, ring, j, w)[alg.Offset(j + 1)..] == ring[alg.Offset(j + 1)..]
  {
    hide Algorithm.Lawful;
    var s := Stored(alg, ring, j, w);
    HostLength(alg, w);
    var lo, hi := alg.Offset(i), alg.Offset(i + 1);
    if i == j {
      assert s[lo..hi] == alg.hostBytes(w);
    } else {
      assert s[lo..hi] == ring[lo..hi];
    }
  }

  /** The ring holds the last sixteen words of the schedule before number `j`. */
  ghost predicate RingHolds<W(!new)>(alg: Algorithm<W>, ring: Bytes, block: Bytes, j: nat)
    requires |ring| == |block| == alg.Block() && j >= 16
  {
    forall t :: j - 16 <= t < j ==> RingWord(alg, ring, t % 16) == Schedule(alg, block, t)
  }

  /** The first `j` words are in the ring. */
  ghost predicate RingFilled<W(!new)>(alg: Algorithm<W>, ring: Bytes, block: Bytes, j: nat)
    requires |ring| == |block| == alg.Block() && j <= 16
  {
    forall t :: 0 <= t < j ==> RingWord(alg, ring, t) == Schedule(alg, block, t)
  }

  lemma FilledHolds<W(!new)>(alg: Algorithm<W>, ring: Bytes, block: Bytes)
    requires |ring| == |block| == alg.Block() && RingFilled(alg, ring, block, 16)
    ensures RingHolds(alg, ring, block, 16)
  {
    hide RingWord, Schedule;
    forall t | 0 <= t < 16 ensures RingWord(alg, ring, t % 16) == Schedule(alg, block, t) {
      assert t % 16 == t;
    }
  }

  /** A word of the block, turned to host order, is the schedule's. */
  lemma LoadedWord<W(!new)>(alg: Algorithm<W>, block: Bytes, j: nat)
    requires alg.Lawful() && |block| == alg.Block() && j < 16
    ensures alg.toHost(alg.host(block[alg.Offset(j)..alg.Offset(j + 1)])) == Schedule(alg, block, j)
  {
    assert |block[alg.Offset(j)..alg.Offset(j + 1)]| == alg.WordBytes();
  }

  lemma FillMore<W(!new)>(alg: Algorithm<W>, ring: Bytes, block: Bytes, j: nat)
    requires alg.Lawful() && |ring| == |block| == alg.Block() && j < 16 && RingFilled(alg, ring, block, j)
    ensures |Stored(alg, ring, j, Schedule(alg, block, j))| == alg.Block()
    ensures RingFilled(alg, Stored(alg, ring, j, Schedule(alg, block, j)), block, j + 1)
  {
    hide Schedule, Stored, RingWord, Algorithm.Lawful;
    var w := Schedule(alg, block, j);
    StoredWord(alg, ring, j, w, j);
    forall t | 0 <= t < j ensures RingWord(alg, Stored(alg, ring, j, w), t) == Schedule(alg, block, t) {
      StoredWord(alg, ring, j, w, t);
    }
  }

  /** The word that `W[j&15] += s1 + W[(j+9)&15] + s0` leaves. */
  function Expanded<W(!new)>(alg: Algorithm<W>, ring: Bytes, j: nat): W
    requires |ring| == alg.Block()
  {
    var s0 := alg.sigma0(RingWord(alg, ring, (j + 1) % 16));
    var s1 := alg.sigma1(RingWord(alg, ring, (j + 14) % 16));
    alg.add(RingWord(alg, ring, j % 16), alg.add(alg.add(s1, RingWord(alg, ring, (j + 9) % 16)), s0))
  }

  /** It is the schedule's next word. */
  lemma ExpandedIsSchedule<W(!new)>(alg: Algorithm<W>, ring: Bytes, block: Bytes, j: nat)
    requires alg.Lawful() && |ring| == |block| == alg.Block() && j >= 16 && RingHolds(alg, ring, block, j)
    ensures Expanded(alg, ring, j) == Schedule(alg, block, j)
  {
    hide RingWord, Algorithm.Lawful;
    assert (j + 1) % 16 == (j - 15) % 16 && (j + 14) % 16 == (j - 2) % 16;
    assert (j + 9) % 16 == (j - 7) % 16 && j % 16 == (j - 16) % 16;
    var x := alg.add(alg.add(alg.sigma1(Schedule(alg, block, j - 2)), Schedule(alg, block, j - 7)),
                     alg.sigma0(Schedule(alg, block, j - 15)));
    AddCommutes(alg, x, Schedule(alg, block, j - 16));
  }

  lemma AddCommutes<W(!new)>(alg: Algorithm<W>, x: W, y: W)
    requires alg.Lawful()
    ensures alg.add(x, y) == alg.add(y, x)
  {
  }

  lemma AddAssociates<W(!new)>(alg: Algorithm<W>, x: W, y: W, z: W)
    requires alg.Lawful()
    ensures alg.add(alg.add(x, y), z) == alg.add(x, alg.add(y, z))
  {
  }

  /** The ring moves on by one word, which takes the place of the oldest. */
  lemma HoldMore<W(!new)>(alg: Algorithm<W>, ring: Bytes, block: Bytes, j: nat)
    requires alg.Lawful() && |ring| == |block| == alg.Block() && j >= 16 && RingHolds(alg, ring, block, j)
    ensures |Stored(alg, ring, j % 16, Expanded(alg, ring, j))| == alg.Block()
    ensures RingHolds(alg, Stored(alg, ring, j % 16, Expanded(alg, ring, j)), block, j + 1)
  {
    hide Schedule, Stored, RingWord, Algorithm.Lawful, Expanded;
    ExpandedIsSchedule(alg, ring, block, j);
    var w := Expanded(alg, ring, j);
    StoredWord(alg, ring, j % 16, w, j % 16);
    forall t | j + 1 - 16 <= t < j + 1
      ensures RingWord(alg, Stored(alg, ring, j % 16, w), t % 16) == Schedule(alg, block, t)
    {
      StoredWord(alg, ring, j % 16, w, t % 16);
      if t < j {
        assert t % 16 != j % 16;
      }
    }
  }

  /* ---- Unrolled rounds ---- */

  /** A round that renames: only two registers change, and the next round reads them one place on. */
  function Renamed<W(!new)>(alg: Algorithm<W>, r: Regs<W>, k: W, w: W): Regs<W> {
    var t1 := T1(alg, r, k, w);
    Regs(alg.add(alg.add(t1, alg.bigSigma0(r.a)), alg.maj(r.a, r.b, r.c)), r.a, r.b, r.c, alg.add(r.d, t1), r.e,
         r.f, r.g)
  }

  lemma RenamedIsRound<W(!new)>(alg: Algorithm<W>, r: Regs<W>, k: W, w: W)
    requires alg.Lawful()
    ensures Renamed(alg, r, k, w) == Round(alg, r, k, w)
  {
    hide Algorithm.Lawful;
    AddAssociates(alg, T1(alg, r, k, w), alg.bigSigma0(r.a), alg.maj(r.a, r.b, r.c));
  }

  lemma NextRound<W(!new)>(alg: Algorithm<W>, r: Regs<W>, block: Bytes, j: nat)
    requires |block| == alg.Block() && j < |alg.k|
    ensures AfterRounds(alg, r, block, j + 1) ==
            Round(alg, AfterRounds(alg, r, block, j), alg.k[j], Schedule(alg, block, j))
  {
  }

  /* ---- Counting and blocks ---- */

  const W64: nat := 0x1_0000_0000_0000_0000

  /** ADDINC128: a carry happened exactly when the low word came out below what was added. */
  lemma Carries(x: nat, n: nat)
    requires n < W64
    ensures var low := (x % W64 + n) % W64;
            && low == (x + n) % W64
            && (x + n) / W64 % W64 == if low < n then (x / W64 % W64 + 1) % W64 else x / W64 % W64
  {
    var q, r := x / W64, x % W64;
    assert x == q * W64 + r;
    if r + n < W64 {
      CountIs(x + n, q, r + n);
      CountIs(r + n, 0, r + n);
    } else {
      CountIs(x + n, q + 1, r + n - W64);
      CountIs(r + n, 1, r + n - W64);
      var p, s := q / W64, q % W64;
      assert q == p * W64 + s;
      if s + 1 < W64 {
        CountIs(q + 1, p, s + 1);
        CountIs(s + 1, 0, s + 1);
      } else {
        CountIs(q + 1, p + 1, 0);
        CountIs(s + 1, 1, 0);
      }
    }
  }

  lemma CountIs(x: int, q: int, r: int)
    requires x == q * W64 + r && 0 <= r < W64
    ensures x / W64 == q && x % W64 == r
  {
  }

  /** The low word alone tells how much of a block is used. */
  lemma UsedFromCount(n: nat, b: nat)
    requires b == 64 || b == 128
    ensures 8 * n % W64 / 8 % b == n % b
  {
    var q, r := n / 0x2000_0000_0000_0000, n % 0x2000_0000_0000_0000;
    assert n == q * 0x2000_0000_0000_0000 + r;
    CountIs(8 * n, q, 8 * r);
    if b == 64 {
      DivIs(n, 64, q * 0x80_0000_0000_0000 + r / 64, r % 64);
    } else {
      DivIs(n, 128, q * 0x40_0000_0000_0000 + r / 128, r % 128);
    }
  }

  /** The whole blocks of a message, and what is left over. */
  function Whole<W(!new)>(alg: Algorithm<W>, message: Bytes): Bytes {
    message[..|message| - |message| % alg.Block()]
  }

  function Rest<W(!new)>(alg: Algorithm<W>, message: Bytes): Bytes {
    message[|message| - |message| % alg.Block()..]
  }

  lemma BlockSum(n: nat, u: nat, k: nat, b: nat)
    requires (b == 64 || b == 128) && n % b == u && u + k <= b
    ensures (n + k) % b == if u + k == b then 0 else u + k
    ensures n - u == n / b * b
  {
    if b == 64 {
      DivIs(n + k, 64, if u + k == 64 then n / 64 + 1 else n / 64, if u + k == 64 then 0 else u + k);
    } else {
      DivIs(n + k, 128, if u + k == 128 then n / 128 + 1 else n / 128, if u + k == 128 then 0 else u + k);
    }
  }

  /** Bytes that do not fill the block are left over with the others. */
  lemma Kept<W(!new)>(alg: Algorithm<W>, message: Bytes, more: Bytes)
    requires |message| % alg.Block() + |more| < alg.Block()
    ensures Whole(alg, message + more) == Whole(alg, message)
    ensures Rest(alg, message + more) == Rest(alg, message) + more
  {
    BlockSum(|message|, |message| % alg.Block(), |more|, alg.Block());
  }

  lemma FoldLast<W(!new)>(alg: Algorithm<W>, blocks: Bytes, block: Bytes)
    requires alg.Rounds() <= |alg.k| && |block| == alg.Block()
    ensures Fold(alg, blocks + block) == Compress(alg, Fold(alg, blocks), block)
  {
    hide Compress;
    var all := blocks + block;
    assert all[..|all| - |block|] == blocks && all[|all| - |block|..] == block;
  }

  /** Bytes that fill the block make one more whole block. */
  lemma Filled<W(!new)>(alg: Algorithm<W>, message: Bytes, more: Bytes)
    requires alg.Rounds() <= |alg.k|
    requires |message| % alg.Block() + |more| == alg.Block()
    ensures Rest(alg, message + more) == []
    ensures |Rest(alg, message) + more| == alg.Block()
    ensures Fold(alg, Whole(alg, message + more)) ==
            Compress(alg, Fold(alg, Whole(alg, message)), Rest(alg, message) + more)
  {
    hide Fold, Compress;
    BlockSum(|message|, |message| % alg.Block(), |more|, alg.Block());
    FoldLast(alg, Whole(alg, message), Rest(alg, message) + more);
    assert Whole(alg, message + more) == message + more == Whole(alg, message) + (Rest(alg, message) + more);
  }

  lemma NumberStep(x: nat, z: nat, y: nat)
    requires x == 256 * z + y
    ensures x / 256 == z + y / 256 && x % 256 == y % 256
  {
  }

  /** One more byte at the end of a number that is written as two. */
  lemma JoinStep(x: nat, q: nat, z: nat, y: nat, n: nat, m: nat)
    requires x == 256 * z + y
    requires NumberBytes(z + y / 256, n + m) == NumberBytes(q, n) + NumberBytes(y / 256, m)
    ensures NumberBytes(x, n + m + 1) == NumberBytes(q, n) + NumberBytes(y, m + 1)
  {
    NumberStep(x, z, y);
    assert NumberBytes(x, n + m + 1) == NumberBytes(x / 256, n + m) + [(x % 256) as bv8];
    assert NumberBytes(y, m + 1) == NumberBytes(y / 256, m) + [(y % 256) as bv8];
  }

  function Power(m: nat): nat {
    if m == 0 then 1 else 256 * Power(m - 1)
  }

  lemma Regrouped(q: nat, p: nat)
    ensures q * (256 * p) == 256 * (q * p)
  {
  }

  lemma {:induction false} Joins(q: nat, y: nat, n: nat, m: nat)
    requires y < Power(m)
    ensures NumberBytes(q * Power(m) + y, n + m) == NumberBytes(q, n) + NumberBytes(y, m)
    decreases m
  {
    if m == 0 {
      assert q * 1 == q && NumberBytes(q, n) + [] == NumberBytes(q, n);
    } else {
      hide NumberBytes;
      var p := Power(m - 1);
      Regrouped(q, p);
      Joins(q, y / 256, n, m - 1);
      JoinStep(q * Power(m) + y, q, q * p, y, n, m - 1);
    }
  }

  lemma PowerEight()
    ensures Power(8) == W64
  {
    assert Power(2) == 0x1_0000;
    assert Power(4) == 0x1_0000_0000;
    assert Power(6) == 0x1_0000_0000_0000;
  }

  /** A number of more than eight bytes is written as two. */
  lemma TwoNumbers(x: nat, n: nat)
    ensures NumberBytes(x, n + 8) == NumberBytes(x / W64, n) + NumberBytes(x % W64, 8)
  {
    PowerEight();
    Joins(x / W64, x % W64, n, 8);
  }

  /* ---- Padding in one block or two ---- */

  lemma Zeros(a: nat, b: nat)
    ensures Repeat(0, a) + Repeat(0, b) == Repeat(0, a + b)
  {
  }

  /** The bit count's one or two words are the length field of the padding. */
  lemma LengthField(n: nat, low: nat, high: nat)
    requires low == 8 * n % W64
    ensures NumberBytes(8 * n, 8) == NumberBytes(low, 8)
    ensures high == 8 * n / W64 % W64 ==> NumberBytes(8 * n, 16) == NumberBytes(high, 8) + NumberBytes(low, 8)
  {
    TwoNumbers(8 * n, 0);
    TwoNumbers(8 * n, 8);
    TwoNumbers(8 * n / W64, 0);
    var none: Bytes := [];
    assert none + NumberBytes(low, 8) == NumberBytes(low, 8);
    assert none + NumberBytes(8 * n / W64 % W64, 8) == NumberBytes(8 * n / W64 % W64, 8);
  }

  /** Nothing is left over of whole blocks. */
  lemma AllWhole<W(!new)>(alg: Algorithm<W>, message: Bytes)
    requires |message| % alg.Block() == 0
    ensures Whole(alg, message) == message && Rest(alg, message) == []
  {
  }

  lemma FilledFold<W(!new)>(alg: Algorithm<W>, message: Bytes, more: Bytes)
    requires alg.Rounds() <= |alg.k| && |message| % alg.Block() + |more| == alg.Block()
    ensures |message + more| % alg.Block() == 0 && |Rest(alg, message) + more| == alg.Block()
    ensures Fold(alg, message + more) == Compress(alg, Fold(alg, Whole(alg, message)), Rest(alg, message) + more)
  {
    hide Fold, Compress;
    Filled(alg, message, more);
    BlockSum(|message|, |message| % alg.Block(), |more|, alg.Block());
    AllWhole(alg, message + more);
  }

  lemma FilledTwice<W(!new)>(alg: Algorithm<W>, message: Bytes, one: Bytes, two: Bytes)
    requires alg.Rounds() <= |alg.k| && |message| % alg.Block() + |one| == alg.Block() && |two| == alg.Block()
    ensures |Rest(alg, message) + one| == alg.Block()
    ensures Fold(alg, message + (one + two)) ==
            Compress(alg, Compress(alg, Fold(alg, Whole(alg, message)), Rest(alg, message) + one), two)
  {
    hide Fold, Compress, Whole, Rest;
    FilledFold(alg, message, one);
    FilledFold(alg, message + one, two);
    AllWhole(alg, message + one);
    assert [] + two == two && message + one + two == message + (one + two);
  }

  /** Where the length still fits behind the 0x80 byte, the padding fills the block. */
  lemma OneBlock<W(!new)>(alg: Algorithm<W>, message: Bytes)
    requires alg.Rounds() <= |alg.k| && |message| % alg.Block() + 1 <= alg.Short()
    ensures var block := Rest(alg, message) + Padding(alg, |message|);
            && |block| == alg.Block()
            && Fold(alg, message + Padding(alg, |message|)) == Compress(alg, Fold(alg, Whole(alg, message)), block)
  {
    hide Fold, Compress, Whole, Rest;
    FilledFold(alg, message, Padding(alg, |message|));
  }

  /** Otherwise it is cut after the block that the 0x80 byte is in. */
  lemma TwoBlocks<W(!new)>(alg: Algorithm<W>, message: Bytes, one: Bytes, two: Bytes)
    requires alg.Rounds() <= |alg.k| && |message| % alg.Block() + 1 > alg.Short()
    requires one == [0x80] + Repeat(0, alg.Block() - |message| % alg.Block() - 1)
    requires two == Repeat(0, alg.Short()) + NumberBytes(8 * |message|, alg.LengthBytes())
    ensures |Rest(alg, message) + one| == alg.Block() && |two| == alg.Block()
    ensures Fold(alg, message + Padding(alg, |message|)) ==
            Compress(alg, Compress(alg, Fold(alg, Whole(alg, message)), Rest(alg, message) + one), two)
  {
    hide Fold, Compress, Whole, Rest;
    var n := alg.Block() - |message| % alg.Block() - 1;
    Zeros(n, alg.Short());
    assert Padding(alg, |message|) == one + two;
    FilledTwice(alg, message, one, two);
  }

  lemma Halves(all: Bytes, from: nat, lo: nat, hi: nat, end: nat, block: Bytes)
    requires lo <= hi <= end == |block| && from + end <= |all| && all[from + lo..from + end] == block[lo..]
    ensures all[from + lo..from + hi] == block[lo..hi] && all[from + hi..from + end] == block[hi..]
  {
    var part := block[lo..];
    assert all[from + lo..from + hi] == part[..hi - lo] && all[from + hi..from + end] == part[hi - lo..];
  }

  lemma ToTheEnd(s: Bytes, from: nat, n: nat)
    requires from <= |s| == n
    ensures s[from..n] == s[from..]
  {
  }

  class Context<W(!new)> {
    const alg: Algorithm<W>
    const buffer: array<bv8>
    var state: Regs<W>
    var low: nat
    var high: nat
    ghost var message: Bytes

    ghost predicate Ready() {
      alg.Lawful() && buffer.Length == alg.Block()
    }

    /** The state, the leftover bytes and the bit count are those of the message so far. */
    ghost predicate Valid()
      reads this, buffer
    {
      && Ready()
      && alg.Rounds() <= |alg.k|
      && low == 8 * |message| % W64
      && (alg.wide ==> high == 8 * |message| / W64 % W64)
      && state == Fold(alg, Whole(alg, message))
      && buffer[..|message| % alg.Block()] == Rest(alg, message)
    }

    /** SHA256_Init, SHA384_Init and SHA512_Init. */
    constructor (alg: Algorithm<W>)
      requires alg.Lawful()
      ensures Valid() && this.alg == alg && fresh(buffer) && message == []
    {
      this.alg := alg;
      buffer := new bv8[alg.Block()](_ => 0);
      state := alg.h0;
      low := 0;
      high := 0;
      message := [];
      new;
      Lengths(alg);
    }

    /** Writes ring word `j` in host order. */
    method StoreWord(j: nat, w: W)
      requires Ready() && j < 16
      modifies buffer
      ensures buffer[..] == Stored(alg, old(buffer[..]), j, w)
    {
      hide Algorithm.Lawful;
      Lengths(alg);
      var b, at := alg.hostBytes(w), alg.Offset(j);
      HostLength(alg, w);
      ghost var was := buffer[..];
      forall i | 0 <= i < |b| {
        buffer[at + i] := b[i];
      }
      assert buffer[..] == was[..at] + b + was[at + |b|..];
    }

    /** The words of the block from number `j` on are still in the data. */
    ghost predicate Pending(data: array<bv8>, from: nat, j: nat, block: Bytes)
      reads data
    {
      && |block| == alg.Block() && from + alg.Block() <= data.Length && j <= 16
      && data[from + alg.Offset(j)..from + alg.Block()] == block[alg.Offset(j)..]
    }

    lemma StartPending(data: array<bv8>, from: nat, block: Bytes)
      requires from + alg.Block() <= data.Length && block == data[from..from + alg.Block()]
      ensures Pending(data, from, 0, block)
    {
      assert block[0..] == block;
    }

    /** Takes word `j` of the data into the ring; the data can be the buffer itself. */
    method TakeWord(data: array<bv8>, from: nat, j: nat, ghost block: Bytes) returns (w: W)
      requires Ready() && j < 16 && |block| == alg.Block()
      requires from + alg.Block() <= data.Length && (data == buffer ==> from == 0)
      requires Pending(data, from, j, block)
      requires RingFilled(alg, buffer[..], block, j)
      modifies buffer
      ensures w == Schedule(alg, block, j)
      ensures RingFilled(alg, buffer[..], block, j + 1)
      ensures Pending(data, from, j + 1, block)
    {
      hide Algorithm.Lawful, Schedule, RingFilled, Stored;
      var lo, hi := alg.Offset(j), alg.Offset(j + 1);
      ghost var was, all := buffer[..], data[..];
      assert data[from + lo..from + alg.Block()] == all[from + lo..from + alg.Block()];
      Halves(all, from, lo, hi, alg.Block(), block);
      assert data[from + lo..from + hi] == all[from + lo..from + hi];
      LoadedWord(alg, block, j);
      FillMore(alg, was, block, j);
      w := alg.toHost(alg.host(data[from + lo..from + hi]));
      StoredWord(alg, was, j, w, j);
      StoreWord(j, w);
      ghost var now := data[..];
      if data == buffer {
        assert now == buffer[..] && was == all;
        assert now[hi..] == was[hi..];
        ToTheEnd(now, hi, alg.Block());
        ToTheEnd(all, hi, alg.Block());
      } else {
        assert now == all;
      }
      assert data[from + hi..from + alg.Block()] == now[from + hi..from + alg.Block()];
    }

    /** Moves the ring on by one word. */
    method ExpandWord(j: nat, ghost block: Bytes) returns (w: W)
      requires Ready() && j >= 16 && |block| == alg.Block() && RingHolds(alg, buffer[..], block, j)
      modifies buffer
      ensures w == Schedule(alg, block, j) && RingHolds(alg, buffer[..], block, j + 1)
    {
      hide Algorithm.Lawful, Schedule, RingHolds, Stored;
      ghost var ring := buffer[..];
      ExpandedIsSchedule(alg, ring, block, j);
      HoldMore(alg, ring, block, j);
      var s0 := alg.sigma0(LoadWord((j + 1) % 16));
      var s1 := alg.sigma1(LoadWord((j + 14) % 16));
      w := alg.add(LoadWord(j % 16), alg.add(alg.add(s1, LoadWord((j + 9) % 16)), s0));
      StoreWord(j % 16, w);
    }

    function LoadWord(j: nat): W
      requires buffer.Length == alg.Block() && j < 16
      reads buffer
    {
      RingWord(alg, buffer[..], j)
    }

    /** One round, shifting the registers. */
    method Shift(r: Regs<W>, k: W, w: W) returns (s: Regs<W>)
      ensures s == Round(alg, r, k, w)
    {
      var a, b, c, d, e, f, g, h := r.a, r.b, r.c, r.d, r.e, r.f, r.g, r.h;
      var t1 := alg.add(alg.add(alg.add(alg.add(h, alg.bigSigma1(e)), alg.ch(e, f, g)), k), w);
      var t2 := alg.add(alg.bigSigma0(a), alg.maj(a, b, c));
      h := g;
      g := f;
      f := e;
      e := alg.add(d, t1);
      d := c;
      c := b;
      b := a;
      a := alg.add(t1, t2);
      s := Regs(a, b, c, d, e, f, g, h);
    }

    /** Rounds 0 to 15, which take the data in. */
    method FirstRounds(data: array<bv8>, from: nat, start: Regs<W>) returns (r: Regs<W>)
      requires Ready() && from + alg.Block() <= data.Length && (data == buffer ==> from == 0)
      modifies buffer
      ensures var block := old(data[from..from + alg.Block()]);
              RingHolds(alg, buffer[..], block, 16) && r == AfterRounds(alg, start, block, 16)
    {
      hide Algorithm.Lawful, Schedule, RingFilled, RingHolds, AfterRounds, Round, Pending;
      Lengths(alg);
      ghost var block := data[from..from + alg.Block()];
      r := start;
      var j := 0;
      StartTransform(alg, start, buffer[..], block);
      StartPending(data, from, block);
      while j < 16
        invariant 0 <= j <= 16
        invariant Pending(data, from, j, block)
        invariant RingFilled(alg, buffer[..], block, j)
        invariant r == AfterRounds(alg, start, block, j)
      {
        var w := TakeWord(data, from, j, block);
        NextRound(alg, start, block, j);
        r := Shift(r, alg.k[j], w);
        j := j + 1;
      }
      FilledHolds(alg, buffer[..], block);
    }

    /** The rounds that expand the schedule in place. */
    method LaterRounds(start: Regs<W>, r16: Regs<W>, ghost block: Bytes) returns (r: Regs<W>)
      requires Ready() && |block| == alg.Block() && RingHolds(alg, buffer[..], block, 16)
      requires r16 == AfterRounds(alg, start, block, 16)
      modifies buffer
      ensures r == AfterRounds(alg, start, block, alg.Rounds())
    {
      hide Algorithm.Lawful, Schedule, RingHolds, AfterRounds, Round;
      Lengths(alg);
      r := r16;
      var j := 16;
      while j < alg.Rounds()
        invariant 16 <= j <= alg.Rounds()
        invariant RingHolds(alg, buffer[..], block, j)
        invariant r == AfterRounds(alg, start, block, j)
      {
        var w := ExpandWord(j, block);
        NextRound(alg, start, block, j);
        r := Shift(r, alg.k[j], w);
        j := j + 1;
      }
    }

    /** The transform as loops that shift the registers. */
    method Transform(data: array<bv8>, from: nat)
      requires Ready() && from + alg.Block() <= data.Length && (data == buffer ==> from == 0)
      modifies this`state, buffer
      ensures state == Compress(alg, old(state), old(data[from..from + alg.Block()]))
    {
      hide Algorithm.Lawful, RingHolds, AfterRounds, AddRegs;
      Lengths(alg);
      ghost var block := data[from..from + alg.Block()];
      var r := FirstRounds(data, from, state);
      r := LaterRounds(state, r, block);
      state := AddRegs(alg, state, r);
    }

    /* ---- The unrolled form ---- */

    /** The body that both round macros share: the fourth and eighth registers they are given change. */
    method Rename(r: Regs<W>, k: W, w: W) returns (d: W, h: W)
      requires alg.Lawful()
      ensures Regs(h, r.a, r.b, r.c, d, r.e, r.f, r.g) == Round(alg, r, k, w)
    {
      hide Algorithm.Lawful, Round;
      RenamedIsRound(alg, r, k, w);
      var t1 := alg.add(alg.add(alg.add(alg.add(r.h, alg.bigSigma1(r.e)), alg.ch(r.e, r.f, r.g)), k), w);
      d := alg.add(r.d, t1);
      h := alg.add(alg.add(t1, alg.bigSigma0(r.a)), alg.maj(r.a, r.b, r.c));
    }

    /** ROUND256_0_TO_15 and ROUND512_0_TO_15. */
    method RoundTaking(data: array<bv8>, from: nat, j: nat, r: Regs<W>, ghost start: Regs<W>, ghost block: Bytes)
        returns (d: W, h: W)
      requires Ready() && j < 16 && |block| == alg.Block()
      requires from + alg.Block() <= data.Length && (data == buffer ==> from == 0)
      requires Pending(data, from, j, block)
      requires RingFilled(alg, buffer[..], block, j)
      requires j < |alg.k| && r == AfterRounds(alg, start, block, j)
      modifies buffer
      ensures RingFilled(alg, buffer[..], block, j + 1)
      ensures Pending(data, from, j + 1, block)
      ensures Regs(h, r.a, r.b, r.c, d, r.e, r.f, r.g) == AfterRounds(alg, start, block, j + 1)
    {
      hide Algorithm.Lawful, Schedule, RingFilled, AfterRounds, Round, Pending;
      var w := TakeWord(data, from, j, block);
      NextRound(alg, start, block, j);
      d, h := Rename(r, alg.k[j], w);
    }

    /** ROUND256 and ROUND512. */
    method RoundExpanding(j: nat, r: Regs<W>, ghost start: Regs<W>, ghost block: Bytes) returns (d: W, h: W)
      requires Ready() && 16 <= j < |alg.k| && |block| == alg.Block() && RingHolds(alg, buffer[..], block, j)
      requires r == AfterRounds(alg, start, block, j)
      modifies buffer
      ensures RingHolds(alg, buffer[..], block, j + 1)
      ensures Regs(h, r.a, r.b, r.c, d, r.e, r.f, r.g) == AfterRounds(alg, start, block, j + 1)
    {
      hide Algorithm.Lawful, Schedule, RingHolds, AfterRounds, Round;
      var w := ExpandWord(j, block);
      NextRound(alg, start, block, j);
      d, h := Rename(r, alg.k[j], w);
    }

    /** Half of the eight rounds in a row; behind it the registers are read from `e` on. */
    method FourTaking(data: array<bv8>, from: nat, j: nat, a0: W, b0: W, c0: W, d0: W, e0: W, f0: W, g0: W, h0: W,
                      ghost start: Regs<W>, ghost block: Bytes)
        returns (a: W, b: W, c: W, d: W, e: W, f: W, g: W, h: W)
      requires |block| == alg.Block() && from + alg.Block() <= data.Length
      requires Ready() && j + 4 <= 16 && (data == buffer ==> from == 0) && Pending(data, from, j, block)
      requires RingFilled(alg, buffer[..], block, j) && 16 <= |alg.k|
      requires Regs(a0, b0, c0, d0, e0, f0, g0, h0) == AfterRounds(alg, start, block, j)
      modifies buffer
      ensures Pending(data, from, j + 4, block) && RingFilled(alg, buffer[..], block, j + 4)
      ensures Regs(e, f, g, h, a, b, c, d) == AfterRounds(alg, start, block, j + 4)
    {
      hide Algorithm.Lawful, RingFilled, AfterRounds, Pending;
      a, b, c, d, e, f, g, h := a0, b0, c0, d0, e0, f0, g0, h0;
      d, h := RoundTaking(data, from, j, Regs(a, b, c, d, e, f, g, h), start, block);
      c, g := RoundTaking(data, from, j + 1, Regs(h, a, b, c, d, e, f, g), start, block);
      b, f := RoundTaking(data, from, j + 2, Regs(g, h, a, b, c, d, e, f), start, block);
      a, e := RoundTaking(data, from, j + 3, Regs(f, g, h, a, b, c, d, e), start, block);
    }

    method FourExpanding(j: nat, a0: W, b0: W, c0: W, d0: W, e0: W, f0: W, g0: W, h0: W,
                         ghost start: Regs<W>, ghost block: Bytes)
        returns (a: W, b: W, c: W, d: W, e: W, f: W, g: W, h: W)
      requires Ready() && 16 <= j && j + 4 <= |alg.k| && |block| == alg.Block() && RingHolds(alg, buffer[..], block, j)
      requires Regs(a0, b0, c0, d0, e0, f0, g0, h0) == AfterRounds(alg, start, block, j)
      modifies buffer
      ensures RingHolds(alg, buffer[..], block, j + 4)
      ensures Regs(e, f, g, h, a, b, c, d) == AfterRounds(alg, start, block, j + 4)
    {
      hide Algorithm.Lawful, RingHolds, AfterRounds;
      a, b, c, d, e, f, g, h := a0, b0, c0, d0, e0, f0, g0, h0;
      d, h := RoundExpanding(j, Regs(a, b, c, d, e, f, g, h), start, block);
      c, g := RoundExpanding(j + 1, Regs(h, a, b, c, d, e, f, g), start, block);
      b, f := RoundExpanding(j + 2, Regs(g, h, a, b, c, d, e, f), start, block);
      a, e := RoundExpanding(j + 3, Regs(f, g, h, a, b, c, d, e), start, block);
    }

    method FirstRoundsUnrolled(data: array<bv8>, from: nat, start: Regs<W>) returns (r: Regs<W>)
      requires Ready() && from + alg.Block() <= data.Length && (data == buffer ==> from == 0)
      modifies buffer
      ensures var block := old(data[from..from + alg.Block()]);
              RingHolds(alg, buffer[..], block, 16) && r == AfterRounds(alg, start, block, 16)
    {
      hide Algorithm.Lawful, RingFilled, RingHolds, AfterRounds, Pending;
      Lengths(alg);
      ghost var block := data[from..from + alg.Block()];
      var a, b, c, d, e, f, g, h := start.a, start.b, start.c, start.d, start.e, start.f, start.g, start.h;
      var j := 0;
      ghost var n := 0;
      StartTransform(alg, start, buffer[..], block);
      StartPending(data, from, block);
      while j < 16
        invariant j == 8 * n && n <= 2
        invariant Pending(data, from, j, block)
        invariant RingFilled(alg, buffer[..], block, j)
        invariant Regs(a, b, c, d, e, f, g, h) == AfterRounds(alg, start, block, j)
      {
        a, b, c, d, e, f, g, h := FourTaking(data, from, j, a, b, c, d, e, f, g, h, start, block);
        e, f, g, h, a, b, c, d := FourTaking(data, from, j + 4, e, f, g, h, a, b, c, d, start, block);
        j := j + 8;
        n := n + 1;
      }
      FilledHolds(alg, buffer[..], block);
      r := Regs(a, b, c, d, e, f, g, h);
    }

    /** Eight rounds in a row. */
    method EightExpanding(j: nat, r0: Regs<W>, ghost start: Regs<W>, ghost block: Bytes) returns (r: Regs<W>)
      requires Ready() && 16 <= j && j + 8 <= |alg.k| && |block| == alg.Block() && RingHolds(alg, buffer[..], block, j)
      requires r0 == AfterRounds(alg, start, block, j)
      modifies buffer
      ensures RingHolds(alg, buffer[..], block, j + 8) && r == AfterRounds(alg, start, block, j + 8)
    {
      hide Algorithm.Lawful, RingHolds, AfterRounds;
      var a, b, c, d, e, f, g, h := r0.a, r0.b, r0.c, r0.d, r0.e, r0.f, r0.g, r0.h;
      a, b, c, d, e, f, g, h := FourExpanding(j, a, b, c, d, e, f, g, h, start, block);
      e, f, g, h, a, b, c, d := FourExpanding(j + 4, e, f, g, h, a, b, c, d, start, block);
      r := Regs(a, b, c, d, e, f, g, h);
    }

    method LaterRoundsUnrolled(start: Regs<W>, r16: Regs<W>, ghost block: Bytes) returns (r: Regs<W>)
      requires Ready() && |block| == alg.Block() && RingHolds(alg, buffer[..], block, 16)
      requires r16 == AfterRounds(alg, start, block, 16)
      modifies buffer
      ensures r == AfterRounds(alg, start, block, alg.Rounds())
    {
      hide Algorithm.Lawful, RingHolds, AfterRounds;
      Lengths(alg);
      r := r16;
      var j := 16;
      ghost var n := 0;
      while j < alg.Rounds()
        invariant j == 16 + 8 * n <= alg.Rounds()
        invariant RingHolds(alg, buffer[..], block, j)
        invariant r == AfterRounds(alg, start, block, j)
      {
        r := EightExpanding(j, r, start, block);
        j := j + 8;
        n := n + 1;
      }
    }

    /** The transform with eight rounds written out: the same state as with loops. */
    method TransformUnrolled(data: array<bv8>, from: nat)
      requires Ready() && from + alg.Block() <= data.Length && (data == buffer ==> from == 0)
      modifies this`state, buffer
      ensures state == Compress(alg, old(state), old(data[from..from + alg.Block()]))
    {
      hide Algorithm.Lawful, RingHolds, AfterRounds, AddRegs;
      Lengths(alg);
      ghost var block := data[from..from + alg.Block()];
      var r := FirstRoundsUnrolled(data, from, state);
      r := LaterRoundsUnrolled(state, r, block);
      state := AddRegs(alg, state, r);
    }

    /* ---- Update ---- */

    /** `bitcount += n`, or ADDINC128 where the count has two words: it counted `x` before. */
    method Count(n: nat, ghost x: nat)
      requires n < W64 && low == x % W64 && (alg.wide ==> high == x / W64 % W64)
      modifies this`low, this`high
      ensures low == (x + n) % W64 && (alg.wide ==> high == (x + n) / W64 % W64)
    {
      Carries(x, n);
      low := (low + n) % W64;
      if alg.wide && low < n {
        high := (high + 1) % W64;
      }
    }

    /** `usedspace`. */
    method Used() returns (n: nat)
      requires Valid()
      ensures n == |message| % alg.Block()
    {
      hide Algorithm.Lawful, Fold;
      UsedFromCount(|message|, alg.Block());
      n := low / 8 % alg.Block();
    }

    method Copy(data: array<bv8>, start: nat, n: nat, at: nat)
      requires start + n <= data.Length && at + n <= buffer.Length && data != buffer
      modifies buffer
      ensures buffer[..] == old(buffer[..at]) + data[start..start + n] + old(buffer[at + n..])
    {
      forall i | 0 <= i < n {
        buffer[at + i] := data[start + i];
      }
    }

    /** Bytes that do not fill the buffer are only kept. */
    method Keep(data: array<bv8>, start: nat, n: nat, at: nat)
      requires Valid() && start + n <= data.Length && data != buffer
      requires at == |message| % alg.Block() && at + n < alg.Block()
      modifies this`low, this`high, this`message, buffer
      ensures Valid() && message == old(message) + data[start..start + n]
    {
      hide Algorithm.Lawful, Fold, Whole;
      ghost var more := data[start..start + n];
      Kept(alg, message, more);
      BlockSum(|message|, at, n, alg.Block());
      Copy(data, start, n, at);
      Count(8 * n, 8 * |message|);
      assert 8 * |message| + 8 * n == 8 * |message + more|;
      message := message + more;
      assert buffer[..at + n] == old(buffer[..at]) + more;
    }

    /** The buffer is filled, and compressed from where it is. */
    method Complete(data: array<bv8>, start: nat, at: nat)
      requires Valid() && data != buffer && at == |message| % alg.Block()
      requires start + (alg.Block() - at) <= data.Length
      modifies this`state, this`low, this`high, this`message, buffer
      ensures Valid() && message == old(message) + data[start..start + (alg.Block() - at)]
      ensures |message| % alg.Block() == 0
    {
      hide Algorithm.Lawful, Fold, Whole, Compress;
      var n := alg.Block() - at;
      ghost var more := data[start..start + n];
      Filled(alg, message, more);
      BlockSum(|message|, at, n, alg.Block());
      Copy(data, start, n, at);
      Count(8 * n, 8 * |message|);
      assert 8 * |message| + 8 * n == 8 * |message + more|;
      assert buffer[0..0 + alg.Block()] == old(buffer[..at]) + more;
      Transform(buffer, 0);
      message := message + more;
    }

    /** A whole block is compressed from the data. */
    method TakeBlock(data: array<bv8>, start: nat)
      requires Valid() && data != buffer && |message| % alg.Block() == 0
      requires start + alg.Block() <= data.Length
      modifies this`state, this`low, this`high, this`message, buffer
      ensures Valid() && message == old(message) + data[start..start + alg.Block()]
      ensures |message| % alg.Block() == 0
    {
      hide Algorithm.Lawful, Fold, Whole, Compress;
      ghost var more := data[start..start + alg.Block()];
      Filled(alg, message, more);
      BlockSum(|message|, 0, alg.Block(), alg.Block());
      assert Rest(alg, message) == [] && [] + more == more;
      Transform(data, start);
      Count(8 * alg.Block(), 8 * |message|);
      assert 8 * |message| + 8 * alg.Block() == 8 * |message + more|;
      message := message + more;
    }

    /** The loop of Update over whole blocks, and what is left behind it; the buffer is empty. */
    method TakeBlocks(data: array<bv8>, start: nat, length: nat)
      requires Valid() && data != buffer && start + length <= data.Length && |message| % alg.Block() == 0
      modifies this`state, this`low, this`high, this`message, buffer
      ensures Valid() && message == old(message) + data[start..start + length]
    {
      hide Algorithm.Lawful, Fold, Whole, Valid;
      var from: nat, len: nat := start, length;
      ghost var was, all := message, data[..];
      assert was + all[start..from] == was;
      while len >= alg.Block()
        invariant Valid() && from + len == start + length && start <= from
        invariant |message| % alg.Block() == 0
        invariant message == was + all[start..from]
      {
        assert data[from..from + alg.Block()] == all[from..from + alg.Block()];
        TakeBlock(data, from);
        Sliced(was, all, start, from, from + alg.Block());
        len := len - alg.Block();
        from := from + alg.Block();
      }
      if len > 0 {
        Sliced(was, all, start, from, from + len);
        Keep(data, from, len, 0);
      }
    }

    /** SHA256_Update and SHA512_Update. */
    method Update(data: array<bv8>, start: nat, length: nat)
      requires Valid() && data != buffer && start + length <= data.Length
      modifies this`state, this`low, this`high, this`message, buffer
      ensures Valid() && message == old(message) + data[start..start + length]
    {
      hide Algorithm.Lawful, Fold, Whole, Valid;
      var from: nat, len: nat := start, length;
      ghost var was, all := message, data[..];
      if len == 0 {
        assert data[start..start] == [] && was + [] == was;
        return;
      }
      var usedspace := Used();
      if usedspace > 0 {
        var freespace := alg.Block() - usedspace;
        if len < freespace {
          Keep(data, from, len, usedspace);
          return;
        }
        Complete(data, from, usedspace);
        len := len - freespace;
        from := from + freespace;
        Sliced(was, all, start, from, from + len);
      }
      TakeBlocks(data, from, len);
    }

    /* ---- Final ---- */

    /** MEMSET_BZERO. */
    method Clear(from: nat, upTo: nat)
      requires from <= upTo <= buffer.Length
      modifies buffer
      ensures buffer[..] == old(buffer[..from]) + Repeat(0, upTo - from) + old(buffer[upTo..])
    {
      forall i | from <= i < upTo {
        buffer[i] := 0;
      }
    }

    /** A 64-bit word, reversed where the machine needs it, at byte `at`. */
    method StoreCount(x: nat, at: nat)
      requires at + 8 <= buffer.Length
      modifies buffer
      ensures buffer[..] == old(buffer[..at]) + NumberBytes(x, 8) + old(buffer[at + 8..])
    {
      var b := NumberBytes(x, 8);
      forall i | 0 <= i < 8 {
        buffer[at + i] := b[i];
      }
    }

    /** The bit count goes behind the last byte that can be cleared, over what the clearing left. */
    method StoreLength(ghost n: nat)
      requires buffer.Length == alg.Block()
      requires low == 8 * n % W64 && (alg.wide ==> high == 8 * n / W64 % W64)
      modifies buffer
      ensures buffer[..] == old(buffer[..alg.Short()]) + NumberBytes(8 * n, alg.LengthBytes())
    {
      hide NumberBytes;
      LengthField(n, low, high);
      ghost var was := buffer[..alg.Short()];
      if alg.wide {
        StoreCount(high, alg.Short());
        assert buffer[..alg.Short() + 8] == was + NumberBytes(high, 8);
        StoreCount(low, alg.Short() + 8);
        assert was + NumberBytes(high, 8) + NumberBytes(low, 8) == was + NumberBytes(8 * n, 16);
      } else {
        StoreCount(low, alg.Short());
      }
    }

    /** The last block where the padding fits in one: `used` bytes of the message are in it. */
    method PadOne(used: nat)
      requires Valid() && used == |message| % alg.Block() && used + 1 <= alg.Short()
      modifies buffer
      ensures buffer[..alg.Short()] == Rest(alg, message) + [0x80] + Repeat(0, alg.Short() - used - 1)
    {
      hide Algorithm.Lawful, Fold, Whole;
      ghost var rest := Rest(alg, message);
      var usedspace := used;
      if usedspace > 0 {
        buffer[usedspace] := 0x80;
        usedspace := usedspace + 1;
        assert buffer[..usedspace] == rest + [0x80];
        Clear(usedspace, alg.Short());
      } else {
        Clear(0, alg.Short());
        buffer[0] := 0x80;
        assert Repeat(0, alg.Short())[1..] == Repeat(0, alg.Short() - 1);
        assert buffer[..alg.Short()] == [0x80] + Repeat(0, alg.Short() - 1);
      }
    }

    /** The first of two last blocks: the 0x80 byte, and zeros as far as there is room. */
    method PadTwo(used: nat)
      requires Valid() && used == |message| % alg.Block() && used + 1 > alg.Short()
      modifies buffer
      ensures buffer[..] == Rest(alg, message) + ([0x80] + Repeat(0, alg.Block() - used - 1))
    {
      hide Algorithm.Lawful, Fold, Whole;
      ghost var rest := Rest(alg, message);
      var usedspace := used;
      buffer[usedspace] := 0x80;
      usedspace := usedspace + 1;
      assert buffer[..usedspace] == rest + [0x80];
      if usedspace < alg.Block() {
        Clear(usedspace, alg.Block());
      }
    }

    method LastOne(used: nat)
      requires Valid() && used == |message| % alg.Block() && used + 1 <= alg.Short()
      modifies this`state, buffer
      ensures state == Fold(alg, message + Padding(alg, |message|))
    {
      hide Algorithm.Lawful, Fold, Whole, Compress, NumberBytes, Rest;
      ghost var rest, length := Rest(alg, message), NumberBytes(8 * |message|, alg.LengthBytes());
      OneBlock(alg, message);
      PadOne(used);
      StoreLength(|message|);
      var gap := alg.Short() - used - 1;
      assert rest + [0x80] + Repeat(0, gap) + length == rest + ([0x80] + Repeat(0, gap) + length);
      assert buffer[0..0 + alg.Block()] == buffer[..];
      Transform(buffer, 0);
    }

    /** What the second clearing leaves of the first block is under the length. */
    method LastTwo(used: nat)
      requires Valid() && used == |message| % alg.Block() && used + 1 > alg.Short()
      modifies this`state, buffer
      ensures state == Fold(alg, message + Padding(alg, |message|))
    {
      hide Algorithm.Lawful, Fold, Whole, Compress, NumberBytes, Rest;
      Lengths(alg);
      ghost var length := NumberBytes(8 * |message|, alg.LengthBytes());
      TwoBlocks(alg, message, [0x80] + Repeat(0, alg.Block() - used - 1), Repeat(0, alg.Short()) + length);
      PadTwo(used);
      assert buffer[0..0 + alg.Block()] == buffer[..];
      Transform(buffer, 0);
      Clear(0, alg.lastClear);
      assert buffer[..alg.Short()] == Repeat(0, alg.Short());
      StoreLength(|message|);
      assert buffer[0..0 + alg.Block()] == buffer[..];
      Transform(buffer, 0);
    }

    /** SHA512_Last, and the same steps of SHA256_Final. */
    method Last()
      requires Valid()
      modifies this`state, buffer
      ensures state == Fold(alg, message + Padding(alg, |message|))
    {
      hide Fold, Padding;
      var usedspace := Used();
      if usedspace + 1 <= alg.Short() {
        LastOne(usedspace);
      } else {
        LastTwo(usedspace);
      }
    }

    /** The digest words, most significant byte first. */
    method Write() returns (digest: Bytes)
      requires alg.Lawful()
      ensures alg.digestWords <= 8 && digest == Output(alg, state, alg.digestWords)
    {
      hide Algorithm.Lawful, Output;
      Lengths(alg);
      digest := [];
      var words := [state.a, state.b, state.c, state.d, state.e, state.f, state.g, state.h];
      var j := 0;
      OutputStep(alg, state, 0);
      while j < alg.digestWords
        invariant 0 <= j <= alg.digestWords
        invariant digest == Output(alg, state, j)
      {
        OutputStep(alg, state, j);
        digest := digest + alg.hostBytes(alg.toHost(words[j]));
        j := j + 1;
      }
    }

    /** SHA256_Final, SHA384_Final and SHA512_Final. */
    method Final() returns (digest: Bytes)
      requires Valid()
      modifies this`state, buffer
      ensures alg.digestWords <= 8 && digest == Digest(alg, message)
    {
      hide Algorithm.Lawful, Fold, Output, Padding;
      Last();
      digest := Write();
    }
  }

  /** One more word of output, converted to what the machine stores as big-endian bytes. */
  lemma OutputStep<W(!new)>(alg: Algorithm<W>, r: Regs<W>, j: nat)
    requires alg.Lawful() && j < 8
    ensures Output(alg, r, 0) == []
    ensures Output(alg, r, j + 1) ==
            Output(alg, r, j) + alg.hostBytes(alg.toHost([r.a, r.b, r.c, r.d, r.e, r.f, r.g, r.h][j]))
  {
  }

  /** What the context holds depends on the bytes fed to it, not on how they were split. */
  lemma SplitDoesNotMatter<W(!new)>(c: Context<W>, d: Context<W>)
    requires c.Valid() && d.Valid() && c.alg == d.alg && c.message == d.message
    ensures c.state == d.state && c.low == d.low && (c.alg.wide ==> c.high == d.high)
    ensures c.buffer[..|c.message| % c.alg.Block()] == d.buffer[..|d.message| % d.alg.Block()]
  {
  }

  lemma Sliced(was: Bytes, all: Bytes, a: nat, b: nat, c: nat)
    requires a <= b <= c <= |all|
    ensures was + all[a..b] + all[b..c] == was + all[a..c]
  {
  }

  lemma StartTransform<W(!new)>(alg: Algorithm<W>, r: Regs<W>, ring: Bytes, block: Bytes)
    requires |ring| == |block| == alg.Block()
    ensures RingFilled(alg, ring, block, 0) && AfterRounds(alg, r, block, 0) == r
  {
  }

  /** SHA256_Data and its like, up to the conversion to text. */
  method Hash<W(!new)>(alg: Algorithm<W>, data: array<bv8>) returns (digest: Bytes)
    requires alg.Lawful()
    ensures alg.Rounds() <= |alg.k| && alg.digestWords <= 8 && digest == Digest(alg, data[..])
  {
    hide Algorithm.Lawful, Fold, Output;
    Lengths(alg);
    var context := new Context<W>(alg);
    context.Update(data, 0, data.Length);
    assert context.message == data[..];
    digest := context.Final();
  }
}
