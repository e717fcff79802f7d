/** The functions of SHA-2 bit by bit, as FIPS 180-4 defines them. */
module Sha2Bits {
  import opened Sha2
  import opened Sha2Variants

  /* ---- Functions of 32-bit words, bit by bit (FIPS 180-4 section 4.1.2) ---- */

  predicate Bit32(x: bv32, i: bv6)
    requires i < 32
  {
    (x >> i) & 1 == 1
  }

  /* The operations by name. */

  function Xor32(x: bv32, y: bv32): bv32 { x ^ y }

  function And32(x: bv32, y: bv32): bv32 { x & y }

  function Or32(x: bv32, y: bv32): bv32 { x | y }

  function Not32(x: bv32): bv32 { !x }

  function Down32(n: bv6, x: bv32): bv32
    requires n < 32
  {
    x >> n
  }

  function Up32(n: bv6, x: bv32): bv32
    requires n <= 32
  {
    x << n
  }

  lemma XorIs32(x: bv32, y: bv32)
    ensures Xor32(x, y) == x ^ y
  {
  }

  lemma XorWise32(x: bv32, y: bv32, i: bv6)
    requires i < 32
    ensures Bit32(x ^ y, i) <==> (Bit32(x, i) != Bit32(y, i))
  {
  }

  lemma XorBits32(x: bv32, y: bv32, i: bv6)
    requires i < 32
    ensures Bit32(Xor32(x, y), i) <==> (Bit32(x, i) != Bit32(y, i))
  {
    hide Bit32, Xor32;
    XorIs32(x, y);
    XorWise32(x, y, i);
  }

  lemma AndIs32(x: bv32, y: bv32)
    ensures And32(x, y) == x & y
  {
  }

  lemma AndWise32(x: bv32, y: bv32, i: bv6)
    requires i < 32
    ensures Bit32(x & y, i) <==> Bit32(x, i) && Bit32(y, i)
  {
  }

  lemma AndBits32(x: bv32, y: bv32, i: bv6)
    requires i < 32
    ensures Bit32(And32(x, y), i) <==> Bit32(x, i) && Bit32(y, i)
  {
    hide Bit32, And32;
    AndIs32(x, y);
    AndWise32(x, y, i);
  }

  lemma OrIs32(x: bv32, y: bv32)
    ensures Or32(x, y) == x | y
  {
  }

  lemma OrWise32(x: bv32, y: bv32, i: bv6)
    requires i < 32
    ensures Bit32(x | y, i) <==> Bit32(x, i) || Bit32(y, i)
  {
  }

  lemma OrBits32(x: bv32, y: bv32, i: bv6)
    requires i < 32
    ensures Bit32(Or32(x, y), i) <==> Bit32(x, i) || Bit32(y, i)
  {
    hide Bit32, Or32;
    OrIs32(x, y);
    OrWise32(x, y, i);
  }

  lemma NotBits32(x: bv32, i: bv6)
    requires i < 32
    ensures Bit32(Not32(x), i) <==> !Bit32(x, i)
  {
  }

  lemma DownKept32(n: bv6, x: bv32, i: bv6)
    requires n < 32 && i < 32 - n
    ensures Bit32(x >> n, i) <==> Bit32(x, i + n)
  {
  }

  lemma DownLost32(n: bv6, x: bv32, i: bv6)
    requires n < 32 && 32 - n <= i < 32
    ensures !Bit32(x >> n, i)
  {
  }

  lemma DownBits32(n: bv6, x: bv32, i: bv6)
    requires n < 32 && i < 32
    ensures Bit32(Down32(n, x), i) <==> i < 32 - n && Bit32(x, i + n)
  {
    hide Bit32;
    if i < 32 - n {
      DownKept32(n, x, i);
    } else {
      DownLost32(n, x, i);
    }
  }

  lemma UpKept32(n: bv6, x: bv32, i: bv6)
    requires n <= i < 32
    ensures Bit32(x << n, i) <==> Bit32(x, i - n)
  {
  }

  lemma UpLost32(n: bv6, x: bv32, i: bv6)
    requires n <= 32 && i < n && i < 32
    ensures !Bit32(x << n, i)
  {
  }

  lemma UpBits32(n: bv6, x: bv32, i: bv6)
    requires n <= 32 && i < 32
    ensures Bit32(Up32(n, x), i) <==> n <= i && Bit32(x, i - n)
  {
    hide Bit32;
    if n <= i {
      UpKept32(n, x, i);
    } else {
      UpLost32(n, x, i);
    }
  }

  lemma RotatedIs32(n: bv6, x: bv32)
    requires n < 32
    ensures S32(n, x) == Or32(Down32(n, x), Up32(32 - n, x))
  {
    hide Or32, S32;
    ShiftedIs32(n, x);
  }

  lemma ShiftedIs32(n: bv6, x: bv32)
    requires n < 32
    ensures S32(n, x) == Or32(x >> n, x << (32 - n))
  {
    hide Or32;
    OrIs32(x >> n, x << (32 - n));
  }

  lemma Around32(n: bv6, i: bv6)
    requires n < 32 && i < 32
    ensures i < 32 - n ==> (i + n) % 32 == i + n && !(32 - n <= i)
    ensures i >= 32 - n ==> (i + n) % 32 == i - (32 - n)
  {
  }

  /** Bit `i` of a word rotated by `n` is its bit `i + n`, counted around. */
  lemma RotatedBits32(n: bv6, x: bv32, i: bv6)
    requires n < 32 && i < 32
    ensures Bit32(S32(n, x), i) <==> Bit32(x, (i + n) % 32)
  {
    hide Bit32, S32, Or32, Down32, Up32;
    RotatedIs32(n, x);
    OrBits32(Down32(n, x), Up32(32 - n, x), i);
    DownBits32(n, x, i);
    UpBits32(32 - n, x, i);
    Around32(n, i);
  }

  lemma ChIs32(x: bv32, y: bv32, z: bv32)
    ensures Ch32(x, y, z) == Xor32(And32(x, y), And32(Not32(x), z))
  {
  }

  /** Each bit of `x` chooses between those of `y` and `z`. */
  lemma ChBits32(x: bv32, y: bv32, z: bv32, i: bv6)
    requires i < 32
    ensures Bit32(Ch32(x, y, z), i) <==> if Bit32(x, i) then Bit32(y, i) else Bit32(z, i)
  {
    hide Bit32, Ch32, Xor32, And32, Not32;
    ChIs32(x, y, z);
    XorBits32(And32(x, y), And32(Not32(x), z), i);
    AndBits32(x, y, i);
    AndBits32(Not32(x), z, i);
    NotBits32(x, i);
  }

  lemma XorTwice32(x: bv32, y: bv32, z: bv32)
    ensures Xor32(Xor32(x, y), z) == x ^ y ^ z
  {
  }

  lemma MajIs32(x: bv32, y: bv32, z: bv32)
    ensures Maj32(x, y, z) == Xor32(Xor32(And32(x, y), And32(x, z)), And32(y, z))
  {
    hide Xor32, And32;
    XorTwice32(x & y, x & z, y & z);
    AndIs32(x, y);
    AndIs32(x, z);
    AndIs32(y, z);
  }

  /** Each bit is that of at least two of the three words. */
  lemma MajBits32(x: bv32, y: bv32, z: bv32, i: bv6)
    requires i < 32
    ensures Bit32(Maj32(x, y, z), i) <==>
            (Bit32(x, i) && Bit32(y, i)) || (Bit32(x, i) && Bit32(z, i)) || (Bit32(y, i) && Bit32(z, i))
  {
    hide Bit32, Maj32, Xor32, And32;
    MajIs32(x, y, z);
    XorBits32(Xor32(And32(x, y), And32(x, z)), And32(y, z), i);
    XorBits32(And32(x, y), And32(x, z), i);
    AndBits32(x, y, i);
    AndBits32(x, z, i);
    AndBits32(y, z, i);
  }

  lemma BigSigma0_256Bits(x: bv32, i: bv6)
    requires i < 32
    ensures Bit32(BigSigma0_256(x), i) <==>
            (Bit32(x, (i + 2) % 32) != Bit32(x, (i + 13) % 32)) != Bit32(x, (i + 22) % 32)
  {
    hide Bit32, BigSigma0_256, S32, Xor32, Down32;
    BigSigma0_256Is(x);
    var first, second, third := S32(2, x), S32(13, x), S32(22, x);
    XorBits32(Xor32(first, second), third, i);
    XorBits32(first, second, i);
    RotatedBits32(2, x, i);
    RotatedBits32(13, x, i);
    RotatedBits32(22, x, i);
  }

  lemma BigSigma0_256Is(x: bv32)
    ensures BigSigma0_256(x) == Xor32(Xor32(S32(2, x), S32(13, x)), S32(22, x))
  {
    hide S32, Xor32;
    XorTwice32(S32(2, x), S32(13, x), S32(22, x));
  }

  lemma BigSigma1_256Bits(x: bv32, i: bv6)
    requires i < 32
    ensures Bit32(BigSigma1_256(x), i) <==>
            (Bit32(x, (i + 6) % 32) != Bit32(x, (i + 11) % 32)) != Bit32(x, (i + 25) % 32)
  {
    hide Bit32, BigSigma1_256, S32, Xor32, Down32;
    BigSigma1_256Is(x);
    var first, second, third := S32(6, x), S32(11, x), S32(25, x);
    XorBits32(Xor32(first, second), third, i);
    XorBits32(first, second, i);
    RotatedBits32(6, x, i);
    RotatedBits32(11, x, i);
    RotatedBits32(25, x, i);
  }

  lemma BigSigma1_256Is(x: bv32)
    ensures BigSigma1_256(x) == Xor32(Xor32(S32(6, x), S32(11, x)), S32(25, x))
  {
    hide S32, Xor32;
    XorTwice32(S32(6, x), S32(11, x), S32(25, x));
  }

  lemma Sigma0_256Bits(x: bv32, i: bv6)
    requires i < 32
    ensures Bit32(Sigma0_256(x), i) <==>
            (Bit32(x, (i + 7) % 32) != Bit32(x, (i + 18) % 32)) != (i < 29 && Bit32(x, i + 3))
  {
    hide Bit32, Sigma0_256, S32, Xor32, Down32;
    Sigma0_256Is(x);
    var first, second, third := S32(7, x), S32(18, x), Down32(3, x);
    XorBits32(Xor32(first, second), third, i);
    XorBits32(first, second, i);
    RotatedBits32(7, x, i);
    RotatedBits32(18, x, i);
    DownBits32(3, x, i);
  }

  lemma Sigma0_256Is(x: bv32)
    ensures Sigma0_256(x) == Xor32(Xor32(S32(7, x), S32(18, x)), Down32(3, x))
  {
    hide S32, Xor32, Sigma0_256;
    Sigma0_256Shifts(x);
  }

  lemma Sigma0_256Shifts(x: bv32)
    ensures Sigma0_256(x) == Xor32(Xor32(S32(7, x), S32(18, x)), x >> 3)
  {
    hide S32, Xor32;
    XorTwice32(S32(7, x), S32(18, x), x >> 3);
  }

  lemma Sigma1_256Bits(x: bv32, i: bv6)
    requires i < 32
    ensures Bit32(Sigma1_256(x), i) <==>
            (Bit32(x, (i + 17) % 32) != Bit32(x, (i + 19) % 32)) != (i < 22 && Bit32(x, i + 10))
  {
    hide Bit32, Sigma1_256, S32, Xor32, Down32;
    Sigma1_256Is(x);
    var first, second, third := S32(17, x), S32(19, x), Down32(10, x);
    XorBits32(Xor32(first, second), third, i);
    XorBits32(first, second, i);
    RotatedBits32(17, x, i);
    RotatedBits32(19, x, i);
    DownBits32(10, x, i);
  }

  lemma Sigma1_256Is(x: bv32)
    ensures Sigma1_256(x) == Xor32(Xor32(S32(17, x), S32(19, x)), Down32(10, x))
  {
    hide S32, Xor32, Sigma1_256;
    Sigma1_256Shifts(x);
  }

  lemma Sigma1_256Shifts(x: bv32)
    ensures Sigma1_256(x) == Xor32(Xor32(S32(17, x), S32(19, x)), x >> 10)
  {
    hide S32, Xor32;
    XorTwice32(S32(17, x), S32(19, x), x >> 10);
  }

  /* ---- Functions of 64-bit words, bit by bit (FIPS 180-4 section 4.1.3) ---- */

  predicate Bit64(x: bv64, i: bv7)
    requires i < 64
  {
    (x >> i) & 1 == 1
  }

  /* The operations by name. */

  function Xor64(x: bv64, y: bv64): bv64 { x ^ y }

  function And64(x: bv64, y: bv64): bv64 { x & y }

  function Or64(x: bv64, y: bv64): bv64 { x | y }

  function Not64(x: bv64): bv64 { !x }

  function Down64(n: bv7, x: bv64): bv64
    requires n < 64
  {
    x >> n
  }

  function Up64(n: bv7, x: bv64): bv64
    requires n <= 64
  {
    x << n
  }

  lemma XorIs64(x: bv64, y: bv64)
    ensures Xor64(x, y) == x ^ y
  {
  }

  lemma XorWise64(x: bv64, y: bv64, i: bv7)
    requires i < 64
    ensures Bit64(x ^ y, i) <==> (Bit64(x, i) != Bit64(y, i))
  {
  }

  lemma XorBits64(x: bv64, y: bv64, i: bv7)
    requires i < 64
    ensures Bit64(Xor64(x, y), i) <==> (Bit64(x, i) != Bit64(y, i))
  {
    hide Bit64, Xor64;
    XorIs64(x, y);
    XorWise64(x, y, i);
  }

  lemma AndIs64(x: bv64, y: bv64)
    ensures And64(x, y) == x & y
  {
  }

  lemma AndWise64(x: bv64, y: bv64, i: bv7)
    requires i < 64
    ensures Bit64(x & y, i) <==> Bit64(x, i) && Bit64(y, i)
  {
  }

  lemma AndBits64(x: bv64, y: bv64, i: bv7)
    requires i < 64
    ensures Bit64(And64(x, y), i) <==> Bit64(x, i) && Bit64(y, i)
  {
    hide Bit64, And64;
    AndIs64(x, y);
    AndWise64(x, y, i);
  }

  lemma OrIs64(x: bv64, y: bv64)
    ensures Or64(x, y) == x | y
  {
  }

  lemma OrWise64(x: bv64, y: bv64, i: bv7)
    requires i < 64
    ensures Bit64(x | y, i) <==> Bit64(x, i) || Bit64(y, i)
  {
  }

  lemma OrBits64(x: bv64, y: bv64, i: bv7)
    requires i < 64
    ensures Bit64(Or64(x, y), i) <==> Bit64(x, i) || Bit64(y, i)
  {
    hide Bit64, Or64;
    OrIs64(x, y);
    OrWise64(x, y, i);
  }

  lemma NotBits64(x: bv64, i: bv7)
    requires i < 64
    ensures Bit64(Not64(x), i) <==> !Bit64(x, i)
  {
  }

  lemma DownKept64(n: bv7, x: bv64, i: bv7)
    requires n < 64 && i < 64 - n
    ensures Bit64(x >> n, i) <==> Bit64(x, i + n)
  {
    hide Bit64;
    if n < 16 {
      DownFew64(n, x, i);
    } else if n < 32 {
      DownSome64(n, x, i);
    } else {
      DownMany64(n, x, i);
    }
  }

  lemma DownFew64(n: bv7, x: bv64, i: bv7)
    requires n < 16 && n < 64 && i < 64 - n
    ensures Bit64(x >> n, i) <==> Bit64(x, i + n)
  {
  }

  lemma DownSome64(n: bv7, x: bv64, i: bv7)
    requires 16 <= n < 32 && n < 64 && i < 64 - n
    ensures Bit64(x >> n, i) <==> Bit64(x, i + n)
  {
  }

  lemma DownMany64(n: bv7, x: bv64, i: bv7)
    requires 32 <= n && n < 64 && i < 64 - n
    ensures Bit64(x >> n, i) <==> Bit64(x, i + n)
  {
  }

  lemma DownLost64(n: bv7, x: bv64, i: bv7)
    requires n < 64 && 64 - n <= i < 64
    ensures !Bit64(x >> n, i)
  {
  }

  lemma DownBits64(n: bv7, x: bv64, i: bv7)
    requires n < 64 && i < 64
    ensures Bit64(Down64(n, x), i) <==> i < 64 - n && Bit64(x, i + n)
  {
    hide Bit64;
    if i < 64 - n {
      DownKept64(n, x, i);
    } else {
      DownLost64(n, x, i);
    }
  }

  lemma UpKept64(n: bv7, x: bv64, i: bv7)
    requires n <= i < 64
    ensures Bit64(x << n, i) <==> Bit64(x, i - n)
  {
    hide Bit64;
    if n < 16 {
      UpFew64(n, x, i);
    } else if n < 32 {
      UpSome64(n, x, i);
    } else {
      UpMany64(n, x, i);
    }
  }

  lemma UpFew64(n: bv7, x: bv64, i: bv7)
    requires n < 16 && n <= i < 64
    ensures Bit64(x << n, i) <==> Bit64(x, i - n)
  {
  }

  lemma UpSome64(n: bv7, x: bv64, i: bv7)
    requires 16 <= n < 32 && n <= i < 64
    ensures Bit64(x << n, i) <==> Bit64(x, i - n)
  {
  }

  lemma UpMany64(n: bv7, x: bv64, i: bv7)
    requires 32 <= n && n <= i < 64
    ensures Bit64(x << n, i) <==> Bit64(x, i - n)
  {
  }

  lemma UpLost64(n: bv7, x: bv64, i: bv7)
    requires n <= 64 && i < n && i < 64
    ensures !Bit64(x << n, i)
  {
  }

  lemma UpBits64(n: bv7, x: bv64, i: bv7)
    requires n <= 64 && i < 64
    ensures Bit64(Up64(n, x), i) <==> n <= i && Bit64(x, i - n)
  {
    hide Bit64;
    if n <= i {
      UpKept64(n, x, i);
    } else {
      UpLost64(n, x, i);
    }
  }

  lemma RotatedIs64(n: bv7, x: bv64)
    requires n < 64
    ensures S64(n, x) == Or64(Down64(n, x), Up64(64 - n, x))
  {
    hide Or64, S64;
    ShiftedIs64(n, x);
  }

  lemma ShiftedIs64(n: bv7, x: bv64)
    requires n < 64
    ensures S64(n, x) == Or64(x >> n, x << (64 - n))
  {
    hide Or64;
    OrIs64(x >> n, x << (64 - n));
  }

  lemma Around64(n: bv7, i: bv7)
    requires n < 64 && i < 64
    ensures i < 64 - n ==> (i + n) % 64 == i + n && !(64 - n <= i)
    ensures i >= 64 - n ==> (i + n) % 64 == i - (64 - n)
  {
  }

  /** Bit `i` of a word rotated by `n` is its bit `i + n`, counted around. */
  lemma RotatedBits64(n: bv7, x: bv64, i: bv7)
    requires n < 64 && i < 64
    ensures Bit64(S64(n, x), i) <==> Bit64(x, (i + n) % 64)
  {
    hide Bit64, S64, Or64, Down64, Up64;
    RotatedIs64(n, x);
    OrBits64(Down64(n, x), Up64(64 - n, x), i);
    DownBits64(n, x, i);
    UpBits64(64 - n, x, i);
    Around64(n, i);
  }

  lemma ChIs64(x: bv64, y: bv64, z: bv64)
    ensures Ch64(x, y, z) == Xor64(And64(x, y), And64(Not64(x), z))
  {
  }

  /** Each bit of `x` chooses between those of `y` and `z`. */
  lemma ChBits64(x: bv64, y: bv64, z: bv64, i: bv7)
    requires i < 64
    ensures Bit64(Ch64(x, y, z), i) <==> if Bit64(x, i) then Bit64(y, i) else Bit64(z, i)
  {
    hide Bit64, Ch64, Xor64, And64, Not64;
    ChIs64(x, y, z);
    XorBits64(And64(x, y), And64(Not64(x), z), i);
    AndBits64(x, y, i);
    AndBits64(Not64(x), z, i);
    NotBits64(x, i);
  }

  lemma XorTwice64(x: bv64, y: bv64, z: bv64)
    ensures Xor64(Xor64(x, y), z) == x ^ y ^ z
  {
  }

  lemma MajIs64(x: bv64, y: bv64, z: bv64)
    ensures Maj64(x, y, z) == Xor64(Xor64(And64(x, y), And64(x, z)), And64(y, z))
  {
    hide Xor64, And64;
    XorTwice64(x & y, x & z, y & z);
    AndIs64(x, y);
    AndIs64(x, z);
    AndIs64(y, z);
  }

  /** Each bit is that of at least two of the three words. */
  lemma MajBits64(x: bv64, y: bv64, z: bv64, i: bv7)
    requires i < 64
    ensures Bit64(Maj64(x, y, z), i) <==>
            (Bit64(x, i) && Bit64(y, i)) || (Bit64(x, i) && Bit64(z, i)) || (Bit64(y, i) && Bit64(z, i))
  {
    hide Bit64, Maj64, Xor64, And64;
    MajIs64(x, y, z);
    XorBits64(Xor64(And64(x, y), And64(x, z)), And64(y, z), i);
    XorBits64(And64(x, y), And64(x, z), i);
    AndBits64(x, y, i);
    AndBits64(x, z, i);
    AndBits64(y, z, i);
  }

  lemma BigSigma0_512Bits(x: bv64, i: bv7)
    requires i < 64
    ensures Bit64(BigSigma0_512(x), i) <==>
            (Bit64(x, (i + 28) % 64) != Bit64(x, (i + 34) % 64)) != Bit64(x, (i + 39) % 64)
  {
    hide Bit64, BigSigma0_512, S64, Xor64, Down64;
    BigSigma0_512Is(x);
    var first, second, third := S64(28, x), S64(34, x), S64(39, x);
    XorBits64(Xor64(first, second), third, i);
    XorBits64(first, second, i);
    RotatedBits64(28, x, i);
    RotatedBits64(34, x, i);
    RotatedBits64(39, x, i);
  }

  lemma BigSigma0_512Is(x: bv64)
    ensures BigSigma0_512(x) == Xor64(Xor64(S64(28, x), S64(34, x)), S64(39, x))
  {
    hide S64, Xor64;
    XorTwice64(S64(28, x), S64(34, x), S64(39, x));
  }

  lemma BigSigma1_512Bits(x: bv64, i: bv7)
    requires i < 64
    ensures Bit64(BigSigma1_512(x), i) <==>
            (Bit64(x, (i + 14) % 64) != Bit64(x, (i + 18) % 64)) != Bit64(x, (i + 41) % 64)
  {
    hide Bit64, BigSigma1_512, S64, Xor64, Down64;
    BigSigma1_512Is(x);
    var first, second, third := S64(14, x), S64(18, x), S64(41, x);
    XorBits64(Xor64(first, second), third, i);
    XorBits64(first, second, i);
    RotatedBits64(14, x, i);
    RotatedBits64(18, x, i);
    RotatedBits64(41, x, i);
  }

  lemma BigSigma1_512Is(x: bv64)
    ensures BigSigma1_512(x) == Xor64(Xor64(S64(14, x), S64(18, x)), S64(41, x))
  {
    hide S64, Xor64;
    XorTwice64(S64(14, x), S64(18, x), S64(41, x));
  }

  lemma Sigma0_512Bits(x: bv64, i: bv7)
    requires i < 64
    ensures Bit64(Sigma0_512(x), i) <==>
            (Bit64(x, (i + 1) % 64) != Bit64(x, (i + 8) % 64)) != (i < 57 && Bit64(x, i + 7))
  {
    hide Bit64, Sigma0_512, S64, Xor64, Down64;
    Sigma0_512Is(x);
    var first, second, third := S64(1, x), S64(8, x), Down64(7, x);
    XorBits64(Xor64(first, second), third, i);
    XorBits64(first, second, i);
    RotatedBits64(1, x, i);
    RotatedBits64(8, x, i);
    DownBits64(7, x, i);
  }

  lemma Sigma0_512Is(x: bv64)
    ensures Sigma0_512(x) == Xor64(Xor64(S64(1, x), S64(8, x)), Down64(7, x))
  {
    hide S64, Xor64, Sigma0_512;
    Sigma0_512Shifts(x);
  }

  lemma Sigma0_512Shifts(x: bv64)
    ensures Sigma0_512(x) == Xor64(Xor64(S64(1, x), S64(8, x)), x >> 7)
  {
    hide S64, Xor64;
    XorTwice64(S64(1, x), S64(8, x), x >> 7);
  }

  lemma Sigma1_512Bits(x: bv64, i: bv7)
    requires i < 64
    ensures Bit64(Sigma1_512(x), i) <==>
            (Bit64(x, (i + 19) % 64) != Bit64(x, (i + 61) % 64)) != (i < 58 && Bit64(x, i + 6))
  {
    hide Bit64, Sigma1_512, S64, Xor64, Down64;
    Sigma1_512Is(x);
    var first, second, third := S64(19, x), S64(61, x), Down64(6, x);
    XorBits64(Xor64(first, second), third, i);
    XorBits64(first, second, i);
    RotatedBits64(19, x, i);
    RotatedBits64(61, x, i);
    DownBits64(6, x, i);
  }

  lemma Sigma1_512Is(x: bv64)
    ensures Sigma1_512(x) == Xor64(Xor64(S64(19, x), S64(61, x)), Down64(6, x))
  {
    hide S64, Xor64, Sigma1_512;
    Sigma1_512Shifts(x);
  }

  lemma Sigma1_512Shifts(x: bv64)
    ensures Sigma1_512(x) == Xor64(Xor64(S64(19, x), S64(61, x)), x >> 6)
  {
    hide S64, Xor64;
    XorTwice64(S64(19, x), S64(61, x), x >> 6);
  }
}
