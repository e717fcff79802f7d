/** Bytes, result codes and big-endian integers shared by the DNS encoder and decoder. */
module Wire {

  type byte = b: int | 0 <= b < 256

  type Bytes = seq<byte>

  type uint16 = n: int | 0 <= n < 0x1_0000

  type uint32 = n: int | 0 <= n < 0x1_0000_0000

  /** The failure codes the codec returns, plus two outcomes of the model itself:
      `Overrun` where the C code would touch a byte outside its block without checking,
      and `Unmodelled` for a record type whose body this model does not describe. */
  datatype Rcode =
    | FormatError
    | NameError
    | NotImplemented
    | NoMemory
    | BadString
    | Overrun
    | Unmodelled

  datatype Result<+T> = Ok(value: T) | Err(rc: Rcode) {
    predicate IsFailure() {
      Err?
    }

    function PropagateFailure<U>(): Result<U>
      requires Err?
    {
      Err(rc)
    }

    function Extract(): T
      requires Ok?
    {
      value
    }
  }

  /** What a method that fills a buffer returns. */
  datatype Status = Okay | Failed(rc: Rcode)

  /** Most significant byte first. */
  function U16(n: uint16): Bytes {
    [n / 256, n % 256]
  }

  function U32(n: uint32): Bytes {
    [n / 0x100_0000, n / 0x1_0000 % 256, n / 256 % 256, n % 256]
  }

  function GetU16(b: Bytes): uint16
    requires |b| == 2
  {
    b[0] as int * 256 + b[1]
  }

  function GetU32(b: Bytes): uint32
    requires |b| == 4
  {
    b[0] as int * 0x100_0000 + b[1] as int * 0x1_0000 + b[2] as int * 256 + b[3]
  }

  lemma U16RoundTrip(n: uint16)
    ensures GetU16(U16(n)) == n
  {
  }

  lemma U32RoundTrip(m: uint32)
    ensures GetU32(U32(m)) == m
  {
    var high: uint16, low: uint16 := m / 0x1_0000, m % 0x1_0000;
    Halves(m, high, low);
    U16RoundTrip(high);
    U16RoundTrip(low);
    assert GetU32(U32(m)) == GetU16(U16(high)) as int * 0x1_0000 + GetU16(U16(low));
  }

  /** The four bytes of a number are those of its halves. */
  lemma Halves(m: uint32, high: uint16, low: uint16)
    requires m == high as int * 0x1_0000 + low
    ensures U32(m) == U16(high) + U16(low)
  {
    var a, b, c, d := high / 256, high % 256, low / 256, low % 256;
    assert m == 0x100_0000 * a + 0x1_0000 * b + 256 * c + d;
    assert m / 0x100_0000 == a && m / 0x1_0000 == 256 * a + b && m / 256 == 0x1_0000 * a + 256 * b + c;
  }

  /** `b` occurs in `p` at offset `at`. */
  ghost predicate Has(p: Bytes, at: nat, b: Bytes) {
    at + |b| <= |p| && forall j :: 0 <= j < |b| ==> b[j] == p[at + j]
  }

  lemma HasParts(p: Bytes, at: nat, a: Bytes, b: Bytes)
    requires Has(p, at, a + b)
    ensures Has(p, at, a) && Has(p, at + |a|, b)
  {
    forall j | 0 <= j < |a| ensures a[j] == p[at + j] {
      assert (a + b)[j] == a[j];
    }
    forall j | 0 <= j < |b| ensures b[j] == p[at + |a| + j] {
      assert (a + b)[|a| + j] == b[j];
    }
  }

  lemma HasSlice(p: Bytes, at: nat, b: Bytes)
    ensures Has(p, at, b) <==> at + |b| <= |p| && p[at..at + |b|] == b
  {
    if at + |b| <= |p| && p[at..at + |b|] == b {
      forall j | 0 <= j < |b| ensures b[j] == p[at + j] {
        assert p[at..at + |b|][j] == b[j];
      }
    }
  }
}
