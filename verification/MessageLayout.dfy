/** Where the parts of a whole message stand in its packet (RFC 1035 section 4.1), and one message
    written out byte by byte. */
module MessageLayouts {
  import opened Wire
  import opened Names
  import opened Records
  import opened Messages
  import opened RoundTrips
  import opened Layouts

  /* ---- Messages ---- */

  function Weight(b: bool, weight: nat): nat {
    if b then weight else 0
  }

  /** The twelve bytes of the header, and the entries behind them. */
  lemma HeaderWritten(m: Message, size: nat, p: Bytes)
    requires ValidMessage(m) && 12 <= size && Encode(m, size) == Ok(p)
    ensures 12 <= |p| <= size && Two(p, 0) == m.id
    ensures var f := m.flags;
            && p[2] == Weight(f.response, 128) + 8 * m.opcode + Weight(f.aa, 4) + Weight(f.tc, 2) + Weight(f.rd, 1)
            && p[3] == Weight(f.ra, 128) + Weight(f.z, 64) + Weight(f.ad, 32) + Weight(f.cd, 16) + m.rcode
    ensures Two(p, 4) == |m.questions| && Two(p, 6) == |m.answers|
    ensures Two(p, 8) == |m.nameservers| && Two(p, 10) == |m.additional|
    ensures EncodeEntries(12, [], size - 12, Entries(m)).Ok?
    ensures p[12..] == EncodeEntries(12, [], size - 12, Entries(m)).value.bytes
  {
    hide EncodeEntries, Entries;
    var h, c := Header(m), EncodeEntries(12, [], size - 12, Entries(m)).value;
    assert p == h + c.bytes;
    assert forall i :: 0 <= i < 12 ==> p[i] == h[i];
    HeaderBytes(m);
  }

  lemma HeaderBytes(m: Message)
    requires ValidMessage(m)
    ensures var h := Header(m);
            && Two(h, 0) == m.id && h[2] == OpcodeByte(m.flags, m.opcode) && h[3] == RcodeByte(m.flags, m.rcode)
            && Two(h, 4) == |m.questions| && Two(h, 6) == |m.answers|
            && Two(h, 8) == |m.nameservers| && Two(h, 10) == |m.additional|
  {
    hide OpcodeByte, RcodeByte;
  }

  /** The entries of a message are its questions, answers, name servers and additional records, each
      section in its order, and these in this order. */
  lemma SectionsInOrder(m: Message, i: nat)
    ensures var q, a, n, r := |m.questions|, |m.answers|, |m.nameservers|, |m.additional|;
            && |Entries(m)| == q + a + n + r
            && (i < q ==> Entries(m)[i] == Ask(m.questions[i]))
            && (i < a ==> Entries(m)[q + i] == Record(m.answers[i]))
            && (i < n ==> Entries(m)[q + a + i] == Record(m.nameservers[i]))
            && (i < r ==> Entries(m)[q + a + n + i] == Record(m.additional[i]))
  {
  }

  /** A byte is its highest bit, the four below it, and the three lowest. */
  lemma OpcodeBits(b: byte)
    ensures b == Weight(b / 128 == 1, 128) + 8 * (b / 8 % 16) + Weight(b / 4 % 2 == 1, 4)
                 + Weight(b / 2 % 2 == 1, 2) + Weight(b % 2 == 1, 1)
  {
    var h := b / 8;
    assert b == 8 * h + b % 8 && h == 16 * (h / 16) + h % 16 && b / 128 == h / 16;
    var l := b / 4;
    var k := b / 2;
    assert b == 4 * l + b % 4 && b == 2 * k + b % 2 && k == 2 * l + k % 2 && l == 2 * h + l % 2;
  }

  /** A byte is its four highest bits, and the four lowest. */
  lemma RcodeBits(b: byte)
    ensures b == Weight(b / 128 == 1, 128) + Weight(b / 64 % 2 == 1, 64) + Weight(b / 32 % 2 == 1, 32)
                 + Weight(b / 16 % 2 == 1, 16) + b % 16
  {
    var h := b / 16;
    var g := b / 32;
    var f := b / 64;
    assert b == 16 * h + b % 16 && h == 2 * g + h % 2 && g == 2 * f + g % 2 && f == 2 * (b / 128) + f % 2;
  }

  /** What a header is decoded as, and how many entries follow it in each section. */
  lemma HeaderRead(p: Bytes, room: nat)
    ensures |p| < 12 ==> Decode(p, room) == Err(FormatError)
    ensures Decode(p, room).Ok? ==>
              var m := Decode(p, room).value;
              var r := DecodeEntries(p, 12, room, Kinds(Two(p, 4), Two(p, 6) + Two(p, 8) + Two(p, 10)));
              var f := m.flags;
              && m.id == Two(p, 0)
              && p[2] == Weight(f.response, 128) + 8 * m.opcode + Weight(f.aa, 4) + Weight(f.tc, 2) + Weight(f.rd, 1)
              && p[3] == Weight(f.ra, 128) + Weight(f.z, 64) + Weight(f.ad, 32) + Weight(f.cd, 16) + m.rcode
              && |m.questions| == Two(p, 4) && |m.answers| == Two(p, 6)
              && |m.nameservers| == Two(p, 8) && |m.additional| == Two(p, 10)
              && r.Ok? && r.value.value == Entries(m)
  {
    hide Decode, DecodeEntries, Entries, Kinds, N16, Two, Weight;
    if |p| < 12 {
      TooShort(p, room);
    } else if Decode(p, room).Ok? {
      forall i | i in {0, 4, 6, 8, 10} ensures N16(p, i) == Two(p, i) {
        NumbersAre(p, i);
      }
      DecodedEntries(p, room, Kinds(N16(p, 4), N16(p, 6) + N16(p, 8) + N16(p, 10)));
      OpcodeBits(p[2]);
      RcodeBits(p[3]);
    }
  }

  lemma TooShort(p: Bytes, room: nat)
    requires |p| < 12
    ensures Decode(p, room) == Err(FormatError)
  {
  }
}
