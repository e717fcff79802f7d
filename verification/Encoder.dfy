/** The encoder as it runs: one packet buffer filled from the front, and the table of suffixes. */
module Encoders {
  import opened Options
  import opened Wire
  import opened Names
  import opened Records
  import opened Messages

  /** A table entry keeps the text itself; its place in the packet is an offset. */
  datatype Suffix = Suffix(text: Bytes, offset: nat)

  /** The table as the specification sees it, each text cut into labels. */
  function Table(suffixes: seq<Suffix>): (segs: seq<Segment>)
    ensures |segs| == |suffixes|
  {
    seq(|suffixes|, i requires 0 <= i < |suffixes| => Segment(Parse(suffixes[i].text), suffixes[i].offset))
  }

  /** Two texts are equal when they parse alike, so strcmp finds what the specification finds. */
  lemma SameText(s: Bytes, t: Bytes)
    ensures s == t <==> Parse(s) == Parse(t)
  {
    TextOfParse(s);
    TextOfParse(t);
  }

  lemma TableMore(suffixes: seq<Suffix>, s: Suffix)
    ensures Table(suffixes + [s]) == Table(suffixes) + [Segment(Parse(s.text), s.offset)]
  {
  }

  /** `r`, with `done` written ahead of it. */
  function After(done: Bytes, r: Result<Chunk>): Result<Chunk> {
    if r.Err? then r else Ok(Chunk(done + r.value.bytes, r.value.segs))
  }

  lemma AfterAfter(a: Bytes, b: Bytes, r: Result<Chunk>)
    ensures After(a, After(b, r)) == After(a + b, r)
    ensures After([], r) == r
  {
    if r.Ok? {
      assert a + (b + r.value.bytes) == (a + b) + r.value.bytes;
      assert [] + r.value.bytes == r.value.bytes;
    }
  }

  /** One field of several. */
  lemma FieldStep(at: nat, segs: seq<Segment>, room: nat, f: Field, rest: Fields)
    ensures var r := EncodeField(at, segs, room, f);
            EncodeFields(at, segs, room, More(f, rest)) ==
            if r.Err? then r
            else After(r.value.bytes, EncodeFields(at + |r.value.bytes|, r.value.segs, room - |r.value.bytes|, rest))
  {
  }

  class Encoder {
    const packet: array<byte>
    var pos: nat
    var suffixes: seq<Suffix>

    ghost predicate Valid()
      reads this
    {
      pos <= packet.Length && |suffixes| <= MAXSEG
    }

    /** What has been written so far. */
    ghost function Written(): Bytes
      reads this, packet
      requires Valid()
    {
      packet[..pos]
    }

    function Left(): nat
      reads this
      requires Valid()
    {
      packet.Length - pos
    }

    /** The outcome is the one `r` describes, starting from `was`. */
    ghost predicate Appended(was: Bytes, r: Result<Chunk>, status: Status)
      reads this, packet
      requires Valid()
    {
      match r
      case Err(rc) => status == Failed(rc) && was <= Written()
      case Ok(c) => status == Okay && Written() == was + c.bytes && Table(suffixes) == c.segs
    }

    constructor (size: nat)
      ensures Valid() && fresh(packet) && packet.Length == size && pos == 0 && suffixes == []
    {
      packet := new byte[size](_ => 0);
      pos := 0;
      suffixes := [];
    }

    /** `*ptr++ = b`. */
    method Put(b: byte)
      requires Valid() && Left() > 0
      modifies this`pos, packet
      ensures Valid() && Written() == old(Written()) + [b]
    {
      packet[pos] := b;
      pos := pos + 1;
    }

    /** memcpy, and the cursor behind it. */
    method Copy(b: Bytes)
      requires Valid() && |b| <= Left()
      modifies this`pos, packet
      ensures Valid() && Written() == old(Written()) + b
    {
      forall k | 0 <= k < |b| {
        packet[pos + k] := b[k];
      }
      pos := pos + |b|;
    }

    method Write16(n: uint16)
      requires Valid() && Left() >= 2
      modifies this`pos, packet
      ensures Valid() && Written() == old(Written()) + U16(n)
    {
      Put(n / 256 % 256);
      Put(n % 256);
    }

    method Write32(n: uint32)
      requires Valid() && Left() >= 4
      modifies this`pos, packet
      ensures Valid() && Written() == old(Written()) + U32(n)
    {
      Put(n / 0x100_0000 % 256);
      Put(n / 0x1_0000 % 256);
      Put(n / 256 % 256);
      Put(n % 256);
    }

    /** segment_find: the first entry for this very text. */
    method FindSuffix(text: Bytes) returns (found: Option<nat>)
      requires Valid()
      ensures found == FindSegment(Table(suffixes), Parse(text))
      ensures found.Some? ==> found.value < |suffixes|
    {
      var i := 0;
      while i < |suffixes|
        invariant i <= |suffixes|
        invariant FindWithin(Table(suffixes), Parse(text), i) == None
      {
        SameText(suffixes[i].text, text);
        if suffixes[i].text == text {
          FoundFirst(Table(suffixes), Parse(text), i);
          return Some(i);
        }
        i := i + 1;
      }
      return None;
    }

    /** encode_segment: the text up to the first dot, behind its length. */
    method EncodeSegment(text: Bytes) returns (status: Status, rest: Bytes, offset: nat)
      requires Valid() && !AtEnd(text)
      modifies this`pos, packet
      ensures Valid() && offset == old(pos)
      ensures Parse(text).Stray? ==> status == Failed(NameError)
      ensures var n := Parse(text); n.Part? ==>
                if |n.text| >= MAX_DOMAIN_LABEL then status == Failed(NameError)
                else if old(Left()) < |n.text| + 1 then status == Failed(NoMemory)
                else
                  && status == Okay && Written() == old(Written()) + ([|n.text|] + n.text)
                  && Parse(rest) == n.next && |rest| < |text|
      ensures status.Failed? ==> Written() == old(Written())
    {
      offset := pos;
      rest := text;
      var dot := FirstDot(text);
      if dot.None? {
        return Failed(NameError), rest, offset;
      }
      var len := dot.value;
      if len >= MAX_DOMAIN_LABEL {
        return Failed(NameError), rest, offset;
      }
      if Left() < len + 1 {
        return Failed(NoMemory), rest, offset;
      }
      Put(len);
      Copy(text[..len]);
      rest := text[len + 1..];
      assert Parse(text) == Part(text[..len], Parse(rest));
      assert old(Written()) + [len] + text[..len] == old(Written()) + ([len] + text[..len]);
      status := Okay;
    }

    /** A suffix that is not in the table: its first label is written and its entry made. */
    method EncodeLabel(text: Bytes) returns (status: Status, rest: Bytes, ghost bytes: Bytes)
      requires Valid() && !AtEnd(text) && FindSegment(Table(suffixes), Parse(text)).None?
      modifies this`pos, this`suffixes, packet
      ensures Valid()
      ensures status.Failed? ==>
                && EncodeName(old(pos), old(Table(suffixes)), old(Left()), Parse(text)) == Err(status.rc)
                && Written() == old(Written())
      ensures status.Okay? ==>
                && EncodeName(old(pos), old(Table(suffixes)), old(Left()), Parse(text)) ==
                   After(bytes, EncodeName(pos, Table(suffixes), Left(), Parse(rest)))
                && Written() == old(Written()) + bytes
                && |rest| < |text|
    {
      hide EncodeName, Parse, Table, FindSegment;
      ghost var at, segs, room, n := pos, Table(suffixes), Left(), Parse(text);
      bytes := [];
      NameCases(at, segs, room, n);
      ParseEnds(text);
      if |suffixes| == MAXSEG {
        return Failed(NoMemory), text, bytes;
      }
      var offset;
      status, rest, offset := EncodeSegment(text);
      if status == Okay {
        TableMore(suffixes, Suffix(text, offset));
        suffixes := suffixes + [Suffix(text, offset)];
        bytes := [|n.text|] + n.text;
        LabelAhead(at, segs, room, n);
      }
    }

    /** Two bytes that name an entry's offset. */
    method EncodePointer(offset: nat) returns (status: Status)
      requires Valid()
      modifies this`pos, packet
      ensures Valid()
      ensures status == if old(Left()) < 2 then Failed(NoMemory) else Okay
      ensures Written() == if status == Okay then old(Written()) + Pointer(offset) else old(Written())
    {
      if Left() < 2 {
        return Failed(NoMemory);
      }
      Put(192 + offset / 256 % 64);
      Put(offset % 256);
      status := Okay;
    }

    /** encode_domain: label after label, until the rest is in the table or is empty. */
    method EncodeDomain(name: Bytes) returns (status: Status)
      requires Valid()
      modifies this`pos, this`suffixes, packet
      ensures Valid()
      ensures Appended(old(Written()), EncodeName(old(pos), old(Table(suffixes)), old(Left()), Parse(name)), status)
    {
      hide EncodeName, Parse, Table, FindSegment, Appended, Pointer;
      var rest := name;
      ghost var done: Bytes := [];
      ghost var all := EncodeName(pos, Table(suffixes), Left(), Parse(name));
      AfterAfter([], [], all);
      while rest != [] && rest[0] != DOT
        invariant Valid()
        invariant Written() == old(Written()) + done
        invariant all == After(done, EncodeName(pos, Table(suffixes), Left(), Parse(rest)))
        decreases |rest|
      {
        var found := FindSuffix(rest);
        if found.None? {
          ghost var bytes, had := [], done;
          status, rest, bytes := EncodeLabel(rest);
          if status != Okay {
            Outcome(old(Written()), done, all, Err(status.rc), status);
            return;
          }
          done := done + bytes;
          AfterAfter(had, bytes, EncodeName(pos, Table(suffixes), Left(), Parse(rest)));
        } else {
          ParseEnds(rest);
          NameCases(pos, Table(suffixes), Left(), Parse(rest));
          TableAt(suffixes, found.value);
          var offset := suffixes[found.value].offset;
          ghost var last := if Left() < 2 then Err(NoMemory) else Ok(Chunk(Pointer(offset), Table(suffixes)));
          status := EncodePointer(offset);
          Outcome(old(Written()), done, all, last, status);
          return;
        }
      }
      ParseEnds(rest);
      NameCases(pos, Table(suffixes), Left(), Parse(rest));
      if Left() == 0 {
        status := Failed(NoMemory);
        Outcome(old(Written()), done, all, Err(NoMemory), status);
      } else {
        Put(0);
        status := Okay;
        Outcome(old(Written()), done, all, Ok(Chunk([0], Table(suffixes))), status);
      }
    }

    /** encode_string. */
    method EncodeString(text: Bytes) returns (status: Status)
      requires Valid()
      modifies this`pos, packet
      ensures Valid()
      ensures Appended(old(Written()), EncodeField(old(pos), Table(suffixes), old(Left()), Str(text)), status)
    {
      if |text| > 255 {
        return Failed(BadString);
      }
      if Left() < |text| + 1 {
        return Failed(NoMemory);
      }
      Put(|text|);
      Copy(text);
      assert Written() == old(Written()) + ([|text|] + text);
      status := Okay;
    }

    /** encode_rr_txt: text in chunks that a length byte can count. */
    method EncodeText(text: Bytes) returns (status: Status)
      requires Valid()
      modifies this`pos, packet
      ensures Valid()
      ensures Appended(old(Written()), EncodeField(old(pos), Table(suffixes), old(Left()), Txt(text)), status)
    {
      hide TextBytes, EncodeField, Appended, Table;
      var p := 0;
      ghost var was, done: Bytes := Written(), [];
      assert text[0..] == text;
      while p < |text|
        invariant Valid() && p <= |text|
        invariant Written() == was + done
        invariant TextBytes(text) == done + TextBytes(text[p..])
      {
        var max := |text| - p;
        var chunk := if max < 255 then max else 255;
        assert pos == |was + done|;
        TextChunk(text, p, chunk);
        ghost var r := EncodeField(pos, Table(suffixes), Left(), Str(text[p..p + chunk]));
        status := EncodeString(text[p..p + chunk]);
        ghost var rest := TextBytes(text[p + chunk..]);
        ChunkOutcome(was, done, text, text[p..p + chunk], rest, r, status);
        if status != Okay {
          return;
        }
        done := done + ([chunk] + text[p..p + chunk]);
        p := p + chunk;
      }
      assert text[p..] == [];
      TextOutcome(was, done, text);
      status := Okay;
    }

    lemma ChunkOutcome(was: Bytes, done: Bytes, text: Bytes, chunk: Bytes, rest: Bytes, r: Result<Chunk>,
                       status: Status)
      requires Valid() && 0 < |chunk| <= 255
      requires |was + done| <= packet.Length
      requires TextBytes(text) == done + ([|chunk|] + chunk + rest)
      requires r == EncodeField(|was + done|, Table(suffixes), packet.Length - |was + done|, Str(chunk))
      requires Appended(was + done, r, status)
      ensures status.Failed? ==>
                Appended(was, EncodeField(|was|, Table(suffixes), packet.Length - |was|, Txt(text)), status)
      ensures status.Okay? ==> Written() == was + (done + ([|chunk|] + chunk))
      ensures TextBytes(text) == done + ([|chunk|] + chunk) + rest
    {
      hide TextBytes, Table, EncodeField;
      ChunkFits(|was + done|, Table(suffixes), packet.Length - |was + done|, chunk);
      TextFits(|was|, Table(suffixes), packet.Length - |was|, text);
      if status.Okay? {
        Regrouped(was, done, [|chunk|] + chunk);
      }
      Regrouped(done, [|chunk|] + chunk, rest);
    }

    lemma TextOutcome(was: Bytes, done: Bytes, text: Bytes)
      requires Valid() && Written() == was + done
      requires TextBytes(text) == done + TextBytes([])
      ensures Appended(was, EncodeField(|was|, Table(suffixes), packet.Length - |was|, Txt(text)), Okay)
    {
      assert done + [] == done;
    }

    /* ---- Field after field ---- */

    /** Everything so far went well, and `rest` is still to be written. */
    ghost predicate Doing(was: Bytes, all: Result<Chunk>, rest: Fields)
      reads this, packet
    {
      && Valid()
      && was <= Written()
      && all == After(Written()[|was|..], EncodeFields(pos, Table(suffixes), Left(), rest))
    }

    lemma Start(all: Result<Chunk>, fs: Fields)
      requires Valid() && all == EncodeFields(pos, Table(suffixes), Left(), fs)
      ensures Doing(Written(), all, fs)
    {
      AfterAfter([], [], all);
      assert Written()[pos..] == [];
    }

    lemma Finish(was: Bytes, all: Result<Chunk>)
      requires Doing(was, all, Done)
      ensures Appended(was, all, Okay)
    {
      var b := Written()[|was|..];
      assert b + [] == b && was + b == Written();
    }

    lemma NoRoom(was: Bytes, all: Result<Chunk>, n: nat, rest: Fields)
      requires Doing(was, all, Room(n, rest))
      ensures Left() < n ==> Appended(was, all, Failed(NoMemory))
      ensures Left() >= n ==> Doing(was, all, rest)
    {
    }

    lemma Advance(was: Bytes, all: Result<Chunk>, f: Field, rest: Fields, had: Bytes, segs: seq<Segment>, room: nat,
                  status: Status)
      requires was <= had && Valid() && |had| + room == packet.Length
      requires all == After(had[|was|..], EncodeFields(|had|, segs, room, More(f, rest)))
      requires Appended(had, EncodeField(|had|, segs, room, f), status)
      ensures status.Okay? ==> Doing(was, all, rest)
      ensures status.Failed? ==> Appended(was, all, status)
    {
      hide EncodeField, EncodeFields, Table;
      FieldStep(|had|, segs, room, f, rest);
      if status.Okay? {
        var c := EncodeField(|had|, segs, room, f).value;
        AfterAfter(had[|was|..], c.bytes, EncodeFields(pos, Table(suffixes), Left(), rest));
        assert Written()[|was|..] == had[|was|..] + c.bytes;
      }
    }

    method NextDomain(name: Bytes, ghost was: Bytes, ghost all: Result<Chunk>, ghost rest: Fields)
        returns (status: Status)
      requires Doing(was, all, More(Domain(name), rest))
      modifies this`pos, this`suffixes, packet
      ensures Valid()
      ensures status.Okay? ==> Doing(was, all, rest)
      ensures status.Failed? ==> Appended(was, all, status)
    {
      hide EncodeName, EncodeFields, Table, Parse;
      ghost var had, segs, room := Written(), Table(suffixes), Left();
      status := EncodeDomain(name);
      Advance(was, all, Domain(name), rest, had, segs, room, status);
    }

    method NextString(text: Bytes, ghost was: Bytes, ghost all: Result<Chunk>, ghost rest: Fields)
        returns (status: Status)
      requires Doing(was, all, More(Str(text), rest))
      modifies this`pos, packet
      ensures Valid()
      ensures status.Okay? ==> Doing(was, all, rest)
      ensures status.Failed? ==> Appended(was, all, status)
    {
      hide EncodeField, EncodeFields, Table;
      ghost var had, segs, room := Written(), Table(suffixes), Left();
      status := EncodeString(text);
      Advance(was, all, Str(text), rest, had, segs, room, status);
    }

    method Next16(n: uint16, ghost was: Bytes, ghost all: Result<Chunk>, ghost rest: Fields)
      requires Doing(was, all, More(Num16(n), rest)) && Left() >= 2
      modifies this`pos, packet
      ensures Doing(was, all, rest) && Left() == old(Left()) - 2
    {
      assert |U16(n)| == 2;
      hide EncodeFields, Table, U16;
      ghost var had, segs, room := Written(), Table(suffixes), Left();
      Write16(n);
      Advance(was, all, Num16(n), rest, had, segs, room, Okay);
    }

    method Next32(m: uint32, ghost was: Bytes, ghost all: Result<Chunk>, ghost rest: Fields)
      requires Doing(was, all, More(Num32(m), rest)) && Left() >= 4
      modifies this`pos, packet
      ensures Doing(was, all, rest) && Left() == old(Left()) - 4
    {
      assert |U32(m)| == 4;
      hide EncodeFields, Table, U32;
      ghost var had, segs, room := Written(), Table(suffixes), Left();
      Write32(m);
      Advance(was, all, Num32(m), rest, had, segs, room, Okay);
    }

    /* ---- Record bodies ---- */

    /** encode_rr_soa. */
    method EncodeSoa(mname: Bytes, rname: Bytes, serial: uint32, refresh: uint32, retry: uint32, expire: uint32,
                     minimum: uint32)
        returns (status: Status)
      requires Valid()
      modifies this`pos, this`suffixes, packet
      ensures Valid()
      ensures Appended(old(Written()), EncodeFields(old(pos), old(Table(suffixes)), old(Left()),
                More(Domain(mname), More(Domain(rname), Room(20,
                  More(Num32(serial), More(Num32(refresh), More(Num32(retry), More(Num32(expire),
                    More(Num32(minimum), Done))))))))), status)
    {
      hide EncodeFields, Doing, Appended;
      ghost var e := More(Num32(minimum), Done);
      ghost var d := More(Num32(expire), e);
      ghost var c := More(Num32(retry), d);
      ghost var b := More(Num32(refresh), c);
      ghost var a := More(Num32(serial), b);
      ghost var fs := More(Domain(rname), Room(20, a));
      ghost var was, all := Written(), EncodeFields(pos, Table(suffixes), Left(), More(Domain(mname), fs));
      Start(all, More(Domain(mname), fs));
      status := NextDomain(mname, was, all, fs);
      if status != Okay {
        return;
      }
      status := NextDomain(rname, was, all, Room(20, a));
      if status != Okay {
        return;
      }
      NoRoom(was, all, 20, a);
      if Left() < 20 {
        return Failed(NoMemory);
      }
      Next32(serial, was, all, b);
      Next32(refresh, was, all, c);
      Next32(retry, was, all, d);
      Next32(expire, was, all, e);
      Next32(minimum, was, all, Done);
      Finish(was, all);
    }

    /** encode_rr_a and encode_rr_aaaa. */
    method EncodeAddress(address: Bytes) returns (status: Status)
      requires Valid()
      modifies this`pos, packet
      ensures Valid()
      ensures Appended(old(Written()),
                       EncodeFields(old(pos), Table(suffixes), old(Left()), More(Fixed(address), Done)), status)
    {
      ghost var had, segs, room, all := Written(), Table(suffixes), Left(),
        EncodeFields(pos, Table(suffixes), Left(), More(Fixed(address), Done));
      Start(all, More(Fixed(address), Done));
      if Left() < |address| {
        status := Failed(NoMemory);
      } else {
        Copy(address);
        status := Okay;
      }
      Advance(had, all, Fixed(address), Done, had, segs, room, status);
      if status == Okay {
        Finish(had, all);
      }
    }

    /** encode_domain as a whole body, and encode_rr_txt. */
    method EncodeOne(field: Field) returns (status: Status)
      requires Valid() && (field.Domain? || field.Txt?)
      modifies this`pos, this`suffixes, packet
      ensures Valid()
      ensures Appended(old(Written()),
                       EncodeFields(old(pos), old(Table(suffixes)), old(Left()), More(field, Done)), status)
    {
      ghost var had, segs, room, all := Written(), Table(suffixes), Left(),
        EncodeFields(pos, Table(suffixes), Left(), More(field, Done));
      hide EncodeFields, EncodeName, Doing, Table, TextBytes;
      Start(all, More(field, Done));
      match field {
        case Domain(name) => status := EncodeDomain(name);
        case Txt(text) => status := EncodeText(text);
      }
      Advance(had, all, field, Done, had, segs, room, status);
      if status == Okay {
        Finish(had, all);
      }
    }

    /** encode_rr_srv. */
    method EncodeSrv(priority: uint16, weight: uint16, port: uint16, target: Bytes) returns (status: Status)
      requires Valid()
      modifies this`pos, this`suffixes, packet
      ensures Valid()
      ensures Appended(old(Written()), EncodeFields(old(pos), old(Table(suffixes)), old(Left()),
                Room(7, More(Num16(priority), More(Num16(weight), More(Num16(port), More(Domain(target), Done)))))),
              status)
    {
      hide EncodeFields, Doing, Appended;
      ghost var d := More(Domain(target), Done);
      ghost var c := More(Num16(port), d);
      ghost var b := More(Num16(weight), c);
      ghost var a := More(Num16(priority), b);
      ghost var was, all := Written(), EncodeFields(pos, Table(suffixes), Left(), Room(7, a));
      Start(all, Room(7, a));
      NoRoom(was, all, 7, a);
      if Left() < 7 {
        return Failed(NoMemory);
      }
      Next16(priority, was, all, b);
      Next16(weight, was, all, c);
      Next16(port, was, all, d);
      status := NextDomain(target, was, all, Done);
      if status == Okay {
        Finish(was, all);
      }
    }

    /** encode_rr_naptr. */
    method EncodeNaptr(order: uint16, preference: uint16, flags: Bytes, services: Bytes, regexp: Bytes,
                       replacement: Bytes)
        returns (status: Status)
      requires Valid()
      modifies this`pos, this`suffixes, packet
      ensures Valid()
      ensures Appended(old(Written()), EncodeFields(old(pos), old(Table(suffixes)), old(Left()),
                Room(4, More(Num16(order), More(Num16(preference), More(Str(flags), More(Str(services),
                More(Str(regexp),
                  More(Domain(replacement), Done)))))))), status)
    {
      hide EncodeFields, Doing, Appended;
      ghost var f := More(Domain(replacement), Done);
      ghost var e := More(Str(regexp), f);
      ghost var d := More(Str(services), e);
      ghost var c := More(Str(flags), d);
      ghost var b := More(Num16(preference), c);
      ghost var a := More(Num16(order), b);
      ghost var was, all := Written(), EncodeFields(pos, Table(suffixes), Left(), Room(4, a));
      Start(all, Room(4, a));
      NoRoom(was, all, 4, a);
      if Left() < 4 {
        return Failed(NoMemory);
      }
      Next16(order, was, all, b);
      Next16(preference, was, all, c);
      status := NextString(flags, was, all, d);
      if status != Okay {
        return;
      }
      status := NextString(services, was, all, e);
      if status != Okay {
        return;
      }
      status := NextString(regexp, was, all, f);
      if status != Okay {
        return;
      }
      status := NextDomain(replacement, was, all, Done);
      if status == Okay {
        Finish(was, all);
      }
    }

    /** encode_rr_minfo. */
    method EncodeMinfo(rmailbx: Bytes, emailbx: Bytes) returns (status: Status)
      requires Valid()
      modifies this`pos, this`suffixes, packet
      ensures Valid()
      ensures Appended(old(Written()), EncodeFields(old(pos), old(Table(suffixes)), old(Left()),
                More(Domain(rmailbx), More(Domain(emailbx), Done))), status)
    {
      hide EncodeFields, Doing, Appended;
      ghost var b := More(Domain(emailbx), Done);
      ghost var was, all := Written(), EncodeFields(pos, Table(suffixes), Left(), More(Domain(rmailbx), b));
      Start(all, More(Domain(rmailbx), b));
      status := NextDomain(rmailbx, was, all, b);
      if status != Okay {
        return;
      }
      status := NextDomain(emailbx, was, all, Done);
      if status == Okay {
        Finish(was, all);
      }
    }

    /** encode_rr_mx. */
    method EncodeMx(preference: uint16, exchange: Bytes) returns (status: Status)
      requires Valid()
      modifies this`pos, this`suffixes, packet
      ensures Valid()
      ensures Appended(old(Written()), EncodeFields(old(pos), old(Table(suffixes)), old(Left()),
                Room(2, More(Num16(preference), More(Domain(exchange), Done)))), status)
    {
      hide EncodeFields, Doing, Appended;
      ghost var b := More(Domain(exchange), Done);
      ghost var a := More(Num16(preference), b);
      ghost var was, all := Written(), EncodeFields(pos, Table(suffixes), Left(), Room(2, a));
      Start(all, Room(2, a));
      NoRoom(was, all, 2, a);
      if Left() < 2 {
        return Failed(NoMemory);
      }
      Next16(preference, was, all, b);
      status := NextDomain(exchange, was, all, Done);
      if status == Okay {
        Finish(was, all);
      }
    }

    /** encode_rr_hinfo. */
    method EncodeHinfo(cpu: Bytes, os: Bytes) returns (status: Status)
      requires Valid()
      modifies this`pos, packet
      ensures Valid()
      ensures Appended(old(Written()), EncodeFields(old(pos), Table(suffixes), old(Left()),
                More(Str(cpu), More(Str(os), Done))), status)
    {
      hide EncodeFields, Doing, Appended;
      ghost var b := More(Str(os), Done);
      ghost var was, all := Written(), EncodeFields(pos, Table(suffixes), Left(), More(Str(cpu), b));
      Start(all, More(Str(cpu), b));
      status := NextString(cpu, was, all, b);
      if status != Okay {
        return;
      }
      status := NextString(os, was, all, Done);
      if status == Okay {
        Finish(was, all);
      }
    }

    /** The switch over record types. */
    method EncodeBody(a: Answer) returns (status: Status)
      requires Valid() && Typed(a)
      modifies this`pos, this`suffixes, packet
      ensures Valid()
      ensures Appended(old(Written()), EncodeFields(old(pos), old(Table(suffixes)), old(Left()),
                WithTests(BodyOf(a.rtype), a.body)), status)
    {
      hide EncodeFields, Fits, Table, Appended, BodyOf;
      var fs, kind := a.body, BodyOf(a.rtype);
      match kind {
        case Address =>
          OneField(kind, fs);
          status := EncodeAddress(fs.field.bytes);
        case Address6 =>
          OneField(kind, fs);
          status := EncodeAddress(fs.field.bytes);
        case Host =>
          OneField(kind, fs);
          status := EncodeOne(fs.field);
        case Text =>
          OneField(kind, fs);
          status := EncodeOne(fs.field);
        case Minfo =>
          TwoFields(kind, fs);
          status := EncodeMinfo(fs.field.name, fs.rest.field.name);
        case Mx =>
          TwoFields(kind, fs);
          status := EncodeMx(fs.field.n, fs.rest.field.name);
        case Hinfo =>
          TwoFields(kind, fs);
          status := EncodeHinfo(fs.field.text, fs.rest.field.text);
        case Srv =>
          ghost var p, w, o, t := SrvFields(fs);
          var b := fs.rest;
          status := EncodeSrv(fs.field.n, b.field.n, b.rest.field.n, b.rest.rest.field.name);
        case Naptr =>
          ghost var o, p, f, v, x, t := NaptrFields(fs);
          var b := fs.rest;
          var c := b.rest;
          var d := c.rest;
          status := EncodeNaptr(fs.field.n, b.field.n, c.field.text, d.field.text, d.rest.field.text,
                                d.rest.rest.field.name);
        case Soa =>
          ghost var m, r, n, f, t, x, y := SoaFields(fs);
          var b := fs.rest;
          var c := b.rest;
          var d := c.rest;
          var e := d.rest;
          status := EncodeSoa(fs.field.name, b.field.name, c.field.m, d.field.m, e.field.m, e.rest.field.m,
                              e.rest.rest.field.m);
      }
    }

    /** The cursor moves over two bytes that are filled in later. */
    method Skip16() returns (at: nat)
      requires Valid() && Left() >= 2
      modifies this`pos
      ensures Valid() && at == old(pos) && pos == at + 2
      ensures |Written()| == at + 2 && Written()[..at] == old(Written())
    {
      at := pos;
      pos := pos + 2;
    }

    /** write_uint16 into the space that was skipped. */
    method Patch16(at: nat, n: uint16)
      requires Valid() && at + 2 <= pos
      modifies packet
      ensures Written() == old(Written())[..at] + U16(n) + old(Written())[at + 2..]
    {
      packet[at] := n / 256 % 256;
      packet[at + 1] := n % 256;
    }

    /** The fixed part of a record, with room for its length. */
    method EncodeHead(a: Answer) returns (at: nat)
      requires Valid() && Left() >= 10
      modifies this`pos, packet
      ensures Valid() && at == old(pos) + 8 && pos == at + 2
      ensures |Written()| == at + 2
      ensures Written()[..at] == old(Written()) + (U16(a.rtype) + U16(a.rclass) + U32(a.ttl))
    {
      assert |U16(a.rtype)| == 2 && |U16(a.rclass)| == 2 && |U32(a.ttl)| == 4;
      hide U16, U32;
      Write16(a.rtype);
      Write16(a.rclass);
      Write32(a.ttl);
      assert Written() == old(Written()) + (U16(a.rtype) + U16(a.rclass) + U32(a.ttl));
      at := Skip16();
    }

    /** The part of encode_answer behind the name. The length is known, and written, only after the
        body. */
    method EncodeRest(a: Answer) returns (status: Status)
      requires Valid() && (Modelled(BodyOf(a.rtype)) ==> Typed(a))
      modifies this`pos, this`suffixes, packet
      ensures Valid()
      ensures Appended(old(Written()), RestOf(old(pos), old(Table(suffixes)), old(Left()), a), status)
    {
      hide EncodeFields, Table, BodyOf, Typed, Head, WithTests;
      ghost var was, segs := Written(), Table(suffixes);
      if Left() < 10 {
        return Failed(NoMemory);
      }
      var prdlen := EncodeHead(a);
      var pdata := pos;
      if BodyOf(a.rtype).Other? {
        return Failed(Unmodelled);
      }
      if BodyOf(a.rtype).Unknown? {
        return Failed(NotImplemented);
      }
      ghost var headed, body := Written(), EncodeFields(pos, segs, Left(), WithTests(BodyOf(a.rtype), a.body));
      status := EncodeBody(a);
      if status != Okay {
        assert was <= Written();
        return;
      }
      var len := (pos - pdata) % 0x1_0000;
      ghost var full := Written();
      Patch16(prdlen, len);
      Patched(was, headed, full, Written(), body.value.bytes, a);
    }

    /** encode_answer. */
    method EncodeRecord(a: Answer) returns (status: Status)
      requires Valid() && (Modelled(BodyOf(a.rtype)) ==> Typed(a))
      modifies this`pos, this`suffixes, packet
      ensures Valid()
      ensures Appended(old(Written()), EncodeAnswer(old(pos), old(Table(suffixes)), old(Left()), a), status)
    {
      hide EncodeName, Parse, Table, BodyOf, Typed, RestOf, EncodeAnswer;
      ghost var was := Written();
      ghost var name := EncodeName(pos, Table(suffixes), Left(), Parse(a.name));
      RestBehindName(pos, Table(suffixes), Left(), a);
      status := EncodeDomain(a.name);
      if status != Okay {
        return;
      }
      ghost var rest := RestOf(pos, Table(suffixes), Left(), a);
      status := EncodeRest(a);
      if status == Okay {
        assert was + name.value.bytes + rest.value.bytes == was + (name.value.bytes + rest.value.bytes);
      }
    }

    lemma Patched(was: Bytes, headed: Bytes, full: Bytes, now: Bytes, d: Bytes, a: Answer)
      requires |headed| == |was| + 10 && full == headed + d
      requires headed[..|was| + 8] == was + (U16(a.rtype) + U16(a.rclass) + U32(a.ttl))
      requires now == full[..|was| + 8] + U16(|d| % 0x1_0000) + full[|was| + 10..]
      ensures now == was + (Head(a, |d| % 0x1_0000) + d)
    {
      var h, len := U16(a.rtype) + U16(a.rclass) + U32(a.ttl), U16(|d| % 0x1_0000);
      assert full[..|was| + 8] == was + h;
      assert full[|was| + 10..] == d;
      assert was + h + len + d == was + ((h + len) + d);
    }

    /** encode_question. */
    method EncodeAsk(q: Question) returns (status: Status)
      requires Valid()
      modifies this`pos, this`suffixes, packet
      ensures Valid()
      ensures Appended(old(Written()), EncodeQuestion(old(pos), old(Table(suffixes)), old(Left()), q), status)
    {
      assert |U16(q.qtype)| == 2 && |U16(q.qclass)| == 2;
      hide EncodeName, Parse, Table, U16;
      ghost var was, name := Written(), EncodeName(pos, Table(suffixes), Left(), Parse(q.name));
      status := EncodeDomain(q.name);
      if status != Okay {
        return;
      }
      if Left() < 4 {
        return Failed(NoMemory);
      }
      Write16(q.qtype);
      Write16(q.qclass);
      var n := name.value.bytes;
      assert was + n + U16(q.qtype) + U16(q.qclass) == was + (n + (U16(q.qtype) + U16(q.qclass)));
    }

    /* ---- Sections ---- */

    /** Everything so far went well, and `rest` is still to be sent. */
    ghost predicate Sending(was: Bytes, all: Result<Chunk>, rest: seq<Entry>)
      reads this, packet
    {
      && Valid()
      && was <= Written()
      && all == After(Written()[|was|..], EncodeEntries(pos, Table(suffixes), Left(), rest))
    }

    lemma StartSending(all: Result<Chunk>, es: seq<Entry>)
      requires Valid() && all == EncodeEntries(pos, Table(suffixes), Left(), es)
      ensures Sending(Written(), all, es)
    {
      AfterAfter([], [], all);
      assert Written()[pos..] == [];
    }

    lemma Sent(was: Bytes, all: Result<Chunk>)
      requires Sending(was, all, [])
      ensures Appended(was, all, Okay)
    {
      var b := Written()[|was|..];
      assert b + [] == b && was + b == Written();
    }

    lemma AdvanceEntry(was: Bytes, all: Result<Chunk>, e: Entry, rest: seq<Entry>, had: Bytes, segs: seq<Segment>,
                       room: nat, status: Status)
      requires was <= had && Valid() && |had| + room == packet.Length
      requires all == After(had[|was|..], EncodeEntries(|had|, segs, room, [e] + rest))
      requires Appended(had, EncodeEntry(|had|, segs, room, e), status)
      ensures status.Okay? ==> Sending(was, all, rest)
      ensures status.Failed? ==> Appended(was, all, status)
    {
      hide EncodeEntry, EncodeEntries, Table;
      EntryStep(|had|, segs, room, e, rest);
      if status.Okay? {
        var c := EncodeEntry(|had|, segs, room, e).value;
        AfterAfter(had[|was|..], c.bytes, EncodeEntries(pos, Table(suffixes), Left(), rest));
        assert Written()[|was|..] == had[|was|..] + c.bytes;
      }
    }

    method SendQuestions(qs: seq<Question>, ghost was: Bytes, ghost all: Result<Chunk>, ghost rest: seq<Entry>)
        returns (status: Status)
      requires Sending(was, all, AskAll(qs) + rest)
      modifies this`pos, this`suffixes, packet
      ensures Valid()
      ensures status.Okay? ==> Sending(was, all, rest)
      ensures status.Failed? ==> Appended(was, all, status)
    {
      hide EncodeEntries, EncodeQuestion, Table;
      var i := 0;
      assert AskAll(qs)[0..] == AskAll(qs);
      while i < |qs|
        invariant i <= |qs|
        invariant Sending(was, all, AskAll(qs)[i..] + rest)
      {
        ghost var had, segs, room := Written(), Table(suffixes), Left();
        assert AskAll(qs)[i..] + rest == [Ask(qs[i])] + (AskAll(qs)[i + 1..] + rest);
        status := EncodeAsk(qs[i]);
        AdvanceEntry(was, all, Ask(qs[i]), AskAll(qs)[i + 1..] + rest, had, segs, room, status);
        if status != Okay {
          return;
        }
        i := i + 1;
      }
      assert AskAll(qs)[i..] + rest == rest;
      status := Okay;
    }

    method SendRecords(rs: seq<Answer>, ghost was: Bytes, ghost all: Result<Chunk>, ghost rest: seq<Entry>)
        returns (status: Status)
      requires Sending(was, all, RecordAll(rs) + rest)
      requires forall i :: 0 <= i < |rs| && Modelled(BodyOf(rs[i].rtype)) ==> Typed(rs[i])
      modifies this`pos, this`suffixes, packet
      ensures Valid()
      ensures status.Okay? ==> Sending(was, all, rest)
      ensures status.Failed? ==> Appended(was, all, status)
    {
      hide EncodeEntries, EncodeAnswer, Table, Typed;
      var i := 0;
      assert RecordAll(rs)[0..] == RecordAll(rs);
      while i < |rs|
        invariant i <= |rs|
        invariant Sending(was, all, RecordAll(rs)[i..] + rest)
      {
        ghost var had, segs, room := Written(), Table(suffixes), Left();
        assert RecordAll(rs)[i..] + rest == [Record(rs[i])] + (RecordAll(rs)[i + 1..] + rest);
        status := EncodeRecord(rs[i]);
        AdvanceEntry(was, all, Record(rs[i]), RecordAll(rs)[i + 1..] + rest, had, segs, room, status);
        if status != Okay {
          return;
        }
        i := i + 1;
      }
      assert RecordAll(rs)[i..] + rest == rest;
      status := Okay;
    }

    /** The opcode and the response code first, the flags set on top of them. */
    method FlagBytes(f: Flags, opcode: nat, rcode: nat) returns (op: int, rc: int)
      requires opcode <= 15 && rcode <= 15
      ensures op == OpcodeByte(f, opcode) && rc == RcodeByte(f, rcode)
    {
      op, rc := opcode * 8, rcode;
      if f.response { op := op + 0x80; }
      if f.aa { op := op + 0x04; }
      if f.tc { op := op + 0x02; }
      if f.rd { op := op + 0x01; }
      if f.ra { rc := rc + 0x80; }
      if f.z { rc := rc + 0x40; }
      if f.ad { rc := rc + 0x20; }
      if f.cd { rc := rc + 0x10; }
    }

    method WriteFour(a: uint16, b: uint16, c: uint16, d: uint16)
      requires Valid() && Left() >= 8
      modifies this`pos, packet
      ensures Valid() && Written() == old(Written()) + U16(a) + U16(b) + U16(c) + U16(d)
    {
      assert |U16(a)| == 2 && |U16(b)| == 2 && |U16(c)| == 2 && |U16(d)| == 2;
      hide U16;
      Write16(a);
      Write16(b);
      Write16(c);
      Write16(d);
    }

    /** The header. */
    method EncodeHeader(m: Message)
      requires Valid() && Left() >= HEADER && ValidMessage(m)
      modifies this`pos, packet
      ensures Valid() && Written() == old(Written()) + Header(m)
    {
      assert |U16(m.id)| == 2;
      hide U16, OpcodeByte, RcodeByte;
      var op, rc := FlagBytes(m.flags, m.opcode, m.rcode);
      Write16(m.id);
      Put(op);
      Put(rc);
      ghost var was, a := old(Written()), U16(m.id);
      assert was + a + [op] + [rc] == was + (a + [op, rc]);
      WriteFour(|m.questions|, |m.answers|, |m.nameservers|, |m.additional|);
      Joined(was, a + [op, rc], U16(|m.questions|), U16(|m.answers|), U16(|m.nameservers|), U16(|m.additional|));
    }

    /** The sections, in the order of the header's counts. */
    method EncodeSections(m: Message, ghost was: Bytes, ghost all: Result<Chunk>) returns (status: Status)
      requires Sending(was, all, Entries(m))
      requires forall a <- m.answers + m.nameservers + m.additional :: Modelled(BodyOf(a.rtype)) ==> Typed(a)
      modifies this`pos, this`suffixes, packet
      ensures Valid() && Appended(was, all, status)
    {
      hide EncodeEntries, Typed, AskAll, RecordAll, BodyOf, Table, Appended, Sending, Entries;
      SectionsInOrder(m);
      Members(m);
      ghost var c := RecordAll(m.additional);
      ghost var b := RecordAll(m.nameservers) + c;
      ghost var a := RecordAll(m.answers) + b;
      status := SendQuestions(m.questions, was, all, a);
      if status != Okay {
        return;
      }
      status := SendRecords(m.answers, was, all, b);
      if status != Okay {
        return;
      }
      status := SendRecords(m.nameservers, was, all, c);
      if status != Okay {
        return;
      }
      assert c + [] == c;
      status := SendRecords(m.additional, was, all, []);
      if status == Okay {
        Sent(was, all);
      }
    }

    /** dns_encode, into an empty packet. */
    method EncodeMessage(m: Message) returns (status: Status)
      requires Valid() && pos == 0 && suffixes == [] && HEADER <= packet.Length
      requires ValidMessage(m)
      requires forall a <- m.answers + m.nameservers + m.additional :: Modelled(BodyOf(a.rtype)) ==> Typed(a)
      modifies this`pos, this`suffixes, packet
      ensures Valid()
      ensures match Encode(m, packet.Length)
              case Err(rc) => status == Failed(rc)
              case Ok(p) => status == Okay && Written() == p && Table(suffixes) == FinalTable(m, packet.Length)
    {
      hide EncodeEntries, Header, Typed, Entries, BodyOf;
      EncodeHeader(m);
      assert Table(suffixes) == [];
      hide Table;
      ghost var was, all := Written(), EncodeEntries(HEADER, Table(suffixes), Left(), Entries(m));
      assert [] + was == was;
      StartSending(all, Entries(m));
      status := EncodeSections(m, was, all);
    }

    /** The last piece of an outcome. */
    lemma Outcome(was: Bytes, done: Bytes, all: Result<Chunk>, last: Result<Chunk>, status: Status)
      requires Valid() && all == After(done, last)
      requires match last
               case Err(rc) => status == Failed(rc) && Written() == was + done
               case Ok(c) => status == Okay && Written() == was + done + c.bytes && Table(suffixes) == c.segs
      ensures Appended(was, all, status)
    {
      if last.Ok? {
        assert was + done + last.value.bytes == was + (done + last.value.bytes);
      }
    }
  }

  /** What an encoded record is behind its name. */
  function RestOf(at: nat, segs: seq<Segment>, room: nat, a: Answer): Result<Chunk> {
    if room < 10 then Err(NoMemory)
    else if BodyOf(a.rtype).Other? then Err(Unmodelled)
    else if BodyOf(a.rtype).Unknown? then Err(NotImplemented)
    else
      var d :- EncodeFields(at + 10, segs, room - 10, WithTests(BodyOf(a.rtype), a.body));
      Ok(Chunk(Head(a, |d.bytes| % 0x1_0000) + d.bytes, d.segs))
  }

  lemma RestBehindName(at: nat, segs: seq<Segment>, room: nat, a: Answer)
    ensures EncodeAnswer(at, segs, room, a) ==
            match EncodeName(at, segs, room, Parse(a.name))
            case Err(rc) => Err(rc)
            case Ok(n) => After(n.bytes, RestOf(at + |n.bytes|, n.segs, room - |n.bytes|, a))
  {
    hide EncodeName, EncodeFields, Parse, Head, WithTests, BodyOf;
    var name := EncodeName(at, segs, room, Parse(a.name));
    if name.Ok? {
      var n := name.value;
      var rest := RestOf(at + |n.bytes|, n.segs, room - |n.bytes|, a);
      if rest.Ok? {
        var start := |n.bytes| + 10;
        var d := EncodeFields(at + start, n.segs, room - start, WithTests(BodyOf(a.rtype), a.body)).value;
        Regrouped(n.bytes, Head(a, |d.bytes| % 0x1_0000), d.bytes);
      }
    }
  }

  /** The first of several fields. */
  lemma Unfold(fs: Fields, k: Kind, s: Shape)
    requires IsPlain(fs) && Fits(fs, Get(k, s))
    ensures fs.More? && Reads(k, fs.field) && IsPlain(fs.rest) && Fits(fs.rest, s)
  {
  }

  lemma UnfoldTests(fs: Fields, n: nat, s: Shape)
    requires IsPlain(fs)
    ensures Fits(fs, Least(n, s)) || Fits(fs, Exactly(n, s)) ==> Fits(fs, s)
    ensures Fits(fs, Finish) ==> fs == Done
  {
  }

  /** A body of one field. */
  lemma OneField(b: Body, fs: Fields)
    requires IsPlain(fs) && Modelled(b) && Fits(fs, ShapeOf(b))
    requires b.Address? || b.Address6? || b.Host? || b.Text?
    ensures fs.More? && fs == More(fs.field, Done)
    ensures if b.Host? then fs.field.Domain? else if b.Text? then fs.field.Txt? else fs.field.Fixed?
  {
    var s := ShapeOf(b);
    if s.Exactly? {
      UnfoldTests(fs, s.n, s.rest);
      Unfold(fs, s.rest.kind, Finish);
    } else {
      Unfold(fs, s.kind, Finish);
    }
    UnfoldTests(fs.rest, 0, Finish);
  }

  /** A body of two fields. */
  lemma TwoFields(b: Body, fs: Fields)
    requires IsPlain(fs) && Modelled(b) && Fits(fs, ShapeOf(b))
    requires b.Minfo? || b.Mx? || b.Hinfo?
    ensures fs.More? && fs.rest.More? && fs == More(fs.field, More(fs.rest.field, Done))
    ensures if b.Mx? then fs.field.Num16? else if b.Hinfo? then fs.field.Str? else fs.field.Domain?
    ensures if b.Hinfo? then fs.rest.field.Str? else fs.rest.field.Domain?
  {
    var s := ShapeOf(b);
    if b.Mx? {
      UnfoldTests(fs, s.n, s.rest);
      s := s.rest;
    }
    Unfold(fs, s.kind, s.rest);
    Unfold(fs.rest, s.rest.kind, Finish);
    UnfoldTests(fs.rest.rest, 0, Finish);
  }

  lemma SrvFields(fs: Fields) returns (priority: uint16, weight: uint16, port: uint16, target: Bytes)
    requires IsPlain(fs) && Fits(fs, ShapeOf(Srv))
    ensures fs == More(Num16(priority), More(Num16(weight), More(Num16(port), More(Domain(target), Done))))
  {
    hide Fits, IsPlain;
    var s := ShapeOf(Srv);
    UnfoldTests(fs, 7, s.rest);
    Unfold(fs, Get16, s.rest.rest);
    Unfold(fs.rest, Get16, s.rest.rest.rest);
    Unfold(fs.rest.rest, Get16, s.rest.rest.rest.rest);
    Unfold(fs.rest.rest.rest, GetName, Finish);
    UnfoldTests(fs.rest.rest.rest.rest, 0, Finish);
    priority, weight, port := fs.field.n, fs.rest.field.n, fs.rest.rest.field.n;
    target := fs.rest.rest.rest.field.name;
  }

  lemma NaptrFields(fs: Fields)
      returns (order: uint16, preference: uint16, flags: Bytes, services: Bytes, regexp: Bytes, replacement: Bytes)
    requires IsPlain(fs) && Fits(fs, ShapeOf(Naptr))
    ensures fs == More(Num16(order), More(Num16(preference), More(Str(flags), More(Str(services),
                More(Str(regexp), More(Domain(replacement), Done))))))
  {
    hide Fits, IsPlain;
    var s := ShapeOf(Naptr).rest;
    UnfoldTests(fs, 4, s);
    Unfold(fs, Get16, s.rest);
    var b := fs.rest;
    Unfold(b, Get16, s.rest.rest);
    s := s.rest.rest;
    var c := b.rest;
    Unfold(c, GetString, s.rest);
    Unfold(c.rest, GetString, s.rest.rest);
    Unfold(c.rest.rest, GetString, s.rest.rest.rest);
    Unfold(c.rest.rest.rest, GetName, Finish);
    UnfoldTests(c.rest.rest.rest.rest, 0, Finish);
    order, preference, flags, services := fs.field.n, b.field.n, c.field.text, c.rest.field.text;
    regexp, replacement := c.rest.rest.field.text, c.rest.rest.rest.field.name;
  }

  lemma SoaFields(fs: Fields)
      returns (mname: Bytes, rname: Bytes, serial: uint32, refresh: uint32, retry: uint32, expire: uint32,
               minimum: uint32)
    requires IsPlain(fs) && Fits(fs, ShapeOf(Soa))
    ensures fs == More(Domain(mname), More(Domain(rname), More(Num32(serial), More(Num32(refresh),
                    More(Num32(retry), More(Num32(expire), More(Num32(minimum), Done)))))))
  {
    hide Fits, IsPlain;
    var s := ShapeOf(Soa);
    Unfold(fs, GetName, s.rest);
    var b := fs.rest;
    Unfold(b, GetName, s.rest.rest);
    var c, t := b.rest, s.rest.rest.rest;
    UnfoldTests(c, 20, t);
    Unfold(c, Get32, t.rest);
    Unfold(c.rest, Get32, t.rest.rest);
    t := t.rest.rest;
    var e := c.rest.rest;
    Unfold(e, Get32, t.rest);
    Unfold(e.rest, Get32, t.rest.rest);
    Unfold(e.rest.rest, Get32, Finish);
    UnfoldTests(e.rest.rest.rest, 0, Finish);
    mname, rname, serial, refresh := fs.field.name, b.field.name, c.field.m, c.rest.field.m;
    retry, expire, minimum := e.field.m, e.rest.field.m, e.rest.rest.field.m;
  }

  lemma Regrouped(a: Bytes, b: Bytes, c: Bytes)
    ensures a + b + c == a + (b + c)
  {
  }

  lemma ChunkFits(at: nat, segs: seq<Segment>, room: nat, chunk: Bytes)
    requires |chunk| <= 255
    ensures EncodeField(at, segs, room, Str(chunk)) ==
            if room < |chunk| + 1 then Err(NoMemory) else Ok(Chunk([|chunk|] + chunk, segs))
  {
  }

  lemma TextFits(at: nat, segs: seq<Segment>, room: nat, text: Bytes)
    ensures EncodeField(at, segs, room, Txt(text)) ==
            if room < |TextBytes(text)| then Err(NoMemory) else Ok(Chunk(TextBytes(text), segs))
  {
  }

  lemma TextChunk(text: Bytes, p: nat, n: nat)
    requires p < |text| && n == if |text| - p < 255 then |text| - p else 255
    ensures TextBytes(text[p..]) == [n] + text[p..p + n] + TextBytes(text[p + n..])
  {
    var rest := text[p..];
    assert rest[..n] == text[p..p + n] && rest[n..] == text[p + n..];
  }

  /** One entry of several. */
  lemma EntryStep(at: nat, segs: seq<Segment>, room: nat, e: Entry, rest: seq<Entry>)
    ensures var r := EncodeEntry(at, segs, room, e);
            EncodeEntries(at, segs, room, [e] + rest) ==
            if r.Err? then r
            else After(r.value.bytes, EncodeEntries(at + |r.value.bytes|, r.value.segs, room - |r.value.bytes|, rest))
  {
    hide EncodeEntry;
    var es := [e] + rest;
    assert es != [] && es[0] == e && es[1..] == rest;
  }

  lemma Joined(was: Bytes, a: Bytes, b: Bytes, c: Bytes, d: Bytes, e: Bytes)
    ensures was + a + b + c + d + e == was + (a + b + c + d + e)
  {
  }

  lemma SectionsInOrder(m: Message)
    ensures Entries(m) ==
            AskAll(m.questions) + (RecordAll(m.answers) + (RecordAll(m.nameservers) + RecordAll(m.additional)))
  {
  }

  lemma Members(m: Message)
    ensures forall i :: 0 <= i < |m.answers| ==> m.answers[i] in m.answers + m.nameservers + m.additional
    ensures forall i :: 0 <= i < |m.nameservers| ==> m.nameservers[i] in m.answers + m.nameservers + m.additional
    ensures forall i :: 0 <= i < |m.additional| ==> m.additional[i] in m.answers + m.nameservers + m.additional
  {
  }

  lemma ParseEnds(s: Bytes)
    ensures Parse(s).End? <==> AtEnd(s)
  {
  }

  lemma TableAt(suffixes: seq<Suffix>, i: nat)
    requires i < |suffixes|
    ensures Table(suffixes)[i] == Segment(Parse(suffixes[i].text), suffixes[i].offset)
  {
  }

  /** The ways a name can end. */
  lemma NameCases(at: nat, segs: seq<Segment>, room: nat, name: Name)
    ensures name.End? ==>
              EncodeName(at, segs, room, name) == if room == 0 then Err(NoMemory) else Ok(Chunk([0], segs))
    ensures !name.End? && FindSegment(segs, name).Some? ==>
              EncodeName(at, segs, room, name) ==
              if room < 2 then Err(NoMemory) else Ok(Chunk(Pointer(segs[FindSegment(segs, name).value].offset), segs))
    ensures !name.End? && FindSegment(segs, name).None? && |segs| == MAXSEG ==>
              EncodeName(at, segs, room, name) == Err(NoMemory)
    ensures !name.End? && FindSegment(segs, name).None? && |segs| != MAXSEG ==>
              && (name.Stray? || |name.text| >= MAX_DOMAIN_LABEL ==> EncodeName(at, segs, room, name) == Err(NameError))
              && (name.Part? && |name.text| < MAX_DOMAIN_LABEL && room < |name.text| + 1 ==>
                    EncodeName(at, segs, room, name) == Err(NoMemory))
  {
  }

  /** A label that is not in the table and fits is written ahead of the rest of the name. */
  lemma LabelAhead(at: nat, segs: seq<Segment>, room: nat, name: Name)
    requires name.Part? && |name.text| < MAX_DOMAIN_LABEL && |name.text| + 1 <= room
    requires |segs| != MAXSEG && FindSegment(segs, name).None?
    ensures var n := |name.text|;
            EncodeName(at, segs, room, name) ==
            After([n] + name.text, EncodeName(at + n + 1, segs + [Segment(name, at)], room - (n + 1), name.next))
  {
  }

  lemma {:induction false} FoundFirst(segs: seq<Segment>, name: Name, i: nat)
    requires i < |segs| && FindWithin(segs, name, i) == None && segs[i].name == name
    ensures FindSegment(segs, name) == Some(i)
  {
    FoundWithin(segs, name, i, |segs|);
  }

  lemma {:induction false} FoundWithin(segs: seq<Segment>, name: Name, i: nat, n: nat)
    requires i < n <= |segs| && FindWithin(segs, name, i) == None && segs[i].name == name
    ensures FindWithin(segs, name, n) == Some(i)
    decreases n
  {
    if i + 1 < n {
      FoundWithin(segs, name, i, n - 1);
    }
  }
}
