/** The decoder as it runs: a cursor over the packet, and a destination that text is copied to. */
module Decoders {
  import opened Options
  import opened Wire
  import opened Names
  import opened Records
  import opened Messages

  /** What is still read from `r` on, behind the text `done`. Once a pointer has been followed the
      main cursor stays at `jump`. */
  function Resume(done: Bytes, jump: Option<nat>, r: Result<Got<Labels>>): Result<Got<Bytes>> {
    match r
    case Err(rc) => Err(rc)
    case Ok(g) => Ok(Got(done + Flatten(g.value), if jump.Some? then jump.value else g.pos, g.room))
  }

  lemma ResumeFirst(p: Bytes, pos: nat, room: nat)
    requires pos >= |p| || p[pos] != 0
    ensures ReadName(p, pos, room) == Resume([], None, ReadOn(p, pos, 0, room))
  {
    var r := ReadOn(p, pos, 0, room);
    if r.Ok? {
      assert [] + Flatten(r.value.value) == Flatten(r.value.value);
    }
  }

  /** A label is copied, with a dot behind it. */
  lemma ResumeLabel(p: Bytes, at: nat, loop: nat, room: nat, done: Bytes, jump: Option<nat>)
    requires at < |p| && 0 < p[at] < 64 && loop < MAX_LOOP
    ensures var b := p[at]; var r := Resume(done, jump, ReadOn(p, at, loop, room));
            if |p| - at < b + 1 then r == Err(FormatError)
            else if room < b + 1 then r == Err(NoMemory)
            else r == Resume(done + (p[at + 1..at + 1 + b] + [DOT]), jump, ReadOn(p, at + b + 1, loop, room - (b + 1)))
  {
    var b := p[at];
    if |p| - at >= b + 1 && room >= b + 1 {
      var rest := ReadOn(p, at + b + 1, loop, room - (b + 1));
      if rest.Ok? {
        var text := p[at + 1..at + 1 + b];
        assert done + (text + [DOT] + Flatten(rest.value.value)) == done + (text + [DOT]) + Flatten(rest.value.value);
      }
    }
  }

  /** A pointer is followed; the first one fixes where the main cursor stays. */
  lemma ResumePointer(p: Bytes, at: nat, loop: nat, room: nat, done: Bytes, jump: Option<nat>)
    requires at < |p| && p[at] >= 192 && loop < MAX_LOOP
    ensures var r := Resume(done, jump, ReadOn(p, at, loop, room));
            if loop + 1 == MAX_LOOP || |p| - at < 2 then r == Err(FormatError)
            else
              var t := Target(p[at], p[at + 1]);
              if t >= |p| then r == Err(FormatError)
              else r == Resume(done, Some(if jump.Some? then jump.value else at + 2), ReadOn(p, t, loop + 1, room))
  {
  }

  lemma ResumeNoLabel(p: Bytes, at: nat, loop: nat, room: nat, done: Bytes, jump: Option<nat>)
    requires loop < MAX_LOOP
    ensures var r := Resume(done, jump, ReadOn(p, at, loop, room));
            (at >= |p| ==> r == Err(Overrun)) && (at < |p| && 64 <= p[at] < 192 ==> r == Err(FormatError))
  {
  }

  lemma ResumeEnd(p: Bytes, at: nat, loop: nat, room: nat, done: Bytes, jump: Option<nat>)
    requires loop < MAX_LOOP && at < |p| && p[at] == 0
    ensures Resume(done, jump, ReadOn(p, at, loop, room)) ==
            if room == 0 then Err(Overrun) else Ok(Got(done, if jump.Some? then jump.value else at + 1, room - 1))
  {
    assert done + [] == done;
  }

  class Decoder {
    const packet: Bytes
    const dest: array<byte>
    var pos: nat
    var used: nat

    ghost predicate Valid()
      reads this
    {
      pos <= |packet| && used <= dest.Length
    }

    function Free(): nat
      reads this`used
      requires used <= dest.Length
    {
      dest.Length - used
    }

    /** What has been copied out so far. */
    ghost function Stored(): Bytes
      reads this`used, dest
      requires used <= dest.Length
    {
      dest[..used]
    }

    constructor (packet: Bytes, size: nat)
      ensures Valid() && fresh(dest) && this.packet == packet && dest.Length == size && pos == 0 && used == 0
    {
      this.packet := packet;
      dest := new byte[size](_ => 0);
      pos := 0;
      used := 0;
    }

    /** memcpy into the destination. */
    method Store(b: Bytes)
      requires Valid() && |b| <= Free()
      modifies this`used, dest
      ensures Valid() && Stored() == old(Stored()) + b && used == old(used) + |b|
    {
      forall k | 0 <= k < |b| {
        dest[used + k] := b[k];
      }
      used := used + |b|;
    }

    /** The outcome is the one `r` describes. */
    ghost predicate Took<T(!new)>(r: Result<Got<T>>, value: T, status: Status)
      reads this
      requires Valid()
    {
      match r
      case Err(rc) => status == Failed(rc)
      case Ok(g) => status == Okay && value == g.value && pos == g.pos && Free() == g.room
    }

    /** One label of a name is copied, with a dot behind it. */
    method CopyLabel(at: nat) returns (status: Status, part: Bytes)
      requires Valid() && at < |packet| && packet[at] < 64
      modifies this`used, dest
      ensures Valid()
      ensures var b := packet[at];
              if |packet| - at < b + 1 then status == Failed(FormatError)
              else if old(Free()) < b + 1 then status == Failed(NoMemory)
              else status == Okay && part == packet[at + 1..at + 1 + b] + [DOT]
                   && Free() == old(Free()) - (b + 1) && Stored() == old(Stored()) + part
    {
      var b := packet[at];
      if |packet| - at < b + 1 {
        return Failed(FormatError), [];
      }
      if Free() < b + 1 {
        return Failed(NoMemory), [];
      }
      part := packet[at + 1..at + 1 + b] + [DOT];
      Store(part);
      status := Okay;
    }

    /** The loop of read_domain, which leaves the last label's end at `at`. A name that starts with
        its end is a single dot. */
    method WalkLabels(ghost all: Result<Got<Bytes>>, ghost zero: bool)
        returns (status: Status, text: Bytes, at: nat, jumped: bool, ghost loop: nat)
      requires Valid() && (zero <==> pos < |packet| && packet[pos] == 0)
      requires zero ==> all == ZeroName(pos, Free())
      requires !zero ==> all == Resume([], None, ReadOn(packet, pos, 0, Free()))
      modifies this`pos, this`used, dest
      ensures Valid()
      ensures match status
              case Failed(rc) => all == Err(rc)
              case Okay =>
                && at < |packet| && loop < MAX_LOOP && Stored() == old(Stored()) + text && (!jumped ==> at == pos)
                && if zero then
                     !jumped && at == old(pos) && text == [DOT] && Free() == old(Free()) - 1
                   else
                     packet[at] == 0
                     && all == Resume(text, if jumped then Some(pos) else None, ReadOn(packet, at, loop, Free()))
    {
      hide ReadOn, Resume, Target, Stored;
      text := [];
      at, jumped, loop := pos, false, 0;
      var count, more := 0, true;
      ghost var jump: Option<nat>, was := None, Stored();
      assert was + text == was;
      while more
        invariant Valid() && at <= |packet| && count == loop < MAX_LOOP
        invariant if jumped then jump == Some(pos) else jump == None && at == pos
        invariant Stored() == was + text
        invariant zero ==> !jumped && at == old(pos)
        invariant zero ==> text == (if more then [] else [DOT]) && Free() == old(Free()) - |text|
        invariant !zero ==> all == Resume(text, jump, ReadOn(packet, at, loop, Free()))
        invariant !zero && at < |packet| ==> (more <==> packet[at] != 0)
        invariant !more ==> at < |packet|
        decreases MAX_LOOP - loop, |packet| - at, more
      {
        if at >= |packet| {
          ResumeNoLabel(packet, at, loop, Free(), text, jump);
          return Failed(Overrun), text, at, jumped, loop;
        }
        var b := packet[at];
        if b < 64 {
          if !zero {
            ResumeLabel(packet, at, loop, Free(), text, jump);
          }
          var part;
          status, part := CopyLabel(at);
          if status != Okay {
            return;
          }
          assert was + (text + part) == was + text + part;
          text := text + part;
          if b != 0 {
            at := at + b + 1;
            if !jumped {
              pos := at;
            }
          }
        } else if b >= 192 {
          ResumePointer(packet, at, loop, Free(), text, jump);
          count, loop := count + 1, loop + 1;
          if count == MAX_LOOP || |packet| - at < 2 {
            return Failed(FormatError), text, at, jumped, loop;
          }
          var target := Target(b, packet[at + 1]);
          if target >= |packet| {
            return Failed(FormatError), text, at, jumped, loop;
          }
          if !jumped {
            pos, jump := at + 2, Some(at + 2);
          }
          at, jumped := target, true;
        } else {
          ResumeNoLabel(packet, at, loop, Free(), text, jump);
          return Failed(FormatError), text, at, jumped, loop;
        }
        if at >= |packet| {
          ResumeNoLabel(packet, at, loop, Free(), text, jump);
          return Failed(Overrun), text, at, jumped, loop;
        }
        more := packet[at] != 0;
      }
      status := Okay;
    }

    /** read_domain. The loop test reads a byte, and the terminator is stored, without a test of
        either size; the model stops there. */
    method ReadDomain() returns (status: Status, text: Bytes)
      requires Valid()
      modifies this`pos, this`used, dest
      ensures Valid()
      ensures Took(ReadName(packet, old(pos), old(Free())), text, status)
      ensures status == Okay ==> Stored() == old(Stored()) + text + [0]
    {
      hide ReadName, ReadOn, Resume, Stored;
      ghost var zero := pos < |packet| && packet[pos] == 0;
      ghost var all := ReadName(packet, pos, Free());
      if zero {
        ZeroFirst(packet, pos, Free());
      } else {
        ResumeFirst(packet, pos, Free());
      }
      var at, jumped;
      ghost var loop;
      status, text, at, jumped, loop := WalkLabels(all, zero);
      if status != Okay {
        return;
      }
      if !zero {
        ResumeEnd(packet, at, loop, Free(), text, if jumped then Some(pos) else None);
      }
      if !jumped {
        pos := at + 1;
      }
      if Free() == 0 {
        return Failed(Overrun), text;
      }
      Store([0]);
    }

    /** read_string. */
    method ReadCounted() returns (status: Status, text: Bytes)
      requires Valid()
      modifies this`pos, this`used, dest
      ensures Valid()
      ensures Took(ReadString(packet, old(pos), old(Free())), text, status)
      ensures status == Okay ==> |text| <= 255
      ensures status == Okay ==> Stored() == old(Stored()) + text + [0]
    {
      text := [];
      if pos >= |packet| {
        return Failed(Overrun), text;
      }
      var len: nat := packet[pos];
      if Free() < len + 1 {
        return Failed(NoMemory), text;
      }
      if |packet| - pos < len + 1 {
        return Failed(FormatError), text;
      }
      text := packet[pos + 1..pos + 1 + len];
      Store(text);
      pos := pos + (len + 1);
      Store([0]);
      status := Okay;
    }

    /** decode_rr_txt: chunks joined until the record is used up. */
    method DecodeText(length: nat) returns (status: Status, text: Bytes)
      requires Valid()
      modifies this`pos, this`used, dest
      ensures Valid()
      ensures Took(ReadText(packet, old(pos), old(Free()), length), text, status)
      ensures status == Okay ==> Stored() == old(Stored()) + text + [0]
    {
      hide ReadText, WithText;
      text := [];
      var len: nat := length;
      ghost var all := ReadText(packet, pos, Free(), length);
      WithTextFirst(all);
      while len != 0
        invariant Valid()
        invariant Stored() == old(Stored()) + text
        invariant all == WithText(text, ReadText(packet, pos, Free(), len))
        decreases len
      {
        ReadTextStep(packet, pos, Free(), len, text);
        if |packet| - pos < 1 {
          return Failed(FormatError), text;
        }
        var slen: nat := packet[pos];
        pos, len := pos + 1, len - 1;
        if slen > len {
          return Failed(FormatError), text;
        }
        if |packet| - pos < slen {
          return Failed(FormatError), text;
        }
        if Free() < slen {
          return Failed(NoMemory), text;
        }
        Store(packet[pos..pos + slen]);
        text := text + packet[pos..pos + slen];
        pos, len := pos + slen, len - slen;
      }
      ReadTextStep(packet, pos, Free(), len, text);
      if Free() == 0 {
        return Failed(NoMemory), text;
      }
      Store([0]);
      status := Okay;
    }

    /** read_uint16, memcpy and read_uint32, which test no size. */
    method ReadRaw(n: nat) returns (status: Status, b: Bytes)
      requires Valid()
      modifies this`pos
      ensures Valid()
      ensures match Take(packet, old(pos), n)
              case Err(rc) => status == Failed(rc)
              case Ok(v) => status == Okay && b == v && pos == old(pos) + n
    {
      if pos + n > |packet| {
        return Failed(Overrun), [];
      }
      b := packet[pos..pos + n];
      pos := pos + n;
      status := Okay;
    }

    /** One field of each kind, as the bodies below ask for them. */
    method Next(k: Kind, len: nat, ghost t: Shape) returns (status: Status, f: Field)
      requires Valid()
      modifies this`pos, this`used, dest
      ensures Valid() && (status == Okay ==> old(Stored()) <= Stored())
      ensures match ReadFields(packet, old(pos), old(Free()), len, Get(k, t))
              case Err(rc) => status == Failed(rc) ||
                              (status == Okay && ReadFields(packet, pos, Free(), len, t) == Err(rc))
              case Ok(g) => status == Okay && g.value.More? && g.value.field == f &&
                            ReadFields(packet, pos, Free(), len, t) == Ok(g.(value := g.value.rest))
      ensures status == Okay ==> Reads(k, f)
    {
      hide ReadFields, ReadName, ReadText, ReadString;
      ReadStep(packet, pos, Free(), len, k, t);
      f := Num16(0);
      match k {
        case GetName =>
          var text;
          status, text := ReadDomain();
          f := Domain(text);
        case GetString =>
          var text;
          status, text := ReadCounted();
          f := Str(text);
        case GetText =>
          var text;
          status, text := DecodeText(len);
          f := Txt(text);
        case GetFixed(n) =>
          var b;
          status, b := ReadRaw(n);
          f := Fixed(b);
        case Get16 =>
          var b;
          status, b := ReadRaw(2);
          if status == Okay {
            f := Num16(GetU16(b));
          }
        case Get32 =>
          var b;
          status, b := ReadRaw(4);
          if status == Okay {
            f := Num32(GetU32(b));
          }
      }
    }

    /** decode_rr_a. */
    method DecodeA(len: nat) returns (status: Status, fs: Fields)
      requires Valid()
      modifies this`pos, this`used, dest
      ensures Valid() && (status == Okay ==> old(Stored()) <= Stored())
      ensures Took(ReadFields(packet, old(pos), old(Free()), len, ShapeOf(Address)), fs, status)
    {
      hide ReadFields, Reads;
      fs := Done;
      ghost var s := ShapeOf(Address);
      ReadTests(packet, pos, Free(), len, 4, s.rest);
      if len != 4 {
        return Failed(FormatError), fs;
      }
      s := s.rest;
      s := s.rest;
      var a;
      status, a := Next(GetFixed(4), len, s);
      if status != Okay {
        return;
      }
      ReadTests(packet, pos, Free(), len, 0, Finish);
      fs := More(a, Done);
    }

    /** decode_rr_aaaa. */
    method DecodeAaaa(len: nat) returns (status: Status, fs: Fields)
      requires Valid()
      modifies this`pos, this`used, dest
      ensures Valid() && (status == Okay ==> old(Stored()) <= Stored())
      ensures Took(ReadFields(packet, old(pos), old(Free()), len, ShapeOf(Address6)), fs, status)
    {
      hide ReadFields, Reads;
      fs := Done;
      ghost var s := ShapeOf(Address6);
      ReadTests(packet, pos, Free(), len, 16, s.rest);
      if len != 16 {
        return Failed(FormatError), fs;
      }
      s := s.rest;
      s := s.rest;
      var a;
      status, a := Next(GetFixed(16), len, s);
      if status != Okay {
        return;
      }
      ReadTests(packet, pos, Free(), len, 0, Finish);
      fs := More(a, Done);
    }

    /** read_domain as a whole body. */
    method DecodeHost(len: nat) returns (status: Status, fs: Fields)
      requires Valid()
      modifies this`pos, this`used, dest
      ensures Valid() && (status == Okay ==> old(Stored()) <= Stored())
      ensures Took(ReadFields(packet, old(pos), old(Free()), len, ShapeOf(Host)), fs, status)
    {
      hide ReadFields, Reads;
      fs := Done;
      ghost var s := ShapeOf(Host);
      s := s.rest;
      var a;
      status, a := Next(GetName, len, s);
      if status != Okay {
        return;
      }
      ReadTests(packet, pos, Free(), len, 0, Finish);
      fs := More(a, Done);
    }

    /** decode_rr_txt as a whole body. */
    method DecodeTxt(len: nat) returns (status: Status, fs: Fields)
      requires Valid()
      modifies this`pos, this`used, dest
      ensures Valid() && (status == Okay ==> old(Stored()) <= Stored())
      ensures Took(ReadFields(packet, old(pos), old(Free()), len, ShapeOf(Text)), fs, status)
    {
      hide ReadFields, Reads;
      fs := Done;
      ghost var s := ShapeOf(Text);
      s := s.rest;
      var a;
      status, a := Next(GetText, len, s);
      if status != Okay {
        return;
      }
      ReadTests(packet, pos, Free(), len, 0, Finish);
      fs := More(a, Done);
    }

    /** decode_rr_minfo. */
    method DecodeMinfo(len: nat) returns (status: Status, fs: Fields)
      requires Valid()
      modifies this`pos, this`used, dest
      ensures Valid() && (status == Okay ==> old(Stored()) <= Stored())
      ensures Took(ReadFields(packet, old(pos), old(Free()), len, ShapeOf(Minfo)), fs, status)
    {
      hide ReadFields, Reads;
      fs := Done;
      ghost var s := ShapeOf(Minfo);
      s := s.rest;
      var a;
      status, a := Next(GetName, len, s);
      if status != Okay {
        return;
      }
      s := s.rest;
      var b;
      status, b := Next(GetName, len, s);
      if status != Okay {
        return;
      }
      ReadTests(packet, pos, Free(), len, 0, Finish);
      fs := More(a, More(b, Done));
    }

    /** decode_rr_hinfo. */
    method DecodeHinfo(len: nat) returns (status: Status, fs: Fields)
      requires Valid()
      modifies this`pos, this`used, dest
      ensures Valid() && (status == Okay ==> old(Stored()) <= Stored())
      ensures Took(ReadFields(packet, old(pos), old(Free()), len, ShapeOf(Hinfo)), fs, status)
    {
      hide ReadFields, Reads;
      fs := Done;
      ghost var s := ShapeOf(Hinfo);
      s := s.rest;
      var a;
      status, a := Next(GetString, len, s);
      if status != Okay {
        return;
      }
      s := s.rest;
      var b;
      status, b := Next(GetString, len, s);
      if status != Okay {
        return;
      }
      ReadTests(packet, pos, Free(), len, 0, Finish);
      fs := More(a, More(b, Done));
    }

    /** decode_rr_mx. */
    method DecodeMx(len: nat) returns (status: Status, fs: Fields)
      requires Valid()
      modifies this`pos, this`used, dest
      ensures Valid() && (status == Okay ==> old(Stored()) <= Stored())
      ensures Took(ReadFields(packet, old(pos), old(Free()), len, ShapeOf(Mx)), fs, status)
    {
      hide ReadFields, Reads;
      fs := Done;
      ghost var s := ShapeOf(Mx);
      ReadTests(packet, pos, Free(), len, 4, s.rest);
      if len < 4 {
        return Failed(FormatError), fs;
      }
      s := s.rest;
      s := s.rest;
      var a;
      status, a := Next(Get16, len, s);
      if status != Okay {
        return;
      }
      s := s.rest;
      var b;
      status, b := Next(GetName, len, s);
      if status != Okay {
        return;
      }
      ReadTests(packet, pos, Free(), len, 0, Finish);
      fs := More(a, More(b, Done));
    }

    /** decode_rr_srv. */
    method DecodeSrv(len: nat) returns (status: Status, fs: Fields)
      requires Valid()
      modifies this`pos, this`used, dest
      ensures Valid() && (status == Okay ==> old(Stored()) <= Stored())
      ensures Took(ReadFields(packet, old(pos), old(Free()), len, ShapeOf(Srv)), fs, status)
    {
      hide ReadFields, Reads;
      fs := Done;
      ghost var s := ShapeOf(Srv);
      ReadTests(packet, pos, Free(), len, 7, s.rest);
      if len < 7 {
        return Failed(FormatError), fs;
      }
      s := s.rest;
      s := s.rest;
      var a;
      status, a := Next(Get16, len, s);
      if status != Okay {
        return;
      }
      s := s.rest;
      var b;
      status, b := Next(Get16, len, s);
      if status != Okay {
        return;
      }
      s := s.rest;
      var c;
      status, c := Next(Get16, len, s);
      if status != Okay {
        return;
      }
      s := s.rest;
      var d;
      status, d := Next(GetName, len, s);
      if status != Okay {
        return;
      }
      ReadTests(packet, pos, Free(), len, 0, Finish);
      fs := More(a, More(b, More(c, More(d, Done))));
    }

    /** decode_rr_naptr. */
    method DecodeNaptr(len: nat) returns (status: Status, fs: Fields)
      requires Valid()
      modifies this`pos, this`used, dest
      ensures Valid() && (status == Okay ==> old(Stored()) <= Stored())
      ensures Took(ReadFields(packet, old(pos), old(Free()), len, ShapeOf(Naptr)), fs, status)
    {
      hide ReadFields, Reads;
      fs := Done;
      ghost var s := ShapeOf(Naptr);
      ReadTests(packet, pos, Free(), len, 4, s.rest);
      if len < 4 {
        return Failed(FormatError), fs;
      }
      s := s.rest;
      s := s.rest;
      var a;
      status, a := Next(Get16, len, s);
      if status != Okay {
        return;
      }
      s := s.rest;
      var b;
      status, b := Next(Get16, len, s);
      if status != Okay {
        return;
      }
      s := s.rest;
      var c;
      status, c := Next(GetString, len, s);
      if status != Okay {
        return;
      }
      s := s.rest;
      var d;
      status, d := Next(GetString, len, s);
      if status != Okay {
        return;
      }
      s := s.rest;
      var e;
      status, e := Next(GetString, len, s);
      if status != Okay {
        return;
      }
      s := s.rest;
      var f;
      status, f := Next(GetName, len, s);
      if status != Okay {
        return;
      }
      ReadTests(packet, pos, Free(), len, 0, Finish);
      fs := More(a, More(b, More(c, More(d, More(e, More(f, Done))))));
    }

    /** decode_rr_soa. */
    method DecodeSoa(len: nat) returns (status: Status, fs: Fields)
      requires Valid()
      modifies this`pos, this`used, dest
      ensures Valid() && (status == Okay ==> old(Stored()) <= Stored())
      ensures Took(ReadFields(packet, old(pos), old(Free()), len, ShapeOf(Soa)), fs, status)
    {
      hide ReadFields, Reads;
      fs := Done;
      ghost var s := ShapeOf(Soa);
      s := s.rest;
      var a;
      status, a := Next(GetName, len, s);
      if status != Okay {
        return;
      }
      s := s.rest;
      var b;
      status, b := Next(GetName, len, s);
      if status != Okay {
        return;
      }
      ReadTests(packet, pos, Free(), len, 20, s.rest);
      if len < 20 {
        return Failed(FormatError), fs;
      }
      s := s.rest;
      s := s.rest;
      var c;
      status, c := Next(Get32, len, s);
      if status != Okay {
        return;
      }
      s := s.rest;
      var d;
      status, d := Next(Get32, len, s);
      if status != Okay {
        return;
      }
      s := s.rest;
      var e;
      status, e := Next(Get32, len, s);
      if status != Okay {
        return;
      }
      s := s.rest;
      var f;
      status, f := Next(Get32, len, s);
      if status != Okay {
        return;
      }
      s := s.rest;
      var g;
      status, g := Next(Get32, len, s);
      if status != Okay {
        return;
      }
      ReadTests(packet, pos, Free(), len, 0, Finish);
      fs := More(a, More(b, More(c, More(d, More(e, More(f, More(g, Done)))))));
    }

    /** The switch over record types. */
    method DecodeBody(b: Body, len: nat) returns (status: Status, fs: Fields)
      requires Valid() && Modelled(b)
      modifies this`pos, this`used, dest
      ensures Valid() && (status == Okay ==> old(Stored()) <= Stored())
      ensures Took(ReadFields(packet, old(pos), old(Free()), len, ShapeOf(b)), fs, status)
    {
      hide ReadFields, ShapeOf;
      match b {
        case Address => status, fs := DecodeA(len);
        case Address6 => status, fs := DecodeAaaa(len);
        case Host => status, fs := DecodeHost(len);
        case Text => status, fs := DecodeTxt(len);
        case Minfo => status, fs := DecodeMinfo(len);
        case Hinfo => status, fs := DecodeHinfo(len);
        case Mx => status, fs := DecodeMx(len);
        case Srv => status, fs := DecodeSrv(len);
        case Naptr => status, fs := DecodeNaptr(len);
        case Soa => status, fs := DecodeSoa(len);
      }
    }

    method Read16() returns (n: uint16)
      requires Valid() && pos + 2 <= |packet|
      modifies this`pos
      ensures Valid() && n == N16(packet, old(pos)) && pos == old(pos) + 2
    {
      n := GetU16(packet[pos..pos + 2]);
      pos := pos + 2;
    }

    method Read32() returns (n: uint32)
      requires Valid() && pos + 4 <= |packet|
      modifies this`pos
      ensures Valid() && n == N32(packet, old(pos)) && pos == old(pos) + 4
    {
      n := GetU32(packet[pos..pos + 4]);
      pos := pos + 4;
    }

    /** decode_answer. */
    method DecodeRecord() returns (status: Status, a: Answer)
      requires Valid()
      modifies this`pos, this`used, dest
      ensures Valid() && (status == Okay ==> old(Stored()) <= Stored())
      ensures Took(DecodeAnswer(packet, old(pos), old(Free())), a, status)
    {
      hide ReadName, ReadFields, N16, N32, BodyOf, ShapeOf;
      a := Answer([], 0, 0, 0, Done);
      var name;
      status, name := ReadDomain();
      if status != Okay {
        return;
      }
      if |packet| - pos < 10 {
        return Failed(FormatError), a;
      }
      var rtype := Read16();
      if rtype == RR_OPT {
        return Failed(Unmodelled), a;
      }
      var rclass := Read16();
      var ttl := Read32();
      var len := Read16();
      if len > |packet| - pos {
        return Failed(FormatError), a;
      }
      if !Modelled(BodyOf(rtype)) {
        return Failed(Unmodelled), a;
      }
      var fs;
      status, fs := DecodeBody(BodyOf(rtype), len);
      a := Answer(name, rtype, rclass, ttl, fs);
    }

    /** decode_question. */
    method DecodeAsk() returns (status: Status, q: Question)
      requires Valid()
      modifies this`pos, this`used, dest
      ensures Valid() && (status == Okay ==> old(Stored()) <= Stored())
      ensures Took(DecodeQuestion(packet, old(pos), old(Free())), q, status)
    {
      hide ReadName, N16;
      q := Question([], 0, 0);
      var name;
      status, name := ReadDomain();
      if status != Okay {
        return;
      }
      if |packet| - pos < 4 {
        return Failed(FormatError), q;
      }
      var qtype := Read16();
      var qclass := Read16();
      if qtype == RR_OPT {
        return Failed(FormatError), q;
      }
      q := Question(name, qtype, qclass);
    }

    /* ---- Sections ---- */

    /** What has been received is `got`; `asks` tells what is still to come. */
    ghost predicate Receiving(all: Result<Got<seq<Entry>>>, got: seq<Entry>, asks: seq<bool>)
      reads this
    {
      Valid() && all == Ahead(got, DecodeEntries(packet, pos, Free(), asks))
    }

    method ReceiveQuestions(n: nat, ghost all: Result<Got<seq<Entry>>>, ghost asks: seq<bool>)
        returns (status: Status, qs: seq<Question>)
      requires Receiving(all, [], Repeat(true, n) + asks)
      modifies this`pos, this`used, dest
      ensures Valid() && (status == Okay ==> old(Stored()) <= Stored())
      ensures status == Okay ==> |qs| == n && Receiving(all, AskAll(qs), asks)
      ensures status.Failed? ==> all == Err(status.rc)
    {
      hide DecodeEntries, DecodeQuestion;
      qs := [];
      assert AskAll(qs) == [];
      var i := 0;
      while i < n
        invariant i == |qs| <= n && Valid() && old(Stored()) <= Stored()
        invariant Receiving(all, AskAll(qs), Repeat(true, n - i) + asks)
      {
        assert Repeat(true, n - i) + asks == [true] + (Repeat(true, n - i - 1) + asks);
        AheadStep(packet, pos, Free(), true, Repeat(true, n - i - 1) + asks, AskAll(qs));
        var q;
        status, q := DecodeAsk();
        if status != Okay {
          return;
        }
        assert AskAll(qs + [q]) == AskAll(qs) + [Ask(q)];
        qs, i := qs + [q], i + 1;
      }
      assert Repeat(true, n - i) + asks == asks;
      status := Okay;
    }

    method ReceiveRecords(n: nat, ghost all: Result<Got<seq<Entry>>>, ghost got: seq<Entry>, ghost asks: seq<bool>)
        returns (status: Status, rs: seq<Answer>)
      requires Receiving(all, got, Repeat(false, n) + asks)
      modifies this`pos, this`used, dest
      ensures Valid() && (status == Okay ==> old(Stored()) <= Stored())
      ensures status == Okay ==> |rs| == n && Receiving(all, got + RecordAll(rs), asks)
      ensures status.Failed? ==> all == Err(status.rc)
    {
      hide DecodeEntries, DecodeAnswer;
      rs := [];
      assert got + RecordAll(rs) == got;
      var i := 0;
      while i < n
        invariant i == |rs| <= n && Valid() && old(Stored()) <= Stored()
        invariant Receiving(all, got + RecordAll(rs), Repeat(false, n - i) + asks)
      {
        assert Repeat(false, n - i) + asks == [false] + (Repeat(false, n - i - 1) + asks);
        AheadStep(packet, pos, Free(), false, Repeat(false, n - i - 1) + asks, got + RecordAll(rs));
        var a;
        status, a := DecodeRecord();
        if status != Okay {
          return;
        }
        assert got + RecordAll(rs + [a]) == got + RecordAll(rs) + [Record(a)];
        rs, i := rs + [a], i + 1;
      }
      assert Repeat(false, n - i) + asks == asks;
      status := Okay;
    }

    /** The four loops of dns_decode. */
    method DecodeSections(qdcount: nat, ancount: nat, nscount: nat, arcount: nat)
        returns (status: Status, qs: seq<Question>, an: seq<Answer>, ns: seq<Answer>, ar: seq<Answer>)
      requires Valid()
      modifies this`pos, this`used, dest
      ensures Valid()
      ensures var all := DecodeEntries(packet, old(pos), old(Free()), Kinds(qdcount, ancount + nscount + arcount));
              if all.Err? then status == Failed(all.rc)
              else status == Okay && |qs| == qdcount && |an| == ancount && |ns| == nscount && |ar| == arcount
                   && Cut(all.value.value, qs, an, ns, ar)
    {
      hide DecodeEntries, Kinds, Repeat;
      ghost var all := DecodeEntries(packet, pos, Free(), Kinds(qdcount, ancount + nscount + arcount));
      ghost var c := Repeat(false, arcount);
      ghost var b := Repeat(false, nscount) + c;
      ghost var a := Repeat(false, ancount) + b;
      KindsAreRepeats(qdcount, ancount, nscount, arcount);
      AheadFirst(all);
      qs, an, ns, ar := [], [], [], [];
      status, qs := ReceiveQuestions(qdcount, all, a);
      if status != Okay {
        return;
      }
      status, an := ReceiveRecords(ancount, all, AskAll(qs), b);
      if status != Okay {
        return;
      }
      status, ns := ReceiveRecords(nscount, all, AskAll(qs) + RecordAll(an), c);
      if status != Okay {
        return;
      }
      assert c + [] == c;
      status, ar := ReceiveRecords(arcount, all, AskAll(qs) + RecordAll(an) + RecordAll(ns), []);
      if status != Okay {
        return;
      }
      Sections(packet, pos, Free(), all, qs, an, ns, ar);
    }

    /** dns_decode. */
    method DecodeMessage() returns (status: Status, m: Message)
      requires Valid() && pos == 0
      modifies this`pos, this`used, dest
      ensures Valid()
      ensures match Decode(packet, old(Free()))
              case Err(rc) => status == Failed(rc)
              case Ok(v) => status == Okay && m == v
    {
      hide DecodeEntries, FlagsOf, N16, Kinds;
      m := Message(0, 0, 0, FlagsOf(0, 0), [], [], [], []);
      if |packet| < HEADER {
        return Failed(FormatError), m;
      }
      var id := Read16();
      var op: nat, rc: nat := packet[pos], packet[pos + 1];
      pos := pos + 2;
      var qdcount := Read16();
      var ancount := Read16();
      var nscount := Read16();
      var arcount := Read16();
      var qs, an, ns, ar;
      status, qs, an, ns, ar := DecodeSections(qdcount, ancount, nscount, arcount);
      m := Message(id, op / 8 % 16, rc % 16, FlagsOf(op, rc), qs, an, ns, ar);
    }
  }

  /* ---- Sections as the specification lists them ---- */

  function Repeat(b: bool, n: nat): (r: seq<bool>)
    ensures |r| == n
  {
    seq(n, _ => b)
  }

  /** `r`, with `got` received ahead of it. */
  function Ahead(got: seq<Entry>, r: Result<Got<seq<Entry>>>): Result<Got<seq<Entry>>> {
    match r
    case Err(rc) => Err(rc)
    case Ok(g) => Ok(Got(got + g.value, g.pos, g.room))
  }

  lemma AheadFirst(r: Result<Got<seq<Entry>>>)
    ensures Ahead([], r) == r
  {
    if r.Ok? {
      assert [] + r.value.value == r.value.value;
    }
  }

  lemma AheadStep(p: Bytes, pos: nat, room: nat, ask: bool, asks: seq<bool>, got: seq<Entry>)
    ensures var r := DecodeEntry(p, pos, room, ask);
            Ahead(got, DecodeEntries(p, pos, room, [ask] + asks)) ==
            if r.Err? then Err(r.rc)
            else Ahead(got + [r.value.value], DecodeEntries(p, r.value.pos, r.value.room, asks))
  {
    hide DecodeEntry;
    var all := [ask] + asks;
    assert all != [] && all[0] == ask && all[1..] == asks;
    var r := DecodeEntry(p, pos, room, ask);
    if r.Ok? {
      var h := DecodeEntries(p, r.value.pos, r.value.room, asks);
      if h.Ok? {
        assert got + ([r.value.value] + h.value.value) == got + [r.value.value] + h.value.value;
      }
    }
  }

  lemma KindsAreRepeats(qd: nat, an: nat, ns: nat, ar: nat)
    ensures Kinds(qd, an + ns + ar) ==
            Repeat(true, qd) + (Repeat(false, an) + (Repeat(false, ns) + Repeat(false, ar)))
  {
  }

  /** `es` are the four sections, one behind the other. */
  ghost predicate Cut(es: seq<Entry>, qs: seq<Question>, an: seq<Answer>, ns: seq<Answer>, ar: seq<Answer>) {
    && |es| == |qs| + |an| + |ns| + |ar|
    && (forall i :: 0 <= i < |es| ==> es[i].Ask? == (i < |qs|))
    && Questions(es[..|qs|]) == qs
    && Answers(es[|qs|..])[..|an|] == an
    && Answers(es[|qs|..])[|an|..|an| + |ns|] == ns
    && Answers(es[|qs|..])[|an| + |ns|..] == ar
  }

  lemma Sections(p: Bytes, pos: nat, room: nat, all: Result<Got<seq<Entry>>>,
                 qs: seq<Question>, an: seq<Answer>, ns: seq<Answer>, ar: seq<Answer>)
    requires all == Ahead(AskAll(qs) + RecordAll(an) + RecordAll(ns) + RecordAll(ar), DecodeEntries(p, pos, room, []))
    ensures all.Ok? && Cut(all.value.value, qs, an, ns, ar)
  {
    var es := AskAll(qs) + RecordAll(an) + RecordAll(ns) + RecordAll(ar);
    assert es + [] == es;
    assert es[|qs|..] == RecordAll(an + ns + ar);
    assert Answers(es[|qs|..]) == an + ns + ar;
  }

  /** The first of several fields. */
  lemma ReadStep(p: Bytes, pos: nat, room: nat, len: nat, k: Kind, t: Shape)
    ensures var r := ReadField(p, pos, room, len, k);
            ReadFields(p, pos, room, len, Get(k, t)) ==
            if r.Err? then Err(r.rc)
            else
              var h := ReadFields(p, r.value.pos, r.value.room, len, t);
              if h.Err? then Err(h.rc) else Ok(Got(More(r.value.value, h.value.value), h.value.pos, h.value.room))
  {
  }

  lemma ReadTests(p: Bytes, pos: nat, room: nat, len: nat, n: nat, t: Shape)
    ensures ReadFields(p, pos, room, len, Finish) == Ok(Got(Done, pos, room))
    ensures ReadFields(p, pos, room, len, Least(n, t)) ==
            if len < n then Err(FormatError) else ReadFields(p, pos, room, len, t)
    ensures ReadFields(p, pos, room, len, Exactly(n, t)) ==
            if len != n then Err(FormatError) else ReadFields(p, pos, room, len, t)
  {
  }

  /** One more chunk of text. */
  lemma ReadTextStep(p: Bytes, pos: nat, room: nat, len: nat, done: Bytes)
    ensures var r := WithText(done, ReadText(p, pos, room, len));
            if len == 0 then r == if room == 0 then Err(NoMemory) else Ok(Got(done, pos, room - 1))
            else if pos >= |p| then r == Err(FormatError)
            else
              var n := p[pos];
              if n > len - 1 || |p| - (pos + 1) < n then r == Err(FormatError)
              else if room < n then r == Err(NoMemory)
              else r == WithText(done + p[pos + 1..pos + 1 + n], ReadText(p, pos + 1 + n, room - n, len - 1 - n))
  {
    assert done + [] == done;
    if len > 0 && pos < |p| && p[pos] <= len - 1 && |p| - (pos + 1) >= p[pos] && room >= p[pos] {
      var n := p[pos];
      var rest := ReadText(p, pos + 1 + n, room - n, len - 1 - n);
      if rest.Ok? {
        assert done + (p[pos + 1..pos + 1 + n] + rest.value.value) == done + p[pos + 1..pos + 1 + n] + rest.value.value;
      }
    }
  }

  function WithText(done: Bytes, r: Result<Got<Bytes>>): Result<Got<Bytes>> {
    match r
    case Err(rc) => Err(rc)
    case Ok(g) => Ok(Got(done + g.value, g.pos, g.room))
  }

  lemma WithTextFirst(r: Result<Got<Bytes>>)
    ensures WithText([], r) == r
  {
    if r.Ok? {
      assert [] + r.value.value == r.value.value;
    }
  }

  /** The outcome for a name that starts with its end. */
  function ZeroName(pos: nat, room: nat): Result<Got<Bytes>> {
    if room == 0 then Err(NoMemory) else if room == 1 then Err(Overrun) else Ok(Got([DOT], pos + 1, room - 2))
  }

  lemma ZeroFirst(p: Bytes, pos: nat, room: nat)
    requires pos < |p| && p[pos] == 0
    ensures ReadName(p, pos, room) == ZeroName(pos, room)
  {
  }
}
