/** What stands where in a packet, byte by byte and by record type number: the layouts of RFC 1035
    sections 3.3, 3.4 and 4.1, RFC 2782, RFC 3403 and RFC 3596. */
module Layouts {
  import opened Wire
  import opened Names
  import opened Records
  import opened Messages

  /* ---- Bodies by type ---- */

  /** What kinds of fields a body has, in order. */
  function Columns(fs: Fields): seq<Kind>
    requires IsPlain(fs)
  {
    match fs
    case Done => []
    case More(f, rest) =>
      [match f
       case Num16(_) => Get16
       case Num32(_) => Get32
       case Domain(_) => GetName
       case Str(_) => GetString
       case Fixed(b) => GetFixed(|b|)
       case Txt(_) => GetText] + Columns(rest)
  }

  /** Counted strings have at most 255 bytes. */
  predicate Countable(fs: Fields) {
    fs.More? ==> (fs.field.Str? ==> |fs.field.text| <= 255) && Countable(fs.rest)
  }

  /** The types whose bodies are modelled. */
  predicate Numbered(rtype: nat) {
    1 <= rtype <= 9 || 12 <= rtype <= 23 || rtype == 26 || rtype == 28 || rtype == 33 || rtype == 35 || rtype == 99
  }

  /** The columns of each type of record. */
  function ColumnsOf(rtype: uint16): (c: seq<Kind>)
    requires Numbered(rtype)
  {
    if rtype == 1 then [GetFixed(4)]
    else if rtype == 28 then [GetFixed(16)]
    else if rtype == 6 then [GetName, GetName, Get32, Get32, Get32, Get32, Get32]
    else if rtype == 33 then [Get16, Get16, Get16, GetName]
    else if rtype == 35 then [Get16, Get16, GetString, GetString, GetString, GetName]
    else if rtype in {14, 17, 26} then [GetName, GetName]
    else if rtype in {15, 18, 21} then [Get16, GetName]
    else if rtype in {13, 20, 22} then [GetString, GetString]
    else if rtype in {16, 19, 99} then [GetText]
    else [GetName]
  }

  function ShapeColumns(s: Shape): seq<Kind> {
    match s
    case Finish => []
    case Least(_, t) => ShapeColumns(t)
    case Exactly(_, t) => ShapeColumns(t)
    case Get(k, t) => [k] + ShapeColumns(t)
  }

  lemma {:induction false} FitsColumns(fs: Fields, s: Shape)
    requires IsPlain(fs)
    ensures Fits(fs, s) <==> Countable(fs) && Columns(fs) == ShapeColumns(s)
    decreases fs, s
  {
    if s.Least? || s.Exactly? {
      FitsColumns(fs, s.rest);
    } else if fs.More? && s.Get? {
      FitsColumns(fs.rest, s.rest);
      var c, d := Columns(fs), ShapeColumns(s);
      assert c[1..] == Columns(fs.rest) && d[1..] == ShapeColumns(s.rest);
      assert c == d ==> c[0] == d[0] && c[1..] == d[1..];
      assert c[0] == d[0] && c[1..] == d[1..] ==> c == [c[0]] + c[1..] == d;
    }
  }

  lemma LongColumns()
    ensures ShapeColumns(ShapeOf(Soa)) == [GetName, GetName, Get32, Get32, Get32, Get32, Get32]
    ensures ShapeColumns(ShapeOf(Srv)) == [Get16, Get16, Get16, GetName]
    ensures ShapeColumns(ShapeOf(Naptr)) == [Get16, Get16, GetString, GetString, GetString, GetName]
  {
    var two := Get(Get32, Get(Get32, Finish));
    assert ShapeColumns(two) == [Get32, Get32];
    assert ShapeColumns(Get(Get32, Get(Get32, Get(Get32, two)))) == [Get32, Get32, Get32, Get32, Get32];
    var last := Get(GetName, Finish);
    assert ShapeColumns(Get(Get16, last)) == [Get16, GetName];
    var words := Get(GetString, Get(GetString, Get(GetString, last)));
    assert ShapeColumns(Get(GetString, last)) == [GetString, GetName];
    assert ShapeColumns(words) == [GetString, GetString, GetString, GetName];
  }

  lemma ShortColumns()
    ensures ShapeColumns(ShapeOf(Address)) == [GetFixed(4)] && ShapeColumns(ShapeOf(Address6)) == [GetFixed(16)]
    ensures ShapeColumns(ShapeOf(Host)) == [GetName] && ShapeColumns(ShapeOf(Minfo)) == [GetName, GetName]
    ensures ShapeColumns(ShapeOf(Mx)) == [Get16, GetName] && ShapeColumns(ShapeOf(Hinfo)) == [GetString, GetString]
    ensures ShapeColumns(ShapeOf(Text)) == [GetText]
  {
  }

  lemma ShapeByNumber(rtype: uint16)
    ensures Modelled(BodyOf(rtype)) <==> Numbered(rtype)
    ensures Numbered(rtype) ==> ShapeColumns(ShapeOf(BodyOf(rtype))) == ColumnsOf(rtype)
  {
    hide ShapeOf, ShapeColumns;
    ShortColumns();
    LongColumns();
  }

  /** Which records the round trips are about: those of the modelled types, with a body of the columns
      of their type. */
  lemma TypedByNumber(a: Answer)
    ensures Typed(a) <==>
            && Numbered(a.rtype) && IsPlain(a.body) && Countable(a.body) && Columns(a.body) == ColumnsOf(a.rtype)
  {
    hide Fits, Columns, Countable, IsPlain, BodyOf, ShapeOf, ShapeColumns, ColumnsOf, Numbered, Modelled;
    ShapeByNumber(a.rtype);
    if Modelled(BodyOf(a.rtype)) && IsPlain(a.body) {
      FitsColumns(a.body, ShapeOf(BodyOf(a.rtype)));
    }
  }

  /* ---- Reading ---- */

  /** The number in two, or in four, bytes of a packet. */
  function Two(p: Bytes, at: nat): nat
    requires at + 2 <= |p|
  {
    p[at] as int * 256 + p[at + 1]
  }

  function Four(p: Bytes, at: nat): nat
    requires at + 4 <= |p|
  {
    p[at] as int * 16777216 + p[at + 1] as int * 65536 + p[at + 2] as int * 256 + p[at + 3]
  }

  /** A name is read at `pos`, behind it are ten bytes that say what record this is, and behind those
      at `at` its `len` bytes of body. */
  ghost predicate RecordAt(p: Bytes, pos: nat, room: nat, a: Answer, at: nat, left: nat, len: nat) {
    && at >= 10 && at + len <= |p|
    && ReadName(p, pos, room) == Ok(Got(a.name, at - 10, left))
    && Two(p, at - 10) == a.rtype && Two(p, at - 8) == a.rclass && Four(p, at - 6) == a.ttl && Two(p, at - 2) == len
  }

  lemma NumbersAre(p: Bytes, at: nat)
    ensures at + 2 <= |p| ==> N16(p, at) == Two(p, at)
    ensures at + 4 <= |p| ==> N32(p, at) == Four(p, at)
  {
  }

  /** What is left of reading a record is reading the fields of its shape. */
  lemma BodyIsRead(p: Bytes, pos: nat, room: nat, a: Answer, at: nat, left: nat, len: nat)
    requires RecordAt(p, pos, room, a, at, left, len) && Modelled(BodyOf(a.rtype))
    ensures DecodeAnswer(p, pos, room) ==
            match ReadFields(p, at, left, len, ShapeOf(BodyOf(a.rtype)))
            case Err(rc) => Err(rc)
            case Ok(h) => Ok(Got(a.(body := h.value), h.pos, h.room))
  {
    hide ReadName, ReadFields, ShapeOf, Two, Four, N16, N32;
    NumbersAre(p, at - 10);
    NumbersAre(p, at - 8);
    NumbersAre(p, at - 6);
    NumbersAre(p, at - 2);
  }

  /** A number in front of other fields. */
  lemma NumberIsRead(p: Bytes, at: nat, left: nat, len: nat, t: Shape)
    ensures at + 2 <= |p| ==>
              ReadFields(p, at, left, len, Get(Get16, t)) ==
              match ReadFields(p, at + 2, left, len, t)
              case Err(rc) => Err(rc)
              case Ok(h) => Ok(Got(More(Num16(Two(p, at)), h.value), h.pos, h.room))
    ensures at + 4 <= |p| ==>
              ReadFields(p, at, left, len, Get(Get32, t)) ==
              match ReadFields(p, at + 4, left, len, t)
              case Err(rc) => Err(rc)
              case Ok(h) => Ok(Got(More(Num32(Four(p, at)), h.value), h.pos, h.room))
  {
  }

  /** A name, or a counted string, in front of other fields. */
  lemma WordIsRead(p: Bytes, at: nat, left: nat, len: nat, t: Shape)
    ensures ReadName(p, at, left).Ok? ==>
              var g := ReadName(p, at, left).value;
              ReadFields(p, at, left, len, Get(GetName, t)) ==
              match ReadFields(p, g.pos, g.room, len, t)
              case Err(rc) => Err(rc)
              case Ok(h) => Ok(Got(More(Domain(g.value), h.value), h.pos, h.room))
    ensures ReadName(p, at, left).Err? ==>
              ReadFields(p, at, left, len, Get(GetName, t)) == Err(ReadName(p, at, left).rc)
    ensures ReadString(p, at, left).Ok? ==>
              var g := ReadString(p, at, left).value;
              ReadFields(p, at, left, len, Get(GetString, t)) ==
              match ReadFields(p, g.pos, g.room, len, t)
              case Err(rc) => Err(rc)
              case Ok(h) => Ok(Got(More(Str(g.value), h.value), h.pos, h.room))
    ensures ReadString(p, at, left).Err? ==>
              ReadFields(p, at, left, len, Get(GetString, t)) == Err(ReadString(p, at, left).rc)
  {
    hide ReadName, ReadString;
  }

  /** A counted string is its length and as many bytes, and takes one more of the destination. */
  lemma StringStands(p: Bytes, at: nat, left: nat, g: Got<Bytes>)
    ensures ReadString(p, at, left) == Ok(g) <==>
            && at < |p| && p[at] == |g.value| && g.pos == at + 1 + |g.value| <= |p|
            && g.value == p[at + 1..at + 1 + |g.value|] && left == g.room + |g.value| + 1
  {
  }

  /** A (1) and AAAA (28): an address of four, or of sixteen, bytes. */
  lemma AddressRead(p: Bytes, pos: nat, room: nat, a: Answer, at: nat, left: nat, len: nat)
    requires RecordAt(p, pos, room, a, at, left, len) && a.rtype in {1, 28}
    ensures DecodeAnswer(p, pos, room) ==
            if len != (if a.rtype == 1 then 4 else 16) then Err(FormatError)
            else Ok(Got(a.(body := More(Fixed(p[at..at + len]), Done)), at + len, left))
  {
    hide ReadName, Two, Four, DecodeAnswer;
    BodyIsRead(p, pos, room, a, at, left, len);
  }

  /** NS (2), MD, MF, CNAME (5), MB, MG, MR, PTR (12) and NSAP-PTR: a name. */
  lemma HostRead(p: Bytes, pos: nat, room: nat, a: Answer, at: nat, left: nat, len: nat)
    requires RecordAt(p, pos, room, a, at, left, len) && a.rtype in {2, 3, 4, 5, 7, 8, 9, 12, 23}
    ensures DecodeAnswer(p, pos, room) ==
            (var g :- ReadName(p, at, left);
             Ok(Got(a.(body := More(Domain(g.value), Done)), g.pos, g.room)))
  {
    hide ReadName, Two, Four, DecodeAnswer;
    BodyIsRead(p, pos, room, a, at, left, len);
  }

  /** MINFO (14), RP (17) and PX (26): two names. */
  lemma MinfoRead(p: Bytes, pos: nat, room: nat, a: Answer, at: nat, left: nat, len: nat)
    requires RecordAt(p, pos, room, a, at, left, len) && a.rtype in {14, 17, 26}
    ensures DecodeAnswer(p, pos, room) ==
            (var g :- ReadName(p, at, left);
             var h :- ReadName(p, g.pos, g.room);
             Ok(Got(a.(body := More(Domain(g.value), More(Domain(h.value), Done))), h.pos, h.room)))
  {
    hide ReadName, Two, Four, DecodeAnswer;
    BodyIsRead(p, pos, room, a, at, left, len);
  }

  /** MX (15), AFSDB (18) and RT (21): a preference and a name, in at least four bytes. */
  lemma MxRead(p: Bytes, pos: nat, room: nat, a: Answer, at: nat, left: nat, len: nat)
    requires RecordAt(p, pos, room, a, at, left, len) && a.rtype in {15, 18, 21}
    ensures DecodeAnswer(p, pos, room) ==
            if len < 4 then Err(FormatError)
            else
              (var g :- ReadName(p, at + 2, left);
               Ok(Got(a.(body := More(Num16(Two(p, at)), More(Domain(g.value), Done))), g.pos, g.room)))
  {
    hide ReadName, DecodeAnswer;
    BodyIsRead(p, pos, room, a, at, left, len);
  }

  /** SRV (33): priority, weight and port, and a name, in at least seven bytes. */
  lemma SrvRead(p: Bytes, pos: nat, room: nat, a: Answer, at: nat, left: nat, len: nat)
    requires RecordAt(p, pos, room, a, at, left, len) && a.rtype == 33
    ensures DecodeAnswer(p, pos, room) ==
            if len < 7 then Err(FormatError)
            else
              (var g :- ReadName(p, at + 6, left);
               var body := More(Num16(Two(p, at)), More(Num16(Two(p, at + 2)), More(Num16(Two(p, at + 4)),
                           More(Domain(g.value), Done))));
               Ok(Got(a.(body := body), g.pos, g.room)))
  {
    assert at + len <= |p|;
    hide ReadName, Two, Four, DecodeAnswer, RecordAt;
    BodyIsRead(p, pos, room, a, at, left, len);
    var last := Get(GetName, Finish);
    assert ShapeOf(Srv) == Least(7, Get(Get16, Get(Get16, Get(Get16, last))));
    if len >= 7 {
      NumberIsRead(p, at, left, len, Get(Get16, Get(Get16, last)));
      NumberIsRead(p, at + 2, left, len, Get(Get16, last));
      NumberIsRead(p, at + 4, left, len, last);
      WordIsRead(p, at + 6, left, len, Finish);
    }
  }

  /** SOA (6): two names, and in at least twenty bytes five numbers of four. */
  lemma SoaRead(p: Bytes, pos: nat, room: nat, a: Answer, at: nat, left: nat, len: nat)
    requires RecordAt(p, pos, room, a, at, left, len) && a.rtype == 6
    ensures DecodeAnswer(p, pos, room) ==
            (var g :- ReadName(p, at, left);
             var h :- ReadName(p, g.pos, g.room);
             if len < 20 then Err(FormatError)
             else if h.pos + 20 > |p| then Err(Overrun)
             else
               var five := More(Num32(Four(p, h.pos)), More(Num32(Four(p, h.pos + 4)),
                           More(Num32(Four(p, h.pos + 8)), More(Num32(Four(p, h.pos + 12)),
                           More(Num32(Four(p, h.pos + 16)), Done)))));
               Ok(Got(a.(body := More(Domain(g.value), More(Domain(h.value), five))), h.pos + 20, h.room)))
  {
    hide ReadName, Two, Four, DecodeAnswer, RecordAt;
    BodyIsRead(p, pos, room, a, at, left, len);
    var five := Get(Get32, Get(Get32, Get(Get32, Get(Get32, Get(Get32, Finish)))));
    assert ShapeOf(Soa) == Get(GetName, Get(GetName, Least(20, five)));
    WordIsRead(p, at, left, len, Get(GetName, Least(20, five)));
    if ReadName(p, at, left).Ok? {
      var g := ReadName(p, at, left).value;
      WordIsRead(p, g.pos, g.room, len, Least(20, five));
      if ReadName(p, g.pos, g.room).Ok? {
        var h := ReadName(p, g.pos, g.room).value;
        FiveAreRead(p, h.pos, h.room, len, five);
      }
    }
  }

  lemma FiveAreRead(p: Bytes, at: nat, left: nat, len: nat, five: Shape)
    requires five == Get(Get32, Get(Get32, Get(Get32, Get(Get32, Get(Get32, Finish)))))
    ensures ReadFields(p, at, left, len, five) ==
            if at + 20 > |p| then Err(Overrun)
            else Ok(Got(More(Num32(Four(p, at)), More(Num32(Four(p, at + 4)), More(Num32(Four(p, at + 8)),
                        More(Num32(Four(p, at + 12)), More(Num32(Four(p, at + 16)), Done))))), at + 20, left))
  {
    var four := five.rest;
    var three := four.rest;
    var two := three.rest;
    NumberIsRead(p, at, left, len, four);
    NumberIsRead(p, at + 4, left, len, three);
    NumberIsRead(p, at + 8, left, len, two);
    NumberIsRead(p, at + 12, left, len, two.rest);
    NumberIsRead(p, at + 16, left, len, Finish);
    hide Four, N32;
  }

  /** NAPTR (35): order and preference, three counted strings, and a name. */
  lemma NaptrRead(p: Bytes, pos: nat, room: nat, a: Answer, at: nat, left: nat, len: nat)
    requires RecordAt(p, pos, room, a, at, left, len) && a.rtype == 35
    ensures DecodeAnswer(p, pos, room) ==
            if len < 4 then Err(FormatError)
            else
              (var f :- ReadString(p, at + 4, left);
               var g :- ReadString(p, f.pos, f.room);
               var h :- ReadString(p, g.pos, g.room);
               var n :- ReadName(p, h.pos, h.room);
               var words := More(Str(f.value), More(Str(g.value), More(Str(h.value), More(Domain(n.value), Done))));
               Ok(Got(a.(body := More(Num16(Two(p, at)), More(Num16(Two(p, at + 2)), words))), n.pos, n.room)))
  {
    assert at + len <= |p|;
    hide ReadName, ReadString, Two, Four, DecodeAnswer, RecordAt;
    BodyIsRead(p, pos, room, a, at, left, len);
    var last := Get(GetName, Finish);
    var words := Get(GetString, Get(GetString, Get(GetString, last)));
    assert ShapeOf(Naptr) == Least(4, Get(Get16, Get(Get16, words)));
    if len >= 4 {
      NumberIsRead(p, at, left, len, Get(Get16, words));
      NumberIsRead(p, at + 2, left, len, words);
      WordsAreRead(p, at + 4, left, len, words);
    }
  }

  lemma WordsAreRead(p: Bytes, at: nat, left: nat, len: nat, words: Shape)
    requires words == Get(GetString, Get(GetString, Get(GetString, Get(GetName, Finish))))
    ensures ReadFields(p, at, left, len, words) ==
            (var f :- ReadString(p, at, left);
             var g :- ReadString(p, f.pos, f.room);
             var h :- ReadString(p, g.pos, g.room);
             var n :- ReadName(p, h.pos, h.room);
             Ok(Got(More(Str(f.value), More(Str(g.value), More(Str(h.value), More(Domain(n.value), Done)))),
                    n.pos, n.room)))
  {
    hide ReadName, ReadString;
    WordIsRead(p, at, left, len, words.rest);
    if ReadString(p, at, left).Ok? {
      var f := ReadString(p, at, left).value;
      WordIsRead(p, f.pos, f.room, len, words.rest.rest);
      if ReadString(p, f.pos, f.room).Ok? {
        var g := ReadString(p, f.pos, f.room).value;
        WordIsRead(p, g.pos, g.room, len, Get(GetName, Finish));
        if ReadString(p, g.pos, g.room).Ok? {
          var h := ReadString(p, g.pos, g.room).value;
          WordIsRead(p, h.pos, h.room, len, Finish);
        }
      }
    }
  }

  /** HINFO (13), ISDN (20) and NSAP (22): two counted strings. */
  lemma HinfoRead(p: Bytes, pos: nat, room: nat, a: Answer, at: nat, left: nat, len: nat)
    requires RecordAt(p, pos, room, a, at, left, len) && a.rtype in {13, 20, 22}
    ensures DecodeAnswer(p, pos, room) ==
            (var g :- ReadString(p, at, left);
             var h :- ReadString(p, g.pos, g.room);
             Ok(Got(a.(body := More(Str(g.value), More(Str(h.value), Done))), h.pos, h.room)))
  {
    hide ReadName, ReadString, Two, Four, DecodeAnswer;
    BodyIsRead(p, pos, room, a, at, left, len);
  }

  /** TXT (16), X25 (19) and SPF (99): text in chunks that fill the record. */
  lemma TextRead(p: Bytes, pos: nat, room: nat, a: Answer, at: nat, left: nat, len: nat)
    requires RecordAt(p, pos, room, a, at, left, len) && a.rtype in {16, 19, 99}
    ensures DecodeAnswer(p, pos, room) ==
            (var g :- ReadText(p, at, left, len);
             Ok(Got(a.(body := More(Txt(g.value), Done)), g.pos, g.room)))
  {
    hide ReadName, ReadText, Two, Four, DecodeAnswer;
    BodyIsRead(p, pos, room, a, at, left, len);
  }

  /** Which records are not read, and why: their name, too few bytes, or their type. */
  lemma RecordRefused(p: Bytes, pos: nat, room: nat, at: nat)
    ensures ReadName(p, pos, room).Err? ==> DecodeAnswer(p, pos, room) == Err(ReadName(p, pos, room).rc)
    ensures ReadName(p, pos, room).Ok? && at == ReadName(p, pos, room).value.pos + 10 ==>
              if at > |p| then DecodeAnswer(p, pos, room) == Err(FormatError)
              else
                var rtype, len := Two(p, at - 10), Two(p, at - 2);
                && (rtype == 41 ==> DecodeAnswer(p, pos, room) == Err(Unmodelled))
                && (rtype != 41 && at + len > |p| ==> DecodeAnswer(p, pos, room) == Err(FormatError))
                && (at + len <= |p| && !Numbered(rtype) ==> DecodeAnswer(p, pos, room) == Err(Unmodelled))
  {
    hide ReadName, ReadFields, ShapeOf, Two, N16, N32;
    if at >= 10 {
      NumbersAre(p, at - 10);
      NumbersAre(p, at - 2);
    }
  }

  /** A question is a name, its type, which is not OPT (41), and its class. */
  lemma QuestionRead(p: Bytes, pos: nat, room: nat)
    ensures DecodeQuestion(p, pos, room) ==
            (var g :- ReadName(p, pos, room);
             if g.pos + 4 > |p| || Two(p, g.pos) == 41 then Err(FormatError)
             else Ok(Got(Question(g.value, Two(p, g.pos), Two(p, g.pos + 2)), g.pos + 4, g.room)))
  {
    hide ReadName, Two, N16;
    if ReadName(p, pos, room).Ok? {
      NumbersAre(p, ReadName(p, pos, room).value.pos);
      NumbersAre(p, ReadName(p, pos, room).value.pos + 2);
    }
  }

  /* ---- Writing ---- */

  /** The ten bytes between a record's name and its body of `len` bytes. */
  function Ten(a: Answer, len: uint16): Bytes {
    [a.rtype / 256, a.rtype % 256, a.rclass / 256, a.rclass % 256,
     a.ttl / 16777216, a.ttl / 65536 % 256, a.ttl / 256 % 256, a.ttl % 256, len / 256, len % 256]
  }

  /** A record's name is written as `n`, and there are `left` bytes for its body at `at`. */
  ghost predicate NameWritten(pos: nat, segs: seq<Segment>, room: nat, a: Answer, n: Chunk, at: nat, left: nat) {
    && EncodeName(pos, segs, room, Parse(a.name)) == Ok(n)
    && at == pos + |n.bytes| + 10 && room == |n.bytes| + 10 + left
  }

  /** `d` is written as the body of `a`. */
  function Whole(a: Answer, n: Chunk, d: Chunk): Chunk {
    Chunk(n.bytes + Ten(a, |d.bytes| % 65536) + d.bytes, d.segs)
  }

  lemma BodyIsWritten(pos: nat, segs: seq<Segment>, room: nat, a: Answer, n: Chunk, at: nat, left: nat)
    requires NameWritten(pos, segs, room, a, n, at, left) && Modelled(BodyOf(a.rtype))
    ensures EncodeAnswer(pos, segs, room, a) ==
            (var d :- EncodeFields(at, n.segs, left, WithTests(BodyOf(a.rtype), a.body));
             Ok(Whole(a, n, d)))
  {
    hide EncodeName, EncodeFields, WithTests, Parse;
    var len: uint16 := 0;
    TenIsHead(a);
  }

  lemma TenIsHead(a: Answer)
    ensures forall len: uint16 :: Head(a, len) == Ten(a, len)
  {
  }

  lemma LastIsWritten(at: nat, segs: seq<Segment>, left: nat, f: Field)
    ensures EncodeFields(at, segs, left, More(f, Done)) == EncodeField(at, segs, left, f)
  {
    hide EncodeField;
    if EncodeField(at, segs, left, f).Ok? {
      var c := EncodeField(at, segs, left, f).value;
      assert EncodeFields(at + |c.bytes|, c.segs, left - |c.bytes|, Done) == Ok(Chunk([], c.segs));
      assert c.bytes + [] == c.bytes;
    }
  }

  lemma DomainIsWritten(at: nat, segs: seq<Segment>, left: nat, host: Bytes)
    ensures EncodeFields(at, segs, left, More(Domain(host), Done)) == EncodeName(at, segs, left, Parse(host))
  {
    hide EncodeName, Parse, EncodeFields;
    LastIsWritten(at, segs, left, Domain(host));
  }

  lemma AddressWritten(pos: nat, segs: seq<Segment>, room: nat, a: Answer, n: Chunk, at: nat, left: nat, addr: Bytes)
    requires NameWritten(pos, segs, room, a, n, at, left) && a.body == More(Fixed(addr), Done)
    requires (a.rtype == 1 && |addr| == 4) || (a.rtype == 28 && |addr| == 16)
    ensures EncodeAnswer(pos, segs, room, a) ==
            if left < |addr| then Err(NoMemory) else Ok(Chunk(n.bytes + Ten(a, |addr|) + addr, n.segs))
  {
    hide EncodeName, Parse, EncodeAnswer;
    BodyIsWritten(pos, segs, room, a, n, at, left);
    LastIsWritten(at, n.segs, left, Fixed(addr));
  }

  lemma HostWritten(pos: nat, segs: seq<Segment>, room: nat, a: Answer, n: Chunk, at: nat, left: nat, host: Bytes)
    requires NameWritten(pos, segs, room, a, n, at, left) && a.body == More(Domain(host), Done)
    requires a.rtype in {2, 3, 4, 5, 7, 8, 9, 12, 23}
    ensures EncodeAnswer(pos, segs, room, a) ==
            (var d :- EncodeName(at, n.segs, left, Parse(host));
             Ok(Whole(a, n, d)))
  {
    hide EncodeName, Parse, EncodeAnswer, Whole;
    BodyIsWritten(pos, segs, room, a, n, at, left);
    LastIsWritten(at, n.segs, left, Domain(host));
  }

  /** A name in front of other fields. */
  lemma NameIsWritten(at: nat, segs: seq<Segment>, left: nat, host: Bytes, rest: Fields)
    ensures EncodeFields(at, segs, left, More(Domain(host), rest)) ==
            (var c :- EncodeName(at, segs, left, Parse(host));
             var d :- EncodeFields(at + |c.bytes|, c.segs, left - |c.bytes|, rest);
             Ok(Chunk(c.bytes + d.bytes, d.segs)))
  {
    hide EncodeName, Parse;
  }

  /** A number in front of other fields. */
  lemma NumberIsWritten(at: nat, segs: seq<Segment>, left: nat, n: uint16, m: uint32, rest: Fields)
    ensures EncodeFields(at, segs, left, More(Num16(n), rest)) ==
            if left < 2 then Err(NoMemory)
            else
              (var d :- EncodeFields(at + 2, segs, left - 2, rest);
               Ok(Chunk([n / 256, n % 256] + d.bytes, d.segs)))
    ensures EncodeFields(at, segs, left, More(Num32(m), rest)) ==
            if left < 4 then Err(NoMemory)
            else
              (var d :- EncodeFields(at + 4, segs, left - 4, rest);
               Ok(Chunk([m / 16777216, m / 65536 % 256, m / 256 % 256, m % 256] + d.bytes, d.segs)))
  {
    hide EncodeField;
    NumberBytes(at, segs, left, n, m);
  }

  lemma NumberBytes(at: nat, segs: seq<Segment>, left: nat, n: uint16, m: uint32)
    ensures EncodeField(at, segs, left, Num16(n)) ==
            if left < 2 then Err(NoMemory) else Ok(Chunk([n / 256, n % 256], segs))
    ensures EncodeField(at, segs, left, Num32(m)) ==
            if left < 4 then Err(NoMemory)
            else Ok(Chunk([m / 16777216, m / 65536 % 256, m / 256 % 256, m % 256], segs))
  {
  }

  lemma RoomIsWritten(at: nat, segs: seq<Segment>, left: nat, n: nat, rest: Fields)
    ensures EncodeFields(at, segs, left, Room(n, rest)) ==
            if left < n then Err(NoMemory) else EncodeFields(at, segs, left, rest)
  {
    hide EncodeField;
  }

  lemma MinfoWritten(pos: nat, segs: seq<Segment>, room: nat, a: Answer, n: Chunk, at: nat, left: nat,
                     one: Bytes, two: Bytes)
    requires NameWritten(pos, segs, room, a, n, at, left) && a.rtype in {14, 17, 26}
    requires a.body == More(Domain(one), More(Domain(two), Done))
    ensures EncodeAnswer(pos, segs, room, a) ==
            (var c :- EncodeName(at, n.segs, left, Parse(one));
             var d :- EncodeName(at + |c.bytes|, c.segs, left - |c.bytes|, Parse(two));
             Ok(Whole(a, n, Chunk(c.bytes + d.bytes, d.segs))))
  {
    hide EncodeName, Parse, EncodeAnswer, Whole, EncodeFields, NameWritten;
    BodyIsWritten(pos, segs, room, a, n, at, left);
    NameIsWritten(at, n.segs, left, one, More(Domain(two), Done));
    if EncodeName(at, n.segs, left, Parse(one)).Ok? {
      var c := EncodeName(at, n.segs, left, Parse(one)).value;
      LastIsWritten(at + |c.bytes|, c.segs, left - |c.bytes|, Domain(two));
    }
  }

  lemma MxFieldsWritten(at: nat, segs: seq<Segment>, left: nat, pref: uint16, host: Bytes)
    ensures EncodeFields(at, segs, left, Room(2, More(Num16(pref), More(Domain(host), Done)))) ==
            if left < 2 then Err(NoMemory)
            else
              (var d :- EncodeName(at + 2, segs, left - 2, Parse(host));
               Ok(Chunk([pref / 256, pref % 256] + d.bytes, d.segs)))
  {
    hide EncodeName, Parse;
    if left >= 2 {
      NumberIsWritten(at, segs, left, pref, 0, More(Domain(host), Done));
      LastIsWritten(at + 2, segs, left - 2, Domain(host));
    }
  }

  lemma MxWritten(pos: nat, segs: seq<Segment>, room: nat, a: Answer, n: Chunk, at: nat, left: nat,
                  pref: uint16, host: Bytes)
    requires NameWritten(pos, segs, room, a, n, at, left) && a.rtype in {15, 18, 21}
    requires a.body == More(Num16(pref), More(Domain(host), Done))
    ensures EncodeAnswer(pos, segs, room, a) ==
            if left < 2 then Err(NoMemory)
            else
              (var d :- EncodeName(at + 2, n.segs, left - 2, Parse(host));
               Ok(Whole(a, n, Chunk([pref / 256, pref % 256] + d.bytes, d.segs))))
  {
    hide EncodeName, Parse, EncodeAnswer, Whole, NameWritten, EncodeFields;
    BodyIsWritten(pos, segs, room, a, n, at, left);
    MxFieldsWritten(at, n.segs, left, pref, host);
  }

  lemma SrvFieldsWritten(at: nat, segs: seq<Segment>, left: nat, i: uint16, w: uint16, port: uint16, host: Bytes)
    ensures EncodeFields(at, segs, left,
                         Room(7, More(Num16(i), More(Num16(w), More(Num16(port), More(Domain(host), Done)))))) ==
            if left < 7 then Err(NoMemory)
            else
              (var d :- EncodeName(at + 6, segs, left - 6, Parse(host));
               Ok(Chunk([i / 256, i % 256, w / 256, w % 256, port / 256, port % 256] + d.bytes, d.segs)))
  {
    hide EncodeName, Parse, EncodeFields, EncodeField;
    var last := More(Domain(host), Done);
    RoomIsWritten(at, segs, left, 7, More(Num16(i), More(Num16(w), More(Num16(port), last))));
    if left >= 7 {
      NumberIsWritten(at, segs, left, i, 0, More(Num16(w), More(Num16(port), last)));
      NumberIsWritten(at + 2, segs, left - 2, w, 0, More(Num16(port), last));
      NumberIsWritten(at + 4, segs, left - 4, port, 0, last);
      DomainIsWritten(at + 6, segs, left - 6, host);
      if EncodeName(at + 6, segs, left - 6, Parse(host)).Ok? {
        var b := EncodeName(at + 6, segs, left - 6, Parse(host)).value.bytes;
        assert [i / 256, i % 256] + ([w / 256, w % 256] + ([port / 256, port % 256] + b)) ==
               [i / 256, i % 256, w / 256, w % 256, port / 256, port % 256] + b;
      }
    }
  }

  lemma SrvWritten(pos: nat, segs: seq<Segment>, room: nat, a: Answer, n: Chunk, at: nat, left: nat,
                   i: uint16, w: uint16, port: uint16, host: Bytes)
    requires NameWritten(pos, segs, room, a, n, at, left) && a.rtype == 33
    requires a.body == More(Num16(i), More(Num16(w), More(Num16(port), More(Domain(host), Done))))
    ensures EncodeAnswer(pos, segs, room, a) ==
            if left < 7 then Err(NoMemory)
            else
              (var d :- EncodeName(at + 6, n.segs, left - 6, Parse(host));
               var body := [i / 256, i % 256, w / 256, w % 256, port / 256, port % 256] + d.bytes;
               Ok(Whole(a, n, Chunk(body, d.segs))))
  {
    hide EncodeName, Parse, EncodeAnswer, Whole, NameWritten, EncodeFields;
    BodyIsWritten(pos, segs, room, a, n, at, left);
    SrvFieldsWritten(at, n.segs, left, i, w, port, host);
  }

  /** The four bytes of a number. */
  function Quad(m: uint32): Bytes {
    [m / 16777216, m / 65536 % 256, m / 256 % 256, m % 256]
  }

  lemma FiveWritten(at: nat, segs: seq<Segment>, left: nat, u: uint32, v: uint32, x: uint32, y: uint32, z: uint32)
    ensures EncodeFields(at, segs, left,
              Room(20, More(Num32(u), More(Num32(v), More(Num32(x), More(Num32(y), More(Num32(z), Done))))))) ==
            if left < 20 then Err(NoMemory)
            else Ok(Chunk(Quad(u) + Quad(v) + Quad(x) + Quad(y) + Quad(z), segs))
  {
    hide EncodeFields, EncodeField;
    var one := More(Num32(z), Done);
    var two := More(Num32(y), one);
    var three := More(Num32(x), two);
    RoomIsWritten(at, segs, left, 20, More(Num32(u), More(Num32(v), three)));
    if left >= 20 {
      NumberIsWritten(at, segs, left, 0, u, More(Num32(v), three));
      NumberIsWritten(at + 4, segs, left - 4, 0, v, three);
      NumberIsWritten(at + 8, segs, left - 8, 0, x, two);
      NumberIsWritten(at + 12, segs, left - 12, 0, y, one);
      NumberIsWritten(at + 16, segs, left - 16, 0, z, Done);
      NothingIsWritten(at + 20, segs, left - 20);
      FiveJoined(Quad(u), Quad(v), Quad(x), Quad(y), Quad(z));
    }
  }

  lemma NothingIsWritten(at: nat, segs: seq<Segment>, left: nat)
    ensures EncodeFields(at, segs, left, Done) == Ok(Chunk([], segs))
  {
  }

  lemma FiveJoined(a: Bytes, b: Bytes, c: Bytes, d: Bytes, e: Bytes)
    ensures a + (b + (c + (d + (e + [])))) == a + b + c + d + e
  {
  }

  lemma SoaWritten(pos: nat, segs: seq<Segment>, room: nat, a: Answer, n: Chunk, at: nat, left: nat,
                   one: Bytes, two: Bytes, u: uint32, v: uint32, x: uint32, y: uint32, z: uint32)
    requires NameWritten(pos, segs, room, a, n, at, left) && a.rtype == 6
    requires a.body == More(Domain(one), More(Domain(two),
                       More(Num32(u), More(Num32(v), More(Num32(x), More(Num32(y), More(Num32(z), Done)))))))
    ensures EncodeAnswer(pos, segs, room, a) ==
            (var c :- EncodeName(at, n.segs, left, Parse(one));
             var d :- EncodeName(at + |c.bytes|, c.segs, left - |c.bytes|, Parse(two));
             if left < |c.bytes| + |d.bytes| + 20 then Err(NoMemory)
             else
               var five := Quad(u) + Quad(v) + Quad(x) + Quad(y) + Quad(z);
               Ok(Whole(a, n, Chunk(c.bytes + (d.bytes + five), d.segs))))
  {
    hide EncodeName, Parse, EncodeAnswer, Whole, NameWritten, EncodeFields, Quad;
    BodyIsWritten(pos, segs, room, a, n, at, left);
    var five := More(Num32(u), More(Num32(v), More(Num32(x), More(Num32(y), More(Num32(z), Done)))));
    NameIsWritten(at, n.segs, left, one, More(Domain(two), Room(20, five)));
    if EncodeName(at, n.segs, left, Parse(one)).Ok? {
      var c := EncodeName(at, n.segs, left, Parse(one)).value;
      NameIsWritten(at + |c.bytes|, c.segs, left - |c.bytes|, two, Room(20, five));
      if EncodeName(at + |c.bytes|, c.segs, left - |c.bytes|, Parse(two)).Ok? {
        var d := EncodeName(at + |c.bytes|, c.segs, left - |c.bytes|, Parse(two)).value;
        FiveWritten(at + |c.bytes| + |d.bytes|, d.segs, left - |c.bytes| - |d.bytes|, u, v, x, y, z);
      }
    }
  }

  /** A counted string, where `left` bytes are left. */
  function Counted(left: nat, text: Bytes): (r: Result<Bytes>)
    ensures r.Ok? ==> |r.value| <= left
  {
    if |text| > 255 then Err(BadString) else if left < |text| + 1 then Err(NoMemory) else Ok([|text|] + text)
  }

  /** A counted string in front of other fields. */
  lemma StringIsWritten(at: nat, segs: seq<Segment>, left: nat, text: Bytes, rest: Fields)
    ensures EncodeFields(at, segs, left, More(Str(text), rest)) ==
            (var b :- Counted(left, text);
             var d :- EncodeFields(at + |b|, segs, left - |b|, rest);
             Ok(Chunk(b + d.bytes, d.segs)))
  {
    hide EncodeField;
    CountedIsField(at, segs, left, text);
  }

  lemma CountedIsField(at: nat, segs: seq<Segment>, left: nat, text: Bytes)
    ensures EncodeField(at, segs, left, Str(text)) == (var b :- Counted(left, text); Ok(Chunk(b, segs)))
  {
  }

  lemma HinfoWritten(pos: nat, segs: seq<Segment>, room: nat, a: Answer, n: Chunk, at: nat, left: nat,
                     one: Bytes, two: Bytes)
    requires NameWritten(pos, segs, room, a, n, at, left) && a.rtype in {13, 20, 22}
    requires a.body == More(Str(one), More(Str(two), Done))
    ensures EncodeAnswer(pos, segs, room, a) ==
            (var b :- Counted(left, one);
             var c :- Counted(left - |b|, two);
             Ok(Whole(a, n, Chunk(b + c, n.segs))))
  {
    hide EncodeName, Parse, EncodeAnswer, Whole, NameWritten, EncodeFields, EncodeField, Counted;
    BodyIsWritten(pos, segs, room, a, n, at, left);
    StringIsWritten(at, n.segs, left, one, More(Str(two), Done));
    if Counted(left, one).Ok? {
      var b := Counted(left, one).value;
      LastIsWritten(at + |b|, n.segs, left - |b|, Str(two));
      CountedIsField(at + |b|, n.segs, left - |b|, two);
    }
  }

  lemma WordsWritten(at: nat, segs: seq<Segment>, left: nat, f: Bytes, g: Bytes, h: Bytes, host: Bytes)
    ensures EncodeFields(at, segs, left, More(Str(f), More(Str(g), More(Str(h), More(Domain(host), Done))))) ==
            (var a :- Counted(left, f);
             var b :- Counted(left - |a|, g);
             var c :- Counted(left - |a| - |b|, h);
             var d :- EncodeName(at + |a| + |b| + |c|, segs, left - |a| - |b| - |c|, Parse(host));
             Ok(Chunk(a + (b + (c + d.bytes)), d.segs)))
  {
    hide EncodeName, Parse, EncodeFields, EncodeField, Counted;
    var last := More(Domain(host), Done);
    StringIsWritten(at, segs, left, f, More(Str(g), More(Str(h), last)));
    if Counted(left, f).Ok? {
      var a := |Counted(left, f).value|;
      StringIsWritten(at + a, segs, left - a, g, More(Str(h), last));
      if Counted(left - a, g).Ok? {
        var b := |Counted(left - a, g).value|;
        StringIsWritten(at + a + b, segs, left - a - b, h, last);
        if Counted(left - a - b, h).Ok? {
          var c := |Counted(left - a - b, h).value|;
          DomainIsWritten(at + a + b + c, segs, left - a - b - c, host);
        }
      }
    }
  }

  lemma NaptrFieldsWritten(at: nat, segs: seq<Segment>, left: nat, i: uint16, j: uint16, words: Fields)
    ensures EncodeFields(at, segs, left, Room(4, More(Num16(i), More(Num16(j), words)))) ==
            if left < 4 then Err(NoMemory)
            else
              (var d :- EncodeFields(at + 4, segs, left - 4, words);
               Ok(Chunk([i / 256, i % 256] + ([j / 256, j % 256] + d.bytes), d.segs)))
  {
    hide EncodeFields, EncodeField;
    RoomIsWritten(at, segs, left, 4, More(Num16(i), More(Num16(j), words)));
    if left >= 4 {
      NumberIsWritten(at, segs, left, i, 0, More(Num16(j), words));
      NumberIsWritten(at + 2, segs, left - 2, j, 0, words);
    }
  }

  lemma NaptrWritten(pos: nat, segs: seq<Segment>, room: nat, a: Answer, n: Chunk, at: nat, left: nat,
                     i: uint16, j: uint16, f: Bytes, g: Bytes, h: Bytes, host: Bytes)
    requires NameWritten(pos, segs, room, a, n, at, left) && a.rtype == 35
    requires a.body == More(Num16(i), More(Num16(j), More(Str(f), More(Str(g), More(Str(h),
                       More(Domain(host), Done))))))
    ensures EncodeAnswer(pos, segs, room, a) ==
            if left < 4 then Err(NoMemory)
            else
              (var b :- Counted(left - 4, f);
               var c :- Counted(left - 4 - |b|, g);
               var d :- Counted(left - 4 - |b| - |c|, h);
               var e :- EncodeName(at + 4 + |b| + |c| + |d|, n.segs, left - 4 - |b| - |c| - |d|, Parse(host));
               var words := b + (c + (d + e.bytes));
               Ok(Whole(a, n, Chunk([i / 256, i % 256] + ([j / 256, j % 256] + words), e.segs))))
  {
    hide EncodeName, Parse, EncodeAnswer, Whole, NameWritten, EncodeFields, Counted;
    BodyIsWritten(pos, segs, room, a, n, at, left);
    NaptrFieldsWritten(at, n.segs, left, i, j, More(Str(f), More(Str(g), More(Str(h), More(Domain(host), Done)))));
    if left >= 4 {
      WordsWritten(at + 4, n.segs, left - 4, f, g, h, host);
    }
  }

  lemma TextWritten(pos: nat, segs: seq<Segment>, room: nat, a: Answer, n: Chunk, at: nat, left: nat, text: Bytes)
    requires NameWritten(pos, segs, room, a, n, at, left) && a.rtype in {16, 19, 99} && a.body == More(Txt(text), Done)
    ensures EncodeAnswer(pos, segs, room, a) ==
            if left < |TextBytes(text)| then Err(NoMemory) else Ok(Whole(a, n, Chunk(TextBytes(text), n.segs)))
  {
    hide EncodeName, Parse, EncodeAnswer, Whole, TextBytes, EncodeFields, NameWritten;
    BodyIsWritten(pos, segs, room, a, n, at, left);
    LastIsWritten(at, n.segs, left, Txt(text));
  }

  /** What stands in the bytes of a text: chunk `k` starts at byte 256 * k with its length, which is
      255 but in the last one, and then has the bytes of the text from 255 * k on. */
  lemma {:induction false} ChunkStands(text: Bytes, k: nat, j: nat)
    requires 255 * k + j < |text| && j < 255
    ensures 256 * k + 1 + j < |TextBytes(text)|
    ensures TextBytes(text)[256 * k] == if |text| - 255 * k < 255 then |text| - 255 * k else 255
    ensures TextBytes(text)[256 * k + 1 + j] == text[255 * k + j]
    decreases k
  {
    if k > 0 {
      ChunkStands(text[255..], k - 1, j);
    }
  }

  /** The types whose records are not written: WKS, NULL, GPOS, LOC and OPT are not part of this
      model, and the encoder has no case for the others. */
  lemma OtherNotWritten(pos: nat, segs: seq<Segment>, room: nat, a: Answer, n: Chunk, at: nat, left: nat)
    requires NameWritten(pos, segs, room, a, n, at, left)
    ensures a.rtype in {10, 11, 27, 29, 41} ==> EncodeAnswer(pos, segs, room, a) == Err(Unmodelled)
    ensures !Numbered(a.rtype) && a.rtype !in {10, 11, 27, 29, 41} ==>
              EncodeAnswer(pos, segs, room, a) == Err(NotImplemented)
  {
    hide EncodeName, Parse;
  }

  lemma QuestionWritten(at: nat, segs: seq<Segment>, room: nat, q: Question)
    ensures EncodeQuestion(at, segs, room, q) ==
            (var n :- EncodeName(at, segs, room, Parse(q.name));
             if room < |n.bytes| + 4 then Err(NoMemory)
             else Ok(Chunk(n.bytes + [q.qtype / 256, q.qtype % 256, q.qclass / 256, q.qclass % 256], n.segs)))
  {
    hide EncodeName, Parse;
    assert U16(q.qtype) + U16(q.qclass) == [q.qtype / 256, q.qtype % 256, q.qclass / 256, q.qclass % 256];
  }
}
