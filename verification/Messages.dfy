/** Resource records, questions and whole messages (RFC 1035 section 4.1). */
module Messages {
  import opened Wire
  import opened Names
  import opened Records

  const RR_OPT: uint16 := 41
  const HEADER: nat := 12

  /* ---- Record bodies by type ---- */

  /** How the body of a record is laid out. `Other` types have a layout this model leaves out;
      `Unknown` types are those the encoder has no case for. */
  datatype Body =
    | Address | Address6 | Host | Soa | Srv | Naptr | Minfo | Mx | Hinfo | Text | Other | Unknown

  function BodyOf(rtype: uint16): Body {
    if rtype == 1 then Address
    else if rtype == 28 then Address6
    else if rtype == 6 then Soa
    else if rtype == 33 then Srv
    else if rtype == 35 then Naptr
    else if rtype == 14 || rtype == 17 || rtype == 26 then Minfo
    else if rtype == 15 || rtype == 18 || rtype == 21 then Mx
    else if rtype == 13 || rtype == 20 || rtype == 22 then Hinfo
    else if rtype == 16 || rtype == 19 || rtype == 99 then Text
    else if (2 <= rtype <= 5) || (7 <= rtype <= 9) || rtype == 12 || rtype == 23 then Host
    else if rtype == 10 || rtype == 11 || rtype == 27 || rtype == 29 || rtype == RR_OPT then Other
    else Unknown
  }

  predicate Modelled(b: Body) {
    !b.Other? && !b.Unknown?
  }

  /** What the decoder of each body reads, and its tests of the record length. */
  function ShapeOf(b: Body): Shape
    requires Modelled(b)
  {
    match b
    case Address => Exactly(4, Get(GetFixed(4), Finish))
    case Address6 => Exactly(16, Get(GetFixed(16), Finish))
    case Host => Get(GetName, Finish)
    case Soa =>
      Get(GetName, Get(GetName, Least(20,
          Get(Get32, Get(Get32, Get(Get32, Get(Get32, Get(Get32, Finish))))))))
    case Srv => Least(7, Get(Get16, Get(Get16, Get(Get16, Get(GetName, Finish)))))
    case Naptr =>
      Least(4, Get(Get16, Get(Get16, Get(GetString, Get(GetString, Get(GetString, Get(GetName, Finish)))))))
    case Minfo => Get(GetName, Get(GetName, Finish))
    case Mx => Least(4, Get(Get16, Get(GetName, Finish)))
    case Hinfo => Get(GetString, Get(GetString, Finish))
    case Text => Get(GetText, Finish)
  }

  /** The encoder's tests for room, put where it makes them. */
  function WithTests(b: Body, fs: Fields): Fields {
    match b
    case Soa => if fs.More? && fs.rest.More? then More(fs.field, More(fs.rest.field, Room(20, fs.rest.rest))) else fs
    case Srv => Room(7, fs)
    case Naptr => Room(4, fs)
    case Mx => Room(2, fs)
    case _ => fs
  }

  /* ---- Records ---- */

  datatype Question = Question(name: Bytes, qtype: uint16, qclass: uint16)

  datatype Answer = Answer(name: Bytes, rtype: uint16, rclass: uint16, ttl: uint32, body: Fields)

  /** The body is the one its type calls for. */
  predicate Typed(a: Answer) {
    && Modelled(BodyOf(a.rtype))
    && IsPlain(a.body)
    && Fits(a.body, ShapeOf(BodyOf(a.rtype)))
  }

  function Head(a: Answer, length: uint16): Bytes {
    U16(a.rtype) + U16(a.rclass) + U32(a.ttl) + U16(length)
  }

  function EncodeAnswer(at: nat, segs: seq<Segment>, room: nat, a: Answer): (r: Result<Chunk>)
    ensures r.Ok? ==> |r.value.bytes| <= room && |segs| <= |r.value.segs|
    ensures r.Ok? ==> r.value.segs[..|segs|] == segs
  {
    var c :- EncodeName(at, segs, room, Parse(a.name));
    var start := |c.bytes| + 10;
    if room < start then Err(NoMemory)
    else if BodyOf(a.rtype).Other? then Err(Unmodelled)
    else if BodyOf(a.rtype).Unknown? then Err(NotImplemented)
    else
      var d :- EncodeFields(at + start, c.segs, room - start, WithTests(BodyOf(a.rtype), a.body));
      assert d.segs[..|segs|] == d.segs[..|c.segs|][..|segs|];
      Ok(Chunk(c.bytes + Head(a, |d.bytes| % 0x1_0000) + d.bytes, d.segs))
  }

  function N16(p: Bytes, pos: nat): uint16
    requires pos + 2 <= |p|
  {
    GetU16(p[pos..pos + 2])
  }

  function N32(p: Bytes, pos: nat): uint32
    requires pos + 4 <= |p|
  {
    GetU32(p[pos..pos + 4])
  }

  function DecodeAnswer(p: Bytes, pos: nat, room: nat): Result<Got<Answer>> {
    var g :- ReadName(p, pos, room);
    if g.pos + 10 > |p| then Err(FormatError)
    else
      var rtype, len := N16(p, g.pos), N16(p, g.pos + 8);
      if rtype == RR_OPT then Err(Unmodelled)
      else if len > |p| - (g.pos + 10) then Err(FormatError)
      else if !Modelled(BodyOf(rtype)) then Err(Unmodelled)
      else
        var h :- ReadFields(p, g.pos + 10, g.room, len, ShapeOf(BodyOf(rtype)));
        Ok(Got(Answer(g.value, rtype, N16(p, g.pos + 2), N32(p, g.pos + 4), h.value), h.pos, h.room))
  }

  function EncodeQuestion(at: nat, segs: seq<Segment>, room: nat, q: Question): (r: Result<Chunk>)
    ensures r.Ok? ==> |r.value.bytes| <= room && |segs| <= |r.value.segs|
    ensures r.Ok? ==> r.value.segs[..|segs|] == segs
  {
    var c :- EncodeName(at, segs, room, Parse(q.name));
    if room - |c.bytes| < 4 then Err(NoMemory)
    else Ok(Chunk(c.bytes + (U16(q.qtype) + U16(q.qclass)), c.segs))
  }

  function DecodeQuestion(p: Bytes, pos: nat, room: nat): Result<Got<Question>> {
    var g :- ReadName(p, pos, room);
    if g.pos + 4 > |p| then Err(FormatError)
    else if N16(p, g.pos) == RR_OPT then Err(FormatError)
    else Ok(Got(Question(g.value, N16(p, g.pos), N16(p, g.pos + 2)), g.pos + 4, g.room))
  }

  /* ---- Round trip of one record ---- */

  function SameAnswer(a: Answer): Answer {
    Answer(Canonical(Parse(a.name)), a.rtype, a.rclass, a.ttl, SameFields(a.body))
  }

  /** Destination bytes a record, or a question, that was read takes. */
  function AnswerSize(a: Answer): nat {
    |a.name| + 1 + FieldsSize(a.body)
  }

  function SameQuestion(q: Question): Question {
    q.(name := Canonical(Parse(q.name)))
  }

  function QuestionSize(q: Question): nat {
    |q.name| + 1
  }

  lemma Numbers(p: Bytes, at: nat, n: uint16, m: uint32)
    ensures Has(p, at, U16(n)) ==> N16(p, at) == n
    ensures Has(p, at, U32(m)) ==> N32(p, at) == m
  {
    HasSlice(p, at, U16(n));
    HasSlice(p, at, U32(m));
    U16RoundTrip(n);
    U32RoundTrip(m);
  }

  lemma HeadReadBack(p: Bytes, at: nat, a: Answer, length: uint16)
    requires Has(p, at, Head(a, length))
    ensures at + 10 <= |p|
    ensures N16(p, at) == a.rtype && N16(p, at + 2) == a.rclass && N32(p, at + 4) == a.ttl
    ensures N16(p, at + 8) == length
  {
    HasParts(p, at, U16(a.rtype) + U16(a.rclass) + U32(a.ttl), U16(length));
    HasParts(p, at, U16(a.rtype) + U16(a.rclass), U32(a.ttl));
    HasParts(p, at, U16(a.rtype), U16(a.rclass));
    Numbers(p, at, a.rtype, a.ttl);
    Numbers(p, at + 2, a.rclass, a.ttl);
    Numbers(p, at + 4, a.rtype, a.ttl);
    Numbers(p, at + 8, length, a.ttl);
  }

  /** The root as the exchange of an MX record: three bytes of body, which its decoder refuses. */
  predicate RootExchange(a: Answer) {
    BodyOf(a.rtype).Mx? && a.body.More? && a.body.rest.More? && a.body.rest.field.Domain?
    && Parse(a.body.rest.field.name).End?
  }

  /** Bytes of one field, at least. */
  lemma FieldLength(at: nat, segs: seq<Segment>, room: nat, f: Field, e: Chunk)
    requires EncodeField(at, segs, room, f) == Ok(e)
    ensures f.Num16? ==> |e.bytes| == 2
    ensures f.Num32? ==> |e.bytes| == 4
    ensures f.Fixed? ==> |e.bytes| == |f.bytes|
    ensures f.Domain? ==> |e.bytes| >= 1 && (|e.bytes| == 1 <==> Parse(f.name).End?)
  {
  }

  /** Bytes of fields, at least. */
  function LeastBytes(fs: Fields): nat {
    match fs
    case Done => 0
    case Room(_, rest) => LeastBytes(rest)
    case More(f, rest) =>
      (match f
       case Num16(_) => 2
       case Num32(_) => 4
       case Fixed(b) => |b|
       case Domain(name) => if Parse(name).End? then 1 else 2
       case _ => 0) + LeastBytes(rest)
  }

  /** The same, told from the shape. */
  function ShapeBytes(s: Shape): nat {
    match s
    case Finish => 0
    case Least(_, t) => ShapeBytes(t)
    case Exactly(_, t) => ShapeBytes(t)
    case Get(k, t) =>
      (match k
       case Get16 => 2
       case Get32 => 4
       case GetFixed(n) => n
       case GetName => 1
       case _ => 0) + ShapeBytes(t)
  }

  lemma {:induction false} ShapeLength(fs: Fields, s: Shape)
    requires Fits(fs, s)
    ensures ShapeBytes(s) <= LeastBytes(fs)
    decreases fs, s
  {
    if fs.Room? {
      ShapeLength(fs.rest, s);
    } else if s.Least? || s.Exactly? {
      ShapeLength(fs, s.rest);
    } else if fs.More? {
      ShapeLength(fs.rest, s.rest);
    }
  }

  lemma {:induction false} FieldsLength(at: nat, segs: seq<Segment>, room: nat, fs: Fields, d: Chunk)
    requires EncodeFields(at, segs, room, fs) == Ok(d)
    ensures LeastBytes(fs) <= |d.bytes|
    decreases fs
  {
    match fs
    case Done =>
    case Room(_, rest) => FieldsLength(at, segs, room, rest, d);
    case More(f, rest) =>
      var e := EncodeField(at, segs, room, f).value;
      FieldLength(at, segs, room, f, e);
      FieldsLength(at + |e.bytes|, e.segs, room - |e.bytes|, rest,
                   EncodeFields(at + |e.bytes|, e.segs, room - |e.bytes|, rest).value);
  }

  /** One field, and nothing behind it. */
  lemma LastFieldLength(at: nat, segs: seq<Segment>, room: nat, f: Field, d: Chunk)
    requires EncodeFields(at, segs, room, More(f, Done)) == Ok(d)
    ensures EncodeField(at, segs, room, f).Ok? && |d.bytes| == |EncodeField(at, segs, room, f).value.bytes|
  {
    assert EncodeFields(at, segs, room, More(f, Done)).Ok?;
  }

  /** An MX body is two bytes and its exchange. */
  lemma MxLength(at: nat, segs: seq<Segment>, room: nat, pref: uint16, name: Bytes, d: Chunk)
    requires EncodeFields(at, segs, room, Room(2, More(Num16(pref), More(Domain(name), Done)))) == Ok(d)
    ensures |d.bytes| >= 4 <==> !Parse(name).End?
  {
    var fs := More(Num16(pref), More(Domain(name), Done));
    assert EncodeFields(at, segs, room, fs) == Ok(d);
    var rest := EncodeFields(at + 2, segs, room - 2, More(Domain(name), Done)).value;
    LastFieldLength(at + 2, segs, room - 2, Domain(name), rest);
    FieldLength(at + 2, segs, room - 2, Domain(name), EncodeField(at + 2, segs, room - 2, Domain(name)).value);
  }

  /** The tests change nothing but where the encoder gives up. */
  lemma TestsKeep(b: Body, fs: Fields, len: nat)
    requires Modelled(b) && IsPlain(fs) && Fits(fs, ShapeOf(b))
    ensures Fits(WithTests(b, fs), ShapeOf(b))
    ensures SameFields(WithTests(b, fs)) == SameFields(fs)
    ensures TextFills(WithTests(b, fs), len) == TextFills(fs, len)
  {
    if b.Soa? {
      var t := Least(20, Get(Get32, Get(Get32, Get(Get32, Get(Get32, Get(Get32, Finish))))));
      assert Fits(fs.rest, Get(GetName, t));
      var r := fs.rest.rest;
      assert SameFields(fs.rest) == More(Same(fs.rest.field), SameFields(r));
      assert SameFields(More(fs.rest.field, Room(20, r))) == More(Same(fs.rest.field), SameFields(Room(20, r)));
      assert TextFills(fs.rest, len) == TextFills(r, len);
      assert TextFills(More(fs.rest.field, Room(20, r)), len) == TextFills(Room(20, r), len);
      assert Fits(Room(20, r), t);
      assert Fits(More(fs.rest.field, Room(20, r)), Get(GetName, t));
    }
  }

  /** The bodies whose length the decoder tests for equality, or that the tests can refuse. */
  lemma ShortBodies(a: Answer)
    requires Typed(a)
    ensures BodyOf(a.rtype).Address? ==>
              a.body.More? && a.body.field.Fixed? && |a.body.field.bytes| == 4 && a.body.rest.Done?
    ensures BodyOf(a.rtype).Address6? ==>
              a.body.More? && a.body.field.Fixed? && |a.body.field.bytes| == 16 && a.body.rest.Done?
    ensures BodyOf(a.rtype).Text? ==> a.body.More? && a.body.field.Txt? && a.body.rest.Done?
    ensures BodyOf(a.rtype).Mx? ==>
              && a.body.More? && a.body.field.Num16?
              && a.body.rest.More? && a.body.rest.field.Domain? && a.body.rest.rest.Done?
  {
    if a.body.More? {
      assert IsPlain(a.body.rest);
    }
    match BodyOf(a.rtype)
    case Address =>
      assert Fits(a.body, Get(GetFixed(4), Finish));
      assert Fits(a.body.rest, Finish);
    case Address6 =>
      assert Fits(a.body, Get(GetFixed(16), Finish));
      assert Fits(a.body.rest, Finish);
    case Mx =>
      assert Fits(a.body, Get(Get16, Get(GetName, Finish)));
      assert Fits(a.body.rest, Get(GetName, Finish));
      assert IsPlain(a.body.rest.rest);
      assert Fits(a.body.rest.rest, Finish);
    case Text => assert Fits(a.body.rest, Finish);
    case _ =>
  }

  lemma ShapeLengths()
    ensures ShapeBytes(ShapeOf(Soa)) >= 20
    ensures ShapeBytes(ShapeOf(Srv)) >= 7
    ensures ShapeBytes(ShapeOf(Naptr)) >= 4
  {
  }

  lemma {:induction false} PlainAccepts(s: Shape, len: nat)
    requires IsPlainShape(s)
    ensures Accepts(s, len)
    decreases s
  {
    if s.Get? {
      PlainAccepts(s.rest, len);
    }
  }

  lemma Acceptance(b: Body, len: nat)
    requires Modelled(b)
    ensures Accepts(ShapeOf(b), len) <==>
            match b
            case Address => len == 4
            case Address6 => len == 16
            case Soa => len >= 20
            case Srv => len >= 7
            case Naptr => len >= 4
            case Mx => len >= 4
            case _ => true
  {
    match b
    case Soa =>
      var t := ShapeOf(b).rest.rest;
      PlainAccepts(t.rest, len);
      assert Accepts(ShapeOf(b).rest, len) == Accepts(t, len);
    case Srv => PlainAccepts(ShapeOf(b).rest, len);
    case Naptr => PlainAccepts(ShapeOf(b).rest, len);
    case Mx => PlainAccepts(ShapeOf(b).rest, len);
    case Address => PlainAccepts(ShapeOf(b).rest, len);
    case Address6 => PlainAccepts(ShapeOf(b).rest, len);
    case Other =>
    case Unknown =>
    case _ => PlainAccepts(ShapeOf(b), len);
  }

  /** The decoder's tests of the record length accept what the encoder wrote, but for one record. */
  lemma LengthAccepted(at: nat, segs: seq<Segment>, room: nat, a: Answer, d: Chunk)
    requires Typed(a)
    requires EncodeFields(at, segs, room, WithTests(BodyOf(a.rtype), a.body)) == Ok(d)
    ensures Accepts(ShapeOf(BodyOf(a.rtype)), |d.bytes|) <==> !RootExchange(a)
  {
    hide EncodeFields, Parse, Accepts, Fits, LeastBytes, ShapeBytes, ShapeOf;
    var b := BodyOf(a.rtype);
    Acceptance(b, |d.bytes|);
    ShortBodies(a);
    if b.Mx? {
      MxLength(at, segs, room, a.body.field.n, a.body.rest.field.name, d);
    } else if b.Address? || b.Address6? {
      LastFieldLength(at, segs, room, a.body.field, d);
      FieldLength(at, segs, room, a.body.field, EncodeField(at, segs, room, a.body.field).value);
    } else {
      TestsKeep(b, a.body, 0);
      FieldsLength(at, segs, room, WithTests(b, a.body), d);
      ShapeLength(WithTests(b, a.body), ShapeOf(b));
      ShapeLengths();
    }
  }

  /** A text body takes up its record. */
  lemma TextFillsBody(at: nat, segs: seq<Segment>, room: nat, a: Answer, d: Chunk)
    requires Typed(a)
    requires EncodeFields(at, segs, room, WithTests(BodyOf(a.rtype), a.body)) == Ok(d)
    ensures TextFills(a.body, |d.bytes|)
  {
    hide EncodeFields, Fits, TextBytes, BodyOf;
    if BodyOf(a.rtype).Text? {
      ShortBodies(a);
      LastFieldLength(at, segs, room, a.body.field, d);
    } else {
      NoText(a.body, ShapeOf(BodyOf(a.rtype)), |d.bytes|);
    }
  }

  lemma {:induction false} NoText(fs: Fields, s: Shape, len: nat)
    requires Fits(fs, s) && !ReadsText(s)
    ensures TextFills(fs, len)
    decreases fs, s
  {
    if fs.Room? {
      NoText(fs.rest, s, len);
    } else if s.Least? || s.Exactly? {
      NoText(fs, s.rest, len);
    } else if fs.More? {
      NoText(fs.rest, s.rest, len);
    }
  }

  /* ---- Lengths and pointers that are cut ---- */

  /** Text too long for its record's length field, which is cut to sixteen bits. */
  predicate LongText(a: Answer) {
    BodyOf(a.rtype).Text? && a.body.More? && a.body.field.Txt? && |a.body.field.text| >= TEXT_LIMIT
  }

  lemma TextBody(at: nat, segs: seq<Segment>, room: nat, a: Answer, d: Chunk)
    requires Typed(a) && BodyOf(a.rtype).Text?
    requires EncodeFields(at, segs, room, WithTests(BodyOf(a.rtype), a.body)) == Ok(d)
    ensures a.body.More? && a.body.field.Txt? && a.body.rest.Done?
    ensures d.bytes == TextBytes(a.body.field.text)
  {
    hide Fits, TextBytes, BodyOf;
    ShortBodies(a);
    assert EncodeFields(at, segs, room, More(a.body.field, Done)) == Ok(d);
    assert d.bytes == TextBytes(a.body.field.text) + [];
  }

  /** Every other body fits: its names take at most 64 bytes for each of the 100 table entries. */
  lemma BodyLength(at: nat, segs: seq<Segment>, room: nat, a: Answer, d: Chunk)
    requires Typed(a) && |segs| <= MAXSEG
    requires EncodeFields(at, segs, room, WithTests(BodyOf(a.rtype), a.body)) == Ok(d)
    ensures |d.bytes| < 0x1_0000 <==> !LongText(a)
  {
    hide EncodeFields, Fits, TextBytes, BodyOf, MostBytes, ReadsText, ShapeOf;
    var b := BodyOf(a.rtype);
    if b.Text? {
      TextBody(at, segs, room, a, d);
      TextLimit(a.body.field.text);
    } else {
      TestsKeep(b, a.body, 0);
      ShapeBound(b);
      FieldsBound(at, segs, room, WithTests(b, a.body), ShapeOf(b), d);
    }
  }

  lemma ShapeBound(b: Body)
    requires Modelled(b) && !b.Text?
    ensures !ReadsText(ShapeOf(b)) && MostBytes(ShapeOf(b)) <= 774
  {
    var five := Get(Get32, Get(Get32, Get(Get32, Get(Get32, Get(Get32, Finish)))));
    assert !ReadsText(five.rest.rest) && MostBytes(five.rest.rest) == 12;
    assert !ReadsText(five) && MostBytes(five) == 20;
    var strings := Get(GetString, Get(GetString, Get(GetString, Get(GetName, Finish))));
    assert !ReadsText(strings.rest.rest) && MostBytes(strings.rest.rest) == 258;
    assert !ReadsText(strings) && MostBytes(strings) == 770;
  }

  /** A pointer in what is written for a record, or for a question or a record, is cut. */
  predicate AnswerCut(at: nat, segs: seq<Segment>, room: nat, a: Answer) {
    PointerCut(at, segs, Parse(a.name)) ||
    match EncodeName(at, segs, room, Parse(a.name))
    case Err(_) => false
    case Ok(n) =>
      var start := |n.bytes| + 10;
      start <= room && FieldsCut(at + start, n.segs, room - start, WithTests(BodyOf(a.rtype), a.body))
  }

  /* ---- Round trip of a record ---- */

  /** The parts of an encoded record. */
  lemma AnswerParts(p: Bytes, at: nat, segs: seq<Segment>, room: nat, a: Answer, c: Chunk) returns (n: Chunk, d: Chunk)
    requires EncodeAnswer(at, segs, room, a) == Ok(c) && Typed(a)
    requires Has(p, at, c.bytes) && TableOk(p, at, segs)
    ensures EncodeName(at, segs, room, Parse(a.name)) == Ok(n) && |n.bytes| + 10 <= room
    ensures Sent(p, at + |n.bytes| + 10, n.segs, room - |n.bytes| - 10, WithTests(BodyOf(a.rtype), a.body), d)
    ensures c.segs == d.segs && |c.bytes| == |n.bytes| + 10 + |d.bytes| && |n.segs| <= MAXSEG
    ensures Has(p, at, n.bytes) && Has(p, at + |n.bytes|, Head(a, |d.bytes| % 0x1_0000))
  {
    hide EncodeName, EncodeFields, Parse, Typed, EntriesOk, Has, Head;
    n := EncodeName(at, segs, room, Parse(a.name)).value;
    var start := |n.bytes| + 10;
    d := EncodeFields(at + start, n.segs, room - start, WithTests(BodyOf(a.rtype), a.body)).value;
    assert |Head(a, |d.bytes| % 0x1_0000)| == 10 by { HeadLength(a, |d.bytes| % 0x1_0000); }
    HasParts(p, at, n.bytes + Head(a, |d.bytes| % 0x1_0000), d.bytes);
    HasParts(p, at, n.bytes, Head(a, |d.bytes| % 0x1_0000));
    ParseIsParsed(a.name);
    NameKeepsTable(p, at, segs, room, Parse(a.name), n);
    TableLater(p, at + |n.bytes|, at + start, n.segs);
  }

  lemma HeadLength(a: Answer, length: uint16)
    ensures |Head(a, length)| == 10
  {
  }

  /** The length that is written back into a record counts the bytes behind its fixed part exactly
      when it holds no text of more than 65279 bytes. */
  lemma RecordLength(p: Bytes, at: nat, segs: seq<Segment>, room: nat, a: Answer, c: Chunk) returns (start: nat)
    requires EncodeAnswer(at, segs, room, a) == Ok(c) && Typed(a)
    requires Has(p, at, c.bytes) && TableOk(p, at, segs)
    ensures EndsAt(p, at, start) && start + 10 <= |p|
    ensures N16(p, start) == a.rtype && N16(p, start + 2) == a.rclass && N32(p, start + 4) == a.ttl
    ensures start + 10 + N16(p, start + 8) == at + |c.bytes| <==> !LongText(a)
  {
    hide EncodeAnswer, EncodeName, EncodeFields, Parse, Typed, EntriesOk, N16, N32, Head, LongText, Has;
    var n, d := AnswerParts(p, at, segs, room, a, c);
    ParseIsParsed(a.name);
    NameEnds(p, at, segs, room, Parse(a.name), n);
    start := at + |n.bytes|;
    HeadReadBack(p, start, a, |d.bytes| % 0x1_0000);
    BodyLength(start + 10, n.segs, room - |n.bytes| - 10, a, d);
  }

  lemma MxRefused(p: Bytes, pos: nat, room: nat, len: nat)
    requires !Accepts(ShapeOf(Mx), len)
    ensures ReadFields(p, pos, room, len, ShapeOf(Mx)) == Err(FormatError)
  {
    Acceptance(Mx, len);
  }

  /** The decoder refuses the record: an MX for the root, or text that is too long and does not end
      in a whole chunk. */
  predicate Rejected(a: Answer) {
    RootExchange(a) || (LongText(a) && |a.body.field.text| % 255 != 0)
  }

  predicate Kept(a: Answer) {
    !RootExchange(a) && !LongText(a)
  }

  /** What is left of too much text. */
  function CutText(a: Answer): Fields
    requires LongText(a)
  {
    var text := a.body.field.text;
    More(Txt(text[..|text| % TEXT_LIMIT]), Done)
  }

  function WithCutText(a: Answer): Answer
    requires LongText(a)
  {
    SameAnswer(a).(body := CutText(a))
  }

  /** Cut text is not the text. */
  lemma CutTextDiffers(a: Answer)
    requires LongText(a)
    ensures CutText(a) != a.body && CutText(a) != SameFields(a.body)
  {
    assert |a.body.field.text| % TEXT_LIMIT < TEXT_LIMIT;
    assert SameFields(a.body) == More(a.body.field, SameFields(a.body.rest));
  }

  lemma LongTextBody(p: Bytes, at: nat, text: Bytes, left: nat)
    requires Has(p, at, TextBytes(text)) && |text| >= TEXT_LIMIT
    ensures var len, kept := |TextBytes(text)| % 0x1_0000, |text| % TEXT_LIMIT;
            && (|text| < left ==>
                  ReadFields(p, at, left, len, ShapeOf(Text)) ==
                  if |text| % 255 == 0 then Ok(Got(More(Txt(text[..kept]), Done), at + len, left - kept - 1))
                  else Err(FormatError))
            && (ReadFields(p, at, left, len, ShapeOf(Text)).Ok? ==>
                  && |text| % 255 == 0
                  && ReadFields(p, at, left, len, ShapeOf(Text)).value.value == More(Txt(text[..kept]), Done))
  {
    hide TextBytes, ReadText, Has;
    if |text| < left {
      LongTextRead(p, at, text, left);
    }
    if ReadText(p, at, left, |TextBytes(text)| % 0x1_0000).Ok? {
      LongTextOnly(p, at, text, left);
    }
  }

  /** What comes back of the body of a record, and of a record that is not rejected. */
  ghost predicate BodyArrives(p: Bytes, at: nat, segs: seq<Segment>, room: nat, a: Answer, body: Fields) {
    if LongText(a) then body == CutText(a)
    else FieldsArrive(p, at, segs, room, WithTests(BodyOf(a.rtype), a.body), body)
  }

  ghost predicate AnswerArrives(p: Bytes, at: nat, segs: seq<Segment>, room: nat, a: Answer, b: Answer) {
    && !Rejected(a)
    && NameArrives(p, at, segs, Parse(a.name), b.name)
    && b.rtype == a.rtype && b.rclass == a.rclass && b.ttl == a.ttl
    && match EncodeName(at, segs, room, Parse(a.name))
       case Err(_) => false
       case Ok(n) =>
         var start := |n.bytes| + 10;
         start <= room && BodyArrives(p, at + start, n.segs, room - start, a, b.body)
  }

  /** What the decoder makes of the body. */
  function BodyResult(p: Bytes, at: nat, left: nat, a: Answer, d: Chunk): Result<Got<Fields>>
    requires Modelled(BodyOf(a.rtype))
  {
    ReadFields(p, at, left, |d.bytes| % 0x1_0000, ShapeOf(BodyOf(a.rtype)))
  }

  lemma LongBodyRoundTrip(p: Bytes, at: nat, segs: seq<Segment>, room: nat, a: Answer, d: Chunk, left: nat)
    requires Typed(a) && Sent(p, at, segs, room, WithTests(BodyOf(a.rtype), a.body), d) && LongText(a)
    ensures TableOk(p, at + |d.bytes|, d.segs)
    ensures BodyResult(p, at, left, a, d).Ok? ==>
              !Rejected(a) && BodyArrives(p, at, segs, room, a, BodyResult(p, at, left, a, d).value.value)
    ensures |a.body.field.text| < left ==>
              if Rejected(a) then BodyResult(p, at, left, a, d) == Err(FormatError)
              else BodyResult(p, at, left, a, d).Ok?
  {
    hide EncodeFields, ReadFields, EntriesOk, Fits, TextBytes, Has, WithTests, FieldsArrive;
    SentKeepsTable(p, at, segs, room, WithTests(BodyOf(a.rtype), a.body), d);
    TextBody(at, segs, room, a, d);
    LongTextBody(p, at, a.body.field.text, left);
  }

  lemma KeptBodyRoundTrip(p: Bytes, at: nat, segs: seq<Segment>, room: nat, a: Answer, d: Chunk, left: nat,
                          body: Fields)
    requires Typed(a) && Sent(p, at, segs, room, WithTests(BodyOf(a.rtype), a.body), d) && !LongText(a)
    ensures TableOk(p, at + |d.bytes|, d.segs)
    ensures RootExchange(a) ==> BodyResult(p, at, left, a, d) == Err(FormatError)
    ensures Kept(a) && BodyArrives(p, at, segs, room, a, body) && FieldsSize(body) <= left ==>
              BodyResult(p, at, left, a, d) == Ok(Got(body, at + |d.bytes|, left - FieldsSize(body)))
    ensures BodyResult(p, at, left, a, d).Ok? ==>
              var g := BodyResult(p, at, left, a, d).value;
              && BodyArrives(p, at, segs, room, a, g.value)
              && FieldsSize(g.value) <= left && g.pos == at + |d.bytes| && g.room == left - FieldsSize(g.value)
  {
    hide EncodeFields, ReadFields, EntriesOk, FieldsArrive, FieldsSize, WithTests, BodyOf, ShapeOf, Fits, IsPlain,
         Accepts, LongText, TextFills, Has;
    var b := BodyOf(a.rtype);
    BodyLength(at, segs, room, a, d);
    LengthAccepted(at, segs, room, a, d);
    SentKeepsTable(p, at, segs, room, WithTests(b, a.body), d);
    if RootExchange(a) {
      MxRefused(p, at, left, |d.bytes|);
    } else {
      TestsKeep(b, a.body, |d.bytes|);
      TextFillsBody(at, segs, room, a, d);
      FieldsRoundTrip(p, at, segs, room, WithTests(b, a.body), d, ShapeOf(b), |d.bytes|, left, body);
    }
  }

  /** The record `a` with the name `t` and the body that was read. */
  function WithBody(a: Answer, t: Bytes, r: Result<Got<Fields>>): Result<Got<Answer>> {
    var h :- r;
    Ok(Got(Answer(t, a.rtype, a.rclass, a.ttl, h.value), h.pos, h.room))
  }

  /** The name that arrives and the fixed part of a record are read, and the body is read from behind
      them. */
  lemma AnswerStart(p: Bytes, at: nat, segs: seq<Segment>, room: nat, a: Answer, c: Chunk, dest: nat, t: Bytes)
      returns (n: Chunk, d: Chunk)
    requires EncodeAnswer(at, segs, room, a) == Ok(c) && Typed(a)
    requires Has(p, at, c.bytes) && TableOk(p, at, segs)
    ensures EncodeName(at, segs, room, Parse(a.name)) == Ok(n)
    ensures |n.bytes| + 10 <= room && |c.bytes| == |n.bytes| + 10 + |d.bytes| && c.segs == d.segs
    ensures Sent(p, at + |n.bytes| + 10, n.segs, room - |n.bytes| - 10, WithTests(BodyOf(a.rtype), a.body), d)
    ensures NameArrives(p, at, segs, Parse(a.name), t) && |t| < dest ==>
              DecodeAnswer(p, at, dest) ==
              WithBody(a, t, BodyResult(p, at + |n.bytes| + 10, dest - |t| - 1, a, d))
  {
    hide EncodeAnswer, EncodeName, EncodeFields, ReadFields, ReadName, NameArrives, Parse, EntriesOk,
         FieldsSize, Head, WithTests, BodyOf, ShapeOf, Fits, Has;
    n, d := AnswerParts(p, at, segs, room, a, c);
    var mid := at + |n.bytes|;
    ParseIsParsed(a.name);
    NameRoundTrip(p, at, segs, room, Parse(a.name), n, dest, t);
    HeadReadBack(p, mid, a, |d.bytes| % 0x1_0000);
    assert mid + 10 + |d.bytes| <= |p| by { HasInside(p, mid + 10, d.bytes); }
    assert a.rtype != RR_OPT && Modelled(BodyOf(a.rtype)) by { NotOpt(a); }
  }

  lemma HasInside(p: Bytes, at: nat, b: Bytes)
    requires Has(p, at, b)
    ensures at + |b| <= |p|
  {
  }

  lemma NotOpt(a: Answer)
    requires Typed(a)
    ensures a.rtype != RR_OPT && Modelled(BodyOf(a.rtype))
  {
  }

  /** A name was read of every record that was. */
  lemma AnswerNameRead(p: Bytes, at: nat, segs: seq<Segment>, room: nat, a: Answer, c: Chunk, dest: nat)
      returns (t: Bytes)
    requires EncodeAnswer(at, segs, room, a) == Ok(c) && Typed(a)
    requires Has(p, at, c.bytes) && TableOk(p, at, segs) && DecodeAnswer(p, at, dest).Ok?
    ensures NameArrives(p, at, segs, Parse(a.name), t) && |t| < dest
  {
    hide EncodeAnswer, EncodeName, ReadFields, ReadName, NameArrives, Parse, EntriesOk, BodyOf, ShapeOf, N16, N32, Has,
         Sent, Head;
    t := ReadName(p, at, dest).value.value;
    var n, _ := AnswerParts(p, at, segs, room, a, c);
    ParseIsParsed(a.name);
    NameRoundTrip(p, at, segs, room, Parse(a.name), n, dest, t);
  }

  /** `b` is read at `at`, up to `end`. */
  ghost predicate AnswerRead(p: Bytes, at: nat, dest: nat, b: Answer, end: nat) {
    AnswerSize(b) <= dest && DecodeAnswer(p, at, dest) == Ok(Got(b, end, dest - AnswerSize(b)))
  }

  lemma AnswerKeepsTable(p: Bytes, at: nat, segs: seq<Segment>, room: nat, a: Answer, c: Chunk)
    requires EncodeAnswer(at, segs, room, a) == Ok(c) && Typed(a)
    requires Has(p, at, c.bytes) && TableOk(p, at, segs)
    ensures TableOk(p, at + |c.bytes|, c.segs)
  {
    hide EncodeAnswer, EncodeName, Parse, EntriesOk, EncodeFields, WithTests, BodyOf, Head, Has;
    var n, d := AnswerParts(p, at, segs, room, a, c);
    SentKeepsTable(p, at + |n.bytes| + 10, n.segs, room - |n.bytes| - 10, WithTests(BodyOf(a.rtype), a.body), d);
  }

  /** A record whose name arrives as `t`. */
  lemma AnswerBack(p: Bytes, at: nat, segs: seq<Segment>, room: nat, a: Answer, c: Chunk, dest: nat, t: Bytes,
                   body: Fields)
    requires EncodeAnswer(at, segs, room, a) == Ok(c) && Typed(a)
    requires Has(p, at, c.bytes) && TableOk(p, at, segs)
    requires NameArrives(p, at, segs, Parse(a.name), t) && |t| < dest
    ensures var b := Answer(t, a.rtype, a.rclass, a.ttl, body);
            Kept(a) && AnswerArrives(p, at, segs, room, a, b) && AnswerSize(b) <= dest ==>
              AnswerRead(p, at, dest, b, at + |c.bytes|)
    ensures DecodeAnswer(p, at, dest).Ok? ==>
              var g := DecodeAnswer(p, at, dest).value.value;
              AnswerArrives(p, at, segs, room, a, g) && (Kept(a) ==> AnswerRead(p, at, dest, g, at + |c.bytes|))
  {
    hide EncodeAnswer, DecodeAnswer, BodyResult, NameArrives, Parse, EntriesOk, EncodeFields, EncodeName, Fits,
         WithTests, BodyOf, BodyArrives, LongText, RootExchange, FieldsSize, Has, Typed;
    var n, d := AnswerStart(p, at, segs, room, a, c, dest, t);
    var start, left := at + |n.bytes| + 10, dest - |t| - 1;
    if LongText(a) {
      LongBodyRoundTrip(p, start, n.segs, room - |n.bytes| - 10, a, d, left);
    } else {
      KeptBodyRoundTrip(p, start, n.segs, room - |n.bytes| - 10, a, d, left, body);
    }
  }

  /** Of a record exactly what arrives is read, whatever is cut in it or before it. Nothing arrives of
      an MX for the root, and of too much text what is left when it is cut, if that. */
  lemma AnswerRoundTrip(p: Bytes, at: nat, segs: seq<Segment>, room: nat, a: Answer, c: Chunk, dest: nat, b: Answer)
    requires EncodeAnswer(at, segs, room, a) == Ok(c) && Typed(a)
    requires Has(p, at, c.bytes) && TableOk(p, at, segs)
    ensures TableOk(p, at + |c.bytes|, c.segs)
    ensures Kept(a) && AnswerArrives(p, at, segs, room, a, b) && AnswerSize(b) <= dest ==>
              AnswerRead(p, at, dest, b, at + |c.bytes|)
    ensures DecodeAnswer(p, at, dest).Ok? ==>
              var g := DecodeAnswer(p, at, dest).value.value;
              AnswerArrives(p, at, segs, room, a, g) && (Kept(a) ==> AnswerRead(p, at, dest, g, at + |c.bytes|))
  {
    hide EncodeAnswer, DecodeAnswer, NameArrives, Parse, EntriesOk, EncodeName, BodyOf, BodyArrives, LongText,
         RootExchange, FieldsSize, Has, Typed;
    AnswerKeepsTable(p, at, segs, room, a, c);
    if Kept(a) && AnswerArrives(p, at, segs, room, a, b) && AnswerSize(b) <= dest {
      AnswerBack(p, at, segs, room, a, c, dest, b.name, b.body);
    }
    if DecodeAnswer(p, at, dest).Ok? {
      var t := AnswerNameRead(p, at, segs, room, a, c, dest);
      AnswerBack(p, at, segs, room, a, c, dest, t, Done);
    }
  }

  /** Where no pointer of a record is cut, it arrives with each name up to its first empty label. */
  lemma UncutAnswerArrives(p: Bytes, at: nat, segs: seq<Segment>, room: nat, a: Answer, b: Answer)
    requires EncodeAnswer(at, segs, room, a).Ok? && Typed(a) && !AnswerCut(at, segs, room, a)
    ensures Kept(a) ==> (AnswerArrives(p, at, segs, room, a, b) <==> b == SameAnswer(a))
    ensures !Rejected(a) && LongText(a) ==> (AnswerArrives(p, at, segs, room, a, b) <==> b == WithCutText(a))
  {
    hide EncodeName, EncodeFields, Parse, Canonical, PointerCut, FieldsCut, FieldsArrive, SameFields, Fits, IsPlain,
         BodyOf, ShapeOf, WithTests, RootExchange, LongText;
    var n := EncodeName(at, segs, room, Parse(a.name)).value;
    var start, body := |n.bytes| + 10, WithTests(BodyOf(a.rtype), a.body);
    assert EncodeFields(at + start, n.segs, room - start, body).Ok?;
    UncutFieldsArrive(p, at + start, n.segs, room - start, body, b.body);
    TestsKeep(BodyOf(a.rtype), a.body, 0);
  }

  /** So such a record is read back as it was written exactly when it is no MX for the root and holds
      no text of more than 65279 bytes. What is read otherwise is known too: an error, or cut text. */
  lemma UncutAnswerRoundTrip(p: Bytes, at: nat, segs: seq<Segment>, room: nat, a: Answer, c: Chunk, dest: nat)
    requires EncodeAnswer(at, segs, room, a) == Ok(c) && Typed(a) && !AnswerCut(at, segs, room, a)
    requires Has(p, at, c.bytes) && TableOk(p, at, segs)
    requires AnswerSize(SameAnswer(a)) <= dest
    ensures TableOk(p, at + |c.bytes|, c.segs)
    ensures Kept(a) ==> AnswerRead(p, at, dest, SameAnswer(a), at + |c.bytes|)
    ensures Rejected(a) ==> DecodeAnswer(p, at, dest) == Err(FormatError)
    ensures !Kept(a) && !Rejected(a) ==>
              DecodeAnswer(p, at, dest).Ok? && DecodeAnswer(p, at, dest).value.value == WithCutText(a)
    ensures Kept(a) <==> DecodeAnswer(p, at, dest).Ok? && DecodeAnswer(p, at, dest).value.value == SameAnswer(a)
  {
    hide EncodeAnswer, DecodeAnswer, AnswerArrives, BodyOf, LongText, RootExchange, SameAnswer, AnswerSize, EntriesOk,
         Has, Typed, AnswerCut;
    AnswerRoundTrip(p, at, segs, room, a, c, dest, SameAnswer(a));
    UncutAnswerArrives(p, at, segs, room, a, SameAnswer(a));
    if !Kept(a) {
      UncutRejected(p, at, segs, room, a, c, dest);
      if DecodeAnswer(p, at, dest).Ok? {
        UncutAnswerArrives(p, at, segs, room, a, DecodeAnswer(p, at, dest).value.value);
        NotKeptDiffers(a);
      }
    }
  }

  lemma NotKeptDiffers(a: Answer)
    ensures LongText(a) ==> WithCutText(a) != SameAnswer(a)
    ensures RootExchange(a) ==> !LongText(a) && Rejected(a)
  {
    hide Parse, Canonical;
    if LongText(a) {
      CutTextDiffers(a);
    }
  }

  lemma UncutRejected(p: Bytes, at: nat, segs: seq<Segment>, room: nat, a: Answer, c: Chunk, dest: nat)
    requires EncodeAnswer(at, segs, room, a) == Ok(c) && Typed(a) && !AnswerCut(at, segs, room, a)
    requires Has(p, at, c.bytes) && TableOk(p, at, segs)
    requires AnswerSize(SameAnswer(a)) <= dest && !Kept(a)
    ensures Rejected(a) ==> DecodeAnswer(p, at, dest) == Err(FormatError)
    ensures !Rejected(a) ==> DecodeAnswer(p, at, dest).Ok?
  {
    hide EncodeAnswer, EncodeName, EncodeFields, DecodeAnswer, BodyResult, Parse, Canonical, PointerCut, FieldsCut,
         EntriesOk, Has, Fits, ShapeOf, BodyOf, SameFields, FieldsSize, FieldsArrive;
    var t := Canonical(Parse(a.name));
    var n, d := AnswerStart(p, at, segs, room, a, c, dest, t);
    var start, left := at + |n.bytes| + 10, dest - |t| - 1;
    if LongText(a) {
      LongTextSize(a);
      LongBodyRoundTrip(p, start, n.segs, room - |n.bytes| - 10, a, d, left);
    } else {
      KeptBodyRoundTrip(p, start, n.segs, room - |n.bytes| - 10, a, d, left, Done);
    }
  }

  lemma LongTextSize(a: Answer)
    requires LongText(a)
    ensures FieldsSize(SameFields(a.body)) > |a.body.field.text|
  {
  }

  /* ---- Round trip of a question ---- */

  ghost predicate QuestionArrives(p: Bytes, at: nat, segs: seq<Segment>, q: Question, r: Question) {
    NameArrives(p, at, segs, Parse(q.name), r.name) && r == q.(name := r.name)
  }

  ghost predicate QuestionRead(p: Bytes, at: nat, dest: nat, r: Question, end: nat) {
    QuestionSize(r) <= dest && DecodeQuestion(p, at, dest) == Ok(Got(r, end, dest - QuestionSize(r)))
  }

  lemma QuestionParts(p: Bytes, at: nat, segs: seq<Segment>, room: nat, q: Question, c: Chunk) returns (n: Chunk)
    requires EncodeQuestion(at, segs, room, q) == Ok(c)
    requires Has(p, at, c.bytes)
    ensures EncodeName(at, segs, room, Parse(q.name)) == Ok(n)
    ensures c.segs == n.segs && |c.bytes| == |n.bytes| + 4
    ensures Has(p, at, n.bytes) && Has(p, at + |n.bytes|, U16(q.qtype) + U16(q.qclass))
  {
    hide EncodeName, Parse;
    n := EncodeName(at, segs, room, Parse(q.name)).value;
    HasParts(p, at, n.bytes, U16(q.qtype) + U16(q.qclass));
  }

  lemma QuestionBack(p: Bytes, at: nat, segs: seq<Segment>, room: nat, q: Question, c: Chunk, dest: nat, t: Bytes)
    requires EncodeQuestion(at, segs, room, q) == Ok(c) && q.qtype != RR_OPT
    requires Has(p, at, c.bytes) && TableOk(p, at, segs)
    ensures NameArrives(p, at, segs, Parse(q.name), t) && |t| < dest ==>
              DecodeQuestion(p, at, dest) == Ok(Got(q.(name := t), at + |c.bytes|, dest - |t| - 1))
    ensures DecodeQuestion(p, at, dest).Ok? ==>
              var g := DecodeQuestion(p, at, dest).value.value;
              ReadName(p, at, dest).Ok? && ReadName(p, at, dest).value.value == g.name
    ensures ReadName(p, at, dest).Ok? && ReadName(p, at, dest).value.value == t ==>
              NameArrives(p, at, segs, Parse(q.name), t) && |t| < dest
  {
    hide EncodeName, EncodeQuestion, ReadName, NameArrives, Parse, EntriesOk;
    var n := QuestionParts(p, at, segs, room, q, c);
    var mid := at + |n.bytes|;
    ParseIsParsed(q.name);
    NameRoundTrip(p, at, segs, room, Parse(q.name), n, dest, t);
    HasParts(p, mid, U16(q.qtype), U16(q.qclass));
    Numbers(p, mid, q.qtype, 0);
    Numbers(p, mid + 2, q.qclass, 0);
  }

  /** Of a question exactly what arrives is read, with its type and class. */
  lemma QuestionRoundTrip(p: Bytes, at: nat, segs: seq<Segment>, room: nat, q: Question, c: Chunk, dest: nat,
                          r: Question)
    requires EncodeQuestion(at, segs, room, q) == Ok(c) && q.qtype != RR_OPT
    requires Has(p, at, c.bytes) && TableOk(p, at, segs)
    ensures TableOk(p, at + |c.bytes|, c.segs)
    ensures QuestionArrives(p, at, segs, q, r) && QuestionSize(r) <= dest ==>
              QuestionRead(p, at, dest, r, at + |c.bytes|)
    ensures DecodeQuestion(p, at, dest).Ok? ==>
              var g := DecodeQuestion(p, at, dest).value.value;
              QuestionArrives(p, at, segs, q, g) && QuestionRead(p, at, dest, g, at + |c.bytes|)
  {
    hide EncodeName, EncodeQuestion, DecodeQuestion, ReadName, NameArrives, Parse, EntriesOk, Has;
    var n := QuestionParts(p, at, segs, room, q, c);
    ParseIsParsed(q.name);
    NameKeepsTable(p, at, segs, room, Parse(q.name), n);
    TableLater(p, at + |n.bytes|, at + |c.bytes|, n.segs);
    QuestionBack(p, at, segs, room, q, c, dest, r.name);
    if DecodeQuestion(p, at, dest).Ok? {
      QuestionBack(p, at, segs, room, q, c, dest, DecodeQuestion(p, at, dest).value.value.name);
    }
  }

  /* ---- Sections ---- */

  /** The entries of one section in order: questions or records. */
  datatype Entry = Ask(q: Question) | Record(a: Answer)

  function EncodeEntry(at: nat, segs: seq<Segment>, room: nat, e: Entry): Result<Chunk> {
    match e
    case Ask(q) => EncodeQuestion(at, segs, room, q)
    case Record(a) => EncodeAnswer(at, segs, room, a)
  }

  function EncodeEntries(at: nat, segs: seq<Segment>, room: nat, es: seq<Entry>): (r: Result<Chunk>)
    ensures r.Ok? ==> |r.value.bytes| <= room && |segs| <= |r.value.segs|
    ensures r.Ok? ==> r.value.segs[..|segs|] == segs
    decreases |es|
  {
    if es == [] then Ok(Chunk([], segs))
    else
      var c :- EncodeEntry(at, segs, room, es[0]);
      var d :- EncodeEntries(at + |c.bytes|, c.segs, room - |c.bytes|, es[1..]);
      assert d.segs[..|segs|] == d.segs[..|c.segs|][..|segs|];
      Ok(Chunk(c.bytes + d.bytes, d.segs))
  }

  /** The next entry: a question, or a record. */
  function DecodeEntry(p: Bytes, pos: nat, room: nat, ask: bool): Result<Got<Entry>> {
    if ask then
      var g :- DecodeQuestion(p, pos, room);
      Ok(Got(Ask(g.value), g.pos, g.room))
    else
      var g :- DecodeAnswer(p, pos, room);
      Ok(Got(Record(g.value), g.pos, g.room))
  }

  /** As many entries as there are elements in `asks`, each of the kind it says. */
  function DecodeEntries(p: Bytes, pos: nat, room: nat, asks: seq<bool>): Result<Got<seq<Entry>>>
    decreases |asks|
  {
    if asks == [] then Ok(Got([], pos, room))
    else
      var g :- DecodeEntry(p, pos, room, asks[0]);
      var h :- DecodeEntries(p, g.pos, g.room, asks[1..]);
      Ok(Got([g.value] + h.value, h.pos, h.room))
  }

  /** What the callers of the encoder promise of an entry: a body of its record's type. */
  predicate Sendable(e: Entry) {
    match e
    case Ask(q) => q.qtype != RR_OPT
    case Record(a) => Typed(a)
  }

  /** What is written for an entry, or for entries, holds a pointer that is cut. */
  predicate EntryCut(at: nat, segs: seq<Segment>, room: nat, e: Entry) {
    match e
    case Ask(q) => PointerCut(at, segs, Parse(q.name))
    case Record(a) => AnswerCut(at, segs, room, a)
  }

  predicate EntriesCut(at: nat, segs: seq<Segment>, room: nat, es: seq<Entry>)
    decreases |es|
  {
    es != [] &&
    (EntryCut(at, segs, room, es[0]) ||
     match EncodeEntry(at, segs, room, es[0])
     case Err(_) => false
     case Ok(c) => |c.bytes| <= room && EntriesCut(at + |c.bytes|, c.segs, room - |c.bytes|, es[1..]))
  }

  predicate KeptEntry(e: Entry) {
    e.Record? ==> Kept(e.a)
  }

  predicate RejectedEntry(e: Entry) {
    e.Record? && Rejected(e.a)
  }

  function SameEntry(e: Entry): Entry {
    match e
    case Ask(q) => Ask(SameQuestion(q))
    case Record(a) => Record(SameAnswer(a))
  }

  function EntrySize(e: Entry): nat {
    match e
    case Ask(q) => QuestionSize(q)
    case Record(a) => AnswerSize(a)
  }

  function EntriesSize(es: seq<Entry>): nat {
    if es == [] then 0 else EntrySize(es[0]) + EntriesSize(es[1..])
  }

  function SameEntries(es: seq<Entry>): (r: seq<Entry>)
    ensures |r| == |es|
  {
    if es == [] then [] else [SameEntry(es[0])] + SameEntries(es[1..])
  }

  function Asks(es: seq<Entry>): (r: seq<bool>)
    ensures |r| == |es|
  {
    if es == [] then [] else [es[0].Ask?] + Asks(es[1..])
  }

  /** What comes back of an entry. */
  ghost predicate EntryArrives(p: Bytes, at: nat, segs: seq<Segment>, room: nat, e: Entry, g: Entry) {
    match e
    case Ask(q) => g.Ask? && QuestionArrives(p, at, segs, q, g.q)
    case Record(a) => g.Record? && AnswerArrives(p, at, segs, room, a, g.a)
  }

  /** What comes back of entries. Behind a record whose text is cut it can be anything, as the decoder
      goes on in the middle of the text. */
  ghost predicate EntriesArrive(p: Bytes, at: nat, segs: seq<Segment>, room: nat, es: seq<Entry>, gs: seq<Entry>)
    decreases |es|
  {
    if es == [] then gs == []
    else
      && gs != [] && EntryArrives(p, at, segs, room, es[0], gs[0])
      && (KeptEntry(es[0]) ==>
            match EncodeEntry(at, segs, room, es[0])
            case Err(_) => false
            case Ok(c) =>
              |c.bytes| <= room && EntriesArrive(p, at + |c.bytes|, c.segs, room - |c.bytes|, es[1..], gs[1..]))
  }

  ghost predicate EntryRead(p: Bytes, at: nat, dest: nat, g: Entry, end: nat) {
    EntrySize(g) <= dest && DecodeEntry(p, at, dest, g.Ask?) == Ok(Got(g, end, dest - EntrySize(g)))
  }

  lemma EntryRoundTrip(p: Bytes, at: nat, segs: seq<Segment>, room: nat, e: Entry, c: Chunk, dest: nat, g: Entry)
    requires EncodeEntry(at, segs, room, e) == Ok(c) && Sendable(e)
    requires Has(p, at, c.bytes) && TableOk(p, at, segs)
    ensures TableOk(p, at + |c.bytes|, c.segs)
    ensures KeptEntry(e) && EntryArrives(p, at, segs, room, e, g) && EntrySize(g) <= dest ==>
              g.Ask? == e.Ask? && EntryRead(p, at, dest, g, at + |c.bytes|)
    ensures DecodeEntry(p, at, dest, e.Ask?).Ok? ==>
              var h := DecodeEntry(p, at, dest, e.Ask?).value.value;
              && h.Ask? == e.Ask? && EntryArrives(p, at, segs, room, e, h)
              && (KeptEntry(e) ==> EntryRead(p, at, dest, h, at + |c.bytes|))
  {
    hide EncodeQuestion, EncodeAnswer, DecodeQuestion, DecodeAnswer, EntriesOk, Typed, Kept, AnswerArrives,
         QuestionArrives, AnswerSize, QuestionSize, Has;
    match e
    case Ask(q) => QuestionRoundTrip(p, at, segs, room, q, c, dest, if g.Ask? then g.q else q);
    case Record(a) => AnswerRoundTrip(p, at, segs, room, a, c, dest, if g.Record? then g.a else a);
  }

  lemma EntriesParts(p: Bytes, at: nat, segs: seq<Segment>, room: nat, es: seq<Entry>, c: Chunk)
      returns (e: Chunk, d: Chunk)
    requires es != [] && EncodeEntries(at, segs, room, es) == Ok(c)
    requires Has(p, at, c.bytes)
    ensures EncodeEntry(at, segs, room, es[0]) == Ok(e) && |e.bytes| <= room
    ensures EncodeEntries(at + |e.bytes|, e.segs, room - |e.bytes|, es[1..]) == Ok(d)
    ensures c.segs == d.segs && |c.bytes| == |e.bytes| + |d.bytes|
    ensures Has(p, at, e.bytes) && Has(p, at + |e.bytes|, d.bytes)
  {
    hide EncodeEntry;
    e := EncodeEntry(at, segs, room, es[0]).value;
    d := EncodeEntries(at + |e.bytes|, e.segs, room - |e.bytes|, es[1..]).value;
    HasParts(p, at, e.bytes, d.bytes);
  }

  predicate AllSendable(es: seq<Entry>) {
    es == [] || (Sendable(es[0]) && AllSendable(es[1..]))
  }

  predicate AllKept(es: seq<Entry>) {
    es == [] || (KeptEntry(es[0]) && AllKept(es[1..]))
  }

  /** The first entry that is not kept is rejected. */
  predicate FirstRejected(es: seq<Entry>) {
    es != [] && (RejectedEntry(es[0]) || (KeptEntry(es[0]) && FirstRejected(es[1..])))
  }

  /** One decoded entry in front of others. */
  function Behind(e: Entry, r: Result<Got<seq<Entry>>>): Result<Got<seq<Entry>>> {
    var h :- r;
    Ok(Got([e] + h.value, h.pos, h.room))
  }

  lemma FirstDecoded(p: Bytes, at: nat, dest: nat, es: seq<Entry>, g: Got<Entry>)
    requires es != [] && DecodeEntry(p, at, dest, es[0].Ask?) == Ok(g)
    ensures DecodeEntries(p, at, dest, Asks(es)) == Behind(g.value, DecodeEntries(p, g.pos, g.room, Asks(es[1..])))
  {
    hide DecodeEntry;
    assert Asks(es)[0] == es[0].Ask? && Asks(es)[1..] == Asks(es[1..]);
  }

  lemma NoEntries(p: Bytes, at: nat, segs: seq<Segment>, room: nat, dest: nat)
    ensures EncodeEntries(at, segs, room, []) == Ok(Chunk([], segs))
    ensures DecodeEntries(p, at, dest, Asks([])) == Ok(Got([], at, dest))
  {
  }

  lemma FirstRefused(p: Bytes, at: nat, dest: nat, es: seq<Entry>)
    requires es != [] && DecodeEntry(p, at, dest, es[0].Ask?).Err?
    ensures DecodeEntries(p, at, dest, Asks(es)) == Err(DecodeEntry(p, at, dest, es[0].Ask?).rc)
  {
    hide DecodeEntry;
    assert Asks(es)[0] == es[0].Ask?;
  }

  /** `gs` are read from `at` on, up to `end`. */
  ghost predicate EntriesRead(p: Bytes, at: nat, dest: nat, es: seq<Entry>, gs: seq<Entry>, end: nat) {
    EntriesSize(gs) <= dest && DecodeEntries(p, at, dest, Asks(es)) == Ok(Got(gs, end, dest - EntriesSize(gs)))
  }

  lemma ReadBehind(p: Bytes, at: nat, dest: nat, es: seq<Entry>, gs: seq<Entry>, mid: nat, end: nat)
    requires es != [] && gs != [] && gs[0].Ask? == es[0].Ask? && EntryRead(p, at, dest, gs[0], mid)
    requires EntriesRead(p, mid, dest - EntrySize(gs[0]), es[1..], gs[1..], end)
    ensures EntriesRead(p, at, dest, es, gs, end)
  {
    hide DecodeEntry, DecodeEntries, Asks, EntrySize;
    FirstDecoded(p, at, dest, es, Got(gs[0], mid, dest - EntrySize(gs[0])));
    assert [gs[0]] + gs[1..] == gs;
  }

  /** Whatever is cut, what arrives is read when every record can be kept. */
  lemma {:induction false} EntriesDelivered(p: Bytes, at: nat, segs: seq<Segment>, room: nat, es: seq<Entry>,
                                            c: Chunk, dest: nat, gs: seq<Entry>)
    requires EncodeEntries(at, segs, room, es) == Ok(c) && AllSendable(es) && AllKept(es)
    requires Has(p, at, c.bytes) && TableOk(p, at, segs)
    requires EntriesArrive(p, at, segs, room, es, gs) && EntriesSize(gs) <= dest
    ensures EntriesRead(p, at, dest, es, gs, at + |c.bytes|)
    decreases |es|
  {
    hide EncodeEntry, EncodeEntries, EntriesOk, Has, Sendable, KeptEntry, EntryArrives, EntrySize, EntryRead;
    if es == [] {
      hide EntriesRead;
      NothingArrives(p, at, segs, room, c, dest);
    } else {
      hide EntriesRead;
      var e, d := EntriesParts(p, at, segs, room, es, c);
      EntryRoundTrip(p, at, segs, room, es[0], e, dest, gs[0]);
      EntriesDelivered(p, at + |e.bytes|, e.segs, room - |e.bytes|, es[1..], d, dest - EntrySize(gs[0]), gs[1..]);
      ReadBehind(p, at, dest, es, gs, at + |e.bytes|, at + |c.bytes|);
    }
  }

  lemma NothingArrives(p: Bytes, at: nat, segs: seq<Segment>, room: nat, c: Chunk, dest: nat)
    requires EncodeEntries(at, segs, room, []) == Ok(c)
    ensures EntriesRead(p, at, dest, [], [], at + |c.bytes|)
  {
  }

  /** And nothing else is read, also when some cannot be kept. */
  lemma {:induction false} EntriesRoundTrip(p: Bytes, at: nat, segs: seq<Segment>, room: nat, es: seq<Entry>,
                                            c: Chunk, dest: nat)
    requires EncodeEntries(at, segs, room, es) == Ok(c) && AllSendable(es)
    requires Has(p, at, c.bytes) && TableOk(p, at, segs)
    requires DecodeEntries(p, at, dest, Asks(es)).Ok?
    ensures var gs := DecodeEntries(p, at, dest, Asks(es)).value.value;
            && EntriesArrive(p, at, segs, room, es, gs)
            && (AllKept(es) ==> EntriesRead(p, at, dest, es, gs, at + |c.bytes|))
    decreases |es|
  {
    hide EncodeEntry, EncodeEntries, DecodeEntries, DecodeEntry, Asks, EntriesOk, Has, Sendable, KeptEntry,
         EntryArrives, EntrySize;
    if es == [] {
      NothingArrives(p, at, segs, room, c, dest);
    } else {
      var e, d := EntriesParts(p, at, segs, room, es, c);
      if DecodeEntry(p, at, dest, es[0].Ask?).Err? {
        FirstRefused(p, at, dest, es);
      }
      var g := DecodeEntry(p, at, dest, es[0].Ask?).value;
      EntryRoundTrip(p, at, segs, room, es[0], e, dest, g.value);
      FirstDecoded(p, at, dest, es, g);
      var gs := DecodeEntries(p, at, dest, Asks(es)).value.value;
      assert gs[0] == g.value && gs[1..] == DecodeEntries(p, g.pos, g.room, Asks(es[1..])).value.value;
      if KeptEntry(es[0]) {
        EntriesRoundTrip(p, at + |e.bytes|, e.segs, room - |e.bytes|, es[1..], d, g.room);
      }
    }
  }

  /** Some entry came back with its text cut. */
  predicate SomeTextCut(es: seq<Entry>, gs: seq<Entry>) {
    es != [] && gs != [] && (TextIsCut(es[0], gs[0]) || SomeTextCut(es[1..], gs[1..]))
  }

  predicate TextIsCut(e: Entry, g: Entry) {
    e.Record? && LongText(e.a) && g.Record? && g.a.body == CutText(e.a)
  }

  /** When a record cannot be kept, nothing arrives, or its text is cut. */
  lemma {:induction false} NotAllKept(p: Bytes, at: nat, segs: seq<Segment>, room: nat, es: seq<Entry>, gs: seq<Entry>)
    requires EntriesArrive(p, at, segs, room, es, gs) && !AllKept(es)
    ensures !FirstRejected(es) && SomeTextCut(es, gs)
    decreases |es|
  {
    hide EncodeEntry, NameArrives, FieldsArrive, LongText, RootExchange, QuestionArrives, CutText;
    if KeptEntry(es[0]) {
      var c := EncodeEntry(at, segs, room, es[0]).value;
      NotAllKept(p, at + |c.bytes|, c.segs, room - |c.bytes|, es[1..], gs[1..]);
    }
  }

  lemma {:induction false} NoTextCut(es: seq<Entry>)
    ensures !SomeTextCut(es, es) && !SomeTextCut(es, SameEntries(es))
  {
    hide LongText, CutText, SameFields;
    if es != [] {
      if es[0].Record? && LongText(es[0].a) {
        CutTextDiffers(es[0].a);
      }
      NoTextCut(es[1..]);
    }
  }

  lemma UncutEntryArrives(p: Bytes, at: nat, segs: seq<Segment>, room: nat, e: Entry, g: Entry)
    requires EncodeEntry(at, segs, room, e).Ok? && Sendable(e) && KeptEntry(e) && !EntryCut(at, segs, room, e)
    ensures EntryArrives(p, at, segs, room, e, g) <==> g == SameEntry(e)
  {
    hide EncodeAnswer, AnswerArrives, AnswerCut, SameAnswer, Typed, Kept, Parse, Canonical, PointerCut;
    if e.Record? {
      UncutAnswerArrives(p, at, segs, room, e.a, if g.Record? then g.a else e.a);
    }
  }

  /** Where no pointer is cut, entries arrive with each name up to its first empty label. */
  lemma {:induction false} UncutEntriesArrive(p: Bytes, at: nat, segs: seq<Segment>, room: nat, es: seq<Entry>,
                                              c: Chunk, gs: seq<Entry>)
    requires EncodeEntries(at, segs, room, es) == Ok(c) && AllSendable(es) && AllKept(es)
    requires !EntriesCut(at, segs, room, es)
    ensures EntriesArrive(p, at, segs, room, es, gs) <==> gs == SameEntries(es)
    decreases |es|
  {
    hide EncodeEntry, EntryArrives, EntryCut, Sendable, KeptEntry, SameEntry;
    if es != [] {
      var e := EncodeEntry(at, segs, room, es[0]).value;
      var d := EncodeEntries(at + |e.bytes|, e.segs, room - |e.bytes|, es[1..]).value;
      if gs != [] {
        UncutEntryArrives(p, at, segs, room, es[0], gs[0]);
        UncutEntriesArrive(p, at + |e.bytes|, e.segs, room - |e.bytes|, es[1..], d, gs[1..]);
        assert gs == [gs[0]] + gs[1..];
      }
    }
  }

  lemma UncutFirst(p: Bytes, at: nat, segs: seq<Segment>, room: nat, e: Entry, c: Chunk, dest: nat)
    requires EncodeEntry(at, segs, room, e) == Ok(c) && Sendable(e) && !EntryCut(at, segs, room, e)
    requires Has(p, at, c.bytes) && TableOk(p, at, segs) && EntrySize(SameEntry(e)) <= dest
    ensures TableOk(p, at + |c.bytes|, c.segs)
    ensures KeptEntry(e) ==>
              DecodeEntry(p, at, dest, e.Ask?) == Ok(Got(SameEntry(e), at + |c.bytes|, dest - EntrySize(SameEntry(e))))
    ensures RejectedEntry(e) ==> DecodeEntry(p, at, dest, e.Ask?) == Err(FormatError)
  {
    hide EncodeQuestion, EncodeAnswer, DecodeQuestion, DecodeAnswer, AnswerCut, EntriesOk, Typed, Kept, Rejected,
         AnswerSize, Has, Parse, Canonical, PointerCut, SameAnswer, NameArrives;
    match e
    case Ask(q) =>
      UncutNameArrives(p, at, segs, q.name);
      QuestionRoundTrip(p, at, segs, room, q, c, dest, SameQuestion(q));
    case Record(a) => UncutAnswerRoundTrip(p, at, segs, room, a, c, dest);
  }

  lemma UncutNameArrives(p: Bytes, at: nat, segs: seq<Segment>, name: Bytes)
    requires !PointerCut(at, segs, Parse(name))
    ensures NameArrives(p, at, segs, Parse(name), Canonical(Parse(name)))
  {
  }

  /** Where no pointer is cut, the decoder stops at the first record that it rejects. */
  lemma {:induction false} UncutEntriesRefused(p: Bytes, at: nat, segs: seq<Segment>, room: nat, es: seq<Entry>,
                                               c: Chunk, dest: nat)
    requires EncodeEntries(at, segs, room, es) == Ok(c) && AllSendable(es) && FirstRejected(es)
    requires Has(p, at, c.bytes) && !EntriesCut(at, segs, room, es) && TableOk(p, at, segs)
    requires EntriesSize(SameEntries(es)) <= dest
    ensures DecodeEntries(p, at, dest, Asks(es)) == Err(FormatError)
    decreases |es|
  {
    hide EncodeEntry, DecodeEntry, DecodeEntries, Asks, EntryCut, EntriesOk, Sendable, KeptEntry,
         RejectedEntry, SameEntry, EntrySize, Has;
    var e, d := EntriesParts(p, at, segs, room, es, c);
    var same := SameEntries(es);
    assert same[0] == SameEntry(es[0]) && same[1..] == SameEntries(es[1..]);
    UncutFirst(p, at, segs, room, es[0], e, dest);
    if RejectedEntry(es[0]) {
      FirstRefused(p, at, dest, es);
    } else {
      FirstDecoded(p, at, dest, es, DecodeEntry(p, at, dest, es[0].Ask?).value);
      UncutEntriesRefused(p, at + |e.bytes|, e.segs, room - |e.bytes|, es[1..], d, dest - EntrySize(same[0]));
    }
  }

  /* ---- Messages ---- */

  datatype Flags = Flags(response: bool, aa: bool, tc: bool, rd: bool, ra: bool, z: bool, ad: bool, cd: bool)

  /** A query or response. `opcode` and `rcode` have the range that the encoder's callers promise. */
  datatype Message = Message(
    id: uint16, opcode: nat, rcode: nat, flags: Flags,
    questions: seq<Question>, answers: seq<Answer>, nameservers: seq<Answer>, additional: seq<Answer>)

  predicate ValidMessage(m: Message) {
    && m.opcode <= 15 && m.rcode <= 15
    && |m.questions| < 0x1_0000 && |m.answers| < 0x1_0000
    && |m.nameservers| < 0x1_0000 && |m.additional| < 0x1_0000
  }

  function Bit(b: bool, weight: nat): nat {
    if b then weight else 0
  }

  /** The third byte: the response bit, four bits of opcode, and three flags. */
  function OpcodeByte(f: Flags, opcode: nat): byte
    requires opcode <= 15
  {
    Bit(f.response, 0x80) + opcode * 8 + Bit(f.aa, 4) + Bit(f.tc, 2) + Bit(f.rd, 1)
  }

  /** The fourth byte: four flags and four bits of rcode. */
  function RcodeByte(f: Flags, rcode: nat): byte
    requires rcode <= 15
  {
    Bit(f.ra, 0x80) + Bit(f.z, 0x40) + Bit(f.ad, 0x20) + Bit(f.cd, 0x10) + rcode
  }

  function FlagsOf(op: byte, rc: byte): Flags {
    Flags(op / 0x80 == 1, op / 4 % 2 == 1, op / 2 % 2 == 1, op % 2 == 1,
          rc / 0x80 == 1, rc / 0x40 % 2 == 1, rc / 0x20 % 2 == 1, rc / 0x10 % 2 == 1)
  }

  /** A digit below a power of two is what division by that power leaves. */
  lemma Digits(n: nat, high: nat, low: nat, weight: nat)
    requires weight in {2, 4, 8, 16, 32, 64, 128}
    requires low < weight && n == high * weight + low
    ensures n / weight == high && n % weight == low
  {
    assert weight == 2 || weight == 4 || weight == 8 || weight == 16 || weight == 32 || weight == 64 || weight == 128;
  }

  lemma OpcodeBack(f: Flags, opcode: nat)
    requires opcode <= 15
    ensures OpcodeByte(f, opcode) / 8 % 16 == opcode
    ensures var b := OpcodeByte(f, opcode);
            (b / 0x80 == 1 <==> f.response) && (b / 4 % 2 == 1 <==> f.aa)
            && (b / 2 % 2 == 1 <==> f.tc) && (b % 2 == 1 <==> f.rd)
  {
    var r, a, t, d := Bit(f.response, 1), Bit(f.aa, 1), Bit(f.tc, 1), Bit(f.rd, 1);
    var b := OpcodeByte(f, opcode);
    var h3 := r * 16 + opcode;
    var h2 := h3 * 2 + a;
    var h1 := h2 * 2 + t;
    Digits(b, r, opcode * 8 + a * 4 + t * 2 + d, 0x80);
    Digits(b, h3, a * 4 + t * 2 + d, 8);
    Digits(h3, r, opcode, 16);
    Digits(b, h2, t * 2 + d, 4);
    Digits(h2, h3, a, 2);
    Digits(b, h1, d, 2);
    Digits(h1, h2, t, 2);
  }

  lemma RcodeBack(f: Flags, rcode: nat)
    requires rcode <= 15
    ensures RcodeByte(f, rcode) % 16 == rcode
    ensures var b := RcodeByte(f, rcode);
            (b / 0x80 == 1 <==> f.ra) && (b / 0x40 % 2 == 1 <==> f.z)
            && (b / 0x20 % 2 == 1 <==> f.ad) && (b / 0x10 % 2 == 1 <==> f.cd)
  {
    var r, z, a, c := Bit(f.ra, 1), Bit(f.z, 1), Bit(f.ad, 1), Bit(f.cd, 1);
    var b := RcodeByte(f, rcode);
    Digits(b, r, z * 0x40 + a * 0x20 + c * 0x10 + rcode, 0x80);
    Digits(b, r * 2 + z, a * 0x20 + c * 0x10 + rcode, 0x40);
    Digits(b, (r * 2 + z) * 2 + a, c * 0x10 + rcode, 0x20);
    Digits(b, ((r * 2 + z) * 2 + a) * 2 + c, rcode, 0x10);
  }

  function Header(m: Message): (h: Bytes)
    requires ValidMessage(m)
    ensures |h| == HEADER
  {
    U16(m.id) + [OpcodeByte(m.flags, m.opcode), RcodeByte(m.flags, m.rcode)]
    + U16(|m.questions|) + U16(|m.answers|) + U16(|m.nameservers|) + U16(|m.additional|)
  }

  function AskAll(qs: seq<Question>): (es: seq<Entry>)
    ensures |es| == |qs|
  {
    seq(|qs|, i requires 0 <= i < |qs| => Ask(qs[i]))
  }

  function RecordAll(rs: seq<Answer>): (es: seq<Entry>)
    ensures |es| == |rs|
  {
    seq(|rs|, i requires 0 <= i < |rs| => Record(rs[i]))
  }

  /** The four sections in wire order. */
  function Entries(m: Message): seq<Entry> {
    AskAll(m.questions) + RecordAll(m.answers + m.nameservers + m.additional)
  }

  /** dns_encode into a buffer of `size` bytes. */
  function Encode(m: Message, size: nat): Result<Bytes>
    requires ValidMessage(m) && HEADER <= size
  {
    var c :- EncodeEntries(HEADER, [], size - HEADER, Entries(m));
    Ok(Header(m) + c.bytes)
  }

  function Kinds(asks: nat, records: nat): (k: seq<bool>)
    ensures |k| == asks + records
  {
    seq(asks + records, i => i < asks)
  }

  function Questions(es: seq<Entry>): (qs: seq<Question>)
    requires forall i :: 0 <= i < |es| ==> es[i].Ask?
    ensures |qs| == |es|
  {
    seq(|es|, i requires 0 <= i < |es| => es[i].q)
  }

  function Answers(es: seq<Entry>): (rs: seq<Answer>)
    requires forall i :: 0 <= i < |es| ==> es[i].Record?
    ensures |rs| == |es|
  {
    seq(|es|, i requires 0 <= i < |es| => es[i].a)
  }

  lemma {:induction false} DecodedKinds(p: Bytes, pos: nat, room: nat, asks: seq<bool>)
    requires DecodeEntries(p, pos, room, asks).Ok?
    ensures var es := DecodeEntries(p, pos, room, asks).value.value;
            |es| == |asks| && forall i :: 0 <= i < |es| ==> es[i].Ask? == asks[i]
    decreases |asks|
  {
    if asks != [] {
      var g := DecodeEntry(p, pos, room, asks[0]).value;
      DecodedKinds(p, g.pos, g.room, asks[1..]);
    }
  }

  /** dns_decode, with `room` bytes of destination left for text. */
  function Decode(p: Bytes, room: nat): Result<Message> {
    if |p| < HEADER then Err(FormatError)
    else
      var qd, an, ns, ar := N16(p, 4), N16(p, 6), N16(p, 8), N16(p, 10);
      var g :- DecodeEntries(p, HEADER, room, Kinds(qd, an + ns + ar));
      DecodedKinds(p, HEADER, room, Kinds(qd, an + ns + ar));
      var rs := Answers(g.value[qd..]);
      Ok(Message(N16(p, 0), p[2] / 8 % 16, p[3] % 16, FlagsOf(p[2], p[3]),
                 Questions(g.value[..qd]), rs[..an], rs[an..an + ns], rs[an + ns..]))
  }

  /** The table when the last entry has been written. */
  function FinalTable(m: Message, size: nat): seq<Segment>
    requires ValidMessage(m) && HEADER <= size && Encode(m, size).Ok?
  {
    EncodeEntries(HEADER, [], size - HEADER, Entries(m)).value.segs
  }
}
