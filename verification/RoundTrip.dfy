/** Round trips of whole messages: what comes back of one that was encoded, and when it is the very
    message. */
module RoundTrips {
  import opened Options
  import opened Wire
  import opened Names
  import opened Records
  import opened Messages

  function SameQuestions(qs: seq<Question>): (r: seq<Question>)
    ensures |r| == |qs|
  {
    seq(|qs|, i requires 0 <= i < |qs| => SameQuestion(qs[i]))
  }

  function SameAnswers(rs: seq<Answer>): (r: seq<Answer>)
    ensures |r| == |rs|
  {
    seq(|rs|, i requires 0 <= i < |rs| => SameAnswer(rs[i]))
  }

  /** What a reader gets back: every name up to its first empty label. */
  function SameMessage(m: Message): Message {
    m.(questions := SameQuestions(m.questions), answers := SameAnswers(m.answers),
       nameservers := SameAnswers(m.nameservers), additional := SameAnswers(m.additional))
  }

  lemma {:induction false} SameEntryAt(es: seq<Entry>, i: nat)
    requires i < |es|
    ensures SameEntries(es)[i] == SameEntry(es[i]) && Asks(es)[i] == es[i].Ask?
  {
    if i > 0 {
      SameEntryAt(es[1..], i - 1);
    }
  }

  /** The packet starts with the header of `m`. */
  predicate HasHeader(p: Bytes, m: Message) {
    && HEADER <= |p|
    && N16(p, 0) == m.id && p[2] / 8 % 16 == m.opcode && p[3] % 16 == m.rcode && FlagsOf(p[2], p[3]) == m.flags
    && N16(p, 4) == |m.questions| && N16(p, 6) == |m.answers|
    && N16(p, 8) == |m.nameservers| && N16(p, 10) == |m.additional|
  }

  /** The header fields are where the decoder looks for them. */
  lemma HeaderReadBack(p: Bytes, m: Message)
    requires ValidMessage(m) && Has(p, 0, Header(m))
    ensures HasHeader(p, m)
  {
    hide N16, OpcodeByte, RcodeByte;
    var op, rc := OpcodeByte(m.flags, m.opcode), RcodeByte(m.flags, m.rcode);
    var h0 := U16(m.id) + [op, rc];
    var h1 := h0 + U16(|m.questions|);
    var h2 := h1 + U16(|m.answers|);
    var h3 := h2 + U16(|m.nameservers|);
    HasParts(p, 0, h3, U16(|m.additional|));
    HasParts(p, 0, h2, U16(|m.nameservers|));
    HasParts(p, 0, h1, U16(|m.answers|));
    HasParts(p, 0, h0, U16(|m.questions|));
    HasParts(p, 0, U16(m.id), [op, rc]);
    Numbers(p, 0, m.id, 0);
    Numbers(p, 4, |m.questions|, 0);
    Numbers(p, 6, |m.answers|, 0);
    Numbers(p, 8, |m.nameservers|, 0);
    Numbers(p, 10, |m.additional|, 0);
    assert p[2] == [op, rc][0] && p[3] == [op, rc][1];
    OpcodeBack(m.flags, m.opcode);
    RcodeBack(m.flags, m.rcode);
  }

  lemma KindsOfEntries(m: Message)
    ensures Kinds(|m.questions|, |m.answers| + |m.nameservers| + |m.additional|) == Asks(Entries(m))
  {
    forall i | 0 <= i < |Entries(m)| ensures Asks(Entries(m))[i] == (i < |m.questions|) {
      SameEntryAt(Entries(m), i);
    }
  }

  lemma EntryOf(m: Message, i: nat)
    requires i < |Entries(m)|
    ensures var qd := |m.questions|;
            SameEntries(Entries(m))[i] ==
            if i < qd then Ask(SameQuestion(m.questions[i]))
            else Record(SameAnswer((m.answers + m.nameservers + m.additional)[i - qd]))
  {
    SameEntryAt(Entries(m), i);
  }

  /** What the encoder's callers promise: bodies of their record's type, in range. */
  predicate SendableMessage(m: Message) {
    ValidMessage(m) && AllSendable(Entries(m))
  }

  /** A pointer of the encoded message is cut. */
  predicate MessageCut(m: Message, size: nat)
    requires HEADER <= size
  {
    EntriesCut(HEADER, [], size - HEADER, Entries(m))
  }

  /** The entries the decoder has read are those of the message it returns. */
  lemma DecodedEntries(p: Bytes, room: nat, es: seq<bool>)
    requires Decode(p, room).Ok?
    requires es == Kinds(N16(p, 4), N16(p, 6) + N16(p, 8) + N16(p, 10))
    ensures DecodeEntries(p, HEADER, room, es).Ok?
    ensures Entries(Decode(p, room).value) == DecodeEntries(p, HEADER, room, es).value.value
    ensures HasHeader(p, Decode(p, room).value)
  {
    hide DecodeEntries, N16, FlagsOf;
    DecodedKinds(p, HEADER, room, es);
    var qd, an, ns := N16(p, 4), N16(p, 6), N16(p, 8);
    var gs, m := DecodeEntries(p, HEADER, room, es).value.value, Decode(p, room).value;
    var rs := Answers(gs[qd..]);
    assert m.answers + m.nameservers + m.additional == rs;
    forall i | 0 <= i < |gs| ensures Entries(m)[i] == gs[i] {
      if i >= qd {
        assert gs[qd..][i - qd] == gs[i];
      }
    }
  }

  predicate SameHeader(m: Message, v: Message) {
    && v.id == m.id && v.opcode == m.opcode && v.rcode == m.rcode && v.flags == m.flags
    && |v.questions| == |m.questions| && |v.answers| == |m.answers|
    && |v.nameservers| == |m.nameservers| && |v.additional| == |m.additional|
  }

  /** The decoder reads entries of the kinds that the encoder wrote. */
  lemma HeaderThenEntries(p: Bytes, m: Message, room: nat)
    requires HasHeader(p, m)
    ensures match DecodeEntries(p, HEADER, room, Asks(Entries(m)))
            case Err(rc) => Decode(p, room) == Err(rc)
            case Ok(g) =>
              && Decode(p, room).Ok?
              && Entries(Decode(p, room).value) == g.value && SameHeader(m, Decode(p, room).value)
  {
    hide DecodeEntries, Entries, N16, FlagsOf, Kinds;
    KindsOfEntries(m);
    if DecodeEntries(p, HEADER, room, Asks(Entries(m))).Ok? {
      DecodedEntries(p, room, Asks(Entries(m)));
    }
  }

  /** The sections can be cut out of the entries again. */
  lemma SectionsAreOne(m: Message, v: Message, w: Message)
    requires SameHeader(m, v) && SameHeader(m, w) && Entries(v) == Entries(w)
    ensures v == w
  {
    var qd, an, ns := |m.questions|, |m.answers|, |m.nameservers|;
    var vs, ws := v.answers + v.nameservers + v.additional, w.answers + w.nameservers + w.additional;
    forall i | 0 <= i < qd ensures v.questions[i] == w.questions[i] {
      assert Entries(v)[i] == Ask(v.questions[i]) && Entries(w)[i] == Ask(w.questions[i]);
    }
    forall i | 0 <= i < |vs| ensures vs[i] == ws[i] {
      assert Entries(v)[qd + i] == Record(vs[i]) && Entries(w)[qd + i] == Record(ws[i]);
    }
    assert vs == ws;
    assert v.answers == vs[..an] && w.answers == ws[..an];
    assert v.nameservers == vs[an..an + ns] && w.nameservers == ws[an..an + ns];
    assert v.additional == vs[an + ns..] && w.additional == ws[an + ns..];
  }

  /** Destination bytes that a message takes. */
  function MessageSize(m: Message): nat {
    EntriesSize(Entries(m))
  }

  /** What comes back of a message: the same header and counts, and what arrives of each entry. */
  ghost predicate MessageArrives(p: Bytes, m: Message, size: nat, v: Message)
    requires HEADER <= size
  {
    SameHeader(m, v) && EntriesArrive(p, HEADER, [], size - HEADER, Entries(m), Entries(v))
  }

  /** Of any message, whatever is cut in it, exactly what arrives is decoded: id, flags, opcode, rcode,
      the four counts, and every question and record in order. When a record cannot be kept, the
      decoder refuses the message, or the text of that record arrives cut. */
  lemma MessageRoundTrip(m: Message, size: nat, p: Bytes, room: nat, v: Message)
    requires SendableMessage(m) && HEADER <= size && Encode(m, size) == Ok(p)
    ensures Decode(p, room).Ok? ==> MessageArrives(p, m, size, Decode(p, room).value)
    ensures AllKept(Entries(m)) ==>
              (Decode(p, room) == Ok(v) <==> MessageArrives(p, m, size, v) && MessageSize(v) <= room)
    ensures FirstRejected(Entries(m)) ==> Decode(p, room).Err?
    ensures !AllKept(Entries(m)) ==> Decode(p, room).Err? || SomeTextCut(Entries(m), Entries(Decode(p, room).value))
  {
    hide EncodeEntries, DecodeEntries, Decode, Entries, Header, HasHeader, AllKept, FirstRejected, AllSendable,
         EntriesSize, SomeTextCut, Asks, EntriesArrive, Has, SameHeader;
    var c := EncodeEntries(HEADER, [], size - HEADER, Entries(m)).value;
    PacketParts(p, m, c);
    HeaderThenEntries(p, m, room);
    var r := DecodeEntries(p, HEADER, room, Asks(Entries(m)));
    if r.Ok? {
      EntriesRoundTrip(p, HEADER, [], size - HEADER, Entries(m), c, room);
      if !AllKept(Entries(m)) {
        NotAllKept(p, HEADER, [], size - HEADER, Entries(m), r.value.value);
      } else {
        KeptNotRejected(Entries(m));
      }
    }
    if AllKept(Entries(m)) && MessageArrives(p, m, size, v) && MessageSize(v) <= room {
      EntriesDelivered(p, HEADER, [], size - HEADER, Entries(m), c, room, Entries(v));
      SectionsAreOne(m, v, Decode(p, room).value);
    }
  }

  lemma {:induction false} KeptNotRejected(es: seq<Entry>)
    requires AllKept(es)
    ensures !FirstRejected(es)
  {
    hide RootExchange, LongText;
    if es != [] {
      KeptNotRejected(es[1..]);
    }
  }

  lemma PacketParts(p: Bytes, m: Message, c: Chunk)
    requires ValidMessage(m) && p == Header(m) + c.bytes
    ensures HasHeader(p, m) && Has(p, HEADER, c.bytes) && TableOk(p, HEADER, [])
  {
    hide HasHeader, Header;
    HasParts(p, 0, Header(m), c.bytes);
    HeaderReadBack(p, m);
  }

  lemma EntriesOfSame(m: Message)
    ensures Entries(SameMessage(m)) == SameEntries(Entries(m))
  {
    hide SameEntries, SameQuestion, SameAnswer;
    var rest, same := m.answers + m.nameservers + m.additional, SameMessage(m);
    assert same.answers + same.nameservers + same.additional == SameAnswers(rest);
    forall i | 0 <= i < |Entries(m)| ensures Entries(same)[i] == SameEntries(Entries(m))[i] {
      EntryOf(m, i);
    }
  }

  /** Where no pointer is cut, what arrives is the message with each name up to its first empty label. */
  lemma UncutMessageArrives(m: Message, size: nat, p: Bytes, v: Message)
    requires SendableMessage(m) && HEADER <= size && Encode(m, size).Ok? && !MessageCut(m, size)
    requires AllKept(Entries(m))
    ensures MessageArrives(p, m, size, v) <==> v == SameMessage(m)
  {
    hide EncodeEntries, Entries, AllKept, AllSendable, EntriesArrive, EntriesCut, SameEntries, SameQuestions,
         SameAnswers;
    UncutEntriesArrive(p, HEADER, [], size - HEADER, Entries(m),
                       EncodeEntries(HEADER, [], size - HEADER, Entries(m)).value, Entries(v));
    EntriesOfSame(m);
    if MessageArrives(p, m, size, v) {
      SectionsAreOne(m, v, SameMessage(m));
    }
  }

  /** So it is decoded when each record can be kept, and refused when the first that cannot is rejected. */
  lemma UncutMessageRoundTrip(m: Message, size: nat, p: Bytes, room: nat)
    requires SendableMessage(m) && HEADER <= size && Encode(m, size) == Ok(p)
    requires !MessageCut(m, size) && MessageSize(SameMessage(m)) <= room
    ensures Decode(p, room) == Ok(SameMessage(m)) <==> AllKept(Entries(m))
    ensures FirstRejected(Entries(m)) ==> Decode(p, room) == Err(FormatError)
  {
    hide EncodeEntries, DecodeEntries, Decode, Entries, Header, HasHeader, AllKept, FirstRejected, AllSendable,
         EntriesSize, SomeTextCut, Asks, EntriesArrive, Has, SameHeader, SameMessage, MessageArrives, EntriesCut,
         SameEntries;
    MessageRoundTrip(m, size, p, room, SameMessage(m));
    EntriesOfSame(m);
    NoTextCut(Entries(m));
    if AllKept(Entries(m)) {
      UncutMessageArrives(m, size, p, SameMessage(m));
    }
    if FirstRejected(Entries(m)) {
      var c := EncodeEntries(HEADER, [], size - HEADER, Entries(m)).value;
      PacketParts(p, m, c);
      HeaderThenEntries(p, m, room);
      UncutEntriesRefused(p, HEADER, [], size - HEADER, Entries(m), c, room);
    }
  }

  /* ---- When nothing is cut ---- */

  lemma FieldOffsets(at: nat, segs: seq<Segment>, room: nat, f: Field, c: Chunk)
    requires EncodeField(at, segs, room, f) == Ok(c) && OffsetsBelow(segs, at)
    ensures OffsetsBelow(c.segs, at + |c.bytes|)
    ensures at + |c.bytes| <= OFFSET_LIMIT ==> !FieldCut(at, segs, f)
  {
    hide EncodeName, PointerCut, Parse;
    if f.Domain? {
      NameOffsets(at, segs, room, Parse(f.name), c);
    }
  }

  lemma NoFields(at: nat, segs: seq<Segment>, room: nat)
    ensures EncodeFields(at, segs, room, Done) == Ok(Chunk([], segs)) && !FieldsCut(at, segs, room, Done)
  {
  }

  lemma RoomStep(at: nat, segs: seq<Segment>, room: nat, fs: Fields)
    requires fs.Room? && EncodeFields(at, segs, room, fs).Ok?
    ensures EncodeFields(at, segs, room, fs) == EncodeFields(at, segs, room, fs.rest)
    ensures FieldsCut(at, segs, room, fs) == FieldsCut(at, segs, room, fs.rest)
  {
  }

  lemma {:induction false} FieldsOffsets(at: nat, segs: seq<Segment>, room: nat, fs: Fields, c: Chunk)
    requires EncodeFields(at, segs, room, fs) == Ok(c) && OffsetsBelow(segs, at)
    ensures OffsetsBelow(c.segs, at + |c.bytes|)
    ensures at + |c.bytes| <= OFFSET_LIMIT ==> !FieldsCut(at, segs, room, fs)
    decreases fs
  {
    hide EncodeFields, FieldsCut, OffsetsBelow;
    if fs.Done? {
      NoFields(at, segs, room);
    } else if fs.Room? {
      RoomStep(at, segs, room, fs);
      FieldsOffsets(at, segs, room, fs.rest, c);
    } else if fs.More? {
      var e, d := FieldsStep(at, segs, room, fs, c);
      FieldOffsets(at, segs, room, fs.field, e);
      FieldsOffsets(at + |e.bytes|, e.segs, room - |e.bytes|, fs.rest, d);
    }
  }

  lemma EntryOffsets(at: nat, segs: seq<Segment>, room: nat, e: Entry, c: Chunk)
    requires EncodeEntry(at, segs, room, e) == Ok(c) && OffsetsBelow(segs, at)
    ensures OffsetsBelow(c.segs, at + |c.bytes|)
    ensures at + |c.bytes| <= OFFSET_LIMIT ==> !EntryCut(at, segs, room, e)
  {
    hide EncodeName, EncodeFields, Parse, PointerCut, FieldsCut;
    var name := if e.Ask? then e.q.name else e.a.name;
    var n := EncodeName(at, segs, room, Parse(name)).value;
    NameOffsets(at, segs, room, Parse(name), n);
    if e.Record? {
      var start, body := |n.bytes| + 10, WithTests(BodyOf(e.a.rtype), e.a.body);
      FieldsOffsets(at + start, n.segs, room - start, body,
                    EncodeFields(at + start, n.segs, room - start, body).value);
    }
  }

  /** A record with too much text takes more than 65535 bytes. */
  lemma LongTextIsLong(at: nat, segs: seq<Segment>, room: nat, a: Answer, c: Chunk)
    requires EncodeEntry(at, segs, room, Record(a)) == Ok(c) && Typed(a) && LongText(a)
    ensures |c.bytes| >= 0x1_0000
  {
    hide EncodeName, EncodeFields, Parse, Typed, TextBytes;
    assert EncodeAnswer(at, segs, room, a) == Ok(c);
    var n := EncodeName(at, segs, room, Parse(a.name)).value;
    var start := |n.bytes| + 10;
    TextBody(at + start, n.segs, room - start, a,
             EncodeFields(at + start, n.segs, room - start, WithTests(BodyOf(a.rtype), a.body)).value);
    TextLimit(a.body.field.text);
  }

  predicate AnyRootExchange(es: seq<Entry>) {
    es != [] && ((es[0].Record? && RootExchange(es[0].a)) || AnyRootExchange(es[1..]))
  }

  lemma {:induction false} EntriesNotCut(at: nat, segs: seq<Segment>, room: nat, es: seq<Entry>, c: Chunk)
    requires EncodeEntries(at, segs, room, es) == Ok(c) && AllSendable(es)
    requires OffsetsBelow(segs, at) && at + |c.bytes| <= OFFSET_LIMIT
    ensures !EntriesCut(at, segs, room, es)
    ensures AllKept(es) <==> !AnyRootExchange(es)
    decreases |es|
  {
    hide EncodeEntry, EntryCut, OffsetsBelow, RootExchange, LongText, Typed;
    if es != [] {
      var e := EncodeEntry(at, segs, room, es[0]).value;
      if es[0].Record? && LongText(es[0].a) {
        LongTextIsLong(at, segs, room, es[0].a, e);
      }
      EntryOffsets(at, segs, room, es[0], e);
      EntriesNotCut(at + |e.bytes|, e.segs, room - |e.bytes|, es[1..],
                    EncodeEntries(at + |e.bytes|, e.segs, room - |e.bytes|, es[1..]).value);
    }
  }

  /** A packet of at most 16384 bytes is too short for a pointer or a length to be cut. */
  lemma ShortPacketNotCut(m: Message, size: nat, p: Bytes)
    requires SendableMessage(m) && HEADER <= size && Encode(m, size) == Ok(p) && |p| <= OFFSET_LIMIT
    ensures !MessageCut(m, size)
    ensures AllKept(Entries(m)) <==> !AnyRootExchange(Entries(m))
  {
    hide EncodeEntries, EntriesCut, Entries, Header, AllKept, AllSendable, AnyRootExchange;
    EntriesNotCut(HEADER, [], size - HEADER, Entries(m), EncodeEntries(HEADER, [], size - HEADER, Entries(m)).value);
  }

  /* ---- When decoding is the inverse of encoding ---- */

  /** Every name in the fields is the root, or dot-terminated labels, none of them empty. */
  ghost predicate NamedFields(fs: Fields) {
    match fs
    case Done => true
    case Room(_, rest) => NamedFields(rest)
    case More(f, rest) => (f.Domain? ==> WellFormed(f.name)) && NamedFields(rest)
  }

  ghost predicate NamedQuestion(q: Question) {
    WellFormed(q.name)
  }

  ghost predicate NamedAnswer(a: Answer) {
    WellFormed(a.name) && NamedFields(a.body)
  }

  ghost predicate NamedAnswers(rs: seq<Answer>) {
    forall i :: 0 <= i < |rs| ==> NamedAnswer(rs[i])
  }

  ghost predicate NamedMessage(m: Message) {
    && (forall i :: 0 <= i < |m.questions| ==> NamedQuestion(m.questions[i]))
    && NamedAnswers(m.answers) && NamedAnswers(m.nameservers) && NamedAnswers(m.additional)
  }

  lemma {:induction false} FieldsKept(fs: Fields)
    requires IsPlain(fs)
    ensures SameFields(fs) == fs <==> NamedFields(fs)
    decreases fs
  {
    if fs.More? {
      if fs.field.Domain? {
        CanonicalIsIdentity(fs.field.name);
      }
      FieldsKept(fs.rest);
    }
  }

  lemma AnswersKept(rs: seq<Answer>)
    requires forall i :: 0 <= i < |rs| ==> IsPlain(rs[i].body)
    ensures SameAnswers(rs) == rs <==> NamedAnswers(rs)
  {
    forall i | 0 <= i < |rs| ensures SameAnswers(rs)[i] == rs[i] <==> NamedAnswer(rs[i]) {
      CanonicalIsIdentity(rs[i].name);
      FieldsKept(rs[i].body);
    }
    if SameAnswers(rs) == rs {
      forall i | 0 <= i < |rs| ensures NamedAnswer(rs[i]) {
        assert SameAnswers(rs)[i] == rs[i];
      }
    }
  }

  lemma QuestionsKept(qs: seq<Question>)
    ensures SameQuestions(qs) == qs <==> forall i :: 0 <= i < |qs| ==> NamedQuestion(qs[i])
  {
    forall i | 0 <= i < |qs| ensures SameQuestions(qs)[i] == qs[i] <==> NamedQuestion(qs[i]) {
      CanonicalIsIdentity(qs[i].name);
    }
    if SameQuestions(qs) == qs {
      forall i | 0 <= i < |qs| ensures NamedQuestion(qs[i]) {
        assert SameQuestions(qs)[i] == qs[i];
      }
    }
  }

  lemma {:induction false} SendableAt(es: seq<Entry>, i: nat)
    requires AllSendable(es) && i < |es|
    ensures Sendable(es[i])
  {
    if i > 0 {
      SendableAt(es[1..], i - 1);
    }
  }

  lemma MessageKept(m: Message)
    requires SendableMessage(m)
    ensures SameMessage(m) == m <==> NamedMessage(m)
  {
    hide IsPlain, Fits, ShapeOf, NamedAnswer, SameAnswers, SameQuestions;
    var rest := m.answers + m.nameservers + m.additional;
    forall i | 0 <= i < |rest| ensures IsPlain(rest[i].body) {
      assert Entries(m)[|m.questions| + i] == Record(rest[i]);
      SendableAt(Entries(m), |m.questions| + i);
    }
    forall i | 0 <= i < |m.answers| ensures IsPlain(m.answers[i].body) {
      assert rest[i] == m.answers[i];
    }
    forall i | 0 <= i < |m.nameservers| ensures IsPlain(m.nameservers[i].body) {
      assert rest[|m.answers| + i] == m.nameservers[i];
    }
    forall i | 0 <= i < |m.additional| ensures IsPlain(m.additional[i].body) {
      assert rest[|m.answers| + |m.nameservers| + i] == m.additional[i];
    }
    QuestionsKept(m.questions);
    AnswersKept(m.answers);
    AnswersKept(m.nameservers);
    AnswersKept(m.additional);
  }

  /** Every name in fields, in a record, in entries comes back as itself. */
  ghost predicate FieldsReturn(p: Bytes, at: nat, segs: seq<Segment>, room: nat, fs: Fields)
    decreases fs
  {
    match fs
    case Done => true
    case Room(_, rest) => FieldsReturn(p, at, segs, room, rest)
    case More(f, rest) =>
      && (f.Domain? ==> NameReturns(p, at, segs, f.name))
      && match EncodeField(at, segs, room, f)
         case Err(_) => false
         case Ok(c) => FieldsReturn(p, at + |c.bytes|, c.segs, room - |c.bytes|, rest)
  }

  ghost predicate AnswerReturns(p: Bytes, at: nat, segs: seq<Segment>, room: nat, a: Answer) {
    && NameReturns(p, at, segs, a.name)
    && match EncodeName(at, segs, room, Parse(a.name))
       case Err(_) => false
       case Ok(n) =>
         var start := |n.bytes| + 10;
         start <= room && FieldsReturn(p, at + start, n.segs, room - start, WithTests(BodyOf(a.rtype), a.body))
  }

  ghost predicate EntriesReturn(p: Bytes, at: nat, segs: seq<Segment>, room: nat, es: seq<Entry>)
    decreases |es|
  {
    es == [] ||
    (&& (match es[0]
         case Ask(q) => NameReturns(p, at, segs, q.name)
         case Record(a) => AnswerReturns(p, at, segs, room, a))
     && match EncodeEntry(at, segs, room, es[0])
        case Err(_) => false
        case Ok(c) => |c.bytes| <= room && EntriesReturn(p, at + |c.bytes|, c.segs, room - |c.bytes|, es[1..]))
  }

  ghost predicate MessageReturns(p: Bytes, m: Message, size: nat)
    requires HEADER <= size
  {
    EntriesReturn(p, HEADER, [], size - HEADER, Entries(m))
  }

  lemma {:induction false} FieldsReturnIff(p: Bytes, at: nat, segs: seq<Segment>, room: nat, fs: Fields)
    ensures FieldsArrive(p, at, segs, room, fs, Plain(fs)) <==> FieldsReturn(p, at, segs, room, fs)
    decreases fs
  {
    hide EncodeField, NameArrives, NameReturns, Parse;
    if fs.Room? {
      FieldsReturnIff(p, at, segs, room, fs.rest);
    } else if fs.More? {
      if fs.field.Domain? {
        NameReturnsIff(p, at, segs, fs.field.name);
      }
      if EncodeField(at, segs, room, fs.field).Ok? {
        var c := EncodeField(at, segs, room, fs.field).value;
        FieldsReturnIff(p, at + |c.bytes|, c.segs, room - |c.bytes|, fs.rest);
      }
    }
  }

  lemma {:induction false} PlainIsItself(fs: Fields)
    requires IsPlain(fs)
    ensures Plain(fs) == fs
    decreases fs
  {
    if fs.More? {
      PlainIsItself(fs.rest);
    }
  }

  lemma TestsArePlain(b: Body, fs: Fields)
    requires IsPlain(fs)
    ensures Plain(WithTests(b, fs)) == fs
  {
    PlainIsItself(fs);
    if b.Soa? && fs.More? && fs.rest.More? {
      PlainIsItself(fs.rest.rest);
      assert Plain(More(fs.rest.field, Room(20, fs.rest.rest))) == More(fs.rest.field, Plain(Room(20, fs.rest.rest)));
    }
  }

  lemma EntryReturnsIff(p: Bytes, at: nat, segs: seq<Segment>, room: nat, e: Entry)
    requires Sendable(e) && KeptEntry(e)
    ensures EntryArrives(p, at, segs, room, e, e) <==>
            match e
            case Ask(q) => NameReturns(p, at, segs, q.name)
            case Record(a) => AnswerReturns(p, at, segs, room, a)
  {
    hide EncodeName, NameArrives, NameReturns, Parse, FieldsArrive, FieldsReturn, Plain, WithTests, Fits, LongText,
         RootExchange, IsPlain;
    match e
    case Ask(q) => NameReturnsIff(p, at, segs, q.name);
    case Record(a) =>
      NameReturnsIff(p, at, segs, a.name);
      TestsArePlain(BodyOf(a.rtype), a.body);
      if EncodeName(at, segs, room, Parse(a.name)).Ok? {
        var n := EncodeName(at, segs, room, Parse(a.name)).value;
        var start := |n.bytes| + 10;
        if start <= room {
          FieldsReturnIff(p, at + start, n.segs, room - start, WithTests(BodyOf(a.rtype), a.body));
        }
      }
  }

  lemma {:induction false} EntriesReturnIff(p: Bytes, at: nat, segs: seq<Segment>, room: nat, es: seq<Entry>)
    requires AllSendable(es) && AllKept(es)
    ensures EntriesArrive(p, at, segs, room, es, es) <==> EntriesReturn(p, at, segs, room, es)
    decreases |es|
  {
    hide EncodeEntry, EntryArrives, AnswerReturns, NameReturns, Sendable, KeptEntry;
    if es != [] {
      EntryReturnsIff(p, at, segs, room, es[0]);
      assert KeptEntry(es[0]);
      if EncodeEntry(at, segs, room, es[0]).Ok? {
        var c := EncodeEntry(at, segs, room, es[0]).value;
        if |c.bytes| <= room {
          EntriesReturnIff(p, at + |c.bytes|, c.segs, room - |c.bytes|, es[1..]);
        }
      }
    }
  }

  /** Whatever is cut, decoding undoes encoding exactly when every name comes back as itself, no MX
      record is for the root, no text is longer than 65279 bytes, and the destination is large enough. */
  lemma DecodeUndoesEncode(m: Message, size: nat, p: Bytes, room: nat)
    requires SendableMessage(m) && HEADER <= size && Encode(m, size) == Ok(p)
    ensures Decode(p, room) == Ok(m) <==>
            AllKept(Entries(m)) && MessageReturns(p, m, size) && MessageSize(m) <= room
  {
    hide Encode, Decode, AllSendable, Entries, AllKept, FirstRejected, SomeTextCut, EntriesSize, EntriesArrive,
         EntriesReturn;
    MessageRoundTrip(m, size, p, room, m);
    NoTextCut(Entries(m));
    if AllKept(Entries(m)) {
      EntriesReturnIff(p, HEADER, [], size - HEADER, Entries(m));
    }
  }

  /** Where no pointer is cut, that every name comes back as itself is that each is the root, or
      dot-terminated labels, none of them empty. */
  lemma UncutUndone(m: Message, size: nat, p: Bytes, room: nat)
    requires SendableMessage(m) && HEADER <= size && Encode(m, size) == Ok(p) && !MessageCut(m, size)
    ensures Decode(p, room) == Ok(m) <==> NamedMessage(m) && AllKept(Entries(m)) && MessageSize(m) <= room
  {
    hide Encode, Decode, MessageCut, AllSendable, Entries, NamedMessage, AllKept, FirstRejected, SomeTextCut,
         SameMessage, EntriesSize, MessageArrives;
    MessageRoundTrip(m, size, p, room, m);
    MessageKept(m);
    NoTextCut(Entries(m));
    if AllKept(Entries(m)) {
      UncutMessageArrives(m, size, p, m);
    }
  }

  /** For packets of at most 16384 bytes nothing else can go wrong. */
  lemma ShortPacketUndone(m: Message, size: nat, p: Bytes, room: nat)
    requires SendableMessage(m) && HEADER <= size && Encode(m, size) == Ok(p) && |p| <= OFFSET_LIMIT
    ensures Decode(p, room) == Ok(m) <==>
            NamedMessage(m) && !AnyRootExchange(Entries(m)) && MessageSize(m) <= room
  {
    hide Encode, Decode, MessageCut, AllSendable, Entries, NamedMessage, AllKept, AnyRootExchange, EntriesSize;
    ShortPacketNotCut(m, size, p);
    UncutUndone(m, size, p, room);
  }
}
