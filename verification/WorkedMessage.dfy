/** One response byte by byte: names that are compressed, and a record in each section. */
module WorkedMessages {
  import opened Options
  import opened Wire
  import opened Names
  import opened Records
  import opened Messages
  import opened RoundTrips
  import opened Layouts
  import opened MessageLayouts

  /* "a." and "b.a." */
  const ZONE: Bytes := [97, 46]
  const HOST: Bytes := [98, 46, 97, 46]
  const ZONE_NAME := Part([97], End([]))
  const HOST_NAME := Part([98], ZONE_NAME)

  /** 2001:db8::1 */
  const ADDRESS: Bytes := [32, 1, 13, 184, 0, 0, 0, 0, 0, 0, 0, 0, 0, 0, 0, 1]

  const QUESTION := Question(ZONE, 28, 1)
  const AAAA := Answer(ZONE, 28, 1, 60, More(Fixed(ADDRESS), Done))
  const NS := Answer(ZONE, 2, 1, 60, More(Domain(HOST), Done))
  const A := Answer(HOST, 1, 1, 60, More(Fixed([1, 2, 3, 4]), Done))

  /** A response to a recursive query, with one entry in each section. */
  const RESPONSE :=
    Message(0x1234, 0, 0, Flags(true, false, false, true, true, false, false, false), [QUESTION], [AAAA], [NS], [A])

  const QUESTION_BYTES: Bytes := [1, 97, 0, 0, 28, 0, 1]
  const AAAA_BYTES: Bytes := [192, 12, 0, 28, 0, 1, 0, 0, 0, 60, 0, 16] + ADDRESS
  const NS_BYTES: Bytes := [192, 12, 0, 2, 0, 1, 0, 0, 0, 60, 0, 4, 1, 98, 192, 12]
  const A_BYTES: Bytes := [192, 59, 0, 1, 0, 1, 0, 0, 0, 60, 0, 4, 1, 2, 3, 4]
  const HEADER_BYTES: Bytes := [0x12, 0x34, 0x81, 0x80, 0, 1, 0, 1, 0, 1, 0, 1]

  const ONE := [Segment(ZONE_NAME, 12)]
  const BOTH := [Segment(ZONE_NAME, 12), Segment(HOST_NAME, 59)]

  lemma NamesAre()
    ensures Parse(ZONE) == ZONE_NAME && Parse(HOST) == HOST_NAME && WellFormed(ZONE) && WellFormed(HOST)
  {
    var z: Bytes, h := ZONE, HOST;
    assert DotWithin(z, 0).None? && DotWithin(z, 1).None? && DotWithin(z, 2) == Some(1);
    assert z[..1] == [97] && z[2..] == [] && Parse([]) == End([]);
    assert DotWithin(h, 0).None? && DotWithin(h, 1).None? && DotWithin(h, 2) == Some(1);
    assert DotWithin(h, 3) == Some(1) && DotWithin(h, 4) == Some(1);
    assert h[..1] == [98] && h[2..] == z;
  }

  /** "a." in full, as a pointer, and behind "b". */
  lemma NamesWritten(at: nat, room: nat)
    requires room >= 4
    ensures EncodeName(12, [], room, ZONE_NAME) == Ok(Chunk([1, 97, 0], ONE))
    ensures EncodeName(at, ONE, room, ZONE_NAME) == Ok(Chunk([192, 12], ONE))
    ensures EncodeName(59, ONE, room, HOST_NAME) == Ok(Chunk([1, 98, 192, 12], BOTH))
    ensures EncodeName(at, BOTH, room, HOST_NAME) == Ok(Chunk([192, 59], BOTH))
  {
    var none: seq<Segment> := [];
    assert none + [Segment(ZONE_NAME, 12)] == ONE && ONE + [Segment(HOST_NAME, 59)] == BOTH;
    assert FindSegment(none, ZONE_NAME).None?;
    assert FindWithin(ONE, ZONE_NAME, 0).None? && FindSegment(ONE, ZONE_NAME) == Some(0);
    assert FindWithin(ONE, HOST_NAME, 0).None? && FindSegment(ONE, HOST_NAME).None?;
    assert FindWithin(BOTH, HOST_NAME, 0).None? && FindWithin(BOTH, HOST_NAME, 1).None?;
    assert FindSegment(BOTH, HOST_NAME) == Some(1);
    assert FindWithin(BOTH, ZONE_NAME, 0).None? && FindWithin(BOTH, ZONE_NAME, 1) == Some(0);
    assert FindSegment(BOTH, ZONE_NAME) == Some(0);
    assert [1] + [97] + [0] == [1, 97, 0] && [1] + [98] + [192, 12] == [1, 98, 192, 12];
    assert EncodeName(14, ONE, room - 2, End([])) == Ok(Chunk([0], ONE));
    assert EncodeName(61, BOTH, room - 2, ZONE_NAME) == Ok(Chunk([192, 12], BOTH));
  }

  lemma QuestionIsWritten()
    ensures EncodeQuestion(12, [], 500, QUESTION) == Ok(Chunk(QUESTION_BYTES, ONE))
  {
    hide EncodeName, Parse, EncodeQuestion;
    NamesAre();
    NamesWritten(12, 500);
    QuestionWritten(12, [], 500, QUESTION);
    assert [1, 97, 0] + [0, 28, 0, 1] == QUESTION_BYTES;
  }

  lemma AaaaJoined()
    ensures [192, 12] + Ten(AAAA, 16) == [192, 12, 0, 28, 0, 1, 0, 0, 0, 60, 0, 16]
  {
  }

  lemma NsJoined()
    ensures [192, 12] + Ten(NS, 4) + [1, 98, 192, 12] == NS_BYTES
  {
    assert Ten(NS, 4) == [0, 2, 0, 1, 0, 0, 0, 60, 0, 4];
  }

  lemma AJoined()
    ensures [192, 59] + Ten(A, 4) + [1, 2, 3, 4] == A_BYTES
  {
    assert Ten(A, 4) == [0, 1, 0, 1, 0, 0, 0, 60, 0, 4];
  }

  lemma AaaaIsWritten()
    ensures EncodeAnswer(19, ONE, 493, AAAA) == Ok(Chunk(AAAA_BYTES, ONE))
  {
    hide EncodeName, Parse, EncodeAnswer, Ten;
    AaaaJoined();
    NamesAre();
    NamesWritten(19, 493);
    AddressWritten(19, ONE, 493, AAAA, Chunk([192, 12], ONE), 31, 481, ADDRESS);
  }

  lemma NsIsWritten()
    ensures EncodeAnswer(47, ONE, 465, NS) == Ok(Chunk(NS_BYTES, BOTH))
  {
    hide EncodeName, Parse, EncodeAnswer, Ten;
    NsJoined();
    NamesAre();
    NamesWritten(47, 465);
    NamesWritten(59, 453);
    HostWritten(47, ONE, 465, NS, Chunk([192, 12], ONE), 59, 453, HOST);
  }

  lemma AIsWritten()
    ensures EncodeAnswer(63, BOTH, 449, A) == Ok(Chunk(A_BYTES, BOTH))
  {
    hide EncodeName, Parse, EncodeAnswer, Ten;
    AJoined();
    NamesAre();
    NamesWritten(63, 449);
    AddressWritten(63, BOTH, 449, A, Chunk([192, 59], BOTH), 75, 437, [1, 2, 3, 4]);
  }

  lemma AllWritten()
    ensures EncodeEntries(12, [], 500, Entries(RESPONSE)) ==
            Ok(Chunk(QUESTION_BYTES + (AAAA_BYTES + (NS_BYTES + A_BYTES)), BOTH))
  {
    hide EncodeQuestion, EncodeAnswer;
    QuestionIsWritten();
    AaaaIsWritten();
    NsIsWritten();
    AIsWritten();
    var last := [Record(A)];
    var two := [Record(NS)] + last;
    var three := [Record(AAAA)] + two;
    EntriesAre();
    assert EncodeEntries(79, BOTH, 433, []) == Ok(Chunk([], BOTH));
    assert last[1..] == [] && two[1..] == last && three[1..] == two && Entries(RESPONSE)[1..] == three;
    assert A_BYTES + [] == A_BYTES;
    assert EncodeEntries(63, BOTH, 449, last) == Ok(Chunk(A_BYTES, BOTH));
    assert EncodeEntries(47, ONE, 465, two) == Ok(Chunk(NS_BYTES + A_BYTES, BOTH));
    assert EncodeEntries(19, ONE, 493, three) == Ok(Chunk(AAAA_BYTES + (NS_BYTES + A_BYTES), BOTH));
  }

  lemma EntriesAre()
    ensures Entries(RESPONSE) == [Ask(QUESTION), Record(AAAA), Record(NS), Record(A)]
  {
    assert RESPONSE.answers + RESPONSE.nameservers + RESPONSE.additional == [AAAA, NS, A];
  }

  /** The response, its 79 bytes, and back. */
  lemma ResponseBytes()
    ensures var p := HEADER_BYTES + (QUESTION_BYTES + (AAAA_BYTES + (NS_BYTES + A_BYTES)));
            Encode(RESPONSE, 512) == Ok(p) && |p| == 79 && Decode(p, 19) == Ok(RESPONSE)
  {
    hide EncodeEntries, Entries;
    AllWritten();
    assert Header(RESPONSE) == HEADER_BYTES;
    var p := HEADER_BYTES + (QUESTION_BYTES + (AAAA_BYTES + (NS_BYTES + A_BYTES)));
    assert Encode(RESPONSE, 512) == Ok(p);
    ResponseIsGood();
    hide *;
    ShortPacketUndone(RESPONSE, 512, p, 19);
  }

  lemma ResponseIsGood()
    ensures SendableMessage(RESPONSE) && NamedMessage(RESPONSE) && MessageSize(RESPONSE) == 19
    ensures !AnyRootExchange(Entries(RESPONSE))
  {
    EntriesAre();
    EntriesAreGood();
    var last := [Record(A)];
    var two := [Record(NS)] + last;
    var three := [Record(AAAA)] + two;
    assert last[1..] == [] && two[1..] == last && three[1..] == two && Entries(RESPONSE)[1..] == three;
    hide Sendable, RootExchange, EntrySize;
    assert AllSendable(last) && EntriesSize(last) == 5 && !AnyRootExchange(last);
    assert AllSendable(two) && EntriesSize(two) == 13 && !AnyRootExchange(two);
    assert AllSendable(three) && EntriesSize(three) == 16 && !AnyRootExchange(three);
  }

  lemma EntriesAreGood()
    ensures NamedMessage(RESPONSE)
    ensures Sendable(Ask(QUESTION)) && Sendable(Record(AAAA)) && Sendable(Record(NS)) && Sendable(Record(A))
    ensures !RootExchange(AAAA) && !RootExchange(NS) && !RootExchange(A)
    ensures EntrySize(Ask(QUESTION)) == 3 && EntrySize(Record(AAAA)) == 3
    ensures EntrySize(Record(NS)) == 8 && EntrySize(Record(A)) == 5
  {
    hide WellFormed, Parse, Typed;
    NamesAre();
    TypedByNumber(AAAA);
    TypedByNumber(NS);
    TypedByNumber(A);
    assert FieldsSize(Done) == 0 && NamedFields(Done) && IsPlain(Done) && Columns(Done) == [];
  }
}
