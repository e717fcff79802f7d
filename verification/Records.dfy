/** Questions and resource records as the fields they are laid out in. */
module Records {
  import opened Wire
  import opened Names

  /* ---- Fields ---- */

  /** One field of a question or of a record body. */
  datatype Field =
    | Num16(n: uint16)
    | Num32(m: uint32)
    | Domain(name: Bytes)
    | Str(text: Bytes)
    | Fixed(bytes: Bytes)
    | Txt(text: Bytes)

  /** `Room(n)` is the encoder's test, ahead of the fields behind it, that `n` bytes are left. */
  datatype Fields = Done | Room(n: nat, rest: Fields) | More(field: Field, rest: Fields)

  datatype Kind = Get16 | Get32 | GetName | GetString | GetFixed(n: nat) | GetText

  /** What the decoder expects. `Least` and `Exactly` are its tests of the record length. */
  datatype Shape = Finish | Least(n: nat, rest: Shape) | Exactly(n: nat, rest: Shape) | Get(kind: Kind, rest: Shape)

  predicate Reads(k: Kind, f: Field) {
    match k
    case Get16 => f.Num16?
    case Get32 => f.Num32?
    case GetName => f.Domain?
    case GetString => f.Str? && |f.text| <= 255
    case GetFixed(n) => f.Fixed? && |f.bytes| == n
    case GetText => f.Txt?
  }

  /** The fields are those the shape reads; text stands alone, as it takes the whole record. */
  predicate Fits(fs: Fields, s: Shape)
    decreases fs, s
  {
    if fs.Room? then Fits(fs.rest, s)
    else if s.Least? || s.Exactly? then Fits(fs, s.rest)
    else if fs.Done? then s.Finish?
    else s.Get? && Reads(s.kind, fs.field) && Fits(fs.rest, s.rest)
  }

  /* ---- TXT ---- */

  /** Text in chunks of at most 255 bytes, each behind its length. */
  function TextBytes(text: Bytes): Bytes
    decreases |text|
  {
    if text == [] then []
    else
      var n := if |text| < 255 then |text| else 255;
      [n] + text[..n] + TextBytes(text[n..])
  }

  lemma {:induction false} TextBytesLength(text: Bytes)
    ensures |TextBytes(text)| == |text| + (|text| + 254) / 255
    decreases |text|
  {
    if text != [] {
      var n := if |text| < 255 then |text| else 255;
      TextBytesLength(text[n..]);
    }
  }

  /** decode_rr_txt: chunks until the record length is used up. */
  function ReadText(p: Bytes, pos: nat, room: nat, len: nat): Result<Got<Bytes>>
    decreases len
  {
    if len == 0 then
      if room == 0 then Err(NoMemory) else Ok(Got([], pos, room - 1))
    else if pos >= |p| then Err(FormatError)
    else
      var n := p[pos];
      if n > len - 1 then Err(FormatError)
      else if |p| - (pos + 1) < n then Err(FormatError)
      else if room < n then Err(NoMemory)
      else
        var rest :- ReadText(p, pos + 1 + n, room - n, len - 1 - n);
        Ok(Got(p[pos + 1..pos + 1 + n] + rest.value, rest.pos, rest.room))
  }

  /** The first chunk of a text, and the others behind it. */
  lemma FirstChunk(p: Bytes, at: nat, text: Bytes, dest: nat) returns (n: nat)
    requires Has(p, at, TextBytes(text)) && text != [] && |text| < dest
    ensures 0 < n <= |text| && |TextBytes(text)| == 1 + n + |TextBytes(text[n..])|
    ensures Has(p, at + 1 + n, TextBytes(text[n..]))
    ensures ReadText(p, at, dest, |TextBytes(text)|) ==
            match ReadText(p, at + 1 + n, dest - n, |TextBytes(text[n..])|)
            case Err(rc) => Err(rc)
            case Ok(g) => Ok(Got(text[..n] + g.value, g.pos, g.room))
  {
    n := if |text| < 255 then |text| else 255;
    var part, rest := text[..n], TextBytes(text[n..]);
    HasParts(p, at, [n] + part, rest);
    HasParts(p, at, [n], part);
    HasSlice(p, at + 1, part);
    assert p[at] == [n][0];
  }

  /** Text of any length comes back whole, its chunks joined. */
  lemma {:induction false} TextRoundTrip(p: Bytes, at: nat, text: Bytes, dest: nat)
    requires Has(p, at, TextBytes(text)) && |text| < dest
    ensures ReadText(p, at, dest, |TextBytes(text)|) ==
            Ok(Got(text, at + |TextBytes(text)|, dest - |text| - 1))
    decreases |text|
  {
    if text != [] {
      var n := FirstChunk(p, at, text, dest);
      hide TextBytes, ReadText;
      TextRoundTrip(p, at + 1 + n, text[n..], dest - n);
      assert text[..n] + text[n..] == text;
    }
  }

  /** More destination than was needed is left over. */
  lemma {:induction false} MoreRoom(p: Bytes, pos: nat, room: nat, len: nat, more: nat)
    requires ReadText(p, pos, room, len).Ok?
    ensures var g := ReadText(p, pos, room, len).value;
            ReadText(p, pos, room + more, len) == Ok(g.(room := g.room + more))
    decreases len
  {
    if len > 0 {
      var n := p[pos];
      MoreRoom(p, pos + 1 + n, room - n, len - 1 - n, more);
    }
  }

  /** Text is read only where it fits. */
  lemma TextNeedsRoom(p: Bytes, at: nat, text: Bytes, dest: nat)
    requires Has(p, at, TextBytes(text)) && ReadText(p, at, dest, |TextBytes(text)|).Ok?
    ensures |text| < dest
  {
    hide ReadText, TextBytes, Has;
    MoreRoom(p, at, dest, |TextBytes(text)|, |text| + 1);
    TextRoundTrip(p, at, text, dest + |text| + 1);
  }

  /* Text of more than 65279 bytes takes 65536 bytes or more, so its record's length is cut. */

  const TEXT_LIMIT: nat := 65280

  lemma TextLimit(text: Bytes)
    ensures |TextBytes(text)| < 0x1_0000 <==> |text| < TEXT_LIMIT
  {
    TextBytesLength(text);
  }

  /** A first chunk of 255 bytes. */
  lemma FullChunk(p: Bytes, at: nat, text: Bytes, dest: nat, len: nat)
    requires Has(p, at, TextBytes(text)) && 255 <= |text| < dest
    ensures Has(p, at + 256, TextBytes(text[255..]))
    ensures 0 < len < 256 ==> ReadText(p, at, dest, len) == Err(FormatError)
    ensures len >= 256 ==>
              ReadText(p, at, dest, len) ==
              match ReadText(p, at + 256, dest - 255, len - 256)
              case Err(rc) => Err(rc)
              case Ok(g) => Ok(Got(text[..255] + g.value, g.pos, g.room))
  {
    var part, more := text[..255], TextBytes(text[255..]);
    assert TextBytes(text) == [255] + part + more;
    HasParts(p, at, [255] + part, more);
    HasParts(p, at, [255], part);
    HasSlice(p, at + 1, part);
    assert p[at] == [255][0];
  }

  lemma ChunkLength(text: Bytes)
    ensures |TextBytes(text)| >= 256 ==> |text| >= 255 && |TextBytes(text)| == 256 + |TextBytes(text[255..])|
  {
  }

  /** Reading less than was written: `q` whole chunks come back, and a chunk that reaches over the
      end is an error. */
  lemma {:induction false} TextPrefix(p: Bytes, at: nat, text: Bytes, dest: nat, q: nat, r: nat)
    requires Has(p, at, TextBytes(text)) && |text| < dest
    requires r < 256 && 256 * q + r + 256 <= |TextBytes(text)|
    ensures 255 * q <= |text|
    ensures ReadText(p, at, dest, 256 * q + r) ==
            if r == 0 then Ok(Got(text[..255 * q], at + 256 * q, dest - 255 * q - 1)) else Err(FormatError)
    decreases q
  {
    hide TextBytes, Has;
    ChunkLength(text);
    FullChunk(p, at, text, dest, 256 * q + r);
    if q > 0 {
      var more, k := text[255..], 255 * (q - 1);
      TextPrefix(p, at + 256, more, dest - 255, q - 1, r);
      assert text[..255] + more[..k] == text[..k + 255];
    }
  }

  /** A length that is cut, in chunks of 256 bytes. */
  lemma CutLength(n: nat) returns (q: nat, r: nat)
    requires n >= TEXT_LIMIT
    ensures var b := n + (n + 254) / 255;
            b % 0x1_0000 == 256 * q + r && r < 256 && 256 * q + r + 256 <= b
    ensures r == 0 <==> n % 255 == 0
    ensures r == 0 ==> 255 * q == n % TEXT_LIMIT
  {
    var k, m := n / 255, n % 255;
    assert n == 255 * k + m;
    var b := n + (n + 254) / 255;
    var c, e := b / 0x1_0000, b % 0x1_0000;
    assert b == 0x1_0000 * c + e;
    q, r := e / 256, e % 256;
    assert e == 256 * q + r;
    if m == 0 {
      assert b == 256 * k;
      assert k == 256 * c + q;
      assert n == TEXT_LIMIT * c + 255 * q;
    } else {
      assert (n + 254) / 255 == k + 1;
      assert b == 256 * k + m + 1;
    }
  }

  /** Whatever room there is, nothing else is read. */
  lemma LongTextOnly(p: Bytes, at: nat, text: Bytes, dest: nat)
    requires Has(p, at, TextBytes(text)) && |text| >= TEXT_LIMIT
    requires ReadText(p, at, dest, |TextBytes(text)| % 0x1_0000).Ok?
    ensures |text| % 255 == 0
    ensures ReadText(p, at, dest, |TextBytes(text)| % 0x1_0000).value.value == text[..|text| % TEXT_LIMIT]
  {
    hide ReadText, TextBytes, Has;
    MoreRoom(p, at, dest, |TextBytes(text)| % 0x1_0000, |text| + 1);
    LongTextRead(p, at, text, dest + |text| + 1);
  }

  /** With its length cut, text comes back as no more than its first |text| % 65280 bytes, when it is
      whole chunks, and as an error when it is not. */
  lemma LongTextRead(p: Bytes, at: nat, text: Bytes, dest: nat)
    requires Has(p, at, TextBytes(text)) && |text| < dest && |text| >= TEXT_LIMIT
    ensures var len := |TextBytes(text)| % 0x1_0000;
            ReadText(p, at, dest, len) ==
            if |text| % 255 == 0 then
              Ok(Got(text[..|text| % TEXT_LIMIT], at + len, dest - |text| % TEXT_LIMIT - 1))
            else Err(FormatError)
  {
    TextBytesLength(text);
    var q, r := CutLength(|text|);
    TextPrefix(p, at, text, dest, q, r);
  }

  /* ---- Encoding fields ---- */

  function FieldBytes(f: Field): Bytes
    requires !f.Domain?
    requires f.Str? ==> |f.text| <= 255
  {
    match f
    case Num16(n) => U16(n)
    case Num32(m) => U32(m)
    case Str(text) => [|text|] + text
    case Fixed(bytes) => bytes
    case Txt(text) => TextBytes(text)
  }

  function EncodeField(at: nat, segs: seq<Segment>, room: nat, f: Field): (r: Result<Chunk>)
    ensures r.Ok? ==> |r.value.bytes| <= room && |segs| <= |r.value.segs|
    ensures r.Ok? ==> r.value.segs[..|segs|] == segs
  {
    if f.Domain? then EncodeName(at, segs, room, Parse(f.name))
    else if f.Str? && |f.text| > 255 then Err(BadString)
    else if room < |FieldBytes(f)| then Err(NoMemory)
    else Ok(Chunk(FieldBytes(f), segs))
  }

  function EncodeFields(at: nat, segs: seq<Segment>, room: nat, fs: Fields): (r: Result<Chunk>)
    ensures r.Ok? ==> |r.value.bytes| <= room && |segs| <= |r.value.segs|
    ensures r.Ok? ==> r.value.segs[..|segs|] == segs
    decreases fs
  {
    match fs
    case Done => Ok(Chunk([], segs))
    case Room(n, rest) => if room < n then Err(NoMemory) else EncodeFields(at, segs, room, rest)
    case More(f, rest) =>
      var c :- EncodeField(at, segs, room, f);
      var d :- EncodeFields(at + |c.bytes|, c.segs, room - |c.bytes|, rest);
      assert d.segs[..|segs|] == d.segs[..|c.segs|][..|segs|];
      Ok(Chunk(c.bytes + d.bytes, d.segs))
  }

  /** A pointer in what is written for the field, or for the fields, is cut. */
  predicate FieldCut(at: nat, segs: seq<Segment>, f: Field) {
    f.Domain? && PointerCut(at, segs, Parse(f.name))
  }

  predicate FieldsCut(at: nat, segs: seq<Segment>, room: nat, fs: Fields)
    decreases fs
  {
    match fs
    case Done => false
    case Room(_, rest) => FieldsCut(at, segs, room, rest)
    case More(f, rest) =>
      FieldCut(at, segs, f) ||
      match EncodeField(at, segs, room, f)
      case Err(_) => false
      case Ok(c) => FieldsCut(at + |c.bytes|, c.segs, room - |c.bytes|, rest)
  }

  /** Bytes that the fields of a shape without text take at most, but for labels. */
  function MostBytes(s: Shape): nat {
    match s
    case Finish => 0
    case Least(_, t) => MostBytes(t)
    case Exactly(_, t) => MostBytes(t)
    case Get(k, t) =>
      (match k
       case Get16 => 2
       case Get32 => 4
       case GetFixed(n) => n
       case GetName => 2
       case GetString => 256
       case GetText => 0) + MostBytes(t)
  }

  predicate ReadsText(s: Shape) {
    match s
    case Finish => false
    case Least(_, t) => ReadsText(t)
    case Exactly(_, t) => ReadsText(t)
    case Get(k, t) => k.GetText? || ReadsText(t)
  }

  lemma FieldBound(at: nat, segs: seq<Segment>, room: nat, f: Field, k: Kind, t: Shape, c: Chunk)
    requires EncodeField(at, segs, room, f) == Ok(c) && Reads(k, f) && !k.GetText? && |segs| <= MAXSEG
    ensures |c.segs| <= MAXSEG
    ensures |c.bytes| + MostBytes(t) <= MostBytes(Get(k, t)) + MAX_DOMAIN_LABEL * (|c.segs| - |segs|)
  {
    hide EncodeName, Parse, TextBytes;
    if f.Domain? {
      NameBound(at, segs, room, Parse(f.name), c);
    }
  }

  /** Each label goes into the table, which ends at 100 entries, so fields without text are short. */
  lemma {:induction false} FieldsBound(at: nat, segs: seq<Segment>, room: nat, fs: Fields, s: Shape, c: Chunk)
    requires EncodeFields(at, segs, room, fs) == Ok(c) && Fits(fs, s) && !ReadsText(s) && |segs| <= MAXSEG
    ensures |c.segs| <= MAXSEG
    ensures |c.bytes| <= MostBytes(s) + MAX_DOMAIN_LABEL * (|c.segs| - |segs|)
    decreases fs, s
  {
    hide EncodeField, Reads;
    if fs.Room? {
      FieldsBound(at, segs, room, fs.rest, s, c);
    } else if s.Least? || s.Exactly? {
      FieldsBound(at, segs, room, fs, s.rest, c);
    } else if fs.More? {
      var e := EncodeField(at, segs, room, fs.field).value;
      FieldBound(at, segs, room, fs.field, s.kind, s.rest, e);
      FieldsBound(at + |e.bytes|, e.segs, room - |e.bytes|, fs.rest, s.rest,
                  EncodeFields(at + |e.bytes|, e.segs, room - |e.bytes|, fs.rest).value);
    }
  }

  /* ---- Decoding fields ---- */

  function Take(p: Bytes, pos: nat, n: nat): Result<Bytes> {
    if pos + n > |p| then Err(Overrun) else Ok(p[pos..pos + n])
  }

  function ReadString(p: Bytes, pos: nat, room: nat): Result<Got<Bytes>> {
    if pos >= |p| then Err(Overrun)
    else
      var n: nat := p[pos];
      if room < n + 1 then Err(NoMemory)
      else if |p| - pos < n + 1 then Err(FormatError)
      else Ok(Got(p[pos + 1..pos + 1 + n], pos + 1 + n, room - n - 1))
  }

  /** One field; `len` is the record's length field, which only text looks at. */
  function ReadField(p: Bytes, pos: nat, room: nat, len: nat, k: Kind): Result<Got<Field>> {
    match k
    case Get16 =>
      var b :- Take(p, pos, 2);
      Ok(Got(Num16(GetU16(b)), pos + 2, room))
    case Get32 =>
      var b :- Take(p, pos, 4);
      Ok(Got(Num32(GetU32(b)), pos + 4, room))
    case GetFixed(n) =>
      var b :- Take(p, pos, n);
      Ok(Got(Fixed(b), pos + n, room))
    case GetName =>
      var g :- ReadName(p, pos, room);
      Ok(Got(Domain(g.value), g.pos, g.room))
    case GetString =>
      var g :- ReadString(p, pos, room);
      Ok(Got(Str(g.value), g.pos, g.room))
    case GetText =>
      var g :- ReadText(p, pos, room, len);
      Ok(Got(Txt(g.value), g.pos, g.room))
  }

  /** The fields of `s`, from `pos` on. */
  function ReadFields(p: Bytes, pos: nat, room: nat, len: nat, s: Shape): Result<Got<Fields>>
    decreases s
  {
    match s
    case Finish => Ok(Got(Done, pos, room))
    case Least(n, t) => if len < n then Err(FormatError) else ReadFields(p, pos, room, len, t)
    case Exactly(n, t) => if len != n then Err(FormatError) else ReadFields(p, pos, room, len, t)
    case Get(k, t) =>
      var g :- ReadField(p, pos, room, len, k);
      var h :- ReadFields(p, g.pos, g.room, len, t);
      Ok(Got(More(g.value, h.value), h.pos, h.room))
  }

  /* ---- Round trip of fields ---- */

  /** The field a reader gets back: only names are rewritten. */
  function Same(f: Field): Field {
    if f.Domain? then Domain(Canonical(Parse(f.name))) else f
  }

  function SameFields(fs: Fields): Fields {
    match fs
    case Done => Done
    case Room(_, rest) => SameFields(rest)
    case More(f, rest) => More(Same(f), SameFields(rest))
  }

  /** Destination bytes a field that was read takes: its text and a terminator. */
  function FieldSize(f: Field): nat {
    match f
    case Domain(name) => |name| + 1
    case Str(text) => |text| + 1
    case Txt(text) => |text| + 1
    case _ => 0
  }

  function FieldsSize(fs: Fields): nat {
    match fs
    case Done => 0
    case Room(_, rest) => FieldsSize(rest)
    case More(f, rest) => FieldSize(f) + FieldsSize(rest)
  }

  /** The decoder's tests of a record length accept `len`. */
  predicate Accepts(s: Shape, len: nat) {
    match s
    case Finish => true
    case Least(n, t) => n <= len && Accepts(t, len)
    case Exactly(n, t) => n == len && Accepts(t, len)
    case Get(_, t) => Accepts(t, len)
  }

  lemma TakeBack(p: Bytes, at: nat, b: Bytes)
    requires Has(p, at, b)
    ensures Take(p, at, |b|) == Ok(b)
  {
    HasSlice(p, at, b);
  }

  lemma StringBack(p: Bytes, at: nat, text: Bytes, dest: nat)
    requires |text| <= 255 && |text| < dest && Has(p, at, [|text|] + text)
    ensures ReadString(p, at, dest) == Ok(Got(text, at + 1 + |text|, dest - |text| - 1))
  {
    HasParts(p, at, [|text|], text);
    HasSlice(p, at + 1, text);
    assert p[at] == [|text|][0];
  }

  /** One field that is not a name is read back as itself. */
  lemma PlainFieldRoundTrip(p: Bytes, at: nat, f: Field, k: Kind, len: nat, dest: nat)
    requires Reads(k, f) && !f.Domain?
    requires Has(p, at, FieldBytes(f)) && FieldSize(f) <= dest
    requires f.Txt? ==> len == |TextBytes(f.text)|
    ensures ReadField(p, at, dest, len, k) == Ok(Got(f, at + |FieldBytes(f)|, dest - FieldSize(f)))
  {
    assert f.Num16? ==> |U16(f.n)| == 2;
    assert f.Num32? ==> |U32(f.m)| == 4;
    hide U16, U32, GetU16, GetU32, Take, ReadString, ReadText, TextBytes;
    match f
    case Num16(n) =>
      TakeBack(p, at, U16(n));
      U16RoundTrip(n);
    case Num32(m) =>
      TakeBack(p, at, U32(m));
      U32RoundTrip(m);
    case Str(text) => StringBack(p, at, text, dest);
    case Txt(text) => TextRoundTrip(p, at, text, dest);
    case Fixed(b) => TakeBack(p, at, b);
  }

  lemma TableLater(p: Bytes, at: nat, later: nat, segs: seq<Segment>)
    requires TableOk(p, at, segs) && at <= later
    ensures TableOk(p, later, segs)
  {
  }

  /** What comes back of a field, and of fields. */
  ghost predicate FieldArrives(p: Bytes, at: nat, segs: seq<Segment>, f: Field, g: Field) {
    if f.Domain? then g.Domain? && NameArrives(p, at, segs, Parse(f.name), g.name) else g == f
  }

  ghost predicate FieldsArrive(p: Bytes, at: nat, segs: seq<Segment>, room: nat, fs: Fields, gs: Fields)
    decreases fs
  {
    match fs
    case Done => gs == Done
    case Room(_, rest) => FieldsArrive(p, at, segs, room, rest, gs)
    case More(f, rest) =>
      && gs.More? && FieldArrives(p, at, segs, f, gs.field)
      && match EncodeField(at, segs, room, f)
         case Err(_) => false
         case Ok(c) => FieldsArrive(p, at + |c.bytes|, c.segs, room - |c.bytes|, rest, gs.rest)
  }

  lemma FieldKeepsTable(p: Bytes, at: nat, segs: seq<Segment>, room: nat, f: Field, c: Chunk)
    requires EncodeField(at, segs, room, f) == Ok(c) && Has(p, at, c.bytes) && TableOk(p, at, segs)
    ensures TableOk(p, at + |c.bytes|, c.segs)
  {
    hide EncodeName, Parse, EntriesOk, TextBytes, Has;
    if f.Domain? {
      ParseIsParsed(f.name);
      NameKeepsTable(p, at, segs, room, Parse(f.name), c);
    } else {
      TableLater(p, at, at + |c.bytes|, segs);
    }
  }

  /** A field that is not a name is read only where it fits. */
  lemma PlainFieldFits(p: Bytes, at: nat, f: Field, k: Kind, len: nat, dest: nat)
    requires Reads(k, f) && !f.Domain? && Has(p, at, FieldBytes(f))
    requires f.Txt? ==> len == |TextBytes(f.text)|
    requires ReadField(p, at, dest, len, k).Ok?
    ensures FieldSize(f) <= dest
  {
    hide ReadText, TextBytes, U16, U32;
    match f
    case Str(text) =>
      HasParts(p, at, [|text|], text);
      assert p[at] == [|text|][0];
    case Txt(text) => TextNeedsRoom(p, at, text, dest);
    case _ =>
  }

  /** The field at `pos` is read, up to `end`; `g` takes its size of the destination. */
  ghost predicate FieldRead(p: Bytes, pos: nat, dest: nat, len: nat, k: Kind, g: Field, end: nat) {
    FieldSize(g) <= dest && ReadField(p, pos, dest, len, k) == Ok(Got(g, end, dest - FieldSize(g)))
  }

  lemma DomainFieldRoundTrip(p: Bytes, at: nat, segs: seq<Segment>, room: nat, f: Field, c: Chunk,
                             len: nat, dest: nat, g: Field)
    requires f.Domain? && EncodeField(at, segs, room, f) == Ok(c) && Has(p, at, c.bytes) && TableOk(p, at, segs)
    ensures FieldArrives(p, at, segs, f, g) && FieldSize(g) <= dest ==>
              FieldRead(p, at, dest, len, GetName, g, at + |c.bytes|)
    ensures ReadField(p, at, dest, len, GetName).Ok? ==>
              var h := ReadField(p, at, dest, len, GetName).value.value;
              FieldArrives(p, at, segs, f, h) && FieldRead(p, at, dest, len, GetName, h, at + |c.bytes|)
  {
    hide EncodeName, NameArrives, ReadName, Parse, EntriesOk, Has;
    ParseIsParsed(f.name);
    if g.Domain? {
      NameRoundTrip(p, at, segs, room, Parse(f.name), c, dest, g.name);
    }
    if ReadName(p, at, dest).Ok? {
      NameRoundTrip(p, at, segs, room, Parse(f.name), c, dest, ReadName(p, at, dest).value.value);
    }
  }

  /** Of one field exactly what arrives is read. */
  lemma FieldRoundTrip(p: Bytes, at: nat, segs: seq<Segment>, room: nat, f: Field, c: Chunk,
                       k: Kind, len: nat, dest: nat, g: Field)
    requires EncodeField(at, segs, room, f) == Ok(c) && Reads(k, f)
    requires Has(p, at, c.bytes) && TableOk(p, at, segs)
    requires f.Txt? ==> len == |TextBytes(f.text)|
    ensures FieldArrives(p, at, segs, f, g) && FieldSize(g) <= dest ==>
              FieldRead(p, at, dest, len, k, g, at + |c.bytes|)
    ensures ReadField(p, at, dest, len, k).Ok? ==>
              var h := ReadField(p, at, dest, len, k).value.value;
              FieldArrives(p, at, segs, f, h) && FieldRead(p, at, dest, len, k, h, at + |c.bytes|)
  {
    hide EncodeName, NameArrives, ReadField, Parse, EntriesOk, TextBytes, Has, U16, U32;
    if f.Domain? {
      DomainFieldRoundTrip(p, at, segs, room, f, c, len, dest, g);
    } else {
      if ReadField(p, at, dest, len, k).Ok? {
        PlainFieldFits(p, at, f, k, len, dest);
      }
      if FieldSize(f) <= dest {
        PlainFieldRoundTrip(p, at, f, k, len, dest);
      }
    }
  }

  /** Text takes up a record of length `len`. */
  predicate TextFills(fs: Fields, len: nat) {
    match fs
    case Done => true
    case Room(_, rest) => TextFills(rest, len)
    case More(f, rest) => (f.Txt? ==> len == |TextBytes(f.text)|) && TextFills(rest, len)
  }

  /** `fs` encodes to `c`, which is in `p` at `at`, behind what the table describes. */
  ghost predicate Sent(p: Bytes, at: nat, segs: seq<Segment>, room: nat, fs: Fields, c: Chunk) {
    && EncodeFields(at, segs, room, fs) == Ok(c)
    && Has(p, at, c.bytes)
    && TableOk(p, at, segs)
  }

  lemma FieldsStep(at: nat, segs: seq<Segment>, room: nat, fs: Fields, c: Chunk) returns (e: Chunk, d: Chunk)
    requires fs.More? && EncodeFields(at, segs, room, fs) == Ok(c)
    ensures EncodeField(at, segs, room, fs.field) == Ok(e) && |e.bytes| <= room
    ensures EncodeFields(at + |e.bytes|, e.segs, room - |e.bytes|, fs.rest) == Ok(d)
    ensures c == Chunk(e.bytes + d.bytes, d.segs)
    ensures FieldsCut(at, segs, room, fs) <==>
            FieldCut(at, segs, fs.field) || FieldsCut(at + |e.bytes|, e.segs, room - |e.bytes|, fs.rest)
  {
    hide EncodeField, FieldCut;
    e := EncodeField(at, segs, room, fs.field).value;
    d := EncodeFields(at + |e.bytes|, e.segs, room - |e.bytes|, fs.rest).value;
  }

  lemma SentSplit(p: Bytes, at: nat, segs: seq<Segment>, room: nat, fs: Fields, c: Chunk) returns (e: Chunk, d: Chunk)
    requires fs.More? && Sent(p, at, segs, room, fs, c)
    ensures EncodeField(at, segs, room, fs.field) == Ok(e) && |e.bytes| <= room
    ensures EncodeFields(at + |e.bytes|, e.segs, room - |e.bytes|, fs.rest) == Ok(d)
    ensures |c.bytes| == |e.bytes| + |d.bytes| && c.segs == d.segs
    ensures Has(p, at, e.bytes) && Has(p, at + |e.bytes|, d.bytes)
  {
    e, d := FieldsStep(at, segs, room, fs, c);
    HasParts(p, at, e.bytes, d.bytes);
  }

  /** The first field is there, and the others behind it. */
  lemma FirstField(p: Bytes, at: nat, segs: seq<Segment>, room: nat, fs: Fields, c: Chunk, gs: Fields)
      returns (e: Chunk, d: Chunk)
    requires fs.More? && Sent(p, at, segs, room, fs, c)
    ensures EncodeField(at, segs, room, fs.field) == Ok(e) && |e.bytes| <= room
    ensures Has(p, at, e.bytes) && TableOk(p, at, segs)
    ensures Sent(p, at + |e.bytes|, e.segs, room - |e.bytes|, fs.rest, d)
    ensures |c.bytes| == |e.bytes| + |d.bytes| && c.segs == d.segs
    ensures FieldsArrive(p, at, segs, room, fs, gs) <==>
            && gs.More? && FieldArrives(p, at, segs, fs.field, gs.field)
            && FieldsArrive(p, at + |e.bytes|, e.segs, room - |e.bytes|, fs.rest, gs.rest)
  {
    hide EncodeField, EncodeFields, EntriesOk, FieldArrives, Has;
    e, d := SentSplit(p, at, segs, room, fs, c);
    FieldKeepsTable(p, at, segs, room, fs.field, e);
  }

  lemma {:induction false} SentKeepsTable(p: Bytes, at: nat, segs: seq<Segment>, room: nat, fs: Fields, c: Chunk)
    requires Sent(p, at, segs, room, fs, c)
    ensures TableOk(p, at + |c.bytes|, c.segs)
    decreases fs
  {
    hide EncodeField, EntriesOk, FieldsArrive, Has;
    if fs.Room? {
      SentKeepsTable(p, at, segs, room, fs.rest, c);
    } else if fs.More? {
      var e, d := FirstField(p, at, segs, room, fs, c, Done);
      SentKeepsTable(p, at + |e.bytes|, e.segs, room - |e.bytes|, fs.rest, d);
    }
  }

  /** The fields without the encoder's tests, and the shape without the decoder's. */
  function Plain(fs: Fields): Fields {
    match fs
    case Done => Done
    case Room(_, rest) => Plain(rest)
    case More(f, rest) => More(f, Plain(rest))
  }

  function PlainShape(s: Shape): Shape {
    match s
    case Finish => Finish
    case Least(_, t) => PlainShape(t)
    case Exactly(_, t) => PlainShape(t)
    case Get(k, t) => Get(k, PlainShape(t))
  }

  predicate IsPlain(fs: Fields) {
    fs.Done? || (fs.More? && IsPlain(fs.rest))
  }

  predicate IsPlainShape(s: Shape) {
    s.Finish? || (s.Get? && IsPlainShape(s.rest))
  }

  lemma {:induction false} PlainEncodes(at: nat, segs: seq<Segment>, room: nat, fs: Fields)
    requires EncodeFields(at, segs, room, fs).Ok?
    ensures EncodeFields(at, segs, room, Plain(fs)) == EncodeFields(at, segs, room, fs)
    decreases fs
  {
    hide EncodeField;
    if fs.Room? {
      PlainEncodes(at, segs, room, fs.rest);
    } else if fs.More? {
      var c := EncodeField(at, segs, room, fs.field).value;
      PlainEncodes(at + |c.bytes|, c.segs, room - |c.bytes|, fs.rest);
    }
  }

  lemma {:induction false} PlainArrives(p: Bytes, at: nat, segs: seq<Segment>, room: nat, fs: Fields, gs: Fields)
    ensures FieldsArrive(p, at, segs, room, Plain(fs), gs) == FieldsArrive(p, at, segs, room, fs, gs)
    decreases fs
  {
    hide EncodeField, FieldArrives;
    if fs.Room? {
      PlainArrives(p, at, segs, room, fs.rest, gs);
    } else if fs.More? && gs.More? && EncodeField(at, segs, room, fs.field).Ok? {
      var c := EncodeField(at, segs, room, fs.field).value;
      PlainArrives(p, at + |c.bytes|, c.segs, room - |c.bytes|, fs.rest, gs.rest);
    }
  }

  lemma {:induction false} PlainReads(p: Bytes, pos: nat, room: nat, len: nat, s: Shape)
    requires Accepts(s, len)
    ensures ReadFields(p, pos, room, len, s) == ReadFields(p, pos, room, len, PlainShape(s))
    decreases s
  {
    match s
    case Finish =>
    case Least(_, t) => PlainReads(p, pos, room, len, t);
    case Exactly(_, t) => PlainReads(p, pos, room, len, t);
    case Get(k, t) =>
      if ReadField(p, pos, room, len, k).Ok? {
        var g := ReadField(p, pos, room, len, k).value;
        PlainReads(p, g.pos, g.room, len, t);
      }
  }

  lemma {:induction false} PlainFits(fs: Fields, s: Shape, len: nat)
    requires Fits(fs, s)
    ensures Fits(Plain(fs), PlainShape(s)) && IsPlain(Plain(fs)) && IsPlainShape(PlainShape(s))
    ensures TextFills(Plain(fs), len) == TextFills(fs, len)
    decreases fs, s
  {
    if fs.Room? {
      PlainFits(fs.rest, s, len);
    } else if s.Least? || s.Exactly? {
      PlainFits(fs, s.rest, len);
    } else if fs.More? {
      PlainFits(fs.rest, s.rest, len);
    }
  }

  /** `s` reads `gs` from `pos` on, up to `end`. */
  ghost predicate FieldsRead(p: Bytes, pos: nat, dest: nat, len: nat, s: Shape, gs: Fields, end: nat) {
    FieldsSize(gs) <= dest && ReadFields(p, pos, dest, len, s) == Ok(Got(gs, end, dest - FieldsSize(gs)))
  }

  lemma ReadMore(p: Bytes, pos: nat, dest: nat, len: nat, k: Kind, t: Shape, gs: Fields, mid: nat, end: nat)
    requires gs.More? && FieldRead(p, pos, dest, len, k, gs.field, mid)
    requires FieldsRead(p, mid, dest - FieldSize(gs.field), len, t, gs.rest, end)
    ensures FieldsRead(p, pos, dest, len, Get(k, t), gs, end)
  {
  }

  /** What was read is its first field and the others. */
  lemma ReadParts(p: Bytes, pos: nat, dest: nat, len: nat, k: Kind, t: Shape) returns (g: Got<Field>, h: Got<Fields>)
    requires ReadFields(p, pos, dest, len, Get(k, t)).Ok?
    ensures ReadField(p, pos, dest, len, k) == Ok(g) && ReadFields(p, g.pos, g.room, len, t) == Ok(h)
    ensures ReadFields(p, pos, dest, len, Get(k, t)) == Ok(Got(More(g.value, h.value), h.pos, h.room))
  {
    g := ReadField(p, pos, dest, len, k).value;
    h := ReadFields(p, g.pos, g.room, len, t).value;
  }

  lemma NothingRead(p: Bytes, at: nat, segs: seq<Segment>, room: nat, c: Chunk, s: Shape, len: nat, dest: nat)
    requires Sent(p, at, segs, room, Done, c) && Fits(Done, s) && IsPlainShape(s)
    ensures FieldsRead(p, at, dest, len, s, Done, at + |c.bytes|)
  {
  }

  /** Fields and shape without tests: what arrives is read. */
  lemma {:induction false} PlainDelivered(p: Bytes, at: nat, segs: seq<Segment>, room: nat, fs: Fields, c: Chunk,
                                          s: Shape, len: nat, dest: nat, gs: Fields)
    requires Sent(p, at, segs, room, fs, c)
    requires Fits(fs, s) && IsPlain(fs) && IsPlainShape(s) && TextFills(fs, len)
    requires FieldsArrive(p, at, segs, room, fs, gs) && FieldsSize(gs) <= dest
    ensures FieldsRead(p, at, dest, len, s, gs, at + |c.bytes|)
    decreases fs
  {
    hide Sent, ReadFields, FieldRead, FieldSize, FieldArrives, Reads, TextBytes, FieldsRead;
    if fs.Done? {
      NothingRead(p, at, segs, room, c, s, len, dest);
    } else {
      hide FieldsArrive;
      var e, d := FirstField(p, at, segs, room, fs, c, gs);
      FieldRoundTrip(p, at, segs, room, fs.field, e, s.kind, len, dest, gs.field);
      PlainDelivered(p, at + |e.bytes|, e.segs, room - |e.bytes|, fs.rest, d, s.rest, len, dest - FieldSize(gs.field),
                     gs.rest);
      ReadMore(p, at, dest, len, s.kind, s.rest, gs, at + |e.bytes|, at + |c.bytes|);
    }
  }

  /** And nothing else is. */
  lemma {:induction false} PlainRead(p: Bytes, at: nat, segs: seq<Segment>, room: nat, fs: Fields, c: Chunk,
                                     s: Shape, len: nat, dest: nat)
    requires Sent(p, at, segs, room, fs, c)
    requires Fits(fs, s) && IsPlain(fs) && IsPlainShape(s) && TextFills(fs, len)
    requires ReadFields(p, at, dest, len, s).Ok?
    ensures var gs := ReadFields(p, at, dest, len, s).value.value;
            FieldsArrive(p, at, segs, room, fs, gs) && FieldsRead(p, at, dest, len, s, gs, at + |c.bytes|)
    decreases fs
  {
    hide Sent, ReadFields, ReadField, FieldSize, FieldArrives, Reads, TextBytes;
    if fs.Done? {
      NothingRead(p, at, segs, room, c, s, len, dest);
    } else {
      var g, h := ReadParts(p, at, dest, len, s.kind, s.rest);
      var gs := More(g.value, h.value);
      var e, d := FirstField(p, at, segs, room, fs, c, gs);
      FieldRoundTrip(p, at, segs, room, fs.field, e, s.kind, len, dest, g.value);
      PlainRead(p, at + |e.bytes|, e.segs, room - |e.bytes|, fs.rest, d, s.rest, len, g.room);
    }
  }

  /** Of fields that fit a shape exactly what arrives is read by it, when the record length passes its
      tests; and the table is again in order. */
  lemma FieldsRoundTrip(p: Bytes, at: nat, segs: seq<Segment>, room: nat, fs: Fields, c: Chunk,
                        s: Shape, len: nat, dest: nat, gs: Fields)
    requires Sent(p, at, segs, room, fs, c) && Fits(fs, s) && Accepts(s, len) && TextFills(fs, len)
    ensures TableOk(p, at + |c.bytes|, c.segs)
    ensures FieldsArrive(p, at, segs, room, fs, gs) && FieldsSize(gs) <= dest ==>
              FieldsRead(p, at, dest, len, s, gs, at + |c.bytes|)
    ensures ReadFields(p, at, dest, len, s).Ok? ==>
              var hs := ReadFields(p, at, dest, len, s).value.value;
              FieldsArrive(p, at, segs, room, fs, hs) && FieldsRead(p, at, dest, len, s, hs, at + |c.bytes|)
  {
    hide EncodeFields, ReadFields, FieldsArrive, Plain, PlainShape, IsPlain, IsPlainShape, Fits, FieldsSize,
         TextFills, Accepts, EntriesOk, Has;
    SentKeepsTable(p, at, segs, room, fs, c);
    PlainEncodes(at, segs, room, fs);
    PlainArrives(p, at, segs, room, fs, gs);
    PlainReads(p, at, dest, len, s);
    PlainFits(fs, s, len);
    if FieldsArrive(p, at, segs, room, fs, gs) && FieldsSize(gs) <= dest {
      PlainDelivered(p, at, segs, room, Plain(fs), c, PlainShape(s), len, dest, gs);
    }
    if ReadFields(p, at, dest, len, s).Ok? {
      PlainArrives(p, at, segs, room, fs, ReadFields(p, at, dest, len, s).value.value);
      PlainRead(p, at, segs, room, Plain(fs), c, PlainShape(s), len, dest);
    }
  }

  /** Where no pointer is cut, what arrives is the same with each name up to its first empty label. */
  lemma {:induction false} UncutFieldsArrive(p: Bytes, at: nat, segs: seq<Segment>, room: nat, fs: Fields, gs: Fields)
    requires EncodeFields(at, segs, room, fs).Ok? && !FieldsCut(at, segs, room, fs)
    ensures FieldsArrive(p, at, segs, room, fs, gs) <==> gs == SameFields(fs)
    decreases fs
  {
    hide EncodeField, PointerCut, Parse, Canonical;
    if fs.Room? {
      UncutFieldsArrive(p, at, segs, room, fs.rest, gs);
    } else if fs.More? {
      var e, _ := FieldsStep(at, segs, room, fs, EncodeFields(at, segs, room, fs).value);
      UncutFieldsArrive(p, at + |e.bytes|, e.segs, room - |e.bytes|, fs.rest, if gs.More? then gs.rest else Done);
    }
  }
}
