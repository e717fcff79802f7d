/** Domain names on the wire: the encoder's suffix table and back-pointers, the decoder's
    pointer chase, and the RFC 1035 section 4.1.4 grammar that both are measured against. */
module Names {
  import opened Options
  import opened Wire

  const DOT: byte := 46
  const MAXSEG: nat := 100
  const MAX_DOMAIN_LABEL: nat := 64
  const OFFSET_LIMIT: nat := 0x4000
  const MAX_LOOP: nat := 256

  /* ---- Text ---- */

  /** A name as encode_domain walks it: labels up to an empty one or the end (`rest` is what it
      leaves unread), or up to text that no dot ends. */
  datatype Name = End(rest: Bytes) | Stray(text: Bytes) | Part(text: Bytes, next: Name)

  /** The labels a reader collects. */
  datatype Labels = Nil | Cons(text: Bytes, next: Labels)

  /** The first dot among the first `n` characters. */
  function DotWithin(s: Bytes, n: nat): (r: Option<nat>)
    requires n <= |s|
    ensures r.Some? ==> r.value < n && s[r.value] == DOT
  {
    if n == 0 then None
    else
      match DotWithin(s, n - 1)
      case Some(i) => Some(i)
      case None => if s[n - 1] == DOT then Some(n - 1) else None
  }

  lemma {:induction false} NoDotBefore(s: Bytes, n: nat, j: nat)
    requires n <= |s| && j < (if DotWithin(s, n).Some? then DotWithin(s, n).value else n)
    ensures s[j] != DOT
    decreases n
  {
    if j < n - 1 || DotWithin(s, n - 1).Some? {
      NoDotBefore(s, n - 1, j);
    }
  }

  function FirstDot(s: Bytes): Option<nat> {
    DotWithin(s, |s|)
  }

  /** The loop `while name is neither empty nor at a dot` stops here. */
  predicate AtEnd(s: Bytes) {
    s == [] || s[0] == DOT
  }

  function Parse(s: Bytes): Name
    decreases |s|
  {
    if AtEnd(s) then End(s)
    else
      match FirstDot(s)
      case None => Stray(s)
      case Some(n) => Part(s[..n], Parse(s[n + 1..]))
  }

  function Text(name: Name): Bytes {
    match name
    case End(rest) => rest
    case Stray(text) => text
    case Part(text, next) => text + [DOT] + Text(next)
  }

  /** Two strings parse to the same name only when they are the same string, so comparing
      parsed suffixes is comparing strings. */
  lemma {:induction false} TextOfParse(s: Bytes)
    ensures Text(Parse(s)) == s
    decreases |s|
  {
    if Parse(s).Part? {
      var n := FirstDot(s).value;
      TextOfParse(s[n + 1..]);
      assert s == s[..n] + [DOT] + s[n + 1..];
    }
  }

  function Flatten(labels: Labels): Bytes {
    match labels
    case Nil => []
    case Cons(text, next) => text + [DOT] + Flatten(next)
  }

  function Tail(name: Name): Labels {
    match name
    case Part(text, next) => Cons(text, Tail(next))
    case _ => Nil
  }

  /** The text a reader gets back. */
  function Canonical(name: Name): Bytes {
    if name.Part? then Flatten(Tail(name)) else [DOT]
  }

  function Depth(name: Name): nat {
    if name.Part? then 1 + Depth(name.next) else 0
  }

  /** The root, or dot-terminated text without an empty label. */
  ghost predicate WellFormed(s: Bytes) {
    s == [DOT] || (s != [] && Dotted(s))
  }

  ghost predicate NoEmptyLabel(s: Bytes) {
    forall i :: 0 < i < |s| && s[i] == DOT ==> s[i - 1] != DOT
  }

  /** Text of labels that each end in a dot. */
  ghost predicate Dotted(s: Bytes) {
    s == [] || (s[|s| - 1] == DOT && s[0] != DOT && NoEmptyLabel(s))
  }

  lemma {:induction false} DottedFlattens(s: Bytes)
    requires Dotted(s)
    ensures Flatten(Tail(Parse(s))) == s
    decreases |s|
  {
    if s != [] {
      if FirstDot(s).None? {
        NoDotBefore(s, |s|, |s| - 1);
      }
      var n := FirstDot(s).value;
      var t := s[n + 1..];
      assert s == s[..n] + [DOT] + t;
      forall i | 0 <= i < |t| && t[i] == DOT ensures i > 0 && t[i - 1] != DOT {
        assert s[n + 1 + i] == DOT;
      }
      DottedFlattens(t);
    }
  }

  lemma DottedMore(text: Bytes, t: Bytes)
    requires text != [] && (forall j :: 0 <= j < |text| ==> text[j] != DOT) && Dotted(t)
    ensures Dotted(text + [DOT] + t)
  {
    var s := text + [DOT] + t;
    forall i | 0 < i < |s| && s[i] == DOT ensures s[i - 1] != DOT {
      if i > |text| {
        assert s[i] == t[i - |text| - 1];
        assert i > |text| + 1 ==> s[i - 1] == t[i - |text| - 2];
      }
    }
  }

  lemma {:induction false} FlattenedIsDotted(s: Bytes)
    requires Flatten(Tail(Parse(s))) == s
    ensures Dotted(s)
    decreases |s|
  {
    hide Dotted;
    if Parse(s).Part? {
      var n := FirstDot(s).value;
      var text, t := s[..n], s[n + 1..];
      assert s == text + [DOT] + t;
      assert Flatten(Tail(Parse(t))) == Flatten(Tail(Parse(s)))[n + 1..] == t;
      FlattenedIsDotted(t);
      forall j | 0 <= j < n ensures text[j] != DOT {
        NoDotBefore(s, |s|, j);
      }
      DottedMore(text, t);
    } else {
      EmptyDotted();
    }
  }

  lemma EmptyDotted()
    ensures Dotted([])
  {
  }

  /** Reading gives back exactly the names that are written the standard way. */
  lemma CanonicalIsIdentity(s: Bytes)
    ensures Canonical(Parse(s)) == s <==> WellFormed(s)
  {
    if Canonical(Parse(s)) == s && s != [DOT] {
      FlattenedIsDotted(s);
    }
    if WellFormed(s) && s != [DOT] {
      DottedFlattens(s);
    }
  }

  /* ---- The grammar ---- */

  /** The offset a two-byte pointer names: its low fourteen bits. */
  function Target(hi: byte, lo: byte): nat {
    (hi as int * 256 + lo) % OFFSET_LIMIT
  }

  /** The bytes at `pos` spell `labels`, following at most `hops` pointers. */
  ghost predicate Spells(p: Bytes, pos: nat, labels: Labels, hops: nat)
    decreases hops, labels
  {
    pos < |p| &&
    var b := p[pos];
    if b == 0 then
      labels == Nil
    else if b < 64 then
      && labels.Cons?
      && |labels.text| == b
      && Has(p, pos + 1, labels.text)
      && Spells(p, pos + b + 1, labels.next, hops)
    else
      && b >= 192
      && pos + 2 <= |p|
      && hops > 0
      && Spells(p, Target(b, p[pos + 1]), labels, hops - 1)
  }

  /** Where a name that starts at `pos` ends, which does not depend on where its pointer leads. */
  ghost predicate EndsAt(p: Bytes, pos: nat, end: nat)
    decreases |p| - pos
  {
    pos < |p| &&
    var b := p[pos];
    if b == 0 then
      end == pos + 1
    else if b < 64 then
      pos + b + 1 <= |p| && EndsAt(p, pos + b + 1, end)
    else
      b >= 192 && end == pos + 2 <= |p|
  }

  /** A whole name: the root is written as a single dot. */
  ghost predicate NameAt(p: Bytes, pos: nat, text: Bytes, end: nat, hops: nat) {
    && EndsAt(p, pos, end)
    && if p[pos] == 0 then text == [DOT]
       else exists labels :: Spells(p, pos, labels, hops) && text == Flatten(labels)
  }

  /** Every pointer met from `pos` on leads strictly backwards, to a label. */
  ghost predicate Backward(p: Bytes, pos: nat, labels: Labels, hops: nat)
    decreases hops, labels
  {
    Spells(p, pos, labels, hops) &&
    var b := p[pos];
    if b == 0 then
      true
    else if b < 64 then
      Backward(p, pos + b + 1, labels.next, hops)
    else
      var t := Target(b, p[pos + 1]);
      t < pos && 1 <= p[t] < 64 && Backward(p, t, labels, hops - 1)
  }

  lemma {:induction false} MoreHops(p: Bytes, pos: nat, labels: Labels, hops: nat, more: nat)
    requires Spells(p, pos, labels, hops) && hops <= more
    ensures Spells(p, pos, labels, more)
    ensures Backward(p, pos, labels, hops) ==> Backward(p, pos, labels, more)
    decreases hops, labels
  {
    var b := p[pos];
    if 0 < b < 64 {
      MoreHops(p, pos + b + 1, labels.next, hops, more);
    } else if b >= 192 {
      MoreHops(p, Target(b, p[pos + 1]), labels, hops - 1, more - 1);
    }
  }

  lemma {:induction false} OneSpelling(p: Bytes, pos: nat, l: Labels, m: Labels, hops: nat)
    requires Spells(p, pos, l, hops) && Spells(p, pos, m, hops)
    ensures l == m
    decreases hops, l
  {
    var b := p[pos];
    if 0 < b < 64 {
      OneSpelling(p, pos + b + 1, l.next, m.next, hops);
      assert l.text == m.text;
    } else if b >= 192 {
      OneSpelling(p, Target(b, p[pos + 1]), l, m, hops - 1);
    }
  }

  /* ---- The encoder ---- */

  datatype Segment = Segment(name: Name, offset: nat)

  /** What an encoder appends to the packet, and the suffix table it leaves. */
  datatype Chunk = Chunk(bytes: Bytes, segs: seq<Segment>)

  /** The first of the first `n` entries that is for exactly `name`. */
  function FindWithin(segs: seq<Segment>, name: Name, n: nat): (r: Option<nat>)
    requires n <= |segs|
    ensures r.Some? ==> r.value < n && segs[r.value].name == name
  {
    if n == 0 then None
    else
      match FindWithin(segs, name, n - 1)
      case Some(i) => Some(i)
      case None => if segs[n - 1].name == name then Some(n - 1) else None
  }

  function FindSegment(segs: seq<Segment>, name: Name): Option<nat> {
    FindWithin(segs, name, |segs|)
  }

  /** The two pointer bytes: the high byte is cut to eight bits and its top two bits are set. */
  function Pointer(offset: nat): Bytes {
    [192 + offset / 256 % 64, offset % 256]
  }

  /** A pointer is two bits that are set and fourteen bits of offset, most significant first. */
  lemma PointerBits(offset: nat, hi: byte, lo: byte)
    ensures |Pointer(offset)| == 2 && Pointer(offset)[0] as int * 256 + Pointer(offset)[1] == 49152 + offset % 16384
    ensures hi >= 192 ==> Target(hi, lo) == hi as int * 256 + lo - 49152
  {
    var q, r := offset / 256, offset % 256;
    assert offset == q * 256 + r && q == q / 64 * 64 + q % 64;
    Fourteen(offset, q / 64, q % 64 * 256 + r);
    if hi >= 192 {
      Fourteen(hi as int * 256 + lo, 3, hi as int * 256 + lo - 49152);
    }
  }

  lemma Fourteen(n: nat, high: nat, low: nat)
    requires n == high * 16384 + low && low < 16384
    ensures n % 16384 == low
  {
  }

  /** A pointer names the offset it was made from exactly when fourteen bits hold it. */
  lemma PointerNamesOffset(offset: nat)
    ensures Pointer(offset)[0] >= 192
    ensures Target(Pointer(offset)[0], Pointer(offset)[1]) == offset % OFFSET_LIMIT
    ensures Target(Pointer(offset)[0], Pointer(offset)[1]) == offset <==> offset < OFFSET_LIMIT
  {
    var q, r := offset / 256, offset % 256;
    assert offset == q * 256 + r;
    assert (192 + q % 64) * 256 + r == 3 * OFFSET_LIMIT + (q % 64 * 256 + r);
    assert offset == q / 64 * OFFSET_LIMIT + (q % 64 * 256 + r);
  }

  /** What is written for `name` at offset `at`, with `room` bytes left in the packet. */
  function EncodeName(at: nat, segs: seq<Segment>, room: nat, name: Name): (r: Result<Chunk>)
    ensures r.Ok? ==> 0 < |r.value.bytes| <= room && |segs| <= |r.value.segs|
    ensures r.Ok? ==> r.value.segs[..|segs|] == segs
    decreases name
  {
    if name.End? then
      if room == 0 then Err(NoMemory) else Ok(Chunk([0], segs))
    else
      match FindSegment(segs, name)
      case Some(i) =>
        if room < 2 then Err(NoMemory) else Ok(Chunk(Pointer(segs[i].offset), segs))
      case None =>
        if |segs| == MAXSEG then Err(NoMemory)
        else if name.Stray? then Err(NameError)
        else
          var n := |name.text|;
          if n >= MAX_DOMAIN_LABEL then Err(NameError)
          else if room < n + 1 then Err(NoMemory)
          else
            var rest :- EncodeName(at + n + 1, segs + [Segment(name, at)], room - (n + 1), name.next);
            assert rest.segs[..|segs|] == rest.segs[..|segs| + 1][..|segs|];
            Ok(Chunk([n] + name.text + rest.bytes, rest.segs))
  }

  /* ---- When a name can be written ---- */

  /** An entry of the table is for exactly this name. */
  predicate Known(segs: seq<Segment>, name: Name) {
    exists i :: 0 <= i < |segs| && segs[i].name == name
  }

  /** What is left of a name behind its new labels: those up to an empty one, or to text that no dot
      ends, or to what the table has an entry for. */
  function Remains(segs: seq<Segment>, name: Name): Name {
    if name.Part? && !Known(segs, name) then Remains(segs, name.next) else name
  }

  function NewLabels(segs: seq<Segment>, name: Name): seq<Bytes> {
    if name.Part? && !Known(segs, name) then [name.text] + NewLabels(segs, name.next) else []
  }

  /** Bytes of labels, each behind its length. */
  function LabelBytes(labels: seq<Bytes>): Bytes {
    if labels == [] then [] else [|labels[0]| % 256] + labels[0] + LabelBytes(labels[1..])
  }

  lemma {:induction false} FindWithinIff(segs: seq<Segment>, name: Name, n: nat)
    requires n <= |segs|
    ensures FindWithin(segs, name, n).Some? <==> exists i :: 0 <= i < n && segs[i].name == name
    decreases n
  {
    if n > 0 {
      FindWithinIff(segs, name, n - 1);
    }
  }

  /** An entry for a longer name makes no difference. */
  lemma {:induction false} LongerEntry(segs: seq<Segment>, s: Segment, name: Name)
    requires Depth(name) < Depth(s.name)
    ensures Known(segs + [s], name) == Known(segs, name)
    ensures Remains(segs + [s], name) == Remains(segs, name) && NewLabels(segs + [s], name) == NewLabels(segs, name)
    decreases name
  {
    var more := segs + [s];
    if Known(segs, name) {
      var i :| 0 <= i < |segs| && segs[i].name == name;
      assert more[i].name == name;
    }
    if Known(more, name) {
      var i :| 0 <= i < |more| && more[i].name == name;
      assert segs[i].name == name;
    }
    if name.Part? {
      LongerEntry(segs, s, name.next);
    }
  }

  /** A label that is new. */
  lemma NewLabel(at: nat, segs: seq<Segment>, room: nat, name: Name)
    requires name.Part? && !Known(segs, name)
    ensures EncodeName(at, segs, room, name) ==
            if |segs| == 100 then Err(NoMemory)
            else if |name.text| > 63 then Err(NameError)
            else if room < |name.text| + 1 then Err(NoMemory)
            else
              (var n := |name.text|;
               var rest :- EncodeName(at + n + 1, segs + [Segment(name, at)], room - (n + 1), name.next);
               Ok(Chunk([n] + name.text + rest.bytes, rest.segs)))
  {
    FindWithinIff(segs, name, |segs|);
  }

  lemma NoNewLabel(at: nat, segs: seq<Segment>, room: nat, name: Name)
    requires name.Part? ==> Known(segs, name)
    ensures EncodeName(at, segs, room, name).Ok? <==>
            if name.End? then room > 0 else Known(segs, name) && room >= 2
  {
    FindWithinIff(segs, name, |segs|);
  }

  /** The labels are new and short, and fit. */
  ghost predicate Fit(segs: seq<Segment>, room: nat, labels: seq<Bytes>, rest: Name) {
    && (forall i :: 0 <= i < |labels| ==> |labels[i]| <= 63)
    && |segs| + |labels| <= 100
    && (rest.Stray? ==> Known(segs, rest))
    && |LabelBytes(labels)| + (if rest.End? then 1 else 2) <= room
  }

  lemma FitMore(segs: seq<Segment>, s: Segment, room: nat, labels: seq<Bytes>, rest: Name)
    requires |segs| < 100 && labels != [] && Known(segs, rest) == Known(segs + [s], rest)
    ensures Fit(segs, room, labels, rest) <==>
            var n := |labels[0]|;
            n <= 63 && n + 1 <= room && Fit(segs + [s], room - (n + 1), labels[1..], rest)
  {
    hide Known;
    var more := labels[1..];
    assert |LabelBytes(labels)| == |labels[0]| + 1 + |LabelBytes(more)|;
    assert forall i :: 1 <= i < |labels| ==> labels[i] == more[i - 1];
    assert forall i :: 0 <= i < |more| ==> more[i] == labels[i + 1];
  }

  lemma {:induction false} RemainsIsShort(segs: seq<Segment>, name: Name)
    ensures Depth(Remains(segs, name)) <= Depth(name)
    decreases name
  {
    if name.Part? {
      RemainsIsShort(segs, name.next);
    }
  }

  lemma {:induction false} FitsIff(at: nat, segs: seq<Segment>, room: nat, name: Name)
    requires |segs| <= 100
    ensures EncodeName(at, segs, room, name).Ok? <==> Fit(segs, room, NewLabels(segs, name), Remains(segs, name))
    decreases name
  {
    hide EncodeName, Known, Fit;
    var labels, rest := NewLabels(segs, name), Remains(segs, name);
    if name.Part? && !Known(segs, name) {
      var s, n := Segment(name, at), |name.text|;
      NewLabel(at, segs, room, name);
      if |segs| < 100 {
        LongerEntry(segs, s, name.next);
        RemainsIsShort(segs, name.next);
        LongerEntry(segs, s, rest);
        FitMore(segs, s, room, labels, rest);
        assert labels[0] == name.text && labels[1..] == NewLabels(segs, name.next);
        if n <= 63 && room >= n + 1 {
          FitsIff(at + n + 1, segs + [s], room - (n + 1), name.next);
        }
      } else {
        FullTable(segs, room, labels, rest);
      }
    } else {
      NoNewLabel(at, segs, room, name);
      NothingToFit(segs, room, name);
    }
  }

  lemma FullTable(segs: seq<Segment>, room: nat, labels: seq<Bytes>, rest: Name)
    requires |segs| == 100 && labels != []
    ensures !Fit(segs, room, labels, rest)
  {
  }

  lemma NothingToFit(segs: seq<Segment>, room: nat, name: Name)
    requires |segs| <= 100 && (name.Part? ==> Known(segs, name))
    ensures Fit(segs, room, [], name) <==> if name.End? then room > 0 else Known(segs, name) && room >= 2
  {
  }

  /** A name can be written exactly when each of its new labels has at most 63 bytes, they fit in the
      table of 100 entries, it does not end in text without a dot, and there is room for the labels,
      and for the pointer or the final zero behind them. */
  lemma NameWritable(at: nat, segs: seq<Segment>, room: nat, name: Name)
    requires |segs| <= 100
    ensures var labels, rest := NewLabels(segs, name), Remains(segs, name);
            EncodeName(at, segs, room, name).Ok? <==>
            && (forall i :: 0 <= i < |labels| ==> |labels[i]| <= 63)
            && |segs| + |labels| <= 100
            && (rest.Stray? ==> Known(segs, rest))
            && |LabelBytes(labels)| + (if rest.End? then 1 else 2) <= room
  {
    hide EncodeName, Known;
    FitsIff(at, segs, room, name);
  }

  /** The first entry for a name. */
  ghost predicate First(segs: seq<Segment>, name: Name, i: nat) {
    i < |segs| && segs[i].name == name && forall j :: 0 <= j < i ==> segs[j].name != name
  }

  lemma {:induction false} FindWithinFirst(segs: seq<Segment>, name: Name, n: nat)
    requires n <= |segs| && FindWithin(segs, name, n).Some?
    ensures First(segs, name, FindWithin(segs, name, n).value)
    decreases n
  {
    FindWithinIff(segs, name, n - 1);
    if FindWithin(segs, name, n - 1).Some? {
      FindWithinFirst(segs, name, n - 1);
    }
  }

  /** And then it is written as its new labels, each behind its length, and the pointer to the first
      entry for the rest of it, or a zero. */
  lemma {:induction false} NameWrittenAs(at: nat, segs: seq<Segment>, room: nat, name: Name, c: Chunk) returns (i: nat)
    requires EncodeName(at, segs, room, name) == Ok(c)
    ensures var labels, rest := NewLabels(segs, name), Remains(segs, name);
            if rest.End? then c.bytes == LabelBytes(labels) + [0]
            else First(segs, rest, i) && c.bytes == LabelBytes(labels) + Pointer(segs[i].offset)
    decreases name
  {
    hide Pointer, First, EncodeName, Known;
    i := 0;
    var labels := NewLabels(segs, name);
    if name.Part? && !Known(segs, name) {
      var s, n := Segment(name, at), |name.text|;
      NewLabel(at, segs, room, name);
      LongerEntry(segs, s, name.next);
      RemainsIsShort(segs, name.next);
      var rest := EncodeName(at + n + 1, segs + [s], room - (n + 1), name.next).value;
      i := NameWrittenAs(at + n + 1, segs + [s], room - (n + 1), name.next, rest);
      assert labels[0] == name.text && labels[1..] == NewLabels(segs, name.next);
      LabelInFront(labels, n);
      if !Remains(segs, name).End? {
        FirstBefore(segs, s, Remains(segs, name), i);
      }
    } else {
      i := NoLabelWritten(at, segs, room, name, c);
    }
  }

  lemma LabelInFront(labels: seq<Bytes>, n: nat)
    requires labels != [] && |labels[0]| == n < 256
    ensures forall b: Bytes :: [n] + labels[0] + (LabelBytes(labels[1..]) + b) == LabelBytes(labels) + b
  {
  }

  lemma NoLabelWritten(at: nat, segs: seq<Segment>, room: nat, name: Name, c: Chunk) returns (i: nat)
    requires EncodeName(at, segs, room, name) == Ok(c) && (name.Part? ==> Known(segs, name))
    ensures if name.End? then c.bytes == [0] else First(segs, name, i) && c.bytes == Pointer(segs[i].offset)
  {
    FindWithinIff(segs, name, |segs|);
    i := 0;
    if !name.End? {
      i := FindSegment(segs, name).value;
      FindWithinFirst(segs, name, |segs|);
    }
  }

  lemma FirstBefore(segs: seq<Segment>, s: Segment, name: Name, i: nat)
    requires First(segs + [s], name, i) && s.name != name
    ensures First(segs, name, i) && (segs + [s])[i] == segs[i]
  {
    assert forall j :: 0 <= j < |segs| ==> (segs + [s])[j] == segs[j];
  }

  /* ---- The decoder ---- */

  /** A decoded value, where the main cursor is left, and how much destination is left. */
  datatype Got<+T> = Got(value: T, pos: nat, room: nat)

  /** read_domain from its loop test on, `loop` pointers already taken. */
  function ReadOn(p: Bytes, pos: nat, loop: nat, room: nat): Result<Got<Labels>>
    requires loop < MAX_LOOP
    decreases MAX_LOOP - loop, |p| - pos
  {
    if pos >= |p| then Err(Overrun)
    else
      var b := p[pos];
      if b == 0 then
        if room == 0 then Err(Overrun) else Ok(Got(Nil, pos + 1, room - 1))
      else if b < 64 then
        if |p| - pos < b + 1 then Err(FormatError)
        else if room < b + 1 then Err(NoMemory)
        else
          var rest :- ReadOn(p, pos + b + 1, loop, room - (b + 1));
          Ok(Got(Cons(p[pos + 1..pos + 1 + b], rest.value), rest.pos, rest.room))
      else if b >= 192 then
        if loop + 1 == MAX_LOOP || |p| - pos < 2 then Err(FormatError)
        else
          var t := Target(b, p[pos + 1]);
          if t >= |p| then Err(FormatError)
          else
            var rest :- ReadOn(p, t, loop + 1, room);
            Ok(Got(rest.value, pos + 2, rest.room))
      else Err(FormatError)
  }

  /** read_domain: its body runs once before its first loop test, so an empty first label still
      writes a dot. */
  function ReadName(p: Bytes, pos: nat, room: nat): Result<Got<Bytes>> {
    if pos < |p| && p[pos] == 0 then
      if room == 0 then Err(NoMemory)
      else if room == 1 then Err(Overrun)
      else Ok(Got([DOT], pos + 1, room - 2))
    else
      var g :- ReadOn(p, pos, 0, room);
      Ok(Got(Flatten(g.value), g.pos, g.room))
  }

  /* ---- The decoder accepts exactly the grammar ---- */

  lemma {:induction false} EndIsAhead(p: Bytes, pos: nat, end: nat)
    requires EndsAt(p, pos, end)
    ensures pos < end <= |p|
    decreases |p| - pos
  {
    if 0 < p[pos] < 64 {
      EndIsAhead(p, pos + p[pos] + 1, end);
    }
  }

  lemma {:induction false} SpelledEnds(p: Bytes, pos: nat, labels: Labels, hops: nat) returns (end: nat)
    requires Spells(p, pos, labels, hops)
    ensures EndsAt(p, pos, end)
    decreases labels
  {
    if p[pos] == 0 {
      end := pos + 1;
    } else if p[pos] < 64 {
      end := SpelledEnds(p, pos + p[pos] + 1, labels.next, hops);
    } else {
      end := pos + 2;
    }
  }

  /** From the loop test on: whatever is read is spelled by the packet. */
  lemma {:induction false} ReadOnIsSpelled(p: Bytes, pos: nat, loop: nat, room: nat)
    requires loop < MAX_LOOP
    requires ReadOn(p, pos, loop, room).Ok?
    ensures var g := ReadOn(p, pos, loop, room).value;
            && Spells(p, pos, g.value, MAX_LOOP - 1 - loop)
            && EndsAt(p, pos, g.pos)
            && g.room == room - |Flatten(g.value)| - 1
    decreases MAX_LOOP - loop, |p| - pos
  {
    var b := p[pos];
    if 0 < b < 64 {
      ReadOnIsSpelled(p, pos + b + 1, loop, room - (b + 1));
      HasSlice(p, pos + 1, p[pos + 1..pos + 1 + b]);
    } else if b >= 192 {
      ReadOnIsSpelled(p, Target(b, p[pos + 1]), loop + 1, room);
    }
  }

  lemma LabelReadOn(p: Bytes, pos: nat, loop: nat, room: nat, text: Bytes, g: Got<Labels>)
    requires loop < MAX_LOOP && pos < |p| && 0 < p[pos] < 64 && p[pos] == |text| < room && Has(p, pos + 1, text)
    requires ReadOn(p, pos + |text| + 1, loop, room - (|text| + 1)) == Ok(g)
    ensures ReadOn(p, pos, loop, room) == Ok(Got(Cons(text, g.value), g.pos, g.room))
  {
    HasSlice(p, pos + 1, text);
  }

  lemma PointerReadOn(p: Bytes, pos: nat, loop: nat, room: nat, g: Got<Labels>)
    requires loop + 1 < MAX_LOOP && pos + 2 <= |p| && p[pos] >= 192 && Target(p[pos], p[pos + 1]) < |p|
    requires ReadOn(p, Target(p[pos], p[pos + 1]), loop + 1, room) == Ok(g)
    ensures ReadOn(p, pos, loop, room) == Ok(Got(g.value, pos + 2, g.room))
  {
  }

  lemma EndReadOn(p: Bytes, pos: nat, loop: nat, room: nat)
    requires loop < MAX_LOOP && pos < |p| && p[pos] == 0 && room > 0
    ensures ReadOn(p, pos, loop, room) == Ok(Got(Nil, pos + 1, room - 1))
  {
  }

  /** From the loop test on: whatever the packet spells is read, when it fits. */
  lemma {:induction false} SpelledIsReadOn(p: Bytes, pos: nat, loop: nat, room: nat, labels: Labels, end: nat)
    requires loop < MAX_LOOP
    requires Spells(p, pos, labels, MAX_LOOP - 1 - loop) && EndsAt(p, pos, end)
    requires |Flatten(labels)| < room
    ensures ReadOn(p, pos, loop, room) == Ok(Got(labels, end, room - |Flatten(labels)| - 1))
    decreases MAX_LOOP - loop, |p| - pos
  {
    hide ReadOn, Has;
    var b := p[pos];
    if b == 0 {
      EndReadOn(p, pos, loop, room);
    } else if b < 64 {
      var rest, left := labels.next, room - (b + 1);
      SpelledIsReadOn(p, pos + b + 1, loop, left, rest, end);
      LabelReadOn(p, pos, loop, room, labels.text, Got(rest, end, left - |Flatten(rest)| - 1));
    } else {
      var t := Target(b, p[pos + 1]);
      var e := SpelledEnds(p, t, labels, MAX_LOOP - 2 - loop);
      SpelledIsReadOn(p, t, loop + 1, room, labels, e);
      PointerReadOn(p, pos, loop, room, Got(labels, e, room - |Flatten(labels)| - 1));
    }
  }

  /** And when it does not fit, which error that is. */
  lemma {:induction false} SpelledIsTooLong(p: Bytes, pos: nat, loop: nat, room: nat, labels: Labels)
    requires loop < MAX_LOOP
    requires Spells(p, pos, labels, MAX_LOOP - 1 - loop) && |Flatten(labels)| >= room
    ensures ReadOn(p, pos, loop, room) == Err(if |Flatten(labels)| == room then Overrun else NoMemory)
    decreases MAX_LOOP - loop, labels
  {
    var b := p[pos];
    if 0 < b < 64 {
      if room >= b + 1 {
        SpelledIsTooLong(p, pos + b + 1, loop, room - (b + 1), labels.next);
      }
    } else if b >= 192 {
      SpelledIsTooLong(p, Target(b, p[pos + 1]), loop + 1, room, labels);
    }
  }

  /** A name that the packet holds but the destination does not: where only its terminator is too much,
      the code would write that unchecked, and otherwise it finds out. */
  lemma NameTooLong(p: Bytes, pos: nat, room: nat, text: Bytes, end: nat)
    requires NameAt(p, pos, text, end, 255) && |text| >= room
    ensures ReadName(p, pos, room) == Err(if |text| == room then Overrun else NoMemory)
  {
    if p[pos] != 0 {
      var labels :| Spells(p, pos, labels, 255) && text == Flatten(labels);
      SpelledIsTooLong(p, pos, 0, room, labels);
    }
  }

  /** On any bytes at all, read_domain succeeds with `text` exactly when the packet holds `text`
      within its limit of 255 pointers and the text with its terminator fits. */
  lemma ReadNameIffNameAt(p: Bytes, pos: nat, room: nat, text: Bytes, end: nat)
    ensures |text| < room && ReadName(p, pos, room) == Ok(Got(text, end, room - |text| - 1))
       <==> |text| < room && NameAt(p, pos, text, end, 255)
  {
    if pos < |p| && p[pos] != 0 {
      if ReadOn(p, pos, 0, room).Ok? {
        ReadOnIsSpelled(p, pos, 0, room);
      }
      if NameAt(p, pos, text, end, MAX_LOOP - 1) && |text| < room {
        var labels :| Spells(p, pos, labels, MAX_LOOP - 1) && text == Flatten(labels);
        SpelledIsReadOn(p, pos, 0, room, labels, end);
      }
    }
  }

  /** Every success has that form. */
  lemma ReadNameSucceeds(p: Bytes, pos: nat, room: nat)
    requires ReadName(p, pos, room).Ok?
    ensures var g := ReadName(p, pos, room).value;
            |g.value| < room && g.room == room - |g.value| - 1 && pos < g.pos <= |p|
  {
    if p[pos] != 0 {
      ReadOnIsSpelled(p, pos, 0, room);
      EndIsAhead(p, pos, ReadName(p, pos, room).value.pos);
    }
  }

  /* ---- Round trip ---- */

  /** Table entry number `i` of a packet `p`: the label it points to starts its whole suffix, and
      the chain from there takes at most `i` pointers, each strictly backwards. */
  ghost predicate EntryOk(p: Bytes, s: Segment, i: nat) {
    && s.offset < |p|
    && 1 <= p[s.offset] < 64
    && Backward(p, s.offset, Tail(s.name), i)
  }

  /** An entry whose offset a pointer can name is in order. Of the others nothing is asked but where
      they are: a name behind them may hold a pointer that is cut. */
  ghost predicate LowEntryOk(p: Bytes, s: Segment, i: nat) {
    s.offset < OFFSET_LIMIT ==> EntryOk(p, s, i)
  }

  ghost predicate EntriesOk(p: Bytes, at: nat, segs: seq<Segment>, from: nat) {
    forall i :: from <= i < |segs| ==> segs[i].name.Part? && segs[i].offset < at && LowEntryOk(p, segs[i], i)
  }

  /** The suffix table `segs` describes what `p` holds below offset `at`, as far as pointers reach. */
  ghost predicate TableOk(p: Bytes, at: nat, segs: seq<Segment>) {
    |segs| <= MAXSEG && EntriesOk(p, at, segs, 0)
  }

  /** What is written for `name` holds a pointer that is made from an offset of more than fourteen
      bits, and so names another place. */
  predicate PointerCut(at: nat, segs: seq<Segment>, name: Name)
    decreases name
  {
    !name.End? &&
    match FindSegment(segs, name)
    case Some(i) => segs[i].offset >= OFFSET_LIMIT
    case None => name.Part? && PointerCut(at + |name.text| + 1, segs + [Segment(name, at)], name.next)
  }

  /** The entries that a name of depth at most `depth` can be found as are finished and among
      the first `k`. */
  ghost predicate Usable(p: Bytes, at: nat, segs: seq<Segment>, depth: nat, k: nat) {
    forall i :: 0 <= i < |segs| && Depth(segs[i].name) <= depth ==>
      i < k && segs[i].offset < at && LowEntryOk(p, segs[i], i)
  }

  /** A pointer to a table entry stands for that entry's suffix. */
  lemma PointerStep(p: Bytes, at: nat, s: Segment, i: nat, k: nat)
    requires Has(p, at, Pointer(s.offset))
    requires s.offset < at && s.offset < OFFSET_LIMIT && i < k
    requires EntryOk(p, s, i)
    ensures Backward(p, at, Tail(s.name), k)
    ensures EndsAt(p, at, at + 2)
  {
    var b := Pointer(s.offset);
    assert p[at] == b[0] && p[at + 1] == b[1];
    PointerNamesOffset(s.offset);
    MoreHops(p, s.offset, Tail(s.name), i, k - 1);
  }

  /** A label in front of a spelled suffix spells the longer suffix. */
  lemma LabelStep(p: Bytes, at: nat, text: Bytes, next: Labels, k: nat, end: nat)
    requires 0 < |text| < MAX_DOMAIN_LABEL
    requires Has(p, at, [|text|] + text)
    requires Backward(p, at + |text| + 1, next, k)
    requires EndsAt(p, at + |text| + 1, end)
    ensures p[at] == |text|
    ensures Backward(p, at, Cons(text, next), k)
    ensures EndsAt(p, at, end)
  {
    assert p[at] == ([|text|] + text)[0];
    HasParts(p, at, [|text|], text);
  }

  /** No label of `name` is empty, as for every name that Parse makes. */
  predicate Parsed(name: Name) {
    name.Part? ==> name.text != [] && Parsed(name.next)
  }

  lemma {:induction false} ParseIsParsed(s: Bytes)
    ensures Parsed(Parse(s))
    decreases |s|
  {
    if Parse(s).Part? {
      ParseIsParsed(s[FirstDot(s).value + 1..]);
    }
  }

  /** `c`, written for `name` at `at`, is in `p`; its entries from number `from` on are new. */
  ghost predicate Written(p: Bytes, at: nat, name: Name, c: Chunk, from: nat, k: nat) {
    && |c.segs| <= MAXSEG
    && Backward(p, at, Tail(name), k)
    && EndsAt(p, at, at + |c.bytes|)
    && EntriesOk(p, at + |c.bytes|, c.segs, from)
  }

  lemma WrittenLabel(p: Bytes, at: nat, name: Name, rest: Chunk, from: nat, k: nat)
    requires name.Part? && 0 < |name.text| < MAX_DOMAIN_LABEL && k <= from
    requires Has(p, at, [|name.text|] + name.text)
    requires Written(p, at + |name.text| + 1, name.next, rest, from + 1, k)
    requires from < |rest.segs| && rest.segs[from] == Segment(name, at)
    ensures Written(p, at, name, Chunk([|name.text|] + name.text + rest.bytes, rest.segs), from, k)
  {
    LabelStep(p, at, name.text, Tail(name.next), k, at + |name.text| + 1 + |rest.bytes|);
    MoreHops(p, at, Tail(name), k, from);
  }

  lemma UsableLater(p: Bytes, at: nat, later: nat, segs: seq<Segment>, name: Name, k: nat)
    requires name.Part? && at <= later
    requires Usable(p, at, segs, Depth(name), k)
    ensures Usable(p, later, segs + [Segment(name, at)], Depth(name.next), k)
  {
  }

  /** One label written, and the rest of the name behind it. */
  lemma LabelWritten(p: Bytes, at: nat, segs: seq<Segment>, room: nat, name: Name, c: Chunk) returns (rest: Chunk)
    requires name.Part? && FindSegment(segs, name).None?
    requires EncodeName(at, segs, room, name) == Ok(c) && Has(p, at, c.bytes)
    ensures |segs| != MAXSEG && |name.text| < MAX_DOMAIN_LABEL && |name.text| < room
    ensures EncodeName(at + |name.text| + 1, segs + [Segment(name, at)], room - (|name.text| + 1), name.next)
            == Ok(rest)
    ensures c == Chunk([|name.text|] + name.text + rest.bytes, rest.segs)
    ensures Has(p, at, [|name.text|] + name.text) && Has(p, at + |name.text| + 1, rest.bytes)
    ensures |segs| < |rest.segs| && rest.segs[|segs|] == Segment(name, at)
  {
    var n, more := |name.text|, segs + [Segment(name, at)];
    rest := EncodeName(at + n + 1, more, room - (n + 1), name.next).value;
    HasParts(p, at, [n] + name.text, rest.bytes);
    assert rest.segs[|segs|] == rest.segs[..|more|][|segs|] == more[|segs|];
  }

  /** The root's zero byte, or a pointer to an entry for exactly this name. */
  lemma WrittenAtOnce(p: Bytes, at: nat, segs: seq<Segment>, name: Name, c: Chunk, k: nat)
    requires c.segs == segs && k <= |segs| <= MAXSEG && Has(p, at, c.bytes) && !PointerCut(at, segs, name)
    requires name.End? || FindSegment(segs, name).Some?
    requires c.bytes == if name.End? then [0] else Pointer(segs[FindSegment(segs, name).value].offset)
    requires Usable(p, at, segs, Depth(name), k)
    ensures Written(p, at, name, c, |segs|, k)
  {
    if name.End? {
      assert p[at] == c.bytes[0];
    } else {
      var i := FindSegment(segs, name).value;
      PointerStep(p, at, segs[i], i, k);
    }
  }

  /** The encoder's recursion. Deeper entries than `name` may still be unfinished; the first `k`
      are those that can be pointed to. */
  lemma {:induction false} EncodedIsSpelled(p: Bytes, at: nat, segs: seq<Segment>, room: nat, name: Name, c: Chunk,
                                            k: nat)
    requires EncodeName(at, segs, room, name) == Ok(c) && Parsed(name)
    requires Has(p, at, c.bytes) && !PointerCut(at, segs, name)
    requires k <= |segs| <= MAXSEG && Usable(p, at, segs, Depth(name), k)
    ensures Written(p, at, name, c, |segs|, k)
    decreases name
  {
    if name.End? || FindSegment(segs, name).Some? {
      WrittenAtOnce(p, at, segs, name, c, k);
    } else {
      var rest := LabelWritten(p, at, segs, room, name, c);
      var later := at + |name.text| + 1;
      UsableLater(p, at, later, segs, name, k);
      EncodedIsSpelled(p, later, segs + [Segment(name, at)], room - (|name.text| + 1), name.next, rest, k);
      WrittenLabel(p, at, name, rest, |segs|, k);
    }
  }

  /** A spelled name is there by the grammar. */
  lemma SpelledIsAt(p: Bytes, at: nat, name: Name, end: nat, k: nat, hops: nat)
    requires k <= hops
    requires Spells(p, at, Tail(name), k) && EndsAt(p, at, end)
    requires p[at] == 0 <==> !name.Part?
    ensures NameAt(p, at, Canonical(name), end, hops)
  {
    MoreHops(p, at, Tail(name), k, hops);
  }

  lemma FirstByte(p: Bytes, at: nat, segs: seq<Segment>, room: nat, name: Name, c: Chunk)
    requires EncodeName(at, segs, room, name) == Ok(c) && Parsed(name)
    requires Has(p, at, c.bytes) && TableOk(p, at, segs)
    ensures p[at] == 0 <==> !name.Part?
  {
    assert p[at] == c.bytes[0];
    if !name.End? && FindSegment(segs, name).Some? {
      var i := FindSegment(segs, name).value;
      PointerNamesOffset(segs[i].offset);
      assert segs[i].name.Part?;
    }
  }

  /* ---- What writing a name does to the table ---- */

  /** Entries that a name of depth at most `depth` can be found as lie below `base`. */
  ghost predicate FoundBelow(segs: seq<Segment>, depth: nat, base: nat) {
    forall i :: 0 <= i < |segs| && Depth(segs[i].name) <= depth ==> segs[i].offset < base
  }

  /** A pointer is cut only in a name that starts above the offsets that pointers can name. */
  lemma {:induction false} CutIsHigh(at: nat, segs: seq<Segment>, name: Name, base: nat)
    requires PointerCut(at, segs, name) && FoundBelow(segs, Depth(name), base)
    ensures base > OFFSET_LIMIT
    decreases name
  {
    if FindSegment(segs, name).None? {
      CutIsHigh(at + |name.text| + 1, segs + [Segment(name, at)], name.next, base);
    }
  }

  /** The entries that a name makes are for its own labels. */
  lemma {:induction false} NewEntries(at: nat, segs: seq<Segment>, room: nat, name: Name, c: Chunk)
    requires EncodeName(at, segs, room, name) == Ok(c)
    ensures forall i :: |segs| <= i < |c.segs| ==> c.segs[i].name.Part? && at <= c.segs[i].offset < at + |c.bytes|
    decreases name
  {
    if !name.End? && FindSegment(segs, name).None? {
      var n, more := |name.text| + 1, segs + [Segment(name, at)];
      var rest := EncodeName(at + n, more, room - n, name.next).value;
      NewEntries(at + n, more, room - n, name.next, rest);
      assert c.segs[|segs|] == rest.segs[..|more|][|segs|] == more[|segs|];
    }
  }

  lemma OldEntries(at: nat, segs: seq<Segment>, room: nat, name: Name, c: Chunk)
    requires EncodeName(at, segs, room, name) == Ok(c)
    ensures forall i :: 0 <= i < |segs| ==> c.segs[i] == segs[i]
  {
    forall i | 0 <= i < |segs| ensures c.segs[i] == segs[i] {
      assert c.segs[..|segs|][i] == c.segs[i];
    }
  }

  /** Whatever is cut, the table stays in order. */
  lemma NameKeepsTable(p: Bytes, at: nat, segs: seq<Segment>, room: nat, name: Name, c: Chunk)
    requires EncodeName(at, segs, room, name) == Ok(c) && Parsed(name)
    requires Has(p, at, c.bytes) && TableOk(p, at, segs)
    ensures TableOk(p, at + |c.bytes|, c.segs)
  {
    hide EncodeName, EntryOk, PointerCut, Parsed;
    OldEntries(at, segs, room, name, c);
    if PointerCut(at, segs, name) {
      CutIsHigh(at, segs, name, at);
      NewEntries(at, segs, room, name, c);
      NameBound(at, segs, room, name, c);
    } else {
      EncodedIsSpelled(p, at, segs, room, name, c, |segs|);
    }
  }

  /** A name written without a cut pointer is there up to its first empty label. */
  lemma UncutIsAt(p: Bytes, at: nat, segs: seq<Segment>, room: nat, name: Name, c: Chunk)
    requires EncodeName(at, segs, room, name) == Ok(c) && Parsed(name)
    requires Has(p, at, c.bytes) && !PointerCut(at, segs, name) && TableOk(p, at, segs)
    ensures NameAt(p, at, Canonical(name), at + |c.bytes|, MAX_LOOP - 1)
  {
    EncodedIsSpelled(p, at, segs, room, name, c, |segs|);
    FirstByte(p, at, segs, room, name, c);
    SpelledIsAt(p, at, name, at + |c.bytes|, |segs|, MAX_LOOP - 1);
  }

  /** The bytes of a name follow the grammar with at most one pointer per table entry, and every
      pointer leads strictly backwards to a label. */
  lemma EncodedNameIsBackward(p: Bytes, at: nat, segs: seq<Segment>, room: nat, name: Name, c: Chunk)
    requires EncodeName(at, segs, room, name) == Ok(c) && Parsed(name)
    requires Has(p, at, c.bytes) && !PointerCut(at, segs, name) && TableOk(p, at, segs)
    ensures NameAt(p, at, Canonical(name), at + |c.bytes|, MAXSEG)
    ensures Backward(p, at, Tail(name), |segs|)
  {
    EncodedIsSpelled(p, at, segs, room, name, c, |segs|);
    FirstByte(p, at, segs, room, name, c);
    SpelledIsAt(p, at, name, at + |c.bytes|, |segs|, MAXSEG);
  }

  /* ---- Pointers that are cut ---- */

  /** The entry that the cut pointer is made for. */
  function CutEntry(at: nat, segs: seq<Segment>, name: Name): Segment
    requires PointerCut(at, segs, name)
    decreases name
  {
    match FindSegment(segs, name)
    case Some(i) => segs[i]
    case None => CutEntry(at + |name.text| + 1, segs + [Segment(name, at)], name.next)
  }

  /** From `pos` on the packet spells labels that make up `text`. */
  ghost predicate SpellsText(p: Bytes, pos: nat, text: Bytes, hops: nat) {
    exists labels :: Spells(p, pos, labels, hops) && Flatten(labels) == text
  }

  lemma PointerText(p: Bytes, at: nat, offset: nat, text: Bytes, hops: nat)
    requires Has(p, at, Pointer(offset)) && hops > 0
    ensures SpellsText(p, at, text, hops) <==> SpellsText(p, offset % OFFSET_LIMIT, text, hops - 1)
    ensures EndsAt(p, at, at + 2)
  {
    var b := Pointer(offset);
    assert p[at] == b[0] && p[at + 1] == b[1];
    PointerNamesOffset(offset);
    if SpellsText(p, at, text, hops) {
      var labels :| Spells(p, at, labels, hops) && Flatten(labels) == text;
      assert Spells(p, offset % OFFSET_LIMIT, labels, hops - 1);
    }
    if SpellsText(p, offset % OFFSET_LIMIT, text, hops - 1) {
      var labels :| Spells(p, offset % OFFSET_LIMIT, labels, hops - 1) && Flatten(labels) == text;
      assert Spells(p, at, labels, hops);
    }
  }

  lemma LabelText(p: Bytes, at: nat, part: Bytes, text: Bytes, hops: nat)
    requires 0 < |part| < MAX_DOMAIN_LABEL && Has(p, at, [|part|] + part)
    ensures SpellsText(p, at, text, hops) <==>
            part + [DOT] <= text && SpellsText(p, at + |part| + 1, text[|part| + 1..], hops)
  {
    assert p[at] == ([|part|] + part)[0];
    HasParts(p, at, [|part|], part);
    if SpellsText(p, at, text, hops) {
      var labels :| Spells(p, at, labels, hops) && Flatten(labels) == text;
      assert labels.text == part;
      assert Flatten(labels.next) == text[|part| + 1..];
    }
    if part + [DOT] <= text && SpellsText(p, at + |part| + 1, text[|part| + 1..], hops) {
      var next :| Spells(p, at + |part| + 1, next, hops) && Flatten(next) == text[|part| + 1..];
      assert Spells(p, at, Cons(part, next), hops);
      assert part + [DOT] + text[|part| + 1..] == text;
    }
  }

  /** The text of the labels ahead of the cut pointer. */
  function CutPrefix(at: nat, segs: seq<Segment>, name: Name): Bytes
    requires PointerCut(at, segs, name)
    decreases name
  {
    match FindSegment(segs, name)
    case Some(_) => []
    case None => name.text + [DOT] + CutPrefix(at + |name.text| + 1, segs + [Segment(name, at)], name.next)
  }

  /** The cut pointer stands for the rest of the name. */
  lemma {:induction false} CutNameParts(at: nat, segs: seq<Segment>, name: Name)
    requires PointerCut(at, segs, name)
    ensures CutEntry(at, segs, name).offset >= OFFSET_LIMIT
    ensures Text(name) == CutPrefix(at, segs, name) + Text(CutEntry(at, segs, name).name)
    ensures Flatten(Tail(name)) == CutPrefix(at, segs, name) + Flatten(Tail(CutEntry(at, segs, name).name))
    decreases name
  {
    if FindSegment(segs, name).None? {
      var n, more := |name.text| + 1, segs + [Segment(name, at)];
      CutNameParts(at + n, more, name.next);
      var prefix, e := CutPrefix(at + n, more, name.next), CutEntry(at + n, more, name.next);
      LabelOnPrefix(name.text, prefix, Text(e.name));
      LabelOnPrefix(name.text, prefix, Flatten(Tail(e.name)));
    } else {
      NothingAhead(Text(name));
      NothingAhead(Flatten(Tail(name)));
    }
  }

  lemma LabelOnPrefix(part: Bytes, prefix: Bytes, rest: Bytes)
    ensures part + [DOT] + (prefix + rest) == part + [DOT] + prefix + rest
  {
  }

  lemma NothingAhead(rest: Bytes)
    ensures [] + rest == rest
  {
  }

  /** `text` is the labels ahead of the cut pointer, and what the packet spells where that leads. */
  ghost predicate SpellsCut(p: Bytes, at: nat, segs: seq<Segment>, name: Name, text: Bytes, hops: nat)
    requires PointerCut(at, segs, name)
  {
    var prefix := CutPrefix(at, segs, name);
    prefix <= text && SpellsText(p, CutEntry(at, segs, name).offset % OFFSET_LIMIT, text[|prefix|..], hops)
  }

  lemma SpellsCutMore(p: Bytes, at: nat, segs: seq<Segment>, name: Name, text: Bytes, hops: nat)
    requires PointerCut(at, segs, name) && FindSegment(segs, name).None?
    ensures var n := |name.text| + 1;
            SpellsCut(p, at, segs, name, text, hops) <==>
            name.text + [DOT] <= text
            && SpellsCut(p, at + n, segs + [Segment(name, at)], name.next, text[n..], hops)
  {
    var n := |name.text| + 1;
    var prefix := CutPrefix(at + n, segs + [Segment(name, at)], name.next);
    var whole := name.text + [DOT] + prefix;
    assert CutPrefix(at, segs, name) == whole;
    if name.text + [DOT] <= text {
      assert text == name.text + [DOT] + text[n..];
      assert whole <= text <==> prefix <= text[n..];
      if whole <= text {
        assert text[n..][|prefix|..] == text[|whole|..];
      }
    }
  }

  lemma CutLabelWritten(p: Bytes, at: nat, segs: seq<Segment>, room: nat, name: Name, c: Chunk) returns (rest: Chunk)
    requires EncodeName(at, segs, room, name) == Ok(c) && Parsed(name)
    requires Has(p, at, c.bytes) && PointerCut(at, segs, name) && FindSegment(segs, name).None?
    ensures name.Part? && 0 < |name.text| < MAX_DOMAIN_LABEL && |name.text| < room && Parsed(name.next)
    ensures var n, more := |name.text| + 1, segs + [Segment(name, at)];
            EncodeName(at + n, more, room - n, name.next) == Ok(rest) && PointerCut(at + n, more, name.next)
    ensures Has(p, at, [|name.text|] + name.text) && Has(p, at + |name.text| + 1, rest.bytes)
  {
    hide Has;
    rest := LabelWritten(p, at, segs, room, name, c);
  }

  lemma CutPointerIsSpelled(p: Bytes, at: nat, segs: seq<Segment>, room: nat, name: Name, c: Chunk, text: Bytes,
                            hops: nat)
    requires EncodeName(at, segs, room, name) == Ok(c) && Has(p, at, c.bytes)
    requires PointerCut(at, segs, name) && FindSegment(segs, name).Some? && hops > 0
    ensures SpellsText(p, at, text, hops) <==> SpellsCut(p, at, segs, name, text, hops - 1)
  {
    hide SpellsText, Has;
    PointerText(p, at, CutEntry(at, segs, name).offset, text, hops);
    assert text[0..] == text;
  }

  lemma {:induction false} CutNameIsSpelled(p: Bytes, at: nat, segs: seq<Segment>, room: nat, name: Name, c: Chunk,
                                            text: Bytes, hops: nat)
    requires EncodeName(at, segs, room, name) == Ok(c) && Parsed(name)
    requires Has(p, at, c.bytes) && PointerCut(at, segs, name) && hops > 0
    ensures SpellsText(p, at, text, hops) <==> SpellsCut(p, at, segs, name, text, hops - 1)
    decreases name
  {
    hide SpellsText, Has, SpellsCut, EncodeName, PointerCut, FindSegment, Parsed;
    if FindSegment(segs, name).Some? {
      CutPointerIsSpelled(p, at, segs, room, name, c, text, hops);
    } else {
      var rest := CutLabelWritten(p, at, segs, room, name, c);
      var n := |name.text| + 1;
      SpellsCutMore(p, at, segs, name, text, hops - 1);
      LabelText(p, at, name.text, text, hops);
      if name.text + [DOT] <= text {
        CutNameIsSpelled(p, at + n, segs + [Segment(name, at)], room - n, name.next, rest, text[n..], hops);
      }
    }
  }

  /** Where a name ends does not depend on where its pointer leads. */
  lemma {:induction false} NameEnds(p: Bytes, at: nat, segs: seq<Segment>, room: nat, name: Name, c: Chunk)
    requires EncodeName(at, segs, room, name) == Ok(c) && Parsed(name) && Has(p, at, c.bytes)
    ensures EndsAt(p, at, at + |c.bytes|)
    ensures !name.End? ==> p[at] != 0
    decreases name
  {
    hide Has;
    NameStarts(p, at, segs, room, name, c);
    if name.Part? && FindSegment(segs, name).None? {
      var rest := LabelWritten(p, at, segs, room, name, c);
      var n := |name.text| + 1;
      NameEnds(p, at + n, segs + [Segment(name, at)], room - n, name.next, rest);
    }
  }

  lemma NameStarts(p: Bytes, at: nat, segs: seq<Segment>, room: nat, name: Name, c: Chunk)
    requires EncodeName(at, segs, room, name) == Ok(c) && Parsed(name) && Has(p, at, c.bytes)
    ensures if name.End? then EndsAt(p, at, at + |c.bytes|)
            else p[at] != 0 && if FindSegment(segs, name).Some? then EndsAt(p, at, at + |c.bytes|)
                               else name.Part? && at + |name.text| + 1 <= |p| && p[at] == |name.text| < 64
  {
    assert p[at] == c.bytes[0];
  }

  /* ---- What a reader gets back ---- */

  /** What comes back of `name`: without a cut pointer the name up to its first empty label, and with
      one whatever the packet happens to spell at the offset modulo 16384. */
  ghost predicate NameArrives(p: Bytes, at: nat, segs: seq<Segment>, name: Name, text: Bytes) {
    if PointerCut(at, segs, name) then SpellsCut(p, at, segs, name, text, MAX_LOOP - 2)
    else text == Canonical(name)
  }

  lemma {:induction false} EndIsOne(p: Bytes, pos: nat, end: nat, other: nat)
    requires EndsAt(p, pos, end) && EndsAt(p, pos, other)
    ensures end == other
    decreases |p| - pos
  {
    if 0 < p[pos] < 64 {
      EndIsOne(p, pos + p[pos] + 1, end, other);
    }
  }

  lemma NameAtIsOne(p: Bytes, pos: nat, text: Bytes, other: Bytes, end: nat, hops: nat)
    requires NameAt(p, pos, text, end, hops) && NameAt(p, pos, other, end, hops)
    ensures text == other
  {
    if p[pos] != 0 {
      var l :| Spells(p, pos, l, hops) && text == Flatten(l);
      var m :| Spells(p, pos, m, hops) && other == Flatten(m);
      OneSpelling(p, pos, l, m, hops);
    }
  }

  /** The packet holds what arrives, and nothing else. */
  lemma NameArrivesIff(p: Bytes, at: nat, segs: seq<Segment>, room: nat, name: Name, c: Chunk, text: Bytes)
    requires EncodeName(at, segs, room, name) == Ok(c) && Parsed(name)
    requires Has(p, at, c.bytes) && TableOk(p, at, segs)
    ensures NameAt(p, at, text, at + |c.bytes|, MAX_LOOP - 1) <==> NameArrives(p, at, segs, name, text)
  {
    hide EncodeName, Spells, EndsAt, EntriesOk, SpellsCut, Canonical, Has;
    if PointerCut(at, segs, name) {
      NameEnds(p, at, segs, room, name, c);
      CutNameIsSpelled(p, at, segs, room, name, c, text, MAX_LOOP - 1);
    } else {
      UncutIsAt(p, at, segs, room, name, c);
      if NameAt(p, at, text, at + |c.bytes|, MAX_LOOP - 1) {
        NameAtIsOne(p, at, text, Canonical(name), at + |c.bytes|, MAX_LOOP - 1);
      }
    }
  }

  /** What encode_domain writes at `at`, whatever is cut in it or before it: read_domain reads exactly
      what arrives, the cursor ends just past the bytes written, and the table is again in order. */
  lemma NameRoundTrip(p: Bytes, at: nat, segs: seq<Segment>, room: nat, name: Name, c: Chunk, dest: nat, text: Bytes)
    requires EncodeName(at, segs, room, name) == Ok(c) && Parsed(name)
    requires Has(p, at, c.bytes) && TableOk(p, at, segs)
    ensures TableOk(p, at + |c.bytes|, c.segs)
    ensures |text| < dest && ReadName(p, at, dest) == Ok(Got(text, at + |c.bytes|, dest - |text| - 1))
       <==> |text| < dest && NameArrives(p, at, segs, name, text)
    ensures ReadName(p, at, dest).Ok? ==>
              var g := ReadName(p, at, dest).value;
              g.pos == at + |c.bytes| && |g.value| < dest && g.room == dest - |g.value| - 1
  {
    hide EncodeName, Spells, EntriesOk, NameArrives, Has, ReadName;
    NameKeepsTable(p, at, segs, room, name, c);
    NameArrivesIff(p, at, segs, room, name, c, text);
    ReadNameIffNameAt(p, at, dest, text, at + |c.bytes|);
    if ReadName(p, at, dest).Ok? {
      var g := ReadName(p, at, dest).value;
      ReadNameSucceeds(p, at, dest);
      ReadNameIffNameAt(p, at, dest, g.value, g.pos);
      NameEnds(p, at, segs, room, name, c);
      EndIsOne(p, at, g.pos, at + |c.bytes|);
    }
  }

  /** A name comes back as itself: without a cut pointer when it is well formed, and with one when the
      packet spells the missing part at the offset modulo 16384. */
  ghost predicate NameReturns(p: Bytes, at: nat, segs: seq<Segment>, name: Bytes) {
    if PointerCut(at, segs, Parse(name)) then
      var s := CutEntry(at, segs, Parse(name));
      SpellsText(p, s.offset % OFFSET_LIMIT, Text(s.name), MAX_LOOP - 2)
    else
      WellFormed(name)
  }

  lemma NameReturnsIff(p: Bytes, at: nat, segs: seq<Segment>, name: Bytes)
    ensures NameArrives(p, at, segs, Parse(name), name) <==> NameReturns(p, at, segs, name)
    ensures PointerCut(at, segs, Parse(name)) ==> CutEntry(at, segs, Parse(name)).offset >= OFFSET_LIMIT
  {
    hide Canonical, WellFormed, SpellsText, Parse;
    if PointerCut(at, segs, Parse(name)) {
      TextOfParse(name);
      CutNameParts(at, segs, Parse(name));
      var prefix := CutPrefix(at, segs, Parse(name));
      assert name[|prefix|..] == Text(CutEntry(at, segs, Parse(name)).name);
    } else {
      CanonicalIsIdentity(name);
    }
  }

  /** Every entry was made for a label already written. */
  ghost predicate OffsetsBelow(segs: seq<Segment>, at: nat) {
    forall i :: 0 <= i < |segs| ==> segs[i].offset < at
  }

  lemma {:induction false} NameOffsets(at: nat, segs: seq<Segment>, room: nat, name: Name, c: Chunk)
    requires EncodeName(at, segs, room, name) == Ok(c) && OffsetsBelow(segs, at)
    ensures OffsetsBelow(c.segs, at + |c.bytes|)
    ensures at + |c.bytes| <= OFFSET_LIMIT ==> !PointerCut(at, segs, name)
    decreases name
  {
    if !name.End? && FindSegment(segs, name).None? {
      var n := |name.text| + 1;
      var rest := EncodeName(at + n, segs + [Segment(name, at)], room - n, name.next).value;
      NameOffsets(at + n, segs + [Segment(name, at)], room - n, name.next, rest);
    }
  }

  /** Each label takes a table entry, of which there are 100. */
  lemma {:induction false} NameBound(at: nat, segs: seq<Segment>, room: nat, name: Name, c: Chunk)
    requires EncodeName(at, segs, room, name) == Ok(c) && |segs| <= MAXSEG
    ensures |c.segs| <= MAXSEG
    ensures |c.bytes| <= MAX_DOMAIN_LABEL * (|c.segs| - |segs|) + 2
    decreases name
  {
    if !name.End? && FindSegment(segs, name).None? {
      var n := |name.text| + 1;
      var rest := EncodeName(at + n, segs + [Segment(name, at)], room - n, name.next).value;
      NameBound(at + n, segs + [Segment(name, at)], room - n, name.next, rest);
    }
  }

  /* ---- Many names in one packet ---- */

  function EncodeNames(at: nat, segs: seq<Segment>, room: nat, names: seq<Bytes>): (r: Result<Chunk>)
    ensures r.Ok? ==> |r.value.bytes| <= room && |segs| <= |r.value.segs|
    ensures r.Ok? ==> r.value.segs[..|segs|] == segs
    decreases |names|
  {
    if names == [] then Ok(Chunk([], segs))
    else
      var c :- EncodeName(at, segs, room, Parse(names[0]));
      var d :- EncodeNames(at + |c.bytes|, c.segs, room - |c.bytes|, names[1..]);
      assert d.segs[..|segs|] == d.segs[..|c.segs|][..|segs|];
      Ok(Chunk(c.bytes + d.bytes, d.segs))
  }

  /** Each name comes back as itself. */
  ghost predicate AllReturn(p: Bytes, at: nat, segs: seq<Segment>, room: nat, names: seq<Bytes>)
    decreases |names|
  {
    names == [] ||
    (NameReturns(p, at, segs, names[0]) &&
     match EncodeName(at, segs, room, Parse(names[0]))
     case Err(_) => false
     case Ok(c) => AllReturn(p, at + |c.bytes|, c.segs, room - |c.bytes|, names[1..]))
  }

  /** Reading where each name starts gives exactly that name, and leaves the cursor where the next
      one starts. */
  ghost predicate AllRead(p: Bytes, at: nat, segs: seq<Segment>, room: nat, names: seq<Bytes>, dest: nat)
    decreases |names|
  {
    names == [] ||
    match EncodeName(at, segs, room, Parse(names[0]))
    case Err(_) => false
    case Ok(c) =>
      && |names[0]| < dest
      && ReadName(p, at, dest) == Ok(Got(names[0], at + |c.bytes|, dest - |names[0]| - 1))
      && AllRead(p, at + |c.bytes|, c.segs, room - |c.bytes|, names[1..], dest)
  }

  predicate ShorterThan(names: seq<Bytes>, dest: nat) {
    forall i :: 0 <= i < |names| ==> |names[i]| < dest
  }

  lemma FirstOfNames(p: Bytes, at: nat, segs: seq<Segment>, room: nat, names: seq<Bytes>, e: Chunk, dest: nat)
      returns (c: Chunk, d: Chunk)
    requires names != [] && ShorterThan(names, dest)
    requires EncodeNames(at, segs, room, names) == Ok(e)
    requires Has(p, at, e.bytes) && TableOk(p, at, segs)
    ensures EncodeName(at, segs, room, Parse(names[0])) == Ok(c) && |c.bytes| <= room
    ensures EncodeNames(at + |c.bytes|, c.segs, room - |c.bytes|, names[1..]) == Ok(d)
    ensures Has(p, at + |c.bytes|, d.bytes) && d.segs == e.segs
    ensures TableOk(p, at + |c.bytes|, c.segs)
    ensures ReadName(p, at, dest) == Ok(Got(names[0], at + |c.bytes|, dest - |names[0]| - 1))
       <==> NameReturns(p, at, segs, names[0])
  {
    hide EncodeName, ReadName, EntriesOk, Parsed, Parse, NameReturns, NameArrives;
    c := EncodeName(at, segs, room, Parse(names[0])).value;
    d := EncodeNames(at + |c.bytes|, c.segs, room - |c.bytes|, names[1..]).value;
    HasParts(p, at, c.bytes, d.bytes);
    ParseIsParsed(names[0]);
    NameRoundTrip(p, at, segs, room, Parse(names[0]), c, dest, names[0]);
    NameReturnsIff(p, at, segs, names[0]);
  }

  /** Any number of names that were encoded into one packet are all read back exactly when each of
      them is the root or dot-terminated labels, none of them empty; or, where its pointer is cut, the
      packet spells the missing part at the offset modulo 16384. */
  lemma {:induction false} NamesComeBack(p: Bytes, at: nat, segs: seq<Segment>, room: nat, names: seq<Bytes>,
                                         e: Chunk, dest: nat)
    requires EncodeNames(at, segs, room, names) == Ok(e) && ShorterThan(names, dest)
    requires Has(p, at, e.bytes) && TableOk(p, at, segs)
    ensures AllRead(p, at, segs, room, names, dest) <==> AllReturn(p, at, segs, room, names)
    decreases |names|
  {
    hide EncodeName, ReadName, EntriesOk, NameReturns, EncodeNames;
    if names != [] {
      var c, d := FirstOfNames(p, at, segs, room, names, e, dest);
      NamesComeBack(p, at + |c.bytes|, c.segs, room - |c.bytes|, names[1..], d, dest);
    }
  }
}
