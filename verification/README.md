# Verified models of the HomeNet bridge, its DNS codec and its SHA-2

Three parts of HomeNet are modelled here and proved correct in Dafny: the DNS codec with its name
compression, the bridge that joins callers to listeners, and the SHA-256/384/512 functions it
authenticates with. Two smaller parts of the bridge come with them: the multi-hop connection URLs
and the back-off of its remote listener. `dafny verify dfyconfig.toml` checks everything.

Each part is built the same way. A specification is written as functions over values; the code that
changes things in place is written as classes with loops; every method's contract ties what it leaves
behind to the specification; and what the code is for is proved about the specification. What the
specification itself must get right is stated once more without its functions and constants: record
layouts by type number and byte, whole states after a step of the bridge, waits in seconds, the bits
and roots that FIPS 180-4 defines, and examples worked out in full.

| file | what it holds |
|---|---|
| `Options.dfy` | a value that may be missing |
| `Wire.dfy` | bytes, result codes, big-endian numbers |
| `Names.dfy` | domain names: suffix table, back-pointers, pointer chase, the grammar of RFC 1035 section 4.1.4, and the round trip |
| `Records.dfy` | record bodies as fields, text in chunks, and their round trip |
| `Messages.dfy` | records, questions and sections with their round trips, and how whole messages are encoded and decoded |
| `Layouts.dfy` | which record type has which body, and what stands in which byte |
| `MessageLayout.dfy` | the header's bytes and the order of the sections |
| `WorkedMessage.dfy` | one response, byte by byte |
| `RoundTrip.dfy` | what comes back of a whole message, and when decoding undoes encoding |
| `Counterexamples.dfy` | inputs that the codec does not restore, one for each way in which it can fail |
| `Encoder.dfy`, `Decoder.dfy` | the codec as it runs: a packet filled through a cursor, a destination filled by the decoder |
| `Location.dfy` | the integer arithmetic of LOC records |
| `Bridge.dfy` | the bridge as a state machine, and what every step keeps |
| `BridgeRuns.dfy` | what whole runs promise: one-shot rendezvous, nobody stranded |
| `BridgeStrand.dfy` | exactly which steps, and which runs, strand a caller |
| `BridgeClose.dfy` | when the cleanup of a socket meets one that was removed before |
| `BridgeServer.dfy` | the bridge as it runs: sockets whose fields the handlers change |
| `AssocMap.dfy` | the association list behind the bridge's maps |
| `Urls.dfy` | connection URLs and the requests sent along them |
| `Backoff.dfy` | when the remote listener is tried again |
| `Sha2.dfy` | FIPS 180-4 over any word type |
| `Sha2Context.dfy` | the streaming context, the in-place transform, rolled and unrolled |
| `Sha2Variants.dfy` | the three functions with their constants, for machines of either byte order |
| `Sha2Bits.dfy` | rotations and the logical functions, bit by bit |
| `Sha2Roots.dfy` | the constants as cube roots and the initial values as square roots of primes |
| `Sha2Steps.dfy` | rounds and schedule with the functions of each word size |
| `Sha2Examples.dfy` | the three digests of "abc", worked out step by step |

## How to read the results

**DNS.** A statement about encoded bytes is a statement about any packet `p` that holds them at offset
`at` (`Has(p, at, bytes)`), so that it is about the finished packet whatever is written before and
behind. The invariant that links the suffix table to the packet is `TableOk`: each entry whose offset a
pointer can name points at a label, and the chain from there takes at most as many pointers as the entry
has predecessors, all of them strictly backwards. Every name that is written keeps it, also one that
holds a cut pointer (`NameKeepsTable`), so each round trip below is about any packet the encoder makes.

Round trips come in two halves. Predicates that end in `Arrives` say what comes back of a name, a field,
a record or a message, in terms of the grammar and not of the decoder; and each round trip says that
exactly what arrives is read (`NameRoundTrip`, `FieldsRoundTrip`, `AnswerRoundTrip`, `MessageRoundTrip`).
Four things keep a message from coming back as itself, and `Counterexamples.dfy` has an input for each:

- A name comes back as itself exactly when it is the root, or dot-terminated labels of which none is
  empty (`CanonicalIsIdentity`); anything else the encoder accepts comes back up to its first empty
  label (`EmptyLabelLost`).
- A pointer keeps fourteen bits of an offset, so one made from offset 16384 or more names another place
  (`PointerNamesOffset`). A name with such a pointer comes back exactly when the packet happens to spell
  the missing part at the offset modulo 16384 (`NameReturnsIff`); `WrappedPointer` is a message that is
  not restored. A packet of at most 16384 bytes has no such pointer (`ShortPacketNotCut`).
- A record's length keeps sixteen bits. Only text can be too long for that, and is exactly when it has
  more than 65279 bytes (`RecordLength`); then the record is refused, or comes back with the text cut
  to a multiple of 255 bytes (`UncutAnswerRoundTrip`, with `LongTextLost` as the example).
- An MX record whose exchange is the root is written with three bytes of body, and the decoder wants
  four (`LengthAccepted`, with `RootMxRefused` as the example).

A round trip alone would also hold of a codec that has a layout of its own. `Layouts.dfy` therefore says
for every modelled type, by its number, what is written and what is read, and which bytes stand where
(members that end in `Written` and `Read`; `TypedByNumber` says which records the round trips are
about), `MessageLayout.dfy` does so for the header and the sections, and `ResponseBytes` is a response
of 79 bytes with a record in each section. Encoding a name fails exactly when `NameWritable` says so.

`DecodeUndoesEncode` joins them for any message: decoding gives back the very message exactly when every
record can be kept, every name comes back as itself, and the destination is large enough. Where no
pointer is cut, that every name comes back is that each is well formed (`UncutUndone`).

**Bridge.** Socket identities are never reused. A run is any sequence of events, and `RunKeeps` is about
every state that any run reaches: registered listeners hold only callers that wait under those keys,
links are symmetric, and a relay whose partner is gone is no longer alive. That no caller is stranded
needs two conditions on the run, distinct OTPs and no takeover of a registered id (`NoneStranded`).
What happens without them is stated exactly: `Spares` is a guard on each step, a step strands someone if
and only if it does not meet its guard (`StepStrandsIff`), and nobody is stranded at any point of a run
if and only if every step of it meets its guard (`RunStrandsIff`). A takeover can strand callers at once
(`TakeoverStrands`) and also later, when the listener that lost its id is closed and takes the other's
registration along (`ListenerCloseStrands`, `LateStrandedRun`). The bridge keeps pointers
to sockets that it has freed; `BridgeClose.dfy` says which closes follow one. Members that end in
`Tells` give the whole state after each kind of event, with new and changed records written out; they
are about single steps, and `ConnectRelays` and `ListenConnectRelays` about two: what is told to be
connected does pass data, both ways. `AttemptIff` documents a step of the back-off, and
`AttemptExactly` is the rule in terms of what has happened in a run.

**SHA-2.** `Lawful` collects what a word type must satisfy, and `AllAreLawful` proves it for the three
functions on little- and big-endian machines, so the streaming results hold of all six. That these are
the functions of the standard is the subject of `Sha2Bits.dfy`, `Sha2Roots.dfy` and `Sha2Steps.dfy`, and
`Sha256OfAbc`, `Sha384OfAbc` and `Sha512OfAbc` give the digests of "abc" as bytes. The message
length is cut to 64 or 128 bits, as the counter is; for the lengths that FIPS 180-4 allows that cuts
nothing.

Where the code and its comments differ, the code is followed. The comment at lib/dns/codec.c:590 says
that the preceding assertions keep a latitude within 90 degrees, and they do not (90 degrees and one
minute pass); the assertions at lib/dns/codec.c:568-575 check the latitude's degrees twice and the
longitude's not at all. The model therefore puts no bound on the degrees and says what comes back.

## Model

| member | source | states |
|---|---|---|
| Wire.U16RoundTrip | lib/dns/codec.c:1110-1126 | reading two bytes gives back the number written as two |
| Wire.U32RoundTrip | lib/dns/codec.c:1130-1148 | reading four bytes gives back the number written as four |
| Names.TextOfParse | lib/dns/codec.c:231-241 | cutting a name into labels loses nothing, so equal suffixes are equal texts |
| Names.CanonicalIsIdentity | lib/dns/codec.c:253-261 | what is read back of a name is the name exactly when it is the root or dot-terminated labels, none empty |
| Names.PointerNamesOffset | lib/dns/codec.c:312-313 | a back-pointer names the offset it was made from exactly below 0x4000 |
| Names.PointerBits | lib/dns/codec.c:312-313 | a pointer is two bits that are set and the offset modulo 16384 in fourteen, most significant first, written and read |
| Names.ReadNameIffNameAt | lib/dns/codec.c:1226-1315 | on any bytes, the decoder reads a name exactly when the packet holds it by the grammar, within 255 pointers |
| Names.ReadNameSucceeds | lib/dns/codec.c:1226-1315 | every success moves the cursor forward within the packet and uses the text and a terminator of the destination |
| Names.NameTooLong | lib/dns/codec.c:1226-1315 | a name that the packet holds and the destination does not: the code finds out, except where only the terminator is too much |
| Names.OneSpelling | lib/dns/codec.c:1242-1307 | the bytes at an offset spell at most one sequence of labels |
| Names.EncodedIsSpelled | lib/dns/codec.c:280-325 | the encoder's recursion, where no pointer is cut: the bytes spell the name, its new table entries are right, unfinished ones are not used |
| Names.EncodedNameIsBackward | lib/dns/codec.c:291-318 | a name encoded without a cut pointer takes at most one pointer per table entry (at most 100), each strictly backwards to a label |
| Names.NameKeepsTable | lib/dns/codec.c:280-325 | whatever is cut in a name or before it, the suffix table stays right |
| Names.NameArrivesIff | lib/dns/codec.c:308-316 | a packet holds, where a name was written, its labels up to its first empty one or, if its pointer is cut, what is spelled at the offset modulo 16384; and nothing else |
| Names.NameRoundTrip | lib/dns/codec.c:280-325 | of a written name exactly what arrives is read, the cursor just behind its bytes, and the table is again right |
| Names.NameReturnsIff | lib/dns/codec.c:308-316 | a name arrives as itself exactly when it is well formed or, if its pointer is cut, the packet spells the missing part at the offset modulo 16384 |
| Names.NamesComeBack | lib/dns/codec.c:280-325 | any number of names encoded into one packet all come back where they start exactly when each arrives as itself |
| Names.NameOffsets | lib/dns/codec.c:266 | table offsets stay below the end of what is written, so up to 16384 bytes no pointer is cut |
| Names.NameBound | lib/dns/codec.c:263-307 | a name takes at most 64 bytes for each table entry it makes, and two |
| Names.NewLabel | lib/dns/codec.c:295-307 | a new label needs an entry of the table, at most 63 bytes, and room, in this order, and which error it is otherwise |
| Names.NameWritable | lib/dns/codec.c:291-323 | a name can be written exactly when its labels up to the first empty one or the first table hit have at most 63 bytes, the table of 100 has entries left for them, it does not end in text without a dot, and they fit with the pointer or zero behind them |
| Names.NameWrittenAs | lib/dns/codec.c:280-325 | and is then those labels, each behind its length, and the pointer to the first entry for the rest or a zero |
| Records.TextBytesLength | lib/dns/codec.c:818-826 | text of n bytes takes n bytes and one for each 255 begun |
| Records.TextRoundTrip | lib/dns/codec.c:1521-1576 | text of any length comes back whole from its chunks |
| Records.TextLimit | lib/dns/codec.c:818-826 | text fits a record's length field exactly up to 65279 bytes |
| Records.LongTextRead | lib/dns/codec.c:1521-1576 | read with its length cut to sixteen bits, longer text gives an error, or, if it is whole chunks, its first bytes, as many as it has modulo 65280 |
| Records.StringBack | lib/dns/codec.c:1193-1222 | a counted string comes back, with its terminator accounted for |
| Records.FieldRoundTrip | lib/dns/codec.c:802-828 | of one field of a record exactly what arrives is read |
| Records.FieldsRoundTrip | lib/dns/codec.c:396-418 | when the record length passes the decoder's tests, of the fields of a body exactly what arrives is read, and the suffix table stays right |
| Records.FieldsBound | lib/dns/codec.c:263-307 | fields without text take a bounded number of bytes, as every label of their names takes one of 100 table entries |
| Messages.LengthAccepted | lib/dns/codec.c:1504-1517 | the decoder's tests of the record length accept every body the encoder writes, except exactly an MX for the root |
| Messages.BodyLength | lib/dns/codec.c:889-960 | a body fits its length field exactly when it is no text of more than 65279 bytes |
| Messages.RecordLength | lib/dns/codec.c:889-960 | the back-patched RDLENGTH counts the bytes behind the fixed part exactly when the body is no text of more than 65279 bytes |
| Messages.AnswerRoundTrip | lib/dns/codec.c:850-962 | whatever is cut in a record or before it, exactly what arrives of it is read; nothing does of an MX for the root, and at most cut text of a text of more than 65279 bytes |
| Messages.UncutAnswerRoundTrip | lib/dns/codec.c:850-962 | a record without a cut pointer of its own comes back with type, class, TTL and body exactly when it is no MX for the root and has no text of more than 65279 bytes; otherwise it is refused or its text is cut, and which is told |
| Messages.QuestionRoundTrip | lib/dns/codec.c:1383-1412 | of a question exactly what arrives is read, with type and class |
| Messages.EntriesDelivered | lib/dns/codec.c:1014-1045 | whatever is cut, what arrives of a section is read in order when each record can be kept |
| Messages.EntriesRoundTrip | lib/dns/codec.c:1014-1045 | of any section nothing is read but what arrives, up to the first record that cannot be kept |
| Messages.OpcodeBack | lib/dns/codec.c:2114-2118 | the opcode and four flags are taken apart as they were put together |
| Messages.RcodeBack | lib/dns/codec.c:2119-2123 | the response code and four flags are taken apart as they were put together |
| RoundTrips.HeaderReadBack | lib/dns/codec.c:2113-2127 | every header field is where the decoder looks for it |
| RoundTrips.MessageRoundTrip | lib/dns/codec.c:966-1049 | of any message, whatever is cut in it, exactly what arrives is decoded: id, flags, opcode, rcode, the four counts and every entry in order; when a record cannot be kept the message is refused or holds a cut text |
| RoundTrips.UncutMessageRoundTrip | lib/dns/codec.c:2066-2181 | where no pointer is cut, the message with each name up to its first empty label is decoded exactly when no MX is for the root and no text has more than 65279 bytes |
| RoundTrips.ShortPacketNotCut | lib/dns/codec.c:312-313 | in a packet of at most 16384 bytes no pointer and no length is cut |
| RoundTrips.DecodeUndoesEncode | lib/dns/codec.c:2066-2181 | for any message, decoding gives back the very message exactly when every name arrives as itself, no MX is for the root, no text has more than 65279 bytes, and the destination is large enough |
| RoundTrips.UncutUndone | lib/dns/codec.c:2066-2181 | where no pointer is cut, that every name arrives as itself is that each is well formed |
| RoundTrips.ShortPacketUndone | lib/dns/codec.c:2066-2181 | for packets of at most 16384 bytes decoding gives back the very message exactly when its names are well formed, no MX is for the root, and the destination is large enough |
| Layouts.TypedByNumber | lib/dns/codec.c:902-951 | the round trips are about records of 26 types, each by its number with the fields of its body in order |
| Layouts.RecordRefused | lib/dns/codec.c:1942-2060 | a record is refused for its name, for too few bytes, or for its type, and which error that is |
| Layouts.AddressRead | lib/dns/codec.c:1446-1478 | an A record (1) is read as its four bytes and an AAAA record (28) as its sixteen, with class and TTL, and no other length is accepted |
| Layouts.HostRead | lib/dns/codec.c:2044-2052 | NS, MD, MF, CNAME, MB, MG, MR, PTR and NSAP-PTR, by number, are read as a name |
| Layouts.MinfoRead | lib/dns/codec.c:1646-1659 | MINFO (14), RP (17) and PX (26) are read as two names |
| Layouts.MxRead | lib/dns/codec.c:1504-1517 | MX (15), AFSDB (18) and RT (21) are read as a number and a name, from at least four bytes |
| Layouts.SrvRead | lib/dns/codec.c:1598-1614 | SRV (33) is read as three numbers and a name, from at least seven bytes |
| Layouts.SoaRead | lib/dns/codec.c:1416-1441 | SOA (6) is read as two names and five numbers of four bytes, from at least twenty bytes |
| Layouts.NaptrRead | lib/dns/codec.c:1618-1642 | NAPTR (35) is read as two numbers, three counted strings and a name, from at least four bytes |
| Layouts.HinfoRead | lib/dns/codec.c:1580-1594 | HINFO (13), ISDN (20) and NSAP (22) are read as two counted strings |
| Layouts.TextRead | lib/dns/codec.c:2040-2042 | TXT (16), X25 (19) and SPF (99) are read as text in chunks |
| Layouts.StringStands | lib/dns/codec.c:1193-1222 | a counted string is read exactly when its bytes stand behind their number, and what it takes |
| Layouts.QuestionRead | lib/dns/codec.c:1383-1412 | a question is a name, two bytes of type other than 41, and two of class |
| Layouts.AddressWritten | lib/dns/codec.c:380-392 | the bytes of an A or AAAA record, or that there is no room |
| Layouts.HostWritten | lib/dns/codec.c:938-946 | the bytes of a record whose body is a name |
| Layouts.MinfoWritten | lib/dns/codec.c:754-766 | the bytes of a record whose body is two names |
| Layouts.MxWritten | lib/dns/codec.c:770-782 | the bytes of an MX record and its like, or that there is no room |
| Layouts.SrvWritten | lib/dns/codec.c:438-454 | the bytes of an SRV record, or that there is no room |
| Layouts.SoaWritten | lib/dns/codec.c:396-418 | the bytes of an SOA record, or that there is no room |
| Layouts.HinfoWritten | lib/dns/codec.c:786-798 | the bytes of a HINFO record and its like, or which error |
| Layouts.NaptrWritten | lib/dns/codec.c:718-750 | the bytes of a NAPTR record, or which error |
| Layouts.TextWritten | lib/dns/codec.c:802-828 | the bytes of a TXT record and its like, or that there is no room |
| Layouts.ChunkStands | lib/dns/codec.c:818-826 | chunk k of a text starts at byte 256 k with its length, and has the bytes of the text from 255 k on |
| Layouts.OtherNotWritten | lib/dns/codec.c:902-951 | for which type numbers the encoder has no case |
| Layouts.QuestionWritten | lib/dns/codec.c:351-376 | the bytes of a question, or that there is no room |
| MessageLayouts.HeaderWritten | lib/dns/codec.c:984-1005 | the twelve bytes of the header: id, flags by weight, opcode, rcode, and the four counts |
| MessageLayouts.SectionsInOrder | lib/dns/codec.c:1014-1045 | behind it come questions, answers, name servers and additional records, each in order |
| MessageLayouts.HeaderRead | lib/dns/codec.c:2113-2127 | what any twelve bytes are decoded as, and how many entries go into each section |
| WorkedMessages.ResponseBytes | lib/dns/codec.c:966-1049 | a response with a record in each section, its 79 bytes with the compressed names, and back |
| Counterexamples.EmptyLabelLost | lib/dns/codec.c:291 | the example of a name that is written and comes back shorter |
| Counterexamples.RootMxRefused | lib/dns/codec.c:1513 | the example of a record that is written and then refused |
| Counterexamples.LongTextLost | lib/dns/codec.c:960 | the example of a text that is written in full and comes back empty |
| Counterexamples.WrappedPointer | lib/dns/codec.c:312-313 | the example of a message that is well formed, without an MX for the root or a long text, and does not come back |
| Encoders.Encoder.constructor | lib/dns/codec.c:1007-1012 | an empty packet and an empty table |
| Encoders.Encoder.Write16 | lib/dns/codec.c:203-212 | appends the number, most significant byte first |
| Encoders.Encoder.Write32 | lib/dns/codec.c:216-227 | appends the number, most significant byte first |
| Encoders.SameText | lib/dns/codec.c:235-237 | comparing texts is comparing the labels they parse to |
| Encoders.Encoder.FindSuffix | lib/dns/codec.c:231-241 | the loop finds the first entry for exactly this text, or that there is none |
| Encoders.Encoder.EncodeSegment | lib/dns/codec.c:245-276 | one label behind its length, or which error, and where the rest of the name starts |
| Encoders.Encoder.EncodeLabel | lib/dns/codec.c:295-307 | a label not yet in the table is written and entered; the rest of the name remains to be encoded |
| Encoders.Encoder.EncodePointer | lib/dns/codec.c:308-316 | two bytes naming an entry's offset, if there is room |
| Encoders.Encoder.EncodeDomain | lib/dns/codec.c:280-325 | the loop over labels appends what the specification of names says, or fails as it says |
| Encoders.Encoder.EncodeString | lib/dns/codec.c:329-347 | a counted string, or which error |
| Encoders.Encoder.EncodeText | lib/dns/codec.c:802-828 | the loop over chunks appends the specified bytes |
| Encoders.Encoder.EncodeSoa | lib/dns/codec.c:396-418 | the body of an SOA record |
| Encoders.Encoder.EncodeAddress | lib/dns/codec.c:380-392 | the body of an A or AAAA record |
| Encoders.Encoder.EncodeSrv | lib/dns/codec.c:438-454 | the body of an SRV record |
| Encoders.Encoder.EncodeNaptr | lib/dns/codec.c:718-750 | the body of a NAPTR record |
| Encoders.Encoder.EncodeMinfo | lib/dns/codec.c:754-766 | the body of a MINFO record and its like |
| Encoders.Encoder.EncodeMx | lib/dns/codec.c:770-782 | the body of an MX record and its like |
| Encoders.Encoder.EncodeHinfo | lib/dns/codec.c:786-798 | the body of a HINFO record and its like |
| Encoders.Encoder.EncodeBody | lib/dns/codec.c:902-951 | the switch over record types |
| Encoders.Encoder.Patch16 | lib/dns/codec.c:960 | changes two bytes already written and nothing else |
| Encoders.Encoder.EncodeRest | lib/dns/codec.c:860-962 | the part of a record behind its name, the length written back last |
| Encoders.Encoder.EncodeRecord | lib/dns/codec.c:850-962 | name, fixed part, body, and the length written back last |
| Encoders.Encoder.EncodeAsk | lib/dns/codec.c:351-376 | a question |
| Encoders.Encoder.FlagBytes | lib/dns/codec.c:984-1005 | setting the flags one by one gives the two specified bytes |
| Encoders.Encoder.SendRecords | lib/dns/codec.c:1021-1045 | the loop over a section of records |
| Encoders.Encoder.EncodeSections | lib/dns/codec.c:1014-1045 | the four sections in order, or the first error |
| Encoders.Encoder.EncodeMessage | lib/dns/codec.c:966-1049 | the packet and the table after all four sections, or the first error |
| Decoders.Decoder.WalkLabels | lib/dns/codec.c:1242-1307 | the loop of the pointer chase leaves exactly the rest of the name to be read |
| Decoders.Decoder.ReadDomain | lib/dns/codec.c:1226-1315 | the loop ends on every packet and reads what the specification says, terminator included; the measure is the pointers left, then the bytes left |
| Decoders.Decoder.ReadCounted | lib/dns/codec.c:1193-1222 | a counted string and its terminator |
| Decoders.Decoder.DecodeText | lib/dns/codec.c:1521-1576 | the loop over chunks joins them |
| Decoders.Decoder.Next | lib/dns/codec.c:1416-1441 | one field of a body, and the others still to be read |
| Decoders.Decoder.DecodeSoa | lib/dns/codec.c:1416-1441 | the body of an SOA record |
| Decoders.Decoder.DecodeA | lib/dns/codec.c:1446-1460 | the body of an A record |
| Decoders.Decoder.DecodeAaaa | lib/dns/codec.c:1464-1478 | the body of an AAAA record |
| Decoders.Decoder.DecodeMx | lib/dns/codec.c:1504-1517 | the body of an MX record and its like |
| Decoders.Decoder.DecodeHinfo | lib/dns/codec.c:1580-1594 | the body of a HINFO record and its like |
| Decoders.Decoder.DecodeSrv | lib/dns/codec.c:1598-1614 | the body of an SRV record |
| Decoders.Decoder.DecodeNaptr | lib/dns/codec.c:1618-1642 | the body of a NAPTR record |
| Decoders.Decoder.DecodeMinfo | lib/dns/codec.c:1646-1659 | the body of a MINFO record and its like |
| Decoders.Decoder.DecodeBody | lib/dns/codec.c:2008-2056 | the switch over record types |
| Decoders.Decoder.DecodeRecord | lib/dns/codec.c:1942-2060 | a record, or the error the specification says |
| Decoders.Decoder.DecodeAsk | lib/dns/codec.c:1383-1412 | a question, or the error the specification says |
| Decoders.Decoder.DecodeSections | lib/dns/codec.c:2144-2177 | the four loops cut the decoded entries into the four sections |
| Decoders.Decoder.DecodeMessage | lib/dns/codec.c:2066-2181 | the whole decoder agrees with its specification on every packet |
| Location.SplitIsUnique | lib/dns/codec.c:1776-1792 | the three divisions find the one way to write a total in degrees, minutes, seconds and thousandths |
| Location.CoordinateRoundTrip | lib/dns/codec.c:585-607 | an angle comes back exactly when it is a real angle in range and not zero on the far side |
| Location.AltitudeRoundTrip | lib/dns/codec.c:611 | an altitude comes back exactly between 100000 m below and what 32 bits reach above that |
| Location.PositionRoundTrip | lib/dns/codec.c:1796-1861 | a position comes back exactly when both angles and the altitude can |
| Location.SouthernEquator | lib/dns/codec.c:1829-1838 | the equator given as south comes back as north |
| Location.WordsWritten | lib/dns/codec.c:585-611 | the three words of a real position: 2147483648 plus or minus thousandths of a second, and 10000000 plus centimetres (RFC 1876 section 2) |
| Location.WordsRead | lib/dns/codec.c:1796-1861 | which three words are read, and as what: at most 90 degrees of latitude and 180 of longitude on either side |
| Bridges.ConnectKeeps | src/homeNet.c:1080-1125 | CONNECT keeps the four invariants, directly and through a listener |
| Bridges.ListenNotifyKeeps | src/homeNet.c:1126-1174 | LISTEN_NOTIFY keeps them, even when an id is taken over |
| Bridges.ListenConnectKeeps | src/homeNet.c:1175-1215 | LISTEN_CONNECT keeps them |
| Bridges.ReadKeeps | src/homeNet.c:1309-1448 | reading keeps them |
| Bridges.CloseKeeps | src/homeNet.c:289-325 | closing keeps them, as partners and waiting callers are ended first |
| Bridges.StepKeeps | src/homeNet.c:1524-1537 | every event keeps them |
| Bridges.RunKeeps | src/homeNet.c:1051-1307 | in every reachable state: listeners hold only callers waiting under those keys, links are symmetric and unshared, waiting callers are unlinked, a relay without partner is not alive |
| Bridges.NobodyWaitsFor | src/homeNet.c:300-303 | a leaving caller is in no registered listener's map any more |
| Bridges.RemovedIsGone | src/store.c:66-77 | a joined caller is in no registered listener's map any more |
| Bridges.AlivePartner | src/homeNet.c:1327-1342 | a linked relay that is alive has its partner, linked back to it |
| Bridges.CloseEnds | src/homeNet.c:296-316 | after a close the partner, or every caller that waited, is no longer alive, and the id is free |
| BridgeCloses.SecondCloseMeets | src/homeNet.c:296-299 | of two linked sockets the first to be closed meets its partner, and the close of the second, whenever it comes, meets a removed one |
| BridgeCloses.RegisteredNeverMeets | src/homeNet.c:304-311 | the close of a listener that is registered under its id never meets a removed socket |
| BridgeCloses.TakenOverMeets | src/homeNet.c:1169 | a run of five events after which the close of a listener whose id was taken over meets a removed caller |
| Bridges.TidyStep | src/homeNet.c:480-500 | with a fresh OTP and no takeover, a step strands no one |
| Bridges.RelayLeavesTidy | src/homeNet.c:300-303 | a leaving caller takes no one else's entry along |
| Bridges.ListenerLeavesTidy | src/homeNet.c:304-316 | a leaving listener leaves no caller alive behind |
| BridgeRuns.RunLogs | src/homeNet.c:1051-1307 | in every run each event may follow the ones before it |
| BridgeRuns.OneShot | src/homeNet.c:1175-1215 | a join answers an OTP issued before to that caller, once per caller; with distinct OTPs once per OTP, and the caller is the only one it was issued to |
| BridgeRuns.ToldOnce | src/homeNet.c:1206-1210 | no socket is sent CONNECTED twice, and a waiting caller only after its join |
| BridgeRuns.ConnectTells | src/homeNet.c:976-1017 | a reached CONNECT makes two live relays that are linked and tells the first; through a listener the OTP goes out and a live caller waits in its map, unless the OTP was taken; the whole state |
| BridgeRuns.ListenNotifyTells | src/homeNet.c:1166-1173 | an admitted listener is alive and registered under its id, without callers, whoever had the id; the whole state |
| BridgeRuns.ReadTells | src/homeNet.c:1319-1348 | data goes to the partner while both ends are alive; a caller that talks before it is joined is dead if all is written to it and otherwise about to die; a ping is answered; nothing else changes |
| BridgeRuns.ListenConnectTells | src/homeNet.c:1192-1210 | an answered LISTEN_CONNECT links a live relay and the caller, empties the entry, then tells the new socket and the caller unless it is dead; the whole state |
| BridgeRuns.CloseTells | src/homeNet.c:289-325 | a dead socket is removed; its partner, or each caller that waited, is dead if it was or if all is written to it and otherwise about to die; a waiting caller's entry goes; no other socket changes |
| BridgeRuns.DroppedCloses | src/netUtils.c:331-337 | a socket whose connection breaks is dead, and the next close removes it |
| BridgeRuns.ConnectRelays | src/homeNet.c:1337-1343 | after a reached CONNECT data from either end goes to the other |
| BridgeRuns.ListenConnectRelays | src/homeNet.c:1192-1210 | after an answered LISTEN_CONNECT data goes between the new socket and the caller, both ways, exactly when the caller is alive |
| BridgeRuns.DistinctIsOrderly | src/homeNet.c:480-500 | in a run with distinct OTPs no one waits with the OTP that is handed out |
| BridgeRuns.NoneStranded | src/homeNet.c:289-325 | in every run with distinct OTPs and no takeover, each caller that waits and is alive is found under its keys |
| BridgeStrands.TakeoverStrands | src/homeNet.c:1169 | a takeover strands someone at once exactly when an alive caller waits under the id |
| BridgeStrands.DuplicateStrands | src/store.c:88-93 | an OTP handed out again strands the new caller exactly when someone waits with it |
| BridgeStrands.RelayCloseStrands | src/homeNet.c:300-303 | the close of a caller that waits strands exactly the others that wait under its keys |
| BridgeStrands.ListenerCloseStrands | src/homeNet.c:304-316 | the close of a listener strands exactly the callers that wait under its id and are not in its own map |
| BridgeStrands.StepStrandsIff | src/homeNet.c:1051-1486 | where nobody is stranded, a step strands someone exactly when it does not meet its guard |
| BridgeStrands.RunStrandsIff | src/homeNet.c:1051-1486 | nobody is stranded at any point of a run exactly when every step of it meets its guard |
| BridgeStrands.LateStrandedRun | src/homeNet.c:314-316 | a run in which a takeover strands no one, and the later close of the listener that lost its id does |
| BridgeStrands.StrandedRun | src/homeNet.c:1169 | a run of three events that strands a caller |
| BridgeServers.HnSock.constructor | src/homeNet.c:279-287 | a new relay or listener |
| BridgeServers.Bridge.SendMsg | src/homeNet.c:231-247 | nothing leaves a dead socket |
| BridgeServers.Bridge.SockDone | src/netUtils.c:358-370 | a socket that is not dead starts to die, and is dead if nothing is left to write |
| BridgeServers.Bridge.GetWaiting | src/store.c:53-64 | the caller that waits with this OTP for the listener registered under this id |
| BridgeServers.Bridge.DropWaiting | src/store.c:66-77 | takes one entry out of the registered listener's map |
| BridgeServers.Bridge.PutWaiting | src/store.c:79-95 | adds an entry unless its OTP is taken |
| BridgeServers.Bridge.AskListener | src/homeNet.c:480-500 | an OTP goes to the listener, and the caller waits for it |
| BridgeServers.Bridge.HandleConnect | src/homeNet.c:1080-1125 | does exactly the CONNECT step |
| BridgeServers.Bridge.HandleListenNotify | src/homeNet.c:1126-1174 | does exactly the LISTEN_NOTIFY step |
| BridgeServers.Bridge.HandleListenConnect | src/homeNet.c:1175-1215 | does exactly the LISTEN_CONNECT step |
| BridgeServers.Bridge.HandleRead | src/homeNet.c:1309-1448 | does exactly the read step, and looks only at a partner that is still registered |
| BridgeServers.Bridge.CloseWaiting | src/homeNet.c:306-311 | the loop over a listener's callers closes each of them |
| BridgeServers.Bridge.SockCleanup | src/homeNet.c:289-325 | ends the partner, or every waiting caller, and clears the maps |
| BridgeServers.Bridge.HandleClose | src/homeNet.c:1450-1486 | does exactly the close step |
| AssocMaps.Lookup | src/utils.c:249-259 | a key is in the map exactly when an item has it, with that item's value |
| AssocMaps.AssocMap.FindItem | src/utils.c:249-259 | the walk finds the item of a key, or that there is none |
| AssocMaps.AssocMap.Set | src/utils.c:269-288 | updates the map at one key; the count grows only for a new key |
| AssocMaps.AssocMap.Get | src/utils.c:290-296 | the value of a key, if it has one |
| AssocMaps.AssocMap.Delete | src/utils.c:298-314 | removes one key and says whether it was there; the count is not taken back |
| Urls.RemoveSpaces | src/utils.c:188-205 | the text without its spaces, moved down in place |
| Urls.SpacesGo | src/utils.c:188-205 | spaces go wherever they are, and nothing else does |
| Urls.NextPart | src/homeNet.c:432-434 | the next stretch between slashes, empty ones skipped |
| Urls.PartsAreCut | src/homeNet.c:432-434 | slashes in front are skipped and a part is cut off at the next one, which leaves no choice |
| Urls.HopIsCut | src/homeNet.c:439-449 | a part is cut at its first hash sign, unless it starts with one |
| Urls.PartReadBack | src/homeNet.c:439-449 | a part is read back as the id and password it was written from |
| Urls.UrlReadBack | src/homeNet.c:424-431 | a written URL is read as the hops it was written from, with hn:// or without and wherever spaces are put in |
| Urls.WorkedUrl | src/homeNet.c:416-567 | the hops of a URL with passwords, and the requests sent along it |
| Urls.OpenUrl | src/homeNet.c:417-430 | the copied URL loses its spaces in place, and then its prefix |
| Urls.InitializeConnect | src/homeNet.c:416-567 | dials the first hop and sends one request for each further hop in order, with the previous hop's password, up to the first bad reply |
| Backoff.StepKeeps | src/homeNet.c:735-770 | an attempt and a close keep what the next decision rests on |
| Backoff.WaitGrows | src/homeNet.c:716-733 | no wait before the second attempt, then 60 seconds before each of three, 300 before each of five, and 1800 before each further one |
| Backoff.BackoffBound | src/homeNet.c:735-770 | in any run, how many seconds after the first of its row an attempt after k failures comes at the least |
| Backoff.AttemptExactly | src/homeNet.c:716-770 | after any run a tick makes an attempt exactly when no listener is active and 0, 60, 300 or 1800 seconds, by the number of failures in a row, have passed since the last one |
| Backoff.AttemptIff | src/homeNet.c:1503-1511 | an attempt is made exactly when no listener is active and the time has come |
| Backoff.RemoteListener.TryStart | src/homeNet.c:735-770 | does exactly one such step |
| Backoff.RemoteListener.HandleClosed | src/homeNet.c:1461-1470 | a closed listener may be tried again at once |
| Sha2.GapIsSmallest | lib/sha/sha2.c:889-924 | the padding ends a block, and no smaller gap does (FIPS 180-4 sections 5.1.1 and 5.1.2) |
| Sha2.NumberByte | lib/sha/sha2.c:922-924 | the length field has its bytes in order of weight |
| Sha2Contexts.StoredWord | lib/sha/sha2.c:782-788 | a word stored in the ring is read back, and no other changes |
| Sha2Contexts.LoadedWord | lib/sha/sha2.c:779-788 | a data word turned to host order is the schedule's |
| Sha2Contexts.ExpandedIsSchedule | lib/sha/sha2.c:802-811 | the in-place update of the ring gives the next word of the full schedule |
| Sha2Contexts.HoldMore | lib/sha/sha2.c:802-811 | the new word takes the place of the oldest, and the ring holds the last sixteen |
| Sha2Contexts.RenamedIsRound | lib/sha/sha2.c:697-706 | a round that renames registers is a round that shifts them |
| Sha2Contexts.Context.TakeWord | lib/sha/sha2.c:779-788 | takes a word in, also when the data is the buffer being overwritten |
| Sha2Contexts.Context.ExpandWord | lib/sha/sha2.c:802-811 | moves the ring on by one word |
| Sha2Contexts.Context.FirstRounds | lib/sha/sha2.c:779-800 | the loop of rounds 0 to 15 |
| Sha2Contexts.Context.LaterRounds | lib/sha/sha2.c:802-823 | the loop of the other rounds |
| Sha2Contexts.Context.Transform | lib/sha/sha2.c:763-837 | the rolled transform is the compression function of FIPS 180-4 |
| Sha2Contexts.Context.FourTaking | lib/sha/sha2.c:724-733 | four renaming rounds that take data in |
| Sha2Contexts.Context.FourExpanding | lib/sha/sha2.c:736-745 | four renaming rounds that expand the schedule |
| Sha2Contexts.Context.EightExpanding | lib/sha/sha2.c:736-745 | eight renaming rounds are eight rounds, and the registers are back in their places |
| Sha2Contexts.Context.TransformUnrolled | lib/sha/sha2.c:708-759 | the unrolled transform leaves the same state |
| Sha2Contexts.Carries | lib/sha/sha2.c:149-154 | the carry test of the 128-bit counter is right |
| Sha2Contexts.UsedFromCount | lib/sha/sha2.c:852 | the low word of the count alone tells how much of the buffer is used |
| Sha2Contexts.Context.constructor | lib/sha/sha2.c:663-670 | an empty message |
| Sha2Contexts.Context.Count | lib/sha/sha2.c:149-154 | the counter follows the message length, modulo its width |
| Sha2Contexts.Context.Keep | lib/sha/sha2.c:864-884 | bytes that do not fill the buffer are only kept |
| Sha2Contexts.Context.Complete | lib/sha/sha2.c:857-863 | the filled buffer is compressed from where it is |
| Sha2Contexts.Context.TakeBlock | lib/sha/sha2.c:873-879 | a whole block is compressed from the data |
| Sha2Contexts.Context.TakeBlocks | lib/sha/sha2.c:873-884 | the loop over whole blocks, and what is left kept |
| Sha2Contexts.Context.Update | lib/sha/sha2.c:841-887 | after any update the state is the fold over the whole blocks, the buffer holds the rest, and the counter eight times the length |
| Sha2Contexts.SplitDoesNotMatter | lib/sha/sha2.c:841-887 | what a context holds depends on the bytes, not on how they were split into updates |
| Sha2Contexts.LengthField | lib/sha/sha2.c:922-924 | the counter's words are the length field of the padding |
| Sha2Contexts.OneBlock | lib/sha/sha2.c:900-904 | where the length fits, the padding fills the last block |
| Sha2Contexts.TwoBlocks | lib/sha/sha2.c:905-914 | otherwise it is cut after the block the 0x80 byte is in |
| Sha2Contexts.Context.PadOne | lib/sha/sha2.c:898-921 | the one last block up to its length field |
| Sha2Contexts.Context.PadTwo | lib/sha/sha2.c:898-908 | the first of two last blocks |
| Sha2Contexts.Context.Last | lib/sha/sha2.c:889-928 | the state after padding is the fold over the padded message, although the last clear stops two bytes before the end |
| Sha2Contexts.Context.Write | lib/sha/sha2.c:940-953 | the digest words come out most significant byte first |
| Sha2Contexts.Context.Final | lib/sha/sha2.c:930-957 | the digest of everything fed in, as FIPS 180-4 defines it |
| Sha2Contexts.Hash | lib/sha/sha2.c:982-988 | initialise, update once and finish gives the digest of the data |
| Sha2Variants.Reverse32Reorders | lib/sha/sha2.c:129-133 | the 32-bit reversal macro turns little-endian words into big-endian ones |
| Sha2Variants.Reverse64Reorders | lib/sha/sha2.c:134-141 | the 64-bit reversal macro does the same |
| Sha2Variants.NarrowIsLawful | lib/sha/sha2.c:194-208 | SHA-256 on either machine meets the laws |
| Sha2Variants.WideIsLawful | lib/sha/sha2.c:210-214 | SHA-384 and SHA-512 on either machine meet the laws |
| Sha2Variants.AllAreLawful | lib/sha/sha2.c:228-325 | so everything proved of lawful algorithms holds of all three |
| Sha2Steps.BlocksChain | lib/sha/sha2.c:873-879 | each block goes on from the chaining value of those before it, the first from the initial value |
| Sha2Steps.SizesAre32 | lib/sha/sha2.c:121-123 | block, length field and number of rounds, for 32-bit words |
| Sha2Steps.RoundIs32 | lib/sha/sha2.c:697-706 | one round with the functions of SHA-256 by name |
| Sha2Steps.NextWord32 | lib/sha/sha2.c:802-811 | the next word of the schedule from those 2, 7, 15 and 16 places before it |
| Sha2Steps.SizesAre64 | lib/sha/sha2.c:121-123 | block, length field and number of rounds, for 64-bit words |
| Sha2Steps.RoundIs64 | lib/sha/sha2.c:697-706 | one round with the functions of SHA-512 by name |
| Sha2Steps.NextWord64 | lib/sha/sha2.c:802-811 | the next word of the schedule from those 2, 7, 15 and 16 places before it |
| Sha2Bits.RotatedBits32 | lib/sha/sha2.c:196 | bit i of a word rotated by n is its bit i + n modulo 32 |
| Sha2Bits.ChBits32 | lib/sha/sha2.c:201 | each bit chooses between those of the other two words |
| Sha2Bits.MajBits32 | lib/sha/sha2.c:202 | each bit is that of at least two of the words |
| Sha2Bits.BigSigma0_256Bits | lib/sha/sha2.c:205 | which three bits each bit is the exclusive or of |
| Sha2Bits.BigSigma1_256Bits | lib/sha/sha2.c:206 | which three bits each bit is the exclusive or of |
| Sha2Bits.Sigma0_256Bits | lib/sha/sha2.c:207 | which three or two bits each bit is the exclusive or of |
| Sha2Bits.Sigma1_256Bits | lib/sha/sha2.c:208 | which three or two bits each bit is the exclusive or of |
| Sha2Bits.RotatedBits64 | lib/sha/sha2.c:198 | bit i of a word rotated by n is its bit i + n modulo 64 |
| Sha2Bits.ChBits64 | lib/sha/sha2.c:201 | each bit chooses between those of the other two words |
| Sha2Bits.MajBits64 | lib/sha/sha2.c:202 | each bit is that of at least two of the words |
| Sha2Bits.BigSigma0_512Bits | lib/sha/sha2.c:211 | which three bits each bit is the exclusive or of |
| Sha2Bits.BigSigma1_512Bits | lib/sha/sha2.c:212 | which three bits each bit is the exclusive or of |
| Sha2Bits.Sigma0_512Bits | lib/sha/sha2.c:213 | which three or two bits each bit is the exclusive or of |
| Sha2Bits.Sigma1_512Bits | lib/sha/sha2.c:214 | which three or two bits each bit is the exclusive or of |
| Sha2Roots.K256IsCubeRoots | lib/sha/sha2.c:228-245 | each of the 64 constants is the first 32 bits of the fraction of the cube root of its prime |
| Sha2Roots.K512IsCubeRoots | lib/sha/sha2.c:260-301 | each of the 80 constants is the first 64 bits of the fraction of the cube root of its prime |
| Sha2Roots.H256IsSquareRoots | lib/sha/sha2.c:248-257 | the initial values of SHA-256 are square roots of the first eight primes |
| Sha2Roots.H384IsSquareRoots | lib/sha/sha2.c:304-313 | those of SHA-384 are square roots of the ninth to sixteenth primes |
| Sha2Roots.H512IsSquareRoots | lib/sha/sha2.c:316-325 | those of SHA-512 are square roots of the first eight primes |
| Sha2Examples.Sha256OfAbc | lib/sha/sha2.c:567-628 | the 32 bytes of the digest of "abc" |
| Sha2Examples.Sha384OfAbc | lib/sha/sha2.c:1005-1030 | the 48 bytes of the digest of "abc" |
| Sha2Examples.Sha512OfAbc | lib/sha/sha2.c:930-957 | the 64 bytes of the digest of "abc" |

## Left out

- Names.EncodedIsSpelled: is about names without a cut pointer; `NameArrivesIff` is about all.
- Names.EncodedNameIsBackward: is about names without a cut pointer; one that is cut can lead anywhere below.
- Records.FieldsRoundTrip: takes it as given that the record length passes its tests and is that of the text; when that is so is the subject of `LengthAccepted` and `BodyLength`.
- Encoders.Encoder.EncodeBody: is called for modelled types only; OPT, WKS, GPOS, LOC and NULL bodies, which hold floats, bit maps or raw copies, are not modelled.
- Encoders.Encoder.EncodeRecord: stops with `Unmodelled` at records with such bodies, as does Encoders.Encoder.EncodeRest.
- Encoders.Encoder.EncodeMessage: supposes that the modelled records have the body of their type, and leaves out the EDNS flag.
- Decoders.Decoder.DecodeBody: is called for modelled types only; the same types, and those that are copied raw, are not modelled.
- Decoders.Decoder.DecodeRecord: stops with `Unmodelled` at records with such bodies.
- Decoders.Decoder.ReadDomain: stops with `Overrun` where the code would read or write one byte past its block (lib/dns/codec.c:1307 and lib/dns/codec.c:1311); so do the numbers that the code reads without a test of the size.
- Decoders.Decoder.DecodeMessage: leaves out the space that is set aside for structures, and its lack (lib/dns/codec.c:1066-1106); the destination is for text alone.
- Names are sequences of bytes; that a C string ends at its first zero byte is left to the caller.
- Location.WordsWritten: is about real angles and altitudes that fit their word; whether any other comes back is the subject of `CoordinateRoundTrip` and `AltitudeRoundTrip`.
- Location.PositionRoundTrip: is about the coordinates and the altitude; the scales of a LOC record are floating-point arithmetic, and its cursor is moved without its size.
- Bridges.CloseKeeps: a close passes over a partner or caller that was removed before, where the code follows the pointer it has kept (src/homeNet.c:297-299); `SecondCloseMeets`, `RegisteredNeverMeets` and `TakenOverMeets` say when that happens.
- Bridges.CloseEnds: says nothing of a partner or caller that was removed before, for the same reason.
- BridgeServers.Bridge.CloseWaiting: skips callers that were removed before.
- BridgeServers.Bridge.SockCleanup: skips a partner that was removed before.
- BridgeServers.Bridge.HandleClose: skips what its cleanup skips.
- BridgeServers.HnSock.constructor: has the relay and listener modes only, and no upgrade flag.
- BridgeServers.Bridge.HandleListenNotify: is told the outcome of authentication and the id that was chosen.
- BridgeServers.Bridge.HandleRead: takes one chunk of data at a time, where the code loops until there is none (src/homeNet.c:1337-1343).
- BridgeServers.Bridge.HandleConnect: is told how dialling will end; name resolution, authentication and the requests to further hops are not in its state (the last are in `Urls.InitializeConnect`).
- BridgeServers.Bridge.SendMsg: records a message as sent whenever the socket is not dead; the websocket upgrade and the write buffer (src/utils.c:435-462) are not modelled.
- Random OTPs and listener ids are inputs; that they are distinct is a condition where it is needed.
- The list of watched sockets is a map here; list_remove (src/utils.c:360-374) never looks at the last node.
- The map of listeners is the verified association list; the map of callers that each listener holds is a built-in map.
- AssocMaps.AssocMap.Set: works on a sequence of items, not on linked nodes, so freeing and aliasing of nodes are not captured.
- Urls.InitializeConnect: has no limit on the length of an id or a password, where the code has buffers of 50 and 10 bytes.
- Sha2Contexts.Context.Final: does not zero the context afterwards.
- Sha2Contexts.Hash: stops before the conversion to hexadecimal text.
- Sha2Contexts.Context.StoreCount: writes the big-endian bytes of the count at once, where the code reverses the word and stores it in host order.
- Sha2Contexts.Context.Transform: keeps the eight registers in one value between rounds, as the unrolled one does between eight and eight; the shifting itself is written out in `Shift`.
- Websocket upgrade, HTTP parsing, mDNS, configuration, command line and console input: input and output without state of their own.
- lib/dns/mappings.c, lib/dns/output.c and lib/dns/netsimple.c: tables and input or output.
