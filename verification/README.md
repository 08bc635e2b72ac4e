# A model of the EtherNet/IP driver, and of four smaller ones

The main subject is `drivers/ether-ip`: one thread per PLC reads and writes tags by packing CIP
requests into MultiRequests under a byte limit, while record threads stage writes on the same tags.
Five questions are asked of it.

* Does the write handshake (`do_write`, `is_writing`) lose, repeat or mix up anything, over every
  interleaving of records, scan passes, tag moves and disconnects?
* Does a scan pass send what it should, in as few messages as it can, and never more bytes than it
  has counted?
* Do the encoders, their size functions and the decoders agree, byte for byte?
* Does a BOOL array link reach exactly the bits it names, and does writing them leave all others alone?
* Is a reply frame recovered however the stream is split?

Four further parts each have one statement of their own: the choice of camera modes (`drivers/d435i`),
`printf` against `scanf` (`drivers/ip`), the configuration text of Amptek processors
(`drivers/mca-amptek`) and the checksum frame of Love controllers (`drivers/love`).

`dafny verify dfyconfig.toml` checks the whole project.

## Modules

| module | what it models |
|---|---|
| `Bytes`, `Numerals`, `Words`, `Wrappers`, `Bits` | octets and little-endian fields, numerals, word tables, `Option` and `Result`, bitwise operators |
| `TagPath` | tag names, their text and their path segments |
| `Cip` | tag requests, MultiRequests and their replies, CM_Unconnected_Send, and every size function |
| `Values` | element accessors over a raw `[type][data]` buffer |
| `BitArray`, `Links` | bits gathered from and scattered into 32-bit words; record links |
| `Encap`, `Connection` | encapsulation header, SendRRData, transaction ids; the read loop and the checks around it |
| `Packing` | splits of a list under two budgets, with no reference to tags |
| `TagBuffer` | the mutable half of a tag: buffer, handshake flags, probed sizes |
| `Listeners`, `Tags` | records bound to a tag; tags and scan lists as objects; staging a write |
| `ScanPass`, `PassResults` | one pass over a list as loops over shared objects, and what its result means |
| `Interleaving` | the same pass as a state machine over many tags, while records stage values |
| `Handshake` | one tag as a state machine with its history, under any interleaving |
| `Completion` | that machine together with the record whose write is pending, and its notifies |
| `Sweep` | a whole PLC: sweeps that invalidate tags, among tags that are moved |
| `Registry` | scan lists and `add_tag` |
| `StreamModes`, `CScan`, `CFormat`, `Amptek`, `Love` | the four smaller parts |

Where the source works in place, so does the model: encoders append to a `Vec`, `put_bits` edits an
array, tags, listeners, lists, connections, streams and the registry are objects. Each such method is
tied to a function of its inputs or of the old state, and the properties are proved about that function.

## What holds only under a condition

These are the places where the plain promise is not what the code does. Each is stated with its exact
condition, or with a concrete run that breaks it.

* A batch packed up to the limit need not pass the check of a routed send, which counts a wrapper of 14
  bytes and padding as well (`PassResults.SendableWhen`). There is a limit at which a tag, read or written,
  makes a batch that fits and is refused exactly when its message leaves too little room under the least
  limit at which it fits (`PassResults.FullBatchRefused`), as every read does whose reply takes at most 13
  bytes more than its request (`PassResults.ReadRefused`). Packed to 15 bytes less every batch would pass
  (`PassResults.PackingBelowLimitAccepted`).
* The first usable tag that alone exceeds the limit ends the pass for everything behind it
  (`PassResults.PassSendsEachOnce`), and a write staged on it is dropped: it is in no batch, both flags
  end up clear and its records are not notified (`PassResults.LoneWriteDropped`).
* A write can exceed its budget by exactly one byte: a STRING sent whole without a NUL of its own
  (`TagBuffer.RequestsKeepToBudget`). Text that a record stages never does (`TagBuffer.StagedTextHasNul`).
* What goes out is the whole buffer exactly when it holds just the elements asked for by then or, of a
  STRING, when the text fits the limit (`Handshake.SentWholeWhen`). When `add_tag` has raised the count
  since the last read, the elements behind go out as zeros (`Handshake.GrownTagSendsZeros`).
* A staged value is found again exactly when it is in range and has room in the buffer; a bit record whose
  value has more bits than the record stages it on every process (`TagBuffer.StagedValueHeld`).
* `invalidate_tags` says that nothing stale is written after an error. A tag that `add_tag` moves to a
  list the sweep has already looked at slips past it, and its old write goes out (`Sweep.MovedTagSlips`).
  A tag is swept exactly when the last verdict on it says so: the last time it left a list uncaught, or
  had lists opened on its way to the next one (`Sweep.SweptWhen`).
* A notify completes whatever write is pending when it visits the record. The write has been sent by then
  exactly when the tag was packed into a batch that went out before any notify
  (`Completion.SentByCompletionWhen`); with transfers that go well, exactly when the scan thread had no
  request of the tag in hand, and owed it no visit, as the value was staged
  (`Completion.SettledWhenStaged`). A write staged during a read is completed unsent
  (`Completion.CompletedBeforeItIsSent`).
* `release_writes` is described as letting the next pass retry; it drops the writes of the batch, while a
  write that was taken but found no room in the batch stays taken (`PassResults.FailedPassHolds`).
* Sub-replies are read back exactly when the last of them starts below offset 65536
  (`Cip.SubRepliesInvertBundle`).
* A path is uniquely decodable exactly when names have at most 255 bytes and indices 32 bits
  (`TagPath.PathRoundTrip`), and its text parses back exactly when the path is one the parser can yield
  and its indices fit the 32 bits that are printed (`TagPath.DisplayRoundTrip`).
* A BOOL array link reaches its bits exactly when the last bit's index is a 64-bit number
  (`BitArray.FoldedLinkReachesItsBits`).
* `%d` reads back what `%d` printed, for every flag, width and precision, exactly unless a 0 was printed
  with precision 0 (`CFormat.ReadsBackUnlessEmpty`); `%u` reads back a negative number as 2147483647
  (`CFormat.UnsignedReadsBack`).
* Amptek preset counts are printed as integers, so they read back exactly when they are whole and fit 32
  bits (`Amptek.CountsReadBack`).
* The Love checksum is a sum, so it notices one changed byte but not two swapped ones
  (`Love.SwapUnnoticed`), and a reply with one byte of payload is taken for an error reply
  (`Love.FrameGivesPayload`).

## Model

| member | source | states |
|---|---|---|
| TagPath.Parse | drivers/ether-ip/src/cip.rs:164-207 | the parsing loop yields exactly the elements of the recursive reading of the text, and fails on an unclosed `[` and on no name at all |
| TagPath.DisplayRoundTrip | drivers/ether-ip/src/cip.rs:256-273 | parsing undoes printing if and only if the path starts with a name, its names are plain, no two indices are adjacent, and indices fit 32 bits |
| TagPath.NamesParse | drivers/ether-ip/src/cip.rs:164-207 | a name ends a text or goes on behind a '.'; at an empty name the parser keeps what it has |
| TagPath.IndexedNamesParse | drivers/ether-ip/src/cip.rs:183-198 | an index is what `atol` reads up to the ']', with one '.' behind it or none; without a ']' nothing is parsed |
| TagPath.AtolReads | drivers/ether-ip/src/cip.rs:189-191 | blanks, a sign and digits, up to anything else, saturated at 64 bits |
| TagPath.ParsedIsWellShaped | drivers/ether-ip/src/cip.rs:164-207 | the parser yields nothing but such paths |
| TagPath.EncodePath | drivers/ether-ip/src/cip.rs:226-253 | appends the segments of the path, each element in its smallest form |
| TagPath.PathWordsAreExact | drivers/ether-ip/src/cip.rs:210-224 | the encoding is exactly twice `path_words` bytes long, for every path |
| TagPath.PathRoundTrip | drivers/ether-ip/src/cip.rs:226-253 | a reader of segments recovers the path if and only if every element is encodable |
| TagPath.PathBytesInjective | drivers/ether-ip/src/cip.rs:226-253 | no two encodable paths share an encoding |
| Cip.EncodeReadData | drivers/ether-ip/src/cip.rs:503-508 | appends service, path size, path and element count |
| Cip.EncodeWriteData | drivers/ether-ip/src/cip.rs:520-549 | appends the write, its data cut or padded with zeros to the size its type and count call for |
| Cip.EncodeWriteString | drivers/ether-ip/src/cip.rs:551-588 | appends the string write: its text up to the first NUL, cut to what the limit leaves, and a NUL |
| Cip.RequestSizesAreExact | drivers/ether-ip/src/cip.rs:498-588 | read, write and string requests are exactly as long as the size functions say, for every tag and value |
| Cip.RequestOpens | drivers/ether-ip/src/cip.rs:503-549 | a target that takes the request apart finds the tag's path and the body behind it |
| Cip.ReadReachesTarget | drivers/ether-ip/src/cip.rs:503-508 | a target's reader finds in a read the tag and the count it was built for |
| Cip.WriteReachesTarget | drivers/ether-ip/src/cip.rs:520-549 | a target's reader finds in a write the tag, a code that is its type's, the count, and the data byte by byte, zeros where there are none |
| Cip.TextReachesTarget | drivers/ether-ip/src/cip.rs:551-588 | a target's reader finds in a string write the tag, the handle, the count and the text, whole up to its first NUL or up to the limit |
| Cip.TypesOnTheWire | drivers/ether-ip/src/cip.rs:47-84 | the code bytes each known type is told by |
| Cip.GoodReplies | drivers/ether-ip/src/cip.rs:402-658 | which reply bytes are taken for a good read, write or multiple reply, and where the data start |
| Cip.EncodeMultiRequest | drivers/ether-ip/src/cip.rs:631-647 | appends the header, the count, the offset table and the requests |
| Cip.MultiRequestSizeIsExact | drivers/ether-ip/src/cip.rs:613-618 | the size the packer computes is the length of the encoding |
| Cip.MultiResponseSizeIsExact | drivers/ether-ip/src/cip.rs:620-626 | the size it budgets for the reply is the length of a reply with these sub-replies |
| Cip.SubRepliesInvertBundle | drivers/ether-ip/src/cip.rs:660-685 | whatever the extended status, every sub-reply is the part laid out there, if and only if the last part starts below 65536 |
| Cip.WrappedOffsetMisreads | drivers/ether-ip/src/cip.rs:660-685 | when the last offset wraps, the last sub-reply is something else |
| Cip.SubRequestsInvertMultiRequest | drivers/ether-ip/src/cip.rs:631-647 | a target reads every sub-request back from the encoded message, behind its fixed head |
| Cip.EncodeUnconnectedSend | drivers/ether-ip/src/cip.rs:472-491 | appends the envelope: ticks, the message padded to an even length, and the route to the slot |
| Cip.UnconnectedSendSizeIsExact | drivers/ether-ip/src/cip.rs:458-470 | the envelope is exactly as long as its size function says: 14 bytes more, rounded up to even |
| Cip.EnvelopeHoldsMessage | drivers/ether-ip/src/cip.rs:472-491 | a bridge takes service, timeout, message and route back out of the envelope |
| Values.ReadableElements | drivers/ether-ip/src/cip.rs:754-768 | of the integer and bit types: an element is readable if and only if its type has a bit pattern and all of it lies in the buffer |
| Values.PatternReadsBack | drivers/ether-ip/src/cip.rs:892-906 | what was put into an element is read back, cut to the width of its type |
| Values.PatternElsewhere | drivers/ether-ip/src/cip.rs:892-906 | every other element is left alone |
| Values.WritableWhenReadable | drivers/ether-ip/src/cip.rs:892-906 | of the integer and bit types: an element can be written if and only if it can be read |
| Values.DintReadsBack | drivers/ether-ip/src/cip.rs:874-890 | every 32-bit number put into a DINT or BITS element reads back as itself |
| Values.LintReadsBack | drivers/ether-ip/src/cip.rs:909-920 | every 64-bit number put into a LINT element reads back as itself |
| Values.DintInLint | drivers/ether-ip/src/cip.rs:874-890 | a 32-bit number put into a LINT element is read back as itself |
| Values.StringStored | drivers/ether-ip/src/cip.rs:923-956 | a text is stored as its leading bytes, their count and a NUL, behind an unchanged type and handle |
| Values.StringElementReads | drivers/ether-ip/src/cip.rs:807-853 | element `el` of an array of Logix STRINGs is read 88 bytes behind the one before, as far as its length, its 84 bytes and the reader go, up to a NUL |
| Values.PlainStringReads | drivers/ether-ip/src/cip.rs:807-853 | a plain CIP STRING is read behind its type and one more word |
| Values.StringReadsBack | drivers/ether-ip/src/cip.rs:807-853 | it reads back whole if and only if it has no NUL and fits both the buffer and the reader |
| BitArray.GetBits | drivers/ether-ip/src/device.rs:284-305 | returns bits n to n+bits-1 of the flat bit array, bit n lowest, or nothing if the last of them has no word |
| BitArray.GatheredBit | drivers/ether-ip/src/device.rs:284-305 | bit i of the result is bit n+i of the array, and no other bit is set |
| BitArray.PutBits | drivers/ether-ip/src/device.rs:308-340 | in place: succeeds if and only if the last bit has a word; the bits that have one carry the value's, all others are kept, also when it fails half-way |
| BitArray.GatherInvertsScatter | drivers/ether-ip/src/device.rs:284-340 | in a DINT or BITS buffer the bits read back as the value modulo 2^bits, and every other bit and the type are unchanged |
| BitArray.ScatteredReadsBack | drivers/ether-ip/src/device.rs:284-340 | so that whenever a get succeeds, a put with the same arguments does, and a following get returns the value modulo 2^bits |
| BitArray.FlaggedLinkReachesItsBits | drivers/ether-ip/src/device.rs:227-248 | element, mask and count folded from an explicit bit number reach that bit, counted modulo 32, if and only if the bits asked for stay within the element |
| BitArray.FoldedLinkReachesItsBits | drivers/ether-ip/src/device.rs:219-248 | word, mask and element count folded from a bit index let exactly those bits be read, if and only if the last index does not wrap |
| Links.AnalyzeLink | drivers/ether-ip/src/device.rs:131-250 | the token loop comes to the same link, or the same error in the same order, as the recursive reading of the text |
| Links.LinkReads | drivers/ether-ip/src/device.rs:131-250 | for any reader of numbers that keeps within its text: a link spelled out from PLC, tag, index and settings is read back as these; with `E` the index stays in the tag, without it an index past 64 bits is refused |
| Links.IndexReads | drivers/ether-ip/src/device.rs:201-206 | an index spelled in decimal, octal, hexadecimal or binary, behind blanks and a sign, is read back as its number, wrapped when negative, and refused at the limits of 64 bits |
| Links.LinkHolds | drivers/ether-ip/src/device.rs:131-250 | which spelled-out links are refused and with what error, and for the others the PLC's and tag's names, the flags, and the last positive period given or the record's own |
| Links.BadSetting | drivers/ether-ip/src/device.rs:155-193 | the first setting that cannot stand in a link is the error: an unknown word, `E` for an array record, an infinite period |
| Links.LinkReachesBitOfElement | drivers/ether-ip/src/device.rs:214-250 | a bit record whose link has a `B`, or no index, reads from that bit of its element on, in a buffer of the elements asked for, if and only if its bits stay within the element |
| Links.SizesOfNumbers | drivers/ether-ip/src/device.rs:253-264 | a bit number is cut to its whole part: as it is below 2^64, wrapped when negative, 2^63 when out of range |
| Links.LinkMissing | drivers/ether-ip/src/device.rs:131-144 | a link without a PLC, or with nothing behind it, is refused as such |
| Links.NoIndexReads | drivers/ether-ip/src/device.rs:201-204 | a bracket without digits is refused |
| Links.LeadingSpelled | drivers/ether-ip/src/device.rs:96-110 | how the first six flags are spelled |
| Links.OthersSpelled | drivers/ether-ip/src/device.rs:96-110 | and the other seven |
| Links.FlagFound | drivers/ether-ip/src/device.rs:96-110 | every flag is found by its own word, whatever follows it |
| Links.LinkReachesItsBits | drivers/ether-ip/src/device.rs:195-250 | a bit record linked to bit n, with neither `E` nor `B`, reads exactly bits n to n+bits-1 from a buffer of the elements its link asks for |
| Links.LinkReachesItsElements | drivers/ether-ip/src/device.rs:232-248 | any other record asks for just the elements up to the last it names |
| Encap.TransactionIds.Generate | drivers/ether-ip/src/encap.rs:62-71 | hands out the id of the counter and steps it, back to 1 before 0x7FFFFFFF |
| Encap.IdsDiffer | drivers/ether-ip/src/encap.rs:75-80 | different counters give different ids |
| Encap.IdsRunDistinct | drivers/ether-ip/src/encap.rs:46-80 | no id repeats within 2^31 - 2 consecutive ones |
| Encap.IdsRunRound | drivers/ether-ip/src/encap.rs:46-80 | after 2^31 - 2 ids the counter is where it was; an id is its eight capital hexadecimal digits |
| Encap.EncodeHeader | drivers/ether-ip/src/encap.rs:134-148 | appends the 24-byte header |
| Encap.HeaderDecodes | drivers/ether-ip/src/encap.rs:100-115 | an encoded header decodes to its fields, whatever follows it |
| Encap.EncodeSendRRData | drivers/ether-ip/src/encap.rs:227-247 | appends header, item list and payload |
| Encap.RRDataDecodes | drivers/ether-ip/src/encap.rs:227-275 | the payload is decoded again, for up to 65535 bytes, behind the two items of an unconnected message |
| Connection.Connection.Transact | drivers/ether-ip/src/connection.rs:176-218 | for every way the stream is split: exactly the first announced frame is returned and taken off the stream, or the error the stream ends in; never more than 580 bytes |
| Connection.SplitAnywhere | drivers/ether-ip/src/connection.rs:176-218 | cutting a chunk in two, with a signal in between, changes nothing that arrives |
| Connection.FrameIsDelimited | drivers/ether-ip/src/connection.rs:176-218 | a frame that fits is read whole and nothing of what follows it |
| Connection.NoFrameBeyondBuffer | drivers/ether-ip/src/connection.rs:205-213 | no frame longer than 580 bytes is ever returned: one announced to be is refused behind its header |
| Connection.Connection.Exchange | drivers/ether-ip/src/connection.rs:224-245 | a reply counts only with the command, a zero status and the transaction id of its request, in that order of errors |
| Connection.Connection.SendRR | drivers/ether-ip/src/connection.rs:248-254 | one frame with a fresh id goes out, and the message of its checked reply comes back |
| Connection.Connection.SendRouted | drivers/ether-ip/src/connection.rs:258-269 | an envelope above the limit is refused with nothing sent and no id used; otherwise it goes out whole |
| Connection.PayloadRecovered | drivers/ether-ip/src/encap.rs:227-275 | composed with the codec: the payload of a reply is recovered, whatever follows it, if and only if it carries the id of its request and has at most 540 bytes |
| Connection.ReplyBelongs | drivers/ether-ip/src/connection.rs:224-245 | for every stream: a frame is taken only with the command, status 0 and the id awaited at their places, and the first of these that fails is the error |
| Connection.LeavesWhen | drivers/ether-ip/src/connection.rs:176-183 | a frame does not leave if and only if it is longer than 580 bytes or the socket takes nothing |
| Connection.AnswerBelongs | drivers/ether-ip/src/connection.rs:248-269 | a message is taken only from such a frame, behind its 40 bytes and as long as they say |
| Connection.CutFrame | drivers/ether-ip/src/connection.rs:186-204 | a stream that ends within a frame gives its ending as the error |
| Connection.RoutedSizeCheck | drivers/ether-ip/src/connection.rs:258-265 | a message passes the size check if and only if its even length leaves 14 bytes, and that is the length of the envelope really sent |
| Packing.GreedySendsFewest | drivers/ether-ip/src/driver.rs:765-872 | no in-order split within the request and the response budget has fewer groups than the greedy one |
| Packing.SuffixTakesNoMore | drivers/ether-ip/src/driver.rs:765-872 | splitting only the end of a list greedily takes no more groups than any split of all of it |
| Packing.PartFits | drivers/ether-ip/src/cip.rs:613-625 | what fits fits in parts: both sizes only grow with more tags |
| TagBuffer.RequestReachesTarget | drivers/ether-ip/src/driver.rs:783-821 | a target finds in the request a pass builds a read or a write of the tag, by the buffer's type code, for the low 16 bits of its count |
| TagBuffer.ReplySettles | drivers/ether-ip/src/driver.rs:968-1002 | what any reply's bytes do to its tag: refused, or to a read without data or with 580 bytes or more, no record finds a value to stage against; a good one keeps the value of a write or of a tag staged meanwhile, and else replaces it |
| TagBuffer.UsableWhenProbed | drivers/ether-ip/src/driver.rs:700-745 | a tag is used if and only if its probe brought a value |
| TagBuffer.RepliesKeepToBudget | drivers/ether-ip/src/driver.rs:704-718 | the good reply to a probed tag's next request is exactly as long as its budget |
| TagBuffer.AnsweredWithinLimit | drivers/ether-ip/src/driver.rs:823-829 | replies within budgets that fit make a reply of at most `limit` bytes |
| TagBuffer.TakeTwice | drivers/ether-ip/src/driver.rs:785-815 | a tag already taken by a pass is taken again unchanged and at the same cost |
| TagBuffer.PutSucceeds | drivers/ether-ip/src/device.rs:780-832 | after the comparison a put fails only for a text in a buffer that is no STRING or too short for one, and then changes nothing |
| TagBuffer.PutKeepsShape | drivers/ether-ip/src/device.rs:780-832 | staging keeps type and length of the buffer |
| TagBuffer.StagedValueHeld | drivers/ether-ip/src/device.rs:780-832 | a staged value is what the record finds afterwards if and only if it is in range and has room; it is staged again exactly if not, or if a bit record's value has more bits than the record |
| TagBuffer.CarriedWholeWhen | drivers/ether-ip/src/cip.rs:541-588 | the encoded request carries the whole value of the buffer if and only if it is for just as many elements or, of a STRING, the text fits the limit |
| TagBuffer.RequestsKeepToBudget | drivers/ether-ip/src/driver.rs:703-718 | probed at the current element count: a read is exactly its budget; a write at most, but for one byte more if and only if a STRING goes out whole without a NUL of its own |
| TagBuffer.StagedTextHasNul | drivers/ether-ip/src/cip.rs:923-956 | text staged by a record always brings its NUL |
| TagBuffer.AssembledWithinLimit | drivers/ether-ip/src/driver.rs:829-859 | a MultiRequest of requests within budgets that fit is at most `limit` bytes |
| Listeners.Listener.Visit | drivers/ether-ip/src/driver.rs:150-172 | a pending write is completed and nothing else happens; only without one a check runs or a pulse is sent |
| Listeners.NotifyAll | drivers/ether-ip/src/driver.rs:150-172 | every bound listener is visited exactly once |
| Listeners.CompletedByFirstVisit | drivers/ether-ip/src/driver.rs:150-172 | over every run: a pending write is completed exactly once, by the first visit and by it alone, which runs no check |
| Listeners.ToldByVisits | drivers/ether-ip/src/driver.rs:150-172 | with nothing pending, each visit pulses an input and checks an output that has a database |
| Listeners.BoundIsVisited | drivers/ether-ip/src/driver.rs:150-188 | a whole notify visits every listener that stays bound |
| Listeners.CompletedByFirstNotify | drivers/ether-ip/src/device.rs:836-844 | a write staged once, its record kept bound, is completed exactly once when a whole notify has run |
| Tags.TagInfo.Notify | drivers/ether-ip/src/driver.rs:150-172 | every listener of the tag is told once what its state calls for |
| Tags.TagInfo.AddListener | drivers/ether-ip/src/driver.rs:174-183 | a new listener is bound behind the others |
| Tags.TagInfo.RemoveListener | drivers/ether-ip/src/driver.rs:186-188 | that listener, and no other, is unbound |
| Tags.TagInfo.StageWrite | drivers/ether-ip/src/device.rs:759-845 | the value is put and the write flagged if and only if the buffer holds another one that can be read; the record is left pending exactly then |
| Tags.TagInfo.RequestWrite | drivers/ether-ip/src/driver.rs:193-199 | sets the flag and nothing else |
| ScanPass.BuildOne | drivers/ether-ip/src/driver.rs:773-821 | a tag's write is taken and its request built in one step: a write of the whole buffer, or a read |
| ScanPass.OfferTag | drivers/ether-ip/src/driver.rs:771-868 | an unusable tag is skipped; a usable one is packed, or has no room, and is given back only if it was the first |
| ScanPass.Walk | drivers/ether-ip/src/driver.rs:771-872 | packs exactly the usable tags up to the first without room, and leaves every other tag's data alone |
| ScanPass.BuildMultiRequest | drivers/ether-ip/src/driver.rs:765-872 | the batch and where to resume, for tags as earlier batches left them |
| ScanPass.MembersAre | drivers/ether-ip/src/driver.rs:771-779 | the members of a range are exactly its usable tags |
| ScanPass.MembersInOrder | drivers/ether-ip/src/driver.rs:771-779 | each once and in list order |
| ScanPass.ReleaseWrites | drivers/ether-ip/src/driver.rs:952-958 | clears the taken flag of every item that writes, and nothing else |
| ScanPass.ApplyReply | drivers/ether-ip/src/driver.rs:968-1002 | a write is closed, a read stored unless a write has been staged meanwhile; each of the tag's records is then told once, and none is left with a pending write |
| ScanPass.HandOut | drivers/ether-ip/src/driver.rs:931-938 | sub-replies go to their tags in order up to the first missing one, each tag notified once |
| ScanPass.ApplyAll | drivers/ether-ip/src/driver.rs:931-938 | and the writes of the batch left without a reply are given back |
| ScanPass.SendBatch | drivers/ether-ip/src/driver.rs:887-929 | a reply counts if and only if the routed send brings one and it is a good MultiRequest reply; what went out is the encoded batch |
| ScanPass.Transfer | drivers/ether-ip/src/driver.rs:887-938 | every tag of the batch is settled: its own sub-reply applied, or its write given back |
| ScanPass.Turn | drivers/ether-ip/src/driver.rs:881-941 | one turn of the loop ends the pass, moves it strictly on, or fails it |
| ScanPass.ProcessScanList | drivers/ether-ip/src/driver.rs:876-943 | terminates; the state of every tag, how often its records were notified, and the frames written are those of the rounds, which are full batches one behind the other, each answered in full but for the last of a failed pass |
| PassResults.PassSendsEachOnce | drivers/ether-ip/src/driver.rs:876-943 | a pass that goes well sends, once each and in list order, exactly the usable tags before the first usable one that alone exceeds the limit |
| PassResults.PassSendsFewest | drivers/ether-ip/src/driver.rs:874-943 | in the fewest messages of any in-order split within both budgets |
| PassResults.RoundsAreGreedy | drivers/ether-ip/src/driver.rs:876-943 | no batch of a pass had room for the next tag |
| PassResults.SentTagSettled | drivers/ether-ip/src/driver.rs:931-938 | each sent tag's request stood at its place in one message, and the sub-reply at that place was applied to it |
| PassResults.SentTagEffect | drivers/ether-ip/src/driver.rs:931-1002 | and it leaves the tag as its bytes say: without a value when it was refused, with the old one or with the reply's data when not |
| PassResults.OthersUntouched | drivers/ether-ip/src/driver.rs:876-943 | tags behind the last batch, and unusable ones, are as they were |
| PassResults.PassTellsEachOnce | drivers/ether-ip/src/driver.rs:931-938 | a pass that goes well notifies the records of every tag it sent once, and of no other |
| PassResults.LoneWriteDropped | drivers/ether-ip/src/driver.rs:832-850 | over every pass: a write on the tag it stops at is in no batch and ends with both flags clear, its value kept in the buffer and its records not notified |
| PassResults.FailedPassHolds | drivers/ether-ip/src/driver.rs:945-958 | of a failed pass only the write the last batch had no room for stays taken, and none is staged again |
| PassResults.BatchWithinLimit | drivers/ether-ip/src/driver.rs:826-859 | batches of tags that keep to their budgets are at most `limit` bytes |
| PassResults.BatchIsAnswered | drivers/ether-ip/src/driver.rs:826-938 | packed to a limit of at most 540, replies within the budgets come in one frame that fits the 580-byte buffer, and each sub-reply is read back at its place |
| PassResults.GoodRepliesKeepToBudgets | drivers/ether-ip/src/driver.rs:703-718 | the good replies to a batch of probed tags are exactly as long as budgeted |
| PassResults.SendableWhen | drivers/ether-ip/src/connection.rs:258-269 | a message can be sent if and only if its even length leaves 14 bytes under the limit and 54 under 580 |
| PassResults.PackingBelowLimitAccepted | drivers/ether-ip/src/driver.rs:829-829 | packed to 15 bytes below the limit, every batch would be accepted |
| PassResults.FullBatchRefused | drivers/ether-ip/src/driver.rs:829-829 | there is a limit at which a tag, read or written, makes a batch that fits and is refused, if and only if its message leaves too little room under the least limit at which it fits, or under 580 |
| PassResults.ReadRefused | drivers/ether-ip/src/driver.rs:829-829 | so for every read whose reply takes at most 13 bytes more than its request |
| Interleaving.StepKeepsGood | drivers/ether-ip/src/driver.rs:765-943 | with values staged between any two steps of a pass, what is sent and what is packed stay the usable tags so far, in order, and each tag keeps its handshake's invariant |
| Interleaving.SendsEachOnce | drivers/ether-ip/src/driver.rs:876-943 | whatever is staged meanwhile and wherever a transfer fails: what is sent are, once each and in list order, the usable tags before the cursor but for those packed; when the pass ends well, all usable tags before the one it stops at, which alone was too large as it was taken; however it ends, no tag is left packed or in flight |
| Interleaving.NoRoomForNext | drivers/ether-ip/src/driver.rs:823-859 | every batch sent fits, and was closed only by the end of the list or by the first tag of the next batch, which as it was taken had no room in it |
| Interleaving.SendsFewest | drivers/ether-ip/src/driver.rs:874-943 | so no in-order split of what was sent has fewer messages, provided each tag without room was sent at the cost it then had |
| Interleaving.TagRuns | drivers/ether-ip/src/driver.rs:765-1002 | each tag's part in such a pass is a run of its handshake |
| Interleaving.PassIsBounded | drivers/ether-ip/src/driver.rs:876-943 | a pass over n tags takes at most 5 n + 2 steps of the scan thread, however many values are staged in between |
| Interleaving.NeverStuck | drivers/ether-ip/src/driver.rs:876-943 | and until it has ended or failed there is always one it can take that is no failure |
| Handshake.StepKeepsInv | drivers/ether-ip/src/driver.rs:765-1002 | each step of a record, a pass or a sweep keeps: the two flags tell exactly which stagings wait and which are taken |
| Handshake.RunKeepsInv | drivers/ether-ip/src/driver.rs:765-1002 | so it holds after every interleaving |
| Handshake.NoFallback | drivers/ether-ip/src/driver.rs:789-815 | the fall back from a write without a value to a read is never taken |
| Handshake.ReadsNeverOverwrite | drivers/ether-ip/src/driver.rs:981-1000 | over every interleaving, a read reply replaces the buffer only when nothing staged is waiting or in flight |
| Handshake.WritesCarryAllEdits | drivers/ether-ip/src/driver.rs:785-806 | every write sent is a value read from the PLC with all edits staged since that read put into it in order, at least one of them new |
| Handshake.SentWholeWhen | drivers/ether-ip/src/driver.rs:789-806 | its request carries all of that if and only if the buffer has just the elements asked for by then or, of a STRING, the text fits the limit |
| Handshake.GrownTagSendsZeros | drivers/ether-ip/src/driver.rs:305-306 | a run in which the count is raised after the read, and one staged element goes out with zeros behind it |
| Handshake.NoStagingSentTwice | drivers/ether-ip/src/driver.rs:785-795 | the ranges of stagings that two writes carry never overlap |
| Handshake.NothingStaleSent | drivers/ether-ip/src/driver.rs:329-347 | a write sent after a tag was invalidated is built from a value read after that, with edits put into it that were all staged after the read |
| Handshake.LastEditCarried | drivers/ether-ip/src/device.rs:774-844 | the next write is built from the buffer as it was staged last, and carries that value if and only if it is in range and has room |
| Handshake.StagedWaits | drivers/ether-ip/src/driver.rs:785-872 | a staged write keeps waiting, with its buffer, until a pass takes it or the tag is invalidated |
| Handshake.StagedReachable | drivers/ether-ip/src/device.rs:759-845 | from an unread tag a run leads to a usable tag with a staged write |
| Completion.SentByCompletionWhen | drivers/ether-ip/src/driver.rs:150-172 | over every run: a pending write is completed by the first visit, and has been sent by then if and only if the tag was packed into a batch that went out before any notify, and before it was found too large or invalidated |
| Completion.SettledWhenStaged | drivers/ether-ip/src/device.rs:836-844 | when transfers go well, that is settled as the value is staged: if and only if no request of the tag is in hand and no visit outstanding |
| Completion.CompletedBeforeItIsSent | drivers/ether-ip/src/driver.rs:931-1002 | a run in which the reply to a read completes a write staged meanwhile, with nothing sent at all |
| Sweep.OnlyMovesMatter | drivers/ether-ip/src/driver.rs:329-347 | within a sweep only leaving a list uncaught, and having lists opened on the way, change whether a tag will be caught, and exactly how |
| Sweep.SweptWhen | drivers/ether-ip/src/driver.rs:329-347 | over a whole sweep, a tag that was in a list is swept if and only if the last such verdict on it says so |
| Sweep.EndSweepsReachable | drivers/ether-ip/src/driver.rs:329-347 | at its end a sweep has swept exactly the tags that were still reachable |
| Sweep.SweepCatches | drivers/ether-ip/src/driver.rs:329-347 | a tag that was in a list at the start and never slips is swept |
| Sweep.UnmovedNeverSlips | drivers/ether-ip/src/driver.rs:329-347 | with no tag moved meanwhile none slips |
| Sweep.NothingStaleAfterSweep | drivers/ether-ip/src/driver.rs:329-347 | over every further run, a write of a swept tag is built from a value read after it was invalidated, with edits that were all staged after that read |
| Sweep.MovedTagSlips | drivers/ether-ip/src/driver.rs:298-304 | a run in which `add_tag` moves a tag past the sweep and its stale write is sent |
| Registry.Plc.AddTag | drivers/ether-ip/src/driver.rs:275-323 | keeps the invariant of lists and tags, files exactly this tag, and is refused if and only if a new name cannot be parsed; a new list stays even then |
| Registry.Plc.FindTag | drivers/ether-ip/src/driver.rs:293-297 | finds the tag and the list it is in if and only if it is registered |
| Registry.Plc.GetList | drivers/ether-ip/src/driver.rs:277-291 | returns the list at a period, made only if there was none |
| Registry.Plc.MoveTag | drivers/ether-ip/src/driver.rs:298-304 | the tag leaves its list, joins the faster one and reports that list's statistics; every other tag stays |
| Registry.Recorded | drivers/ether-ip/src/driver.rs:298-308 | one more call changes what is on record for its tag only: the smaller period and the larger count |
| Registry.TagIsWhereAsked | drivers/ether-ip/src/driver.rs:275-323 | after any calls a tag is in exactly one list, once, at the smallest period ever asked for it, with the largest count, reporting that list's statistics |
| Registry.MinAndMaxWereAsked | drivers/ether-ip/src/driver.rs:298-308 | smallest period and largest count are ones really asked for |
| StreamModes.FitToEnum | drivers/d435i/src/types.rs:258-287 | the grouping and dealing loops keep the leading 16 of the round-robin order, sorted again |
| StreamModes.FitKeepsModes | drivers/d435i/src/types.rs:258-287 | exactly min(16, n) modes are kept, all of them given, none twice, in order |
| StreamModes.FitKeepsLowestRates | drivers/d435i/src/types.rs:252-257 | with a mode every slower one of its resolution is kept |
| StreamModes.FitKeepsResolutions | drivers/d435i/src/types.rs:252-257 | with at most 16 resolutions each keeps a mode |
| StreamModes.FitIsFair | drivers/d435i/src/types.rs:252-287 | a resolution that loses a mode keeps at most one fewer than any other |
| StreamModes.FitPrefersFirst | drivers/d435i/src/types.rs:273-284 | a resolution that loses a mode keeps no fewer than any that first occurs behind it |
| StreamModes.GroupsCount | drivers/d435i/src/types.rs:262-271 | grouping loses and adds no mode |
| StreamModes.SortSorts | drivers/d435i/src/types.rs:285-285 | sorting orders by pixel count and rate |
| StreamModes.SortCounts | drivers/d435i/src/types.rs:285-285 | and keeps every mode as often as it was there |
| CScan.Scan.Int | drivers/ip/src/scan.rs:21-40 | reads one `%d`, or fails and from then on reads nothing, with the rest of the text kept |
| CScan.Scan.Hex | drivers/ip/src/scan.rs:43-71 | the same for `%x` |
| CScan.Scan.Char | drivers/ip/src/scan.rs:88-102 | takes one byte whatever it is, or fails |
| CScan.Scan.Literal | drivers/ip/src/scan.rs:105-113 | goes on only behind that very byte |
| CScan.SkippedBytes | drivers/ip/src/scan.rs:21-30 | which bytes are skipped as white space before a number |
| CScan.BarePrefix | drivers/ip/src/scan.rs:50-56 | a `0x` without a digit behind it is the number 0, with its `x` left |
| CScan.ClampedIs | drivers/ip/src/scan.rs:33-39 | a decimal past 32 bits is read as the nearest 32-bit number, one past 64 bits as 0 |
| CScan.Low32Is | drivers/ip/src/scan.rs:62-70 | a hexadecimal number is read as the 32-bit number equal to it modulo 2^32, negated with a sign |
| CScan.IntReads | drivers/ip/src/scan.rs:21-40 | blanks, a sign, leading zeros and digits are read as their number, up to what cannot go on with it |
| CScan.HexReads | drivers/ip/src/scan.rs:43-71 | the same in base 16, with or without `0x` |
| CFormat.Parse | drivers/ip/src/fmt.rs:31-115 | the parsing loops come to the parts the recursive reading of a format finds, or fail with it |
| CFormat.FormatReads | drivers/ip/src/fmt.rs:31-115 | a format spelled out from prefix, flags, width, precision, length modifiers, conversion and suffix is read back as these |
| CFormat.FormatRefused | drivers/ip/src/fmt.rs:38-112 | a format is refused that has no conversion, ends inside one, has one that takes no int, or has a second one |
| CFormat.PrintedWidth | drivers/ip/src/fmt.rs:167-214 | a printed number is as long as its width or, if that is more, its head and digits |
| CFormat.PrintedSides | drivers/ip/src/fmt.rs:167-214 | it is filled with blanks behind it with `-`, with zeros behind its head with `0` where there is neither `-` nor precision, and with blanks before it otherwise |
| CFormat.PrintedDigits | drivers/ip/src/fmt.rs:167-200 | its digits stand for its magnitude or its 32 bits in the base of its conversion, at least as many as the precision |
| CFormat.PrintedHead | drivers/ip/src/fmt.rs:167-200 | before them stands the sign, or `0` or `0x` in the alternative form |
| CFormat.PrintedCase | drivers/ip/src/fmt.rs:167-200 | hexadecimal letters are small with `%x`, capital with `%X` |
| CFormat.DecimalReadsBack | drivers/ip/src/fmt.rs:167-214 | `%d` reads back what `%d` or `%i` printed, for every number, flag, width and precision |
| CFormat.HexReadsBack | drivers/ip/src/fmt.rs:167-214 | `%x` reads back what `%x` or `%X` printed, negative numbers and the `0x` included |
| CFormat.ReadsBackUnlessEmpty | drivers/ip/src/fmt.rs:188-195 | in both cases if and only if it was not 0 with precision 0 |
| CFormat.UnsignedReadsBack | drivers/ip/src/fmt.rs:184-184 | what `%u` printed of a negative number reads back as the largest one |
| CFormat.PrintedThenScanned | drivers/ip/src/fmt.rs:167-214 | the whole way from a format text with prefix and suffix through printing to scanning, for `%d`, `%i`, `%x` and `%X` |
| Amptek.ParseConfiguration | drivers/mca-amptek/src/config.rs:240-284 | keeps every field the device reports that is found and readable, and lists the others as errors, in order |
| Amptek.NamesDiffer | drivers/mca-amptek/src/config.rs:73-112 | no two fields share a key |
| Amptek.FieldSkipped | drivers/mca-amptek/src/config.rs:148-156 | a search for a key passes over every other field |
| Amptek.FieldFound | drivers/mca-amptek/src/config.rs:148-156 | and stops at its own |
| Amptek.TablesPrefixFree | drivers/mca-amptek/src/config.rs:16-29 | in every table that is read back no choice is the start of another |
| Words.ChoiceReads | drivers/mca-amptek/src/config.rs:190-197 | of such a table every choice is found, whatever follows it |
| Amptek.DoubleReads | drivers/mca-amptek/src/config.rs:164-175 | every multiple of 0.000001 is read back as printed |
| Amptek.WholeReads | drivers/mca-amptek/src/config.rs:179-185 | every 32-bit number is read back as printed |
| Amptek.SampleChoices | drivers/mca-amptek/src/config.rs:16-76 | the words some choices are sent as |
| Amptek.SampleSources | drivers/mca-amptek/src/config.rs:18-111 | and those of the source and the pile-up rejection |
| Amptek.SampleConnections | drivers/mca-amptek/src/config.rs:25-112 | of the connectors |
| Amptek.SampleWidth | drivers/mca-amptek/src/config.rs:27-112 | and of the output width |
| Amptek.SampleAux | drivers/mca-amptek/src/config.rs:22-105 | and of the auxiliary outputs |
| Amptek.ConfigurationReadsBack | drivers/mca-amptek/src/config.rs:240-284 | every field a device reports is read back from the printed configuration: choices, integers and doubles exactly, preset counts cut to an integer |
| Amptek.NoErrors | drivers/mca-amptek/src/config.rs:240-284 | with no errors, for any device |
| Amptek.CountsReadBack | drivers/mca-amptek/src/config.rs:91-91 | preset counts are read back as given if and only if they are whole and fit 32 bits |
| Love.ChecksumReads | drivers/love/src/wire.rs:28-56 | a checksum is read back padded with a zero or with a space |
| Love.FieldReads | drivers/love/src/wire.rs:28-56 | a field is read behind blanks that do not count, with a sign and a `0x` that do |
| Love.NegativeHex | drivers/love/src/wire.rs:58-61 | a negative hexadecimal field is the unsigned number of its 32 bits |
| Love.ErrorReplies | drivers/love/src/wire.rs:100-117 | a reply of seven bytes is the error its last two digits name; a shorter one, or one without STX, is none |
| Love.AcceptedWhen | drivers/love/src/wire.rs:100-127 | a framed body is accepted if and only if the checksum is its own and it has room for header and two bytes of payload |
| Love.FrameGivesPayload | drivers/love/src/wire.rs:100-127 | a reply gives back exactly its payload, if and only if that has at least two bytes |
| Love.OneByteChangeRejected | drivers/love/src/wire.rs:14-16 | any changed byte between STX and checksum is rejected |
| Love.SwapUnnoticed | drivers/love/src/wire.rs:14-16 | two swapped bytes are accepted |

## Left out

- REAL and LREAL accessors, `format_c_double`, `Scan::float`: conversions of floating-point numbers.
- Values.ReadableElements: REAL and LREAL elements, which the source converts to integers, count as unreadable here.
- Values.WritableWhenReadable: likewise without REAL and LREAL elements.
- Tags.TagInfo.StageWrite: likewise without values staged in REAL and LREAL elements.
- Links.AnalyzeLink: `strtod` is a parameter, any reader of numbers that takes no more than it is given; which flag a text starts with is one too, and the read-back lemmas fix it to the driver's table. A NaN period counts as none, as in the source.
- TagBuffer.RequestsKeepToBudget: the walk of `complete_tag_infos` over lists and its reads are left out; the step per tag is `TagBuffer.Probe`, and its sizes are assumed taken at the current element count with replies of unchanged length.
- ScanPass.ProcessScanList: one pass with nothing staged meanwhile. Interleavings are the subject of `Interleaving`, `Handshake`, `Completion` and `Sweep`, which use the same functions of a tag's data but are state machines. The loops count the notifies of a tag; what one does is stated by `Tags.TagInfo.Notify`.
- Interleaving.SendsFewest: counts what was sent at the costs as sent; a write staged on a tag between its being found without room and its being sent can change its cost.
- BitArray.PutBits: bytes behind the last whole element of the buffer are not spoken of.
- TagPath.Parse, Amptek.ParseConfiguration, CScan.Scan.Int: the C parsing functions they call are not part of this model and are taken as C's `atol`, `strtol`, `strtod` on a decimal without an exponent, and `%d`.
- Registry.Plc.AddTag: the period is a real number, so a NaN, which equals no list's period, is left out; locking is left out, and moves under way are in `Sweep`.
- Encap.RRDataDecodes: the fields of the item list other than the data length are ignored by the decoder, and so here.
- Connection.Connection.Transact: the socket is a script of chunks, signals and failures; which error ends it is told apart only as end of data or a failed read.
- Amptek.DoubleReads: doubles are whole numbers of millionths, the printed precision; `format_scas` is left out.
- Love.AcceptedWhen: error replies are told apart by their code, without the texts; a field wider than 64 bits is not wrapped.
- StreamModes.FitToEnum: pixel counts do not overflow; `default_mode_index` and the dirty flags are left out as easy.
- CFormat.Parse: widths and precisions are unbounded numbers, and formats are bytes.
- Session start-up, `decode_list_services`, attribute reads, tag and type listings: thin or plain next to the rest.
- `calc_tick_time`: the fixed ticks it yields are constants of the envelope.
- Scheduling of lists, transfer times, statistics, trace output and the report.
- The EPICS record framework: a record is a value and a pending ticket.
