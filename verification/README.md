# Verification of Prism-HTTP

Prism-HTTP moves a live TCP/TLS/HTTP connection between servers while a programmable
switch rewrites the packets of the flow.  This project models the parts of it that have
hard state or hard arithmetic, in the form the program has them, and proves what they are
for.  `dafny verify dfyconfig.toml` checks everything.

| Part | Files |
|---|---|
| Handoff protocol and switch | `Checksum`, `Switch`, `Handoff`, `HandoffLiveness`, `HandoffDestination`, `Cluster` |
| HTTP parsing and printing | `HttpScan`, `HttpText`, `HttpAscii`, `RequestParser`, `RequestLanguage`, `RequestPartial`, `ResponseParser`, `ResponseAscii`, `ChunkedDecoder`, `ChunkedLanguage`, `ChunkedAscii` |
| Poly1305 | `Bits`, `Poly1305Arithmetic`, `Poly1305Bytes`, `Poly1305`, `Poly1305Vector` |
| TLS state | `TlsContext`, `TlsRoundTrip`, `TlsSuites`, `TlsOverrun`, `TlsAccepted`, `TlsPacket`, `TlsCode`, `TlsStream` |
| Key-value stores | `KvsRepl`, `ChainAgreement`, `Jhash`, `JhashVector`, `ShardedKvs` |
| Byte streams | `Membuf`, `Memory`, `Framing`, `TcpQueue` |
| Shared | `Bytes`, `Slices`, `Options` |

**Handoff.**  `Handoff` is a state machine over the callbacks of any number of servers, any
number of flows and one switch, in any interleaving.  `Cluster` has the callbacks as methods
on records, each proved to make exactly one step of that machine.  The guards of
`Handoff.Enabled` carry the hypotheses without which the statements are false of the code:

- The client sends a configuration datagram again until it is answered.  A LOCK, an UNLOCK or
  a CHOWN is applied once, because each toggles the lock bit; an ADD may be applied again and
  again, and a DELETE as long as its flow has not come back with a rule.  No datagram is
  applied after its answer has been received.
- An answer arrives only for a datagram that was applied.
- The link from the switch to a server keeps the order of packets, so that an answer never
  overtakes a packet that the switch let through before: a packet is received in the step that
  lets it through.
- A peer's address and port are those of at most one open connection at a time, even to
  different servers; they come back only after their rule is gone, and are never those of a
  server.
- The rule table has room.

`Handoff.RetransmissionHarmless` and `Switch.RetransmittedLock` say exactly what the first one
excludes.  `HandoffLiveness` adds what a run can still come to: no handoff gets stuck in a state
from which it cannot be completed, and every flow can be removed with its rule.
`HandoffDestination` says where a handoff goes, from the arguments of the callbacks alone.

**Parsers.**  Each parser is a function of the buffer that yields a value and a position, a
syntax error (-1) or "more input needed" (-2), and a method with the loops of the source that
is proved equal to it, in the build with 16-byte scans and in the one without.  The theorems
are about the functions: stability under more input, equality of the incremental and the full
parser over every way of cutting the input, and the exact language that is accepted: every
text of it is read as what it says, and nothing else is accepted.

**Tables and constants.**  What the definitions are built on is stated a second time without
them: the bytes of names, tokens and values (`HttpAscii`), requests, responses and chunked
messages as text (`HttpAscii`, `ResponseAscii`, `ChunkedAscii`), the cipher suites by number and
the layout of their exports by offset (`TlsSuites`, `TlsAccepted`), what the switch does to rules
and packets in numbers (`Switch`), and a published value each for Poly1305 and for the hash
(`Poly1305Vector`, `JhashVector`).

**Where the code does not do what it is for.**  These are results, with the exact condition
proved in each case:

- The reply to a configuration request carries the status of the request, so that a failure
  looks like success (`Switch.PrismSwitch.Configure`).  In every run of the protocol no request
  fails (`Handoff.RequestsNeverFail`).
- A reason that ends in a line feed, as in several of the key-value handlers, ends the printed
  head at that point for its reader (`ResponseParser.LineFeedEndsHead`);
  `ResponseParser.RoundTrip` says for exactly which responses parsing undoes printing.
- The handoff reader's test leaves out the four bytes of the header.  `Framing.Delivery` says
  exactly which ends of reads make it take a payload that has not arrived yet; for a single frame
  they are the last four before its end (`Framing.LastFourBytes`).
- Importing an export of a client context exchanges the two directions
  (`TlsRoundTrip.Hop`, `TlsRoundTrip.ClientContextIsLost`), and an export whose body exceeds its
  16-bit length field is rejected.
- A LOCK or a CHOWN that is applied twice undoes itself while the handoff goes on
  (`HandoffLiveness.LockTwiceOpens`, `HandoffLiveness.ChownTwiceShuts`).
- PUTs of one path through different workers can leave the head of the chain with one value and
  every other server with another, all acknowledged (`ChainAgreement.StoresDiverge`);
  `ChainAgreement.AgreementExactly` says for exactly which PUTs.
- The import of a TLS context reads beyond its buffer for some buffers; `TlsOverrun.OverrunExactly`
  says for which.
- The request parser asks for more although nothing can help any more, if the method is empty
  and the path has not ended, or if the text behind the path is too short for the version and
  does not begin like one; `RequestPartial.CompletableExactly` says that these are the only cases.
- Restoring a queue reports errno after a refusal, and so success if `send` returned 0 while
  errno was 0 (`TcpQueue.SuccessMeansSent`).

## Model

| member | source | states |
|---|---|---|
| Checksum.ReplaceBothCongruence | switch/src/cpp/prism_switch.bpf.c:87-98 | replacing an address and a port changes a one's-complement sum by nothing but the replaced words, modulo 0xFFFF (section 3 of RFC 1624) |
| Checksum.ReplaceAddrCongruence | switch/src/cpp/prism_switch.bpf.c:375-378 | the four additions that replace a 32-bit address keep the sum of checksum and address modulo 0xFFFF |
| Checksum.SenderAccepted | switch/src/cpp/prism_switch.bpf.c:87-98 | of all checksums a receiver accepts only the complement of the folded sum, and 0xFFFF in place of 0 |
| Switch.PrismSwitch.HandleAdd | switch/src/cpp/prism_switch.bpf.c:138-174 | inserts the rule, or reports EEXIST and changes nothing |
| Switch.PrismSwitch.HandleDelete | switch/src/cpp/prism_switch.bpf.c:176-196 | removes the rule, or reports ENOENT and changes nothing |
| Switch.PrismSwitch.HandleChown | switch/src/cpp/prism_switch.bpf.c:198-233 | changes the owner and, on request, toggles the lock |
| Switch.PrismSwitch.HandleLock | switch/src/cpp/prism_switch.bpf.c:235-268 | toggles the lock to 1 from 0, and to 0 from anything else |
| Switch.PrismSwitch.HandleUnlock | switch/src/cpp/prism_switch.bpf.c:270-303 | toggles the lock to 0 from 1, and to 1 from anything else |
| Switch.PrismSwitch.Configure | switch/src/cpp/prism_switch.bpf.c:305-355 | applies the request and sends a reply with the request's own status, whatever came of it |
| Switch.PacketContext.OutLookup | switch/src/cpp/prism_switch.bpf.c:357-395 | a packet to a peer is dropped if its rule is locked, and otherwise gets the virtual address and port and updated checksums |
| Switch.PacketContext.InLookup | switch/src/cpp/prism_switch.bpf.c:397-446 | a packet from a peer is dropped if its rule is locked, and otherwise goes to the owner, with updated checksums |
| Switch.PacketContext.Lookup | switch/src/cpp/prism_switch.bpf.c:560-588 | the order of the two lookups and what passes untouched |
| Switch.ChecksumsSurvive | switch/src/cpp/prism_switch.bpf.c:375-443 | whatever the rules, a forwarded packet has valid IP and TCP checksums if and only if it had them on arrival |
| Switch.RuleLifetime | switch/src/cpp/prism_switch.bpf.c:138-268 | from ADD to DELETE, over every request history, the virtual endpoint is ADD's, the owner is the last CHOWN's, and the lock is the parity of the toggles |
| Switch.ForwardedDuringLifetime | switch/src/cpp/prism_switch.bpf.c:391-443 | every packet forwarded to the peer in that time carries the virtual endpoint of the ADD, and every packet from the peer goes to the owner of the last CHOWN, or of ADD if there was none |
| Switch.OtherFlowsUntouched | switch/src/cpp/prism_switch.bpf.c:138-303 | requests for other flows never change a flow's rule |
| Switch.EffectsAre | switch/src/cpp/prism_switch.bpf.c:138-303 | status and new rule of every request, in numbers, for a key that has a rule and for one that has none |
| Switch.DroppedExactly | switch/src/cpp/prism_switch.bpf.c:357-588 | a packet is dropped if and only if it is TCP with a five-word header and its destination has a locked rule, or its destination has none and its source has one whose lock is 1 |
| Switch.ChangedExactly | switch/src/cpp/prism_switch.bpf.c:357-588 | what matches no rule or is not TCP leaves as it came; of the rest only source, or destination and Ethernet address, and the checksums are new |
| Switch.RetransmittedLock | switch/src/cpp/prism_switch_client.cpp:111-125 | a LOCK applied n times leaves the flow locked if and only if n is odd |
| Handoff.NextInv | src/phttp_hoproto_export2.cpp:63-242 | every enabled step of exporter, importer, close path, switch and peer keeps the invariant of every flow |
| Handoff.ExactlyOneHolder | src/phttp_hoproto_export2.cpp:176-241 | in every run an open flow has exactly one holder (live socket, snapshot or message), a closed one none, and the holder has all bytes the switch let through |
| Handoff.DetachedIsSilent | src/phttp_hoproto_import2.cpp:35-59 | in every run, from the snapshot until CHOWN is applied, the rule exists and is locked and every packet of the flow is dropped in both directions |
| Handoff.PacketsReachTheHolder | switch/src/cpp/prism_switch.bpf.c:397-446 | in every run a packet let through reaches the one server whose live socket holds the connection, and no packet strays |
| Handoff.PeerSeesDialedAddress | switch/src/cpp/prism_switch.bpf.c:391-392 | in every run, what reaches the peer from a live socket bears the address and port it connected to |
| Handoff.RequestsNeverFail | src/phttp_hoproto_export2.cpp:201-241 | in every run the switch can carry out each request that reaches it |
| Handoff.RulesDoNotLeak | src/phttp_hoproto_close2.cpp:19-50 | in every run a rule without an open flow has its DELETE under way |
| Handoff.RetransmissionHarmless | switch/src/cpp/prism_switch_client.cpp:111-125 | applying an already applied request again is harmless exactly for ADD and for a DELETE of a flow that has not come back |
| HandoffLiveness.HandoffCompletes | src/phttp_hoproto_export2.cpp:63-242 | from every state of every run, an open flow that is not being closed can come, by enabled steps of its own that no other flow notices and that lose nothing, to a live socket that reads it, at the server to which it was on its way or at which it was, with its rule, if any, unlocked and naming that server |
| HandoffLiveness.AttendedHears | switch/src/cpp/prism_switch.bpf.c:397-446 | in every run, what the peer sends on a flow that is read passes the switch and is received, and nothing else changes |
| HandoffLiveness.AttendedSpeaks | switch/src/cpp/prism_switch.bpf.c:357-395 | in every run, what the socket of such a flow sends to the peer passes the switch |
| HandoffLiveness.FlowCanEnd | src/phttp_hoproto_close2.cpp:19-81 | from every state of every run, a flow's own steps can remove the flow and its rule |
| HandoffLiveness.DetachedIsReached | src/phttp_hoproto_export2.cpp:176-197 | for every peer that is no server, some run comes to a detached flow with its rule |
| HandoffLiveness.LockTwiceOpens | switch/src/cpp/prism_switch.bpf.c:235-268 | for every such peer, some run comes to an applied LOCK that opens the flow if it is applied again |
| HandoffLiveness.ChownTwiceShuts | switch/src/cpp/prism_switch.bpf.c:198-233 | and some run to an applied CHOWN that shuts the imported flow if it is applied again |
| HandoffDestination.GoesWhereAsked | src/phttp_hoproto_export2.cpp:63-105 | in every run, the record that holds an open flow is on its way to the server that the last handoff or forward of the flow named, or an imported socket at that server, or a socket that was never handed off at the server that the peer connected to |
| HandoffDestination.HandoffGoesToDest | src/phttp_hoproto_export2.cpp:200-242 | from any handoff in any run on, until the flow is handed off, sent on or opened again, its message names the server that was asked for, and an imported socket is there |
| HandoffDestination.HandoffReaches | src/phttp_hoproto_export2.cpp:200-242 | and the flow's own steps can bring it to a socket of that server that reads it, with all that had been delivered |
| Cluster.Cluster.PhttpStartHandoff | src/phttp_hoproto_export2.cpp:200-242 | asks for ADD with the lock, or for LOCK on an imported connection, as one step of the machine |
| Cluster.Cluster.AfterClose | src/phttp_hoproto_export2.cpp:165-174 | waits for the kernel to close |
| Cluster.Cluster.AfterRealClose | src/phttp_hoproto_export2.cpp:63-105 | sends the snapshot and forgets the socket |
| Cluster.Cluster.PhttpOnHandoff | src/phttp_hoproto_import2.cpp:220-302 | imports up to status 500, passes the state on for 600 |
| Cluster.Cluster.ContinueImport | src/phttp_hoproto_import2.cpp:144-178 | the imported record has the server's own address, and CHOWN with unlock is queued |
| Cluster.Cluster.ForwardProtoStates | src/phttp_hoproto_import2.cpp:179-218 | the state goes on unchanged |
| Cluster.Cluster.OnRecv | switch/src/cpp/prism_switch_client.cpp:58-84 | a reply runs the callback of its request and drops it |
| Cluster.Cluster.Configure | switch/src/cpp/prism_switch.bpf.c:305-355 | a datagram at the switch as one step of the machine |
| Cluster.Cluster.PhttpStartClose | src/phttp_hoproto_close2.cpp:69-81 | closes, imported or not |
| Cluster.Cluster.AfterCloseImported | src/phttp_hoproto_close2.cpp:51-59 | waits for the kernel to close |
| Cluster.Cluster.AfterRealCloseImported | src/phttp_hoproto_close2.cpp:19-50 | DELETE is queued and nothing of the flow stays |
| HttpScan.CompareRanges | src/extern/picohttpparser.c:117 | the least index in a 16-byte block whose byte is in a range, or 16 |
| HttpScan.FindCharFast | src/extern/picohttpparser.c:107-134 | skips only bytes outside the ranges, and stops, if it says so, on one inside |
| HttpScan.RangesMeanClasses | src/extern/picohttpparser.c:61-150 | the range tables for tokens and values are exactly the bytes that end one |
| HttpScan.NameRangesMean | src/extern/picohttpparser.c:291-306 | the range table for names is the bytes that end a name, and two that do not |
| HttpScan.AdvanceToken | src/extern/picohttpparser.c:69-96 | either build returns the bytewise result |
| HttpScan.SkipByEights | src/extern/picohttpparser.c:151-177 | the unrolled loop passes over no byte that ends a value |
| HttpScan.GetTokenToEol | src/extern/picohttpparser.c:136-201 | either build returns the bytewise result |
| HttpScan.ParseHeaderLine | src/extern/picohttpparser.c:287-342 | names, continuation lines, blanks before and behind the value, as the grammar has them |
| HttpScan.ParseHeaders | src/extern/picohttpparser.c:269-345 | the header loop returns what the recursive definition does, with its limit on the number of headers |
| HttpScan.ParseHttpVersion | src/extern/picohttpparser.c:250-267 | nothing is decided before nine bytes are there |
| HttpScan.HeadersAgree | src/extern/picohttpparser.c:269-345 | a result on a prefix is final, and an accepted list needs no byte behind it |
| HttpScan.HeadersWhole | src/extern/picohttpparser.c:269-345 | in accepted headers every CR is followed by LF, and they end with an empty line behind a line end |
| HttpText.FieldsRead | src/extern/picohttpparser.c:269-345 | printed fields are read back name by name and value by value, consuming exactly their text (section 3.2 of RFC 7230) |
| HttpText.HeadersAreFields | src/extern/picohttpparser.c:269-345 | whatever is accepted has token names, control-free trimmed values, and at most the maximal number of fields |
| HttpAscii.NameBytesAre | src/extern/picohttpparser.c:98-105 | the bytes of a name are the digits, the letters and fifteen other characters, controls are those below 32 and 127, and a value may have tabs |
| HttpAscii.OneByteName | src/extern/picohttpparser.c:287-342 | a header line whose name is one byte is accepted if and only if that byte is a digit, a letter or one of those characters, whatever value follows, and is an error otherwise |
| HttpAscii.OneByteToken | src/extern/picohttpparser.c:69-96 | a token ends at a space and must have no control |
| HttpAscii.OneByteValue | src/extern/picohttpparser.c:136-201 | a value ends at a line end, must have no control but tabs, and loses the blanks behind it |
| HttpAscii.RequestRead | src/extern/picohttpparser.c:347-383 | every request written as text, with any method, path, minor version and fields, is read as written, up to its last byte |
| RequestParser.FullParseAgree | src/extern/picohttpparser.c:347-411 | -1 and success on a prefix are final with the same offsets on every longer buffer, and success needs no byte behind the head |
| RequestParser.CompleteFinds | src/extern/picohttpparser.c:203-229 | from any start before the last line end, the shortcut finds the end of text with whole lines and an empty line |
| RequestParser.CompleteFound | src/extern/picohttpparser.c:203-229 | and it finds nothing but an empty line |
| RequestParser.IncrementalStep | src/extern/picohttpparser.c:401-410 | one call accepts exactly what the full parser accepts, and rejects only what no longer buffer makes acceptable |
| RequestParser.SameBoundary | src/http.cpp:154-164 | for every way of cutting a request into reads, the incremental parser accepts after the same read and with the same offsets as the full one, and rejects nothing acceptable |
| RequestParser.IsComplete | src/extern/picohttpparser.c:203-229 | the loop computes the shortcut from three bytes before the last read |
| RequestParser.ParseRequestLine | src/extern/picohttpparser.c:361-380 | method, path and version line |
| RequestParser.ParseRequest | src/extern/picohttpparser.c:347-383 | the full parser, after an optional empty line, in either build |
| RequestParser.PhrParseRequest | src/extern/picohttpparser.c:385-411 | shortcut and full parser together, in either build |
| RequestParser.HttpParseRequest | src/http.cpp:154-164 | passes the length before the last read, and 16 headers |
| RequestParser.OnAlloc | src/phttp_server.cpp:63-81 | room for at least 1024 bytes before every read, nothing lost |
| RequestParser.OnRead | src/phttp_server.cpp:183-221 | one read appended to the buffer and parsed, or passed over if it brings nothing |
| RequestParser.OnReads | src/phttp_server.cpp:63-221 | the reads of a connection, each within the room it is offered, until a call does not ask for more, are those of SameBoundary, whether or not the buffer grows in between |
| RequestLanguage.Accepted | src/extern/picohttpparser.c:347-383 | every request, with or without an empty line before it, bare line feeds, blanks around values and folded lines, is read back: method, target, version, every name and value, up to its last byte |
| RequestLanguage.OnlyRequests | src/extern/picohttpparser.c:347-383 | and nothing else is: the bytes that an accepted parse consumes are the text of such a request with at most max header lines |
| RequestLanguage.LinesRead | src/extern/picohttpparser.c:269-345 | header lines are read name by name and value by value, and folded lines without a name |
| RequestLanguage.LinesOf | src/extern/picohttpparser.c:269-345 | an accepted header list is the text of such lines |
| RequestPartial.CompletableExactly | src/extern/picohttpparser.c:347-411 | for every input, some continuation is accepted if and only if the result is not -1 and neither of the two errors that are noticed late has been made |
| ResponseParser.RoundTrip | src/phttp_server.cpp:115-181 | the parser consumes exactly the printed head and returns status, reason, Server, Content-Length and the user's headers in order, if and only if the status has three digits, the reason is free of controls, the headers are well formed and there is room for two more |
| ResponseParser.PrintableIsUndone | src/extern/picohttpparser.c:413-469 | the forward half, whatever follows the head |
| ResponseParser.UndoneIsPrintable | src/extern/picohttpparser.c:413-469 | the backward half, from what the parser accepts |
| ResponseParser.LineFeedEndsHead | src/apps/kvs/phttp_kvs_backend.cpp:128-129 | the 405 response is cut off behind its reason and read without headers |
| ResponseParser.DecimalThree | src/phttp_server.cpp:134-137 | three digits are printed exactly from 100 to 999 |
| ResponseParser.ParseStatusLine | src/extern/picohttpparser.c:413-440 | version, three digits and reason |
| ResponseParser.PhrParseResponse | src/extern/picohttpparser.c:445-469 | shortcut and full parser together, in either build |
| ResponseParser.SendHttpRes | src/phttp_server.cpp:115-162 | the buffer holds the head, if it fits as the assertions demand |
| ResponseParser.PrintHeaders | src/phttp_server.cpp:146-155 | the header loop |
| ResponseAscii.HeadIs | src/phttp_server.cpp:115-162 | the printed head is the status line, the fields Server and Content-Length and the handler's own in their order, and an interim one the status line alone |
| ResponseAscii.DecimalIs | src/phttp_server.cpp:134-144 | a number is printed in decimal digits, without a leading zero |
| ResponseAscii.CStringIs | src/phttp_server.cpp:134-155 | a string is printed up to its first NUL |
| ChunkedDecoder.RunAppend | src/extern/picohttpparser.c:514-627 | a call that asked for more goes on where it was; any other result stands whatever follows |
| ChunkedDecoder.Fragmentation | src/extern/picohttpparser.c:514-627 | over every fragmentation the data, the verdict and the bytes left over are those of one call |
| ChunkedDecoder.RunValid | src/extern/picohttpparser.c:521-541 | the size stays below 16 to the number of digits, and so within 64 bits |
| ChunkedLanguage.Accepted | src/extern/picohttpparser.c:519-626 | every chunked message in the form of section 4.1 of RFC 7230 whose sizes have at most sixteen digits, whatever its extensions, trailers and number of CRs, is decoded to the concatenated data of its chunks with the bytes behind it left over, with trailer consumption or without |
| ChunkedLanguage.OnlyMessages | src/extern/picohttpparser.c:519-626 | and nothing else is: whatever completes the decoder is the text of such a message, and the data that came out is its data |
| ChunkedLanguage.ErrorMeansHopeless | src/extern/picohttpparser.c:514-627 | -1 is returned if and only if no continuation of the input is a message |
| ChunkedLanguage.CompletionCompletes | src/extern/picohttpparser.c:519-618 | from every state between two calls the message can still be completed |
| ChunkedAscii.DigitsMean | src/extern/picohttpparser.c:501-512 | a byte stands for a number if and only if it is its hexadecimal digit, in either case |
| ChunkedAscii.PiecesDecoded | src/extern/picohttpparser.c:519-626 | any chunks written with at most sixteen hexadecimal digits for each size are decoded to their data, and the result is the number of bytes behind them |
| ChunkedAscii.SizeEnds | src/extern/picohttpparser.c:521-560 | a size ends at the first byte that is no digit, whatever stands between it and the line feed |
| ChunkedAscii.NoSize | src/extern/picohttpparser.c:521-541 | where a size must be, every byte that is no digit is an error |
| ChunkedAscii.SizeTooLong | src/extern/picohttpparser.c:536-539 | a seventeenth digit is an error |
| ChunkedAscii.ReturnCodesMean | src/extern/picohttpparser.c:514-627 | -1 if and only if no continuation completes a message, -2 if and only if one does but the input does not, and otherwise the number of bytes behind the message |
| ChunkedDecoder.ChunkedDecoder.Decode | src/extern/picohttpparser.c:514-627 | in place: the data in front, what follows the message behind it, the bytes beyond untouched, and the return code |
| ChunkedDecoder.ChunkedDecoder.Advance | src/extern/picohttpparser.c:519-618 | one pass of the switch copies to at most where it has read, and leaves unread bytes alone |
| ChunkedDecoder.ChunkedDecoder.ReadSize | src/extern/picohttpparser.c:521-541 | hexadecimal digits, at most sixteen |
| ChunkedDecoder.ChunkedDecoder.SkipExt | src/extern/picohttpparser.c:543-560 | to the end of the size line, and what a size of zero means |
| ChunkedDecoder.ChunkedDecoder.CopyData | src/extern/picohttpparser.c:562-577 | as much of the chunk as is there |
| ChunkedDecoder.ChunkedDecoder.SkipCrlf | src/extern/picohttpparser.c:580-593 | the line end behind a chunk |
| ChunkedDecoder.ChunkedDecoder.SkipTrailerHead | src/extern/picohttpparser.c:594-603 | the start of a trailer line, or the end of the message |
| ChunkedDecoder.ChunkedDecoder.SkipTrailerLine | src/extern/picohttpparser.c:605-614 | the rest of a trailer line |
| Memory.Memmove | src/extern/picohttpparser.c:566-624 | memmove to the front, overlapping or not |
| Poly1305Arithmetic.AbsorbCongruent | src/extern/tlse.c:638-652 | one round is (h + m) * r modulo 2^130 - 5 |
| Poly1305Arithmetic.AbsorbReduced | src/extern/tlse.c:645-652 | the limb bounds hold again after every block |
| Poly1305Bytes.BlockValue | src/extern/tlse.c:631-636 | the overlapping shifted loads are the block as a little-endian number |
| Poly1305Bytes.KeyValue | src/extern/tlse.c:581-586 | the masked loads are the clamped r of section 2.5.1 of RFC 8439 |
| Poly1305Bytes.FullCarryCanonical | src/extern/tlse.c:689-694 | after the final carry no limb passes 26 bits |
| Poly1305.Column64Exact | src/extern/tlse.c:638-643 | the 64-bit accumulators never overflow |
| Poly1305.Round | src/extern/tlse.c:630-656 | one block in 64-bit words |
| Poly1305.SubtractPrime | src/extern/tlse.c:696-715 | the masked selection, whatever the borrow |
| Poly1305.Pack | src/extern/tlse.c:717-721 | the low 128 bits in four words |
| Poly1305.AddPad | src/extern/tlse.c:723-732 | the sum with the pad modulo 2^128 |
| Poly1305.FinalLimbsCongruent | src/extern/tlse.c:672-680 | with the padded short block in, the limbs are the polynomial of section 2.5 of RFC 8439 modulo 2^130 - 5 |
| Poly1305.Poly1305Context.constructor | src/extern/tlse.c:578-603 | the state for an empty message |
| Poly1305.Poly1305Context.Blocks | src/extern/tlse.c:605-663 | whole blocks, with or without the high bit |
| Poly1305.Poly1305Context.Update | src/extern/tlse.c:751-784 | limbs and leftover bytes are a function of all bytes so far, however they were cut |
| Poly1305.SameBytesSameState | src/extern/tlse.c:751-784 | two contexts that took the same bytes in different pieces are in the same state |
| Poly1305.Poly1305Context.Finish | src/extern/tlse.c:665-749 | the tag of section 2.5 of RFC 8439 for every key and message, and the state is wiped |
| Poly1305Vector.TagIs | src/extern/tlse.c:578-749 | the specification gives the tag published in section 2.5.2 of RFC 8439 |
| TlsPacket.TLSPacket.Append | src/extern/tlse.c:3943-3964 | the packet grows by exactly the data |
| TlsPacket.TLSPacket.Uint16 | src/extern/tlse.c:3970-3973 | two bytes in network order |
| TlsPacket.TLSPacket.Uint24 | src/extern/tlse.c:3980-3989 | three bytes in network order, of the low 24 bits |
| TlsPacket.TLSPacket.Uint32 | src/extern/tlse.c:3975-3978 | four bytes in network order |
| TlsPacket.TLSPacket.Update | src/extern/tlse.c:3711-3743 | the 16-bit length, modulo 2^16 |
| TlsCode.TLSContext.Export | src/extern/tlse.c:9466-9582 | the serialised form, its size, 0 for a context that cannot be exported, or the negated lack of room |
| TlsCode.TLSContext.Import | src/extern/tlse.c:9787-9982 | accepts, rejects or overruns exactly as the decoder says, and on acceptance has its fields |
| TlsCode.TLSContext.SetUpCiphers | src/extern/tlse.c:9829-9874 | IVs into the shared memory, keys to the ciphers, in a server's or a client's order |
| TlsCode.TLSContext.ImportMac | src/extern/tlse.c:9877-9910 | MAC keys or ChaCha20 states |
| TlsRoundTrip.ImportOfExport | src/extern/tlse.c:9787-9982 | import of an export is accepted if and only if the length fits, and field by field what it becomes |
| TlsRoundTrip.Hop | src/extern/tlse.c:9466-9582 | version, cipher, role, IVs, keys, MACs, sequence numbers, buffers and DTLS epochs are restored if and only if the directions are kept, which every server context does, and then the next export is the same bytes |
| TlsRoundTrip.ClientDirectionsSwap | src/extern/tlse.c:9829-9874 | after a hop, a client context in CBC or GCM has the two directions exchanged |
| TlsRoundTrip.ClientContextIsLost | src/extern/tlse.c:9466-9582 | there are exportable client contexts that a hop accepts and does not restore |
| TlsRoundTrip.ManyHops | src/phttp_hoproto_import2.cpp:122-143 | any number of hops of a context of at most 0xFFFF bytes changes nothing |
| TlsSuites.GcmHop | src/extern/tlse.c:2642-2710 | for each of the eight GCM suites by number, a hop of a server context leaves GCM, both keys, both four-byte salts and the rest of the session |
| TlsSuites.ChaChaHop | src/extern/tlse.c:9877-9910 | for the three ChaCha20 suites, both states and both twelve-byte nonces |
| TlsSuites.CbcHop | src/extern/tlse.c:9861-9895 | for each CBC suite by the size of its MAC, both keys, both running IVs and both whole MAC keys |
| TlsSuites.GcmText | src/extern/tlse.c:9466-9582 | which bytes stand where in the export of a GCM server context |
| TlsSuites.ChaChaText | src/extern/tlse.c:9466-9582 | the same for ChaCha20, with both states word by word |
| TlsSuites.CbcText | src/extern/tlse.c:9466-9582 | the same for CBC, with both MAC keys |
| TlsOverrun.OverrunExactly | src/extern/tlse.c:9787-9982 | whatever the context and the stack, the import reads beyond the buffer if and only if the keys are accepted and end where the buffer ends, or a counted field that is reached has a length with its top bit set |
| TlsOverrun.KeysFillBuffer | src/extern/tlse.c:9877 | a GCM buffer that ends with its keys is one |
| TlsOverrun.LengthIsNegative | src/extern/tlse.c:9931-9943 | a GCM buffer whose first counted length is 2 to the 31 is one |
| TlsAccepted.AcceptedExactly | src/extern/tlse.c:9787-9982 | whatever the context and the stack, exactly which buffers the import accepts, in numbers of bytes |
| TlsStream.RecordsConserve | src/extern/tlse.c:9393-9428 | records and kept bytes together are the input; less than a largest record is kept |
| TlsStream.RecordsAppend | src/extern/tlse.c:9393-9412 | parsing goes on where it left off |
| TlsStream.Fragmentation | src/extern/tlse.c:9350-9429 | for every fragmentation the same records in order, the same context and kept bytes, and the same first error as in one call |
| TlsStream.RecordsAsSent | src/extern/tlse.c:9393-9412 | the parser is handed the records that were sent, whose length has its high byte first, up to the first with which it is not content |
| TlsStream.OneRecord | src/extern/tlse.c:9350-9429 | a call that brings one record returns the parser's error, or -13 for a critical one, and from then on every call returns -13 |
| TlsStream.TLSConnection.ConsumeStream | src/extern/tlse.c:9350-9429 | one call: records to the parser, the suffix kept, the return value |
| TlsStream.TLSConnection.ParseRecords | src/extern/tlse.c:9393-9412 | the loop, which ends because every record has five bytes |
| KvsRepl.Backend.Handle | src/apps/kvs-repl/phttp_kvs_repl_backend.cpp:39-145 | reply and store for every method, and the round robin of unimported requests |
| KvsRepl.Proxy.Handle | src/apps/kvs-repl/phttp_kvs_repl_proxy.cpp:20-44 | GETs go round, PUTs to the head of the chain |
| KvsRepl.ChainLag | src/apps/kvs-repl/phttp_kvs_repl_backend.cpp:90-119 | in every run, worker by worker, a successor's history and the PUTs in flight are a subsequence of the server's, and all of it if no write failed |
| KvsRepl.SingleWorkerLag | src/apps/kvs-repl/phttp_kvs_repl_backend.cpp:90-119 | with one worker and no failed write, a server's history is its successor's followed by the PUTs in flight, and so are the stores |
| KvsRepl.Prefixes | src/apps/kvs-repl/phttp_kvs_repl_backend.cpp:90-119 | histories down the chain are prefixes of those before |
| KvsRepl.AcknowledgedMeansReplicated | src/phttp_hoproto_import2.cpp:289-301 | a 200 to a PUT is sent only after every server has applied it, with the path and value submitted under its id, failures or not |
| KvsRepl.GetReadsHistory | src/apps/kvs-repl/phttp_kvs_repl_backend.cpp:55-86 | a GET returns the last PUT of its path in the server's history |
| KvsRepl.Answers | src/apps/kvs-repl/phttp_kvs_repl_backend.cpp:39-145 | status and new store of every method, with and without a body, and whatever the database reports |
| KvsRepl.GetAfter | src/apps/kvs-repl/phttp_kvs_repl_backend.cpp:39-145 | a GET after one more request: the body of a PUT of the path, nothing after its DELETE, and otherwise what it was |
| ChainAgreement.AgreementExactly | src/apps/kvs-repl/phttp_kvs_repl_backend.cpp:90-119 | for every set of submitted PUTs and every length of the chain: after every run without failed writes and with nothing in flight all servers agree on a path, if and only if there is no second server or no two of the PUTs write different values to the path through different workers |
| ChainAgreement.StoresAgree | src/apps/kvs-repl/phttp_kvs_repl_backend.cpp:90-119 | without such rivals, all servers answer alike for the path |
| ChainAgreement.StoresDiverge | src/apps/kvs-repl/phttp_kvs_repl_backend.cpp:90-119 | with two rivals among any PUTs, some run acknowledges both and leaves the head with the one value and every other server with the other |
| Jhash.MixIsReversible | src/apps/kvs/jhash.h:5-13 | every round of mixing can be undone, so that different states stay different |
| Jhash.MaskedLoad | src/apps/kvs/jhash.h:49-64 | masking a word drops exactly the bytes behind the key |
| Jhash.HashByWords | src/apps/kvs/jhash.h:36-64 | the 4-aligned branch gives the hash of the key |
| Jhash.HashByHalves | src/apps/kvs/jhash.h:66-109 | the 2-aligned branch gives the hash of the key |
| Jhash.HashByBytes | src/apps/kvs/jhash.h:111-150 | the bytewise branch gives the hash of the key |
| Jhash.JenkinsHash | src/apps/kvs/jhash.h:28-154 | the value depends on the key alone, not on its address or on the bytes around it |
| JhashVector.HashIs | src/apps/kvs/jhash.h:28-154 | the hash has the value that is published for a key of thirty bytes |
| JhashVector.ShardIs | src/apps/kvs/phttp_kvs_proxy.cpp:20-35 | and so the fourth of five back ends serves that key |
| ShardedKvs.Proxy.Handle | src/apps/kvs/phttp_kvs_proxy.cpp:20-35 | equal paths go to the same of at most five back ends |
| ShardedKvs.StepRefines | src/apps/kvs/phttp_kvs_backend.cpp:46-126 | a request does to the union of the shards what it does to one map, with the same answer |
| ShardedKvs.ShardedRefinesSingle | src/apps/kvs/phttp_kvs_proxy.cpp:25-31 | after every history every path is where it hashes to, and the shards together are the one map |
| ShardedKvs.GetReturnsLastPut | src/apps/kvs/phttp_kvs_backend.cpp:46-126 | a GET returns the last PUT of its path that no DELETE follows, or 404 |
| ShardedKvs.Serve | src/apps/kvs/phttp_kvs_proxy.cpp:20-35 | proxy and back end objects make that step |
| Membuf.Membuf.Grow | src/include/membuf.h:40-53 | the contents and the last read survive, with exactly the asked room |
| Membuf.Membuf.Consume | src/include/membuf.h:74-85 | moves both marks, or fails and changes nothing |
| Membuf.Membuf.Reset | src/include/membuf.h:55-60 | empties the buffer and keeps the memory |
| Framing.WriteFrame | src/phttp_hoproto_export2.cpp:84-101 | header, padding to a multiple of eight, payload |
| Framing.Delivery | src/phttp_handoff_server.cpp:126-158 | for any frames and any reads: the payloads of the whole frames in order and the rest kept, if and only if no read has ended with payload and padding bytes of a frame there, or up to three more; otherwise a payload is taken beyond what has arrived |
| Framing.LastFourBytes | src/phttp_handoff_server.cpp:126-158 | a read that breaks a single frame makes the loop overrun if and only if the frame is not empty and the read ends in the last four positions before its end |
| Framing.AllDelivered | src/phttp_handoff_server.cpp:126-158 | safe reads of the whole stream deliver every payload |
| Framing.HandoffConnection.OnRead | src/phttp_handoff_server.cpp:103-159 | one read: frames delivered, the broken one moved to the front |
| Framing.HandoffConnection.Deliver | src/phttp_handoff_server.cpp:126-153 | the loop with its test as written |
| Framing.HandoffConnection.OnAlloc | src/phttp_handoff_server.cpp:55-66 | at least 1024 bytes of room, nothing lost |
| TcpQueue.RestoreSends | src/tcp_export.cpp:322-368 | whatever send does, a prefix is taken; all of it means success; success means all of it unless errno was 0 |
| TcpQueue.SuccessMeansSent | src/tcp_export.cpp:358 | success means everything sent, for every behaviour of send, if and only if errno is not 0 at the call |
| TcpQueue.NeverSilent | src/tcp_export.cpp:337-359 | if send takes something of every chunk that is not empty or sets errno, success means everything sent whatever errno was |
| TcpQueue.SmallChunksSuffice | src/tcp_export.cpp:337-359 | if send takes something of every chunk of at most 1024 bytes, everything is sent |
| TcpQueue.SmallRefusalIsFinal | src/tcp_export.cpp:337-359 | and a chunk of at most 1024 bytes that is refused is not tried again |
| TcpQueue.Socket.SendAll | src/tcp_export.cpp:322-368 | the loop, ending because each turn sends something or halves the chunk |
| TcpQueue.Socket.SetRecvQueue | src/tcp_export.cpp:389-396 | the receive queue, or a prefix of it with an error |
| TcpQueue.Socket.SetSendQueue | src/tcp_export.cpp:398-437 | sent and unsent part are the queue, in order, on success; prefixes on failure |

## Left out

- libuv handles, timers, socket set-up, TCP repair and kTLS socket options, eventfd monitoring and signal handling: only the order of callbacks is modelled, and what the kernel does is a parameter.
- The older handoff files are not in the build.
- Protobuf encoding is an exact inverse pair: a frame's payload stands for the message.
- Configuration datagrams shorter than their request, the UDP checksum of the reply, a full rule table, and the layer-2 lookup.
- Switch.PacketContext.Lookup: only the TCP part of the lookup, on the fields that it reads or writes.
- The timer of the switch client, which sends a request again without end until it is answered: a datagram waits until it is applied, and repetitions are as the hypotheses above say.
- TLS handshake, record encryption, TLS 1.3, certificates and the foreign ciphers; libtomcrypt accepts AES keys of 16, 24 or 32 bytes, and the message parser is any function of a state and a record.
- TlsCode.TLSContext.Import: after a rejection the fields are left half filled, and after reading beyond the buffer nothing is said.
- TlsCode.TLSContext.Export: for contexts in the shape that key expansion and import leave, and packets below 2 GB; failing allocations are not modelled.
- tls_import_context, which the program does not call.
- RequestParser.PhrParseRequest: on failure the source also leaves the headers read so far behind.
- RequestParser.OnRead: what follows a parsed head, receiving a body and handling the request, and the closing of the connection after an error.
- Framing.HandoffConnection.OnRead: after an overrun nothing is said, and the closing of the connection after an error of a read is not modelled.
- TlsPacket.TLSPacket.Append: a failing reallocation, and a packet that is broken already.
- TlsPacket.TLSPacket.Update: only packets without a context, as export makes them.
- Positioning of a request body behind the head, header lookup, and export of the HTTP request record.
- ChunkedDecoder.ChunkedDecoder.Decode: the state that the source asserts to be impossible does not exist here.
- Jhash.JenkinsHash: the variant for big-endian machines; memory is whole aligned words, as the word loads need.
- KvsRepl.Backend.Handle: the Connection header of the DELETE response, and the body buffer of a GET response; database errors are a parameter of each call.
- KvsRepl.ChainLag: DELETE requests are not part of the runs of the chain, since only the server that gets one applies it.
- Poly1305.Poly1305Context.Update: the message is a sequence and the buffer an array, so that a message that overlaps the context's own buffer is not modelled.
- TcpQueue.Socket.SetSendQueue: leaving and entering repair mode is asserted to succeed in the source, and always does here.
