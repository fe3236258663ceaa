# icom: a verified model

`icom` passes messages between programs over TCP links that are opened from one configuration string
such as `socket_tx|zero,autonotify|127.0.0.1:[3210-3213]`. This project models its three demanding
parts in Dafny and proves what they are for:

* the **link protocol** of `icom/src/link_socket.c`: framing, reassembly from short reads, the receive
  state that is refreshed only when the announced size changes, acknowledgements, zero copy;
* the **configuration parser**: `icom/src/string_parser.c`, `icom/src/icom_flags.c`, the type table and the
  way `icom_init` puts them together;
* the **communication object** of `icom/src/icom.c`: an array of links that are opened with rollback, used in
  loops, walked without a cursor by `icom_nextBuffer`, and closed.

## How it is laid out

| module | contents |
|---|---|
| `Sequences` | how sequences concatenate and split |
| `Wire` | words, pointers and the 12-byte header as bytes |
| `FlagBits` | flags and the kind of notification they switch on |
| `MessageStream` | frames, one receive as a function of state and bytes, framing, the size-change shortcut |
| `LinkProtocol` | one sender and one receiver as an interleaved step system over two byte pipes |
| `ZeroCopy` | that system with the sender's memory: buffers in use are not overwritten |
| `Network` | several autonotify links with the loops of `icom_send` and `icom_recv3`: barrier, progress, blocking |
| `SharedBuffers` | zero copy over several of these links that share one memory |
| `NotifyNetwork`, `NotifyBuffers` | the same two with manual notification: `icom_notify_recv` and `icom_notify_send` in their loops |
| `LinkSocket` | class `Link`: one link end, its handlers as methods over its fields |
| `HandlerSteps` | the step system and the handlers of `Link` are the same protocol |
| `RoundTrip` | a message from what `icom_send` was given to what `icom_recv` gives |
| `Retries` | calls that time out before they consumed a byte |
| `OperatingSystem` | class `Host`: descriptors and heap blocks, every call free to fail |
| `Icom` | class `Icom`: init with rollback, send, receive, notify, next buffer, deinit |
| `Traversal` | the buffer walk as a function, for any number of links |
| `Text`, `Decimal` | searching in strings; `%d` |
| `StringParser` | the two scanners as loops over an array, and the functions they compute |
| `Endpoints` | the endpoint notation: syntax tree, printer, meaning; the parser against it |
| `Documented` | the configuration strings of the documentation and the tests, spelled out |
| `Fields`, `FlagNames`, `Configuration` | fields, flag names, `type\|flags\|endpoints` |

Imperative source is imperative here: loops are loops with invariants over arrays and fields, each method is
proved against a specification function, and the properties are lemmas about that function. The step systems
are values, so that statements about all interleavings are inductions over runs.

`dafny verify dfyconfig.toml` checks the whole project.

## Conventions

* TCP delivers a reliable, ordered byte stream (section 2.2 of RFC 9293). `recv` returns between one and
  the requested number of bytes, or fails or times out; a request for zero bytes returns none. A header or an
  acknowledgement is sent whole or not at all; a payload may be sent in part.
* `inbound` of a `Link` is everything its peer sends from now on, read or not; `outbound` is everything this end
  has sent.
* A send is given the buffer's address and contents. In the step systems the messages sent are smaller than
  2^31 bytes, and in zero-copy mode they announce at least the size of a pointer; `MessageStream` says what
  happens otherwise.
* C strings are sequences without a terminator; a pointer into a string is an index. `int` is 32 bits wide, and
  a number read by `%d` keeps its low 32 bits. The byte order is little-endian, a pointer has 8 bytes, an
  `icomLink_t` 96.
* System calls fail at any time; `faults` of a link records each failure and its kind, and the contracts say which
  status comes of which fault, and that there is none without one. `Setup` is what the initialisation of a link
  meets.
* Descriptor 0 is in use by the process, because the code takes `fdAccepted == 0` for "not connected".
* `Undefined`, `UndefinedConfig`, `Undetermined`, `Indeterminate`, `OutOfBounds` and `Overrun` mark executions
  that C does not define, and so does a `defined` that is false; `Misdirected` marks a call that goes to
  descriptor 0 instead of the link. They are results of the model, not preconditions of it.
* Allocating no memory at all succeeds, as it does in glibc. `granted` is the largest array of endpoint strings,
  in slots, that `malloc` grants.

## What the code does where its documentation says otherwise, or says nothing

* The traversal loop of the repository's `README.md` ends when its pointer becomes NULL. At the end of a walk
  `icom_nextBuffer` leaves the pointer on the last buffer (`Traversal.StaysAtEnd`); only its return value ends the
  walk. With links' own buffers the pointer never becomes NULL again (`DeepPointerNeverNull`), with zero copy it
  does exactly when a sender passed NULL and the walk gets as far as its link, provided no word in front of a
  received pointer looks like a link's address (`ZeroPointerNullExactly`).
* A zero-copy message that announces fewer than 8 bytes overruns the receive buffer, which is allocated by
  the announced size: framing holds exactly without such messages (`MessageStream.FramingExact`).
* The size-change shortcut differs from a receiver that reads every header in full exactly when the first
  message is empty and the two ends disagree on zero copy (`MessageStream.CacheExact`).
* `p[0-3,7]` and `[0-3]` are not rejected: the first leaves a slot of the array unset, the second uses a
  variable that `sscanf` never wrote, or, further back in a list, one that has been freed
  (`Endpoints.RangeThenNumberIsUndefined`, `NoPrefixIsUndefined`).
* The flat scan counts in an `int`, and so does the loop over a range, which counts one past its end. A list of
  the notation parses exactly when it is not the single empty entry, stands for at most INT_MAX strings and has
  no range that ends at INT_MAX (`Endpoints.PrintParse`); `p[2147483647-2147483647]` stands for one string, and its
  loop still counts past INT_MAX (`RangeToMaxIsUndefined`).
* A range with reversed bounds, such as `p[5-4]`, expands to nothing. If the bounds are reversed by one, the
  parse succeeds without a string, and `p[5-4],` gives one empty string; by more, the count is negative
  (`Endpoints.ReversedRange`, `ReversedInputs`). These two results are also the only ones that do not survive being joined and
  parsed again (`Endpoints.ParseNormalises`).
* So `socket_tx|default|p[5-4]` opens an object without links (`Configuration.NoConnection`). `icom_send`,
  `icom_recv3` and the notify functions then return `status[0]` of an empty array, which the model calls
  `Indeterminate`, and `icom_nextBuffer` reads a link that is not there.
* With autonotify, a receive that times out in its header has already sent its acknowledgement, and the retry
  sends another. Retries leave no trace, however the calls fare, exactly on links without automatic
  acknowledgement (`Retries.TracelessExactly`); a series of calls leaves none exactly if none of them timed out
  that late (`RetriesAgainstUndisturbed`), and otherwise the message in the receiver's hands has been
  acknowledged already (`HeldUnacknowledgedExactly`).
* Two programs joined by two or more autonotify links block each other for good: one sends from the first
  link, the other receives from the last (`Network.PairedLinksBlock`). They get everything planned done exactly
  if there is one link, or nothing is planned (`PairedCompletesExactly`).
* Under autonotify fan-in the last message on every link but the one being received from stays unacknowledged,
  so its send does not return: everything planned is done exactly if there is one link, or nothing is planned
  (`Network.FanInCompletesExactly`). With manual notification neither fan-in nor paired links block; whatever is
  planned equally for all links is done (`NotifyNetwork.NotifyCompletesExactly`).
* Independent senders that share a buffer can overwrite each other's messages while the receiver works on them,
  under autonotify as well as with manual notification; the guarantee holds exactly if no two share one
  (`SharedBuffers.FanInIntactExactly`, `NotifyBuffers.NotifyIntactExactly`).
* An item left out of a list, as in `p[1,,2]`, nothing in brackets, a negative number in brackets and a range
  without an end are not rejected but undefined (`Endpoints.EmptyItemIsUndefined`, `UnreadableInputs`).
* A send of no bytes can fail with everything sent, since its header is all there is; any other send that fails
  has left something out (`LinkSocket.Link.SendHandler`).
* `icom_notify_send` and `icom_notify_recv` neither accept nor connect. Before a link is connected they send to,
  and receive from, descriptor 0; the model calls that `Misdirected`, and the link's own bytes are untouched
  (`LinkSocket.Link.WriteAck`, `ReadAck`).
* The handler table has nine entries for ten concrete types, so a `zmq_rep` link reads past it; a configuration
  with fewer than three fields reads past the field array. `Icom.Init` gives `Undetermined` for both.
* `icom_send`, `icom_recv3` and the notify functions return the status of the first link only. The model keeps the
  others as ghost results and states what each means.
* The repository's `README.md` shows `icom_recv` on the sending side; the sending function is `icom_send`.

## Model

| member | source | states |
|---|---|---|
| Wire.HeaderRoundTrip | icom/inc/icom.h:30-36 | any header survives its way over the wire, all 32 flag bits included |
| Wire.PointerRoundTrip | icom/src/link_socket.c:152-154 | a pointer sent by a zero-copy link is the pointer received |
| Wire.Layout | icom/inc/icom.h:30-36 | the bytes of words, pointers and headers: least significant first, type before flags before size |
| MessageStream.FramesLaidOut | icom/src/link_socket.c:125-156 | two messages byte by byte, one copied and one that announces its size and sends its address |
| MessageStream.FramingExact | icom/src/link_socket.c:46-175 | as many receives as messages give exactly these messages and leave the stream at the next header, if and only if every zero-copy message announces at least the size of a pointer |
| MessageStream.ReceivesIdeal | icom/src/link_socket.c:87-122 | on any stream of frames the receiver delivers the messages up to the first that does not fit |
| MessageStream.IdealStops | icom/src/link_socket.c:79-80 | a series of receives that breaks off has delivered everything before the first message that does not fit, and stops there |
| MessageStream.CacheExact | icom/src/link_socket.c:77-83 | over a whole stream the shortcut is invisible if and only if there is no message, the first is not empty, or both ends agree on zero copy |
| MessageStream.CacheSeenByEmptyFirst | icom/src/link_socket.c:381-383 | in the remaining case the two receivers differ in the very first delivery |
| RoundTrip.SendThenReceive | icom/src/link_socket.c:87-175 | what a successful send was given, a successful receive of its bytes gives: the size of the buffer, and its address with zero copy or its contents otherwise; the receive can succeed exactly if the bytes are copied or the buffer has the size of a pointer |
| LinkProtocol.StepKeepsInv | icom/src/link_socket.c:46-282 | every step of either end keeps the account of the bytes in flight: what is unread, taken and still to be written is exactly the stream of the undelivered messages, and likewise for acknowledgements |
| LinkProtocol.BodyReadFlows | icom/src/link_socket.c:94-107 | whatever the short reads, the last read of a body completes exactly the next message and leaves the stream at the next header |
| LinkProtocol.TakeAckKeepsInv | icom/src/link_socket.c:217-246 | reading an acknowledgement piecemeal keeps the invariant and never reaches the branch for a value other than 1 |
| LinkProtocol.DirectionPurity | icom/src/link_socket.c:351-366 | with either kind of notification, in every run one direction carries a prefix of header-payload pairs and the other only acknowledgements; delivered is a prefix of sent, and neither error branch is reached (a plain link is modelled with one sending end) |
| LinkProtocol.AnyPartCanBeRead | icom/src/link_socket.c:58-71 | a read of a header, body or acknowledgement may stop after any number of bytes from one on |
| HandlerSteps.ReceiveCallRefines | icom/src/link_socket.c:261-272 | a receive taken apart into socket operations that comes to its end, in any interleaving with the sender, has the message, receive state, remaining bytes and acknowledgement that the handler's specification gives for one call, whether or not a handler call is assumed to succeed; one that leaves the buffer does so exactly where the specification says out of bounds |
| HandlerSteps.SendCallRefines | icom/src/link_socket.c:248-259 | a send taken apart into socket operations that returns has written exactly the frame of its message and taken one acknowledgement exactly under autonotify, whether or not a handler call is assumed to succeed; a handler call that succeeds on the same link end leaves it the same |
| HandlerSteps.NotifySendRefines | icom/src/link_socket.c:199-215 | an acknowledgement by request in the step system is the word that the handler writes |
| HandlerSteps.NotifyRecvRefines | icom/src/link_socket.c:217-246 | a wait taken apart into reads ends well exactly on an acknowledgement, and a call of the handler on the same link end succeeds exactly if it took the same bytes |
| HandlerSteps.NewEnds | icom/src/link_socket.c:494-516 | link ends just initialised are the ends of a new pair of the step system |
| ZeroCopy.HeldBufferIntact | README.md:105-141 | under notify (used as documented) or autonotify, in every interleaving, the buffer the receiver holds has the contents of the message sent, the sender cannot reach it, and acksReceived <= acksSent <= received <= sent <= acksReceived + 1 |
| ZeroCopy.IntactExactlyWithNotification | README.md:106-106 | a zero-copy buffer in use is safe in all interleavings if and only if some notification is switched on |
| ZeroCopy.PlainOverwrites | README.md:106-107 | without notification there is an interleaving in which the buffer in use is overwritten |
| ZeroCopy.MemoryIsLastWritten | README.md:105-107 | after any history the memory holds what the last fill of each address wrote |
| ZeroCopy.FillableExactly | README.md:127-141 | with notification a sender can fill a buffer exactly when it is in its own code and everything it sent has been acknowledged |
| ZeroCopy.StepKeepsSystemInv | icom/src/link_socket.c:248-282 | every step, and every time the sending program fills a buffer, keeps the unacknowledged message's buffer as it was sent |
| ZeroCopy.StepKeepsLockstep | icom/src/link_socket.c:274-282 | the counts of sends, receives and acknowledgements are tied to where both ends stand, at every step |
| SharedBuffers.FanOutBuffersIntact | icom/src/icom.c:210-220 | one zero-copy autonotify sender with many links: in every interleaving each receiver's buffer is as it was sent while it works on it; receivers have their turns one at a time, and the sender is then inside icom_send and can fill no buffer |
| SharedBuffers.FanInBuffersIntact | icom/src/icom.c:239-255 | one receiver on many zero-copy links whose senders share no buffer: every buffer held is as it was sent and its sender cannot fill it; between two icom_recv3 this holds for all links, each at the same number of messages |
| SharedBuffers.FanInIntactExactly | icom/src/icom.c:239-255 | over all plans that use the senders' buffers and all histories, the receiver's buffers stay intact if and only if no two senders share a buffer |
| SharedBuffers.MemoryIsLastFill | README.md:105-107 | after any history on any number of links the memory holds what the last fill of each address wrote |
| SharedBuffers.FanOutCanRefill | icom/src/icom.c:210-220 | a single sender gets to a state in which everything is acknowledged and it can fill any buffer anew |
| NotifyBuffers.NotifyBuffersIntact | README.md:105-141 | with manual notification over several links, for ends of one program or of several: in every interleaving each buffer held is as it was sent, its sender cannot fill a buffer before every holder has acknowledged, and a single receiver holds the buffers of all links from icom_recv3 to icom_notify_send |
| NotifyBuffers.NotifyIntactExactly | README.md:105-141 | over all plans and histories the buffers held stay intact if and only if the sending ends belong to one program or no two senders share a buffer |
| NotifyBuffers.RoundMemoryIsLastFill | README.md:105-107 | the same of the memory under manual notification |
| NotifyBuffers.NotifyCanRefill | README.md:127-137 | a sender gets to a state in which everything is acknowledged and it can fill its buffers anew |
| Network.FanInIsBarrier | icom/src/icom.c:239-255 | with one receiver on many autonotify links, in every reachable state a higher link has completed as many sends, and as many receives, as a lower one, or one more; and the sends begun by any two senders differ by at most one |
| Network.FanOutCompletesExactly | icom/src/icom.c:210-220 | with one autonotify sender on many links, for any plan, no run is longer than a bound fixed at its start, and where nobody can move everything planned is sent, acknowledged and delivered if and only if the links were planned for in turn |
| Network.FanOutCompletes | icom/src/icom.c:210-220 | in particular, if every link is to carry equally many messages, all sends return and all messages are delivered in order |
| Network.FanInStops | icom/src/icom.c:245-250 | under fan-in nobody can move only if the sender the receiver waits for has sent all it had; in detail, if all had equally many messages, all are delivered, and every sender but the last link's still lacks its last acknowledgement |
| Network.FanInCompletesExactly | icom/src/icom.c:239-255 | for any plan, where an autonotify fan-in can go no further everything planned is done if and only if there is one link or nothing is planned; every other link than the one being received from lacks the acknowledgement of its last message |
| Network.PairedLinksBlock | icom/src/icom.c:213-250 | two programs joined by several autonotify links never complete a send or a receive; the sender ends up waiting for its first acknowledgement |
| Network.PairedCompletesExactly | icom/src/icom.c:210-255 | where two programs joined by autonotify links can go no further, everything planned is done if and only if there is one link or nothing is planned |
| Network.RunsCanFinish | icom/src/link_socket.c:248-282 | from every state that fits the plan, for any shape, the run can be carried on to a state in which nobody can move |
| NotifyNetwork.NotifyCompletesExactly | icom/src/icom.c:210-285 | with manual notification, for sending and receiving ends of one program or of several: runs are bounded, and where nobody can move everything planned is done if and only if all links were planned for equally or every end is a program of its own; paired programs do not block |
| NotifyNetwork.CoursesCanFinish | icom/src/icom.c:257-285 | every such run can be carried on to a state in which nobody can move |
| NotifyNetwork.StepKeepsSenders | icom/src/icom.c:210-285 | every step keeps the sending program where its loops say: which links have been sent to, which acknowledgements have been collected |
| Network.RunsAreBounded | icom/src/link_socket.c:248-272 | for any shape, from any state that fits the plan, the number of steps is bounded by a rank that every step lowers |
| Network.QuietLinkIsDone | icom/src/link_socket.c:256-272 | a link on which neither end can do anything has carried, delivered and acknowledged all it was to carry |
| Network.StuckLink | icom/src/icom.c:213-215 | in a state where nobody can move, a link whose ends have their turn is done |
| StringParser.GetConnectionCount | icom/src/string_parser.c:15-37 | the flat scan computes FlatCount, the sum over comma-separated pieces, or none where the int overflows on the way |
| StringParser.InitStrArray | icom/src/string_parser.c:40-155 | the filling loop computes Parse: the strings in order if the two scanners agree, rejection of the empty and missing string and where malloc refuses the array, a wrapped-around size included, and an undefined result in every other case, overfull or underfull array included |
| StringParser.FindCandidateEnd | icom/src/string_parser.c:63-68 | a candidate ends at the first comma that is not inside its brackets |
| StringParser.WriteCandidate | icom/src/string_parser.c:78-145 | a candidate adds its expansion behind what is in the array, if it fits, and changes nothing before it |
| StringParser.WriteRange | icom/src/string_parser.c:94-110 | a range writes its numbers in order and terminates unless it would count past INT_MAX |
| StringParser.WriteTokens | icom/src/string_parser.c:112-128 | a list writes one string per token |
| Text.StrChrNul | icom/src/string_parser.c:9-12 | first occurrence at or after the start, or the end of the string |
| Decimal.ScanPrinted | icom/src/string_parser.c:97-106 | a printed number is read back whatever non-digit follows it |
| Decimal.DigitsInOrder | icom/src/string_parser.c:97-106 | 0 is worth nothing and digits are as far apart as their characters |
| Decimal.ScanSigned | icom/src/string_parser.c:116-133 | blanks before a number are skipped and one sign is taken |
| Decimal.IntRoundTrip | icom/src/string_parser.c:100-106 | a printed int, negative or not, is read back |
| Endpoints.PrintParse | icom/src/string_parser.c:40-154 | printing any list of plain entries, ranges, lists and single members and parsing it gives the concatenated expansions in order, if and only if it is not the single empty entry, an int can count them and no range ends at INT_MAX |
| Endpoints.PrintParseWithin | icom/src/string_parser.c:53-59 | where malloc grants only so many slots, a list is refused exactly if it stands for more strings |
| Endpoints.RangeToMaxIsUndefined | icom/src/string_parser.c:99-108 | for any prefix and start, a range that ends at INT_MAX is counted, up to INT_MAX, but its loop counts past INT_MAX |
| Endpoints.ScannersAgree | icom/src/string_parser.c:15-152 | on every such text the flat scan counts exactly the strings of the expansions, up to INT_MAX, and the bracket-aware loop writes exactly these, unless a range ends at INT_MAX |
| Endpoints.CandidateEnds | icom/src/string_parser.c:62-70 | in front of any continuation, the candidate found is exactly the printed entry |
| Endpoints.EntryCounts | icom/src/string_parser.c:20-34 | in front of any continuation, the flat scan counts an entry's strings, although it cuts lists apart |
| Endpoints.NotationsAgree | icom/src/string_parser.c:61-152 | a range, the list of its numbers and the entries spelled out parse to the same strings, as long as an int can count them and, for the range, count one past its end |
| Endpoints.NotationCovers | icom/src/string_parser.c:61-145 | what the notation of PrintParse covers: any text, range and list that an int allows |
| Endpoints.ParseNormalises | icom/src/string_parser.c:46-152 | for any text that parses at all, joining the result and parsing again changes neither the strings nor the count, if and only if the result is neither empty nor the single empty string |
| Endpoints.NoPrefixIsUndefined | icom/src/string_parser.c:91-148 | an entry that starts with its bracket makes the parse undefined, behind any entries of the notation |
| Endpoints.ReversedRange | icom/src/string_parser.c:23-29 | for any prefix, a range with reversed bounds parses, to no string, if and only if they are reversed by one, and with a comma behind it to one empty string under the same condition |
| Endpoints.RangeThenNumberIsUndefined | icom/src/string_parser.c:94-110 | for any prefix, range and number, a range followed by a number in one bracket is counted one higher than it is filled |
| Endpoints.EmptyItemIsUndefined | icom/src/string_parser.c:114-128 | for any prefix and numbers, a list with an empty item is counted one higher than it is filled |
| Endpoints.UnreadableInputs | icom/src/string_parser.c:96-133 | for any prefix and number, empty brackets, a negative number in brackets and a range without an end are undefined |
| Endpoints.ReversedRangeWithin | icom/src/string_parser.c:53-59 | a count below zero asks for four thousand million slots, and is refused exactly if malloc does not grant them |
| Documented.RangeOfTheIntroduction | README.md:47-49 | the range *:[8889-8891] parses to its three addresses |
| Documented.EndpointsOfTheTests | tests/src/parser.cpp:44-380 | single member, range, list and plain entry as the tests write them |
| Fields.InitFields | icom/src/string_parser.c:177-219 | the copying loop gives the fields of Split, no field for a missing string, and terminates |
| Fields.CountFields | icom/src/string_parser.c:189-194 | the counting pass finds as many fields as the copying loop writes |
| Fields.SplitCount | icom/src/string_parser.c:190-216 | there is one field more than there are separators |
| Fields.SplitLacks | icom/src/string_parser.c:207-208 | no field contains the separator |
| Fields.JoinSplit | icom/src/string_parser.c:206-216 | joining the fields gives the input back |
| Fields.SplitJoin | icom/src/string_parser.c:203-216 | splitting a join of separator-free fields gives these fields back |
| FlagNames.FindFlag | icom/src/icom_flags.c:15-27 | the table scan gives the flag of the name, none for default, the invalid bit for any other |
| FlagNames.StringToFlags | icom/src/icom_flags.c:44-61 | the loop gives the union over the comma-separated names |
| FlagNames.UnionHasBit | icom/src/icom_flags.c:56-58 | a flag's bit is set if and only if its name occurs |
| FlagNames.UnionInvalid | icom/inc/icom_flags.h:34-35 | the invalid bit is set if and only if some name is unknown |
| FlagNames.UnionNothingElse | icom/src/icom_flags.c:20-26 | no bit but those of the five flags and the invalid bit is ever set |
| FlagNames.UnionIsOfSet | icom/src/icom_flags.c:55-60 | order and repetition of the names do not matter |
| Configuration.StringToType | icom/src/icom_type.c:27-35 | the table scan finds the type of the name, or none |
| Configuration.ReadConfiguration | icom/src/icom.c:114-148 | the first half of icom_init computes ParseConfig, error cases in the order of the source |
| Configuration.ConfigRoundTrip | icom/src/icom.c:115-166 | a printed configuration is read back as its type, the union of its flags and the expanded endpoints in order; one unknown flag name makes it a lookup error, and the endpoint list fails in the cases of PrintParseWithin and no other |
| Configuration.AllFieldsRead | icom/src/icom.c:126-148 | fields after the third do not matter |
| Configuration.FewFields | icom/src/icom.c:114-140 | with one or two fields, type and flags are looked up in this order and what is good leads past the end of the fields |
| Documented.ConfigurationsOfTheIntroduction | README.md:39-49 | the three configurations of the introduction, with any address, give their type number, flag bits and addresses |
| Documented.TypesByName | icom/src/icom_type.c:4-16 | every type name and its number |
| Documented.FlagsByName | icom/src/icom_flags.c:6-27 | every flag name and its bit |
| Configuration.NoConnection | icom/src/icom.c:143-166 | for any type, flags and prefix, a range reversed by one is a valid configuration without links |
| LinkSocket.EndsAgree | icom/src/link_socket.c:489-504 | two ends configured alike fit: one awaits an acknowledgement exactly if and as the other sends one, and with notification messages go one way only |
| LinkSocket.Link.Accept | icom/src/link_socket.c:26-44 | accepts once; a failed accept changes nothing, a new descriptor belongs to the link |
| LinkSocket.Link.RecvHeader | icom/src/link_socket.c:46-85 | takes twelve bytes however they arrive and sets the receive state up by them; a failure consumes fewer bytes and changes nothing else |
| LinkSocket.Link.Reconfigure | icom/src/link_socket.c:77-84 | the new state is AfterHeader, the capacity is the announced size, and the owner's address is still in front although the block may move |
| LinkSocket.Link.RecvData | icom/src/link_socket.c:87-122 | the buffer holds the message that ReceiveBody gives and the caller gets its address and size; it leaves the buffer only for a pointer announced too small |
| LinkSocket.Link.FillBuffer | icom/src/link_socket.c:94-107 | short reads fill the payload in order, and no write goes past it or touches the word in front |
| LinkSocket.Link.SendHeader | icom/src/link_socket.c:124-140 | the header of type, flags and size is sent, or nothing |
| LinkSocket.Link.SendData | icom/src/link_socket.c:142-175 | the payload, or the pointer to it, is sent; a proper beginning of it gives the partial status |
| LinkSocket.Link.Connect | icom/src/link_socket.c:177-197 | connects once; afterwards both descriptors of a sending end are the same one |
| LinkSocket.Link.WriteAck | icom/src/link_socket.c:199-215 | on a connected link one acknowledgement is sent, or nothing; on any other the call goes to descriptor 0 and the link is untouched |
| LinkSocket.Link.ReadAck | icom/src/link_socket.c:217-246 | on a connected link it succeeds exactly on four bytes with the value 1, and fails through a fault before the fourth or through another value; on any other link it reads descriptor 0 and the link is untouched |
| LinkSocket.Link.SendHandler | icom/src/link_socket.c:248-259 | connect, header, payload, acknowledgement; in every case the bytes written are a beginning of this one frame and the receive side is untouched; it fails only through a fault, a payload cut short or a wrong acknowledgement, and then has left something out unless the payload is empty |
| LinkSocket.Link.RecvHandler | icom/src/link_socket.c:261-272 | the next message of the stream, after the acknowledgement that was due; it succeeds exactly if it took a whole message, and fails only through a fault with less than a message taken, or by leaving the buffer; a failure that consumed nothing leaves the receive state alone |
| LinkSocket.Link.CallAutoSendAck | icom/src/link_socket.c:274-277 | the first call on an autonotify link only arms the next |
| LinkSocket.Link.CallAutoRecvAck | icom/src/link_socket.c:279-282 | the first call arms the next and reads an acknowledgement itself |
| LinkSocket.InitSocketConnect | icom/src/link_socket.c:284-396 | a link as initialised with one new descriptor and one new block, or nothing left behind; it succeeds exactly if nothing it meets is at fault |
| LinkSocket.InitSocketBind | icom/src/link_socket.c:398-529 | the same for the listening end, whichever of its system calls fails |
| LinkSocket.Link.Deinit | icom/src/link_socket.c:531-548 | closes exactly the descriptors the end owns, once each, although a connected sender has the same one twice |
| Retries.RetriesInvisible | icom/src/link_socket.c:26-71 | failed calls that consumed nothing are invisible: delivered messages and remaining bytes are those of the successful calls in a row |
| Retries.RetriesDeliver | icom/src/link_socket.c:56-83 | a receiver that repeats its calls gets exactly what was sent |
| Retries.RetriesSilent | icom/src/link_socket.c:261-266 | without automatic acknowledgement no call sends anything or changes a handler |
| Retries.AcksSent | icom/src/link_socket.c:199-277 | over any series of calls, what has been sent is one acknowledgement for every call that got past that point, whether it then took a message or timed out, and one fewer on a link that was not armed yet |
| Retries.RetriesAgainstUndisturbed | icom/src/link_socket.c:261-272 | against the same receives without failures, deliveries, receive state and remaining bytes are always the same; what was sent and the handlers are the same if and only if the link has no automatic acknowledgement or no call timed out behind one |
| Retries.TracelessExactly | icom/src/link_socket.c:494-504 | all series of calls leave no trace but their messages if and only if the link has no automatic acknowledgement, which its flags decide |
| Retries.HeldUnacknowledgedExactly | icom/src/link_socket.c:265-277 | on a new autonotify link the message handed out last is still unacknowledged if and only if no call timed out behind its acknowledgement |
| Icom.InitGeneric | icom/src/icom.c:66-92 | for every type number: socket types are initialised or fail without leaving anything behind, the other entries of the table refuse, and types beyond the table are told apart from types out of range |
| Icom.OpenNext | icom/src/icom.c:159-165 | one more link for the next endpoint, at its place in the array and sharing nothing with the others, or none |
| Icom.OpenAll | icom/src/icom.c:159-188 | a link for each endpoint in order, or rollback and no descriptor left open; which of the two is exact |
| Icom.Init | icom/src/icom.c:99-188 | the outcome for every configuration string; on success there is a link for each of its endpoints in order, on failure nothing stays open and the status is that of the failure; it succeeds exactly if memory, types, set-ups and system calls allow |
| Icom.Icom.Rollback | icom/src/icom.c:174-178 | closes exactly what the opened links own |
| Icom.Icom.Deinit | icom/src/icom.c:191-207 | closes exactly what the object owns, accepted connections included |
| Icom.Session | icom/src/icom.c:159-207 | over a whole life, any configuration, any failure, any sequence of uses, the open descriptors are in the end those of the beginning |
| Icom.Icom.Send | icom/src/icom.c:210-220 | every link is served, first to last, whatever became of the others; on each that succeeded this message's frame was written, on no link anything else, and none failed without a fault |
| Icom.Icom.Recv3 | icom/src/icom.c:239-255 | every link is served, last to first; a link succeeds exactly if its next message was taken whole, and the caller has the buffer and size of the lowest link that succeeded, or its own values |
| Icom.Icom.NotifySend | icom/src/icom.c:257-270 | every link is served, last to first: an acknowledgement on every connected notify receiver, none elsewhere, an error on a notifying sender |
| Icom.Icom.NotifyRecv | icom/src/icom.c:272-285 | every link is served, last to first: on every connected notify sender it succeeds exactly if an acknowledgement was taken, nothing is taken elsewhere |
| Icom.OrdersOfService | icom/src/icom.c:213-279 | the k-th link served is link k in the one order, and the k-th from the end in the other |
| Icom.Icom.NextBuffer | icom/src/icom.c:287-339 | for every pointer: whether the code loads only what is there, and if so the loops over the link array compute the walk function, and the end leaves the caller's values alone |
| Icom.DeepWalkDefined | icom/src/icom.c:325-338 | on links with buffers of their own every call of a walk is defined |
| Icom.ZeroCallDefinedExactly | icom/src/icom.c:294-323 | on zero-copy links a call of the walk is defined exactly if every block it loads from holds a pointer |
| Icom.ZeroWalkDefined | icom/src/icom.c:312-323 | so it always is when every block holds one |
| Traversal.OnePastTheLast | icom/src/icom.c:312-338 | the address just behind the last link counts as a link: the walk ends there without a search |
| Traversal.DeepWalksAll | icom/src/icom.c:325-338 | with back-pointers the walk from NULL gives every link's buffer and size once, in order, and then ends |
| Traversal.ZeroWalksAllExactly | icom/src/icom.c:302-323 | with zero copy it does so if and only if the pointers are distinct and not NULL, given that no word in front of them looks like a link's address |
| Traversal.StaysAtEnd | icom/src/icom.c:294-338 | after a walk over every link, all further calls end, and the caller's pointer stays on the last buffer, which is not NULL |
| Traversal.DeepPointerNeverNull | icom/src/icom.c:325-338 | with back-pointers the caller's pointer is never NULL again |
| Traversal.ZeroPointerNullExactly | icom/src/icom.c:294-323 | with zero copy it becomes NULL again if and only if some link received NULL and no two links before it the same pointer, given that no word in front of them looks like a link's address |
| Traversal.WalkAddsUp | icom/src/icom.c:295-335 | the sizes handed out are those of the links walked |
| Icom.OwnersAreInFront | icom/src/link_socket.c:381-385 | in every valid object the word before each buffer is its link's address, wherever the buffer has moved |
| Icom.FullReceive | icom/src/icom.c:242-254 | a receive that succeeded on every link leaves the caller with the first link's message |
| Icom.DeepWalkAfterReceive | icom/src/icom.c:239-339 | after it, every call of the walk is defined, the walk starts with what the receive returned, visits every link, and its sizes add up to those of the messages consumed |
| Icom.ZeroWalkAfterReceive | icom/src/icom.c:245-323 | the same for zero copy: always defined, and complete exactly if the messages received carried distinct pointers, none NULL |

## Left out

- System calls: `socket`, `bind`, `listen`, `setsockopt`, `inet_aton` succeed or fail freely, and whether an address parses is open; the IP text check is not modelled.
- A peer that closes the connection: `recv` then returns 0 and the receive loops spin.
- Timeouts after the first byte of a header, or between header and payload: the progress is lost with a local variable. The contracts of `Link` bound what such a call changes; the step systems do without timeouts.
- Setting up the connection in the step systems: they begin with a connected pair. `Link` has accept and connect.
- Blocking without end: `Link` gives a timeout or a failure where a call without a timeout would block; `LinkProtocol` has no step there.
- Icom.Icom.Deinit: speaks of descriptors only, because the repository does not free the receive buffers of sending ends.
- Numbers beyond 64 bits in a configuration string: `sscanf` is not defined on them; the model keeps their low 32 bits.
- StringParser.InitStrArray: the small allocations, of one string each, succeed. The same goes for `Fields.InitFields`, `FlagNames.StringToFlags` and `Configuration.ReadConfiguration`.
- Failures to allocate the object itself and a receive buffer (the latter is not checked in the repository).
- `ICOM_TYPE_AUTO`: trial and error over the handler table; `Icom.InitGeneric` gives `Indeterminate` for it.
- `icom_flagsToString` and `icom_typeToString`: only logging uses them, and the first indexes names by a bit mask.
- Endpoint texts outside the notation (lists mixed with ranges, empty items, negative or reversed bounds, empty prefix): `Parse` covers them as the code does; three families are stated as lemmas.
- Walks over links of mixed copy modes: the walk function covers them, no theorem does.
- Raw `errno` values: they are one error status.
- `link_fifo.c` and `link_zmq.c` (stubs that report that they are not implemented), `icom_config.c`, logging, the benchmark.
- The receive buffer's heap block is a sequence of bytes in a field, not an array; aliasing between blocks is excluded by their addresses.
