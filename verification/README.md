# A model of the xzmjx server framework

This project models the parts of xzmjx that hold state and have a simple meaning that the code refines, and proves
that meaning: the incremental HTTP/1.x parser and the request printer that it should undo, the chained byte buffer
with its number codecs, the timers, the epoll registrations and the scheduler of the fiber runtime, WebSocket
messages, percent-coding and query strings, base 64, and bitmaps.

The model does what the code does. Where that is not what the code, its comments or its names promise, the model
keeps the code; a lemma gives the input that shows it, and another says for which inputs the promise is kept.

`dafny verify dfyconfig.toml` checks everything.

## How it is put together

**HTTP.** `HttpMachine` is the parser as a function: one pass of the switch on one byte (`Micro`). `HttpRun` repeats it
over a buffer (`Run`), and renders what it does to the spans of the message as the callbacks a caller sees (`Reported`).
`HttpInvariant` holds the invariant of every reachable state. `HttpExecute` is `http_parser_execute` as the source has
it, an object with marks, skip-ahead loops and a position that moves back and forth, proved to refine `Run`. On the
machine rest what a failing call has reported (`HttpFailures`), the framing results (`HttpFraming`) and the pairing of
message ends (`HttpMessages`). `HttpNames`, `HttpLists` and `HttpLines` say what is heard of a header line, `HttpHeads` what
a whole header section settles, `HttpBodies` what follows from it for the body; with the start lines (`HttpMethods`,
`HttpRequestLine`, `HttpStatusLine`) these make whole messages and conversations (`HttpWholeMessages`), and printing and
parsing (`HttpRequestText`); `HttpRequests` is the printer and the callbacks as methods on objects. `HttpUrl`, `HttpHost` and
`HttpUrlFields` say what a URL is and what its fields are, `HttpUrlWide` what becomes of them in buffers that 16-bit
offsets cannot address; `HttpUrlParts` is the code that finds them.

**Byte buffer.** `ByteArray` is the linked list of nodes with its cursor, on the heap; its methods are proved against
functions on a `Cursor`, a flat string with a position and a place where the node pointer stands. `ByteArrayRuns`
compares that with a flat string over runs of operations. `Bits` and `Varint` are the integer codecs, on values and on
the buffer.

**Fiber runtime.** `Timer`, `IoManager` and `Scheduler` are systems of steps, one for each critical section; the clock,
the kernel and the order of the steps are inputs. `TimerRuns`, `TimerMoments`, `IoWakes` and `SchedulerRuns` are about
whole runs of them. The classes in
`TimerManager`, `IoManager` and `Scheduler` are the methods of the source, proved against those steps.

**Codecs.** `WebSocket` (with `WebSocketFrames`, on what frames are to a peer), `UrlCode`, `Query`, `Base64` and `Bitmap` each hold the functions, the lemmas about them and the
loops of the source that compute them.

Arithmetic is unbounded and the width of the source is written out where it is reached: the 64-bit lengths of the
parser and of frames, the 16-bit offsets of URL fields, the wrapping clock, the wrapping difference in the buffer's
`const` readers, 64-bit numbers in the codecs. Bytes are characters below 256.

## What came out

- A run of the parser does not depend on how the stream is cut, the byte counter included (`SplitInvariance`, `AnySplit`).
- Printing and parsing a request gives it back, unless a header name begins with `transfer-encoding`. The flag that such
  a name sets is never taken back, and a request with it is refused (`PrintThenParse`, `SpoiltWitness`).
- The framing of a message and the life of the connection are settled by the headers as section 3.3.3 and section 6.3 of
  RFC 7230 have it (`HeadRun`, `MessageRun`), and messages follow each other on a connection that lasts
  (`ConversationRun`), with these reservations. The comma after `chunked`, or after a beginning of it such as `c`, is not
  seen, so `c, chunked` is not chunked (`MissedComma`, `ChunkedTwice`). A folded line takes back a word that the line
  before ended with (`FoldForgets`). A `proxy-connection` header counts like `connection` (`PrintedLasts`). The keep-alive default is taken
  from both version digits being above nought, so that of version 2.0 is to close (`Persists`).
- The first byte of a header value may be any byte (`ValueExactly`).
- The only spelling of M-SEARCH that is recognised is `M-- SEARCH`: the method table writes it with blanks, and its second
  byte has to be a hyphen all the same (`MethodExactly`, `MSearchSpelling`, `MSearchFails`).
- A comment says that a CONNECT target can only be host and port; `ConnectTargets` says what else it can be.
- A chunk size may hold bytes of 128 and above, which the digit table takes for noughts; a size is one by the standard
  exactly when it holds none of them (`ChunkSizeExact`, `SizeByStandard`, `SizeWitness`).
- `ByteArray::read` leaves the node pointer behind when a read starts inside a node and stops at its end, so later reads
  return the wrong bytes (`Slips`, `InStepAfter`, `SlipThenRead`). Runs without such a read are those of a flat string
  (`RunAgrees`, `StraightSafe`). For numbers, read byte by byte, this makes the round trip hold exactly for lists that
  fit the first node (`RoundTripExactly`).
- `readUint32` stops on the wrong branch: it gives the low seven bits of a number of several bytes, and a number of one
  byte exactly when harmless bytes follow; the number written last never comes back (`Read32Exactly`, `Read32Witness`,
  `Read32NeverLast`).
- The vectors for scattered input and output hold too much when they are two, and three are never made (`VectorsHold`).
- A `refresh` or a re-arming lowers the earliest deadline without telling exactly when it wraps around the end of the
  clock to below it (`Told`, `RefreshDropsEarliest`, `ExpireLowers`, `WrapWitness`); a sleeper is never late exactly when
  none wraps to below the moment it wakes (`NoMissedDeadline`).
- After `delAll`, or `cancelAll` of two events, a descriptor can never be used again, and after the latter the manager
  can never stop (`DelAllStuck`, `CancelAllStuck`). All other operations keep bits, slots and interest in agreement.
- Shutdown can lose a task if and only if it is pinned and there are two workers or more (`ShutdownLosesNothing`,
  `LostExactly`). A batch submitted to an empty queue loses all but its first task (`BatchExactly`); callbacks of timers
  that expire together are submitted that way. The fiber of a callback that yields comes back unpinned, even if the
  callback was meant for one worker (`YieldedComesBack`).
- A WebSocket client announces a mask and does not apply it, so the server gets the message masked once
  (`ClientToServer`). An empty message or fragment closes the stream (`EmptyCloses`, `ServerToClient`). Lengths from 255
  to 65535 are sent in eight bytes where two would do (`ShortestExactly`).
- `=` is not percent-coded, though the comment over the encoder does not list it; query strings still come back
  (`PairsExactly`).
- The count of a bitmap takes in bits above its size when they lie in the last whole block (`CountExactly`), and a
  complement sets such bits (`FlipClean`).

## Model

| member | source | states |
|---|---|---|
| HttpInvariant.MicroSound | xzmjx/http/http_parser/http_parser.c:712-2154 | One pass of the switch, in any state the invariant allows: no internal assertion fails, the invariant is kept, the span callbacks stay in step with the state, and an edge that looks at the same byte again lowers a rank. The invariant fixes one framing mode: an identity body has a Content-Length, no chunked or other coding and a length strictly between 0 and the sentinel; chunk states have `chunked` and no Content-Length; a body to the end of the stream belongs to a response |
| HttpInvariant.HeadersDoneSound | xzmjx/http/http_parser/http_parser.c:1874-1942 | At the end of the headers each choice of framing (RFC 7230, section 3.3.3) leads to a state whose invariant holds |
| HttpInvariant.InitInv | xzmjx/http/http_parser/http_parser.c:2225-2234 | A fresh parser of each kind satisfies the invariant |
| HttpInvariant.ValueSound | xzmjx/http/http_parser/http_parser.c:1482-1706 | The value matcher keeps the invariant on every byte: a length being read stays below the sentinel, and no Content-Length digit is taken once the header is something else |
| HttpRun.LoopSound | xzmjx/http/http_parser/http_parser.c:718-718 | No byte makes the `reexecute` edges go round for ever, and none violates an assertion |
| HttpRun.StepSound | xzmjx/http/http_parser/http_parser.c:712-720 | A byte is counted against the header limit and keeps the invariant, and the count stays within the limit |
| HttpRun.RunAppend | xzmjx/http/http_parser/http_parser.c:641-2154 | A run on a + b is the run on a and then, if that got through, the run on b |
| HttpRun.RunSound | xzmjx/http/http_parser/http_parser.c:641-2154 | Every run from a reachable state ends in a reachable state or an error, with legal span callbacks throughout; an early stop is between messages and within the buffer |
| HttpRun.SplitInvariance | xzmjx/http/http_parser/http_parser.c:641-2147 | If a + b is consumed, so are a and then b, with the same fields (`nread` and the length included) and the same events once adjacent data events of a kind are joined |
| HttpSpans.FieldRun | xzmjx/http/http_parser/http_parser.c:1256-1391 | A stretch of a header name, of any length, taken byte by byte: what the inner loop over it must come to, the limit included |
| HttpSpans.ValueRun | xzmjx/http/http_parser/http_parser.c:1482-1706 | A stretch of a header value: it is taken whole, or fails exactly when the matcher refuses a byte or the limit is passed |
| HttpExecute.HttpParser.Execute | xzmjx/http/http_parser/http_parser.c:641-2154 | The loop with its marks and skip-ahead jumps consumes, reports and ends as the byte machine does, for every buffer; when that fails, what has been reported is what the machine had done by then but for the span that was open, and the error is its error, or, beyond the header limit, possibly that of a bad value; a call without data is the end of the stream; it terminates, and never returns more than it was given |
| HttpFailures.FieldTold | xzmjx/http/http_parser/http_parser.c:1256-1391 | A header name that is given up has done nothing but take bytes of that name |
| HttpFailures.ValueTold | xzmjx/http/http_parser/http_parser.c:1482-1706 | Likewise a header value |
| HttpFailures.FlushedSpan | xzmjx/http/http_parser/http_parser.c:641-2154 | However many bytes of an open span are taken, a failure reports the same |
| HttpFailures.NothingElse | xzmjx/http/http_parser/http_parser.c:788-2116 | Wherever the grammar has room for one byte, for a line end or for a digit alone, any other byte is refused |
| HttpExecute.HttpParser.EndOfStream | xzmjx/http/http_parser/http_parser.c:664-686 | A call without data succeeds if and only if no message is open or the open one lasts to the end of the stream, and then completes the open one; otherwise it reports an error and returns 1 |
| HttpMessages.RunPairs | xzmjx/http/http_parser/http_parser.c:641-2154 | In every run each message that is begun is completed once, but for the one the parser is in at the end |
| HttpMessages.EndPairs | xzmjx/http/http_parser/http_parser.c:641-2154 | From the start on: messages begun are messages completed, and one more exactly when `EndOfStream` counts one as open |
| HttpExecute.HttpParser.SkipField | xzmjx/http/http_parser/http_parser.c:1256-1391 | The inner loop over a header name leaves position, matcher and counter where the byte machine would |
| HttpExecute.HttpParser.SkipValue | xzmjx/http/http_parser/http_parser.c:1500-1706 | The inner loop over a value, with its jump to the end of the line, agrees with the byte machine, or ends in an error where that does |
| HttpExecute.HttpParser.IdentityTurn | xzmjx/http/http_parser/http_parser.c:1944-1979 | A body of known length is passed in one step, and its end is reached at its last byte |
| HttpExecute.HttpParser.ChunkTurn | xzmjx/http/http_parser/http_parser.c:2078-2099 | Likewise for the data of a chunk |
| HttpExecute.ValueOver | xzmjx/http/http_parser/http_parser.c:1500-1520 | Jumping past more bytes than the limit allows is harmless: the byte machine has failed by then |
| HttpFraming.AnySplit | xzmjx/http/http_parser/http_parser.c:641-2147 | Split invariance for any list of nonempty pieces (a call with an empty one would be the end of the stream) |
| HttpFraming.ContentLengthExact | xzmjx/http/http_parser/http_parser.c:1557-1568 | The digits of a Content-Length are accepted exactly when their number is within the conservative bound and the head within the limit; the length is then that number |
| HttpFraming.ChunkSizeExact | xzmjx/http/http_parser/http_parser.c:1996-2047 | Bytes are taken as the size n of a chunk if and only if each is a hexadecimal digit or at least 128, n is their value (the latter count nought) and at most the conservative bound, and the limit allows them |
| HttpFraming.SizeByStandard | xzmjx/http/http_parser/http_parser.c:1996-2047 | A size that is taken is one by RFC 7230, section 4.1, exactly when it holds no byte of 128 or above |
| HttpFraming.SizeWitness | xzmjx/http/http_parser/http_parser.c:1996-2047 | A byte of 128 and a `5` are taken for the size 5 |
| HttpFraming.ChunkedDecodes | xzmjx/http/http_parser/http_parser.c:1996-2116 | From the start of a chunk, any list of nonempty chunks in any spelling of size that is taken and any extension, a zero chunk and an empty trailer are consumed to the last byte, with the acts of the chunks in order and one end of message (RFC 7230, section 4.1) |
| HttpFraming.ChunkedBody | xzmjx/http/http_parser/http_parser.c:1996-2116 | The body events concatenate to the concatenation of the chunks, with exactly one message_complete |
| HttpHost.WalkSound | xzmjx/http/http_parser/http_parser.c:2253-2333 | What the host automaton accepts is user info, host or bracketed address with zone, and port, put together from proper parts |
| HttpHost.WalkComplete | xzmjx/http/http_parser/http_parser.c:2253-2333 | Every authority put together from proper parts is accepted and taken apart into them |
| HttpUrl.WalkSound | xzmjx/http/http_parser/http_parser.c:493-639 | What the URL automaton accepts is schema, authority, path, query and fragment, put together from proper pieces |
| HttpUrl.WalkComplete | xzmjx/http/http_parser/http_parser.c:493-639 | Every URL put together from proper pieces is accepted and taken apart into them |
| HttpUrlFields.ParseInverts | xzmjx/http/http_parser/http_parser.c:2422-2543 | For buffers below 2^16 bytes: splitting what was put together gives the fields and the port back |
| HttpUrlFields.ParseSplits | xzmjx/http/http_parser/http_parser.c:2422-2543 | For buffers below 2^16 bytes: every accepted buffer is put together from acceptable pieces, and the fields are theirs |
| HttpUrlFields.UrlExact | xzmjx/http/http_parser/http_parser.c:2422-2543 | For buffers below 2^16 bytes: a buffer is accepted if and only if it can be put together from acceptable pieces |
| HttpUrlFields.SplitIsExact | xzmjx/http/http_parser/http_parser.c:2422-2543 | For buffers below 2^16 bytes: on success every field is a nonempty piece inside the buffer, the fields are in order and disjoint, a schema comes with a host, and the port is the value of its digits |
| HttpUrlFields.FieldHolds | xzmjx/http/http_parser/http_parser.c:2422-2500 | Each field holds the text of its piece |
| HttpUrlFields.ConnectTargets | xzmjx/http/http_parser/http_parser.c:2511-2514 | For buffers below 2^16 bytes: exactly which CONNECT targets are accepted: host and port, and besides a bare `@` in front and a bare `?` and `#`s behind |
| HttpUrlFields.ConnectWitness | xzmjx/http/http_parser/http_parser.c:2511-2514 | The target `@h:1?##` is accepted, against the comment |
| HttpUrlParts.UrlParts.SplitOuter | xzmjx/http/http_parser/http_parser.c:2436-2494 | The loop over the buffer, with 16-bit offsets, finds the pieces of the URL automaton |
| HttpUrlParts.UrlParts.SplitHost | xzmjx/http/http_parser/http_parser.c:2335-2415 | The loop over the host replaces the host field by user info, host and port, and fails exactly when the automaton does or may not end |
| HttpUrlParts.UrlParts.ReadPort | xzmjx/http/http_parser/http_parser.c:2516-2540 | The port is the value of its digits, or the split fails because that exceeds 16 bits |
| HttpUrlParts.UrlParts.ParseUrl | xzmjx/http/http_parser/http_parser.c:2422-2543 | For buffers of any length the code does what the functional splitting with 16-bit offsets says, and on those below 2^16 bytes that is the splitting into acceptable pieces; every field lies inside the buffer |
| HttpUrlWide.SplitIsParse | xzmjx/http/http_parser/http_parser.c:2422-2543 | Offsets of 16 bits make no difference on buffers below 2^16 bytes |
| HttpNames.NameRun | xzmjx/http/http_parser/http_parser.c:1206-1391 | A whole header name leaves the matcher in the state that belongs to its lower-case text, and sets the transfer-encoding flag exactly when it begins with that word |
| HttpNames.NameExactly | xzmjx/http/http_parser/http_parser.c:1206-1391 | A text without a colon and line ends is taken for the beginning of a header name if and only if it is made of tokens; otherwise it is refused as such |
| HttpSyntax.TokenIs | xzmjx/http/http_parser/http_parser.c:189-222 | The tokens are letters, digits and the fifteen marks of RFC 7230, section 3.2.6 |
| HttpLists.HeardIs | xzmjx/http/http_parser/http_parser.c:1408-1706 | Any value of a Connection or Transfer-Encoding header is gone through to its end, and the flags that the header is left with are those of the words that its list says, read element by element at its commas |
| HttpLists.ChunkedIsLast | xzmjx/http/http_parser/http_parser.c:1579-1674 | If `chunked` is heard in a value it is the last coding of it, in any case and with any blanks around it |
| HttpLists.ChunkedHeard | xzmjx/http/http_parser/http_parser.c:1579-1674 | And the other way round, where the codings before it are neither empty nor a beginning of `chunked` |
| HttpLists.OptionsHeard | xzmjx/http/http_parser/http_parser.c:1614-1690 | A Connection value of words and other tokens says just the words among them, in any case |
| HttpLists.MissedComma | xzmjx/http/http_parser/http_parser.c:1597-1612 | The comma after `chunked`, or after a beginning of it, is not seen, so that the coding behind it is not heard |
| HttpLists.ChunkedTwice | xzmjx/http/http_parser/http_parser.c:1597-1612 | `chunked, chunked` and `c, chunked` are not heard as chunked, `gzip, chunked` is |
| HttpLines.TextLine | xzmjx/http/http_parser/http_parser.c:1206-1793 | A header line of any name but Content-Length is reported as its name and its value and changes the flags that its words say, and nothing else; the name counts in any case |
| HttpLines.TransferLine | xzmjx/http/http_parser/http_parser.c:1408-1793 | A Transfer-Encoding line sets its flag, and the chunked flag if and only if `chunked` is heard in its value, over all value texts |
| HttpLines.PlainLine | xzmjx/http/http_parser/http_parser.c:1206-1793 | A header line that does not concern framing changes nothing but the count, the flags of the connection as its words say, and the transfer-encoding flag if its name begins with that word |
| HttpLines.LengthLine | xzmjx/http/http_parser/http_parser.c:1408-1480 | A Content-Length line, its name in any case, sets the length and its flag, and nothing else |
| HttpLines.LengthValueExact | xzmjx/http/http_parser/http_parser.c:1436-1578 | A Content-Length value is taken if and only if it is digits, then blanks only, with a number within the conservative bound, and no length was given before; which error it is otherwise |
| HttpLines.ValueExactly | xzmjx/http/http_parser/http_parser.c:1482-1706 | The value of any other header is taken if and only if all its bytes but the first may stand in a header: the first one is not looked at |
| HttpLines.BlanksSkipped | xzmjx/http/http_parser/http_parser.c:1393-1406 | Any blanks before a value are passed over |
| HttpLines.BlankLineSkipped | xzmjx/http/http_parser/http_parser.c:1752-1763 | And so is a line end that a blank follows |
| HttpLines.FoldedLine | xzmjx/http/http_parser/http_parser.c:1719-1750 | A folded line goes on with the value of the line before in a span of its own |
| HttpLines.FoldForgets | xzmjx/http/http_parser/http_parser.c:1719-1750 | A word that the line before ended with is not heard after all, whatever the folded line holds |
| HttpLines.FoldContinues | xzmjx/http/http_parser/http_parser.c:1719-1750 | After a comma that was seen the list goes on: the flags are those of the words that the folded line says |
| HttpLines.FoldedLength | xzmjx/http/http_parser/http_parser.c:1719-1750 | A length may be followed by blanks only, on a folded line too |
| HttpLines.BareEnds | xzmjx/http/http_parser/http_parser.c:1402-1404 | A line feed alone ends a header line as the two bytes do |
| HttpHeads.LinesRun | xzmjx/http/http_parser/http_parser.c:1206-1793 | Any list of header lines with one length at most: every line is reported, and the parser holds what they say together |
| HttpHeads.SaidExactly | xzmjx/http/http_parser/http_parser.c:1408-1793 | A word counts as said if and only if one of the lines of its kind says it |
| HttpHeads.HeadRun | xzmjx/http/http_parser/http_parser.c:1795-1942 | Any header section after any start line: how the body is delimited (RFC 7230, section 3.3.3), whether the protocol is switched, and what is refused, from the start line and what the headers say |
| HttpHeads.BareEnd | xzmjx/http/http_parser/http_parser.c:1206-1220 | A line feed alone ends the section as the two bytes do |
| HttpBodies.MessageRun | xzmjx/http/http_parser/http_parser.c:1206-2154 | A whole header section with the body that it announces, in chunks, of a length, or none: everything is taken to the last byte, and the next message is waited for if and only if the connection lasts by version and options (section 6.3) |
| HttpBodies.EofMessage | xzmjx/http/http_parser/http_parser.c:1981-1985 | A response with neither length nor chunks takes all that follows for its body, and does not end before the stream |
| HttpBodies.TrailerRun | xzmjx/http/http_parser/http_parser.c:1795-1810 | Header lines after the last chunk are reported before the end of the message, and their options are heard with the others |
| HttpBodies.RestCounts | xzmjx/http/http_parser/http_parser.c:1944-2154 | The body that is reported is the data carried, and there is one end of message |
| HttpStatusLine.StatusRun | xzmjx/http/http_parser/http_parser.c:769-925 | A status line is read as its version and its code, and its reason is reported |
| HttpStatusLine.CodeExact | xzmjx/http/http_parser/http_parser.c:850-893 | The digits of a status code are accepted if and only if their number is at most 999, and are read as that number |
| HttpStatusLine.NoBlank | xzmjx/http/http_parser/http_parser.c:865-905 | The status line may end with its code; an empty reason is reported |
| HttpStatusLine.CodeAllows | xzmjx/http/http_parser/http_parser.c:850-893 | Blanks may come before the code; what else may not |
| HttpStatusLine.BareReasonEnd | xzmjx/http/http_parser/http_parser.c:907-920 | A line feed alone ends the status line |
| HttpMethods.MethodRun | xzmjx/http/http_parser/http_parser.c:927-1022 | Each method is recognised from its spelling, its printed name but for M-SEARCH, through the chain of guesses at what it could be |
| HttpMethods.MethodExactly | xzmjx/http/http_parser/http_parser.c:927-1022 | After line ends, a text before a blank is recognised as a method if and only if it is its name, or `M-- SEARCH` for M-SEARCH, and the limit allows it |
| HttpMethods.MSearchFails | xzmjx/http/http_parser/http_parser.h:189-189 | What is printed for M-SEARCH, and its name, are refused |
| HttpMethods.MSearchSpelling | xzmjx/http/http_parser/http_parser.c:999-999 | M-SEARCH is recognised from `M-- SEARCH` and from nothing else |
| HttpRequestLine.UrlRun | xzmjx/http/http_parser/http_parser.c:1024-1095 | A text that the URL automaton gets through, started at the server for CONNECT, is reported as the URL, byte for byte |
| HttpRequestLine.UrlExactly | xzmjx/http/http_parser/http_parser.c:1024-1095 | Of the texts without blanks and line ends just those that the automaton gets through are taken, and the others are refused |
| HttpRequestLine.UnfinishedUrl | xzmjx/http/http_parser/http_parser.c:1042-1063 | A URL may not end before its server has begun |
| HttpRequestLine.BlankBeforeUrl | xzmjx/http/http_parser/http_parser.c:1024-1040 | Blanks before the URL are passed over |
| HttpRequestLine.VersionRun | xzmjx/http/http_parser/http_parser.c:1097-1204 | The version of the request line is read as its two digits |
| HttpRequestLine.RequestLineRun | xzmjx/http/http_parser/http_parser.c:927-1204 | A request line is read as its method, its URL and its version, from any parser that waits for a request |
| HttpRequestLine.ShortLine | xzmjx/http/http_parser/http_parser.c:1072-1085 | A URL at the end of its line makes a request of version 0.9 |
| HttpRequestLine.BareLineEnd | xzmjx/http/http_parser/http_parser.c:1177-1193 | A line feed alone ends the request line |
| HttpRequestLine.IceRun | xzmjx/http/http_parser/http_parser.c:1097-1144 | The method SOURCE may name the protocol ICE |
| HttpRequestLine.ProtocolStarts | xzmjx/http/http_parser/http_parser.c:1097-1114 | And no other method may; before the protocol blanks are passed over |
| HttpWholeMessages.OneMessage | xzmjx/http/http_parser/http_parser.c:641-2180 | A whole request or response of any method, URL, version, code and headers, from any parser that waits for one: it is taken to its last byte, the call ends there exactly where the protocol is switched, and another message is waited for exactly when the connection lasts |
| HttpWholeMessages.MessageReported | xzmjx/http/http_parser/http_parser.c:641-2154 | Its callbacks: begin, start line, headers, end of headers, the body as carried, and one end of message |
| HttpWholeMessages.TransferDecides | xzmjx/http/http_parser/http_parser.c:1738-1942 | In a message with a transfer coding and no length, any chunks are read as the concatenation of their data if and only if some Transfer-Encoding line, its name in any case, is heard to end with `chunked`; otherwise a request is refused and the body of a response lasts to the end of the stream, unless the protocol is switched |
| HttpWholeMessages.ChunkedMessage | xzmjx/http/http_parser/http_parser.c:1738-2116 | From a fresh parser of either kind: with a Transfer-Encoding line that says `chunked` anywhere among the headers, any chunks are reported as the concatenation of their data, with one end of message |
| HttpWholeMessages.ConversationRun | xzmjx/http/http_parser/http_parser.c:641-2180 | Any number of messages on a connection that lasts, each with its own framing: from a fresh parser each is read to its last byte and the next begins there; the events are those of the messages in order |
| HttpWholeMessages.DeadRefuses | xzmjx/http/http_parser/http_parser.c:721-729 | Where the connection does not last, line ends are all that is taken afterwards |
| HttpWholeMessages.LineEndsPassed | xzmjx/http/http_parser/http_parser.c:731-935 | Line ends before a message are passed over |
| HttpWholeMessages.EitherKind | xzmjx/http/http_parser/http_parser.c:731-768 | A parser for both kinds reads a text as the parser for the kind does that its first two bytes begin |
| HttpRequestText.PrintedRun | xzmjx/http/http_parser/http_parser.c:641-2154 | The run over a printed request: the acts of its parts in order, to the last byte; or a failure, and which, exactly when a header name spoils it |
| HttpRequestText.MessageReported | xzmjx/http/http.cpp:189-210 | The callbacks of that run: begin, URL, each header's name and value, end of headers, the body, and exactly one end of message |
| HttpRequestText.MessageRebuilt | xzmjx/http/http_parser.cpp:60-142 | From those callbacks the request is built: method, version, path, query, fragment, headers with the printed ones, and body |
| HttpRequestText.PrintThenParse | xzmjx/http/http.cpp:189-210 | For any well-formed request and any order of its headers: parsing what is printed gives it back if and only if no header name begins with "transfer-encoding"; otherwise the parser reports an error, one for requests with a body and another for those without |
| HttpRequestText.SpoiltWitness | xzmjx/http/http_parser/http_parser.c:1206-1391 | There is such a request, within the limits |
| HttpRequestText.PrintedLasts | xzmjx/http/http_parser/http_parser.c:2156-2180 | After a printed request the parser waits for another one exactly when the connection lasts by the options that are printed, those of a proxy-connection header included |
| HttpRequestText.CloseIsHeard | xzmjx/http/http.cpp:189-210 | So without such a header it is dead if and only if the request says close, or, for a request that prints no connection line, if its version has a nought in it |
| HttpRequests.HttpRequest.Dump | xzmjx/http/http.cpp:189-210 | The printer writes the text that the round trip is about |
| HttpRequests.RequestParser.OnUrl | xzmjx/http/http_parser.cpp:65-98 | The URL callback, for a URL of any length, stores path, query and fragment as the split says, or fails and stores nothing |
| HttpRequests.RequestParser.DeliverAll | xzmjx/http/http_parser.cpp:60-156 | The callbacks of a call, on the objects, build what the round trip says |
| HttpRequests.PrintAndParse | xzmjx/http/http.cpp:189-210 | Objects: dumping a request, parsing the text and delivering the callbacks fills a fresh request in with the printed one, or leaves the parser with the stated error |
| ByteArrays.ByteArray.Write | xzmjx/bytearray.cpp:295-329 | Overwrites or extends at the cursor, over any number of nodes; nothing before it changes, the size grows with the position, list and cursor stay well formed |
| ByteArrays.ByteArray.Read | xzmjx/bytearray.cpp:331-359 | Returns the string from where the cursor stands, or throws, or dereferences null, and leaves the cursor as stated, lagging or not |
| ByteArrays.ByteArray.ReadAt | xzmjx/bytearray.cpp:361-391 | Returns the string from the position; exactly when it throws, with the wrapping difference, and when it dereferences null |
| ByteArrays.ByteArray.SetPosition | xzmjx/bytearray.cpp:393-410 | Moves the cursor, extends the size, and puts a lagging cursor right; refuses a position above the capacity |
| ByteArrays.ByteArray.Clear | xzmjx/bytearray.cpp:282-293 | Keeps the first node and what it holds, and nothing else |
| ByteArrays.ByteArray.AddCapacity | xzmjx/bytearray.cpp:454-480 | Appends just the nodes that are needed, rounded up, and sets the cursor only if it was null |
| ByteArrays.ByteArray.GetReadBuffers | xzmjx/bytearray.cpp:489-515 | Which vectors the loop makes: one, or two of which the first runs to the end of its node and the second has the whole length; with more than a node to read it runs off the list |
| ByteArrays.ByteArray.GetReadBuffersAt | xzmjx/bytearray.cpp:517-549 | The same from a position of the caller's choice |
| ByteArrays.ByteArray.GetWriteBuffers | xzmjx/bytearray.cpp:551-577 | The same for writing, after growing |
| ByteArrays.ByteArray.VectorsHold | xzmjx/bytearray.cpp:500-513 | The vectors hold the string from their place, and as many bytes too many as the first of two holds |
| ByteArrayRuns.ValidSound | xzmjx/bytearray.cpp:282-480 | Every valid byte array is in a state that the lemmas on runs are about |
| ByteArrayRuns.StepAgrees | xzmjx/bytearray.cpp:282-410 | An operation that finds the cursor in its place does what it does on a flat string: same reply, same string |
| ByteArrayRuns.InStepAfter | xzmjx/bytearray.cpp:331-359 | When the cursor is in its place after an operation, exactly |
| ByteArrayRuns.RunAgrees | xzmjx/bytearray.cpp:282-410 | A run of such operations is a run on a flat string |
| ByteArrayRuns.StraightSafe | xzmjx/bytearray.cpp:282-410 | A run from a cursor in its place, in which no read slips, is one of those |
| ByteArrayRuns.SlipThenRead | xzmjx/bytearray.cpp:339-357 | After a read that slips the next one starts one node early; it is right exactly when the string repeats itself there |
| ByteArrayRuns.OneByteNodes | xzmjx/bytearray.cpp:339-357 | With nodes of one byte no read slips |
| Varints.ZigzagRoundTrip | xzmjx/bytearray.cpp:77-95 | For every width the exclusive-or form of decoding inverts the arithmetic form of encoding, the smallest number included, and the other way round |
| Varints.VarintSize | xzmjx/bytearray.cpp:112-122 | A 64-bit number takes one to ten bytes, a 32-bit number at most five |
| Varints.VarintTopBits | xzmjx/bytearray.cpp:98-122 | Just the last byte of a number has its top bit clear |
| Varints.EncodeUint64 | xzmjx/bytearray.cpp:112-122 | The loop that fills an array of ten computes the encoding |
| Varints.ReadsBack | xzmjx/bytearray.cpp:221-234 | Where the bytes to come are those of a number, that number is read and just they are consumed |
| Varints.ListReadsBack | xzmjx/bytearray.cpp:219-234 | The same for a list of numbers |
| Varints.SignedReadsBack | xzmjx/bytearray.cpp:219-219 | The same for a signed number, through zigzag |
| Varints.WritesEncoding | xzmjx/bytearray.cpp:110-122 | Writing a list at a cursor in its place puts its encoding there and changes nothing before it |
| Varints.BytewiseFrom | xzmjx/bytearray.cpp:331-359 | What is read byte by byte: with nodes of more than one byte, the first node over and over |
| Varints.RoundTripExactly | xzmjx/bytearray.cpp:221-234 | From the start of any buffer: all lists encoded in n bytes, written, and read after `setPosition(0)`, come back if and only if n is at most a node, or nodes are of one byte |
| Varints.WrittenBegins | xzmjx/bytearray.cpp:112-122 | After writing a list from the start and going back, the buffer begins with its encoding and the cursor is right |
| Varints.SpoilerRun | xzmjx/bytearray.cpp:331-359 | For every larger n there is such a run, from any buffer, that does not give back what it wrote |
| Varints.SpoilerFails | xzmjx/bytearray.cpp:331-359 | For every n larger than a node of several bytes there is a list encoded in n bytes that does not come back from any buffer that begins with it |
| Varints.Read32Exactly | xzmjx/bytearray.cpp:204-217 | What `readUint32` makes of a number, whatever follows it: its low seven bits if it has several bytes; the number itself if and only if it has one byte and the further bytes read, up to the first of 128 or above and at most four, add nothing |
| Varints.Read32Witness | xzmjx/bytearray.cpp:204-217 | In a buffer of one node of eight bytes that holds 5, 0, 0, 0, 0, the number 5 is read as 5 |
| Varints.Read32NeverLast | xzmjx/bytearray.cpp:204-217 | The last number in the buffer never comes back: its low seven bits do, or the reader throws |
| Varints.WriteUint64 | xzmjx/bytearray.cpp:112-122 | Writing a number on the buffer itself |
| Varints.ReadUint64 | xzmjx/bytearray.cpp:221-234 | Reading a number from the buffer itself, with the state it leaves |
| Varints.WriteAndRead | tests/test_bytearray.cpp:9-27 | What the test does, on the byte array itself and for nodes of any size: what is written from the start, with `setPosition(0)` after it, is read as the functions say, and comes back when it fits the first node or nodes are of one byte |
| Timers.CancelInv | xzmjx/timer.cpp:10-22 | Cancelling keeps the set sorted by the deadlines the timers have, succeeds exactly for a timer with a callback, and takes it out |
| Timers.RefreshInv | xzmjx/timer.cpp:24-37 | Refreshing keeps that too, for it changes the deadline outside the set |
| Timers.ResetInv | xzmjx/timer.cpp:39-59 | Resetting keeps that too |
| Timers.ExpireExactly | xzmjx/timer.cpp:105-129 | Exactly the timers that are due are taken, in order of deadline, and the callbacks of those that have one are handed out in that order; exactly the recurring ones of them are armed again; all else is kept |
| Timers.SortedMeans | xzmjx/timer.cpp:68-82 | The set is in the order of the deadlines, and of the addresses where these are the same |
| Timers.IntervalIsSoonest | xzmjx/timer.cpp:131-144 | The interval is the time to the least deadline of all timers in the table that wait |
| TimerRuns.RunInv | xzmjx/timer.cpp:10-156 | The set is sorted by the deadlines the timers have in every run |
| TimerRuns.FromEmpty | xzmjx/timer.cpp:10-156 | Every run from the empty set on ends in a sorted set in which no timer counts from a moment still to come, as the lemmas on deadlines ask |
| TimerRuns.CancelSilences | xzmjx/timer.cpp:10-22 | After a `cancel` that returned true the timer's callback is never handed out |
| TimerRuns.SilentForever | xzmjx/timer.cpp:105-129 | A timer without callback stays so, and is never handed out, in every run |
| TimerRuns.OneShotOnce | xzmjx/timer.cpp:105-129 | A one-shot timer is handed out at most once in every run |
| TimerRuns.RefreshLowers | xzmjx/timer.cpp:24-37 | Refreshing lowers a deadline exactly when the addition wraps now and did not when the deadline was set |
| TimerRuns.RefreshDropsEarliest | xzmjx/timer.cpp:24-37 | A refresh that succeeds lowers the earliest deadline of all exactly when it wraps to below it |
| TimerRuns.ExpireLowers | xzmjx/timer.cpp:105-129 | Expiry lowers the earliest deadline, and without telling, if and only if a recurring timer is armed again past the end of the clock, to below the earliest deadline there was |
| TimerRuns.Told | xzmjx/timer.cpp:24-156 | Every operation that lowers the earliest deadline calls the insert-at-front hook, except exactly a refresh or a re-arming that wraps to below that deadline |
| TimerRuns.Bounded | xzmjx/timer.cpp:10-156 | For every operation and every bound at or below all deadlines: they stay so, or the hook is called, if and only if no deadline is silently wrapped to below the bound |
| TimerRuns.WrapWitness | xzmjx/timer.cpp:24-37 | Near the end of the clock a refresh lowers the earliest deadline and tells nobody |
| TimerRuns.NoMissedDeadline | xzmjx/timer.cpp:131-156 | A sleeper that goes by `getNextTimerInterval` is, throughout any run of other operations, due no later than the earliest deadline or told since, if and only if no refresh and no re-arming, while it has not been told, wraps to below the moment it wakes. Clock readings made before the lock may be older than other operations |
| TimerRuns.NeverLate | xzmjx/timer.cpp:131-156 | While no deadline wraps the sleeper is never late |
| TimerMoments.ResetCounts | xzmjx/timer.cpp:39-59 | A reset that succeeds makes the timer count its new time from the reading of the clock when asked to and from the same moment as before otherwise; it waits at that deadline, and every other timer is as it was |
| TimerMoments.RefreshCounts | xzmjx/timer.cpp:24-37 | A refresh makes it count the same time from the reading of the clock |
| TimerMoments.AddCounts | xzmjx/timer.cpp:88-103 | A new timer counts from the reading it was made with, and waits |
| TimerMoments.FiredExactly | xzmjx/timer.cpp:105-129 | A timer is handed out exactly by an expiry whose clock has reached its moment plus its time, while it waits and has a callback |
| TimerMoments.RunsNeverEarly | xzmjx/timer.cpp:10-156 | In every run no timer is handed out before its moment plus its time, unless that wraps, whatever resets, refreshes and expiries moved the moment to |
| TimerMoments.NewNeverEarly | xzmjx/timer.cpp:88-129 | In particular from when it is added |
| TimerManagers.TimerManager.AddTimer | xzmjx/timer.cpp:88-93 | The method on the ordered set does the step, the hook included |
| TimerManagers.TimerManager.Cancel | xzmjx/timer.cpp:10-22 | The same for `cancel` |
| TimerManagers.TimerManager.Refresh | xzmjx/timer.cpp:24-37 | The same for `refresh` |
| TimerManagers.TimerManager.Reset | xzmjx/timer.cpp:39-59 | The same for `reset`; which moment it counts from is what `TimerMoments.ResetCounts` says of that step |
| TimerManagers.TimerManager.ListExpired | xzmjx/timer.cpp:105-129 | The loop over the expired range computes that step and its callbacks |
| TimerManagers.TimerManager.LowerBound | xzmjx/timer.cpp:68-82 | The search splits the set at the probe, by deadline and then by address |
| TimerManagers.TimerManager.GetNextTimerInterval | xzmjx/timer.cpp:131-144 | What is returned is the time to the least deadline of all timers that wait, nought if that has passed, the largest number if none waits |
| IoManagers.AddBalanced | xzmjx/iomanager.cpp:87-132 | Adding keeps bit, slot and kernel interest in agreement and aborts exactly when the event is registered |
| IoManagers.DelBalanced | xzmjx/iomanager.cpp:134-165 | Deleting one event keeps the agreement and succeeds exactly when it is registered and the kernel agrees |
| IoManagers.CancelBalanced | xzmjx/iomanager.cpp:206-235 | Cancelling one event keeps it and submits its waiter |
| IoManagers.DelAllBreaks | xzmjx/iomanager.cpp:167-204 | Deleting all events breaks the agreement exactly when it succeeds |
| IoManagers.CancelAllBreaks | xzmjx/iomanager.cpp:237-270 | Cancelling all keeps it exactly when at most one event was registered |
| IoManagers.DeliverBalanced | xzmjx/iomanager.cpp:328-380 | Delivery keeps the agreement and accounts for every waiter; it aborts exactly when something registered is reported together with something that is not |
| IoManagers.LostForever | xzmjx/iomanager.cpp:87-270 | A descriptor with event bits and no interest never changes again: adding what is set aborts, all else is refused |
| IoManagers.StepAccounted | xzmjx/iomanager.cpp:32-48 | Every operation keeps the account: waiters added are waiters submitted, deleted and waiting, and the pending count is the number of occupied slots |
| IoManagers.StepAgreement | xzmjx/iomanager.cpp:87-380 | For every operation: the agreement of all descriptors survives it if and only if it is none of those two |
| IoManagers.RunAccounted | xzmjx/iomanager.cpp:87-380 | The account holds in every run |
| IoManagers.RunAgreement | xzmjx/iomanager.cpp:87-380 | The agreement holds in every run of harmless operations |
| IoManagers.SubmittedOnce | xzmjx/iomanager.cpp:38-48 | In every run, harmless or not, a waiter added once is submitted or deleted at most once in all |
| IoWakes.OpWakes | xzmjx/iomanager.cpp:87-270 | Which waiters every operation wakes and which it drops: adding neither; deleting wakes none and drops exactly those of what was registered; cancelling and delivery drop none; one that does not succeed changes nothing |
| IoWakes.DeliverWakes | xzmjx/iomanager.cpp:328-380 | A report wakes exactly the reader when it says readable or broken, and the writer when it says writable or broken, as far as they are registered, in that order; when it aborts |
| IoWakes.OneEvent | xzmjx/iomanager.cpp:87-235 | Adding, deleting and cancelling one event leave the other event as it was |
| IoWakes.RunWakes | xzmjx/iomanager.cpp:87-380 | Over runs: without cancelling and delivery nobody is woken, and without deleting nobody is dropped |
| IoWakes.DeletedNeverWoken | xzmjx/iomanager.cpp:134-204 | A waiter that is added once and whose registration ends by a delete is never woken, whatever came before and follows |
| IoWakes.CancelledIsWoken | xzmjx/iomanager.cpp:206-235 | One whose registration is cancelled is woken and never dropped |
| IoManagers.CancelAllStuck | xzmjx/iomanager.cpp:262-268 | After `cancelAll` of two events, whatever follows, the writer waits for ever and the pending count is never nought, so `canStop` is never true |
| IoManagers.DelAllStuck | xzmjx/iomanager.cpp:192-203 | After `delAll`, whatever follows, the same event aborts and the other is refused |
| IoManagers.ResizedHasRoom | xzmjx/iomanager.cpp:87-105 | Growing the table by half of the descriptor makes room for it |
| IoManagers.IoManager.AddEvent | xzmjx/iomanager.cpp:87-132 | The method does the step, growing the table included |
| IoManagers.IoManager.DelEvent | xzmjx/iomanager.cpp:134-165 | The same for `delEvent`; whom that step drops is what `IoWakes.OpWakes` says |
| IoManagers.IoManager.DelAllEvents | xzmjx/iomanager.cpp:167-204 | The same for `delAll` |
| IoManagers.IoManager.CancelEvent | xzmjx/iomanager.cpp:206-235 | The same for `cancelEvent` |
| IoManagers.IoManager.CancelAllEvents | xzmjx/iomanager.cpp:237-270 | The same for `cancelAll` |
| IoManagers.IoManager.DeliverEvent | xzmjx/iomanager.cpp:328-380 | The same for a turn of the delivery loop |
| Schedulers.StepInv | xzmjx/scheduler.cpp:61-163 | Every step of every worker keeps the invariant: while an unpinned task is queued some worker is still there, and a running fiber is run by one |
| Schedulers.StepCounted | xzmjx/scheduler.cpp:61-146 | Every step keeps the count: a task was submitted as often as it is queued, held by a worker or has been started; the active count is the number of active workers |
| Schedulers.ShutdownLosesNothing | xzmjx/scheduler.cpp:61-163 | Any number of workers, any interleaving: once all have left, only pinned tasks are queued, and every other task was started as often as it was submitted |
| Schedulers.PinnedCanBeLost | xzmjx/scheduler.cpp:77-92 | For every pinned task and any number of workers from two on there is a run in which all leave and the task stays behind |
| Schedulers.LostExactly | xzmjx/scheduler.cpp:61-163 | A task can be lost if and only if it is pinned and there are at least two workers |
| SchedulerRuns.WaitEndsExactly | xzmjx/scheduler.cpp:148-163 | Over every run: a wait fiber ends if and only if the scheduler was stopped, nothing is queued, nothing is outstanding, and no worker is running a task; otherwise the worker comes back |
| SchedulerRuns.BusyKeepsWaiting | xzmjx/scheduler.cpp:148-163 | While a worker runs a task no step ends any wait |
| SchedulerRuns.ReadyIsKept | xzmjx/scheduler.cpp:104-141 | Over every run: a fiber that is ready is in the queue or in the hands of a worker, and once all workers have left it is in the queue, pinned |
| SchedulerRuns.PinnedByItsOwn | xzmjx/scheduler.cpp:77-125 | Over every run: a task that is meant for one worker is switched to by that worker alone, in its own fiber |
| SchedulerRuns.YieldedComesBack | xzmjx/scheduler.cpp:104-141 | Over every run: a fiber that comes back ready is queued again with its pin, that of a callback without one; a fiber is kept for further callbacks exactly when it has ended one |
| Schedulers.BatchExactly | xzmjx/scheduler.h:75-89 | A batch is submitted whole if and only if the queue was not empty or nothing but empty tasks come after its first; otherwise just its first task is, or nothing if that is empty |
| Schedulers.Scheduler.SubmitRange | xzmjx/scheduler.h:75-89 | The loop over a batch, empty tasks included, does to the queue what the lemma is about, and notifies exactly when a batch comes to an empty queue |
| Schedulers.Scheduler.Take | xzmjx/scheduler.cpp:73-100 | The scan takes the first task that the worker may take, and notifies exactly when something stays queued |
| Schedulers.Scheduler.RunTurn | xzmjx/scheduler.cpp:70-145 | An undisturbed turn of the loop is the six steps of serving a task, or those of waiting, with or without a poll, or the last scan; what these steps come to over runs is said by the lemmas on steps above |
| WebSockets.HeadBack | xzmjx/http/ws_session.h:28-41 | The two bytes of a frame head are read back |
| WebSockets.FrameBack | xzmjx/http/ws_session.cpp:107-152 | A frame with its length in any of the three forms, masked or not, is read back, and what follows it is left |
| WebSockets.Reassembles | xzmjx/http/ws_session.cpp:89-166 | Any list of nonempty fragments, each in any form and under its own mask, comes back as one message with the first opcode and all payloads, and no byte more is consumed (RFC 6455, sections 5.2 to 5.4) |
| WebSockets.EmptyCloses | xzmjx/http/ws_session.cpp:143-147 | A data frame without payload closes the stream |
| WebSocketFrames.FragmentRefused | xzmjx/http/ws_session.cpp:107-160 | A fragment closes the stream if and only if it is empty, or has no mask where a server reads, or makes the message as long as the limit; otherwise its payload is taken and the message ends with it or goes on |
| WebSocketFrames.PongIsPong | xzmjx/http/ws_session.cpp:234-239 | The answer to a ping is 0x8A 0x00: a final frame, without mask and payload, of opcode 10 (RFC 6455, sections 5.2 and 5.5.3) |
| WebSocketFrames.PongsPassed | xzmjx/http/ws_session.cpp:103-107 | A peer passes over any number of answers and receives what it would have without them |
| WebSocketFrames.PingAnswered | xzmjx/http/ws_session.cpp:103-107 | A ping, opcode 9, whatever its other bits, is answered once and changes nothing else |
| WebSocketFrames.ControlPassed | xzmjx/http/ws_session.cpp:103-163 | Every other control frame is passed over |
| WebSocketFrames.AnswersUnanswered | xzmjx/http/ws_session.cpp:103-107 | So a stream of answers gets none |
| WebSocketFrames.MaskedBits | xzmjx/http/ws_session.cpp:148-152 | Masking turns just the bits that are set in the byte of the key (RFC 6455, section 5.3) |
| WebSocketFrames.UnmaskedHello | xzmjx/http/ws_session.cpp:168-220 | The unmasked text frame of RFC 6455, section 5.7 |
| WebSocketFrames.FragmentedHello | xzmjx/http/ws_session.cpp:168-220 | The same in two fragments |
| WebSocketFrames.LongForms | xzmjx/http/ws_session.cpp:107-140 | The heads of frames of 256 and 65536 bytes, as that section has them |
| WebSockets.ServerToClient | xzmjx/http/ws_session.cpp:168-220 | What a server sends comes back at the client if and only if it is not empty |
| WebSocketFrames.ShortestExactly | xzmjx/http/ws_session.cpp:176-182 | The length is sent in the shortest form that RFC 6455, section 5.2, asks for if and only if it is below 255 or above 65535 |
| WebSockets.ClientToServer | xzmjx/http/ws_session.cpp:200-215 | What a client sends arrives masked, and is what was sent if and only if the key bytes used are nought |
| WebSockets.MaskedTwice | xzmjx/http/ws_session.cpp:148-152 | Masking undoes itself |
| WebSockets.Unmask | xzmjx/http/ws_session.cpp:148-152 | The loop unmasks from a place on and leaves what comes before |
| WebSockets.WSRecvMessage | xzmjx/http/ws_session.cpp:89-166 | The receive loop returns, consumes and answers what the function says, and otherwise closes the stream; what an answer is to a peer is said by the two lemmas on answers above |
| WebSockets.WSSendMessage | xzmjx/http/ws_session.cpp:168-220 | For messages of any length: what is written, what is returned, and that the stream is closed exactly when the length is not positive as an `int` |
| UrlCodes.RoundTrip | xzmjx/util.cpp:679-738 | What is encoded with one flag and decoded with another comes back, except blanks written as `+` and read without that convention |
| UrlCodes.EncodeBack | xzmjx/util.cpp:679-738 | Encoding a decoded text gives it back exactly when the encoder could have written it |
| UrlCodes.EscapedExactly | xzmjx/util.cpp:679-708 | A byte is left as it is exactly when it is unreserved (RFC 3986, section 2.3) or `=`; otherwise it is escaped with the digits of its value, or written as `+` |
| UrlCodes.EscapeRead | xzmjx/util.cpp:710-738 | An escape is read as the byte of its two digits, these in either case |
| UrlCodes.OtherRead | xzmjx/util.cpp:710-738 | What is no escape stands for itself, but for a `+` where that stands for a blank |
| UrlCodes.UrlEncode | xzmjx/util.cpp:679-708 | The loop, with its copy made late, encodes |
| UrlCodes.UrlDecode | xzmjx/util.cpp:710-738 | The loop, with its copy made late, decodes |
| Queries.PairsExactly | xzmjx/http/http.cpp:10-26 | A list of pairs joined with coded values is taken apart into itself if and only if no key holds an `=` |
| Queries.TailLeftOut | xzmjx/http/http.cpp:10-26 | What follows the last pair and holds no `=` is left out |
| Queries.QueryBack | xzmjx/http/http.cpp:10-26 | Under each key, cases and what follows a NUL not told apart, stands the first pair that has it, and every key is there |
| Queries.HttpRequest.InitQueryParam | xzmjx/http/http.cpp:137-144 | The loop over the query inserts those pairs in order, once |
| Base64.DecodeBack | xzmjx/util.cpp:221-322 | Decoding an encoding gives the text back, for every text (RFC 4648, section 4) |
| Base64.AcceptsExactly | xzmjx/util.cpp:221-283 | A text is accepted if and only if it is whole groups of four symbols with at most two `=` at the end; the result has three bytes a group less one for each `=` |
| Base64.EncodeBack | xzmjx/util.cpp:221-322 | An accepted text is what its decoding is encoded to exactly when its spare bits are nought |
| Base64.AlphabetIs | xzmjx/util.cpp:285-290 | The 64 symbols, in the order of RFC 4648, table 1 |
| Base64.GroupIs | xzmjx/util.cpp:285-322 | Up to three bytes are written as the symbols of the same number, high bits first, and `=` for those that hold none of them |
| Base64.GroupByGroup | xzmjx/util.cpp:285-322 | Longer texts are written group by group |
| Base64.Base64Encode | xzmjx/util.cpp:285-322 | The loop encodes |
| Base64.Base64Decode | xzmjx/util.cpp:221-283 | The loop decodes into its buffer and never past it, and gives the empty text for what is not accepted |
| Bitmaps.CountExactly | xzmjx/ds/bitmap.cpp:97-120 | The count is that of the bits below the size if and only if none is set between the size and the end of the last whole block |
| Bitmaps.CleanCount | xzmjx/ds/bitmap.cpp:97-120 | For a bitmap without bits above its size it is the number of indices in the set |
| Bitmaps.JoinClean | xzmjx/ds/bitmap.cpp:138-170 | Intersections and unions of such bitmaps are such bitmaps |
| Bitmaps.FlipClean | xzmjx/ds/bitmap.cpp:182-193 | Their complements are exactly when the size is a whole number of words |
| Bitmaps.UpdateClean | xzmjx/ds/bitmap.cpp:69-80 | Setting an index keeps it so exactly when it sets none at or above the size |
| Bitmaps.Bitmap.Get | xzmjx/ds/bitmap.cpp:60-67 | The bit, or out of range |
| Bitmaps.Bitmap.Set | xzmjx/ds/bitmap.cpp:69-80 | Changes that bit and no other |
| Bitmaps.Bitmap.GetCount | xzmjx/ds/bitmap.cpp:97-120 | By blocks and then bit by bit, what is counted |
| Bitmaps.Bitmap.HasAny | xzmjx/ds/bitmap.cpp:82-93 | True if and only if some bit is set, those above the size included |
| Bitmaps.Bitmap.Combine | xzmjx/ds/bitmap.cpp:138-170 | By blocks and then by words, every bit is combined just once |
| Bitmaps.Bitmap.Complement | xzmjx/ds/bitmap.cpp:182-193 | By blocks and then by words, every bit is turned just once |

## Left out

- HttpExecute.HttpParser.Execute: requires that the limit and the byte counter, each with the buffer added, stay below 2^32, because the 32-bit counter would wrap in the skip-ahead loops; after an error the position is only said to be within the buffer, and beyond the header limit the error may be that of a bad value, because the loop over a value counts its bytes late.
- WebSockets.Reassembles: the limit is at most 2^31, because the source keeps the length so far in an `int`.
- TimerRuns.NoMissedDeadline: holds of a clock that does not go back.
- Pausing the parser, callbacks that fail or ask to skip the body, lenient headers, `allow_chunked_length` and the non-strict build: callbacks return 0 and the strict switches have their defaults.
- The limit on the header section is a parameter; the source keeps it in a global.
- The response side of the HTTP wrapper, which has the same callbacks again; the parser itself is modelled for both kinds.
- HttpHeads.LinesRun: is about lines with one blank after the colon, ended by two bytes and not folded; `BlanksSkipped`, `BareEnds` and `FoldedLine` are about the others. More than one length is refused (`LengthValueExact`).
- HttpWholeMessages.ConversationRun: is about chunked messages without trailer fields (`TrailerRun` has these), because the byte counter then starts from the length of the trailer at the next message.
- Requests whose URL or headers arrive in pieces: the wrapper's callbacks for them overwrite instead of append (the body's appends), so the round trip is about one call.
- The fixed-width, floating-point and string forms of the buffer's readers and writers, files, and `toString`: they are one `write` or `read` each.
- The 16-bit length that `readStringF64` reads.
- Memory: nodes that are given back, and reads of bytes that were never written; new nodes hold anything.
- `addCondTimer` and weak pointers: the callback is an opaque number.
- What callbacks do; that the hook wakes the sleeper is taken for granted.
- Fiber contexts, stacks and exceptions: a switch with the state it writes is one step, and resuming a fiber that runs, which aborts the process, ends a run.
- Spurious results of `epoll_wait` for a descriptor that was closed and opened again.
- Idle worker counts, thread start and join, and that pending timers and events hold up the stop of an `IOManager`: a task is dequeued before the active count rises, so that is not kept.
- Reads and writes on a WebSocket stream that do less than they are asked, and writes that fail; the handshake; payloads of control frames, which the source leaves in the stream.
- `initBodyParam` and `initCookies`, which run the same loop over the body and, with trimmed keys, over a header.
- Words of a bitmap are sequences of their bits; that a bitwise operation on 64 bits is one on four words of 16 is thereby plain, and the byte order of the machine does not appear.
- Comparison, assignment and printing of bitmaps.
- The fiber mutexes, the ring buffer and the Bloom filter, whose code does not do what they are for; configuration, logging, sockets, servlets and modules.
