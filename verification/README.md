# eventpp in Dafny

A model of the core of eventpp, a C++ event and HTTP server library, with proofs about it. The
project is self-contained: `dafny verify dfyconfig.toml` checks all of it. Nothing of eventpp is
executed.

What is modelled, by file:

- `ParserTypes`, `ParserStep`: the state machine of `http_parser_execute`, one byte at a time, with
  the `reexecute_byte` jumps followed to their end. What the code does with its mark pointers is
  returned as an operation on marks.
- `ParserInvariant`: what every byte keeps. The asserts of the parser follow from it.
- `ParserReplies`: what every byte does with the replies of the callbacks.
- `ParserRun`: one call of `http_parser_execute` as a fold of that step. `ParserExecute`: the class
  `HttpParser` whose method `Execute` has the loop of the source, with its mark indices, the
  fast-forward loops over names and values, and bodies taken in bulk; it is proved to do the same as
  the fold.
- `ParserEvents`, `ParserCuts`: streams of callbacks up to how their text is cut into pieces, a reading
  of the stream that knows no calls, and the theorem that every way to cut the stream into calls comes
  to the same. `ParserLimit`: exactly which streams run into the header limit in some cut.
- `ParserMethod`, `ParserFraming`, `ParserBody`: which methods are recognised, how the body is framed,
  which lengths are accepted, and what is read as body.
- `HttpGrammar`: the characters and texts of HTTP messages and URLs, by their letters, without the parser.
- `TargetForms`: exactly which texts the parser takes as the target of a request, and that the URL parser agrees
  on paths.
- `StartLines`: request lines and status lines, written out and read back.
- `ParserLines`, `ParserChunks`: header lines, folded or not, and chunked bodies, with extensions and
  trailers, written out and read back. `ParserEnd`: which messages the end of the stream completes.
- `UrlParser`: `http_parser_parse_url`, as functions and as a class whose methods have the loops of the
  source. `UrlPartition`: an accepted URL is partitioned into its parts. `UrlExact`: exactly which URLs are
  accepted, and what is found in them. `UrlTarget`: what is found in a path, and what
  `url_path()`, `url_query()` and `url_fragment()` give.
- `HttpRequest`: the request put together from the callbacks, the class `HttpRequest` with `Parse`, and
  its independence of how the bytes arrive. `RequestRoundTrip`: a request written as text is read back.
- `Response`: the body that `SendReply` sends, read back by the parser.
- `Buffer`: the byte buffer, over an array, and its integers in network order.
- `EventLoop`: `QueueInLoop`, `DoPendingFunctors` and the wake-up pipe as a state machine over the atomic
  steps of any number of threads.
- `Conn`: `TCPConn` over `FdChannel` and its output buffer, as functions on a state, with classes that
  refine them.

Time, sockets and system calls are parameters: the result of `send`, what a read delivers, when an event
fires. The replies of the notification callbacks are a parameter of the parser (`Settings`).

Where the code does less than its comments promise, the model follows the code, and the proofs say
exactly when the promise holds:

- A byte other than LF after the CR of a header value sends the parser back into the value, without a
  mark. What is then delivered depends on where the calls are cut: `CutsAgreeExactly`,
  `LoneCrDependsOnCuts`.
- The header limit of 80 KiB is checked once per call, so whether a stream runs into it depends on the
  cuts as well: `LimitDependsOnCuts`. No cut does if and only if no more than the limit is read in a row
  of header states since the last reset: `WithinLimitExactly`, and for requests `RequestLimitExactly`.
- The largest `Content-Length` accepted is 9223372036854775799, not the largest `int64_t`:
  `ContentLengthRead`.
- Only half of the table of hex digits is written out and the rest is 0, so a byte of 0x80 or more counts
  as the digit 0 in a chunk size: `ChunkSizeRead`, `HighByteIsZeroDigit`.
- `http_parser_parse_url` says a URL with a scheme has a host. With a struct that was not zeroed first,
  what is left in it can stand in for the host: `PartitionExactly`, `StaleHost`.
- Offsets and lengths of URL parts have 16 bits: `WidthExactly`, `UrlPath`, `UrlQueryAndFragment`.
- Under CONNECT `http_parser_parse_url` says it only accepts "hostname:port". It also accepts an '@' before the
  host, and a '?' and '#'s behind the port: `UrlExactly`. `http_parser_execute` lets a path or query follow
  the authority of a CONNECT: `TargetExactly`.
- `HttpRequest` keeps of a folded field only the first line under its name, and stores the last one under the
  empty name; a field without a value is not kept if its line ends in LF only: `RequestHandled`,
  `FieldKeptExactly`.
- `HttpRequest` parses every target as if the method were CONNECT, and ignores the failure. For targets
  that start with '/' the path, query and fragment are right all the same: `UrlPath`,
  `UrlQueryAndFragment`.
- The chunk size is printed from an `int`, so only bodies below 2^32 bytes are read back: `SizeLineRight`,
  `ReplyReadsBack`.
- A Transfer-Encoding is only looked at on the first line of a folded value: `FramingDecision`.
- `QueueInLoop` uses a compare-and-swap that may fail spuriously, and does not try again. Queued tasks are
  then left in the queue unless something else still wakes the loop: `SpuriousExactly`,
  `SpuriousFailureLosesWakeUp`.
- `TCPConn::Close` on a connection that is already closed closes it again: `StepInv`, `CloseTwice`.

## Model

| member | source | states |
|---|---|---|
| `ParserInvariant.StepFits` | src/evpphttp/http_parser.cpp:920-2503 | Every byte in every state keeps the invariant of the parser: counters in range, the matched prefixes within their strings, body lengths positive where body is read, mark operations that fit the states on both sides, a byte left unconsumed only with errno set. The asserts in the loop follow. |
| `ParserInvariant.InitLive` | src/evpphttp/http_parser.cpp:2561-2570 | A parser initialised over arbitrary memory satisfies the invariant and is before a message of its type. |
| `ParserRun.CallKeepsInv` | src/evpphttp/http_parser.cpp:845-918 | Every call, on any bytes, leaves the parser in its invariant and returns no more than it was given, unless it was given nothing and so reports an error. |
| `ParserRun.RunOverFits` | src/evpphttp/http_parser.cpp:2533-2535 | Throughout a call at most one mark is set, and only in the states that can have it. |
| `ParserReplies.RepliesObeyed` | src/evpphttp/http_parser.cpp:71-94 | In every state, a notification callback that does not return 0 is the last one made, and stops the parser paused or with its own error, before or after the byte as the macro says; nothing else pauses it or sets such an error. |
| `ParserExecute.TokensSkipped` | src/evpphttp/http_parser.cpp:1833-1865 | Skipping over token bytes of a name that matches nothing is stepping through them. |
| `ParserExecute.PlainSkipped` | src/evpphttp/http_parser.cpp:2034-2112 | The fast-forward over plain bytes of a header value is stepping through them. |
| `ParserExecute.BodyTaken` | src/evpphttp/http_parser.cpp:2325-2357 | Taking a piece of a body of known length at once is stepping through it. |
| `ParserExecute.ChunkTaken` | src/evpphttp/http_parser.cpp:2460-2479 | The same for the data of a chunk. |
| `ParserExecute.EofTaken` | src/evpphttp/http_parser.cpp:2359-2364 | The same for a body that ends with the stream. |
| `ParserExecute.LastBodyByte` | src/evpphttp/http_parser.cpp:2344-2376 | The last bytes of a body of known length are called back once, and the message completed. |
| `ParserExecute.HttpParser.constructor` | src/evpphttp/http_parser.cpp:2561-2570 | A new parser over arbitrary memory is ready. |
| `ParserExecute.HttpParser.SetPaused` | src/evpphttp/http_parser.cpp:2847-2861 | Pausing changes errno only between none and paused. |
| `ParserExecute.HttpParser.SkipName` | src/evpphttp/http_parser.cpp:1833-1865 | The inner loop over a name, in place, follows the fold. |
| `ParserExecute.HttpParser.SkipValue` | src/evpphttp/http_parser.cpp:2034-2112 | The inner loop over a value, in place, follows the fold. |
| `ParserExecute.HttpParser.TakeBody` | src/evpphttp/http_parser.cpp:2325-2357 | The bulk read of a body, in place, follows the fold. |
| `ParserExecute.HttpParser.Execute` | src/evpphttp/http_parser.cpp:845-2551 | The whole loop with marks and fast paths leaves the same struct, makes the same callbacks in the same order and returns the same number as the byte-by-byte fold, for every input. |
| `ParserEvents.PushAllAppend` | src/evpphttp/http_parser.cpp:2523-2542 | Merging pieces of text does not depend on how the callbacks are grouped into calls. |
| `ParserCuts.FeedAllReads` | src/evpphttp/http_parser.cpp:895-2551 | Calls in a row on the pieces of a clean stream come to what a reading of the stream without calls comes to. |
| `ParserCuts.CutIndependence` | src/evpphttp/http_parser.cpp:895-2551 | Fed in any pieces, a stream gives the same struct, position and stop as in one call, and a clean stream the same (merged) callbacks, unless the header limit stops one of the two. |
| `ParserCuts.CutsAgreeExactlyWhenClean` | src/evpphttp/http_parser.cpp:2170-2195 | All cuts of all beginnings of a stream within the header limit agree if and only if no byte is accepted right after one that made the parser resume a header value without a mark. |
| `ParserLimit.CutsAgreeExactly` | src/evpphttp/http_parser.cpp:895-2551 | For every stream: all cuts of all its beginnings agree if and only if no byte is accepted right after such a resumption and none is beyond the header limit, except that the very last byte may be the first one beyond it, where every cut overflows. |
| `ParserLimit.WithinLimitExactly` | src/evpphttp/http_parser.cpp:2505-2521 | No cut of a beginning of a stream runs into the header limit if and only if, wherever the parser is in a header state, at most 80 KiB were read since the message, the headers or the chunk before it reset the count. |
| `ParserLimit.SmallWithinLimit` | src/evpphttp/http_parser.cpp:2513-2521 | No cut of a stream of at most 80 KiB runs into the header limit. |
| `ParserLimit.NoOverflow` | src/evpphttp/http_parser.cpp:2505-2521 | Under that condition no way of feeding the stream overflows, however many messages it has and however long their bodies, chunked or not. |
| `ParserLimit.StretchWithin` | src/evpphttp/http_parser.cpp:2505-2521 | A stretch of header without a callback that ends it counts every byte, and is within the limit if and only if its end is. |
| `ParserMethod.MatcherInvariant` | src/evpphttp/http_parser.cpp:1174-1326 | While a method is read, its bytes spell the beginning of the candidate method. |
| `ParserMethod.MethodRecognised` | src/evpphttp/http_parser.cpp:1174-1326 | A word followed by a space is accepted as method if and only if it is one of the 24 names, and then that one is stored. |
| `ParserFraming.NotePushAll` | src/evpphttp/http_parser.cpp:1777-1905 | Header fields put together from callbacks do not depend on the pieces. |
| `ParserFraming.WholeReads` | src/evpphttp/http_parser.cpp:1777-2195 | Up to the end of the headers the flags, the length and the header state say what the lines delivered so far say, for every stream, folded lines and values resumed after a lone CR included. |
| `ParserFraming.FramingDecision` | src/evpphttp/http_parser.cpp:2211-2323 | At the end of the headers the parser goes on to the body that the delivered lines declare by a declarative reading, for every stream: chunked, the last length, none, or all up to the close. |
| `TargetForms.TargetExactly` | src/evpphttp/http_parser.cpp:1328-1645 | For every text: followed by a space it is taken as the target of a request, and delivered whole in one callback, if and only if it is an authority (CONNECT) or a path, `*` or an absolute form (other methods), as their texts are defined. |
| `TargetForms.TailMove` | src/evpphttp/http_parser.cpp:1471-1645 | Inside a path, query or fragment the parser goes on exactly on tab, form feed, a visible byte, or one outside ASCII. |
| `TargetForms.UriByteTaken` | src/evpphttp/http_parser.cpp:332-600 | Every byte of the URI grammar of RFC 3986 may stand in a target. |
| `TargetForms.EncodedPath` | src/evpphttp/http_parser.cpp:1328-1504 | Any bytes, percent-encoded behind a `/`, are delivered whole as target, and `url_path()` gives them back if and only if that is below 65536 bytes. |
| `StartLines.NumberRead` | src/evpphttp/http_parser.cpp:1682-1764 | The numbers of versions and statuses are read as what their digits say up to 999, and refused beyond. |
| `StartLines.EmptyLinesRead` | src/evpphttp/http_parser.cpp:1165-1172 | Any CRs and LFs before a message are skipped. |
| `StartLines.RequestLineRead` | src/evpphttp/http_parser.cpp:1165-1775 | A request line with any of the 24 methods, any target, any number of spaces, any version and CRLF or LF makes one callback for the target, and leaves the method and version as written. |
| `StartLines.ShortLineRead` | src/evpphttp/http_parser.cpp:1471-1645 | A target with a path or query that ends the line is that of an HTTP/0.9 request. |
| `StartLines.StatusLineRead` | src/evpphttp/http_parser.cpp:973-1163 | A status line makes one callback for its reason, if the status is followed by a space, and leaves the version and status as written. |
| `StartLines.ResponseHeadRead` | src/evpphttp/http_parser.cpp:973-2323 | The head of a response makes the callbacks of its lines, and the parser goes on to the body that the status (none for 1xx, 204 and 304) and the fields declare. |
| `StartLines.EitherBegins` | src/evpphttp/http_parser.cpp:927-971 | A parser for both kinds of messages reads what begins with `HT` as one for responses does, and everything else as one for requests does. |
| `StartLines.LineStops` | src/evpphttp/http_parser.cpp:998-1775 | Within the first line the parser stops only with the error that tells in which part of it a byte did not fit, and without a callback. |
| `ParserBody.ContentLengthRead` | src/evpphttp/http_parser.cpp:2016-2140 | Any bytes are accepted if and only if they are a digit followed by digits and spaces that stand for at most 9223372036854775799, and are then read as that number; otherwise the parser stops with the error that the number or the first byte that does not fit calls for. |
| `ParserBody.ChunkSizeRead` | src/evpphttp/http_parser.cpp:2378-2425 | Any bytes up to CR, semicolon or space are accepted if and only if each is a hex digit or has its high bit set and the number fits `int64_t`, and are then read as that number, a hex numeral exactly if no byte has its high bit set; otherwise the parser stops with the error for a number too large or for the first other byte. |
| `ParserBody.HighByteIsZeroDigit` | src/evpphttp/http_parser.cpp:320-324 | Anywhere in a chunk size, a byte of 0x80 or more reads as the digit 0. |
| `ParserBody.BodyConserved` | src/evpphttp/http_parser.cpp:2325-2357 | Every piece of a body is delivered as it is, and the missing length decreases by its size. |
| `ParserBody.BodyCompletes` | src/evpphttp/http_parser.cpp:2325-2376 | The message is complete with the last byte of its body, and not before; the parser is then before another message of its kind, and runs on unless the callback does not return 0 or the connection is upgraded. |
| `ParserChunks.HexReadsBack` | src/evpphttp/http_response.cpp:113-115 | Every number printed in hex has its value. |
| `ParserChunks.ChunkedReadsBack` | src/evpphttp/http_parser.cpp:2378-2496 | Any list of chunks, with sizes in any hex spelling, extensions and any fields as trailers, is read back chunk by chunk with the trailers as fields, and completes the message with its last byte and not before. |
| `ParserChunks.ChunkedWithin` | src/evpphttp/http_parser.cpp:2505-2521 | A chunked body runs into the header limit in no cut if and only if each size line with its extension, and the last chunk with the trailers, is within it, however much data there is. |
| `HttpGrammar.ClassesAgree` | src/evpphttp/http_parser.cpp:332-644 | The macros and the table of URL characters are the classes named by their letters: letters, digits, hex digits, host characters, and for targets tab, form feed, everything visible and everything outside ASCII. |
| `HttpGrammar.TokensAgree` | src/evpphttp/http_parser.cpp:173-317 | The table of tokens is the class of section 3.2.6 of RFC 7230, and the bytes of a value are the blanks, the visible ones and those outside ASCII. |
| `HttpGrammar.UserBytesAgree` | src/evpphttp/http_parser.cpp:631-636 | The macro for user information is the class named by its letters. |
| `ParserLines.NameByteExactly` | src/evpphttp/http_parser.cpp:1777-1940 | A field name begins and goes on with a byte if and only if it is one of a token. |
| `ParserLines.ValueByteExactly` | src/evpphttp/http_parser.cpp:2033-2112 | A value goes on with a byte, outside an escape, if and only if it is one of a value. |
| `ParserLines.LineRead` | src/evpphttp/http_parser.cpp:1777-2209 | A field of any name and value, with any blanks behind its colon, CRLF or LF line ends, and, if the parser attaches no meaning to it, folded onto any number of lines, makes one callback for its name, one for its value, and two for each line it is folded onto, and changes nothing else but the content length or the flag that the field stands for. |
| `ParserLines.EmptyRefused` | src/evpphttp/http_parser.cpp:1956-1980 | A Content-Length, Transfer-Encoding or Upgrade without a value is refused, each with its error. |
| `ParserLines.LinesConclude` | src/evpphttp/http_parser.cpp:1777-2195 | After any list of fields in any order the flags and the length are those that a declarative reading of the list gives, the last of several lengths included. |
| `ParserEnd.MessagesBalance` | src/evpphttp/http_parser.cpp:920-2503 | In every run from a new message, in any pieces, as many messages are complete as have begun, but for one exactly when the parser is not in a state between messages. |
| `ParserEnd.EndExactly` | src/evpphttp/http_parser.cpp:870-890 | After any calls on a stream from a new message, the end of the stream does nothing if every message that has begun is complete, completes a message whose body goes on up to the close, and in the middle of any other message is an error that completes nothing. |
| `ParserEnd.UntilCloseReads` | src/evpphttp/http_parser.cpp:2306-2364 | When the delivered header lines leave the body to go on up to the close, all that follows the head, in any pieces, is delivered as body, and the message is complete with the end of the stream and not before. |
| `Response.SendBody` | src/evpphttp/http_response.cpp:111-124 | The sends of a reply body add up to the body, or to its chunked framing. |
| `Response.ReplyReadsBack` | src/evpphttp/http_response.cpp:111-124 | The chunked body of a reply is read back by the parser as that body, complete with the last byte and not before, if and only if it is below 2^32 bytes. |
| `Response.SizeLineRight` | src/evpphttp/http_response.cpp:113-115 | The size line is the size of the body if and only if that is below 2^32. |
| `UrlParser.HttpParserUrl.ParseHost` | src/evpphttp/http_parser.cpp:2660-2739 | The loop over the authority, in place, computes the fold of its states. |
| `UrlParser.HttpParserUrl.Parse` | src/evpphttp/http_parser.cpp:2742-2845 | The loop over the URL and what follows it, in place, compute the fold; its unexpected state does not occur. |
| `UrlPartition.ScanHolds` | src/evpphttp/http_parser.cpp:2754-2808 | The first pass marks disjoint parts in order that leave out delimiters only. |
| `UrlPartition.HostHolds` | src/evpphttp/http_parser.cpp:2660-2739 | The second pass splits the authority into user, host and port, leaving out delimiters only, and changes no other part. |
| `UrlPartition.NumberIs` | src/evpphttp/http_parser.cpp:2828-2841 | The number read for the port is that of the port's digits. |
| `UrlPartition.UrlPartitioned` | src/evpphttp/http_parser.cpp:2742-2845 | With a zeroed struct, an accepted URL below 64 KiB is partitioned: parts non-empty, in bounds, in order, without overlap, only the bytes `: / @ [ ] ? #` left out; the port is the value of its text and at most 65535; a scheme has a host. |
| `UrlPartition.StaleHost` | src/evpphttp/http_parser.cpp:2810-2818 | A struct, for every URL with a scheme and no host, with which that URL is accepted. |
| `UrlPartition.PartitionExactly` | src/evpphttp/http_parser.cpp:2742-2845 | The partition holds whatever the struct held before if and only if the text does not have a scheme followed by no host: letters, then `://` or a part of it, then the end, `/` or `?`. |
| `UrlPartition.ConnectScan` | src/evpphttp/http_parser.cpp:676-843 | The first pass finds a scheme and no host exactly on such texts. |
| `UrlPartition.WidthExactly` | src/evpphttp/http_parser.cpp:2795-2808 | It holds for all URLs of n bytes if and only if n is below 65536. |
| `UrlExact.UrlExactly` | src/evpphttp/http_parser.cpp:2742-2845 | A text below 64 KiB is accepted if and only if it is empty, a path or `*`, or a URL with an authority and a port of at most 65535; under CONNECT if and only if it is a host and a port (and delimiters around them), as their texts are defined. |
| `UrlExact.UrlParts` | src/evpphttp/http_parser.cpp:2660-2845 | For every such URL the scheme, the user before the `@`, the host with its brackets off, the digits of the port, the path, query and fragment are found where they stand, each if and only if it is there, and the port is its value. |
| `UrlTarget.TargetScanned` | src/evpphttp/http_parser.cpp:676-843 | Of the texts that start with '/', the URL parser scans through exactly the targets, and finds their path, query and fragment. |
| `TargetForms.MachinesAgree` | src/evpphttp/http_parser.cpp:1471-1645 | The URL states of `http_parser_execute` and `parse_url_char` let the same targets that start with '/' through. |
| `UrlTarget.UrlPath` | include/eventpp/evpphttp/http_request.hpp:25-30 | `url_path()` is the text before the first '?' or '#' if and only if that is below 65536 bytes long, although the call that finds it reports failure. |
| `UrlTarget.UrlQueryAndFragment` | include/eventpp/evpphttp/http_request.hpp:31-42 | `url_query()` is the text from that `?` to the next `#`, and `url_fragment()` what follows the `#`s, if and only if the length fits 16 bits, and the offset does or the same text stands at the wrapped offset. |
| `HttpRequests.HandlePushAll` | include/eventpp/evpphttp/http_request.hpp:79-134 | A request put together from callbacks does not depend on how their text is cut into pieces. |
| `HttpRequests.StepEnds` | include/eventpp/evpphttp/http_request.hpp:83-88 | A step of the parser of a request goes on, or completes the message and pauses, or fails; nothing else. |
| `HttpRequests.CallCompletes` | src/evpphttp/http_request.cpp:21-31 | A call on bytes either takes them all and does not complete, or completes the message and pauses, or fails. |
| `HttpRequests.ArriveAllMatches` | src/evpphttp/http_request.cpp:21-31 | A request parsed as bytes arrive in its buffer holds what the callbacks say, is completed exactly when the parser paused, and leaves exactly the bytes not consumed in the buffer. |
| `HttpRequests.RequestCutIndependence` | src/evpphttp/http_request.cpp:21-31 | However the bytes arrive, the parser, whether the request is completed, and the bytes left in the buffer are the same as when they all arrive at once; for a clean stream so is the request. |
| `HttpRequests.BufferAfterError` | src/evpphttp/http_request.cpp:21-31 | After a parse error the buffer holds the bytes of the call that failed, whole, and all that arrived later. |
| `HttpRequests.HttpRequest.constructor` | src/evpphttp/http_request.cpp:7-19 | A new request is empty and its parser ready. |
| `HttpRequests.HttpRequest.On` | include/eventpp/evpphttp/http_request.hpp:79-134 | The callbacks, in place, do what the functions about them say. |
| `HttpRequests.HttpRequest.Parse` | src/evpphttp/http_request.cpp:21-31 | Parses the buffer, handles every callback, and retrieves what was parsed unless there was an error, which is returned. |
| `RequestRoundTrip.RequestRead` | src/evpphttp/http_parser.cpp:920-2503 | A request text, with any request line, any fields in any order and the body that the method and the fields declare (none, one of known length or a chunked one), is read with exactly its callbacks; it is complete with its last byte, with the method and version as written, and the parser then runs on if and only if on_message_complete returns 0 and the request does not ask to upgrade the connection. |
| `RequestRoundTrip.RequestsRead` | src/evpphttp/http_parser.cpp:2265-2376 | Any number of requests that follow each other are read one after the other, each with its callbacks. |
| `RequestRoundTrip.LoneCrDependsOnCuts` | src/evpphttp/http_parser.cpp:2170-2195 | From a new parser, after any beginning of a request that ends inside a plain value, a CR, any byte but LF and any byte that may stand in a value make a stream, within the header limit, on which cuts do not agree. |
| `RequestRoundTrip.RequestHandled` | include/eventpp/evpphttp/http_request.hpp:79-134 | Those callbacks make the request that was written: target, body, and for each field name, trailers included, the first line of its last value; what a value is folded onto goes under the empty name. |
| `RequestRoundTrip.FieldKeptExactly` | include/eventpp/evpphttp/http_request.hpp:97-119 | A field is kept under its name with its whole value if and only if it is not folded and, if it is empty, its line has its CR. |
| `RequestRoundTrip.RequestReadsBack` | src/evpphttp/http_request.cpp:21-31 | Any request (any of the 24 methods, any target that goes with it, any version, any fields in any order, CRLF or LF line ends, and the body that method and fields declare) within the header limit, cut in any way and followed by anything, is read back with its method, version, target, fields and body, and what follows is left in the buffer. |
| `RequestRoundTrip.RequestLimitExactly` | src/evpphttp/http_parser.cpp:2505-2521 | No cut of a request runs into the header limit if and only if its head up to the last byte, its chunk lines and its trailers are within it. |
| `RequestRoundTrip.LimitDependsOnCuts` | src/evpphttp/http_parser.cpp:2513-2521 | Every request with a head beyond the limit (and below 2^32 bytes) is read back when it arrives at once, and refused when it is cut before the last byte of its head. |
| `RequestRoundTrip.LongRequest` | src/evpphttp/http_parser.cpp:2513-2521 | There are requests with a head of every length from 23 bytes on. |
| `ByteBuffer.SwappedIsBigEndian` | include/eventpp/buffer.hpp:120-124 | Swapping the bytes of an integer and storing it puts it in network order, at any width. |
| `ByteBuffer.BswapTwice` | include/eventpp/buffer.hpp:120-124 | Swapping twice gives the integer back. |
| `ByteBuffer.IntReadsBack` | include/eventpp/buffer.hpp:143-161 | A signed integer of any width appended in network order is read back. |
| `ByteBuffer.MixedWidthsReadBack` | include/eventpp/buffer.hpp:208-234 | Integers of mixed widths appended one after the other are read back, whatever follows. |
| `ByteBuffer.Buffer.constructor` | include/eventpp/buffer.hpp:21-31 | A new buffer is empty, with its room for prepending. |
| `ByteBuffer.Buffer.Skip` | include/eventpp/buffer.hpp:50-60 | Drops the first n unread bytes, or all. |
| `ByteBuffer.Buffer.Truncate` | include/eventpp/buffer.hpp:69-80 | Keeps the first n unread bytes. |
| `ByteBuffer.Buffer.Grow` | include/eventpp/buffer.hpp:415-441 | Makes room for n bytes by moving or by allocating, keeping the unread bytes; its asserts hold. |
| `ByteBuffer.Buffer.Reserve` | include/eventpp/buffer.hpp:90-99 | Makes the capacity at least n, keeping the unread bytes. |
| `ByteBuffer.Buffer.EnsureWritable` | include/eventpp/buffer.hpp:102-110 | Makes room for n bytes, keeping the unread bytes. |
| `ByteBuffer.Buffer.Write` | include/eventpp/buffer.hpp:128-134 | Appends bytes to the unread ones. |
| `ByteBuffer.Buffer.Prepend` | include/eventpp/buffer.hpp:185-191 | Puts bytes in front of the unread ones. |
| `ByteBuffer.Buffer.Next` | include/eventpp/buffer.hpp:255-274 | Takes the first n unread bytes, or all. |
| `ByteBuffer.Buffer.Shrink` | include/eventpp/buffer.hpp:240-245 | Reallocates, keeping the unread bytes. |
| `ByteBuffer.Buffer.ReadFromFD` | src/buffer.cpp:23-53 | Appends what was read, whether it fits or spills into the extra space; a failed read changes nothing. |
| `ByteBuffer.Buffer.AppendInt` | include/eventpp/buffer.hpp:143-161 | Appends the bytes of an integer in network order. |
| `ByteBuffer.Buffer.ReadInt` | include/eventpp/buffer.hpp:208-234 | Reads and drops the integer in front. |
| `EventLoop.NoLostWakeUp` | src/event_loop.cpp:277-330 | In every reachable state in which callers have returned, a queued task means an unread byte in the pipe, unless the loop is about to take the queue. |
| `EventLoop.SpuriousExactly` | src/event_loop.cpp:300-325 | After a spurious failure of the compare-and-swap, also one after others, all further runs without a push end with every task run if and only if the queue is empty, a byte is in the pipe, the loop is about to take the queue, or another caller is under way. |
| `EventLoop.SpuriousFailureLosesWakeUp` | src/event_loop.cpp:300-301 | A reachable state of one caller in which a spurious failure leaves what it queued there for good. |
| `EventLoop.ExactlyOnce` | src/event_loop.cpp:374-414 | In every reachable state each task pushed is exactly once in the queue, in an open batch, or started. |
| `EventLoop.CounterAndOrder` | src/event_loop.cpp:374-414 | The pending counter is the number of tasks queued and unfinished, less callers that have yet to count; tasks start in the order of their push while none calls DoPendingFunctors itself. |
| `EventLoop.QueueDrains` | src/event_loop.cpp:374-414 | From every reachable state, callers in the middle of QueueInLoop included, every run without a push or a nested call is bounded, and ends only when every task ever pushed was run, the queue is empty and the counter 0. |
| `EventLoop.LoopFinishes` | src/event_loop.cpp:374-414 | Such a run to the end exists, from every state that keeps the bookkeeping of tasks. |
| `EventLoop.DrainsExactly` | src/event_loop.cpp:277-414 | In every state that keeps the invariants of the tasks and of the flag, all further runs without a push end with every task run if and only if no task is queued, a caller is under way, a byte is in the pipe, or the loop is about to take the queue. |
| `Conn.StepInv` | src/tcp/tcp_conn.cpp:43-358 | Every operation keeps the invariant of a connection if and only if it is not a Close of a disconnected one. |
| `Conn.OutputConserved` | src/tcp/tcp_conn.cpp:129-285 | On every run, bytes on the wire followed by the output buffer are the data given to send, in order, whatever the partial sends and errors; the close callback is made once, exactly when disconnected; interest in writing means output. |
| `Conn.CloseTwice` | src/tcp/tcp_conn.cpp:43-55 | Close on a disconnected connection leads to a second close callback, on a channel without its event. |
| `Conn.ClosedExactly` | src/tcp/tcp_conn.cpp:43-358 | On every run, by the operations alone: a connection is closed if and only if one of them was fatal; the wire has exactly the beginning of the data given that `send` had taken until then; and while it is open the rest is waiting, it reads and has no timer until the peer has closed, and it is connected until Close. |
| `Conn.RetriesHarmless` | src/tcp/tcp_conn.cpp:159-285 | A read or write that can be tried again changes nothing; a send that can be tried again puts its data behind the output and changes nothing else. |
| `Conn.EndOfStreamExactly` | src/tcp/tcp_conn.cpp:206-294 | The end of the stream closes a connection, with one close callback, if and only if it is outgoing or has no delay; otherwise only reading ends and the timer is set, what is sent still reaches the wire, and the timer closes it once. |
| `Conn.FdChannel.Refresh` | src/fd_channel.cpp:151-163 | Attached afterwards exactly if there is interest in some event. |
| `Conn.FdChannel.SetInterest` | src/fd_channel.cpp:78-119 | Changes the interest and re-attaches only if it changed. |
| `Conn.FdChannel.Shut` | src/fd_channel.cpp:31-49 | Ends detached and without its event; the asserts of Close hold. |
| `Conn.TCPConn.constructor` | src/tcp/tcp_conn.cpp:11-23 | A new connection is disconnected, with no interest and nothing to send. |
| `Conn.TCPConn.OnAttachedToLoop` | src/tcp/tcp_conn.cpp:348-358 | Connected and interested in reading, in its invariant. |
| `Conn.TCPConn.Shutdown` | src/tcp/tcp_conn.cpp:296-339 | Closes the channel, cancels the timer and calls back once, if not done before. |
| `Conn.TCPConn.Fail` | src/tcp/tcp_conn.cpp:341-346 | Disconnects. |
| `Conn.TCPConn.Send` | src/tcp/tcp_conn.cpp:129-194 | Sends what the socket takes at once and queues the rest behind what is queued, keeping the invariant. |
| `Conn.TCPConn.Flush` | src/tcp/tcp_conn.cpp:252-285 | Takes what the socket takes off the output buffer, keeping the invariant. |
| `Conn.TCPConn.Receive` | src/tcp/tcp_conn.cpp:196-250 | The end of the stream closes at once, or later by the timer for an incoming connection that asks for it; the invariant is kept. |

## Left out

- Text callbacks that return an error or pause the parser: those of `HttpRequest` return 0, and `Settings` has replies for the notifications only.
- Callbacks are handled after the call that makes them, in order; the source runs them within it. They reach the parser only through the reply.
- ParserCuts.CutIndependence: `nread` is left out of the comparison, because it depends on the cuts.
- RequestRoundTrip.RequestReadsBack: Content-Length, Transfer-Encoding and Upgrade are not folded, and the request has a version; how the body of any other text is framed, `FramingDecision` says.
- UrlExact.UrlExactly: on a text with a scheme and no host it needs a struct whose host span is empty; on others what is left in it decides, as `StaleHost` shows.
- UrlParser.HttpParserUrl.Parse: a stale host span past the end of the URL reads the terminator of the string; what lies behind it is not modelled. `strtoul` stops at the end of the URL.
- `HttpRequest` moves its value into the map; the moved-from string is taken to be empty, and is assigned before it is read again.
- Conn.TCPConn.Flush: a `send` that returns 0 for data counts as an error, whatever errno was left before.
- The message, connection, write-complete and high-water-mark callbacks of `TCPConn`, and sends from other threads, which go through the queue of tasks.
- Failure of adding or deleting an event, and of allocating memory; overflow of `size_t`.
- The lock-free queues that can replace the mutex-protected vector, weak memory orders, `RunInLoop`, `Stop` and timers.
- `Buffer` helpers that search for line ends or unread bytes: neither the parser nor the connections use them.
- The head of a response: status line, date and header text.
- `Service::OnMessage`, `TCPServer`, `TCPClient`, `Connector`, listeners, DNS, UDP, TLS and the libevent-based HTTP server and client.
- The C++ library and libevent themselves.
