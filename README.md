# Theros request parsing and routing, modelled in Dafny

Theros is a small HTTP/1.x server stack. This project models four parts of it:

- **The request parser.** It consumes the request head one byte per call. Each call answers in progress, accept or reject. Along the way it fills in the method, the HTTP version, the six Request-URI fields and the header list.
- **The percent-encoding helpers** `urlencode` and `urldecode`, and the character-set tests they use.
- **`Handler`.** A list of callables plus an id taken from a shared counter.
- **The two `Router`s.** Each keeps one routing table per request method. Theros's router (`Router.h`) builds a fresh `Handler` for every registration. Summer's router (`Router.cpp`) stores the handler value it is given. Summer's router also resolves a path into the pipeline of handlers of every stored prefix of the path, root first.

The modules:

- `HttpChars` (`http_chars.dfy`): octets and the character classes of section 2.2 of RFC 2616.
- `Url` (`url.dfy`): the charsets, `ctohex`, `urlencode` and `urldecode`, with functions that specify them.
- `Message` (`message.dfy`): the `Request` and `Uri` objects the parser writes into, and the method enumeration.
- `RequestParsing` (`request_parser.dfy`): the parser's transitions as functions on values (`UriStep`, `Step`). Also the `RequestParser` class, which performs them in place on a `Request` and is proved to agree with them byte for byte.
- `ParserProperties` (`parser_properties.dfy`): `Run` feeds a whole byte stream. This module holds what holds over every such stream.
- `ParserAcceptance` (`parser_acceptance.dfy`): the parser accepts every well-formed request head, and what it records for one. The head is a known method token, an absolute path without '%', "HTTP/" and two digits, header lines and a blank line.
- `Handlers` (`handler.dfy`): `Handler`, its counter and its operators.
- `Routing` (`routing.dfy`): the routing tables and the route a path resolves to.
- `TherosRouter` (`theros_router.dfy`) and `SummerRouter` (`summer_router.dfy`): the two router classes.

Some facts are assumptions, because the files they come from (`Message.h`, `Trie.h`, Summer's `Router.h`) are not part of this model:

- **Method order.** `RequestMethod` is declared in the order GET, HEAD, POST, PUT, DELETE, CONNECT, OPTIONS, TRACE, PATCH, UNDETERMINED. `method_count` is 10.
- **Table lookup.** A routing table behaves as a map from paths to handlers.
- **Repeated inserts.** An `insert` of a path already present replaces its handler.
- **Stepping back.** `--found` on a trie entry reaches the next shorter stored prefix of its path, character by character, and reaches `end()` after the shortest. The commented-out `resolve` (Summer/src/Router.cpp:95-96) tests `if (*found)` before pushing, which suggests that `--found` may also land on trie nodes that hold no handler. If so, the live `resolve` would push an empty default `Handler` for each such node, and the model, which visits stored prefixes only, leaves those out.
- **Summer's handler.** Summer's `Handler` is the `Handler` of Theros's `Router.h`.

## Model

| member | source | states |
|---|---|---|
| HttpChars.DigitValue | Theros/src/RequestParser.cpp:305-308 | `c - '0'` on a digit is its value 0..9 |
| HttpChars.IsCtl | Theros/src/RequestParser.cpp:354 | a CTL is a byte 0..31 or DEL (127), as section 2.2 of RFC 2616 defines it |
| HttpChars.IsAlpha | Theros/src/RequestParser.cpp:53-60 | an ALPHA is an upper- or lower-case ASCII letter |
| HttpChars.IsDigit | Theros/src/RequestParser.cpp:292-311 | a DIGIT is one of 0..9 |
| HttpChars.IsToken | Theros/src/RequestParser.cpp:325-345 | a token byte is a CHAR (0..127) that is neither a CTL nor one of the separators of section 2.2 of RFC 2616 |
| HttpChars.TokenClasses | Theros/src/RequestParser.cpp:325-345 | letters and digits are token bytes; no token byte is SP, HT, CR, LF, a CTL or ':'; a token byte is exactly a byte 33..126 outside the separator list |
| Message.MethodIndex | Theros/src/Router.h:126 | each method has its own table index below `method_count`; only UNDETERMINED has the last one |
| Message.MethodAt | Theros/src/Router.h:140-141 | `static_cast<RequestMethod>(i)` is the inverse of the table index |
| Message.MethodAtIndex | Theros/src/Router.h:140-141 | casting a method's table index back gives that method, so no two methods share a table index |
| Message.MethodName | Theros/src/RequestParser.cpp:192-242 | the method names of section 5.1.1 of RFC 2616 and PATCH, each at least three bytes long, against which the method bytes are checked |
| Url.UnreservedMembers | Theros/src/utilities/Url.cpp:12-13 | a byte is in the unreserved charset, terminating NUL included, iff it is a letter, a digit, one of `-_.~` or NUL |
| Url.UriMembers | Theros/src/utilities/Url.cpp:15-17 | a byte is in the URI charset, terminating NUL included, iff it is unreserved or one of `!*'();:@&=+$,/?#[]` |
| Url.IsUriUnreserved | Theros/src/utilities/Url.cpp:19-25 | the scan to `std::end` answers true exactly for unreserved bytes, NUL included |
| Url.IsUri | Theros/src/utilities/Url.cpp:27-33 | the scan answers true exactly for URI bytes, NUL included |
| Url.UriCharExcludes | Theros/src/utilities/Url.cpp:15-17 | neither '%' nor SP is a URI byte |
| Url.ToHex | Theros/src/utilities/Url.cpp:38-43 | upper-case hex digits with no leading zero whose value is the input: one digit below 16, at most two for a byte |
| Url.IsHexDigit | Theros/src/utilities/Url.cpp:73-76 | the digits `%x` reads: 0-9, A-F, a-f |
| Url.HexDigitValue | Theros/src/utilities/Url.cpp:73-76 | the value of a hex digit of either case is below 16 |
| Url.HexDigit | Theros/src/utilities/Url.cpp:38-43 | the upper-case digit `std::hex << std::uppercase` writes for a value below 16, whose value is that number |
| Url.EncodeByte | Theros/src/utilities/Url.cpp:52-56 | the loop body: an unreserved byte as it is, any other as '%' and `ctohex` of the byte |
| Url.Encode | Theros/src/utilities/Url.cpp:46-58 | `urlencode` of a string, byte by byte; never shorter than the input |
| Url.EncodeIdentity | Theros/src/utilities/Url.cpp:46-58 | encoding leaves a string unchanged iff every byte is unreserved |
| Url.EncodeAppend | Theros/src/utilities/Url.cpp:52-56 | the encoding of `s + [c]` is `s`'s encoding followed by the encoding of `c` alone |
| Url.EncodeByteShape | Theros/src/utilities/Url.cpp:54-55 | an unreserved byte is copied; any other becomes '%' and its `ctohex` digits |
| Url.UrlEncode | Theros/src/utilities/Url.cpp:46-58 | the loop (and the early return on empty input) yields `Encode(url)` |
| Url.ScanHex | Theros/src/utilities/Url.cpp:73-76 | on two upper-case hex digits, `sscanf("%x")` gives the number the digit pair denotes (`HexValue`) |
| Url.ScanHexDigits | Theros/src/utilities/Url.cpp:73-76 | the two digits `HexDigit(x)`, `HexDigit(y)` read back as 16 * x + y |
| Url.ScanHexIgnoresCase | Theros/src/utilities/Url.cpp:73-76 | lower-case hex digits read as their upper-case forms |
| Url.UpperHex | Theros/src/utilities/Url.cpp:73-76 | the upper-case form of a hex digit: upper-case digits stay, a..f move down by 32 |
| Url.Decode | Theros/src/utilities/Url.cpp:60-81 | decoding never lengthens the text |
| Url.UrlDecode | Theros/src/utilities/Url.cpp:60-81 | the loop, which jumps over the two digits after each '%', yields `Decode(url)` |
| Url.DecodeWithoutPercent | Theros/src/utilities/Url.cpp:69-72 | text without '%' decodes to itself |
| Url.WellEscapedAppend | Theros/src/utilities/Url.cpp:69-72 | appending a byte other than '%' keeps a string decodable |
| Url.EncodeByteRoundTrip | Theros/src/utilities/Url.cpp:54-77 | one encoded byte of value 0 or at least 16 decodes back to that byte, whatever follows |
| Url.RoundTrip | Theros/src/utilities/Url.cpp:46-81 | decoding undoes encoding for every string without bytes 1..15 |
| Url.LowByteBreaksRoundTrip | Theros/src/utilities/Url.cpp:38-58 | a byte 1..15 encodes to a single hex digit; alone it leaves an incomplete escape, and before a hex digit it decodes to a different single byte |
| Url.ToHexPadded | Theros/src/utilities/Url.cpp:38-43 | the corrected `ctohex`: always two upper-case digits with the byte's value |
| Url.EncodePaddedAgrees | Theros/src/utilities/Url.cpp:46-58 | on strings without bytes 1..15 the corrected encoder writes what the original writes |
| Url.PaddedRoundTrip | Theros/src/utilities/Url.cpp:46-81 | decoding undoes the corrected encoding for every string |
| RequestParsing.RequestParser.constructor | Theros/src/RequestParser.cpp:10-11 | a new parser is at `req_start` and `uri_start` |
| RequestParsing.UriStep | Theros/src/RequestParser.cpp:44-125 | the URI machine never accepts; a reject changes nothing; it appends at most the byte itself to one field; it moves on from `uri_start` only on '/' or a letter and from `uri_scheme` only on a letter or ':'; scheme bytes are letters and port bytes digits; the '/' ending host or port and the '?'/'#' delimiters are not stored; `abs_path`, `query`, `fragment` and `host` never reject |
| RequestParsing.FirstMethod | Theros/src/RequestParser.cpp:190-216 | a method byte is a token byte; a method it fixes is the one whose name starts with it, never POST, PUT or PATCH; UNDETERMINED comes exactly from 'P', the first byte of all three of those names |
| RequestParsing.SecondMethod | Theros/src/RequestParser.cpp:228-242 | after 'P', a byte fixes POST, PUT or PATCH, the one whose name has it second |
| RequestParsing.NewHeader | Theros/src/RequestParser.cpp:330-334 | `emplace_back` and `build_header_name`, here and again at lines 387-391: one new header, named by the byte, and `req_field_name` |
| RequestParsing.FieldNameStep | Theros/src/RequestParser.cpp:336-345 | the `req_field_name` case: a token byte goes to the last header's name (a reject with no header), ':' enters the value, anything else rejects |
| RequestParsing.RequestParser.ConsumeUri | Theros/src/RequestParser.cpp:44-125 | the nested state and the `Uri` fields change exactly as `UriStep` says |
| RequestParsing.DecodeUri | Theros/src/RequestParser.cpp:14-21 | the port is not decoded |
| RequestParsing.DecodeUriWithoutPercent | Theros/src/RequestParser.cpp:14-21 | fields without '%' are left as they are |
| RequestParsing.RequestParser.UriDecode | Theros/src/RequestParser.cpp:14-21 | the five fields are replaced by their decodings in place |
| RequestParsing.VersionAfter | Theros/src/RequestParser.cpp:128-134 | with major 1, minor 0 gives 1.0, minor 1 gives 1.1, any other minor keeps the version |
| RequestParsing.RequestParser.SetVersion | Theros/src/RequestParser.cpp:128-134 | the request's version becomes `VersionAfter` of its old version |
| RequestParsing.AppendToName | Theros/src/RequestParser.cpp:404-408 | only the last header changes, by one byte at the end of its name |
| RequestParsing.AppendToValue | Theros/src/RequestParser.cpp:409-413 | only the last header changes, by one byte at the end of its value |
| RequestParsing.RequestParser.BuildHeaderName | Theros/src/RequestParser.cpp:404-408 | succeeds iff there is a header, and then appends to its name; otherwise nothing changes |
| RequestParsing.RequestParser.BuildHeaderValue | Theros/src/RequestParser.cpp:409-413 | succeeds iff there is a header, and then appends to its value; otherwise nothing changes |
| RequestParsing.RequestParser.StartHeader | Theros/src/RequestParser.cpp:330-335 | a new empty header is appended, gets the byte as its name, and the state becomes `req_field_name` |
| RequestParsing.RequestParser.ConsumeFieldName | Theros/src/RequestParser.cpp:336-345 | the `req_field_name` case, also reached by falling out of `req_field_name_start`, agrees with its specification |
| RequestParsing.Step | Theros/src/RequestParser.cpp:178-401 | accept exactly on LF in `req_header_end`; a reject or accept changes nothing; `req_header_end` is entered only by CR from a name start; headers are never dropped or shortened, and a header is added only as `[c]` by a token byte at a name start; no header value ever takes SP or HT; the URI fields change only in `req_uri`; the version changes only on the minor digit, to 1.0 or 1.1; the method changes only at the first or second method byte |
| RequestParsing.RequestParser.Consume | Theros/src/RequestParser.cpp:178-401 | each call moves the parser and the request exactly as `Step` says and answers its status |
| ParserProperties.StepKeepsReady | Theros/src/RequestParser.cpp:251-260 | from a new request, the URI fields always hold complete escapes when `uri_decode` runs |
| ParserProperties.UriStepKeepsEscapes | Theros/src/RequestParser.cpp:44-125 | a URI byte keeps the captured fields free of broken escapes |
| ParserProperties.Run | Theros/src/RequestParser.cpp:178-184 | the parser after each byte of a stream in turn, first byte first; still ready for the next byte |
| ParserProperties.Proceeds | Theros/src/RequestParser.cpp:178-184 | every byte of the stream was answered in progress |
| ParserProperties.RunAppend | Theros/src/RequestParser.cpp:178-184 | the parser's state carries across calls: feeding `a` then `b` is feeding `a + b` |
| ParserProperties.BlankLineAfter | Theros/src/RequestParser.cpp:185-226 | one more CRLF before the method is skipped too |
| ParserProperties.LeadingBlankLines | Theros/src/RequestParser.cpp:185-226 | any number of CRLF pairs before the method changes nothing |
| ParserProperties.LoneCrRejects | Theros/src/RequestParser.cpp:221-226 | a CR before the method that is not followed by LF rejects |
| ParserProperties.FirstByteRejects | Theros/src/RequestParser.cpp:185-220 | at `req_start` a byte rejects iff it is not CR and not a token byte that starts a method; a reject changes nothing, and such a byte starts no method name |
| ParserProperties.NamesRecognised | Theros/src/RequestParser.cpp:185-250 | every method name is a token that the first one or two bytes map to its own method |
| ParserProperties.MethodTailUnchecked | Theros/src/RequestParser.cpp:227-245 | once the method is known, the later bytes of the method token are not checked |
| ParserProperties.MethodToken | Theros/src/RequestParser.cpp:185-250 | a token whose first byte (or first two after 'P') names a method, then SP, sets that method and enters the URI with nothing else changed |
| ParserProperties.PSecondByteRejects | Theros/src/RequestParser.cpp:227-242 | after 'P', a token byte other than O, U, A rejects |
| ParserProperties.LonePRejects | Theros/src/RequestParser.cpp:251-252 | "P " leaves the method UNDETERMINED in the URI state, and the next byte rejects |
| ParserProperties.PercentInUriRejects | Theros/src/RequestParser.cpp:251-261 | a '%' in the Request-URI rejects |
| ParserProperties.UriStepGrows | Theros/src/RequestParser.cpp:44-125 | a URI byte other than '%' only appends to the fields and keeps them free of '%' |
| ParserProperties.StepUriGrows | Theros/src/RequestParser.cpp:251-261 | one parser step keeps the URI fields free of '%' and only appends to them, decoding included |
| ParserProperties.UriOnlyGrows | Theros/src/RequestParser.cpp:44-125 | from fields without '%', every URI field is only ever appended to, decoding included |
| ParserProperties.VersionFromMinorOnly | Theros/src/RequestParser.cpp:292-311 | "d.0" gives 1.0 and "d.1" gives 1.1 whatever the major digit d; any other minor digit keeps the version |
| ParserProperties.LineEndArrivals | Theros/src/RequestParser.cpp:313-370 | `req_start_line_lf` and `req_header_lf` are entered only on CR; `req_field_name_start` only on LF from `req_start_line_lf`; `req_header_lws` only on LF from `req_header_lf` |
| ParserProperties.TrailArrive | Theros/src/RequestParser.cpp:313-398 | a move that enters the line-end states only in those ways keeps the CR/LF trail each state implies |
| ParserProperties.TrailStep | Theros/src/RequestParser.cpp:313-398 | one parser step keeps that trail |
| ParserProperties.TrailHolds | Theros/src/RequestParser.cpp:313-398 | in each header-section state the bytes fed so far end with the CR/LF sequence that state implies |
| ParserProperties.AcceptOnlyAfterBlankLine | Theros/src/RequestParser.cpp:313-398 | fed from the start, the parser accepts only on a byte that completes CR LF CR LF |
| ParserProperties.HeadersOnlyGrow | Theros/src/RequestParser.cpp:325-413 | over any stream no header is dropped, reordered or shortened, and the count never decreases |
| ParserProperties.NoBlanksEver | Theros/src/RequestParser.cpp:346-358 | over any stream no header value takes SP or HT |
| ParserProperties.FoldedValueJoins | Theros/src/RequestParser.cpp:346-382 | CRLF then SP or HT continues the last header's value, joined with no blank |
| ParserProperties.ColonAtNameStart | Theros/src/RequestParser.cpp:325-358 | a ':' at a name start opens no header and enters the value state; with no header a value byte then rejects (the `build_header_value` assert), ":" CR LF CR LF is accepted with no header added, and with headers the byte goes to the last one |
| ParserProperties.StartLineArrivals | Theros/src/RequestParser.cpp:185-324 | the Request-Line states are entered only from Request-Line states |
| ParserProperties.NoHeaderBeforeFieldLines | Theros/src/RequestParser.cpp:185-334 | from a fresh request, the Request-Line states and `req_field_name_start` are only ever reached with no header |
| ParserAcceptance.PathTail | Theros/src/RequestParser.cpp:102-112 | in `uri_abs_path` every path byte other than '?' and '#' is appended to `abs_path` |
| ParserAcceptance.UriPath | Theros/src/RequestParser.cpp:44-112 | a Request-URI starting with '/' is captured whole into `abs_path` |
| ParserAcceptance.HttpSlash | Theros/src/RequestParser.cpp:262-291 | "HTTP/" after the URI leads to the major digit, nothing else changed |
| ParserAcceptance.VersionPartRun | Theros/src/RequestParser.cpp:255-324 | SP, "HTTP/", d.d and CRLF after the URI end the Request-Line with the version set from the minor digit |
| ParserAcceptance.RequestLineRun | Theros/src/RequestParser.cpp:185-324 | a whole Request-Line sets the method, appends the path and sets the version, and leaves the parser at the first header name |
| ParserAcceptance.NameRun | Theros/src/RequestParser.cpp:325-345 | a header name and its ':' add one header holding that name |
| ParserAcceptance.ValueTail | Theros/src/RequestParser.cpp:346-358 | value bytes go to the last header's value with SP and HT left out |
| ParserAcceptance.ValueRun | Theros/src/RequestParser.cpp:346-364 | a value and its CRLF fill the new header with the value without blanks |
| ParserAcceptance.LineRun | Theros/src/RequestParser.cpp:325-393 | one header line adds exactly its header |
| ParserAcceptance.LinesRun | Theros/src/RequestParser.cpp:325-393 | header lines in a row add their headers, in order |
| ParserAcceptance.AcceptsRequestHead | Theros/src/RequestParser.cpp:178-398 | every well-formed head (a known method token, an absolute path, HTTP/d.d, header lines, a blank line) proceeds byte by byte and the final LF is accepted, with the method, path, version and headers it spells |
| ParserAcceptance.HostHeaderAccepted | Theros/src/RequestParser.cpp:178-398 | "GET /x HTTP/1.1", "Host: a" and a blank line are accepted as GET of "/x" over HTTP/1.1 with the one header Host = "a" |
| Handlers.IdCounter.constructor | Theros/src/Router.h:44 | the counter starts at 0 |
| Handlers.NewHandler | Theros/src/Router.h:50-54 | the counter goes up by one and the new handler takes its new value, above every earlier id, with the callables in order |
| Handlers.DefaultHandler | Theros/src/Router.h:49 | the default handler is empty, so falsy |
| Handlers.Truthy | Theros/src/Router.h:70 | `operator bool`: a handler is truthy iff it holds a callable |
| Handlers.Append | Theros/src/Router.h:61-63 | exactly one callable is added, at the end; the id stays, and the handler is then truthy |
| Handlers.Invoke | Theros/src/Router.h:69 | each callable runs once, in list order |
| Handlers.Eq | Theros/src/Router.h:72 | `==` holds iff the ids are equal |
| Handlers.Neq | Theros/src/Router.h:73 | `!=` is the negation of `==`: the ids differ |
| Handlers.Less | Theros/src/Router.h:71 | `operator<` compares ids only |
| Handlers.LessIsStrictOrder | Theros/src/Router.h:71 | `<` is irreflexive and transitive, and any two handlers are `<`, `>` or `==` |
| Handlers.EqIgnoresCallables | Theros/src/Router.h:71-73 | handlers with one id and different callables are `==` though not the same value |
| Routing.EmptyTables | Theros/src/Router.h:89 | `method_count` tables, all empty |
| Routing.Register | Summer/src/Router.cpp:14-18 | inserting maps the path to the handler in that table; no other path and no other table changes |
| Routing.StoredLengths | Summer/src/Router.cpp:43-46 | the stored prefix lengths of a path, strictly increasing, each one stored and every stored one present |
| Routing.Stored | Summer/src/Router.cpp:43-46 | the handlers of the stored prefixes of the path of lengths lo..hi, shortest first |
| Routing.Route | Summer/src/Router.cpp:37-50 | the route of a path: empty when the path itself is not stored, otherwise the handlers of all its stored prefixes |
| Routing.StoredAtLengths | Summer/src/Router.cpp:43-48 | the collected handlers are the table read at those lengths, in order |
| Routing.StoredSkip | Summer/src/Router.cpp:43-46 | prefixes holding no entry add nothing to the route |
| Routing.StoredEndsAt | Summer/src/Router.cpp:43-48 | the handler at the longest stored prefix comes last |
| Routing.RouteShape | Summer/src/Router.cpp:37-50 | not found gives an empty route; otherwise the route is the handlers of the stored prefixes, shortest first, and the path's own handler is last |
| Routing.RouteMembers | Summer/src/Router.cpp:37-50 | a handler is on the route iff it is the handler of some stored prefix of the path |
| Routing.Reverse | Summer/src/Router.cpp:48 | element i of the reversal is element n-1-i of the input |
| Routing.ReverseAppend | Summer/src/Router.cpp:48 | reversing a concatenation reverses and swaps the parts |
| Routing.ReverseReverse | Summer/src/Router.cpp:48 | reversing twice gives the input back |
| TherosRouter.UseFreshAt | Theros/src/Router.h:137-142 | `use` maps the path in every table before UNDETERMINED to a handler of its own, with ids in method order; the UNDETERMINED table is untouched |
| TherosRouter.UseFreshDistinctIds | Theros/src/Router.h:137-142 | handlers that `use` puts in two different tables have different ids |
| TherosRouter.Router.constructor | Theros/src/Router.h:89 | a new router has `method_count` empty tables |
| TherosRouter.Router.Handle | Theros/src/Router.h:123-129 | a new handler over exactly the given callables, with the next id, goes into that method's table only |
| TherosRouter.Router.Get | Theros/src/Router.h:131-132 | `handle` for GET |
| TherosRouter.Router.Post | Theros/src/Router.h:133-134 | `handle` for POST |
| TherosRouter.Router.Put | Theros/src/Router.h:135-136 | `handle` for PUT |
| TherosRouter.Router.Use | Theros/src/Router.h:137-142 | the loop over GET..PATCH registers a fresh handler per method; the counter advances by 9 |
| SummerRouter.HandleEachAt | Summer/src/Router.cpp:21-25 | `handle(methods, ...)` maps the path to the handler in the table of each listed method and nowhere else |
| SummerRouter.UseSameAt | Summer/src/Router.cpp:30-34 | `use` maps the path to the very same handler in every table before UNDETERMINED; the UNDETERMINED table is untouched |
| SummerRouter.UseIsHandleEach | Summer/src/Router.cpp:21-34 | `use` is `handle` over the collection GET..PATCH |
| SummerRouter.Router.Handle | Summer/src/Router.cpp:14-18 | only that method's table changes, by the insert |
| SummerRouter.Router.HandleMethods | Summer/src/Router.cpp:21-25 | the loop performs `handle` for each method in the collection, in order |
| SummerRouter.Router.Get | Summer/src/Router.cpp:27 | `handle` for GET |
| SummerRouter.Router.Post | Summer/src/Router.cpp:28 | `handle` for POST |
| SummerRouter.Router.Put | Summer/src/Router.cpp:29 | `handle` for PUT |
| SummerRouter.Router.Use | Summer/src/Router.cpp:30-34 | the loop over GET..PATCH inserts the same handler into each table |
| SummerRouter.Router.Resolve | Summer/src/Router.cpp:37-50 | the backward walk and the reversal return `Route` of that method's table |
| SummerRouter.Router.ResolveRequest | Summer/src/Router.cpp:53-60 | `resolve(request)` always returns an empty route |
| SummerRouter.MiddlewareTable | Summer/src/Router.cpp:27-34 | `use("/api", H1)` then `get("/api/users", H2)` leaves the GET table with exactly those two entries |
| SummerRouter.MiddlewareRoutes | Summer/src/Router.cpp:37-50 | in that table "/api/users" resolves to [H1, H2], "/api" to [H1], "/other" to [] |
| SummerRouter.OverwriteExample | Summer/src/Router.cpp:14-18 | registering a path again makes its route end with the newer handler |

## Left out

- Connection handling, the event loop and `Context` (Theros/src/Server.h, Theros/src/Router.h:19-30): they are I/O around the core.
- The stream printers: `operator<<` for `ParseStatus` (Theros/src/RequestParser.cpp:416-423) and for `Handler` and `Router` (Summer/src/Router.cpp:9-12, 62-70). They only format output.
- The `std::function` wrapping and the `callable_with` template checks (Theros/src/Router.h:33-59). Callables are opaque tokens, and running one appends its token to a trace.
- The declared-only `resolve` overloads (Theros/src/Router.h:105-112) and the commented-out `resolve` (Summer/src/Router.cpp:76-102). Neither is live code. Theros's `resolve(method, path)` has no definition in the files modelled, so resolution is modelled on Summer's.
- `Trie.h` is not part of this model. Tables are maps under the assumptions stated above, and the trie's node structure, iterators and parameter capture are not modelled.
- `Message.h` is not part of this model. `uri_param` and `uri_query` are not modelled. The `Request` constructor takes the starting method and version as parameters.
- The static `handler_id_counter` is modelled as an `IdCounter` object passed to the Theros router. Its `int` overflow is not modelled.
- Handlers.NewHandler requires at least one callable. With none, C++ picks the default constructor, which leaves the id uninitialised. That case is `DefaultHandler`, whose id is an arbitrary parameter.
- TherosRouter.Router.Handle, Get, Post, Put and Use require at least one callable, for the same reason.
- Handlers: `append` mutates a `Handler` object, but here a handler is a value and `Append` returns the grown value. The routers copy handlers into their tables, so value semantics matches them.
- SummerRouter.Router.Resolve: the reversal builds a new sequence instead of reversing a vector in place.
- `assert` in the source: a failed assertion is modelled as a reject that changes nothing. What the source does with assertions compiled out (`NDEBUG`) differs per assert. The one in `req_uri` (Theros/src/RequestParser.cpp:252) then does nothing and parsing goes on with the method still UNDETERMINED (lines 253-260), which is defined behaviour: "P / HTTP/1.1\r\n\r\n" is then accepted with method UNDETERMINED, where the model rejects at the first URI byte (`ParserProperties.LonePRejects`). The model does not capture that `NDEBUG` run. The ones in `build_header_name` and `build_header_value` (lines 406 and 411) are followed by `headers.back()`, which on an empty header list is undefined behaviour, so there the reject model covers every defined run.
- Url.UrlDecode requires every '%' to be followed by two hex digits. Two cases are undefined in the source. The first is a '%' among the last two bytes, where `url[i + 1]`/`url[i + 2]` read past the end. The second is an escape with no hex digit after optional white space and an optional sign (`"%G1"`, `"%%1"`) when no earlier escape in the same call was converted: `sscanf` converts nothing and `cvt`, declared once before the loop (Theros/src/utilities/Url.cpp:67), is read uninitialised. Other escapes are defined but not modelled, because `sscanf("%x")` reads like `strtoul`: it skips leading white space, takes an optional sign, then reads as many hex digits as it finds. So "%4G" decodes to the byte 4, "% A" and "%+A" to the byte 10, and "%-1" to -1, which the `unsigned char` cast (Theros/src/utilities/Url.cpp:76) makes the byte 0xFF. An escape with no hex digit after an earlier converted escape is defined too: `sscanf` leaves `cvt` unchanged (Url.cpp:75), so the previous escape's byte is repeated and "%41%G1" decodes to "AA".
- RequestParsing.RequestParser.Consume requires the URI fields to hold well-formed escapes while in the URI state. `ParserProperties.StepKeepsReady` proves this always holds from a new request. Callers that preload a `Uri` with a broken escape are not covered.
- ParserAcceptance.AcceptsRequestHead covers Request-URIs that are an absolute path with no '?', '#' or '%'. Request-URIs with a query, a fragment, or a scheme and authority have no acceptance lemma.
- Percent-escapes in a Request-URI. '%' is not in `uri_charset` (Theros/src/utilities/Url.cpp:15-17), so `is_uri('%')` is false and a Request-URI such as `/a%20b` is rejected at the '%' (`ParserProperties.PercentInUriRejects`). `uri_decode` therefore never sees an escape and leaves the captured fields unchanged (`ParserProperties.UriOnlyGrows`).
- TherosRouter.Router.Use: `use` passes `std::forward<Fs>(fs)...` to `handle` once for each of the nine methods (Theros/src/Router.h:141). A callable passed as an rvalue is moved into the GET handler, and the later handlers get moved-from copies. The model treats callables as tokens that are copied, so every method gets the same callables.

## Findings

| source | as written | input that shows it | evidently intended | confidence | as-written member | corrected member |
|---|---|---|---|---|---|---|
| Theros/src/utilities/Url.cpp:38-43 | `ctohex` prints the byte in hex with no zero padding, so bytes 1..15 encode as '%' and one digit | `urlencode("\x05")` is "%5", an escape `urldecode` reads past; `urlencode("\x05A")` is "%5A", which decodes to "Z" | two hex digits per escape, as section 2.1 of RFC 3986 requires, so that decoding undoes encoding | not executed | Url.LowByteBreaksRoundTrip | Url.PaddedRoundTrip |
