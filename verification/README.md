# laure: protocol core

A Dafny model of the parts of laure that keep state across reads: the khash table and the string map on top of it, the request framing of the bundled llhttp parser, the WebSocket codec with its stream reassembler and heartbeat, and the two consumers that fill the map, header assembly and form decoding.

| module | models |
|---|---|
| `Triangular` | the probe sequence `i += ++step` modulo a power of two |
| `KHashBits`, `KHashModel`, `KHash` | `src/utils/khash.h`: packed flags, probing, put/get/del/clear, the in-place kick-out rehash |
| `StrMap` | `src/utils/map.h` |
| `Buf` | `laure_buf_t` in `src/utils/string.h` |
| `HttpSpec`, `HttpSteps` | the llhttp request machine as a function on bytes, and how its steps chain |
| `HttpFraming`, `HttpLengths` | what all runs keep: the framing invariant; bodies as long as they were announced |
| `HttpBodies`, `HttpMessages` | numerals, bodies, chunks; whole messages (sections 6 and 7.1 of RFC 9112) |
| `HttpEvents` | what the callbacks see of a stream that comes in pieces |
| `HttpHeaders` | header sections of any lines, from their bytes to the header map (section 5 of RFC 9112) |
| `HttpFields`, `HttpRefusals` | what a header section means: which are accepted, with which flags and length; what is refused |
| `HttpRequests` | whole requests and streams of them: bodies, ends, when the next may follow (section 9.3 of RFC 9112) |
| `HttpParser` | the parser struct, its states, spans and callbacks, run over slices of data |
| `WsFrame`, `WsSession`, `WsConn` | frames (section 5.2 of RFC 6455), the stream semantics, the connection object |
| `Heartbeat` | the ping/pong timer |
| `Headers`, `Form` | `cb_header_field` and its companions; `laure_url_decode` and `laure_parse_qs` |

How the pieces fit:

- The table's `Valid` ties arrays and flag words to a finite map `M`; every operation states the new `M`. `StrMap.Run` lifts that to whole runs, answers included.
- `HttpSpec.Feed` says what a byte string does to the parser and what the callbacks see, spans counted byte by byte. All statements about framing, bodies and chunks are about `Feed`. The class `HttpParser.Parser` keeps the struct's own fields and steps; `Execute` says for each way it can end how the result relates to `Feed`: no objection, a grammar error, an upgrade, a pause or a failed callback.
- `HttpEvents.SeenBy` is what the callbacks of a stream in given pieces have seen: the events of `Feed`, except that a name with a refused byte loses the part that lies in the last piece. `ExecuteAll` refines it, `DriveAll` does so when callbacks pause wherever they like, and `CutsAgree` says exactly when two cuts show the same.
- `HttpLengths.Scan` is an independent reading of the events: it collects names and values, and adds up body bytes and chunk sizes. `BodiesAsAnnounced` says that in every run its account of each completed message is even.
- `HttpFields.SectionEffect` reads a header section without the parser's states: names up to case, lists between commas, digits. `SectionMeans` says that the parser accepts a section iff this reading does, with the same flags, length and error code. `HttpRequests` builds whole requests on it, and `PipelineDelivers` streams of requests in any pieces.
- `HttpHeaders.BytesToMap` joins parser and header assembly: the names and values that `Headers` assumes of its callbacks are those the parser lets through.
- `WsSession.Receive` is the stream semantics of the WebSocket side; `WsConn.Conn` refines it on real buffers, and its timer methods refine `Heartbeat`. `Serve` does both for a whole life of a connection object, so that the two bounds of `Heartbeat` hold of it.

Where the code departs from its meaning, the code is modelled as it is, and the theorem says exactly when the two agree:

- `src/net/websocket.c:90-92` writes a 64-bit length low byte first: the round trip holds iff the payload is shorter than 65536 bytes (`RoundTripAsWritten`); with the order of section 5.2 it holds up to the decoder's limit (`NetworkRoundTrip`).
- `src/utils/util.c:91` decodes a form value from the start of the pair instead of after the equals sign: a pair survives iff its value is a prefix of its key, and the map is right iff that holds of every value that no later pair overrides (`FormAsWritten`, `FormMapAsWritten`); decoded after the equals sign everything survives (`FormRoundTrip`, `FormMap`).
- `src/net/http_server.c:43` does not store a header with an empty value before the next name, and `src/net/http_server.c:99-110` leaves the two buffers as they are. A message's headers are assembled as sent iff nothing was pending, only the last value may be empty, and a single header without a value finds the value buffer already written (`MessageHeaders`). Trailers always leave their last name pending (`TrailersLeak`).
- `src/net/http_server.c:72-81` hands a value buffer that was never written to `strdup`: on a fresh connection a request whose headers bring no value byte faults, and only that one (`MessageHeaders`, `FreshEmptyValueFaults`).
- `deps/llhttp/llhttp.c:8816` stops at a byte refused in a header name with the name's span still open, and `deps/llhttp/llhttp.c:10250-10252` returns before it would be reported: the callbacks see of that name only what earlier pieces held (`ExecuteAll`, `RefusedNameExample`).
- `src/utils/khash.h:310-315` asks for one bucket more to double the table; at 2^31 buckets the request wraps to 4, the resize is skipped and there is no room (`PutTargets`, `DoublingWraps`). Room is made iff the table has at most 2^30 buckets or is less than half live (`MakeRoom`).
- A closing connection is not timed: `src/net/heartbeat.c:9-12` stops the heartbeat, so the time bound is about open connections (`ClosingIsNotTimed`).
- `deps/llhttp/http.c:85-93` reads a response of status 104 to 199 with a coding other than chunked to the end of the connection, and `deps/llhttp/http.c:135-140` says that it needs no such end; for all others the two agree (`BodiesToTheEnd`).

`dafny verify dfyconfig.toml` checks the project.

## Model

| member | source | states |
|---|---|---|
| `Triangular.ProbesAreDistinct` | src/utils/khash.h:237-239 | in a table of 2^k buckets no two of the first 2^k probes coincide |
| `Triangular.ProbesVisitEveryBucket` | src/utils/khash.h:237-239 | every bucket is reached within the first n probes, from any home bucket |
| `Triangular.FirstReturn` | src/utils/khash.h:236-239 | after the start, the home bucket is met again first at step 2n-1, so the `i == last` exit never cuts a search short |
| `KHashBits.FillEmpty` | src/utils/khash.h:255 | filling the flag words with 0xaa makes every bucket empty |
| `KHashBits.IsEither` | src/utils/khash.h:165-167 | the packed test tells empty or deleted of exactly the asked bucket |
| `KHashBits.SetDeleted` | src/utils/khash.h:171 | sets one bucket's deleted bit and leaves all others alone |
| `KHashBits.SetNotEmpty` | src/utils/khash.h:169 | clears one bucket's empty bit and leaves all others alone |
| `KHashBits.SetLive` | src/utils/khash.h:170 | clears both bits of one bucket and leaves all others alone |
| `KHashBits.KRoundUp32IsLeastPow2` | src/utils/khash.h:176 | the bit smearing yields the least power of two not below its argument, up to 2^31; zero and larger arguments wrap to zero |
| `KHashModel.SearchEndsAtEmpty` | src/utils/khash.h:237-241 | when a search meets a truly empty bucket the key is nowhere in the table |
| `KHashModel.SearchCoversTable` | src/utils/khash.h:237-239 | a search that comes back to its start has seen every bucket, so the key is absent |
| `KHashModel.SomeBucketIsEmpty` | src/utils/khash.h:303 | below the load bound some bucket is truly empty |
| `KHashModel.EmptyProbe` | src/utils/khash.h:281 | a free bucket lies on every key's probe path within n steps |
| `KHashModel.InsertKeepsTable` | src/utils/khash.h:336-345 | occupying the bucket a search chose keeps every live key reachable with no empty bucket before it |
| `KHashModel.DeleteKeepsTable` | src/utils/khash.h:349-355 | a tombstone keeps every other key reachable |
| `KHashModel.Overlay.PickKeepsValid` | src/utils/khash.h:270-276 | picking an old entry up keeps (old entries) + (placed entries) + (carried entry) equal to the map |
| `KHashModel.Overlay.PlaceKeepsValid` | src/utils/khash.h:282-291 | placing the carried entry, with or without a kick-out, keeps the same sum, overwrites nothing unprocessed, and keeps probe paths of the new table closed |
| `KHashModel.OverlayStart` | src/utils/khash.h:244-256 | the old table with fresh empty flags is a valid overlay of itself |
| `KHashModel.OverlayDone` | src/utils/khash.h:295-303 | when no old entry is left the overlay is a table for the same map |
| `KHash.PutTargets` | src/utils/khash.h:311-315 | asking for n-1 buckets keeps the capacity n; asking for n+1 doubles it up to 2^30 buckets, and is rounded to 4 at 2^31 |
| `KHash.DoublingWraps` | src/utils/khash.h:311-315 | the wrapping request: 2^31+1 buckets become 4, while 2^31-1 become 2^31 |
| `KHash.RoomFacts` | src/utils/khash.h:310-317 | whichever resize put chooses, the rehash is not skipped and leaves room for one more key |
| `KHashModel.LoadBound` | src/utils/khash.h:303 | the load bound is 0.77 of the capacity to the nearest integer and leaves a bucket free |
| `KHash.NextBucket` | src/utils/khash.h:238-239 | the masked step is the next triangular probe, and equals the start exactly at step 2n-1 |
| `KHash.Table.LoadFacts` | src/utils/khash.h:303-310 | size counts the keys, and size <= n_occupied <= upper_bound < n_buckets leaves a truly empty bucket |
| `KHash.Table.FindBucket` | src/utils/khash.h:232-240 | the probe loop ends at an empty bucket, at the key, or after 2n-1 steps, with no match before |
| `KHash.Table.Get` | src/utils/khash.h:230-243 | finds a bucket iff the key is in the map, and then the bucket holds its value |
| `KHash.Table.Put` | src/utils/khash.h:307-348 | on every table below its bound or that a resize can relieve: the returned bucket is live with the key, all other keys keep their values, and the code tells a present key, an empty bucket and a reused tombstone apart |
| `KHash.Table.FewKeysCanPut` | src/utils/khash.h:307-317 | with fewer than 2^30 live keys an insertion always finds room |
| `KHash.Table.PlaceDecides` | src/utils/khash.h:328-346 | the chosen bucket is live iff the key is already present |
| `KHash.Table.Occupy` | src/utils/khash.h:336-345 | writing the key and its flags adds it to the map |
| `KHash.Table.Del` | src/utils/khash.h:349-355 | removes the key of a live bucket and nothing else; any other argument changes nothing |
| `KHash.Table.Clear` | src/utils/khash.h:223-229 | the map becomes empty, the capacity stays |
| `KHash.Table.Resize` | src/utils/khash.h:244-306 | the map is unchanged; the capacity becomes the rounded request iff the keys fit, and nothing happens otherwise |
| `KHash.Table.FindFree` | src/utils/khash.h:278-281 | the new table's probe loop ends at a free bucket that is first on the key's path |
| `KHash.Table.PlaceOne` | src/utils/khash.h:278-291 | one round of the kick-out loop is one placement of the overlay |
| `KHash.Table.KickChain` | src/utils/khash.h:276-292 | the kick-out loop ends, because each kick removes a live old entry, and carries nothing at its end |
| `KHash.Table.MoveAll` | src/utils/khash.h:269-294 | after the sweep no old entry is left |
| `KHash.Table.Rehash` | src/utils/khash.h:252-304 | growing, shrinking or in place, the table holds the same map in the new capacity with no tombstones |
| `KHash.Table.MakeRoom` | src/utils/khash.h:310-317 | the same map, the capacity the branch chose, and room below the load bound iff the table had at most 2^30 buckets or was less than half live |
| `StrMap.Map.Set` | src/utils/map.h:17-52 | the map with this key bound to this value, on every map with room for it |
| `StrMap.Map.Get` | src/utils/map.h:54-60 | the bound value, or none |
| `StrMap.Map.GetCi` | src/utils/map.h:63-75 | the value of the first live bucket whose key has the same bytes as the asked one, but for the case of letters, or none when there is no such key |
| `StrMap.Map.Clear` | src/utils/map.h:92-105 | the empty map |
| `StrMap.CaselessIsLowerLookup` | src/utils/map.h:63-75 | on lower-case keys the caseless answer is exactly the lookup of the lower-cased key |
| `Bytes.LowerIsCaseless` | src/utils/map.h:63-75 | folded names are equal iff at each place the bytes are equal or one letter in two cases |
| `Bytes.LowerFolds` | src/net/http_server.c:44-47 | no capital is left in a folded name, and nothing else in it is changed |
| `StrMap.InsertAllIsLastWins` | src/utils/map.h:17-32 | a run of insertions holds exactly the inserted keys, each with its last value |
| `StrMap.Run` | src/utils/map.h:12-105 | any run, of any length and from any valid map, of set, get, caseless get, delete, clear and resize answers and ends as on a finite map |
| `Buf.Buffer.Append` | src/utils/string.h:26-46 | contents grow by the bytes; the terminator, `len + 1 <= cap`, the capacity 64*2^k and its bound by twice the peak are kept |
| `Buf.Buffer.RoomFor` | src/utils/string.h:31-33 | the doubling loop ends with a capacity 64*2^k that fits and is at most max(64, twice the need) |
| `Buf.Buffer.Reset` | src/utils/string.h:48-52 | empties the contents, keeps the capacity |
| `Buf.Buffer.Consume` | src/utils/string.h:54-62 | drops the first n bytes, or all of them |
| `HttpSteps.LogGrows` | deps/llhttp/llhttp.c:7143-7183 | what callbacks have seen is never taken back |
| `HttpSteps.MatchRun` | deps/llhttp/llhttp.c:254-316 | a run of matching bytes that does not end a keyword only advances the index, for all three kinds of match states |
| `HttpFraming.RequestBodiesAreFramed` | deps/llhttp/http.c:37-113 | a request gets chunks only with the chunked flag, a body only with a positive length, and never a body up to the end of the connection |
| `HttpFraming.ResponseBodies` | deps/llhttp/http.c:37-113 | the verdict for every response, status class by status class, and the effect of an upgrade on every verdict |
| `HttpFraming.BodiesToTheEnd` | deps/llhttp/http.c:127-167 | a response body is read to the end of the connection iff the message needs that end, except for informational statuses above 103 with a coding other than chunked, where the two functions disagree |
| `HttpFraming.StepKeepsFramed` | deps/llhttp/llhttp.c:2911-3007 | any byte in any state keeps the framing invariant |
| `HttpFraming.FramingSafety` | deps/llhttp/llhttp.c:8684-8765 | in every run Content-Length and Transfer-Encoding are never both accepted, the length is 0 where its digits may begin, bodies are read only under the header that announced them, and the read-until-close body is never entered |
| `HttpLengths.AllPaid` | deps/llhttp/http.c:37-113 | the account of a log has no debt iff every message in it had, when it was completed, exactly the body its headers or chunk sizes announced |
| `HttpLengths.StepAccounted` | deps/llhttp/llhttp.c:1231-7075 | any byte in any state keeps what the parser's fields say about the listener's account: names, values, announced length, bytes delivered |
| `HttpLengths.BodiesAsAnnounced` | deps/llhttp/llhttp.c:1329-1354 | in every run from the start, body bytes delivered plus the remaining count equal the Content-Length numeral, or the chunk sizes, that the callbacks were given; every completed message had exactly that body, except for a CONNECT at the very end, which has none |
| `HttpLengths.BodiesSeen` | deps/llhttp/llhttp.c:10237-10269 | the same, with the same one exception, of what the callbacks really see of a stream in any pieces |
| `HttpBodies.MulAddIsExact` | deps/llhttp/llhttp.c:809-833 | the two guards fire exactly when the product plus the digit exceeds 64 bits; otherwise the result is exact |
| `HttpBodies.LengthDigits` | deps/llhttp/llhttp.c:2640-2695 | a decimal numeral of any length, leading zeros included, is accepted iff its value is at most 2^64-1, and then is the content length |
| `HttpBodies.ChunkDigits` | deps/llhttp/llhttp.c:1786-2029 | the same for the hexadecimal chunk size in either case |
| `HttpBodies.BodyBlock` | deps/llhttp/llhttp.c:2038-2054 | what was delivered and what remains add up to the announced length; the block ends after exactly that many bytes |
| `HttpBodies.KnownLengthBody` | deps/llhttp/llhttp.c:2038-2070 | with Content-Length N and any pieces: delivered plus remaining is N throughout, and after N bytes the message completes once, followed by the pause if an upgrade was asked for |
| `HttpBodies.ChunkParses` | deps/llhttp/llhttp.c:1294-1400 | one chunk in any spelling of its size fires its header, its bytes and its completion and leaves the machine where it was |
| `HttpBodies.ChunkedBody` | deps/llhttp/llhttp.c:7254-7348 | any chunks and a last one, in any pieces, fire exactly their own events and complete the message |
| `HttpBodies.HexDigitsSpell` | deps/llhttp/llhttp.c:1791-1905 | the encoder's digits are read back as the size |
| `HttpBodies.HexSpells` | deps/llhttp/llhttp.c:1791-1905 | the digits of a chunk size are the hexadecimal digits in either case, each with its value |
| `HttpBodies.ChunkedRoundTrip` | deps/llhttp/llhttp.c:1294-2053 | for any list of non-empty chunks in any pieces the body is the data concatenated, chunk headers fire with the sizes and a final 0, chunk-complete once more than chunks, message-complete once |
| `HttpMessages.WordMatches` | deps/llhttp/llhttp.c:254-284 | the rest of a header keyword, in either case, ends at the state the keyword stands for |
| `HttpMessages.CodingMatches` | deps/llhttp/llhttp.c:286-316 | `chunked` in either case is recognised as the last coding |
| `HttpMessages.ContentLengthMessage` | deps/llhttp/llhttp.c:2614-2720 | from the name of Content-Length, first header or later and with blanks around its value, to the end of the body, in any pieces: the header's events, exactly the announced body, one completion, and the pause if an upgrade was asked for |
| `HttpMessages.ChunkedMessage` | deps/llhttp/llhttp.c:2911-2960 | from the name of Transfer-Encoding, first header or later and with blanks before and spaces after its value, to the last chunk, in any pieces: the header's events, the data as the body, one completion |
| `HttpMessages.ConnectHasNoBody` | deps/llhttp/http.c:37-50 | after the headers of a CONNECT request the message is complete and nothing more is read, whatever was announced |
| `HttpRequests.MessageReads` | deps/llhttp/llhttp.c:1231-7075 | a whole request, from its line over any header lines, with no body, a known length or chunks with trailers: exactly its events, and then ready for the next one iff it persists, closed otherwise, or paused if it asked for an upgrade |
| `HttpRequests.PersistsIs` | deps/llhttp/http.c:156-167 | the next request may follow iff HTTP/1.1 did not list `close`, or HTTP/1.0 listed `keep-alive`, in a Connection header or trailer |
| `HttpRequests.UnknownCodingIsRefused` | deps/llhttp/http.c:75-92 | the only accepted section without a message: a coding that does not end in chunked |
| `HttpRequests.PipelineDelivers` | deps/llhttp/llhttp.c:1252-1262 | requests back to back, in any pieces: the callbacks see each with its body, in order |
| `HttpRequests.ClosedRefuses` | deps/llhttp/llhttp.c:1231-1250 | a closed connection skips line ends and refuses any other byte |
| `HttpRequests.NextIsRefused` | deps/llhttp/llhttp.c:1231-1262 | after a request that does not persist the next one is refused |
| `HttpRequests.ConnectionExamples` | deps/llhttp/http.c:156-167 | `CONNECTION: Close` on 1.1, `Connection: keep-alive` on 1.0, and neither on both |
| `HttpEvents.SeenInPiece` | deps/llhttp/llhttp.c:10237-10269 | a run that ends in one piece ends, and has shown the callbacks, what the whole stream in those pieces does |
| `HttpEvents.CutsAgree` | deps/llhttp/llhttp.c:10249-10263 | two cuts of a stream show the callbacks the same events iff the stream is not refused inside a header name, or both leave the same part of that name in the piece with the refused byte |
| `HttpEvents.RefusedNameExample` | deps/llhttp/llhttp.c:8816-8823 | `x@` in one piece reports no name, `x` then `@` reports `x` |
| `HttpHeaders.SectionParses` | deps/llhttp/llhttp.c:2165-3293 | a header section of any lines, in any of the name and value states: every name and value is told in order and then the end of the headers, or the parser has failed and what it told is the beginning of that |
| `HttpFields.NameMeans` | deps/llhttp/llhttp.c:3020-3360 | a name is taken for Connection, Content-Length, Transfer-Encoding or Upgrade iff it is that name, or Proxy-Connection, in either case |
| `HttpFields.ListReads` | deps/llhttp/llhttp.c:2430-2612 | a Connection value sets the flags of exactly the options between its commas, in either case, with blanks before and spaces after |
| `HttpFields.CodingReads` | deps/llhttp/llhttp.c:2719-2966 | a Transfer-Encoding value is chunked iff its last element says so, and is refused iff an earlier one does |
| `HttpFields.MeasureReads` | deps/llhttp/llhttp.c:2613-2718 | a Content-Length value is accepted iff it is digits that fit in 64 bits with only blanks after them, and the first such header |
| `HttpFields.SectionMeans` | deps/llhttp/llhttp.c:2165-3360 | a header or trailer section of any lines is accepted iff no line is refused, and then the parser has exactly the flags and the length that the lines say; otherwise it has failed with the code of the first refusal |
| `HttpRefusals.BadNameIsRefused` | deps/llhttp/llhttp.c:3020-3110 | a byte that is neither a name character nor the colon ends the parser, and in which way |
| `HttpRefusals.BadValueIsRefused` | deps/llhttp/llhttp.c:2264-2430 | a control character in a value ends the parser |
| `HttpRefusals.Characters` | deps/llhttp/llhttp.c:3035-3100 | name characters and value characters are those of sections 5.6.2 and 5.5 of RFC 9110 |
| `HttpRefusals.ChunkEndIsStrict` | deps/llhttp/llhttp.c:1293-1328 | two bytes after the data of a chunk are accepted iff they are CR LF |
| `HttpRefusals.ExtensionReads` | deps/llhttp/llhttp.c:1462-1753 | a chunk extension changes nothing for its chunk |
| `HttpRefusals.BadLineIsRefused` | deps/llhttp/llhttp.c:9669-9676 | a request line that its recogniser refuses ends the parser with the recogniser's code and not before its last byte |
| `HttpRefusals.BadExtensionIsRefused` | deps/llhttp/llhttp.c:1462-1753 | the same of a chunk extension |
| `HttpParser.Parser.MatchSequence` | deps/llhttp/llhttp.c:254-316 | the comparison loop: how far the data matches from the stored index on, and why it stopped |
| `HttpParser.Parser.CloseSpan` | deps/llhttp/llhttp.c:8785-8815 | a span is reported once with its bytes; when its callback objects, with any answer, the run can go on from the error position to the same end |
| `HttpParser.Parser.Refuse` | deps/llhttp/llhttp.c:8816-8823 | a byte refused in a name: the error position is that byte, and the log lacks exactly the part of the name that lies in this data |
| `HttpParser.Parser.Call` | deps/llhttp/llhttp.c:7143-7183 | an event callback: go on, pause at a resumable state, or for any other answer die with the code of that callback |
| `HttpParser.Parser.Consume` | deps/llhttp/llhttp.c:2038-2054 | takes all of the block the data holds in one step, as the byte function does bytewise |
| `HttpParser.Parser.Visit` | deps/llhttp/llhttp.c:1231-7075 | one state keeps the aim of the run, and either consumes, or goes down a bounded rank, or stops as `Stopped` says |
| `HttpParser.Parser.Run` | deps/llhttp/llhttp.c:1231-7075 | the run ends, at the end of the data or at the first error |
| `HttpParser.Parser.Execute` | deps/llhttp/llhttp.c:10237-10269 | without objection the parser, and what the callbacks have seen, is where `Feed` is; after a grammar error the state is that of `Feed` and the log is `Seen`; after a pause the rest leads to the same end; after a failed callback nothing but its answer kept the run from that end, and it was the last to see anything |
| `HttpParser.Parser.ExecuteAll` | deps/llhttp/llhttp.c:10237-10269 | for any cut into pieces, when no callback objects: state and error are those of the byte function on the whole, and the callbacks have seen exactly `SeenBy` of that cut, also after a grammar error; after an upgrade the error position is the first byte behind the message, and after a refused name the refused byte |
| `HttpParser.Parser.Drive` | deps/llhttp/api.c:160-176 | one slice with callbacks pausing anywhere, at its end too, resumed and executed again from the error position: state, error and events are those of the run without a pause, after a grammar error and after an upgrade as well |
| `HttpParser.Parser.DriveAll` | deps/llhttp/api.c:160-176 | the same for a whole stream in any pieces: however the callbacks pause, the stream ends as the byte function does, at the same position of an upgrade, and the callbacks have seen `SeenBy` of that cut |
| `WsFrame.BuildFrame` | src/net/websocket.c:69-99 | the encoder's bytes, length field as written |
| `WsFrame.MaskTwice` | src/net/websocket.c:176-181 | masking twice with the same key is the identity |
| `WsFrame.MaskedBits` | src/net/websocket.c:176-181 | each bit of the payload is flipped exactly by the same bit of key byte i mod 4 |
| `WsFrame.MaskedHello` | src/net/websocket.c:131-182 | the masked text and pong of section 5.7 of RFC 6455, byte by byte, are decoded as "Hello" |
| `WsFrame.PlainHello` | src/net/websocket.c:69-99 | the unmasked examples of section 5.7, decoded and encoded: text whole and in two frames, ping |
| `WsFrame.LongExamples` | src/net/websocket.c:145-158 | the 256-byte and 64-KiB examples of section 5.7 are decoded, and the first is encoded so |
| `WsFrame.ReversedLengthDiffers` | src/net/websocket.c:90-92 | within the decoder's limit a length of at least 65536 written low byte first reads back above that limit |
| `WsFrame.LongFramesRefused` | src/net/websocket.c:90-92 | as written, every payload of at least 65536 bytes within the limit is refused as too large |
| `WsFrame.LongFrameExample` | src/net/websocket.c:90-92 | the length bytes of a 65536-byte frame, and the decoder's refusal of it |
| `WsFrame.ParseIsStable` | src/net/websocket.c:131-172 | more bytes never change a decision the decoder has reached |
| `WsFrame.NetworkRoundTrip` | src/net/websocket.c:136-183 | with lengths in network order every frame within the limit is decoded as sent |
| `WsFrame.RoundTripAsWritten` | src/net/websocket.c:69-99 | with lengths as written a frame is decoded as sent iff its payload is below 65536 bytes |
| `WsFrame.MaskedRoundTrip` | src/net/websocket.c:160-183 | the same under any four-byte mask key |
| `WsFrame.ShortestEncoding` | src/net/websocket.c:72-78 | no byte string that decodes to a frame is shorter than the encoder's |
| `WsSession.ReceiveInTwo` | src/net/websocket.c:127-273 | two deliveries have the effect of one |
| `WsSession.SplitInvariance` | src/net/conn.c:132-138 | a stream in any pieces gives the same messages, pongs, close frames and buffers as the stream whole |
| `WsSession.StreamDelivers` | src/net/websocket.c:127-273 | masked frames under any keys in any pieces are dispatched as exactly those frames |
| `WsSession.TailReassembles` | src/net/websocket.c:206-222 | the continuation frames of a message, pings and pongs between them, deliver it once and empty the fragment state |
| `WsSession.MessageReassembles` | src/net/websocket.c:185-250 | one message in any fragments is delivered once, whole, under its first opcode |
| `WsSession.ConversationDelivers` | src/net/websocket.c:127-273 | a well-formed conversation, fragmented, masked and cut in any way, is delivered message by message |
| `WsSession.CloseIsAnswered` | src/net/websocket.c:249-293 | a close frame with a code on an open connection: one close frame with the same code and the reason up to its first NUL, with its own length field, then the connection is shut |
| `WsSession.ShortCloseIsAnswered` | src/net/websocket.c:250-262 | without a code the answer is 136 2 3 232, and the connection is shut |
| `WsSession.GoodbyeIsOver` | src/net/websocket.c:256-259 | after our own goodbye the peer's close frame only shuts the connection |
| `WsSession.BadOpcodeIsRefused` | src/net/websocket.c:263-268 | an opcode without a meaning: the bytes of 1002 "Invalid opcode", then shut |
| `WsSession.LargeFrameIsRefused` | src/net/websocket.c:164-168 | a frame over the limit: the bytes of 1009 "Frame too large", then shut |
| `WsSession.PingIsAnswered` | src/net/websocket.c:223-248 | a ping is answered by a pong with its payload before the application hears of it; a pong ends the wait |
| `WsSession.ConversationCloses` | src/net/websocket.c:127-293 | a conversation that the peer ends with a close frame, in any pieces and with anything after it: every message, the answer, the shutdown, and nothing else |
| `WsConn.Conn.SendRaw` | src/net/conn.c:31-45 | nothing is sent on a closed connection |
| `WsConn.Conn.WsClose` | src/net/websocket.c:275-293 | one close frame, from an open connection only |
| `WsConn.Conn.TryFrame` | src/net/websocket.c:132-182 | the decoding steps compute the parse of the read buffer |
| `WsConn.Conn.OnFrame` | src/net/websocket.c:185-270 | the dispatch of one frame is that of the stream semantics |
| `WsConn.Conn.Round` | src/net/websocket.c:131-272 | one round consumes at least two bytes or ends the loop, and keeps the outcome of the stream |
| `WsConn.Conn.OnData` | src/net/websocket.c:127-273 | the whole loop drains the buffer as the stream semantics does |
| `WsConn.Conn.Dispatch` | src/net/conn.c:98-140 | one read on a WebSocket connection is one `Receive`, ignored once closed, and counts as a sign of life |
| `WsConn.Conn.DispatchAll` | src/net/conn.c:98-140 | reads in any pieces have the effect of one read of all bytes |
| `WsConn.Conn.HbTimer` | src/net/heartbeat.c:6-23 | the timer callback follows the timed model, with the frames it sends |
| `WsConn.HeartbeatBytes` | src/net/heartbeat.c:14-20 | the bytes of the heartbeat's ping and of its goodbye |
| `WsConn.Conn.Serve` | src/net/heartbeat.c:6-50 | any life of a connection object from the start of its heartbeat, of timer ticks, reads, goodbyes and drops: its session is that of the stream semantics and its state that of the timed model after what it heard |
| `WsConn.GivesUpDeservedly` | src/net/heartbeat.c:14-22 | the connection object gives up only on a tick that directly follows the tick that sent the ping, a full timeout later |
| `WsConn.SilentConnIsClosed` | src/net/heartbeat.c:6-50 | a connection object that has read nothing for longer than the bound is no longer open |
| `Heartbeat.WaitingMeansUnanswered` | src/net/heartbeat.c:14-22 | while a pong is awaited there is a last ping with no byte after it |
| `Heartbeat.TimeoutIsDeserved` | src/net/heartbeat.c:14-18 | a timeout close comes only after a full timeout without a byte since a ping |
| `Heartbeat.SilentPeerIsClosed` | src/net/heartbeat.c:6-50 | a peer silent since s is closed by s + max(interval, timeout) + timeout, plus the timer's lag |
| `Heartbeat.BoundIsReached` | src/net/heartbeat.c:20-32 | that bound is attained |
| `Heartbeat.ClosingIsNotTimed` | src/net/heartbeat.c:9-12 | a closing connection is never closed by the heartbeat, and its next tick ends the heartbeat |
| `Headers.Assembler.OnField` | src/net/http_server.c:40-61 | a complete pending header is stored lower-cased, on every map with room for it, then the name grows |
| `Headers.Assembler.OnHeadersComplete` | src/net/http_server.c:70-83 | a pending name is stored with whatever value it has, and the call faults iff there is a name and the value buffer was never written |
| `Headers.Assembler.OnMessageComplete` | src/net/http_server.c:99-112 | the map is emptied, the two buffers are not |
| `Headers.Assembler.OnAll` | src/net/http_server.c:40-112 | any sequence of callbacks, of any length, acts on buffers and map as the specification says, and faults iff the specification does |
| `Headers.Assembler.Header` | src/utils/map.h:63-75 | the caseless lookup of a header is the lookup of its lower-cased name |
| `Headers.CallsKeepLower` | src/net/http_server.c:44-47 | all stored names are lower-case after any callbacks |
| `Headers.CutsDoNotMatter` | src/net/http_server.c:40-68 | names and values in any pieces assemble as when they come whole |
| `Headers.PutsAreIntended` | src/net/http_server.c:40-83 | with a written value buffer the stored entries are the headers in order iff nothing was pending and only the last value may be empty |
| `Headers.HeadersPut` | src/net/http_server.c:40-83 | what is stored for a message, and that it faults iff a name is to be stored and no value byte was ever written |
| `Headers.MessageHeaders` | src/net/http_server.c:40-83 | for the callbacks in any cut and from any state they can leave: the exact condition of the fault, and the entries are the headers in order iff nothing was pending, only the last value may be empty, and a single header without a value finds the buffer written |
| `Headers.FreshEmptyValueFaults` | src/net/http_server.c:72-81 | `X:` as the only header on a fresh connection faults |
| `Headers.HeaderMap` | src/net/http_server.c:48-50 | then every name finds the value of its last header |
| `HttpHeaders.SlicesTellTheSame` | src/net/http_server.c:40-68 | header assembly of the parser's events is that of the same headers reported in slices of any sizes |
| `HttpHeaders.BytesToMap` | src/net/http_server.c:40-83 | from the bytes of a header section to the map: unless the parser refuses it, every line reaches the callbacks; assembly faults iff there are lines and no value byte was ever written; otherwise, if only the last value may be empty, every name has the value of its last line |
| `Headers.TrailersLeak` | src/net/http_server.c:99-112 | after trailers and message-complete a name is still pending, and if only the last value may be empty it is the last trailer's, with its value |
| `Headers.EmptyValueExample` | src/net/http_server.c:43 | the callbacks of `a:` and `b: c` on a fresh connection store the one entry `ab: c` |
| `Headers.UpgradeExample` | src/net/http_server.c:44-50 | `Upgrade: websocket` is stored as `upgrade` and found by `UPGRADE` |
| `Headers.TrailerExample` | src/net/http_server.c:99-112 | the callbacks of a message with the trailer `t: u` and of the next message store `t: u` ahead of that message's own header |
| `Form.Decode` | src/utils/util.c:47-71 | the bytes that the input is a spelling of, terminated, never longer than the input |
| `Form.DecodeSymbols` | src/utils/util.c:47-71 | every spelling decodes to its meaning: pluses, escapes with digits of either case, and percent signs that begin no escape |
| `Form.EveryStringIsSpelled` | src/utils/util.c:47-71 | and every byte string is such a spelling |
| `Form.HvSpells` | src/utils/util.c:36-45 | a byte has the value d iff it is the hexadecimal digit d in either case |
| `Form.DecodeInvertsEncode` | src/utils/util.c:47-71 | decoding inverts the standard's encoding on every byte string |
| `Form.ParseQs` | src/utils/util.c:73-107 | the map after the pairs of the query string, as the source reads them, while fewer than 2^30 keys are live |
| `Form.ParseItems` | src/utils/util.c:81-106 | any query string as the pairs of its items: a key alone has the empty value, an empty key is dropped |
| `Form.BareExample` | src/utils/util.c:92-95 | `flag` is a key with the empty value, `a%2fb` is `a/b` |
| `Form.ParseSerialised` | src/utils/util.c:81-106 | the pairs of a serialised list are found one by one, whichever way values are decoded |
| `Form.FormRoundTrip` | src/utils/util.c:89-91 | with values decoded after the equals sign every list of pairs with non-empty keys comes back |
| `Form.FormMap` | src/utils/util.c:98-99 | and the map is the last-wins map of the pairs |
| `Form.ShownIsValue` | src/utils/util.c:91 | as written, a value comes out right iff it is a prefix of its key |
| `Form.FormAsWritten` | src/utils/util.c:89-91 | as written, the list comes back iff every value is a prefix of its key |
| `Form.FormMapAsWritten` | src/utils/util.c:81-106 | as written, the map is right iff every value that no later pair overrides is a prefix of its key |
| `Form.AsWrittenExample` | src/utils/util.c:91 | `a=b` is read as a=a |

## Left out

- Request line, method and URL tables, HTTP versions, and chunk extensions: two function parameters of `HttpSpec.Grammar`, any functions of the bytes read so far; their own callbacks and spans are not modelled.
- Responses and lenient flags: the machine is that of a request with `lenient_flags` 0; only the functions of `deps/llhttp/http.c` keep their response branches (`ResponseBodies`, `BodiesToTheEnd`).
- HttpParser.Parser.Call: answers 1 and 2 of `on_headers_complete` (skip the body, force an upgrade), which `cb_headers_complete` never gives; an unset callback is modelled as one that answers 0.
- `llhttp_resume_after_upgrade`, `llhttp_pause` from outside a callback, `llhttp_finish` and the `finish` field.
- HttpParser.Parser.Run: the error position after a grammar error other than a refused name is only bounded by the data.
- The vectorised scanning loops of llhttp, which skip the same bytes as the plain ones.
- The hand-over from HTTP to WebSocket: `cb_headers_complete` answers 22, which llhttp turns into a callback error, so `src/net/conn.c:121-126` is not reached.
- The opening handshake with SHA-1 and base64, TLS, JSON, response building, the event loop, accept and read plumbing, write queues, the PHP object layer, reference counts and object lifetimes.
- User callbacks on the WebSocket side only record; they do not call back into the connection.
- Allocation failure, and with it put's answer -1.
- KHash.Table.Put: a full table of 2^31 buckets that is at least half live, where the resize makes no room (`MakeRoom`) and the insertion would break the load bound; with fewer than 2^30 live keys it does not arise (`FewKeysCanPut`).
- StrMap.Map.Set: nor does the map say what a set does there.
- StrMap.Run: sets are asked of maps with fewer than 2^30 keys, for the same reason.
- Headers.Assembler.OnField: nor does header assembly store into such a map.
- Headers.Assembler.OnHeadersComplete: the same.
- Headers.Assembler.OnAll: the header map has fewer than 2^30 keys before every callback.
- Form.ParseQs: the form map has fewer than 2^30 keys.
- The load bound `(khint_t)(n * 0.77 + 0.5)` is taken as `(77n + 50) / 100`; hash values are unbounded naturals, reduced by the mask.
- KHashBits.SetDeleted: `__ac_set_isdel_false` is never used by the table and has no counterpart.
- Ownership of key and value memory, which is all that `laure_strmap_set` and `laure_strmap_set_take` differ in.
- Buf.Buffer.Contents: the fragment buffer that was never written has a null `data` and length 0, and is read as the empty string; the header buffers' null `data` is modelled as the fault it is.
- `hb_last_pong_ms` is recorded and never read.
