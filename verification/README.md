# http-common in Dafny

A model of the core of the `http-common` Java library (package
`com.airepublic.http.common`), with proofs about it:

- **`BufferUtil`**: reading a line or a token from a `ByteBuffer`, combining
  buffers, and copying a buffer's remainder (module `Buffers`; file `BufferUtil.dfy`).
  `java.nio.ByteBuffer` is the class `Buffers.ByteBuf`, with a byte array, a
  position, a limit and a mark.
- **`HttpStatus`**: the 66 constants in declaration order, their codes, and
  `forCode` (module `Status`).
- **`AsyncHttpReader`**: accumulating received buffers, the fullness heuristic,
  lazily parsing the head and body into an `HttpRequest` or `HttpResponse`, and
  `clear` (module `Reader`). What `parseHeaders` computes is stated as functions
  over the chunks' bytes in module `HeadScan`. The reader's methods are proved
  against those functions.
- **`HttpRequest`**: the request line parser and formatter, `getHost` and
  `getPort` with their caching, `isSecure`, the constructors, the fluent setters
  and `getHeaderBuffer` (module `Request`).
- **`HttpResponse`**: its defaults, constructors, setters, `getHeaderBuffer` and
  `equals` (module `Response`).
- **`pathmatcher.UriTemplate`**: the constructor's validation and normalisation,
  `match`, and the template's fields (module `PathMatcher`).
- **`SslSupport`**: `enlargeBuffer` with Java `int` overflow,
  `enlargePacketBuffer`, `enlargeApplicationBuffer`, `handleBufferUnderflow`, the
  static buffer-size settings, and `wrap`/`unwrap` without an engine (module `Tls`).

Supporting modules:

- **`Wrappers`**: Java `null` is `Option`. A thrown exception is a `Result` whose
  `Err` names the exception's class.
- **`Text`**: Latin-1 decoding, `strip`, `isBlank`, `String.split` with its
  trailing-empty rule, `Integer.parseInt` and decimal formatting.
- **`HeaderMap`**: the `Headers` collaborator as a value. It is an ordered list of
  names, each with its values, and offers `add`, `getFirst` and the serialisation
  of header lines.
- **`HeadRoundTrip`**: the head both `getHeaderBuffer` methods write, read back by
  `parseHeaders` as the same start line and the same headers, with nothing left for
  the body.

The model follows the code as written, including:

- When every stored buffer ends with '\n' and no blank line ends the head,
  `parseHeaders` does not fail for lack of a blank line. The start line may stay
  null and the body is empty. Apart from a header line without ':'
  (`HeadScan.MissingColonThrows`), only a line cut off by the end of a buffer
  throws an `IOException`.
- After the blank line, `parseHeaders` skips blank lines by reading lines. The first
  non-blank line read there is consumed and lost instead of starting the body
  (`HeadScan.LineAfterBlankIsSwallowed`).
- `enlargeBuffer` does not copy the old bytes; only `handleBufferUnderflow` copies.
  `handleBufferUnderflow` compares the session's packet size with the buffer's
  limit, not its capacity.

## Model

| member | source | states |
|---|---|---|
| Buffers.ByteBuf.Wrap | src/main/java/com/airepublic/http/common/BufferUtil.java:101 | `ByteBuffer.wrap`: a fresh buffer holding exactly the given bytes, position 0, limit = capacity, no mark |
| Buffers.ByteBuf.Allocate | src/main/java/com/airepublic/http/common/SslSupport.java:374-376 | `ByteBuffer.allocate(n)`: a fresh zero-filled buffer of capacity n, position 0, limit n |
| Buffers.ByteBuf.Drain | src/main/java/com/airepublic/http/common/BufferUtil.java:99-100 | a bulk `get` of `remaining()` bytes returns exactly the remaining bytes and moves the position to the limit |
| Buffers.ByteBuf.Flip | src/main/java/com/airepublic/http/common/SslSupport.java:406 | `flip`: limit becomes the old position, position 0, mark discarded |
| Buffers.ByteBuf.Put | src/main/java/com/airepublic/http/common/SslSupport.java:407 | `put(src)`: the source's remaining bytes are written at the position, the bytes before and after are unchanged, both positions advance by the count, the source is drained |
| Buffers.LineEnd | src/main/java/com/airepublic/http/common/BufferUtil.java:23-30 | the index just past the first '\n' of the bytes, or none when there is no '\n' |
| Buffers.ReadLine | src/main/java/com/airepublic/http/common/BufferUtil.java:19-36 | `readLine`: returns the decoded bytes up to and including the first '\n' and moves the position just past it; with no '\n' every remaining byte is consumed and null is returned |
| Buffers.TokenEnd | src/main/java/com/airepublic/http/common/BufferUtil.java:49-58 | the shortest prefix, of length at least `from`, whose decoding ends with the token; none exists exactly when no prefix in range ends with it |
| Buffers.ReadNextToken | src/main/java/com/airepublic/http/common/BufferUtil.java:39-63 | `readNextToken`: marks the start position; returns the text before the first occurrence of the token and stops just past it; without an occurrence, consumes everything and returns null |
| Buffers.TokenFound | src/main/java/com/airepublic/http/common/BufferUtil.java:53-56 | once the bytes read so far decode to a text ending with the token, that is the first such prefix, and stripping the token gives the decoding of the bytes before it |
| Buffers.NoTokenEnd | src/main/java/com/airepublic/http/common/BufferUtil.java:49-62 | when no prefix of the remaining bytes ends with the token, `readNextToken` has no end position |
| Buffers.DrainAll | src/main/java/com/airepublic/http/common/BufferUtil.java:80-89 | draining each buffer in order yields the concatenation of their remaining bytes and leaves every buffer at its limit |
| Buffers.CombineBuffers | src/main/java/com/airepublic/http/common/BufferUtil.java:76-95 | `combineBuffers`: a fresh buffer whose content is the concatenation of the inputs' remaining bytes, in order; every input is drained, and nothing but input positions changes |
| Buffers.CopyRemainingBuffer | src/main/java/com/airepublic/http/common/BufferUtil.java:98-102 | `copyRemainingBuffer`: a fresh buffer holding exactly the remaining bytes, position 0; the input is drained |
| Buffers.DrainedAreEmpty | src/main/java/com/airepublic/http/common/AsyncHttpReader.java:180 | buffers left at their limit by `combineBuffers` have nothing remaining |
| Status.Code | src/main/java/com/airepublic/http/common/HttpStatus.java:5-192 | `code()`: each constant's declared code; every code lies between 100 and 511 |
| Status.FirstWithCode | src/main/java/com/airepublic/http/common/HttpStatus.java:196-200 | the search loop: the first constant from a given ordinal on with the code; none exactly when no constant from there on has it |
| Status.ForCode | src/main/java/com/airepublic/http/common/HttpStatus.java:195-203 | `forCode`: the first constant in declaration order with the code; `IllegalArgumentException` exactly when no constant has it |
| Status.ForCodeRoundTrip | src/main/java/com/airepublic/http/common/HttpStatus.java:190-203 | `forCode(s.code())` succeeds for every constant s and returns s or an earlier constant with the same code |
| Status.FirstOfCode | src/main/java/com/airepublic/http/common/HttpStatus.java:195-200 | a constant with the code and no earlier constant with it is what `forCode` returns |
| Status.ForCodeAliases | src/main/java/com/airepublic/http/common/HttpStatus.java:7-153 | for the shared codes 100, 200, 300, 400 and 500 `forCode` returns the class constant (`INFORMATIONAL`, `SUCCESS`, `REDIRECTION`, `CLIENT_ERROR`, `SERVER_ERROR`), never the specific one |
| Status.RedirectionFirst | src/main/java/com/airepublic/http/common/HttpStatus.java:52-55 | `forCode(300)` is `REDIRECTION` |
| Status.ClientErrorFirst | src/main/java/com/airepublic/http/common/HttpStatus.java:74-77 | `forCode(400)` is `CLIENT_ERROR` |
| Status.ServerErrorFirst | src/main/java/com/airepublic/http/common/HttpStatus.java:150-153 | `forCode(500)` is `SERVER_ERROR` |
| Status.ForCodeUndeclaredExamples | src/main/java/com/airepublic/http/common/HttpStatus.java:115-120 | the codes 306, 418 (whose constant is commented out) and 509 are declared by no constant, so `forCode` throws for them |
| HeaderMap.Add | src/main/java/com/airepublic/http/common/AsyncHttpReader.java:152 | `Headers.add`: the value is appended to the name's values, a new name goes last, every other name keeps its values |
| HeaderMap.GetFirst | src/main/java/com/airepublic/http/common/HttpRequest.java:154 | `Headers.getFirst`: the first value of the name, or null exactly when the name has no value |
| HeaderMap.AddWellFormed | src/main/java/com/airepublic/http/common/AsyncHttpReader.java:152 | `add` keeps names distinct and every name with at least one value |
| HeaderMap.GetFirstAfterAdd | src/main/java/com/airepublic/http/common/AsyncHttpReader.java:152 | after `add`, `getFirst` of that name is the earlier first value if there was one, otherwise the added value |
| HeadScan.Step | src/main/java/com/airepublic/http/common/AsyncHttpReader.java:143-156 | one non-blank head line: the first becomes the start line; a later one without ':' throws an `IOException`; otherwise it adds the text before the first ':' as name and the stripped rest as value |
| HeadScan.SkipBlankLines | src/main/java/com/airepublic/http/common/AsyncHttpReader.java:138-140 | the number of bytes the skip loop after the blank line reads, never more than there are |
| HeadScan.ScanChunk | src/main/java/com/airepublic/http/common/AsyncHttpReader.java:127-161 | the line loop over one buffer: how many bytes it reads, all of them unless it stops at the blank line or an exception; the start line once set is kept |
| HeadScan.UnfinishedScanEndsLine | src/main/java/com/airepublic/http/common/AsyncHttpReader.java:129-160 | a scan of one buffer that neither reaches the blank line nor throws read a buffer ending in '\n': a line cut off by the buffer's end throws an `IOException` |
| HeadScan.ScanChunks | src/main/java/com/airepublic/http/common/AsyncHttpReader.java:125-167 | the buffer loop: one read count per buffer, none above that buffer's size |
| HeadScan.ScanShape | src/main/java/com/airepublic/http/common/AsyncHttpReader.java:125-167 | an unfinished scan read every buffer to its end; a finished one read every buffer before some buffer j to its end and no buffer after j |
| HeadScan.BodyRule | src/main/java/com/airepublic/http/common/AsyncHttpReader.java:125-183 | the body is the unread rest of the buffer where the head ended followed by every later buffer in full; when the head never ends, the body is empty |
| HeadScan.LineAfterBlankIsSwallowed | src/main/java/com/airepublic/http/common/AsyncHttpReader.java:135-142 | from "A\n\nB\nC" the start line is "A" and the body is "C": the line "B" after the blank line is lost |
| HeadScan.MissingColonThrows | src/main/java/com/airepublic/http/common/AsyncHttpReader.java:125-161 | the single buffer "A\r\nB\r\n" ends with '\n' and has no blank line, yet its header line "B" has no ':' and throws an `IOException` |
| HeadScan.ScanLineStep | src/main/java/com/airepublic/http/common/AsyncHttpReader.java:131-157 | reading a line continues the scan of a buffer as `ScanChunk` does: a blank line ends it, a bad header line throws, any other line is a `Step` |
| HeadRoundTrip.ScanLine | src/main/java/com/airepublic/http/common/AsyncHttpReader.java:129-156 | a head line, optionally followed by one space, then CRLF, is read as one line whose stripped text goes to `Step`, and exactly its bytes are consumed |
| HeadRoundTrip.ScanHeaderLine | src/main/java/com/airepublic/http/common/AsyncHttpReader.java:147-152 | the line "name: value" that both serialisers write adds `value` under `name` and consumes exactly its bytes |
| HeadRoundTrip.ScanEntryLines | src/main/java/com/airepublic/http/common/AsyncHttpReader.java:147-152 | the lines one entry writes, one per value, read after headers without that name, append exactly that entry, values in order |
| HeadRoundTrip.ScanHeaderLines | src/main/java/com/airepublic/http/common/AsyncHttpReader.java:125-161 | the header lines of `h`, read after headers that share no name with it, append exactly `h`, consuming every byte |
| HeadRoundTrip.WellFormedIsNew | src/main/java/com/airepublic/http/common/AsyncHttpReader.java:152 | in well-formed headers every entry's name is new to the entries before it and every entry has a value, so `add` rebuilds them entry by entry |
| HeadRoundTrip.ScanWrittenHead | src/main/java/com/airepublic/http/common/AsyncHttpReader.java:125-167 | a written head in one buffer is scanned to its last byte, ending the head with the start line and the headers it was written from |
| HeadRoundTrip.HeadReadsBack | src/main/java/com/airepublic/http/common/AsyncHttpReader.java:120-170 | `parseHeaders` reads a written head back as the same start line and the same headers, and leaves nothing for the body |
| HeadRoundTrip.PrintableHeadLine | src/main/java/com/airepublic/http/common/AsyncHttpReader.java:132 | printable text without a leading or trailing space is left alone by `strip` and holds no line break |
| Reader.ParseHttpStatus | src/main/java/com/airepublic/http/common/AsyncHttpReader.java:107-110 | `parseHttpStatus`: a null line throws `NullPointerException`, fewer than two tokens throw `ArrayIndexOutOfBoundsException`, a second token that is not an int throws `NumberFormatException`, and otherwise the result is `forCode` of that int, its exception included |
| Reader.StatusLineRoundTrip | src/main/java/com/airepublic/http/common/AsyncHttpReader.java:107-110 | parsing the status line that `HttpResponse.getHeaderBuffer` writes for status s gives `forCode(s.code())`, a status with s's code |
| Reader.StatusNotANumber | src/main/java/com/airepublic/http/common/AsyncHttpReader.java:109 | a second token without a digit throws `NumberFormatException` |
| Reader.RequestOf | src/main/java/com/airepublic/http/common/AsyncHttpReader.java:62-75 | the request parsed from the chunks: the header scan's exception propagates; a head without a start line gives a request with every line field null; a request carries the scanned headers and the unread bytes as body |
| Reader.ResponseOf | src/main/java/com/airepublic/http/common/AsyncHttpReader.java:84-98 | the response parsed from the chunks: the header scan's exception propagates; a head without a start line throws `NullPointerException`; a response carries the status `parseHttpStatus` returns, the scanned headers and the unread bytes as body |
| Reader.RequestRoundTrip | src/main/java/com/airepublic/http/common/AsyncHttpReader.java:62-75 | a request with headers, written by `HttpRequest.getHeaderBuffer` and received as one buffer, is read back with the same request-line fields and headers and an empty body |
| Reader.ResponseRoundTrip | src/main/java/com/airepublic/http/common/AsyncHttpReader.java:84-98 | a response written by `HttpResponse.getHeaderBuffer` and received as one buffer is read back with a status of the same code (the first constant declared with it), the same headers and an empty body |
| Reader.OkReadBackAsSuccess | src/main/java/com/airepublic/http/common/HttpStatus.java:20-23 | a response with status OK is read back as SUCCESS, the constant declared before it with the same code 200 |
| Reader.SkipStep | src/main/java/com/airepublic/http/common/AsyncHttpReader.java:138-140 | one pass of the skip loop reads a line and leaves the rest of the skip to be done; the loop always progresses |
| Reader.SkipAfterBlankLine | src/main/java/com/airepublic/http/common/AsyncHttpReader.java:138-140 | the skip loop advances the position by exactly `SkipBlankLines` of the remaining bytes |
| Reader.ReadSkippedLine | src/main/java/com/airepublic/http/common/AsyncHttpReader.java:139 | one line read in the skip loop decreases what is left to skip by the bytes it read |
| Reader.ReadHeadLine | src/main/java/com/airepublic/http/common/AsyncHttpReader.java:129-160 | one pass of the line loop, in terms of `ScanChunk` of the bytes before and after |
| Reader.ReadHeadLines | src/main/java/com/airepublic/http/common/AsyncHttpReader.java:127-161 | the line loop on one buffer returns `ScanChunk`'s outcome and advances the position by its read count |
| Reader.ReadHeadLinesAt | src/main/java/com/airepublic/http/common/AsyncHttpReader.java:127-161 | the line loop on the i-th stored buffer, as `ScanChunk` says; only positions change |
| Reader.ScanBufferStep | src/main/java/com/airepublic/http/common/AsyncHttpReader.java:125-167 | scanning buffer i continues `ScanChunks` where buffer i-1 left off |
| Reader.ScanBuffer | src/main/java/com/airepublic/http/common/AsyncHttpReader.java:125-167 | the buffer loop from buffer i on: its outcome is `ScanChunks`'s, and every buffer is left holding what the scan did not read |
| Reader.ScanBuffers | src/main/java/com/airepublic/http/common/AsyncHttpReader.java:125-167 | the whole buffer loop: outcome = `ScanChunks(chunks).outcome`, remainders = `Unread(chunks, used)` |
| Reader.NewRequest | src/main/java/com/airepublic/http/common/AsyncHttpReader.java:68 | `new HttpRequest(line, headers).withBody(body)`: the request line's exception, or a fresh request with its parsed fields, the headers and the body |
| Reader.AsyncHttpReader.constructor | src/main/java/com/airepublic/http/common/AsyncHttpReader.java:16-19 | no buffers, not fully read, no cached request or response |
| Reader.AsyncHttpReader.ReceiveBuffer | src/main/java/com/airepublic/http/common/AsyncHttpReader.java:31-48 | after completion it throws an `IOException` and changes nothing; otherwise a copy of a non-empty remainder is appended, the buffer is drained, and the result and new flag are `limit != capacity` |
| Reader.AsyncHttpReader.Accept | src/main/java/com/airepublic/http/common/AsyncHttpReader.java:33-42 | the branch taken before completion: stores the remainder when non-empty, then sets the flag from the fullness heuristic |
| Reader.AsyncHttpReader.StoreCopy | src/main/java/com/airepublic/http/common/AsyncHttpReader.java:34 | appends a fresh copy of the buffer's remainder; the stored chunks grow by exactly those bytes |
| Reader.AsyncHttpReader.Store | src/main/java/com/airepublic/http/common/AsyncHttpReader.java:34 | appending a buffer to the list appends its remainder to the chunks |
| Reader.AsyncHttpReader.IsFullyRead | src/main/java/com/airepublic/http/common/AsyncHttpReader.java:51-53 | `isFullyRead`: the flag the last received buffer set |
| Reader.AsyncHttpReader.ParseHeaders | src/main/java/com/airepublic/http/common/AsyncHttpReader.java:120-170 | `parseHeaders`: the outcome of `ScanChunks` on the stored chunks; each buffer is left holding what was not read |
| Reader.AsyncHttpReader.ParseBody | src/main/java/com/airepublic/http/common/AsyncHttpReader.java:179-183 | `parseBody`: a fresh buffer holding the concatenation of what every stored buffer has left; all of them are drained |
| Reader.AsyncHttpReader.ParseMessage | src/main/java/com/airepublic/http/common/AsyncHttpReader.java:65-67 | `parseHeaders` then `parseBody`: the head outcome, and on success the body as `HeadScan.Body` says |
| Reader.AsyncHttpReader.GetHttpRequest | src/main/java/com/airepublic/http/common/AsyncHttpReader.java:62-75 | a cached request is returned unchanged; before completion an `IOException`; otherwise the request `RequestOf` the stored chunks describes, cached |
| Reader.AsyncHttpReader.ParseRequest | src/main/java/com/airepublic/http/common/AsyncHttpReader.java:64-68 | the parse branch: the result matches `RequestOf(chunks)`, its exceptions included |
| Reader.AsyncHttpReader.StoreRequest | src/main/java/com/airepublic/http/common/AsyncHttpReader.java:68 | builds and caches the request from the start line, headers and body |
| Reader.AsyncHttpReader.GetHttpResponse | src/main/java/com/airepublic/http/common/AsyncHttpReader.java:84-98 | a cached response is returned unchanged; before completion an `IOException`; otherwise the response `ResponseOf` the stored chunks describes, cached |
| Reader.AsyncHttpReader.ParseResponse | src/main/java/com/airepublic/http/common/AsyncHttpReader.java:86-91 | the parse branch: the result matches `ResponseOf(chunks)`, its exceptions included |
| Reader.AsyncHttpReader.StoreResponse | src/main/java/com/airepublic/http/common/AsyncHttpReader.java:90-91 | parses the status line and builds and caches the response; a bad status line throws and caches nothing |
| Reader.AsyncHttpReader.Clear | src/main/java/com/airepublic/http/common/AsyncHttpReader.java:190-195 | back to the initial state: no buffers, not fully read, no cached request or response |
| Request.ApplyRequestLine | src/main/java/com/airepublic/http/common/HttpRequest.java:66-81 | `setRequestLine`: null changes nothing; fewer than three tokens throw, and fewer than two change nothing; a full parse sets the scheme "http"; without '?' in the target the query is kept |
| Request.RequestLineRoundTrip | src/main/java/com/airepublic/http/common/HttpRequest.java:61-81 | parsing "method target version" yields those tokens and "http", and `getRequestLine` gives the line back |
| Request.FormatTarget | src/main/java/com/airepublic/http/common/HttpRequest.java:62 | with method, non-blank path and version set, `getRequestLine` is those three tokens with the query in the target |
| Request.FormatRequestLine | src/main/java/com/airepublic/http/common/HttpRequest.java:61-63 | `getRequestLine` defaults: a null method reads "GET", a null version "HTTP/1.1", and a request with no line fields gives "GET / HTTP/1.1" |
| Request.FormatThenParse | src/main/java/com/airepublic/http/common/HttpRequest.java:61-81 | formatting fields a request line can carry and parsing the line back changes no field and throws nothing |
| Request.RequestLineIsHeadLine | src/main/java/com/airepublic/http/common/HttpRequest.java:61-63 | a request line of visible words has nothing `strip` removes and no line break, so the head reader reads it whole |
| Request.HttpRequest.GetRequestLine | src/main/java/com/airepublic/http/common/HttpRequest.java:61-63 | `getRequestLine` of fields a request line can carry is parsed back by `setRequestLine` into the same fields |
| Request.QuestionMarkTarget | src/main/java/com/airepublic/http/common/HttpRequest.java:68-72 | a target that is only "?" splits into nothing: the method is set, then `ArrayIndexOutOfBoundsException` |
| Request.SchemeIsSecure | src/main/java/com/airepublic/http/common/HttpRequest.java:245-247 | `isSecure`: a null scheme throws `NullPointerException`; otherwise true exactly for "https" and "wss" |
| Request.ParsedRequestIsNotSecure | src/main/java/com/airepublic/http/common/HttpRequest.java:79 | a request whose line parsed without exception is not secure |
| Request.HttpRequest.IsSecure | src/main/java/com/airepublic/http/common/HttpRequest.java:245-247 | `isSecure` of the request: throws exactly when the scheme is null, and is true exactly for "https" and "wss" |
| Request.HostLookup | src/main/java/com/airepublic/http/common/HttpRequest.java:151-163 | `getHost`: a cached host is returned; a looked-up host contains no ':' |
| Request.PortLookup | src/main/java/com/airepublic/http/common/HttpRequest.java:173-188 | `getPort`: a port other than -1 is returned; the only exception is `NumberFormatException` |
| Request.HostLookupCached | src/main/java/com/airepublic/http/common/HttpRequest.java:151-163 | a host once looked up is returned again by the next lookup |
| Request.PortLookupCached | src/main/java/com/airepublic/http/common/HttpRequest.java:173-188 | a port once looked up is returned again by the next lookup |
| Request.HostAndPortFromHeader | src/main/java/com/airepublic/http/common/HttpRequest.java:151-188 | a `Host` value "name:port" gives back that name and that port |
| Request.HostWithoutPort | src/main/java/com/airepublic/http/common/HttpRequest.java:151-188 | a `Host` value without ':' is the host, and the port is -1 |
| Request.HostWithEmptyPort | src/main/java/com/airepublic/http/common/HttpRequest.java:151-188 | a `Host` value "name:" gives the host "name" and the port -1, since `split` drops the trailing empty piece |
| Request.HostOnlyColon | src/main/java/com/airepublic/http/common/HttpRequest.java:151-188 | a `Host` value ":" makes `getHost` throw `ArrayIndexOutOfBoundsException`, since `split` gives no pieces; `getPort` gives -1 |
| Request.HeaderBufferReadsBack | src/main/java/com/airepublic/http/common/HttpRequest.java:100-116 | the head `getHeaderBuffer` writes for a request with headers is read back by `parseHeaders` as the request line and the same headers, with nothing left for the body |
| Request.HttpRequest.HeaderBuffer | src/main/java/com/airepublic/http/common/HttpRequest.java:100-116 | `getHeaderBuffer`: the request line and CRLF; with headers, one line per value and a closing empty line; without them, that first line alone |
| Request.HttpRequest.constructor | src/main/java/com/airepublic/http/common/HttpRequest.java:22-24 | `new HttpRequest()`: empty headers, port -1, every other field null |
| Request.HttpRequest.Create | src/main/java/com/airepublic/http/common/HttpRequest.java:43-47 | `new HttpRequest(line, headers, body)`: the request line's exception, or a fresh request with the parsed fields, the headers and the body |
| Request.HttpRequest.Empty | src/main/java/com/airepublic/http/common/HttpRequest.java:11-19 | the field initialisers: port -1, every other field null |
| Request.HttpRequest.SetRequestLine | src/main/java/com/airepublic/http/common/HttpRequest.java:66-81 | writes the fields and reports the exception exactly as `ApplyRequestLine` says; host, port, headers and body are untouched |
| Request.HttpRequest.GetHost | src/main/java/com/airepublic/http/common/HttpRequest.java:151-163 | returns `HostLookup` of the cached host and the headers, and caches the result |
| Request.HttpRequest.GetPort | src/main/java/com/airepublic/http/common/HttpRequest.java:173-188 | returns `PortLookup` of the cached port and the headers, and caches the result |
| Request.HttpRequest.WithHeaders | src/main/java/com/airepublic/http/common/HttpRequest.java:55-58 | sets the headers only and returns the same request |
| Request.HttpRequest.WithBody | src/main/java/com/airepublic/http/common/HttpRequest.java:94-97 | sets the body only and returns the same request |
| Request.HttpRequest.SetBody | src/main/java/com/airepublic/http/common/HttpRequest.java:89-91 | sets the body only |
| Request.HttpRequest.WithMethod | src/main/java/com/airepublic/http/common/HttpRequest.java:144-148 | sets the method only and returns the same request |
| Request.HttpRequest.WithHost | src/main/java/com/airepublic/http/common/HttpRequest.java:166-170 | sets the host only and returns the same request |
| Request.HttpRequest.WithPort | src/main/java/com/airepublic/http/common/HttpRequest.java:191-195 | sets the port only and returns the same request |
| Request.HttpRequest.WithPath | src/main/java/com/airepublic/http/common/HttpRequest.java:203-207 | sets the path only and returns the same request |
| Request.HttpRequest.WithQuery | src/main/java/com/airepublic/http/common/HttpRequest.java:215-219 | sets the query only and returns the same request |
| Request.HttpRequest.WithScheme | src/main/java/com/airepublic/http/common/HttpRequest.java:227-231 | sets the scheme only and returns the same request |
| Request.HttpRequest.WithVersion | src/main/java/com/airepublic/http/common/HttpRequest.java:239-242 | sets the version only and returns the same request |
| Response.HeadText | src/main/java/com/airepublic/http/common/HttpResponse.java:166-186 | `getHeaderBuffer` is null exactly when headers, scheme or status is null |
| Response.StatusLine | src/main/java/com/airepublic/http/common/HttpResponse.java:169 | with a scheme and version free of spaces, the second space-separated token of the status line reads back as the status code |
| Response.CodeIsSecondToken | src/main/java/com/airepublic/http/common/HttpResponse.java:169 | the decimal code after "SCHEME/version " is the line's second token and parses to the code |
| Response.StatusLineIsHeadLine | src/main/java/com/airepublic/http/common/HttpResponse.java:169 | a status line of a visible scheme and version and a constant named by an identifier is read whole by the head reader |
| Response.HeadTextReadsBack | src/main/java/com/airepublic/http/common/HttpResponse.java:166-186 | the head `getHeaderBuffer` writes is read back by `parseHeaders` as the status line and the same headers, with nothing left for the body |
| Response.HttpResponse.HeaderBuffer | src/main/java/com/airepublic/http/common/HttpResponse.java:166-186 | `getHeaderBuffer` of the response: null exactly when headers, scheme or status is null, otherwise the status line, the header lines and the closing empty line |
| Response.HttpResponse.constructor | src/main/java/com/airepublic/http/common/HttpResponse.java:12-23 | `new HttpResponse()`: scheme "http", version "1.1", everything else null |
| Response.HttpResponse.WithStatus | src/main/java/com/airepublic/http/common/HttpResponse.java:31-33 | `new HttpResponse(status)`: empty headers and a null body |
| Response.HttpResponse.WithStatusAndHeaders | src/main/java/com/airepublic/http/common/HttpResponse.java:42-44 | `new HttpResponse(status, headers)`: a null body |
| Response.HttpResponse.Create | src/main/java/com/airepublic/http/common/HttpResponse.java:54-58 | `new HttpResponse(status, headers, body)` with the default scheme and version |
| Response.HttpResponse.SetScheme | src/main/java/com/airepublic/http/common/HttpResponse.java:76-78 | sets the scheme only |
| Response.HttpResponse.SetVersion | src/main/java/com/airepublic/http/common/HttpResponse.java:96-98 | sets the version only |
| Response.HttpResponse.SetStatus | src/main/java/com/airepublic/http/common/HttpResponse.java:116-118 | sets the status only |
| Response.HttpResponse.SetHeaders | src/main/java/com/airepublic/http/common/HttpResponse.java:136-138 | sets the headers only |
| Response.HttpResponse.SetBody | src/main/java/com/airepublic/http/common/HttpResponse.java:156-158 | sets the body only |
| Response.HttpResponse.Equals | src/main/java/com/airepublic/http/common/HttpResponse.java:201-230 | `equals` holds exactly when the bodies' remaining bytes (or their nullness), the headers and the status agree |
| Response.EqualsSymmetric | src/main/java/com/airepublic/http/common/HttpResponse.java:201-230 | `equals` is symmetric |
| Response.EqualsIgnoresSchemeAndVersion | src/main/java/com/airepublic/http/common/HttpResponse.java:201-230 | scheme and version play no part in `equals` |
| PathMatcher.PieceStep | src/main/java/com/airepublic/http/common/pathmatcher/UriTemplate.java:69-90 | one non-empty piece adds one segment, a parameter count and name for a `{name}` piece, and "/{p}" or "/piece" to the normal form |
| PathMatcher.Parse | src/main/java/com/airepublic/http/common/pathmatcher/UriTemplate.java:38-95 | the constructor: a path that is null, empty or does not start with '/' throws `IOException`, and nothing else does; otherwise the result is `TemplateOf(path)`, which throws `IllegalArgumentException` for a bad piece |
| PathMatcher.SegmentsShape | src/main/java/com/airepublic/http/common/pathmatcher/UriTemplate.java:69-90 | a literal segment of an accepted path is non-empty and brace-free; a parameter's index is its position |
| PathMatcher.ParamsPositive | src/main/java/com/airepublic/http/common/pathmatcher/UriTemplate.java:76 | the parameter count is positive exactly when some segment is a parameter |
| PathMatcher.NamesDistinct | src/main/java/com/airepublic/http/common/pathmatcher/UriTemplate.java:79-81 | the parameter names of an accepted path are distinct |
| PathMatcher.TemplateSegments | src/main/java/com/airepublic/http/common/pathmatcher/UriTemplate.java:89-94 | of a built template: `hasParameters` holds exactly when a segment is a parameter, and every segment is shaped as `SegmentsShape` says |
| PathMatcher.ParamNamesDistinct | src/main/java/com/airepublic/http/common/pathmatcher/UriTemplate.java:79-81 | a built template has no two parameters with the same name |
| PathMatcher.LiteralNormalized | src/main/java/com/airepublic/http/common/pathmatcher/UriTemplate.java:52-93 | without parameters, the normalised path is the path itself, less a trailing '/' |
| PathMatcher.Match | src/main/java/com/airepublic/http/common/pathmatcher/UriTemplate.java:98-127 | `match`: null exactly when the segment counts differ or a literal segment differs from the candidate's; otherwise the parameter bindings |
| PathMatcher.BindingsOfDistinct | src/main/java/com/airepublic/http/common/pathmatcher/UriTemplate.java:110-124 | with distinct names, the bindings bind exactly the parameter names, each to the candidate's segment at its position |
| PathMatcher.MatchBindsParameters | src/main/java/com/airepublic/http/common/pathmatcher/UriTemplate.java:98-127 | matching a built template binds each parameter name to the candidate's segment at its position, and nothing else |
| Tls.WrapInt | src/main/java/com/airepublic/http/common/SslSupport.java:376 | Java `int` arithmetic: the identity in range, and congruent modulo 2^32 |
| Tls.EnlargedCapacity | src/main/java/com/airepublic/http/common/SslSupport.java:372-380 | for a non-negative capacity: the requested capacity is negative exactly when doubling overflows; otherwise it is at least the proposal and the old capacity, and larger than a non-zero old capacity |
| Tls.EnlargeBuffer | src/main/java/com/airepublic/http/common/SslSupport.java:372-380 | `enlargeBuffer`: `IllegalArgumentException` exactly when the capacity overflows; otherwise a fresh, empty buffer at least as large as the proposal and the old buffer |
| Tls.EnlargePacketBuffer | src/main/java/com/airepublic/http/common/SslSupport.java:383-385 | `enlargeBuffer` to the session's packet size |
| Tls.EnlargeApplicationBuffer | src/main/java/com/airepublic/http/common/SslSupport.java:164-166 | `enlargeBuffer` to the session's application size |
| Tls.HandleBufferUnderflow | src/main/java/com/airepublic/http/common/SslSupport.java:401-410 | the same, untouched buffer when the packet size is below its limit; otherwise the enlargement's exception with the buffer untouched, or a fresh enlarged buffer holding the bytes before the old position, positioned after them, with the old buffer flipped and drained |
| Tls.BufferSizes.constructor | src/main/java/com/airepublic/http/common/SslSupport.java:36-37 | both sizes start at 16 KiB |
| Tls.BufferSizes.GetPacketBufferSize | src/main/java/com/airepublic/http/common/SslSupport.java:440-442 | `getPacketBufferSize`: the stored packet size |
| Tls.BufferSizes.GetApplicationBufferSize | src/main/java/com/airepublic/http/common/SslSupport.java:460-462 | `getApplicationBufferSize`: the stored application size |
| Tls.BufferSizes.SetPacketBufferSize | src/main/java/com/airepublic/http/common/SslSupport.java:450-452 | `getPacketBufferSize` returns the new size; the other size is kept |
| Tls.BufferSizes.SetApplicationBufferSize | src/main/java/com/airepublic/http/common/SslSupport.java:470-472 | `getApplicationBufferSize` returns the new size; the other size is kept |
| Tls.PassThrough | src/main/java/com/airepublic/http/common/SslSupport.java:485-525 | `unwrap` (lines 485-488) returns its buffer, and `wrap` (lines 522-525) its buffers, unchanged exactly when there is no engine; the engine paths in between are only `ByEngine` |

## Left out

- I/O, the socket channel, and the TLS handshake of `SslSupport`: `doHandshake`,
  `closeConnection` and the SSL context and key/trust manager set-up. The engine
  branches of `wrap` and `unwrap` are only the value `ByEngine`, because they run
  the JDK's `SSLEngine`. The engine is reduced to its session's two size hints.
- Exception messages: only the exception's class (and, for `IOException`, which
  check raised it) is modelled.
- `HttpRequest`'s `URI` constructors, `setUri` and `getUserPrincipal`, and
  `hashCode` and `toString` of both message classes: they rely on `java.net.URI`
  and on JDK hashing and formatting.
- The plain field getters of the message classes and of `UriTemplate`
  (`getSegmentCount`, `getNormalizedPath`, `hasParameters` and the like) are field
  reads of the model's classes and values, and have no members of their own. The
  exceptions are `isFullyRead` and the two buffer-size getters of `SslSupport`.
- `Headers` is not part of this model's sources. It is modelled as an ordered list of
  names with their values and exact, case-sensitive name matching; `Headers.HOST`
  is taken to be "Host".
- `getHeaderBuffer` of both message classes is modelled as the text it writes,
  not as a `ByteBuffer` of its encoded bytes.
- Character sets: bytes decode as Latin-1, one character per byte, for the ASCII
  charset that `parseHeaders` passes. Java's ASCII decoder turns a byte of 128 or
  more into U+FFFD; the model's `Text.Decode` keeps it as the Latin-1 character of
  that value. The round trips need no such byte: they are stated for ASCII text.
- `Text.ToUpper` upper-cases ASCII letters only. `String.toUpperCase` follows the
  default locale and Unicode, so it can change other characters and even the length
  (the Turkish dotted I, "ß" to "SS"). The model's status line agrees with it for
  ASCII schemes only.
- `Buffers.ReadLine`, `Buffers.ReadNextToken`: the `UnsupportedEncodingException`
  handlers cannot be reached with a fixed charset and are not modelled.
- `Buffers.CombineBuffers`: the three overloads (varargs, collection, stream) are one
  method over a sequence of buffers.
- `Buffers.CombineBuffers` requires distinct buffer objects. Java accepts the same
  buffer twice, whose second read then finds it drained. The only caller,
  `parseBody`, passes the reader's own copies, which are distinct.
- `Status.Name` has no contract of its own: a fact about all 66 identifiers at once
  is too costly for the verifier. The response round trips therefore require
  `IsConstantName(Name(status))`, that the name is an identifier of capitals and
  underscores; `Reader.OkReadBackAsSuccess` shows it for OK.
- `Reader.AsyncHttpReader.ReceiveBuffer` requires the received buffer not to be one
  the reader already stores, which holds because the reader stores private copies.
- `Reader.AsyncHttpReader.GetHttpRequest` and `Reader.AsyncHttpReader.GetHttpResponse`
  parse the stored buffers in place, so the result depends on where the buffers
  were split. A second parse after an exception sees only what the first left.
- `PathMatcher.Match` takes the candidate as a template value; the candidate's own
  parsing is `PathMatcher.Parse`.
- `Tls.EnlargeBuffer`: the buffer's capacity is required to fit a Java `int`, as every
  `ByteBuffer`'s does.
- The static fields of `SslSupport` are the fields of one `Tls.BufferSizes` object.
  The getters read that object; the executor service is not modelled.
