/**
 * `AsyncHttpReader`: collects copies of the buffers of one message, decides when
 * the message is complete, and parses the collected bytes into a request or a
 * response: start line and headers from the head, and the rest as the body.
 */
module Reader {
  import opened Wrappers
  import opened Text
  import opened HeaderMap
  import opened Buffers
  import opened Status
  import opened HeadScan
  import opened Request
  import opened Response
  import opened HeadRoundTrip

  /**
   * `parseHttpStatus`: the second space-separated token of the start line, read as
   * an int and looked up with `forCode`. A null line, a line with fewer than two
   * tokens, a token that is not a number and an undeclared code each throw.
   */
  function ParseHttpStatus(firstLine: Option<string>): (r: Result<HttpStatus>)
    ensures firstLine.None? ==> r == Err(NullPointer)
    ensures firstLine.Some? && |Split(firstLine.value, ' ')| < 2 ==> r == Err(IndexOutOfBounds)
    ensures r.Ok? ==> ParseInt(Split(firstLine.value, ' ')[1]) == Ok(Code(r.value))
    ensures firstLine.Some? && |Split(firstLine.value, ' ')| >= 2 && ParseInt(Split(firstLine.value, ' ')[1]).Ok? ==>
      r == ForCode(ParseInt(Split(firstLine.value, ' ')[1]).value)
    ensures firstLine.Some? && |Split(firstLine.value, ' ')| >= 2 && ParseInt(Split(firstLine.value, ' ')[1]).Err? ==>
      r == Err(NumberFormat)
  {
    if firstLine.None? then Err(NullPointer)
    else
      var parts := Split(firstLine.value, ' ');
      if |parts| < 2 then Err(IndexOutOfBounds)
      else match ParseInt(parts[1])
        case Err(e) => Err(e)
        case Ok(code) => ForCode(code)
  }

  /**
   * The status line a response writes is read back as a status with the same code:
   * the same constant, or the first-declared constant sharing its code.
   */
  lemma StatusLineRoundTrip(scheme: string, version: string, s: HttpStatus)
    requires IsToken(scheme) && ' ' !in version
    ensures ParseHttpStatus(Some(StatusLine(scheme, Some(version), s))) == ForCode(Code(s))
    ensures ParseHttpStatus(Some(StatusLine(scheme, Some(version), s))).Ok?
    ensures Code(ParseHttpStatus(Some(StatusLine(scheme, Some(version), s))).value) == Code(s)
  {
    ForCodeRoundTrip(s);
  }

  /** A start line whose second token holds no digit throws `NumberFormatException`. */
  lemma StatusNotANumber(first: string, token: string, rest: string)
    requires IsToken(first) && IsToken(token)
    requires forall i :: 0 <= i < |token| ==> !IsDigit(token[i])
    ensures ParseHttpStatus(Some(first + " " + token + " " + rest)) == Err(NumberFormat)
  {
    SplitLeadingTokens(first, token, rest);
    ParseIntNeedsDigit(token);
  }

  /**
   * One `readLine` from bytes `s` at position `p`, leaving position `p2` and the bytes
   * `s2`, seen by the loop that skips blank lines.
   */
  lemma SkipStep(s: seq<byte>, p: nat, p2: nat, line: Option<string>, s2: seq<byte>)
    requires p <= p2 <= p + |s|
    requires match LineEnd(s)
      case Some(k) => line == Some(Decode(s[..k])) && p2 == p + k
      case None => line == None && p2 == p + |s|
    requires s2 == s[p2 - p..]
    ensures p2 - p + StillToSkip(line, s2) == SkipBlankLines(s)
    ensures line.Some? ==> p2 > p
  {
    match LineEnd(s)
    case None =>
      assert StillToSkip(line, s2) == 0;
    case Some(k) =>
      assert s2 == s[k..] && k > 0;
      if IsBlank(Decode(s[..k])) {
        assert SkipBlankLines(s) == k + SkipBlankLines(s2);
      } else {
        assert SkipBlankLines(s) == k;
      }
  }

  /** What the loop skipping blank lines still reads after reading `line`, with `rest` left. */
  function StillToSkip(line: Option<string>, rest: seq<byte>): nat {
    if line.Some? && IsBlank(line.value) then SkipBlankLines(rest) else 0
  }

  /**
   * The loop of `parseHeaders` that runs after the blank line: reads lines while
   * they are blank (not stripped), so the first non-blank line is read as well.
   */
  method SkipAfterBlankLine(buffer: ByteBuf)
    requires buffer.Valid()
    modifies buffer`position
    ensures buffer.Valid()
    ensures buffer.position == old(buffer.position) + SkipBlankLines(old(buffer.Remaining()))
  {
    ghost var start := buffer.position;
    ghost var s := buffer.Remaining();
    var line := ReadSkippedLine(buffer);
    while line.Some? && IsBlank(line.value)
      invariant buffer.Valid() && start <= buffer.position
      invariant buffer.position - start + StillToSkip(line, buffer.Remaining()) == SkipBlankLines(s)
      decreases buffer.limit - buffer.position, if line.Some? then 1 else 0
    {
      line := ReadSkippedLine(buffer);
    }
  }

  /** One `readLine` of the loop that skips blank lines, and what that loop then still reads. */
  method ReadSkippedLine(buffer: ByteBuf) returns (line: Option<string>)
    requires buffer.Valid()
    modifies buffer`position
    ensures buffer.Valid() && old(buffer.position) <= buffer.position
    ensures buffer.position - old(buffer.position) + StillToSkip(line, buffer.Remaining())
      == SkipBlankLines(old(buffer.Remaining()))
    ensures line.Some? ==> buffer.position > old(buffer.position)
    ensures line.None? ==> buffer.position == buffer.limit
  {
    ghost var here := buffer.Remaining();
    ghost var p := buffer.position;
    line := ReadLine(buffer);
    SkipStep(here, p, buffer.position, line, buffer.Remaining());
  }

  /**
   * The loop of `parseHeaders` over one stored buffer: reads lines until the buffer
   * is empty or the blank line ending the head is seen.
   */
  method ReadHeadLines(buffer: ByteBuf, st0: HeadState) returns (r: Result<HeadState>)
    requires buffer.Valid() && !st0.finished
    modifies buffer`position
    ensures buffer.Valid()
    ensures r == ScanChunk(old(buffer.Remaining()), st0).outcome
    ensures buffer.position == old(buffer.position) + ScanChunk(old(buffer.Remaining()), st0).used
  {
    ghost var start := buffer.position;
    ghost var goal := ScanChunk(buffer.Remaining(), st0);
    var st := st0;
    while buffer.position < buffer.limit
      invariant buffer.Valid() && start <= buffer.position
      invariant !st.finished
      invariant ScanChunk(buffer.Remaining(), st).outcome == goal.outcome
      invariant buffer.position - start + ScanChunk(buffer.Remaining(), st).used == goal.used
      decreases buffer.limit - buffer.position
    {
      var next, done := ReadHeadLine(buffer, st);
      if done {
        return next;
      }
      st := next.value;
    }
    return Ok(st);
  }

  /**
   * One pass of the loop of `parseHeaders` over one stored buffer: reads a line and
   * either stops (an unreadable or malformed line, or the blank line ending the
   * head, after which the blank lines that follow are skipped) or goes on in the
   * new state.
   */
  method ReadHeadLine(buffer: ByteBuf, st: HeadState) returns (r: Result<HeadState>, done: bool)
    requires buffer.Valid() && !st.finished && buffer.position < buffer.limit
    modifies buffer`position
    ensures buffer.Valid() && old(buffer.position) < buffer.position
    ensures done ==>
      && r == ScanChunk(old(buffer.Remaining()), st).outcome
      && buffer.position == old(buffer.position) + ScanChunk(old(buffer.Remaining()), st).used
    ensures !done ==>
      && r.Ok? && !r.value.finished
      && ScanChunk(buffer.Remaining(), r.value).outcome == ScanChunk(old(buffer.Remaining()), st).outcome
      && buffer.position - old(buffer.position) + ScanChunk(buffer.Remaining(), r.value).used
         == ScanChunk(old(buffer.Remaining()), st).used
  {
    ghost var here := buffer.Remaining();
    var line := ReadLine(buffer);
    if line.None? {
      return Err(IOException(UnreadableHeaderLine)), true;
    }
    var stripped := Strip(line.value);
    ScanLineStep(here, st, LineEnd(here).value, buffer.Remaining(), stripped);
    if IsBlank(stripped) {
      SkipAfterBlankLine(buffer);
      return Ok(st.(finished := true)), true;
    }
    r := Step(st, stripped);
    done := r.Err?;
  }

  /**
   * `ReadHeadLines` on the `i`-th of the stored buffers: that buffer is left
   * holding what the scan of its bytes did not read; the others are untouched.
   */
  method ReadHeadLinesAt(bs: seq<ByteBuf>, i: nat, st: HeadState) returns (r: Result<HeadState>)
    requires AllValid(bs) && Distinct(bs) && i < |bs| && !st.finished
    modifies {bs[i]}`position
    ensures AllValid(bs) && OnlyPositionsMoved(bs) && old(bs[i].position) <= bs[i].position
    ensures ChunkScan(r, bs[i].position - old(bs[i].position)) == ScanChunk(old(bs[i].Remaining()), st)
    ensures Remainders(bs) == old(Remainders(bs))[i := old(Remainders(bs))[i][bs[i].position - old(bs[i].position)..]]
  {
    r := ReadHeadLines(bs[i], st);
    KeptLayout(bs);
    RemainingAfterMove(bs[i]);
    forall j | 0 <= j < |bs| && j != i ensures bs[j].Remaining() == old(bs[j].Remaining()) {
      assert bs[j] != bs[i];
    }
  }

  /**
   * What scanning the `i`-th chunk does to the scan of the rest: either the head
   * ends (or fails) there, or the scan goes on with the next chunk.
   */
  lemma ScanBufferStep(chunks: seq<seq<byte>>, scan: HeadScan, i: nat, st: HeadState,
                        c: Result<HeadState>, moved: nat, after: seq<seq<byte>>)
    requires i < |chunks| && !st.finished && scan == ScanChunks(chunks, Start)
    requires ScanResumes(chunks, scan, i, st)
    requires ChunkScan(c, moved) == ScanChunk(chunks[i], st)
    requires after == PartlyRead(chunks, scan.used, i)[i := chunks[i][moved..]]
    ensures c.Err? || c.value.finished ==> c == scan.outcome && after == Unread(chunks, scan.used)
    ensures c.Ok? && !c.value.finished ==>
      && after == PartlyRead(chunks, scan.used, i + 1)
      && ScanResumes(chunks, scan, i + 1, c.value)
  {
    ScanChunksStep(chunks, i, st);
    if c.Err? || c.value.finished {
      UsedAfterStop(scan.used, i, scan.used[i..][0]);
      PartlyReadStop(chunks, scan.used, i);
    } else {
      assert scan.used[i..][1..] == scan.used[i + 1..];
      PartlyReadNext(chunks, scan.used, i);
    }
  }

  /**
   * One pass of the outer loop of `parseHeaders`, over the `i`-th buffer of `bs`;
   * `chunks` are the bytes the buffers held when the loop started.
   */
  method ScanBuffer(bs: seq<ByteBuf>, i: nat, st: HeadState, ghost chunks: seq<seq<byte>>, ghost scan: HeadScan)
    returns (c: Result<HeadState>)
    requires AllValid(bs) && Distinct(bs) && i < |bs| && !st.finished
    requires |chunks| == |bs| && scan == ScanChunks(chunks, Start)
    requires Remainders(bs) == PartlyRead(chunks, scan.used, i)
    requires ScanResumes(chunks, scan, i, st)
    modifies {bs[i]}`position
    ensures AllValid(bs) && OnlyPositionsMoved(bs)
    ensures c.Err? || c.value.finished ==> c == scan.outcome && Remainders(bs) == Unread(chunks, scan.used)
    ensures c.Ok? && !c.value.finished ==>
      && Remainders(bs) == PartlyRead(chunks, scan.used, i + 1)
      && ScanResumes(chunks, scan, i + 1, c.value)
  {
    ghost var before := Remainders(bs);
    ghost var pos := bs[i].position;
    assert bs[i].Remaining() == before[i] == chunks[i];
    c := ReadHeadLinesAt(bs, i, st);
    ghost var moved := bs[i].position - pos;
    ghost var after := Remainders(bs);
    assert after == before[i := chunks[i][moved..]];
    ScanBufferStep(chunks, scan, i, st, c, moved, after);
  }

  /**
   * The loop of `parseHeaders` over the buffers `bs`: scans them as `ScanChunks`
   * describes; each buffer is left holding what the scan did not read.
   */
  method ScanBuffers(bs: seq<ByteBuf>, ghost chunks: seq<seq<byte>>) returns (r: Result<HeadState>)
    requires AllValid(bs) && Distinct(bs) && Remainders(bs) == chunks
    modifies bs`position
    ensures AllValid(bs) && OnlyPositionsMoved(bs)
    ensures r == ScanChunks(chunks, Start).outcome
    ensures Remainders(bs) == Unread(chunks, ScanChunks(chunks, Start).used)
  {
    ghost var scan := ScanChunks(chunks, Start);
    var st := Start;
    var i := 0;
    ScanBegins(chunks, scan);
    while i < |bs|
      invariant 0 <= i <= |bs|
      invariant AllValid(bs) && OnlyPositionsMoved(bs)
      invariant Remainders(bs) == PartlyRead(chunks, scan.used, i)
      invariant !st.finished
      invariant ScanResumes(chunks, scan, i, st)
    {
      var c := ScanBuffer(bs, i, st, chunks, scan);
      if c.Err? || c.value.finished {
        return c;
      }
      st := c.value;
      i := i + 1;
    }
    PartlyReadAll(chunks, scan.used);
    return Ok(st);
  }

  /** A parsed message: what its start line gave, its headers and its body. */
  datatype Message<T> = Message(start: T, headers: Headers, body: seq<byte>)

  /**
   * What the stored buffers hold once a message was parsed from `chunks`: what the
   * header scan left when it threw, and nothing once `parseBody` ran.
   */
  function Leftover(chunks: seq<seq<byte>>): (r: seq<seq<byte>>)
    ensures |r| == |chunks|
  {
    var scan := ScanChunks(chunks, Start);
    if scan.outcome.Err? then Unread(chunks, scan.used) else Empties(|chunks|)
  }

  /**
   * The request `getHttpRequest` parses from `chunks`, as a value: the exception of
   * the header scan, else the exception of the request line, else its fields with
   * the headers and the unread bytes as the body.
   */
  function RequestOf(chunks: seq<seq<byte>>): (r: Result<Message<RequestLine>>)
    ensures ScanChunks(chunks, Start).outcome.Err? ==> r == Err(ScanChunks(chunks, Start).outcome.error)
    ensures ScanChunks(chunks, Start).outcome.Ok? && ScanChunks(chunks, Start).outcome.value.firstLine.None? ==>
      r == Ok(Message(NoLine, ScanChunks(chunks, Start).outcome.value.headers, Body(chunks, ScanChunks(chunks, Start))))
    ensures r.Ok? ==>
      && ScanChunks(chunks, Start).outcome.Ok?
      && r.value.headers == ScanChunks(chunks, Start).outcome.value.headers
      && r.value.body == Body(chunks, ScanChunks(chunks, Start))
  {
    var scan := ScanChunks(chunks, Start);
    match scan.outcome
    case Err(e) => Err(e)
    case Ok(head) =>
      var u := ApplyRequestLine(NoLine, head.firstLine);
      if u.thrown.Some? then Err(u.thrown.value) else Ok(Message(u.fields, head.headers, Body(chunks, scan)))
  }

  /**
   * The response `getHttpResponse` parses from `chunks`, as a value: the exception of
   * the header scan, else that of the status line, else the status with the headers
   * and the unread bytes as the body.
   */
  function ResponseOf(chunks: seq<seq<byte>>): (r: Result<Message<HttpStatus>>)
    ensures ScanChunks(chunks, Start).outcome.Err? ==> r == Err(ScanChunks(chunks, Start).outcome.error)
    ensures ScanChunks(chunks, Start).outcome.Ok? && ScanChunks(chunks, Start).outcome.value.firstLine.None? ==>
      r == Err(NullPointer)
    ensures r.Ok? ==>
      && ScanChunks(chunks, Start).outcome.Ok?
      && ParseHttpStatus(ScanChunks(chunks, Start).outcome.value.firstLine) == Ok(r.value.start)
      && r.value.headers == ScanChunks(chunks, Start).outcome.value.headers
      && r.value.body == Body(chunks, ScanChunks(chunks, Start))
  {
    var scan := ScanChunks(chunks, Start);
    match scan.outcome
    case Err(e) => Err(e)
    case Ok(head) =>
      match ParseHttpStatus(head.firstLine)
      case Err(e) => Err(e)
      case Ok(status) => Ok(Message(status, head.headers, Body(chunks, scan)))
  }


  /**
   * A request with headers, written by `getHeaderBuffer` and received as one buffer,
   * is read back with the same request-line fields, the same headers and no body.
   */
  lemma RequestRoundTrip(req: HttpRequest)
    requires req.headers.Some? && Writable(req.headers.value)
    requires Parsable(req.Line()) && IsHeadLine(req.GetRequestLine())
    ensures IsLatin1(req.HeaderBuffer())
    ensures RequestOf([Encode(req.HeaderBuffer())]) == Ok(Message(req.Line(), req.headers.value, []))
  {
    HeaderBufferReadsBack(req);
    var f := req.Line();
    FormatTarget(f);
    RequestLineRoundTrip(NoLine, f.httpMethod.value, f.path.value, f.query, f.version.value);
  }

  /**
   * A response written by `getHeaderBuffer` and received as one buffer is read back
   * with a status of the same code (the first constant declared with it), the same
   * headers and no body.
   */
  lemma ResponseRoundTrip(f: ResponseFields)
    requires f.scheme.Some? && f.status.Some? && f.headers.Some? && f.version.Some?
    requires IsWord(f.scheme.value) && IsWord(f.version.value) && IsConstantName(Name(f.status.value))
    requires Writable(f.headers.value)
    ensures HeadText(f).Some? && IsLatin1(HeadText(f).value)
    ensures ForCode(Code(f.status.value)).Ok?
    ensures ResponseOf([Encode(HeadText(f).value)]) ==
      Ok(Message(ForCode(Code(f.status.value)).value, f.headers.value, []))
  {
    HeadTextReadsBack(f);
    StatusLineRoundTrip(f.scheme.value, f.version.value, f.status.value);
  }

  /** "OK" shares its code 200 with SUCCESS, declared before it, so it is read back as SUCCESS. */
  lemma OkReadBackAsSuccess(h: Headers)
    requires Writable(h)
    ensures var f := ResponseFields(Some("http"), Some("1.1"), Some(OK), Some(h), null);
      && HeadText(f).Some? && IsLatin1(HeadText(f).value)
      && ResponseOf([Encode(HeadText(f).value)]) == Ok(Message(SUCCESS, h, []))
  {
    var f := ResponseFields(Some("http"), Some("1.1"), Some(OK), Some(h), null);
    OkFacts();
    ResponseRoundTrip(f);
  }

  lemma OkFacts()
    ensures IsConstantName(Name(OK)) && ForCode(Code(OK)) == Ok(SUCCESS)
  {
    assert Name(OK) == "OK";
    assert Code(OK) == 200;
  }

  /** The request holds the parsed message, with no host or port of its own. */
  ghost predicate HoldsRequest(req: HttpRequest, m: Message<RequestLine>)
    reads req, if req.body == null then {} else {req.body as object, req.body.data}
  {
    && req.Line() == m.start && req.headers == Some(m.headers)
    && req.host.None? && req.port == -1
    && req.body != null && req.body.Valid() && req.body.Remaining() == m.body
  }

  /** The response holds the parsed message, with the default scheme and version. */
  ghost predicate HoldsResponse(resp: HttpResponse, m: Message<HttpStatus>)
    reads resp, resp.BodyFrame()
  {
    && resp.scheme == Some("http") && resp.version == Some("1.1")
    && resp.status == Some(m.start) && resp.headers == Some(m.headers)
    && resp.body != null && resp.body.Valid() && resp.body.Remaining() == m.body
  }

  /** `new HttpRequest(requestLine, headers).withBody(body)`. */
  method NewRequest(requestLine: Option<string>, headers: Headers, body: ByteBuf) returns (r: Result<HttpRequest>)
    ensures var u := ApplyRequestLine(NoLine, requestLine);
      && (u.thrown.Some? ==> r == Err(u.thrown.value))
      && (u.thrown.None? ==>
            r.Ok? && fresh(r.value) && r.value.Fields() == RequestFields(None, -1, u.fields, Some(headers), body))
  {
    var created := HttpRequest.Create(requestLine, Some(headers), null);
    if created.Err? {
      return Err(created.error);
    }
    var request := created.value.WithBody(body);
    return Ok(request);
  }

  class AsyncHttpReader {
    var requestBuffers: seq<ByteBuf>
    var fullyRead: bool
    var httpRequest: HttpRequest?
    var httpResponse: HttpResponse?

    /** The stored buffers are valid and distinct objects. */
    ghost predicate Valid()
      reads this`requestBuffers, requestBuffers
    {
      AllValid(requestBuffers) && Distinct(requestBuffers)
    }

    /** What is left to read in each stored buffer. */
    ghost function Chunks(): (cs: seq<seq<byte>>)
      reads this`requestBuffers, requestBuffers, set i | 0 <= i < |requestBuffers| :: requestBuffers[i].data
      requires Valid()
      ensures |cs| == |requestBuffers|
    {
      Remainders(requestBuffers)
    }

    /** A new reader: nothing received, not complete, nothing parsed. */
    constructor ()
      ensures Valid() && requestBuffers == [] && !fullyRead
      ensures httpRequest == null && httpResponse == null
    {
      requestBuffers, fullyRead := [], false;
      httpRequest, httpResponse := null, null;
    }

    /**
     * `receiveBuffer`: throws once the message is complete. Otherwise stores a copy
     * of the remaining bytes of `buffer`, when there are any, draining `buffer`, and
     * judges the message complete exactly when the buffer's limit is below its capacity.
     */
    method ReceiveBuffer(buffer: ByteBuf) returns (r: Result<bool>)
      requires Valid() && buffer.Valid() && buffer !in requestBuffers
      modifies this`requestBuffers, this`fullyRead, buffer`position
      ensures Valid() && buffer.Valid()
      ensures old(fullyRead) ==>
        && r == Err(IOException(AlreadyFullyRead))
        && buffer.position == old(buffer.position)
        && requestBuffers == old(requestBuffers) && fullyRead
      ensures !old(fullyRead) ==>
        && r == Ok(buffer.limit != buffer.Capacity()) && fullyRead == r.value
        && buffer.position == buffer.limit
      ensures !old(fullyRead) && |old(buffer.Remaining())| > 0 ==>
        && |requestBuffers| == |old(requestBuffers)| + 1
        && requestBuffers[..|old(requestBuffers)|] == old(requestBuffers)
        && fresh(requestBuffers[|old(requestBuffers)|])
        && Chunks() == old(Chunks()) + [old(buffer.Remaining())]
      ensures !old(fullyRead) && |old(buffer.Remaining())| == 0 ==>
        requestBuffers == old(requestBuffers)
    {
      if fullyRead {
        return Err(IOException(AlreadyFullyRead));
      }
      r := Accept(buffer);
    }

    /** The branch of `receiveBuffer` taken while the message is not complete. */
    method Accept(buffer: ByteBuf) returns (r: Result<bool>)
      requires Valid() && buffer.Valid() && buffer !in requestBuffers && !fullyRead
      modifies this`requestBuffers, this`fullyRead, buffer`position
      ensures Valid() && buffer.Valid()
      ensures r == Ok(buffer.limit != buffer.Capacity()) && fullyRead == r.value
      ensures buffer.position == buffer.limit
      ensures |old(buffer.Remaining())| > 0 ==>
        && |requestBuffers| == |old(requestBuffers)| + 1
        && requestBuffers[..|old(requestBuffers)|] == old(requestBuffers)
        && fresh(requestBuffers[|old(requestBuffers)|])
        && Chunks() == old(Chunks()) + [old(buffer.Remaining())]
      ensures |old(buffer.Remaining())| == 0 ==> requestBuffers == old(requestBuffers)
    {
      if buffer.position < buffer.limit {
        StoreCopy(buffer);
      }
      fullyRead := buffer.limit != buffer.Capacity();
      return Ok(fullyRead);
    }

    /** Stores a copy of the remaining bytes of `buffer`, draining it. */
    method StoreCopy(buffer: ByteBuf)
      requires Valid() && buffer.Valid() && buffer !in requestBuffers
      modifies this`requestBuffers, buffer`position
      ensures Valid() && buffer.Valid() && buffer.position == buffer.limit
      ensures |requestBuffers| == |old(requestBuffers)| + 1
      ensures requestBuffers[..|old(requestBuffers)|] == old(requestBuffers)
      ensures fresh(requestBuffers[|old(requestBuffers)|])
      ensures Chunks() == old(Chunks()) + [old(buffer.Remaining())]
    {
      ghost var incoming := buffer.Remaining();
      var copy := CopyRemainingBuffer(buffer);
      RemaindersUnchanged(requestBuffers);
      assert copy.Remaining() == incoming && copy !in requestBuffers;
      Store(copy);
    }

    /** Appends `copy` to the stored buffers. */
    method Store(copy: ByteBuf)
      requires Valid() && copy.Valid() && copy !in requestBuffers
      modifies this`requestBuffers
      ensures Valid() && requestBuffers == old(requestBuffers) + [copy]
      ensures Chunks() == old(Chunks()) + [copy.Remaining()]
    {
      RemaindersAppend(requestBuffers, copy);
      requestBuffers := requestBuffers + [copy];
    }

    /** `isFullyRead`: whether the last buffer received was not filled to capacity. */
    function IsFullyRead(): (r: bool)
      reads this`fullyRead
      ensures r == fullyRead
    {
      fullyRead
    }

    /**
     * `parseHeaders`: scans the stored buffers as `ScanChunks` describes; each buffer
     * is left holding what the scan did not read.
     */
    method ParseHeaders() returns (r: Result<HeadState>)
      requires Valid()
      modifies requestBuffers`position
      ensures Valid() && OnlyPositionsMoved(requestBuffers)
      ensures r == ScanChunks(old(Chunks()), Start).outcome
      ensures Chunks() == Unread(old(Chunks()), ScanChunks(old(Chunks()), Start).used)
    {
      ghost var chunks := Chunks();
      r := ScanBuffers(requestBuffers, chunks);
      assert Chunks() == Remainders(requestBuffers);
    }

    /** `parseBody`: every unread byte of the stored buffers, in order, in a new buffer. */
    method ParseBody() returns (body: ByteBuf)
      requires Valid()
      modifies requestBuffers`position
      ensures Valid() && OnlyPositionsMoved(requestBuffers)
      ensures fresh(body) && fresh(body.data) && body.Valid()
      ensures body.Remaining() == Concat(old(Chunks()))
      ensures forall j :: 0 <= j < |requestBuffers| ==> requestBuffers[j].Remaining() == []
    {
      body := CombineBuffers(requestBuffers);
      DrainedAreEmpty(requestBuffers);
      assert body.Remaining() == body.data[..];
    }

    /**
     * The steps both getters start with: `parseHeaders`, then, unless it throws,
     * `parseBody`.
     */
    method ParseMessage(ghost chunks: seq<seq<byte>>) returns (head: Result<HeadState>, body: ByteBuf?)
      requires Valid() && Chunks() == chunks
      modifies requestBuffers`position
      ensures Valid() && OnlyPositionsMoved(requestBuffers)
      ensures Chunks() == Leftover(chunks)
      ensures var scan := ScanChunks(chunks, Start);
        && head == scan.outcome
        && (head.Err? ==> body == null)
        && (head.Ok? ==> body != null && fresh(body) && body.Valid() && body.Remaining() == Body(chunks, scan))
    {
      head := ParseHeaders();
      if head.Err? {
        return head, null;
      }
      body := ParseBody();
      RemaindersEmpty(requestBuffers);
    }

    /**
     * `getHttpRequest`: the cached request if there is one; otherwise throws unless
     * the message is complete, and else parses the head, takes the rest as the body
     * and caches the request built from them.
     */
    method GetHttpRequest() returns (r: Result<HttpRequest>)
      requires Valid()
      modifies this`httpRequest, requestBuffers`position
      ensures Valid() && requestBuffers == old(requestBuffers) && OnlyPositionsMoved(requestBuffers)
      ensures fullyRead == old(fullyRead) && httpResponse == old(httpResponse)
      ensures old(httpRequest) != null ==>
        r == Ok(old(httpRequest)) && httpRequest == old(httpRequest) && Chunks() == old(Chunks())
      ensures old(httpRequest) == null && !fullyRead ==>
        r == Err(IOException(NotFullyRead)) && httpRequest == null && Chunks() == old(Chunks())
      ensures old(httpRequest) == null && fullyRead ==>
        && Chunks() == Leftover(old(Chunks()))
        && match RequestOf(old(Chunks()))
           case Err(e) => r == Err(e) && httpRequest == null
           case Ok(m) =>
             && r == Ok(httpRequest) && httpRequest != null && fresh(httpRequest) && fresh(httpRequest.body)
             && HoldsRequest(httpRequest, m)
    {
      if httpRequest != null {
        return Ok(httpRequest);
      }
      if !fullyRead {
        return Err(IOException(NotFullyRead));
      }
      r := ParseRequest();
    }

    /** The branch of `getHttpRequest` that parses a complete message. */
    method ParseRequest() returns (r: Result<HttpRequest>)
      requires Valid() && httpRequest == null
      modifies this`httpRequest, requestBuffers`position
      ensures Valid() && requestBuffers == old(requestBuffers) && OnlyPositionsMoved(requestBuffers)
      ensures fullyRead == old(fullyRead) && httpResponse == old(httpResponse)
      ensures Chunks() == Leftover(old(Chunks()))
      ensures match RequestOf(old(Chunks()))
        case Err(e) => r == Err(e) && httpRequest == null
        case Ok(m) =>
          && r == Ok(httpRequest) && httpRequest != null && fresh(httpRequest) && fresh(httpRequest.body)
          && HoldsRequest(httpRequest, m)
    {
      ghost var chunks := Chunks();
      var head, body := ParseMessage(chunks);
      if head.Err? {
        return Err(head.error);
      }
      r := StoreRequest(head.value, body, Body(chunks, ScanChunks(chunks, Start)));
    }

    /** The last step of `getHttpRequest`: builds the request and caches it. */
    method StoreRequest(head: HeadState, body: ByteBuf, ghost content: seq<byte>) returns (r: Result<HttpRequest>)
      requires Valid() && httpRequest == null && body.Valid() && body.Remaining() == content
      modifies this`httpRequest
      ensures Valid() && Chunks() == old(Chunks())
      ensures requestBuffers == old(requestBuffers) && fullyRead == old(fullyRead)
      ensures httpResponse == old(httpResponse)
      ensures var u := ApplyRequestLine(NoLine, head.firstLine);
        && (u.thrown.Some? ==> r == Err(u.thrown.value) && httpRequest == null)
        && (u.thrown.None? ==>
              && r == Ok(httpRequest) && httpRequest != null && fresh(httpRequest) && httpRequest.body == body
              && HoldsRequest(httpRequest, Message(u.fields, head.headers, content)))
    {
      var request := NewRequest(head.firstLine, head.headers, body);
      if request.Err? {
        return Err(request.error);
      }
      httpRequest := request.value;
      r := Ok(httpRequest);
    }

    /**
     * `getHttpResponse`: the cached response if there is one; otherwise throws unless
     * the message is complete, and else parses the head, takes the rest as the body,
     * reads the status from the start line and caches the response built from them.
     */
    method GetHttpResponse() returns (r: Result<HttpResponse>)
      requires Valid()
      modifies this`httpResponse, requestBuffers`position
      ensures Valid() && requestBuffers == old(requestBuffers) && OnlyPositionsMoved(requestBuffers)
      ensures fullyRead == old(fullyRead) && httpRequest == old(httpRequest)
      ensures old(httpResponse) != null ==>
        r == Ok(old(httpResponse)) && httpResponse == old(httpResponse) && Chunks() == old(Chunks())
      ensures old(httpResponse) == null && !fullyRead ==>
        r == Err(IOException(NotFullyRead)) && httpResponse == null && Chunks() == old(Chunks())
      ensures old(httpResponse) == null && fullyRead ==>
        && Chunks() == Leftover(old(Chunks()))
        && match ResponseOf(old(Chunks()))
           case Err(e) => r == Err(e) && httpResponse == null
           case Ok(m) =>
             && r == Ok(httpResponse) && httpResponse != null && fresh(httpResponse) && fresh(httpResponse.body)
             && HoldsResponse(httpResponse, m)
    {
      if httpResponse != null {
        return Ok(httpResponse);
      }
      if !fullyRead {
        return Err(IOException(NotFullyRead));
      }
      r := ParseResponse();
    }

    /** The branch of `getHttpResponse` that parses a complete message. */
    method ParseResponse() returns (r: Result<HttpResponse>)
      requires Valid() && httpResponse == null
      modifies this`httpResponse, requestBuffers`position
      ensures Valid() && requestBuffers == old(requestBuffers) && OnlyPositionsMoved(requestBuffers)
      ensures fullyRead == old(fullyRead) && httpRequest == old(httpRequest)
      ensures Chunks() == Leftover(old(Chunks()))
      ensures match ResponseOf(old(Chunks()))
        case Err(e) => r == Err(e) && httpResponse == null
        case Ok(m) =>
          && r == Ok(httpResponse) && httpResponse != null && fresh(httpResponse) && fresh(httpResponse.body)
          && HoldsResponse(httpResponse, m)
    {
      ghost var chunks := Chunks();
      var head, body := ParseMessage(chunks);
      if head.Err? {
        return Err(head.error);
      }
      r := StoreResponse(head.value, body, Body(chunks, ScanChunks(chunks, Start)));
    }

    /** The last steps of `getHttpResponse`: reads the status, builds the response and caches it. */
    method StoreResponse(head: HeadState, body: ByteBuf, ghost content: seq<byte>) returns (r: Result<HttpResponse>)
      requires Valid() && httpResponse == null && body.Valid() && body.Remaining() == content
      modifies this`httpResponse
      ensures Valid() && Chunks() == old(Chunks())
      ensures requestBuffers == old(requestBuffers) && fullyRead == old(fullyRead)
      ensures httpRequest == old(httpRequest)
      ensures var status := ParseHttpStatus(head.firstLine);
        && (status.Err? ==> r == Err(status.error) && httpResponse == null)
        && (status.Ok? ==>
              && r == Ok(httpResponse) && httpResponse != null && fresh(httpResponse) && httpResponse.body == body
              && HoldsResponse(httpResponse, Message(status.value, head.headers, content)))
    {
      var status := ParseHttpStatus(head.firstLine);
      if status.Err? {
        return Err(status.error);
      }
      httpResponse := new HttpResponse.Create(Some(status.value), Some(head.headers), body);
      r := Ok(httpResponse);
    }

    /** `clear`: forgets the stored buffers and both parsed messages; not complete. */
    method Clear()
      modifies this
      ensures Valid() && requestBuffers == [] && !fullyRead
      ensures httpRequest == null && httpResponse == null
    {
      requestBuffers := [];
      httpRequest := null;
      httpResponse := null;
      fullyRead := false;
    }
  }
}
