/**
 * `HttpRequest`: the request line fields, the headers and the body of a request,
 * with the request-line parser and formatter, the head serialiser, and the host
 * and port that are derived from the `Host` header and cached in fields.
 */
module Request {
  import opened Wrappers
  import opened Text
  import opened HeaderMap
  import opened Buffers
  import opened HeadScan
  import opened HeadRoundTrip

  /** The fields `setRequestLine` writes; None stands for null. */
  datatype RequestLine = RequestLine(
    httpMethod: Option<string>,
    path: Option<string>,
    query: Option<string>,
    version: Option<string>,
    scheme: Option<string>)

  /** Every field null, as in a request built without a request line. */
  const NoLine := RequestLine(None, None, None, None, None)

  /** The fields after `setRequestLine`, and the exception it threw, if any. */
  datatype LineUpdate = LineUpdate(fields: RequestLine, thrown: Option<JavaException>)

  /**
   * `setRequestLine(line)` applied to the fields `f`. The line is split on single
   * spaces and its second token on '?'. The fields are written in source order,
   * so an exception thrown part-way leaves the fields written before it in place:
   * fewer than two tokens change nothing, a second token made only of '?' sets the
   * method alone, and fewer than three tokens set method, path and query but not
   * version and scheme. A missing query leaves the old one.
   */
  function ApplyRequestLine(f: RequestLine, line: Option<string>): (r: LineUpdate)
    ensures line.None? ==> r == LineUpdate(f, None)
    ensures line.Some? && |Split(line.value, ' ')| < 3 ==> r.thrown == Some(IndexOutOfBounds)
    ensures line.Some? && |Split(line.value, ' ')| < 2 ==> r.fields == f
    ensures r.thrown.None? && line.Some? ==> r.fields.scheme == Some("http")
    ensures line.Some? && |Split(line.value, ' ')| >= 2 && '?' !in Split(line.value, ' ')[1] ==>
      r.fields.query == f.query
  {
    if line.None? then LineUpdate(f, None)
    else
      var parts := Split(line.value, ' ');
      if |parts| < 2 then LineUpdate(f, Some(IndexOutOfBounds))
      else
        var pathQuery := Split(parts[1], '?');
        var f1 := f.(httpMethod := Some(parts[0]));
        if |pathQuery| == 0 then LineUpdate(f1, Some(IndexOutOfBounds))
        else
          var f2 := f1.(path := Some(pathQuery[0]),
                        query := if |pathQuery| > 1 then Some(pathQuery[1]) else f.query);
          if |parts| < 3 then LineUpdate(f2, Some(IndexOutOfBounds))
          else LineUpdate(f2.(version := Some(parts[2]), scheme := Some("http")), None)
  }

  /**
   * `getRequestLine`: method, path and version separated by single spaces, with the
   * query after '?' when there is one; a null method reads "GET", a null or blank
   * path "/" and a null version "HTTP/1.1".
   */
  function FormatRequestLine(f: RequestLine): (r: string)
    ensures f == NoLine ==> r == "GET / HTTP/1.1"
    ensures f.httpMethod.None? ==> |r| >= 4 && r[..4] == "GET "
    ensures f.version.None? ==> |r| >= 8 && r[|r| - 8..] == "HTTP/1.1"
  {
    (if f.httpMethod.Some? then f.httpMethod.value else "GET") + " " +
    (if f.path.Some? && !IsBlank(f.path.value) then f.path.value else "/") +
    (if f.query.Some? then "?" + f.query.value else "") + " " +
    (if f.version.Some? then f.version.value else "HTTP/1.1")
  }

  /** The target of a request line: the path, then '?' and the query when there is one. */
  function Target(path: string, query: Option<string>): string {
    if query.Some? then path + "?" + query.value else path
  }

  /**
   * Parsing a well-formed request line and formatting the fields again gives the
   * line back, and the parsed fields are its tokens: method, path, query (or the
   * previous query when there is none), version, and the scheme "http".
   */
  lemma RequestLineRoundTrip(f: RequestLine, m: string, p: string, q: Option<string>, v: string)
    requires IsToken(m) && IsToken(p) && IsToken(v) && '?' !in p && !IsBlank(p)
    requires q.Some? ==> IsToken(q.value) && '?' !in q.value
    ensures var line := m + " " + Target(p, q) + " " + v;
      var u := ApplyRequestLine(f, Some(line));
      && u.thrown.None?
      && u.fields == RequestLine(Some(m), Some(p), if q.Some? then q else f.query, Some(v), Some("http"))
      && (q.Some? || f.query.None? ==> FormatRequestLine(u.fields) == line)
  {
    var line := m + " " + Target(p, q) + " " + v;
    SplitTokens(m, Target(p, q), v);
    SplitTarget(p, q);
    var query := if q.Some? then q else f.query;
    var fields := RequestLine(Some(m), Some(p), query, Some(v), Some("http"));
    assert ApplyRequestLine(f, Some(line)) == LineUpdate(fields, None);
    FormatTarget(fields);
  }

  /** A line formatted from a method, a non-blank path and a version is the three tokens. */
  lemma FormatTarget(f: RequestLine)
    requires f.httpMethod.Some? && f.path.Some? && !IsBlank(f.path.value) && f.version.Some?
    ensures FormatRequestLine(f) ==
      f.httpMethod.value + " " + Target(f.path.value, f.query) + " " + f.version.value
  {
  }

  /**
   * Fields a request line can carry: method, path and version set, tokens free of
   * the separators, a non-blank path, and the scheme "http" the parser sets.
   */
  predicate Parsable(f: RequestLine) {
    && f.httpMethod.Some? && f.path.Some? && f.version.Some? && f.scheme == Some("http")
    && IsToken(f.httpMethod.value) && IsToken(f.path.value) && IsToken(f.version.value)
    && '?' !in f.path.value && !IsBlank(f.path.value)
    && (f.query.Some? ==> IsToken(f.query.value) && '?' !in f.query.value)
  }

  /** Formatting parsable fields and parsing the line back into them changes nothing. */
  lemma FormatThenParse(f: RequestLine)
    ensures Parsable(f) ==> ApplyRequestLine(f, Some(FormatRequestLine(f))) == LineUpdate(f, None)
  {
    if Parsable(f) {
      FormatTarget(f);
      RequestLineRoundTrip(f, f.httpMethod.value, f.path.value, f.query, f.version.value);
    }
  }

  /** A request line of visible words is read back whole by `parseHeaders`. */
  lemma RequestLineIsHeadLine(f: RequestLine)
    requires f.httpMethod.Some? && f.path.Some? && f.version.Some?
    requires IsWord(f.httpMethod.value) && IsWord(f.path.value) && IsWord(f.version.value)
    requires f.query.Some? ==> IsWord(f.query.value)
    ensures IsHeadLine(FormatRequestLine(f))
  {
    var p := f.path.value;
    assert !IsBlank(p) by {
      assert !IsWhitespace(p[0]);
    }
    FormatTarget(f);
    var t := Target(p, f.query);
    assert IsPrintable(t);
    var line := f.httpMethod.value + " " + t + " " + f.version.value;
    assert line[0] == f.httpMethod.value[0];
    assert line[|line| - 1] == f.version.value[|f.version.value| - 1];
    PrintableHeadLine(line);
  }

  /** A target splits at '?' into its path and its query. */
  lemma SplitTarget(p: string, q: Option<string>)
    requires '?' !in p
    requires q.Some? ==> |q.value| > 0 && '?' !in q.value
    ensures Split(Target(p, q), '?') == if q.Some? then [p, q.value] else [p]
  {
    if q.Some? {
      JoinCons(p, [q.value], '?');
      assert JoinWith([p, q.value], '?') == Target(p, q);
      SplitOfJoin([p, q.value], '?');
    }
  }

  /** A second token made only of '?' sets the method and then fails. */
  lemma QuestionMarkTarget(f: RequestLine)
    ensures ApplyRequestLine(f, Some("GET ? HTTP/1.1")) ==
      LineUpdate(f.(httpMethod := Some("GET")), Some(IndexOutOfBounds))
  {
    var line := "GET ? HTTP/1.1";
    assert line == "GET" + " " + "?" + " " + "HTTP/1.1";
    SplitTokens("GET", "?", "HTTP/1.1");
    var parts := Split(line, ' ');
    assert parts == ["GET", "?", "HTTP/1.1"];
    SplitSeparatorOnly('?');
    assert Split(parts[1], '?') == [];
  }

  /** Java's `split` of the separator alone gives no pieces at all. */
  lemma SplitSeparatorOnly(c: char)
    ensures Split([c], c) == []
  {
    assert IndexOf([c], c) == Some(0);
    assert [c][1..] == "";
    assert Pieces("", c) == [""];
    assert Pieces([c], c) == ["", ""];
    assert DropTrailingEmpty(["", ""][..1]) == [];
  }

  /** `isSecure` of a scheme: true for "https" and "wss"; a null scheme throws. */
  function SchemeIsSecure(scheme: Option<string>): (r: Result<bool>)
    ensures r.Err? <==> scheme.None?
    ensures r.Err? ==> r.error == NullPointer
    ensures r.Ok? ==> (r.value <==> scheme.value in {"https", "wss"})
  {
    if scheme.None? then Err(NullPointer)
    else Ok(scheme.value == "https" || scheme.value == "wss")
  }

  /** A request whose line was parsed without an exception is not secure: the scheme is "http". */
  lemma ParsedRequestIsNotSecure(f: RequestLine, line: string)
    requires ApplyRequestLine(f, Some(line)).thrown.None?
    ensures SchemeIsSecure(ApplyRequestLine(f, Some(line)).fields.scheme) == Ok(false)
  {
  }

  /**
   * `getHost` from the cached value `host` and the headers: the cached value if set,
   * otherwise the part of the first `Host` value before its first ':'. A `Host`
   * value made only of ':' throws.
   */
  function HostLookup(host: Option<string>, headers: Option<Headers>): (r: Result<Option<string>>)
    ensures host.Some? ==> r == Ok(host)
    ensures r.Ok? && r.value.Some? && host.None? ==> ':' !in r.value.value
  {
    if host.Some? then Ok(host)
    else if headers.None? then Ok(None)
    else match GetFirst(headers.value, HOST)
      case None => Ok(None)
      case Some(hosts) =>
        var hostPort := Split(hosts, ':');
        if |hostPort| == 0 then Err(IndexOutOfBounds) else Ok(Some(hostPort[0]))
  }

  /**
   * `getPort` from the cached value `port` (-1 when unset) and the headers: the
   * cached value if set, otherwise the stripped part of the first `Host` value after
   * its first ':' parsed as an int, or -1 when there is no such part.
   */
  function PortLookup(port: int, headers: Option<Headers>): (r: Result<int>)
    ensures port != -1 ==> r == Ok(port)
    ensures r.Err? ==> r.error == NumberFormat
  {
    if port != -1 then Ok(port)
    else if headers.None? then Ok(-1)
    else match GetFirst(headers.value, HOST)
      case None => Ok(-1)
      case Some(hosts) =>
        var hostPort := Split(hosts, ':');
        if |hostPort| > 1 then ParseInt(Strip(hostPort[1])) else Ok(-1)
  }

  /** Once looked up, the host is cached: looking it up again returns the same value. */
  lemma HostLookupCached(host: Option<string>, headers: Option<Headers>)
    requires HostLookup(host, headers).Ok? && HostLookup(host, headers).value.Some?
    ensures HostLookup(HostLookup(host, headers).value, headers) == HostLookup(host, headers)
  {
  }

  /** Once looked up, the port is cached unless it was -1. */
  lemma PortLookupCached(port: int, headers: Option<Headers>)
    requires PortLookup(port, headers).Ok?
    ensures PortLookup(PortLookup(port, headers).value, headers) == PortLookup(port, headers)
  {
  }

  /**
   * A `Host` header "name:port", with a name free of ':' and a port in range, gives
   * that name and that port.
   */
  lemma HostAndPortFromHeader(h: Headers, name: string, port: nat)
    requires GetFirst(h, HOST) == Some(name + ":" + NatToString(port))
    requires |name| > 0 && ':' !in name && port <= MaxInt
    ensures HostLookup(None, Some(h)) == Ok(Some(name))
    ensures PortLookup(-1, Some(h)) == Ok(port)
  {
    var digits := NatToString(port);
    assert ':' !in digits by {
      forall i | 0 <= i < |digits| ensures digits[i] != ':' {
        assert IsDigit(digits[i]);
      }
    }
    JoinCons(name, [digits], ':');
    assert JoinWith([name, digits], ':') == name + ":" + digits;
    SplitOfJoin([name, digits], ':');
    assert Strip(digits) == digits by {
      assert IsDigit(digits[0]) && IsDigit(digits[|digits| - 1]);
      StripOfTrimmed(digits);
    }
    ParseIntOfNatToString(port);
  }

  /** A `Host` header without a ':' gives the whole value as the host and the port -1. */
  lemma HostWithoutPort(h: Headers, name: string)
    requires GetFirst(h, HOST) == Some(name) && ':' !in name
    ensures HostLookup(None, Some(h)) == Ok(Some(name))
    ensures PortLookup(-1, Some(h)) == Ok(-1)
  {
  }

  /** A `Host` header "name:" with nothing after the ':' gives that name and the port -1. */
  lemma HostWithEmptyPort(h: Headers, name: string)
    requires GetFirst(h, HOST) == Some(name + ":") && |name| > 0 && ':' !in name
    ensures HostLookup(None, Some(h)) == Ok(Some(name))
    ensures PortLookup(-1, Some(h)) == Ok(-1)
  {
    SplitEmptyLast(name);
  }

  /**
   * A `Host` header made only of ':' throws when the host is looked up, since
   * `split` gives no pieces; the port is then -1.
   */
  lemma HostOnlyColon(h: Headers)
    requires GetFirst(h, HOST) == Some(":")
    ensures HostLookup(None, Some(h)) == Err(IndexOutOfBounds)
    ensures PortLookup(-1, Some(h)) == Ok(-1)
  {
    SplitSeparatorOnly(':');
  }

  lemma SplitEmptyLast(name: string)
    requires |name| > 0 && ':' !in name
    ensures Split(name + ":", ':') == [name]
  {
    var s := name + ":";
    IndexOfAfter(name, ':', "");
    assert s[|name| + 1..] == "";
    assert Pieces("", ':') == [""];
    assert s[..|name|] == name;
    assert Pieces(s, ':') == [name, ""];
    assert DropTrailingEmpty([name, ""][..1]) == [name];
  }

  /** The fields of a request. */
  datatype RequestFields = RequestFields(
    host: Option<string>,
    port: int,
    line: RequestLine,
    headers: Option<Headers>,
    body: ByteBuf?)

  class HttpRequest {
    var host: Option<string>
    var port: int
    var httpMethod: Option<string>  // `method`
    var scheme: Option<string>
    var version: Option<string>
    var path: Option<string>
    var query: Option<string>
    var headers: Option<Headers>
    var body: ByteBuf?

    /** The fields the request line is parsed into and formatted from. */
    function Line(): RequestLine
      reads this
    {
      RequestLine(httpMethod, path, query, version, scheme)
    }

    /** Every field. */
    function Fields(): RequestFields
      reads this
    {
      RequestFields(host, port, Line(), headers, body)
    }

    /** `HttpRequest()`: empty headers, port -1, every other field null. */
    constructor ()
      ensures Fields() == RequestFields(None, -1, NoLine, Some([]), null)
    {
      host, port := None, -1;
      httpMethod, scheme, version, path, query := None, None, None, None, None;
      headers, body := Some([]), null;
    }

    /**
     * `HttpRequest(requestLine, headers, body)`: parses the request line into a new
     * request, then stores the headers and the body; the exception of the parser
     * propagates and no request is made.
     */
    static method Create(requestLine: Option<string>, headers: Option<Headers>, body: ByteBuf?)
      returns (r: Result<HttpRequest>)
      ensures var u := ApplyRequestLine(NoLine, requestLine);
        u.thrown.Some? ==> r == Err(u.thrown.value)
      ensures var u := ApplyRequestLine(NoLine, requestLine);
        u.thrown.None? ==>
          r.Ok? && fresh(r.value) && r.value.Fields() == RequestFields(None, -1, u.fields, headers, body)
    {
      var request := new HttpRequest.Empty();
      var thrown := request.SetRequestLine(requestLine);
      if thrown.Some? {
        return Err(thrown.value);
      }
      request.headers := headers;
      request.body := body;
      return Ok(request);
    }

    /** The state of a new object before its constructor body runs: port -1, all else null. */
    constructor Empty()
      ensures Fields() == RequestFields(None, -1, NoLine, None, null)
    {
      host, port := None, -1;
      httpMethod, scheme, version, path, query := None, None, None, None, None;
      headers, body := None, null;
    }

    /** `setRequestLine`: see `ApplyRequestLine`; no other field changes. */
    method SetRequestLine(line: Option<string>) returns (thrown: Option<JavaException>)
      modifies this
      ensures var u := ApplyRequestLine(old(Line()), line);
        Line() == u.fields && thrown == u.thrown
      ensures host == old(host) && port == old(port) && headers == old(headers) && body == old(body)
    {
      if line.Some? {
        var parts := Split(line.value, ' ');
        if |parts| < 2 {
          return Some(IndexOutOfBounds);
        }
        var pathQuery := Split(parts[1], '?');
        httpMethod := Some(parts[0]);
        if |pathQuery| == 0 {
          return Some(IndexOutOfBounds);
        }
        path := Some(pathQuery[0]);
        if |pathQuery| > 1 {
          query := Some(pathQuery[1]);
        }
        if |parts| < 3 {
          return Some(IndexOutOfBounds);
        }
        version := Some(parts[2]);
        scheme := Some("http");
      }
      return None;
    }

    /**
     * `getRequestLine`; a line formatted from fields a request line can carry is
     * parsed back into the same fields.
     */
    function GetRequestLine(): (r: string)
      reads this
      ensures Parsable(Line()) ==> ApplyRequestLine(Line(), Some(r)) == LineUpdate(Line(), None)
    {
      FormatThenParse(Line());
      FormatRequestLine(Line())
    }

    /**
     * `getHeaderBuffer` as text: the request line and CRLF, then one line per header
     * value, then a CRLF that ends the head; with null headers, the request line alone.
     */
    function HeaderBuffer(): (r: string)
      reads this
      ensures |r| >= |GetRequestLine()| + 2 && r[..|GetRequestLine()| + 2] == GetRequestLine() + CRLF
      ensures headers.None? ==> r == GetRequestLine() + CRLF
      ensures headers.Some? ==> r == WrittenHead(GetRequestLine(), headers.value)
      ensures headers.Some? ==> |r| >= |GetRequestLine()| + 4 && r[|r| - 2..] == CRLF
    {
      if headers.Some? then WrittenHead(GetRequestLine(), headers.value) else GetRequestLine() + CRLF
    }

    /** `isSecure`: whether the scheme is "https" or "wss"; a null scheme throws. */
    function IsSecure(): (r: Result<bool>)
      reads this
      ensures r.Err? <==> scheme.None?
      ensures r.Ok? ==> (r.value <==> scheme.value in {"https", "wss"})
    {
      SchemeIsSecure(scheme)
    }

    /** `getHost`: looks the host up and caches it in `host` when it is not cached yet. */
    method GetHost() returns (r: Result<Option<string>>)
      modifies this`host
      ensures r == HostLookup(old(host), headers)
      ensures host == (if r.Ok? then r.value else old(host))
    {
      if host.None? {
        if headers.Some? {
          var hosts := GetFirst(headers.value, HOST);
          if hosts.Some? {
            var hostPort := Split(hosts.value, ':');
            if |hostPort| == 0 {
              return Err(IndexOutOfBounds);
            }
            host := Some(hostPort[0]);
          }
        }
      }
      return Ok(host);
    }

    /** `getPort`: looks the port up and caches it in `port` when it is still -1. */
    method GetPort() returns (r: Result<int>)
      modifies this`port
      ensures r == PortLookup(old(port), headers)
      ensures port == (if r.Ok? then r.value else old(port))
    {
      if port == -1 {
        if headers.Some? {
          var hosts := GetFirst(headers.value, HOST);
          if hosts.Some? {
            var hostPort := Split(hosts.value, ':');
            if |hostPort| > 1 {
              var parsed := ParseInt(Strip(hostPort[1]));
              if parsed.Err? {
                return Err(parsed.error);
              }
              port := parsed.value;
            }
          }
        }
      }
      return Ok(port);
    }

    // The fluent setters: each writes one field and returns this request.

    method WithHeaders(h: Option<Headers>) returns (self: HttpRequest)
      modifies this
      ensures self == this && Fields() == old(Fields()).(headers := h)
    {
      headers := h;
      return this;
    }

    method WithBody(b: ByteBuf?) returns (self: HttpRequest)
      modifies this
      ensures self == this && Fields() == old(Fields()).(body := b)
    {
      body := b;
      return this;
    }

    /** `setBody`. */
    method SetBody(b: ByteBuf?)
      modifies this
      ensures Fields() == old(Fields()).(body := b)
    {
      body := b;
    }

    method WithMethod(m: Option<string>) returns (self: HttpRequest)
      modifies this
      ensures self == this && Fields() == old(Fields()).(line := old(Line()).(httpMethod := m))
    {
      httpMethod := m;
      return this;
    }

    method WithHost(h: Option<string>) returns (self: HttpRequest)
      modifies this
      ensures self == this && Fields() == old(Fields()).(host := h)
    {
      host := h;
      return this;
    }

    method WithPort(p: int) returns (self: HttpRequest)
      modifies this
      ensures self == this && Fields() == old(Fields()).(port := p)
    {
      port := p;
      return this;
    }

    method WithPath(p: Option<string>) returns (self: HttpRequest)
      modifies this
      ensures self == this && Fields() == old(Fields()).(line := old(Line()).(path := p))
    {
      path := p;
      return this;
    }

    method WithQuery(q: Option<string>) returns (self: HttpRequest)
      modifies this
      ensures self == this && Fields() == old(Fields()).(line := old(Line()).(query := q))
    {
      query := q;
      return this;
    }

    method WithScheme(s: Option<string>) returns (self: HttpRequest)
      modifies this
      ensures self == this && Fields() == old(Fields()).(line := old(Line()).(scheme := s))
    {
      scheme := s;
      return this;
    }

    method WithVersion(v: Option<string>) returns (self: HttpRequest)
      modifies this
      ensures self == this && Fields() == old(Fields()).(line := old(Line()).(version := v))
    {
      version := v;
      return this;
    }
  }

  /**
   * The head a request with headers writes is read back as its request line and its
   * headers, when the line is a head line and the headers survive `strip`.
   */
  lemma HeaderBufferReadsBack(r: HttpRequest)
    requires r.headers.Some? && Writable(r.headers.value) && IsHeadLine(r.GetRequestLine())
    ensures ReadsBack(r.HeaderBuffer(), r.GetRequestLine(), r.headers.value)
  {
    HeadReadsBack(r.GetRequestLine(), r.headers.value);
  }
}
