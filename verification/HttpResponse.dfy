/**
 * `HttpResponse`: scheme, version, status, headers and body of a response, the
 * head serialiser and `equals`.
 */
module Response {
  import opened Wrappers
  import opened Text
  import opened HeaderMap
  import opened Buffers
  import opened Status
  import opened HeadScan
  import opened HeadRoundTrip

  /** The fields of a response; None and null stand for Java's null. */
  datatype ResponseFields = ResponseFields(
    scheme: Option<string>,
    version: Option<string>,
    status: Option<HttpStatus>,
    headers: Option<Headers>,
    body: ByteBuf?)

  /**
   * The status line: the upper-cased scheme, '/', the version ("null" when it is
   * null), the numeric code and the constant's name, separated by single spaces.
   * With a scheme and a version free of spaces, its second space-separated token is
   * the code.
   */
  function StatusLine(scheme: string, version: Option<string>, status: HttpStatus): (r: string)
    ensures IsToken(scheme) && (version.Some? ==> ' ' !in version.value) ==>
      var parts := Split(r, ' ');
      |parts| >= 2 && ParseInt(parts[1]) == Ok(Code(status))
  {
    var v := if version.Some? then version.value else "null";
    CodeIsSecondToken(scheme, v, Code(status) as nat, Name(status));
    ToUpper(scheme) + "/" + v + " " + NatToString(Code(status) as nat) + " " + Name(status)
  }

  /** The code written after "SCHEME/version " is the second token of the line. */
  lemma CodeIsSecondToken(scheme: string, version: string, code: nat, name: string)
    requires code <= MaxInt
    ensures IsToken(scheme) && ' ' !in version ==>
      var parts := Split(ToUpper(scheme) + "/" + version + " " + NatToString(code) + " " + name, ' ');
      |parts| >= 2 && ParseInt(parts[1]) == Ok(code)
  {
    if IsToken(scheme) && ' ' !in version {
      var first := ToUpper(scheme) + "/" + version;
      assert ' ' !in first by {
        forall i | 0 <= i < |first| ensures first[i] != ' ' {
          if i < |scheme| {
            assert first[i] == UpperChar(scheme[i]);
          }
        }
      }
      var digits := NatToString(code);
      assert ' ' !in digits by {
        forall i | 0 <= i < |digits| ensures digits[i] != ' ' {
          assert IsDigit(digits[i]);
        }
      }
      SplitLeadingTokens(first, digits, name);
      ParseIntOfNatToString(code);
    }
  }

  /**
   * A status line of a visible scheme and version and a constant's identifier is
   * read back whole by `parseHeaders`.
   */
  lemma StatusLineIsHeadLine(scheme: string, version: string, status: HttpStatus)
    requires IsWord(scheme) && IsWord(version) && IsConstantName(Name(status))
    ensures IsHeadLine(StatusLine(scheme, Some(version), status))
  {
    PrintableStatusLine(scheme, version, Code(status) as nat, Name(status));
  }

  lemma PrintableStatusLine(scheme: string, version: string, code: nat, name: string)
    requires IsWord(scheme) && IsWord(version) && IsConstantName(name)
    ensures IsHeadLine(ToUpper(scheme) + "/" + version + " " + NatToString(code) + " " + name)
  {
    var upper := ToUpper(scheme);
    assert IsPrintable(upper) by {
      forall i | 0 <= i < |upper| ensures 32 <= upper[i] as int < 127 {
        assert upper[i] == UpperChar(scheme[i]);
      }
    }
    var digits := NatToString(code);
    assert IsPrintable(digits) by {
      forall i | 0 <= i < |digits| ensures 32 <= digits[i] as int < 127 {
        assert IsDigit(digits[i]);
      }
    }
    assert IsPrintable(name);
    var line := upper + "/" + version + " " + digits + " " + name;
    PrintableAppend(upper, "/" + version + " " + digits + " " + name);
    assert line[0] == upper[0];
    assert line[|line| - 1] == name[|name| - 1];
    PrintableHeadLine(line);
  }

  /**
   * `getHeaderBuffer` as text: null unless headers, scheme and status are all set;
   * otherwise the status line and CRLF, one line per header value, and a final CRLF.
   */
  function HeadText(f: ResponseFields): (r: Option<string>)
    ensures r.None? <==> f.headers.None? || f.scheme.None? || f.status.None?
  {
    if f.headers.None? || f.scheme.None? || f.status.None? then None
    else Some(WrittenHead(StatusLine(f.scheme.value, f.version, f.status.value), f.headers.value))
  }

  /**
   * The head a response writes is read back as its status line and its headers:
   * for a visible scheme and version, a constant named by an identifier, and
   * headers whose names and values survive `strip`.
   */
  lemma HeadTextReadsBack(f: ResponseFields)
    requires f.scheme.Some? && f.status.Some? && f.headers.Some? && f.version.Some?
    requires IsWord(f.scheme.value) && IsWord(f.version.value) && IsConstantName(Name(f.status.value))
    requires Writable(f.headers.value)
    ensures HeadText(f).Some?
    ensures ReadsBack(HeadText(f).value, StatusLine(f.scheme.value, f.version, f.status.value), f.headers.value)
  {
    StatusLineIsHeadLine(f.scheme.value, f.version.value, f.status.value);
    HeadReadsBack(StatusLine(f.scheme.value, f.version, f.status.value), f.headers.value);
  }

  class HttpResponse {
    var scheme: Option<string>
    var version: Option<string>
    var status: Option<HttpStatus>
    var headers: Option<Headers>
    var body: ByteBuf?

    function Fields(): ResponseFields
      reads this
    {
      ResponseFields(scheme, version, status, headers, body)
    }

    /** `HttpResponse()`: scheme "http", version "1.1", everything else null. */
    constructor ()
      ensures Fields() == ResponseFields(Some("http"), Some("1.1"), None, None, null)
    {
      scheme, version := Some("http"), Some("1.1");
      status, headers, body := None, None, null;
    }

    /** `HttpResponse(status)`: empty headers and a null body. */
    constructor WithStatus(s: Option<HttpStatus>)
      ensures Fields() == ResponseFields(Some("http"), Some("1.1"), s, Some([]), null)
    {
      scheme, version := Some("http"), Some("1.1");
      status, headers, body := s, Some([]), null;
    }

    /** `HttpResponse(status, headers)`: a null body. */
    constructor WithStatusAndHeaders(s: Option<HttpStatus>, h: Option<Headers>)
      ensures Fields() == ResponseFields(Some("http"), Some("1.1"), s, h, null)
    {
      scheme, version := Some("http"), Some("1.1");
      status, headers, body := s, h, null;
    }

    /** `HttpResponse(status, headers, body)`. */
    constructor Create(s: Option<HttpStatus>, h: Option<Headers>, b: ByteBuf?)
      ensures Fields() == ResponseFields(Some("http"), Some("1.1"), s, h, b)
    {
      scheme, version := Some("http"), Some("1.1");
      status, headers, body := s, h, b;
    }

    method SetScheme(s: Option<string>)
      modifies this
      ensures Fields() == old(Fields()).(scheme := s)
    {
      scheme := s;
    }

    method SetVersion(v: Option<string>)
      modifies this
      ensures Fields() == old(Fields()).(version := v)
    {
      version := v;
    }

    method SetStatus(s: Option<HttpStatus>)
      modifies this
      ensures Fields() == old(Fields()).(status := s)
    {
      status := s;
    }

    method SetHeaders(h: Option<Headers>)
      modifies this
      ensures Fields() == old(Fields()).(headers := h)
    {
      headers := h;
    }

    method SetBody(b: ByteBuf?)
      modifies this
      ensures Fields() == old(Fields()).(body := b)
    {
      body := b;
    }

    /** `getHeaderBuffer`, as text: null unless headers, scheme and status are set. */
    function HeaderBuffer(): (r: Option<string>)
      reads this
      ensures r.Some? <==> headers.Some? && scheme.Some? && status.Some?
      ensures r.Some? ==> r == Some(WrittenHead(StatusLine(scheme.value, version, status.value), headers.value))
    {
      HeadText(Fields())
    }

    /** The objects the body's content is read from. */
    function BodyFrame(): set<object>
      reads this, body
    {
      if body == null then {} else {body as object, body.data}
    }

    ghost predicate BodyValid()
      reads this, BodyFrame()
    {
      body != null ==> body.Valid()
    }

    /** The remaining bytes of the body, None when the body is null. */
    function BodyContent(): Option<seq<byte>>
      reads this, BodyFrame()
      requires BodyValid()
    {
      if body == null then None else Some(body.Remaining())
    }

    /**
     * `equals`: the same object, or equal bodies (both null, or the same remaining
     * bytes, as `ByteBuffer.equals` compares them), equal headers and the same status.
     * Scheme and version are not compared.
     */
    predicate Equals(other: HttpResponse)
      reads this, other, BodyFrame(), other.BodyFrame()
      requires BodyValid() && other.BodyValid()
      ensures Equals(other) <==>
        (BodyContent(), headers, status) == (other.BodyContent(), other.headers, other.status)
    {
      if this == other then true
      else if body == null && other.body != null then false
      else if body != null && (other.body == null || body.Remaining() != other.body.Remaining()) then false
      else if headers != other.headers then false
      else status == other.status
    }
  }

  /** `equals` is symmetric. */
  lemma EqualsSymmetric(a: HttpResponse, b: HttpResponse)
    requires a.BodyValid() && b.BodyValid()
    ensures a.Equals(b) <==> b.Equals(a)
  {
  }

  /** Changing only scheme or version keeps a response equal to what it was equal to. */
  lemma EqualsIgnoresSchemeAndVersion(a: HttpResponse, b: HttpResponse, c: HttpResponse)
    requires a.BodyValid() && b.BodyValid() && c.BodyValid()
    requires c.body == b.body && c.headers == b.headers && c.status == b.status
    ensures a.Equals(b) <==> a.Equals(c)
  {
  }
}
