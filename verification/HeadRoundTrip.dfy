/**
 * The head that `HttpRequest.getHeaderBuffer` and `HttpResponse.getHeaderBuffer`
 * write — the start line, one "name: value" line per header value and an empty
 * line, each ended by CRLF — read back by `AsyncHttpReader.parseHeaders`: the scan
 * finds the same start line and the same headers, and leaves nothing for the body.
 */
module HeadRoundTrip {
  import opened Wrappers
  import opened Text
  import opened HeaderMap
  import opened Buffers
  import opened HeadScan

  /** The head of a message as both serialisers write it. */
  function WrittenHead(start: string, h: Headers): string {
    start + CRLF + HeaderLines(h) + CRLF
  }

  /**
   * A line `parseHeaders` reads back as it is: ASCII, no '\n', and neither blank
   * nor padded with whitespace that `strip` would remove.
   */
  predicate IsHeadLine(s: string) {
    && |s| > 0 && !IsWhitespace(s[0]) && !IsWhitespace(s[|s| - 1])
    && '\n' !in s && IsAscii(s)
  }

  /** A header name that is read back: no ':' or '\n', no leading whitespace. */
  predicate IsHeaderName(n: string) {
    ':' !in n && '\n' !in n && IsAscii(n) && (|n| > 0 ==> !IsWhitespace(n[0]))
  }

  /** A header value that is read back: no '\n', nothing for `strip` to remove. */
  predicate IsHeaderValue(v: string) {
    '\n' !in v && IsAscii(v) && (|v| > 0 ==> !IsWhitespace(v[0]) && !IsWhitespace(v[|v| - 1]))
  }

  /** Printable text that neither starts nor ends with a space is a head line. */
  lemma PrintableHeadLine(s: string)
    requires IsPrintable(s) && |s| > 0 && s[0] != ' ' && s[|s| - 1] != ' '
    ensures IsHeadLine(s)
  {
    assert '\n' !in s by {
      forall i | 0 <= i < |s| ensures s[i] != '\n' {
        assert 32 <= s[i] as int;
      }
    }
  }

  /** Headers whose lines are read back: well formed, with readable names and values. */
  predicate Writable(h: Headers) {
    && WellFormed(h)
    && (forall i :: 0 <= i < |h| ==> IsHeaderName(h[i].name))
    && (forall i, j :: 0 <= i < |h| && 0 <= j < |h[i].values| ==> IsHeaderValue(h[i].values[j]))
  }

  /**
   * The text `text`, sent as one buffer, is read back as the start line `start`
   * and the headers `h`, ending at the empty line, with every byte read as head.
   */
  ghost predicate ReadsBack(text: string, start: string, h: Headers) {
    && IsLatin1(text)
    && var bytes := Encode(text);
       && ScanChunks([bytes], Start) == HeadScan(Ok(HeadState(Some(start), h, true)), [|bytes|])
       && Body([bytes], ScanChunks([bytes], Start)) == []
  }

  // ---------------------------------------------------------------------------
  // What `parseHeaders` builds

  /** `add` of a name not yet present appends an entry holding the one value. */
  lemma AddNew(g: Headers, name: string, value: string)
    requires Find(g, name).None?
    ensures Add(g, name, value) == g + [Entry(name, [value])]
  {
  }

  /** `add` of the name of the last entry appends the value to that entry. */
  lemma AddToLast(g: Headers, name: string, values: seq<string>, value: string)
    requires Find(g, name).None?
    ensures Add(g + [Entry(name, values)], name, value) == g + [Entry(name, values + [value])]
  {
    var e := Entry(name, values);
    FindAppend(g, e, name);
    assert (g + [e])[|g| := Entry(name, values + [value])] == g + [Entry(name, values + [value])];
  }

  /**
   * Each entry of `h` has a value, and a name that is new to `g` and to the entries
   * of `h` before it.
   */
  predicate NewAfter(g: Headers, h: Headers)
    decreases |h|
  {
    |h| == 0 ||
    (NewAfter(g, h[..|h| - 1]) && Find(g + h[..|h| - 1], h[|h| - 1].name).None? && |h[|h| - 1].values| > 0)
  }

  /** The entries of well-formed headers are each new after the ones before them. */
  lemma {:induction false} WellFormedIsNew(h: Headers)
    requires WellFormed(h)
    ensures NewAfter([], h)
    decreases |h|
  {
    if |h| > 0 {
      LastEntryIsNew(h);
      WellFormedIsNew(h[..|h| - 1]);
      assert [] + h[..|h| - 1] == h[..|h| - 1];
    }
  }

  /** The entries before the last of well-formed headers are well formed and lack its name. */
  lemma LastEntryIsNew(h: Headers)
    requires WellFormed(h) && |h| > 0
    ensures WellFormed(h[..|h| - 1]) && Find(h[..|h| - 1], h[|h| - 1].name).None?
    ensures |h[|h| - 1].values| > 0
  {
    var init := h[..|h| - 1];
    forall j | 0 <= j < |init| ensures init[j].name != h[|h| - 1].name {
      assert init[j] == h[j];
    }
  }

  // ---------------------------------------------------------------------------
  // Scanning written lines

  /**
   * Scanning `a` then `b` in one buffer, where the scan of `a` neither stops nor
   * throws, goes on with `b` in the state the scan of `a` reached.
   */
  lemma {:induction false} ScanAppend(a: seq<byte>, b: seq<byte>, st: HeadState)
    requires !st.finished
    requires ScanChunk(a, st).outcome.Ok? && !ScanChunk(a, st).outcome.value.finished
    ensures var mid := ScanChunk(a, st).outcome.value;
      ScanChunk(a + b, st) == ChunkScan(ScanChunk(b, mid).outcome, |a| + ScanChunk(b, mid).used)
    decreases |a|
  {
    if |a| == 0 {
      assert a + b == b;
    } else {
      UnfinishedScanEndsLine(a, st);
      assert LineEnd(a).Some?;
      var k := LineEnd(a).value;
      SameLineEnd(a, b, k);
      var line := Strip(Decode(a[..k]));
      assert (a + b)[..k] == a[..k];
      ScanLineStep(a, st, k, a[k..], line);
      ScanLineStep(a + b, st, k, a[k..] + b, line);
      var next := Step(st, line).value;
      ScanAppend(a[k..], b, next);
    }
  }

  /** A line end within `a` is also the line end of `a + b`. */
  lemma SameLineEnd(a: seq<byte>, b: seq<byte>, k: nat)
    requires LineEnd(a) == Some(k)
    ensures LineEnd(a + b) == Some(k) && (a + b)[k..] == a[k..] + b
  {
    forall i | 0 <= i < k - 1 ensures (a + b)[i] != NL {
      assert (a + b)[i] == a[i];
    }
    assert (a + b)[k - 1] == a[k - 1];
    LineEndAt(a + b, k - 1);
  }

  /** The bytes of `s` hold a '\n' exactly where `s` does. */
  lemma EncodeNoNewline(s: string, j: nat)
    requires IsLatin1(s) && j <= |s| && '\n' !in s[..j]
    ensures forall i :: 0 <= i < j ==> Encode(s)[i] != NL
  {
    forall i | 0 <= i < j ensures Encode(s)[i] != NL {
      assert s[..j][i] == s[i];
    }
  }

  /** A text whose only '\n' is its last character is one line. */
  lemma OneLine(text: string)
    requires IsLatin1(text) && |text| > 0 && text[|text| - 1] == '\n' && '\n' !in text[..|text| - 1]
    ensures LineEnd(Encode(text)) == Some(|text|)
  {
    EncodeNoNewline(text, |text| - 1);
    LineEndAt(Encode(text), |text| - 1);
  }

  /**
   * A line `line` followed by the blank padding `pad` and CRLF is read as one
   * line, stripped to `line`, and handled by `Step`.
   */
  lemma ScanLine(line: string, pad: string, st: HeadState)
    requires !st.finished && IsHeadLine(line)
    requires pad == "" || pad == " "
    ensures IsLatin1(line + pad + CRLF)
    ensures ScanChunk(Encode(line + pad + CRLF), st) == ChunkScan(Step(st, line), |line| + |pad| + 2)
  {
    var ws := pad + CRLF;
    var text := line + ws;
    assert line + pad + CRLF == text;
    AsciiAppend(line, ws);
    assert text[..|text| - 1] == line + pad + "\r";
    OneLine(text);
    var s := Encode(text);
    assert s[..|s|] == s;
    StripTrailingWhitespace(line, ws);
    ScanLineStep(s, st, |s|, [], line);
    assert !IsBlank(line) by {
      assert !IsWhitespace(line[0]);
    }
  }

  /** The empty line that ends a head makes the scan stop, with nothing left to skip. */
  lemma ScanEmptyLine(st: HeadState)
    requires !st.finished
    ensures IsLatin1(CRLF)
    ensures ScanChunk(Encode(CRLF), st) == ChunkScan(Ok(st.(finished := true)), 2)
  {
    var s := Encode(CRLF);
    LineEndAt(s, 1);
    assert Decode(s[..2]) == CRLF;
    assert LeadingWhitespace(CRLF) == 2 by {
      assert CRLF[1..] == "\n" && "\n"[1..] == "";
    }
    assert Strip(CRLF) == "";
    assert s[2..] == [];
  }

  /** `strip` removes the single space `getHeaderBuffer` writes after the colon. */
  lemma StripSpaceBefore(v: string)
    requires |v| > 0 && !IsWhitespace(v[0]) && !IsWhitespace(v[|v| - 1])
    ensures Strip(" " + v) == v
  {
    assert (" " + v)[1..] == v;
    assert LeadingWhitespace(" " + v) == 1;
    StripOfTrimmed(v);
  }

  /**
   * The line "name: value" as `parseHeaders` reads it: without a value, the space
   * after the colon is stripped with the line end; with one, the line is read as
   * written and the value follows a single space.
   */
  lemma HeaderLineShape(name: string, value: string)
    requires IsHeaderName(name) && IsHeaderValue(value)
    ensures var tail := if |value| == 0 then "" else " " + value;
      var pad := if |value| == 0 then " " else "";
      var line := name + [':'] + tail;
      && name + ": " + value + CRLF == line + pad + CRLF
      && IsHeadLine(line) && Strip(tail) == value
  {
    if |value| == 0 {
      assert name + ": " + value + CRLF == name + [':'] + "" + " " + CRLF;
      ColonLine(name, "");
    } else {
      assert name + ": " + value + CRLF == name + [':'] + (" " + value) + "" + CRLF;
      ColonLine(name, " " + value);
      StripSpaceBefore(value);
    }
  }

  /** A header name, a colon and a tail that ends in a visible character, or is empty, form a head line. */
  lemma ColonLine(name: string, tail: string)
    requires IsHeaderName(name) && '\n' !in tail && IsAscii(tail)
    requires |tail| > 0 ==> !IsWhitespace(tail[|tail| - 1])
    ensures IsHeadLine(name + [':'] + tail)
  {
    var line := name + [':'] + tail;
    assert line[0] == if |name| > 0 then name[0] else ':';
    assert line[|line| - 1] == if |tail| > 0 then tail[|tail| - 1] else ':';
    AsciiAppend(name, [':']);
    AsciiAppend(name + [':'], tail);
  }

  /** One header line "name: value" adds `value` under `name`. */
  lemma ScanHeaderLine(name: string, value: string, st: HeadState)
    requires !st.finished && st.firstLine.Some?
    requires IsHeaderName(name) && IsHeaderValue(value)
    ensures IsLatin1(name + ": " + value + CRLF)
    ensures ScanChunk(Encode(name + ": " + value + CRLF), st) ==
      ChunkScan(Ok(st.(headers := Add(st.headers, name, value))), |name| + |value| + 4)
  {
    var tail := if |value| == 0 then "" else " " + value;
    var pad := if |value| == 0 then " " else "";
    var line := name + [':'] + tail;
    HeaderLineShape(name, value);
    ScanLine(line, pad, st);
    StepHeaderLine(name, tail, value, st);
  }

  /** `Step` splits "name:tail" at the colon and strips the tail. */
  lemma StepHeaderLine(name: string, tail: string, value: string, st: HeadState)
    requires st.firstLine.Some? && ':' !in name && Strip(tail) == value
    ensures Step(st, name + [':'] + tail) == Ok(st.(headers := Add(st.headers, name, value)))
  {
    var line := name + [':'] + tail;
    IndexOfAfter(name, ':', tail);
    assert line[..|name|] == name && line[|name| + 1..] == tail;
  }

  /** The lines of one entry, read after headers without its name, append the entry. */
  lemma {:induction false} ScanEntryLines(name: string, values: seq<string>, st: HeadState)
    requires !st.finished && st.firstLine.Some? && Find(st.headers, name).None? && |values| > 0
    requires IsHeaderName(name) && forall j :: 0 <= j < |values| ==> IsHeaderValue(values[j])
    ensures IsLatin1(EntryLines(name, values))
    ensures ScanChunk(Encode(EntryLines(name, values)), st) ==
      ChunkScan(Ok(st.(headers := st.headers + [Entry(name, values)])), |EntryLines(name, values)|)
    decreases |values|
  {
    var init, v := values[..|values| - 1], values[|values| - 1];
    assert init + [v] == values;
    var before, line := EntryLines(name, init), name + ": " + v + CRLF;
    assert EntryLines(name, values) == before + line;
    if |init| == 0 {
      assert before == "" && line == EntryLines(name, values);
      ScanHeaderLine(name, v, st);
      AddNew(st.headers, name, v);
    } else {
      ScanEntryLines(name, init, st);
      var mid := st.(headers := st.headers + [Entry(name, init)]);
      ScanHeaderLine(name, v, mid);
      AddToLast(st.headers, name, init, v);
      EncodeAppend(before, line);
      ScanAppend(Encode(before), Encode(line), st);
    }
  }

  /** The header lines of `h`, read after headers `g` with none of its names, append `h` to `g`. */
  lemma {:induction false} ScanHeaderLines(h: Headers, st: HeadState)
    requires !st.finished && st.firstLine.Some? && NewAfter(st.headers, h)
    requires forall i :: 0 <= i < |h| ==> IsHeaderName(h[i].name)
    requires forall i, j :: 0 <= i < |h| && 0 <= j < |h[i].values| ==> IsHeaderValue(h[i].values[j])
    ensures IsLatin1(HeaderLines(h))
    ensures ScanChunk(Encode(HeaderLines(h)), st) ==
      ChunkScan(Ok(st.(headers := st.headers + h)), |HeaderLines(h)|)
    decreases |h|
  {
    if |h| > 0 {
      var init, e := h[..|h| - 1], h[|h| - 1];
      assert st.headers + init + [Entry(e.name, e.values)] == st.headers + h;
      var before, lines := HeaderLines(init), EntryLines(e.name, e.values);
      assert HeaderLines(h) == before + lines;
      ScanHeaderLines(init, st);
      var mid := st.(headers := st.headers + init);
      ScanEntryLines(e.name, e.values, mid);
      EncodeAppend(before, lines);
      ScanAppend(Encode(before), Encode(lines), st);
    } else {
      assert st.(headers := st.headers + h) == st;
    }
  }

  /** The written head, as one buffer, is scanned to its end and ends the head. */
  lemma ScanWrittenHead(start: string, h: Headers)
    requires IsHeadLine(start) && Writable(h)
    ensures IsLatin1(WrittenHead(start, h))
    ensures ScanChunk(Encode(WrittenHead(start, h)), Start) ==
      ChunkScan(Ok(HeadState(Some(start), h, true)), |WrittenHead(start, h)|)
  {
    assert [] + h == h;
    var first, lines := start + CRLF, HeaderLines(h);
    assert start + "" + CRLF == first;
    ScanLine(start, "", Start);
    var s1 := HeadState(Some(start), [], false);
    WellFormedIsNew(h);
    ScanHeaderLines(h, s1);
    var s2 := HeadState(Some(start), h, false);
    EncodeAppend(first, lines);
    ScanAppend(Encode(first), Encode(lines), Start);
    ScanEmptyLine(s2);
    EncodeAppend(first + lines, CRLF);
    ScanAppend(Encode(first + lines), Encode(CRLF), Start);
  }

  /**
   * The round trip of a head: a start line and headers that can be read back,
   * written as one buffer, are read as that start line and those headers, and the
   * scan ends at the empty line with nothing left for the body.
   */
  lemma HeadReadsBack(start: string, h: Headers)
    requires IsHeadLine(start) && Writable(h)
    ensures ReadsBack(WrittenHead(start, h), start, h)
  {
    ScanWrittenHead(start, h);
    OneFinishedChunk(Encode(WrittenHead(start, h)), HeadState(Some(start), h, true));
  }

  /** A single buffer whose scan reads all of it and ends the head leaves no body. */
  lemma OneFinishedChunk(bytes: seq<byte>, done: HeadState)
    requires done.finished && ScanChunk(bytes, Start) == ChunkScan(Ok(done), |bytes|)
    ensures ScanChunks([bytes], Start) == HeadScan(Ok(done), [|bytes|])
    ensures Body([bytes], ScanChunks([bytes], Start)) == []
  {
    var chunks := [bytes];
    assert chunks[0..] == chunks && chunks[0] == bytes;
    ScanChunksStep(chunks, 0, Start);
    assert [|bytes|] + Zeros(0) == [|bytes|];
    ReadToEnd(bytes);
  }

  /** Nothing is left of a buffer read to its end. */
  lemma ReadToEnd(bytes: seq<byte>)
    ensures Concat(Unread([bytes], [|bytes|])) == []
  {
    var u := Unread([bytes], [|bytes|]);
    assert u[0] == bytes[|bytes|..] == [];
    ConcatEmpties(u);
  }
}
