/**
 * What `AsyncHttpReader.parseHeaders` computes, as functions over the remaining
 * bytes of the stored chunks: the start line, the headers, whether the blank line
 * ending the head was seen, and how many bytes of each chunk were read. The body
 * of the message is whatever the scan leaves unread.
 *
 * The scan works chunk by chunk and line by line, so it depends on where chunks
 * end: a line cut by a chunk end cannot be read, and after the blank line the
 * next line is read and discarded as well.
 */
module HeadScan {
  import opened Wrappers
  import opened Text
  import opened HeaderMap
  import opened Buffers

  /**
   * The variables of `parseHeaders`: `firstLine` (None while `isFirstLine` holds),
   * the headers added so far and `isFinishedHeaders`.
   */
  datatype HeadState = HeadState(firstLine: Option<string>, headers: Headers, finished: bool)

  /** The state before the first line. */
  const Start := HeadState(None, [], false)

  /** The outcome of scanning one chunk and the number of its bytes that were read. */
  datatype ChunkScan = ChunkScan(outcome: Result<HeadState>, used: nat)

  /** The outcome of scanning every chunk and the number of bytes read from each. */
  datatype HeadScan = HeadScan(outcome: Result<HeadState>, used: seq<nat>)

  /**
   * One non-blank, stripped line before the blank line: the start line if there is
   * none yet; otherwise a header, split at its first ':' into a name (not stripped)
   * and a stripped value.
   */
  function Step(st: HeadState, line: string): (r: Result<HeadState>)
    ensures r.Err? <==> st.firstLine.Some? && ':' !in line
    ensures r.Err? ==> r.error == IOException(MalformedHeaderLine)
    ensures r.Ok? ==> r.value.finished == st.finished && r.value.firstLine.Some?
    ensures r.Ok? && st.firstLine.None? ==> r.value == st.(firstLine := Some(line))
    ensures r.Ok? && st.firstLine.Some? ==>
      && r.value.firstLine == st.firstLine
      && IndexOf(line, ':').Some?
      && r.value.headers ==
         Add(st.headers, line[..IndexOf(line, ':').value], Strip(line[IndexOf(line, ':').value + 1..]))
  {
    if st.firstLine.None? then Ok(st.(firstLine := Some(line)))
    else match IndexOf(line, ':')
      case None => Err(IOException(MalformedHeaderLine))
      case Some(i) => Ok(st.(headers := Add(st.headers, line[..i], Strip(line[i + 1..]))))
  }

  /**
   * The number of bytes read after the blank line: lines are read while they are
   * blank, and the first non-blank one is read too; with no '\n' left, everything.
   */
  function SkipBlankLines(s: seq<byte>): (n: nat)
    ensures n <= |s|
    decreases |s|
  {
    match LineEnd(s)
    case None => |s|
    case Some(k) => if IsBlank(Decode(s[..k])) then k + SkipBlankLines(s[k..]) else k
  }

  /**
   * The inner loop of `parseHeaders` over one chunk holding the bytes `s`, from the
   * state `st`: the resulting state or exception, and how many bytes were read.
   */
  function ScanChunk(s: seq<byte>, st: HeadState): (r: ChunkScan)
    requires !st.finished
    ensures r.used <= |s|
    ensures r.outcome.Ok? && !r.outcome.value.finished ==> r.used == |s|
    ensures r.outcome.Ok? ==> st.firstLine.Some? ==> r.outcome.value.firstLine == st.firstLine
    decreases |s|
  {
    if |s| == 0 then ChunkScan(Ok(st), 0)
    else match LineEnd(s)
      case None => ChunkScan(Err(IOException(UnreadableHeaderLine)), |s|)
      case Some(k) =>
        var line := Strip(Decode(s[..k]));
        if IsBlank(line) then ChunkScan(Ok(st.(finished := true)), k + SkipBlankLines(s[k..]))
        else match Step(st, line)
          case Err(e) => ChunkScan(Err(e), k)
          case Ok(next) =>
            var rest := ScanChunk(s[k..], next);
            ChunkScan(rest.outcome, k + rest.used)
  }

  /** `ScanChunk` after reading one complete line of `s`, ending at `k`, that strips to `line`. */
  lemma ScanLineStep(s: seq<byte>, st: HeadState, k: nat, rest: seq<byte>, line: string)
    requires !st.finished && |s| > 0 && LineEnd(s) == Some(k) && rest == s[k..]
    requires line == Strip(Decode(s[..k]))
    ensures IsBlank(line) ==>
      ScanChunk(s, st) == ChunkScan(Ok(st.(finished := true)), k + SkipBlankLines(rest))
    ensures !IsBlank(line) && Step(st, line).Err? ==>
      ScanChunk(s, st) == ChunkScan(Step(st, line), k)
    ensures !IsBlank(line) && Step(st, line).Ok? ==>
      ScanChunk(s, st) == ChunkScan(ScanChunk(rest, Step(st, line).value).outcome,
                                    k + ScanChunk(rest, Step(st, line).value).used)
  {
    if IsBlank(line) {
      assert ScanChunk(s, st) == ChunkScan(Ok(st.(finished := true)), k + SkipBlankLines(s[k..]));
    } else {
      match Step(st, line)
      case Err(e) =>
        assert ScanChunk(s, st) == ChunkScan(Err(e), k);
      case Ok(next) =>
        var r := ScanChunk(s[k..], next);
        assert ScanChunk(s, st) == ChunkScan(r.outcome, k + r.used);
    }
  }

  /**
   * A scan of one buffer that ends neither at the blank line nor in an exception
   * read a buffer whose last byte is '\n': a line cut off by the end of the buffer
   * makes `readLine` return null, and that throws.
   */
  lemma {:induction false} UnfinishedScanEndsLine(s: seq<byte>, st: HeadState)
    requires !st.finished
    ensures var r := ScanChunk(s, st);
      r.outcome.Ok? && !r.outcome.value.finished && |s| > 0 ==> s[|s| - 1] == NL
    decreases |s|
  {
    if |s| > 0 {
      match LineEnd(s)
      case None =>
      case Some(k) =>
        var line := Strip(Decode(s[..k]));
        if !IsBlank(line) {
          match Step(st, line)
          case Err(_) =>
          case Ok(next) =>
            var rest := ScanChunk(s[k..], next);
            assert ScanChunk(s, st) == ChunkScan(rest.outcome, k + rest.used);
            if k < |s| {
              UnfinishedScanEndsLine(s[k..], next);
              assert s[k..][|s| - k - 1] == s[|s| - 1];
            }
        }
    }
  }

  function Zeros(n: nat): (z: seq<nat>)
    ensures |z| == n && forall i :: 0 <= i < n ==> z[i] == 0
  {
    seq(n, _ => 0)
  }

  /**
   * The outer loop of `parseHeaders` over the chunks, from the state `st`: chunks
   * after the one where the head ended, or where an exception was thrown, are not read.
   */
  function ScanChunks(chunks: seq<seq<byte>>, st: HeadState): (r: HeadScan)
    ensures |r.used| == |chunks|
    ensures forall i {:trigger r.used[i]} :: 0 <= i < |chunks| ==> r.used[i] <= |chunks[i]|
    decreases |chunks|
  {
    if |chunks| == 0 || st.finished then HeadScan(Ok(st), Zeros(|chunks|))
    else
      var c := ScanChunk(chunks[0], st);
      match c.outcome
      case Err(e) => HeadScan(Err(e), [c.used] + Zeros(|chunks| - 1))
      case Ok(next) =>
        var rest := ScanChunks(chunks[1..], next);
        HeadScan(rest.outcome, [c.used] + rest.used)
  }

  /**
   * One step of the outer loop, from chunk `i` with state `st`: the scan of the
   * chunk decides whether the loop stops there or goes on with the next chunk.
   */
  lemma ScanChunksStep(chunks: seq<seq<byte>>, i: nat, st: HeadState)
    requires i < |chunks| && !st.finished
    ensures var c := ScanChunk(chunks[i], st);
      var r := ScanChunks(chunks[i..], st);
      && (c.outcome.Err? || c.outcome.value.finished ==>
            r == HeadScan(c.outcome, [c.used] + Zeros(|chunks| - i - 1)))
      && (c.outcome.Ok? && !c.outcome.value.finished ==>
            var rest := ScanChunks(chunks[i + 1..], c.outcome.value);
            r == HeadScan(rest.outcome, [c.used] + rest.used))
  {
    assert chunks[i..][0] == chunks[i];
    assert chunks[i..][1..] == chunks[i + 1..];
  }

  /** Where the loop stopped at chunk `i`, chunk `i` read `u` bytes and later chunks none. */
  lemma UsedAfterStop(used: seq<nat>, i: nat, u: nat)
    requires i < |used| && used[i..] == [u] + Zeros(|used| - i - 1)
    ensures used[i] == u && forall j :: i < j < |used| ==> used[j] == 0
  {
    assert used[i] == used[i..][0];
    forall j | i < j < |used| ensures used[j] == 0 {
      assert used[j] == used[i..][j - i];
    }
  }

  /** What each chunk has left once `used[i]` of its bytes were read. */
  function Unread(chunks: seq<seq<byte>>, used: seq<nat>): (r: seq<seq<byte>>)
    requires |used| == |chunks| && forall i :: 0 <= i < |chunks| ==> used[i] <= |chunks[i]|
    ensures |r| == |chunks| && forall i :: 0 <= i < |chunks| ==> r[i] == chunks[i][used[i]..]
  {
    seq(|chunks|, i requires 0 <= i < |chunks| => chunks[i][used[i]..])
  }

  /**
   * Scanning `chunks` from the `i`-th on, starting in `st`, ends as `scan` does and
   * uses what `scan` says of those chunks.
   */
  ghost predicate ScanResumes(chunks: seq<seq<byte>>, scan: HeadScan, i: nat, st: HeadState) {
    i <= |chunks| && |scan.used| == |chunks| && ScanChunks(chunks[i..], st) == HeadScan(scan.outcome, scan.used[i..])
  }

  /** The chunks while the outer loop is at chunk `i`: those before it read, the others not yet. */
  function PartlyRead(chunks: seq<seq<byte>>, used: seq<nat>, i: nat): (r: seq<seq<byte>>)
    requires |used| == |chunks| && forall j :: 0 <= j < |chunks| ==> used[j] <= |chunks[j]|
    ensures |r| == |chunks|
    ensures forall j :: 0 <= j < |chunks| ==> r[j] == if j < i then chunks[j][used[j]..] else chunks[j]
  {
    seq(|chunks|, j requires 0 <= j < |chunks| => if j < i then chunks[j][used[j]..] else chunks[j])
  }

  /** Before the outer loop, no chunk is read and the whole scan lies ahead. */
  lemma ScanBegins(chunks: seq<seq<byte>>, scan: HeadScan)
    requires scan == ScanChunks(chunks, Start)
    ensures PartlyRead(chunks, scan.used, 0) == chunks
    ensures ScanResumes(chunks, scan, 0, Start)
  {
    assert chunks[0..] == chunks && scan.used[0..] == scan.used;
    assert PartlyRead(chunks, scan.used, 0) == chunks;
  }

  /** After the outer loop, every chunk is read as far as the scan read it. */
  lemma PartlyReadAll(chunks: seq<seq<byte>>, used: seq<nat>)
    requires |used| == |chunks| && forall j :: 0 <= j < |chunks| ==> used[j] <= |chunks[j]|
    ensures PartlyRead(chunks, used, |chunks|) == Unread(chunks, used)
  {
  }

  lemma PartlyReadNext(chunks: seq<seq<byte>>, used: seq<nat>, i: nat)
    requires |used| == |chunks| && forall j :: 0 <= j < |chunks| ==> used[j] <= |chunks[j]|
    requires i < |chunks|
    ensures PartlyRead(chunks, used, i)[i := chunks[i][used[i]..]] == PartlyRead(chunks, used, i + 1)
  {
  }

  lemma PartlyReadStop(chunks: seq<seq<byte>>, used: seq<nat>, i: nat)
    requires |used| == |chunks| && forall j :: 0 <= j < |chunks| ==> used[j] <= |chunks[j]|
    requires i < |chunks| && forall j :: i < j < |chunks| ==> used[j] == 0
    ensures PartlyRead(chunks, used, i)[i := chunks[i][used[i]..]] == Unread(chunks, used)
  {
    forall j | i < j < |chunks| ensures chunks[j][used[j]..] == chunks[j] {
      assert used[j] == 0;
    }
  }

  /** The body `parseBody` returns after the scan: every unread byte, in chunk order. */
  function Body(chunks: seq<seq<byte>>, scan: HeadScan): seq<byte>
    requires scan == ScanChunks(chunks, Start)
  {
    Concat(Unread(chunks, scan.used))
  }

  // ---------------------------------------------------------------------------
  // Where the scan stops

  /**
   * An unfinished scan read every chunk to its end; a finished one read every chunk
   * before some chunk `j` to its end and no chunk after it.
   */
  lemma {:induction false} ScanShape(chunks: seq<seq<byte>>, st: HeadState)
    requires !st.finished
    ensures var r := ScanChunks(chunks, st);
      r.outcome.Ok? && !r.outcome.value.finished ==>
        forall i :: 0 <= i < |chunks| ==> r.used[i] == |chunks[i]|
    ensures var r := ScanChunks(chunks, st);
      r.outcome.Ok? && r.outcome.value.finished ==>
        exists j :: 0 <= j < |chunks| && FinishedIn(chunks, r.used, j)
    decreases |chunks|
  {
    var r := ScanChunks(chunks, st);
    if |chunks| > 0 {
      var c := ScanChunk(chunks[0], st);
      if c.outcome.Ok? {
        var next := c.outcome.value;
        var rest := ScanChunks(chunks[1..], next);
        assert r == HeadScan(rest.outcome, [c.used] + rest.used);
        if next.finished {
          assert rest.used == Zeros(|chunks| - 1);
          FinishedInFirst(chunks, c.used, rest.used);
        } else {
          ScanShape(chunks[1..], next);
          if rest.outcome.Ok? && rest.outcome.value.finished {
            var j :| 0 <= j < |chunks| - 1 && FinishedIn(chunks[1..], rest.used, j);
            FinishedInLater(chunks, c.used, rest.used, j);
          } else if rest.outcome.Ok? {
            ReadToEndCons(chunks, c.used, rest.used);
          }
        }
      }
    }
  }

  /** The first chunk read to its end, and each of the rest read as `used` says. */
  lemma ReadToEndCons(chunks: seq<seq<byte>>, u: nat, used: seq<nat>)
    requires |chunks| > 0 && |used| == |chunks| - 1 && u == |chunks[0]|
    requires forall i :: 0 <= i < |chunks| - 1 ==> used[i] == |chunks[1..][i]|
    ensures forall i :: 0 <= i < |chunks| ==> ([u] + used)[i] == |chunks[i]|
  {
    forall i | 1 <= i < |chunks| ensures ([u] + used)[i] == |chunks[i]| {
      assert ([u] + used)[i] == used[i - 1] && chunks[1..][i - 1] == chunks[i];
    }
  }

  /** Finishing in the first chunk leaves every later chunk unread. */
  lemma FinishedInFirst(chunks: seq<seq<byte>>, u: nat, used: seq<nat>)
    requires |chunks| > 0 && used == Zeros(|chunks| - 1)
    ensures FinishedIn(chunks, [u] + used, 0)
  {
    forall i | 0 < i < |chunks| ensures ([u] + used)[i] == 0 {
      assert ([u] + used)[i] == used[i - 1];
    }
  }

  /** Finishing in chunk `j` of the rest, after reading the first chunk to its end. */
  lemma FinishedInLater(chunks: seq<seq<byte>>, u: nat, used: seq<nat>, j: nat)
    requires |chunks| > 0 && |used| == |chunks| - 1 && u == |chunks[0]|
    requires FinishedIn(chunks[1..], used, j)
    ensures FinishedIn(chunks, [u] + used, j + 1)
  {
    forall i | 1 <= i < |chunks| ensures ([u] + used)[i] == used[i - 1] && chunks[i] == chunks[1..][i - 1] {
    }
  }

  /** Chunks before `j` were read to their end, chunks after `j` not at all. */
  ghost predicate FinishedIn(chunks: seq<seq<byte>>, used: seq<nat>, j: nat)
    requires |used| == |chunks|
  {
    && j < |chunks|
    && (forall i :: 0 <= i < j ==> used[i] == |chunks[i]|)
    && (forall i :: j < i < |chunks| ==> used[i] == 0)
  }

  /** The concatenation of chunks that are all empty is empty. */
  lemma {:induction false} ConcatEmpties(ss: seq<seq<byte>>)
    requires forall i :: 0 <= i < |ss| ==> ss[i] == []
    ensures Concat(ss) == []
  {
    if |ss| > 0 {
      ConcatEmpties(ss[..|ss| - 1]);
    }
  }

  /** What is left unread when the scan stopped in chunk `j`. */
  lemma UnreadAfterStop(chunks: seq<seq<byte>>, used: seq<nat>, j: nat)
    requires |used| == |chunks| && forall i :: 0 <= i < |chunks| ==> used[i] <= |chunks[i]|
    requires FinishedIn(chunks, used, j)
    ensures Concat(Unread(chunks, used)) == chunks[j][used[j]..] + Concat(chunks[j + 1..])
  {
    var u := Unread(chunks, used);
    var before, after := u[..j], u[j + 1..];
    forall i | 0 <= i < |before| ensures before[i] == [] {
      assert before[i] == u[i] == chunks[i][used[i]..];
    }
    ConcatEmpties(before);
    forall i | 0 <= i < |after| ensures after[i] == chunks[j + 1..][i] {
      assert after[i] == u[j + 1 + i] == chunks[j + 1 + i][used[j + 1 + i]..];
    }
    assert after == chunks[j + 1..];
    ConcatAround(u, j);
  }

  /** The concatenation around the `j`-th chunk. */
  lemma {:induction false} ConcatAround(u: seq<seq<byte>>, j: nat)
    requires j < |u|
    ensures Concat(u) == Concat(u[..j]) + u[j] + Concat(u[j + 1..])
    decreases |u|
  {
    var n := |u|;
    var init := u[..n - 1];
    assert Concat(u) == Concat(init) + u[n - 1];
    if j == n - 1 {
      assert init == u[..j] && u[j + 1..] == [];
    } else {
      ConcatAround(init, j);
      assert init[..j] == u[..j] && init[j] == u[j];
      var rest := u[j + 1..];
      assert rest[..|rest| - 1] == init[j + 1..] && rest[|rest| - 1] == u[n - 1];
      assert Concat(rest) == Concat(init[j + 1..]) + u[n - 1];
    }
  }

  /**
   * The body rule: when the head ends in chunk `j`, the body is the unread rest of
   * chunk `j` followed by every later chunk in full; when the head never ends, the
   * body is empty and no exception is thrown.
   */
  lemma BodyRule(chunks: seq<seq<byte>>)
    ensures var r := ScanChunks(chunks, Start);
      r.outcome.Ok? && !r.outcome.value.finished ==> Body(chunks, r) == []
    ensures var r := ScanChunks(chunks, Start);
      r.outcome.Ok? && r.outcome.value.finished ==>
        exists j :: 0 <= j < |chunks| && FinishedIn(chunks, r.used, j) &&
          Body(chunks, r) == chunks[j][r.used[j]..] + Concat(chunks[j + 1..])
  {
    var r := ScanChunks(chunks, Start);
    ScanShape(chunks, Start);
    if r.outcome.Ok? && !r.outcome.value.finished {
      ConcatEmpties(Unread(chunks, r.used));
    }
    if r.outcome.Ok? && r.outcome.value.finished {
      var j :| 0 <= j < |chunks| && FinishedIn(chunks, r.used, j);
      UnreadAfterStop(chunks, r.used, j);
    }
  }

  /**
   * The line after the blank line is lost: from the single chunk "A\n\nB\nC" the
   * scan reads the start line "A", the blank line and then "B\n", so the body is "C".
   */
  lemma LineAfterBlankIsSwallowed()
    ensures var chunks: seq<seq<byte>> := [[65, 10, 10, 66, 10, 67]];
      var r := ScanChunks(chunks, Start);
      r == HeadScan(Ok(HeadState(Some("A"), [], true)), [5]) && Body(chunks, r) == [67]
  {
    var s: seq<byte> := [65, 10, 10, 66, 10, 67];
    var first := HeadState(Some("A"), [], false);
    assert LineEnd(s) == Some(2);
    assert Decode(s[..2]) == "A\n";
    assert Strip("A\n") == "A" by {
      assert LeadingWhitespace("A\n") == 0;
      assert TrailingWhitespace("A\n") == 1;
    }
    assert Step(Start, "A") == Ok(first);
    var after := s[2..];
    assert LineEnd(after) == Some(1);
    assert Decode(after[..1]) == "\n";
    assert IsBlank(Strip("\n"));
    var body := after[1..];
    assert LineEnd(body) == Some(2);
    assert Decode(body[..2]) == "B\n";
    assert !IsWhitespace("B\n"[0]);
    assert SkipBlankLines(body) == 2;
    assert ScanChunk(after, first) == ChunkScan(Ok(first.(finished := true)), 3);
    assert ScanChunk(s, Start) == ChunkScan(Ok(first.(finished := true)), 5);
    var chunks: seq<seq<byte>> := [s];
    assert chunks[1..] == [] && chunks[0] == s;
    assert ScanChunks([], first.(finished := true)) == HeadScan(Ok(first.(finished := true)), []);
    var r := ScanChunks(chunks, Start);
    assert r == HeadScan(Ok(first.(finished := true)), [5]);
    assert Unread(chunks, r.used) == [[67]];
    assert Concat([[67]]) == [67] by {
      assert [[67]][..0] == [];
    }
  }

  /**
   * Without a blank line the head still fails on a header line without ':': the
   * single chunk "A\r\nB\r\n" ends with '\n', and its second line "B" throws.
   */
  lemma MissingColonThrows()
    ensures var chunks: seq<seq<byte>> := [[65, 13, 10, 66, 13, 10]];
      ScanChunks(chunks, Start) == HeadScan(Err(IOException(MalformedHeaderLine)), [6])
  {
    var s: seq<byte> := [65, 13, 10, 66, 13, 10];
    var first := HeadState(Some("A"), [], false);
    assert LineEnd(s) == Some(3);
    assert Decode(s[..3]) == "A\r\n";
    assert Strip("A\r\n") == "A" by {
      assert LeadingWhitespace("A\r\n") == 0;
      assert TrailingWhitespace("A\r\n") == 2;
    }
    assert Step(Start, "A") == Ok(first);
    var after := s[3..];
    assert LineEnd(after) == Some(3);
    assert Decode(after[..3]) == "B\r\n";
    assert Strip("B\r\n") == "B" by {
      assert LeadingWhitespace("B\r\n") == 0;
      assert TrailingWhitespace("B\r\n") == 2;
    }
    assert IndexOf("B", ':') == None;
    assert Step(first, "B") == Err(IOException(MalformedHeaderLine));
    assert ScanChunk(after, first) == ChunkScan(Err(IOException(MalformedHeaderLine)), 3);
    assert ScanChunk(s, Start) == ChunkScan(Err(IOException(MalformedHeaderLine)), 6);
    var chunks: seq<seq<byte>> := [s];
    assert chunks[0] == s && Zeros(0) == [];
  }
}
