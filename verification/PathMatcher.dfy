/**
 * `UriTemplate`: a '/'-separated endpoint path whose segments are literals or
 * `{name}` parameters (the endpoint path form of the Java API for WebSocket,
 * section 3.1.1), its normalised form, and matching a candidate path against it.
 */
module PathMatcher {
  import opened Wrappers
  import opened Text

  /** A segment: its position among the segments for a parameter, -1 for a literal. */
  datatype Segment = Segment(parameterIndex: int, value: string)

  /** A parsed template. Its fields never change once built. */
  datatype UriTemplate = UriTemplate(normalized: string, segments: seq<Segment>, hasParameters: bool)

  // ---------------------------------------------------------------------------
  // What the constructor accepts and builds, stated piece by piece of the path

  /** A piece that starts with '{' and ends with '}'. */
  predicate IsParam(s: string) {
    |s| > 0 && s[0] == '{' && s[|s| - 1] == '}'
  }

  /** The name of a parameter piece: what lies between the braces. */
  function Name(s: string): string
    requires IsParam(s)
  {
    s[1..|s| - 1]
  }

  /** The number of parameter pieces among the first `n` pieces. */
  function Params(ps: seq<string>, n: nat): nat
    requires n <= |ps|
  {
    if n == 0 then 0 else Params(ps, n - 1) + (if IsParam(ps[n - 1]) then 1 else 0)
  }

  /** The names of the parameter pieces among the first `n` pieces. */
  function NamesOf(ps: seq<string>, n: nat): set<string>
    requires n <= |ps|
  {
    if n == 0 then {}
    else NamesOf(ps, n - 1) + (if IsParam(ps[n - 1]) then {Name(ps[n - 1])} else {})
  }

  /**
   * The `i`-th piece makes the constructor throw `IllegalArgumentException`: an
   * empty piece that is neither the first nor a last one without an earlier
   * parameter; a literal holding a brace; or a parameter whose name was seen before.
   */
  predicate Bad(ps: seq<string>, i: nat)
    requires i < |ps|
  {
    if ps[i] == [] then !(i == 0 || (i == |ps| - 1 && Params(ps, i) == 0))
    else if IsParam(ps[i]) then Name(ps[i]) in NamesOf(ps, i)
    else '{' in ps[i] || '}' in ps[i]
  }

  /** The segment built from a non-empty piece `s` that `k` segments precede. */
  function SegmentFor(k: nat, s: string): Segment {
    if IsParam(s) then Segment(k, Name(s)) else Segment(-1, s)
  }

  /** The segments built from the first `n` pieces: one per non-empty piece. */
  function SegmentsUpTo(ps: seq<string>, n: nat): seq<Segment>
    requires n <= |ps|
  {
    if n == 0 then []
    else
      var before := SegmentsUpTo(ps, n - 1);
      if ps[n - 1] == [] then before else before + [SegmentFor(|before|, ps[n - 1])]
  }

  /**
   * The normalised path of the first `n` pieces: '/' and the piece for every
   * non-empty literal, '/' and `{p}` for a parameter that `p` parameters precede.
   */
  function NormalizedUpTo(ps: seq<string>, n: nat): string
    requires n <= |ps|
  {
    if n == 0 then ""
    else
      var before, s := NormalizedUpTo(ps, n - 1), ps[n - 1];
      if s == [] then before
      else if IsParam(s) then before + "/" + "{" + NatToString(Params(ps, n - 1)) + "}"
      else before + "/" + s
  }

  /** A path the constructor refuses with `IOException`: null, empty, or not starting with '/'. */
  predicate InvalidPath(path: Option<string>) {
    path.None? || |path.value| == 0 || path.value[0] != '/'
  }

  /** `new UriTemplate(path)`: the template, or the exception the constructor throws. */
  function TemplateOf(path: Option<string>): Result<UriTemplate> {
    if InvalidPath(path) then Err(IOException(InvalidUriPath))
    else
      var ps := Pieces(path.value, '/');
      if exists i :: 0 <= i < |ps| && Bad(ps, i) then Err(IllegalArgument)
      else Ok(UriTemplate(NormalizedUpTo(ps, |ps|), SegmentsUpTo(ps, |ps|), Params(ps, |ps|) > 0))
  }

  // ---------------------------------------------------------------------------
  // The constructor

  /** What one more non-empty piece adds to the pieces' counts, names, segments and normal form. */
  lemma PieceStep(ps: seq<string>, i: nat)
    requires i < |ps| && ps[i] != []
    ensures Params(ps, i + 1) == Params(ps, i) + (if IsParam(ps[i]) then 1 else 0)
    ensures NamesOf(ps, i + 1) == NamesOf(ps, i) + (if IsParam(ps[i]) then {Name(ps[i])} else {})
    ensures SegmentsUpTo(ps, i + 1) == SegmentsUpTo(ps, i) + [SegmentFor(|SegmentsUpTo(ps, i)|, ps[i])]
    ensures IsParam(ps[i]) ==> NormalizedUpTo(ps, i + 1) == NormalizedUpTo(ps, i) + "/" + "{" + NatToString(Params(ps, i)) + "}"
    ensures !IsParam(ps[i]) ==> NormalizedUpTo(ps, i + 1) == NormalizedUpTo(ps, i) + "/" + ps[i]
  {
  }

  /**
   * The constructor's loop: a path that is null, empty or not starting with '/'
   * throws `IOException`; otherwise the result is `TemplateOf(path)`.
   */
  method Parse(path: Option<string>) returns (r: Result<UriTemplate>)
    ensures r == TemplateOf(path)
    ensures r == Err(IOException(InvalidUriPath)) <==> InvalidPath(path)
    ensures r.Err? ==> r.error in {IOException(InvalidUriPath), IllegalArgument}
  {
    if path.None? || |path.value| == 0 || path.value[0] != '/' {
      return Err(IOException(InvalidUriPath));
    }
    var parts := Pieces(path.value, '/');
    var normalized := "";
    var paramNames: set<string> := {};
    var segments: seq<Segment> := [];
    var paramCount := 0;
    var segmentCount := 0;
    var i := 0;
    while i < |parts|
      invariant 0 <= i <= |parts|
      invariant forall j :: 0 <= j < i ==> !Bad(parts, j)
      invariant paramCount == Params(parts, i) && paramNames == NamesOf(parts, i)
      invariant segments == SegmentsUpTo(parts, i) && segmentCount == |segments|
      invariant normalized == NormalizedUpTo(parts, i)
    {
      var segment := parts[i];
      if |segment| == 0 {
        if i == 0 || (i == |parts| - 1 && paramCount == 0) {
          i := i + 1;
          continue;
        }
        assert Bad(parts, i);
        return Err(IllegalArgument);
      }
      PieceStep(parts, i);
      normalized := normalized + "/";
      var index := -1;
      if IsParam(segment) {
        index := segmentCount;
        segment := Name(segment);
        normalized := normalized + "{" + NatToString(paramCount) + "}";
        paramCount := paramCount + 1;
        if segment in paramNames {
          assert Bad(parts, i);
          return Err(IllegalArgument);
        }
        paramNames := paramNames + {segment};
      } else {
        if '{' in segment || '}' in segment {
          assert Bad(parts, i);
          return Err(IllegalArgument);
        }
        normalized := normalized + segment;
      }
      segments := segments + [Segment(index, segment)];
      segmentCount := segmentCount + 1;
      i := i + 1;
    }
    return Ok(UriTemplate(normalized, segments, paramCount > 0));
  }

  // ---------------------------------------------------------------------------
  // What a built template holds

  /** None of the first `n` pieces makes the constructor throw. */
  predicate Accepted(ps: seq<string>, n: nat)
    requires n <= |ps|
  {
    forall j :: 0 <= j < n ==> !Bad(ps, j)
  }

  /** A literal segment is non-empty and brace-free; a parameter's index is its position. */
  predicate ShapedAt(segs: seq<Segment>, k: nat)
    requires k < |segs|
  {
    if segs[k].parameterIndex == -1
    then segs[k].value != [] && '{' !in segs[k].value && '}' !in segs[k].value
    else segs[k].parameterIndex == k
  }

  /** The segments of accepted pieces are shaped as `ShapedAt` says. */
  lemma {:induction false} SegmentsShape(ps: seq<string>, n: nat)
    requires n <= |ps| && Accepted(ps, n)
    ensures forall k :: 0 <= k < |SegmentsUpTo(ps, n)| ==> ShapedAt(SegmentsUpTo(ps, n), k)
  {
    if n > 0 {
      SegmentsShape(ps, n - 1);
      if ps[n - 1] != [] {
        assert !Bad(ps, n - 1);
        var before, segs := SegmentsUpTo(ps, n - 1), SegmentsUpTo(ps, n);
        forall k | 0 <= k < |before|
          ensures ShapedAt(segs, k)
        {
          assert ShapedAt(before, k) && segs[k] == before[k];
        }
        assert ShapedAt(segs, |before|);
      }
    }
  }

  /** There are parameters among the first `n` pieces exactly when a segment is one. */
  lemma {:induction false} ParamsPositive(ps: seq<string>, n: nat)
    requires n <= |ps|
    ensures Params(ps, n) > 0 <==>
      exists k :: 0 <= k < |SegmentsUpTo(ps, n)| && SegmentsUpTo(ps, n)[k].parameterIndex != -1
  {
    if n > 0 {
      ParamsPositive(ps, n - 1);
      var before := SegmentsUpTo(ps, n - 1);
      var segs := SegmentsUpTo(ps, n);
      if ps[n - 1] != [] {
        assert segs[..|before|] == before;
        if IsParam(ps[n - 1]) {
          assert segs[|before|].parameterIndex == |before|;
        }
      }
    }
  }

  /** Every parameter segment of the first `n` pieces carries a name of `NamesOf(ps, n)`. */
  lemma {:induction false} SegmentNames(ps: seq<string>, n: nat)
    requires n <= |ps|
    ensures forall k :: 0 <= k < |SegmentsUpTo(ps, n)| && SegmentsUpTo(ps, n)[k].parameterIndex != -1 ==>
      SegmentsUpTo(ps, n)[k].value in NamesOf(ps, n)
  {
    if n > 0 {
      SegmentNames(ps, n - 1);
      var before := SegmentsUpTo(ps, n - 1);
      if ps[n - 1] != [] {
        var segs := SegmentsUpTo(ps, n);
        forall k | 0 <= k < |before|
          ensures segs[k] == before[k]
        {
        }
      }
    }
  }

  /** No two parameter segments carry the same name. */
  predicate DistinctNames(segs: seq<Segment>) {
    forall j, k ::
      0 <= j < k < |segs| && segs[j].parameterIndex != -1 && segs[k].parameterIndex != -1 ==>
        segs[j].value != segs[k].value
  }

  /** The parameters of accepted pieces have distinct names. */
  lemma {:induction false} NamesDistinct(ps: seq<string>, n: nat)
    requires n <= |ps| && Accepted(ps, n)
    ensures DistinctNames(SegmentsUpTo(ps, n))
  {
    if n > 0 {
      NamesDistinct(ps, n - 1);
      SegmentNames(ps, n - 1);
      var before := SegmentsUpTo(ps, n - 1);
      if ps[n - 1] != [] {
        assert !Bad(ps, n - 1);
        var segs := SegmentsUpTo(ps, n);
        forall k | 0 <= k < |before|
          ensures segs[k] == before[k]
        {
        }
      }
    }
  }

  /**
   * `hasParameters` is true exactly when some segment is a parameter, and the
   * segments are shaped as the pieces of the path say: a literal is its piece,
   * non-empty and without braces, with index -1; a parameter's index is its position.
   */
  lemma TemplateSegments(path: Option<string>, t: UriTemplate)
    requires TemplateOf(path) == Ok(t)
    ensures t.hasParameters <==> exists k :: 0 <= k < |t.segments| && t.segments[k].parameterIndex != -1
    ensures forall k :: 0 <= k < |t.segments| ==> ShapedAt(t.segments, k)
  {
    var ps := Pieces(path.value, '/');
    assert Accepted(ps, |ps|);
    assert t.segments == SegmentsUpTo(ps, |ps|) && t.hasParameters == (Params(ps, |ps|) > 0);
    SegmentsShape(ps, |ps|);
    ParamsPositive(ps, |ps|);
    if t.hasParameters {
      var k :| 0 <= k < |SegmentsUpTo(ps, |ps|)| && SegmentsUpTo(ps, |ps|)[k].parameterIndex != -1;
      assert t.segments[k].parameterIndex != -1;
    } else {
      forall k | 0 <= k < |t.segments|
        ensures t.segments[k].parameterIndex == -1
      {
        assert t.segments[k] == SegmentsUpTo(ps, |ps|)[k];
      }
    }
  }

  /** No two parameters of a built template carry the same name. */
  lemma ParamNamesDistinct(path: Option<string>, t: UriTemplate)
    requires TemplateOf(path) == Ok(t)
    ensures DistinctNames(t.segments)
  {
    var ps := Pieces(path.value, '/');
    assert Accepted(ps, |ps|);
    NamesDistinct(ps, |ps|);
  }

  /**
   * Without parameters the pieces are joined back: the normalised path of the first
   * `n` pieces is their '/'-join, as long as the pieces after the first are not empty.
   */
  lemma {:induction false} LiteralJoin(ps: seq<string>, n: nat)
    requires 1 <= n <= |ps| && ps[0] == []
    requires forall j :: 0 < j < n ==> ps[j] != [] && !IsParam(ps[j])
    ensures NormalizedUpTo(ps, n) == JoinWith(ps[..n], '/')
  {
    if n == 1 {
      assert ps[..1] == [ps[0]];
    } else {
      LiteralJoin(ps, n - 1);
      assert ps[..n] == ps[..n - 1] + [ps[n - 1]];
      JoinSnoc(ps[..n - 1], ps[n - 1], '/');
    }
  }

  /** No piece is a parameter when the count of parameters is zero. */
  lemma {:induction false} NoParamPiece(ps: seq<string>, n: nat, j: nat)
    requires j < n <= |ps| && Params(ps, n) == 0
    ensures !IsParam(ps[j])
  {
    if j < n - 1 {
      NoParamPiece(ps, n - 1, j);
    }
  }

  /** A path starting with '/' splits into an empty first piece and the rest. */
  lemma FirstPieceEmpty(p: string)
    requires |p| > 0 && p[0] == '/'
    ensures Pieces(p, '/')[0] == []
  {
    assert IndexOf(p, '/') == Some(0);
  }

  /** Accepted pieces without parameters: only the first and the last may be empty. */
  lemma LiteralPieces(ps: seq<string>)
    requires Accepted(ps, |ps|) && Params(ps, |ps|) == 0
    ensures forall j :: 0 < j < |ps| - 1 ==> ps[j] != []
    ensures forall j :: 0 <= j < |ps| ==> !IsParam(ps[j])
  {
    forall j | 0 < j < |ps| - 1
      ensures ps[j] != []
    {
      assert !Bad(ps, j);
    }
    forall j | 0 <= j < |ps|
      ensures !IsParam(ps[j])
    {
      NoParamPiece(ps, |ps|, j);
    }
  }

  /**
   * Normalising literal pieces rebuilds their '/'-join, except that an empty last
   * piece (a trailing '/') is dropped.
   */
  lemma LiteralPiecesJoin(ps: seq<string>)
    requires |ps| >= 1 && ps[0] == []
    requires forall j :: 0 < j < |ps| - 1 ==> ps[j] != []
    requires forall j :: 0 <= j < |ps| ==> !IsParam(ps[j])
    ensures NormalizedUpTo(ps, |ps|) == JoinWith(ps, '/') || NormalizedUpTo(ps, |ps|) + "/" == JoinWith(ps, '/')
  {
    var n := |ps|;
    if ps[n - 1] != [] {
      LiteralJoin(ps, n);
      assert ps[..n] == ps;
    } else if n > 1 {
      var init := ps[..n - 1];
      LiteralJoin(ps, n - 1);
      JoinSnoc(init, ps[n - 1], '/');
      SplitLast(ps);
    }
  }

  /**
   * The normalised path of a template without parameters is the path itself, with
   * a trailing '/' dropped.
   */
  lemma LiteralNormalized(path: Option<string>, t: UriTemplate)
    requires TemplateOf(path) == Ok(t) && !t.hasParameters
    ensures t.normalized == path.value || t.normalized + "/" == path.value
  {
    var ps := Pieces(path.value, '/');
    assert t.normalized == NormalizedUpTo(ps, |ps|) && Params(ps, |ps|) == 0;
    assert Accepted(ps, |ps|);
    FirstPieceEmpty(path.value);
    LiteralPieces(ps);
    JoinPieces(path.value, '/');
    LiteralPiecesJoin(ps);
  }

  // ---------------------------------------------------------------------------
  // Matching

  /** Every literal segment of the template equals the candidate's segment at its position. */
  predicate LiteralsAgree(ts: seq<Segment>, cs: seq<Segment>)
    requires |ts| == |cs|
  {
    forall k :: 0 <= k < |ts| && ts[k].parameterIndex == -1 ==> ts[k].value == cs[k].value
  }

  /**
   * The map `match` fills: each parameter's name bound to the candidate's segment
   * at its position, a later binding of the same name replacing an earlier one.
   */
  function Bindings(ts: seq<Segment>, cs: seq<Segment>, n: nat): map<string, string>
    requires n <= |ts| == |cs|
  {
    if n == 0 then map[]
    else
      var b := Bindings(ts, cs, n - 1);
      if ts[n - 1].parameterIndex == -1 then b else b[ts[n - 1].value := cs[n - 1].value]
  }

  /**
   * `match`: null (None) when the segment counts differ or a literal segment differs
   * from the candidate's; otherwise the parameter bindings.
   */
  method Match(t: UriTemplate, candidate: UriTemplate) returns (r: Option<map<string, string>>)
    ensures r.None? <==>
      |candidate.segments| != |t.segments| || !LiteralsAgree(t.segments, candidate.segments)
    ensures r.Some? ==> r.value == Bindings(t.segments, candidate.segments, |t.segments|)
  {
    if |candidate.segments| != |t.segments| {
      return None;
    }
    var result := map[];
    var i := 0;
    while i < |candidate.segments|
      invariant 0 <= i <= |t.segments|
      invariant forall k :: 0 <= k < i && t.segments[k].parameterIndex == -1 ==>
        t.segments[k].value == candidate.segments[k].value
      invariant result == Bindings(t.segments, candidate.segments, i)
    {
      var candidateSegment := candidate.segments[i];
      var targetSegment := t.segments[i];
      if targetSegment.parameterIndex == -1 {
        if targetSegment.value != candidateSegment.value {
          return None;
        }
      } else {
        result := result[targetSegment.value := candidateSegment.value];
      }
      i := i + 1;
    }
    return Some(result);
  }

  /** The names of the parameter segments among the first `n`. */
  function ParamNames(ts: seq<Segment>, n: nat): set<string>
    requires n <= |ts|
  {
    if n == 0 then {}
    else ParamNames(ts, n - 1) + (if ts[n - 1].parameterIndex == -1 then {} else {ts[n - 1].value})
  }

  /**
   * With distinct names, the bindings hold exactly the parameter names, each bound
   * to the candidate's segment at that parameter's position.
   */
  lemma {:induction false} BindingsOfDistinct(ts: seq<Segment>, cs: seq<Segment>, n: nat)
    requires n <= |ts| == |cs| && DistinctNames(ts)
    ensures Bindings(ts, cs, n).Keys == ParamNames(ts, n)
    ensures forall k :: 0 <= k < n && ts[k].parameterIndex != -1 ==>
      ts[k].value in Bindings(ts, cs, n) && Bindings(ts, cs, n)[ts[k].value] == cs[k].value
  {
    if n > 0 {
      BindingsOfDistinct(ts, cs, n - 1);

    }
  }

  /**
   * Matching a built template: when the candidate has as many segments, each
   * parameter name is bound to the candidate's segment at its position, and nothing
   * else is bound.
   */
  lemma MatchBindsParameters(path: Option<string>, t: UriTemplate, candidate: UriTemplate)
    requires TemplateOf(path) == Ok(t)
    requires |candidate.segments| == |t.segments|
    ensures Bindings(t.segments, candidate.segments, |t.segments|).Keys == ParamNames(t.segments, |t.segments|)
    ensures forall k :: 0 <= k < |t.segments| && t.segments[k].parameterIndex != -1 ==>
      && t.segments[k].value in Bindings(t.segments, candidate.segments, |t.segments|)
      && Bindings(t.segments, candidate.segments, |t.segments|)[t.segments[k].value] == candidate.segments[k].value
  {
    ParamNamesDistinct(path, t);
    BindingsOfDistinct(t.segments, candidate.segments, |t.segments|);
  }
}
