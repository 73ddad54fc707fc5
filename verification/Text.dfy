/**
 * The text primitives the HTTP classes use, restricted to ASCII:
 * byte <-> char decoding, `strip`/`isBlank`, `indexOf`, `String.split`,
 * `Integer.parseInt` and decimal formatting of integers.
 */
module Text {
  import opened Wrappers

  /** An octet, as stored in a `ByteBuffer`. */
  newtype byte = b: int | 0 <= b < 256

  /** The line terminator `readLine` looks for. */
  const NL: byte := 10

  const CRLF: string := "\r\n"

  /** The bounds of a Java `int`. */
  const MinInt: int := -0x8000_0000
  const MaxInt: int := 0x7FFF_FFFF

  // ---------------------------------------------------------------------------
  // Bytes and characters

  /** ASCII decoding: every byte stands for the character with the same code. */
  function CharOf(b: byte): char {
    (b as int) as char
  }

  function Decode(bs: seq<byte>): (s: string)
    ensures |s| == |bs|
  {
    seq(|bs|, i requires 0 <= i < |bs| => CharOf(bs[i]))
  }

  /** True when every character of `s` fits in one byte. */
  predicate IsLatin1(s: string) {
    forall i :: 0 <= i < |s| ==> s[i] as int < 256
  }

  /** True when every character of `s` is ASCII, which `getBytes` and the ASCII charset keep as it is. */
  predicate IsAscii(s: string) {
    forall i :: 0 <= i < |s| ==> s[i] as int < 128
  }

  lemma AsciiAppend(a: string, b: string)
    requires IsAscii(a) && IsAscii(b)
    ensures IsAscii(a + b) && IsLatin1(a + b)
  {
  }

  /** The bytes of a one-byte-per-character string; the inverse of `Decode`. */
  function Encode(s: string): (bs: seq<byte>)
    requires IsLatin1(s)
    ensures |bs| == |s|
    ensures Decode(bs) == s
  {
    seq(|s|, i requires 0 <= i < |s| => (s[i] as int) as byte)
  }

  lemma DecodeAppend(a: seq<byte>, b: seq<byte>)
    ensures Decode(a + b) == Decode(a) + Decode(b)
  {
  }

  lemma EncodeAppend(a: string, b: string)
    requires IsLatin1(a) && IsLatin1(b)
    ensures IsLatin1(a + b)
    ensures Encode(a + b) == Encode(a) + Encode(b)
  {
  }

  // ---------------------------------------------------------------------------
  // Whitespace: `Character.isWhitespace` on the ASCII range

  predicate IsWhitespace(c: char) {
    (9 <= c as int <= 13) || (28 <= c as int <= 32)
  }

  /** `String.isBlank`. */
  predicate IsBlank(s: string) {
    forall i :: 0 <= i < |s| ==> IsWhitespace(s[i])
  }

  /** The number of whitespace characters `s` starts with. */
  function LeadingWhitespace(s: string): (n: nat)
    ensures n <= |s|
  {
    if |s| == 0 || !IsWhitespace(s[0]) then 0 else 1 + LeadingWhitespace(s[1..])
  }

  /** The number of whitespace characters `s` ends with. */
  function TrailingWhitespace(s: string): (n: nat)
    ensures n <= |s|
  {
    if |s| == 0 || !IsWhitespace(s[|s| - 1]) then 0 else 1 + TrailingWhitespace(s[..|s| - 1])
  }

  function StripLeading(s: string): string {
    s[LeadingWhitespace(s)..]
  }

  function StripTrailing(s: string): string {
    s[..|s| - TrailingWhitespace(s)]
  }

  /** `String.strip`: drop leading and trailing whitespace. */
  function Strip(s: string): (r: string)
    ensures |r| <= |s|
  {
    StripTrailing(StripLeading(s))
  }

  /** A string with no whitespace at either end is its own strip. */
  lemma StripOfTrimmed(s: string)
    requires |s| > 0 ==> !IsWhitespace(s[0]) && !IsWhitespace(s[|s| - 1])
    ensures Strip(s) == s
  {
  }

  /** Stripping `s` followed by trailing whitespace gives `s`, when `s` is itself trimmed. */
  lemma StripTrailingWhitespace(s: string, ws: string)
    requires |s| > 0 && !IsWhitespace(s[0]) && !IsWhitespace(s[|s| - 1])
    requires IsBlank(ws)
    ensures Strip(s + ws) == s
  {
    assert StripLeading(s + ws) == s + ws;
    StripTrailingAppend(s, ws);
  }

  lemma {:induction false} StripTrailingAppend(s: string, ws: string)
    requires |s| > 0 && !IsWhitespace(s[|s| - 1])
    requires IsBlank(ws)
    ensures StripTrailing(s + ws) == s
    decreases |ws|
  {
    if |ws| == 0 {
      assert s + ws == s;
    } else {
      var ws' := ws[..|ws| - 1];
      assert (s + ws)[..|s + ws| - 1] == s + ws';
      StripTrailingAppend(s, ws');
    }
  }

  // ---------------------------------------------------------------------------
  // Searching and splitting

  /** `String.indexOf(c)`: the first position of `c`, or None. */
  function IndexOf(s: string, c: char): (r: Option<nat>)
    ensures r.Some? ==> r.value < |s| && s[r.value] == c && c !in s[..r.value]
    ensures r.None? <==> c !in s
  {
    if |s| == 0 then None
    else if s[0] == c then Some(0)
    else match IndexOf(s[1..], c)
      case None => None
      case Some(k) =>
        assert s[..k + 1] == [s[0]] + s[1..][..k];
        Some(k + 1)
  }

  /** The pieces of `s` between occurrences of `c`, empty pieces included (`split(c, -1)`). */
  function Pieces(s: string, c: char): (ps: seq<string>)
    ensures |ps| >= 1
    ensures forall k :: 0 <= k < |ps| ==> c !in ps[k]
    ensures c !in s <==> |ps| == 1
    decreases |s|
  {
    match IndexOf(s, c)
    case None => [s]
    case Some(i) => [s[..i]] + Pieces(s[i + 1..], c)
  }

  /** The pieces joined back together with `c` between neighbours. */
  function JoinWith(ps: seq<string>, c: char): string
    decreases |ps|
  {
    if |ps| == 0 then ""
    else if |ps| == 1 then ps[0]
    else ps[0] + [c] + JoinWith(ps[1..], c)
  }

  function DropTrailingEmpty(ps: seq<string>): (r: seq<string>)
    ensures |r| <= |ps| && r == ps[..|r|]
    ensures |r| > 0 ==> r[|r| - 1] != []
    ensures forall k :: |r| <= k < |ps| ==> ps[k] == []
  {
    if |ps| > 0 && ps[|ps| - 1] == [] then DropTrailingEmpty(ps[..|ps| - 1]) else ps
  }

  /**
   * `String.split` with a one-character pattern and no limit: the whole string
   * when `c` does not occur, otherwise the pieces with trailing empty ones removed.
   */
  function Split(s: string, c: char): (r: seq<string>)
    ensures forall k :: 0 <= k < |r| ==> c !in r[k]
  {
    if c !in s then [s] else DropTrailingEmpty(Pieces(s, c))
  }

  lemma JoinCons(x: string, rest: seq<string>, c: char)
    requires |rest| >= 1
    ensures JoinWith([x] + rest, c) == x + [c] + JoinWith(rest, c)
  {
    assert ([x] + rest)[1..] == rest;
  }

  /** Joining with one more piece at the end adds the separator and that piece. */
  lemma {:induction false} JoinSnoc(ps: seq<string>, x: string, c: char)
    requires |ps| >= 1
    ensures JoinWith(ps + [x], c) == JoinWith(ps, c) + [c] + x
    decreases |ps|
  {
    if |ps| > 1 {
      JoinSnoc(ps[1..], x, c);
      assert (ps + [x])[1..] == ps[1..] + [x];
    }
  }

  /** A sequence is the part before `i`, its `i`-th element and the part after. */
  lemma SplitLast<T>(s: seq<T>)
    requires |s| > 0
    ensures s[..|s| - 1] + [s[|s| - 1]] == s
  {
  }

  lemma SplitAround<T>(s: seq<T>, i: nat)
    requires i < |s|
    ensures s[..i] + [s[i]] + s[i + 1..] == s
  {
  }

  /** Splitting is undone by joining: no character is lost or moved. */
  lemma {:induction false} JoinPieces(s: string, c: char)
    ensures JoinWith(Pieces(s, c), c) == s
    decreases |s|
  {
    var idx := IndexOf(s, c);
    if idx.Some? {
      var i := idx.value;
      var head, tail := s[..i], s[i + 1..];
      var rest := Pieces(tail, c);
      assert Pieces(s, c) == [head] + rest;
      calc {
        JoinWith(Pieces(s, c), c);
        JoinWith([head] + rest, c);
        { JoinCons(head, rest, c); }
        head + [c] + JoinWith(rest, c);
        { JoinPieces(tail, c); }
        head + [c] + tail;
        { SplitAround(s, i); }
        s;
      }
    } else {
      assert Pieces(s, c) == [s];
    }
  }

  /** The first `c` in `a + [c] + b` is the one after `a`, when `a` holds none. */
  lemma IndexOfAfter(a: string, c: char, b: string)
    requires c !in a
    ensures IndexOf(a + [c] + b, c) == Some(|a|)
  {
    var s := a + [c] + b;
    assert s[|a|] == c;
  }

  /** Joining pieces that do not contain `c` and splitting again gives the pieces back. */
  lemma {:induction false} PiecesOfJoin(ts: seq<string>, c: char)
    requires |ts| >= 1
    requires forall k :: 0 <= k < |ts| ==> c !in ts[k]
    ensures Pieces(JoinWith(ts, c), c) == ts
    decreases |ts|
  {
    if |ts| > 1 {
      var tail := JoinWith(ts[1..], c);
      var s := ts[0] + [c] + tail;
      assert JoinWith(ts, c) == s;
      IndexOfAfter(ts[0], c, tail);
      assert s[..|ts[0]|] == ts[0];
      assert s[|ts[0]| + 1..] == tail;
      PiecesOfJoin(ts[1..], c);
      assert Pieces(s, c) == [ts[0]] + Pieces(tail, c);
      assert ts == [ts[0]] + ts[1..];
    }
  }

  /** `split` returns the joined tokens when none contains `c` and the last is not empty. */
  lemma SplitOfJoin(ts: seq<string>, c: char)
    requires |ts| >= 1
    requires forall k :: 0 <= k < |ts| ==> c !in ts[k]
    requires |ts| > 1 ==> ts[|ts| - 1] != []
    ensures Split(JoinWith(ts, c), c) == ts
  {
    PiecesOfJoin(ts, c);
  }

  /** A non-empty piece of text without spaces. */
  predicate IsToken(t: string) {
    |t| > 0 && ' ' !in t
  }

  /** Visible ASCII characters and spaces. */
  predicate IsPrintable(s: string) {
    forall i :: 0 <= i < |s| ==> 32 <= s[i] as int < 127
  }

  lemma PrintableAppend(a: string, b: string)
    requires IsPrintable(a) && IsPrintable(b)
    ensures IsPrintable(a + b)
  {
  }

  /** A word of visible ASCII characters: no space, no control character. */
  predicate IsWord(t: string) {
    |t| > 0 && forall i :: 0 <= i < |t| ==> 33 <= t[i] as int < 127
  }

  /** Three tokens joined by single spaces split back into those tokens. */
  lemma SplitTokens(a: string, b: string, c: string)
    requires IsToken(a) && IsToken(b) && IsToken(c)
    ensures Split(a + " " + b + " " + c, ' ') == [a, b, c]
  {
    JoinCons(a, [b, c], ' ');
    JoinCons(b, [c], ' ');
    assert JoinWith([a, b, c], ' ') == a + " " + b + " " + c;
    SplitOfJoin([a, b, c], ' ');
  }

  /** The first piece ends at the first separator. */
  lemma PiecesCons(a: string, c: char, tail: string)
    requires c !in a
    ensures Pieces(a + [c] + tail, c) == [a] + Pieces(tail, c)
  {
    var s := a + [c] + tail;
    IndexOfAfter(a, c, tail);
    assert s[..|a|] == a && s[|a| + 1..] == tail;
  }

  /** The first two tokens of a line split on spaces, whatever follows them. */
  lemma SplitLeadingTokens(a: string, b: string, rest: string)
    requires IsToken(a) && IsToken(b)
    ensures var parts := Split(a + " " + b + " " + rest, ' ');
      |parts| >= 2 && parts[0] == a && parts[1] == b
  {
    var tail := b + [' '] + rest;
    assert a + " " + b + " " + rest == a + [' '] + tail;
    PiecesCons(a, ' ', tail);
    PiecesCons(b, ' ', rest);
    var ps := Pieces(a + [' '] + tail, ' ');
    assert ps[0] == a && ps[1] == b;
  }

  // ---------------------------------------------------------------------------
  // Decimal integers

  predicate IsDigit(c: char) {
    '0' <= c <= '9'
  }

  predicate AllDigits(s: string) {
    forall i :: 0 <= i < |s| ==> IsDigit(s[i])
  }

  function DigitChar(d: nat): (c: char)
    requires d < 10
    ensures IsDigit(c)
  {
    ('0' as int + d) as char
  }

  /** The value of a string of decimal digits. */
  function DigitsValue(s: string): nat
    requires AllDigits(s)
  {
    if |s| == 0 then 0 else DigitsValue(s[..|s| - 1]) * 10 + (s[|s| - 1] as int - '0' as int)
  }

  /** `Integer.toString` of a non-negative value: its decimal digits, read back by `DigitsValue`. */
  function NatToString(n: nat): (s: string)
    ensures 1 <= |s| && AllDigits(s)
    ensures DigitsValue(s) == n
  {
    if n < 10 then [DigitChar(n)]
    else
      var s := NatToString(n / 10) + [DigitChar(n % 10)];
      assert s[..|s| - 1] == NatToString(n / 10);
      s
  }

  /**
   * `Integer.parseInt` (and `Integer.valueOf`) in base 10: an optional sign and
   * at least one digit, with a value that fits in an `int`.
   */
  function ParseInt(s: string): (r: Result<int>)
    ensures r.Ok? ==> MinInt <= r.value <= MaxInt
    ensures r.Err? ==> r.error == NumberFormat
  {
    if |s| == 0 then Err(NumberFormat)
    else
      var digits := if s[0] == '-' || s[0] == '+' then s[1..] else s;
      if |digits| == 0 || !AllDigits(digits) then Err(NumberFormat)
      else
        var v: int := if s[0] == '-' then -(DigitsValue(digits) as int) else DigitsValue(digits);
        if MinInt <= v <= MaxInt then Ok(v) else Err(NumberFormat)
  }

  /** Formatting a non-negative `int` and parsing it again gives the number back. */
  lemma ParseIntOfNatToString(n: nat)
    requires n <= MaxInt
    ensures ParseInt(NatToString(n)) == Ok(n)
  {
    var s := NatToString(n);
    assert IsDigit(s[0]);
  }

  /** A string holding no digit at all never parses. */
  lemma ParseIntNeedsDigit(s: string)
    requires forall i :: 0 <= i < |s| ==> !IsDigit(s[i])
    ensures ParseInt(s).Err?
  {
    if |s| > 0 {
      var digits := if s[0] == '-' || s[0] == '+' then s[1..] else s;
      if |digits| > 0 {
        assert !IsDigit(digits[0]);
      }
    }
  }

  // ---------------------------------------------------------------------------
  // Case

  function UpperChar(c: char): char {
    if 'a' <= c <= 'z' then (c as int - 32) as char else c
  }

  /** `String.toUpperCase` on ASCII letters. */
  function ToUpper(s: string): (r: string)
    ensures |r| == |s|
    ensures forall i :: 0 <= i < |s| ==> r[i] == UpperChar(s[i])
  {
    seq(|s|, i requires 0 <= i < |s| => UpperChar(s[i]))
  }
}
