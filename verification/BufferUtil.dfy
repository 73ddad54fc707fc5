/**
 * `java.nio.ByteBuffer` reduced to what the HTTP classes use, and the
 * `BufferUtil` operations over it: line scanning, token scanning,
 * concatenation and remainder copy.
 */
module Buffers {
  import opened Wrappers
  import opened Text

  /**
   * A byte buffer: a fixed array (its length is the capacity) with a read/write
   * cursor `position`, an end `limit` and a `mark` (-1 when undefined).
   */
  class ByteBuf {
    var data: array<byte>
    var position: nat
    var limit: nat
    var mark: int

    /** `mark <= position <= limit <= capacity`, the `Buffer` invariant. */
    ghost predicate Valid()
      reads this
    {
      position <= limit <= data.Length && -1 <= mark <= position
    }

    function Capacity(): nat
      reads this
    {
      data.Length
    }

    /** The bytes between position and limit. */
    function Remaining(): seq<byte>
      reads this, data
      requires Valid()
    {
      data[position..limit]
    }

    /** `ByteBuffer.wrap(bytes)`: a buffer over a fresh array holding `bytes`. */
    constructor Wrap(bytes: seq<byte>)
      ensures Valid() && fresh(data)
      ensures data[..] == bytes && Remaining() == bytes
      ensures position == 0 && limit == |bytes| == Capacity() && mark == -1
    {
      data := new byte[|bytes|](i requires 0 <= i < |bytes| => bytes[i]);
      position, limit, mark := 0, |bytes|, -1;
    }

    /** `ByteBuffer.allocate(n)`: a zero-filled buffer, empty position, full limit. */
    constructor Allocate(n: nat)
      ensures Valid() && fresh(data)
      ensures data[..] == seq(n, _ => 0)
      ensures position == 0 && limit == n == Capacity() && mark == -1
    {
      data := new byte[n](_ => 0);
      position, limit, mark := 0, n, -1;
    }

    /** `get(byte[])` sized to `remaining()`: the remaining bytes, leaving position at limit. */
    method Drain() returns (bytes: seq<byte>)
      requires Valid()
      modifies this`position
      ensures Valid()
      ensures bytes == old(Remaining())
      ensures position == limit
    {
      bytes := data[position..limit];
      position := limit;
    }

    /** `flip()`: limit := position, position := 0, mark discarded. */
    method Flip()
      requires Valid()
      modifies this`position, this`limit, this`mark
      ensures Valid()
      ensures limit == old(position) && position == 0 && mark == -1
    {
      limit, position, mark := position, 0, -1;
    }

    /**
     * `put(src)`: copies the remaining bytes of `src` to this buffer at its position
     * and drains `src`. Java throws `BufferOverflowException` when they do not fit;
     * here a caller has to prove that they fit.
     */
    method Put(src: ByteBuf)
      requires Valid() && src.Valid() && src != this && src.data != data
      requires |src.Remaining()| <= limit - position
      modifies this`position, data, src`position
      ensures Valid() && src.Valid()
      ensures position == old(position) + |old(src.Remaining())|
      ensures data[..old(position)] == old(data[..position])
      ensures data[old(position)..position] == old(src.Remaining())
      ensures data[position..] == old(data[position + |src.Remaining()|..])
      ensures src.position == src.limit
    {
      var n := src.limit - src.position;
      var i := 0;
      while i < n
        invariant 0 <= i <= n
        invariant position == old(position) && src.position == old(src.position)
        invariant data[..old(position)] == old(data[..position])
        invariant data[old(position)..old(position) + i] == old(src.Remaining())[..i]
        invariant data[old(position) + n..] == old(data[position + n..])
        invariant src.data[..] == old(src.data[..])
      {
        data[position + i] := src.data[src.position + i];
        i := i + 1;
      }
      position := position + n;
      src.position := src.limit;
    }
  }

  /** No buffer occurs twice in `bs`. */
  ghost predicate Distinct(bs: seq<ByteBuf>) {
    forall i, j :: 0 <= i < j < |bs| ==> bs[i] != bs[j]
  }

  ghost predicate AllValid(bs: seq<ByteBuf>)
    reads bs
  {
    forall i :: 0 <= i < |bs| ==> bs[i].Valid()
  }

  /** The remaining bytes of every buffer of `bs`, in order. */
  ghost function Remainders(bs: seq<ByteBuf>): (r: seq<seq<byte>>)
    reads bs, set i | 0 <= i < |bs| :: bs[i].data
    requires AllValid(bs)
    ensures |r| == |bs|
    ensures forall i :: 0 <= i < |bs| ==> r[i] == bs[i].Remaining()
  {
    if |bs| == 0 then []
    else Remainders(bs[..|bs| - 1]) + [bs[|bs| - 1].Remaining()]
  }

  /** Appending a buffer appends its remaining bytes. */
  lemma RemaindersAppend(bs: seq<ByteBuf>, b: ByteBuf)
    requires AllValid(bs) && b.Valid()
    ensures AllValid(bs + [b])
    ensures Distinct(bs) && b !in bs ==> Distinct(bs + [b])
    ensures Remainders(bs + [b]) == Remainders(bs) + [b.Remaining()]
  {
    assert (bs + [b])[..|bs|] == bs;
  }

  /** `n` empty byte sequences. */
  function Empties(n: nat): (r: seq<seq<byte>>)
    ensures |r| == n && forall i :: 0 <= i < n ==> r[i] == []
  {
    seq(n, _ => [])
  }

  /** Buffers whose position reached their limit have nothing left. */
  lemma DrainedAreEmpty(bs: seq<ByteBuf>)
    requires AllValid(bs)
    requires forall j :: 0 <= j < |bs| ==> bs[j].position == bs[j].limit
    ensures forall j :: 0 <= j < |bs| ==> bs[j].Remaining() == []
  {
  }

  /** Drained buffers hold nothing. */
  lemma RemaindersEmpty(bs: seq<ByteBuf>)
    requires AllValid(bs)
    requires forall j :: 0 <= j < |bs| ==> bs[j].Remaining() == []
    ensures Remainders(bs) == Empties(|bs|)
  {
  }

  /** The positions of every buffer of `bs`, in order. */
  ghost function Positions(bs: seq<ByteBuf>): (r: seq<nat>)
    reads bs
    ensures |r| == |bs|
    ensures forall i :: 0 <= i < |bs| ==> r[i] == bs[i].position
  {
    seq(|bs|, i requires 0 <= i < |bs| reads bs => bs[i].position)
  }

  /** The array, limit and mark of every buffer of `bs`, in order. */
  ghost function Layout(bs: seq<ByteBuf>): (r: seq<(array<byte>, nat, int)>)
    reads bs
    ensures |r| == |bs|
    ensures forall i :: 0 <= i < |bs| ==> r[i] == (bs[i].data, bs[i].limit, bs[i].mark)
  {
    seq(|bs|, i requires 0 <= i < |bs| reads bs => (bs[i].data, bs[i].limit, bs[i].mark))
  }

  /** Between the two states, only the positions of `bs` may have moved. */
  twostate predicate OnlyPositionsMoved(bs: seq<ByteBuf>)
    reads bs
  {
    Layout(bs) == old(Layout(bs))
  }

  /** Buffers none of whose fields or bytes changed keep their remainders. */
  twostate lemma RemaindersUnchanged(bs: seq<ByteBuf>)
    requires old(AllValid(bs)) && OnlyPositionsMoved(bs)
    requires forall j :: 0 <= j < |bs| ==> bs[j].position == old(bs[j].position)
    requires forall j :: 0 <= j < |bs| ==> bs[j].data[..] == old(bs[j].data[..])
    ensures AllValid(bs) && Remainders(bs) == old(Remainders(bs))
  {
    forall j | 0 <= j < |bs|
      ensures bs[j].Valid() && bs[j].Remaining() == old(bs[j].Remaining())
    {
      assert Layout(bs)[j] == old(Layout(bs))[j];
      RemainingAfterMove(bs[j]);
    }
  }

  /** Buffers whose arrays, limits and marks are the old ones kept their layout. */
  twostate lemma KeptLayout(bs: seq<ByteBuf>)
    requires forall j :: 0 <= j < |bs| ==>
      bs[j].data == old(bs[j].data) && bs[j].limit == old(bs[j].limit) && bs[j].mark == old(bs[j].mark)
    ensures OnlyPositionsMoved(bs)
  {
  }

  /** Moving a buffer's position forward drops the bytes it passed. */
  twostate lemma RemainingAfterMove(b: ByteBuf)
    requires old(b.Valid()) && b.Valid() && old(b.position) <= b.position
    requires b.data == old(b.data) && b.data[..] == old(b.data[..]) && b.limit == old(b.limit)
    ensures b.Remaining() == old(b.Remaining())[b.position - old(b.position)..]
  {
    assert b.Remaining() == b.data[..][b.position..b.limit];
    assert old(b.Remaining()) == old(b.data[..])[old(b.position)..b.limit];
  }

  /** The concatenation of `ss`, in order. */
  function Concat(ss: seq<seq<byte>>): seq<byte> {
    if |ss| == 0 then [] else Concat(ss[..|ss| - 1]) + ss[|ss| - 1]
  }

  /** The concatenation of the first `n` sequences of `ss`. */
  function ConcatUpTo(ss: seq<seq<byte>>, n: nat): seq<byte>
    requires n <= |ss|
  {
    if n == 0 then [] else ConcatUpTo(ss, n - 1) + ss[n - 1]
  }

  lemma {:induction false} ConcatUpToPrefix(ss: seq<seq<byte>>, n: nat)
    requires n <= |ss|
    ensures ConcatUpTo(ss, n) == Concat(ss[..n])
  {
    if n > 0 {
      ConcatUpToPrefix(ss, n - 1);
      assert ss[..n][..n - 1] == ss[..n - 1];
    }
  }

  lemma ConcatUpToAll(ss: seq<seq<byte>>)
    ensures ConcatUpTo(ss, |ss|) == Concat(ss)
  {
    ConcatUpToPrefix(ss, |ss|);
    assert ss[..|ss|] == ss;
  }

  lemma {:induction false} ConcatLength(ss: seq<seq<byte>>, total: nat)
    requires total == SumLengths(ss)
    ensures |Concat(ss)| == total
  {
    if |ss| > 0 {
      ConcatLength(ss[..|ss| - 1], SumLengths(ss[..|ss| - 1]));
    }
  }

  function SumLengths(ss: seq<seq<byte>>): nat {
    if |ss| == 0 then 0 else SumLengths(ss[..|ss| - 1]) + |ss[|ss| - 1]|
  }

  /** Concatenation distributes over appending sequences of chunks. */
  lemma {:induction false} ConcatAppend(a: seq<seq<byte>>, b: seq<seq<byte>>)
    ensures Concat(a + b) == Concat(a) + Concat(b)
    decreases |b|
  {
    if |b| == 0 {
      assert a + b == a;
    } else {
      var init, last := b[..|b| - 1], b[|b| - 1];
      calc {
        Concat(a + b);
        { assert (a + b)[..|a + b| - 1] == a + init && (a + b)[|a + b| - 1] == last; }
        Concat(a + init) + last;
        { ConcatAppend(a, init); }
        Concat(a) + Concat(init) + last;
        Concat(a) + Concat(b);
      }
    }
  }

  // ---------------------------------------------------------------------------
  // readLine

  /**
   * The length of the first line of `s` including its '\n' terminator,
   * or None when `s` holds no '\n'.
   */
  function LineEnd(s: seq<byte>): (r: Option<nat>)
    ensures r.Some? ==> 0 < r.value <= |s| && s[r.value - 1] == NL
    ensures r.Some? ==> forall i :: 0 <= i < r.value - 1 ==> s[i] != NL
    ensures r.None? ==> forall i :: 0 <= i < |s| ==> s[i] != NL
  {
    if |s| == 0 then None
    else if s[0] == NL then Some(1)
    else match LineEnd(s[1..])
      case None => None
      case Some(k) => Some(k + 1)
  }

  /** A '\n' at `j` with none before it fixes the line end at `j + 1`. */
  lemma LineEndAt(s: seq<byte>, j: nat)
    requires j < |s| && s[j] == NL
    requires forall i :: 0 <= i < j ==> s[i] != NL
    ensures LineEnd(s) == Some(j + 1)
  {
  }

  /**
   * `BufferUtil.readLine`: reads up to and including the first '\n' after the
   * position and returns those bytes as text; returns None when no '\n' is left,
   * after reading everything up to the limit (nothing is rolled back).
   */
  method ReadLine(buffer: ByteBuf) returns (line: Option<string>)
    requires buffer.Valid()
    modifies buffer`position
    ensures buffer.Valid() && buffer.position >= old(buffer.position)
    ensures buffer.Remaining() == old(buffer.Remaining())[buffer.position - old(buffer.position)..]
    ensures match LineEnd(old(buffer.Remaining()))
      case Some(k) =>
        && line == Some(Decode(old(buffer.Remaining())[..k]))
        && buffer.position == old(buffer.position) + k
      case None =>
        line == None && buffer.position == buffer.limit
  {
    ghost var start := buffer.position;
    ghost var rest := buffer.Remaining();
    var bos: seq<byte> := [];
    while buffer.position < buffer.limit
      invariant start <= buffer.position <= buffer.limit
      invariant bos == buffer.data[start..buffer.position] == rest[..buffer.position - start]
      invariant forall i :: 0 <= i < |bos| ==> bos[i] != NL
    {
      var cur := buffer.data[buffer.position];
      buffer.position := buffer.position + 1;
      bos := bos + [cur];
      if cur == NL {
        assert bos == rest[..|bos|];
        LineEndAt(rest, |bos| - 1);
        return Some(Decode(bos));
      }
    }
    assert bos == rest;
    line := None;
  }

  // ---------------------------------------------------------------------------
  // readNextToken

  predicate EndsWith(s: string, t: string) {
    |t| <= |s| && s[|s| - |t|..] == t
  }

  /**
   * The shortest prefix length `k`, at least `from`, such that the first `k` bytes of `s`
   * decode to text ending with `token`; None when there is none.
   */
  function TokenEnd(s: seq<byte>, token: string, from: nat): (r: Option<nat>)
    requires 1 <= from
    ensures r.Some? ==> from <= r.value <= |s| && EndsWith(Decode(s[..r.value]), token)
    ensures r.Some? ==> forall k :: from <= k < r.value ==> !EndsWith(Decode(s[..k]), token)
    ensures r.None? ==> forall k :: from <= k <= |s| ==> !EndsWith(Decode(s[..k]), token)
    decreases |s| - from
  {
    if from > |s| then None
    else if EndsWith(Decode(s[..from]), token) then Some(from)
    else TokenEnd(s, token, from + 1)
  }

  /** No prefix of `s` of length 1 to `n` decodes to text ending with `token`. */
  ghost predicate NoTokenUpTo(s: seq<byte>, token: string, n: nat) {
    forall k :: 1 <= k <= n && k <= |s| ==> !EndsWith(Decode(s[..k]), token)
  }

  /** A match at `j` with none before it fixes the token end at `j`. */
  lemma TokenEndAt(s: seq<byte>, token: string, j: nat)
    requires 1 <= j <= |s| && EndsWith(Decode(s[..j]), token)
    requires NoTokenUpTo(s, token, j - 1)
    ensures TokenEnd(s, token, 1) == Some(j)
  {
  }

  /**
   * `BufferUtil.readNextToken`: marks the position, then reads byte by byte until the
   * text read so far ends with `token` and returns that text without the token. On
   * exhaustion returns None with position at the limit; the mark still holds the start.
   */
  method ReadNextToken(buffer: ByteBuf, token: string) returns (r: Option<string>)
    requires buffer.Valid()
    modifies buffer`position, buffer`mark
    ensures buffer.Valid()
    ensures buffer.mark == old(buffer.position)
    ensures match TokenEnd(old(buffer.Remaining()), token, 1)
      case Some(k) =>
        && |token| <= k
        && r == Some(Decode(old(buffer.Remaining())[..k - |token|]))
        && buffer.position == old(buffer.position) + k
      case None =>
        r == None && buffer.position == buffer.limit
  {
    ghost var rest := buffer.Remaining();
    var start := buffer.position;
    buffer.mark := buffer.position;
    var bos: seq<byte> := [];
    while buffer.position < buffer.limit
      invariant buffer.Valid() && buffer.mark == start
      invariant buffer.position == start + |bos| && |rest| == buffer.limit - start
      invariant bos == rest[..|bos|]
      invariant NoTokenUpTo(rest, token, |bos|)
    {
      var cur := buffer.data[buffer.position];
      assert cur == rest[|bos|];
      assert bos + [cur] == rest[..|bos| + 1];
      buffer.position := buffer.position + 1;
      bos := bos + [cur];
      var str := Decode(bos);
      if EndsWith(str, token) {
        TokenFound(rest, token, bos);
        return Some(str[..|str| - |token|]);
      }
      NoTokenStep(rest, token, bos);
    }
    assert bos == rest;
    NoTokenEnd(rest, token);
    r := None;
  }

  /** The first prefix whose text ends with `token` is where the token ends. */
  lemma TokenFound(s: seq<byte>, token: string, bos: seq<byte>)
    requires 1 <= |bos| <= |s| && bos == s[..|bos|]
    requires EndsWith(Decode(bos), token) && NoTokenUpTo(s, token, |bos| - 1)
    ensures TokenEnd(s, token, 1) == Some(|bos|) && |token| <= |bos|
    ensures Decode(bos)[..|bos| - |token|] == Decode(s[..|bos| - |token|])
  {
    var n := |bos| - |token|;
    assert bos[..n] == s[..n];
    DecodePrefix(bos, n);
    TokenEndAt(s, token, |bos|);
  }

  /** One more prefix without the token. */
  lemma NoTokenStep(s: seq<byte>, token: string, bos: seq<byte>)
    requires 1 <= |bos| <= |s| && bos == s[..|bos|]
    requires !EndsWith(Decode(bos), token) && NoTokenUpTo(s, token, |bos| - 1)
    ensures NoTokenUpTo(s, token, |bos|)
  {
  }

  /** No prefix of `s` ends with the token: there is no token end. */
  lemma NoTokenEnd(s: seq<byte>, token: string)
    requires NoTokenUpTo(s, token, |s|)
    ensures TokenEnd(s, token, 1) == None
  {
  }

  /** Decoding commutes with taking a prefix. */
  lemma DecodePrefix(bs: seq<byte>, n: nat)
    requires n <= |bs|
    ensures Decode(bs)[..n] == Decode(bs[..n])
  {
  }

  // ---------------------------------------------------------------------------
  // combineBuffers and copyRemainingBuffer

  /** One step of `combineBuffers`: drains the `i`-th buffer, whose bytes are `rems[i]`. */
  method DrainAt(bs: seq<ByteBuf>, i: nat, ghost rems: seq<seq<byte>>) returns (bytes: seq<byte>)
    requires AllValid(bs) && Distinct(bs) && i < |bs| == |rems|
    requires forall j :: 0 <= j < i ==> bs[j].position == bs[j].limit
    requires forall j :: i <= j < |bs| ==> bs[j].Remaining() == rems[j]
    modifies {bs[i]}`position
    ensures AllValid(bs) && bytes == rems[i]
    ensures forall j :: 0 <= j < i + 1 ==> bs[j].position == bs[j].limit
    ensures forall j :: i + 1 <= j < |bs| ==> bs[j].Remaining() == rems[j]
  {
    bytes := bs[i].Drain();
  }

  /** Drains every buffer of `bs` in order, returning the bytes read. */
  method DrainAll(bs: seq<ByteBuf>, ghost rems: seq<seq<byte>>) returns (bos: seq<byte>)
    requires AllValid(bs) && Distinct(bs) && Remainders(bs) == rems
    modifies bs`position
    ensures AllValid(bs) && bos == Concat(rems)
    ensures forall j :: 0 <= j < |bs| ==> bs[j].position == bs[j].limit
  {
    bos := [];
    for i := 0 to |bs|
      invariant AllValid(bs) && bos == ConcatUpTo(rems, i)
      invariant forall j :: 0 <= j < i ==> bs[j].position == bs[j].limit
      invariant forall j :: i <= j < |bs| ==> bs[j].Remaining() == rems[j]
    {
      var bytes := DrainAt(bs, i, rems);
      assert bos + bytes == ConcatUpTo(rems, i + 1);
      bos := bos + bytes;
    }
    ConcatUpToAll(rems);
  }

  /**
   * `BufferUtil.combineBuffers` (all three overloads): a fresh buffer holding the
   * remaining bytes of every input, in input order, with position 0 and
   * limit == capacity == total length; every input is left drained.
   */
  method CombineBuffers(buffers: seq<ByteBuf>) returns (r: ByteBuf)
    requires AllValid(buffers) && Distinct(buffers)
    modifies buffers`position
    ensures fresh(r) && fresh(r.data) && r.Valid()
    ensures r.data[..] == Concat(old(Remainders(buffers)))
    ensures r.position == 0 && r.limit == r.Capacity() && r.mark == -1
    ensures AllValid(buffers) && OnlyPositionsMoved(buffers)
    ensures forall i :: 0 <= i < |buffers| ==> buffers[i].position == buffers[i].limit
  {
    ghost var rems := Remainders(buffers);
    var bos := DrainAll(buffers, rems);
    KeptLayout(buffers);
    r := new ByteBuf.Wrap(bos);
  }

  /**
   * `BufferUtil.copyRemainingBuffer`: a fresh buffer holding exactly the remaining
   * bytes of `buffer` (position 0, capacity == their count); `buffer` is drained.
   */
  method CopyRemainingBuffer(buffer: ByteBuf) returns (r: ByteBuf)
    requires buffer.Valid()
    modifies buffer`position
    ensures fresh(r) && fresh(r.data) && r.Valid() && buffer.Valid()
    ensures r.data[..] == old(buffer.Remaining())
    ensures r.position == 0 && r.limit == r.Capacity() && r.mark == -1
    ensures buffer.position == buffer.limit
  {
    var bytes := buffer.Drain();
    r := new ByteBuf.Wrap(bytes);
  }
}
