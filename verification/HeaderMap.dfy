/**
 * The `Headers` collaborator of the HTTP classes, as a value: header names in
 * first-insertion order, each with the values added under it, in order.
 * Only the operations the modelled classes call are given: `add`, `getFirst`
 * and the iteration that writes the head of a message.
 */
module HeaderMap {
  import opened Wrappers
  import opened Text

  /** One header name and every value added under it. */
  datatype Entry = Entry(name: string, values: seq<string>)

  /** The entries, in the order their names were first added. */
  type Headers = seq<Entry>

  /** `Headers.HOST`. */
  const HOST: string := "Host"

  /** No two entries share a name and every entry holds at least one value. */
  predicate WellFormed(h: Headers) {
    && (forall i, j :: 0 <= i < j < |h| ==> h[i].name != h[j].name)
    && (forall i :: 0 <= i < |h| ==> |h[i].values| > 0)
  }

  /** The index of the entry named `name`, if any. */
  function Find(h: Headers, name: string): (r: Option<nat>)
    ensures r.Some? ==> r.value < |h| && h[r.value].name == name
    ensures r.Some? ==> forall j :: 0 <= j < r.value ==> h[j].name != name
    ensures r.None? <==> forall j :: 0 <= j < |h| ==> h[j].name != name
  {
    if |h| == 0 then None
    else if h[0].name == name then Some(0)
    else match Find(h[1..], name)
      case None => None
      case Some(i) => Some(i + 1)
  }

  /** Every value stored under `name`, in insertion order (empty when the name is absent). */
  function ValuesOf(h: Headers, name: string): seq<string> {
    match Find(h, name)
    case None => []
    case Some(i) => h[i].values
  }

  /** The names, in order. */
  function Names(h: Headers): (ns: seq<string>)
    ensures |ns| == |h| && forall i :: 0 <= i < |h| ==> ns[i] == h[i].name
  {
    seq(|h|, i requires 0 <= i < |h| => h[i].name)
  }

  /** `Headers.add(name, value)`: appends `value` to the values of `name`, adding the name last when new. */
  function Add(h: Headers, name: string, value: string): (r: Headers)
    ensures Find(h, name).Some? ==> Names(r) == Names(h)
    ensures Find(h, name).None? ==> Names(r) == Names(h) + [name]
    ensures ValuesOf(r, name) == ValuesOf(h, name) + [value]
    ensures forall n :: n != name ==> ValuesOf(r, n) == ValuesOf(h, n)
  {
    match Find(h, name)
    case Some(i) =>
      var r := h[i := Entry(name, h[i].values + [value])];
      assert Names(r) == Names(h);
      forall n | n != name ensures ValuesOf(r, n) == ValuesOf(h, n) {
        FindSameNames(h, r, n);
      }
      r
    case None =>
      var r := h + [Entry(name, [value])];
      assert Find(r, name) == Some(|h|) by { FindAppend(h, Entry(name, [value]), name); }
      forall n | n != name ensures ValuesOf(r, n) == ValuesOf(h, n) {
        FindAppend(h, Entry(name, [value]), n);
      }
      r
  }

  /** Lookup depends only on the names. */
  lemma {:induction false} FindSameNames(h: Headers, g: Headers, name: string)
    requires Names(h) == Names(g)
    ensures Find(h, name) == Find(g, name)
  {
    if |h| > 0 {
      assert h[0].name == Names(h)[0] == Names(g)[0] == g[0].name;
      assert Names(h[1..]) == Names(h)[1..] == Names(g)[1..] == Names(g[1..]);
      FindSameNames(h[1..], g[1..], name);
    }
  }

  /** Looking a name up after appending an entry: earlier entries take precedence. */
  lemma {:induction false} FindAppend(h: Headers, e: Entry, name: string)
    ensures Find(h + [e], name) ==
      if Find(h, name).Some? then Find(h, name)
      else if e.name == name then Some(|h|) else None
  {
    if |h| > 0 && h[0].name != name {
      assert (h + [e])[1..] == h[1..] + [e];
      FindAppend(h[1..], e, name);
    }
  }

  /** `Headers.getFirst(name)`: the first value stored under `name`, or null. */
  function GetFirst(h: Headers, name: string): (r: Option<string>)
    ensures r.Some? <==> |ValuesOf(h, name)| > 0
    ensures r.Some? ==> r.value == ValuesOf(h, name)[0]
  {
    var vs := ValuesOf(h, name);
    if |vs| == 0 then None else Some(vs[0])
  }

  /** `add` keeps the headers well formed. */
  lemma AddWellFormed(h: Headers, name: string, value: string)
    requires WellFormed(h)
    ensures WellFormed(Add(h, name, value))
  {
    var r := Add(h, name, value);
    assert Names(r) == Names(h) || Names(r) == Names(h) + [name];
    forall i, j | 0 <= i < j < |r| ensures r[i].name != r[j].name {
      assert Names(r)[i] == r[i].name && Names(r)[j] == r[j].name;
    }
  }

  /** The first value of a name is the first one ever added: later additions do not replace it. */
  lemma GetFirstAfterAdd(h: Headers, name: string, value: string)
    ensures GetFirst(Add(h, name, value), name) ==
      if GetFirst(h, name).Some? then GetFirst(h, name) else Some(value)
  {
  }

  // ---------------------------------------------------------------------------
  // Serialisation of the header section

  /** `name: value` followed by CRLF, once per value, in order. */
  function EntryLines(name: string, values: seq<string>): string {
    if |values| == 0 then []
    else EntryLines(name, values[..|values| - 1]) + name + ": " + values[|values| - 1] + CRLF
  }

  /** The header lines of every entry, in order: the fold both head serialisers perform. */
  function HeaderLines(h: Headers): string {
    if |h| == 0 then []
    else HeaderLines(h[..|h| - 1]) + EntryLines(h[|h| - 1].name, h[|h| - 1].values)
  }
}
