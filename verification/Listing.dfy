/**
 The container listing an account promises: the live names in range, collapsed at
 the first delimiter after the prefix, without repeats and without the
 subdirectory that is itself the lower marker, in name order.
 */
module Listing {
  import opened Rows
  import opened Names
  import opened NameOrder

  /** A line of a listing. */
  datatype Entry = Container(rec: Record) | Subdir(dir: Name) {
    function EntryName(): Name {
      if Container? then rec.name else dir
    }
  }

  /** Exclusive bounds (empty means none), prefix, delimiter, and whether reserved names show. */
  datatype Params = Params(lower: Name, upper: Name, prefix: Name, delim: Name, allowReserved: bool)

  predicate InRange(q: Params, n: Name) {
    && (q.lower != [] ==> Less(q.lower, n))
    && (q.upper != [] ==> Less(n, q.upper))
    && HasPrefix(n, q.prefix)
    && (q.allowReserved || LessEq([1], n))
  }

  function EntryOf(q: Params, rec: Record): Entry {
    match DirOf(rec.name, q.prefix, q.delim)
    case Some(d) => Subdir(d)
    case None => Container(rec)
  }

  // ------------------------------------------------------------------
  // Collapsing
  // ------------------------------------------------------------------

  /** How many leading rows extend d. */
  function Run(rs: seq<Record>, d: Name): (k: nat)
    ensures k <= |rs|
    ensures forall i :: 0 <= i < k ==> HasPrefix(rs[i].name, d)
    ensures k < |rs| ==> !HasPrefix(rs[k].name, d)
  {
    if rs == [] || !HasPrefix(rs[0].name, d) then 0 else 1 + Run(rs[1..], d)
  }

  /** The entries of rows in listing order, one per run of a subdirectory. */
  function Collapse(q: Params, rs: seq<Record>): seq<Entry>
    decreases |rs|
  {
    if rs == [] then []
    else
      match EntryOf(q, rs[0])
      case Container(_) => [Container(rs[0])] + Collapse(q, rs[1..])
      case Subdir(d) =>
        DirIsPrefix(rs[0].name, q.prefix, q.delim);
        assert Run(rs, d) > 0;
        (if d == q.lower then [] else [Subdir(d)]) + Collapse(q, rs[Run(rs, d)..])
  }

  function Live(t: Table): seq<Record> {
    ByName(t, false)
  }

  /** The rows to list. */
  function Eligible(t: Table, q: Params): seq<Record> {
    Filter(Live(t), n => InRange(q, n))
  }

  function Reversed<T>(s: seq<T>): (r: seq<T>)
    ensures |r| == |s|
    ensures forall i :: 0 <= i < |s| ==> r[i] == s[|s| - 1 - i]
  {
    seq(|s|, i requires 0 <= i < |s| => s[|s| - 1 - i])
  }

  /** At most the first `limit`. */
  function Take<T>(s: seq<T>, limit: int): (r: seq<T>)
    ensures r <= s
  {
    if limit <= 0 then [] else if |s| <= limit then s else s[..limit]
  }
}
