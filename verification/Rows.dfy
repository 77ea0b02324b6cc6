/**
 The container table of an account database and `AccountBroker.merge_items`
 on it: rows by ROWID, one merge per record, ranges of rows by ROWID, and the
 relation "these rows are at least as new as those".
 */
module Rows {
  import opened Wrappers

  /** A container name, as its sequence of code points. */
  type Name = seq<nat>

  /** Timestamps are only ever compared. */
  type Timestamp = nat

  /** The columns of a row other than ROWID. */
  datatype Record = Record(name: Name, put: Timestamp, del: Timestamp,
                           objects: int, bytes: int, deleted: bool, policy: int)

  type RowMap = map<nat, Record>

  /** The rows by ROWID, and the AUTOINCREMENT counter (0 before the first insert). */
  datatype Table = Table(rows: RowMap, last: nat)

  /** A row as `get_items_since` returns it. */
  datatype Item = Item(rowid: nat, rec: Record)

  const EMPTY := Table(map[], 0)

  /** `get_max_row`: SQLITE_SEQUENCE has no entry until the first insert. */
  function MaxRow(t: Table): int {
    if t.last == 0 then -1 else t.last
  }

  ghost predicate Valid(t: Table) {
    && (forall i :: i in t.rows ==> 1 <= i <= t.last)
    && (forall i, j :: i in t.rows && j in t.rows && i != j ==> t.rows[i].name != t.rows[j].name)
  }

  /** What `put_container` stores in the deleted column. */
  predicate IsTombstone(put: Timestamp, del: Timestamp, objects: int) {
    del > put && objects == 0
  }

  /** The row under name n among ROWIDs up to k. */
  function FindUpTo(rows: RowMap, n: Name, k: nat): (r: Option<nat>)
    ensures r.Some? ==> r.value in rows && rows[r.value].name == n
    ensures r.None? ==> forall i :: i in rows && 1 <= i <= k ==> rows[i].name != n
  {
    if k == 0 then None
    else if k in rows && rows[k].name == n then Some(k)
    else FindUpTo(rows, n, k - 1)
  }

  function Find(t: Table, n: Name): (r: Option<Record>)
    ensures r.Some? ==> r.value.name == n
  {
    match FindUpTo(t.rows, n, t.last)
    case Some(i) => Some(t.rows[i])
    case None => None
  }

  function Without(rows: RowMap, n: Name): RowMap {
    map i | i in rows && rows[i].name != n :: rows[i]
  }

  /** The record `merge_items` writes, given the row already there under that name. */
  function Resolve(prior: Option<Record>, rec: Record): Record {
    if prior.None? then rec
    else
      var put := if prior.value.put > rec.put then prior.value.put else rec.put;
      var del := if prior.value.del > rec.del then prior.value.del else rec.del;
      rec.(put := put, del := del, deleted := IsTombstone(put, del, rec.objects))
  }

  function MergeOne(t: Table, rec: Record): Table {
    Table(Without(t.rows, rec.name)[t.last + 1 := Resolve(Find(t, rec.name), rec)], t.last + 1)
  }

  function MergeItems(t: Table, recs: seq<Record>): Table {
    if recs == [] then t
    else MergeOne(MergeItems(t, recs[..|recs| - 1]), recs[|recs| - 1])
  }

  function Records(items: seq<Item>): (r: seq<Record>)
    ensures |r| == |items|
    ensures forall i :: 0 <= i < |items| ==> r[i] == items[i].rec
  {
    seq(|items|, i requires 0 <= i < |items| => items[i].rec)
  }

  // ------------------------------------------------------------------
  // Coverage
  // ------------------------------------------------------------------

  predicate Newer(a: Record, b: Record) {
    a.name == b.name && a.put >= b.put && a.del >= b.del
  }

  ghost predicate Covers(rows: RowMap, rec: Record) {
    exists i :: i in rows && Newer(rows[i], rec)
  }

  ghost predicate CoversAll(rows: RowMap, of: RowMap) {
    forall i :: i in of ==> Covers(rows, of[i])
  }

  /** `rows` covers every row of `of` with ROWID at most p: what a sync point p asserts. */
  ghost predicate CoversUpTo(rows: RowMap, of: RowMap, p: int) {
    forall i :: i in of && i <= p ==> Covers(rows, of[i])
  }

  /** What a sync point means: the peer covers every row up to it, and such rows exist. */
  ghost predicate Sound(peer: Table, t: Table, point: int) {
    point <= t.last && CoversUpTo(peer.rows, t.rows, point)
  }

  /** How a table changes over time: rows are only re-inserted under new ROWIDs, never made older. */
  ghost predicate Grows(t: Table, u: Table) {
    && t.last <= u.last
    && (forall i :: i in u.rows && i <= t.last ==> i in t.rows && u.rows[i] == t.rows[i])
    && CoversAll(u.rows, t.rows)
  }

  lemma CoversTransitive(a: RowMap, b: RowMap, rec: Record)
    requires CoversAll(a, b) && Covers(b, rec)
    ensures Covers(a, rec)
  {
    var i :| i in b && Newer(b[i], rec);
    var j :| j in a && Newer(a[j], b[i]);
  }

  lemma CoversSelf(rows: RowMap)
    ensures CoversAll(rows, rows)
  {
    forall i | i in rows ensures Covers(rows, rows[i]) {
      assert Newer(rows[i], rows[i]);
    }
  }

  lemma GrowsReflexive(t: Table)
    ensures Grows(t, t)
  {
    CoversSelf(t.rows);
  }

  lemma GrowsTransitive(t: Table, u: Table, v: Table)
    requires Grows(t, u) && Grows(u, v)
    ensures Grows(t, v)
  {
    forall i | i in t.rows ensures Covers(v.rows, t.rows[i]) {
      CoversTransitive(v.rows, u.rows, t.rows[i]);
    }
  }

  /** A sync point stays sound while both tables grow. */
  lemma SoundGrows(peer: Table, peer': Table, t: Table, t': Table, point: int)
    requires Sound(peer, t, point) && Grows(peer, peer') && Grows(t, t')
    ensures Sound(peer', t', point)
  {
    forall i | i in t'.rows && i <= point ensures Covers(peer'.rows, t'.rows[i]) {
      CoversTransitive(peer'.rows, peer.rows, t.rows[i]);
    }
  }

  lemma FindUnique(t: Table, i: nat)
    requires Valid(t) && i in t.rows
    ensures Find(t, t.rows[i].name) == Some(t.rows[i])
  {
    assert FindUpTo(t.rows, t.rows[i].name, t.last).Some?;
  }

  lemma FindNone(t: Table, n: Name)
    requires Valid(t)
    ensures Find(t, n).None? <==> forall i :: i in t.rows ==> t.rows[i].name != n
  {
  }

  /** One merge keeps names unique and ROWIDs increasing, and only ever makes the table newer. */
  lemma MergeOneGrows(t: Table, rec: Record)
    requires Valid(t)
    ensures Valid(MergeOne(t, rec))
    ensures Grows(t, MergeOne(t, rec))
    ensures Covers(MergeOne(t, rec).rows, rec)
  {
    var u := MergeOne(t, rec);
    assert u.last in u.rows && Newer(u.rows[u.last], rec);
    forall i | i in t.rows ensures Covers(u.rows, t.rows[i]) {
      FindUnique(t, i);
      var j := if t.rows[i].name == rec.name then u.last else i;
      assert j in u.rows && Newer(u.rows[j], t.rows[i]);
    }
  }

  lemma {:induction false} MergeItemsGrows(t: Table, recs: seq<Record>)
    requires Valid(t)
    ensures Valid(MergeItems(t, recs))
    ensures Grows(t, MergeItems(t, recs))
    ensures forall rec :: rec in recs ==> Covers(MergeItems(t, recs).rows, rec)
    ensures MergeItems(t, recs).last == t.last + |recs|
  {
    if recs == [] {
      GrowsReflexive(t);
    } else {
      var init, rec := recs[..|recs| - 1], recs[|recs| - 1];
      var u := MergeItems(t, init);
      MergeItemsGrows(t, init);
      MergeOneGrows(u, rec);
      GrowsTransitive(t, u, MergeOne(u, rec));
      forall x | x in recs ensures Covers(MergeOne(u, rec).rows, x) {
        if x != rec {
          assert x in init;
          CoversTransitive(MergeOne(u, rec).rows, u.rows, x);
        }
      }
    }
  }

  lemma MergeNothing(t: Table)
    ensures MergeItems(t, []) == t
  {
  }

  lemma {:induction false} MergeItemsAppend(t: Table, a: seq<Record>, b: seq<Record>)
    ensures MergeItems(t, a + b) == MergeItems(MergeItems(t, a), b)
  {
    if b == [] {
      assert a + b == a;
    } else {
      var init, rec := b[..|b| - 1], b[|b| - 1];
      calc {
        MergeItems(t, a + b);
        { assert (a + b)[..|a + b| - 1] == a + init && (a + b)[|a + b| - 1] == rec; }
        MergeOne(MergeItems(t, a + init), rec);
        { MergeItemsAppend(t, a, init); }
        MergeOne(MergeItems(MergeItems(t, a), init), rec);
        MergeItems(MergeItems(t, a), b);
      }
    }
  }

  // ------------------------------------------------------------------
  // Reading rows by ROWID
  // ------------------------------------------------------------------

  /** The rows with ROWIDs from i to `last`, in ROWID order. */
  function From(t: Table, i: nat): (r: seq<Item>)
    ensures forall x :: x in r ==> i <= x.rowid <= t.last && x.rowid in t.rows && t.rows[x.rowid] == x.rec
    ensures forall k :: i <= k <= t.last && k in t.rows ==> Item(k, t.rows[k]) in r
    decreases t.last + 1 - i
  {
    if i > t.last then []
    else if i in t.rows then [Item(i, t.rows[i])] + From(t, i + 1)
    else From(t, i + 1)
  }

  /** Rows with ROWID above `start`; ROWIDs begin at 1. */
  function RowsAfter(t: Table, start: int): seq<Item> {
    From(t, if start < 0 then 0 else start + 1)
  }

  /** `get_items_since`. */
  function ItemsSince(t: Table, start: int, count: nat): seq<Item> {
    var after := RowsAfter(t, start);
    if |after| <= count then after else after[..count]
  }

  /** The highest ROWID present, or -1: what `newid` records. */
  function LastRow(t: Table): int {
    var all := From(t, 0);
    if all == [] then -1 else all[|all| - 1].rowid
  }

  lemma LastRowBounded(t: Table)
    ensures LastRow(t) <= t.last && (Valid(t) ==> LastRow(t) <= MaxRow(t))
  {
    var all := From(t, 0);
    if all != [] { assert all[|all| - 1] in all; }
  }

  lemma {:induction false} FromOrdered(t: Table, i: nat, a: nat, b: nat)
    requires a < b < |From(t, i)|
    ensures From(t, i)[a].rowid < From(t, i)[b].rowid
    decreases t.last + 1 - i
  {
    if i !in t.rows {
      FromOrdered(t, i + 1, a, b);
    } else if a == 0 {
      assert From(t, i)[b] == From(t, i + 1)[b - 1];
      assert From(t, i + 1)[b - 1] in From(t, i + 1);
    } else {
      FromOrdered(t, i + 1, a - 1, b - 1);
    }
  }

  /** What follows a batch is what is read after its last ROWID. */
  lemma FromStep(t: Table, i: nat)
    ensures From(t, i) == if i > t.last then []
                          else if i in t.rows then [Item(i, t.rows[i])] + From(t, i + 1)
                          else From(t, i + 1)
  {
  }

  lemma {:induction false} FromSplit(t: Table, i: nat, n: nat)
    requires 1 <= n <= |From(t, i)|
    ensures i <= From(t, i)[n - 1].rowid <= t.last
    ensures From(t, i)[n..] == From(t, From(t, i)[n - 1].rowid + 1)
    decreases t.last + 1 - i
  {
    hide From;
    FromStep(t, i);
    if i !in t.rows {
      FromSplit(t, i + 1, n);
    } else {
      var rest := From(t, i + 1);
      if n > 1 { FromSplit(t, i + 1, n - 1); }
      assert From(t, i)[n..] == rest[n - 1..];
    }
  }

  lemma BatchSplit(t: Table, start: int, count: nat)
    requires ItemsSince(t, start, count) != []
    ensures var b := ItemsSince(t, start, count);
            var hi := b[|b| - 1].rowid;
            start < hi <= t.last && RowsAfter(t, start) == b + RowsAfter(t, hi)
  {
    var b, all := ItemsSince(t, start, count), RowsAfter(t, start);
    FromSplit(t, if start < 0 then 0 else start + 1, |b|);
    assert b == all[..|b|] && all == b + all[|b|..];
  }

  lemma BatchOrdered(t: Table, start: int, count: nat, a: nat)
    requires a < |ItemsSince(t, start, count)|
    ensures var b := ItemsSince(t, start, count);
            b[a].rowid <= b[|b| - 1].rowid
  {
    var b := ItemsSince(t, start, count);
    if a < |b| - 1 { FromOrdered(t, if start < 0 then 0 else start + 1, a, |b| - 1); }
  }

  /** A batch has no gaps: its last ROWID bounds exactly the rows it carries. */
  lemma BatchHasNoGaps(t: Table, start: int, count: nat)
    requires ItemsSince(t, start, count) != []
    ensures var b := ItemsSince(t, start, count);
            var hi := b[|b| - 1].rowid;
            && start < hi <= t.last
            && RowsAfter(t, start) == b + RowsAfter(t, hi)
            && (forall x :: x in b ==> x.rowid <= hi)
            && (forall k :: start < k <= hi && k in t.rows ==> Item(k, t.rows[k]) in b)
  {
    hide ItemsSince;
    var b := ItemsSince(t, start, count);
    var hi := b[|b| - 1].rowid;
    BatchSplit(t, start, count);
    forall x | x in b ensures x.rowid <= hi {
      var a :| 0 <= a < |b| && b[a] == x;
      BatchOrdered(t, start, count, a);
    }
    forall k | start < k <= hi && k in t.rows ensures Item(k, t.rows[k]) in b {
      assert Item(k, t.rows[k]) in RowsAfter(t, start) && Item(k, t.rows[k]) !in RowsAfter(t, hi);
    }
  }
}
