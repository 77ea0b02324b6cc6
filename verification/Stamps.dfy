/**
 The pair of timestamps a table holds for a name. Merging joins them, so the
 pair after any number of merges depends on which records were merged, not on
 their order; the remaining columns come from the last record instead.
 */
module Stamps {
  import opened Wrappers
  import opened Rows

  datatype Stamp = Stamp(put: Timestamp, del: Timestamp)

  function Newest(a: Option<Stamp>, b: Option<Stamp>): Option<Stamp> {
    match (a, b)
    case (None, _) => b
    case (_, None) => a
    case (Some(x), Some(y)) =>
      Some(Stamp(if x.put > y.put then x.put else y.put, if x.del > y.del then x.del else y.del))
  }

  function OfRecord(rec: Record, n: Name): Option<Stamp> {
    if rec.name == n then Some(Stamp(rec.put, rec.del)) else None
  }

  function OfTable(t: Table, n: Name): Option<Stamp> {
    match Find(t, n)
    case Some(rec) => Some(Stamp(rec.put, rec.del))
    case None => None
  }

  /** The newest timestamps under n among a list of records. */
  function OfRecords(recs: seq<Record>, n: Name): Option<Stamp> {
    if recs == [] then None
    else Newest(OfRecords(recs[..|recs| - 1], n), OfRecord(recs[|recs| - 1], n))
  }

  ghost predicate SameStamps(t: Table, u: Table) {
    forall n :: OfTable(t, n) == OfTable(u, n)
  }

  lemma NewestAssociative(a: Option<Stamp>, b: Option<Stamp>, c: Option<Stamp>)
    ensures Newest(Newest(a, b), c) == Newest(a, Newest(b, c))
    ensures Newest(a, b) == Newest(b, a)
  {
  }

  lemma MergeOneStamps(t: Table, rec: Record, n: Name)
    requires Valid(t)
    ensures OfTable(MergeOne(t, rec), n) == Newest(OfTable(t, n), OfRecord(rec, n))
  {
    var u := MergeOne(t, rec);
    MergeOneGrows(t, rec);
    FindNone(t, n);
    FindNone(u, n);
    if n == rec.name {
      FindUnique(u, u.last);
    } else if i :| i in t.rows && t.rows[i].name == n {
      FindUnique(t, i);
      FindUnique(u, i);
    }
  }

  /** A merge result's timestamps are the newest of the table's own and all the merged records'. */
  lemma {:induction false} MergeItemsStamps(t: Table, recs: seq<Record>, n: Name)
    requires Valid(t)
    ensures OfTable(MergeItems(t, recs), n) == Newest(OfTable(t, n), OfRecords(recs, n))
  {
    if recs != [] {
      var init, rec := recs[..|recs| - 1], recs[|recs| - 1];
      MergeItemsStamps(t, init, n);
      MergeItemsGrows(t, init);
      MergeOneStamps(MergeItems(t, init), rec, n);
      NewestAssociative(OfTable(t, n), OfRecords(init, n), OfRecord(rec, n));
    }
  }

  lemma {:induction false} OfRecordsAppend(a: seq<Record>, b: seq<Record>, n: Name)
    ensures OfRecords(a + b, n) == Newest(OfRecords(a, n), OfRecords(b, n))
  {
    if b == [] {
      assert a + b == a;
    } else {
      var init, rec := b[..|b| - 1], b[|b| - 1];
      assert (a + b)[..|a + b| - 1] == a + init;
      OfRecordsAppend(a, init, n);
      NewestAssociative(OfRecords(a, n), OfRecords(init, n), OfRecord(rec, n));
    }
  }

  /** Two lists in either order leave the same timestamps. */
  lemma MergeOrderIrrelevant(t: Table, a: seq<Record>, b: seq<Record>)
    requires Valid(t)
    ensures SameStamps(MergeItems(t, a + b), MergeItems(t, b + a))
  {
    forall n ensures OfTable(MergeItems(t, a + b), n) == OfTable(MergeItems(t, b + a), n) {
      MergeItemsStamps(t, a + b, n);
      MergeItemsStamps(t, b + a, n);
      OfRecordsAppend(a, b, n);
      OfRecordsAppend(b, a, n);
      NewestAssociative(OfRecords(a, n), OfRecords(b, n), None);
    }
  }

  lemma CoversIsNewer(t: Table, rec: Record)
    requires Valid(t)
    ensures Covers(t.rows, rec) <==>
            var s := OfTable(t, rec.name); s.Some? && s.value.put >= rec.put && s.value.del >= rec.del
  {
    FindNone(t, rec.name);
    if i :| i in t.rows && t.rows[i].name == rec.name {
      FindUnique(t, i);
      if Newer(t.rows[i], rec) { assert Covers(t.rows, rec); }
    }
  }

  /** Two tables that cover each other hold the same names with the same timestamps. */
  lemma MutualCoverageIsAgreement(t: Table, u: Table)
    requires Valid(t) && Valid(u)
    requires CoversAll(t.rows, u.rows) && CoversAll(u.rows, t.rows)
    ensures SameStamps(t, u)
  {
    hide CoversAll, OfTable;
    forall n ensures OfTable(t, n) == OfTable(u, n) {
      CoveredIsDominated(t, u, n);
      CoveredIsDominated(u, t, n);
    }
  }

  /** A stamp at least as new as another, if there is one. */
  predicate Dominates(a: Option<Stamp>, b: Option<Stamp>) {
    b.None? || (a.Some? && a.value.put >= b.value.put && a.value.del >= b.value.del)
  }

  lemma DominatesNewest(a: Option<Stamp>, b: Option<Stamp>, c: Option<Stamp>)
    ensures Dominates(a, Newest(b, c)) <==> Dominates(a, b) && Dominates(a, c)
  {
  }

  lemma {:induction false} DominatesRecords(a: Option<Stamp>, recs: seq<Record>, n: Name)
    ensures Dominates(a, OfRecords(recs, n)) <==>
            forall k :: 0 <= k < |recs| && recs[k].name == n ==> Dominates(a, OfRecord(recs[k], n))
  {
    if recs != [] {
      var init, last := recs[..|recs| - 1], recs[|recs| - 1];
      DominatesRecords(a, init, n);
      DominatesNewest(a, OfRecords(init, n), OfRecord(last, n));
      assert forall k :: 0 <= k < |init| ==> init[k] == recs[k];
    }
  }

  lemma CoversIsDominates(t: Table, rec: Record)
    requires Valid(t)
    ensures Covers(t.rows, rec) <==> Dominates(OfTable(t, rec.name), OfRecord(rec, rec.name))
  {
    CoversIsNewer(t, rec);
  }

  /** A peer that covers a table covers the row of a name after merging records if and only if it covers those. */
  lemma MergedRowCoveredIff(peer: Table, t: Table, recs: seq<Record>, i: nat)
    requires Valid(peer) && Valid(t) && CoversAll(peer.rows, t.rows) && i in MergeItems(t, recs).rows
    ensures var row := MergeItems(t, recs).rows[i];
            Covers(peer.rows, row) <==>
            forall k :: 0 <= k < |recs| && recs[k].name == row.name ==> Covers(peer.rows, recs[k])
  {
    hide MergeItems, OfRecords, Find, Covers;
    var u := MergeItems(t, recs);
    var row := u.rows[i];
    var n := row.name;
    MergeItemsGrows(t, recs);
    FindUnique(u, i);
    CoversIsDominates(peer, row);
    MergeItemsStamps(t, recs, n);
    DominatesNewest(OfTable(peer, n), OfTable(t, n), OfRecords(recs, n));
    DominatesRecords(OfTable(peer, n), recs, n);
    CoveredIsDominated(peer, t, n);
    forall k | 0 <= k < |recs| && recs[k].name == n
      ensures Covers(peer.rows, recs[k]) <==> Dominates(OfTable(peer, n), OfRecord(recs[k], n))
    {
      CoversIsDominates(peer, recs[k]);
    }
  }

  lemma CoveredIsDominated(peer: Table, t: Table, n: Name)
    requires Valid(peer) && Valid(t) && CoversAll(peer.rows, t.rows)
    ensures Dominates(OfTable(peer, n), OfTable(t, n))
  {
    FindNone(t, n);
    if i :| i in t.rows && t.rows[i].name == n {
      FindUnique(t, i);
      CoversIsDominates(peer, t.rows[i]);
    }
  }

  lemma UntouchedByOne(t: Table, rec: Record, i: nat)
    requires i <= t.last
    ensures var u := MergeOne(t, rec);
            && (i in u.rows <==> i in t.rows && t.rows[i].name != rec.name)
            && (i in u.rows ==> u.rows[i] == t.rows[i])
  {
  }

  /** None of the records has this name. */
  predicate Absent(recs: seq<Record>, n: Name) {
    forall k :: 0 <= k < |recs| ==> recs[k].name != n
  }

  lemma AbsentStep(recs: seq<Record>, n: Name)
    requires recs != []
    ensures Absent(recs, n) <==> Absent(recs[..|recs| - 1], n) && recs[|recs| - 1].name != n
  {
    var init := recs[..|recs| - 1];
    assert forall k :: 0 <= k < |init| ==> init[k] == recs[k];
  }

  /** The rows a merge leaves under old ROWIDs are those whose names it does not touch. */
  lemma {:induction false} UntouchedRows(t: Table, recs: seq<Record>, i: nat)
    requires Valid(t) && i <= t.last
    ensures var u := MergeItems(t, recs);
            && (i in u.rows <==> i in t.rows && Absent(recs, t.rows[i].name))
            && (i in u.rows ==> u.rows[i] == t.rows[i])
  {
    hide MergeOne, Absent, Valid;
    if recs == [] {
      if i in t.rows { assert Absent([], t.rows[i].name) by { NoneAbsent(t.rows[i].name); } }
    } else {
      var init, last := recs[..|recs| - 1], recs[|recs| - 1];
      UntouchedRows(t, init, i);
      MergeItemsGrows(t, init);
      UntouchedByOne(MergeItems(t, init), last, i);
      if i in t.rows { AbsentStep(recs, t.rows[i].name); }
    }
  }

  lemma NoneAbsent(n: Name)
    ensures Absent([], n)
  {
  }
}
