/** Rows in name order, as the queries with ORDER BY name return them. */
module NameOrder {
  import opened Wrappers
  import opened Rows
  import opened Names

  ghost predicate Sorted(rs: seq<Record>) {
    forall i, j :: 0 <= i < j < |rs| ==> Less(rs[i].name, rs[j].name)
  }

  function Insert(rs: seq<Record>, rec: Record): (r: seq<Record>)
    ensures forall x :: x in r <==> x in rs || x == rec
  {
    if rs == [] || Less(rec.name, rs[0].name) then [rec] + rs
    else [rs[0]] + Insert(rs[1..], rec)
  }

  lemma {:induction false} InsertSorted(rs: seq<Record>, rec: Record)
    requires Sorted(rs) && forall x :: x in rs ==> x.name != rec.name
    ensures Sorted(Insert(rs, rec))
  {
    if rs == [] {
    } else if Less(rec.name, rs[0].name) {
      forall i | 0 < i < |rs| ensures Less(rec.name, rs[i].name) {
        LessTransitive(rec.name, rs[0].name, rs[i].name);
      }
    } else {
      LessTotal(rec.name, rs[0].name);
      InsertSorted(rs[1..], rec);
      forall i | 0 <= i < |Insert(rs[1..], rec)| ensures Less(rs[0].name, Insert(rs[1..], rec)[i].name) {
        var x := Insert(rs[1..], rec)[i];
        assert x in Insert(rs[1..], rec);
        assert x in rs[1..] ==> exists k :: 1 <= k < |rs| && rs[k] == x;
      }
    }
  }

  /** The rows with the given deleted flag among ROWIDs up to k, by name. */
  function ByNameUpTo(rows: RowMap, deleted: bool, k: nat): seq<Record> {
    if k == 0 then []
    else if k in rows && rows[k].deleted == deleted then Insert(ByNameUpTo(rows, deleted, k - 1), rows[k])
    else ByNameUpTo(rows, deleted, k - 1)
  }

  /** SELECT ... WHERE deleted = ? ORDER BY name. */
  function ByName(t: Table, deleted: bool): seq<Record> {
    ByNameUpTo(t.rows, deleted, t.last)
  }

  lemma {:induction false} ByNameMembers(rows: RowMap, deleted: bool, k: nat, x: Record)
    ensures x in ByNameUpTo(rows, deleted, k) <==>
            exists i :: 1 <= i <= k && i in rows && rows[i] == x && x.deleted == deleted
  {
    if k > 0 { ByNameMembers(rows, deleted, k - 1, x); }
  }

  lemma NewNames(t: Table, deleted: bool, k: nat)
    requires Valid(t) && 1 <= k && k in t.rows
    ensures forall x :: x in ByNameUpTo(t.rows, deleted, k - 1) ==> x.name != t.rows[k].name
  {
    hide ByNameUpTo;
    forall x | x in ByNameUpTo(t.rows, deleted, k - 1) ensures x.name != t.rows[k].name {
      ByNameMembers(t.rows, deleted, k - 1, x);
      var i :| 1 <= i <= k - 1 && i in t.rows && t.rows[i] == x;
    }
  }

  lemma {:induction false} ByNameSorted(t: Table, deleted: bool, k: nat)
    requires Valid(t) && k <= t.last
    ensures Sorted(ByNameUpTo(t.rows, deleted, k))
  {
    if k > 0 {
      ByNameSorted(t, deleted, k - 1);
      if k in t.rows && t.rows[k].deleted == deleted {
        NewNames(t, deleted, k);
        InsertSorted(ByNameUpTo(t.rows, deleted, k - 1), t.rows[k]);
      }
    }
  }

  /** The rows whose names satisfy p, in the same order. */
  function Filter(rs: seq<Record>, p: Name -> bool): seq<Record> {
    if rs == [] then []
    else if p(rs[0].name) then [rs[0]] + Filter(rs[1..], p)
    else Filter(rs[1..], p)
  }

  lemma {:induction false} FilterMembers(rs: seq<Record>, p: Name -> bool, x: Record)
    ensures x in Filter(rs, p) <==> x in rs && p(x.name)
  {
    if rs != [] { FilterMembers(rs[1..], p, x); }
  }

  lemma {:induction false} FilterAbove(rs: seq<Record>, p: Name -> bool, a: Name)
    requires forall i :: 0 <= i < |rs| ==> Less(a, rs[i].name)
    ensures forall i :: 0 <= i < |Filter(rs, p)| ==> Less(a, Filter(rs, p)[i].name)
  {
    if rs != [] { FilterAbove(rs[1..], p, a); }
  }

  lemma {:induction false} FilterSorted(rs: seq<Record>, p: Name -> bool)
    requires Sorted(rs)
    ensures Sorted(Filter(rs, p))
  {
    hide Less;
    if rs != [] {
      FilterSorted(rs[1..], p);
      FilterAbove(rs[1..], p, rs[0].name);
    }
  }

  /** Sorted rows are determined by which rows they are. */
  lemma {:induction false} SortedUnique(a: seq<Record>, b: seq<Record>)
    requires Sorted(a) && Sorted(b) && forall x :: x in a <==> x in b
    ensures a == b
  {
    if a == [] {
      HasMember(b);
    } else {
      assert a[0] in b;
      var j :| 0 <= j < |b| && b[j] == a[0];
      assert b[0] in a;
      var i :| 0 <= i < |a| && a[i] == b[0];
      if i > 0 && j > 0 { LessAntisymmetric(a[0].name, a[i].name); }
      assert a[0] == b[0];
      forall x ensures x in a[1..] <==> x in b[1..] {
        TailMembership(a, x);
        TailMembership(b, x);
      }
      SortedUnique(a[1..], b[1..]);
    }
  }

  lemma TailMembership(a: seq<Record>, x: Record)
    requires Sorted(a) && a != []
    ensures x in a[1..] <==> x in a && x != a[0]
  {
    if x in a[1..] {
      var k :| 0 <= k < |a[1..]| && a[1..][k] == x;
      assert Less(a[0].name, a[k + 1].name);
      LessIrreflexive(x.name);
    } else if x in a {
      var k :| 0 <= k < |a| && a[k] == x;
    }
  }
}
