/** `TombstoneReclaimer`: deleting old tombstones page by page, and counting those that stay. */
module Reclaim {
  import opened Wrappers
  import opened Rows
  import opened Names
  import opened NameOrder
  import opened AccountBroker

  // ------------------------------------------------------------------
  // Tombstones by name
  // ------------------------------------------------------------------

  /** lo <= n, and n < hi where hi is given. */
  predicate Within(lo: Name, hi: Option<Name>, n: Name) {
    LessEq(lo, n) && (hi.Some? ==> Less(n, hi.value))
  }

  function Tombstones(t: Table, lo: Name, hi: Option<Name>): set<nat> {
    set i | i in t.rows && t.rows[i].deleted && Within(lo, hi, t.rows[i].name)
  }

  /** Those old enough to go. */
  function Expired(t: Table, age: Timestamp, lo: Name, hi: Option<Name>): set<nat> {
    set i | i in t.rows && t.rows[i].deleted && Within(lo, hi, t.rows[i].name) && t.rows[i].del < age
  }

  /** Every tombstone, and every one old enough to go. */
  function AllTombstones(t: Table): set<nat> {
    set i | i in t.rows && t.rows[i].deleted
  }

  function AllExpired(t: Table, age: Timestamp): set<nat> {
    set i | i in t.rows && t.rows[i].deleted && t.rows[i].del < age
  }

  function Purged(t: Table, ids: set<nat>): Table {
    Table(t.rows - ids, t.last)
  }

  /** SELECT name WHERE deleted = 1 AND name >= marker ORDER BY name LIMIT 1 OFFSET pageSize. */
  function EndMarker(t: Table, marker: Name, pageSize: nat): Option<Name> {
    var tombs := Filter(ByName(t, true), n => LessEq(marker, n));
    if |tombs| > pageSize then Some(tombs[pageSize].name) else None
  }

  lemma Dichotomy(a: Name, n: Name)
    ensures LessEq(a, n) <==> !Less(n, a)
  {
    LessTotal(a, n);
    LessIrreflexive(n);
    if Less(n, a) { LessAntisymmetric(n, a); }
  }

  // ------------------------------------------------------------------
  // A page holds as many tombstones as its query skipped
  // ------------------------------------------------------------------

  function Matching(rows: RowMap, p: Name -> bool, k: nat): set<nat> {
    set i | i in rows && 1 <= i <= k && rows[i].deleted && p(rows[i].name)
  }

  lemma {:induction false} FilterInsert(rs: seq<Record>, rec: Record, p: Name -> bool)
    ensures |Filter(Insert(rs, rec), p)| == |Filter(rs, p)| + if p(rec.name) then 1 else 0
  {
    if rs == [] || Less(rec.name, rs[0].name) {
      assert ([rec] + rs)[1..] == rs;
    } else {
      FilterInsert(rs[1..], rec, p);
      assert Insert(rs, rec)[1..] == Insert(rs[1..], rec);
    }
  }

  /** The query returns as many rows as satisfy its condition. */
  lemma {:induction false} FilterCounts(rows: RowMap, p: Name -> bool, k: nat)
    ensures |Filter(ByNameUpTo(rows, true, k), p)| == |Matching(rows, p, k)|
  {
    if k == 0 {
      assert Matching(rows, p, 0) == {};
    } else {
      FilterCounts(rows, p, k - 1);
      if k in rows && rows[k].deleted {
        FilterInsert(ByNameUpTo(rows, true, k - 1), rows[k], p);
      }
      if k in rows && rows[k].deleted && p(rows[k].name) {
        assert Matching(rows, p, k) == Matching(rows, p, k - 1) + {k};
      } else {
        assert Matching(rows, p, k) == Matching(rows, p, k - 1);
      }
    }
  }

  lemma TombstoneCount(t: Table, lo: Name, hi: Option<Name>)
    requires Valid(t)
    ensures |Tombstones(t, lo, hi)| == |Filter(ByName(t, true), n => Within(lo, hi, n))|
  {
    FilterCounts(t.rows, n => Within(lo, hi, n), t.last);
    assert Matching(t.rows, n => Within(lo, hi, n), t.last) == Tombstones(t, lo, hi);
  }

  /** Cutting sorted rows below the k-th name leaves k of them. */
  lemma CutAt(rs: seq<Record>, lo: Name, k: nat)
    requires Sorted(rs) && k < |Filter(rs, n => LessEq(lo, n))|
    ensures var hi := Filter(rs, n => LessEq(lo, n))[k].name;
            Filter(rs, n => Within(lo, Some(hi), n)) == Filter(rs, n => LessEq(lo, n))[..k]
  {
    hide Filter, Less;
    var above := Filter(rs, n => LessEq(lo, n));
    var hi := above[k].name;
    var page := Filter(rs, n => Within(lo, Some(hi), n));
    FilterSorted(rs, n => LessEq(lo, n));
    FilterSorted(rs, n => Within(lo, Some(hi), n));
    forall x ensures x in page <==> x in above[..k] {
      FilterMembers(rs, n => LessEq(lo, n), x);
      FilterMembers(rs, n => Within(lo, Some(hi), n), x);
      PositionBelow(above, k, x);
    }
    SortedUnique(page, above[..k]);
  }

  lemma PositionBelow(rs: seq<Record>, k: nat, x: Record)
    requires Sorted(rs) && k < |rs|
    ensures x in rs[..k] <==> x in rs && Less(x.name, rs[k].name)
  {
    hide Less;
    if x in rs {
      var j :| 0 <= j < |rs| && rs[j] == x;
      if j < k {
        assert rs[..k][j] == x;
      } else {
        Dichotomy(rs[k].name, x.name);
      }
    }
  }

  lemma PageSize(t: Table, marker: Name, pageSize: nat)
    requires Valid(t) && EndMarker(t, marker, pageSize).Some?
    ensures |Tombstones(t, marker, EndMarker(t, marker, pageSize))| == pageSize
    ensures LessEq(marker, EndMarker(t, marker, pageSize).value)
  {
    hide Filter, Less;
    var all := ByName(t, true);
    var tombs := Filter(all, n => LessEq(marker, n));
    ByNameSorted(t, true, t.last);
    CutAt(all, marker, pageSize);
    TombstoneCount(t, marker, EndMarker(t, marker, pageSize));
    assert tombs[pageSize] in tombs;
    FilterMembers(all, n => LessEq(marker, n), tombs[pageSize]);
  }

  // ------------------------------------------------------------------
  // One page
  // ------------------------------------------------------------------

  /** Tombstones below the marker. */
  function Below(t: Table, marker: Name): set<nat> {
    set i | i in t.rows && t.rows[i].deleted && Less(t.rows[i].name, marker)
  }

  function ExpiredBelow(t: Table, age: Timestamp, marker: Name): set<nat> {
    set i | i in t.rows && t.rows[i].deleted && Less(t.rows[i].name, marker) && t.rows[i].del < age
  }

  lemma BelowMoves(t: Table, age: Timestamp, marker: Name, hi: Name)
    requires LessEq(marker, hi)
    ensures var gone := Expired(t, age, marker, Some(hi));
            Below(Purged(t, gone), hi) == Below(t, marker) + (Tombstones(t, marker, Some(hi)) - gone)
    ensures Below(t, marker) !! Tombstones(t, marker, Some(hi))
  {
    hide Less;
    forall n ensures Less(n, marker) ==> Less(n, hi) {
      if Less(n, marker) { LessEqLess(n, marker, hi); }
    }
    forall n ensures LessEq(marker, n) <==> !Less(n, marker) {
      Dichotomy(marker, n);
    }
  }

  /** A page moves as many tombstones below the marker as it leaves standing. */
  lemma PageCounts(t: Table, age: Timestamp, marker: Name, pageSize: nat)
    requires Valid(t) && EndMarker(t, marker, pageSize).Some?
    ensures var end := EndMarker(t, marker, pageSize);
            var gone := Expired(t, age, marker, end);
            |Below(Purged(t, gone), end.value)| == |Below(t, marker)| + pageSize - |gone|
  {
    hide Less, EndMarker, Below, Tombstones, Expired, Valid;
    var end := EndMarker(t, marker, pageSize);
    var gone, page := Expired(t, age, marker, end), Tombstones(t, marker, end);
    PageSize(t, marker, pageSize);
    BelowMoves(t, age, marker, end.value);
    assert |page - gone| == |page| - |gone| by {
      ExpiredAreTombstones(t, age, marker, end);
      assert page == (page - gone) + gone;
    }
  }

  lemma ExpiredAreTombstones(t: Table, age: Timestamp, lo: Name, hi: Option<Name>)
    ensures Expired(t, age, lo, hi) <= Tombstones(t, lo, hi) <= t.rows.Keys
  {
  }

  /** What was removed below the marker, and what one more page removes. */
  lemma PagesAddUp(t: Table, age: Timestamp, marker: Name, hi: Option<Name>)
    requires hi.Some? ==> LessEq(marker, hi.value)
    ensures var u := Purged(t, ExpiredBelow(t, age, marker));
            var gone := Expired(u, age, marker, hi);
            var after := if hi.Some? then ExpiredBelow(t, age, hi.value) else AllExpired(t, age);
            && after == ExpiredBelow(t, age, marker) + gone
            && ExpiredBelow(t, age, marker) !! gone
            && Purged(u, gone) == Purged(t, after)
  {
    hide Less;
    forall n ensures hi.Some? && Less(n, marker) ==> Less(n, hi.value) {
      if hi.Some? && Less(n, marker) { LessEqLess(n, marker, hi.value); }
    }
    forall n ensures LessEq(marker, n) <==> !Less(n, marker) {
      Dichotomy(marker, n);
    }
    var u := Purged(t, ExpiredBelow(t, age, marker));
    var gone := Expired(u, age, marker, hi);
    var after := if hi.Some? then ExpiredBelow(t, age, hi.value) else AllExpired(t, age);
    assert after == ExpiredBelow(t, age, marker) + gone;
    assert t.rows - ExpiredBelow(t, age, marker) - gone == t.rows - after;
  }

  // ------------------------------------------------------------------
  // The reclaimer
  // ------------------------------------------------------------------

  /** What reclaiming up to the marker, or to the end, takes from a table. */
  function Taken(t: Table, age: Timestamp, marker: Name, finished: bool): set<nat> {
    if finished then AllExpired(t, age) else ExpiredBelow(t, age, marker)
  }

  class TombstoneReclaimer {
    const broker: Broker
    const age: Timestamp
    const pageSize: nat
    var marker: Name
    var remaining: int
    var reclaimed: int
    var finished: bool

    /** Nothing below the marker is left to reclaim, and nothing at all once finished. */
    ghost predicate Valid()
      reads this, broker
    {
      && broker.Valid() && pageSize >= 1
      && Taken(broker.table, age, marker, finished) == {}
    }

    /** `remaining` counts the tombstones the pages so far left standing. */
    ghost predicate Counted()
      reads this, broker
    {
      remaining == |Below(broker.table, marker)|
    }

    constructor (broker: Broker, age: Timestamp, pageSize: nat)
      requires broker.Valid() && pageSize >= 1
      ensures Valid() && Counted() && !finished && reclaimed == 0 && marker == []
      ensures this.broker == broker && this.age == age && this.pageSize == pageSize
    {
      this.broker, this.age, this.pageSize := broker, age, pageSize;
      marker, remaining, reclaimed, finished := [], 0, 0, false;
      new;
      assert Below(broker.table, []) == {} && ExpiredBelow(broker.table, age, []) == {};
    }

    /** `_reclaim`: one page of tombstones, or all the rest. */
    method ReclaimPage()
      requires broker.Valid() && pageSize >= 1 && Counted() && !finished
      modifies this, broker`table, broker`stat, broker`hash, broker`policies
      ensures broker.Valid() && Counted()
      ensures var end := EndMarker(old(broker.table), old(marker), pageSize);
              var gone := Expired(old(broker.table), age, old(marker), end);
              && broker.table == Purged(old(broker.table), gone)
              && reclaimed == old(reclaimed) + |gone|
              && finished == end.None?
              && marker == if end.Some? then end.value else old(marker)
    {
      hide EndMarker, Expired, Below, Less, PoliciesOk;
      ghost var t := broker.table;
      var end := EndMarker(broker.table, marker, pageSize);
      var gone := Expired(broker.table, age, marker, end);
      ExpiredAreTombstones(t, age, marker, end);
      broker.Delete(gone);
      reclaimed := reclaimed + |gone|;
      if end.Some? {
        PageCounts(t, age, marker, pageSize);
        marker := end.value;
        remaining := remaining + (pageSize - |gone|);
      } else {
        assert Below(broker.table, marker) == Below(t, marker) by {
          RestIsAbove(t, age, marker);
        }
        finished := true;
      }
    }

    /** `reclaim`: exactly the old tombstones go, and they are counted. */
    method Reclaim()
      requires Valid() && Counted()
      modifies this, broker`table, broker`stat, broker`hash, broker`policies
      ensures Valid() && Counted() && finished
      ensures broker.table == Purged(old(broker.table), AllExpired(old(broker.table), age))
      ensures reclaimed == old(reclaimed) + |AllExpired(old(broker.table), age)|
      ensures old(finished) || EndMarker(old(broker.table), old(marker), pageSize).None? ==> marker == old(marker)
    {
      hide EndMarker, Expired, ExpiredBelow, AllExpired, Below, Less;
      ghost var start := broker.table;
      assert start.rows - {} == start.rows;
      while !finished
        invariant broker.Valid() && Counted()
        invariant broker.table == Purged(start, Taken(start, age, marker, finished))
        invariant reclaimed == old(reclaimed) + |Taken(start, age, marker, finished)|
        invariant old(finished) ==> finished && marker == old(marker)
        invariant EndMarker(start, old(marker), pageSize).None? ==>
                    marker == old(marker) && (!finished ==> broker.table == start)
        decreases !finished, Tombstones(broker.table, marker, None)
      {
        ghost var end := EndMarker(broker.table, marker, pageSize);
        if end.Some? {
          PageSize(broker.table, marker, pageSize);
          PageAdvances(broker.table, age, marker, pageSize);
        }
        PagesAddUp(start, age, marker, end);
        ReclaimPage();
      }
      NothingLeft(start, age);
    }

    /** `get_tombstone_count`: the first call counts what is left; each later one adds the last page again. */
    method GetTombstoneCount() returns (count: int)
      requires Valid() && (!finished ==> Counted())
      modifies this, broker`table, broker`stat, broker`hash, broker`policies
      ensures Valid() && finished && count == remaining
      ensures old(Counted()) ==> count == |AllTombstones(broker.table)|
      ensures broker.table == Purged(old(broker.table), AllExpired(old(broker.table), age))
      ensures old(finished) ==> count == old(remaining) + |Tombstones(broker.table, marker, None)|
      ensures old(finished) || EndMarker(old(broker.table), old(marker), pageSize).None? ==> marker == old(marker)
    {
      hide Less;
      ghost var t := broker.table;
      if !finished {
        Reclaim();
      } else {
        assert t.rows - {} == t.rows;
      }
      SplitAtMarker(broker.table, marker);
      var tombstones := |Tombstones(broker.table, marker, None)|;
      remaining := remaining + tombstones;
      count := remaining;
    }

    /**
     Asked twice, a new reclaimer is right the first time.  The second time it is right if and only if
     the last page has no tombstone, and twice too high if all of them fit on one page.
     */
    method CountTwice() returns (first: int, second: int)
      requires Valid() && Counted() && !finished && marker == []
      modifies this, broker`table, broker`stat, broker`hash, broker`policies
      ensures first == |AllTombstones(broker.table)|
      ensures second == first <==> Tombstones(broker.table, marker, None) == {}
      ensures broker.table == Purged(old(broker.table), AllExpired(old(broker.table), age))
      ensures |AllTombstones(old(broker.table))| <= pageSize ==> second == 2 * first
    {
      hide EndMarker, Less;
      ghost var t := broker.table;
      first := GetTombstoneCount();
      ghost var u := broker.table;
      NothingLeft(t, age);
      second := GetTombstoneCount();
      assert u.rows - {} == u.rows;
      if |AllTombstones(t)| <= pageSize {
        OnePage(t, pageSize);
        AllAreAbove(u);
      }
    }
  }

  lemma RestIsAbove(t: Table, age: Timestamp, marker: Name)
    ensures Below(Purged(t, Expired(t, age, marker, None)), marker) == Below(t, marker)
  {
    hide Less;
    forall n ensures LessEq(marker, n) <==> !Less(n, marker) {
      Dichotomy(marker, n);
    }
  }

  lemma PageAdvances(t: Table, age: Timestamp, marker: Name, pageSize: nat)
    requires Valid(t) && pageSize >= 1 && EndMarker(t, marker, pageSize).Some?
    ensures var end := EndMarker(t, marker, pageSize);
            Tombstones(Purged(t, Expired(t, age, marker, end)), end.value, None) < Tombstones(t, marker, None)
  {
    hide Less, EndMarker, Valid;
    var end := EndMarker(t, marker, pageSize);
    PageSize(t, marker, pageSize);
    var page := Tombstones(t, marker, end);
    var i :| i in page;
    forall n ensures LessEq(end.value, n) ==> LessEq(marker, n) && !Less(n, end.value) {
      Dichotomy(end.value, n);
      if LessEq(end.value, n) && marker != end.value { LessEqLess(marker, end.value, n); }
    }
    assert i in Tombstones(t, marker, None);
  }

  lemma NothingLeft(t: Table, age: Timestamp)
    ensures AllExpired(Purged(t, AllExpired(t, age)), age) == {}
  {
  }

  lemma SplitAtMarker(t: Table, marker: Name)
    ensures |AllTombstones(t)| == |Below(t, marker)| + |Tombstones(t, marker, None)|
  {
    hide Less;
    forall n ensures LessEq(marker, n) <==> !Less(n, marker) {
      Dichotomy(marker, n);
    }
    assert AllTombstones(t) == Below(t, marker) + Tombstones(t, marker, None);
    assert Below(t, marker) !! Tombstones(t, marker, None);
  }

  lemma AllAreAbove(t: Table)
    ensures Tombstones(t, [], None) == AllTombstones(t)
  {
  }

  lemma OnePage(t: Table, pageSize: nat)
    requires Valid(t) && |AllTombstones(t)| <= pageSize
    ensures EndMarker(t, [], pageSize).None?
  {
    AllAreAbove(t);
    TombstoneCount(t, [], None);
    SameFilter(ByName(t, true), n => Within([], None, n), n => LessEq([], n));
  }

  lemma {:induction false} SameFilter(rs: seq<Record>, p: Name -> bool, q: Name -> bool)
    requires forall n :: p(n) <==> q(n)
    ensures Filter(rs, p) == Filter(rs, q)
  {
    if rs == [] {
    } else {
      SameFilter(rs[1..], p, q);
    }
  }

  lemma OneCounts(t: Table)
    requires t == Table(map[1 := Record([], 1, 2, 0, 0, true, 0)], 1)
    ensures AllTombstones(t) == {1} && Purged(t, AllExpired(t, 1)) == t
  {
    assert AllExpired(t, 1) == {};
  }

  lemma FirstRow(rec: Record)
    ensures Find(EMPTY, rec.name).None?
    ensures Table(EMPTY.rows[EMPTY.last + 1 := rec], EMPTY.last + 1) == Table(map[1 := rec], 1)
  {
    FindNone(EMPTY, rec.name);
  }

  /** One tombstone too young to go is counted as one, and then as two. */
  method SecondCountIsWrong() returns (first: int, second: int)
    ensures first == 1 && second == 2
  {
    hide *;
    var broker := new Broker(0, (k: Digest.HashKey) => 0, r => 0, false);
    FirstRow(Record([], 1, 2, 0, 0, true, 0));
    broker.Insert(Record([], 1, 2, 0, 0, true, 0));
    OneCounts(broker.table);
    var reclaimer := new TombstoneReclaimer(broker, 1, 10000);
    first, second := reclaimer.CountTwice();
  }
}
