/**
 Requests name a node, not a database. One that was meant for a removed database and reaches its
 successor can leave a sync point there that does not hold: exactly when, for both kinds of request.
 */
module StaleRequests {
  import opened Wrappers
  import opened Rows
  import opened Stamps
  import opened SyncTables
  import opened Replication
  import opened ReplicationRuns

  // ------------------------------------------------------------------
  // merge_items
  // ------------------------------------------------------------------

  /** Whatever the receiver is, and however the source grew since: the batch itself leaves no gap above lo. */
  lemma BatchCoversAbove(peer: Table, read: Table, t: Table, lo: int, count: nat)
    requires Valid(peer) && Grows(read, t) && ItemsSince(read, lo, count) != []
    ensures var items := ItemsSince(read, lo, count);
            var peer' := MergeItems(peer, Records(items));
            && lo < TopRow(items) <= t.last
            && forall i :: i in t.rows && lo < i <= TopRow(items) ==> Covers(peer'.rows, t.rows[i])
  {
    hide MergeItems, ItemsSince;
    var items := ItemsSince(read, lo, count);
    var peer' := MergeItems(peer, Records(items));
    BatchHasNoGaps(read, lo, count);
    TopRowIsLast(items);
    MergeItemsGrows(peer, Records(items));
    forall i | i in t.rows && lo < i <= TopRow(items) ensures Covers(peer'.rows, t.rows[i]) {
      var x := Item(i, t.rows[i]);
      var k :| 0 <= k < |items| && items[k] == x;
      assert Records(items)[k] == t.rows[i];
    }
  }

  lemma MergeSyncHoldsIff(rows: RowMap, of: RowMap, points: SyncTable, t: DbId, p: int)
    requires CoversUpTo(rows, of, GetSync(points, t))
    ensures CoversUpTo(rows, of, GetSync(MergeSync(points, t, p), t)) <==> CoversUpTo(rows, of, p)
  {
  }

  lemma CoversUpToGrows(a: RowMap, b: RowMap, of: RowMap, p: int)
    requires CoversUpTo(a, of, p) && CoversAll(b, a)
    ensures CoversUpTo(b, of, p)
  {
    forall i | i in of && i <= p ensures Covers(b, of[i]) {
      CoversTransitive(b, a, of[i]);
    }
  }

  /**
   A batch that reaches any database leaves a point for its source that holds if and only if that
   database, with the batch merged, covers the source's rows up to where the batch began.
   */
  lemma StaleBatchSoundIff(s: System, m: Msg, read: Table, count: nat)
    requires m.MergeItemsReq? && m.dst in s.at && s.at[m.dst] in s.dbs && m.source in s.dbs && m.source != s.at[m.dst]
    requires Grows(read, s.dbs[m.source].table) && m.items == ItemsSince(read, m.lo, count) && m.items != []
    requires var db := s.dbs[s.at[m.dst]];
             Valid(db.table) && CoversUpTo(db.table.rows, s.dbs[m.source].table.rows, GetSync(db.incoming, m.source))
    ensures var t := s.dbs[m.source].table;
            var db := HandleItems(s, m).dbs[s.at[m.dst]];
            CoversUpTo(db.table.rows, t.rows, GetSync(db.incoming, m.source)) <==>
                CoversUpTo(db.table.rows, t.rows, m.lo)
  {
    hide MergeItems, ItemsSince, TopRow, Records, MergeSync, GetSync;
    var t, db := s.dbs[m.source].table, s.dbs[s.at[m.dst]];
    var after := HandleItems(s, m).dbs[s.at[m.dst]];
    BatchCoversAbove(db.table, read, t, m.lo, count);
    MergeItemsGrows(db.table, Records(m.items));
    CoversUpToGrows(db.table.rows, after.table.rows, t.rows, GetSync(db.incoming, m.source));
    MergeSyncHoldsIff(after.table.rows, t.rows, db.incoming, m.source, TopRow(m.items));
  }

  lemma {:induction false} NoneNamed(recs: seq<Record>, n: Name)
    requires forall k :: 0 <= k < |recs| ==> recs[k].name != n
    ensures OfRecords(recs, n) == None
  {
    if recs != [] { NoneNamed(recs[..|recs| - 1], n); }
  }

  /** A row that was not in the batch is not covered by what an empty table makes of the batch. */
  lemma OnlyTheBatch(t: Table, lo: int, count: nat, i: nat)
    requires Valid(t) && i in t.rows && i <= lo
    ensures !Covers(MergeItems(EMPTY, Records(ItemsSince(t, lo, count))).rows, t.rows[i])
  {
    var items := ItemsSince(t, lo, count);
    var recs, n := Records(items), t.rows[i].name;
    forall k | 0 <= k < |recs| ensures recs[k].name != n {
      assert items[k] in RowsAfter(t, lo);
    }
    NoneNamed(recs, n);
    MergeItemsGrows(EMPTY, recs);
    MergeItemsStamps(EMPTY, recs, n);
    CoversIsNewer(MergeItems(EMPTY, recs), t.rows[i]);
  }

  /** So at a new database every batch but the first leaves one that does not hold. */
  lemma StaleBatchOverclaims(cfg: Config, s: System, m: Msg, id: DbId, count: nat, i: nat)
    requires m in s.msgs && m.MergeItemsReq? && m.dst !in s.at && id !in s.ids && id !in s.dbs
    requires m.source in s.dbs && Valid(s.dbs[m.source].table)
    requires m.items == ItemsSince(s.dbs[m.source].table, m.lo, count) && m.items != []
    requires i in s.dbs[m.source].table.rows && i <= m.lo
    ensures var s1 := Create(s, m.dst, id);
            var s2 := HandleItems(s1, m);
            && Next(cfg, s, DoCreate(m.dst, id), s1) && Next(cfg, s1, DoHandleItems(m), s2)
            && i <= GetSync(s2.dbs[id].incoming, m.source)
            && !Covers(s2.dbs[id].table.rows, s2.dbs[m.source].table.rows[i]) && !PointsSound(s2)
  {
    hide MergeItems, ItemsSince, TopRow, Records, Covers;
    var t := s.dbs[m.source].table;
    var s2 := HandleItems(Create(s, m.dst, id), m);
    BatchHasNoGaps(t, m.lo, count);
    TopRowIsLast(m.items);
    OnlyTheBatch(t, m.lo, count, i);
    assert s2.dbs[m.source].table == t && m.source in s2.dbs[id].incoming;
  }

  // ------------------------------------------------------------------
  // merge_syncs
  // ------------------------------------------------------------------

  /** Every point of the table holds of the rows of the databases that still exist. */
  ghost predicate PointsHold(s: System, rows: RowMap, points: SyncTable) {
    forall t :: t in points && t in s.dbs ==> CoversUpTo(rows, s.dbs[t].table.rows, points[t])
  }

  lemma MergeSyncsHoldIff(s: System, rows: RowMap, points: SyncTable, more: SyncTable)
    requires PointsHold(s, rows, points)
    ensures PointsHold(s, rows, MergeSyncs(points, more)) <==> PointsHold(s, rows, more)
  {
    var merged := MergeSyncs(points, more);
    if PointsHold(s, rows, merged) {
      forall t | t in more && t in s.dbs ensures CoversUpTo(rows, s.dbs[t].table.rows, more[t]) {
        assert t in merged && more[t] <= merged[t];
      }
    }
    if PointsHold(s, rows, more) {
      forall t | t in merged && t in s.dbs ensures CoversUpTo(rows, s.dbs[t].table.rows, merged[t]) {
        assert (t in points && merged[t] == points[t]) || (t in more && merged[t] == more[t]);
      }
    }
  }

  /** Adopting a sync table leaves sound points at any database if and only if it covers what they claim. */
  lemma StaleSyncsSoundIff(s: System, m: Msg)
    requires m.MergeSyncsReq? && m.dst in s.at && s.at[m.dst] in s.dbs
    requires PointsHold(s, s.dbs[s.at[m.dst]].table.rows, s.dbs[s.at[m.dst]].incoming)
    ensures var rows := s.dbs[s.at[m.dst]].table.rows;
            PointsHold(s, rows, HandleSyncs(s, m).dbs[s.at[m.dst]].incoming) <==> PointsHold(s, rows, m.points)
  {
    var db := s.dbs[s.at[m.dst]];
    MergeSyncsHoldIff(s, db.table.rows, db.incoming, m.points);
  }

  /** So at a new, empty database every adopted point that reaches a row is one that does not hold. */
  lemma StaleSyncsOverclaim(cfg: Config, s: System, m: Msg, id: DbId, t: DbId, i: nat)
    requires m in s.msgs && m.MergeSyncsReq? && m.dst !in s.at && id !in s.ids && id !in s.dbs
    requires t in s.dbs && t in m.points && i in s.dbs[t].table.rows && i <= m.points[t]
    ensures var s1 := Create(s, m.dst, id);
            var s2 := HandleSyncs(s1, m);
            && Next(cfg, s, DoCreate(m.dst, id), s1) && Next(cfg, s1, DoHandleSyncs(m), s2)
            && i <= GetSync(s2.dbs[id].incoming, t)
            && !Covers(s2.dbs[id].table.rows, s2.dbs[t].table.rows[i]) && !PointsSound(s2)
  {
    var s2 := HandleSyncs(Create(s, m.dst, id), m);
    assert s2.dbs[t].table == s.dbs[t].table && t in s2.dbs[id].incoming;
  }
}
