/**
 `rsync_then_merge` and the exchange of metadata as the code performs them, on two
 brokers, and what the sync point recorded after a remote merge is worth.
 */
module Replicator {
  import opened Wrappers
  import opened Rows
  import opened Digest
  import opened Stamps
  import opened SyncTables
  import opened Pending
  import opened Metadata
  import opened AccountBroker
  import opened Usync

  // ------------------------------------------------------------------
  // rsync_then_merge
  // ------------------------------------------------------------------

  /** All the rows of a table, in ROWID order. */
  function AllRows(t: Table): seq<Item> {
    RowsAfter(t, -1)
  }

  lemma RecordsAppend(a: seq<Item>, b: seq<Item>)
    ensures Records(a + b) == Records(a) + Records(b)
  {
  }

  /** Reading rows page by page leaves what follows the last one. */
  lemma NextBatch(t: Table, start: int, count: nat)
    requires count >= 1
    ensures ItemsSince(t, start, count) == [] <==> RowsAfter(t, start) == []
    ensures var b := ItemsSince(t, start, count);
            b != [] ==> RowsAfter(t, start) == b + RowsAfter(t, b[|b| - 1].rowid)
  {
    if ItemsSince(t, start, count) != [] { BatchSplit(t, start, count); }
  }

  /** What was read so far and what is left to read make up all the rows. */
  ghost predicate Reads(rows: Table, done: seq<Item>, point: int) {
    done + RowsAfter(rows, point) == AllRows(rows)
  }

  lemma ReadsStep(rows: Table, done: seq<Item>, point: int, count: nat)
    requires count >= 1 && Reads(rows, done, point)
    ensures ItemsSince(rows, point, count) == [] ==> done == AllRows(rows)
    ensures var b := ItemsSince(rows, point, count);
            b != [] ==>
              && Reads(rows, done + b, b[|b| - 1].rowid)
              && |RowsAfter(rows, b[|b| - 1].rowid)| < |RowsAfter(rows, point)|
  {
    hide ItemsSince, RowsAfter, AllRows;
    var b := ItemsSince(rows, point, count);
    NextBatch(rows, point, count);
    if b != [] {
      assert done + (b + RowsAfter(rows, b[|b| - 1].rowid)) == done + b + RowsAfter(rows, b[|b| - 1].rowid);
    }
  }

  lemma MergedSoFar(t: Table, done: seq<Item>, items: seq<Item>)
    ensures MergeItems(MergeItems(t, Records(done)), Records(items)) == MergeItems(t, Records(done + items))
  {
    RecordsAppend(done, items);
    MergeItemsAppend(t, Records(done), Records(items));
  }

  /**
   The loop: page by page the copy takes over the rows of the existing database, to which others
   may write up to `writes` times meanwhile.
   */
  method TakeOverRows(copy: Broker, existing: Broker, pageSize: nat, writes: nat) returns (ghost seen: Table)
    requires copy.Valid() && existing.Valid() && copy != existing && !existing.skipCommits && pageSize >= 1
    modifies copy`table, copy`stat, copy`hash, copy`policies, copy`incoming
    modifies existing`table, existing`stat, existing`hash, existing`policies, existing`incoming, existing`pending,
             existing`pendingSize
    ensures copy.Valid() && existing.Valid() && existing.table == seen
    ensures copy.incoming == old(copy.incoming) && existing.incoming == old(existing.incoming)
    ensures Grows(old(copy.table), copy.table) && Grows(old(existing.table), seen)
    ensures CoversAll(copy.table.rows, seen.rows)
    ensures writes == 0 ==> existing.State() == Commit(old(existing.State()), [])
    ensures writes == 0 ==> copy.table == MergeItems(old(copy.table), Records(AllRows(existing.table)))
  {
    hide Sound, CoversAll, Grows, RowsAfter, ItemsSince, MergeItems, AllRows, Reads, Commit, PoliciesOk,
         SumOfPolicies, Sum, TableHash, Records;
    var left := writes;
    var point: int := -1;
    ghost var c0, t0, done: seq<Item> := copy.table, existing.table, [];
    var objects := ReadBatch(existing, point, pageSize, writes == 0);
    seen := existing.table;
    TakeOverStart(c0, seen);
    while objects != []
      invariant copy.Valid() && existing.Valid() && existing.table == seen && left <= writes
      invariant existing.State().pending == [] && existing.pendingSize == 0
      invariant copy.incoming == old(copy.incoming) && existing.incoming == old(existing.incoming)
      invariant Grows(c0, copy.table) && Grows(t0, seen) && Sound(copy.table, seen, point)
      invariant objects == ItemsSince(seen, point, pageSize)
      invariant writes == 0 ==> existing.State() == Commit(old(existing.State()), [])
      invariant writes == 0 ==> copy.table == MergeItems(c0, Records(done)) && Reads(seen, done, point)
      decreases left, |RowsAfter(seen, point)|
    {
      ghost var before, t := copy.table, seen;
      BatchArrives(before, t, point, pageSize);
      copy.MergeItems(objects, None);
      GrowsTransitive(c0, before, copy.table);
      MergedSoFar(c0, done, objects);
      BatchShrinks(t, point, pageSize);
      if writes == 0 { ReadsStep(t, done, point, pageSize); }
      done := done + objects;
      point := objects[|objects| - 1].rowid;
      var busy := *;
      busy := busy && left > 0;
      NothingPending(t);
      objects := ReadBatch(existing, point, pageSize, !busy);
      seen := existing.table;
      PointsGrow(copy.table, t, seen, point, point);
      GrowsTransitive(t0, t, seen);
      if busy {
        left := left - 1;
      }
    }
    NothingLeft(copy.table, seen, point, pageSize);
    if writes == 0 { ReadsStep(seen, done, point, pageSize); }
  }

  lemma TakeOverStart(c0: Table, seen: Table)
    ensures Sound(c0, seen, -1) && Grows(c0, c0) && MergeItems(c0, Records([])) == c0 && Reads(seen, [], -1)
  {
    GrowsReflexive(c0);
    assert [] + RowsAfter(seen, -1) == AllRows(seen);
  }

  lemma BatchShrinks(t: Table, point: int, count: nat)
    requires ItemsSince(t, point, count) != []
    ensures var b := ItemsSince(t, point, count);
            |RowsAfter(t, b[|b| - 1].rowid)| < |RowsAfter(t, point)|
  {
    BatchSplit(t, point, count);
  }

  /** What a later row of the existing database becomes of, once the copy has taken its place. */
  lemma OnlyLaterRowsMatter(copy: Table, seen: Table, existing: Table)
    requires CoversAll(copy.rows, seen.rows) && Grows(seen, existing)
    ensures CoversAll(copy.rows, existing.rows) <==>
            forall i :: i in existing.rows && i > seen.last ==> Covers(copy.rows, existing.rows[i])
  {
  }

  /** Others may also bring sync points and metadata. */
  method OthersTouch(b: Broker, smooth: bool)
    modifies b`incoming, b`outgoing, b`metadata
    ensures b.outgoing == old(b.outgoing)
    ensures smooth ==> b.incoming == old(b.incoming) && b.metadata == old(b.metadata)
    ensures Raised(old(b.incoming), b.incoming) && Redundant(b.metadata, old(b.metadata))
  {
    hide Raised, Redundant, MergeSyncs, Update;
    var points: SyncTable, updates: Metadata := *, *;
    if smooth {
      points, updates := map[], map[];
    }
    MergeSyncsRaises(b.incoming, points);
    UpdateKeeps(b.metadata, updates);
    NoUpdates(b.incoming, b.metadata);
    b.MergePoints(points, true);
    b.UpdateMetadata(updates);
  }

  lemma NoUpdates(points: SyncTable, md: Metadata)
    ensures MergeSyncs(points, map[]) == points && Update(md, map[]) == md
  {
  }

  /**
   `rsync_then_merge`. Unless a file is missing at either test, the received copy takes over the rows
   of the existing database, then its sync points, an id of its own and the metadata, and takes its
   place. No row is lost with the existing database if and only if the copy covers those that came
   after the last page was read; no metadata is, if and only if none newer came after it was read.
   */
  method RsyncThenMerge(copy: Broker, existing: Broker, remote: DbId, newId: DbId, pageSize: nat, writes: nat,
                        bothThere: bool, stillThere: bool)
    returns (replaced: bool, ghost seen: Table, ghost points: SyncTable, ghost meta: Metadata)
    requires copy.Valid() && existing.Valid() && copy != existing && !existing.skipCommits && pageSize >= 1
    modifies copy`table, copy`stat, copy`hash, copy`policies, copy`id, copy`incoming, copy`outgoing, copy`metadata
    modifies existing`table, existing`stat, existing`hash, existing`policies, existing`incoming, existing`outgoing,
             existing`pending, existing`pendingSize, existing`metadata
    ensures replaced == (bothThere && stillThere)
    ensures copy.Valid() && existing.Valid() && copy.outgoing == old(copy.outgoing)
    ensures existing.outgoing == old(existing.outgoing)
    ensures !bothThere ==> copy.table == old(copy.table) && copy.id == old(copy.id)
    ensures !bothThere ==> copy.incoming == old(copy.incoming) && copy.metadata == old(copy.metadata)
    ensures !bothThere ==> existing.table == old(existing.table)
    ensures bothThere ==>
              && Grows(old(copy.table), copy.table) && Grows(old(existing.table), seen) && Grows(seen, existing.table)
              && (CoversAll(copy.table.rows, existing.table.rows) <==>
                  forall i :: i in existing.table.rows && i > seen.last ==>
                    Covers(copy.table.rows, existing.table.rows[i]))
              && copy.id == newId && copy.metadata == Update(old(copy.metadata), meta)
              && Redundant(meta, old(existing.metadata)) && Redundant(existing.metadata, meta)
              && (Update(copy.metadata, existing.metadata) == copy.metadata <==>
                  Redundant(copy.metadata, existing.metadata))
              && copy.incoming == MergeSyncs(old(copy.incoming), points)[remote := LastRow(copy.table)]
              && Raised(old(existing.incoming), points) && Raised(points, existing.incoming)
    ensures bothThere && writes == 0 ==>
              && existing.State() == Commit(old(existing.State()), []) && seen == existing.table
              && copy.table == MergeItems(old(copy.table), Records(AllRows(existing.table)))
              && points == existing.incoming == old(existing.incoming)
              && meta == existing.metadata == old(existing.metadata)
  {
    hide CoversAll, Covers, Grows, AllRows, MergeItems, LastRow, MergeSyncs, Update, Redundant, Raised, Commit,
         PoliciesOk, SumOfPolicies, Sum, TableHash, Rows.Valid, Records;
    seen, points, meta := existing.table, existing.incoming, existing.metadata;
    if !bothThere {
      return false, seen, points, meta;
    }
    seen := TakeOverRows(copy, existing, pageSize, writes);
    OthersTouch(existing, writes == 0);
    points := existing.incoming;
    ghost var between := existing.metadata;
    copy.MergePoints(existing.incoming, true);
    copy.NewId(newId, remote);
    OthersTouch(existing, writes == 0);
    meta := existing.metadata;
    RedundantTransitive(old(existing.metadata), between, meta);
    ghost var later := existing.incoming;
    copy.UpdateMetadata(existing.metadata);
    OthersTouch(existing, writes == 0);
    OthersWrite(existing, writes == 0);
    RaisedTransitive(points, later, existing.incoming);
    OnlyLaterRowsMatter(copy.table, seen, existing.table);
    RedundantIffUnchanged(copy.metadata, existing.metadata);
    return stillThere, seen, points, meta;
  }

  // ------------------------------------------------------------------
  // The metadata in a sync exchange
  // ------------------------------------------------------------------

  /**
   A `sync` request and its answer each carry the sender's metadata; the peer's was read before it
   was updated.  Both ends hold the same afterwards if and only if no timestamp came with two values.
   */
  method ExchangeMetadata(local: Broker, peer: Broker)
    requires local != peer
    modifies local`metadata, peer`metadata
    ensures local.metadata == Update(old(local.metadata), old(peer.metadata))
    ensures peer.metadata == Update(old(peer.metadata), old(local.metadata))
    ensures local.metadata == peer.metadata <==> Consistent(old(local.metadata), old(peer.metadata))
  {
    ExchangeAgreesIff(local.metadata, peer.metadata);
    var info := peer.metadata;
    assert Update(info, map[]) == info && Update(local.metadata, map[]) == local.metadata;
    if local.metadata != map[] {
      peer.UpdateMetadata(local.metadata);
    }
    if info != map[] {
      local.UpdateMetadata(info);
    }
  }

  lemma StampsOfStep(t: Table, i: nat, n: Name)
    requires i in t.rows && i <= t.last
    ensures OfRecords(Records(From(t, i)), n) == Newest(OfRecord(t.rows[i], n), OfRecords(Records(From(t, i + 1)), n))
  {
    var x := Item(i, t.rows[i]);
    RecordsAppend([x], From(t, i + 1));
    OfRecordsAppend(Records([x]), Records(From(t, i + 1)), n);
    assert Records([x]) == [x.rec] && [x.rec][..0] == [];
  }

  ghost predicate NamedFrom(t: Table, i: nat, n: Name) {
    exists k :: k in t.rows && k >= i && t.rows[k].name == n
  }

  lemma NamedFromStep(t: Table, i: nat, n: Name)
    requires Valid(t)
    ensures NamedFrom(t, i, n) <==> (i in t.rows && t.rows[i].name == n) || NamedFrom(t, i + 1, n)
    ensures i in t.rows && t.rows[i].name == n ==> !NamedFrom(t, i + 1, n)
  {
    if k :| k in t.rows && k >= i && t.rows[k].name == n {
      assert k == i || NamedFrom(t, i + 1, n);
    }
  }

  /** The rows from ROWID i on give the stamp of the row under n, if it is among them. */
  lemma {:induction false} StampsOfRows(t: Table, i: nat, n: Name)
    requires Valid(t)
    ensures OfRecords(Records(From(t, i)), n) == if NamedFrom(t, i, n) then OfTable(t, n) else None
    decreases t.last + 1 - i
  {
    hide OfRecords, Records, NamedFrom, Find;
    if i > t.last {
      NoRecords(n);
      assert Records([]) == [];
      PastTheEnd(t, i, n);
    } else {
      StampsOfRows(t, i + 1, n);
      NamedFromStep(t, i, n);
      if i in t.rows {
        StampsOfStep(t, i, n);
        FindUnique(t, i);
      }
    }
  }

  lemma PastTheEnd(t: Table, i: nat, n: Name)
    requires Valid(t) && i > t.last
    ensures !NamedFrom(t, i, n)
  {
  }

  lemma StampsOfAllRows(t: Table, n: Name)
    requires Valid(t)
    ensures OfRecords(Records(AllRows(t)), n) == OfTable(t, n)
  {
    StampsOfRows(t, 0, n);
    FindNone(t, n);
  }

  /** The merged database holds, under every name, the newest of both databases' timestamps. */
  lemma RemoteMergeIsNewest(copy: Table, existing: Table, n: Name)
    requires Valid(copy) && Valid(existing)
    ensures OfTable(MergeItems(copy, Records(AllRows(existing))), n) == Newest(OfTable(copy, n), OfTable(existing, n))
  {
    MergeItemsStamps(copy, Records(AllRows(existing)), n);
    StampsOfAllRows(existing, n);
  }

  // ------------------------------------------------------------------
  // The sync point a remote merge records
  // ------------------------------------------------------------------

  lemma {:induction false} FromEnds(t: Table, i: nat)
    requires i <= t.last && t.last in t.rows
    ensures From(t, i) != [] && From(t, i)[|From(t, i)| - 1].rowid == t.last
    decreases t.last - i
  {
    if i == t.last {
      assert From(t, i + 1) == [];
    } else {
      FromEnds(t, i + 1);
    }
  }

  lemma LastIsPresent(t: Table, recs: seq<Record>)
    requires recs != []
    ensures var u := MergeItems(t, recs);
            u.last in u.rows
  {
  }

  lemma NoRows(t: Table)
    requires Valid(t)
    ensures AllRows(t) == [] <==> t.rows == map[]
  {
    if k :| k in t.rows {
      assert Item(k, t.rows[k]) in AllRows(t);
    } else {
      assert t.rows == map[];
      HasMember(AllRows(t));
    }
  }

  lemma LastOfTaken(copy: Table, recs: seq<Record>)
    requires Valid(copy) && recs != []
    ensures LastRow(MergeItems(copy, recs)) == copy.last + |recs|
  {
    hide MergeItems;
    MergeItemsGrows(copy, recs);
    LastIsPresent(copy, recs);
    FromEnds(MergeItems(copy, recs), 0);
  }

  /**
   `newid` records the merged copy's highest ROWID as the sender's sync point.  That is within the
   rows the sender had when it was copied if and only if the existing database had no rows;
   otherwise it is too high by the number of rows taken over.
   */
  lemma RecordedPointSoundIff(copy: Table, existing: Table)
    requires Valid(copy) && Valid(existing)
    ensures var merged := MergeItems(copy, Records(AllRows(existing)));
            && (LastRow(merged) <= MaxRow(copy) <==> existing.rows == map[])
            && (existing.rows != map[] ==> LastRow(merged) == copy.last + |AllRows(existing)|)
  {
    hide MergeItems, LastRow, AllRows, CoversAll, Grows, Covers;
    NoRows(existing);
    if existing.rows == map[] {
      LastRowBounded(copy);
      MergeNothing(copy);
    } else {
      LastOfTaken(copy, Records(AllRows(existing)));
    }
  }

  /**
   What the point hides: after a remote merge onto a database with rows, the sender finds itself in
   sync and sends nothing for exactly as many further records as rows were taken over.
   */
  lemma RecordedPointHidesRows(copy: Table, existing: Table, recs: seq<Record>)
    requires Valid(copy) && Valid(existing) && existing.rows != map[]
    ensures var merged := MergeItems(copy, Records(AllRows(existing)));
            var sender := MergeItems(copy, recs);
            && (LastRow(merged) >= MaxRow(sender) <==> |recs| <= |AllRows(existing)|)
            && (LastRow(merged) >= MaxRow(sender) ==> RowsAfter(sender, LastRow(merged)) == [])
  {
    hide MergeItems, LastRow, AllRows;
    RecordedPointSoundIff(copy, existing);
    NoRows(existing);
    MergeItemsGrows(copy, recs);
  }

  lemma LastOfMerge(copy: Table, recs: seq<Record>)
    requires Valid(copy)
    ensures MergeItems(copy, recs).last == copy.last + |recs| && Valid(MergeItems(copy, recs))
  {
    MergeItemsGrows(copy, recs);
  }

  lemma EarlyRow(copy: Table, recs: seq<Record>, k: nat) returns (i: nat)
    requires Valid(copy) && k < |recs|
    ensures i in MergeItems(copy, recs).rows && MergeItems(copy, recs).rows[i].name == recs[k].name
    ensures i <= MergeItems(copy, recs).last
  {
    MergeItemsGrows(copy, recs);
    assert recs[k] in recs;
    i :| i in MergeItems(copy, recs).rows && Newer(MergeItems(copy, recs).rows[i], recs[k]);
  }

  /** What the point asks of the receiver, if the sender took `early` up to it and `late` after it. */
  ghost predicate CoversLastWords(peer: Table, early: seq<Record>, late: seq<Record>) {
    forall k :: 0 <= k < |early| && Absent(late, early[k].name) ==> Covers(peer.rows, early[k])
  }

  lemma PointMeansLastWords(peer: Table, copy: Table, early: seq<Record>, late: seq<Record>)
    requires Valid(peer) && Valid(copy) && CoversAll(peer.rows, copy.rows)
    requires CoversUpTo(peer.rows, MergeItems(MergeItems(copy, early), late).rows, copy.last + |early|)
    ensures CoversLastWords(peer, early, late)
  {
    hide MergeItems, Covers, CoversAll, Absent;
    LastOfMerge(copy, early);
    forall k | 0 <= k < |early| && Absent(late, early[k].name) ensures Covers(peer.rows, early[k]) {
      var i := EarlyRow(copy, early, k);
      UntouchedRows(MergeItems(copy, early), late, i);
      MergedRowCoveredIff(peer, copy, early, i);
    }
  }

  lemma LastWordsMeanPoint(peer: Table, copy: Table, early: seq<Record>, late: seq<Record>)
    requires Valid(peer) && Valid(copy) && CoversAll(peer.rows, copy.rows) && CoversLastWords(peer, early, late)
    ensures CoversUpTo(peer.rows, MergeItems(MergeItems(copy, early), late).rows, copy.last + |early|)
  {
    hide MergeItems, Covers, CoversAll, Absent;
    var u := MergeItems(copy, early);
    var sender := MergeItems(u, late);
    LastOfMerge(copy, early);
    forall i | i in sender.rows && i <= copy.last + |early| ensures Covers(peer.rows, sender.rows[i]) {
      UntouchedRows(u, late, i);
      MergedRowCoveredIff(peer, copy, early, i);
    }
  }

  lemma NoRowsAbove(a: RowMap, t: Table, p: int)
    requires Valid(t) && p >= t.last
    ensures CoversUpTo(a, t.rows, p) <==> CoversUpTo(a, t.rows, t.last)
  {
  }

  /**
   Whatever the sender takes after it was copied, the recorded point holds of it if and only if the
   receiver covers those of the next records, as many as rows were taken over, whose names do not come
   again later.
   */
  lemma RecordedPointHoldsIff(copy: Table, existing: Table, recs: seq<Record>)
    requires Valid(copy) && Valid(existing) && existing.rows != map[]
    ensures var merged := MergeItems(copy, Records(AllRows(existing)));
            var n := if |AllRows(existing)| < |recs| then |AllRows(existing)| else |recs|;
            CoversUpTo(merged.rows, MergeItems(copy, recs).rows, LastRow(merged)) <==>
            CoversLastWords(merged, recs[..n], recs[n..])
  {
    hide MergeItems, LastRow, AllRows, CoversUpTo, CoversAll, CoversLastWords;
    var merged := MergeItems(copy, Records(AllRows(existing)));
    var n := if |AllRows(existing)| < |recs| then |AllRows(existing)| else |recs|;
    var early, late := recs[..n], recs[n..];
    RecordedPointSoundIff(copy, existing);
    MergeItemsGrows(copy, Records(AllRows(existing)));
    LastOfMerge(copy, recs);
    assert early + late == recs;
    MergeItemsAppend(copy, early, late);
    if |recs| <= |AllRows(existing)| { NoRowsAbove(merged.rows, MergeItems(copy, recs), LastRow(merged)); }
    if CoversUpTo(merged.rows, MergeItems(copy, recs).rows, LastRow(merged)) {
      PointMeansLastWords(merged, copy, early, late);
    }
    if CoversLastWords(merged, early, late) { LastWordsMeanPoint(merged, copy, early, late); }
  }

  /** So a container neither database knew is hidden from the receiver if it comes next. */
  lemma RecordedPointLosesRow(copy: Table, existing: Table, rec: Record)
    requires Valid(copy) && Valid(existing) && existing.rows != map[]
    requires Find(copy, rec.name).None? && Find(existing, rec.name).None?
    ensures var merged := MergeItems(copy, Records(AllRows(existing)));
            && LastRow(merged) >= MaxRow(MergeItems(copy, [rec]))
            && !CoversUpTo(merged.rows, MergeItems(copy, [rec]).rows, LastRow(merged))
  {
    hide MergeItems, LastRow, Covers, AllRows, Find;
    var merged := MergeItems(copy, Records(AllRows(existing)));
    NoRows(existing);
    RecordedPointHidesRows(copy, existing, [rec]);
    RecordedPointHoldsIff(copy, existing, [rec]);
    MergeItemsGrows(copy, Records(AllRows(existing)));
    RemoteMergeIsNewest(copy, existing, rec.name);
    CoversIsNewer(merged, rec);
    assert [rec][..1] == [rec] && [rec][1..] == [];
    assert !CoversLastWords(merged, [rec], []) by {
      NoneAbsent(rec.name);
      assert !Covers(merged.rows, [rec][0]);
    }
  }

  /** A container that reaches the existing database after its last page was read is lost when it is replaced. */
  lemma TakeOverWindowLoses(copy: Table, existing: Table, rec: Record)
    requires Valid(copy) && Valid(existing) && Find(copy, rec.name).None? && Find(existing, rec.name).None?
    ensures var merged := MergeItems(copy, Records(AllRows(existing)));
            !CoversAll(merged.rows, MergeOne(existing, rec).rows)
  {
    hide MergeItems, Covers, CoversAll, Find;
    var merged := MergeItems(copy, Records(AllRows(existing)));
    RemoteMergeIsNewest(copy, existing, rec.name);
    MergeItemsGrows(copy, Records(AllRows(existing)));
    CoversIsNewer(merged, rec);
    if CoversAll(merged.rows, MergeOne(existing, rec).rows) { NewRowIsIn(existing, rec, merged); }
  }

  lemma NewRowIsIn(t: Table, rec: Record, peer: Table)
    requires CoversAll(peer.rows, MergeOne(t, rec).rows)
    ensures Covers(peer.rows, rec)
  {
    var u := MergeOne(t, rec);
    assert u.last in u.rows && Covers(peer.rows, u.rows[u.last]);
    var j :| j in peer.rows && Newer(peer.rows[j], u.rows[u.last]);
    assert Newer(peer.rows[j], rec);
  }
}
