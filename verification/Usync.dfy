/** `_usync_db`: pushing the rows above a sync point to a peer, batch by batch. */
module Usync {
  import opened Wrappers
  import opened Rows
  import opened Digest
  import opened SyncTables
  import opened Pending
  import opened AccountBroker

  lemma SoundWhenCovered(peer: Table, t: Table, point: int)
    requires CoversAll(peer.rows, t.rows) && point <= t.last
    ensures Sound(peer, t, point)
  {
  }

  /** A batch that arrives extends the sound point to its last row. */
  lemma BatchArrives(peer: Table, t: Table, point: int, count: nat)
    requires Valid(peer) && Sound(peer, t, point) && ItemsSince(t, point, count) != []
    ensures var items := ItemsSince(t, point, count);
            && TopRow(items) == items[|items| - 1].rowid
            && Grows(peer, MergeItems(peer, Records(items)))
            && Sound(MergeItems(peer, Records(items)), t, TopRow(items))
  {
    hide MergeItems, ItemsSince;
    var items := ItemsSince(t, point, count);
    var peer' := MergeItems(peer, Records(items));
    BatchHasNoGaps(t, point, count);
    TopRowIsLast(items);
    MergeItemsGrows(peer, Records(items));
    forall i | i in t.rows && i <= TopRow(items) ensures Covers(peer'.rows, t.rows[i]) {
      if i <= point {
        CoversTransitive(peer'.rows, peer.rows, t.rows[i]);
      } else {
        var x := Item(i, t.rows[i]);
        var k :| 0 <= k < |items| && items[k] == x;
        assert Records(items)[k] == t.rows[i];
      }
    }
  }

  /** With no row above a sound point, everything is covered. */
  lemma NothingLeft(peer: Table, t: Table, point: int, count: nat)
    requires Valid(t) && Sound(peer, t, point) && count >= 1 && ItemsSince(t, point, count) == []
    ensures CoversAll(peer.rows, t.rows)
  {
    assert RowsAfter(t, point) == [];
  }

  // ------------------------------------------------------------------
  // Counting
  // ------------------------------------------------------------------

  /** How many rows a peer that is sound up to `point` may still lack. */
  function Behind(t: Table, point: int): nat {
    |RowsAfter(t, point)|
  }

  /** What is left of n after taking away up to k. */
  function Rest(n: int, k: int): int {
    if n <= k then 0 else n - k
  }

  lemma BatchCounts(t: Table, point: int, count: nat)
    ensures var items := ItemsSince(t, point, count);
            && (count >= 1 ==> (items == [] <==> Behind(t, point) == 0))
            && (items != [] ==> Behind(t, items[|items| - 1].rowid) == Rest(Behind(t, point), count))
  {
    if ItemsSince(t, point, count) != [] { BatchSplit(t, point, count); }
  }

  // ------------------------------------------------------------------
  // The exchange
  // ------------------------------------------------------------------

  /** A `merge_items` request: it may be lost, and so may its answer, unless all goes smoothly. */
  method SendItems(peer: Broker, items: seq<Item>, source: DbId, smooth: bool) returns (ok: bool)
    requires peer.Valid()
    modifies peer`table, peer`stat, peer`hash, peer`policies, peer`incoming
    ensures peer.Valid() && (smooth ==> ok)
    ensures || (!ok && peer.table == old(peer.table) && peer.incoming == old(peer.incoming))
            || (&& peer.table == MergeItems(old(peer.table), Records(items))
                && peer.incoming == MergeSync(old(peer.incoming), source, TopRow(items)))
  {
    var delivered, answered := *, *;
    if smooth {
      delivered, answered := true, true;
    }
    if delivered {
      peer.MergeItems(items, Some(source));
    }
    ok := delivered && answered;
  }

  method SendSyncs(peer: Broker, points: SyncTable, smooth: bool) returns (ok: bool)
    modifies peer`incoming, peer`outgoing
    ensures peer.outgoing == old(peer.outgoing) && (smooth ==> ok)
    ensures (!ok && peer.incoming == old(peer.incoming)) || peer.incoming == MergeSyncs(old(peer.incoming), points)
  {
    var delivered, answered := *, *;
    if smooth {
      delivered, answered := true, true;
    }
    if delivered {
      peer.MergePoints(points, true);
    }
    ok := delivered && answered;
  }

  lemma MergeSyncSound(peer: Table, t: Table, points: SyncTable, id: DbId, point: int)
    requires Sound(peer, t, GetSync(points, id)) && Sound(peer, t, point)
    ensures Sound(peer, t, GetSync(MergeSync(points, id, point), id))
    ensures GetSync(MergeSync(points, id, point), id) >= point
    ensures GetSync(points, id) <= point ==> GetSync(MergeSync(points, id, point), id) == point
  {
  }

  lemma MergeSyncsSound(peer: Table, t: Table, points: SyncTable, more: SyncTable, id: DbId)
    requires Sound(peer, t, GetSync(points, id)) && CoversAll(peer.rows, t.rows) && GetSync(more, id) <= t.last
    ensures Sound(peer, t, GetSync(MergeSyncs(points, more), id))
  {
    SoundWhenCovered(peer, t, GetSync(MergeSyncs(points, more), id));
  }

  lemma MergeSyncsOne(points: SyncTable, id: DbId, point: int)
    ensures MergeSyncs(points, map[id := point]) == MergeSync(points, id, point)
  {
  }

  /** What a `merge_items` request leaves behind, whether or not it arrived. */
  lemma AfterSend(peer: Table, peer': Table, t: Table, point: int, count: nat, points: SyncTable, points': SyncTable,
                  id: DbId)
    requires Valid(peer) && Sound(peer, t, point) && Sound(peer, t, GetSync(points, id)) && GetSync(points, id) <= point
    requires ItemsSince(t, point, count) != []
    requires var items := ItemsSince(t, point, count);
             || (peer' == peer && points' == points)
             || (peer' == MergeItems(peer, Records(items)) && points' == MergeSync(points, id, TopRow(items)))
    ensures Grows(peer, peer') && Sound(peer', t, point) && Sound(peer', t, GetSync(points', id))
    ensures var items := ItemsSince(t, point, count);
            var hi := items[|items| - 1].rowid;
            point < hi &&
            (peer' == MergeItems(peer, Records(items)) && points' == MergeSync(points, id, TopRow(items)) ==>
               Sound(peer', t, hi) && GetSync(points', id) == hi)
  {
    hide Sound, MergeItems, ItemsSince, TopRow, Records, MergeSync, GetSync, Grows;
    var items := ItemsSince(t, point, count);
    BatchSplit(t, point, count);
    BatchArrives(peer, t, point, count);
    GrowsReflexive(peer);
    GrowsReflexive(t);
    SoundGrows(peer, peer', t, t, point);
    SoundGrows(peer, peer', t, t, GetSync(points, id));
    if peer' == MergeItems(peer, Records(items)) && points' == MergeSync(points, id, TopRow(items)) {
      MergeSyncSound(peer', t, points, id, TopRow(items));
    }
  }

  lemma RestStep(n: int, perDiff: nat, diffs: nat)
    requires n >= 0
    ensures Rest(Rest(n, perDiff * diffs), perDiff) == Rest(n, perDiff * (diffs + 1))
  {
    assert perDiff * (diffs + 1) == perDiff * diffs + perDiff;
  }

  lemma NoRest(n: nat, perDiff: nat)
    ensures Rest(n, perDiff * 0) == n
  {
  }

  /** Nothing left after fewer batches is nothing left after all of them. */
  lemma RestOfAll(n: nat, perDiff: nat, diffs: nat, maxDiffs: nat)
    requires diffs <= maxDiffs
    ensures Rest(n, perDiff * diffs) == 0 ==> Rest(n, perDiff * maxDiffs) == 0
    ensures diffs == maxDiffs ==> Rest(n, perDiff * diffs) == Rest(n, perDiff * maxDiffs)
  {
    assert perDiff * maxDiffs == perDiff * diffs + perDiff * (maxDiffs - diffs);
  }

  /** Others may merge records into the database at any time, unless all is quiet. */
  method OthersWrite(b: Broker, smooth: bool)
    requires b.Valid()
    modifies b`table, b`stat, b`hash, b`policies, b`incoming
    ensures b.Valid() && b.incoming == old(b.incoming) && Grows(old(b.table), b.table)
    ensures smooth ==> b.table == old(b.table)
  {
    hide MergeItems, PoliciesOk, SumOfPolicies, Sum, TableHash;
    GrowsReflexive(b.table);
    if !smooth {
      var recs: seq<Record> := *;
      MergeItemsGrows(b.table, Records(Unsourced(recs)));
      b.MergeItems(Unsourced(recs), None);
    }
  }

  /** The next batch, from whatever the table has become. */
  method ReadBatch(b: Broker, point: int, count: nat, smooth: bool) returns (objects: seq<Item>)
    requires b.Valid() && !b.skipCommits
    modifies b`table, b`stat, b`hash, b`policies, b`incoming, b`pending, b`pendingSize
    ensures b.Valid() && b.incoming == old(b.incoming) && Grows(old(b.table), b.table)
    ensures objects == ItemsSince(b.table, point, count)
    ensures b.State().pending == [] && b.pendingSize == 0
    ensures smooth ==> b.State() == Commit(old(b.State()), [])
    ensures smooth && old(b.State().pending) == [] ==> b.table == old(b.table)
  {
    hide MergeItems, Grows, ItemsSince, PoliciesOk, SumOfPolicies, Sum, TableHash;
    OthersWrite(b, smooth);
    ghost var t, pend := b.table, b.State().pending;
    objects := b.GetItemsSince(point, count);
    assert [] + pend == pend;
    MergeItemsGrows(t, pend);
    GrowsTransitive(old(b.table), t, b.table);
    if pend == [] { MergeNothing(t); }
  }

  /** Points that were sound stay so while both tables grow. */
  lemma PointsGrow(peer: Table, t: Table, t': Table, p: int, q: int)
    requires Sound(peer, t, p) && Sound(peer, t, q) && Grows(t, t')
    ensures Sound(peer, t', p) && Sound(peer, t', q) && t.last <= t'.last
  {
    GrowsReflexive(peer);
    SoundGrows(peer, peer, t, t', p);
    SoundGrows(peer, peer, t, t', q);
  }

  /** They also stay so, and coverage too, while the peer grows. */
  lemma PeerGrows(peer: Table, peer': Table, t: Table, p: int, q: int)
    requires Sound(peer, t, p) && Sound(peer, t, q) && Grows(peer, peer')
    ensures Sound(peer', t, p) && Sound(peer', t, q)
  {
    GrowsReflexive(t);
    SoundGrows(peer, peer', t, t, p);
    SoundGrows(peer, peer', t, t, q);
  }

  /** The points of all databases but one are the same. */
  ghost predicate SameButFor(a: SyncTable, b: SyncTable, id: DbId) {
    forall x :: x != id ==> GetSync(a, x) == GetSync(b, x)
  }

  lemma MergeSyncSame(points: SyncTable, id: DbId, point: int)
    ensures SameButFor(points, MergeSync(points, id, point), id)
  {
  }

  /** One batch goes to the peer, to which others may write as well. */
  method PushBatch(peer: Broker, objects: seq<Item>, localId: DbId, smooth: bool,
                   ghost t: Table, ghost point: int, ghost count: nat) returns (sent: bool)
    requires peer.Valid() && Sound(peer.table, t, point) && Sound(peer.table, t, GetSync(peer.incoming, localId))
    requires GetSync(peer.incoming, localId) <= point && objects == ItemsSince(t, point, count) && objects != []
    modifies peer`table, peer`stat, peer`hash, peer`policies, peer`incoming
    ensures peer.Valid() && Grows(old(peer.table), peer.table) && (smooth ==> sent)
    ensures Sound(peer.table, t, point) && Sound(peer.table, t, GetSync(peer.incoming, localId))
    ensures var hi := objects[|objects| - 1].rowid;
            point < hi && (sent ==> Sound(peer.table, t, hi) && GetSync(peer.incoming, localId) == hi)
    ensures SameButFor(old(peer.incoming), peer.incoming, localId)
  {
    hide Sound, Grows, ItemsSince, TopRow, MergeItems, MergeSync, GetSync, PoliciesOk, SumOfPolicies, Sum, TableHash,
         Records;
    MergeSyncSame(peer.incoming, localId, TopRow(objects));
    ghost var first, points := peer.table, peer.incoming;
    OthersWrite(peer, smooth);
    ghost var before := peer.table;
    PeerGrows(first, before, t, point, GetSync(points, localId));
    sent := SendItems(peer, objects, localId, smooth);
    AfterSend(before, peer.table, t, point, count, points, peer.incoming, localId);
    GrowsTransitive(first, before, peer.table);
  }

  lemma CoveredGrows(peer: Table, peer': Table, rows: RowMap)
    requires CoversAll(peer.rows, rows) && Grows(peer, peer')
    ensures CoversAll(peer'.rows, rows)
  {
    forall i | i in rows ensures Covers(peer'.rows, rows[i]) {
      CoversTransitive(peer'.rows, peer.rows, rows[i]);
    }
  }

  /** The end of a push: the captured sync table goes over, and the point reached is recorded here. */
  method ExchangeSyncs(local: Broker, peer: Broker, points: SyncTable, point: int, peerId: DbId, localId: DbId,
                       smooth: bool, ghost seen: Table) returns (ok: bool)
    requires local != peer && peer.Valid() && CoversAll(peer.table.rows, seen.rows)
    requires Sound(peer.table, seen, GetSync(peer.incoming, localId)) && GetSync(points, localId) <= seen.last
    modifies local`incoming, local`outgoing
    modifies peer`table, peer`stat, peer`hash, peer`policies, peer`incoming, peer`outgoing
    ensures peer.Valid() && Grows(old(peer.table), peer.table) && CoversAll(peer.table.rows, seen.rows)
    ensures local.incoming == old(local.incoming) && peer.outgoing == old(peer.outgoing)
    ensures Sound(peer.table, seen, GetSync(peer.incoming, localId)) && (smooth ==> ok)
    ensures local.outgoing == if ok then MergeSync(old(local.outgoing), peerId, point) else old(local.outgoing)
    ensures (!ok && peer.incoming == old(peer.incoming)) || peer.incoming == MergeSyncs(old(peer.incoming), points)
  {
    hide Sound, CoversAll, Grows, MergeSync, MergeSyncs, GetSync, PoliciesOk, SumOfPolicies, Sum, TableHash, Rows.Valid;
    ghost var before := peer.table;
    OthersWrite(peer, smooth);
    CoveredGrows(before, peer.table, seen.rows);
    PeerGrows(before, peer.table, seen, GetSync(peer.incoming, localId), GetSync(peer.incoming, localId));
    MergeSyncsSound(peer.table, seen, peer.incoming, points, localId);
    ok := SendSyncs(peer, points, smooth);
    if ok {
      MergeSyncsOne(local.outgoing, peerId, point);
      local.MergePoints(map[peerId := point], false);
    }
  }

  /**
   The loop: batches go over until one is lost, none is left, or the cap is reached. `left` is the batch
   read last, `seen` the table it was read from.
   */
  method PushRows(local: Broker, peer: Broker, start: int, localId: DbId, perDiff: nat, maxDiffs: nat, smooth: bool)
    returns (lost: bool, reached: int, left: seq<Item>, ghost seen: Table)
    requires local.Valid() && peer.Valid() && local != peer && !local.skipCommits && perDiff >= 1
    requires Sound(peer.table, local.table, start) && GetSync(peer.incoming, localId) <= start
    requires Sound(peer.table, local.table, GetSync(peer.incoming, localId))
    modifies local`table, local`stat, local`hash, local`policies, local`incoming, local`pending, local`pendingSize
    modifies peer`table, peer`stat, peer`hash, peer`policies, peer`incoming
    ensures local.Valid() && peer.Valid() && local.incoming == old(local.incoming)
    ensures local.table == seen && Grows(old(local.table), seen) && old(local.table).last <= seen.last
    ensures Grows(old(peer.table), peer.table) && start <= reached
    ensures Sound(peer.table, seen, reached) && Sound(peer.table, seen, GetSync(peer.incoming, localId))
    ensures SameButFor(old(peer.incoming), peer.incoming, localId)
    ensures !lost ==> left == ItemsSince(seen, reached, perDiff)
    ensures smooth ==> !lost && local.State() == Commit(old(local.State()), [])
    ensures smooth ==> Behind(seen, reached) == Rest(Behind(seen, start), perDiff * maxDiffs)
    ensures smooth && maxDiffs >= 1 && left != [] ==> GetSync(peer.incoming, localId) == reached
  {
    hide Sound, Grows, Rows.Valid, ItemsSince, Behind, TopRow, MergeItems, Commit, MergeSync, GetSync,
         PoliciesOk, SumOfPolicies, Sum, TableHash, Records, Rest;
    ghost var t0 := local.table;
    lost, reached := false, start;
    left := ReadBatch(local, reached, perDiff, smooth);
    seen := local.table;
    PointsGrow(peer.table, t0, seen, start, GetSync(peer.incoming, localId));
    GrowsReflexive(peer.table);
    NoRest(Behind(seen, start), perDiff);
    var diffs := 0;
    while left != [] && diffs < maxDiffs
      invariant local.Valid() && peer.Valid() && local.table == seen && Grows(t0, seen) && t0.last <= seen.last
      invariant local.State().pending == [] && local.pendingSize == 0 && local.incoming == old(local.incoming)
      invariant smooth ==> local.State() == Commit(old(local.State()), [])
      invariant Grows(old(peer.table), peer.table) && start <= reached && diffs <= maxDiffs
      invariant Sound(peer.table, seen, reached) && Sound(peer.table, seen, GetSync(peer.incoming, localId))
      invariant SameButFor(old(peer.incoming), peer.incoming, localId)
      invariant GetSync(peer.incoming, localId) <= reached && left == ItemsSince(seen, reached, perDiff)
      invariant smooth ==> Behind(seen, reached) == Rest(Behind(seen, start), perDiff * diffs)
      invariant smooth && diffs > 0 ==> GetSync(peer.incoming, localId) == reached
      decreases maxDiffs - diffs
    {
      diffs := diffs + 1;
      ghost var before := peer.table;
      var sent := PushBatch(peer, left, localId, smooth, seen, reached, perDiff);
      GrowsTransitive(old(peer.table), before, peer.table);
      if !sent {
        lost := true;
        return;
      }
      RestStep(Behind(seen, start), perDiff, diffs - 1);
      BatchCounts(seen, reached, perDiff);
      reached := left[|left| - 1].rowid;
      NothingPending(seen);
      ghost var t := seen;
      left := ReadBatch(local, reached, perDiff, smooth);
      seen := local.table;
      PointsGrow(peer.table, t, seen, reached, GetSync(peer.incoming, localId));
      GrowsTransitive(t0, t, seen);
    }
    BatchCounts(seen, reached, perDiff);
    RestOfAll(Behind(seen, start), perDiff, diffs, maxDiffs);
  }

  /**
   Of two databases with sync tables: whatever point of a third database x was sound in both of them
   before, the point of x the peer has afterwards is sound.
   */
  ghost predicate ThirdPointsSound(local: Table, points: SyncTable, peer: Table, incoming: SyncTable,
                                   peer': Table, incoming': SyncTable, localId: DbId) {
    forall id, x :: id != localId && Sound(local, x, GetSync(points, id)) && Sound(peer, x, GetSync(incoming, id)) ==>
      Sound(peer', x, GetSync(incoming', id))
  }

  lemma MergeSyncsEither(a: SyncTable, b: SyncTable, id: DbId)
    ensures GetSync(MergeSyncs(a, b), id) == GetSync(a, id) || GetSync(MergeSyncs(a, b), id) == GetSync(b, id)
  {
  }

  /** A point of a third database that held of a table holds of whoever covers that table. */
  lemma ThirdPoint(local: Table, seen: Table, peer: Table, x: Table, point: int)
    requires Sound(local, x, point) && Grows(local, seen) && CoversAll(peer.rows, seen.rows)
    ensures Sound(peer, x, point)
  {
    forall i | i in x.rows && i <= point ensures Covers(peer.rows, x.rows[i]) {
      CoversTransitive(seen.rows, local.rows, x.rows[i]);
      CoversTransitive(peer.rows, seen.rows, x.rows[i]);
    }
  }

  lemma PeerPoint(peer: Table, peer': Table, x: Table, point: int)
    requires Sound(peer, x, point) && Grows(peer, peer')
    ensures Sound(peer', x, point)
  {
    GrowsReflexive(x);
    SoundGrows(peer, peer', x, x, point);
  }

  /** Kept points stay sound while the peer grows; adopted ones hold of a peer that covers what they held of. */
  lemma KeptOrAdopted(local: Table, seen: Table, points: SyncTable, peer: Table, incoming: SyncTable, mid: SyncTable,
                      peer': Table, incoming': SyncTable, localId: DbId)
    requires Grows(local, seen) && Grows(peer, peer') && SameButFor(incoming, mid, localId)
    requires incoming' == mid || (incoming' == MergeSyncs(mid, points) && CoversAll(peer'.rows, seen.rows))
    ensures ThirdPointsSound(local, points, peer, incoming, peer', incoming', localId)
  {
    hide Sound, Grows, CoversAll, GetSync, MergeSyncs;
    forall id, x | id != localId && Sound(local, x, GetSync(points, id)) && Sound(peer, x, GetSync(incoming, id))
      ensures Sound(peer', x, GetSync(incoming', id))
    {
      PeerPoint(peer, peer', x, GetSync(incoming, id));
      if incoming' != mid {
        ThirdPoint(local, seen, peer', x, GetSync(points, id));
        MergeSyncsEither(mid, points, id);
      }
    }
  }

  /**
   However many requests or answers are lost and whatever others write to both databases meanwhile, the
   sync points on both sides stay sound, those of third databases that the peer adopts too; success means
   the peer has adopted them all and covers the whole table as it was last read. If all goes smoothly the
   peer is per_diff * max_diffs rows further, and success means there were no more.
   */
  method UsyncDb(local: Broker, peer: Broker, start: int, peerId: DbId, localId: DbId,
                 perDiff: nat, maxDiffs: nat, smooth: bool) returns (ok: bool, ghost reached: int, ghost seen: Table)
    requires local.Valid() && peer.Valid() && local != peer && !local.skipCommits && perDiff >= 1
    requires Sound(peer.table, local.table, start) && GetSync(peer.incoming, localId) <= start
    requires Sound(peer.table, local.table, GetSync(peer.incoming, localId))
    requires GetSync(local.incoming, localId) <= local.table.last
    modifies local`table, local`stat, local`hash, local`policies, local`incoming, local`outgoing, local`pending,
             local`pendingSize
    modifies peer`table, peer`stat, peer`hash, peer`policies, peer`incoming, peer`outgoing
    ensures local.Valid() && peer.Valid() && Grows(old(local.table), seen) && Grows(seen, local.table)
    ensures Grows(old(peer.table), peer.table) && start <= reached
    ensures Sound(peer.table, local.table, reached)
    ensures Sound(peer.table, local.table, GetSync(peer.incoming, localId))
    ensures local.incoming == old(local.incoming) && peer.outgoing == old(peer.outgoing)
    ensures local.outgoing == if ok then MergeSync(old(local.outgoing), peerId, reached) else old(local.outgoing)
    ensures ok ==> CoversAll(peer.table.rows, seen.rows)
    ensures smooth ==> local.State() == Commit(old(local.State()), []) && seen == local.table
    ensures smooth ==> Behind(local.table, reached) == Rest(Behind(local.table, start), perDiff * maxDiffs)
    ensures smooth ==> (ok <==> Behind(local.table, reached) == 0)
    ensures smooth && !ok && maxDiffs >= 1 ==> GetSync(peer.incoming, localId) == reached
    ensures ThirdPointsSound(old(local.table), old(local.incoming), old(peer.table), old(peer.incoming),
                             peer.table, peer.incoming, localId)
    ensures ok ==> Raised(old(local.incoming), peer.incoming)
  {
    hide Sound, CoversAll, Grows, Rows.Valid, ItemsSince, Behind, MergeItems, Commit, MergeSync, MergeSyncs, GetSync,
         PoliciesOk, SumOfPolicies, Sum, TableHash, Rest, SameButFor, ThirdPointsSound, Raised;
    var syncTable := local.incoming;
    var lost, point, left;
    lost, point, left, seen := PushRows(local, peer, start, localId, perDiff, maxDiffs, smooth);
    reached := point;
    ghost var mid := peer.incoming;
    BatchCounts(seen, point, perDiff);
    OthersWrite(local, smooth);
    ok := false;
    if !lost && left == [] {
      NothingLeft(peer.table, seen, point, perDiff);
      ghost var before := peer.table;
      ok := ExchangeSyncs(local, peer, syncTable, point, peerId, localId, smooth, seen);
      PeerGrows(before, peer.table, seen, point, point);
      GrowsTransitive(old(peer.table), before, peer.table);
      MergeSyncsRaises(mid, syncTable);
    }
    KeptOrAdopted(old(local.table), seen, syncTable, old(peer.table), old(peer.incoming), mid,
                  peer.table, peer.incoming, localId);
    PointsGrow(peer.table, seen, local.table, point, GetSync(peer.incoming, localId));
  }

  // ------------------------------------------------------------------
  // Catching up
  // ------------------------------------------------------------------

  /** How many passes n rows take at `cap` rows a pass; a pass is needed even to find nothing to send. */
  function Passes(n: nat, cap: nat): (p: nat)
    requires cap >= 1
    ensures p >= 1 && n <= p * cap
    ensures n >= 1 ==> (p - 1) * cap < n
  {
    if n <= cap then 1
    else
      var rest := Passes(n - cap, cap);
      assert (rest - 1) * cap + cap == rest * cap;
      1 + rest
  }

  lemma CapPositive(perDiff: nat, maxDiffs: nat)
    requires perDiff >= 1 && maxDiffs >= 1
    ensures perDiff * maxDiffs >= 1
  {
  }

  /** The point a pass starts from: the peer's own record, or the one kept of it here. */
  function StartPoint(local: Broker, peer: Broker, peerId: DbId, localId: DbId): int
    reads local, peer
  {
    Max(GetSync(peer.incoming, localId), GetSync(local.outgoing, peerId))
  }

  /** A reachable peer catches up with a quiet database, in exactly as many passes as the caps require. */
  method CatchUp(local: Broker, peer: Broker, peerId: DbId, localId: DbId, perDiff: nat, maxDiffs: nat)
    returns (passes: nat)
    requires local.Valid() && peer.Valid() && local != peer && !local.skipCommits && perDiff >= 1 && maxDiffs >= 1
    requires local.State().pending == [] && local.pendingSize == 0
    requires Sound(peer.table, local.table, GetSync(peer.incoming, localId))
    requires Sound(peer.table, local.table, GetSync(local.outgoing, peerId))
    requires GetSync(local.incoming, localId) <= local.table.last
    modifies local`table, local`stat, local`hash, local`policies, local`incoming, local`outgoing, local`pending,
             local`pendingSize
    modifies peer`table, peer`stat, peer`hash, peer`policies, peer`incoming, peer`outgoing
    ensures local.Valid() && peer.Valid() && local.table == old(local.table)
    ensures CoversAll(peer.table.rows, local.table.rows)
    ensures perDiff * maxDiffs >= 1
    ensures passes == Passes(old(Behind(local.table, StartPoint(local, peer, peerId, localId))), perDiff * maxDiffs)
  {
    hide Sound, CoversAll, Grows, Rows.Valid, Behind, Commit, MergeSync, GetSync, PoliciesOk, SumOfPolicies, Sum,
         TableHash;
    CapPositive(perDiff, maxDiffs);
    ghost var t, n := local.table, Behind(local.table, StartPoint(local, peer, peerId, localId));
    passes := 0;
    var ok := false;
    while !ok
      invariant local.Valid() && peer.Valid() && local.table == t && local.State().pending == [] &&
                local.pendingSize == 0
      invariant GetSync(local.incoming, localId) <= t.last
      invariant !ok ==> Sound(peer.table, t, GetSync(peer.incoming, localId))
      invariant !ok ==> Sound(peer.table, t, GetSync(local.outgoing, peerId))
      invariant !ok ==>
                  Passes(n, perDiff * maxDiffs) ==
                  passes + Passes(Behind(t, StartPoint(local, peer, peerId, localId)), perDiff * maxDiffs)
      invariant ok ==> CoversAll(peer.table.rows, t.rows) && passes == Passes(n, perDiff * maxDiffs)
      decreases !ok, if ok then 0 else Behind(t, StartPoint(local, peer, peerId, localId))
    {
      NothingPending(t);
      var start := StartPoint(local, peer, peerId, localId);
      ghost var before, reached, seen := peer.table, 0, t;
      ok, reached, seen := UsyncDb(local, peer, start, peerId, localId, perDiff, maxDiffs, true);
      if !ok {
        GrowsReflexive(t);
        SoundGrows(before, peer.table, t, t, GetSync(local.outgoing, peerId));
      }
      passes := passes + 1;
    }
  }
}
