/** Each step of the replication state machine keeps the invariant. */
module ReplicationSteps {
  import opened Rows
  import opened Digest
  import opened SyncTables
  import opened NodeOrder
  import opened Replication
  import opened ReplicationInv

  /** The invariant after a step that touches databases ds, messages ms and passes ks. */
  lemma InvFromParts(cfg: Config, kept: set<Node>, s: System, s': System, ds: set<DbId>, ms: set<Msg>, ks: set<nat>)
    requires Inv(cfg, kept, s) && Evolves(kept, s, s') && PlacesOk(s')
    requires forall id :: id in s'.dbs && id !in ds ==> id in s.dbs && s'.dbs[id] == s.dbs[id]
    requires forall id :: id in ds ==> DbOk(s', id)
    requires forall m :: m in s'.msgs ==> m in s.msgs || m in ms
    requires forall m :: m in ms ==> MsgOk(cfg, kept, s', m)
    requires forall k :: k in s'.passes && k !in ks ==> k in s.passes && s'.passes[k] == s.passes[k]
    requires forall k :: k in ks && k in s'.passes ==> PassOk(cfg, kept, s', s'.passes[k])
    ensures Inv(cfg, kept, s')
  {
    forall id | id in s'.dbs ensures DbOk(s', id) {
      if id !in ds {
        assert DbOk(s, id);
        DbStable(cfg, kept, s, s', id);
      }
    }
    forall m | m in s'.msgs ensures MsgOk(cfg, kept, s', m) {
      if m !in ms { MsgStable(cfg, kept, s, s', m); }
    }
    forall k | k in s'.passes ensures PassOk(cfg, kept, s', s'.passes[k]) {
      if k !in ks { PassStable(cfg, kept, s, s', k); }
    }
  }

  /** No database appears, disappears or moves, and tables only grow. */
  ghost predicate InPlace(s: System, s': System) {
    && s'.at == s.at && s'.ids == s.ids && s'.dbs.Keys == s.dbs.Keys
    && forall id :: id in s.dbs ==> Grows(s.dbs[id].table, s'.dbs[id].table)
  }

  lemma InPlaceEvolves(kept: set<Node>, s: System, s': System)
    requires InPlace(s, s')
    ensures Evolves(kept, s, s')
    ensures PlacesOk(s) ==> PlacesOk(s')
  {
  }

  lemma InPlaceByOne(s: System, s': System, id: DbId)
    requires s'.at == s.at && s'.ids == s.ids
    requires id in s.dbs && s'.dbs.Keys == s.dbs.Keys && Grows(s.dbs[id].table, s'.dbs[id].table)
    requires forall x :: x in s.dbs && x != id ==> s'.dbs[x] == s.dbs[x]
    ensures InPlace(s, s')
  {
    forall x | x in s.dbs ensures Grows(s.dbs[x].table, s'.dbs[x].table) {
      if x != id { GrowsReflexive(s.dbs[x].table); }
    }
  }

  lemma InPlaceByNone(s: System, s': System)
    requires s'.at == s.at && s'.ids == s.ids && s'.dbs == s.dbs
    ensures InPlace(s, s')
  {
    forall x | x in s.dbs ensures Grows(s.dbs[x].table, s'.dbs[x].table) {
      GrowsReflexive(s.dbs[x].table);
    }
  }

  /** A change at database id, answered with m. */
  ghost predicate Handles(cfg: Config, kept: set<Node>, s: System, s': System, id: DbId, m: Msg) {
    && InPlace(s, s') && s'.passes == s.passes && s'.msgs == s.msgs + {m}
    && (forall x :: x in s.dbs && x != id ==> s'.dbs[x] == s.dbs[x])
    && DbOk(s', id) && MsgOk(cfg, kept, s', m)
  }

  lemma InvAfterRequest(cfg: Config, kept: set<Node>, s: System, s': System, id: DbId, m: Msg)
    requires Inv(cfg, kept, s) && Handles(cfg, kept, s, s', id, m)
    ensures Inv(cfg, kept, s') && InPlace(s, s')
  {
    InPlaceEvolves(kept, s, s');
    InvFromParts(cfg, kept, s, s', {id}, {m}, {});
  }

  /** The outgoing points of a database whose outgoing table did not change. */
  lemma OutgoingStable(kept: set<Node>, s: System, s': System, id: DbId)
    requires Evolves(kept, s, s') && id in s.dbs && DbOk(s, id)
    requires id in s'.dbs && s'.dbs[id].outgoing == s.dbs[id].outgoing
    ensures forall r :: r in s'.dbs[id].outgoing ==>
              r in s'.ids && Claim(s', r, id, s'.dbs[id].outgoing[r])
  {
    var out := s.dbs[id].outgoing;
    forall r | r in out ensures r in s'.ids && Claim(s', r, id, out[r]) {
      ClaimStable(kept, s, s', r, id, out[r]);
    }
  }

  lemma MergeSyncOk(s: System, h: DbId, points: SyncTable, t: DbId, p: int)
    requires PointsOk(s, h, points) && t in s.ids && Claim(s, h, t, p)
    ensures PointsOk(s, h, MergeSync(points, t, p))
  {
  }

  lemma MergeSyncsOk(s: System, h: DbId, points: SyncTable, more: SyncTable)
    requires PointsOk(s, h, points) && PointsOk(s, h, more)
    ensures PointsOk(s, h, MergeSyncs(points, more))
  {
  }

  // ------------------------------------------------------------------
  // Databases
  // ------------------------------------------------------------------

  /** Putting a database with a fresh id on a node, in the place of another unless the node is kept. */
  lemma NewPlace(kept: set<Node>, s: System, s': System, n: Node, id: DbId)
    requires PlacesOk(s) && (n in kept ==> n !in s.at) && id !in s.ids
    requires forall x :: x in s.dbs ==> x in s.ids
    requires s'.at == s.at[n := id] && s'.ids == s.ids + {id} && id in s'.dbs
    requires forall x :: x in s'.dbs && x != id ==> x in s.dbs && s'.dbs[x] == s.dbs[x]
    requires forall m :: m in s.at && m != n ==> s.at[m] in s'.dbs
    requires n in s.at ==> s.at[n] !in s'.dbs
    ensures Evolves(kept, s, s') && PlacesOk(s')
  {
    forall x | x in s'.dbs && x in s.ids ensures x in s.dbs && Grows(s.dbs[x].table, s'.dbs[x].table) {
      GrowsReflexive(s.dbs[x].table);
    }
  }

  lemma IdsKnown(cfg: Config, kept: set<Node>, s: System)
    requires Inv(cfg, kept, s)
    ensures forall x :: x in s.dbs ==> x in s.ids
  {
    forall x | x in s.dbs ensures x in s.ids {
      assert DbOk(s, x);
    }
  }

  lemma CreateKeepsInv(cfg: Config, kept: set<Node>, s: System, n: Node, id: DbId)
    requires Inv(cfg, kept, s) && n !in s.at && id !in s.ids
    ensures Inv(cfg, kept, Create(s, n, id))
    ensures Evolves(kept, s, Create(s, n, id))
  {
    hide MsgOk, PassOk, Evolves;
    var s' := Create(s, n, id);
    IdsKnown(cfg, kept, s);
    NewPlace(kept, s, s', n, id);
    InvFromParts(cfg, kept, s, s', {id}, {}, {});
  }

  lemma LocalMergeParts(kept: set<Node>, s: System, n: Node, id: DbId, recs: seq<Record>)
    requires n in s.at && s.at[n] == id && id in s.dbs && DbOk(s, id)
    ensures InPlace(s, LocalMerge(s, n, recs)) && DbOk(LocalMerge(s, n, recs), id)
  {
    var s' := LocalMerge(s, n, recs);
    MergeItemsGrows(s.dbs[id].table, recs);
    InPlaceByOne(s, s', id);
    InPlaceEvolves(kept, s, s');
    PointsStable(kept, s, s', id, s.dbs[id].incoming);
    OutgoingStable(kept, s, s', id);
  }

  lemma LocalMergeKeepsInv(cfg: Config, kept: set<Node>, s: System, n: Node, recs: seq<Record>)
    requires Inv(cfg, kept, s) && n in s.at
    ensures Inv(cfg, kept, LocalMerge(s, n, recs))
    ensures InPlace(s, LocalMerge(s, n, recs))
  {
    hide DbOk, MsgOk, PassOk, MergeItems;
    var s', id := LocalMerge(s, n, recs), s.at[n];
    assert DbOk(s, id);
    LocalMergeParts(kept, s, n, id, recs);
    InPlaceEvolves(kept, s, s');
    InvFromParts(cfg, kept, s, s', {id}, {}, {});
  }

  // ------------------------------------------------------------------
  // Requests
  // ------------------------------------------------------------------

  lemma SameContentsCover(a: RowMap, b: RowMap)
    requires Contents(a) == Contents(b)
    ensures CoversAll(a, b)
  {
    forall i | i in b ensures Covers(a, b[i]) {
      assert KeyOf(b[i]) in Contents(a);
      var j :| j in a && KeyOf(a[j]) == KeyOf(b[i]);
      assert Newer(a[j], b[i]);
    }
  }

  /** A table that covers a past state of t covers t up to that state's last ROWID. */
  lemma CoversPast(s: System, h: DbId, t: DbId, past: Table, p: int)
    requires Seen(s, t, past) && p <= past.last
    requires h in s.dbs ==> CoversAll(s.dbs[h].table.rows, past.rows)
    ensures Claim(s, h, t, p)
  {
  }

  /** Equal hashes: the receiver covers all of the snapshot. */
  lemma HashMatchClaim(cfg: Config, s: System, h: DbId, info: Info)
    requires CollisionFree(cfg) && InfoOk(cfg, s, info)
    requires h in s.dbs && s.dbs[h].table in cfg.tables
    requires info.hash == TableHash(cfg.rowHash, s.dbs[h].table)
    ensures Claim(s, h, info.id, info.maxRow)
  {
    SameContentsCover(s.dbs[h].table.rows, info.table.rows);
    CoversPast(s, h, info.id, info.table, info.maxRow);
  }

  /** A database whose incoming points stay sound and whose table is untouched or grew. */
  lemma IncomingParts(kept: set<Node>, s: System, s': System, id: DbId)
    requires InPlace(s, s') && id in s.dbs && DbOk(s, id) && Valid(s'.dbs[id].table)
    requires s'.dbs[id].outgoing == s.dbs[id].outgoing
    requires PointsOk(s', id, s'.dbs[id].incoming)
    ensures DbOk(s', id)
  {
    InPlaceEvolves(kept, s, s');
    OutgoingStable(kept, s, s', id);
  }

  ghost function SyncAnswer(cfg: Config, s: System, m: Msg, id: DbId): Msg
    requires m.SyncReq? && id in s.dbs
  {
    SyncResp(m.dst, m.info.id, InfoOf(cfg, id, s.dbs[id].table), SyncPoint(cfg, s.dbs[id], m.info).1)
  }

  lemma HandleSyncParts(cfg: Config, kept: set<Node>, s: System, s': System, id: DbId, info: Info)
    requires CollisionFree(cfg) && InPlace(s, s')
    requires id in s.dbs && DbOk(s, id) && InfoOk(cfg, s, info) && s.dbs[id].table in cfg.tables
    requires s'.dbs[id] == s.dbs[id].(incoming := SyncPoint(cfg, s.dbs[id], info).0)
    ensures DbOk(s', id)
    ensures Claim(s', id, info.id, SyncPoint(cfg, s.dbs[id], info).1)
  {
    var db := s.dbs[id];
    InPlaceEvolves(kept, s, s');
    SeenStable(kept, s, s', info.id, info.table);
    PointsStable(kept, s, s', id, db.incoming);
    if info.hash == TableHash(cfg.rowHash, db.table) {
      HashMatchClaim(cfg, s', id, info);
      MergeSyncOk(s', id, db.incoming, info.id, info.maxRow);
    }
    IncomingParts(kept, s, s', id);
  }

  lemma HandleSyncFacts(cfg: Config, kept: set<Node>, s: System, m: Msg, id: DbId)
    requires CollisionFree(cfg) && m.SyncReq? && m.dst in s.at && s.at[m.dst] == id && id in s.dbs
    requires DbOk(s, id) && MsgOk(cfg, kept, s, m) && s.dbs[id].table in cfg.tables
    ensures Handles(cfg, kept, s, HandleSync(cfg, s, m), id, SyncAnswer(cfg, s, m, id))
  {
    var s' := HandleSync(cfg, s, m);
    GrowsReflexive(s.dbs[id].table);
    InPlaceByOne(s, s', id);
    HandleSyncParts(cfg, kept, s, s', id, m.info);
  }

  lemma HandleSyncMissing(cfg: Config, kept: set<Node>, s: System, m: Msg)
    requires Inv(cfg, kept, s) && m.SyncReq? && m.dst !in s.at
    ensures Inv(cfg, kept, HandleSync(cfg, s, m))
    ensures InPlace(s, HandleSync(cfg, s, m))
  {
    var s' := HandleSync(cfg, s, m);
    InPlaceByNone(s, s');
    InPlaceEvolves(kept, s, s');
    InvFromParts(cfg, kept, s, s', {}, {SyncMissing(m.dst)}, {});
  }

  lemma HandleSyncKeepsInv(cfg: Config, kept: set<Node>, s: System, m: Msg)
    requires Inv(cfg, kept, s) && CollisionFree(cfg) && WithinTables(cfg, s) && m in s.msgs && m.SyncReq?
    ensures Inv(cfg, kept, HandleSync(cfg, s, m))
    ensures InPlace(s, HandleSync(cfg, s, m))
  {
    if m.dst !in s.at {
      HandleSyncMissing(cfg, kept, s, m);
    } else {
      var id := s.at[m.dst];
      assert MsgOk(cfg, kept, s, m) && DbOk(s, id);
      HandleSyncFacts(cfg, kept, s, m, id);
      InvAfterRequest(cfg, kept, s, HandleSync(cfg, s, m), id, SyncAnswer(cfg, s, m, id));
    }
  }

  /** A delivered batch extends coverage from its lower end to its upper end. */
  lemma BatchExtendsClaim(s: System, s': System, h: DbId, t: DbId, lo: int, items: seq<Item>)
    requires InPlace(s, s') && BatchOk(s, t, lo, items) && h in s'.dbs
    requires t in s'.dbs ==> CoversUpTo(s'.dbs[h].table.rows, s'.dbs[t].table.rows, lo)
    requires forall x :: x in items ==> Covers(s'.dbs[h].table.rows, x.rec)
    ensures Claim(s', h, t, TopRow(items))
  {
    if t in s'.dbs {
      var tr := s'.dbs[t].table.rows;
      forall i | i in tr && i <= TopRow(items) ensures Covers(s'.dbs[h].table.rows, tr[i]) {
        assert i > lo ==> tr[i] == s.dbs[t].table.rows[i];
      }
    }
  }

  lemma HandleItemsParts(kept: set<Node>, s: System, s': System, id: DbId, m: Msg)
    requires InPlace(s, s') && id in s.dbs && DbOk(s, id)
    requires m.MergeItemsReq? && m.source in s.ids && BatchOk(s, m.source, m.lo, m.items)
    requires m.source in s'.dbs ==> CoversUpTo(s'.dbs[id].table.rows, s'.dbs[m.source].table.rows, m.lo)
    requires s'.dbs[id] == s.dbs[id].(table := MergeItems(s.dbs[id].table, Records(m.items)),
                                      incoming := MergeSync(s.dbs[id].incoming, m.source, TopRow(m.items)))
    ensures DbOk(s', id)
    ensures Claim(s', id, m.source, TopRow(m.items))
  {
    var db := s.dbs[id];
    MergeItemsGrows(db.table, Records(m.items));
    forall x | x in m.items ensures Covers(s'.dbs[id].table.rows, x.rec) {
      var i :| 0 <= i < |m.items| && m.items[i] == x;
      assert Records(m.items)[i] == x.rec;
    }
    InPlaceEvolves(kept, s, s');
    BatchExtendsClaim(s, s', id, m.source, m.lo, m.items);
    PointsStable(kept, s, s', id, db.incoming);
    MergeSyncOk(s', id, db.incoming, m.source, TopRow(m.items));
    IncomingParts(kept, s, s', id);
  }

  /** What the request claims of the database it was meant for holds of it, if it still exists. */
  lemma AckIsTrue(kept: set<Node>, s: System, s': System, m: Msg, id: DbId)
    requires InPlace(s, s') && m.dst in s.at && s.at[m.dst] == id && m.MergeItemsReq? && At(kept, s, m.dst, m.rid)
    requires Claim(s', id, m.source, TopRow(m.items))
    ensures Claim(s', m.rid, m.source, TopRow(m.items))
  {
  }

  lemma HandleItemsFacts(cfg: Config, kept: set<Node>, s: System, m: Msg, id: DbId)
    requires m.MergeItemsReq? && m.dst in s.at && s.at[m.dst] == id && id in s.dbs
    requires DbOk(s, id) && MsgOk(cfg, kept, s, m) && BatchFits(s, m)
    ensures Handles(cfg, kept, s, HandleItems(s, m), id, MergeItemsAck(m.dst, m.rid, m.source, TopRow(m.items)))
  {
    hide DbOk, Claim, MergeItems, CoversUpTo;
    var s' := HandleItems(s, m);
    MergeItemsGrows(s.dbs[id].table, Records(m.items)) by { DbIsValid(s, id); }
    InPlaceByOne(s, s', id);
    HandleItemsParts(kept, s, s', id, m);
    AckIsTrue(kept, s, s', m, id);
  }

  lemma DbIsValid(s: System, id: DbId)
    requires id in s.dbs && DbOk(s, id)
    ensures Valid(s.dbs[id].table)
  {
  }

  lemma HandleItemsKeepsInv(cfg: Config, kept: set<Node>, s: System, m: Msg)
    requires Inv(cfg, kept, s) && m in s.msgs && m.MergeItemsReq? && Deliverable(s, m) && BatchFits(s, m)
    ensures Inv(cfg, kept, HandleItems(s, m))
    ensures InPlace(s, HandleItems(s, m))
  {
    hide DbOk, MsgOk, PassOk, BatchFits;
    var id := s.at[m.dst];
    assert MsgOk(cfg, kept, s, m) && DbOk(s, id);
    HandleItemsFacts(cfg, kept, s, m, id);
    InvAfterRequest(cfg, kept, s, HandleItems(s, m), id, MergeItemsAck(m.dst, m.rid, m.source, TopRow(m.items)));
  }

  /** A sync table whose points hold here, wherever it was meant to go. */
  lemma FittingPoints(s: System, h: DbId, r: DbId, points: SyncTable)
    requires h in s.dbs && PointsOk(s, r, points)
    requires forall t :: t in points && t in s.dbs ==> CoversUpTo(s.dbs[h].table.rows, s.dbs[t].table.rows, points[t])
    ensures PointsOk(s, h, points)
  {
    forall t | t in points ensures Claim(s, h, t, points[t]) {
      assert Claim(s, r, t, points[t]);
    }
  }

  lemma HandleSyncsFacts(cfg: Config, kept: set<Node>, s: System, m: Msg, id: DbId)
    requires m.MergeSyncsReq? && m.dst in s.at && s.at[m.dst] == id && id in s.dbs
    requires DbOk(s, id) && MsgOk(cfg, kept, s, m) && SyncsFit(s, m)
    ensures Handles(cfg, kept, s, HandleSyncs(s, m), id, MergeSyncsAck(m.dst, m.rid))
  {
    hide Claim;
    var s' := HandleSyncs(s, m);
    GrowsReflexive(s.dbs[id].table);
    InPlaceByOne(s, s', id);
    InPlaceEvolves(kept, s, s');
    PointsStable(kept, s, s', id, s.dbs[id].incoming);
    FittingPoints(s, id, m.rid, m.points);
    PointsStable(kept, s, s', id, m.points);
    MergeSyncsOk(s', id, s.dbs[id].incoming, m.points);
    IncomingParts(kept, s, s', id);
  }

  /** Adopting a peer's incoming sync table: the third-party points are sound here too. */
  lemma HandleSyncsKeepsInv(cfg: Config, kept: set<Node>, s: System, m: Msg)
    requires Inv(cfg, kept, s) && m in s.msgs && m.MergeSyncsReq? && Deliverable(s, m) && SyncsFit(s, m)
    ensures Inv(cfg, kept, HandleSyncs(s, m))
    ensures InPlace(s, HandleSyncs(s, m))
  {
    hide DbOk, MsgOk, PassOk, SyncsFit;
    var id := s.at[m.dst];
    assert MsgOk(cfg, kept, s, m) && DbOk(s, id);
    HandleSyncsFacts(cfg, kept, s, m, id);
    InvAfterRequest(cfg, kept, s, HandleSyncs(s, m), id, MergeSyncsAck(m.dst, m.rid));
  }

  /** A request that reaches the database it was meant for fits. */
  lemma OwnRequestFits(cfg: Config, kept: set<Node>, s: System, m: Msg)
    requires Inv(cfg, kept, s) && m in s.msgs && Deliverable(s, m)
    requires (m.MergeItemsReq? || m.MergeSyncsReq?) && s.at[m.dst] == m.rid
    ensures m.MergeItemsReq? ==> BatchFits(s, m)
    ensures m.MergeSyncsReq? ==> SyncsFit(s, m)
  {
    assert MsgOk(cfg, kept, s, m) && DbOk(s, m.rid);
    if m.MergeItemsReq? {
      var s' := HandleItems(s, m);
      MergeItemsGrows(s.dbs[m.rid].table, Records(m.items));
      InPlaceByOne(s, s', m.rid);
      InPlaceEvolves(kept, s, s');
      ClaimStable(kept, s, s', m.rid, m.source, m.lo);
    } else {
      forall t | t in m.points && t in s.dbs
        ensures CoversUpTo(s.dbs[m.rid].table.rows, s.dbs[t].table.rows, m.points[t])
      {
        assert Claim(s, m.rid, t, m.points[t]);
      }
    }
  }

  /** The copied file is sound under its new id, and covers its source up to the copy. */
  lemma CopiedIsOk(s: System, source: DbId, copy: Db, id: DbId)
    requires CopyOk(s, source, copy) && id in s.ids && id in s.dbs
    requires s.dbs[id] == copy.(incoming := copy.incoming[source := LastRow(copy.table)])
    ensures DbOk(s, id)
    ensures Claim(s, id, source, copy.table.last)
  {
    CoversSelf(copy.table.rows);
    CoversPast(s, id, source, copy.table, copy.table.last);
    LastRowBounded(copy.table);
    CoversPast(s, id, source, copy.table, LastRow(copy.table));
  }

  lemma TestRsyncKeepsInv(cfg: Config, kept: set<Node>, s: System, m: Msg)
    requires Inv(cfg, kept, s) && m in s.msgs && m.RsyncReq?
    ensures Inv(cfg, kept, TestRsync(s, m)) && InPlace(s, TestRsync(s, m))
  {
    hide CopyOk;
    var s', tested := TestRsync(s, m), RsyncTested(m.dst, m.source, m.copy);
    assert MsgOk(cfg, kept, s, m);
    InPlaceByNone(s, s');
    InPlaceEvolves(kept, s, s');
    CopyStable(kept, s, s', m.source, m.copy);
    InvFromParts(cfg, kept, s, s', {}, {tested}, {});
  }

  lemma RenameFacts(cfg: Config, kept: set<Node>, s: System, m: Msg, id: DbId)
    requires PlacesOk(s) && m.RsyncTested? && (m.dst in kept ==> m.dst !in s.at) && id !in s.ids
    requires CopyOk(s, m.source, m.copy) && forall x :: x in s.dbs ==> x in s.ids
    ensures Evolves(kept, s, Rename(s, m, id)) && PlacesOk(Rename(s, m, id))
    ensures DbOk(Rename(s, m, id), id)
    ensures MsgOk(cfg, kept, Rename(s, m, id), RsyncAck(m.dst, id, m.source, m.copy.table.last))
  {
    var s' := Rename(s, m, id);
    NewPlace(kept, s, s', m.dst, id);
    CopyStable(kept, s, s', m.source, m.copy);
    CopiedIsOk(s', m.source, m.copy, id);
  }

  /** The copy takes its place on a free node, or in the place of a database nobody counts on. */
  lemma RenameKeepsInv(cfg: Config, kept: set<Node>, s: System, m: Msg, id: DbId)
    requires Inv(cfg, kept, s) && m in s.msgs && m.RsyncTested? && id !in s.ids
    requires m.dst in kept ==> m.dst !in s.at
    ensures Inv(cfg, kept, Rename(s, m, id))
    ensures Evolves(kept, s, Rename(s, m, id))
  {
    hide CopyOk, DbOk, Evolves, PassOk;
    var s' := Rename(s, m, id);
    assert MsgOk(cfg, kept, s, m);
    IdsKnown(cfg, kept, s);
    RenameFacts(cfg, kept, s, m, id);
    InvFromParts(cfg, kept, s, s', {id}, {RsyncAck(m.dst, id, m.source, m.copy.table.last)}, {});
  }

  lemma DropKeepsInv(cfg: Config, kept: set<Node>, s: System, m: Msg)
    requires Inv(cfg, kept, s)
    ensures Inv(cfg, kept, s.(msgs := s.msgs - {m}))
    ensures InPlace(s, s.(msgs := s.msgs - {m}))
  {
    var s' := s.(msgs := s.msgs - {m});
    InPlaceByNone(s, s');
    InPlaceEvolves(kept, s, s');
    InvFromParts(cfg, kept, s, s', {}, {}, {});
  }
}
