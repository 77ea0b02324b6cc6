/** Each step of a replication pass keeps the invariant. */
module ReplicationPasses {
  import opened Wrappers
  import opened Rows
  import opened SyncTables
  import opened NodeOrder
  import opened Replication
  import opened ReplicationInv
  import opened ReplicationSteps

  /** Pass k moves on, possibly updating database id and sending ms. */
  ghost predicate Advances(cfg: Config, kept: set<Node>, s: System, s': System, k: nat, id: DbId, ms: set<Msg>) {
    && InPlace(s, s') && s'.msgs == s.msgs + ms
    && (forall x :: x in s.dbs && x != id ==> s'.dbs[x] == s.dbs[x])
    && (forall j :: j in s'.passes && j != k ==> j in s.passes && s'.passes[j] == s.passes[j])
    && DbOk(s', id)
    && (forall m :: m in ms ==> MsgOk(cfg, kept, s', m))
    && (k in s'.passes ==> PassOk(cfg, kept, s', s'.passes[k]))
  }

  lemma InvAfterAdvance(cfg: Config, kept: set<Node>, s: System, s': System, k: nat, id: DbId, ms: set<Msg>)
    requires Inv(cfg, kept, s) && Advances(cfg, kept, s, s', k, id, ms)
    ensures Inv(cfg, kept, s') && InPlace(s, s')
  {
    InPlaceEvolves(kept, s, s');
    InvFromParts(cfg, kept, s, s', {id}, ms, {k});
  }

  /** What a step of pass k may rely on. */
  ghost predicate PassFacts(cfg: Config, kept: set<Node>, s: System, k: nat) {
    Talking(s, k) && PassOk(cfg, kept, s, s.passes[k]) && DbOk(s, s.passes[k].info.id)
  }

  lemma GetPassFacts(cfg: Config, kept: set<Node>, s: System, k: nat)
    requires Inv(cfg, kept, s) && Talking(s, k)
    ensures PassFacts(cfg, kept, s, k)
  {
  }

  lemma ClaimWeaken(s: System, h: DbId, t: DbId, p: int, q: int)
    requires Claim(s, h, t, p) && q <= p
    ensures Claim(s, h, t, q)
  {
  }

  lemma WithPhase(cfg: Config, kept: set<Node>, s: System, p: Pass, phase: Phase)
    requires PassOk(cfg, kept, s, p) && |p.responses| < |p.targets| && PhaseOk(kept, s, p.info, Peer(p), phase)
    ensures PassOk(cfg, kept, s, p.(phase := phase))
  {
  }

  lemma WithResponse(cfg: Config, kept: set<Node>, s: System, p: Pass, who: Option<DbId>)
    requires PassOk(cfg, kept, s, p) && |p.responses| < |p.targets| && AnswerOk(kept, s, p.info, Peer(p), who)
    ensures PassOk(cfg, kept, s, p.(responses := p.responses + [who], phase := Idle))
  {
    hide AnswerOk;
    var p' := p.(responses := p.responses + [who], phase := Idle);
    if AllSucceeded(p'.responses) {
      forall i | 0 <= i < |p.responses| ensures p.responses[i].Some? { assert p'.responses[i].Some?; }
    }
  }

  /** A step that changes nothing but the pass itself. */
  lemma MoveKeepsInv(cfg: Config, kept: set<Node>, s: System, k: nat, p: Pass)
    requires Inv(cfg, kept, s) && Talking(s, k) && PassOk(cfg, kept, s, p)
    ensures Inv(cfg, kept, SetPass(s, k, p)) && InPlace(s, SetPass(s, k, p))
  {
    var s', id := SetPass(s, k, p), s.passes[k].info.id;
    InPlaceByNone(s, s');
    assert DbOk(s, id);
    SameDbs(cfg, kept, s, s', id, p, {});
    assert s.msgs + {} == s.msgs;
    InvAfterAdvance(cfg, kept, s, s', k, id, {});
  }

  /** A step of the pass that sends m. */
  lemma SendKeepsInv(cfg: Config, kept: set<Node>, s: System, k: nat, p: Pass, m: Msg)
    requires Inv(cfg, kept, s) && Talking(s, k) && PassOk(cfg, kept, s, p) && MsgOk(cfg, kept, s, m)
    ensures Inv(cfg, kept, Send(SetPass(s, k, p), m)) && InPlace(s, Send(SetPass(s, k, p), m))
  {
    var s', id := Send(SetPass(s, k, p), m), s.passes[k].info.id;
    InPlaceByNone(s, s');
    assert DbOk(s, id);
    SameDbs(cfg, kept, s, s', id, p, {m});
    InvAfterAdvance(cfg, kept, s, s', k, id, {m});
  }

  /** Soundness only looks at databases and places. */
  lemma SameDbs(cfg: Config, kept: set<Node>, s: System, s': System, id: DbId, p: Pass, ms: set<Msg>)
    requires s'.at == s.at && s'.dbs == s.dbs && s'.ids == s.ids
    ensures DbOk(s, id) ==> DbOk(s', id)
    ensures PassOk(cfg, kept, s, p) ==> PassOk(cfg, kept, s', p)
    ensures (forall m :: m in ms ==> MsgOk(cfg, kept, s, m)) ==> forall m :: m in ms ==> MsgOk(cfg, kept, s', m)
  {
    SamePoints(s, s');
    if forall m :: m in ms ==> MsgOk(cfg, kept, s, m) {
      forall m | m in ms ensures MsgOk(cfg, kept, s', m) { SameMsg(cfg, kept, s, s', m); }
    }
  }

  lemma SamePoints(s: System, s': System)
    requires s'.dbs == s.dbs && s'.ids == s.ids
    ensures forall h, points :: PointsOk(s, h, points) ==> PointsOk(s', h, points)
    ensures forall h, t, p :: Claim(s, h, t, p) ==> Claim(s', h, t, p)
  {
  }

  lemma SameMsg(cfg: Config, kept: set<Node>, s: System, s': System, m: Msg)
    requires s'.at == s.at && s'.dbs == s.dbs && s'.ids == s.ids
    requires MsgOk(cfg, kept, s, m)
    ensures MsgOk(cfg, kept, s', m)
  {
  }

  // ------------------------------------------------------------------
  // Starting, contacting, failing
  // ------------------------------------------------------------------

  lemma StartKeepsInv(cfg: Config, kept: set<Node>, s: System, k: nat, n: Node)
    requires Inv(cfg, kept, s) && WithinTables(cfg, s) && k !in s.passes && n in s.at && s.at[n] in s.dbs
    ensures Inv(cfg, kept, Start(cfg, s, k, n)) && InPlace(s, Start(cfg, s, k, n))
  {
    var s', id := Start(cfg, s, k, n), s.at[n];
    assert DbOk(s, id);
    StartParts(cfg, kept, s, n);
    var p := s'.passes[k];
    InPlaceByNone(s, s');
    SameDbs(cfg, kept, s, s', id, p, {});
    InvAfterAdvance(cfg, kept, s, s', k, id, {});
  }

  lemma StartParts(cfg: Config, kept: set<Node>, s: System, n: Node)
    requires n in s.at && s.at[n] in s.dbs && s.at[n] in s.ids && s.dbs[s.at[n]].table in cfg.tables
    ensures PassOk(cfg, kept, s,
            Pass(n, InfoOf(cfg, s.at[n], s.dbs[s.at[n]].table), ReplNodes(cfg.primaries, n), [], Idle))
  {
    GrowsReflexive(s.dbs[s.at[n]].table);
  }

  lemma ContactKeepsInv(cfg: Config, kept: set<Node>, s: System, k: nat)
    requires Inv(cfg, kept, s) && Talking(s, k)
    ensures Inv(cfg, kept, Contact(s, k)) && InPlace(s, Contact(s, k))
  {
    GetPassFacts(cfg, kept, s, k);
    var p := s.passes[k];
    WithPhase(cfg, kept, s, p, AwaitSync);
    SendKeepsInv(cfg, kept, s, k, p.(phase := AwaitSync), SyncReq(Peer(p), p.info));
  }

  lemma RespondKeepsInv(cfg: Config, kept: set<Node>, s: System, k: nat, who: Option<DbId>)
    requires Inv(cfg, kept, s) && Talking(s, k) && AnswerOk(kept, s, s.passes[k].info, Peer(s.passes[k]), who)
    ensures Inv(cfg, kept, Respond(s, k, who)) && InPlace(s, Respond(s, k, who))
  {
    GetPassFacts(cfg, kept, s, k);
    var p := s.passes[k];
    WithResponse(cfg, kept, s, p, who);
    MoveKeepsInv(cfg, kept, s, k, p.(responses := p.responses + [who], phase := Idle));
  }

  lemma NotMountedKeepsInv(cfg: Config, kept: set<Node>, s: System, k: nat, more: Option<Node>)
    requires Inv(cfg, kept, s) && Talking(s, k)
    ensures Inv(cfg, kept, NotMounted(s, k, more)) && InPlace(s, NotMounted(s, k, more))
  {
    GetPassFacts(cfg, kept, s, k);
    var s', p := NotMounted(s, k, more), s.passes[k];
    var p' := s'.passes[k];
    assert !AllSucceeded(p'.responses) by { assert p'.responses[|p.responses|].None?; }
    assert PassOk(cfg, kept, s, p');
    MoveKeepsInv(cfg, kept, s, k, p');
  }

  // ------------------------------------------------------------------
  // The answer to a sync request
  // ------------------------------------------------------------------

  /** The point the sender goes on from is one the peer has reached. */
  lemma KnownPoint(s: System, id: DbId, rid: DbId, point: int)
    requires id in s.dbs && DbOk(s, id) && Claim(s, rid, id, point)
    ensures Claim(s, rid, id, Max(point, GetSync(s.dbs[id].outgoing, rid)))
  {
  }

  /** Equal hashes in two snapshots: the peer covers everything the sender had. */
  lemma SnapshotMatch(cfg: Config, s: System, info: Info, rinfo: Info)
    requires CollisionFree(cfg) && InfoOk(cfg, s, info) && InfoOk(cfg, s, rinfo) && rinfo.hash == info.hash
    ensures Claim(s, rinfo.id, info.id, info.maxRow)
  {
    SameContentsCover(rinfo.table.rows, info.table.rows);
    if rinfo.id in s.dbs {
      var rows := s.dbs[rinfo.id].table.rows;
      forall i | i in info.table.rows ensures Covers(rows, info.table.rows[i]) {
        CoversTransitive(rows, rinfo.table.rows, info.table.rows[i]);
      }
    }
    CoversPast(s, rinfo.id, info.id, info.table, info.maxRow);
  }

  /** Recording an outgoing sync point that holds. */
  lemma OutgoingKeepsInv(cfg: Config, kept: set<Node>, s: System, id: DbId, rid: DbId, point: int)
    requires Inv(cfg, kept, s) && id in s.dbs && rid in s.ids && Claim(s, rid, id, point)
    ensures var s' := SetDb(s, id, s.dbs[id].(outgoing := MergeSync(s.dbs[id].outgoing, rid, point)));
            Inv(cfg, kept, s') && InPlace(s, s')
  {
    var s' := SetDb(s, id, s.dbs[id].(outgoing := MergeSync(s.dbs[id].outgoing, rid, point)));
    assert DbOk(s, id);
    OutgoingParts(cfg, kept, s, s', id, rid, point);
    InPlaceEvolves(kept, s, s');
    InvFromParts(cfg, kept, s, s', {id}, {}, {});
  }

  lemma OutgoingParts(cfg: Config, kept: set<Node>, s: System, s': System, id: DbId, rid: DbId, point: int)
    requires id in s.dbs && DbOk(s, id) && rid in s.ids && Claim(s, rid, id, point)
    requires s' == SetDb(s, id, s.dbs[id].(outgoing := MergeSync(s.dbs[id].outgoing, rid, point)))
    ensures InPlace(s, s') && DbOk(s', id)
  {
    GrowsReflexive(s.dbs[id].table);
    InPlaceByOne(s, s', id);
    InPlaceEvolves(kept, s, s');
    PointsStable(kept, s, s', id, s.dbs[id].incoming);
    ClaimStable(kept, s, s', rid, id, point);
    var out := s.dbs[id].outgoing;
    forall r | r in out ensures r in s'.ids && Claim(s', r, id, out[r]) {
      ClaimStable(kept, s, s', r, id, out[r]);
    }
  }

  /** An answer stays true when no table or place changes. */
  lemma AnswerSame(kept: set<Node>, s: System, s': System, info: Info, n: Node, who: Option<DbId>)
    requires AnswerOk(kept, s, info, n, who) && s'.at == s.at && s'.ids == s.ids && s'.dbs.Keys == s.dbs.Keys
    requires forall x :: x in s.dbs ==> s'.dbs[x].table == s.dbs[x].table
    ensures AnswerOk(kept, s', info, n, who)
  {
  }

  lemma OnSyncRespKeepsInv(cfg: Config, kept: set<Node>, s: System, k: nat, m: Msg)
    requires Inv(cfg, kept, s) && CollisionFree(cfg) && Talking(s, k) && Live(s, s.passes[k])
    requires m in s.msgs && m.SyncResp? && m.dst == Peer(s.passes[k]) && m.src == s.passes[k].info.id
    ensures Inv(cfg, kept, OnSyncResp(cfg, s, k, m)) && InPlace(s, OnSyncResp(cfg, s, k, m))
  {
    hide InPlace, DbOk;
    GetPassFacts(cfg, kept, s, k);
    assert MsgOk(cfg, kept, s, m);
    var p, rid := s.passes[k], m.rinfo.id;
    var id := p.info.id;
    var point := Max(m.point, GetSync(s.dbs[id].outgoing, rid));
    KnownPoint(s, id, rid, m.point);
    match ChooseMode(cfg, p.info, m.rinfo, point)
    case NoChange =>
      ClaimWeaken(s, rid, id, point, p.info.maxRow);
      RespondKeepsInv(cfg, kept, s, k, Some(rid));
    case HashMatch =>
      SnapshotMatch(cfg, s, p.info, m.rinfo);
      HashMatchKeepsInv(cfg, kept, s, k, rid, m.point);
    case RemoteMerge =>
      RespondKeepsInv(cfg, kept, s, k, None);
    case Usync =>
      ChosenKeepsInv(cfg, kept, s, k, rid, point);
  }

  lemma HashMatchKeepsInv(cfg: Config, kept: set<Node>, s: System, k: nat, rid: DbId, point: int)
    requires Inv(cfg, kept, s) && Talking(s, k) && s.passes[k].info.id in s.dbs
    requires rid in s.ids && Claim(s, rid, s.passes[k].info.id, point)
    requires AnswerOk(kept, s, s.passes[k].info, Peer(s.passes[k]), Some(rid))
    ensures var id := s.passes[k].info.id;
            var t := SetDb(s, id, s.dbs[id].(outgoing := MergeSync(s.dbs[id].outgoing, rid, point)));
            Inv(cfg, kept, Respond(t, k, Some(rid))) && InPlace(s, Respond(t, k, Some(rid)))
  {
    var p := s.passes[k];
    var id := p.info.id;
    var t := SetDb(s, id, s.dbs[id].(outgoing := MergeSync(s.dbs[id].outgoing, rid, point)));
    OutgoingKeepsInv(cfg, kept, s, id, rid, point);
    AnswerSame(kept, s, t, p.info, Peer(p), Some(rid));
    RespondKeepsInv(cfg, kept, t, k, Some(rid));
  }

  lemma ChosenKeepsInv(cfg: Config, kept: set<Node>, s: System, k: nat, rid: DbId, point: int)
    requires Inv(cfg, kept, s) && Talking(s, k) && At(kept, s, Peer(s.passes[k]), rid)
    requires Claim(s, rid, s.passes[k].info.id, point)
    ensures var s' := SetPass(s, k, s.passes[k].(phase := Chosen(rid, point)));
            Inv(cfg, kept, s') && InPlace(s, s')
  {
    GetPassFacts(cfg, kept, s, k);
    var p := s.passes[k];
    WithPhase(cfg, kept, s, p, Chosen(rid, point));
    MoveKeepsInv(cfg, kept, s, k, p.(phase := Chosen(rid, point)));
  }

  // ------------------------------------------------------------------
  // rsync
  // ------------------------------------------------------------------

  lemma OnMissingKeepsInv(cfg: Config, kept: set<Node>, s: System, k: nat)
    requires Inv(cfg, kept, s) && Talking(s, k) && Live(s, s.passes[k])
    ensures Inv(cfg, kept, OnMissing(s, k)) && InPlace(s, OnMissing(s, k))
  {
    GetPassFacts(cfg, kept, s, k);
    var p := s.passes[k];
    var db := s.dbs[p.info.id];
    CopyIsOk(s, p.info.id);
    WithPhase(cfg, kept, s, p, AwaitRsync(db.table.last));
    SendKeepsInv(cfg, kept, s, k, p.(phase := AwaitRsync(db.table.last)), RsyncReq(Peer(p), p.info.id, db));
  }

  lemma CopyIsOk(s: System, id: DbId)
    requires id in s.dbs && DbOk(s, id)
    ensures CopyOk(s, id, s.dbs[id])
  {
    GrowsReflexive(s.dbs[id].table);
  }

  lemma OnRsyncAckKeepsInv(cfg: Config, kept: set<Node>, s: System, k: nat, m: Msg)
    requires Inv(cfg, kept, s) && Talking(s, k) && s.passes[k].phase.AwaitRsync? && m in s.msgs
    requires m.RsyncAck? && m.dst == Peer(s.passes[k]) && m.source == s.passes[k].info.id
    requires m.upto == s.passes[k].phase.upto
    ensures Inv(cfg, kept, Respond(s, k, Some(m.rid))) && InPlace(s, Respond(s, k, Some(m.rid)))
  {
    GetPassFacts(cfg, kept, s, k);
    assert MsgOk(cfg, kept, s, m);
    ClaimWeaken(s, m.rid, m.source, m.upto, s.passes[k].info.maxRow);
    RespondKeepsInv(cfg, kept, s, k, Some(m.rid));
  }

  // ------------------------------------------------------------------
  // usync
  // ------------------------------------------------------------------

  lemma CaptureKeepsInv(cfg: Config, kept: set<Node>, s: System, k: nat)
    requires Inv(cfg, kept, s) && Talking(s, k) && Live(s, s.passes[k]) && s.passes[k].phase.Chosen?
    ensures Inv(cfg, kept, Capture(s, k)) && InPlace(s, Capture(s, k))
  {
    GetPassFacts(cfg, kept, s, k);
    var p := s.passes[k];
    var phase := Ready(p.phase.rid, p.phase.point, s.dbs[p.info.id].incoming, 0);
    WithPhase(cfg, kept, s, p, phase);
    MoveKeepsInv(cfg, kept, s, k, p.(phase := phase));
  }

  lemma OnItemsAckKeepsInv(cfg: Config, kept: set<Node>, s: System, k: nat, m: Msg)
    requires Inv(cfg, kept, s) && Talking(s, k) && s.passes[k].phase.AwaitItems? && m in s.msgs
    requires m == MergeItemsAck(Peer(s.passes[k]), s.passes[k].phase.rid, s.passes[k].info.id, s.passes[k].phase.hi)
    ensures Inv(cfg, kept, OnItemsAck(s, k)) && InPlace(s, OnItemsAck(s, k))
  {
    GetPassFacts(cfg, kept, s, k);
    assert MsgOk(cfg, kept, s, m);
    var p := s.passes[k];
    var phase := Ready(p.phase.rid, p.phase.hi, p.phase.points, p.phase.diffs);
    WithPhase(cfg, kept, s, p, phase);
    MoveKeepsInv(cfg, kept, s, k, p.(phase := phase));
  }

  lemma OnSyncsAckKeepsInv(cfg: Config, kept: set<Node>, s: System, k: nat)
    requires Inv(cfg, kept, s) && Talking(s, k) && Live(s, s.passes[k]) && s.passes[k].phase.AwaitSyncs?
    ensures Inv(cfg, kept, OnSyncsAck(s, k)) && InPlace(s, OnSyncsAck(s, k))
  {
    GetPassFacts(cfg, kept, s, k);
    var p := s.passes[k];
    HashMatchKeepsInv(cfg, kept, s, k, p.phase.rid, p.phase.point);
  }

  /**
   No row is left above a point the peer has reached, so the peer covers the whole
   table; what the captured sync table claimed of the sender now holds of the peer.
   */
  lemma CaughtUp(s: System, id: DbId, rid: DbId, point: int, points: SyncTable, count: nat, maxRow: int)
    requires id in s.dbs && Claim(s, rid, id, point) && PointsOk(s, id, points)
    requires count >= 1 && ItemsSince(s.dbs[id].table, point, count) == []
    requires maxRow <= s.dbs[id].table.last && Valid(s.dbs[id].table)
    ensures Claim(s, rid, id, maxRow)
    ensures PointsOk(s, rid, points)
  {
    var t := s.dbs[id].table;
    assert forall i :: i in t.rows ==> i <= point;
    forall x | x in points ensures Claim(s, rid, x, points[x]) {
      assert Claim(s, id, x, points[x]);
      if rid in s.dbs && x in s.dbs {
        var xr, rr := s.dbs[x].table.rows, s.dbs[rid].table.rows;
        forall i | i in xr && i <= points[x] ensures Covers(rr, xr[i]) {
          CoversTransitive(rr, t.rows, xr[i]);
        }
      }
    }
  }

  lemma BatchIsOk(s: System, id: DbId, point: int, count: nat)
    requires id in s.dbs && ItemsSince(s.dbs[id].table, point, count) != []
    ensures var items := ItemsSince(s.dbs[id].table, point, count);
            BatchOk(s, id, point, items) && TopRow(items) == items[|items| - 1].rowid
  {
    var t := s.dbs[id].table;
    var items := ItemsSince(t, point, count);
    BatchHasNoGaps(t, point, count);
    TopRowIsLast(items);
    forall i | i in t.rows && point < i <= TopRow(items) ensures exists x :: x in items && x.rec == t.rows[i] {
      assert Item(i, t.rows[i]) in items;
    }
  }

  lemma QueryKeepsInv(cfg: Config, kept: set<Node>, s: System, k: nat)
    requires Inv(cfg, kept, s) && cfg.perDiff >= 1
    requires Talking(s, k) && Live(s, s.passes[k]) && s.passes[k].phase.Ready?
    ensures Inv(cfg, kept, Query(cfg, s, k)) && InPlace(s, Query(cfg, s, k))
  {
    GetPassFacts(cfg, kept, s, k);
    var p := s.passes[k];
    var items := ItemsSince(s.dbs[p.info.id].table, p.phase.point, cfg.perDiff);
    if items == [] {
      QueryEmpty(cfg, kept, s, k);
    } else if p.phase.diffs < cfg.maxDiffs {
      QueryBatch(cfg, kept, s, k);
    } else {
      RespondKeepsInv(cfg, kept, s, k, None);
    }
  }

  lemma QueryEmpty(cfg: Config, kept: set<Node>, s: System, k: nat)
    requires Inv(cfg, kept, s) && cfg.perDiff >= 1
    requires Talking(s, k) && Live(s, s.passes[k]) && s.passes[k].phase.Ready?
    requires ItemsSince(s.dbs[s.passes[k].info.id].table, s.passes[k].phase.point, cfg.perDiff) == []
    ensures Inv(cfg, kept, Query(cfg, s, k)) && InPlace(s, Query(cfg, s, k))
  {
    GetPassFacts(cfg, kept, s, k);
    var p := s.passes[k];
    var m := MergeSyncsReq(Peer(p), p.phase.rid, p.phase.points);
    var phase := AwaitSyncs(p.phase.rid, p.phase.point);
    CaughtUp(s, p.info.id, p.phase.rid, p.phase.point, p.phase.points, cfg.perDiff, p.info.maxRow);
    WithPhase(cfg, kept, s, p, phase);
    SendKeepsInv(cfg, kept, s, k, p.(phase := phase), m);
  }

  lemma QueryBatch(cfg: Config, kept: set<Node>, s: System, k: nat)
    requires Inv(cfg, kept, s)
    requires Talking(s, k) && Live(s, s.passes[k]) && s.passes[k].phase.Ready?
    requires ItemsSince(s.dbs[s.passes[k].info.id].table, s.passes[k].phase.point, cfg.perDiff) != []
    requires s.passes[k].phase.diffs < cfg.maxDiffs
    ensures Inv(cfg, kept, Query(cfg, s, k)) && InPlace(s, Query(cfg, s, k))
  {
    GetPassFacts(cfg, kept, s, k);
    var p', m := QueryBatchFacts(cfg, kept, s, k);
    SendKeepsInv(cfg, kept, s, k, p', m);
  }

  lemma QueryBatchFacts(cfg: Config, kept: set<Node>, s: System, k: nat) returns (p': Pass, m: Msg)
    requires PassFacts(cfg, kept, s, k) && Live(s, s.passes[k]) && s.passes[k].phase.Ready?
    requires ItemsSince(s.dbs[s.passes[k].info.id].table, s.passes[k].phase.point, cfg.perDiff) != []
    requires s.passes[k].phase.diffs < cfg.maxDiffs
    ensures PassOk(cfg, kept, s, p') && MsgOk(cfg, kept, s, m)
    ensures Query(cfg, s, k) == Send(SetPass(s, k, p'), m)
  {
    hide ItemsSince, Claim, At, PointsOk, TopRow;
    var p := s.passes[k];
    var items := ItemsSince(s.dbs[p.info.id].table, p.phase.point, cfg.perDiff);
    m := MergeItemsReq(Peer(p), p.phase.rid, p.info.id, p.phase.point, items);
    assert MsgOk(cfg, kept, s, m) by { BatchIsOk(s, p.info.id, p.phase.point, cfg.perDiff); }
    var phase := AwaitItems(p.phase.rid, items[|items| - 1].rowid, p.phase.points, p.phase.diffs + 1);
    WithPhase(cfg, kept, s, p, phase);
    p' := p.(phase := phase);
  }

  // ------------------------------------------------------------------
  // The end of a pass
  // ------------------------------------------------------------------

  lemma ForgetKeepsInv(cfg: Config, kept: set<Node>, s: System, k: nat)
    requires Inv(cfg, kept, s)
    ensures Inv(cfg, kept, Forget(s, k)) && InPlace(s, Forget(s, k))
  {
    InPlaceByNone(s, Forget(s, k));
    InPlaceEvolves(kept, s, Forget(s, k));
    InvFromParts(cfg, kept, s, Forget(s, k), {}, {}, {});
  }

  lemma RemoveKeepsInv(cfg: Config, kept: set<Node>, s: System, n: Node)
    requires Inv(cfg, kept, s) && n in s.at && n !in kept
    ensures Inv(cfg, kept, Remove(s, n)) && Evolves(kept, s, Remove(s, n))
  {
    hide DbOk, MsgOk, PassOk, Evolves;
    var s' := Remove(s, n);
    RemoveEvolves(kept, s, n);
    InvFromParts(cfg, kept, s, s', {}, {}, {});
  }

  lemma RemoveEvolves(kept: set<Node>, s: System, n: Node)
    requires PlacesOk(s) && n in s.at && n !in kept
    ensures Evolves(kept, s, Remove(s, n)) && PlacesOk(Remove(s, n))
  {
    var s' := Remove(s, n);
    forall id | id in s'.dbs ensures Grows(s.dbs[id].table, s'.dbs[id].table) {
      GrowsReflexive(s.dbs[id].table);
    }
  }

  lemma DecideKeepsInv(cfg: Config, kept: set<Node>, s: System, k: nat)
    requires Inv(cfg, kept, s) && Finished(s, k) && Removes(cfg, s, s.passes[k])
    ensures Inv(cfg, kept, Decide(s, k)) && InPlace(s, Decide(s, k))
  {
    hide DbOk, MsgOk, AnswerOk;
    var s', p := Decide(s, k), s.passes[k].(phase := Deleting);
    assert PassOk(cfg, kept, s, s.passes[k]);
    assert PassOk(cfg, kept, s, p);
    assert DbOk(s, p.info.id);
    InPlaceByNone(s, s');
    SameDbs(cfg, kept, s, s', p.info.id, p, {});
    assert s.msgs + {} == s.msgs;
    InvAfterAdvance(cfg, kept, s, s', k, p.info.id, {});
  }

  lemma DeleteKeepsInv(cfg: Config, kept: set<Node>, s: System, k: nat)
    requires Inv(cfg, kept, s) && kept <= Primaries(cfg) && Finished(s, k) && s.passes[k].phase.Deleting?
    ensures Inv(cfg, kept, Delete(s, k))
  {
    hide DbOk, MsgOk, AnswerOk, PhaseOk;
    var p := s.passes[k];
    assert PassOk(cfg, kept, s, p);
    if p.src in s.at {
      RemoveKeepsInv(cfg, kept, s, p.src);
      ForgetKeepsInv(cfg, kept, Remove(s, p.src), k);
    } else {
      ForgetKeepsInv(cfg, kept, s, k);
    }
  }

  /** One of the recorded successes is by database x. */
  ghost predicate AnsweredBy(p: Pass, x: DbId) {
    exists i :: 0 <= i < |p.responses| && p.responses[i] == Some(x)
  }

  /**
   A database that answered with success covers, for as long as it exists, all rows the pass set out
   with; and so all rows of the database the pass is about, unless some came later.
   */
  lemma AnswerIsCovered(cfg: Config, kept: set<Node>, s: System, k: nat, x: DbId)
    requires Inv(cfg, kept, s) && k in s.passes && s.passes[k].info.id in s.dbs
    requires AnsweredBy(s.passes[k], x) && x in s.dbs
    ensures var p := s.passes[k];
            var t := s.dbs[p.info.id].table;
            && CoversUpTo(s.dbs[x].table.rows, t.rows, p.info.maxRow)
            && (MaxRow(t) == p.info.maxRow ==> CoversAll(s.dbs[x].table.rows, t.rows))
  {
    var p := s.passes[k];
    assert PassOk(cfg, kept, s, p) && DbOk(s, p.info.id);
    var i :| 0 <= i < |p.responses| && p.responses[i] == Some(x);
    assert AnswerOk(kept, s, p.info, p.targets[i], p.responses[i]);
  }

  /** The database of a kept primary that succeeded is the one that answered. */
  lemma KeptAnswers(cfg: Config, kept: set<Node>, s: System, k: nat, i: nat)
    requires Inv(cfg, kept, s) && k in s.passes && i < |s.passes[k].responses| && i < |s.passes[k].targets|
    requires s.passes[k].responses[i].Some? && s.passes[k].targets[i] in kept
    ensures var n := s.passes[k].targets[i];
            n in s.at && s.at[n] in s.dbs && s.passes[k].responses[i] == Some(s.at[n])
  {
    var p := s.passes[k];
    assert PassOk(cfg, kept, s, p);
    assert AnswerOk(kept, s, p.info, p.targets[i], p.responses[i]);
  }

  /** Without `handoff_delete`, a pass that may delete has succeeded with every primary. */
  lemma DefaultAsksAll(cfg: Config, kept: set<Node>, s: System, k: nat, n: Node) returns (i: nat)
    requires Inv(cfg, kept, s) && Finished(s, k) && s.passes[k].phase.Deleting? && cfg.handoffDelete == 0
    requires n in cfg.primaries
    ensures i < |s.passes[k].responses| && s.passes[k].targets[i] == n && s.passes[k].responses[i].Some?
    ensures n != s.passes[k].src
  {
    var p := s.passes[k];
    assert PassOk(cfg, kept, s, p);
    HandoffContactsAll(cfg.primaries, p.src);
    i :| 0 <= i < |cfg.primaries| && cfg.primaries[i] == n;
    assert p.targets[i] == n && p.responses[i].Some?;
  }

  lemma {:induction false} SuccessAmong(rs: seq<Option<DbId>>, m: nat)
    requires m <= |rs| && Successes(rs) > |rs| - m
    ensures exists i :: 0 <= i < m && rs[i].Some?
  {
    if m == |rs| {
      SomeSuccess(rs);
    } else {
      SuccessAmong(rs[..|rs| - 1], m);
      var i :| 0 <= i < m && rs[..|rs| - 1][i].Some?;
      assert rs[i].Some?;
    }
  }

  lemma {:induction false} SomeSuccess(rs: seq<Option<DbId>>)
    requires Successes(rs) > 0
    ensures exists i :: 0 <= i < |rs| && rs[i].Some?
  {
    if rs[|rs| - 1].None? {
      SomeSuccess(rs[..|rs| - 1]);
      var i :| 0 <= i < |rs| - 1 && rs[..|rs| - 1][i].Some?;
      assert rs[i].Some?;
    }
  }

  /** Failures by m peers, then successes by j more. */
  function LateSuccesses(m: nat, j: nat): seq<Option<DbId>> {
    seq(m + j, i requires 0 <= i < m + j => if i < m then None else Some(0))
  }

  lemma {:induction false} LateSuccessesCount(m: nat, j: nat)
    ensures Successes(LateSuccesses(m, j)) == j
  {
    var rs := LateSuccesses(m, j);
    if j > 0 {
      assert rs[..m + j - 1] == LateSuccesses(m, j - 1);
      LateSuccessesCount(m, j - 1);
    } else if m > 0 {
      assert rs[..m - 1] == LateSuccesses(m - 1, 0);
      LateSuccessesCount(m - 1, 0);
    }
  }

  /**
   Of `all` peers, the first `m` of them primaries, every set of answers that approves a deletion has a
   primary's success if and only if all must succeed or more successes are asked for than there are others.
   */
  lemma ApprovalNeedsPrimaryIff(handoffDelete: nat, m: nat, all: nat)
    requires 1 <= m <= all
    ensures (forall rs: seq<Option<DbId>> :: |rs| == all && Approves(handoffDelete, rs) ==>
               exists i :: 0 <= i < m && rs[i].Some?) <==>
            (handoffDelete == 0 || handoffDelete > all - m)
  {
    if handoffDelete == 0 || handoffDelete > all - m {
      forall rs: seq<Option<DbId>> | |rs| == all && Approves(handoffDelete, rs)
        ensures exists i :: 0 <= i < m && rs[i].Some?
      {
        if handoffDelete == 0 { assert rs[0].Some?; } else { SuccessAmong(rs, m); }
      }
    } else {
      var rs := LateSuccesses(m, all - m);
      LateSuccessesCount(m, all - m);
      assert |rs| == all && Approves(handoffDelete, rs);
    }
  }

  /** With `handoff_delete` above the number of handoffs contacted, some primary succeeded. */
  lemma EnoughAsksOne(cfg: Config, kept: set<Node>, s: System, k: nat) returns (i: nat)
    requires Inv(cfg, kept, s) && Finished(s, k) && s.passes[k].phase.Deleting? && cfg.primaries != []
    requires cfg.handoffDelete == 0 || cfg.handoffDelete > |s.passes[k].targets| - |cfg.primaries|
    ensures i < |s.passes[k].responses| && s.passes[k].targets[i] in cfg.primaries && s.passes[k].responses[i].Some?
  {
    var p := s.passes[k];
    assert PassOk(cfg, kept, s, p);
    HandoffContactsAll(cfg.primaries, p.src);
    ApprovalNeedsPrimaryIff(cfg.handoffDelete, |cfg.primaries|, |p.targets|);
    i :| 0 <= i < |cfg.primaries| && p.responses[i].Some?;
    assert p.targets[i] == cfg.primaries[i];
  }
}
