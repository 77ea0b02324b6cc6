/**
 What every step of the replication state machine keeps. The central notion is
 a claim: "database h covers the rows of database t up to ROWID p". Sync points,
 requests, answers and passes in progress are all sources of claims, and no
 change of any table can falsify a claim once it holds.
 */
module ReplicationInv {
  import opened Wrappers
  import opened Rows
  import opened SyncTables
  import opened NodeOrder
  import opened Replication

  /** Database h, if it still exists, covers database t up to p, if that does; such rows of t exist. */
  ghost predicate Claim(s: System, h: DbId, t: DbId, p: int) {
    && (t in s.dbs ==> p <= s.dbs[t].table.last)
    && (h in s.dbs && t in s.dbs ==> Sound(s.dbs[h].table, s.dbs[t].table, p))
  }

  /** t was the table of database id at some time. */
  ghost predicate Seen(s: System, id: DbId, t: Table) {
    id in s.dbs ==> Grows(t, s.dbs[id].table)
  }

  /** Database id, if it still exists, is at n; at the nodes that are kept it does. */
  ghost predicate At(kept: set<Node>, s: System, n: Node, id: DbId) {
    && id in s.ids
    && (n in kept || id in s.dbs ==> n in s.at && s.at[n] == id)
  }

  ghost predicate PointsOk(s: System, h: DbId, points: SyncTable) {
    forall t :: t in points ==> t in s.ids && Claim(s, h, t, points[t])
  }

  ghost predicate DbOk(s: System, id: DbId) {
    id in s.dbs ==>
      && id in s.ids
      && Valid(s.dbs[id].table)
      && PointsOk(s, id, s.dbs[id].incoming)
      && (forall r :: r in s.dbs[id].outgoing ==> r in s.ids && Claim(s, r, id, s.dbs[id].outgoing[r]))
  }

  ghost predicate InfoOk(cfg: Config, s: System, info: Info) {
    && info.id in s.ids
    && info == InfoOf(cfg, info.id, info.table)
    && info.table in cfg.tables
    && Seen(s, info.id, info.table)
  }

  /** A copied database file: a past state of its source, with sync points that were sound for it. */
  ghost predicate CopyOk(s: System, source: DbId, copy: Db) {
    && source in s.ids
    && Valid(copy.table)
    && Seen(s, source, copy.table)
    && (forall t :: t in copy.incoming ==>
          && t in s.ids
          && (t in s.dbs ==>
                && copy.incoming[t] <= s.dbs[t].table.last
                && CoversUpTo(copy.table.rows, s.dbs[t].table.rows, copy.incoming[t])))
    && (forall r :: r in copy.outgoing ==>
          && r in s.ids && copy.outgoing[r] <= copy.table.last
          && (r in s.dbs ==> CoversUpTo(s.dbs[r].table.rows, copy.table.rows, copy.outgoing[r])))
  }

  /** The batch carries every row its source still has between lo and the last ROWID sent. */
  ghost predicate BatchOk(s: System, source: DbId, lo: int, items: seq<Item>) {
    && lo < TopRow(items)
    && (source in s.dbs ==>
          && TopRow(items) <= s.dbs[source].table.last
          && (forall i :: i in s.dbs[source].table.rows && lo < i <= TopRow(items) ==>
                exists x :: x in items && x.rec == s.dbs[source].table.rows[i]))
  }

  ghost predicate MsgOk(cfg: Config, kept: set<Node>, s: System, m: Msg) {
    match m
    case SyncReq(dst, info) => InfoOk(cfg, s, info)
    case SyncMissing(dst) => true
    case SyncResp(dst, src, rinfo, point) =>
      InfoOk(cfg, s, rinfo) && At(kept, s, dst, rinfo.id) && src in s.ids && Claim(s, rinfo.id, src, point)
    case MergeItemsReq(dst, rid, source, lo, items) =>
      At(kept, s, dst, rid) && source in s.ids && Claim(s, rid, source, lo) && BatchOk(s, source, lo, items)
    case MergeItemsAck(dst, rid, source, hi) => rid in s.ids && source in s.ids && Claim(s, rid, source, hi)
    case MergeSyncsReq(dst, rid, points) => At(kept, s, dst, rid) && PointsOk(s, rid, points)
    case MergeSyncsAck(dst, rid) => true
    case RsyncReq(dst, source, copy) => CopyOk(s, source, copy)
    case RsyncTested(dst, source, copy) => CopyOk(s, source, copy)
    case RsyncAck(dst, rid, source, upto) =>
      At(kept, s, dst, rid) && source in s.ids && Claim(s, rid, source, upto)
  }

  ghost predicate PhaseOk(kept: set<Node>, s: System, info: Info, peer: Node, phase: Phase) {
    match phase
    case Idle => true
    case AwaitSync => true
    case AwaitRsync(upto) => info.maxRow <= upto
    case Chosen(rid, point) => At(kept, s, peer, rid) && Claim(s, rid, info.id, point)
    case Ready(rid, point, points, diffs) =>
      At(kept, s, peer, rid) && Claim(s, rid, info.id, point) && PointsOk(s, info.id, points)
    case AwaitItems(rid, hi, points, diffs) => At(kept, s, peer, rid) && PointsOk(s, info.id, points)
    case AwaitSyncs(rid, point) =>
      At(kept, s, peer, rid) && Claim(s, rid, info.id, point) && Claim(s, rid, info.id, info.maxRow)
    case Deleting => true
  }

  /** A recorded success is by a database that covers what the pass set out with. */
  ghost predicate AnswerOk(kept: set<Node>, s: System, info: Info, n: Node, who: Option<DbId>) {
    who.Some? ==> At(kept, s, n, who.value) && Claim(s, who.value, info.id, info.maxRow)
  }

  ghost predicate PassOk(cfg: Config, kept: set<Node>, s: System, p: Pass) {
    && InfoOk(cfg, s, p.info)
    && |p.responses| <= |p.targets|
    && (|p.responses| < |p.targets| ==> PhaseOk(kept, s, p.info, Peer(p), p.phase))
    && (|p.responses| == |p.targets| && p.phase.Deleting? ==>
          p.src !in cfg.primaries && Approves(cfg.handoffDelete, p.responses))
    && ReplNodes(cfg.primaries, p.src) <= p.targets
    && (AllSucceeded(p.responses) ==> p.targets == ReplNodes(cfg.primaries, p.src))
    && (forall i :: 0 <= i < |p.responses| ==> AnswerOk(kept, s, p.info, p.targets[i], p.responses[i]))
  }

  /** Every node has its own database. */
  ghost predicate PlacesOk(s: System) {
    && (forall n :: n in s.at ==> s.at[n] in s.dbs)
    && (forall n, m :: n in s.at && m in s.at && n != m ==> s.at[n] != s.at[m])
  }

  ghost predicate Inv(cfg: Config, kept: set<Node>, s: System) {
    && PlacesOk(s)
    && (forall id :: id in s.dbs ==> DbOk(s, id))
    && (forall m :: m in s.msgs ==> MsgOk(cfg, kept, s, m))
    && (forall k :: k in s.passes ==> PassOk(cfg, kept, s, s.passes[k]))
  }

  // ------------------------------------------------------------------
  // Claims survive every change
  // ------------------------------------------------------------------

  /** Each database of s' is an older one grown, or new; a node that loses its database is not one of those kept. */
  ghost predicate Evolves(kept: set<Node>, s: System, s': System) {
    && s.ids <= s'.ids
    && (forall id :: id in s'.dbs && id in s.ids ==> id in s.dbs && Grows(s.dbs[id].table, s'.dbs[id].table))
    && (forall n :: n in s.at ==> (n in s'.at && s'.at[n] == s.at[n]) || (n !in kept && s.at[n] !in s'.dbs))
  }

  lemma AtStable(kept: set<Node>, s: System, s': System, n: Node, id: DbId)
    requires Evolves(kept, s, s') && At(kept, s, n, id)
    ensures At(kept, s', n, id)
  {
  }

  lemma ClaimStable(kept: set<Node>, s: System, s': System, h: DbId, t: DbId, p: int)
    requires Evolves(kept, s, s') && Claim(s, h, t, p) && h in s.ids && t in s.ids
    ensures Claim(s', h, t, p)
  {
    if h in s'.dbs && t in s'.dbs {
      var hr, tr := s'.dbs[h].table.rows, s'.dbs[t].table.rows;
      forall i | i in tr && i <= p ensures Covers(hr, tr[i]) {
        CoversTransitive(hr, s.dbs[h].table.rows, tr[i]);
      }
    }
  }

  lemma SeenStable(kept: set<Node>, s: System, s': System, id: DbId, t: Table)
    requires Evolves(kept, s, s') && Seen(s, id, t) && id in s.ids
    ensures Seen(s', id, t)
  {
    if id in s'.dbs {
      GrowsTransitive(t, s.dbs[id].table, s'.dbs[id].table);
    }
  }

  lemma PointsStable(kept: set<Node>, s: System, s': System, h: DbId, points: SyncTable)
    requires Evolves(kept, s, s') && PointsOk(s, h, points) && h in s.ids
    ensures PointsOk(s', h, points)
  {
    forall t | t in points ensures t in s'.ids && Claim(s', h, t, points[t]) {
      ClaimStable(kept, s, s', h, t, points[t]);
    }
  }

  lemma CopyStable(kept: set<Node>, s: System, s': System, source: DbId, copy: Db)
    requires Evolves(kept, s, s') && CopyOk(s, source, copy)
    ensures CopyOk(s', source, copy)
  {
    SeenStable(kept, s, s', source, copy.table);
    forall r | r in copy.outgoing && r in s'.dbs
      ensures CoversUpTo(s'.dbs[r].table.rows, copy.table.rows, copy.outgoing[r])
    {
      forall i | i in copy.table.rows && i <= copy.outgoing[r]
        ensures Covers(s'.dbs[r].table.rows, copy.table.rows[i])
      {
        CoversTransitive(s'.dbs[r].table.rows, s.dbs[r].table.rows, copy.table.rows[i]);
      }
    }
  }

  lemma MsgStable(cfg: Config, kept: set<Node>, s: System, s': System, m: Msg)
    requires Inv(cfg, kept, s) && Evolves(kept, s, s') && m in s.msgs
    ensures MsgOk(cfg, kept, s', m)
  {
    match m
    case SyncReq(dst, info) => SeenStable(kept, s, s', info.id, info.table);
    case SyncMissing(dst) =>
    case SyncResp(dst, src, rinfo, point) =>
      AtStable(kept, s, s', dst, rinfo.id);
      SeenStable(kept, s, s', rinfo.id, rinfo.table);
      ClaimStable(kept, s, s', rinfo.id, src, point);
    case MergeItemsReq(dst, rid, source, lo, items) =>
      AtStable(kept, s, s', dst, rid);
      ClaimStable(kept, s, s', rid, source, lo);
    case MergeItemsAck(dst, rid, source, hi) => ClaimStable(kept, s, s', rid, source, hi);
    case MergeSyncsReq(dst, rid, points) =>
      AtStable(kept, s, s', dst, rid);
      PointsStable(kept, s, s', rid, points);
    case MergeSyncsAck(dst, rid) =>
    case RsyncReq(dst, source, copy) => CopyStable(kept, s, s', source, copy);
    case RsyncTested(dst, source, copy) => CopyStable(kept, s, s', source, copy);
    case RsyncAck(dst, rid, source, upto) =>
      AtStable(kept, s, s', dst, rid);
      ClaimStable(kept, s, s', rid, source, upto);
  }

  lemma PhaseStable(kept: set<Node>, s: System, s': System, info: Info, peer: Node, phase: Phase)
    requires Evolves(kept, s, s') && info.id in s.ids && PhaseOk(kept, s, info, peer, phase)
    ensures PhaseOk(kept, s', info, peer, phase)
  {
    match phase
    case Idle =>
    case AwaitSync =>
    case AwaitRsync(upto) =>
    case Chosen(rid, point) =>
      AtStable(kept, s, s', peer, rid);
      ClaimStable(kept, s, s', rid, info.id, point);
    case Ready(rid, point, points, diffs) =>
      AtStable(kept, s, s', peer, rid);
      ClaimStable(kept, s, s', rid, info.id, point);
      PointsStable(kept, s, s', info.id, points);
    case AwaitItems(rid, hi, points, diffs) =>
      AtStable(kept, s, s', peer, rid);
      PointsStable(kept, s, s', info.id, points);
    case AwaitSyncs(rid, point) =>
      AtStable(kept, s, s', peer, rid);
      ClaimStable(kept, s, s', rid, info.id, point);
      ClaimStable(kept, s, s', rid, info.id, info.maxRow);
    case Deleting =>
  }

  lemma AnswerStable(kept: set<Node>, s: System, s': System, info: Info, n: Node, who: Option<DbId>)
    requires Evolves(kept, s, s') && info.id in s.ids && AnswerOk(kept, s, info, n, who)
    ensures AnswerOk(kept, s', info, n, who)
  {
    if who.Some? {
      AtStable(kept, s, s', n, who.value);
      ClaimStable(kept, s, s', who.value, info.id, info.maxRow);
    }
  }

  lemma PassStable(cfg: Config, kept: set<Node>, s: System, s': System, k: nat)
    requires Inv(cfg, kept, s) && Evolves(kept, s, s') && k in s.passes
    ensures PassOk(cfg, kept, s', s.passes[k])
  {
    hide AnswerOk, PhaseOk, Evolves, MsgOk, DbOk;
    var p := s.passes[k];
    assert PassOk(cfg, kept, s, p);
    SeenStable(kept, s, s', p.info.id, p.info.table);
    assert s.ids <= s'.ids by { IdsGrow(kept, s, s'); }
    if |p.responses| < |p.targets| {
      PhaseStable(kept, s, s', p.info, Peer(p), p.phase);
    }
    forall i | 0 <= i < |p.responses| ensures AnswerOk(kept, s', p.info, p.targets[i], p.responses[i]) {
      AnswerStable(kept, s, s', p.info, p.targets[i], p.responses[i]);
    }
  }

  lemma IdsGrow(kept: set<Node>, s: System, s': System)
    requires Evolves(kept, s, s')
    ensures s.ids <= s'.ids
  {
  }

  /** A database whose own table and sync tables did not change stays sound. */
  lemma DbStable(cfg: Config, kept: set<Node>, s: System, s': System, id: DbId)
    requires Inv(cfg, kept, s) && Evolves(kept, s, s')
    requires id in s.dbs && id in s'.dbs && s'.dbs[id].incoming == s.dbs[id].incoming
    requires s'.dbs[id].outgoing == s.dbs[id].outgoing && Valid(s'.dbs[id].table)
    ensures DbOk(s', id)
  {
    PointsStable(kept, s, s', id, s.dbs[id].incoming);
    var out := s.dbs[id].outgoing;
    forall r | r in out ensures r in s'.ids && Claim(s', r, id, out[r]) {
      ClaimStable(kept, s, s', r, id, out[r]);
    }
  }
}
