/**
 Database replication as a state machine: account databases on nodes, the
 `_replicate_object` passes that push one database to its peers, and the
 requests and answers between them. A request stays deliverable until it is
 dropped, so it may arrive late, arrive more than once or never arrive; a pass
 may fail or vanish at any point.
 */
module Replication {
  import opened Wrappers
  import opened Rows
  import opened Digest
  import opened SyncTables
  import opened NodeOrder

  datatype Db = Db(table: Table, incoming: SyncTable, outgoing: SyncTable)

  /**
   `get_replication_info`. The table is what the snapshot was taken of; only the
   other fields are transmitted.
   */
  datatype Info = Info(id: DbId, maxRow: int, hash: Hash, table: Table)

  /**
   `rid` is the id of the database at `dst` the sender knows; it is not transmitted. RsyncTested is
   not a message but `complete_rsync` at `dst` between its test for a database and its rename.
   */
  datatype Msg =
    | SyncReq(dst: Node, info: Info)
    | SyncMissing(dst: Node)
    | SyncResp(dst: Node, src: DbId, rinfo: Info, point: int)
    | MergeItemsReq(dst: Node, rid: DbId, source: DbId, lo: int, items: seq<Item>)
    | MergeItemsAck(dst: Node, rid: DbId, source: DbId, hi: int)
    | MergeSyncsReq(dst: Node, rid: DbId, points: SyncTable)
    | MergeSyncsAck(dst: Node, rid: DbId)
    | RsyncReq(dst: Node, source: DbId, copy: Db)
    | RsyncTested(dst: Node, source: DbId, copy: Db)
    | RsyncAck(dst: Node, rid: DbId, source: DbId, upto: int)

  /** Where a pass stands with the peer it is talking to. */
  datatype Phase =
    | Idle
    | AwaitSync
    | AwaitRsync(upto: int)
    | Chosen(rid: DbId, point: int)
    | Ready(rid: DbId, point: int, points: SyncTable, diffs: nat)
    | AwaitItems(rid: DbId, hi: int, points: SyncTable, diffs: nat)
    | AwaitSyncs(rid: DbId, point: int)
    | Deleting

  /**
   One `_replicate_object` call; the peer in turn is targets[|responses|]. A success is recorded
   with the database that answered, which the code does not remember.
   */
  datatype Pass = Pass(src: Node, info: Info, targets: seq<Node>, responses: seq<Option<DbId>>, phase: Phase)

  /**
   The ring's primaries, the replicator's settings, the row hash, and the tables
   among which it is assumed not to collide.
   */
  datatype Config = Config(primaries: seq<Node>, perDiff: nat, maxDiffs: nat, handoffDelete: nat,
                           rowHash: RowHash, tables: set<Table>)

  /** `ids` and `written` record history: every id ever used, every record ever merged locally. */
  datatype System = System(at: map<Node, DbId>, dbs: map<DbId, Db>, msgs: set<Msg>, passes: map<nat, Pass>,
                           ids: set<DbId>, written: set<Record>)

  const INITIAL := System(map[], map[], {}, map[], {}, {})

  ghost predicate CollisionFree(cfg: Config) {
    forall t, u :: t in cfg.tables && u in cfg.tables && TableHash(cfg.rowHash, t) == TableHash(cfg.rowHash, u)
      ==> Contents(t.rows) == Contents(u.rows)
  }

  ghost predicate ValidConfig(cfg: Config) {
    cfg.perDiff >= 1 && cfg.primaries != [] && CollisionFree(cfg)
  }

  function InfoOf(cfg: Config, id: DbId, t: Table): Info {
    Info(id, MaxRow(t), TableHash(cfg.rowHash, t), t)
  }

  function Send(s: System, m: Msg): System {
    s.(msgs := s.msgs + {m})
  }

  function SetDb(s: System, id: DbId, db: Db): System {
    s.(dbs := s.dbs[id := db])
  }

  function SetPass(s: System, k: nat, p: Pass): System {
    s.(passes := s.passes[k := p])
  }

  /** The peer in turn failed, or succeeded by the given database. */
  function Respond(s: System, k: nat, who: Option<DbId>): System
    requires k in s.passes
  {
    var p := s.passes[k];
    SetPass(s, k, p.(responses := p.responses + [who], phase := Idle))
  }

  predicate Talking(s: System, k: nat) {
    k in s.passes && |s.passes[k].responses| < |s.passes[k].targets|
  }

  function Peer(p: Pass): Node
    requires |p.responses| < |p.targets|
  {
    p.targets[|p.responses|]
  }

  /** The pass can still read and write the database it started with. */
  predicate Live(s: System, p: Pass) {
    p.src in s.at && s.at[p.src] == p.info.id && p.info.id in s.dbs
  }

  // ------------------------------------------------------------------
  // Databases
  // ------------------------------------------------------------------

  function Create(s: System, n: Node, id: DbId): System {
    s.(at := s.at[n := id], dbs := s.dbs[id := Db(EMPTY, map[], map[])], ids := s.ids + {id})
  }

  /** `merge_items` for records put on this node. */
  function LocalMerge(s: System, n: Node, recs: seq<Record>): System
    requires n in s.at && s.at[n] in s.dbs
  {
    var db := s.dbs[s.at[n]];
    SetDb(s, s.at[n], db.(table := MergeItems(db.table, recs))).(written := s.written + (set r | r in recs))
  }

  // ------------------------------------------------------------------
  // The receiving side: ReplicatorRpc
  // ------------------------------------------------------------------

  /** `_handle_sync_request`: the answered point, and the sync table after a hash match. */
  function SyncPoint(cfg: Config, db: Db, remote: Info): (SyncTable, int) {
    var point := GetSync(db.incoming, remote.id);
    if remote.hash == TableHash(cfg.rowHash, db.table) && point < remote.maxRow then
      (MergeSync(db.incoming, remote.id, remote.maxRow), remote.maxRow)
    else
      (db.incoming, point)
  }

  function HandleSync(cfg: Config, s: System, m: Msg): System
    requires m.SyncReq?
  {
    if m.dst !in s.at || s.at[m.dst] !in s.dbs then Send(s, SyncMissing(m.dst))
    else
      var id := s.at[m.dst];
      var db := s.dbs[id];
      Send(SetDb(s, id, db.(incoming := SyncPoint(cfg, db, m.info).0)),
           SyncResp(m.dst, m.info.id, InfoOf(cfg, id, db.table), SyncPoint(cfg, db, m.info).1))
  }

  /** `merge_items` with a source. */
  function HandleItems(s: System, m: Msg): System
    requires m.MergeItemsReq? && m.dst in s.at && s.at[m.dst] in s.dbs
  {
    var id := s.at[m.dst];
    var db := s.dbs[id];
    var db' := db.(table := MergeItems(db.table, Records(m.items)),
                   incoming := MergeSync(db.incoming, m.source, TopRow(m.items)));
    Send(SetDb(s, id, db'), MergeItemsAck(m.dst, m.rid, m.source, TopRow(m.items)))
  }

  function HandleSyncs(s: System, m: Msg): System
    requires m.MergeSyncsReq? && m.dst in s.at && s.at[m.dst] in s.dbs
  {
    var id := s.at[m.dst];
    var db := s.dbs[id];
    Send(SetDb(s, id, db.(incoming := MergeSyncs(db.incoming, m.points))), MergeSyncsAck(m.dst, m.rid))
  }

  /** `complete_rsync` up to its test: no database here yet. */
  function TestRsync(s: System, m: Msg): System
    requires m.RsyncReq?
  {
    Send(s, RsyncTested(m.dst, m.source, m.copy))
  }

  /** The copied file with its new id, and the sync point `newid` records. */
  function Copied(m: Msg): Db
    requires m.RsyncTested?
  {
    m.copy.(incoming := m.copy.incoming[m.source := LastRow(m.copy.table)])
  }

  /** The rest of it: the file takes the database's place, whatever is there by now. */
  function Rename(s: System, m: Msg, id: DbId): System
    requires m.RsyncTested?
  {
    var rest := if m.dst in s.at then s.dbs - {s.at[m.dst]} else s.dbs;
    s.(at := s.at[m.dst := id], dbs := rest[id := Copied(m)], ids := s.ids + {id},
       msgs := s.msgs - {m} + {RsyncAck(m.dst, id, m.source, m.copy.table.last)})
  }

  // ------------------------------------------------------------------
  // The sending side: Replicator
  // ------------------------------------------------------------------

  datatype Mode = NoChange | HashMatch | RemoteMerge | Usync

  /** `_in_sync` and `_choose_replication_mode`. */
  function ChooseMode(cfg: Config, info: Info, rinfo: Info, point: int): Mode {
    if point >= info.maxRow then NoChange
    else if rinfo.hash == info.hash then HashMatch
    else if 2 * rinfo.maxRow < info.maxRow && info.maxRow - rinfo.maxRow > cfg.perDiff then RemoteMerge
    else Usync
  }

  function Start(cfg: Config, s: System, k: nat, n: Node): System
    requires n in s.at && s.at[n] in s.dbs
  {
    SetPass(s, k, Pass(n, InfoOf(cfg, s.at[n], s.dbs[s.at[n]].table), ReplNodes(cfg.primaries, n), [], Idle))
  }

  function Contact(s: System, k: nat): System
    requires Talking(s, k)
  {
    var p := s.passes[k];
    Send(SetPass(s, k, p.(phase := AwaitSync)), SyncReq(Peer(p), p.info))
  }

  /** `_handle_sync_response` for a 2xx answer. */
  function OnSyncResp(cfg: Config, s: System, k: nat, m: Msg): System
    requires Talking(s, k) && Live(s, s.passes[k]) && m.SyncResp?
  {
    var p := s.passes[k];
    var db := s.dbs[p.info.id];
    var point := Max(m.point, GetSync(db.outgoing, m.rinfo.id));
    match ChooseMode(cfg, p.info, m.rinfo, point)
    case NoChange => Respond(s, k, Some(m.rinfo.id))
    case HashMatch =>
      Respond(SetDb(s, p.info.id, db.(outgoing := MergeSync(db.outgoing, m.rinfo.id, m.point))), k, Some(m.rinfo.id))
    case RemoteMerge => Respond(s, k, None)
    case Usync => SetPass(s, k, p.(phase := Chosen(m.rinfo.id, point)))
  }

  /** `_handle_sync_response` for a 404: copy the file over. */
  function OnMissing(s: System, k: nat): System
    requires Talking(s, k) && Live(s, s.passes[k])
  {
    var p := s.passes[k];
    var db := s.dbs[p.info.id];
    Send(SetPass(s, k, p.(phase := AwaitRsync(db.table.last))), RsyncReq(Peer(p), p.info.id, db))
  }

  /** `_usync_db` takes its copy of the sync table before it reads any rows. */
  function Capture(s: System, k: nat): System
    requires Talking(s, k) && Live(s, s.passes[k]) && s.passes[k].phase.Chosen?
  {
    var p := s.passes[k];
    SetPass(s, k, p.(phase := Ready(p.phase.rid, p.phase.point, s.dbs[p.info.id].incoming, 0)))
  }

  /** One turn of the `_usync_db` loop, or its end. */
  function Query(cfg: Config, s: System, k: nat): System
    requires Talking(s, k) && Live(s, s.passes[k]) && s.passes[k].phase.Ready?
  {
    var p := s.passes[k];
    var Ready(rid, point, points, diffs) := p.phase;
    var items := ItemsSince(s.dbs[p.info.id].table, point, cfg.perDiff);
    if items == [] then
      Send(SetPass(s, k, p.(phase := AwaitSyncs(rid, point))), MergeSyncsReq(Peer(p), rid, points))
    else if diffs < cfg.maxDiffs then
      Send(SetPass(s, k, p.(phase := AwaitItems(rid, items[|items| - 1].rowid, points, diffs + 1))),
           MergeItemsReq(Peer(p), rid, p.info.id, point, items))
    else
      Respond(s, k, None)
  }

  function OnItemsAck(s: System, k: nat): System
    requires Talking(s, k) && s.passes[k].phase.AwaitItems?
  {
    var p := s.passes[k];
    SetPass(s, k, p.(phase := Ready(p.phase.rid, p.phase.hi, p.phase.points, p.phase.diffs)))
  }

  function OnSyncsAck(s: System, k: nat): System
    requires Talking(s, k) && Live(s, s.passes[k]) && s.passes[k].phase.AwaitSyncs?
  {
    var p := s.passes[k];
    var db := s.dbs[p.info.id];
    Respond(SetDb(s, p.info.id, db.(outgoing := MergeSync(db.outgoing, p.phase.rid, p.phase.point))), k,
        Some(p.phase.rid))
  }

  /** A 507 answer: the peer counts as failed and the next handoff, if any, is tried too. */
  function NotMounted(s: System, k: nat, more: Option<Node>): System
    requires Talking(s, k)
  {
    var p := s.passes[k];
    var p' := p.(targets := if more.Some? then p.targets + [more.value] else p.targets,
                 responses := p.responses + [None], phase := Idle);
    SetPass(s, k, p')
  }

  predicate AllSucceeded(rs: seq<Option<DbId>>) {
    forall i :: 0 <= i < |rs| ==> rs[i].Some?
  }

  function Successes(rs: seq<Option<DbId>>): nat {
    if rs == [] then 0 else Successes(rs[..|rs| - 1]) + if rs[|rs| - 1].Some? then 1 else 0
  }

  /** Enough peers succeeded: `handoff_delete` of them, or all when that is not set. */
  predicate Approves(handoffDelete: nat, responses: seq<Option<DbId>>) {
    if handoffDelete > 0 then Successes(responses) >= handoffDelete else responses != [] && AllSucceeded(responses)
  }

  predicate Finished(s: System, k: nat) {
    k in s.passes && |s.passes[k].responses| == |s.passes[k].targets|
  }

  /** `cleanup_post_replicate`: the database goes if it has no new rows and enough peers succeeded. */
  predicate Removes(cfg: Config, s: System, p: Pass) {
    && Live(s, p)
    && p.src !in cfg.primaries
    && MaxRow(s.dbs[p.info.id].table) == p.info.maxRow
    && Approves(cfg.handoffDelete, p.responses)
  }

  function Remove(s: System, n: Node): System
    requires n in s.at
  {
    s.(at := s.at - {n}, dbs := s.dbs - {s.at[n]})
  }

  function Forget(s: System, k: nat): System {
    s.(passes := s.passes - {k})
  }

  /** `cleanup_post_replicate` up to its decision. */
  function Decide(s: System, k: nat): System
    requires k in s.passes
  {
    SetPass(s, k, s.passes[k].(phase := Deleting))
  }

  /** `delete_db`: whatever is there by now is removed. */
  function Delete(s: System, k: nat): System
    requires k in s.passes
  {
    var p := s.passes[k];
    Forget(if p.src in s.at then Remove(s, p.src) else s, k)
  }

  // ------------------------------------------------------------------
  // Steps and runs
  // ------------------------------------------------------------------

  datatype Step =
    | DoCreate(n: Node, id: DbId)
    | DoLocalMerge(n: Node, recs: seq<Record>)
    | DoHandleSync(m: Msg)
    | DoHandleItems(m: Msg)
    | DoHandleSyncs(m: Msg)
    | DoTestRsync(m: Msg)
    | DoRename(m: Msg, id: DbId)
    | DoDrop(m: Msg)
    | DoStart(k: nat, n: Node)
    | DoContact(k: nat)
    | DoOnSyncResp(k: nat, m: Msg)
    | DoOnMissing(k: nat)
    | DoOnRsyncAck(k: nat, m: Msg)
    | DoCapture(k: nat)
    | DoQuery(k: nat)
    | DoOnItemsAck(k: nat, m: Msg)
    | DoOnSyncsAck(k: nat, m: Msg)
    | DoFail(k: nat)
    | DoNotMounted(k: nat, more: Option<Node>)
    | DoDecide(k: nat)
    | DoDelete(k: nat)
    | DoFinish(k: nat)
    | DoCrash(k: nat)

  ghost predicate Next(cfg: Config, s: System, step: Step, s': System) {
    match step
    case DoCreate(n, id) => n !in s.at && id !in s.ids && s' == Create(s, n, id)
    case DoLocalMerge(n, recs) => n in s.at && s.at[n] in s.dbs && s' == LocalMerge(s, n, recs)
    case DoHandleSync(m) => m in s.msgs && m.SyncReq? && s' == HandleSync(cfg, s, m)
    case DoHandleItems(m) =>
      && m in s.msgs && m.MergeItemsReq? && m.dst in s.at && s.at[m.dst] in s.dbs
      && s' == HandleItems(s, m)
    case DoHandleSyncs(m) =>
      && m in s.msgs && m.MergeSyncsReq? && m.dst in s.at && s.at[m.dst] in s.dbs
      && s' == HandleSyncs(s, m)
    case DoTestRsync(m) => m in s.msgs && m.RsyncReq? && m.dst !in s.at && s' == TestRsync(s, m)
    case DoRename(m, id) => m in s.msgs && m.RsyncTested? && id !in s.ids && s' == Rename(s, m, id)
    case DoDrop(m) => s' == s.(msgs := s.msgs - {m})
    case DoStart(k, n) =>
      k !in s.passes && n in s.at && s.at[n] in s.dbs && s' == Start(cfg, s, k, n)
    case DoContact(k) => Talking(s, k) && s.passes[k].phase.Idle? && s' == Contact(s, k)
    case DoOnSyncResp(k, m) =>
      && Talking(s, k) && Live(s, s.passes[k]) && s.passes[k].phase.AwaitSync?
      && m in s.msgs && m.SyncResp? && m.dst == Peer(s.passes[k]) && m.src == s.passes[k].info.id
      && s' == OnSyncResp(cfg, s, k, m)
    case DoOnMissing(k) =>
      && Talking(s, k) && Live(s, s.passes[k]) && s.passes[k].phase.AwaitSync?
      && SyncMissing(Peer(s.passes[k])) in s.msgs
      && s' == OnMissing(s, k)
    case DoOnRsyncAck(k, m) =>
      && Talking(s, k) && s.passes[k].phase.AwaitRsync?
      && m in s.msgs && m.RsyncAck? && m.dst == Peer(s.passes[k]) && m.source == s.passes[k].info.id
      && m.upto == s.passes[k].phase.upto && s' == Respond(s, k, Some(m.rid))
    case DoCapture(k) =>
      Talking(s, k) && Live(s, s.passes[k]) && s.passes[k].phase.Chosen? && s' == Capture(s, k)
    case DoQuery(k) =>
      Talking(s, k) && Live(s, s.passes[k]) && s.passes[k].phase.Ready? && s' == Query(cfg, s, k)
    case DoOnItemsAck(k, m) =>
      && Talking(s, k) && s.passes[k].phase.AwaitItems?
      && m == MergeItemsAck(Peer(s.passes[k]), s.passes[k].phase.rid, s.passes[k].info.id, s.passes[k].phase.hi)
      && m in s.msgs && s' == OnItemsAck(s, k)
    case DoOnSyncsAck(k, m) =>
      && Talking(s, k) && Live(s, s.passes[k]) && s.passes[k].phase.AwaitSyncs?
      && m == MergeSyncsAck(Peer(s.passes[k]), s.passes[k].phase.rid)
      && m in s.msgs && s' == OnSyncsAck(s, k)
    case DoFail(k) => Talking(s, k) && s' == Respond(s, k, None)
    case DoNotMounted(k, more) => Talking(s, k) && s.passes[k].phase.AwaitSync? && s' == NotMounted(s, k, more)
    case DoDecide(k) =>
      Finished(s, k) && s.passes[k].phase.Idle? && Removes(cfg, s, s.passes[k]) && s' == Decide(s, k)
    case DoDelete(k) => Finished(s, k) && s.passes[k].phase.Deleting? && s' == Delete(s, k)
    case DoFinish(k) =>
      Finished(s, k) && s.passes[k].phase.Idle? && !Removes(cfg, s, s.passes[k]) && s' == Forget(s, k)
    case DoCrash(k) => s' == Forget(s, k)
  }

  /** Every table that occurs is one of those the hash tells apart. */
  ghost predicate WithinTables(cfg: Config, s: System) {
    forall id :: id in s.dbs ==> s.dbs[id].table in cfg.tables
  }

  /** A finite run from the empty system. */
  ghost predicate IsRun(cfg: Config, states: seq<System>, steps: seq<Step>) {
    && |states| == |steps| + 1
    && states[0] == INITIAL
    && (forall i :: 0 <= i < |states| ==> WithinTables(cfg, states[i]))
    && (forall i :: 0 <= i < |steps| ==> Next(cfg, states[i], steps[i], states[i + 1]))
  }

  // ------------------------------------------------------------------
  // What a run must be spared
  // ------------------------------------------------------------------

  predicate Deliverable(s: System, m: Msg) {
    m.dst in s.at && s.at[m.dst] in s.dbs
  }

  /** The database the batch reaches, with the batch merged, covers its source up to where it began. */
  ghost predicate BatchFits(s: System, m: Msg)
    requires m.MergeItemsReq? && Deliverable(s, m)
  {
    var s', id := HandleItems(s, m), s.at[m.dst];
    m.source in s'.dbs ==> CoversUpTo(s'.dbs[id].table.rows, s'.dbs[m.source].table.rows, m.lo)
  }

  /** The database the sync table reaches covers what its points claim. */
  ghost predicate SyncsFit(s: System, m: Msg)
    requires m.MergeSyncsReq? && Deliverable(s, m)
  {
    forall t :: t in m.points && t in s.dbs ==>
      CoversUpTo(s.dbs[s.at[m.dst]].table.rows, s.dbs[t].table.rows, m.points[t])
  }

  /** A request that reaches another database than the one it was meant for is true of that one too. */
  ghost predicate Fits(s: System, step: Step) {
    && (step.DoHandleItems? && step.m.MergeItemsReq? && Deliverable(s, step.m) ==>
          s.at[step.m.dst] == step.m.rid || BatchFits(s, step.m))
    && (step.DoHandleSyncs? && step.m.MergeSyncsReq? && Deliverable(s, step.m) ==>
          s.at[step.m.dst] == step.m.rid || SyncsFit(s, step.m))
  }

  /** No copied file is renamed over the database of one of these nodes. */
  predicate Spares(nodes: set<Node>, s: System, step: Step) {
    step.DoRename? && step.m.dst in nodes ==> step.m.dst !in s.at
  }

  /** The step takes no database away. */
  predicate LeavesAll(s: System, step: Step) {
    !step.DoDelete? && (step.DoRename? ==> step.m.dst !in s.at)
  }

  ghost predicate FitsUpTo(states: seq<System>, steps: seq<Step>, i: nat) {
    forall j :: 0 <= j < i && j < |steps| && j < |states| ==> Fits(states[j], steps[j])
  }

  ghost predicate SparesUpTo(nodes: set<Node>, states: seq<System>, steps: seq<Step>, i: nat) {
    forall j :: 0 <= j < i && j < |steps| && j < |states| ==> Spares(nodes, states[j], steps[j])
  }

  predicate LeavesAllUpTo(states: seq<System>, steps: seq<Step>, i: nat) {
    forall j :: 0 <= j < i && j < |steps| && j < |states| ==> LeavesAll(states[j], steps[j])
  }

  function Primaries(cfg: Config): set<Node> {
    set n | n in cfg.primaries
  }
}
