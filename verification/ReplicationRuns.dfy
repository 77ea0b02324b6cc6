/**
 Replication over whole runs: sync points claim no more than a peer holds, in exactly the runs
 in which a request that reaches another database than its own is true of that one; and what the
 peers hold when a handoff is deleted.
 */
module ReplicationRuns {
  import opened Wrappers
  import opened Rows
  import opened SyncTables
  import opened NodeOrder
  import opened Replication
  import opened ReplicationInv
  import opened ReplicationSteps
  import opened ReplicationPasses

  predicate MovesDatabases(step: Step) {
    step.DoCreate? || step.DoRename? || step.DoDelete?
  }

  predicate IsRequest(step: Step) {
    || step.DoLocalMerge? || step.DoHandleSync? || step.DoHandleItems? || step.DoHandleSyncs? || step.DoTestRsync?
    || step.DoDrop?
  }

  predicate IsAnswer(step: Step) {
    step.DoOnSyncResp? || step.DoOnMissing? || step.DoOnRsyncAck? || step.DoOnItemsAck? || step.DoOnSyncsAck?
  }

  lemma RequestKeepsInv(cfg: Config, kept: set<Node>, s: System, step: Step, s': System)
    requires ValidConfig(cfg) && Inv(cfg, kept, s) && WithinTables(cfg, s) && Next(cfg, s, step, s')
    requires IsRequest(step) && Fits(s, step)
    ensures Inv(cfg, kept, s') && InPlace(s, s')
  {
    hide Inv, InPlace, BatchFits, SyncsFit;
    match step
    case DoLocalMerge(n, recs) => LocalMergeKeepsInv(cfg, kept, s, n, recs);
    case DoHandleSync(m) => HandleSyncKeepsInv(cfg, kept, s, m);
    case DoHandleItems(m) =>
      if s.at[m.dst] == m.rid { OwnRequestFits(cfg, kept, s, m); }
      HandleItemsKeepsInv(cfg, kept, s, m);
    case DoHandleSyncs(m) =>
      if s.at[m.dst] == m.rid { OwnRequestFits(cfg, kept, s, m); }
      HandleSyncsKeepsInv(cfg, kept, s, m);
    case DoTestRsync(m) => TestRsyncKeepsInv(cfg, kept, s, m);
    case DoDrop(m) => DropKeepsInv(cfg, kept, s, m);
  }

  lemma AnswerKeepsInv(cfg: Config, kept: set<Node>, s: System, step: Step, s': System)
    requires ValidConfig(cfg) && Inv(cfg, kept, s) && Next(cfg, s, step, s') && IsAnswer(step)
    ensures Inv(cfg, kept, s') && InPlace(s, s')
  {
    hide Inv, InPlace;
    match step
    case DoOnSyncResp(k, m) => OnSyncRespKeepsInv(cfg, kept, s, k, m);
    case DoOnMissing(k) => OnMissingKeepsInv(cfg, kept, s, k);
    case DoOnRsyncAck(k, m) => OnRsyncAckKeepsInv(cfg, kept, s, k, m);
    case DoOnItemsAck(k, m) => OnItemsAckKeepsInv(cfg, kept, s, k, m);
    case DoOnSyncsAck(k, m) => OnSyncsAckKeepsInv(cfg, kept, s, k);
  }

  lemma PassKeepsInv(cfg: Config, kept: set<Node>, s: System, step: Step, s': System)
    requires ValidConfig(cfg) && Inv(cfg, kept, s) && WithinTables(cfg, s) && Next(cfg, s, step, s')
    requires !MovesDatabases(step) && !IsRequest(step) && !IsAnswer(step)
    ensures Inv(cfg, kept, s') && InPlace(s, s')
  {
    hide Inv, InPlace;
    match step
    case DoStart(k, n) => StartKeepsInv(cfg, kept, s, k, n);
    case DoContact(k) => ContactKeepsInv(cfg, kept, s, k);
    case DoCapture(k) => CaptureKeepsInv(cfg, kept, s, k);
    case DoQuery(k) => QueryKeepsInv(cfg, kept, s, k);
    case DoFail(k) => RespondKeepsInv(cfg, kept, s, k, None);
    case DoNotMounted(k, more) => NotMountedKeepsInv(cfg, kept, s, k, more);
    case DoDecide(k) => DecideKeepsInv(cfg, kept, s, k);
    case DoFinish(k) => ForgetKeepsInv(cfg, kept, s, k);
    case DoCrash(k) => ForgetKeepsInv(cfg, kept, s, k);
  }

  lemma InPlaceKeepsInv(cfg: Config, kept: set<Node>, s: System, step: Step, s': System)
    requires ValidConfig(cfg) && Inv(cfg, kept, s) && WithinTables(cfg, s) && Next(cfg, s, step, s')
    requires !MovesDatabases(step) && Fits(s, step)
    ensures Inv(cfg, kept, s') && InPlace(s, s')
  {
    if IsRequest(step) {
      RequestKeepsInv(cfg, kept, s, step, s');
    } else if IsAnswer(step) {
      AnswerKeepsInv(cfg, kept, s, step, s');
    } else {
      PassKeepsInv(cfg, kept, s, step, s');
    }
  }

  /** Every step that fits keeps the invariant. */
  lemma StepKeepsInv(cfg: Config, kept: set<Node>, s: System, step: Step, s': System)
    requires ValidConfig(cfg) && Inv(cfg, kept, s) && WithinTables(cfg, s) && Next(cfg, s, step, s')
    requires kept <= Primaries(cfg) && Fits(s, step) && Spares(kept, s, step)
    ensures Inv(cfg, kept, s')
  {
    hide Inv, Evolves, Fits, Primaries, InPlace;
    if step.DoCreate? {
      CreateKeepsInv(cfg, kept, s, step.n, step.id);
    } else if step.DoRename? {
      RenameKeepsInv(cfg, kept, s, step.m, step.id);
    } else if step.DoDelete? {
      DeleteKeepsInv(cfg, kept, s, step.k);
    } else {
      InPlaceKeepsInv(cfg, kept, s, step, s');
    }
  }

  lemma {:induction false} RunKeepsInv(cfg: Config, kept: set<Node>, states: seq<System>, steps: seq<Step>, i: nat)
    requires ValidConfig(cfg) && IsRun(cfg, states, steps) && i < |states| && kept <= Primaries(cfg)
    requires FitsUpTo(states, steps, i) && SparesUpTo(kept, states, steps, i)
    ensures Inv(cfg, kept, states[i])
  {
    if i > 0 {
      RunKeepsInv(cfg, kept, states, steps, i - 1);
      StepKeepsInv(cfg, kept, states[i - 1], steps[i - 1], states[i]);
    }
  }

  // ------------------------------------------------------------------
  // Sync points
  // ------------------------------------------------------------------

  /** Every sync point between databases that exist is one the receiving database has really reached. */
  ghost predicate PointsSound(s: System) {
    forall r, t :: r in s.dbs && t in s.dbs ==>
      && (t in s.dbs[r].incoming ==> CoversUpTo(s.dbs[r].table.rows, s.dbs[t].table.rows, s.dbs[r].incoming[t]))
      && (r in s.dbs[t].outgoing ==> CoversUpTo(s.dbs[r].table.rows, s.dbs[t].table.rows, s.dbs[t].outgoing[r]))
  }

  lemma InvIsSound(cfg: Config, kept: set<Node>, s: System)
    requires Inv(cfg, kept, s)
    ensures PointsSound(s)
  {
    forall r, t | r in s.dbs && t in s.dbs
      ensures t in s.dbs[r].incoming ==> CoversUpTo(s.dbs[r].table.rows, s.dbs[t].table.rows, s.dbs[r].incoming[t])
      ensures r in s.dbs[t].outgoing ==> CoversUpTo(s.dbs[r].table.rows, s.dbs[t].table.rows, s.dbs[t].outgoing[r])
    {
      assert DbOk(s, r) && DbOk(s, t);
      if t in s.dbs[r].incoming { assert Claim(s, r, t, s.dbs[r].incoming[t]); }
      if r in s.dbs[t].outgoing { assert Claim(s, r, t, s.dbs[t].outgoing[r]); }
    }
  }

  /**
   In every state of every run all sync points are sound, if each request that reaches another database
   than the one it was meant for fits that one.
   */
  lemma SyncPointsAreSound(cfg: Config, states: seq<System>, steps: seq<Step>, i: nat)
    requires ValidConfig(cfg) && IsRun(cfg, states, steps) && i < |states| && FitsUpTo(states, steps, i)
    ensures PointsSound(states[i])
  {
    hide PointsSound;
    RunKeepsInv(cfg, {}, states, steps, i);
    InvIsSound(cfg, {}, states[i]);
  }

  lemma CoversLess(a: RowMap, b: RowMap, p: int, q: int)
    requires CoversUpTo(a, b, p) && q <= p
    ensures CoversUpTo(a, b, q)
  {
  }

  /** A delivery that does not fit leaves an unsound point behind. */
  lemma SoundMeansFits(cfg: Config, s: System, step: Step, s': System)
    requires Inv(cfg, {}, s) && Next(cfg, s, step, s') && PointsSound(s')
    ensures Fits(s, step)
  {
    hide Inv;
    if step.DoHandleItems? {
      SoundMeansBatchFits(cfg, s, step.m);
    } else if step.DoHandleSyncs? {
      SoundMeansSyncsFit(s, step.m);
    }
  }

  lemma SoundMeansBatchFits(cfg: Config, s: System, m: Msg)
    requires Inv(cfg, {}, s) && m in s.msgs && m.MergeItemsReq? && Deliverable(s, m) && PointsSound(HandleItems(s, m))
    ensures BatchFits(s, m)
  {
    hide DbOk, PassOk, MergeItems;
    assert MsgOk(cfg, {}, s, m);
    var s', id := HandleItems(s, m), s.at[m.dst];
    if m.source in s'.dbs {
      CoversLess(s'.dbs[id].table.rows, s'.dbs[m.source].table.rows, s'.dbs[id].incoming[m.source], m.lo);
    }
  }

  lemma SoundMeansSyncsFit(s: System, m: Msg)
    requires m.MergeSyncsReq? && Deliverable(s, m) && PointsSound(HandleSyncs(s, m))
    ensures SyncsFit(s, m)
  {
    var s', id := HandleSyncs(s, m), s.at[m.dst];
    forall t | t in m.points && t in s.dbs
      ensures CoversUpTo(s.dbs[id].table.rows, s.dbs[t].table.rows, m.points[t])
    {
      assert t in s'.dbs[id].incoming && t in s'.dbs && s'.dbs[t].table == s.dbs[t].table;
      CoversLess(s.dbs[id].table.rows, s.dbs[t].table.rows, s'.dbs[id].incoming[t], m.points[t]);
    }
  }

  /** Exactly when: all sync points are sound in all states up to i if and only if every such delivery fits. */
  lemma {:induction false} SyncPointsSoundIff(cfg: Config, states: seq<System>, steps: seq<Step>, i: nat)
    requires ValidConfig(cfg) && IsRun(cfg, states, steps) && i < |states|
    ensures (forall j :: 0 <= j <= i ==> PointsSound(states[j])) <==> FitsUpTo(states, steps, i)
  {
    hide PointsSound, Fits, Next, WithinTables, ValidConfig;
    if FitsUpTo(states, steps, i) {
      forall j: nat | j <= i ensures PointsSound(states[j]) {
        SyncPointsAreSound(cfg, states, steps, j);
      }
    }
    if i > 0 && forall j :: 0 <= j <= i ==> PointsSound(states[j]) {
      SyncPointsSoundIff(cfg, states, steps, i - 1);
      RunKeepsInv(cfg, {}, states, steps, i - 1);
      SoundMeansFits(cfg, states[i - 1], steps[i - 1], states[i]);
    }
  }

  /**
   A third party's sync point that travels in a merge_syncs request is sound for the database it was
   sent to, for as long as that exists.
   */
  lemma AdoptedSyncPointsAreSound(cfg: Config, states: seq<System>, steps: seq<Step>, i: nat, m: Msg, t: DbId)
    requires ValidConfig(cfg) && IsRun(cfg, states, steps) && i < |states| && FitsUpTo(states, steps, i)
    requires m in states[i].msgs && m.MergeSyncsReq? && m.rid in states[i].dbs
    requires t in m.points && t in states[i].dbs
    ensures var s := states[i];
            && m.dst in s.at && s.at[m.dst] == m.rid
            && CoversUpTo(s.dbs[m.rid].table.rows, s.dbs[t].table.rows, m.points[t])
  {
    RunKeepsInv(cfg, {}, states, steps, i);
    assert MsgOk(cfg, {}, states[i], m);
    assert Claim(states[i], m.rid, t, m.points[t]);
  }

  // ------------------------------------------------------------------
  // Deletions
  // ------------------------------------------------------------------

  /** The primary at n was one of the peers of the pass that succeeded. */
  ghost predicate Succeeded(p: Pass, n: Node) {
    exists i :: 0 <= i < |p.responses| && i < |p.targets| && p.targets[i] == n && p.responses[i].Some?
  }

  /**
   The deletion of a handoff finds every primary that succeeded, without `handoff_delete` every primary,
   covering all the rows its pass set out with, and all rows if none came since; unless a copied file was
   renamed over that primary's database.
   */
  lemma HandoffRemovalIsSafe(cfg: Config, states: seq<System>, steps: seq<Step>, i: nat, n: Node, h: Node)
    requires ValidConfig(cfg) && IsRun(cfg, states, steps) && i < |steps|
    requires FitsUpTo(states, steps, i) && SparesUpTo({n}, states, steps, i)
    requires h in states[i].at && h !in states[i + 1].at && n in cfg.primaries
    requires cfg.handoffDelete == 0 ||
             (steps[i].DoDelete? && steps[i].k in states[i].passes && Succeeded(states[i].passes[steps[i].k], n))
    ensures steps[i].DoDelete? && steps[i].k in states[i].passes && states[i].passes[steps[i].k].src == h
    ensures var s, p := states[i], states[i].passes[steps[i].k];
            Live(s, p) ==>
              && n in s.at && n != h && s.at[n] in s.dbs
              && var t := s.dbs[p.info.id].table;
                 && CoversUpTo(s.dbs[s.at[n]].table.rows, t.rows, p.info.maxRow)
                 && (MaxRow(t) == p.info.maxRow ==> CoversAll(s.dbs[s.at[n]].table.rows, t.rows))
  {
    hide Inv;
    RunKeepsInv(cfg, {n}, states, steps, i);
    RemovalStep(cfg, states[i], steps[i], states[i + 1], h);
    PrimaryCovers(cfg, {n}, states[i], steps[i].k, n);
  }

  lemma PrimaryCovers(cfg: Config, kept: set<Node>, s: System, k: nat, n: Node)
    requires Inv(cfg, kept, s) && n in kept && n in cfg.primaries
    requires Finished(s, k) && s.passes[k].phase.Deleting?
    requires cfg.handoffDelete == 0 || Succeeded(s.passes[k], n)
    ensures n in s.at && n != s.passes[k].src && s.at[n] in s.dbs && AnsweredBy(s.passes[k], s.at[n])
    ensures var p := s.passes[k];
            Live(s, p) ==>
              && s.at[n] != p.info.id
              && var t := s.dbs[p.info.id].table;
                 && CoversUpTo(s.dbs[s.at[n]].table.rows, t.rows, p.info.maxRow)
                 && (MaxRow(t) == p.info.maxRow ==> CoversAll(s.dbs[s.at[n]].table.rows, t.rows))
  {
    hide DbOk, MsgOk, AnswerOk, PhaseOk;
    var p := s.passes[k];
    assert PassOk(cfg, kept, s, p);
    var j: nat;
    if cfg.handoffDelete == 0 {
      j := DefaultAsksAll(cfg, kept, s, k, n);
    } else {
      j :| 0 <= j < |p.responses| && p.targets[j] == n && p.responses[j].Some?;
    }
    KeptAnswers(cfg, kept, s, k, j);
    assert AnsweredBy(p, s.at[n]);
    if Live(s, p) { AnswerIsCovered(cfg, kept, s, k, s.at[n]); }
  }

  lemma RemovalStep(cfg: Config, s: System, step: Step, s': System, h: Node)
    requires Next(cfg, s, step, s') && h in s.at && h !in s'.at
    ensures step.DoDelete? && Finished(s, step.k) && s.passes[step.k].phase.Deleting? && s.passes[step.k].src == h
    ensures s' == Delete(s, step.k)
  {
    if !step.DoDelete? { OnlyDeleteRemoves(cfg, s, step, s'); }
  }

  lemma OnlyDeleteRemoves(cfg: Config, s: System, step: Step, s': System)
    requires Next(cfg, s, step, s') && !step.DoDelete?
    ensures s.at.Keys <= s'.at.Keys
  {
  }
}
