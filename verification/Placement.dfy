/**
 What every run keeps, whatever is delivered where: each node has its own database, every table is
 valid, and no step but a deletion or a rename takes a database away. Where none does, every request
 reaches the database it was meant for, and so all sync points are sound.
 */
module Placement {
  import opened Rows
  import opened SyncTables
  import opened NodeOrder
  import opened Replication
  import opened ReplicationInv
  import opened ReplicationRuns

  ghost predicate Carried(s: System) {
    forall m :: m in s.msgs && (m.RsyncReq? || m.RsyncTested?) ==> Valid(m.copy.table)
  }

  ghost predicate Sane(s: System) {
    && PlacesOk(s) && s.dbs.Keys <= s.ids && Carried(s)
    && forall id :: id in s.dbs ==> Valid(s.dbs[id].table)
  }

  /** Every database stays where it is and only grows. */
  ghost predicate Stays(s: System, s': System) {
    forall n :: n in s.at && s.at[n] in s.dbs ==>
      && n in s'.at && s'.at[n] == s.at[n] && s.at[n] in s'.dbs
      && Grows(s.dbs[s.at[n]].table, s'.dbs[s.at[n]].table)
  }

  /** Every table is as before, where it was before, and no rows were sent. */
  ghost predicate Harmless(s: System, s': System) {
    && s'.written == s.written && s'.at == s.at && s'.ids == s.ids && s'.dbs.Keys == s.dbs.Keys
    && (forall id :: id in s.dbs ==> s'.dbs[id].table == s.dbs[id].table)
    && (forall m :: m in s'.msgs && m !in s.msgs ==> !m.MergeItemsReq? && !m.RsyncReq? && !m.RsyncTested?)
  }

  predicate MovesRows(step: Step) {
    || step.DoCreate? || step.DoLocalMerge? || step.DoHandleItems? || step.DoTestRsync? || step.DoRename?
    || step.DoOnMissing? || step.DoQuery? || step.DoDelete?
  }

  lemma RequestIsHarmless(cfg: Config, s: System, step: Step, s': System)
    requires Next(cfg, s, step, s') && IsRequest(step) && !MovesRows(step)
    ensures Harmless(s, s')
  {
  }

  lemma AnswerIsHarmless(cfg: Config, s: System, step: Step, s': System)
    requires Next(cfg, s, step, s') && IsAnswer(step) && !MovesRows(step)
    ensures Harmless(s, s')
  {
  }

  lemma PassIsHarmless(cfg: Config, s: System, step: Step, s': System)
    requires Next(cfg, s, step, s') && !IsRequest(step) && !IsAnswer(step) && !MovesRows(step)
    ensures Harmless(s, s')
  {
  }

  /** Only a few kinds of step put rows anywhere or take them away. */
  lemma MostStepsAreHarmless(cfg: Config, s: System, step: Step, s': System)
    requires Next(cfg, s, step, s') && !MovesRows(step)
    ensures Harmless(s, s')
  {
    hide Next, Harmless;
    if IsRequest(step) {
      RequestIsHarmless(cfg, s, step, s');
    } else if IsAnswer(step) {
      AnswerIsHarmless(cfg, s, step, s');
    } else {
      PassIsHarmless(cfg, s, step, s');
    }
  }

  lemma HarmlessIsSane(s: System, s': System)
    requires Sane(s) && Harmless(s, s')
    ensures Sane(s') && Stays(s, s')
  {
    hide Valid;
  }

  /** Rows were merged into one database, and no copied file was sent. */
  lemma MergeIsSane(s: System, s': System, id: DbId, recs: seq<Record>)
    requires Sane(s) && id in s.dbs && s'.at == s.at && s'.ids == s.ids
    requires exists db :: s'.dbs == s.dbs[id := db] && db.table == MergeItems(s.dbs[id].table, recs)
    requires forall m :: m in s'.msgs && m !in s.msgs ==> !m.RsyncReq? && !m.RsyncTested?
    ensures Sane(s') && Stays(s, s')
  {
    hide MergeItems, Valid;
    MergeItemsGrows(s.dbs[id].table, recs);
    assert Grows(s.dbs[id].table, s'.dbs[id].table);
  }

  /** Only copies of tables that exist were sent. */
  lemma CopyIsSane(s: System, s': System)
    requires Sane(s) && s'.at == s.at && s'.dbs == s.dbs && s'.ids == s.ids && Carried(s')
    ensures Sane(s') && Stays(s, s')
  {
    hide Valid, Carried;
  }

  lemma SendingCarries(cfg: Config, s: System, step: Step, s': System)
    requires Sane(s) && Next(cfg, s, step, s') && (step.DoTestRsync? || step.DoOnMissing? || step.DoQuery?)
    ensures s'.at == s.at && s'.dbs == s.dbs && s'.ids == s.ids && Carried(s')
  {
    hide Valid, ItemsSince, PlacesOk;
  }

  lemma CreateIsSane(s: System, n: Node, id: DbId)
    requires Sane(s) && n !in s.at && id !in s.ids
    ensures Sane(Create(s, n, id)) && Stays(s, Create(s, n, id))
  {
    hide Carried, Valid, Grows;
    SameMsgs(s, Create(s, n, id));
    NewIsValid();
    forall m | m in s.at && s.at[m] in s.dbs ensures Grows(s.dbs[s.at[m]].table, s.dbs[s.at[m]].table) {
      GrowsReflexive(s.dbs[s.at[m]].table);
    }
  }

  lemma NewIsValid()
    ensures Valid(EMPTY)
  {
  }

  lemma SameMsgs(s: System, s': System)
    requires Carried(s) && s'.msgs <= s.msgs
    ensures Carried(s')
  {
    hide Valid;
  }

  lemma RenameIsSane(s: System, m: Msg, id: DbId)
    requires Sane(s) && m in s.msgs && m.RsyncTested? && id !in s.ids
    ensures Sane(Rename(s, m, id))
  {
    hide Valid, LastRow;
  }

  lemma DeleteIsSane(s: System, k: nat)
    requires Sane(s) && k in s.passes
    ensures Sane(Delete(s, k))
  {
    hide Valid;
  }

  lemma StepKeepsSane(cfg: Config, s: System, step: Step, s': System)
    requires Sane(s) && Next(cfg, s, step, s')
    ensures Sane(s') && (!step.DoDelete? && !step.DoRename? ==> Stays(s, s'))
  {
    hide Sane, Stays, Harmless, MergeItems;
    if !MovesRows(step) {
      MostStepsAreHarmless(cfg, s, step, s');
      HarmlessIsSane(s, s');
    } else if step.DoLocalMerge? {
      MergeIsSane(s, s', s.at[step.n], step.recs);
    } else if step.DoHandleItems? {
      MergeIsSane(s, s', s.at[step.m.dst], Records(step.m.items));
    } else if step.DoCreate? {
      CreateIsSane(s, step.n, step.id);
    } else if step.DoRename? {
      RenameIsSane(s, step.m, step.id);
    } else if step.DoDelete? {
      DeleteIsSane(s, step.k);
    } else {
      SendingCarries(cfg, s, step, s');
      CopyIsSane(s, s');
    }
  }

  lemma {:induction false} RunIsSane(cfg: Config, states: seq<System>, steps: seq<Step>, i: nat)
    requires IsRun(cfg, states, steps) && i < |states|
    ensures Sane(states[i])
  {
    hide Next, WithinTables;
    if i == 0 {
    } else {
      RunIsSane(cfg, states, steps, i - 1);
      StepKeepsSane(cfg, states[i - 1], steps[i - 1], states[i]);
    }
  }

  // ------------------------------------------------------------------
  // Runs that take no database away
  // ------------------------------------------------------------------

  ghost predicate AllExist(s: System) {
    s.ids <= s.dbs.Keys
  }

  lemma StepKeepsAll(cfg: Config, s: System, step: Step, s': System)
    requires AllExist(s) && Next(cfg, s, step, s') && LeavesAll(s, step)
    ensures AllExist(s')
  {
    hide MergeItems, ItemsSince, LastRow;
    if !MovesRows(step) { MostStepsAreHarmless(cfg, s, step, s'); }
  }

  /** Where every database still exists, every request reaches the one it was meant for. */
  lemma MeetsItsDatabase(cfg: Config, s: System, step: Step, s': System)
    requires Inv(cfg, {}, s) && AllExist(s) && Next(cfg, s, step, s')
    ensures Fits(s, step)
  {
    hide DbOk, PassOk, Claim, BatchOk, PointsOk, BatchFits, SyncsFit;
    if step.DoHandleItems? || step.DoHandleSyncs? {
      assert MsgOk(cfg, {}, s, step.m);
    }
  }

  lemma {:induction false} UndisturbedRunFits(cfg: Config, states: seq<System>, steps: seq<Step>, i: nat)
    requires ValidConfig(cfg) && IsRun(cfg, states, steps) && i < |states| && LeavesAllUpTo(states, steps, i)
    ensures FitsUpTo(states, steps, i) && AllExist(states[i])
  {
    hide Inv, Next, WithinTables, Fits, LeavesAll, ValidConfig;
    if i == 0 {
    } else {
      UndisturbedRunFits(cfg, states, steps, i - 1);
      RunKeepsInv(cfg, {}, states, steps, i - 1);
      MeetsItsDatabase(cfg, states[i - 1], steps[i - 1], states[i]);
      StepKeepsAll(cfg, states[i - 1], steps[i - 1], states[i]);
    }
  }

  /** In every run that takes no database away all sync points are sound, whatever is lost, late or repeated. */
  lemma UndisturbedPointsAreSound(cfg: Config, states: seq<System>, steps: seq<Step>, i: nat)
    requires ValidConfig(cfg) && IsRun(cfg, states, steps) && i < |states| && LeavesAllUpTo(states, steps, i)
    ensures PointsSound(states[i])
  {
    UndisturbedRunFits(cfg, states, steps, i);
    SyncPointsAreSound(cfg, states, steps, i);
  }
}
