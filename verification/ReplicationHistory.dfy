/**
 What replication does to the records that were ever written, in runs whose deliveries fit: no
 timestamp is invented; if no deletion or rename takes a row away for good, no record is lost, and
 databases that are all judged in sync hold exactly the newest timestamps written under each name.
 */
module ReplicationHistory {
  import opened Wrappers
  import opened Rows
  import opened Stamps
  import opened Digest
  import opened SyncTables
  import opened NodeOrder
  import opened Replication
  import opened ReplicationSteps
  import opened ReplicationRuns
  import opened Placement
  import opened Losses

  // ------------------------------------------------------------------
  // Nothing is lost
  // ------------------------------------------------------------------

  ghost predicate AllHeld(s: System) {
    forall rec :: rec in s.written ==> Held(s, rec)
  }

  lemma HeldAfterLocalMerge(s: System, n: Node, recs: seq<Record>, rec: Record)
    requires Sane(s) && n in s.at && rec in recs
    ensures Held(LocalMerge(s, n, recs), rec)
  {
    var s' := LocalMerge(s, n, recs);
    MergeItemsGrows(s.dbs[s.at[n]].table, recs);
    assert HeldAt(s', n, rec);
  }

  lemma OnlyLocalMergeWrites(cfg: Config, s: System, step: Step, s': System)
    requires Next(cfg, s, step, s') && !step.DoLocalMerge?
    ensures s'.written == s.written
  {
  }

  lemma StepKeepsHeld(cfg: Config, s: System, step: Step, s': System)
    requires Sane(s) && Next(cfg, s, step, s') && SparesRows(s, step) && AllHeld(s)
    ensures AllHeld(s')
  {
    hide Held, Sane, SparesRows, KeepsRows;
    StepKeepsRowsIff(cfg, s, step, s');
    forall rec | rec in s'.written ensures Held(s', rec) {
      if step.DoLocalMerge? && rec in step.recs {
        HeldAfterLocalMerge(s, step.n, step.recs, rec);
      } else {
        if !step.DoLocalMerge? { OnlyLocalMergeWrites(cfg, s, step, s'); }
        KeptRowsAreEnough(s, s', rec);
      }
    }
  }

  lemma NothingWritten()
    ensures AllHeld(INITIAL)
  {
  }

  /**
   In every state of every run whose deletions and renames take no row away for good, every record ever
   committed is covered by some database.
   */
  lemma {:induction false} NothingIsLost(cfg: Config, states: seq<System>, steps: seq<Step>, i: nat)
    requires IsRun(cfg, states, steps) && i < |states| && SparesRowsUpTo(states, steps, i)
    ensures AllHeld(states[i])
  {
    hide AllHeld, Sane, Next, WithinTables, SparesRows;
    if i == 0 {
      NothingWritten();
    } else {
      NothingIsLost(cfg, states, steps, i - 1);
      RunIsSane(cfg, states, steps, i - 1);
      StepKeepsHeld(cfg, states[i - 1], steps[i - 1], states[i]);
    }
  }

  /** And so in every run whose deliveries fit and whose deletions and renames meet what their tests found. */
  lemma CarefulRunsLoseNothing(cfg: Config, states: seq<System>, steps: seq<Step>, i: nat)
    requires ValidConfig(cfg) && IsRun(cfg, states, steps) && i < |states|
    requires FitsUpTo(states, steps, i) && CarefulUpTo(cfg, states, steps, i)
    ensures AllHeld(states[i])
  {
    CarefulRunsKeepRows(cfg, states, steps, i);
    NothingIsLost(cfg, states, steps, i);
  }

  // ------------------------------------------------------------------
  // Nothing is invented
  // ------------------------------------------------------------------

  /** Both timestamps of rec were written under its name. */
  ghost predicate Sourced(written: set<Record>, rec: Record) {
    && (exists w :: w in written && w.name == rec.name && w.put == rec.put)
    && (exists w :: w in written && w.name == rec.name && w.del == rec.del)
  }

  ghost predicate AllSourced(written: set<Record>, rows: RowMap) {
    forall i :: i in rows ==> Sourced(written, rows[i])
  }

  ghost predicate MsgSourced(written: set<Record>, m: Msg) {
    && (m.MergeItemsReq? ==> forall x :: x in m.items ==> Sourced(written, x.rec))
    && (m.RsyncReq? || m.RsyncTested? ==> AllSourced(written, m.copy.table.rows))
  }

  ghost predicate Authentic(s: System) {
    && (forall id :: id in s.dbs ==> AllSourced(s.written, s.dbs[id].table.rows))
    && (forall m :: m in s.msgs ==> MsgSourced(s.written, m))
  }

  lemma SourcedGrows(a: set<Record>, b: set<Record>)
    requires a <= b
    ensures forall rec :: Sourced(a, rec) ==> Sourced(b, rec)
  {
  }

  lemma MergeOneSourced(written: set<Record>, t: Table, rec: Record)
    requires AllSourced(written, t.rows) && Sourced(written, rec)
    ensures AllSourced(written, MergeOne(t, rec).rows)
  {
    var prior := FindUpTo(t.rows, rec.name, t.last);
    if prior.Some? { assert Sourced(written, t.rows[prior.value]); }
    assert Sourced(written, Resolve(Find(t, rec.name), rec));
  }

  lemma {:induction false} MergeItemsSourced(written: set<Record>, t: Table, recs: seq<Record>)
    requires AllSourced(written, t.rows) && forall rec :: rec in recs ==> Sourced(written, rec)
    ensures AllSourced(written, MergeItems(t, recs).rows)
  {
    if recs != [] {
      MergeItemsSourced(written, t, recs[..|recs| - 1]);
      MergeOneSourced(written, MergeItems(t, recs[..|recs| - 1]), recs[|recs| - 1]);
    }
  }

  lemma LocalMergeAuthentic(s: System, n: Node, recs: seq<Record>)
    requires Authentic(s) && n in s.at && s.at[n] in s.dbs
    ensures Authentic(LocalMerge(s, n, recs))
  {
    var s' := LocalMerge(s, n, recs);
    SourcedGrows(s.written, s'.written);
    forall rec | rec in recs ensures Sourced(s'.written, rec) {
      assert rec in s'.written;
    }
    MergeItemsSourced(s'.written, s.dbs[s.at[n]].table, recs);
  }

  lemma HandleItemsAuthentic(s: System, m: Msg)
    requires Authentic(s) && m in s.msgs && m.MergeItemsReq? && m.dst in s.at && s.at[m.dst] in s.dbs
    ensures Authentic(HandleItems(s, m))
  {
    var recs := Records(m.items);
    forall rec | rec in recs ensures Sourced(s.written, rec) {
      var i :| 0 <= i < |recs| && recs[i] == rec;
      assert m.items[i] in m.items;
    }
    MergeItemsSourced(s.written, s.dbs[s.at[m.dst]].table, recs);
  }

  lemma QueryAuthentic(cfg: Config, s: System, k: nat)
    requires Authentic(s) && Talking(s, k) && Live(s, s.passes[k]) && s.passes[k].phase.Ready?
    ensures Authentic(Query(cfg, s, k))
  {
    var p, s' := s.passes[k], Query(cfg, s, k);
    var t := s.dbs[p.info.id].table;
    var items := ItemsSince(t, p.phase.point, cfg.perDiff);
    forall x | x in items ensures Sourced(s.written, x.rec) {
      assert x in RowsAfter(t, p.phase.point);
    }
  }

  lemma StepKeepsAuthentic(cfg: Config, s: System, step: Step, s': System)
    requires Next(cfg, s, step, s') && Authentic(s)
    ensures Authentic(s')
  {
    hide Sourced, MergeItems, ItemsSince, LastRow;
    if !MovesRows(step) {
      MostStepsAreHarmless(cfg, s, step, s');
    } else if step.DoLocalMerge? {
      LocalMergeAuthentic(s, step.n, step.recs);
    } else if step.DoHandleItems? {
      HandleItemsAuthentic(s, step.m);
    } else if step.DoQuery? {
      QueryAuthentic(cfg, s, step.k);
    }
  }

  lemma {:induction false} NothingIsInvented(cfg: Config, states: seq<System>, steps: seq<Step>, i: nat)
    requires IsRun(cfg, states, steps) && i < |states|
    ensures Authentic(states[i])
  {
    if i > 0 {
      NothingIsInvented(cfg, states, steps, i - 1);
      StepKeepsAuthentic(cfg, states[i - 1], steps[i - 1], states[i]);
    }
  }

  // ------------------------------------------------------------------
  // Convergence
  // ------------------------------------------------------------------

  /** A sync exchange from a to b on fresh snapshots would find nothing to do. */
  ghost predicate JudgedInSync(cfg: Config, s: System, a: DbId, b: DbId)
    requires a in s.dbs && b in s.dbs
  {
    var info, rinfo := InfoOf(cfg, a, s.dbs[a].table), InfoOf(cfg, b, s.dbs[b].table);
    var point := Max(SyncPoint(cfg, s.dbs[b], info).1, GetSync(s.dbs[a].outgoing, b));
    var mode := ChooseMode(cfg, info, rinfo, point);
    mode == NoChange || mode == HashMatch
  }

  /** Being judged in sync is enough: b covers every row of a. */
  lemma InSyncCovers(cfg: Config, s: System, a: DbId, b: DbId)
    requires CollisionFree(cfg) && PointsSound(s) && WithinTables(cfg, s) && a in s.dbs && b in s.dbs
    requires Valid(s.dbs[a].table) && JudgedInSync(cfg, s, a, b)
    ensures CoversAll(s.dbs[b].table.rows, s.dbs[a].table.rows)
  {
    hide PointsSound;
    var t, u := s.dbs[a].table, s.dbs[b].table;
    if TableHash(cfg.rowHash, t) == TableHash(cfg.rowHash, u) {
      SameContentsCover(u.rows, t.rows);
    } else {
      KnownPoints(s, a, b);
      assert forall i :: i in t.rows ==> i <= MaxRow(t);
    }
  }

  lemma KnownPoints(s: System, a: DbId, b: DbId)
    requires PointsSound(s) && a in s.dbs && b in s.dbs && Valid(s.dbs[a].table)
    ensures CoversUpTo(s.dbs[b].table.rows, s.dbs[a].table.rows, GetSync(s.dbs[b].incoming, a))
    ensures CoversUpTo(s.dbs[b].table.rows, s.dbs[a].table.rows, GetSync(s.dbs[a].outgoing, b))
  {
  }

  /** The newest timestamps written under n, or none if n was never written. */
  ghost predicate NewestWritten(written: set<Record>, n: Name, stamp: Option<Stamp>) {
    if stamp.None? then forall w :: w in written ==> w.name != n
    else
      && (forall w :: w in written && w.name == n ==> w.put <= stamp.value.put && w.del <= stamp.value.del)
      && (exists w :: w in written && w.name == n && w.put == stamp.value.put)
      && (exists w :: w in written && w.name == n && w.del == stamp.value.del)
  }

  /** A table that covers everything written and invents nothing holds the newest timestamps. */
  lemma CompleteTableIsNewest(written: set<Record>, t: Table, n: Name)
    requires Valid(t) && AllSourced(written, t.rows)
    requires forall w :: w in written ==> Covers(t.rows, w)
    ensures NewestWritten(written, n, OfTable(t, n))
  {
    FindNone(t, n);
    forall w | w in written && w.name == n
      ensures OfTable(t, n).Some? && w.put <= OfTable(t, n).value.put && w.del <= OfTable(t, n).value.del
    {
      CoversIsNewer(t, w);
    }
    if i :| i in t.rows && t.rows[i].name == n {
      FindUnique(t, i);
      assert Sourced(written, t.rows[i]);
    }
  }

  ghost predicate AllInSync(cfg: Config, s: System) {
    forall x, y :: x in s.at && y in s.at && x != y && s.at[x] in s.dbs && s.at[y] in s.dbs ==>
      JudgedInSync(cfg, s, s.at[x], s.at[y])
  }

  lemma InSyncCoversWritten(cfg: Config, s: System, a: Node, w: Record)
    requires CollisionFree(cfg) && Sane(s) && PointsSound(s) && WithinTables(cfg, s)
    requires AllInSync(cfg, s) && Held(s, w) && a in s.at
    ensures Covers(s.dbs[s.at[a]].table.rows, w)
  {
    var m :| HeldAt(s, m, w);
    if m != a {
      InSyncCovers(cfg, s, s.at[m], s.at[a]);
      CoversTransitive(s.dbs[s.at[a]].table.rows, s.dbs[s.at[m]].table.rows, w);
    }
  }

  lemma ConvergedState(cfg: Config, s: System, a: Node, n: Name)
    requires CollisionFree(cfg) && Sane(s) && PointsSound(s) && WithinTables(cfg, s)
    requires AllInSync(cfg, s) && AllHeld(s) && Authentic(s) && a in s.at
    ensures NewestWritten(s.written, n, OfTable(s.dbs[s.at[a]].table, n))
  {
    forall w | w in s.written ensures Covers(s.dbs[s.at[a]].table.rows, w) {
      InSyncCoversWritten(cfg, s, a, w);
    }
    CompleteTableIsNewest(s.written, s.dbs[s.at[a]].table, n);
  }

  /**
   If sync points are sound and every ordered pair of databases is judged in sync, each of them holds,
   under every name, exactly the newest timestamps ever written at any of them.
   */
  lemma Convergence(cfg: Config, states: seq<System>, steps: seq<Step>, i: nat, a: Node, n: Name)
    requires ValidConfig(cfg) && IsRun(cfg, states, steps) && i < |states|
    requires PointsSound(states[i]) && SparesRowsUpTo(states, steps, i)
    requires AllInSync(cfg, states[i]) && a in states[i].at
    ensures states[i].at[a] in states[i].dbs
    ensures NewestWritten(states[i].written, n, OfTable(states[i].dbs[states[i].at[a]].table, n))
  {
    hide PointsSound, SparesRowsUpTo, AllInSync, AllHeld, Authentic, NewestWritten;
    RunIsSane(cfg, states, steps, i);
    NothingIsLost(cfg, states, steps, i);
    NothingIsInvented(cfg, states, steps, i);
    ConvergedState(cfg, states[i], a, n);
  }

  /** If sync points are sound, two databases judged in sync both ways hold the same names and timestamps. */
  lemma InSyncPairAgrees(cfg: Config, states: seq<System>, steps: seq<Step>, i: nat, a: DbId, b: DbId)
    requires ValidConfig(cfg) && IsRun(cfg, states, steps) && i < |states| && PointsSound(states[i])
    requires a in states[i].dbs && b in states[i].dbs
    requires JudgedInSync(cfg, states[i], a, b) && JudgedInSync(cfg, states[i], b, a)
    ensures SameStamps(states[i].dbs[a].table, states[i].dbs[b].table)
  {
    hide PointsSound, JudgedInSync;
    var s := states[i];
    RunIsSane(cfg, states, steps, i);
    InSyncCovers(cfg, s, a, b);
    InSyncCovers(cfg, s, b, a);
    MutualCoverageIsAgreement(s.dbs[a].table, s.dbs[b].table);
  }

  /** Deliveries fit, and deletions and renames meet what their tests found. */
  ghost predicate Orderly(cfg: Config, states: seq<System>, steps: seq<Step>, i: nat) {
    FitsUpTo(states, steps, i) && CarefulUpTo(cfg, states, steps, i)
  }

  /** A run that takes no database away is one. */
  lemma UndisturbedIsOrderly(cfg: Config, states: seq<System>, steps: seq<Step>, i: nat)
    requires ValidConfig(cfg) && IsRun(cfg, states, steps) && i < |states| && LeavesAllUpTo(states, steps, i)
    ensures Orderly(cfg, states, steps, i)
  {
    hide Fits, Next, WithinTables, ValidConfig;
    UndisturbedRunFits(cfg, states, steps, i);
    forall j | 0 <= j < i && j < |steps| && j < |states| ensures Careful(cfg, states[j], steps[j]) {
      assert LeavesAll(states[j], steps[j]);
    }
  }

  /** In an orderly run, databases that are all judged in sync hold exactly the newest timestamps ever written. */
  lemma OrderlyRunsConverge(cfg: Config, states: seq<System>, steps: seq<Step>, i: nat, a: Node, n: Name)
    requires ValidConfig(cfg) && IsRun(cfg, states, steps) && i < |states| && Orderly(cfg, states, steps, i)
    requires AllInSync(cfg, states[i]) && a in states[i].at
    ensures states[i].at[a] in states[i].dbs
    ensures NewestWritten(states[i].written, n, OfTable(states[i].dbs[states[i].at[a]].table, n))
  {
    SyncPointsAreSound(cfg, states, steps, i);
    CarefulRunsKeepRows(cfg, states, steps, i);
    Convergence(cfg, states, steps, i, a, n);
  }

  /** In a run whose deliveries fit, two databases judged in sync both ways agree. */
  lemma FittingPairAgrees(cfg: Config, states: seq<System>, steps: seq<Step>, i: nat, a: DbId, b: DbId)
    requires ValidConfig(cfg) && IsRun(cfg, states, steps) && i < |states| && FitsUpTo(states, steps, i)
    requires a in states[i].dbs && b in states[i].dbs
    requires JudgedInSync(cfg, states[i], a, b) && JudgedInSync(cfg, states[i], b, a)
    ensures SameStamps(states[i].dbs[a].table, states[i].dbs[b].table)
  {
    SyncPointsAreSound(cfg, states, steps, i);
    InSyncPairAgrees(cfg, states, steps, i, a, b);
  }
}
