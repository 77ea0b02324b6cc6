/**
 What a step can lose. Only two kinds of step take a database away: the deletion of a handoff, and
 a copied file that is renamed over a database. Exactly when each keeps every row.
 */
module Losses {
  import opened Wrappers
  import opened Rows
  import opened SyncTables
  import opened NodeOrder
  import opened Replication
  import opened ReplicationInv
  import opened ReplicationPasses
  import opened ReplicationRuns
  import opened Placement

  /** The database at n has a row at least as new as rec. */
  ghost predicate HeldAt(s: System, n: Node, rec: Record) {
    n in s.at && s.at[n] in s.dbs && Covers(s.dbs[s.at[n]].table.rows, rec)
  }

  /** Some database in the system has. */
  ghost predicate Held(s: System, rec: Record) {
    exists n :: HeldAt(s, n, rec)
  }

  /** Some database other than the one at h has. */
  ghost predicate HeldElsewhere(s: System, h: Node, rec: Record) {
    exists n :: n != h && HeldAt(s, n, rec)
  }

  function RowsAt(s: System, n: Node): RowMap {
    if n in s.at && s.at[n] in s.dbs then s.dbs[s.at[n]].table.rows else map[]
  }

  /** Every row of every database is covered by some database afterwards. */
  ghost predicate KeepsRows(s: System, s': System) {
    forall n, i :: i in RowsAt(s, n) ==> Held(s', RowsAt(s, n)[i])
  }

  lemma OwnRow(s: System, n: Node, i: nat)
    requires i in RowsAt(s, n)
    ensures HeldAt(s, n, RowsAt(s, n)[i])
  {
    CoversSelf(RowsAt(s, n));
  }

  lemma HeldNewer(s: System, row: Record, rec: Record)
    requires Held(s, row) && Newer(row, rec)
    ensures Held(s, rec)
  {
    var n :| HeldAt(s, n, row);
    var rows := s.dbs[s.at[n]].table.rows;
    var j :| j in rows && Newer(rows[j], row);
    assert Newer(rows[j], rec) && HeldAt(s, n, rec);
  }

  /** Keeping the rows keeps every record that was held. */
  lemma KeptRowsAreEnough(s: System, s': System, rec: Record)
    requires KeepsRows(s, s') && Held(s, rec)
    ensures Held(s', rec)
  {
    var n :| HeldAt(s, n, rec);
    var rows := RowsAt(s, n);
    var i :| i in rows && Newer(rows[i], rec);
    HeldNewer(s', rows[i], rec);
  }

  /** Where databases stay and grow, rows are kept. */
  lemma StayingKeepsRows(s: System, s': System)
    requires Stays(s, s')
    ensures KeepsRows(s, s')
  {
    forall n, i | i in RowsAt(s, n) ensures Held(s', RowsAt(s, n)[i]) {
      assert HeldAt(s', n, RowsAt(s, n)[i]);
    }
  }

  // ------------------------------------------------------------------
  // Deletions
  // ------------------------------------------------------------------

  /** Each row about to be deleted is covered by another database. */
  ghost predicate DeletionSpares(s: System, p: Pass) {
    forall i :: i in RowsAt(s, p.src) ==> HeldElsewhere(s, p.src, RowsAt(s, p.src)[i])
  }

  lemma HeldAfterDeletion(s: System, k: nat, rec: Record)
    requires PlacesOk(s) && k in s.passes
    ensures Held(Delete(s, k), rec) <==> HeldElsewhere(s, s.passes[k].src, rec)
  {
    var h, s' := s.passes[k].src, Delete(s, k);
    if n :| HeldAt(s', n, rec) {
      assert n != h && HeldAt(s, n, rec);
    }
    if n :| n != h && HeldAt(s, n, rec) {
      assert HeldAt(s', n, rec);
    }
  }

  /** A deletion keeps every row if and only if other databases cover each it takes away. */
  lemma DeletionKeepsRowsIff(s: System, k: nat)
    requires PlacesOk(s) && k in s.passes
    ensures KeepsRows(s, Delete(s, k)) <==> DeletionSpares(s, s.passes[k])
  {
    hide HeldElsewhere, Delete;
    var p, s' := s.passes[k], Delete(s, k);
    forall i | i in RowsAt(s, p.src)
      ensures Held(s', RowsAt(s, p.src)[i]) <==> HeldElsewhere(s, p.src, RowsAt(s, p.src)[i])
    {
      HeldAfterDeletion(s, k, RowsAt(s, p.src)[i]);
    }
    forall n, i | n != p.src && i in RowsAt(s, n) ensures Held(s', RowsAt(s, n)[i]) {
      OwnRow(s, n, i);
      SomewhereElse(s, p.src, n, RowsAt(s, n)[i]);
      HeldAfterDeletion(s, k, RowsAt(s, n)[i]);
    }
  }

  /** The pass is still about the database at its node, and another database that answered still exists. */
  ghost predicate Vouched(s: System, p: Pass) {
    Live(s, p) && exists x :: x in s.dbs && x != p.info.id && AnsweredBy(p, x)
  }

  /** The same of the rows that came since the pass began, and of all rows if nobody vouches for it. */
  ghost predicate LateRowsSpared(s: System, p: Pass) {
    forall i :: i in RowsAt(s, p.src) && !(Vouched(s, p) && i <= p.info.maxRow) ==>
      HeldElsewhere(s, p.src, RowsAt(s, p.src)[i])
  }

  /** What a pass that is vouched for set out with is elsewhere. */
  lemma VouchedIsElsewhere(cfg: Config, kept: set<Node>, s: System, k: nat, i: nat)
    requires Inv(cfg, kept, s) && k in s.passes && Vouched(s, s.passes[k])
    requires i in RowsAt(s, s.passes[k].src) && i <= s.passes[k].info.maxRow
    ensures HeldElsewhere(s, s.passes[k].src, RowsAt(s, s.passes[k].src)[i])
  {
    var p := s.passes[k];
    var x :| x in s.dbs && x != p.info.id && AnsweredBy(p, x);
    AnswerIsCovered(cfg, kept, s, k, x);
    assert PassOk(cfg, kept, s, p);
    var j :| 0 <= j < |p.responses| && p.responses[j] == Some(x);
    assert AnswerOk(kept, s, p.info, p.targets[j], p.responses[j]);
    assert p.targets[j] != p.src && HeldAt(s, p.targets[j], RowsAt(s, p.src)[i]);
  }

  lemma LateRowsDecideIn(cfg: Config, kept: set<Node>, s: System, k: nat)
    requires Inv(cfg, kept, s) && k in s.passes
    ensures KeepsRows(s, Delete(s, k)) <==> LateRowsSpared(s, s.passes[k])
  {
    hide Inv, Vouched, HeldElsewhere, Delete, KeepsRows;
    var p := s.passes[k];
    assert PlacesOk(s) by { InvPlaces(cfg, kept, s); }
    DeletionKeepsRowsIff(s, k);
    forall i | i in RowsAt(s, p.src) && Vouched(s, p) && i <= p.info.maxRow
      ensures HeldElsewhere(s, p.src, RowsAt(s, p.src)[i])
    {
      VouchedIsElsewhere(cfg, kept, s, k, i);
    }
  }

  /** In a run whose deliveries fit, a deletion keeps every row if and only if other databases cover the late ones. */
  lemma LateRowsDecide(cfg: Config, states: seq<System>, steps: seq<Step>, i: nat, k: nat)
    requires ValidConfig(cfg) && IsRun(cfg, states, steps) && i < |states| && FitsUpTo(states, steps, i)
    requires k in states[i].passes
    ensures KeepsRows(states[i], Delete(states[i], k)) <==> LateRowsSpared(states[i], states[i].passes[k])
  {
    RunKeepsInv(cfg, {}, states, steps, i);
    LateRowsDecideIn(cfg, {}, states[i], k);
  }

  lemma SomewhereElse(s: System, h: Node, n: Node, rec: Record)
    requires n != h && HeldAt(s, n, rec)
    ensures HeldElsewhere(s, h, rec)
  {
  }

  lemma InvPlaces(cfg: Config, kept: set<Node>, s: System)
    requires Inv(cfg, kept, s)
    ensures PlacesOk(s)
  {
  }

  /**
   If no primary's database is ever overwritten, a deletion by a pass that is still about its database
   and found no new rows keeps every row, as long as `handoff_delete` is not set or is above the number of
   handoffs contacted.
   */
  lemma CarefulDeletion(cfg: Config, s: System, k: nat)
    requires Inv(cfg, Primaries(cfg), s) && cfg.primaries != [] && Finished(s, k) && s.passes[k].phase.Deleting?
    requires Live(s, s.passes[k]) && MaxRow(s.dbs[s.passes[k].info.id].table) == s.passes[k].info.maxRow
    requires cfg.handoffDelete == 0 || cfg.handoffDelete > |s.passes[k].targets| - |cfg.primaries|
    ensures DeletionSpares(s, s.passes[k])
  {
    hide DeletionSpares, LateRowsSpared;
    var p := s.passes[k];
    var j := EnoughAsksOne(cfg, Primaries(cfg), s, k);
    var n := p.targets[j];
    assert Succeeded(p, n);
    PrimaryCovers(cfg, Primaries(cfg), s, k, n);
    assert Vouched(s, p);
    assert DbOk(s, p.info.id);
    assert LateRowsSpared(s, p) by { NoLateRows(s, p); }
    LateRowsDecideIn(cfg, Primaries(cfg), s, k);
    DeletionKeepsRowsIff(s, k);
  }

  lemma NoLateRows(s: System, p: Pass)
    requires Vouched(s, p) && Valid(s.dbs[p.info.id].table) && MaxRow(s.dbs[p.info.id].table) == p.info.maxRow
    ensures LateRowsSpared(s, p)
  {
  }

  // ------------------------------------------------------------------
  // Renames
  // ------------------------------------------------------------------

  /** Each row of the database about to be replaced, if there is one, is in the copy or elsewhere. */
  ghost predicate RenameSpares(s: System, m: Msg)
    requires m.RsyncTested?
  {
    forall i :: i in RowsAt(s, m.dst) ==>
      Covers(m.copy.table.rows, RowsAt(s, m.dst)[i]) || HeldElsewhere(s, m.dst, RowsAt(s, m.dst)[i])
  }

  lemma HeldAfterRename(s: System, m: Msg, id: DbId, rec: Record)
    requires PlacesOk(s) && m.RsyncTested? && id !in s.dbs
    ensures Held(Rename(s, m, id), rec) <==> Covers(m.copy.table.rows, rec) || HeldElsewhere(s, m.dst, rec)
  {
    var s' := Rename(s, m, id);
    if n :| HeldAt(s', n, rec) {
      assert n == m.dst || HeldAt(s, n, rec);
    }
    if Covers(m.copy.table.rows, rec) { assert HeldAt(s', m.dst, rec); }
    if n :| n != m.dst && HeldAt(s, n, rec) { assert HeldAt(s', n, rec); }
  }

  /** A rename keeps every row if and only if the copy or another database covers what it replaces. */
  lemma RenameKeepsRowsIff(s: System, m: Msg, id: DbId)
    requires PlacesOk(s) && m.RsyncTested? && id !in s.dbs
    ensures KeepsRows(s, Rename(s, m, id)) <==> RenameSpares(s, m)
  {
    hide HeldElsewhere, Rename;
    var s' := Rename(s, m, id);
    forall i | i in RowsAt(s, m.dst)
      ensures Held(s', RowsAt(s, m.dst)[i]) <==>
              Covers(m.copy.table.rows, RowsAt(s, m.dst)[i]) || HeldElsewhere(s, m.dst, RowsAt(s, m.dst)[i])
    {
      HeldAfterRename(s, m, id, RowsAt(s, m.dst)[i]);
    }
    forall n, i | n != m.dst && i in RowsAt(s, n) ensures Held(s', RowsAt(s, n)[i]) {
      OwnRow(s, n, i);
      SomewhereElse(s, m.dst, n, RowsAt(s, n)[i]);
      HeldAfterRename(s, m, id, RowsAt(s, n)[i]);
    }
  }

  // ------------------------------------------------------------------
  // Steps
  // ------------------------------------------------------------------

  ghost predicate SparesRows(s: System, step: Step) {
    && (step.DoDelete? && step.k in s.passes ==> DeletionSpares(s, s.passes[step.k]))
    && (step.DoRename? && step.m.RsyncTested? ==> RenameSpares(s, step.m))
  }

  ghost predicate SparesRowsUpTo(states: seq<System>, steps: seq<Step>, i: nat) {
    forall j :: 0 <= j < i && j < |steps| && j < |states| ==> SparesRows(states[j], steps[j])
  }

  /** A step keeps every row if and only if it is no deletion or rename that takes one away for good. */
  lemma StepKeepsRowsIff(cfg: Config, s: System, step: Step, s': System)
    requires Sane(s) && Next(cfg, s, step, s')
    ensures KeepsRows(s, s') <==> SparesRows(s, step)
  {
    hide KeepsRows, DeletionSpares, RenameSpares, Stays, Valid;
    if step.DoDelete? {
      DeletionKeepsRowsIff(s, step.k);
    } else if step.DoRename? {
      RenameKeepsRowsIff(s, step.m, step.id);
    } else {
      StepKeepsSane(cfg, s, step, s');
      StayingKeepsRows(s, s');
    }
  }

  /** Over any run: every step keeps every row if and only if none takes one away for good. */
  lemma RowsKeptIff(cfg: Config, states: seq<System>, steps: seq<Step>, i: nat)
    requires IsRun(cfg, states, steps) && i <= |steps|
    ensures (forall j :: 0 <= j < i ==> KeepsRows(states[j], states[j + 1])) <==> SparesRowsUpTo(states, steps, i)
  {
    hide KeepsRows, SparesRows, Next, WithinTables, Sane;
    forall j: nat | j < i ensures KeepsRows(states[j], states[j + 1]) <==> SparesRows(states[j], steps[j]) {
      RunIsSane(cfg, states, steps, j);
      StepKeepsRowsIff(cfg, states[j], steps[j], states[j + 1]);
    }
    if SparesRowsUpTo(states, steps, i) {
      forall j | 0 <= j < i ensures KeepsRows(states[j], states[j + 1]) {
        assert SparesRows(states[j], steps[j]);
      }
    }
    if forall j :: 0 <= j < i ==> KeepsRows(states[j], states[j + 1]) {
      forall j | 0 <= j < i ensures SparesRows(states[j], steps[j]) {
        assert KeepsRows(states[j], states[j + 1]);
      }
    }
  }

  // ------------------------------------------------------------------
  // What replication guarantees
  // ------------------------------------------------------------------

  /**
   A rename finds its node free. A deletion removes the database its pass is about, no row came since the
   pass began, and `handoff_delete` is not set or is above the number of handoffs contacted.
   */
  predicate Careful(cfg: Config, s: System, step: Step) {
    && (step.DoRename? && step.m.RsyncTested? ==> step.m.dst !in s.at)
    && (step.DoDelete? && step.k in s.passes ==>
          var p := s.passes[step.k];
          && Live(s, p) && MaxRow(s.dbs[p.info.id].table) == p.info.maxRow
          && (cfg.handoffDelete == 0 || cfg.handoffDelete > |p.targets| - |cfg.primaries|))
  }

  predicate CarefulUpTo(cfg: Config, states: seq<System>, steps: seq<Step>, i: nat) {
    forall j :: 0 <= j < i && j < |steps| && j < |states| ==> Careful(cfg, states[j], steps[j])
  }

  lemma CarefulStep(cfg: Config, s: System, step: Step, s': System)
    requires ValidConfig(cfg) && Inv(cfg, Primaries(cfg), s) && Next(cfg, s, step, s') && Careful(cfg, s, step)
    ensures SparesRows(s, step)
  {
    hide Inv, DeletionSpares;
    if step.DoDelete? { CarefulDeletion(cfg, s, step.k); }
  }

  lemma CarefulSpares(cfg: Config, states: seq<System>, steps: seq<Step>, i: nat)
    requires IsRun(cfg, states, steps) && i <= |steps| && CarefulUpTo(cfg, states, steps, i)
    ensures SparesUpTo(Primaries(cfg), states, steps, i)
  {
    hide WithinTables;
    forall j | 0 <= j < i && j < |steps| && j < |states| ensures Spares(Primaries(cfg), states[j], steps[j]) {
      assert Careful(cfg, states[j], steps[j]) && Next(cfg, states[j], steps[j], states[j + 1]);
    }
  }

  /** If deliveries fit, and deletions and renames meet what their tests found, no row is ever taken away for good. */
  lemma CarefulRunsKeepRows(cfg: Config, states: seq<System>, steps: seq<Step>, i: nat)
    requires ValidConfig(cfg) && IsRun(cfg, states, steps) && i <= |steps|
    requires FitsUpTo(states, steps, i) && CarefulUpTo(cfg, states, steps, i)
    ensures SparesRowsUpTo(states, steps, i)
  {
    hide Inv, Next, WithinTables, Careful, Fits, Spares, SparesRows, ValidConfig;
    CarefulSpares(cfg, states, steps, i);
    forall j: nat | j < i ensures SparesRows(states[j], steps[j]) {
      RunKeepsInv(cfg, Primaries(cfg), states, steps, j);
      CarefulStep(cfg, states[j], steps[j], states[j + 1]);
    }
  }
}
