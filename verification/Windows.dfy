/**
 Places where the code looks first and acts later without a lock, and one where a handoff may count
 itself as a peer: how a record is lost there, as steps of a run.
 */
module Windows {
  import opened Wrappers
  import opened Rows
  import opened SyncTables
  import opened NodeOrder
  import opened Replication
  import opened ReplicationInv
  import opened Losses
  import opened ReplicationHistory

  // ------------------------------------------------------------------
  // From the decision to delete a handoff to its deletion
  // ------------------------------------------------------------------

  lemma MergeElsewhere(s: System, h: Node, recs: seq<Record>, n: Node, rec: Record)
    requires PlacesOk(s) && h in s.at && n != h
    ensures HeldAt(LocalMerge(s, h, recs), n, rec) <==> HeldAt(s, n, rec)
  {
  }

  /** A record committed in the window is lost, unless another database has it already. */
  lemma DeletionWindowLoses(cfg: Config, s: System, k: nat, rec: Record)
    requires PlacesOk(s) && Finished(s, k) && s.passes[k].phase.Idle? && Removes(cfg, s, s.passes[k])
    requires forall n :: n != s.passes[k].src ==> !HeldAt(s, n, rec)
    ensures var h := s.passes[k].src;
            var s1 := Decide(s, k);
            var s2 := LocalMerge(s1, h, [rec]);
            var s3 := Delete(s2, k);
            && Next(cfg, s, DoDecide(k), s1) && Next(cfg, s1, DoLocalMerge(h, [rec]), s2)
            && Next(cfg, s2, DoDelete(k), s3)
            && rec in s3.written && !Held(s3, rec)
  {
    var h := s.passes[k].src;
    var s1 := Decide(s, k);
    var s2 := LocalMerge(s1, h, [rec]);
    forall n | n != h ensures !HeldAt(s2, n, rec) {
      MergeElsewhere(s1, h, [rec], n, rec);
      assert HeldAt(s1, n, rec) <==> HeldAt(s, n, rec);
    }
    assert PlacesOk(s2);
    HeldAfterDeletion(s2, k, rec);
    assert rec in [rec];
  }

  /**
   A deletion that was decided for a database another pass has since deleted takes its successor, with
   every record only that has.
   */
  lemma SuccessorWindowLoses(cfg: Config, s: System, k: nat, x: DbId, rec: Record)
    requires PlacesOk(s) && Finished(s, k) && s.passes[k].phase.Deleting? && s.passes[k].src !in s.at
    requires x !in s.ids && x !in s.dbs && forall n :: !HeldAt(s, n, rec)
    ensures var h := s.passes[k].src;
            var s1 := Create(s, h, x);
            var s2 := LocalMerge(s1, h, [rec]);
            var s3 := Delete(s2, k);
            && Next(cfg, s, DoCreate(h, x), s1) && Next(cfg, s1, DoLocalMerge(h, [rec]), s2)
            && Next(cfg, s2, DoDelete(k), s3)
            && rec in s3.written && !Held(s3, rec)
  {
    hide Covers, MergeItems, HeldAt, PlacesOk, Held;
    var h := s.passes[k].src;
    var s1 := Create(s, h, x);
    var s2 := LocalMerge(s1, h, [rec]);
    CreatedElsewhere(s, h, x, rec);
    forall n | n != h ensures !HeldAt(s2, n, rec) {
      MergeElsewhere(s1, h, [rec], n, rec);
    }
    HeldAfterDeletion(s2, k, rec);
    assert rec in [rec];
  }

  lemma SentElsewhere(s: System, m: Msg, rec: Record)
    requires PlacesOk(s) && forall n :: !HeldAt(s, n, rec)
    ensures PlacesOk(Send(s, m)) && forall n :: !HeldAt(Send(s, m), n, rec)
  {
    hide Covers;
    forall n ensures !HeldAt(Send(s, m), n, rec) {
      assert !HeldAt(s, n, rec);
    }
  }

  lemma CreatedElsewhere(s: System, h: Node, x: DbId, rec: Record)
    requires PlacesOk(s) && h !in s.at && x !in s.dbs && forall n :: !HeldAt(s, n, rec)
    ensures var s1 := Create(s, h, x);
            && PlacesOk(s1) && PlacesOk(LocalMerge(s1, h, [rec]))
            && forall n :: n != h ==> !HeldAt(s1, n, rec)
  {
    hide Covers, MergeItems;
    forall n | n != h ensures !HeldAt(Create(s, h, x), n, rec) {
      assert !HeldAt(s, n, rec);
    }
  }

  // ------------------------------------------------------------------
  // From the test of `complete_rsync` to its rename
  // ------------------------------------------------------------------

  /** A record committed to a database created in the window is lost, at a primary too. */
  lemma RenameWindowLoses(cfg: Config, s: System, m: Msg, x: DbId, id: DbId, rec: Record)
    requires PlacesOk(s) && m in s.msgs && m.RsyncReq? && m.dst !in s.at
    requires x !in s.ids && id !in s.ids && x != id && id !in s.dbs && x !in s.dbs
    requires !Covers(m.copy.table.rows, rec) && forall n :: !HeldAt(s, n, rec)
    ensures var tested := RsyncTested(m.dst, m.source, m.copy);
            var s1 := TestRsync(s, m);
            var s2 := Create(s1, m.dst, x);
            var s3 := LocalMerge(s2, m.dst, [rec]);
            var s4 := Rename(s3, tested, id);
            && Next(cfg, s, DoTestRsync(m), s1) && Next(cfg, s1, DoCreate(m.dst, x), s2)
            && Next(cfg, s2, DoLocalMerge(m.dst, [rec]), s3) && Next(cfg, s3, DoRename(tested, id), s4)
            && rec in s4.written && !Held(s4, rec)
  {
    hide Covers, MergeItems, HeldAt, PlacesOk, Held;
    var s1 := TestRsync(s, m);
    var s2 := Create(s1, m.dst, x);
    var s3 := LocalMerge(s2, m.dst, [rec]);
    SentElsewhere(s, RsyncTested(m.dst, m.source, m.copy), rec);
    CreatedElsewhere(s1, m.dst, x, rec);
    forall n | n != m.dst ensures !HeldAt(s3, n, rec) {
      MergeElsewhere(s2, m.dst, [rec], n, rec);
    }
    HeldAfterRename(s3, RsyncTested(m.dst, m.source, m.copy), id, rec);
    assert rec in [rec];
  }

  // ------------------------------------------------------------------
  // `handoff_delete` and a handoff that is its own peer
  // ------------------------------------------------------------------

  lemma SelfInSync(cfg: Config, db: Db, info: Info)
    requires info == InfoOf(cfg, info.id, db.table)
    ensures SyncPoint(cfg, db, info).1 >= info.maxRow
  {
  }

  /** A handoff that is its own peer answers itself that it is in sync. */
  lemma SelfAnswers(cfg: Config, s: System, k: nat) returns (s1: System, s2: System, s3: System, req: Msg, resp: Msg)
    requires Talking(s, k) && s.passes[k].phase.Idle? && Live(s, s.passes[k])
    requires var p := s.passes[k];
             Peer(p) == p.src && p.info == InfoOf(cfg, p.info.id, s.dbs[p.info.id].table)
    ensures Next(cfg, s, DoContact(k), s1) && Next(cfg, s1, DoHandleSync(req), s2)
    ensures Next(cfg, s2, DoOnSyncResp(k, resp), s3)
    ensures s3.at == s.at && s3.dbs.Keys == s.dbs.Keys
    ensures forall id :: id in s.dbs ==> s3.dbs[id].table == s.dbs[id].table
    ensures var p := s.passes[k];
            k in s3.passes && s3.passes[k] == p.(responses := p.responses + [Some(p.info.id)], phase := Idle)
  {
    var p := s.passes[k];
    req := SyncReq(p.src, p.info);
    resp := SyncResp(p.src, p.info.id, p.info, SyncPoint(cfg, s.dbs[p.info.id], p.info).1);
    s1 := Contact(s, k);
    s2 := HandleSync(cfg, s1, req);
    SelfInSync(cfg, s.dbs[p.info.id], p.info);
    s3 := OnSyncResp(cfg, s2, k, resp);
  }

  lemma DecideAndDelete(cfg: Config, s: System, k: nat) returns (s1: System, s2: System)
    requires Finished(s, k) && s.passes[k].phase.Idle? && Removes(cfg, s, s.passes[k])
    ensures Next(cfg, s, DoDecide(k), s1) && Next(cfg, s1, DoDelete(k), s2)
    ensures s2.at == s.at - {s.passes[k].src} && s2.written == s.written
  {
    s1 := Decide(s, k);
    s2 := Delete(s1, k);
  }

  /**
   With `handoff_delete` at 1, a handoff that comes up as its own further peer is removed on its own
   word, even if it is the only database there is.
   */
  lemma SelfAnswerRemoves(cfg: Config, s: System, k: nat) returns (states: seq<System>, steps: seq<Step>)
    requires cfg.handoffDelete == 1 && Talking(s, k) && s.passes[k].phase.Idle? && Live(s, s.passes[k])
    requires var p := s.passes[k];
             && Peer(p) == p.src && p.src !in cfg.primaries && |p.responses| + 1 == |p.targets|
             && p.info == InfoOf(cfg, p.info.id, s.dbs[p.info.id].table)
    ensures |states| == 6 && |steps| == 5 && states[0] == s
    ensures forall i :: 0 <= i < 5 ==> Next(cfg, states[i], steps[i], states[i + 1])
    ensures states[5].at == s.at - {s.passes[k].src} && states[5].written == s.written
    ensures s.at.Keys == {s.passes[k].src} ==> forall rec :: !Held(states[5], rec)
  {
    hide Next;
    var p := s.passes[k];
    var s1, s2, s3, req, resp := SelfAnswers(cfg, s, k);
    assert Successes(p.responses + [Some(p.info.id)]) >= 1 by {
      assert (p.responses + [Some(p.info.id)])[..|p.responses|] == p.responses;
    }
    var s4, s5 := DecideAndDelete(cfg, s3, k);
    OnlyLocalMergeWrites(cfg, s, DoContact(k), s1);
    OnlyLocalMergeWrites(cfg, s1, DoHandleSync(req), s2);
    OnlyLocalMergeWrites(cfg, s2, DoOnSyncResp(k, resp), s3);
    states, steps := [s, s1, s2, s3, s4, s5],
        [DoContact(k), DoHandleSync(req), DoOnSyncResp(k, resp), DoDecide(k), DoDelete(k)];
  }
}
