/**
 A run from the empty system to a state with a sync point that does not hold. Node 0 pushes two rows to
 node 1 one at a time; before the second arrives, a file copied earlier is renamed over the database of
 node 1, and the second row is merged into that.
 */
module UnsoundRun {
  import opened Rows
  import opened Digest
  import opened SyncTables
  import opened NodeOrder
  import opened Replication
  import opened ReplicationRuns

  const A: DbId := 10
  const B: DbId := 11
  const C: DbId := 12

  const ONE := Record([1], 1, 0, 0, 0, false, 0)
  const TWO := Record([2], 1, 0, 0, 0, false, 0)
  const OTHER := Record([3], 1, 0, 0, 0, false, 0)

  const PUSHED := Table(map[1 := ONE, 2 := TWO], 2)
  const PEER := Table(map[1 := OTHER], 1)
  const PEER_WITH_ONE := Table(map[1 := OTHER, 2 := ONE], 2)
  const JUST_TWO := Table(map[1 := TWO], 1)

  const HASH: RowHash := (k: HashKey) => if k.name == [1] then 1 else if k.name == [2] then 2 else 4

  const CFG := Config([0, 1], 1, 5, 0, HASH, {EMPTY, PUSHED, PEER, PEER_WITH_ONE, JUST_TWO})

  const COPY := Db(EMPTY, map[], map[])
  const TESTED := RsyncTested(1, A, COPY)
  const BATCH_ONE := MergeItemsReq(1, B, A, -1, [Item(1, ONE)])
  const BATCH_TWO := MergeItemsReq(1, B, A, 1, [Item(2, TWO)])

  // ------------------------------------------------------------------
  // What the tables are
  // ------------------------------------------------------------------

  lemma Hashes()
    ensures TableHash(HASH, EMPTY) == 0 && TableHash(HASH, PUSHED) == 3 && TableHash(HASH, PEER) == 4
    ensures TableHash(HASH, PEER_WITH_ONE) == 5 && TableHash(HASH, JUST_TWO) == 2
  {
    assert HashUpTo(HASH, PUSHED.rows, 0) == 0 && HashUpTo(HASH, PUSHED.rows, 1) == 1;
    assert HashUpTo(HASH, PEER.rows, 0) == 0;
    assert HashUpTo(HASH, PEER_WITH_ONE.rows, 0) == 0 && HashUpTo(HASH, PEER_WITH_ONE.rows, 1) == 4;
    assert HashUpTo(HASH, JUST_TWO.rows, 0) == 0;
  }

  /** The failure is not one of the hash. */
  lemma ConfigIsValid()
    ensures ValidConfig(CFG)
  {
    hide TableHash, Contents, Told;
    forall t, u | t in CFG.tables && u in CFG.tables && TableHash(CFG.rowHash, t) == TableHash(CFG.rowHash, u)
      ensures Contents(t.rows) == Contents(u.rows)
    {
      AllTold(t);
      AllTold(u);
      ToldApart(t, u);
    }
  }

  /** The table with a hash, of five whose hashes are 0, 3, 4, 5 and 2. */
  lemma HashTells(h: RowHash, a: Table, b: Table, c: Table, d: Table, e: Table, t: Table)
    requires TableHash(h, a) == 0 && TableHash(h, b) == 3 && TableHash(h, c) == 4
    requires TableHash(h, d) == 5 && TableHash(h, e) == 2 && t in {a, b, c, d, e}
    ensures var x := TableHash(h, t);
            t == if x == 0 then a else if x == 3 then b else if x == 4 then c else if x == 5 then d else e
  {
    hide TableHash;
  }

  /** The table with a hash: the hashes of the five differ. */
  ghost predicate Told(t: Table) {
    var x := TableHash(HASH, t);
    t == if x == 0 then EMPTY else if x == 3 then PUSHED else if x == 4 then PEER
         else if x == 5 then PEER_WITH_ONE else JUST_TWO
  }

  lemma AllTold(t: Table)
    requires t in CFG.tables
    ensures Told(t)
  {
    hide TableHash;
    Hashes();
    HashTells(HASH, EMPTY, PUSHED, PEER, PEER_WITH_ONE, JUST_TWO, t);
  }

  lemma ToldApart(t: Table, u: Table)
    requires Told(t) && Told(u) && TableHash(HASH, t) == TableHash(HASH, u)
    ensures t == u
  {
    hide TableHash;
  }

  lemma Merges()
    ensures MergeItems(EMPTY, [ONE, TWO]) == PUSHED && MergeItems(EMPTY, [OTHER]) == PEER
    ensures MergeItems(PEER, Records([Item(1, ONE)])) == PEER_WITH_ONE
    ensures MergeItems(EMPTY, Records([Item(2, TWO)])) == JUST_TWO
  {
    MergeOnto(EMPTY, ONE);
    assert [ONE, TWO][..1] == [ONE];
    assert MergeOne(MergeOne(EMPTY, ONE), TWO).rows == PUSHED.rows;
    MergeOnto(EMPTY, OTHER);
    assert MergeOne(EMPTY, OTHER).rows == PEER.rows;
    assert Records([Item(1, ONE)]) == [ONE] && Records([Item(2, TWO)]) == [TWO];
    MergeOnto(PEER, ONE);
    assert Find(PEER, ONE.name).None? && MergeOne(PEER, ONE).rows == PEER_WITH_ONE.rows;
    MergeOnto(EMPTY, TWO);
    assert MergeOne(EMPTY, TWO).rows == JUST_TWO.rows;
  }

  lemma MergeOnto(t: Table, rec: Record)
    ensures MergeItems(t, [rec]) == MergeOne(t, rec)
  {
    assert [rec][..0] == [];
  }

  lemma Batches()
    ensures ItemsSince(PUSHED, -1, 1) == [Item(1, ONE)] && ItemsSince(PUSHED, 1, 1) == [Item(2, TWO)]
  {
    assert From(PUSHED, 3) == [];
    assert From(PUSHED, 2) == [Item(2, TWO)];
    assert From(PUSHED, 1) == [Item(1, ONE), Item(2, TWO)];
  }

  // ------------------------------------------------------------------
  // States on the way
  // ------------------------------------------------------------------

  ghost predicate Path(states: seq<System>, steps: seq<Step>, s: System) {
    IsRun(CFG, states, steps) && states[|steps|] == s
  }

  ghost predicate Reached(s: System) {
    exists states, steps :: Path(states, steps, s)
  }

  lemma Begin()
    ensures Reached(INITIAL)
  {
    assert Path([INITIAL], [], INITIAL);
  }

  lemma Go(s: System, step: Step, s': System)
    requires Reached(s) && Next(CFG, s, step, s') && WithinTables(CFG, s')
    ensures Reached(s')
  {
    hide Next, WithinTables;
    var states, steps :| Path(states, steps, s);
    var more, further := states + [s'], steps + [step];
    forall i | 0 <= i < |further| ensures Next(CFG, more[i], further[i], more[i + 1]) {
      assert i < |steps| ==> more[i] == states[i] && more[i + 1] == states[i + 1];
    }
    assert Path(more, further, s');
  }

  /** Only databases in these places, and a copied file about to be renamed. */
  ghost predicate Holds(s: System, at: map<Node, DbId>, dbs: map<DbId, Db>) {
    s.at == at && s.dbs == dbs && TESTED in s.msgs && C !in s.ids
  }

  lemma Targets()
    ensures ReplNodes(CFG.primaries, 0) == [1]
  {
    assert IndexOf(CFG.primaries, 0) == 0;
  }

  /** Node 0 gets a database and asks node 1 about its own. */
  lemma PassBegins() returns (s: System)
    ensures Reached(s) && s.at == map[0 := A] && s.dbs == map[A := COPY] && s.ids == {A}
    ensures SyncReq(1, InfoOf(CFG, A, EMPTY)) in s.msgs
    ensures s.passes == map[0 := Pass(0, InfoOf(CFG, A, EMPTY), [1], [], AwaitSync)]
  {
    hide Reached, ReplNodes, TableHash, MergeItems;
    Begin();
    Targets();
    var s1 := Create(INITIAL, 0, A);
    Go(INITIAL, DoCreate(0, A), s1);
    var s2 := Start(CFG, s1, 0, 0);
    Go(s1, DoStart(0, 0), s2);
    s := Contact(s2, 0);
    Go(s2, DoContact(0), s);
  }

  /** There is none, so a copy is on its way there. */
  lemma CopyIsOnItsWay() returns (s: System)
    ensures Reached(s) && Holds(s, map[0 := A], map[A := COPY]) && B !in s.ids && 1 !in s.passes
  {
    hide Reached, TableHash, MergeItems;
    var s0 := PassBegins();
    var req := SyncReq(1, InfoOf(CFG, A, EMPTY));
    var s1 := HandleSync(CFG, s0, req);
    Go(s0, DoHandleSync(req), s1);
    var s2 := OnMissing(s1, 0);
    Go(s1, DoOnMissing(0), s2);
    s := TestRsync(s2, RsyncReq(1, A, COPY));
    Go(s2, DoTestRsync(RsyncReq(1, A, COPY)), s);
  }

  /** A database appears at node 1 after all, and records at both. */
  lemma RecordsArrive() returns (s: System)
    ensures Reached(s) && 1 !in s.passes
    ensures Holds(s, map[0 := A, 1 := B], map[A := COPY.(table := PUSHED), B := COPY.(table := PEER)])
  {
    hide Reached, MergeItems;
    var s0 := CopyIsOnItsWay();
    Merges();
    var s1 := Create(s0, 1, B);
    Go(s0, DoCreate(1, B), s1);
    var s2 := LocalMerge(s1, 0, [ONE, TWO]);
    Go(s1, DoLocalMerge(0, [ONE, TWO]), s2);
    s := LocalMerge(s2, 1, [OTHER]);
    Go(s2, DoLocalMerge(1, [OTHER]), s);
  }

  ghost predicate Pushing(s: System, peer: Db, phase: Phase) {
    && Holds(s, map[0 := A, 1 := B], map[A := COPY.(table := PUSHED), B := peer])
    && 1 in s.passes && s.passes[1] == Pass(0, InfoOf(CFG, A, PUSHED), [1], [], phase)
  }

  lemma SecondPassBegins() returns (s: System)
    ensures Reached(s) && Pushing(s, COPY.(table := PEER), AwaitSync)
    ensures SyncReq(1, InfoOf(CFG, A, PUSHED)) in s.msgs
  {
    hide Reached, ReplNodes, TableHash, MergeItems;
    var s0 := RecordsArrive();
    Targets();
    var s1 := Start(CFG, s0, 1, 0);
    Go(s0, DoStart(1, 0), s1);
    s := Contact(s1, 1);
    Go(s1, DoContact(1), s);
  }

  /** Node 0 finds node 1 behind and starts to push rows. */
  lemma PushBegins() returns (s: System)
    ensures Reached(s) && Pushing(s, COPY.(table := PEER), Chosen(B, -1))
  {
    hide Reached, TableHash, MergeItems;
    var s0 := SecondPassBegins();
    Hashes();
    var info, rinfo := InfoOf(CFG, A, PUSHED), InfoOf(CFG, B, PEER);
    var req, resp := SyncReq(1, info), SyncResp(1, A, rinfo, -1);
    var s1 := HandleSync(CFG, s0, req);
    Go(s0, DoHandleSync(req), s1);
    assert ChooseMode(CFG, info, rinfo, -1) == Usync;
    s := OnSyncResp(CFG, s1, 1, resp);
    Go(s1, DoOnSyncResp(1, resp), s);
  }

  lemma PointsAreCaptured() returns (s: System)
    ensures Reached(s) && Pushing(s, COPY.(table := PEER), Ready(B, -1, map[], 0))
  {
    hide Reached, TableHash, MergeItems;
    var s0 := PushBegins();
    s := Capture(s0, 1);
    Go(s0, DoCapture(1), s);
  }

  lemma FirstBatch() returns (s: System)
    ensures Reached(s) && Pushing(s, COPY.(table := PEER), AwaitItems(B, 1, map[], 1)) && BATCH_ONE in s.msgs
  {
    hide Reached, ItemsSince, TableHash, MergeItems;
    var s0 := PointsAreCaptured();
    Batches();
    s := Query(CFG, s0, 1);
    Go(s0, DoQuery(1), s);
  }

  lemma FirstBatchArrives() returns (s: System)
    ensures Reached(s) && Pushing(s, Db(PEER_WITH_ONE, map[A := 1], map[]), AwaitItems(B, 1, map[], 1))
    ensures MergeItemsAck(1, B, A, 1) in s.msgs
  {
    hide Reached, MergeItems, TopRow, Records, TableHash;
    var s0 := FirstBatch();
    Merges();
    Tops();
    s := HandleItems(s0, BATCH_ONE);
    Go(s0, DoHandleItems(BATCH_ONE), s);
  }

  lemma Tops()
    ensures TopRow([Item(1, ONE)]) == 1 && TopRow([Item(2, TWO)]) == 2
  {
    assert [Item(1, ONE)][..0] == [] && [Item(2, TWO)][..0] == [];
  }

  lemma FirstBatchIsDone() returns (s: System)
    ensures Reached(s) && Pushing(s, Db(PEER_WITH_ONE, map[A := 1], map[]), Ready(B, 1, map[], 1))
  {
    hide Reached, TableHash, MergeItems;
    var s0 := FirstBatchArrives();
    s := OnItemsAck(s0, 1);
    Go(s0, DoOnItemsAck(1, MergeItemsAck(1, B, A, 1)), s);
  }

  lemma SecondBatch() returns (s: System)
    ensures Reached(s) && BATCH_TWO in s.msgs
    ensures Pushing(s, Db(PEER_WITH_ONE, map[A := 1], map[]), AwaitItems(B, 2, map[], 2))
  {
    hide Reached, ItemsSince, TableHash, MergeItems;
    var s0 := FirstBatchIsDone();
    Batches();
    s := Query(CFG, s0, 1);
    Go(s0, DoQuery(1), s);
  }

  /** The copy takes the place of the database the second batch was meant for. */
  lemma CopyTakesOver() returns (s: System)
    ensures Reached(s) && BATCH_TWO in s.msgs && s.at == map[0 := A, 1 := C]
    ensures s.dbs == map[A := COPY.(table := PUSHED), C := Db(EMPTY, map[A := -1], map[])]
  {
    hide Reached, TableHash, MergeItems, LastRow;
    var s0 := SecondBatch();
    assert LastRow(EMPTY) == -1 by { EmptyLast(); }
    s := Rename(s0, TESTED, C);
    Go(s0, DoRename(TESTED, C), s);
  }

  lemma EmptyLast()
    ensures LastRow(EMPTY) == -1
  {
  }

  /** And gets it. */
  lemma PointIsUnsound() returns (s: System)
    ensures Reached(s) && C in s.dbs && A in s.dbs && s.dbs[C] == Db(JUST_TWO, map[A := 2], map[])
    ensures s.dbs[A].table == PUSHED
  {
    hide Reached, MergeItems, TopRow, Records;
    var s0 := CopyTakesOver();
    Merges();
    Tops();
    s := HandleItems(s0, BATCH_TWO);
    Go(s0, DoHandleItems(BATCH_TWO), s);
  }

  /** A run of a valid configuration that ends with a sync point above a row the receiver lacks. */
  lemma SyncPointsCanBeUnsound() returns (states: seq<System>, steps: seq<Step>)
    ensures ValidConfig(CFG) && IsRun(CFG, states, steps) && !PointsSound(states[|steps|])
  {
    ConfigIsValid();
    var s := PointIsUnsound();
    states, steps :| Path(states, steps, s);
    assert A in s.dbs[C].incoming && 1 in s.dbs[A].table.rows && 1 <= s.dbs[C].incoming[A];
    assert !Covers(s.dbs[C].table.rows, s.dbs[A].table.rows[1]);
  }
}
