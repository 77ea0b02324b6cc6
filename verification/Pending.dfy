/**
 Buffered puts: records wait in the pending file and are merged later, ahead of
 schedule when the file is full.  What buffering, overflow and a replay after a
 crash leave unchanged, and exactly when they do not.
 */
module Pending {
  import opened Wrappers
  import opened Rows
  import opened Digest
  import opened Stamps

  /** Size in bytes above which a put no longer goes to the pending file. */
  const PENDING_CAP := 131072

  /** A database with its pending file. */
  datatype Buffer = Buffer(table: Table, pending: seq<Record>, size: nat)

  /** `_commit_puts(item_list)`: the extra records go first. */
  function Commit(b: Buffer, extra: seq<Record>): Buffer {
    Buffer(MergeItems(b.table, extra + b.pending), [], 0)
  }

  lemma NothingPending(t: Table)
    ensures Commit(Buffer(t, [], 0), []) == Buffer(t, [], 0)
  {
  }

  predicate Overflows(b: Buffer) {
    b.size > PENDING_CAP
  }

  /** `put_record`. */
  function Put(b: Buffer, rec: Record, entrySize: Record -> nat): Buffer {
    if Overflows(b) then Commit(b, [rec])
    else b.(pending := b.pending + [rec], size := b.size + entrySize(rec))
  }

  /** What happens to a database: a put, a commit before a read, a merge from a peer. */
  datatype Op = PutOp(rec: Record) | CommitOp | MergeOp(recs: seq<Record>)

  function Do(b: Buffer, op: Op, entrySize: Record -> nat): Buffer {
    match op
    case PutOp(rec) => Put(b, rec, entrySize)
    case CommitOp => Commit(b, [])
    case MergeOp(recs) => b.(table := MergeItems(b.table, recs))
  }

  function Run(b: Buffer, ops: seq<Op>, entrySize: Record -> nat): Buffer {
    if ops == [] then b else Do(Run(b, ops[..|ops| - 1], entrySize), ops[|ops| - 1], entrySize)
  }

  function RecordsOf(op: Op): seq<Record> {
    match op
    case PutOp(rec) => [rec]
    case CommitOp => []
    case MergeOp(recs) => recs
  }

  /** The records of a run in the order they arrived. */
  function Arrived(ops: seq<Op>): seq<Record> {
    if ops == [] then [] else Arrived(ops[..|ops| - 1]) + RecordsOf(ops[|ops| - 1])
  }

  // ------------------------------------------------------------------
  // Timestamps survive any buffering
  // ------------------------------------------------------------------

  /** The timestamps under n in the table and the pending file together. */
  function Known(b: Buffer, n: Name): Option<Stamp> {
    Newest(OfTable(b.table, n), OfRecords(b.pending, n))
  }

  lemma CommitKeepsStamps(b: Buffer, extra: seq<Record>, n: Name)
    requires Valid(b.table)
    ensures Valid(Commit(b, extra).table)
    ensures Known(Commit(b, extra), n) == Newest(Known(b, n), OfRecords(extra, n))
  {
    hide MergeItems, Newest;
    MergeItemsGrows(b.table, extra + b.pending);
    MergeItemsStamps(b.table, extra + b.pending, n);
    OfRecordsAppend(extra, b.pending, n);
    NewestAssociative(OfRecords(extra, n), OfRecords(b.pending, n), None);
    NewestAssociative(OfTable(b.table, n), OfRecords(b.pending, n), OfRecords(extra, n));
    NewestOfNone(OfTable(Commit(b, extra).table, n));
  }

  lemma NewestOfNone(a: Option<Stamp>)
    ensures Newest(a, None) == a
  {
  }

  lemma DoKeepsStamps(b: Buffer, op: Op, entrySize: Record -> nat, n: Name)
    requires Valid(b.table)
    ensures Valid(Do(b, op, entrySize).table)
    ensures Known(Do(b, op, entrySize), n) == Newest(Known(b, n), OfRecords(RecordsOf(op), n))
  {
    hide MergeItems, Newest, Commit;
    var mine, pend := OfTable(b.table, n), OfRecords(b.pending, n);
    match op
    case PutOp(rec) =>
      CommitKeepsStamps(b, [rec], n);
      OfRecordsAppend(b.pending, [rec], n);
      NewestAssociative(mine, pend, OfRecords([rec], n));
    case CommitOp =>
      CommitKeepsStamps(b, [], n);
    case MergeOp(recs) =>
      MergeItemsGrows(b.table, recs);
      MergeItemsStamps(b.table, recs, n);
      NewestAssociative(mine, OfRecords(recs, n), pend);
      NewestAssociative(mine, pend, OfRecords(recs, n));
      NewestAssociative(pend, OfRecords(recs, n), None);
  }

  lemma {:induction false} RunKeepsStamps(b: Buffer, ops: seq<Op>, entrySize: Record -> nat, n: Name)
    requires Valid(b.table)
    ensures Valid(Run(b, ops, entrySize).table)
    ensures Known(Run(b, ops, entrySize), n) == Newest(Known(b, n), OfRecords(Arrived(ops), n))
  {
    hide Known, Newest, OfRecords, Do;
    if ops == [] {
      NewestOfNone(Known(b, n));
      assert OfRecords([], n) == None by { NoRecords(n); }
    } else {
      var init, op := ops[..|ops| - 1], ops[|ops| - 1];
      RunKeepsStamps(b, init, entrySize, n);
      DoKeepsStamps(Run(b, init, entrySize), op, entrySize, n);
      OfRecordsAppend(Arrived(init), RecordsOf(op), n);
      NewestAssociative(Known(b, n), OfRecords(Arrived(init), n), OfRecords(RecordsOf(op), n));
    }
  }

  lemma NoRecords(n: Name)
    ensures OfRecords([], n) == None
  {
  }

  /** However puts, commits, overflows and merges interleave, a last commit leaves the
      timestamps that merging every record as it arrived would have left. */
  lemma BufferingKeepsStamps(b: Buffer, ops: seq<Op>, entrySize: Record -> nat)
    requires Valid(b.table) && b.pending == []
    ensures SameStamps(Commit(Run(b, ops, entrySize), []).table, MergeItems(b.table, Arrived(ops)))
  {
    var c := Run(b, ops, entrySize);
    forall n ensures OfTable(Commit(c, []).table, n) == OfTable(MergeItems(b.table, Arrived(ops)), n) {
      RunKeepsStamps(b, ops, entrySize, n);
      assert [] + c.pending == c.pending;
      MergeItemsStamps(c.table, c.pending, n);
      MergeItemsStamps(b.table, Arrived(ops), n);
    }
  }

  // ------------------------------------------------------------------
  // Without overflow buffering changes nothing
  // ------------------------------------------------------------------

  /** Only puts and commits, and no put meets a full pending file. */
  predicate Orderly(b: Buffer, ops: seq<Op>, entrySize: Record -> nat) {
    ops == [] ||
    (&& Orderly(b, ops[..|ops| - 1], entrySize)
     && !ops[|ops| - 1].MergeOp?
     && (ops[|ops| - 1].PutOp? ==> !Overflows(Run(b, ops[..|ops| - 1], entrySize))))
  }

  lemma {:induction false} BufferingIsExact(b: Buffer, ops: seq<Op>, entrySize: Record -> nat)
    requires Orderly(b, ops, entrySize)
    ensures Commit(Run(b, ops, entrySize), []).table == MergeItems(MergeItems(b.table, b.pending), Arrived(ops))
  {
    if ops == [] {
      assert [] + b.pending == b.pending;
    } else {
      var init, op := ops[..|ops| - 1], ops[|ops| - 1];
      var c := Run(b, init, entrySize);
      BufferingIsExact(b, init, entrySize);
      assert [] + c.pending == c.pending;
      var t := MergeItems(b.table, b.pending);
      if op.PutOp? {
        assert [] + (c.pending + [op.rec]) == c.pending + [op.rec];
        MergeItemsAppend(c.table, c.pending, [op.rec]);
        MergeItemsAppend(t, Arrived(init), [op.rec]);
      } else {
        assert Arrived(ops) == Arrived(init);
      }
    }
  }

  // ------------------------------------------------------------------
  // The other columns
  // ------------------------------------------------------------------

  /** The same row under every name, whatever the ROWIDs. */
  ghost predicate SameContents(t: Table, u: Table) {
    forall n :: Find(t, n) == Find(u, n)
  }

  /** The row under n after merging records into a prior one. */
  function Fold(prior: Option<Record>, recs: seq<Record>, n: Name): Option<Record> {
    if recs == [] then prior
    else
      var before := Fold(prior, recs[..|recs| - 1], n);
      if recs[|recs| - 1].name == n then Some(Resolve(before, recs[|recs| - 1])) else before
  }

  /** Merges under different names do not affect each other. */
  lemma {:induction false} FindMerged(t: Table, recs: seq<Record>, n: Name)
    requires Valid(t)
    ensures Find(MergeItems(t, recs), n) == Fold(Find(t, n), recs, n)
  {
    if recs != [] {
      var init, rec := recs[..|recs| - 1], recs[|recs| - 1];
      FindMerged(t, init, n);
      MergeItemsGrows(t, init);
      FindAfterMerge(MergeItems(t, init), rec, n);
    }
  }

  lemma FindAfterMerge(t: Table, rec: Record, n: Name)
    requires Valid(t)
    ensures Find(MergeOne(t, rec), n) == if rec.name == n then Some(Resolve(Find(t, n), rec)) else Find(t, n)
  {
    var u := MergeOne(t, rec);
    MergeOneGrows(t, rec);
    FindNone(t, n);
    FindNone(u, n);
    if n == rec.name {
      FindUnique(u, u.last);
    } else if i :| i in t.rows && t.rows[i].name == n {
      FindUnique(t, i);
      FindUnique(u, i);
    }
  }

  lemma {:induction false} FoldAppend(prior: Option<Record>, a: seq<Record>, b: seq<Record>, n: Name)
    ensures Fold(prior, a + b, n) == Fold(Fold(prior, a, n), b, n)
  {
    if b == [] {
      assert a + b == a;
    } else {
      var init := b[..|b| - 1];
      assert (a + b)[..|a + b| - 1] == a + init;
      FoldAppend(prior, a, init, n);
    }
  }

  /** The last record under n. */
  function Last(recs: seq<Record>, n: Name): Option<Record> {
    if recs == [] then None
    else if recs[|recs| - 1].name == n then Some(recs[|recs| - 1])
    else Last(recs[..|recs| - 1], n)
  }

  /** Exactly one record under n. */
  predicate Once(recs: seq<Record>, n: Name) {
    recs != [] &&
    if recs[|recs| - 1].name == n then Last(recs[..|recs| - 1], n).None? else Once(recs[..|recs| - 1], n)
  }

  /** Counts and policy come from the last record; the flag is recomputed unless there was nothing to merge with. */
  lemma {:induction false} FoldShape(prior: Option<Record>, recs: seq<Record>, n: Name)
    ensures Last(recs, n).None? ==> Fold(prior, recs, n) == prior
    ensures Last(recs, n).Some? ==>
            var f, l := Fold(prior, recs, n), Last(recs, n).value;
            && f.Some? && f.value.name == l.name == n
            && f.value.objects == l.objects && f.value.bytes == l.bytes && f.value.policy == l.policy
            && (prior.None? && Once(recs, n) ==> f.value == l)
            && (!(prior.None? && Once(recs, n)) ==>
                  f.value.deleted == IsTombstone(f.value.put, f.value.del, l.objects))
  {
    if recs != [] { FoldShape(prior, recs[..|recs| - 1], n); }
  }

  /** The record that meets a full pending file and the last one waiting under its name agree in the
      columns a merge takes from the later of the two. */
  predicate Harmless(pending: seq<Record>, rec: Record) {
    match Last(pending, rec.name)
    case None => true
    case Some(l) => l.objects == rec.objects && l.bytes == rec.bytes && l.policy == rec.policy
  }

  lemma OverflowRow(prior: Option<Record>, pending: seq<Record>, rec: Record)
    ensures Fold(prior, pending + [rec], rec.name) == Some(Resolve(Fold(prior, pending, rec.name), rec))
    ensures Fold(prior, [rec] + pending, rec.name) == Fold(Some(Resolve(prior, rec)), pending, rec.name)
  {
    FoldAppend(prior, pending, [rec], rec.name);
    FoldAppend(prior, [rec], pending, rec.name);
    assert [rec][..0] == [];
  }

  lemma OtherRow(prior: Option<Record>, pending: seq<Record>, rec: Record, n: Name)
    requires n != rec.name
    ensures Fold(prior, pending + [rec], n) == Fold(prior, [rec] + pending, n)
  {
    FoldAppend(prior, pending, [rec], n);
    FoldAppend(prior, [rec], pending, n);
    assert [rec][..0] == [];
  }

  /** A put that finds the pending file full is merged before the records that were waiting.  The
      contents are those of the order of arrival if and only if that is harmless. */
  lemma OverflowIsExactIff(t: Table, pending: seq<Record>, rec: Record)
    requires Valid(t)
    ensures SameContents(MergeItems(t, [rec] + pending), MergeItems(t, pending + [rec])) <==> Harmless(pending, rec)
  {
    var u, v := MergeItems(t, [rec] + pending), MergeItems(t, pending + [rec]);
    var prior := Find(t, rec.name);
    FindMerged(t, [rec] + pending, rec.name);
    FindMerged(t, pending + [rec], rec.name);
    OverflowRow(prior, pending, rec);
    FoldShape(Some(Resolve(prior, rec)), pending, rec.name);
    FoldShape(prior, pending, rec.name);
    MergeOrderIrrelevant(t, [rec], pending);
    assert OfTable(u, rec.name) == OfTable(v, rec.name);
    assert Find(u, rec.name) == Find(v, rec.name) <==> Harmless(pending, rec);
    forall n | n != rec.name ensures Find(u, n) == Find(v, n) {
      FindMerged(t, [rec] + pending, n);
      FindMerged(t, pending + [rec], n);
      OtherRow(Find(t, n), pending, rec, n);
    }
  }

  /** An update that meets a full pending file keeps its timestamp and loses its counts to an older one. */
  lemma OverflowKeepsStaleCounts(n: Name, entrySize: Record -> nat)
    ensures var older, newer := Record(n, 1, 0, 10, 100, false, 0), Record(n, 2, 0, 20, 200, false, 0);
            var b := Buffer(EMPTY, [older], PENDING_CAP + 1);
            Find(Put(b, newer, entrySize).table, n) == Some(Record(n, 2, 0, 10, 100, false, 0))
  {
    var older, newer := Record(n, 1, 0, 10, 100, false, 0), Record(n, 2, 0, 20, 200, false, 0);
    FindMerged(EMPTY, [newer] + [older], n);
    OverflowRow(None, [older], newer);
    assert [older][..0] == [];
  }

  // ------------------------------------------------------------------
  // A crash between the merge and the truncation of the pending file
  // ------------------------------------------------------------------

  /** A record that meets no other has the flag a merge would compute; `put_container` sees to that. */
  ghost predicate FlagsConsistent(t: Table, recs: seq<Record>) {
    forall n :: Find(t, n).None? && Once(recs, n) && Last(recs, n).Some? ==>
      var l := Last(recs, n).value;
      l.deleted == IsTombstone(l.put, l.del, l.objects)
  }

  /** Merging the same pending records again changes no row, if and only if the flags are consistent. */
  lemma ReplayKeepsContentsIff(t: Table, recs: seq<Record>)
    requires Valid(t)
    ensures SameContents(MergeItems(MergeItems(t, recs), recs), MergeItems(t, recs)) <==> FlagsConsistent(t, recs)
  {
    var u := MergeItems(t, recs);
    MergeItemsGrows(t, recs);
    forall n ensures Find(MergeItems(u, recs), n) == Find(u, n) <==>
                     (Find(t, n).None? && Once(recs, n) && Last(recs, n).Some? ==>
                        var l := Last(recs, n).value;
                        l.deleted == IsTombstone(l.put, l.del, l.objects))
    {
      FindMerged(t, recs, n);
      FindMerged(u, recs, n);
      FoldShape(Find(t, n), recs, n);
      FoldShape(Find(u, n), recs, n);
      ReplayStamps(t, recs, n);
    }
  }

  lemma ReplayStamps(t: Table, recs: seq<Record>, n: Name)
    requires Valid(t)
    ensures OfTable(MergeItems(MergeItems(t, recs), recs), n) == OfTable(MergeItems(t, recs), n)
  {
    MergeItemsGrows(t, recs);
    MergeItemsStamps(t, recs, n);
    MergeItemsStamps(MergeItems(t, recs), recs, n);
  }

  lemma SameContentsKeys(t: Table, u: Table, x: HashKey)
    requires Valid(t) && Valid(u) && SameContents(t, u) && x in Contents(t.rows)
    ensures x in Contents(u.rows)
  {
    var i :| i in t.rows && x == KeyOf(t.rows[i]);
    FindUnique(t, i);
    FindNone(u, t.rows[i].name);
    var j :| j in u.rows && u.rows[j].name == t.rows[i].name;
    FindUnique(u, j);
  }

  /** A replay therefore leaves the account's hash as it was. */
  lemma ReplayKeepsHash(h: RowHash, t: Table, recs: seq<Record>)
    requires Valid(t) && FlagsConsistent(t, recs)
    ensures TableHash(h, MergeItems(MergeItems(t, recs), recs)) == TableHash(h, MergeItems(t, recs))
  {
    var u := MergeItems(t, recs);
    var v := MergeItems(u, recs);
    MergeItemsGrows(t, recs);
    MergeItemsGrows(u, recs);
    ReplayKeepsContentsIff(t, recs);
    forall x ensures x in Contents(u.rows) <==> x in Contents(v.rows) {
      if x in Contents(u.rows) { SameContentsKeys(u, v, x); }
      if x in Contents(v.rows) { SameContentsKeys(v, u, x); }
    }
    HashIgnoresHistory(h, u, v);
  }

  lemma FindAfterRemove(t: Table, i: nat, n: Name)
    requires Valid(t) && i in t.rows
    ensures var u := Table(t.rows - {i}, t.last);
            Valid(u) && Find(u, n) == if n == t.rows[i].name then None else Find(t, n)
  {
    var u := Table(t.rows - {i}, t.last);
    FindNone(t, n);
    FindNone(u, n);
    if k :| k in u.rows && u.rows[k].name == n {
      FindUnique(t, k);
      FindUnique(u, k);
    } else {
      assert forall k :: k in t.rows && k != i ==> k in u.rows && u.rows[k] == t.rows[k];
    }
  }

  lemma Counterpart(t: Table, u: Table, i: nat) returns (j: nat)
    requires Valid(t) && Valid(u) && SameContents(t, u) && i in t.rows
    ensures j in u.rows && u.rows[j] == t.rows[i]
  {
    FindUnique(t, i);
    FindNone(u, t.rows[i].name);
    j :| j in u.rows && u.rows[j].name == t.rows[i].name;
    FindUnique(u, j);
  }

  lemma {:induction false} SumOfNothing(policy: Option<int>, rows: RowMap, k: nat)
    requires rows == map[]
    ensures SumUpTo(policy, rows, k) == ZERO
  {
    if k > 0 { SumOfNothing(policy, rows, k - 1); }
  }

  lemma NoCounterpart(t: Table, u: Table)
    requires Valid(t) && Valid(u) && SameContents(t, u) && t.rows == map[]
    ensures u.rows == map[]
  {
    if j :| j in u.rows {
      var i := Counterpart(u, t, j);
      assert false;
    }
  }

  /** Totals depend on the contents alone. */
  lemma {:induction false} SumIgnoresHistory(policy: Option<int>, t: Table, u: Table)
    requires Valid(t) && Valid(u) && SameContents(t, u)
    ensures Sum(policy, t) == Sum(policy, u)
    decreases |t.rows|
  {
    hide Find;
    if i :| i in t.rows {
      var j := Counterpart(t, u, i);
      var t', u' := Table(t.rows - {i}, t.last), Table(u.rows - {j}, u.last);
      forall n ensures Find(t', n) == Find(u', n) {
        FindAfterRemove(t, i, n);
        FindAfterRemove(u, j, n);
      }
      FindAfterRemove(t, i, []);
      FindAfterRemove(u, j, []);
      SumIgnoresHistory(policy, t', u');
      SumRemove(policy, t.rows, i, t.last);
      SumRemove(policy, u.rows, j, u.last);
    } else {
      assert t.rows == map[];
      NoCounterpart(t, u);
      SumOfNothing(policy, t.rows, t.last);
      SumOfNothing(policy, u.rows, u.last);
    }
  }

  /** A replay therefore leaves the totals of the account and of each policy as they were. */
  lemma ReplayKeepsTotals(policy: Option<int>, t: Table, recs: seq<Record>)
    requires Valid(t) && FlagsConsistent(t, recs)
    ensures Sum(policy, MergeItems(MergeItems(t, recs), recs)) == Sum(policy, MergeItems(t, recs))
  {
    hide FlagsConsistent, SameContents, MergeItems;
    MergeItemsGrows(t, recs);
    MergeItemsGrows(MergeItems(t, recs), recs);
    ReplayKeepsContentsIff(t, recs);
    SumIgnoresHistory(policy, MergeItems(MergeItems(t, recs), recs), MergeItems(t, recs));
  }
}
