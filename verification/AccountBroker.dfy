/**
 The account database: the container table, the statistics its triggers keep, the
 sync points, and the pending file that buffers puts.
 */
module AccountBroker {
  import opened Wrappers
  import opened Rows
  import opened Digest
  import opened SyncTables
  import opened Pending
  import opened Metadata

  class Broker {
    const rowHash: RowHash
    const entrySize: Record -> nat
    const skipCommits: bool
    var id: DbId
    var table: Table
    var stat: Stat
    var hash: Hash
    var policies: map<int, Stat>
    var incoming: SyncTable
    var outgoing: SyncTable
    /** The entries of the pending file; None is one that does not decode. */
    var pending: seq<Option<Record>>
    var pendingSize: nat
    var metadata: Metadata

    /** The statistics are those of the rows, per policy, over all policies and in total. */
    ghost predicate Valid()
      reads this
    {
      && Rows.Valid(table)
      && stat == Sum(None, table)
      && hash == TableHash(rowHash, table)
      && PoliciesOk(policies, table)
      && SumOfPolicies(policies) == stat
    }

    constructor (id: DbId, rowHash: RowHash, entrySize: Record -> nat, skipCommits: bool)
      ensures Valid() && this.rowHash == rowHash && this.entrySize == entrySize && this.skipCommits == skipCommits
      ensures this.id == id && table == EMPTY && incoming == outgoing == map[]
      ensures pending == [] && pendingSize == 0 && metadata == map[]
    {
      this.id := id;
      this.rowHash, this.entrySize, this.skipCommits := rowHash, entrySize, skipCommits;
      table, stat, hash, policies := EMPTY, ZERO, 0, map[];
      incoming, outgoing, pending, pendingSize, metadata := map[], map[], [], 0, map[];
    }

    /** Triggers container_insert and container_insert_ps. */
    method OnInsert(rec: Record)
      modifies `stat, `hash, `policies
      ensures stat == old(stat).Plus(Weight(rec))
      ensures hash == Chexor(old(hash), rowHash(KeyOf(rec)))
      ensures policies == Credit(old(policies), rec)
    {
      stat := stat.Plus(Weight(rec));
      hash := Chexor(hash, rowHash(KeyOf(rec)));
      if rec.policy !in policies {
        policies := policies[rec.policy := ZERO];
      }
      policies := policies[rec.policy := policies[rec.policy].Plus(Weight(rec))];
    }

    /** Triggers container_delete and container_delete_ps. */
    method OnDelete(rec: Record)
      modifies `stat, `hash, `policies
      ensures stat == old(stat).Minus(Weight(rec))
      ensures hash == Chexor(old(hash), rowHash(KeyOf(rec)))
      ensures policies == Debit(old(policies), rec)
    {
      stat := stat.Minus(Weight(rec));
      hash := Chexor(hash, rowHash(KeyOf(rec)));
      if rec.policy in policies {
        policies := policies[rec.policy := policies[rec.policy].Minus(Weight(rec))];
      }
    }

    /** INSERT INTO container: the row gets the next ROWID. */
    method Insert(rec: Record)
      requires Valid() && Find(table, rec.name).None?
      modifies `table, `stat, `hash, `policies
      ensures Valid() && table == Table(old(table).rows[old(table).last + 1 := rec], old(table).last + 1)
    {
      hide PoliciesOk, SumOfPolicies, Sum, TableHash, Credit;
      InsertKeepsStatistics(table, policies, rowHash, rec);
      FindNone(table, rec.name);
      table := Table(table.rows[table.last + 1 := rec], table.last + 1);
      OnInsert(rec);
    }

    /** DELETE FROM container WHERE ROWID IN ids. */
    method Delete(ids: set<nat>)
      requires Valid() && ids <= table.rows.Keys
      modifies `table, `stat, `hash, `policies
      ensures Valid() && table == Table(old(table).rows - ids, old(table).last)
    {
      hide Rows.Valid, PoliciesOk, SumOfPolicies, Sum, TableHash, Debit;
      var todo := ids;
      while todo != {}
        invariant todo <= ids && Valid() && table == Table(old(table).rows - (ids - todo), old(table).last)
        decreases todo
      {
        var i :| i in todo;
        var rec := table.rows[i];
        DeleteKeepsStatistics(table, policies, rowHash, i);
        assert table.rows - {i} == old(table).rows - (ids - (todo - {i}));
        table := Table(table.rows - {i}, table.last);
        OnDelete(rec);
        todo := todo - {i};
      }
      assert ids - todo == ids;
    }

    /** One iteration of `merge_items`: look the name up, delete its row, insert the outcome. */
    method MergeRecord(rec: Record)
      requires Valid()
      modifies `table, `stat, `hash, `policies
      ensures Valid() && table == MergeOne(old(table), rec)
    {
      hide MergeOne, PoliciesOk, SumOfPolicies, Sum, TableHash;
      MergeStep(table, rec);
      var record := Resolve(Find(table, rec.name), rec);
      Delete(RowsNamed(table, rec.name));
      Insert(record);
    }

    /** The loop of `merge_items`, and the sync point it records for a source. */
    method MergeItems(items: seq<Item>, source: Option<DbId>)
      requires Valid()
      modifies `table, `stat, `hash, `policies, `incoming
      ensures Valid() && table == Rows.MergeItems(old(table), Records(items))
      ensures source.None? ==> incoming == old(incoming)
      ensures source.Some? ==> incoming == MergeSync(old(incoming), source.value, TopRow(items))
    {
      hide MergeOne, Rows.MergeItems, Records, TopRow, Rows.Valid, PoliciesOk, SumOfPolicies, Sum, TableHash;
      var maxRowid := -1;
      var k := 0;
      MergedNone(table, items);
      while k < |items|
        invariant 0 <= k <= |items| && Valid() && incoming == old(incoming)
        invariant table == Rows.MergeItems(old(table), Records(items[..k]))
        invariant source.Some? ==> maxRowid == TopRow(items[..k])
      {
        MergedOneMore(old(table), items, k);
        MergeRecord(items[k].rec);
        if source.Some? {
          maxRowid := Max(maxRowid, items[k].rowid);
        }
        k := k + 1;
      }
      assert items[..k] == items;
      if source.Some? {
        incoming := MergeSync(incoming, source.value, maxRowid);
      }
    }

    function State(): Buffer
      reads this
    {
      Buffer(table, Decoded(pending), pendingSize)
    }

    /**
     `_commit_puts`: an entry that does not decode is skipped and goes with the file. False stands for
     the error raised when there are records to commit and commits are off.
     */
    method CommitPuts(extra: seq<Record>) returns (ok: bool)
      requires Valid()
      modifies `table, `stat, `hash, `policies, `incoming, `pending, `pendingSize
      ensures incoming == old(incoming) && Valid()
      ensures ok == (!skipCommits || extra == [])
      ensures State() == if skipCommits then old(State()) else Commit(old(State()), extra)
    {
      hide Rows.MergeItems, Rows.Valid, PoliciesOk, SumOfPolicies, Sum, TableHash;
      if skipCommits {
        return extra == [];
      }
      var recs := extra;
      var k := 0;
      assert pending[..0] == [] && extra + Decoded([]) == extra;
      while k < |pending|
        invariant 0 <= k <= |pending| && recs == extra + Decoded(pending[..k])
        invariant Valid() && incoming == old(incoming) && table == old(table) && pending == old(pending)
      {
        assert pending[..k + 1][..k] == pending[..k];
        if pending[k].Some? {
          recs := recs + [pending[k].value];
        }
        k := k + 1;
      }
      assert pending[..k] == pending;
      var items := Unsourced(recs);
      assert Records(items) == recs;
      MergeItems(items, None);
      pending, pendingSize := [], 0;
      return true;
    }

    /** `get_items_since`: pending puts are committed first. */
    method GetItemsSince(start: int, count: nat) returns (items: seq<Item>)
      requires Valid()
      modifies `table, `stat, `hash, `policies, `incoming, `pending, `pendingSize
      ensures incoming == old(incoming) && Valid() && items == ItemsSince(table, start, count)
      ensures State() == if skipCommits then old(State()) else Commit(old(State()), [])
    {
      hide Commit, ItemsSince, PoliciesOk, SumOfPolicies, Sum, TableHash;
      var _ := CommitPuts([]);
      items := ItemsSince(table, start, count);
    }

    /** `merge_syncs`: insert each point, or raise the one that is there. */
    method MergePoints(points: SyncTable, isIncoming: bool)
      modifies `incoming, `outgoing
      ensures incoming == if isIncoming then MergeSyncs(old(incoming), points) else old(incoming)
      ensures outgoing == if isIncoming then old(outgoing) else MergeSyncs(old(outgoing), points)
    {
      var todo := points.Keys;
      hide MergeSyncs, MergeSync;
      ghost var before := if isIncoming then incoming else outgoing;
      MergeSyncsStart(before, points);
      var table := if isIncoming then incoming else outgoing;
      while todo != {}
        invariant todo <= points.Keys && incoming == old(incoming) && outgoing == old(outgoing)
        invariant table == MergeSyncs(before, points - todo)
        decreases todo
      {
        var t :| t in todo;
        MergeSyncsStep(before, points, todo, t);
        table := MergeSync(table, t, points[t]);
        todo := todo - {t};
      }
      if isIncoming {
        incoming := table;
      } else {
        outgoing := table;
      }
    }

    /** `update_metadata`. */
    method UpdateMetadata(updates: Metadata)
      modifies `metadata
      ensures metadata == Update(old(metadata), updates)
    {
      RedundantIffUnchanged(metadata, updates);
      if updates.Keys <= metadata.Keys {
        var todo, newer := updates.Keys, false;
        while todo != {} && !newer
          invariant todo <= updates.Keys && metadata == old(metadata)
          invariant !newer ==> forall k :: k in updates.Keys - todo ==> updates[k].timestamp <= metadata[k].timestamp
          decreases todo
        {
          var k :| k in todo;
          newer := updates[k].timestamp > metadata[k].timestamp;
          todo := todo - {k};
        }
        if !newer {
          return;
        }
      }
      var todo, md := updates.Keys, metadata;
      UpdateStart(md, updates);
      while todo != {}
        invariant todo <= updates.Keys && metadata == old(metadata)
        invariant md == Update(old(metadata), updates - todo)
        decreases todo
      {
        var k :| k in todo;
        UpdateStep(old(metadata), updates, todo, k);
        if k !in md || updates[k].timestamp > md[k].timestamp {
          md := md[k := updates[k]];
        }
        todo := todo - {k};
      }
      metadata := md;
    }

    /** `newid`: a new id, and the highest ROWID as the sync point of the database this one was copied from. */
    method NewId(newId: DbId, remote: DbId)
      modifies `id, `incoming
      ensures id == newId && incoming == old(incoming)[remote := LastRow(table)]
    {
      id := newId;
      incoming := incoming[remote := LastRow(table)];
    }

    /** `put_record`. */
    method PutRecord(rec: Record) returns (ok: bool)
      requires Valid()
      modifies `table, `stat, `hash, `policies, `incoming, `pending, `pendingSize
      ensures incoming == old(incoming) && Valid()
      ensures ok == !skipCommits
      ensures State() == if ok then Put(old(State()), rec, entrySize) else old(State())
    {
      hide Rows.MergeItems, Rows.Valid, PoliciesOk, SumOfPolicies, Sum, TableHash;
      if skipCommits {
        return false;
      }
      if pendingSize > PENDING_CAP {
        ok := CommitPuts([rec]);
      } else {
        assert (pending + [Some(rec)])[..|pending|] == pending;
        pending, pendingSize := pending + [Some(rec)], pendingSize + entrySize(rec);
        ok := true;
      }
    }

    /** `put_container`: a container with no objects deleted after it was put is a tombstone. */
    method PutContainer(name: Name, put: Timestamp, del: Timestamp, objects: int, bytes: int, policy: int)
      returns (ok: bool)
      requires Valid()
      modifies `table, `stat, `hash, `policies, `incoming, `pending, `pendingSize
      ensures incoming == old(incoming) && Valid()
      ensures ok == !skipCommits
      ensures var rec := Record(name, put, del, objects, bytes, IsTombstone(put, del, objects), policy);
              State() == if ok then Put(old(State()), rec, entrySize) else old(State())
    {
      hide Put, Rows.Valid, PoliciesOk, SumOfPolicies, Sum, TableHash;
      var deleted := del > put && objects == 0;
      ok := PutRecord(Record(name, put, del, objects, bytes, deleted, policy));
    }
  }

  lemma UpdateStart(md: Metadata, updates: Metadata)
    ensures Update(md, updates - updates.Keys) == md && updates - {} == updates
  {
  }

  lemma UpdateStep(md: Metadata, updates: Metadata, todo: set<string>, k: string)
    requires k in todo && todo <= updates.Keys
    ensures var u := Update(md, updates - todo);
            Update(md, updates - (todo - {k})) ==
            if k !in u || updates[k].timestamp > u[k].timestamp then u[k := updates[k]] else u
  {
  }

  lemma MergeSyncsStart(table: SyncTable, points: SyncTable)
    ensures MergeSyncs(table, points - points.Keys) == table && points - {} == points
  {
    assert points - points.Keys == map[];
  }

  lemma MergeSyncsStep(table: SyncTable, points: SyncTable, todo: set<DbId>, t: DbId)
    requires t in todo && todo <= points.Keys
    ensures MergeSyncs(table, points - (todo - {t})) == MergeSync(MergeSyncs(table, points - todo), t, points[t])
  {
  }

  /** The records that `_commit_puts` reads from the pending file. */
  function Decoded(entries: seq<Option<Record>>): seq<Record> {
    if entries == [] then []
    else Decoded(entries[..|entries| - 1]) + if entries[|entries| - 1].Some? then [entries[|entries| - 1].value] else []
  }

  /** Records as `_commit_puts` hands them to `merge_items`: without ROWIDs of a source. */
  function Unsourced(recs: seq<Record>): (items: seq<Item>)
    ensures |items| == |recs| && forall i :: 0 <= i < |recs| ==> items[i].rec == recs[i]
  {
    seq(|recs|, i requires 0 <= i < |recs| => Item(0, recs[i]))
  }

  lemma MergedNone(t: Table, items: seq<Item>)
    ensures Rows.MergeItems(t, Records(items[..0])) == t && TopRow(items[..0]) == -1
  {
  }

  lemma MergedOneMore(t: Table, items: seq<Item>, k: nat)
    requires k < |items|
    ensures Rows.MergeItems(t, Records(items[..k + 1])) ==
            MergeOne(Rows.MergeItems(t, Records(items[..k])), items[k].rec)
    ensures TopRow(items[..k + 1]) == Max(TopRow(items[..k]), items[k].rowid)
  {
    assert Records(items[..k + 1])[..k] == Records(items[..k]);
    assert items[..k + 1][..k] == items[..k];
  }

  /** A row added to or taken from the statistics of its policy. */
  function Credit(policies: map<int, Stat>, rec: Record): map<int, Stat> {
    policies[rec.policy := (if rec.policy in policies then policies[rec.policy] else ZERO).Plus(Weight(rec))]
  }

  function Debit(policies: map<int, Stat>, rec: Record): map<int, Stat> {
    if rec.policy in policies then policies[rec.policy := policies[rec.policy].Minus(Weight(rec))] else policies
  }

  ghost predicate PoliciesOk(policies: map<int, Stat>, t: Table) {
    && (forall i :: i in t.rows ==> t.rows[i].policy in policies)
    && (forall p :: p in policies ==> policies[p] == Sum(Some(p), t))
  }

  lemma {:induction false} SumOfAbsentPolicy(p: int, rows: RowMap, k: nat)
    requires forall i :: i in rows ==> rows[i].policy != p
    ensures SumUpTo(Some(p), rows, k) == ZERO
  {
    hide SumUpTo;
    if k == 0 {
      NoSum(Some(p), rows);
    } else {
      SumOfAbsentPolicy(p, rows, k - 1);
      SumStep(Some(p), rows, k);
    }
  }

  lemma CreditKeepsPolicies(t: Table, policies: map<int, Stat>, rec: Record)
    requires PoliciesOk(policies, t)
    ensures PoliciesOk(Credit(policies, rec), Table(t.rows[t.last + 1 := rec], t.last + 1))
  {
    hide SumUpTo, Weight;
    var u := Table(t.rows[t.last + 1 := rec], t.last + 1);
    var after := Credit(policies, rec);
    if rec.policy !in policies { SumOfAbsentPolicy(rec.policy, t.rows, t.last); }
    forall p | p in after ensures after[p] == Sum(Some(p), u) {
      SumInsert(Some(p), t, rec);
    }
  }

  lemma InsertKeepsStatistics(t: Table, policies: map<int, Stat>, h: RowHash, rec: Record)
    requires PoliciesOk(policies, t) && SumOfPolicies(policies) == Sum(None, t)
    ensures var u := Table(t.rows[t.last + 1 := rec], t.last + 1);
            && Sum(None, u) == Sum(None, t).Plus(Weight(rec))
            && TableHash(h, u) == Chexor(TableHash(h, t), h(KeyOf(rec)))
            && PoliciesOk(Credit(policies, rec), u)
            && SumOfPolicies(Credit(policies, rec)) == Sum(None, u)
  {
    hide SumUpTo, SumOfPolicies, PoliciesOk, HashUpTo, Chexor, Weight;
    var after := Credit(policies, rec);
    SumInsert(None, t, rec);
    HashInsert(h, t, rec);
    CreditKeepsPolicies(t, policies, rec);
    SumOfPoliciesUpdate(policies, rec.policy, after[rec.policy]);
  }

  lemma DeleteKeepsStatistics(t: Table, policies: map<int, Stat>, h: RowHash, i: nat)
    requires Rows.Valid(t) && i in t.rows
    requires PoliciesOk(policies, t) && SumOfPolicies(policies) == Sum(None, t)
    ensures var u := Table(t.rows - {i}, t.last);
            && Rows.Valid(u)
            && Sum(None, u) == Sum(None, t).Minus(Weight(t.rows[i]))
            && TableHash(h, u) == Chexor(TableHash(h, t), h(KeyOf(t.rows[i])))
            && PoliciesOk(Debit(policies, t.rows[i]), u)
            && SumOfPolicies(Debit(policies, t.rows[i])) == Sum(None, u)
  {
    var rec, u := t.rows[i], Table(t.rows - {i}, t.last);
    var after := Debit(policies, rec);
    SumRemove(None, t.rows, i, t.last);
    HashRemove(h, t.rows, i, t.last);
    forall p | p in after ensures after[p] == Sum(Some(p), u) {
      SumRemove(Some(p), t.rows, i, t.last);
    }
    SumOfPoliciesUpdate(policies, rec.policy, after[rec.policy]);
  }

  /** SELECT ROWID FROM container WHERE name = n. */
  function RowsNamed(t: Table, n: Name): set<nat> {
    set i | i in t.rows && t.rows[i].name == n
  }

  /** DELETE by name, then INSERT: together they are one merge. */
  lemma MergeStep(t: Table, rec: Record)
    requires Rows.Valid(t)
    ensures var u := Table(t.rows - RowsNamed(t, rec.name), t.last);
            && Find(u, rec.name).None?
            && MergeOne(t, rec) == Table(u.rows[u.last + 1 := Resolve(Find(t, rec.name), rec)], u.last + 1)
  {
    assert t.rows - RowsNamed(t, rec.name) == Without(t.rows, rec.name);
    var u := Table(t.rows - RowsNamed(t, rec.name), t.last);
    FindNone(u, rec.name);
  }
}
