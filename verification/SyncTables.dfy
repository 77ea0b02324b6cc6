/** The incoming_sync and outgoing_sync tables: sync points by remote database id. */
module SyncTables {
  import opened Rows

  type DbId = nat

  type SyncTable = map<DbId, int>

  function Max(a: int, b: int): int {
    if a < b then b else a
  }

  /** `get_sync`. */
  function GetSync(table: SyncTable, id: DbId): int {
    if id in table then table[id] else -1
  }

  /** Insert a sync point, or raise the one already there. */
  function MergeSync(table: SyncTable, id: DbId, point: int): SyncTable {
    table[id := if id in table then Max(point, table[id]) else point]
  }

  /** `merge_syncs` with the rows of another table. */
  function MergeSyncs(table: SyncTable, points: SyncTable): SyncTable {
    map id | id in table.Keys + points.Keys ::
      if id !in points then table[id]
      else if id !in table then points[id]
      else Max(points[id], table[id])
  }

  /** Every point of a is in b, at least as high. */
  predicate Raised(a: SyncTable, b: SyncTable) {
    a.Keys <= b.Keys && forall id :: id in a ==> a[id] <= b[id]
  }

  lemma RaisedTransitive(a: SyncTable, b: SyncTable, c: SyncTable)
    requires Raised(a, b) && Raised(b, c)
    ensures Raised(a, c)
  {
  }

  lemma MergeSyncsRaises(table: SyncTable, points: SyncTable)
    ensures Raised(table, MergeSyncs(table, points)) && Raised(points, MergeSyncs(table, points))
  {
  }

  /** The highest ROWID among the items of a merge, or -1. */
  function TopRow(items: seq<Item>): int {
    if items == [] then -1 else Max(TopRow(items[..|items| - 1]), items[|items| - 1].rowid)
  }

  lemma TopRowIsLast(items: seq<Item>)
    requires items != [] && forall x :: x in items ==> x.rowid <= items[|items| - 1].rowid
    ensures TopRow(items) == items[|items| - 1].rowid
  {
    TopRowBounded(items[..|items| - 1], items[|items| - 1].rowid);
  }

  lemma {:induction false} TopRowBounded(items: seq<Item>, hi: int)
    requires hi >= 0 && forall x :: x in items ==> x.rowid <= hi
    ensures TopRow(items) <= hi
  {
    if items != [] {
      TopRowBounded(items[..|items| - 1], hi);
      assert items[|items| - 1] in items;
    }
  }
}
