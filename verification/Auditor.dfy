/** `AccountAuditor._audit`: the totals of an account against the sums over its policies. */
module Auditor {
  import opened Wrappers
  import opened Rows
  import opened Digest
  import opened AccountBroker

  datatype Key = ContainerCount | ObjectCount | BytesUsed

  const KEYS := [ContainerCount, ObjectCount, BytesUsed]

  function Get(s: Stat, key: Key): int {
    match key
    case ContainerCount => s.containers
    case ObjectCount => s.objects
    case BytesUsed => s.bytes
  }

  /** The key that does not match, with the account's total and the sum over policies. */
  datatype AuditError = InvalidAccountInfo(key: Key, total: int, sum: int)

  /** The audit passes exactly when the policies add up to the totals, and otherwise names a mismatch. */
  method Audit(info: Stat, policies: map<int, Stat>) returns (err: Option<AuditError>)
    ensures err.None? <==> SumOfPolicies(policies) == info
    ensures err.Some? ==>
              && err.value.total == Get(info, err.value.key)
              && err.value.sum == Get(SumOfPolicies(policies), err.value.key)
              && err.value.total != err.value.sum
  {
    var totals := ZERO;
    var todo := policies.Keys;
    assert policies.Keys - todo == {};
    while todo != {}
      invariant todo <= policies.Keys
      invariant totals == SumOver(policies, policies.Keys - todo)
      decreases todo
    {
      NonEmpty(todo);
      var p :| p in todo;
      var done := policies.Keys - (todo - {p});
      SumOverRemove(policies, done, p);
      assert done - {p} == policies.Keys - todo;
      totals := totals.Plus(policies[p]);
      todo := todo - {p};
    }
    assert policies.Keys - todo == policies.Keys;
    var k := 0;
    while k < |KEYS|
      invariant 0 <= k <= |KEYS|
      invariant forall j :: 0 <= j < k ==> Get(totals, KEYS[j]) == Get(info, KEYS[j])
    {
      if Get(totals, KEYS[k]) != Get(info, KEYS[k]) {
        return Some(InvalidAccountInfo(KEYS[k], Get(info, KEYS[k]), Get(totals, KEYS[k])));
      }
      k := k + 1;
    }
    assert forall key :: Get(totals, key) == Get(info, key) by {
      assert KEYS[0] == ContainerCount && KEYS[1] == ObjectCount && KEYS[2] == BytesUsed;
    }
    assert totals.containers == Get(totals, ContainerCount) && totals.objects == Get(totals, ObjectCount)
        && totals.bytes == Get(totals, BytesUsed);
    assert info.containers == Get(info, ContainerCount) && info.objects == Get(info, ObjectCount)
        && info.bytes == Get(info, BytesUsed);
    return None;
  }

  /** What others may do to the database meanwhile: merge records, or remove rows as reclaiming does. */
  datatype Change = Merged(items: seq<Item>) | Removed(ids: set<nat>)

  function Apply(t: Table, change: Change): Table {
    match change
    case Merged(items) => MergeItems(t, Records(items))
    case Removed(ids) => Table(t.rows - ids, t.last)
  }

  function ApplyAll(t: Table, changes: seq<Change>): Table {
    if changes == [] then t else Apply(ApplyAll(t, changes[..|changes| - 1]), changes[|changes| - 1])
  }

  method MakeChanges(broker: Broker, changes: seq<Change>)
    requires broker.Valid()
    modifies broker`table, broker`stat, broker`hash, broker`policies, broker`incoming
    ensures broker.Valid() && broker.incoming == old(broker.incoming)
    ensures broker.table == ApplyAll(old(broker.table), changes)
  {
    hide SumOfPolicies, Sum, PoliciesOk, TableHash, Rows.Valid, MergeItems;
    var k := 0;
    while k < |changes|
      invariant 0 <= k <= |changes| && broker.Valid() && broker.incoming == old(broker.incoming)
      invariant broker.table == ApplyAll(old(broker.table), changes[..k])
    {
      assert changes[..k + 1][..k] == changes[..k];
      match changes[k] {
        case Merged(items) =>
          broker.MergeItems(items, None);
        case Removed(ids) =>
          ghost var t := broker.table;
          broker.Delete(ids * broker.table.rows.Keys);
          assert t.rows - ids * t.rows.Keys == t.rows - ids;
      }
      k := k + 1;
    }
    assert changes[..k] == changes;
  }

  /**
   `audit` on a database: the totals are read first and the policies afterwards, each after a
   commit of pending puts. Whatever happens in between, it fails on a consistent database exactly
   when the totals changed.
   */
  method AuditDatabase(broker: Broker, between: seq<Change>) returns (err: Option<AuditError>)
    requires broker.Valid() && !broker.skipCommits
    modifies broker`table, broker`stat, broker`hash, broker`policies, broker`incoming, broker`pending,
             broker`pendingSize
    ensures broker.Valid() && broker.incoming == old(broker.incoming) && broker.State().pending == []
    ensures var first := MergeItems(old(broker.table), old(broker.State().pending));
            && broker.table == ApplyAll(first, between)
            && (err.None? <==> Sum(None, broker.table) == Sum(None, first))
  {
    hide SumOfPolicies, Sum, PoliciesOk, TableHash, Rows.Valid, MergeItems, ApplyAll;
    assert [] + broker.State().pending == broker.State().pending;
    var _ := broker.CommitPuts([]);
    var info := broker.stat;
    MakeChanges(broker, between);
    ghost var t := broker.table;
    assert [] + broker.State().pending == [];
    var _ := broker.CommitPuts([]);
    MergeNothing(t);
    err := Audit(info, broker.policies);
  }

  const NEWCOMER := Record([97], 1, 0, 1, 10, false, 0)

  lemma NewcomerCounts()
    ensures Sum(None, MergeItems(EMPTY, [NEWCOMER])) == Stat(1, 1, 10)
  {
    assert [NEWCOMER][..0] == [];
    var t := MergeOne(EMPTY, NEWCOMER);
    assert MergeItems(EMPTY, [NEWCOMER]) == t && t.rows == map[1 := NEWCOMER];
    assert SumUpTo(None, t.rows, 1) == SumUpTo(None, t.rows, 0).Plus(Weight(NEWCOMER));
  }

  /** A container that appears between the two reads makes the audit of a new account fail. */
  method AuditReportsConsistent(broker: Broker) returns (err: Option<AuditError>)
    requires broker.Valid() && !broker.skipCommits && broker.table == EMPTY && broker.State().pending == []
    modifies broker`table, broker`stat, broker`hash, broker`policies, broker`incoming, broker`pending,
             broker`pendingSize
    ensures broker.Valid() && err.Some? && broker.table == MergeItems(EMPTY, [NEWCOMER])
  {
    hide SumOfPolicies, PoliciesOk, TableHash, Rows.Valid, SumUpTo;
    var change := Merged([Item(1, NEWCOMER)]);
    NewcomerCounts();
    MergeNothing(EMPTY);
    assert Records([Item(1, NEWCOMER)]) == [NEWCOMER];
    assert [change][..0] == [];
    err := AuditDatabase(broker, [change]);
    assert Sum(None, EMPTY) == ZERO by { EmptySum(); }
  }

  lemma EmptySum()
    ensures Sum(None, EMPTY) == ZERO
  {
  }

  lemma NonEmpty(keys: set<int>)
    ensures keys == {} || exists p :: p in keys
  {
    if forall p :: p !in keys { assert keys == {}; }
  }
}
