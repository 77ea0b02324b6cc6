/**
 The rolling content hash of an account table (`chexor`) and the totals the
 triggers keep, both as functions of the rows alone.
 */
module Digest {
  import opened Wrappers
  import opened Rows

  /** What the triggers hash of a row: everything but the deleted flag and the policy. */
  datatype HashKey = HashKey(name: Name, put: Timestamp, del: Timestamp, objects: int, bytes: int)

  type Hash = bv128

  /** The MD5 of a row's hash key. */
  type RowHash = HashKey -> Hash

  function KeyOf(rec: Record): HashKey {
    HashKey(rec.name, rec.put, rec.del, rec.objects, rec.bytes)
  }

  function Chexor(hash: Hash, row: Hash): Hash {
    hash ^ row
  }

  lemma ChexorLaws(a: Hash, b: Hash, c: Hash)
    ensures Chexor(Chexor(a, b), c) == Chexor(Chexor(a, c), b)
    ensures Chexor(Chexor(a, b), b) == a
    ensures Chexor(a, 0) == a
  {
  }

  function HashUpTo(h: RowHash, rows: RowMap, k: nat): Hash {
    if k == 0 then 0
    else if k in rows then Chexor(HashUpTo(h, rows, k - 1), h(KeyOf(rows[k])))
    else HashUpTo(h, rows, k - 1)
  }

  /** The XOR of the row hashes over the whole table. */
  function TableHash(h: RowHash, t: Table): Hash {
    HashUpTo(h, t.rows, t.last)
  }

  lemma {:induction false} HashFrame(h: RowHash, rows: RowMap, more: RowMap, k: nat)
    requires forall i :: 1 <= i <= k ==> (i in rows <==> i in more) && (i in rows ==> rows[i] == more[i])
    ensures HashUpTo(h, rows, k) == HashUpTo(h, more, k)
  {
    if k > 0 { HashFrame(h, rows, more, k - 1); }
  }

  lemma {:induction false} HashRemove(h: RowHash, rows: RowMap, i: nat, k: nat)
    requires i in rows && 1 <= i <= k
    ensures HashUpTo(h, rows - {i}, k) == Chexor(HashUpTo(h, rows, k), h(KeyOf(rows[i])))
  {
    var x := h(KeyOf(rows[i]));
    if i == k {
      HashFrame(h, rows - {i}, rows, k - 1);
      ChexorLaws(HashUpTo(h, rows, k - 1), x, x);
    } else {
      HashRemove(h, rows, i, k - 1);
      if k in rows {
        ChexorLaws(HashUpTo(h, rows, k - 1), x, h(KeyOf(rows[k])));
      }
    }
  }

  lemma HashInsert(h: RowHash, t: Table, rec: Record)
    ensures HashUpTo(h, t.rows[t.last + 1 := rec], t.last + 1) == Chexor(TableHash(h, t), h(KeyOf(rec)))
  {
    HashFrame(h, t.rows, t.rows[t.last + 1 := rec], t.last);
  }

  ghost function Contents(rows: RowMap): set<HashKey> {
    set i | i in rows :: KeyOf(rows[i])
  }

  lemma {:induction false} HashOfNothing(h: RowHash, rows: RowMap, k: nat)
    requires rows == map[]
    ensures HashUpTo(h, rows, k) == 0
  {
    if k > 0 { HashOfNothing(h, rows, k - 1); }
  }

  lemma NoContents(rows: RowMap)
    ensures rows == map[] || Contents(rows) != {}
  {
    if i :| i in rows {
      assert KeyOf(rows[i]) in Contents(rows);
    }
  }

  lemma ContentsRemove(t: Table, i: nat)
    requires Valid(t) && i in t.rows
    ensures Valid(Table(t.rows - {i}, t.last))
    ensures Contents(t.rows - {i}) == Contents(t.rows) - {KeyOf(t.rows[i])}
  {
    var rest := t.rows - {i};
    forall x | x in Contents(t.rows) && x != KeyOf(t.rows[i]) ensures x in Contents(rest) {
      var j :| j in t.rows && x == KeyOf(t.rows[j]);
      assert j in rest;
    }
    forall x | x in Contents(rest) ensures x in Contents(t.rows) && x != KeyOf(t.rows[i]) {
      var j :| j in rest && x == KeyOf(rest[j]);
      assert j in t.rows && t.rows[j].name != t.rows[i].name;
    }
  }

  /** The hash is a function of the contents, whatever order and ROWIDs produced them. */
  lemma {:induction false} HashIgnoresHistory(h: RowHash, t: Table, u: Table)
    requires Valid(t) && Valid(u)
    requires Contents(t.rows) == Contents(u.rows)
    ensures TableHash(h, t) == TableHash(h, u)
    decreases |t.rows|
  {
    if i :| i in t.rows {
      assert KeyOf(t.rows[i]) in Contents(u.rows);
      var j :| j in u.rows && KeyOf(t.rows[i]) == KeyOf(u.rows[j]);
      var t', u' := Table(t.rows - {i}, t.last), Table(u.rows - {j}, u.last);
      ContentsRemove(t, i);
      ContentsRemove(u, j);
      HashIgnoresHistory(h, t', u');
      HashRemove(h, t.rows, i, t.last);
      HashRemove(h, u.rows, j, u.last);
      var x := h(KeyOf(t.rows[i]));
      ChexorLaws(TableHash(h, t), x, x);
      ChexorLaws(TableHash(h, u), x, x);
    } else {
      assert t.rows == map[];
      NoContents(u.rows);
      HashOfNothing(h, t.rows, t.last);
      HashOfNothing(h, u.rows, u.last);
    }
  }

  // ------------------------------------------------------------------
  // Totals
  // ------------------------------------------------------------------

  /** One row of account_stat or policy_stat. */
  datatype Stat = Stat(containers: int, objects: int, bytes: int) {
    function Plus(s: Stat): Stat {
      Stat(containers + s.containers, objects + s.objects, bytes + s.bytes)
    }

    function Minus(s: Stat): Stat {
      Stat(containers - s.containers, objects - s.objects, bytes - s.bytes)
    }
  }

  const ZERO := Stat(0, 0, 0)

  /** A record's share in the totals. */
  function Weight(rec: Record): Stat {
    Stat(if rec.deleted then 0 else 1, rec.objects, rec.bytes)
  }

  /** Its share in the totals of one policy, or of the account. */
  function Share(policy: Option<int>, rec: Record): Stat {
    if policy == None || policy == Some(rec.policy) then Weight(rec) else ZERO
  }

  function SumUpTo(policy: Option<int>, rows: RowMap, k: nat): Stat {
    if k == 0 then ZERO
    else if k in rows then SumUpTo(policy, rows, k - 1).Plus(Share(policy, rows[k]))
    else SumUpTo(policy, rows, k - 1)
  }

  /** The sum over all rows, or over the rows of one policy. */
  function Sum(policy: Option<int>, t: Table): Stat {
    SumUpTo(policy, t.rows, t.last)
  }

  lemma NoSum(policy: Option<int>, rows: RowMap)
    ensures SumUpTo(policy, rows, 0) == ZERO
  {
  }

  lemma SumStep(policy: Option<int>, rows: RowMap, k: nat)
    requires k > 0
    ensures k in rows ==> SumUpTo(policy, rows, k) == SumUpTo(policy, rows, k - 1).Plus(Share(policy, rows[k]))
    ensures k !in rows ==> SumUpTo(policy, rows, k) == SumUpTo(policy, rows, k - 1)
  {
  }

  lemma {:induction false} SumFrame(policy: Option<int>, rows: RowMap, more: RowMap, k: nat)
    requires forall i :: 1 <= i <= k ==> (i in rows <==> i in more) && (i in rows ==> rows[i] == more[i])
    ensures SumUpTo(policy, rows, k) == SumUpTo(policy, more, k)
  {
    hide SumUpTo, Share;
    if k == 0 {
      NoSum(policy, rows);
      NoSum(policy, more);
    } else {
      SumFrame(policy, rows, more, k - 1);
      SumStep(policy, rows, k);
      SumStep(policy, more, k);
    }
  }

  lemma {:induction false} SumRemove(policy: Option<int>, rows: RowMap, i: nat, k: nat)
    requires i in rows && 1 <= i <= k
    ensures SumUpTo(policy, rows - {i}, k) == SumUpTo(policy, rows, k).Minus(Share(policy, rows[i]))
  {
    hide SumUpTo, Share;
    SumStep(policy, rows, k);
    SumStep(policy, rows - {i}, k);
    if i == k {
      SumFrame(policy, rows - {i}, rows, k - 1);
    } else {
      SumRemove(policy, rows, i, k - 1);
    }
  }

  lemma SumInsert(policy: Option<int>, t: Table, rec: Record)
    ensures SumUpTo(policy, t.rows[t.last + 1 := rec], t.last + 1) == Sum(policy, t).Plus(Share(policy, rec))
  {
    SumFrame(policy, t.rows, t.rows[t.last + 1 := rec], t.last);
  }

  /** The sum of the policy_stat rows of some policies. */
  ghost function SumOver(stats: map<int, Stat>, keys: set<int>): Stat
    requires keys <= stats.Keys
  {
    if !exists p :: p in keys then ZERO
    else
      var p :| p in keys;
      SumOver(stats, keys - {p}).Plus(stats[p])
  }

  ghost function SumOfPolicies(stats: map<int, Stat>): Stat {
    SumOver(stats, stats.Keys)
  }

  /** Any one policy can be taken out of the sum. */
  lemma {:induction false} SumOverRemove(stats: map<int, Stat>, keys: set<int>, p: int)
    requires p in keys && keys <= stats.Keys
    ensures SumOver(stats, keys) == SumOver(stats, keys - {p}).Plus(stats[p])
    decreases keys
  {
    var q :| q in keys && SumOver(stats, keys) == SumOver(stats, keys - {q}).Plus(stats[q]);
    if p != q {
      calc {
        SumOver(stats, keys);
        SumOver(stats, keys - {q}).Plus(stats[q]);
        { SumOverRemove(stats, keys - {q}, p); }
        SumOver(stats, keys - {q} - {p}).Plus(stats[p]).Plus(stats[q]);
        { assert keys - {q} - {p} == keys - {p} - {q}; }
        SumOver(stats, keys - {p} - {q}).Plus(stats[q]).Plus(stats[p]);
        { SumOverRemove(stats, keys - {p}, q); }
        SumOver(stats, keys - {p}).Plus(stats[p]);
      }
    }
  }

  lemma {:induction false} SumOverFrame(stats: map<int, Stat>, more: map<int, Stat>, keys: set<int>)
    requires keys <= stats.Keys && keys <= more.Keys
    requires forall p :: p in keys ==> stats[p] == more[p]
    ensures SumOver(stats, keys) == SumOver(more, keys)
  {
    if p :| p in keys {
      SumOverRemove(stats, keys, p);
      SumOverRemove(more, keys, p);
      SumOverFrame(stats, more, keys - {p});
    }
  }

  lemma SumOfPoliciesUpdate(stats: map<int, Stat>, p: int, s: Stat)
    ensures SumOfPolicies(stats[p := s]) ==
            SumOfPolicies(stats).Plus(s).Minus(if p in stats then stats[p] else ZERO)
  {
    var keys := stats.Keys - {p};
    assert stats[p := s].Keys - {p} == keys;
    SumOverRemove(stats[p := s], stats[p := s].Keys, p);
    SumOverFrame(stats, stats[p := s], keys);
    if p in stats {
      SumOverRemove(stats, stats.Keys, p);
    } else {
      assert stats.Keys == keys;
    }
  }
}
