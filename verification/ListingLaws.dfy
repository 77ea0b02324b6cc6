/**
 What a listing is, independently of how it is computed: exactly the entries of
 the names in range, each once, in order.  Hence a reverse listing is the forward
 one reversed, and pages read with the last name of one as the marker of the next
 lose and repeat nothing.
 */
module ListingLaws {
  import opened Wrappers
  import opened Rows
  import opened Names
  import opened Listing
  import opened ListContainers

  // ------------------------------------------------------------------
  // The order of entries
  // ------------------------------------------------------------------

  /** Rows of different entries compare as their entries do, and as row with entry. */
  ghost predicate Agree(q: Params, x: Record, y: Record) {
    var a, b := EntryOf(q, x).EntryName(), EntryOf(q, y).EntryName();
    && (Less(x.name, y.name) <==> Less(a, b))
    && (Less(x.name, y.name) <==> Less(a, y.name))
    && (Less(x.name, y.name) <==> Less(x.name, b))
  }

  /** A name outside the extensions of d compares with d as with any of them. */
  lemma DirCompares(d: Name, x: Name, n: Name)
    requires d != [] && HasPrefix(n, d) && !HasPrefix(x, d)
    ensures Less(x, n) <==> Less(x, d)
    ensures Less(n, x) <==> Less(d, x)
  {
    OutsidePrefix(x, n, d);
    LessTotal(x, n);
    LessTotal(x, d);
    if Less(x, n) { LessAntisymmetric(x, n); }
    if Less(x, d) { LessAntisymmetric(x, d); }
    assert n[..|d|] == d;
  }

  lemma PrefixTransitive(n: Name, d: Name, e: Name)
    requires HasPrefix(n, d) && HasPrefix(d, e)
    ensures HasPrefix(n, e)
  {
    assert n[..|e|] == n[..|d|][..|e|];
  }

  /** Different entries do not overlap: no name extends the subdirectory of another's entry. */
  lemma EntriesDisjoint(q: Params, x: Record, y: Record)
    requires EntryOf(q, x) != EntryOf(q, y) && EntryOf(q, x).Subdir?
    ensures EntryOf(q, x).dir != [] && HasPrefix(x.name, EntryOf(q, x).dir)
    ensures !HasPrefix(y.name, EntryOf(q, x).dir)
    ensures !HasPrefix(EntryOf(q, y).EntryName(), EntryOf(q, x).dir)
  {
    var d := EntryOf(q, x).dir;
    DirIsPrefix(x.name, q.prefix, q.delim);
    SameDir(x.name, y.name, q.prefix, q.delim);
    if EntryOf(q, y).Subdir? && HasPrefix(EntryOf(q, y).dir, d) {
      DirIsPrefix(y.name, q.prefix, q.delim);
      PrefixTransitive(y.name, EntryOf(q, y).dir, d);
    }
  }

  lemma EntryOrder(q: Params, x: Record, y: Record)
    requires EntryOf(q, x) != EntryOf(q, y)
    ensures Agree(q, x, y)
  {
    var a, b := EntryOf(q, x), EntryOf(q, y);
    if a.Subdir? {
      EntriesDisjoint(q, x, y);
      DirCompares(a.dir, y.name, x.name);
      DirCompares(a.dir, b.EntryName(), x.name);
    }
    if b.Subdir? {
      EntriesDisjoint(q, y, x);
      DirCompares(b.dir, x.name, y.name);
      DirCompares(b.dir, a.EntryName(), y.name);
    }
  }

  // ------------------------------------------------------------------
  // The entries of a listing
  // ------------------------------------------------------------------

  ghost predicate EntriesInOrder(reverse: bool, es: seq<Entry>) {
    forall i, j :: 0 <= i < j < |es| ==> Before(reverse, es[i].EntryName(), es[j].EntryName())
  }

  /** Some row has entry e, and e is not the subdirectory that is the lower marker itself. */
  ghost predicate Stems(q: Params, rs: seq<Record>, e: Entry) {
    e != Subdir(q.lower) && exists i :: 0 <= i < |rs| && EntryOf(q, rs[i]) == e
  }

  lemma RunHasOneEntry(q: Params, rs: seq<Record>, d: Name, i: nat)
    requires rs != [] && DirOf(rs[0].name, q.prefix, q.delim) == Some(d) && i < Run(rs, d)
    ensures EntryOf(q, rs[i]) == Subdir(d)
  {
    hide Run;
    SameDir(rs[0].name, rs[i].name, q.prefix, q.delim);
  }

  lemma StemsSplit(q: Params, rs: seq<Record>, k: nat, e: Entry, first: Entry)
    requires 0 < k <= |rs| && forall i :: 0 <= i < k ==> EntryOf(q, rs[i]) == first
    ensures Stems(q, rs, e) <==> (e == first && e != Subdir(q.lower)) || Stems(q, rs[k..], e)
  {
    hide EntryOf;
    assert EntryOf(q, rs[0]) == first;
    if Stems(q, rs, e) && e != first {
      var i :| 0 <= i < |rs| && EntryOf(q, rs[i]) == e;
      assert rs[k..][i - k] == rs[i];
    }
    if Stems(q, rs[k..], e) {
      var i :| 0 <= i < |rs[k..]| && EntryOf(q, rs[k..][i]) == e;
      assert rs[i + k] == rs[k..][i];
    }
  }

  /** How Collapse takes its first step: k rows of one entry. */
  lemma FirstEntry(q: Params, rs: seq<Record>) returns (k: nat, first: Entry)
    requires rs != []
    ensures 0 < k <= |rs| && first == EntryOf(q, rs[0])
    ensures forall i :: 0 <= i < k ==> EntryOf(q, rs[i]) == first
    ensures Collapse(q, rs) == (if first == Subdir(q.lower) then [] else [first]) + Collapse(q, rs[k..])
    ensures k == if first.Container? then 1 else Run(rs, first.dir)
  {
    first := EntryOf(q, rs[0]);
    if first.Container? {
      k := 1;
    } else {
      k := Run(rs, first.dir);
      DirIsPrefix(rs[0].name, q.prefix, q.delim);
      forall i | 0 <= i < k ensures EntryOf(q, rs[i]) == first {
        RunHasOneEntry(q, rs, first.dir, i);
      }
    }
  }

  /** Every entry of the rows is listed, and nothing else. */
  lemma {:induction false} CollapseMembers(q: Params, rs: seq<Record>, e: Entry)
    ensures e in Collapse(q, rs) <==> Stems(q, rs, e)
    decreases |rs|
  {
    if rs != [] {
      var k, first := FirstEntry(q, rs);
      CollapseMembers(q, rs[k..], e);
      StemsSplit(q, rs, k, e, first);
    }
  }

  /** Rows after the first entry's have other entries, which come later. */
  lemma LaterEntry(q: Params, reverse: bool, rs: seq<Record>, k: nat, first: Entry, i: nat)
    requires InOrder(reverse, rs) && rs != [] && first == EntryOf(q, rs[0])
    requires k == if first.Container? then 1 else Run(rs, first.dir)
    requires k <= i < |rs|
    ensures k > 0 && Before(reverse, first.EntryName(), EntryOf(q, rs[i]).EntryName())
  {
    hide Less, Run;
    if first.Subdir? { DirIsPrefix(rs[0].name, q.prefix, q.delim); }
    assert Before(reverse, rs[0].name, rs[i].name);
    if first == EntryOf(q, rs[i]) {
      LessIrreflexive(rs[0].name);
      assert first.Subdir?;
      DirIsPrefix(rs[i].name, q.prefix, q.delim);
      assert rs[0..] == rs;
      assert rs[i] in rs && rs[k..][i - k] == rs[i];
      AfterRun(reverse, rs, 0, first.dir, rs[i]);
      assert false;
    }
    EntryOrder(q, rs[0], rs[i]);
    EntryOrder(q, rs[i], rs[0]);
  }

  lemma {:induction false} CollapseInOrder(q: Params, reverse: bool, rs: seq<Record>)
    requires InOrder(reverse, rs)
    ensures EntriesInOrder(reverse, Collapse(q, rs))
    decreases |rs|
  {
    hide Before, EntryOf, Run;
    if rs != [] {
      var k, first := FirstEntry(q, rs);
      var rest := Collapse(q, rs[k..]);
      CollapseInOrder(q, reverse, rs[k..]);
      forall j | 0 <= j < |rest| ensures Before(reverse, first.EntryName(), rest[j].EntryName()) {
        CollapseMembers(q, rs[k..], rest[j]);
        var i :| 0 <= i < |rs[k..]| && EntryOf(q, rs[k..][i]) == rest[j];
        LaterEntry(q, reverse, rs, k, first, k + i);
      }
    }
  }

  /** Entry e belongs to the listing q asks for. */
  ghost predicate Shows(t: Table, q: Params, e: Entry) {
    e != Subdir(q.lower) && exists x :: x in Live(t) && InRange(q, x.name) && EntryOf(q, x) == e
  }

  /** A listing holds exactly the entries of the live names in range, each once, in order. */
  lemma ListedExactly(t: Table, q: Params, reverse: bool)
    requires Valid(t)
    ensures EntriesInOrder(reverse, Listed(t, q, reverse))
    ensures forall e :: e in Listed(t, q, reverse) <==> Shows(t, q, e)
  {
    hide EntryOf, InRange, Live, Valid;
    var todo := Todo(t, q, reverse);
    TodoFacts(t, q, reverse);
    CollapseInOrder(q, reverse, todo);
    forall e ensures e in Listed(t, q, reverse) <==> Shows(t, q, e) {
      CollapseMembers(q, todo, e);
      if Stems(q, todo, e) {
        var i :| 0 <= i < |todo| && EntryOf(q, todo[i]) == e;
        assert todo[i] in todo;
      }
      if Shows(t, q, e) {
        var x :| x in Live(t) && InRange(q, x.name) && EntryOf(q, x) == e;
        var i :| 0 <= i < |todo| && todo[i] == x;
      }
    }
  }
}
