/**
 `AccountBroker.list_containers_iter`: a loop of range queries whose bounds move
 past each row read and past each collapsed subdirectory.
 */
module ListContainers {
  import opened Wrappers
  import opened Rows
  import opened Names
  import opened NameOrder
  import opened Listing

  // ------------------------------------------------------------------
  // The query
  // ------------------------------------------------------------------

  predicate UpperOk(hi: Name, prefix: Name, n: Name) {
    if hi != [] && (prefix == [] || Less(hi, Bump(prefix))) then Less(n, hi)
    else prefix != [] ==> Less(n, Bump(prefix))
  }

  predicate LowerOk(force: bool, lo: Name, prefix: Name, n: Name) {
    if force then LessEq(lo, n)
    else if lo != [] && (prefix == [] || LessEq(prefix, lo)) then Less(lo, n)
    else prefix != [] ==> LessEq(prefix, n)
  }

  /** The WHERE clause, apart from deleted = 0. */
  predicate Admits(lo: Name, hi: Name, prefix: Name, force: bool, allowReserved: bool, n: Name) {
    UpperOk(hi, prefix, n) && LowerOk(force, lo, prefix, n) && (allowReserved || LessEq([1], n))
  }

  function Orient(reverse: bool, rs: seq<Record>): (r: seq<Record>)
    ensures |r| == |rs|
  {
    if reverse then Reversed(rs) else rs
  }

  /** The rows one query returns. */
  function Fetch(t: Table, lo: Name, hi: Name, prefix: Name, force: bool, allowReserved: bool,
                 reverse: bool, count: int): seq<Record> {
    Take(Orient(reverse, Filter(Live(t), n => Admits(lo, hi, prefix, force, allowReserved, n))), count)
  }

  /** With the caller's own bounds the query admits exactly the names in range. */
  lemma AdmitsIsInRange(q: Params, n: Name)
    ensures Admits(q.lower, q.upper, q.prefix, false, q.allowReserved, n) <==> InRange(q, n)
  {
    if q.prefix != [] {
      PrefixIsInterval(n, q.prefix);
      if q.upper != [] && !Less(q.upper, Bump(q.prefix)) && Less(n, Bump(q.prefix)) {
        LessTotal(q.upper, Bump(q.prefix));
        LessEqLess(n, Bump(q.prefix), q.upper);
      }
      if q.upper != [] && Less(q.upper, Bump(q.prefix)) && Less(n, q.upper) {
        LessTransitive(n, q.upper, Bump(q.prefix));
      }
      if q.lower != [] && LessEq(q.prefix, q.lower) && Less(q.lower, n) {
        LessEqLess(q.prefix, q.lower, n);
      }
      if q.lower != [] && !LessEq(q.prefix, q.lower) && LessEq(q.prefix, n) {
        LessTotal(q.prefix, q.lower);
        LessEqLess(q.lower, q.prefix, n);
      }
    }
  }

  /** Advancing the lower bound to a name in range keeps what follows it. */
  lemma AdmitsAfter(q: Params, m: Name, n: Name)
    requires InRange(q, m) && m != []
    ensures Admits(m, q.upper, q.prefix, false, q.allowReserved, n) <==> InRange(q, n) && Less(m, n)
  {
    PrefixLeq(m, q.prefix);
    AdmitsIsInRange(q.(lower := m), n);
    if q.lower != [] && Less(m, n) { LessTransitive(q.lower, m, n); }
  }

  /** Moving the upper bound down to u keeps what precedes it. */
  lemma AdmitsBefore(q: Params, u: Name, n: Name)
    requires u != [] && HasPrefix(u, q.prefix) && (q.upper != [] ==> Less(u, q.upper))
    ensures Admits(q.lower, u, q.prefix, false, q.allowReserved, n) <==> InRange(q, n) && Less(n, u)
  {
    AdmitsIsInRange(q.(upper := u), n);
    if q.upper != [] && Less(n, u) { LessTransitive(n, u, q.upper); }
  }

  /** Jumping past subdirectory d keeps what follows all of it. */
  lemma AdmitsBeyond(q: Params, m: Name, d: Name, n: Name)
    requires InRange(q, m) && d != [] && HasPrefix(m, d)
    ensures Admits(Bump(d), q.upper, q.prefix, true, q.allowReserved, n) <==> InRange(q, n) && LessEq(Bump(d), n)
  {
    PrefixIsInterval(m, d);
    PrefixLeq(m, q.prefix);
    AdmitsIsInRange(q.(lower := []), n);
    if LessEq(Bump(d), n) {
      LessEqLess(m, Bump(d), n);
      LessEqLess(q.prefix, m, n);
      if q.lower != [] { LessTransitive(q.lower, m, n); }
    }
  }

  // ------------------------------------------------------------------
  // Positions in the rows still to be listed
  // ------------------------------------------------------------------

  predicate Before(reverse: bool, a: Name, b: Name) {
    if reverse then Less(b, a) else Less(a, b)
  }

  ghost predicate InOrder(reverse: bool, rs: seq<Record>) {
    forall i, j :: 0 <= i < j < |rs| ==> Before(reverse, rs[i].name, rs[j].name)
  }

  lemma OrientInOrder(reverse: bool, rs: seq<Record>)
    requires Sorted(rs)
    ensures InOrder(reverse, Orient(reverse, rs))
    ensures forall x :: x in Orient(reverse, rs) <==> x in rs
  {
    if reverse {
      forall x | x in rs ensures x in Reversed(rs) {
        var i :| 0 <= i < |rs| && rs[i] == x;
        assert Reversed(rs)[|rs| - 1 - i] == x;
      }
    }
  }

  lemma AfterPosition(reverse: bool, rs: seq<Record>, i: nat, x: Record)
    requires InOrder(reverse, rs) && i < |rs| && x in rs
    ensures x in rs[i + 1..] <==> Before(reverse, rs[i].name, x.name)
  {
    var k :| 0 <= k < |rs| && rs[k] == x;
    if k > i {
      assert rs[i + 1..][k - i - 1] == x;
    } else {
      if k < i { LessAntisymmetric(if reverse then rs[i].name else x.name, if reverse then x.name else rs[i].name); }
      LessIrreflexive(x.name);
    }
  }

  /** After the run of d that starts at i come exactly the later rows outside d. */
  lemma AfterRun(reverse: bool, rs: seq<Record>, i: nat, d: Name, x: Record)
    requires InOrder(reverse, rs) && i < |rs| && x in rs && d != [] && HasPrefix(rs[i].name, d)
    ensures x in rs[i + Run(rs[i..], d)..] <==> Before(reverse, rs[i].name, x.name) && !HasPrefix(x.name, d)
  {
    var e := i + Run(rs[i..], d);
    assert forall j :: i <= j < e ==> rs[j] == rs[i..][j - i];
    assert e < |rs| ==> rs[e] == rs[i..][e - i];
    AfterPosition(reverse, rs, i, x);
    AfterPosition(reverse, rs, e - 1, x);
    if x in rs[e..] {
      var k :| 0 <= k < |rs[e..]| && rs[e..][k] == x;
      assert x == rs[e + k];
      assert Before(reverse, rs[i].name, rs[e + k].name);
      if HasPrefix(x.name, d) {
        OutsidePrefix(rs[e].name, rs[i].name, d);
        OutsidePrefix(rs[e].name, x.name, d);
        assert Before(reverse, rs[i].name, rs[e].name);
        assert k > 0 && Before(reverse, rs[e].name, rs[e + k].name);
        LessAntisymmetric(if reverse then rs[e].name else rs[i].name, if reverse then rs[i].name else rs[e].name);
        assert false;
      }
    } else if Before(reverse, rs[i].name, x.name) {
      var k :| 0 <= k < |rs| && rs[k] == x;
      assert k < e;
      if k < i {
        LessAntisymmetric(if reverse then rs[i].name else x.name, if reverse then x.name else rs[i].name);
      }
    }
  }

  // ------------------------------------------------------------------
  // What the next query will return
  // ------------------------------------------------------------------

  /** The rows to list, in listing order. */
  function Todo(t: Table, q: Params, reverse: bool): seq<Record> {
    Orient(reverse, Eligible(t, q))
  }

  /** With these bounds the next query sees exactly the rows from position i on. */
  ghost predicate Stands(t: Table, q: Params, reverse: bool, i: nat, lo: Name, hi: Name, force: bool) {
    && i <= |Todo(t, q, reverse)|
    && (forall x :: x in Live(t) ==>
          (Admits(lo, hi, q.prefix, force, q.allowReserved, x.name) <==> x in Todo(t, q, reverse)[i..]))
  }

  lemma TodoFacts(t: Table, q: Params, reverse: bool)
    requires Valid(t)
    ensures Sorted(Live(t)) && Sorted(Eligible(t, q)) && InOrder(reverse, Todo(t, q, reverse))
    ensures forall x :: x in Todo(t, q, reverse) <==> x in Live(t) && InRange(q, x.name)
  {
    hide InRange, Less;
    ByNameSorted(t, false, t.last);
    FilterSorted(Live(t), n => InRange(q, n));
    OrientInOrder(reverse, Eligible(t, q));
    forall x ensures x in Eligible(t, q) <==> x in Live(t) && InRange(q, x.name) {
      FilterMembers(Live(t), n => InRange(q, n), x);
    }
  }

  lemma StandsAtStart(t: Table, q: Params, reverse: bool)
    requires Valid(t)
    ensures Stands(t, q, reverse, 0, q.lower, q.upper, false)
  {
    TodoFacts(t, q, reverse);
    forall x | x in Live(t)
      ensures Admits(q.lower, q.upper, q.prefix, false, q.allowReserved, x.name) <==> x in Todo(t, q, reverse)[0..]
    {
      AdmitsIsInRange(q, x.name);
    }
  }

  lemma RestIsUnique(all: seq<Record>, got: seq<Record>, reverse: bool, i: nat)
    requires Sorted(all) && Sorted(got) && i <= |all|
    requires forall x :: x in got <==> x in Orient(reverse, all)[i..]
    ensures Orient(reverse, got) == Orient(reverse, all)[i..]
  {
    hide Less;
    var rest := if reverse then all[..|all| - i] else all[i..];
    assert Orient(reverse, all)[i..] == Orient(reverse, rest);
    OrientInOrder(reverse, rest);
    SortedUnique(got, rest);
  }

  /** A page is the next `count` rows to list. */
  lemma FetchIsTaken(t: Table, q: Params, reverse: bool, i: nat, lo: Name, hi: Name, force: bool, count: int)
    requires Valid(t) && Stands(t, q, reverse, i, lo, hi, force)
    ensures Fetch(t, lo, hi, q.prefix, force, q.allowReserved, reverse, count) == Take(Todo(t, q, reverse)[i..], count)
  {
    hide Live, Filter, InRange, Admits, Valid, Sorted, InOrder, Take, Orient;
    var todo := Todo(t, q, reverse);
    var p := n => Admits(lo, hi, q.prefix, force, q.allowReserved, n);
    TodoFacts(t, q, reverse);
    FilterSorted(Live(t), p);
    forall x ensures x in Filter(Live(t), p) <==> x in todo[i..] {
      FilterMembers(Live(t), p, x);
    }
    RestIsUnique(Eligible(t, q), Filter(Live(t), p), reverse, i);
  }

  lemma FetchIsNextPage(t: Table, q: Params, reverse: bool, i: nat, lo: Name, hi: Name, force: bool, count: int)
    requires Valid(t) && Stands(t, q, reverse, i, lo, hi, force)
    ensures var page, todo := Fetch(t, lo, hi, q.prefix, force, q.allowReserved, reverse, count), Todo(t, q, reverse);
            && i <= |todo| && page == Take(todo[i..], count)
            && i + |page| <= |todo| && page == todo[i..i + |page|] && (count > 0 ==> |page| <= count)
            && (count > 0 && page == [] ==> i == |todo|)
  {
    FetchIsTaken(t, q, reverse, i, lo, hi, force, count);
    TakeIsSlice(Todo(t, q, reverse), i, count);
  }

  lemma TakeIsSlice(rs: seq<Record>, i: nat, count: int)
    requires i <= |rs|
    ensures var page := Take(rs[i..], count);
            && i + |page| <= |rs| && page == rs[i..i + |page|] && (count > 0 ==> |page| <= count)
            && (count > 0 && page == [] ==> i == |rs|)
  {
  }

  lemma StandsAfterRow(t: Table, q: Params, reverse: bool, i: nat)
    requires Valid(t) && i < |Todo(t, q, reverse)| && Todo(t, q, reverse)[i].name != []
    ensures var m := Todo(t, q, reverse)[i].name;
            Stands(t, q, reverse, i + 1, if reverse then q.lower else m, if reverse then m else q.upper, false)
  {
    var todo := Todo(t, q, reverse);
    var m := todo[i].name;
    TodoFacts(t, q, reverse);
    assert todo[i] in todo;
    var lo, hi := if reverse then q.lower else m, if reverse then m else q.upper;
    forall x | x in Live(t)
      ensures Admits(lo, hi, q.prefix, false, q.allowReserved, x.name) <==> x in todo[i + 1..]
    {
      if x in todo { AfterPosition(reverse, todo, i, x); }
      if reverse { AdmitsBefore(q, m, x.name); } else { AdmitsAfter(q, m, x.name); }
    }
  }

  lemma StandsAfterDir(t: Table, q: Params, reverse: bool, i: nat, d: Name)
    requires Valid(t) && i < |Todo(t, q, reverse)|
    requires DirOf(Todo(t, q, reverse)[i].name, q.prefix, q.delim) == Some(d)
    ensures d != []
    ensures Stands(t, q, reverse, i + Run(Todo(t, q, reverse)[i..], d),
                   if reverse then q.lower else Bump(d), if reverse then d else q.upper, !reverse)
  {
    var todo := Todo(t, q, reverse);
    var m := todo[i].name;
    TodoFacts(t, q, reverse);
    assert todo[i] in todo;
    DirIsPrefix(m, q.prefix, q.delim);
    DirExtendsPrefix(m, q.prefix, q.delim);
    PrefixLeq(m, d);
    if q.upper != [] { LessEqLess(d, m, q.upper); }
    var lo, hi := if reverse then q.lower else Bump(d), if reverse then d else q.upper;
    forall x | x in Live(t)
      ensures Admits(lo, hi, q.prefix, !reverse, q.allowReserved, x.name) <==> x in todo[i + Run(todo[i..], d)..]
    {
      if x in todo {
        AfterRun(reverse, todo, i, d, x);
        BeyondDir(reverse, m, d, x.name);
      }
      if reverse { AdmitsBefore(q, d, x.name); } else { AdmitsBeyond(q, m, d, x.name); }
    }
  }

  lemma DirExtendsPrefix(m: Name, prefix: Name, delim: Name)
    requires HasPrefix(m, prefix) && DirOf(m, prefix, delim).Some?
    ensures HasPrefix(DirOf(m, prefix, delim).value, prefix)
  {
    var d := DirOf(m, prefix, delim).value;
    assert d[..|prefix|] == m[..|prefix|];
  }

  lemma BeyondDir(reverse: bool, m: Name, d: Name, n: Name)
    requires d != [] && HasPrefix(m, d)
    ensures Before(reverse, m, n) && !HasPrefix(n, d) <==> if reverse then Less(n, d) else LessEq(Bump(d), n)
  {
    PrefixIsInterval(n, d);
    if HasPrefix(n, d) {
      if Less(n, d) { LessEqLess(n, d, n); LessIrreflexive(n); }
      if LessEq(Bump(d), n) { LessEqLess(n, Bump(d), n); LessIrreflexive(n); }
    } else {
      OutsidePrefix(n, m, d);
    }
  }

  // ------------------------------------------------------------------
  // The loop
  // ------------------------------------------------------------------

  const MAX_CODE_POINT := 0x10FFFF
  const LAST_BEFORE_SURROGATES := 0xD7FF

  /** `chr(ord(c) + 1)` exists for the last code point c, and can be encoded for a query. */
  predicate HasSuccessor(s: Name) {
    s == [] || (s[|s| - 1] < MAX_CODE_POINT && s[|s| - 1] != LAST_BEFORE_SURROGATES)
  }

  /** The listing includes a container with an empty name, which no marker can get past. */
  ghost predicate ListsEmpty(t: Table, q: Params) {
    exists x :: x in Live(t) && x.name == [] && InRange(q, x.name)
  }

  /** That takes one, and a query without lower marker or prefix that shows reserved names. */
  lemma ListsEmptyIff(t: Table, q: Params)
    ensures ListsEmpty(t, q) <==>
            && q.lower == [] && q.prefix == [] && q.allowReserved
            && exists k :: 1 <= k <= t.last && k in t.rows && t.rows[k].name == [] && !t.rows[k].deleted
  {
    if k :| 1 <= k <= t.last && k in t.rows && t.rows[k].name == [] && !t.rows[k].deleted {
      ByNameMembers(t.rows, false, t.last, t.rows[k]);
    }
    if x :| x in Live(t) && x.name == [] {
      ByNameMembers(t.rows, false, t.last, x);
    }
  }

  /** A delimiter listing that would go on after the empty name starts over, in reverse or if there is nothing else. */
  ghost predicate StartsOver(t: Table, q: Params, reverse: bool) {
    ListsEmpty(t, q) && q.delim != [] && (reverse || |Todo(t, q, reverse)| == 1)
  }

  function Containers(rs: seq<Record>): (r: seq<Entry>)
    ensures |r| == |rs| && forall i :: 0 <= i < |rs| ==> r[i] == Container(rs[i])
  {
    seq(|rs|, i requires 0 <= i < |rs| => Container(rs[i]))
  }

  /** In order, the empty name is the first going forward and the last in reverse. */
  lemma EmptyPosition(t: Table, q: Params, reverse: bool, i: nat)
    requires Valid(t) && i < |Todo(t, q, reverse)| && Todo(t, q, reverse)[i].name == []
    ensures ListsEmpty(t, q) && (reverse ==> i == |Todo(t, q, reverse)| - 1) && (!reverse ==> i == 0)
  {
    var todo := Todo(t, q, reverse);
    TodoFacts(t, q, reverse);
    assert todo[i] in todo;
    assert i < |todo| - 1 ==> Before(reverse, todo[i].name, todo[|todo| - 1].name);
    assert 0 < i ==> Before(reverse, todo[0].name, todo[i].name);
  }

  /** No upper bound excludes the empty name. */
  lemma EmptyIsFetched(t: Table, q: Params, hi: Name, reverse: bool, count: int)
    requires ListsEmpty(t, q) && count > 0
    ensures q.lower == [] && Fetch(t, [], hi, q.prefix, false, q.allowReserved, reverse, count) != []
  {
    var x :| x in Live(t) && x.name == [] && InRange(q, x.name);
    var p := n => Admits([], hi, q.prefix, false, q.allowReserved, n);
    FilterMembers(Live(t), p, x);
    assert Filter(Live(t), p) != [];
  }

  lemma EmptyIsIn(t: Table, q: Params, reverse: bool)
    requires Valid(t) && ListsEmpty(t, q) && |Todo(t, q, reverse)| == 1
    ensures Todo(t, q, reverse)[0].name == []
  {
    TodoFacts(t, q, reverse);
    var x :| x in Live(t) && x.name == [] && InRange(q, x.name);
    assert x in Todo(t, q, reverse);
  }

  lemma {:induction false} CollapseWithoutDelimiter(q: Params, rs: seq<Record>)
    requires q.delim == []
    ensures Collapse(q, rs) == Containers(rs)
  {
    if rs != [] {
      CollapseWithoutDelimiter(q, rs[1..]);
      assert Containers(rs) == [Container(rs[0])] + Containers(rs[1..]);
    }
  }

  /** A row without a delimiter is listed as it is. */
  lemma CollapseRow(q: Params, rs: seq<Record>, i: nat)
    requires i < |rs| && DirOf(rs[i].name, q.prefix, q.delim).None?
    ensures Collapse(q, rs[i..]) == [Container(rs[i])] + Collapse(q, rs[i + 1..])
  {
    assert rs[i..][1..] == rs[i + 1..];
  }

  /** A row with one stands for the whole run of its subdirectory. */
  lemma CollapseDir(q: Params, rs: seq<Record>, i: nat, d: Name)
    requires i < |rs| && DirOf(rs[i].name, q.prefix, q.delim) == Some(d)
    ensures i < i + Run(rs[i..], d) <= |rs|
    ensures Collapse(q, rs[i..]) ==
            (if d == q.lower then [] else [Subdir(d)]) + Collapse(q, rs[i + Run(rs[i..], d)..])
  {
    DirIsPrefix(rs[i].name, q.prefix, q.delim);
    assert rs[i..][Run(rs[i..], d)..] == rs[i + Run(rs[i..], d)..];
  }

  /** The unlimited listing in listing order. */
  function Listed(t: Table, q: Params, reverse: bool): seq<Entry> {
    Collapse(q, Todo(t, q, reverse))
  }

  /** Bounds an iteration may have reached: only the side the listing moves from changes. */
  ghost predicate Bounds(q: Params, reverse: bool, lo: Name, hi: Name) {
    (reverse ==> lo == q.lower) && (!reverse ==> hi == q.upper)
  }

  /** The entries listed so far and those of the rows from position i on make up `whole`. */
  ghost predicate Splits(q: Params, todo: seq<Record>, i: nat, results: seq<Entry>, whole: seq<Entry>)
    requires i <= |todo|
  {
    results + Collapse(q, todo[i..]) == whole
  }

  lemma SplitsAtStart(q: Params, todo: seq<Record>)
    ensures Splits(q, todo, 0, [], Collapse(q, todo))
  {
    assert todo[0..] == todo;
  }

  lemma ListedWithoutDelimiter(q: Params, todo: seq<Record>, page: seq<Record>, limit: int)
    requires q.delim == [] && page == Take(todo[0..], limit)
    ensures Containers(page) == Take(Collapse(q, todo), limit)
  {
    CollapseWithoutDelimiter(q, todo);
    assert todo[0..] == todo;
  }

  lemma SplitsRow(q: Params, todo: seq<Record>, i: nat, results: seq<Entry>, whole: seq<Entry>)
    requires i < |todo| && Splits(q, todo, i, results, whole) && DirOf(todo[i].name, q.prefix, q.delim).None?
    ensures Splits(q, todo, i + 1, results + [Container(todo[i])], whole)
  {
    CollapseRow(q, todo, i);
    assert results + ([Container(todo[i])] + Collapse(q, todo[i + 1..]))
        == results + [Container(todo[i])] + Collapse(q, todo[i + 1..]);
  }

  lemma SplitsDir(q: Params, todo: seq<Record>, i: nat, d: Name, results: seq<Entry>, after: seq<Entry>,
                  whole: seq<Entry>)
    requires i < |todo| && Splits(q, todo, i, results, whole) && DirOf(todo[i].name, q.prefix, q.delim) == Some(d)
    requires after == results + if d == q.lower then [] else [Subdir(d)]
    ensures i < i + Run(todo[i..], d) <= |todo|
    ensures Splits(q, todo, i + Run(todo[i..], d), after, whole)
  {
    CollapseDir(q, todo, i, d);
    Associate(results, if d == q.lower then [] else [Subdir(d)], Collapse(q, todo[i + Run(todo[i..], d)..]));
  }

  lemma Associate(a: seq<Entry>, b: seq<Entry>, c: seq<Entry>)
    ensures a + (b + c) == a + b + c
  {
  }

  /** What was listed is the limited listing: either it is full or nothing remains. */
  lemma ListedIsTaken(q: Params, todo: seq<Record>, i: nat, results: seq<Entry>, whole: seq<Entry>, limit: int)
    requires i <= |todo| && Splits(q, todo, i, results, whole)
    requires results == [] || |results| <= limit
    requires |results| >= limit || i == |todo|
    ensures results == Take(whole, limit)
  {
    assert todo[|todo|..] == [];
  }

  /** What a pass over a page knows of the position it started from. */
  ghost predicate Tracks(t: Table, q: Params, reverse: bool, start: nat, page: seq<Record>, results: seq<Entry>,
                         whole: seq<Entry>) {
    var todo := Todo(t, q, reverse);
    && start + |page| <= |todo| && page == todo[start..start + |page|]
    && Splits(q, todo, start, results, whole)
  }

  /** Where the pass stands: past the rows it listed, or past the subdirectory it met at the n-th row. */
  ghost predicate Passed(t: Table, q: Params, reverse: bool, page: seq<Record>, n: nat, met: bool, i: nat, lo: Name,
                         hi: Name, force: bool, results: seq<Entry>, whole: seq<Entry>)
    requires 0 < n <= |page|
  {
    && i <= |Todo(t, q, reverse)| && Splits(q, Todo(t, q, reverse), i, results, whole)
    && (met || page[n - 1].name != [] ==> Stands(t, q, reverse, i, lo, hi, force))
  }

  lemma TrackRow(t: Table, q: Params, reverse: bool, start: nat, page: seq<Record>, j: nat, results0: seq<Entry>,
                 results: seq<Entry>, whole: seq<Entry>)
    requires Valid(t) && Tracks(t, q, reverse, start, page, results0, whole) && j < |page|
    requires Splits(q, Todo(t, q, reverse), start + j, results, whole)
    ensures page[j] == Todo(t, q, reverse)[start + j]
    ensures DirOf(page[j].name, q.prefix, q.delim).None? ==>
              Passed(t, q, reverse, page, j + 1, false, start + j + 1, if reverse then q.lower else page[j].name,
                     if reverse then page[j].name else q.upper, false, results + [Container(page[j])], whole)
  {
    hide Stands, Splits, Valid;
    var todo := Todo(t, q, reverse);
    assert page[j] == todo[start + j];
    if DirOf(page[j].name, q.prefix, q.delim).None? {
      SplitsRow(q, todo, start + j, results, whole);
      if page[j].name != [] { StandsAfterRow(t, q, reverse, start + j); }
    }
  }

  lemma TrackDir(t: Table, q: Params, reverse: bool, start: nat, page: seq<Record>, j: nat, results0: seq<Entry>,
                 results: seq<Entry>, after: seq<Entry>, whole: seq<Entry>, d: Name)
    requires Valid(t) && Tracks(t, q, reverse, start, page, results0, whole) && j < |page|
    requires Splits(q, Todo(t, q, reverse), start + j, results, whole)
    requires DirOf(page[j].name, q.prefix, q.delim) == Some(d)
    requires after == results + if d == q.lower then [] else [Subdir(d)]
    ensures var i := start + j + Run(Todo(t, q, reverse)[start + j..], d);
            && start + j < i
            && Passed(t, q, reverse, page, j + 1, true, i, if reverse then q.lower else Bump(d),
                      if reverse then d else q.upper, !reverse, after, whole)
  {
    hide Stands, Splits, Valid, Run;
    var todo := Todo(t, q, reverse);
    assert page[j] == todo[start + j];
    StandsAfterDir(t, q, reverse, start + j, d);
    SplitsDir(q, todo, start + j, d, results, after, whole);
  }

  /** One pass over the rows of a query: up to and including the first one with a delimiter. */
  method ListPage(t: Table, q: Params, reverse: bool, ghost tracked: bool, ghost start: nat, lo0: Name, hi0: Name,
                  page: seq<Record>, results0: seq<Entry>, ghost whole: seq<Entry>)
    returns (ghost n: nat, ghost met: bool, ghost i: nat, lo: Name, hi: Name, force: bool, results: seq<Entry>)
    requires Valid(t) && q.delim != [] && page != [] && Bounds(q, reverse, lo0, hi0)
    requires tracked ==> Tracks(t, q, reverse, start, page, results0, whole)
    ensures 0 < n <= |page| && |results0| <= |results| <= |results0| + |page|
    ensures q.lower == [] ==> |results| > |results0|
    ensures Bounds(q, reverse, lo, hi) && (reverse ==> !force)
    ensures !met ==> n == |page| && !force && (if reverse then hi else lo) == page[|page| - 1].name
    ensures met ==> DirOf(page[n - 1].name, q.prefix, q.delim).Some?
    ensures !met ==> results == results0 + Containers(page)
    ensures tracked ==> start < i && Passed(t, q, reverse, page, n, met, i, lo, hi, force, results, whole)
    ensures tracked && !met ==> i == start + |page|
  {
    hide Stands, Splits, Todo, Valid, Run, Tracks, Passed, Less, LessEq;
    n, met, i, lo, hi, force, results := 0, false, start, lo0, hi0, false, results0;
    var j := 0;
    if tracked { TracksStart(t, q, reverse, start, page, results0, whole); }
    while j < |page|
      invariant 0 <= j <= |page| && n == j && |results| == |results0| + j && !force && !met
      invariant Bounds(q, reverse, lo, hi)
      invariant j > 0 ==> (if reverse then hi else lo) == page[j - 1].name
      invariant results == results0 + Containers(page[..j])
      invariant tracked ==> i == start + j && i <= |Todo(t, q, reverse)|
      invariant tracked ==> Splits(q, Todo(t, q, reverse), i, results, whole)
      invariant tracked && j > 0 ==> Passed(t, q, reverse, page, j, false, i, lo, hi, false, results, whole)
    {
      var row := page[j];
      if reverse {
        hi := row.name;
      } else {
        lo := row.name;
      }
      n := j + 1;
      var end := FindFrom(row.name, q.delim, |q.prefix|);
      if end.Some? {
        var dir := row.name[..end.value + |q.delim|];
        if reverse {
          hi := dir;
        } else {
          lo, force := Bump(dir), true;
        }
        ghost var before := results;
        if dir != q.lower {
          results := results + [Subdir(dir)];
        }
        if tracked {
          TrackDir(t, q, reverse, start, page, j, results0, before, results, whole, dir);
          i := i + Run(Todo(t, q, reverse)[start + j..], dir);
        }
        met := true;
        return;
      }
      if tracked {
        TrackRow(t, q, reverse, start, page, j, results0, results, whole);
        PassedSplits(t, q, reverse, page, j + 1, start + j + 1, if reverse then q.lower else row.name,
                     if reverse then row.name else q.upper, results + [Container(row)], whole);
      }
      assert Containers(page[..j + 1]) == Containers(page[..j]) + [Container(row)];
      results := results + [Container(row)];
      i, j := i + 1, j + 1;
    }
    assert page[..j] == page;
  }

  lemma TracksStart(t: Table, q: Params, reverse: bool, start: nat, page: seq<Record>, results: seq<Entry>,
                    whole: seq<Entry>)
    requires Tracks(t, q, reverse, start, page, results, whole)
    ensures start <= |Todo(t, q, reverse)| && Splits(q, Todo(t, q, reverse), start, results, whole)
  {
  }

  lemma PassedSplits(t: Table, q: Params, reverse: bool, page: seq<Record>, n: nat, i: nat, lo: Name, hi: Name,
                     results: seq<Entry>, whole: seq<Entry>)
    requires 0 < n <= |page| && Passed(t, q, reverse, page, n, false, i, lo, hi, false, results, whole)
    ensures i <= |Todo(t, q, reverse)| && Splits(q, Todo(t, q, reverse), i, results, whole)
  {
  }

  /** A reverse listing swaps the markers. */
  function ParamsOf(marker: Name, endMarker: Name, prefix: Name, delim: Name, reverse: bool,
                    allowReserved: bool): Params {
    if reverse then Params(endMarker, marker, prefix, delim, allowReserved)
    else Params(marker, endMarker, prefix, delim, allowReserved)
  }

  /** What the loop knows between queries: how far it got, or that it has started over. */
  ghost predicate Going(t: Table, q: Params, reverse: bool, again: bool, i: nat, lo: Name, hi: Name, force: bool,
                        results: seq<Entry>, whole: seq<Entry>, limit: int) {
    && Bounds(q, reverse, lo, hi) && (reverse ==> !force)
    && (StartsOver(t, q, reverse) && !reverse ==>
          lo == q.lower && !force && forall k :: 0 <= k < |results| ==> results[k] == Container(Todo(t, q, reverse)[0]))
    && (again ==> StartsOver(t, q, reverse) && |results| >= |whole| && (|results| == |whole| ==> results == whole))
    && (!again ==>
          && i <= |Todo(t, q, reverse)| && Splits(q, Todo(t, q, reverse), i, results, whole)
          && (|results| < limit ==> Stands(t, q, reverse, i, lo, hi, force)))
  }

  lemma GoingStart(t: Table, q: Params, reverse: bool, limit: int)
    requires Valid(t)
    ensures Going(t, q, reverse, false, 0, q.lower, q.upper, false, [], Listed(t, q, reverse), limit)
  {
    StandsAtStart(t, q, reverse);
    SplitsAtStart(q, Todo(t, q, reverse));
  }

  /** The page a query returns, and that a listing which starts over never sees an empty one. */
  lemma GoingPage(t: Table, q: Params, reverse: bool, again: bool, i: nat, lo: Name, hi: Name, force: bool,
                  results: seq<Entry>, whole: seq<Entry>, limit: int)
    requires Valid(t) && |results| < limit && Going(t, q, reverse, again, i, lo, hi, force, results, whole, limit)
    ensures var page := Fetch(t, lo, hi, q.prefix, force, q.allowReserved, reverse, limit - |results|);
            && |page| <= limit - |results|
            && (StartsOver(t, q, reverse) ==> page != [] && q.lower == [])
            && (StartsOver(t, q, reverse) && !reverse ==> page == Todo(t, q, reverse))
            && (!again ==> Tracks(t, q, reverse, i, page, results, whole))
            && (!again && page == [] ==> i == |Todo(t, q, reverse)|)
            && (!again ==> i <= |Todo(t, q, reverse)| && page == Take(Todo(t, q, reverse)[i..], limit - |results|))
    ensures Bounds(q, reverse, lo, hi) && (again ==> StartsOver(t, q, reverse))
    ensures q.delim == [] ==> !StartsOver(t, q, reverse)
  {
    hide Stands, Splits, Valid, InRange, Fetch;
    var todo, count := Todo(t, q, reverse), limit - |results|;
    FetchAtMost(t, q, lo, hi, force, reverse, count);
    if StartsOver(t, q, reverse) {
      EmptyIsFetched(t, q, hi, reverse, count);
      if !reverse {
        StandsAtStart(t, q, reverse);
        FetchIsNextPage(t, q, reverse, 0, q.lower, q.upper, false, count);
        assert todo[0..] == todo;
      }
    }
    if !again { FetchIsNextPage(t, q, reverse, i, lo, hi, force, count); }
  }

  lemma FetchAtMost(t: Table, q: Params, lo: Name, hi: Name, force: bool, reverse: bool, count: int)
    requires count > 0
    ensures |Fetch(t, lo, hi, q.prefix, force, q.allowReserved, reverse, count)| <= count
  {
  }

  /** After a pass: it stands further on, or it met the empty name last and is about to start over. */
  lemma GoingOn(t: Table, q: Params, reverse: bool, again: bool, start: nat, lo: Name, hi: Name, force: bool,
                results: seq<Entry>, whole: seq<Entry>, limit: int, page: seq<Record>,
                n: nat, met: bool, i: nat, lo': Name, hi': Name, force': bool, results': seq<Entry>)
    requires Valid(t) && q.delim != [] && |results| < limit
    requires Going(t, q, reverse, again, start, lo, hi, force, results, whole, limit)
    requires page == Fetch(t, lo, hi, q.prefix, force, q.allowReserved, reverse, limit - |results|) && 0 < n <= |page|
    requires |results| <= |results'| <= |results| + |page| && (q.lower == [] ==> |results'| > |results|)
    requires Bounds(q, reverse, lo', hi') && (reverse ==> !force')
    requires !met ==> n == |page| && !force' && (if reverse then hi' else lo') == page[|page| - 1].name
    requires met ==> DirOf(page[n - 1].name, q.prefix, q.delim).Some?
    requires !met ==> results' == results + Containers(page)
    requires !again ==> start < i && Passed(t, q, reverse, page, n, met, i, lo', hi', force', results', whole)
    requires !again && !met ==> i == start + |page|
    ensures var over := again || (!met && page[|page| - 1].name == [] && StartsOver(t, q, reverse));
            && |results'| <= limit
            && Going(t, q, reverse, over, i, lo', hi', force', results', whole, limit)
            && (over ==> |results'| > |results|) && (!over ==> i <= |Todo(t, q, reverse)|)
  {
    hide Stands, Valid, Fetch, InRange, Todo, Splits, DirOf, Take, Tracks, ListsEmpty;
    GoingPage(t, q, reverse, again, start, lo, hi, force, results, whole, limit);
    if StartsOver(t, q, reverse) && !reverse { EmptyIsIn(t, q, reverse); }
    NoDirInEmpty(q);
    if !again && !met && page[|page| - 1].name == [] {
      EmptyEndsPage(t, q, reverse, start, page, limit - |results|);
      if i == |Todo(t, q, reverse)| { SplitsAtEnd(q, Todo(t, q, reverse), results', whole); }
    }
  }

  lemma NoDirInEmpty(q: Params)
    ensures DirOf([], q.prefix, q.delim).None?
  {
  }

  lemma SplitsAtEnd(q: Params, todo: seq<Record>, results: seq<Entry>, whole: seq<Entry>)
    requires Splits(q, todo, |todo|, results, whole)
    ensures results == whole
  {
    assert todo[|todo|..] == [];
  }

  /** A page that ends with the empty name is the last one, or full. */
  lemma EmptyEndsPage(t: Table, q: Params, reverse: bool, start: nat, page: seq<Record>, count: int)
    requires Valid(t) && start <= |Todo(t, q, reverse)| && page == Take(Todo(t, q, reverse)[start..], count)
    requires page != [] && page[|page| - 1].name == []
    ensures ListsEmpty(t, q) && (reverse ==> start + |page| == |Todo(t, q, reverse)|)
    ensures !reverse && |Todo(t, q, reverse)| != 1 ==> |page| >= count
    ensures |Todo(t, q, reverse)| == 1 ==> start + |page| == 1
  {
    hide Valid, Todo, ListsEmpty;
    var todo := Todo(t, q, reverse);
    assert todo[start + |page| - 1] == page[|page| - 1];
    EmptyPosition(t, q, reverse, start + |page| - 1);
  }

  /** At the end: what was listed, and whether that is the listing. */
  lemma GoingEnd(t: Table, q: Params, reverse: bool, again: bool, i: nat, lo: Name, hi: Name, force: bool,
                 results: seq<Entry>, whole: seq<Entry>, limit: int)
    requires Going(t, q, reverse, again, i, lo, hi, force, results, whole, limit) &&
             (results == [] || |results| <= limit)
    requires |results| >= limit || (!StartsOver(t, q, reverse) && i == |Todo(t, q, reverse)|)
    ensures results == Take(whole, limit) <==> !(StartsOver(t, q, reverse) && limit > |whole|)
    ensures StartsOver(t, q, reverse) && limit > 0 ==>
              && |results| == limit
              && (!reverse ==> |Todo(t, q, reverse)| == 1)
              && (!reverse ==> forall k :: 0 <= k < limit ==> results[k] == Container(Todo(t, q, reverse)[0]))
  {
    hide Stands, Todo;
    if !again { ListedIsTaken(q, Todo(t, q, reverse), i, results, whole, limit); }
  }

  /**
   For every table and all arguments, the loop ends with the first `limit` entries of the listing, unless
   it starts over at a container with an empty name before it has that many.
   */
  method ListContainersIter(t: Table, limit: int, marker: Name, endMarker: Name, prefix: Name, delim: Name,
                            reverse: bool, allowReserved: bool) returns (results: seq<Entry>)
    requires Valid(t) && HasSuccessor(prefix) && HasSuccessor(delim)
    ensures var q := ParamsOf(marker, endMarker, prefix, delim, reverse, allowReserved);
            results == Take(Listed(t, q, reverse), limit) <==>
            !(StartsOver(t, q, reverse) && limit > |Listed(t, q, reverse)|)
    ensures results == [] || |results| <= limit
    ensures var q := ParamsOf(marker, endMarker, prefix, delim, reverse, allowReserved);
            StartsOver(t, q, reverse) && limit > 0 ==>
              && |results| == limit
              && (!reverse ==> forall k :: 0 <= k < limit ==> results[k] == Container(Todo(t, q, reverse)[0]))
  {
    hide Going, StartsOver, Passed, Tracks, Todo, Valid, Fetch, Take, Bounds;
    var q := ParamsOf(marker, endMarker, prefix, delim, reverse, allowReserved);
    var lo, hi, force := q.lower, q.upper, false;
    ghost var todo, whole := Todo(t, q, reverse), Listed(t, q, reverse);
    ghost var i: nat, again := 0, false;
    GoingStart(t, q, reverse, limit);
    results := [];
    while |results| < limit
      invariant Going(t, q, reverse, again, i, lo, hi, force, results, whole, limit)
      invariant results == [] || |results| <= limit
      invariant delim == [] ==> i == 0 && results == [] && !again
      decreases limit - |results|, if again then 0 else |todo| - i
    {
      var page := Fetch(t, lo, hi, prefix, force, allowReserved, reverse, limit - |results|);
      GoingPage(t, q, reverse, again, i, lo, hi, force, results, whole, limit);
      if delim == [] {
        ListedWithoutDelimiter(q, todo, page, limit);
        assert |page| <= limit;
        return Containers(page);
      }
      if page == [] {
        break;
      }
      ghost var n, met, i';
      var lo', hi', force', results';
      n, met, i', lo', hi', force', results' := ListPage(t, q, reverse, !again, i, lo, hi, page, results, whole);
      GoingOn(t, q, reverse, again, i, lo, hi, force, results, whole, limit, page, n, met, i', lo', hi', force',
              results');
      again := again || (!met && page[|page| - 1].name == [] && StartsOver(t, q, reverse));
      i, lo, hi, force, results := i', lo', hi', force', results';
    }
    GoingEnd(t, q, reverse, again, i, lo, hi, force, results, whole, limit);
  }

  const NAMELESS := Table(map[1 := Record([], 1, 0, 0, 0, false, 0)], 1)
  const SLASH := [47]

  lemma NamelessStartsOver()
    ensures var q := ParamsOf([], [], [], SLASH, false, true);
            && StartsOver(NAMELESS, q, false) && |Listed(NAMELESS, q, false)| == 1
            && Todo(NAMELESS, q, false) == [NAMELESS.rows[1]]
  {
    var q, x := ParamsOf([], [], [], SLASH, false, true), NAMELESS.rows[1];
    assert ByNameUpTo(NAMELESS.rows, false, 0) == [];
    assert Live(NAMELESS) == [x];
    assert [x][1..] == [];
    assert Todo(NAMELESS, q, false) == [x];
    assert x in Live(NAMELESS);
    assert DirOf([], [], SLASH) == None;
    assert Collapse(q, [x]) == [Container(x)] + Collapse(q, []);
  }

  /** An account whose only container has no name: the same entry is listed again. */
  method EmptyNameRepeats() returns (results: seq<Entry>)
    ensures results == [Container(NAMELESS.rows[1]), Container(NAMELESS.rows[1])]
  {
    hide StartsOver, Listed, Take, Todo;
    NamelessStartsOver();
    results := ListContainersIter(NAMELESS, 2, [], [], [], SLASH, false, true);
  }
}
