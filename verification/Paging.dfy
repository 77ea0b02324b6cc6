/** Reverse listings and listings read page by page. */
module Paging {
  import opened Wrappers
  import opened Rows
  import opened Names
  import opened Listing
  import opened ListContainers
  import opened ListingLaws

  // ------------------------------------------------------------------
  // Entries in order are determined by which entries they are
  // ------------------------------------------------------------------

  lemma BeforeStrict(reverse: bool, a: Name, b: Name)
    requires Before(reverse, a, b)
    ensures a != b && !Before(reverse, b, a)
  {
    LessIrreflexive(a);
    if reverse { LessAntisymmetric(b, a); } else { LessAntisymmetric(a, b); }
  }

  lemma TailEntries(reverse: bool, es: seq<Entry>, e: Entry)
    requires EntriesInOrder(reverse, es) && es != []
    ensures e in es[1..] <==> e in es && e != es[0]
  {
    hide Before;
    if e in es[1..] {
      var k :| 0 <= k < |es[1..]| && es[1..][k] == e;
      BeforeStrict(reverse, es[0].EntryName(), es[k + 1].EntryName());
    }
  }

  lemma {:induction false} EntriesUnique(reverse: bool, a: seq<Entry>, b: seq<Entry>)
    requires EntriesInOrder(reverse, a) && EntriesInOrder(reverse, b) && forall e :: e in a <==> e in b
    ensures a == b
  {
    hide Before;
    if a == [] {
      HasMember(b);
    } else {
      assert a[0] in b;
      var j :| 0 <= j < |b| && b[j] == a[0];
      assert b[0] in a;
      var i :| 0 <= i < |a| && a[i] == b[0];
      if i > 0 { BeforeStrict(reverse, a[0].EntryName(), a[i].EntryName()); }
      assert a[0] == b[0];
      forall e ensures e in a[1..] <==> e in b[1..] {
        TailEntries(reverse, a, e);
        TailEntries(reverse, b, e);
      }
      EntriesUnique(reverse, a[1..], b[1..]);
    }
  }

  lemma ReversedMembers(es: seq<Entry>, e: Entry)
    ensures e in Reversed(es) <==> e in es
  {
    if e in es {
      var i :| 0 <= i < |es| && es[i] == e;
      assert Reversed(es)[|es| - 1 - i] == e;
    }
  }

  /** Between the same bounds, a reverse listing is the forward listing backwards. */
  lemma ReverseListing(t: Table, q: Params)
    requires Valid(t)
    ensures Listed(t, q, true) == Reversed(Listed(t, q, false))
  {
    hide Valid, Listed, Shows, Less;
    var fwd := Listed(t, q, false);
    ListedExactly(t, q, false);
    ListedExactly(t, q, true);
    forall e ensures e in Listed(t, q, true) <==> e in Reversed(fwd) {
      ReversedMembers(fwd, e);
    }
    EntriesUnique(true, Listed(t, q, true), Reversed(fwd));
  }

  // ------------------------------------------------------------------
  // The next page
  // ------------------------------------------------------------------

  /** The query for what follows the entry named m. */
  function Advance(q: Params, reverse: bool, m: Name): Params {
    if reverse then q.(upper := m) else q.(lower := m)
  }

  /** Going forward from an entry, a row beyond it stands for an entry beyond it and within q. */
  lemma BeyondForward(q: Params, r: Record, x: Record)
    requires InRange(q, r.name) && EntryOf(q, r) != Subdir(q.lower) && EntryOf(q, x) != EntryOf(q, r)
    requires Less(EntryOf(q, r).EntryName(), x.name)
    ensures Less(EntryOf(q, r).EntryName(), EntryOf(q, x).EntryName())
    ensures EntryOf(q, x) != Subdir(q.lower)
    ensures q.lower != [] ==> Less(q.lower, x.name)
  {
    EntryOrder(q, r, x);
    if q.lower != [] { LessTransitive(q.lower, r.name, x.name); }
    if EntryOf(q, x) == Subdir(q.lower) {
      EntriesDisjoint(q, x, r);
      DirCompares(q.lower, r.name, x.name);
      LessAntisymmetric(r.name, x.name);
    }
  }

  lemma EntryIsPrefix(q: Params, x: Record)
    ensures LessEq(EntryOf(q, x).EntryName(), x.name)
    ensures x.name != [] <==> EntryOf(q, x).EntryName() != []
  {
    if EntryOf(q, x).Subdir? {
      DirIsPrefix(x.name, q.prefix, q.delim);
      PrefixLeq(x.name, EntryOf(q, x).dir);
    }
  }

  lemma AdvancedForward(t: Table, q: Params, r: Record, e: Entry)
    requires r.name != [] && InRange(q, r.name) && EntryOf(q, r) != Subdir(q.lower)
    ensures var m := EntryOf(q, r).EntryName();
            Shows(t, q.(lower := m), e) <==> Shows(t, q, e) && Less(m, e.EntryName())
  {
    hide Live, Less, DirOf;
    var m := EntryOf(q, r).EntryName();
    var p := q.(lower := m);
    EntryIsPrefix(q, r);
    LessIrreflexive(m);
    if Shows(t, p, e) {
      var x :| x in Live(t) && InRange(p, x.name) && EntryOf(p, x) == e;
      BeyondForward(q, r, x);
      assert InRange(q, x.name) && EntryOf(q, x) == e;
    }
    if Shows(t, q, e) && Less(m, e.EntryName()) {
      var x :| x in Live(t) && InRange(q, x.name) && EntryOf(q, x) == e;
      EntryIsPrefix(q, x);
      LessEqLess(m, e.EntryName(), x.name);
      assert InRange(p, x.name) && EntryOf(p, x) == e;
    }
  }

  lemma AdvancedReverse(t: Table, q: Params, r: Record, e: Entry)
    requires r.name != [] && InRange(q, r.name)
    ensures var m := EntryOf(q, r).EntryName();
            Shows(t, q.(upper := m), e) <==> Shows(t, q, e) && Less(e.EntryName(), m)
  {
    hide Live, Less, DirOf;
    var m := EntryOf(q, r).EntryName();
    var p := q.(upper := m);
    EntryIsPrefix(q, r);
    LessIrreflexive(m);
    if Shows(t, p, e) {
      var x :| x in Live(t) && InRange(p, x.name) && EntryOf(p, x) == e;
      EntryIsPrefix(q, x);
      LessEqLess(e.EntryName(), x.name, m);
      LessEqLess(x.name, m, r.name);
      if q.upper != [] { LessTransitive(x.name, r.name, q.upper); }
      assert InRange(q, x.name) && EntryOf(q, x) == e;
    }
    if Shows(t, q, e) && Less(e.EntryName(), m) {
      var x :| x in Live(t) && InRange(q, x.name) && EntryOf(q, x) == e;
      EntryOrder(q, x, r);
      assert InRange(p, x.name) && EntryOf(p, x) == e;
    }
  }

  lemma RestEntries(reverse: bool, es: seq<Entry>, i: nat, e: Entry)
    requires EntriesInOrder(reverse, es) && i < |es|
    ensures e in es[i + 1..] <==> e in es && Before(reverse, es[i].EntryName(), e.EntryName())
  {
    hide Before;
    if e in es[i + 1..] {
      var k :| 0 <= k < |es[i + 1..]| && es[i + 1..][k] == e;
      assert e == es[i + 1 + k];
    }
    if e in es && Before(reverse, es[i].EntryName(), e.EntryName()) {
      var k :| 0 <= k < |es| && es[k] == e;
      BeforeStrict(reverse, es[i].EntryName(), e.EntryName());
      assert k > i && es[i + 1..][k - i - 1] == e;
    }
  }

  lemma Advanced(t: Table, q: Params, reverse: bool, m: Entry, e: Entry)
    requires Shows(t, q, m) && m.EntryName() != []
    ensures Shows(t, Advance(q, reverse, m.EntryName()), e) <==>
            Shows(t, q, e) && Before(reverse, m.EntryName(), e.EntryName())
  {
    hide InRange;
    var r :| r in Live(t) && InRange(q, r.name) && EntryOf(q, r) == m;
    EntryIsPrefix(q, r);
    if reverse { AdvancedReverse(t, q, r, e); } else { AdvancedForward(t, q, r, e); }
  }

  /** With the name of an entry as the new marker, if it is not empty, the listing is what follows that entry. */
  lemma NextPage(t: Table, q: Params, reverse: bool, i: nat)
    requires Valid(t) && i < |Listed(t, q, reverse)| && Listed(t, q, reverse)[i].EntryName() != []
    ensures Listed(t, Advance(q, reverse, Listed(t, q, reverse)[i].EntryName()), reverse) ==
            Listed(t, q, reverse)[i + 1..]
  {
    hide Valid, Listed, Shows, Advance, Before;
    var es := Listed(t, q, reverse);
    var m := es[i];
    var next := Listed(t, Advance(q, reverse, m.EntryName()), reverse);
    ListedExactly(t, q, reverse);
    ListedExactly(t, Advance(q, reverse, m.EntryName()), reverse);
    assert m in es;
    forall e ensures e in next <==> e in es[i + 1..] {
      Advanced(t, q, reverse, m, e);
      RestEntries(reverse, es, i, e);
    }
    EntriesUnique(reverse, next, es[i + 1..]);
  }

  // ------------------------------------------------------------------
  // Empty names
  // ------------------------------------------------------------------

  /** Which query lists the empty name after going on from m: never forward from another name, always in reverse. */
  lemma EmptyAfter(t: Table, q: Params, reverse: bool, m: Name)
    ensures !reverse && m != [] ==> !ListsEmpty(t, Advance(q, reverse, m))
    ensures reverse ==> (ListsEmpty(t, Advance(q, reverse, m)) <==> ListsEmpty(t, q))
  {
    var p := Advance(q, reverse, m);
    assert reverse ==> (InRange(p, []) <==> InRange(q, []));
    if x :| x in Live(t) && x.name == [] && InRange(q, x.name) {
      assert reverse ==> InRange(p, x.name);
    }
    if x :| x in Live(t) && x.name == [] && InRange(p, x.name) {
      assert reverse ==> InRange(q, x.name);
    }
  }

  /** Where it is listed, the listing is not empty, and going forward it comes first. */
  lemma EmptyIsFirst(t: Table, q: Params, reverse: bool)
    requires Valid(t) && ListsEmpty(t, q)
    ensures Listed(t, q, reverse) != [] && (!reverse ==> Listed(t, q, reverse)[0].EntryName() == [])
  {
    hide Valid, Live, Listed;
    var es := Listed(t, q, reverse);
    var x :| x in Live(t) && x.name == [] && InRange(q, x.name);
    assert EntryOf(q, x) == Container(x) && Shows(t, q, Container(x));
    ListedExactly(t, q, reverse);
    var k :| 0 <= k < |es| && es[k] == Container(x);
    assert 0 < k ==> Before(reverse, es[0].EntryName(), es[k].EntryName());
  }

  /** Later names are not empty. */
  lemma OthersHaveNames(t: Table, q: Params, i: nat)
    requires Valid(t) && 0 < i < |Listed(t, q, false)|
    ensures Listed(t, q, false)[i].EntryName() != []
  {
    hide Valid, Listed;
    var es := Listed(t, q, false);
    ListedExactly(t, q, false);
    assert Before(false, es[0].EntryName(), es[i].EntryName());
  }

  lemma {:induction false} CollapseIsShorter(q: Params, rs: seq<Record>)
    ensures |Collapse(q, rs)| <= |rs|
    decreases |rs|
  {
    if rs != [] {
      var k, first := FirstEntry(q, rs);
      CollapseIsShorter(q, rs[k..]);
    }
  }

  // ------------------------------------------------------------------
  // Reading page by page
  // ------------------------------------------------------------------

  /** A reader of pages comes to an end. */
  ghost predicate Finishes(t: Table, q: Params, reverse: bool, pageSize: nat) {
    !ListsEmpty(t, q) || (!reverse && pageSize >= 2 && |Listed(t, q, reverse)| >= 2)
  }

  /** What a page is, and where it ends if the reader never finishes. */
  ghost predicate PageOf(t: Table, q: Params, reverse: bool, pageSize: nat, data: seq<Entry>) {
    && (data == Take(Listed(t, q, reverse), pageSize) <==>
        !(StartsOver(t, q, reverse) && pageSize > |Listed(t, q, reverse)|))
    && (StartsOver(t, q, reverse) && pageSize > 0 ==>
          && |data| == pageSize
          && (!reverse ==> forall k :: 0 <= k < pageSize ==> data[k] == Container(Todo(t, q, reverse)[0])))
  }

  lemma EndlessPage(t: Table, q: Params, reverse: bool, pageSize: nat, data: seq<Entry>)
    requires Valid(t) && pageSize >= 1 && ListsEmpty(t, q) && !Finishes(t, q, reverse, pageSize)
    requires PageOf(t, q, reverse, pageSize, data)
    ensures data != [] && (!reverse ==> data[|data| - 1].EntryName() == [])
  {
    hide Valid, Listed, Todo;
    EmptyIsFirst(t, q, reverse);
    if StartsOver(t, q, reverse) && !reverse { EmptyIsIn(t, q, reverse); }
  }

  /** The first page of a reader that meets the empty name and goes on. */
  lemma FirstPage(t: Table, q: Params, pageSize: nat, data: seq<Entry>)
    requires Valid(t) && ListsEmpty(t, q) && Finishes(t, q, false, pageSize) && PageOf(t, q, false, pageSize, data)
    ensures data == Take(Listed(t, q, false), pageSize) && |data| >= 2 && data[|data| - 1].EntryName() != []
  {
    hide Valid, ListsEmpty;
    CollapseIsShorter(q, Todo(t, q, false));
    assert !StartsOver(t, q, false);
    OthersHaveNames(t, q, |Take(Listed(t, q, false), pageSize)| - 1);
  }

  /** Otherwise a page is the next of the listing, and ends with a name. */
  lemma OrdinaryPage(t: Table, q: Params, reverse: bool, pageSize: nat, data: seq<Entry>)
    requires Valid(t) && !ListsEmpty(t, q) && PageOf(t, q, reverse, pageSize, data)
    ensures data == Take(Listed(t, q, reverse), pageSize)
    ensures data != [] ==> data[|data| - 1].EntryName() != []
  {
    hide Valid, Listed;
    if data != [] {
      var e := data[|data| - 1];
      assert e in Listed(t, q, reverse);
      ListedExactly(t, q, reverse);
      var x :| x in Live(t) && InRange(q, x.name) && EntryOf(q, x) == e;
      EntryIsPrefix(q, x);
    }
  }

  /** How far a reader has come after some pages: everything before the marker, or nowhere. */
  ghost predicate Read(t: Table, q: Params, reverse: bool, pageSize: nat, p: Params, items: seq<Entry>, pages: nat) {
    if Finishes(t, q, reverse, pageSize) then
      || (pages == 0 && p == q && items == [])
      || (!ListsEmpty(t, p) && items + Listed(t, p, reverse) == Listed(t, q, reverse) && |items| >= pages)
    else ListsEmpty(t, p) && (!reverse ==> p == q)
  }

  lemma ReadOn(t: Table, q: Params, reverse: bool, pageSize: nat, p: Params, items: seq<Entry>, pages: nat,
               data: seq<Entry>)
    requires Valid(t) && pageSize >= 1 && Read(t, q, reverse, pageSize, p, items, pages)
    requires PageOf(t, p, reverse, pageSize, data)
    ensures data == [] ==> Finishes(t, q, reverse, pageSize) && items == Listed(t, q, reverse)
    ensures data != [] ==>
              Read(t, q, reverse, pageSize, Advance(p, reverse, data[|data| - 1].EntryName()), items + data, pages + 1)
  {
    hide Valid, ListsEmpty, Listed, PageOf, Advance, Take;
    if !Finishes(t, q, reverse, pageSize) {
      EndlessOn(t, q, reverse, pageSize, p, data);
    } else {
      var whole := Listed(t, q, reverse);
      assert [] + whole == whole;
      PageOn(t, p, reverse, pageSize, whole, items, data);
    }
  }

  /** A reader that never finishes is still nowhere after another page. */
  lemma EndlessOn(t: Table, q: Params, reverse: bool, pageSize: nat, p: Params, data: seq<Entry>)
    requires Valid(t) && pageSize >= 1 && !Finishes(t, q, reverse, pageSize)
    requires ListsEmpty(t, p) && (!reverse ==> p == q) && PageOf(t, p, reverse, pageSize, data)
    ensures data != []
    ensures var next := Advance(p, reverse, data[|data| - 1].EntryName());
            ListsEmpty(t, next) && (!reverse ==> next == q)
  {
    hide Valid, ListsEmpty, Listed, PageOf;
    if !reverse { assert p.lower == [] by { NoLower(t, p); } }
    EndlessPage(t, p, reverse, pageSize, data);
    EmptyAfter(t, p, reverse, data[|data| - 1].EntryName());
  }

  /** Otherwise the page and what follows its last name are what was left. */
  lemma PageOn(t: Table, p: Params, reverse: bool, pageSize: nat, whole: seq<Entry>, items: seq<Entry>,
               data: seq<Entry>)
    requires Valid(t) && pageSize >= 1 && PageOf(t, p, reverse, pageSize, data)
    requires items + Listed(t, p, reverse) == whole
    requires !ListsEmpty(t, p) || (!reverse && Finishes(t, p, false, pageSize))
    ensures data == [] ==> items == whole
    ensures data != [] ==>
              var next := Advance(p, reverse, data[|data| - 1].EntryName());
              !ListsEmpty(t, next) && items + data + Listed(t, next, reverse) == whole
  {
    hide Valid, ListsEmpty, Listed, PageOf, Advance, Finishes;
    var rest := Listed(t, p, reverse);
    if ListsEmpty(t, p) { FirstPage(t, p, pageSize, data); } else { OrdinaryPage(t, p, reverse, pageSize, data); }
    TakeFacts(rest, pageSize);
    if data != [] {
      var m := data[|data| - 1].EntryName();
      NextPage(t, p, reverse, |data| - 1);
      EmptyAfter(t, p, reverse, m);
      assert items + data + rest[|data|..] == items + (data + rest[|data|..]);
    }
  }

  lemma NoLower(t: Table, q: Params)
    requires ListsEmpty(t, q)
    ensures q.lower == []
  {
  }

  /**
   `_iter_items`, for at most `maxPages` requests: pages read until an empty one, each from the last name
   of the one before. If it ends, it has read the whole listing; it ends for some number of requests if and
   only if no empty name is listed, or it goes forward with pages of two or more and there is another entry.
   */
  method IterItems(t: Table, pageSize: nat, maxPages: nat, marker: Name, endMarker: Name, prefix: Name, delim: Name,
                   reverse: bool, allowReserved: bool) returns (items: seq<Entry>, ended: bool)
    requires Valid(t) && HasSuccessor(prefix) && HasSuccessor(delim) && pageSize >= 1
    ensures var q := ParamsOf(marker, endMarker, prefix, delim, reverse, allowReserved);
            && (ended ==> Finishes(t, q, reverse, pageSize) && items == Listed(t, q, reverse))
            && (Finishes(t, q, reverse, pageSize) && maxPages > |Listed(t, q, reverse)| ==> ended)
  {
    hide Valid, Listed, Take, Read, Finishes, PageOf, StartsOver;
    ghost var q := ParamsOf(marker, endMarker, prefix, delim, reverse, allowReserved);
    ReadNothing(t, q, reverse, pageSize);
    var m, pages := marker, 0;
    items, ended := [], false;
    while pages < maxPages
      invariant pages <= maxPages
      invariant Read(t, q, reverse, pageSize, ParamsOf(m, endMarker, prefix, delim, reverse, allowReserved), items,
                pages)
    {
      var data := ListContainersIter(t, pageSize, m, endMarker, prefix, delim, reverse, allowReserved);
      ghost var p := ParamsOf(m, endMarker, prefix, delim, reverse, allowReserved);
      IsPage(t, p, reverse, pageSize, data);
      ReadOn(t, q, reverse, pageSize, p, items, pages, data);
      if data == [] {
        ended := true;
        return;
      }
      items := items + data;
      m := data[|data| - 1].EntryName();
      pages := pages + 1;
    }
    if Finishes(t, q, reverse, pageSize) {
      ReadAll(t, q, reverse, pageSize, ParamsOf(m, endMarker, prefix, delim, reverse, allowReserved), items, pages);
    }
  }

  /** A reader of an account whose only container has no name never comes to an end. */
  method NamelessNeverEnds(pageSize: nat, maxPages: nat) returns (items: seq<Entry>, ended: bool)
    requires pageSize >= 1
    ensures !ended
  {
    hide Listed, Todo, ListsEmpty;
    NamelessStartsOver();
    NamelessIsValid();
    items, ended := IterItems(NAMELESS, pageSize, maxPages, [], [], [], SLASH, false, true);
  }

  lemma NamelessIsValid()
    ensures Valid(NAMELESS) && HasSuccessor([]) && HasSuccessor(SLASH)
  {
  }

  lemma ReadNothing(t: Table, q: Params, reverse: bool, pageSize: nat)
    ensures Read(t, q, reverse, pageSize, q, [], 0)
  {
  }

  lemma ReadAll(t: Table, q: Params, reverse: bool, pageSize: nat, p: Params, items: seq<Entry>, pages: nat)
    requires Read(t, q, reverse, pageSize, p, items, pages) && Finishes(t, q, reverse, pageSize)
    ensures pages <= |Listed(t, q, reverse)|
  {
  }

  lemma IsPage(t: Table, q: Params, reverse: bool, pageSize: nat, data: seq<Entry>)
    requires data == Take(Listed(t, q, reverse), pageSize) <==>
             !(StartsOver(t, q, reverse) && pageSize > |Listed(t, q, reverse)|)
    requires StartsOver(t, q, reverse) && pageSize > 0 ==>
               && |data| == pageSize
               && (!reverse ==> forall k :: 0 <= k < pageSize ==> data[k] == Container(Todo(t, q, reverse)[0]))
    ensures PageOf(t, q, reverse, pageSize, data)
  {
  }

  lemma TakeFacts(es: seq<Entry>, limit: int)
    ensures limit >= 1 && Take(es, limit) == [] ==> es == []
    ensures |Take(es, limit)| <= |es| && es == Take(es, limit) + es[|Take(es, limit)|..]
    ensures forall i :: 0 <= i < |Take(es, limit)| ==> Take(es, limit)[i] == es[i]
  {
  }
}
