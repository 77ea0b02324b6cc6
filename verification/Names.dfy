/** Lexicographic order on names, prefixes as intervals, and searching for a delimiter. */
module Names {
  import opened Wrappers
  import opened Rows

  predicate Less(a: Name, b: Name) {
    b != [] && (a == [] || a[0] < b[0] || (a[0] == b[0] && Less(a[1..], b[1..])))
  }

  predicate LessEq(a: Name, b: Name) {
    a == b || Less(a, b)
  }

  predicate HasPrefix(n: Name, p: Name) {
    |p| <= |n| && n[..|p|] == p
  }

  /** The name that follows every extension of p: p with its last code point incremented. */
  function Bump(p: Name): Name
    requires p != []
  {
    p[..|p| - 1] + [p[|p| - 1] + 1]
  }

  lemma LessIrreflexive(a: Name)
    ensures !Less(a, a)
  {
  }

  lemma {:induction false} LessTransitive(a: Name, b: Name, c: Name)
    requires Less(a, b) && Less(b, c)
    ensures Less(a, c)
  {
    if a != [] && a[0] == b[0] == c[0] {
      LessTransitive(a[1..], b[1..], c[1..]);
    }
  }

  lemma {:induction false} LessTotal(a: Name, b: Name)
    ensures Less(a, b) || a == b || Less(b, a)
  {
    if a != [] && b != [] && a[0] == b[0] {
      LessTotal(a[1..], b[1..]);
      if a[1..] == b[1..] { assert a == [a[0]] + a[1..] == [b[0]] + b[1..] == b; }
    }
  }

  lemma LessAntisymmetric(a: Name, b: Name)
    requires Less(a, b)
    ensures !Less(b, a)
  {
    if Less(b, a) {
      LessTransitive(a, b, a);
      LessIrreflexive(a);
    }
  }

  /** The extensions of p are exactly the names from p up to its successor. */
  lemma {:induction false} PrefixIsInterval(n: Name, p: Name)
    requires p != []
    ensures HasPrefix(n, p) <==> LessEq(p, n) && Less(n, Bump(p))
    decreases |p|
  {
    if n == [] {
    } else if |p| == 1 {
      assert HasPrefix(n, p) <==> n[0] == p[0] by {
        assert n[..1] == [n[0]] && p == [p[0]];
      }
      assert Less(n, Bump(p)) <==> n[0] <= p[0] by {
        assert Bump(p) == [p[0] + 1] && !Less(n[1..], Bump(p)[1..]);
      }
      assert LessEq(p, n) <==> p[0] <= n[0] by {
        assert p[1..] == [] && p == [p[0]] && n == [n[0]] + n[1..];
        assert Less([], n[1..]) <==> n[1..] != [];
      }
    } else {
      PrefixIsInterval(n[1..], p[1..]);
      assert Bump(p)[0] == p[0] && Bump(p)[1..] == Bump(p[1..]);
      if n[0] == p[0] {
        assert HasPrefix(n, p) <==> HasPrefix(n[1..], p[1..]) by {
          assert |p| <= |n| ==> n[..|p|] == [n[0]] + n[1..][..|p| - 1];
          assert p == [p[0]] + p[1..];
        }
        assert n == p <==> n[1..] == p[1..] by {
          assert n == [n[0]] + n[1..] && p == [p[0]] + p[1..];
        }
      } else if |p| <= |n| {
        assert n[..|p|][0] == n[0];
      }
    }
  }

  lemma PrefixLeq(n: Name, p: Name)
    requires HasPrefix(n, p)
    ensures LessEq(p, n)
  {
    if p == [] {
    } else {
      PrefixIsInterval(n, p);
    }
  }

  lemma LessEqLess(a: Name, b: Name, c: Name)
    requires (LessEq(a, b) && Less(b, c)) || (Less(a, b) && LessEq(b, c))
    ensures Less(a, c)
  {
    if a != b && b != c { LessTransitive(a, b, c); }
  }

  /** A name outside the extensions of d lies on the same side of all of them. */
  lemma OutsidePrefix(x: Name, n: Name, d: Name)
    requires d != [] && HasPrefix(n, d) && !HasPrefix(x, d)
    ensures Less(x, n) <==> Less(x, d)
    ensures Less(n, x) <==> LessEq(Bump(d), x)
  {
    PrefixIsInterval(x, d);
    PrefixIsInterval(n, d);
    LessTotal(x, d);
    LessTotal(x, Bump(d));
    if Less(x, d) {
      LessEqLess(x, d, n);
      LessAntisymmetric(x, n);
      LessEqLess(x, n, Bump(d));
      LessAntisymmetric(x, Bump(d));
    } else {
      LessEqLess(n, Bump(d), x);
      LessAntisymmetric(n, x);
    }
  }

  // ------------------------------------------------------------------
  // Delimiters
  // ------------------------------------------------------------------

  predicate OccursAt(n: Name, delim: Name, i: nat) {
    i + |delim| <= |n| && n[i..i + |delim|] == delim
  }

  /** `name.find(delimiter, start)` for a non-empty delimiter. */
  function FindFrom(n: Name, delim: Name, start: nat): (r: Option<nat>)
    ensures r.Some? ==> start <= r.value && OccursAt(n, delim, r.value)
    ensures r.Some? ==> forall j :: start <= j < r.value ==> !OccursAt(n, delim, j)
    ensures r.None? ==> forall j :: start <= j ==> !OccursAt(n, delim, j)
    decreases |n| - start
  {
    if start + |delim| > |n| then None
    else if OccursAt(n, delim, start) then Some(start)
    else FindFrom(n, delim, start + 1)
  }

  /** Where a name is cut off by the first delimiter after the prefix, if there is one. */
  function DirOf(n: Name, prefix: Name, delim: Name): Option<Name> {
    if delim == [] then None
    else
      match FindFrom(n, delim, |prefix|)
      case None => None
      case Some(e) => Some(n[..e + |delim|])
  }

  lemma DirIsPrefix(n: Name, prefix: Name, delim: Name)
    requires DirOf(n, prefix, delim).Some?
    ensures DirOf(n, prefix, delim).value != []
    ensures HasPrefix(n, DirOf(n, prefix, delim).value)
  {
  }

  lemma FoundFirst(n: Name, delim: Name, start: nat, e: nat)
    requires start <= e && OccursAt(n, delim, e)
    requires forall j :: start <= j < e ==> !OccursAt(n, delim, j)
    ensures FindFrom(n, delim, start) == Some(e)
  {
    hide OccursAt;
    assert FindFrom(n, delim, start).Some?;
  }

  lemma SliceOfPrefix(n: Name, d: Name, i: nat, j: nat)
    requires HasPrefix(n, d) && i <= j <= |d|
    ensures n[i..j] == d[i..j]
  {
    forall k | i <= k < j ensures n[k] == d[k] {
      assert n[..|d|][k] == d[k];
    }
  }

  lemma OccursWithin(m: Name, n: Name, d: Name, delim: Name, j: nat)
    requires HasPrefix(m, d) && HasPrefix(n, d) && j + |delim| <= |d|
    ensures OccursAt(n, delim, j) <==> OccursAt(m, delim, j)
  {
    SliceOfPrefix(m, d, j, j + |delim|);
    SliceOfPrefix(n, d, j, j + |delim|);
  }

  /** Names share a subdirectory exactly when they extend it. */
  lemma SameDir(m: Name, n: Name, prefix: Name, delim: Name)
    requires DirOf(m, prefix, delim).Some?
    ensures HasPrefix(n, DirOf(m, prefix, delim).value) <==> DirOf(n, prefix, delim) == DirOf(m, prefix, delim)
  {
    var d := DirOf(m, prefix, delim).value;
    var e := FindFrom(m, delim, |prefix|).value;
    DirIsPrefix(m, prefix, delim);
    if HasPrefix(n, d) {
      forall j: nat | |prefix| <= j <= e ensures OccursAt(n, delim, j) <==> OccursAt(m, delim, j) {
        OccursWithin(m, n, d, delim, j);
      }
      FoundFirst(n, delim, |prefix|, e);
    } else if DirOf(n, prefix, delim).Some? {
      DirIsPrefix(n, prefix, delim);
    }
  }
}
