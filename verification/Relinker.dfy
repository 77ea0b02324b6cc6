/**
 The object relinker on one hash directory: hard links from the old location to
 the new one, and the removal of the old one once the new one is complete.
 */
module Relinker {

  /** The files of a hash directory, by name, with their inodes. */
  type Dir = map<string, nat>

  datatype LinkResult = Created | AlreadyLinked | Vanished | Collision | OtherError

  predicate IsTombstoneName(filename: string) {
    |filename| >= 3 && filename[|filename| - 3..] == ".ts"
  }

  function Keep(dir: Dir, names: set<string>): Dir {
    map f | f in dir && f in names :: dir[f]
  }

  /** Both directories have the name, for different files. */
  predicate Collides(from: Dir, to: Dir, f: string) {
    f in from && f in to && from[f] != to[f]
  }

  class Location {
    /** `cleanup_ondisk_files` and `get_ondisk_files`: which names stay, and which are obsolete. */
    const kept: set<string> -> set<string>
    const obsolete: set<string> -> set<string>
    const doCleanup: bool
    const clobber: bool
    var from: Dir
    var to: Dir
    var quarantined: seq<Dir>
    var removed: nat
    var errors: nat

    constructor (kept: set<string> -> set<string>, obsolete: set<string> -> set<string>, doCleanup: bool, clobber: bool,
                 from: Dir, to: Dir)
      ensures this.kept == kept && this.obsolete == obsolete && this.doCleanup == doCleanup && this.clobber == clobber
      ensures this.from == from && this.to == to && quarantined == [] && removed == errors == 0
    {
      this.kept, this.obsolete, this.doCleanup, this.clobber := kept, obsolete, doCleanup, clobber;
      this.from, this.to, quarantined := from, to, [];
      removed, errors := 0, 0;
    }

    /** `relink_paths`; if all goes smoothly, a link fails only by a collision. An old file that is gone is no error. */
    method RelinkPaths(f: string, smooth: bool) returns (r: LinkResult)
      modifies `to
      ensures smooth ==> !r.OtherError?
      ensures r.Created? ==> f in from && f !in old(to) && to == old(to)[f := from[f]]
      ensures !r.Created? ==> to == old(to)
      ensures f !in from ==> r.Vanished? || r.OtherError?
      ensures r.Vanished? ==> f !in from
      ensures r.AlreadyLinked? ==> f in from && f in to && to[f] == from[f]
      ensures r.Collision? ==> Collides(from, to, f)
    {
      var fails := *;
      if !smooth && fails {
        return OtherError;
      }
      if f !in from {
        return Vanished;
      }
      if f !in to {
        to := to[f := from[f]];
        return Created;
      }
      return if to[f] == from[f] then AlreadyLinked else Collision;
    }

    /** `quarantine_renamer`: the whole new directory is moved away. */
    method Quarantine()
      modifies `to, `quarantined
      ensures to == map[] && quarantined == old(quarantined) + [old(to)]
    {
      quarantined := quarantined + [to];
      to := map[];
    }

    /** A collision that makes the relinker move the new directory out of the way. */
    predicate ClobberAt(a: Dir, b: Dir, f: string) {
      Collides(a, b, f) && !IsTombstoneName(f) && clobber && !doCleanup
    }

    /** A collision that is left as it is and counted as linked. */
    predicate TolerateAt(a: Dir, b: Dir, f: string) {
      Collides(a, b, f) && (IsTombstoneName(f) || (clobber && doCleanup))
    }

    /** `do_relink`: success means the name is in the new directory; at most one quarantine, and one retry. */
    method DoRelink(f: string, alreadyQuarantined: bool, smooth: bool) returns (success: bool, created: bool)
      modifies `to, `quarantined
      ensures success && f in from ==> f in to && (to[f] == from[f] || TolerateAt(from, old(to), f))
      ensures created ==> success && f in from && to[f] == from[f]
      ensures quarantined == old(quarantined) || quarantined == old(quarantined) + [old(to)]
      ensures quarantined != old(quarantined) ==>
                ClobberAt(from, old(to), f) && !alreadyQuarantined && to == if created then map[f := from[f]] else map[]
      ensures quarantined == old(quarantined) ==> to == if created then old(to)[f := from[f]] else old(to)
      ensures quarantined == old(quarantined) && created ==> f !in old(to)
      ensures smooth && !alreadyQuarantined && ClobberAt(from, old(to), f) ==>
              quarantined != old(quarantined) && created
      ensures smooth && !success ==>
              Collides(from, old(to), f) && !TolerateAt(from, old(to), f) && (alreadyQuarantined || !clobber)
      decreases !alreadyQuarantined
    {
      var r := RelinkPaths(f, smooth);
      success, created := r.Created? || r.AlreadyLinked? || r.Vanished?, r.Created?;
      if r.Collision? {
        if IsTombstoneName(f) {
          success := true;
        } else if clobber {
          if doCleanup {
            success := true;
          } else if !alreadyQuarantined {
            Quarantine();
            success, created := DoRelink(f, true, smooth);
          }
        }
      }
    }

    function Union(a: Dir, b: Dir): set<string> {
      a.Keys + b.Keys
    }

    /** The names of both directories that are not obsolete. */
    function Required(a: Dir, b: Dir): set<string> {
      Union(a, b) - obsolete(Union(a, b))
    }

    /** Some required link makes the relinker move the new directory away. */
    ghost predicate WillClobber(a: Dir, b: Dir, links: set<string>) {
      exists f :: f in links && ClobberAt(a, b, f)
    }

    /** The new directory while `done` of the required links have been made: grown from b, or rebuilt. */
    ghost predicate Progress(a: Dir, b: Dir, done: set<string>, to: Dir, hit: bool) {
      if hit then forall x :: x in to ==> x in done && x in a && to[x] == a[x]
      else
        && (forall x :: x in b ==> x in to && to[x] == b[x])
        && (forall x :: x in to ==> x in b || (x in done && x in a && to[x] == a[x]))
    }

    /** Every link made so far has its file in place, or one that is let stand. */
    ghost predicate Linked(a: Dir, b: Dir, done: set<string>, to: Dir) {
      forall x :: x in done && x in a ==> x in to && (to[x] == a[x] || TolerateAt(a, b, x))
    }

    lemma NothingLinked(a: Dir, b: Dir)
      ensures !WillClobber(a, b, {}) && Progress(a, b, {}, b, false) && Linked(a, b, {}, b)
    {
    }

    lemma LinkStep(a: Dir, b: Dir, done: set<string>, before: Dir, hit: bool, f: string, after: Dir, hit': bool,
                   success: bool, created: bool)
      requires Progress(a, b, done, before, hit) && f !in done && f in a
      requires || (hit' == hit && after == if created then before[f := a[f]] else before)
               || (!hit && hit' && after == if created then map[f := a[f]] else map[])
      requires created ==> hit' || f !in before
      requires success ==> f in after && (after[f] == a[f] || TolerateAt(a, before, f))
      ensures Progress(a, b, done + {f}, after, hit')
      ensures success && !hit' && Linked(a, b, done, before) ==> Linked(a, b, done + {f}, after)
    {
    }

    lemma NextLink(a: Dir, b: Dir, done: set<string>, to: Dir, hit: bool, f: string)
      requires Progress(a, b, done, to, hit) && f !in done && f in a
      ensures hit ==> f !in to
      ensures !hit ==> (Collides(a, to, f) <==> Collides(a, b, f))
      ensures WillClobber(a, b, done + {f}) <==> WillClobber(a, b, done) || ClobberAt(a, b, f)
    {
      if WillClobber(a, b, done) {
        var x :| x in done && ClobberAt(a, b, x);
        assert x in done + {f};
      }
      if ClobberAt(a, b, f) { assert f in done + {f}; }
    }

    lemma MoreLinks(a: Dir, b: Dir, done: set<string>, links: set<string>, to: Dir, hit: bool)
      requires Progress(a, b, done, to, hit) && done <= links
      ensures Progress(a, b, links, to, hit)
      ensures WillClobber(a, b, done) ==> WillClobber(a, b, links)
    {
    }

    /** The loop over the required links; it may be interrupted. */
    method LinkAll(links: set<string>, smooth: bool) returns (missing: nat, stopped: bool)
      requires links <= from.Keys
      modifies `to, `quarantined, `errors
      ensures Progress(from, old(to), links, to, quarantined != old(quarantined))
      ensures |quarantined| <= |old(quarantined)| + 1 && old(quarantined) <= quarantined
      ensures quarantined != old(quarantined) ==> WillClobber(from, old(to), links)
      ensures smooth ==> (quarantined != old(quarantined) <==> WillClobber(from, old(to), links))
      ensures missing == 0 && !stopped && quarantined == old(quarantined) ==> Linked(from, old(to), links, to)
      ensures smooth ==> !stopped
      ensures errors == old(errors) + missing
      ensures smooth && (clobber || forall f :: f in links ==> !Collides(from, old(to), f) || IsTombstoneName(f)) ==>
              missing == 0
    {
      hide WillClobber, Progress, Linked;
      missing, stopped := 0, false;
      var todo := links;
      ghost var a, b := from, to;
      assert links - todo == {};
      NothingLinked(a, b);
      while todo != {}
        invariant todo <= links
        invariant Progress(a, b, links - todo, to, quarantined != old(quarantined))
        invariant |quarantined| <= |old(quarantined)| + 1 && old(quarantined) <= quarantined
        invariant quarantined != old(quarantined) ==> WillClobber(a, b, links - todo)
        invariant smooth && WillClobber(a, b, links - todo) ==> quarantined != old(quarantined)
        invariant missing == 0 && quarantined == old(quarantined) ==> Linked(a, b, links - todo, to)
        invariant errors == old(errors) + missing
        invariant smooth && (clobber || forall f :: f in links ==> !Collides(a, b, f) || IsTombstoneName(f)) ==>
                  missing == 0
        decreases todo
      {
        var interrupt := *;
        if !smooth && interrupt {
          MoreLinks(a, b, links - todo, links, to, quarantined != old(quarantined));
          return missing, true;
        }
        var f :| f in todo;
        ghost var done, before, hit := links - todo, to, quarantined != old(quarantined);
        assert links - (todo - {f}) == done + {f};
        NextLink(a, b, done, before, hit, f);
        var success, created := DoRelink(f, false, smooth);
        LinkStep(a, b, done, before, hit, f, to, quarantined != old(quarantined), success, created);
        if !success {
          errors := errors + 1;
          missing := missing + 1;
        }
        todo := todo - {f};
      }
      assert links - todo == links;
    }

    /** The removal of the old files; each may fail, and it may be interrupted. */
    method RemoveAll(smooth: bool)
      modifies `from, `removed, `errors
      ensures from.Keys <= old(from).Keys && forall f :: f in from ==> from[f] == old(from)[f]
      ensures removed + |from.Keys| == old(removed) + |old(from).Keys|
      ensures errors >= old(errors)
      ensures smooth ==> from == map[] && errors == old(errors)
    {
      var todo := from.Keys;
      while todo != {}
        invariant todo <= from.Keys <= old(from).Keys && forall f :: f in from ==> from[f] == old(from)[f]
        invariant removed + |from.Keys| == old(removed) + |old(from).Keys|
        invariant errors >= old(errors)
        invariant smooth ==> from.Keys == todo && errors == old(errors)
        decreases todo
      {
        var interrupt, fails := *, *;
        if !smooth && interrupt {
          return;
        }
        var f :| f in todo;
        if !smooth && fails {
          errors := errors + 1;
        } else {
          assert (from - {f}).Keys == from.Keys - {f};
          from := from - {f};
          removed := removed + 1;
        }
        todo := todo - {f};
      }
    }

    /** The required names of the old directory. */
    function Links(a: Dir, b: Dir): set<string> {
      Required(a, b) * a.Keys
    }

    /**
     `process_location`, whatever fails and wherever it stops. In cleanup a file leaves the old
     directory only when every required name is in the new one. Outside cleanup the old directory
     stays, and a required name can be missing from both only if the new directory was moved away
     while it held the only one.
     */
    method ProcessLocation(smooth: bool) returns (stopped: bool)
      modifies `from, `to, `quarantined, `removed, `errors
      ensures var a, b := Keep(old(from), kept(old(from).Keys)), Keep(old(to), kept(old(to).Keys));
              && (doCleanup && from != a ==> Required(a, b) <= to.Keys)
              && (doCleanup ==> quarantined == old(quarantined) && forall f :: f in b ==> f in to && to[f] == b[f])
              && (!doCleanup ==> from == a)
              && (forall f :: f in from ==> f in a && from[f] == a[f])
              && (forall f :: f in a && f !in from && f in Required(a, b) ==>
                    f in to && (to[f] == a[f] || TolerateAt(a, b, f)))
      ensures var a, b := Keep(old(from), kept(old(from).Keys)), Keep(old(to), kept(old(to).Keys));
              && (!WillClobber(a, b, Links(a, b)) || Required(a, b) <= a.Keys ==> Required(a, b) <= to.Keys + from.Keys)
              && (smooth && WillClobber(a, b, Links(a, b)) && !(Required(a, b) <= a.Keys) ==>
                    !(Required(a, b) <= to.Keys + from.Keys))
      ensures var a, b := Keep(old(from), kept(old(from).Keys)), Keep(old(to), kept(old(to).Keys));
              !stopped && errors == old(errors) && quarantined == old(quarantined) ==> Required(a, b) <= to.Keys
      ensures |quarantined| <= |old(quarantined)| + 1 && errors >= old(errors)
      ensures smooth ==> !stopped
    {
      to := Keep(to, kept(to.Keys));
      from := Keep(from, kept(from.Keys));
      ghost var a, b := from, to;
      var missing;
      missing, stopped := LinkAll(Links(from, to), smooth);
      if doCleanup && missing == 0 && !stopped {
        RemoveAll(smooth);
      }
    }
  }

  const OLD_FILES: Dir := map["1.data" := 1]
  const NEW_FILES: Dir := map["1.data" := 2, "2.meta" := 3]

  /** A required file that only the new directory had is in neither after a collision was clobbered. */
  method ClobberLosesFile(l: Location)
    requires l.from == OLD_FILES && l.to == NEW_FILES && l.clobber && !l.doCleanup
    requires l.kept(l.from.Keys) == l.from.Keys && l.kept(l.to.Keys) == l.to.Keys
    requires l.obsolete(l.from.Keys + l.to.Keys) == {}
    modifies l
    ensures "2.meta" in l.Required(OLD_FILES, NEW_FILES) && "2.meta" in NEW_FILES
    ensures "2.meta" !in l.from && "2.meta" !in l.to
  {
    ghost var a, b := OLD_FILES, NEW_FILES;
    assert Keep(a, a.Keys) == a && Keep(b, b.Keys) == b;
    assert "1.data" in l.Links(a, b) && !IsTombstoneName("1.data") && l.ClobberAt(a, b, "1.data");
    assert "2.meta" in l.Required(a, b) && "2.meta" !in a;
    var _ := l.ProcessLocation(true);
    assert "1.data" in l.from;
  }
}
