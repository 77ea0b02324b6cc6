/** Which partitions a relinker run works on, and how the state file carries that over interruptions. */
module RelinkRuns {
  import opened Wrappers

  type Part = nat

  /** Partitions with whether they are done. */
  type State = map<Part, bool>

  datatype StateFile = StateFile(partPower: nat, nextPartPower: nat, state: State)

  function Pow2(n: nat): nat {
    if n == 0 then 1 else 2 * Pow2(n - 1)
  }

  ghost predicate StrictlyDescending(parts: seq<Part>) {
    forall i, j :: 0 <= i < j < |parts| ==> parts[i] > parts[j]
  }

  /** The partitions not yet done. */
  function Undone(state: State): set<Part> {
    set p | p in state && !state[p]
  }

  /** The partitions there can be work in: the lower half while relinking, or as the earlier power had it. */
  function Eligible(listed: set<Part>, partPower: nat, nextPartPower: nat, prev: Option<nat>): set<Part> {
    if partPower != nextPartPower then set p | p in listed && p < Pow2(partPower)
    else if prev.Some? then set p | p in listed && p < Pow2(prev.value)
    else listed
  }

  /** The earlier part power a process knows of after looking at one more device. */
  function Remembered(file: Option<StateFile>, partPower: nat, nextPartPower: nat, prev: Option<nat>): Option<nat> {
    if file.Some? && file.value.nextPartPower == nextPartPower && file.value.partPower != partPower
    then Some(file.value.partPower) else prev
  }

  /** `partitions_filter` on the state: partitions unknown to an earlier run count as done when relinking. */
  function Admit(state: State, parts: set<Part>, relinking: bool): State {
    if state == map[] then map p | p in parts :: false
    else map p | p in state.Keys + parts :: if p in state then state[p] else relinking
  }

  lemma {:induction false} HasMaximum(s: set<Part>) returns (m: Part)
    requires s != {}
    ensures m in s && forall x :: x in s ==> x <= m
    decreases s
  {
    m :| m in s;
    var rest := s - {m};
    assert s == rest + {m};
    if rest != {} {
      var r := HasMaximum(rest);
      if r > m { m := r; }
    }
  }

  /** `sorted(partitions, key=int, reverse=True)`. */
  method SortDescending(s: set<Part>) returns (parts: seq<Part>)
    ensures StrictlyDescending(parts)
    ensures forall p :: p in parts <==> p in s
  {
    parts := [];
    var todo := s;
    while todo != {}
      invariant todo <= s && StrictlyDescending(parts)
      invariant forall p :: p in parts <==> p in s - todo
      invariant forall p, x :: p in parts && x in todo ==> p > x
      decreases todo
    {
      ghost var g := HasMaximum(todo);
      var m :| m in todo && forall x :: x in todo ==> x <= m;
      assert forall i :: 0 <= i < |parts| ==> parts[i] in parts;
      parts := parts + [m];
      todo := todo - {m};
    }
  }

  /** The partitions named in the configuration, in the same order. */
  function Restrict(parts: seq<Part>, wanted: Option<set<Part>>): (r: seq<Part>)
    ensures forall p :: p in r <==> p in parts && (wanted.None? || p in wanted.value)
  {
    if parts == [] then []
    else (if wanted.None? || parts[0] in wanted.value then [parts[0]] else []) + Restrict(parts[1..], wanted)
  }

  lemma {:induction false} RestrictDescends(parts: seq<Part>, wanted: Option<set<Part>>)
    requires StrictlyDescending(parts)
    ensures StrictlyDescending(Restrict(parts, wanted))
  {
    if parts != [] {
      RestrictDescends(parts[1..], wanted);
      var rest := Restrict(parts[1..], wanted);
      forall i | 0 <= i < |rest| ensures rest[i] < parts[0] {
        assert rest[i] in parts[1..];
      }
    }
  }

  class Device {
    var file: Option<StateFile>
    /** Partitions the first run with the present part powers found, and those some run finished without error. */
    ghost var first: set<Part>
    ghost var finished: set<Part>

    /** A partition of the first run is marked only if a run finished it; in cleanup that holds of every partition. */
    ghost predicate Marks(state: State, relinking: bool)
      reads this
    {
      && first <= state.Keys
      && (forall p :: p in state && state[p] && (p in first || !relinking) ==> p in finished)
    }

    ghost predicate Valid()
      reads this
    {
      file.Some? ==>
        && file.value.state != map[]
        && Marks(file.value.state, file.value.partPower != file.value.nextPartPower)
    }

    constructor ()
      ensures Valid() && file == None
    {
      file, first, finished := None, {}, {};
    }

    /**
     `hook_pre_device`: the state of an earlier run with the same part powers, if there is one. A part
     power that has since changed is remembered, also for the devices that follow.
     */
    method LoadState(partPower: nat, nextPartPower: nat, prev0: Option<nat>) returns (state: State, prev: Option<nat>)
      requires Valid()
      modifies `file, `first, `finished
      ensures Valid() && prev == Remembered(old(file), partPower, nextPartPower, prev0)
      ensures var same := old(file).Some? && old(file).value.partPower == partPower
                          && old(file).value.nextPartPower == nextPartPower;
              && (same ==> file == old(file) && state == file.value.state)
              && (same ==> first == old(first) && finished == old(finished))
              && (!same ==> file == None && state == map[] && first == finished == {})
    {
      state, prev := map[], prev0;
      if file.Some? && file.value.nextPartPower == nextPartPower && file.value.partPower == partPower {
        state := file.value.state;
      } else {
        if file.Some? && file.value.nextPartPower == nextPartPower {
          prev := Some(file.value.partPower);
        }
        file, first, finished := None, {}, {};
      }
    }

    /** Whether a run with these part powers resumes an earlier one. */
    predicate Resumes(partPower: nat, nextPartPower: nat)
      reads this
    {
      file.Some? && file.value.partPower == partPower && file.value.nextPartPower == nextPartPower
    }

    /** `partitions_filter`: the partitions to work on, from the state as it was left and the directory. */
    method Offer(partPower: nat, nextPartPower: nat, prev0: Option<nat>, listed: set<Part>, wanted: Option<set<Part>>)
      returns (state: State, offered: seq<Part>, prev: Option<nat>)
      requires Valid()
      modifies this
      ensures Valid() && StrictlyDescending(offered)
      ensures Marks(state, partPower != nextPartPower)
      ensures prev == Remembered(old(file), partPower, nextPartPower, prev0)
      ensures forall p :: p in offered <==> p in state && !state[p] && (wanted.None? || p in wanted.value)
      ensures finished == if old(Resumes(partPower, nextPartPower)) then old(finished) else {}
      ensures file.Some? ==> Resumes(partPower, nextPartPower)
      ensures old(Resumes(partPower, nextPartPower)) ==>
                && first == old(first)
                && (forall p :: p in old(file).value.state ==> p in state && state[p] == old(file).value.state[p])
      ensures !old(Resumes(partPower, nextPartPower)) ==> first == Eligible(listed, partPower, nextPartPower, prev)
    {
      hide Pow2, Eligible;
      state, prev := LoadState(partPower, nextPartPower, prev0);
      var relinking := partPower != nextPartPower;
      var parts := Eligible(listed, partPower, nextPartPower, prev);
      if state == map[] {
        first := parts;
      }
      state := Admit(state, parts, relinking);
      offered := SortDescending(Undone(state));
      RestrictDescends(offered, wanted);
      offered := Restrict(offered, wanted);
    }

    /**
     One run over a device, as far as it gets: every partition of the first run that no run has
     finished is offered again, in descending order, and only a partition finished in this run
     without error is newly marked.
     */
    method Run(partPower: nat, nextPartPower: nat, prev0: Option<nat>, listed: set<Part>, wanted: Option<set<Part>>)
      returns (offered: seq<Part>, prev: Option<nat>)
      requires Valid()
      modifies this
      ensures Valid() && StrictlyDescending(offered)
      ensures prev == Remembered(old(file), partPower, nextPartPower, prev0)
      ensures var base := if old(Resumes(partPower, nextPartPower)) then old(finished) else {};
              && base <= finished && (forall p :: p in finished - base ==> p in offered)
              && (forall p :: p in first && p !in base && (wanted.None? || p in wanted.value) ==> p in offered)
      ensures old(Resumes(partPower, nextPartPower)) ==>
                && first == old(first)
                && (forall p :: p in offered && p in old(file).value.state ==> !old(file).value.state[p])
      ensures !old(Resumes(partPower, nextPartPower)) ==> first == Eligible(listed, partPower, nextPartPower, prev)
      ensures file.Some? ==> Resumes(partPower, nextPartPower)
    {
      hide StrictlyDescending, Eligible;
      var state;
      state, offered, prev := Offer(partPower, nextPartPower, prev0, listed, wanted);
      ghost var base, chosen := finished, first;
      var i := 0;
      while i < |offered|
        invariant 0 <= i <= |offered| && Valid() && Marks(state, partPower != nextPartPower)
        invariant file.Some? ==> Resumes(partPower, nextPartPower)
        invariant forall p :: p in offered ==> p in state
        invariant base <= finished && forall p :: p in finished - base ==> p in offered
        invariant first == chosen
      {
        var interrupted, errors := *, *;
        if interrupted {
          break;
        }
        var p := offered[i];
        if !errors {
          state := state[p := true];
          finished := finished + {p};
          assert p in state;
          file := Some(StateFile(partPower, nextPartPower, state));
        }
        i := i + 1;
      }
    }
  }
}
