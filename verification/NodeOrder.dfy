/** The order in which a replica contacts its peers (`_replicate_object`, footnote 1). */
module NodeOrder {

  type Node = nat

  ghost predicate Distinct(nodes: seq<Node>) {
    forall i, j :: 0 <= i < j < |nodes| ==> nodes[i] != nodes[j]
  }

  function IndexOf(nodes: seq<Node>, x: Node): (i: nat)
    ensures i <= |nodes|
    ensures i < |nodes| ==> nodes[i] == x
    ensures x !in nodes[..i]
  {
    if nodes == [] || nodes[0] == x then 0
    else
      assert forall k :: 1 <= k <= |nodes| ==> nodes[..k] == [nodes[0]] + nodes[1..][..k - 1];
      1 + IndexOf(nodes[1..], x)
  }

  function ReplNodes(nodes: seq<Node>, x: Node): seq<Node> {
    if |nodes| > 1 then
      var i := IndexOf(nodes, x);
      (if i < |nodes| then nodes[i + 1..] else []) + nodes[..i]
    else nodes
  }

  /** The search loop; Python slices past the end of the list are empty. */
  method ComputeReplNodes(nodes: seq<Node>, x: Node) returns (targets: seq<Node>)
    ensures targets == ReplNodes(nodes, x)
  {
    if |nodes| > 1 {
      var i := 0;
      while i < |nodes| && nodes[i] != x
        invariant 0 <= i <= |nodes|
        invariant IndexOf(nodes, x) == i + IndexOf(nodes[i..], x)
      {
        i := i + 1;
      }
      targets := (if i < |nodes| then nodes[i + 1..] else []) + nodes[..i];
    } else {
      targets := nodes;
    }
  }

  lemma IndexOfAt(nodes: seq<Node>, i: nat)
    requires Distinct(nodes) && i < |nodes|
    ensures IndexOf(nodes, nodes[i]) == i
  {
  }

  /** Position m of a ring of n places, for at most one time round. */
  function Around(m: int, n: int): int {
    if m < n then m else m - n
  }

  /** The k-th target of the i-th primary is the primary k + 1 places further round the list. */
  lemma TargetAt(nodes: seq<Node>, i: nat, k: nat)
    requires Distinct(nodes) && i < |nodes| && k < |nodes| - 1
    ensures |ReplNodes(nodes, nodes[i])| == |nodes| - 1
    ensures ReplNodes(nodes, nodes[i])[k] == nodes[Around(i + 1 + k, |nodes|)]
  {
    hide IndexOf;
    IndexOfAt(nodes, i);
    var after, before := nodes[i + 1..], nodes[..i];
    assert ReplNodes(nodes, nodes[i]) == after + before;
    assert if k < |after| then (after + before)[k] == after[k] else (after + before)[k] == before[k - |after|];
  }

  /** At every contact step the map from a primary to its target has no fixed point, ... */
  lemma StepHasNoFixedPoint(nodes: seq<Node>, i: nat, k: nat)
    requires Distinct(nodes) && i < |nodes| && k < |nodes| - 1
    ensures |ReplNodes(nodes, nodes[i])| == |nodes| - 1
    ensures ReplNodes(nodes, nodes[i])[k] != nodes[i]
  {
    TargetAt(nodes, i, k);
    var a := Around(i + 1 + k, |nodes|);
    assert a < i || i < a;
  }

  /** ... is injective, ... */
  lemma StepIsInjective(nodes: seq<Node>, i: nat, j: nat, k: nat)
    requires Distinct(nodes) && i < j < |nodes| && k < |nodes| - 1
    ensures |ReplNodes(nodes, nodes[i])| == |ReplNodes(nodes, nodes[j])| == |nodes| - 1
    ensures ReplNodes(nodes, nodes[i])[k] != ReplNodes(nodes, nodes[j])[k]
  {
    TargetAt(nodes, i, k);
    TargetAt(nodes, j, k);
    var a, b := Around(i + 1 + k, |nodes|), Around(j + 1 + k, |nodes|);
    assert a < b || b < a;
  }

  /** ... and reaches every primary. */
  lemma StepIsOnto(nodes: seq<Node>, j: nat, k: nat) returns (i: nat)
    requires Distinct(nodes) && j < |nodes| && k < |nodes| - 1
    ensures i < |nodes| && |ReplNodes(nodes, nodes[i])| == |nodes| - 1
    ensures ReplNodes(nodes, nodes[i])[k] == nodes[j]
  {
    i := if j >= k + 1 then j - k - 1 else j - k - 1 + |nodes|;
    TargetAt(nodes, i, k);
  }

  /** A primary contacts every other primary exactly once and never itself. */
  lemma PrimaryContactsOthers(nodes: seq<Node>, x: Node)
    requires Distinct(nodes) && |nodes| >= 2 && x in nodes
    ensures Distinct(ReplNodes(nodes, x))
    ensures forall y :: y in ReplNodes(nodes, x) <==> y in nodes && y != x
  {
    hide IndexOf;
    var i := IndexOf(nodes, x);
    assert i < |nodes| by {
      assert nodes[..|nodes|] == nodes;
    }
    Others(nodes, i);
  }

  lemma Others(nodes: seq<Node>, i: nat)
    requires Distinct(nodes) && i < |nodes|
    ensures Distinct(nodes[i + 1..] + nodes[..i])
    ensures forall y :: y in nodes[i + 1..] + nodes[..i] <==> y in nodes && y != nodes[i]
  {
    assert nodes == nodes[..i] + [nodes[i]] + nodes[i + 1..];
  }

  /** A handoff contacts every primary, in ring order. */
  lemma HandoffContactsAll(nodes: seq<Node>, x: Node)
    requires x !in nodes
    ensures ReplNodes(nodes, x) == nodes
  {
    var i := IndexOf(nodes, x);
    assert nodes[..|nodes|] == nodes;
  }
}
