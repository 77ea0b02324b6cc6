/** Account metadata: values with timestamps, merged key by key; the newest wins. */
module Metadata {

  /** An empty value marks a removed key. */
  datatype Meta = Meta(value: string, timestamp: nat)

  type Metadata = map<string, Meta>

  /** `update_metadata`: only newer timestamps overwrite. */
  function Update(md: Metadata, updates: Metadata): Metadata {
    map k | k in md.Keys + updates.Keys ::
      if k in updates && (k !in md || updates[k].timestamp > md[k].timestamp) then updates[k] else md[k]
  }

  /** The test for having nothing to do. */
  predicate Redundant(md: Metadata, updates: Metadata) {
    updates.Keys <= md.Keys && forall k :: k in updates ==> updates[k].timestamp <= md[k].timestamp
  }

  /** Returning early never changes the outcome, and happens whenever the outcome is no change. */
  lemma RedundantIffUnchanged(md: Metadata, updates: Metadata)
    ensures Redundant(md, updates) <==> Update(md, updates) == md
  {
    if Update(md, updates) == md {
      forall k | k in updates ensures k in md && updates[k].timestamp <= md[k].timestamp {
        assert k in Update(md, updates);
      }
    }
  }

  /** What an update was given, and what was there, is there afterwards or something newer. */
  lemma UpdateKeeps(md: Metadata, updates: Metadata)
    ensures Redundant(Update(md, updates), md) && Redundant(Update(md, updates), updates)
  {
  }

  lemma RedundantTransitive(a: Metadata, b: Metadata, c: Metadata)
    requires Redundant(b, a) && Redundant(c, b)
    ensures Redundant(c, a)
  {
  }

  /** The same timestamp never comes with two values. */
  ghost predicate Consistent(a: Metadata, b: Metadata) {
    forall k :: k in a && k in b && a[k].timestamp == b[k].timestamp ==> a[k].value == b[k].value
  }

  /** Two databases that update each other agree afterwards, if and only if they had no conflict. */
  lemma ExchangeAgreesIff(a: Metadata, b: Metadata)
    ensures Update(a, b) == Update(b, a) <==> Consistent(a, b)
  {
    if Update(a, b) == Update(b, a) {
      forall k | k in a && k in b && a[k].timestamp == b[k].timestamp ensures a[k].value == b[k].value {
        assert Update(a, b)[k] == Update(b, a)[k];
      }
    }
    if Consistent(a, b) {
      assert Update(a, b).Keys == Update(b, a).Keys;
    }
  }

  /** Further exchanges change nothing: a conflict is never settled by replication. */
  lemma ExchangeIsFinal(a: Metadata, b: Metadata)
    ensures Update(Update(a, b), Update(b, a)) == Update(a, b)
  {
    RedundantIffUnchanged(Update(a, b), Update(b, a));
  }

  /** Updates can be gathered in any grouping. */
  lemma UpdateAssociative(a: Metadata, b: Metadata, c: Metadata)
    ensures Update(Update(a, b), c) == Update(a, Update(b, c))
  {
  }

  /** Two values written at the same time stay two values. */
  lemma ConflictStays()
    ensures var a, b := map["X-Account-Meta-Color" := Meta("red", 1)], map["X-Account-Meta-Color" := Meta("blue", 1)];
            Update(a, b) == a && Update(b, a) == b && a != b
  {
    var a, b := map["X-Account-Meta-Color" := Meta("red", 1)], map["X-Account-Meta-Color" := Meta("blue", 1)];
    assert a["X-Account-Meta-Color"].value[0] != b["X-Account-Meta-Color"].value[0];
  }
}
