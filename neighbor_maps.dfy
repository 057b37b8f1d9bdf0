/** Maps from a term index to the set of term indices related to it, as
    `std::unordered_map<int, std::unordered_set<int>>`.  Both the adjacency
    list of the newer pipeline and the seed map of the older one are such a
    map, grown one insertion at a time. */
module NeighborMaps {

  type NeighborMap = map<int, set<int>>

  /** The map relates `key` to `value`: the key has an entry and the value is
      in its set.  A lookup through `find` never creates an entry. */
  predicate Related(m: NeighborMap, key: int, value: int)
  {
    key in m && value in m[key]
  }

  /** One insertion: into the existing set of `key`, or as the singleton
      `{value}` under a new key. */
  function Insert(m: NeighborMap, key: int, value: int): (r: NeighborMap)
    ensures r.Keys == m.Keys + {key}
  {
    if key in m then m[key := m[key] + {value}] else m[key := {value}]
  }

  /** The inserted pair is related afterwards, and it is the only new pair. */
  lemma InsertRelated(m: NeighborMap, key: int, value: int, a: int, b: int)
    ensures Related(Insert(m, key, value), a, b) <==> Related(m, a, b) || (a == key && b == value)
  {
  }

  /** An absent key gets the singleton set. */
  lemma InsertAbsentKey(m: NeighborMap, key: int, value: int)
    requires key !in m
    ensures Insert(m, key, value)[key] == {value}
  {
  }

  /** A present key gets its set grown by the value. */
  lemma InsertPresentKey(m: NeighborMap, key: int, value: int)
    requires key in m
    ensures Insert(m, key, value)[key] == m[key] + {value}
  {
  }

  /** Every other key keeps its entry, or stays absent. */
  lemma InsertOtherKeys(m: NeighborMap, key: int, value: int)
    ensures forall k :: k != key ==> (k in Insert(m, key, value) <==> k in m)
    ensures forall k :: k != key && k in m ==> Insert(m, key, value)[k] == m[k]
  {
  }

  /** Inserting a pair that is already there changes nothing, so inserting
      twice is inserting once. */
  lemma InsertIdempotent(m: NeighborMap, key: int, value: int)
    ensures Insert(Insert(m, key, value), key, value) == Insert(m, key, value)
    ensures Related(m, key, value) ==> Insert(m, key, value) == m
  {
    var m1 := Insert(m, key, value);
    assert m1[key] + {value} == m1[key];
    assert m1[key := m1[key]] == m1;
    if Related(m, key, value) {
      assert m[key] + {value} == m[key];
      assert m[key := m[key]] == m;
    }
  }

  /** No entry of the map holds an empty set. */
  ghost predicate NoEmptySets(m: NeighborMap)
  {
    forall k :: k in m ==> m[k] != {}
  }

  /** Insertion never creates an empty set. */
  lemma InsertNoEmptySets(m: NeighborMap, key: int, value: int)
    requires NoEmptySets(m)
    ensures NoEmptySets(Insert(m, key, value))
  {
    assert value in Insert(m, key, value)[key];
  }

  /** The relation is symmetric: v is in m[k] exactly when k is in m[v]. */
  ghost predicate Symmetric(m: NeighborMap)
  {
    forall a, b :: Related(m, a, b) ==> Related(m, b, a)
  }

  /** Inserting a pair in both directions keeps the relation symmetric. */
  lemma InsertBothSymmetric(m: NeighborMap, a: int, b: int)
    requires Symmetric(m)
    ensures Symmetric(Insert(Insert(m, a, b), b, a))
  {
    var m' := Insert(Insert(m, a, b), b, a);
    forall x, y | Related(m', x, y)
      ensures Related(m', y, x)
    {
      InsertRelated(Insert(m, a, b), b, a, x, y);
      InsertRelated(m, a, b, x, y);
      InsertRelated(Insert(m, a, b), b, a, y, x);
      InsertRelated(m, a, b, y, x);
    }
  }

  /** A two-way insertion leaves the entries of all other keys alone. */
  lemma InsertBothOtherKeys(m: NeighborMap, a: int, b: int)
    ensures forall k :: k != a && k != b ==> (k in Insert(Insert(m, a, b), b, a) <==> k in m)
    ensures forall k :: k != a && k != b && k in m ==> Insert(Insert(m, a, b), b, a)[k] == m[k]
  {
    InsertOtherKeys(m, a, b);
    InsertOtherKeys(Insert(m, a, b), b, a);
  }

  /** The new relation after a two-way insertion. */
  lemma InsertBothRelated(m: NeighborMap, a: int, b: int, x: int, y: int)
    ensures Related(Insert(Insert(m, a, b), b, a), x, y) <==>
            Related(m, x, y) || (x == a && y == b) || (x == b && y == a)
  {
    InsertRelated(Insert(m, a, b), b, a, x, y);
    InsertRelated(m, a, b, x, y);
  }
}
