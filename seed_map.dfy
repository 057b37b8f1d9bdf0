/** The seed map of the older pipeline: for each term, the terms whose score
    with it reached the distance cutoff, recorded in both directions. */
module SeedMaps {
  import opened Wrappers
  import opened NeighborMaps

  const NullPointerMessage: string := "SeedMap constructor received null pointer(s)."

  class SeedMap {
    const termNames: seq<string>
    const geneIDs: seq<string>
    const pvalues: seq<real>
    const nterms: nat
    var seedMap: NeighborMap

    /** An empty map over the given columns. */
    constructor(termNames: seq<string>, geneIDs: seq<string>, pvalues: seq<real>)
      ensures this.termNames == termNames && this.geneIDs == geneIDs && this.pvalues == pvalues
      ensures nterms == |termNames| && seedMap == map[]
    {
      this.termNames := termNames;
      this.geneIDs := geneIDs;
      this.pvalues := pvalues;
      nterms := |termNames|;
      seedMap := map[];
    }

    /** The constructor taking the three columns by pointer: it throws when
        any of them is null (a null pointer is `None`). */
    static method New(termNames: Option<seq<string>>, geneIDs: Option<seq<string>>,
                      pvalues: Option<seq<real>>) returns (r: Result<SeedMap>)
      ensures r.Failure? <==> termNames.None? || geneIDs.None? || pvalues.None?
      ensures r.Failure? ==> r.error == InvalidArgument(NullPointerMessage)
      ensures r.Success? ==> fresh(r.value) && r.value.seedMap == map[]
      ensures r.Success? ==> r.value.nterms == |termNames.value| && r.value.termNames == termNames.value
    {
      if termNames.None? || geneIDs.None? || pvalues.None? {
        return Failure(InvalidArgument(NullPointerMessage));
      }
      var s := new SeedMap(termNames.value, geneIDs.value, pvalues.value);
      r := Success(s);
    }

    /** Records the pair in both directions. */
    method AddTermPair(term1: int, term2: int)
      modifies this
      ensures seedMap == Insert(Insert(old(seedMap), term1, term2), term2, term1)
      ensures Term2ExistsInTerm1Set(term1, term2) && Term2ExistsInTerm1Set(term2, term1)
      ensures forall a, b :: Related(seedMap, a, b) <==>
                Related(old(seedMap), a, b) || (a == term1 && b == term2) || (a == term2 && b == term1)
      ensures Symmetric(old(seedMap)) ==> Symmetric(seedMap)
      ensures forall k :: k != term1 && k != term2 ==> (k in seedMap <==> k in old(seedMap))
      ensures forall k :: k != term1 && k != term2 && k in old(seedMap) ==> seedMap[k] == old(seedMap)[k]
    {
      AddSingleTermPair(term1, term2);
      AddSingleTermPair(term2, term1);
      forall a, b
        ensures Related(seedMap, a, b) <==>
                Related(old(seedMap), a, b) || (a == term1 && b == term2) || (a == term2 && b == term1)
      {
        InsertBothRelated(old(seedMap), term1, term2, a, b);
      }
      InsertBothOtherKeys(old(seedMap), term1, term2);
      if Symmetric(old(seedMap)) {
        InsertBothSymmetric(old(seedMap), term1, term2);
      }
    }

    /** Adds `value` to the set of `key`, creating the singleton when `key`
        has no entry; a pair already present changes nothing. */
    method AddSingleTermPair(key: int, value: int)
      modifies this
      ensures seedMap == Insert(old(seedMap), key, value)
      ensures key !in old(seedMap) ==> seedMap[key] == {value}
      ensures key in old(seedMap) ==> seedMap[key] == old(seedMap)[key] + {value}
      ensures Related(old(seedMap), key, value) ==> seedMap == old(seedMap)
    {
      if key in seedMap {
        seedMap := seedMap[key := seedMap[key] + {value}];
      } else {
        seedMap := seedMap[key := {value}];
      }
      InsertIdempotent(old(seedMap), key, value);
    }

    /** Looks `term2` up in the set of `term1`; false when `term1` has no
        entry.  Reads only. */
    function Term2ExistsInTerm1Set(term1: int, term2: int): (r: bool)
      reads this
      ensures r <==> Related(seedMap, term1, term2)
      ensures term1 !in seedMap ==> !r
    {
      if term1 in seedMap then term2 in seedMap[term1] else false
    }
  }
}
