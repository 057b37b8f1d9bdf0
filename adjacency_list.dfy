/** The adjacency list of the newer pipeline: for each term, the terms whose
    score with it reached the distance cutoff. */
module AdjacencyLists {
  import opened NeighborMaps

  class AdjacencyList {
    /** Kept from the constructor; nothing reads it. */
    const nterms: int
    var adjList: NeighborMap

    /** An empty map. */
    constructor(nterms: int)
      ensures this.nterms == nterms && adjList == map[]
    {
      this.nterms := nterms;
      adjList := map[];
    }

    /** Adds `neighbor` to the set of `node`, creating the set when `node`
        has no entry.  One-directional: the entry of `neighbor` is not
        touched. */
    method AddNeighbor(node: int, neighbor: int)
      modifies this
      ensures adjList == Insert(old(adjList), node, neighbor)
      ensures HasNeighbor(node, neighbor)
      ensures forall a, b :: HasNeighbor(a, b) <==> Related(old(adjList), a, b) || (a == node && b == neighbor)
      ensures forall k :: k != node ==> (k in adjList <==> k in old(adjList))
      ensures forall k :: k != node && k in old(adjList) ==> adjList[k] == old(adjList)[k]
    {
      if node in adjList {
        adjList := adjList[node := adjList[node] + {neighbor}];
      } else {
        adjList := adjList[node := {neighbor}];
      }
      forall a, b
        ensures HasNeighbor(a, b) <==> Related(old(adjList), a, b) || (a == node && b == neighbor)
      {
        InsertRelated(old(adjList), node, neighbor, a, b);
      }
    }

    /** Looks `neighbor` up in the set of `node`; false when `node` has no
        entry.  Reads only, so no entry is created. */
    function HasNeighbor(node: int, neighbor: int): (r: bool)
      reads this
      ensures r <==> Related(adjList, node, neighbor)
      ensures node !in adjList ==> !r
    {
      if node !in adjList then false
      else neighbor in adjList[node]
    }
  }
}
