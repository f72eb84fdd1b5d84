/** Edges from a node to its owner, its owner's owner and so on, over owner references that may form cycles. */
module OwnerEdges {
  import opened Types
  import opened ReconcilerState

  datatype NodeInfo = NodeInfo(edgeType: string, name: string, namespace: string, uid: UID, kind: string)

  function OwnerOf(ns: NodeStore, u: UID): UID
    requires u in ns.byUID
  {
    ns.byUID[u].GetMetadata("OwnerUID")
  }

  function OwnerEdge(dest: Node, destUID: UID, info: NodeInfo): Edge {
    Edge(info.edgeType, info.uid, destUID, info.kind, dest.Text("kind"))
  }

  /** The edge to the release that the owner belongs to, if there is one and it is stored. */
  function ReleaseEdges(dest: Node, ns: NodeStore, info: NodeInfo): seq<Edge> {
    var release := dest.GetMetadata("ReleaseUID");
    if release != "" && release in ns.byUID && info.uid != release
    then [Edge("ownedBy", info.uid, release, info.kind, dest.Text("kind"))]
    else []
  }

  /** Terminates on every store: each call adds a stored node to those already seen. */
  function EdgesByOwner(destUID: UID, ns: NodeStore, info: NodeInfo, seenDests: seq<UID>): (ret: seq<Edge>)
    ensures forall e :: e in ret ==> e.src == info.uid && e.dst in ns.byUID && e.dst != e.src
    decreases ns.byUID.Keys - (set u | u in seenDests)
  {
    if destUID in seenDests then []
    else if destUID == "" || destUID !in ns.byUID || info.uid == destUID then []
    else
      var dest := ns.byUID[destUID];
      var seen := seenDests + [destUID];
      assert destUID in ns.byUID.Keys - (set u | u in seenDests);
      var owner := dest.GetMetadata("OwnerUID");
      [OwnerEdge(dest, destUID, info)] + ReleaseEdges(dest, ns, info) +
      (if owner != "" then EdgesByOwner(owner, ns, info, seen) else [])
  }

  // ---- What it computes ----

  /** The node the chain would go on with. */
  function NextOwner(chain: seq<UID>, first: UID, ns: NodeStore): UID {
    if chain == [] then first
    else if chain[|chain| - 1] in ns.byUID then OwnerOf(ns, chain[|chain| - 1])
    else ""
  }

  /** The chain cannot go on with this node. */
  predicate Stops(next: UID, ns: NodeStore, source: UID, before: seq<UID>) {
    next == "" || next !in ns.byUID || next == source || next in before
  }

  /** A stretch of the owner chain from first: each node is owner of the one before, and none stops it. */
  predicate OwnerPath(chain: seq<UID>, first: UID, ns: NodeStore, source: UID) {
    if chain == [] then true
    else
      var last := |chain| - 1;
      && OwnerPath(chain[..last], first, ns, source)
      && chain[last] == NextOwner(chain[..last], first, ns)
      && !Stops(chain[last], ns, source, chain[..last])
  }

  /** The longest one. */
  predicate LongestOwnerChain(chain: seq<UID>, first: UID, ns: NodeStore, source: UID) {
    OwnerPath(chain, first, ns, source) && Stops(NextOwner(chain, first, ns), ns, source, chain)
  }

  /** Its nodes are stored, all different, and different from the source. */
  lemma {:induction false} OwnerPathNodes(chain: seq<UID>, first: UID, ns: NodeStore, source: UID)
    requires OwnerPath(chain, first, ns, source)
    ensures forall u :: u in chain ==> u in ns.byUID && u != source
    ensures NoDuplicates(chain)
  {
    if chain != [] {
      var last := |chain| - 1;
      OwnerPathNodes(chain[..last], first, ns, source);
      assert chain == chain[..last] + [chain[last]];
    }
  }

  lemma {:induction false} OwnerPathsAgree(a: seq<UID>, b: seq<UID>, first: UID, ns: NodeStore, source: UID)
    requires OwnerPath(a, first, ns, source) && OwnerPath(b, first, ns, source)
    requires |a| <= |b|
    ensures a == b[..|a|]
    ensures |a| < |b| ==> b[|a|] == NextOwner(a, first, ns) && !Stops(b[|a|], ns, source, a)
    decreases |a| + |b|
  {
    hide Stops, NextOwner;
    if |a| < |b| {
      var last := |b| - 1;
      OwnerPathsAgree(a, b[..last], first, ns, source);
      assert b[..last][..|a|] == b[..|a|];
      if |a| == last {
        assert b[..last] == a;
      }
    } else if |a| > 0 {
      var last := |a| - 1;
      OwnerPathsAgree(a[..last], b[..last], first, ns, source);
      assert a[..last] == b[..last][..last] == b[..last];
      assert a == a[..last] + [a[last]] && b == b[..last] + [b[last]];
    }
  }

  lemma LongestChainUnique(a: seq<UID>, b: seq<UID>, first: UID, ns: NodeStore, source: UID)
    requires LongestOwnerChain(a, first, ns, source) && LongestOwnerChain(b, first, ns, source)
    ensures a == b
  {
    if |a| <= |b| {
      OwnerPathsAgree(a, b, first, ns, source);
    } else {
      OwnerPathsAgree(b, a, first, ns, source);
    }
  }

  function ChainEdges(chain: seq<UID>, ns: NodeStore, info: NodeInfo): seq<Edge>
    requires forall u :: u in chain ==> u in ns.byUID
  {
    if chain == [] then []
    else
      [OwnerEdge(ns.byUID[chain[0]], chain[0], info)] + ReleaseEdges(ns.byUID[chain[0]], ns, info)
      + ChainEdges(chain[1..], ns, info)
  }

  /** Walks the chain from the point where walked ends; rest is what is still to come. */
  lemma {:induction false} WalkOwners(walked: seq<UID>, first: UID, ns: NodeStore, info: NodeInfo)
    returns (rest: seq<UID>)
    requires OwnerPath(walked, first, ns, info.uid)
    ensures LongestOwnerChain(walked + rest, first, ns, info.uid)
    ensures forall u :: u in rest ==> u in ns.byUID
    ensures EdgesByOwner(NextOwner(walked, first, ns), ns, info, walked) == ChainEdges(rest, ns, info)
    decreases ns.byUID.Keys - (set u | u in walked)
  {
    hide OwnerPath, EdgesByOwner, ChainEdges;
    var next := NextOwner(walked, first, ns);
    if Stops(next, ns, info.uid, walked) {
      rest := [];
      assert walked + [] == walked;
      ChainEnds(walked, next, ns, info);
    } else {
      OwnerPathGrows(walked, first, ns, info.uid);
      assert next in ns.byUID.Keys - (set u | u in walked);
      var tail := WalkOwners(walked + [next], first, ns, info);
      rest := [next] + tail;
      assert walked + rest == walked + [next] + tail;
      ChainStep(walked, next, tail, ns, info);
    }
  }

  lemma OwnerPathGrows(walked: seq<UID>, first: UID, ns: NodeStore, source: UID)
    requires OwnerPath(walked, first, ns, source)
    requires !Stops(NextOwner(walked, first, ns), ns, source, walked)
    ensures
      var next := NextOwner(walked, first, ns);
      && OwnerPath(walked + [next], first, ns, source)
      && NextOwner(walked + [next], first, ns) == OwnerOf(ns, next)
  {
    var next := NextOwner(walked, first, ns);
    assert (walked + [next])[..|walked|] == walked;
  }

  lemma ChainEnds(walked: seq<UID>, next: UID, ns: NodeStore, info: NodeInfo)
    requires Stops(next, ns, info.uid, walked)
    ensures EdgesByOwner(next, ns, info, walked) == ChainEdges([], ns, info)
  {
  }

  lemma ChainStep(walked: seq<UID>, next: UID, tail: seq<UID>, ns: NodeStore, info: NodeInfo)
    requires !Stops(next, ns, info.uid, walked)
    requires forall u :: u in tail ==> u in ns.byUID
    requires EdgesByOwner(OwnerOf(ns, next), ns, info, walked + [next]) == ChainEdges(tail, ns, info)
    ensures EdgesByOwner(next, ns, info, walked) == ChainEdges([next] + tail, ns, info)
  {
    assert ([next] + tail)[1..] == tail;
  }

  /**
   * On any owner graph, cycles included, the owner edges go exactly to the longest stored, repeat-free part
   * of the owner chain that avoids the source, in order, each followed by the edge to its release.
   */
  lemma OwnerEdgesFollowChain(destUID: UID, ns: NodeStore, info: NodeInfo, chain: seq<UID>)
    requires LongestOwnerChain(chain, destUID, ns, info.uid)
    ensures (forall u :: u in chain ==> u in ns.byUID)
         && EdgesByOwner(destUID, ns, info, []) == ChainEdges(chain, ns, info)
  {
    var walked := WalkOwners([], destUID, ns, info);
    assert [] + walked == walked;
    LongestChainUnique(chain, walked, destUID, ns, info.uid);
  }

  /** The i-th place of a chain, or the one after its end: the start, or the owner of the node before. */
  predicate ComesNext(next: UID, chain: seq<UID>, i: nat, first: UID, ns: NodeStore)
    requires i <= |chain|
  {
    if i == 0 then next == first
    else chain[i - 1] in ns.byUID && next == ns.byUID[chain[i - 1]].GetMetadata("OwnerUID")
  }

  ghost predicate Walkable(chain: seq<UID>, first: UID, ns: NodeStore, source: UID) {
    && (forall i :: 0 <= i < |chain| ==> ComesNext(chain[i], chain, i, first, ns))
    && (forall u :: u in chain ==> u != "" && u in ns.byUID && u != source)
    && NoDuplicates(chain)
  }

  lemma {:induction false} OwnerPathIff(chain: seq<UID>, first: UID, ns: NodeStore, source: UID)
    ensures OwnerPath(chain, first, ns, source) <==> Walkable(chain, first, ns, source)
  {
    if chain != [] {
      var last := |chain| - 1;
      OwnerPathIff(chain[..last], first, ns, source);
      WalkableSplits(chain, first, ns, source);
      assert Walkable(chain[..last], first, ns, source) ==>
        (chain[last] == NextOwner(chain[..last], first, ns) && !Stops(chain[last], ns, source, chain[..last]) <==>
          && ComesNext(chain[last], chain, last, first, ns) && chain[last] != "" && chain[last] in ns.byUID
          && chain[last] != source && chain[last] !in chain[..last]) by {
        if last > 0 { assert chain[..last][last - 1] == chain[last - 1] && chain[last - 1] in chain[..last]; }
      }
    }
  }

  lemma WalkableSplits(chain: seq<UID>, first: UID, ns: NodeStore, source: UID)
    requires chain != []
    ensures
      var last := |chain| - 1;
      Walkable(chain, first, ns, source) <==>
        && Walkable(chain[..last], first, ns, source)
        && ComesNext(chain[last], chain, last, first, ns) && chain[last] != "" && chain[last] in ns.byUID
        && chain[last] != source && chain[last] !in chain[..last]
  {
    hide NoDuplicates, ComesNext;
    var last := |chain| - 1;
    var most := chain[..last];
    assert chain == most + [chain[last]];
    NoDuplicatesSplits(most, chain[last]);
    forall i | 0 <= i < last
      ensures ComesNext(chain[i], chain, i, first, ns) <==> ComesNext(most[i], most, i, first, ns)
    {
      SameBefore(chain, most, i, first, ns);
    }
    assert forall u :: u in chain <==> u in most || u == chain[last];
  }

  lemma SameBefore(chain: seq<UID>, most: seq<UID>, i: nat, first: UID, ns: NodeStore)
    requires most <= chain && i < |most|
    ensures ComesNext(chain[i], chain, i, first, ns) <==> ComesNext(most[i], most, i, first, ns)
  {
  }

  lemma NoDuplicatesSplits(s: seq<UID>, x: UID)
    ensures NoDuplicates(s + [x]) <==> NoDuplicates(s) && x !in s
  {
    var all := s + [x];
    assert forall i :: 0 <= i < |s| ==> all[i] == s[i];
    assert all[|s|] == x;
    if x in s {
      var i :| 0 <= i < |s| && s[i] == x;
      assert all[i] == all[|s|];
    }
  }

  /**
   * The chain, written out: from the start each node is followed by the one that its metadata names as its
   * owner, all of them stored, different, and not the source; and it goes on for as long as it can.
   */
  lemma LongestChainIff(chain: seq<UID>, first: UID, ns: NodeStore, source: UID)
    ensures LongestOwnerChain(chain, first, ns, source) <==>
      && Walkable(chain, first, ns, source)
      && forall next :: ComesNext(next, chain, |chain|, first, ns) ==>
           next == "" || next !in ns.byUID || next == source || next in chain
  {
    hide OwnerPath;
    OwnerPathIff(chain, first, ns, source);
    if chain != [] {
      assert chain[|chain| - 1] in chain;
    }
    if Walkable(chain, first, ns, source) {
      assert ComesNext(NextOwner(chain, first, ns), chain, |chain|, first, ns);
    }
  }

  /** The edge to an owner, or the one of type "ownedBy" to the release that this owner belongs to. */
  ghost predicate IsOwnerEdge(e: Edge, owner: UID, ns: NodeStore, info: NodeInfo) {
    && owner in ns.byUID
    && var kind, release := ns.byUID[owner].Text("kind"), ns.byUID[owner].GetMetadata("ReleaseUID");
       || e == Edge(info.edgeType, info.uid, owner, info.kind, kind)
       || (release != "" && release in ns.byUID && release != info.uid
           && e == Edge("ownedBy", info.uid, release, info.kind, kind))
  }

  lemma {:induction false} ChainEdgesIff(chain: seq<UID>, ns: NodeStore, info: NodeInfo, e: Edge)
    requires forall u :: u in chain ==> u in ns.byUID
    ensures e in ChainEdges(chain, ns, info) <==> exists u :: u in chain && IsOwnerEdge(e, u, ns, info)
  {
    if chain != [] {
      ChainEdgesIff(chain[1..], ns, info, e);
      assert forall u :: u in chain <==> u == chain[0] || u in chain[1..];
      assert IsOwnerEdge(e, chain[0], ns, info) <==>
        e == OwnerEdge(ns.byUID[chain[0]], chain[0], info) || e in ReleaseEdges(ns.byUID[chain[0]], ns, info);
    }
  }

  /** The edges are exactly those to the owners on the chain and to their releases. */
  lemma OwnerEdgesIff(destUID: UID, ns: NodeStore, info: NodeInfo, chain: seq<UID>)
    requires LongestOwnerChain(chain, destUID, ns, info.uid)
    ensures forall e :: e in EdgesByOwner(destUID, ns, info, []) <==>
      exists u :: u in chain && IsOwnerEdge(e, u, ns, info)
  {
    hide EdgesByOwner, ChainEdges, LongestOwnerChain, IsOwnerEdge;
    OwnerEdgesFollowChain(destUID, ns, info, chain);
    forall e ensures e in ChainEdges(chain, ns, info) <==> exists u :: u in chain && IsOwnerEdge(e, u, ns, info) {
      ChainEdgesIff(chain, ns, info, e);
    }
  }

  /** And every start has such a chain. */
  lemma OwnerChainExists(destUID: UID, ns: NodeStore, info: NodeInfo) returns (chain: seq<UID>)
    ensures LongestOwnerChain(chain, destUID, ns, info.uid)
  {
    chain := WalkOwners([], destUID, ns, info);
    assert [] + chain == chain;
  }

  /** So this builder meets what the reconciler's reports rely on: it joins stored nodes only. */
  lemma OwnerEdgesNameStored(owner: UID, info: NodeInfo)
    ensures NamesStored(info.uid, ns => EdgesByOwner(owner, ns, info, []))
  {
  }
}
