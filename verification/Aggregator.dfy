/** The payloads the sender posts, and what the aggregator's copy becomes when it takes one. */
module Aggregator {
  import opened Types
  import opened EdgeTables
  import opened ReconcilerState

  /** A node as it is sent: its metadata stays behind. */
  datatype Resource = Resource(uid: UID, resource: string, props: map<string, Value>)

  function Wire(n: Node): Resource {
    Resource(n.uid, n.resource, n.props)
  }

  datatype Payload = Payload(
    deletedResources: seq<UID>,
    addResources: seq<Node>,
    updatedResources: seq<Node>,
    addEdges: seq<Edge>,
    deleteEdges: seq<Edge>,
    clearAll: bool)
  {
    predicate Empty() {
      && |deletedResources| == 0 && |addResources| == 0 && |updatedResources| == 0
      && |addEdges| == 0 && |deleteEdges| == 0
    }
  }

  function DeltaPayload(d: Delta): Payload {
    Payload(d.deleteNodes, d.addNodes, d.updateNodes, d.addEdges, d.deleteEdges, false)
  }

  function CompletePayload(c: CompleteState): Payload {
    Payload([], c.nodes, [], c.edges, [], true)
  }

  // ---- The remote copy ----

  datatype Copy = Copy(nodes: map<UID, Resource>, edges: map<Pair, Edge>)

  const EMPTY := Copy(map[], map[])

  datatype Part = DeleteResources | AddResources | UpdateResources | DeleteEdges | AddEdges

  const ALL_PARTS := {DeleteResources, AddResources, UpdateResources, DeleteEdges, AddEdges}

  function PutResources(m: map<UID, Resource>, list: seq<Node>): map<UID, Resource> {
    if list == [] then m
    else PutResources(m, list[..|list| - 1])[list[|list| - 1].uid := Wire(list[|list| - 1])]
  }

  function PutEdges(m: map<Pair, Edge>, list: seq<Edge>): map<Pair, Edge> {
    if list == [] then m
    else PutEdges(m, list[..|list| - 1])[list[|list| - 1].Ends() := list[|list| - 1]]
  }

  function Without(m: map<Pair, Edge>, list: seq<Edge>): map<Pair, Edge> {
    map p | p in m && !Joins(list, p) :: m[p]
  }

  function WithoutTouching(m: map<Pair, Edge>, uids: seq<UID>): map<Pair, Edge> {
    map p | p in m && !Touches(p, uids) :: m[p]
  }

  /** Deleting a resource takes its edges with it. */
  function Take(a: Copy, p: Payload, part: Part): Copy {
    match part
    case DeleteResources =>
      Copy(a.nodes - (set u | u in p.deletedResources), WithoutTouching(a.edges, p.deletedResources))
    case AddResources => a.(nodes := PutResources(a.nodes, p.addResources))
    case UpdateResources => a.(nodes := PutResources(a.nodes, p.updatedResources))
    case DeleteEdges => a.(edges := Without(a.edges, p.deleteEdges))
    case AddEdges => a.(edges := PutEdges(a.edges, p.addEdges))
  }

  function TakeAll(a: Copy, p: Payload, parts: seq<Part>): Copy {
    if parts == [] then a else Take(TakeAll(a, p, parts[..|parts| - 1]), p, parts[|parts| - 1])
  }

  const USUAL_ORDER := [DeleteResources, AddResources, UpdateResources, DeleteEdges, AddEdges]

  function Apply(a: Copy, p: Payload): Copy {
    TakeAll(if p.clearAll then EMPTY else a, p, USUAL_ORDER)
  }

  // ---- The state after any of the parts, key by key ----

  function FindNode(list: seq<Node>, u: UID): Option<Node> {
    if list == [] then None
    else if list[|list| - 1].uid == u then Some(list[|list| - 1])
    else FindNode(list[..|list| - 1], u)
  }

  function FindEdge(list: seq<Edge>, q: Pair): Option<Edge> {
    if list == [] then None
    else if list[|list| - 1].Ends() == q then Some(list[|list| - 1])
    else FindEdge(list[..|list| - 1], q)
  }

  lemma {:induction false} PutResourcesLookup(m: map<UID, Resource>, list: seq<Node>, u: UID)
    ensures Lookup(PutResources(m, list), u) ==
      match FindNode(list, u) case Some(n) => Some(Wire(n)) case None => Lookup(m, u)
  {
    if list != [] {
      PutResourcesLookup(m, list[..|list| - 1], u);
    }
  }

  lemma {:induction false} PutEdgesLookup(m: map<Pair, Edge>, list: seq<Edge>, q: Pair)
    ensures Lookup(PutEdges(m, list), q) == OrElse(FindEdge(list, q), Lookup(m, q))
  {
    if list != [] {
      PutEdgesLookup(m, list[..|list| - 1], q);
    }
  }

  lemma {:induction false} FindEdgeJoins(list: seq<Edge>, q: Pair)
    ensures FindEdge(list, q).Some? <==> Joins(list, q)
    ensures FindEdge(list, q).Some? ==> FindEdge(list, q).value in list && FindEdge(list, q).value.Ends() == q
  {
    if list != [] {
      var n := |list| - 1;
      FindEdgeJoins(list[..n], q);
      assert list == list[..n] + [list[n]];
      JoinsSplits(list[..n], [list[n]], q);
    }
  }

  /** No resource is in two of the lists, and no edge is both added and deleted. */
  ghost predicate Disjoint(p: Payload) {
    && (forall u :: FindNode(p.addResources, u).Some? ==>
      u !in p.deletedResources && FindNode(p.updatedResources, u).None?)
    && (forall u :: FindNode(p.updatedResources, u).Some? ==> u !in p.deletedResources)
    && (forall q :: Joins(p.addEdges, q) ==> !Joins(p.deleteEdges, q))
  }

  ghost predicate AddsAvoidDeleted(p: Payload) {
    forall q :: Joins(p.addEdges, q) ==> !Touches(q, p.deletedResources)
  }

  ghost function NodeAfter(a: Copy, p: Payload, done: set<Part>, u: UID): Option<Resource> {
    if DeleteResources in done && u in p.deletedResources then None
    else if AddResources in done && FindNode(p.addResources, u).Some? then Some(Wire(FindNode(p.addResources, u).value))
    else if UpdateResources in done && FindNode(p.updatedResources, u).Some?
      then Some(Wire(FindNode(p.updatedResources, u).value))
    else Lookup(a.nodes, u)
  }

  ghost function EdgeAfter(a: Copy, p: Payload, done: set<Part>, q: Pair): Option<Edge> {
    if AddEdges in done && FindEdge(p.addEdges, q).Some? then FindEdge(p.addEdges, q)
    else if DeleteEdges in done && Joins(p.deleteEdges, q) then None
    else if DeleteResources in done && Touches(q, p.deletedResources) then None
    else Lookup(a.edges, q)
  }

  ghost predicate IsAfter(a: Copy, p: Payload, done: set<Part>, b: Copy) {
    && (forall u :: Lookup(b.nodes, u) == NodeAfter(a, p, done, u))
    && (forall q :: Lookup(b.edges, q) == EdgeAfter(a, p, done, q))
  }

  lemma TakeMovesOn(a: Copy, p: Payload, done: set<Part>, b: Copy, part: Part)
    requires Disjoint(p) && IsAfter(a, p, done, b)
    requires part == DeleteResources && AddEdges in done ==> AddsAvoidDeleted(p)
    ensures IsAfter(a, p, done + {part}, Take(b, p, part))
  {
    forall u ensures Lookup(Take(b, p, part).nodes, u) == NodeAfter(a, p, done + {part}, u) {
      TakeNode(a, p, done, b, part, u);
    }
    forall q ensures Lookup(Take(b, p, part).edges, q) == EdgeAfter(a, p, done + {part}, q) {
      TakeEdge(a, p, done, b, part, q);
    }
  }

  lemma TakeNode(a: Copy, p: Payload, done: set<Part>, b: Copy, part: Part, u: UID)
    requires Disjoint(p) && Lookup(b.nodes, u) == NodeAfter(a, p, done, u)
    ensures Lookup(Take(b, p, part).nodes, u) == NodeAfter(a, p, done + {part}, u)
  {
    PutResourcesLookup(b.nodes, p.addResources, u);
    PutResourcesLookup(b.nodes, p.updatedResources, u);
  }

  lemma TakeEdge(a: Copy, p: Payload, done: set<Part>, b: Copy, part: Part, q: Pair)
    requires Disjoint(p) && Lookup(b.edges, q) == EdgeAfter(a, p, done, q)
    requires part == DeleteResources && AddEdges in done ==> AddsAvoidDeleted(p)
    ensures Lookup(Take(b, p, part).edges, q) == EdgeAfter(a, p, done + {part}, q)
  {
    PutEdgesLookup(b.edges, p.addEdges, q);
    FindEdgeJoins(p.addEdges, q);
  }

  function Range(parts: seq<Part>): set<Part> {
    set x | x in parts
  }

  ghost predicate DeletesBeforeAdds(parts: seq<Part>) {
    forall i, j :: 0 <= i < j < |parts| && parts[i] == AddEdges ==> parts[j] != DeleteResources
  }

  lemma {:induction false} TakeAllIsAfter(a: Copy, p: Payload, parts: seq<Part>)
    requires Disjoint(p)
    requires AddsAvoidDeleted(p) || DeletesBeforeAdds(parts)
    ensures IsAfter(a, p, Range(parts), TakeAll(a, p, parts))
  {
    if parts != [] {
      var n := |parts| - 1;
      TakeAllIsAfter(a, p, parts[..n]);
      TakeMovesOn(a, p, Range(parts[..n]), TakeAll(a, p, parts[..n]), parts[n]);
      assert parts == parts[..n] + [parts[n]];
      assert Range(parts) == Range(parts[..n]) + {parts[n]};
    }
  }

  lemma SameAfter(a: Copy, p: Payload, done: set<Part>, b: Copy, c: Copy)
    requires IsAfter(a, p, done, b) && IsAfter(a, p, done, c)
    ensures b == c
  {
    forall u | u in b.nodes || u in c.nodes ensures u in b.nodes && u in c.nodes && b.nodes[u] == c.nodes[u] {
      assert Lookup(b.nodes, u) == Lookup(c.nodes, u);
    }
    forall q | q in b.edges || q in c.edges ensures q in b.edges && q in c.edges && b.edges[q] == c.edges[q] {
      assert Lookup(b.edges, q) == Lookup(c.edges, q);
    }
  }

  /**
   * A disjoint payload means one thing: however the aggregator orders the parts, and however often it
   * repeats them, the copy it ends up with is the same.
   */
  lemma OrderAndRepetitionDoNotMatter(a: Copy, p: Payload, parts: seq<Part>, others: seq<Part>)
    requires Disjoint(p) && AddsAvoidDeleted(p)
    requires Range(parts) == Range(others)
    ensures TakeAll(a, p, parts) == TakeAll(a, p, others)
  {
    TakeAllIsAfter(a, p, parts);
    TakeAllIsAfter(a, p, others);
    SameAfter(a, p, Range(parts), TakeAll(a, p, parts), TakeAll(a, p, others));
  }

  lemma {:induction false} TakeAllConcat(a: Copy, p: Payload, x: seq<Part>, y: seq<Part>)
    ensures TakeAll(TakeAll(a, p, x), p, y) == TakeAll(a, p, x + y)
  {
    if y == [] {
      assert x + y == x;
    } else {
      var n := |y| - 1;
      TakeAllConcat(a, p, x, y[..n]);
      assert (x + y)[..|x + y| - 1] == x + y[..n];
    }
  }

  /** Sending a payload again, after it was applied, changes nothing. */
  lemma ApplyTwice(a: Copy, p: Payload)
    requires p.clearAll || (Disjoint(p) && AddsAvoidDeleted(p))
    ensures Apply(Apply(a, p), p) == Apply(a, p)
  {
    if !p.clearAll {
      TakeAllConcat(a, p, USUAL_ORDER, USUAL_ORDER);
      assert Range(USUAL_ORDER + USUAL_ORDER) == Range(USUAL_ORDER);
      OrderAndRepetitionDoNotMatter(a, p, USUAL_ORDER + USUAL_ORDER, USUAL_ORDER);
    }
  }

  lemma UsualOrderIsAfter(a: Copy, p: Payload)
    requires Disjoint(p)
    ensures IsAfter(a, p, ALL_PARTS, TakeAll(a, p, USUAL_ORDER))
  {
    assert Range(USUAL_ORDER) == ALL_PARTS by {
      assert USUAL_ORDER[0] == DeleteResources && USUAL_ORDER[1] == AddResources && USUAL_ORDER[2] == UpdateResources
          && USUAL_ORDER[3] == DeleteEdges && USUAL_ORDER[4] == AddEdges;
    }
    TakeAllIsAfter(a, p, USUAL_ORDER);
  }
}
