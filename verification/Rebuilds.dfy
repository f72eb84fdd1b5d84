/** When building the edges twice from the same nodes gives the same pairs. */
module Rebuilds {
  import opened Types
  import opened Text
  import opened NodeIndex
  import opened EdgeTables
  import opened ReconcilerState

  lemma {:induction false} IndexExists(nodes: map<UID, Node>) returns (idx: Index)
    ensures IsIndex(idx, nodes)
    decreases |nodes|
  {
    if u :| u in nodes {
      var rest, n := nodes - {u}, nodes[u];
      assert nodes == rest[u := n];
      idx := IndexExists(rest);
      if KeyOf(n) == None {
        SkipKeepsIndex(idx, rest, u, n);
      } else {
        InsertKeepsIndex(idx, rest, u, n, KeyOf(n).value);
        idx := Insert(idx, KeyOf(n).value, n);
      }
    } else {
      idx := map[];
      NothingFiled();
    }
  }

  lemma OrderExists(keys: set<UID>, idx: Index) returns (order: seq<UID>)
    ensures multiset(order) == multiset(keys) && ApplicationsFirst(order, idx)
    ensures forall u :: u in order <==> u in keys
  {
    hide ListedApplication;
    var apps := set u | u in keys && ListedApplication(idx, u);
    var first := SortingExists(apps);
    var second := SortingExists(keys - apps);
    SameMembers(first, apps);
    SameMembers(second, keys - apps);
    order := first + second;
    assert apps + (keys - apps) == keys;
    assert multiset(keys) == multiset(apps) + multiset(keys - apps);
    assert forall k :: 0 <= k < |first| ==> order[k] in first;
    assert forall k :: |first| <= k < |order| ==> order[k] in second;
    assert forall k :: 0 <= k < |order| ==> (ListedApplication(idx, order[k]) <==> k < |first|);
  }

  lemma SameMembers(list: seq<UID>, members: set<UID>)
    requires multiset(list) == multiset(members)
    ensures forall u :: u in list <==> u in members
  {
    forall u ensures u in list <==> u in members {
      assert u in list <==> u in multiset(list);
    }
  }

  function Silent(): CommonFn {
    (u, ns) => []
  }

  /** A builder that asks the index who holds a key. */
  function Asking(key: Key, holder: Node, e: Edge): EdgeFn {
    (ns: NodeStore) => if At(ns.index, key) == Some(holder) then [e] else []
  }

  lemma BuildOver(nodes: map<UID, Node>, fns: map<UID, EdgeFn>, idx: Index) returns (t: EdgeTable)
    requires IsIndex(idx, nodes) && fns.Keys == nodes.Keys
    ensures Built(t, nodes, fns, Silent())
    ensures forall p :: p in Flat(t) <==> SomeBuilderJoins(fns, Silent(), NodeStore(nodes, idx), p)
  {
    hide IsIndex, SomeBuilderJoins, EdgesInOrder, PutAll, ApplicationsFirst;
    var order := OrderExists(fns.Keys, idx);
    t := PutAll(map[], EdgesInOrder(order, fns, Silent(), NodeStore(nodes, idx)));
    assert BuiltInOrder(t, nodes, fns, Silent(), idx, order);
    BuiltPairs(t, nodes, fns, Silent(), idx, order);
  }

  lemma AskingJoins(nodes: map<UID, Node>, u: UID, key: Key, holder: Node, e: Edge, idx: Index)
    requires u in nodes
    ensures
      var fns := map v | v in nodes :: Asking(key, holder, e);
      SomeBuilderJoins(fns, Silent(), NodeStore(nodes, idx), e.Ends()) <==> At(idx, key) == Some(holder)
  {
    hide At;
    var fns, ns := map v | v in nodes :: Asking(key, holder, e), NodeStore(nodes, idx);
    forall v | v in fns ensures EdgesOf(fns, Silent(), ns, v) == if At(idx, key) == Some(holder) then [e] else [] {
      assert Asking(key, holder, e)(ns) + [] == Asking(key, holder, e)(ns);
    }
    if At(idx, key) == Some(holder) {
      assert e in EdgesOf(fns, Silent(), ns, u);
    }
  }

  /** Nodes that share a key: the same builders, run twice over the same nodes, can give different pairs. */
  lemma TwinsRebuildDiffers(nodes: map<UID, Node>) returns (fns: map<UID, EdgeFn>, t1: EdgeTable, t2: EdgeTable)
    requires !NoTwins(nodes)
    ensures fns.Keys == nodes.Keys && Built(t1, nodes, fns, Silent()) && Built(t2, nodes, fns, Silent())
    ensures Flat(t1).Keys != Flat(t2).Keys
  {
    hide Built, IsIndex;
    var u, v, key :| Carries(nodes, u, key) && Carries(nodes, v, key) && nodes[u] != nodes[v];
    var idx := IndexExists(nodes);
    var w := if At(idx, key) == Some(nodes[u]) then v else u;
    var other := TwinSwapped(idx, nodes, key, w);
    var e := Edge("", u, v, "", "");
    fns := map x | x in nodes :: Asking(key, nodes[w], e);
    t1 := BuildOver(nodes, fns, idx);
    t2 := BuildOver(nodes, fns, other);
    AskingJoins(nodes, u, key, nodes[w], e, idx);
    AskingJoins(nodes, u, key, nodes[w], e, other);
    assert e.Ends() !in Flat(t1) && e.Ends() in Flat(t2);
  }

  ghost predicate RebuildsAgree(nodes: map<UID, Node>, fns: map<UID, EdgeFn>, common: CommonFn) {
    forall t1, t2 :: Built(t1, nodes, fns, common) && Built(t2, nodes, fns, common) ==> Flat(t1).Keys == Flat(t2).Keys
  }

  /**
   * Every rebuild joins the same pairs, whatever the builders and the iteration orders, exactly when no two
   * different nodes share group, kind, namespace and name.
   */
  lemma RebuildsAgreeIff(nodes: map<UID, Node>)
    ensures NoTwins(nodes) <==> forall fns: map<UID, EdgeFn>, common: CommonFn :: fns.Keys == nodes.Keys ==>
      RebuildsAgree(nodes, fns, common)
  {
    if NoTwins(nodes) {
      forall fns: map<UID, EdgeFn>, common: CommonFn, t1, t2 | Built(t1, nodes, fns, common) &&
        Built(t2, nodes, fns, common)
        ensures Flat(t1).Keys == Flat(t2).Keys
      {
        RebuildAgrees(t1, t2, nodes, fns, common);
      }
    } else {
      var fns, t1, t2 := TwinsRebuildDiffers(nodes);
      assert !RebuildsAgree(nodes, fns, Silent());
    }
  }
}
