/** The four-level node index, its lookups, and the linear scan that they stand for. */
module NodeIndex {
  import opened Types
  import opened Text

  const NO_NAMESPACE := "_NONE"

  datatype Key = Key(group: string, kind: string, namespace: string, name: string)

  /** Where a node is filed. A node without a kind or a name is not filed at all. */
  function KeyOf(n: Node): Option<Key> {
    if n.Text("kind") == "" || n.Text("name") == "" then None
    else Some(Key(n.Text("apigroup"), n.Text("kind"), NormalizeNamespace(n.Text("namespace")), n.Text("name")))
  }

  function NormalizeNamespace(namespace: string): string {
    if namespace == "" then NO_NAMESPACE else namespace
  }

  // ---- One slot of the index, level by level ----

  type ByName = map<string, Node>
  type ByNamespace = map<string, ByName>
  type ByKind = map<string, ByNamespace>

  function Inner<V>(m: map<string, map<string, V>>, k: string): map<string, V> {
    if k in m then m[k] else map[]
  }

  function At2(m: ByNamespace, namespace: string, name: string): Option<Node> {
    Lookup(Inner(m, namespace), name)
  }

  function At3(m: ByKind, kind: string, namespace: string, name: string): Option<Node> {
    At2(Inner(m, kind), namespace, name)
  }

  function At(idx: Index, key: Key): Option<Node> {
    At3(Inner(idx, key.group), key.kind, key.namespace, key.name)
  }

  function Insert2(m: ByNamespace, namespace: string, name: string, n: Node): ByNamespace {
    m[namespace := Inner(m, namespace)[name := n]]
  }

  function Insert3(m: ByKind, kind: string, namespace: string, name: string, n: Node): ByKind {
    m[kind := Insert2(Inner(m, kind), namespace, name, n)]
  }

  function Insert(idx: Index, key: Key, n: Node): Index {
    idx[key.group := Insert3(Inner(idx, key.group), key.kind, key.namespace, key.name, n)]
  }

  lemma InsertAt(idx: Index, key: Key, n: Node, other: Key)
    ensures At(Insert(idx, key, n), other) == if other == key then Some(n) else At(idx, other)
  {
  }

  // ---- What makes a nested map an index of a set of nodes ----

  ghost predicate Dense2(m: ByNamespace) {
    forall ns :: ns in m ==> m[ns] != map[]
  }

  ghost predicate Dense3(m: ByKind) {
    forall k :: k in m ==> m[k] != map[] && Dense2(m[k])
  }

  /** No level holds an empty map. */
  ghost predicate Dense(idx: Index) {
    forall g :: g in idx ==> idx[g] != map[] && Dense3(idx[g])
  }

  lemma InsertDense(idx: Index, key: Key, n: Node)
    requires Dense(idx)
    ensures Dense(Insert(idx, key, n))
  {
    hide Insert3, Dense3;
    Insert3Dense(Inner(idx, key.group), key.kind, key.namespace, key.name, n);
  }

  lemma Insert3Dense(m: ByKind, kind: string, namespace: string, name: string, n: Node)
    requires m == map[] || Dense3(m)
    ensures Dense3(Insert3(m, kind, namespace, name, n)) && Insert3(m, kind, namespace, name, n) != map[]
  {
    hide Insert2, Dense2;
    Insert2Dense(Inner(m, kind), namespace, name, n);
    assert kind in Insert3(m, kind, namespace, name, n);
  }

  lemma Insert2Dense(m: ByNamespace, namespace: string, name: string, n: Node)
    requires m == map[] || Dense2(m)
    ensures Dense2(Insert2(m, namespace, name, n)) && Insert2(m, namespace, name, n) != map[]
  {
    assert name in Inner(m, namespace)[name := n];
    assert namespace in Insert2(m, namespace, name, n);
  }

  ghost predicate Carries(nodes: map<UID, Node>, u: UID, key: Key) {
    u in nodes && KeyOf(nodes[u]) == Some(key)
  }

  /** Every slot holds a node that carries the slot's key, and every key that is carried has a slot. */
  ghost predicate Files(idx: Index, nodes: map<UID, Node>) {
    && (forall key :: At(idx, key).Some? ==> exists u :: Carries(nodes, u, key) && nodes[u] == At(idx, key).value)
    && (forall u, key :: Carries(nodes, u, key) ==> At(idx, key).Some?)
  }

  ghost predicate IsIndex(idx: Index, nodes: map<UID, Node>) {
    Dense(idx) && Files(idx, nodes)
  }

  ghost predicate NoTwins(nodes: map<UID, Node>) {
    forall u, v, key :: Carries(nodes, u, key) && Carries(nodes, v, key) ==> nodes[u] == nodes[v]
  }

  lemma NothingFiled()
    ensures IsIndex(map[], map[])
  {
    assert forall key: Key :: At(map[], key).None?;
  }

  /** Builds the index; nodes are visited in no particular order. */
  method NodesIndexMap(allNodes: map<UID, Node>) returns (nodeMap: Index)
    ensures IsIndex(nodeMap, allNodes)
  {
    hide IsIndex, KeyOf, Insert;
    nodeMap := map[];
    var todo := allNodes.Keys;
    ghost var done: map<UID, Node> := map[];
    NothingFiled();
    while todo != {}
      invariant todo <= allNodes.Keys
      invariant done == map u | u in allNodes && u !in todo :: allNodes[u]
      invariant IsIndex(nodeMap, done)
    {
      var u :| u in todo;
      var n := allNodes[u];
      todo := todo - {u};
      ghost var was, wasDone := nodeMap, done;
      done := map v | v in allNodes && v !in todo :: allNodes[v];
      assert done == wasDone[u := n];
      match KeyOf(n) {
        case None =>
          SkipKeepsIndex(was, wasDone, u, n);
        case Some(key) =>
          nodeMap := Insert(nodeMap, key, n);
          InsertKeepsIndex(was, wasDone, u, n, key);
      }
    }
    assert done == allNodes;
  }

  lemma SkipKeepsIndex(idx: Index, nodes: map<UID, Node>, u: UID, n: Node)
    requires IsIndex(idx, nodes) && u !in nodes && KeyOf(n) == None
    ensures IsIndex(idx, nodes[u := n])
  {
    var more := nodes[u := n];
    forall key | At(idx, key).Some?
      ensures exists v :: Carries(more, v, key) && more[v] == At(idx, key).value
    {
      var v :| Carries(nodes, v, key) && nodes[v] == At(idx, key).value;
      assert Carries(more, v, key);
    }
    forall v, key | Carries(more, v, key)
      ensures At(idx, key).Some?
    {
      assert Carries(nodes, v, key);
    }
  }

  lemma InsertKeepsIndex(idx: Index, nodes: map<UID, Node>, u: UID, n: Node, key: Key)
    requires IsIndex(idx, nodes) && u !in nodes && KeyOf(n) == Some(key)
    ensures IsIndex(Insert(idx, key, n), nodes[u := n])
  {
    InsertDense(idx, key, n);
    forall k ensures At(Insert(idx, key, n), k) == if k == key then Some(n) else At(idx, k) {
      InsertAt(idx, key, n, k);
    }
    OneMoreSlot(idx, Insert(idx, key, n), nodes, u, n, key);
  }

  lemma OneMoreSlot(idx: Index, idx': Index, nodes: map<UID, Node>, u: UID, n: Node, key: Key)
    requires Files(idx, nodes) && u !in nodes && KeyOf(n) == Some(key)
    requires forall k :: At(idx', k) == if k == key then Some(n) else At(idx, k)
    ensures Files(idx', nodes[u := n])
  {
    var more := nodes[u := n];
    assert Carries(more, u, key);
    assert forall v, k :: v != u ==> Carries(more, v, k) == Carries(nodes, v, k);
    assert forall k :: Carries(more, u, k) ==> k == key;
    forall k | At(idx', k).Some? && k != key
      ensures exists v :: Carries(more, v, k) && more[v] == At(idx', k).value
    {
      var v :| Carries(nodes, v, k) && nodes[v] == At(idx, k).value;
      assert Carries(more, v, k);
    }
  }

  // ---- The index is determined by the nodes exactly when no two nodes share a key ----

  lemma Same2(a: ByNamespace, b: ByNamespace)
    requires Dense2(a) && Dense2(b)
    requires forall ns, n :: At2(a, ns, n) == At2(b, ns, n)
    ensures a == b
  {
    forall ns | ns in a || ns in b
      ensures ns in a && ns in b && a[ns] == b[ns]
    {
      forall n ensures Lookup(Inner(a, ns), n) == Lookup(Inner(b, ns), n) {
        assert At2(a, ns, n) == At2(b, ns, n);
      }
      SameLookups(Inner(a, ns), Inner(b, ns));
    }
  }

  lemma Same3(a: ByKind, b: ByKind)
    requires Dense3(a) && Dense3(b)
    requires forall k, ns, n :: At3(a, k, ns, n) == At3(b, k, ns, n)
    ensures a == b
  {
    forall k | k in a || k in b
      ensures k in a && k in b && a[k] == b[k]
    {
      forall ns, n ensures At2(Inner(a, k), ns, n) == At2(Inner(b, k), ns, n) {
        assert At3(a, k, ns, n) == At3(b, k, ns, n);
      }
      Same2(Inner(a, k), Inner(b, k));
    }
  }

  lemma SameSlotsSameIndex(a: Index, b: Index)
    requires Dense(a) && Dense(b)
    requires forall key :: At(a, key) == At(b, key)
    ensures a == b
  {
    forall g | g in a || g in b
      ensures g in a && g in b && a[g] == b[g]
    {
      forall k, ns, n ensures At3(Inner(a, g), k, ns, n) == At3(Inner(b, g), k, ns, n) {
        assert At(a, Key(g, k, ns, n)) == At(b, Key(g, k, ns, n));
      }
      Same3(Inner(a, g), Inner(b, g));
    }
  }

  lemma IndexUnique(a: Index, b: Index, nodes: map<UID, Node>)
    requires IsIndex(a, nodes) && IsIndex(b, nodes) && NoTwins(nodes)
    ensures a == b
  {
    forall key
      ensures At(a, key) == At(b, key)
    {
      if At(a, key).Some? || At(b, key).Some? {
        var u :| Carries(nodes, u, key);
        assert At(a, key).Some? && At(b, key).Some?;
      }
    }
    SameSlotsSameIndex(a, b);
  }

  /** Which index is built is settled by the nodes exactly when no two different nodes carry one key. */
  lemma IndexDeterminedIffNoTwins(a: Index, nodes: map<UID, Node>)
    requires IsIndex(a, nodes)
    ensures (forall b :: IsIndex(b, nodes) ==> b == a) <==> NoTwins(nodes)
  {
    if NoTwins(nodes) {
      forall b | IsIndex(b, nodes) ensures b == a {
        IndexUnique(b, a, nodes);
      }
    } else {
      var u, v, key :| Carries(nodes, u, key) && Carries(nodes, v, key) && nodes[u] != nodes[v];
      var b := TwinSwapped(a, nodes, key, if At(a, key) == Some(nodes[u]) then v else u);
      assert IsIndex(b, nodes) && b != a;
    }
  }

  lemma TwinSwapped(a: Index, nodes: map<UID, Node>, key: Key, w: UID) returns (b: Index)
    requires IsIndex(a, nodes) && Carries(nodes, w, key) && At(a, key) != Some(nodes[w])
    ensures IsIndex(b, nodes) && At(b, key) == Some(nodes[w])
  {
    b := Insert(a, key, nodes[w]);
    InsertDense(a, key, nodes[w]);
    forall k ensures At(b, k) == if k == key then Some(nodes[w]) else At(a, k) {
      InsertAt(a, key, nodes[w], k);
    }
    OtherWinner(a, b, nodes, key, w);
  }

  lemma OtherWinner(a: Index, b: Index, nodes: map<UID, Node>, key: Key, w: UID)
    requires Files(a, nodes) && Carries(nodes, w, key)
    requires forall k :: At(b, k) == if k == key then Some(nodes[w]) else At(a, k)
    ensures Files(b, nodes)
  {
    forall k | At(b, k).Some?
      ensures exists u :: Carries(nodes, u, k) && nodes[u] == At(b, k).value
    {
      if k != key {
        assert At(a, k).Some?;
      }
    }
  }

  // ---- Lookups ----

  const NOWHERE := {"", "_NONE"}

  /** The node stored under u goes by these properties; no namespace and "_NONE" are the same. */
  predicate StoredAs(nodes: map<UID, Node>, u: UID, group: string, kind: string, namespace: string, name: string) {
    && u in nodes && kind != "" && name != ""
    && nodes[u].Text("apigroup") == group
    && nodes[u].Text("kind") == kind
    && (nodes[u].Text("namespace") == namespace || {nodes[u].Text("namespace"), namespace} <= NOWHERE)
    && nodes[u].Text("name") == name
  }

  lemma CarriesIff(nodes: map<UID, Node>, u: UID, group: string, kind: string, namespace: string, name: string)
    ensures Carries(nodes, u, Key(group, kind, NormalizeNamespace(namespace), name)) <==>
              StoredAs(nodes, u, group, kind, namespace, name)
  {
  }

  function LookupByGroupKindNamespaceName(ns: NodeStore, group: string, kind: string, namespace: string,
                                          name: string): Option<Node>
  {
    At(ns.index, Key(group, kind, NormalizeNamespace(namespace), name))
  }

  /** A group lookup answers exactly what a scan over the nodes would. */
  lemma GroupLookupIsScan(ns: NodeStore, group: string, kind: string, namespace: string, name: string)
    requires IsIndex(ns.index, ns.byUID)
    ensures
      var r := LookupByGroupKindNamespaceName(ns, group, kind, namespace, name);
      && (r.Some? <==> exists u :: StoredAs(ns.byUID, u, group, kind, namespace, name))
      && (r.Some? ==> exists u :: StoredAs(ns.byUID, u, group, kind, namespace, name) && Lookup(ns.byUID, u) == r)
  {
    hide At, KeyOf, StoredAs;
    var key := Key(group, kind, NormalizeNamespace(namespace), name);
    forall u ensures Carries(ns.byUID, u, key) <==> StoredAs(ns.byUID, u, group, kind, namespace, name) {
      CarriesIff(ns.byUID, u, group, kind, namespace, name);
    }
    if At(ns.index, key).Some? {
      var u :| Carries(ns.byUID, u, key) && ns.byUID[u] == At(ns.index, key).value;
    }
  }

  /** The slot for kind, namespace and name in the first of the listed groups that has one. */
  ghost function FirstHit(idx: Index, groups: seq<string>, kind: string, namespace: string, name: string): Option<Node>
  {
    if groups == [] then None
    else
      var before := FirstHit(idx, groups[..|groups| - 1], kind, namespace, name);
      if before.Some? then before else At(idx, Key(groups[|groups| - 1], kind, namespace, name))
  }

  ghost predicate Hit(idx: Index, group: string, kind: string, namespace: string, name: string) {
    At(idx, Key(group, kind, namespace, name)).Some?
  }

  ghost predicate LeastHit(idx: Index, group: string, kind: string, namespace: string, name: string) {
    && Hit(idx, group, kind, namespace, name)
    && (forall g :: Hit(idx, g, kind, namespace, name) ==> LexLe(group, g))
  }

  /** The node of the lexically least group that has one for this kind, namespace and name. */
  ghost function InLeastGroup(idx: Index, kind: string, namespace: string, name: string): Option<Node> {
    if g :| LeastHit(idx, g, kind, namespace, name) then At(idx, Key(g, kind, namespace, name)) else None
  }

  /** The groups, sorted, as every groupless lookup visits them. */
  ghost predicate AllGroups(groups: seq<string>, idx: Index) {
    Sorted(groups) && multiset(groups) == multiset(idx.Keys)
  }

  lemma {:induction false} FirstHitAt(idx: Index, groups: seq<string>, kind: string, namespace: string, name: string)
    returns (at: int)
    ensures FirstHit(idx, groups, kind, namespace, name).None? ==>
      at == |groups| && forall i :: 0 <= i < |groups| ==> !Hit(idx, groups[i], kind, namespace, name)
    ensures FirstHit(idx, groups, kind, namespace, name).Some? ==>
      && 0 <= at < |groups| && Hit(idx, groups[at], kind, namespace, name)
      && FirstHit(idx, groups, kind, namespace, name) == At(idx, Key(groups[at], kind, namespace, name))
      && forall i :: 0 <= i < at ==> !Hit(idx, groups[i], kind, namespace, name)
  {
    if groups == [] {
      at := 0;
    } else {
      var n := |groups| - 1;
      at := FirstHitAt(idx, groups[..n], kind, namespace, name);
      if FirstHit(idx, groups[..n], kind, namespace, name).None? {
        if !Hit(idx, groups[n], kind, namespace, name) { at := n + 1; }
      }
    }
  }

  lemma FirstHitIsLeastGroup(idx: Index, groups: seq<string>, kind: string, namespace: string, name: string)
    requires AllGroups(groups, idx)
    ensures FirstHit(idx, groups, kind, namespace, name) == InLeastGroup(idx, kind, namespace, name)
    ensures InLeastGroup(idx, kind, namespace, name).None? <==> forall g :: !Hit(idx, g, kind, namespace, name)
  {
    var at := FirstHitAt(idx, groups, kind, namespace, name);
    forall g | Hit(idx, g, kind, namespace, name)
      ensures at < |groups| && LexLe(groups[at], g)
    {
      assert g in idx.Keys && g in multiset(groups);
      var i :| 0 <= i < |groups| && groups[i] == g;
      LexTotal(g, g);
    }
    if at < |groups| {
      assert LeastHit(idx, groups[at], kind, namespace, name);
      forall g | LeastHit(idx, g, kind, namespace, name) ensures g == groups[at] {
        LexTotal(g, groups[at]);
      }
    }
  }

  /** A groupless lookup answers what a scan would: a node of the least group in which any node carries the rest. */
  lemma GrouplessLookupIsScan(ns: NodeStore, kind: string, namespace: string, name: string)
    requires IsIndex(ns.index, ns.byUID)
    ensures
      var r := InLeastGroup(ns.index, kind, NormalizeNamespace(namespace), name);
      && (r.Some? <==> exists u, g :: StoredAs(ns.byUID, u, g, kind, namespace, name))
      && (r.Some? ==> exists u, g ::
            && StoredAs(ns.byUID, u, g, kind, namespace, name) && Lookup(ns.byUID, u) == r
            && forall v, h :: StoredAs(ns.byUID, v, h, kind, namespace, name) ==> LexLe(g, h))
  {
    hide IsIndex, Carries, StoredAs, InLeastGroup, NormalizeNamespace;
    var space := NormalizeNamespace(namespace);
    LeastGroupCarried(ns, kind, space, name);
    forall u, g
      ensures Carries(ns.byUID, u, Key(g, kind, space, name)) <==> StoredAs(ns.byUID, u, g, kind, namespace, name)
    {
      CarriesIff(ns.byUID, u, g, kind, namespace, name);
    }
  }

  lemma LeastGroupCarried(ns: NodeStore, kind: string, space: string, name: string)
    requires IsIndex(ns.index, ns.byUID)
    ensures
      var r := InLeastGroup(ns.index, kind, space, name);
      && (r.Some? <==> exists u, g :: Carries(ns.byUID, u, Key(g, kind, space, name)))
      && (r.Some? ==> exists u, g ::
            && Carries(ns.byUID, u, Key(g, kind, space, name)) && Lookup(ns.byUID, u) == r
            && forall v, h :: Carries(ns.byUID, v, Key(h, kind, space, name)) ==> LexLe(g, h))
  {
    hide At;
    var groups := SortingExists(ns.index.Keys);
    FirstHitIsLeastGroup(ns.index, groups, kind, space, name);
    var r := InLeastGroup(ns.index, kind, space, name);
    if r.Some? {
      var g :| LeastHit(ns.index, g, kind, space, name) && r == At(ns.index, Key(g, kind, space, name));
      var u :| Carries(ns.byUID, u, Key(g, kind, space, name)) && ns.byUID[u] == r.value;
      forall v, h | Carries(ns.byUID, v, Key(h, kind, space, name)) ensures LexLe(g, h) {
        assert Hit(ns.index, h, kind, space, name);
      }
      assert Carries(ns.byUID, u, Key(g, kind, space, name)) && Lookup(ns.byUID, u) == r;
    } else {
      forall u, g ensures !Carries(ns.byUID, u, Key(g, kind, space, name)) {
        assert !Hit(ns.index, g, kind, space, name);
      }
    }
  }

  /** Resolves a node across groups: the groups are tried in lexical order. */
  method LookupByKindNamespaceName(ns: NodeStore, kind: string, namespace: string, name: string)
    returns (r: Option<Node>)
    ensures r == InLeastGroup(ns.index, kind, NormalizeNamespace(namespace), name)
  {
    var space := NormalizeNamespace(namespace);
    var groups := SortStrings(ns.index.Keys);
    FirstHitIsLeastGroup(ns.index, groups, kind, space, name);
    for i := 0 to |groups|
      invariant FirstHit(ns.index, groups[..i], kind, space, name).None?
    {
      r := LookupByGroupKindNamespaceName(ns, groups[i], kind, space, name);
      assert groups[..i + 1][..i] == groups[..i];
      if r.Some? {
        HitInPrefix(ns.index, groups, i, kind, space, name);
        return;
      }
    }
    assert groups[..|groups|] == groups;
    r := None;
  }

  lemma {:induction false} HitInPrefix(idx: Index, groups: seq<string>, i: nat, kind: string, namespace: string,
                                       name: string)
    requires i < |groups| && FirstHit(idx, groups[..i + 1], kind, namespace, name).Some?
    ensures FirstHit(idx, groups, kind, namespace, name) == FirstHit(idx, groups[..i + 1], kind, namespace, name)
    decreases |groups|
  {
    if i + 1 == |groups| {
      assert groups[..i + 1] == groups;
    } else {
      var shorter := groups[..|groups| - 1];
      assert shorter[..i + 1] == groups[..i + 1];
      HitInPrefix(idx, shorter, i, kind, namespace, name);
    }
  }

  /** The namespace/name table of one kind; on a collision the lexically first group wins. */
  method NodesByKind(ns: NodeStore, kind: string) returns (ret: map<string, map<string, Node>>)
    ensures forall space, name :: At2(ret, space, name) == InLeastGroup(ns.index, kind, space, name)
  {
    ret := map[];
    var groups := SortStrings(ns.index.Keys);
    for i := 0 to |groups|
      invariant forall space, name :: At2(ret, space, name) == FirstHit(ns.index, groups[..i], kind, space, name)
    {
      assert groups[..i + 1][..i] == groups[..i];
      assert groups[i] in multiset(groups);
      var byKind := ns.index[groups[i]];
      if kind in byKind {
        ret := AddMissing(ret, byKind[kind]);
      }
    }
    assert groups[..|groups|] == groups;
    forall space, name
      ensures At2(ret, space, name) == InLeastGroup(ns.index, kind, space, name)
    {
      FirstHitIsLeastGroup(ns.index, groups, kind, space, name);
    }
  }

  /** Adds the names of another group, keeping those already present. */
  method AddMissing(base: ByNamespace, byNamespace: ByNamespace) returns (ret: ByNamespace)
    ensures forall space, name :: At2(ret, space, name) == OrElse(At2(base, space, name), At2(byNamespace, space, name))
  {
    ret := base;
    var spaces := byNamespace.Keys;
    while spaces != {}
      invariant spaces <= byNamespace.Keys
      invariant forall space, name :: space in spaces ==> At2(ret, space, name) == At2(base, space, name)
      invariant forall space, name :: space !in spaces ==>
        At2(ret, space, name) == OrElse(At2(base, space, name), At2(byNamespace, space, name))
    {
      var space :| space in spaces;
      var names := AddMissingNames(Inner(ret, space), byNamespace[space]);
      ret := ret[space := names];
      spaces := spaces - {space};
    }
  }

  method AddMissingNames(base: ByName, byName: ByName) returns (ret: ByName)
    ensures forall name :: Lookup(ret, name) == OrElse(Lookup(base, name), Lookup(byName, name))
  {
    ret := base;
    var names := byName.Keys;
    while names != {}
      invariant names <= byName.Keys
      invariant forall name :: name in names ==> Lookup(ret, name) == Lookup(base, name)
      invariant forall name :: name !in names ==> Lookup(ret, name) == OrElse(Lookup(base, name), Lookup(byName, name))
    {
      var name :| name in names;
      if name !in ret {
        ret := ret[name := byName[name]];
      }
      names := names - {name};
    }
  }
}
