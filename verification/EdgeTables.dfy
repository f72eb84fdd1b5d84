/** Edges keyed by source and then destination, and the flat view of them by (source, destination) pair. */
module EdgeTables {
  import opened Types

  type EdgeTable = map<UID, map<UID, Edge>>

  function Row(t: EdgeTable, src: UID): map<UID, Edge> {
    if src in t then t[src] else map[]
  }

  predicate HasPair(t: EdgeTable, p: Pair) {
    p.0 in t && p.1 in t[p.0]
  }

  function Put(t: EdgeTable, e: Edge): EdgeTable {
    t[e.src := Row(t, e.src)[e.dst := e]]
  }

  function PutAll(t: EdgeTable, edges: seq<Edge>): EdgeTable
    decreases edges
  {
    if edges == [] then t else PutAll(Put(t, edges[0]), edges[1..])
  }

  ghost function Pairing(src: UID, ds: set<UID>): set<Pair> {
    set d | d in ds :: (src, d)
  }

  ghost function PairsOf(t: EdgeTable): (ps: set<Pair>)
    ensures forall p :: p in ps <==> HasPair(t, p)
  {
    if t == map[] then {}
    else
      var src :| src in t;
      Pairing(src, t[src].Keys) + PairsOf(t - {src})
  }

  ghost function Flat(t: EdgeTable): (m: map<Pair, Edge>)
    ensures forall p :: p in m <==> HasPair(t, p)
    ensures forall p :: p in m ==> HasPair(t, p) && m[p] == t[p.0][p.1]
  {
    map p | p in PairsOf(t) :: t[p.0][p.1]
  }

  /** Every edge is filed under its own ends. */
  ghost predicate WellFiled(t: EdgeTable) {
    forall p :: HasPair(t, p) ==> t[p.0][p.1].Ends() == p
  }

  predicate Joins(edges: seq<Edge>, p: Pair) {
    exists e :: e in edges && e.Ends() == p
  }

  /** The table of a list of edges has exactly the pairs that the list joins, each with one of the listed edges. */
  lemma {:induction false} PutAllPairs(t: EdgeTable, edges: seq<Edge>)
    requires WellFiled(t)
    ensures WellFiled(PutAll(t, edges))
    ensures forall p :: HasPair(PutAll(t, edges), p) <==> HasPair(t, p) || Joins(edges, p)
    ensures forall p :: Joins(edges, p) ==> PutAll(t, edges)[p.0][p.1] in edges
    ensures forall p :: HasPair(t, p) && !Joins(edges, p) ==> PutAll(t, edges)[p.0][p.1] == t[p.0][p.1]
    decreases edges
  {
    if edges != [] {
      var e := edges[0];
      assert edges == [e] + edges[1..];
      PutAllPairs(Put(t, e), edges[1..]);
      forall p ensures Joins(edges, p) <==> e.Ends() == p || Joins(edges[1..], p) {
        if Joins(edges, p) {
          var x :| x in edges && x.Ends() == p;
          assert x == e || x in edges[1..];
        }
      }
    }
  }

  /** Of several filed edges with the same ends, the table keeps the last. */
  lemma {:induction false} LastFiledStays(t: EdgeTable, edges: seq<Edge>, k: nat)
    requires k < |edges|
    requires forall j :: k < j < |edges| ==> edges[j].Ends() != edges[k].Ends()
    ensures HasPair(PutAll(t, edges), edges[k].Ends())
    ensures PutAll(t, edges)[edges[k].src][edges[k].dst] == edges[k]
    decreases edges
  {
    if k > 0 {
      LastFiledStays(Put(t, edges[0]), edges[1..], k - 1);
    } else {
      OthersFiledLater(Put(t, edges[0]), edges[1..], edges[0]);
    }
  }

  lemma {:induction false} OthersFiledLater(t: EdgeTable, edges: seq<Edge>, e: Edge)
    requires HasPair(t, e.Ends()) && t[e.src][e.dst] == e
    requires forall x :: x in edges ==> x.Ends() != e.Ends()
    ensures HasPair(PutAll(t, edges), e.Ends()) && PutAll(t, edges)[e.src][e.dst] == e
    decreases edges
  {
    if edges != [] {
      assert edges[0] in edges;
      OthersFiledLater(Put(t, edges[0]), edges[1..], e);
    }
  }

  lemma {:induction false} PutAllAppend(t: EdgeTable, a: seq<Edge>, b: seq<Edge>)
    ensures PutAll(t, a + b) == PutAll(PutAll(t, a), b)
    decreases a
  {
    if a == [] {
      assert a + b == b;
    } else {
      assert (a + b)[1..] == a[1..] + b;
      PutAllAppend(Put(t, a[0]), a[1..], b);
    }
  }

  /** Counts the edges row by row; rows are visited in no particular order. */
  method CountEdges(t: EdgeTable) returns (total: int)
    ensures total == |Flat(t)|
  {
    total := 0;
    var todo := t.Keys;
    NoRows(t);
    while todo != {}
      invariant todo <= t.Keys
      invariant total == EdgesFrom(t, t.Keys - todo)
    {
      var src :| src in todo;
      OneMoreRow(t, t.Keys - todo, src);
      assert t.Keys - todo + {src} == t.Keys - (todo - {src});
      todo := todo - {src};
      total := total + |t[src]|;
    }
    assert t.Keys - todo == t.Keys;
    AllRows(t);
  }

  ghost function EdgesFrom(t: EdgeTable, srcs: set<UID>): nat {
    |Flat(Rows(t, srcs))|
  }

  ghost function Rows(t: EdgeTable, srcs: set<UID>): EdgeTable {
    map s | s in t && s in srcs :: t[s]
  }

  lemma NoRows(t: EdgeTable)
    ensures EdgesFrom(t, {}) == 0
  {
    assert Rows(t, {}) == map[];
    assert Flat(map[]) == map[];
  }

  lemma AllRows(t: EdgeTable)
    ensures EdgesFrom(t, t.Keys) == |Flat(t)|
  {
    assert Rows(t, t.Keys) == t;
  }

  lemma OneMoreRow(t: EdgeTable, srcs: set<UID>, src: UID)
    requires src in t && src !in srcs
    ensures EdgesFrom(t, srcs + {src}) == EdgesFrom(t, srcs) + |t[src]|
  {
    RowAddsItsSize(Rows(t, srcs), src, t[src]);
    assert Rows(t, srcs + {src}) == Rows(t, srcs)[src := t[src]];
  }

  lemma RowAddsItsSize(t: EdgeTable, src: UID, row: map<UID, Edge>)
    requires src !in t
    ensures |Flat(t[src := row])| == |Flat(t)| + |row|
  {
    PairingKeepsSize(src, row.Keys);
    RowAddsItsPairs(t, src, row);
    assert |Flat(t[src := row]).Keys| == |Flat(t).Keys| + |Pairing(src, row.Keys)|;
  }

  lemma RowAddsItsPairs(t: EdgeTable, src: UID, row: map<UID, Edge>)
    requires src !in t
    ensures Flat(t[src := row]).Keys == Flat(t).Keys + Pairing(src, row.Keys)
    ensures Flat(t).Keys !! Pairing(src, row.Keys)
  {
  }

  lemma {:induction false} PairingKeepsSize(src: UID, ds: set<UID>)
    ensures |Pairing(src, ds)| == |ds|
  {
    if ds != {} {
      var x :| x in ds;
      PairingKeepsSize(src, ds - {x});
      assert Pairing(src, ds) == Pairing(src, ds - {x}) + {(src, x)};
    }
  }
}
