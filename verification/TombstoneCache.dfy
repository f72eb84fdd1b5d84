/**
 * The least-recently-used cache of deleted nodes. Entries are kept most recently used first;
 * looking an entry up moves it to the front, and adding past the capacity drops the last one.
 */
module TombstoneCache {
  import opened Types

  const CACHE_SIZE := 500

  datatype Tombstone = Tombstone(uid: UID, time: int)

  type Cache = seq<Tombstone>

  /** No node has two entries. */
  ghost predicate OneEach(c: Cache) {
    forall i, j :: 0 <= i < j < |c| ==> c[i].uid != c[j].uid
  }

  ghost predicate Valid(c: Cache) {
    |c| <= CACHE_SIZE && OneEach(c)
  }

  ghost predicate Has(c: Cache, u: UID) {
    exists i :: 0 <= i < |c| && c[i].uid == u
  }

  function Find(c: Cache, u: UID): (r: Option<Tombstone>)
    ensures r.Some? <==> Has(c, u)
    ensures r.Some? ==> r.value in c && r.value.uid == u
  {
    if c == [] then None
    else if c[0].uid == u then Some(c[0])
    else
      var r := Find(c[1..], u);
      assert Has(c[1..], u) ==> Has(c, u) by {
        if i :| 0 <= i < |c| - 1 && c[1..][i].uid == u { assert c[i + 1].uid == u; }
      }
      assert Has(c, u) ==> Has(c[1..], u) by {
        if i :| 0 <= i < |c| && c[i].uid == u { assert c[1..][i - 1].uid == u; }
      }
      r
  }

  function Without(c: Cache, u: UID): Cache {
    if c == [] then [] else if c[0].uid == u then Without(c[1..], u) else [c[0]] + Without(c[1..], u)
  }

  /** Looks a node up; a hit becomes the most recently used entry. */
  function Get(c: Cache, u: UID): (Option<Tombstone>, Cache) {
    var r := Find(c, u);
    (r, if r.Some? then [r.value] + Without(c, u) else c)
  }

  function Trim(c: Cache): Cache {
    if |c| > CACHE_SIZE then c[..|c| - 1] else c
  }

  function Add(c: Cache, t: Tombstone): Cache {
    Trim([t] + Without(c, t.uid))
  }

  /** The entries used more recently than u. */
  ghost function Ahead(c: Cache, u: UID): set<UID> {
    if c == [] || c[0].uid == u then {} else {c[0].uid} + Ahead(c[1..], u)
  }

  lemma HeadAndTail(c: Cache, u: UID)
    requires c != []
    ensures Has(c, u) <==> c[0].uid == u || Has(c[1..], u)
  {
    assert Find(c, u).Some? <==> c[0].uid == u || Find(c[1..], u).Some?;
  }

  lemma {:induction false} WithoutFinds(c: Cache, x: UID, u: UID)
    ensures u != x ==> Find(Without(c, x), u) == Find(c, u) && Ahead(Without(c, x), u) <= Ahead(c, u)
    ensures !Has(Without(c, x), x)
  {
    if c != [] {
      WithoutFinds(c[1..], x, u);
      if c[0].uid != x {
        var r := [c[0]] + Without(c[1..], x);
        assert r[1..] == Without(c[1..], x);
        HeadAndTail(r, x);
      }
    }
  }

  lemma {:induction false} WithoutDistinct(c: Cache, x: UID)
    requires OneEach(c)
    ensures OneEach(Without(c, x))
    ensures |Without(c, x)| == if Has(c, x) then |c| - 1 else |c|
  {
    if c != [] {
      var tail := c[1..];
      HeadAndTail(c, x);
      WithoutDistinct(tail, x);
      HeadNotInTail(c);
      if c[0].uid != x {
        WithoutFinds(tail, x, c[0].uid);
        Prepend(c[0], Without(tail, x));
      }
    }
  }

  lemma HeadNotInTail(c: Cache)
    requires OneEach(c) && c != []
    ensures !Has(c[1..], c[0].uid)
  {
    forall j | 0 <= j < |c| - 1 ensures c[1..][j].uid != c[0].uid {
      assert c[1..][j] == c[j + 1];
    }
  }

  lemma Prepend(t: Tombstone, c: Cache)
    requires OneEach(c) && !Has(c, t.uid)
    ensures OneEach([t] + c)
    ensures forall u :: Find([t] + c, u) == (if u == t.uid then Some(t) else Find(c, u))
    ensures forall u :: Ahead([t] + c, u) == (if u == t.uid then {} else {t.uid} + Ahead(c, u))
  {
    assert ([t] + c)[1..] == c;
  }

  lemma GetKeeps(c: Cache, x: UID)
    requires Valid(c)
    ensures Valid(Get(c, x).1)
    ensures forall u :: Find(Get(c, x).1, u) == Find(c, u)
    ensures Has(c, x) ==> Ahead(Get(c, x).1, x) == {}
    ensures forall u :: u != x ==> Ahead(Get(c, x).1, u) <= Ahead(c, u) + {x}
  {
    var r := Find(c, x);
    if r.Some? {
      WithoutDistinct(c, x);
      forall u ensures u != x ==> Find(Without(c, x), u) == Find(c, u) && Ahead(Without(c, x), u) <= Ahead(c, u) {
        WithoutFinds(c, x, u);
      }
      WithoutFinds(c, x, x);
      Prepend(r.value, Without(c, x));
    }
  }

  lemma {:induction false} AheadCounts(c: Cache, u: UID) returns (i: nat)
    requires OneEach(c) && Has(c, u)
    ensures i < |c| && c[i].uid == u && |Ahead(c, u)| == i
    ensures forall x :: x in Ahead(c, u) ==> Has(c, x)
  {
    if c[0].uid == u {
      i := 0;
    } else {
      HeadAndTail(c, u);
      i := AheadCounts(c[1..], u);
      HeadNotInTail(c);
      forall x | x in Ahead(c, u) ensures Has(c, x) {
        HeadAndTail(c, x);
      }
      i := i + 1;
    }
  }

  lemma {:induction false} PrefixFinds(c: Cache, n: nat, u: UID, i: nat)
    requires i < n <= |c| && c[i].uid == u
    ensures Find(c[..n], u) == Find(c, u) && Ahead(c[..n], u) == Ahead(c, u)
  {
    hide Has;
    if c[0].uid != u {
      assert c[..n][1..] == c[1..][..n - 1];
      PrefixFinds(c[1..], n - 1, u, i - 1);
    }
  }

  lemma AddFinds(c: Cache, t: Tombstone)
    requires Valid(c)
    ensures Valid(Add(c, t)) && Find(Add(c, t), t.uid) == Some(t) && Ahead(Add(c, t), t.uid) == {}
  {
    WithoutDistinct(c, t.uid);
    WithoutFinds(c, t.uid, t.uid);
    Prepend(t, Without(c, t.uid));
    assert Add(c, t)[0] == t;
  }

  lemma FrontFinds(c: Cache, t: Tombstone, u: UID)
    requires OneEach(c) && u != t.uid
    ensures
      var longer := [t] + Without(c, t.uid);
      OneEach(longer) && Find(longer, u) == Find(c, u) && Ahead(longer, u) <= Ahead(c, u) + {t.uid}
  {
    WithoutDistinct(c, t.uid);
    WithoutFinds(c, t.uid, u);
    WithoutFinds(c, t.uid, t.uid);
    Prepend(t, Without(c, t.uid));
  }

  lemma {:induction false} PrefixFindsIn(c: Cache, n: nat, u: UID)
    requires n <= |c| && Find(c[..n], u).Some?
    ensures Find(c[..n], u) == Find(c, u)
  {
    if c[0].uid != u {
      assert c[..n][1..] == c[1..][..n - 1];
      PrefixFindsIn(c[1..], n - 1, u);
    }
  }

  /** Adding t leaves u's entry as it was, or drops it. */
  lemma AddFindsOthers(c: Cache, t: Tombstone, u: UID)
    requires OneEach(c) && u != t.uid && Find(Add(c, t), u).Some?
    ensures Find(Add(c, t), u) == Find(c, u)
  {
    hide Find, Ahead, Has, Without;
    FrontFinds(c, t, u);
    var longer := [t] + Without(c, t.uid);
    if |longer| > CACHE_SIZE {
      PrefixFindsIn(longer, |longer| - 1, u);
    }
  }

  /** Adding t cannot drop u while fewer than 500 others have been used since u was. */
  lemma AddKeeps(c: Cache, t: Tombstone, u: UID, others: set<UID>)
    requires OneEach(c) && u != t.uid && Find(c, u).Some?
    requires Ahead(c, u) <= others && t.uid in others && |others| < 500
    ensures Find(Add(c, t), u) == Find(c, u) && Ahead(Add(c, t), u) <= others
  {
    FrontFinds(c, t, u);
    var longer := [t] + Without(c, t.uid);
    var i := SpotOf(longer, u, others);
    TrimKeeps(longer, u, i);
  }

  lemma TrimKeeps(c: Cache, u: UID, i: nat)
    requires i < |c| && c[i].uid == u && i < CACHE_SIZE
    ensures Find(Trim(c), u) == Find(c, u) && Ahead(Trim(c), u) == Ahead(c, u)
  {
    hide Find, Ahead, Has;
    if |c| > CACHE_SIZE {
      PrefixFinds(c, |c| - 1, u, i);
    }
  }

  lemma SpotOf(c: Cache, u: UID, ahead: set<UID>) returns (i: nat)
    requires OneEach(c) && Find(c, u).Some? && Ahead(c, u) <= ahead
    ensures i < |c| && c[i].uid == u && i <= |ahead|
  {
    i := AheadCounts(c, u);
    Smaller(Ahead(c, u), ahead);
  }

  lemma Smaller<T>(a: set<T>, b: set<T>)
    requires a <= b
    ensures |a| <= |b|
  {
    assert b == a + (b - a);
  }
}
