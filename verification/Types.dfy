/** The values that travel between the transforms, the reconciler and the sender. */
module Types {

  datatype Option<+T> = None | Some(value: T)

  function Lookup<K, V>(m: map<K, V>, k: K): Option<V> {
    if k in m then Some(m[k]) else None
  }

  function OrElse<T>(a: Option<T>, b: Option<T>): Option<T> {
    if a.Some? then a else b
  }

  lemma SameLookups<K(!new), V(!new)>(a: map<K, V>, b: map<K, V>)
    requires forall k :: Lookup(a, k) == Lookup(b, k)
    ensures a == b
  {
    forall k | k in a || k in b ensures k in a && k in b && a[k] == b[k] {
      assert Lookup(a, k) == Lookup(b, k);
    }
  }

  ghost predicate NoDuplicates<T>(s: seq<T>) {
    forall i, j :: 0 <= i < j < |s| ==> s[i] != s[j]
  }

  type UID = string

  /** A property or metadata value: a string, an integer, or anything else with its printed form. */
  datatype Value = Str(s: string) | Int(i: int) | Other(id: int, text: string)

  function Digits(n: nat): string {
    if n < 10 then ["0123456789"[n]] else Digits(n / 10) + ["0123456789"[n % 10]]
  }

  function Print(v: Value): string {
    match v
    case Str(s) => s
    case Int(i) => if i < 0 then "-" + Digits(-i) else Digits(i)
    case Other(_, text) => text
  }

  datatype Node = Node(uid: UID, resource: string, props: map<string, Value>, meta: map<string, Value>) {

    /** The property's string, or the empty string when it is absent or not a string. */
    function Text(key: string): string {
      if key in props && props[key].Str? then props[key].s else ""
    }

    function GetMetadata(key: string): string {
      match Lookup(meta, key)
      case None => ""
      case Some(v) => Print(v)
    }
  }

  // ---- Reading what is printed ----

  predicate IsDigit(c: char) {
    '0' as int <= c as int <= '9' as int
  }

  /** The number written in decimal. */
  ghost function Read(s: string): nat
    requires forall c :: c in s ==> IsDigit(c)
  {
    if s == "" then 0
    else
      var last := s[|s| - 1];
      assert IsDigit(last);
      10 * Read(s[..|s| - 1]) + (last as int - '0' as int)
  }

  /** A number is printed in decimal without leading zeros. */
  lemma {:induction false} DigitsRead(n: nat)
    ensures Digits(n) != "" && forall c :: c in Digits(n) ==> IsDigit(c)
    ensures Read(Digits(n)) == n && (|Digits(n)| > 1 ==> Digits(n)[0] != '0')
  {
    LastDigit(n % 10);
    if n < 10 {
      assert Digits(n)[..0] == "";
    } else {
      DigitsRead(n / 10);
      var front := Digits(n / 10);
      assert Digits(n)[..|front|] == front;
    }
  }

  lemma LastDigit(k: nat)
    requires k < 10
    ensures IsDigit("0123456789"[k]) && "0123456789"[k] as int == '0' as int + k && ("0123456789"[k] == '0' <==> k == 0)
  {
  }

  /** Metadata reads as text: a string as itself, a number in decimal, and as empty what is not there. */
  lemma MetadataReads(n: Node, key: string, s: string, i: int)
    ensures key !in n.meta ==> n.GetMetadata(key) == ""
    ensures Lookup(n.meta, key) == Some(Str(s)) ==> n.GetMetadata(key) == s
    ensures Lookup(n.meta, key) == Some(Int(i)) && i >= 0 ==>
              (forall c :: c in n.GetMetadata(key) ==> IsDigit(c)) && Read(n.GetMetadata(key)) == i
    ensures Lookup(n.meta, key) == Some(Int(i)) && i < 0 ==>
              && n.GetMetadata(key) != "" && n.GetMetadata(key)[0] == '-'
              && (forall c :: c in n.GetMetadata(key)[1..] ==> IsDigit(c)) && Read(n.GetMetadata(key)[1..]) == -i
  {
    hide Digits, Read;
    var size := if i < 0 then -i else i;
    DigitsRead(size);
    assert ("-" + Digits(size))[1..] == Digits(size);
  }

  /** A property reads as text exactly when it is a string. */
  lemma TextReads(n: Node, key: string, s: string)
    requires s != ""
    ensures n.Text(key) == s <==> Lookup(n.props, key) == Some(Str(s))
  {
  }

  type Pair = (UID, UID)

  datatype Edge = Edge(edgeType: string, src: UID, dst: UID, srcKind: string, dstKind: string) {
    function Ends(): Pair {
      (src, dst)
    }
  }

  /** apigroup -> kind -> namespace -> name -> node */
  type Index = map<string, map<string, map<string, map<string, Node>>>>

  datatype NodeStore = NodeStore(byUID: map<UID, Node>, index: Index)

  type EdgeFn = NodeStore -> seq<Edge>

  datatype Operation = Create | Update | Delete

  datatype NodeEvent = NodeEvent(node: Node, computeEdges: EdgeFn, time: int, op: Operation)
}
