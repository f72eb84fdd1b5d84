/** String operations the collector takes from its standard library: order, sorting, splitting, trimming. */
module Text {

  // ---- Lexical order and sorting ----

  predicate LexLe(a: string, b: string) {
    a == "" || (b != "" && (a[0] < b[0] || (a[0] == b[0] && LexLe(a[1..], b[1..]))))
  }

  lemma {:induction false} LexTotal(a: string, b: string)
    ensures LexLe(a, a)
    ensures LexLe(a, b) || LexLe(b, a)
    ensures LexLe(a, b) && LexLe(b, a) ==> a == b
  {
    if a != "" {
      LexTotal(a[1..], a[1..]);
      if b != "" {
        LexTotal(a[1..], b[1..]);
        assert a == [a[0]] + a[1..] && b == [b[0]] + b[1..];
      }
    }
  }

  /** The order is that of the first character that differs; a prefix comes first. */
  lemma {:induction false} LexLeIff(a: string, b: string)
    ensures LexLe(a, b) <==> a <= b || exists i :: DiffersAt(a, b, i) && a[i] < b[i]
  {
    if a != "" && b != "" {
      if a[0] == b[0] {
        LexLeIff(a[1..], b[1..]);
        assert a <= b <==> a[1..] <= b[1..] by {
          assert a == [a[0]] + a[1..] && b == [b[0]] + b[1..];
        }
        if i :| DiffersAt(a, b, i) && a[i] < b[i] {
          DiffersLater(a, b, i);
        }
        if i :| DiffersAt(a[1..], b[1..], i) && a[1..][i] < b[1..][i] {
          DiffersLater(a, b, i + 1);
        }
      } else {
        assert DiffersAt(a, b, 0);
        assert forall i :: DiffersAt(a, b, i) ==> i == 0;
      }
    }
  }

  lemma DiffersLater(a: string, b: string, i: int)
    requires a != "" && b != "" && a[0] == b[0] && i >= 0
    ensures DiffersAt(a, b, i) <==> DiffersAt(a[1..], b[1..], i - 1)
    ensures DiffersAt(a, b, i) ==> a[1..][i - 1] == a[i] && b[1..][i - 1] == b[i]
  {
    if DiffersAt(a[1..], b[1..], i - 1) {
      forall j | 0 <= j < i ensures a[j] == b[j] {
        if j > 0 { assert a[1..][j - 1] == b[1..][j - 1]; }
      }
    }
  }

  ghost predicate DiffersAt(a: string, b: string, i: int) {
    0 <= i < |a| && i < |b| && a[i] != b[i] && forall j :: 0 <= j < i ==> a[j] == b[j]
  }

  lemma {:induction false} LexTransitive(a: string, b: string, c: string)
    requires LexLe(a, b) && LexLe(b, c)
    ensures LexLe(a, c)
  {
    if a != "" && a[0] == b[0] == c[0] {
      LexTransitive(a[1..], b[1..], c[1..]);
    }
  }

  ghost predicate Sorted(s: seq<string>) {
    forall i, j :: 0 <= i < j < |s| ==> LexLe(s[i], s[j])
  }

  lemma ConsSorted(x: string, s: seq<string>)
    requires Sorted(s) && forall y :: y in multiset(s) ==> LexLe(x, y)
    ensures Sorted([x] + s)
  {
    hide LexLe;
    forall i, j | 0 <= i < j < |s| + 1 ensures LexLe(([x] + s)[i], ([x] + s)[j]) {
      assert s[j - 1] in multiset(s);
    }
  }

  lemma LeastIsBelow(x: string, s: seq<string>)
    requires Sorted(s) && s != [] && LexLe(x, s[0])
    ensures forall y :: y in multiset(s) ==> LexLe(x, y)
  {
    forall y | y in multiset(s) ensures LexLe(x, y) {
      var i :| 0 <= i < |s| && s[i] == y;
      if i > 0 { LexTransitive(x, s[0], y); }
    }
  }

  function InsertSorted(s: seq<string>, x: string): (r: seq<string>)
    requires Sorted(s)
    ensures Sorted(r) && multiset(r) == multiset(s) + multiset{x}
  {
    if s == [] then [x]
    else if LexLe(x, s[0]) then
      LeastIsBelow(x, s);
      ConsSorted(x, s);
      [x] + s
    else
      var t := InsertSorted(s[1..], x);
      LexTotal(x, s[0]);
      LexTotal(s[0], s[0]);
      LeastIsBelow(s[0], s);
      assert s == [s[0]] + s[1..];
      ConsSorted(s[0], t);
      [s[0]] + t
  }

  method SortStrings(items: set<string>) returns (r: seq<string>)
    ensures Sorted(r)
    ensures multiset(r) == multiset(items)
  {
    r := [];
    var todo := items;
    while todo != {}
      invariant todo <= items && Sorted(r)
      invariant multiset(r) + multiset(todo) == multiset(items)
    {
      var x :| x in todo;
      r := InsertSorted(r, x);
      todo := todo - {x};
    }
  }

  lemma {:induction false} SortingExists(items: set<string>) returns (r: seq<string>)
    ensures Sorted(r) && multiset(r) == multiset(items)
  {
    if items == {} {
      r := [];
    } else {
      var x :| x in items;
      var rest := SortingExists(items - {x});
      r := InsertSorted(rest, x);
    }
  }

  // ---- Splitting ----

  /** The parts of s between separators; one part, s itself, when there is none. */
  function Split(s: string, sep: char): (parts: seq<string>)
    ensures |parts| >= 1
    ensures |parts| == 1 <==> sep !in s
  {
    if s == "" then [""]
    else
      var rest := Split(s[1..], sep);
      if s[0] == sep then [""] + rest else [[s[0]] + rest[0]] + rest[1..]
  }

  function Join(parts: seq<string>, sep: char): string
    requires |parts| >= 1
  {
    if |parts| == 1 then parts[0] else parts[0] + [sep] + Join(parts[1..], sep)
  }

  predicate Clean(part: string, sep: char) {
    sep !in part
  }

  predicate AllClean(parts: seq<string>, sep: char) {
    forall part :: part in parts ==> Clean(part, sep)
  }

  lemma {:induction false} SplitJoins(s: string, sep: char)
    ensures Join(Split(s, sep), sep) == s
  {
    if s != "" {
      SplitJoins(s[1..], sep);
      var rest := Split(s[1..], sep);
      if s[0] == sep {
        assert ([""] + rest)[1..] == rest;
      } else {
        JoinGrows(s[0], rest, sep);
      }
      assert s == [s[0]] + s[1..];
    }
  }

  lemma JoinGrows(c: char, parts: seq<string>, sep: char)
    requires |parts| >= 1
    ensures Join([[c] + parts[0]] + parts[1..], sep) == [c] + Join(parts, sep)
  {
    var longer := [[c] + parts[0]] + parts[1..];
    assert longer[1..] == parts[1..];
    if |parts| > 1 {
      assert [c] + parts[0] + [sep] + Join(parts[1..], sep) == [c] + (parts[0] + [sep] + Join(parts[1..], sep));
    }
  }

  lemma {:induction false} SplitClean(s: string, sep: char)
    ensures AllClean(Split(s, sep), sep)
  {
    if s != "" {
      SplitClean(s[1..], sep);
      var rest := Split(s[1..], sep);
      assert rest[0] in rest;
      assert forall part :: part in rest[1..] ==> part in rest;
    }
  }

  lemma {:induction false} SplitFirst(part: string, rest: string, sep: char)
    requires Clean(part, sep)
    ensures Split(part, sep) == [part]
    ensures Split(part + [sep] + rest, sep) == [part] + Split(rest, sep)
  {
    var all := part + [sep] + rest;
    if part == "" {
      assert all[1..] == rest;
    } else {
      assert part == [part[0]] + part[1..];
      SplitFirst(part[1..], rest, sep);
      assert all[1..] == part[1..] + [sep] + rest;
    }
  }

  /** Splitting gives the one list of separator-free parts that joins back to the string. */
  lemma {:induction false} SplitIsTheOne(s: string, parts: seq<string>, sep: char)
    ensures parts == Split(s, sep) <==> |parts| >= 1 && AllClean(parts, sep) && Join(parts, sep) == s
  {
    SplitJoins(s, sep);
    SplitClean(s, sep);
    if |parts| >= 1 && AllClean(parts, sep) && Join(parts, sep) == s {
      SplitOfJoin(parts, sep);
    }
  }

  lemma {:induction false} SplitOfJoin(parts: seq<string>, sep: char)
    requires |parts| >= 1 && AllClean(parts, sep)
    ensures Split(Join(parts, sep), sep) == parts
  {
    hide Split, Clean;
    assert parts[0] in parts && parts == [parts[0]] + parts[1..];
    if |parts| == 1 {
      SplitFirst(parts[0], "", sep);
    } else {
      SplitFirst(parts[0], Join(parts[1..], sep), sep);
      assert forall part :: part in parts[1..] ==> part in parts;
      SplitOfJoin(parts[1..], sep);
    }
  }
}
