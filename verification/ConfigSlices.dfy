/**
 * The property lists as Go has them: slices over arrays that may have room to spare, so that appending can write
 * into an array that others still read. Merging copies the defaults first; these methods show that the copies
 * keep every array that existed before, the defaults' and those of the config in force, as it was.
 */
module ConfigSlices {
  import opened Types
  import opened ConfigMerge

  /** The first len cells of an array; the cells behind them are room for appending in place. */
  datatype Span = Span(cells: array<ExtractProperty>, len: nat) {
    predicate Sized() {
      len <= cells.Length
    }

    function Items(): seq<ExtractProperty>
      requires Sized()
      reads cells
    {
      cells[..len]
    }
  }

  type Slices = map<string, Span>

  ghost predicate AllSized(m: Slices) {
    forall k :: k in m ==> m[k].Sized()
  }

  /** No two entries share an array. */
  ghost predicate Apart(m: Slices) {
    forall j, k :: j in m && k in m && j != k ==> m[j].cells != m[k].cells
  }

  ghost function Cells(m: Slices): set<object> {
    set k | k in m :: m[k].cells as object
  }

  type Properties = map<string, seq<ExtractProperty>>

  /** The property lists that the slices stand for. */
  ghost function View(m: Slices): Properties
    requires AllSized(m)
    reads Cells(m)
  {
    map k | k in m :: (assert m[k].cells as object in Cells(m); m[k].Items())
  }

  function At(v: Properties, key: string): seq<ExtractProperty> {
    if key in v then v[key] else []
  }

  /** Putting a slice with an array of its own under a key. */
  lemma EntrySet(m: Slices, key: string, s: Span)
    requires AllSized(m) && Apart(m) && s.Sized()
    requires forall k :: k in m && k != key ==> m[k].cells != s.cells
    ensures
      var r := m[key := s];
      && AllSized(r) && Apart(r) && Cells(r) <= Cells(m) + {s.cells}
      && View(r) == View(m)[key := s.Items()]
  {
  }

  method CopySlice(s: Span) returns (r: Span)
    requires s.Sized()
    ensures r.Sized() && fresh(r.cells) && r.Items() == s.Items()
  {
    var a := new ExtractProperty[s.len](i requires 0 <= i < s.len <= s.cells.Length reads s.cells => s.cells[i]);
    r := Span(a, s.len);
  }

  /** Appends in place when there is room, and otherwise to a new array with as much room as the runtime likes. */
  method Append(s: Span, p: ExtractProperty, spare: nat) returns (r: Span)
    requires s.Sized()
    modifies s.cells
    ensures r.Sized() && r.Items() == old(s.Items()) + [p]
    ensures s.cells[..s.len] == old(s.Items())
    ensures if s.len < s.cells.Length then r.cells == s.cells else fresh(r.cells)
  {
    if s.len < s.cells.Length {
      s.cells[s.len] := p;
      r := Span(s.cells, s.len + 1);
    } else {
      var a := new ExtractProperty[s.len + 1 + spare](i requires s.len <= s.cells.Length reads s.cells =>
        if 0 <= i < s.len then s.cells[i] else p);
      r := Span(a, s.len + 1);
    }
  }

  /** The field loop on a slice: it writes to the slice's own array or to new ones only. */
  method AppendFields(s: Span, fields: seq<Field>, suffix: string, key: string, grow: nat -> nat) returns (r: Span)
    requires s.Sized()
    modifies s.cells
    ensures r.Sized() && r.Items() == WithFields(old(s.Items()), fields, suffix, key)
    ensures r.cells == s.cells || fresh(r.cells)
  {
    r := s;
    for i := 0 to |fields|
      invariant r.Sized() && r.Items() == WithFields(old(s.Items()), fields[..i], suffix, key)
      invariant r.cells == s.cells || fresh(r.cells)
    {
      assert fields[..i + 1][..i] == fields[..i];
      var p := PropertyOf(fields[i], suffix, key);
      var collision := Collides(r.Items(), p.name);
      if !Incomplete(fields[i]) && !collision {
        r := Append(r, p, grow(r.len));
      }
    }
    assert fields[..|fields|] == fields;
  }

  method CopyAll(src: Slices) returns (dst: Slices)
    requires AllSized(src)
    ensures AllSized(dst) && Apart(dst) && fresh(Cells(dst)) && View(dst) == View(src)
  {
    hide Apart;
    dst := map[];
    NoneApart();
    var todo := src.Keys;
    while todo != {}
      invariant todo <= src.Keys && dst.Keys == src.Keys - todo
      invariant AllSized(dst) && Apart(dst) && fresh(Cells(dst))
      invariant forall key :: key in dst ==> dst[key].Items() == src[key].Items()
    {
      var key :| key in todo;
      todo := todo - {key};
      var copied := CopySlice(src[key]);
      StillApart(dst, key, copied);
      dst := dst[key := copied];
    }
  }

  lemma NoneApart()
    ensures Apart(map[])
  {
  }

  lemma StillApart(m: Slices, key: string, s: Span)
    requires AllSized(m) && Apart(m) && s.Sized() && key !in m && s.cells as object !in Cells(m)
    ensures AllSized(m[key := s]) && Apart(m[key := s]) && Cells(m[key := s]) == Cells(m) + {s.cells}
  {
    NotAmong(m, s);
    assert m[key := s][key].cells as object in Cells(m[key := s]);
    forall o | o in Cells(m) ensures o in Cells(m[key := s]) {
      var k :| k in m && m[k].cells as object == o;
      assert m[key := s][k] == m[k];
    }
  }

  lemma NotAmong(m: Slices, s: Span)
    requires s.cells as object !in Cells(m)
    ensures forall k :: k in m ==> m[k].cells != s.cells
  {
    forall k | k in m ensures m[k].cells != s.cells {
      assert m[k].cells as object in Cells(m);
    }
  }

  /** What the rules make of the property list of one key. */
  function PropertiesAfter(properties: seq<ExtractProperty>, rules: seq<Rule>, key: string): seq<ExtractProperty> {
    if rules == [] then properties
    else
      var n := |rules| - 1;
      var before := PropertiesAfter(properties, rules[..n], key);
      if FieldsKey(rules[n]) == Some(key) then WithFields(before, rules[n].fields, rules[n].fieldSuffix, key)
        else before
  }

  /** It is what the whole merge makes of it. */
  lemma {:induction false} PropertiesAfterRules(c: Option<ResourceConfig>, rules: seq<Rule>, key: string)
    ensures OrEmpty(AfterRules(c, rules, key)).properties == PropertiesAfter(OrEmpty(c).properties, rules, key)
  {
    hide AfterRule, FieldsKey, WithFields;
    if rules != [] {
      var n := |rules| - 1;
      PropertiesAfterRules(c, rules[..n], key);
      PropertiesOfOneRule(AfterRules(c, rules[..n], key), rules[n], key);
    }
  }

  ghost predicate FieldsMerged(before: Properties, after: Properties, rules: seq<Rule>) {
    forall key :: At(after, key) == PropertiesAfter(At(before, key), rules, key)
  }

  ghost function WithRule(v: Properties, rule: Rule): Properties {
    if FieldsKey(rule).None? then v
    else
      var key := FieldsKey(rule).value;
      v[key := WithFields(At(v, key), rule.fields, rule.fieldSuffix, key)]
  }

  lemma OneMoreRuleMerged(start: Properties, v: Properties, rules: seq<Rule>, i: nat)
    requires i < |rules| && FieldsMerged(start, v, rules[..i])
    ensures FieldsMerged(start, WithRule(v, rules[i]), rules[..i + 1])
  {
    hide FieldsKey, WithFields;
    assert rules[..i + 1][..i] == rules[..i];
  }

  /**
   * Copies the defaults and adds the fields of every rule. It modifies nothing that existed before: whatever
   * room the arrays of the defaults or of an earlier config have to spare, they stay as they are.
   */
  method MergeFields(defaults: Slices, rules: seq<Rule>, grow: nat -> nat) returns (merged: Slices)
    requires AllSized(defaults)
    ensures AllSized(merged) && Apart(merged) && fresh(Cells(merged))
    ensures FieldsMerged(View(defaults), View(merged), rules)
  {
    hide FieldsMerged, WithRule, Apart;
    ghost var start := View(defaults);
    merged := CopyAll(defaults);
    NoRules(start);
    assert rules[..0] == [] && View(merged) == start;
    for i := 0 to |rules|
      invariant AllSized(merged) && Apart(merged) && fresh(Cells(merged))
      invariant FieldsMerged(start, View(merged), rules[..i]) && View(defaults) == start
    {
      OneMoreRuleMerged(start, View(merged), rules, i);
      merged := MergeRule(merged, rules[i], grow);
    }
    assert rules[..|rules|] == rules;
  }

  lemma NoRules(v: Properties)
    ensures FieldsMerged(v, v, [])
  {
  }

  method MergeRule(m: Slices, rule: Rule, grow: nat -> nat) returns (r: Slices)
    requires AllSized(m) && Apart(m)
    modifies Cells(m)
    ensures AllSized(r) && Apart(r) && fresh(Cells(r) - Cells(m))
    ensures View(r) == WithRule(old(View(m)), rule)
  {
    hide FieldsKey, WithFields;
    r := m;
    if FieldsKey(rule).Some? {
      var key := FieldsKey(rule).value;
      var entry := EntryFor(m, key);
      var longer := AppendFields(entry, rule.fields, rule.fieldSuffix, key, grow);
      assert View(m) - {key} == old(View(m)) - {key};
      EntrySet(m, key, longer);
      SameApartFrom(View(m), old(View(m)), key, longer.Items());
      r := m[key := longer];
    }
  }

  lemma SameApartFrom(v: Properties, w: Properties, key: string, items: seq<ExtractProperty>)
    requires v - {key} == w - {key}
    ensures v[key := items] == w[key := items]
  {
    forall k | k in v && k != key ensures k in w && v[k] == w[k] {
      assert k in v - {key};
    }
    forall k | k in w && k != key ensures k in v {
      assert k in w - {key};
    }
  }

  /** The list of a key, or a new empty one. */
  method EntryFor(m: Slices, key: string) returns (entry: Span)
    requires AllSized(m)
    ensures entry.Sized() && entry.Items() == At(View(m), key)
    ensures if key in m then entry == m[key] && entry.cells as object in Cells(m) else fresh(entry.cells)
  {
    if key in m {
      entry := m[key];
      assert entry.cells as object in Cells(m);
    } else {
      var a := new ExtractProperty[0];
      entry := Span(a, 0);
    }
  }
}
