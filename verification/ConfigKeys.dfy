/** Resource keys: "Kind" for the core group, "Kind.group" for any other. */
module ConfigKeys {

  function ConfigKey(kind: string, group: string): string {
    if group == "" then kind else kind + "." + group
  }

  /** The entry that stands for every kind of a group. */
  function WildcardKey(group: string): string {
    ConfigKey("*", group)
  }

  /** The first place of c in s, or the length of s when there is none. */
  function Index(s: string, c: char): (i: nat)
    ensures i <= |s| && (i < |s| ==> s[i] == c)
    ensures forall j :: 0 <= j < i ==> s[j] != c
  {
    if s == "" || s[0] == c then 0 else 1 + Index(s[1..], c)
  }

  function KindAndGroup(key: string): (string, string) {
    var i := Index(key, '.');
    if i < |key| then (key[..i], key[i + 1..]) else (key, "")
  }

  /** Splitting a key gives back the kind and the group it was built from exactly when the kind has no dot. */
  lemma KeySplitsBackIff(kind: string, group: string)
    ensures KindAndGroup(ConfigKey(kind, group)) == (kind, group) <==> '.' !in kind
  {
    var key := ConfigKey(kind, group);
    var i := Index(key, '.');
    if '.' in kind {
      var j :| 0 <= j < |kind| && kind[j] == '.';
      assert key[j] == '.';
      assert |KindAndGroup(key).0| < |kind|;
    } else if group != "" {
      assert key[|kind|] == '.';
      assert i == |kind|;
      assert key[..i] == kind && key[i + 1..] == group;
    }
  }

  /** Building a key from the parts of one gives it back unless its first dot is its last character. */
  lemma KeyRebuildsIff(key: string)
    ensures
      var (kind, group) := KindAndGroup(key);
      ConfigKey(kind, group) == key <==> Index(key, '.') != |key| - 1
  {
    var i := Index(key, '.');
    if i < |key| {
      Halves(key, i);
    }
  }

  lemma Halves(key: string, i: nat)
    requires i < |key| && key[i] == '.'
    ensures key == key[..i] + "." + key[i + 1..]
    ensures |key[..i]| < |key| && (key[i + 1..] == "" <==> i == |key| - 1)
  {
  }

  /** Dot-free kinds never share a key across groups. */
  lemma KeysTellApart(kind: string, group: string, kind': string, group': string)
    requires '.' !in kind && '.' !in kind'
    ensures ConfigKey(kind, group) == ConfigKey(kind', group') ==> kind == kind' && group == group'
  {
    KeySplitsBackIff(kind, group);
    KeySplitsBackIff(kind', group');
  }
}
