/** GTFOMetaBlocks: the block groups `init` constructs, the override merge of
    item-model variants and the serialisation of a block state's properties
    into a model variant string. */
module MetaBlocks {

  // ---------------------------------------------------------------------
  // Block groups constructed by `init`
  // ---------------------------------------------------------------------

  /** The lengths of the four block lists: GTFO_LEAVES, GTFO_LOGS,
      GTFO_SAPLINGS and GTFO_PLANKS. */
  datatype GroupCounts = GroupCounts(leaves: nat, logs: nat, saplings: nat, planks: nat)

  /** `for (int i = 0; i <= n; i++)`: the group index of each block constructed. */
  method CountUpTo(n: nat) returns (groups: seq<nat>)
    ensures |groups| == n + 1
    ensures forall i :: 0 <= i < |groups| ==> groups[i] == i
  {
    groups := [];
    var i := 0;
    while i <= n
      invariant 0 <= i <= n + 1
      invariant |groups| == i
      invariant forall j :: 0 <= j < i ==> groups[j] == j
    {
      groups := groups + [i];
      i := i + 1;
    }
  }

  /** The three construction loops of `init`, given the number of registered
      trees: one leaves and one log block per four trees and one sapling block
      per eight, each loop running one extra time. */
  method Init(treeCount: nat) returns (leaves: seq<nat>, logs: seq<nat>, saplings: seq<nat>)
    ensures |leaves| == treeCount / 4 + 1 && |logs| == treeCount / 4 + 1
    ensures |saplings| == treeCount / 8 + 1
    ensures forall i :: 0 <= i < |leaves| ==> leaves[i] == i
    ensures forall i :: 0 <= i < |logs| ==> logs[i] == i
    ensures forall i :: 0 <= i < |saplings| ==> saplings[i] == i
    ensures forall seed: nat :: seed < treeCount ==>
              seed / 4 < |leaves| && seed / 4 < |logs| && seed / 8 < |saplings|
  {
    leaves := CountUpTo(treeCount / 4);
    logs := CountUpTo(treeCount / 4);
    saplings := CountUpTo(treeCount / 8);
    forall seed: nat | seed < treeCount
      ensures seed / 4 < |leaves| && seed / 8 < |saplings|
    {
      assert seed / 4 <= treeCount / 4;
      assert seed / 8 <= treeCount / 8;
    }
  }

  // ---------------------------------------------------------------------
  // The override merge of registerItemModelWithOverride
  // ---------------------------------------------------------------------

  /** `new HashMap<>(state.getProperties())` followed by `putAll(stateOverrides)`. */
  function MergeOverrides(properties: map<string, string>, overrides: map<string, string>): (r: map<string, string>)
    ensures r.Keys == properties.Keys + overrides.Keys
    ensures forall k :: k in overrides ==> r[k] == overrides[k]
    ensures forall k :: k in properties && k !in overrides ==> r[k] == properties[k]
  {
    properties + overrides
  }

  /** Putting the same overrides twice changes nothing. */
  lemma MergeIdempotent(properties: map<string, string>, overrides: map<string, string>)
    ensures MergeOverrides(MergeOverrides(properties, overrides), overrides) == MergeOverrides(properties, overrides)
  {
  }

  // ---------------------------------------------------------------------
  // String order: String.compareTo
  // ---------------------------------------------------------------------

  /** `a.compareTo(b) < 0`: lexicographic by character, a proper prefix first. */
  predicate LexLess(a: string, b: string)
    decreases |a|
  {
    if |a| == 0 then |b| > 0
    else if |b| == 0 then false
    else if a[0] != b[0] then a[0] < b[0]
    else LexLess(a[1..], b[1..])
  }

  lemma {:induction false} LexIrreflexive(a: string)
    ensures !LexLess(a, a)
    decreases |a|
  {
    if |a| > 0 {
      LexIrreflexive(a[1..]);
    }
  }

  lemma {:induction false} LexTransitive(a: string, b: string, c: string)
    requires LexLess(a, b) && LexLess(b, c)
    ensures LexLess(a, c)
    decreases |a|
  {
    if |a| > 0 && a[0] == b[0] && b[0] == c[0] {
      LexTransitive(a[1..], b[1..], c[1..]);
    }
  }

  /** Two different strings are always ordered one way or the other. */
  lemma {:induction false} LexTotal(a: string, b: string)
    requires a != b
    ensures LexLess(a, b) || LexLess(b, a)
    decreases |a|
  {
    if |a| > 0 && |b| > 0 && a[0] == b[0] {
      assert a == [a[0]] + a[1..] && b == [b[0]] + b[1..];
      LexTotal(a[1..], b[1..]);
    }
  }

  lemma {:induction false} LexAsymmetric(a: string, b: string)
    requires LexLess(a, b)
    ensures !LexLess(b, a)
  {
    if LexLess(b, a) {
      LexTransitive(a, b, a);
      LexIrreflexive(a);
    }
  }

  predicate IsLeast(m: string, names: set<string>)
  {
    m in names && forall k :: k in names && k != m ==> LexLess(m, k)
  }

  lemma {:induction false} LeastExists(names: set<string>)
    requires names != {}
    ensures exists m :: IsLeast(m, names)
    decreases names
  {
    var x :| x in names;
    var rest := names - {x};
    if rest == {} {
      assert names == {x};
      assert IsLeast(x, names);
    } else {
      LeastExists(rest);
      var m :| IsLeast(m, rest);
      if LexLess(m, x) {
        assert IsLeast(m, names);
      } else {
        LexTotal(m, x);
        forall k | k in names && k != x
          ensures LexLess(x, k)
        {
          if k != m {
            LexTransitive(x, m, k);
          }
        }
        assert IsLeast(x, names);
      }
    }
  }

  lemma LeastUnique(m: string, m': string, names: set<string>)
    requires IsLeast(m, names) && IsLeast(m', names)
    ensures m == m'
  {
    if m != m' {
      LexAsymmetric(m, m');
    }
  }

  /** The name that sorts first. */
  function Least(names: set<string>): (m: string)
    requires names != {}
    ensures IsLeast(m, names)
  {
    LeastExists(names);
    ForallLeastUnique(names);
    var m :| IsLeast(m, names);
    m
  }

  lemma ForallLeastUnique(names: set<string>)
    ensures forall m, m' :: IsLeast(m, names) && IsLeast(m', names) ==> m == m'
  {
    forall m, m' | IsLeast(m, names) && IsLeast(m', names)
      ensures m == m'
    {
      LeastUnique(m, m', names);
    }
  }

  ghost predicate StrictlySorted(s: seq<string>)
  {
    forall i, j :: 0 <= i < j < |s| ==> LexLess(s[i], s[j])
  }

  /** The property names in the order the stream sort of
      `statePropertiesToString` puts them. */
  function SortedNames(names: set<string>): (r: seq<string>)
    ensures StrictlySorted(r)
    ensures |r| == |names|
    ensures forall k :: k in names <==> k in r
    decreases names
  {
    if names == {} then []
    else
      var m := Least(names);
      var rest := SortedNames(names - {m});
      assert forall i :: 0 <= i < |rest| ==> rest[i] in names - {m};
      [m] + rest
  }

  // ---------------------------------------------------------------------
  // Joining and splitting at commas
  // ---------------------------------------------------------------------

  /** The parts separated by single commas. */
  function JoinComma(parts: seq<string>): string
    decreases |parts|
  {
    if |parts| == 0 then ""
    else if |parts| == 1 then parts[0]
    else parts[0] + "," + JoinComma(parts[1..])
  }

  /** Cutting a string at every comma. */
  function SplitCommas(s: string): seq<string>
    decreases |s|
  {
    if ',' !in s then [s]
    else
      var i := FirstComma(s);
      [s[..i]] + SplitCommas(s[i + 1..])
  }

  function FirstComma(s: string): (i: nat)
    requires ',' in s
    ensures i < |s| && s[i] == ',' && ',' !in s[..i]
  {
    if s[0] == ',' then 0
    else
      assert ',' in s[1..] by {
        var k :| 0 <= k < |s| && s[k] == ',';
        assert s[1..][k - 1] == ',';
      }
      var j := FirstComma(s[1..]);
      assert s[..j + 1] == [s[0]] + s[1..][..j];
      j + 1
  }

  ghost predicate CommaFree(parts: seq<string>)
  {
    forall i :: 0 <= i < |parts| ==> ',' !in parts[i]
  }

  lemma {:induction false} JoinAppend(parts: seq<string>, x: string)
    requires |parts| > 0
    ensures JoinComma(parts + [x]) == JoinComma(parts) + "," + x
    decreases |parts|
  {
    if |parts| > 1 {
      assert (parts + [x])[1..] == parts[1..] + [x];
      JoinAppend(parts[1..], x);
    }
  }

  /** The first comma of `a,rest`, when `a` holds none, is the one after `a`. */
  lemma {:induction false} FirstCommaAfter(a: string, rest: string)
    requires ',' !in a
    ensures FirstComma(a + "," + rest) == |a|
    decreases |a|
  {
    var s := a + "," + rest;
    if |a| > 0 {
      assert s[0] == a[0];
      assert s[1..] == a[1..] + "," + rest;
      FirstCommaAfter(a[1..], rest);
    }
  }

  /** Cutting at the first comma of `a,rest` when `a` holds none. */
  lemma SplitAtFirst(a: string, rest: string)
    requires ',' !in a
    ensures SplitCommas(a + "," + rest) == [a] + SplitCommas(rest)
  {
    var s := a + "," + rest;
    FirstCommaAfter(a, rest);
    assert s[..|a|] == a;
    assert s[|a| + 1..] == rest;
  }

  /** Joining comma-free parts and cutting the result at its commas gives the
      parts back. */
  lemma {:induction false} SplitJoin(parts: seq<string>)
    requires |parts| > 0 && CommaFree(parts)
    ensures SplitCommas(JoinComma(parts)) == parts
    decreases |parts|
  {
    if |parts| > 1 {
      assert ',' !in parts[0];
      SplitAtFirst(parts[0], JoinComma(parts[1..]));
      SplitJoin(parts[1..]);
      assert [parts[0]] + parts[1..] == parts;
    } else {
      assert ',' !in parts[0];
      assert parts == [parts[0]];
    }
  }

  /** Joining n comma-free parts puts exactly n - 1 commas in. */
  lemma {:induction false} JoinCommaCount(parts: seq<string>)
    requires |parts| > 0 && CommaFree(parts)
    ensures multiset(JoinComma(parts))[','] == |parts| - 1
    decreases |parts|
  {
    if |parts| == 1 {
      assert multiset(parts[0])[','] == 0;
    } else {
      var rest := JoinComma(parts[1..]);
      JoinCommaCount(parts[1..]);
      assert multiset(parts[0])[','] == 0;
      assert multiset(parts[0] + "," + rest) == multiset(parts[0]) + multiset(",") + multiset(rest);
    }
  }

  // ---------------------------------------------------------------------
  // statePropertiesToString
  // ---------------------------------------------------------------------

  function Entry(name: string, value: string): string
  {
    name + "=" + value
  }

  /** The rendered entries `name=value` for the given names, in their order. */
  function Entries(names: seq<string>, properties: map<string, string>): (r: seq<string>)
    requires forall i :: 0 <= i < |names| ==> names[i] in properties
    ensures |r| == |names|
    ensures forall i :: 0 <= i < |names| ==> r[i] == Entry(names[i], properties[names[i]])
    decreases |names|
  {
    if |names| == 0 then [] else Entries(names[..|names| - 1], properties) + [Entry(names[|names| - 1], properties[names[|names| - 1]])]
  }

  /** The variant string a block state's properties are rendered to. */
  function Rendered(properties: map<string, string>): string
  {
    if |properties| == 0 then "normal"
    else
      var names := SortedNames(properties.Keys);
      JoinComma(Entries(names, properties))
  }

  /** statePropertiesToString: sort the entries by property name, then append
      them one by one, a comma before each but the first; "normal" when
      nothing was appended. */
  method StatePropertiesToString(properties: map<string, string>) returns (s: string)
    ensures s == Rendered(properties)
  {
    var names := SortedNames(properties.Keys);
    NamesInMap(names, properties);
    var builder := AppendEntries(names, properties);
    if |builder| == 0 {
      builder := builder + "normal";
    }
    FinishRendering(properties, names, builder);
    s := builder;
  }

  /** The loop of statePropertiesToString: each entry `name=value` appended
      in turn, preceded by a comma when the builder is not empty. */
  method AppendEntries(names: seq<string>, properties: map<string, string>) returns (builder: string)
    requires forall j :: 0 <= j < |names| ==> names[j] in properties
    ensures builder == JoinComma(Entries(names, properties))
    ensures |names| > 0 ==> |builder| > 0
  {
    builder := "";
    var i := 0;
    while i < |names|
      invariant 0 <= i <= |names|
      invariant builder == JoinComma(Entries(names[..i], properties))
      invariant i > 0 ==> |builder| > 0
    {
      ghost var before := builder;
      var name := names[i];
      var value := properties[name];
      if |builder| != 0 {
        builder := builder + ",";
      }
      builder := builder + name;
      builder := builder + "=";
      builder := builder + value;
      AppendStep(names, i, properties, before, builder);
      i := i + 1;
    }
    assert names[..i] == names;
  }

  lemma NamesInMap(names: seq<string>, properties: map<string, string>)
    requires names == SortedNames(properties.Keys)
    ensures forall j :: 0 <= j < |names| ==> names[j] in properties
  {
  }

  /** One round of the loop in statePropertiesToString keeps the builder
      equal to the joined entries so far. */
  lemma AppendStep(names: seq<string>, i: nat, properties: map<string, string>, before: string, builder: string)
    requires i < |names|
    requires forall j :: 0 <= j < |names| ==> names[j] in properties
    requires before == JoinComma(Entries(names[..i], properties))
    requires i > 0 ==> |before| > 0
    requires builder == (if |before| != 0 then before + "," else before) + names[i] + "=" + properties[names[i]]
    ensures builder == JoinComma(Entries(names[..i + 1], properties)) && |builder| > 0
  {
    var e := Entry(names[i], properties[names[i]]);
    EntriesSnoc(names, i, properties);
    if i == 0 {
      assert Entries(names[..i], properties) == [];
      assert Entries(names[..i + 1], properties) == [e];
    } else {
      JoinAppend(Entries(names[..i], properties), e);
    }
  }

  /** After the loop: the joined entries, or "normal" when there were none. */
  lemma FinishRendering(properties: map<string, string>, names: seq<string>, builder: string)
    requires names == SortedNames(properties.Keys)
    requires forall j :: 0 <= j < |names| ==> names[j] in properties
    requires |names| == 0 ==> builder == "normal"
    requires |names| > 0 ==> builder == JoinComma(Entries(names, properties))
    ensures builder == Rendered(properties)
  {
    assert |properties| == |properties.Keys| == |names|;
  }

  lemma EntriesSnoc(names: seq<string>, i: nat, properties: map<string, string>)
    requires i < |names|
    requires forall j :: 0 <= j < |names| ==> names[j] in properties
    ensures Entries(names[..i + 1], properties) == Entries(names[..i], properties) + [Entry(names[i], properties[names[i]])]
  {
    assert names[..i + 1][..i] == names[..i];
  }

  /** "normal" is the rendering of exactly the empty property map. */
  lemma NormalIffEmpty(properties: map<string, string>)
    ensures Rendered(properties) == "normal" <==> |properties| == 0
  {
    if |properties| > 0 {
      var names := SortedNames(properties.Keys);
      var parts := Entries(names, properties);
      var s := JoinComma(parts);
      assert '=' in parts[0];
      JoinContains(parts, 0, '=');
      assert '=' !in "normal";
    }
  }

  lemma {:induction false} JoinContains(parts: seq<string>, k: nat, c: char)
    requires k < |parts| && c in parts[k]
    ensures c in JoinComma(parts)
    decreases |parts|
  {
    if |parts| > 1 && k > 0 {
      JoinContains(parts[1..], k - 1, c);
      var rest := JoinComma(parts[1..]);
      var i :| 0 <= i < |rest| && rest[i] == c;
      assert (parts[0] + "," + rest)[|parts[0]| + 1 + i] == c;
    }
  }

  /** When no name or value contains a comma, the rendering of a non-empty map
      cuts at its commas into the entries `name=value` in ascending order of
      name, with exactly one comma fewer than entries. */
  lemma RenderedEntries(properties: map<string, string>)
    requires |properties| > 0
    requires forall k :: k in properties ==> ',' !in k && ',' !in properties[k]
    ensures var names := SortedNames(properties.Keys);
      && var parts := SplitCommas(Rendered(properties));
      && |parts| == |properties|
      && (forall i :: 0 <= i < |parts| ==> parts[i] == names[i] + "=" + properties[names[i]])
      && (forall i, j :: 0 <= i < j < |parts| ==> LexLess(names[i], names[j]))
      && multiset(Rendered(properties))[','] == |properties| - 1
  {
    var names := SortedNames(properties.Keys);
    NamesInMap(names, properties);
    var parts := Entries(names, properties);
    EntriesCommaFree(names, properties);
    assert Rendered(properties) == JoinComma(parts);
    assert |parts| == |names| == |properties.Keys| == |properties|;
    SplitJoin(parts);
    JoinCommaCount(parts);
  }

  /** Entries of comma-free names and values hold no comma. */
  lemma EntriesCommaFree(names: seq<string>, properties: map<string, string>)
    requires forall j :: 0 <= j < |names| ==> names[j] in properties
    requires forall k :: k in properties ==> ',' !in k && ',' !in properties[k]
    ensures CommaFree(Entries(names, properties))
  {
    var parts := Entries(names, properties);
    forall i | 0 <= i < |parts|
      ensures ',' !in parts[i]
    {
      assert names[i] in properties;
      assert parts[i] == names[i] + "=" + properties[names[i]];
    }
  }
}
