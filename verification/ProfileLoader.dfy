/** Loading profiles with the profiles they include, and merging them into one
(common/profile/loader.go, common/profile/factory.go). */
module ProfileLoader {
  import opened Dicts
  import opened Prelude
  import opened Texts

  type Keys = seq<(string, string)>
  type Sections = seq<(string, Keys)>

  // ---- merging, on values ----

  /** The keys of a section after those it lacks are added from another. */
  function MergedKeys(base: Keys, add: Keys): Keys {
    if add == [] then base
    else
      var before := MergedKeys(base, add[..|add| - 1]);
      if HasKey(before, add[|add| - 1].0) then before else before + [add[|add| - 1]]
  }

  /** The merged units after one more. */
  function WithUnit(merged: Sections, unit: (string, Keys)): Sections {
    if HasKey(merged, unit.0) then Assigned(merged, unit.0, MergedKeys(Lookup(merged, unit.0, []), unit.1))
    else merged + [unit]
  }

  /** The units of a profile after those of another are merged in. */
  function MergedUnits(base: Sections, add: Sections): Sections {
    if add == [] then base else WithUnit(MergedUnits(base, add[..|add| - 1]), add[|add| - 1])
  }

  function MergedAll(profiles: seq<Sections>): Sections
    requires profiles != []
  {
    if |profiles| == 1 then profiles[0]
    else MergedUnits(MergedAll(profiles[..|profiles| - 1]), profiles[|profiles| - 1])
  }

  function Find<V>(entries: seq<(string, V)>, key: string): Option<V> {
    if entries == [] then None
    else if entries[0].0 == key then Some(entries[0].1)
    else Find(entries[1..], key)
  }

  /** The value of a key of a section. */
  function Get(sections: Sections, section: string, key: string): Option<string> {
    match Find(sections, section)
    case None => None
    case Some(keys) => Find(keys, key)
  }

  function OrElse<T>(a: Option<T>, b: Option<T>): Option<T> {
    if a.Some? then a else b
  }

  lemma {:induction false} FindAppend<V>(entries: seq<(string, V)>, e: (string, V), x: string)
    ensures Find(entries + [e], x) == OrElse(Find(entries, x), if x == e.0 then Some(e.1) else None)
  {
    if entries != [] {
      assert (entries + [e])[1..] == entries[1..] + [e];
      FindAppend(entries[1..], e, x);
    }
  }

  lemma {:induction false} FindHas<V>(entries: seq<(string, V)>, x: string)
    ensures Find(entries, x).Some? <==> HasKey(entries, x)
  {
    if entries != [] {
      FindHas(entries[1..], x);
      if HasKey(entries[1..], x) {
        var i :| 0 <= i < |entries[1..]| && entries[1..][i].0 == x;
        assert entries[i + 1].0 == x;
      }
      if HasKey(entries, x) && entries[0].0 != x {
        var i :| 0 <= i < |entries| && entries[i].0 == x;
        assert entries[1..][i - 1].0 == x;
      }
    }
  }

  lemma {:induction false} FindAssigned<V>(entries: seq<(string, V)>, key: string, value: V, x: string)
    ensures Find(Assigned(entries, key, value), x) == if x == key then Some(value) else Find(entries, x)
  {
    if entries != [] && entries[0].0 != key {
      FindAssigned(entries[1..], key, value, x);
    }
  }

  lemma {:induction false} LookupIsFind<V>(entries: seq<(string, V)>, key: string, missing: V)
    ensures Find(entries, key) == if HasKey(entries, key) then Some(Lookup(entries, key, missing)) else None
  {
    FindHas(entries, key);
    if entries != [] && entries[0].0 != key {
      LookupIsFind(entries[1..], key, missing);
      FindHas(entries[1..], key);
    }
  }

  /** A key keeps its first value. */
  lemma {:induction false} MergedKeysFind(base: Keys, add: Keys, key: string)
    ensures Find(MergedKeys(base, add), key) == OrElse(Find(base, key), Find(add, key))
  {
    if add != [] {
      var front, last := add[..|add| - 1], add[|add| - 1];
      MergedKeysFind(base, front, key);
      FindHas(MergedKeys(base, front), last.0);
      MergedKeysFind(base, front, last.0);
      FindAppend(MergedKeys(base, front), last, key);
      FindAppend(front, last, key);
      assert add == front + [last];
    }
  }

  lemma FindOther<V>(front: seq<(string, V)>, last: (string, V), x: string)
    requires DistinctKeys(front + [last])
    ensures Find(front + [last], x) == if x == last.0 then Some(last.1) else Find(front, x)
    ensures DistinctKeys(front) && Find(front, last.0) == None
  {
    var all := front + [last];
    FindAppend(front, last, x);
    FindHas(front, last.0);
    forall i, j | 0 <= i < j < |front| ensures front[i].0 != front[j].0 {
      assert all[i].0 != all[j].0;
    }
    forall i | 0 <= i < |front| ensures front[i].0 != last.0 {
      assert all[i].0 != all[|front|].0;
    }
  }

  /** Merging in a profile gives a key a value only where it had none. */
  lemma {:induction false} MergedUnitsGet(base: Sections, add: Sections, section: string, key: string)
    requires DistinctKeys(add)
    ensures Get(MergedUnits(base, add), section, key) == OrElse(Get(base, section, key), Get(add, section, key))
  {
    if add != [] {
      var front, last := add[..|add| - 1], add[|add| - 1];
      assert add == front + [last];
      FindOther(front, last, section);
      MergedUnitsGet(base, front, section, key);
      var before := MergedUnits(base, front);
      LookupIsFind(before, last.0, []);
      if HasKey(before, last.0) {
        var keys := Lookup(before, last.0, []);
        FindAssigned(before, last.0, MergedKeys(keys, last.1), section);
        MergedKeysFind(keys, last.1, key);
      } else {
        FindAppend(before, last, section);
      }
    }
  }

  /** The value of the first profile of a list that defines the key. */
  function FirstDefined(profiles: seq<Sections>, section: string, key: string): Option<string> {
    if profiles == [] then None
    else OrElse(Get(profiles[0], section, key), FirstDefined(profiles[1..], section, key))
  }

  lemma {:induction false} FirstDefinedConcat(a: seq<Sections>, b: seq<Sections>, section: string, key: string)
    ensures FirstDefined(a + b, section, key) == OrElse(FirstDefined(a, section, key), FirstDefined(b, section, key))
  {
    if a == [] {
      assert a + b == b;
    } else {
      assert (a + b)[1..] == a[1..] + b;
      FirstDefinedConcat(a[1..], b, section, key);
    }
  }

  /** Every unit key of the merged profile has the value of the first profile that defines it. */
  lemma {:induction false} MergeKeepsFirst(profiles: seq<Sections>, section: string, key: string)
    requires profiles != [] && forall i :: 0 <= i < |profiles| ==> DistinctKeys(profiles[i])
    ensures Get(MergedAll(profiles), section, key) == FirstDefined(profiles, section, key)
  {
    var front, last := profiles[..|profiles| - 1], profiles[|profiles| - 1];
    assert profiles == front + [last];
    FirstDefinedConcat(front, [last], section, key);
    assert FirstDefined([last][1..], section, key) == None;
    if |profiles| > 1 {
      MergeKeepsFirst(front, section, key);
      MergedUnitsGet(MergedAll(front), last, section, key);
    }
  }

  // ---- options ----

  /** The options after those of another profile are set on them; "include" is not. */
  function OptionsSet(base: Keys, add: Keys): Keys {
    if add == [] then base
    else
      var before, option := OptionsSet(base, add[..|add| - 1]), add[|add| - 1];
      if option.0 == "include" then before else Assigned(before, option.0, option.1)
  }

  lemma OptionsSetNext(base: Keys, add: Keys, k: nat)
    requires k < |add|
    ensures OptionsSet(base, add[..k + 1]) ==
      if add[k].0 == "include" then OptionsSet(base, add[..k])
      else Assigned(OptionsSet(base, add[..k]), add[k].0, add[k].1)
  {
    assert add[..k + 1][..k] == add[..k];
  }

  function OptionsOf(data: Sections): Keys {
    Lookup(data, "main", [])
  }

  function AllOptions(profiles: seq<Sections>): Keys
    requires profiles != []
  {
    if |profiles| == 1 then OptionsOf(profiles[0])
    else OptionsSet(AllOptions(profiles[..|profiles| - 1]), OptionsOf(profiles[|profiles| - 1]))
  }

  lemma {:induction false} OptionsSetFind(base: Keys, add: Keys, key: string)
    requires DistinctKeys(add)
    ensures Find(OptionsSet(base, add), key)
         == if key == "include" then Find(base, key) else OrElse(Find(add, key), Find(base, key))
  {
    if add != [] {
      var front, last := add[..|add| - 1], add[|add| - 1];
      assert add == front + [last];
      FindOther(front, last, key);
      OptionsSetFind(base, front, key);
      FindAssigned(OptionsSet(base, front), last.0, last.1, key);
    }
  }

  /** The value of the last profile of a list that sets the option. */
  function LastOption(profiles: seq<Sections>, key: string): Option<string> {
    if profiles == [] then None
    else OrElse(Find(OptionsOf(profiles[|profiles| - 1]), key), LastOption(profiles[..|profiles| - 1], key))
  }

  /** Options go the other way than units: the last profile that sets one wins, which overwrites the
  profile's own value by that of a profile it includes. */
  lemma {:induction false} OptionsKeepLast(profiles: seq<Sections>, key: string)
    requires profiles != [] && key != "include"
    requires forall i :: 0 <= i < |profiles| ==> DistinctKeys(OptionsOf(profiles[i]))
    ensures Find(AllOptions(profiles), key) == LastOption(profiles, key)
  {
    var front, last := profiles[..|profiles| - 1], profiles[|profiles| - 1];
    if |profiles| == 1 {
      assert front == [];
    } else {
      OptionsKeepLast(front, key);
      OptionsSetFind(AllOptions(front), OptionsOf(last), key);
    }
  }

  /** An option of the first profile survives merging exactly when no later profile sets it, or the
  last one that does sets the same value. */
  lemma OptionKeptIff(profiles: seq<Sections>, key: string)
    requires profiles != [] && key != "include"
    requires forall i :: 0 <= i < |profiles| ==> DistinctKeys(OptionsOf(profiles[i]))
    ensures var own, later := Find(OptionsOf(profiles[0]), key), LastOption(profiles[1..], key);
      Find(AllOptions(profiles), key) == own <==> later == None || later == own
  {
    OptionsKeepLast(profiles, key);
    LastOptionSplit(profiles, key);
  }

  lemma {:induction false} LastOptionSplit(profiles: seq<Sections>, key: string)
    requires profiles != []
    ensures LastOption(profiles, key) == OrElse(LastOption(profiles[1..], key), Find(OptionsOf(profiles[0]), key))
  {
    if |profiles| == 1 {
      assert profiles[..0] == [] && LastOption(profiles[..0], key) == None;
    } else {
      LastOptionSplit(profiles[..|profiles| - 1], key);
      assert profiles[1..][..|profiles| - 2] == profiles[..|profiles| - 1][1..];
    }
  }

  /** The comment on loadProfile promises that the main profile is not overridden by those it
  includes; an option is. */
  lemma IncludedOptionOverrides()
    ensures var main, included := [("main", [("include", "base"), ("summary", "mine")])], [("main", [("summary", "theirs")])];
      Find(OptionsOf(main), "summary") == Some("mine") && Find(AllOptions([main, included]), "summary") == Some("theirs")
  {
    var mine: Sections := [("main", [("include", "base"), ("summary", "mine")])];
    var theirs: Sections := [("main", [("summary", "theirs")])];
    var both := [mine, theirs];
    assert both[1..] == [theirs] && [theirs][..0] == [];
    assert LastOption([theirs], "summary") == Some("theirs");
    LastOptionSplit(both, "summary");
    OptionsKeepLast(both, "summary");
  }

  // ---- loading ----

  predicate IsUnit(name: string) {
    name != "DEFAULT" && name != "main"
  }

  function UnitsOf(data: Sections): Sections {
    if data == [] then []
    else UnitsOf(data[..|data| - 1]) + (if IsUnit(data[|data| - 1].0) then [data[|data| - 1]] else [])
  }

  /** The names a profile includes. */
  function IncludesOf(data: Sections): seq<string> {
    match Get(data, "main", "include")
    case None => []
    case Some(names) => Split(names, ',')
  }

  /** A name without the spaces around it. */
  function NameOf(text: string): string {
    Trim(text, {' '})
  }

  /** The names load, with profiles nested at most `depth` deep. */
  ghost predicate Loads(load: string -> Option<Sections>, depth: nat, names: seq<string>)
    decreases depth, 1, |names|
  {
    names == [] || (LoadsName(load, depth, NameOf(names[0])) && Loads(load, depth, names[1..]))
  }

  ghost predicate LoadsName(load: string -> Option<Sections>, depth: nat, name: string)
    decreases depth, 0, 0
  {
    match load(name)
    case None => true
    case Some(data) => depth > 0 && Loads(load, depth - 1, IncludesOf(data))
  }

  lemma {:induction false} LoadsEach(load: string -> Option<Sections>, depth: nat, names: seq<string>)
    ensures Loads(load, depth, names) <==> forall i :: 0 <= i < |names| ==> LoadsName(load, depth, NameOf(names[i]))
  {
    if names != [] {
      LoadsEach(load, depth, names[1..]);
      assert forall i :: 1 <= i < |names| ==> names[i] == names[1..][i - 1];
      if Loads(load, depth, names) {
        forall i | 0 <= i < |names| ensures LoadsName(load, depth, NameOf(names[i])) {
          if i > 0 {
            assert LoadsName(load, depth, NameOf(names[1..][i - 1]));
          }
        }
      }
      if forall i :: 0 <= i < |names| ==> LoadsName(load, depth, NameOf(names[i])) {
        forall i | 0 <= i < |names[1..]| ensures LoadsName(load, depth, NameOf(names[1..][i])) {
          assert names[1..][i] == names[i + 1];
        }
      }
    }
  }

  // ---- circles ----

  predicate IncludesName(load: string -> Option<Sections>, name: string, other: string) {
    load(name).Some? &&
    exists i :: 0 <= i < |IncludesOf(load(name).value)| && NameOf(IncludesOf(load(name).value)[i]) == other
  }

  ghost predicate Requested(names: seq<string>, name: string) {
    exists i :: 0 <= i < |names| && NameOf(names[i]) == name
  }

  /** Names each of which includes the next. */
  ghost predicate IsChain(load: string -> Option<Sections>, path: seq<string>) {
    forall k :: 0 <= k < |path| - 1 ==> IncludesName(load, path[k], path[k + 1])
  }

  ghost predicate Repeats(path: seq<string>) {
    exists i, j :: 0 <= i < j < |path| && path[i] == path[j]
  }

  /** A chain from the request comes back to a profile it has passed. */
  ghost predicate ReachesCircle(load: string -> Option<Sections>, names: seq<string>) {
    exists path :: path != [] && Requested(names, path[0]) && IsChain(load, path) && Repeats(path)
  }

  /** The names hold all that are requested or included by them. */
  ghost predicate Closed(load: string -> Option<Sections>, names: seq<string>, within: set<string>) {
    && (forall name :: Requested(names, name) ==> name in within)
    && (forall name, other :: name in within && IncludesName(load, name, other) ==> other in within)
  }

  lemma LoadsOf(load: string -> Option<Sections>, depth: nat, names: seq<string>)
    ensures Loads(load, depth, names) <==> forall name :: Requested(names, name) ==> LoadsName(load, depth, name)
  {
    LoadsEach(load, depth, names);
    if forall name :: Requested(names, name) ==> LoadsName(load, depth, name) {
      forall i | 0 <= i < |names| ensures LoadsName(load, depth, NameOf(names[i])) {
        assert Requested(names, NameOf(names[i]));
      }
    }
  }

  lemma LoadsIncluded(load: string -> Option<Sections>, depth: nat, name: string)
    requires load(name).Some?
    ensures LoadsName(load, depth, name) <==>
      depth > 0 && forall other :: IncludesName(load, name, other) ==> LoadsName(load, depth - 1, other)
  {
    var included := IncludesOf(load(name).value);
    if depth > 0 {
      LoadsOf(load, depth - 1, included);
      assert forall other :: IncludesName(load, name, other) <==> Requested(included, other);
    }
  }

  lemma {:induction false} LoadsDeeper(load: string -> Option<Sections>, depth: nat, more: nat, name: string)
    requires LoadsName(load, depth, name) && depth <= more
    ensures LoadsName(load, more, name)
    decreases depth
  {
    if load(name).Some? {
      LoadsIncluded(load, depth, name);
      LoadsIncluded(load, more, name);
      forall other | IncludesName(load, name, other) ensures LoadsName(load, more - 1, other) {
        LoadsDeeper(load, depth - 1, more - 1, other);
      }
    }
  }

  lemma LoadsNext(load: string -> Option<Sections>, depth: nat, name: string, other: string)
    requires LoadsName(load, depth, name) && IncludesName(load, name, other)
    ensures depth > 0 && LoadsName(load, depth - 1, other)
  {
    LoadsIncluded(load, depth, name);
  }

  /** Along a chain the nesting gets less deep. */
  lemma {:induction false} LoadsAlong(load: string -> Option<Sections>, depth: nat, path: seq<string>, i: nat, j: nat)
    requires IsChain(load, path) && i <= j < |path| && LoadsName(load, depth, path[i])
    ensures j - i <= depth && LoadsName(load, depth - (j - i), path[j])
    decreases j
  {
    if i < j {
      var k := j - 1;
      LoadsAlong(load, depth, path, i, k);
      assert IncludesName(load, path[k], path[k + 1]);
      LoadsNext(load, depth - (k - i), path[k], path[j]);
    }
  }

  lemma {:induction false} LeastDepth(load: string -> Option<Sections>, depth: nat, name: string) returns (least: nat)
    requires LoadsName(load, depth, name)
    ensures least <= depth && LoadsName(load, least, name)
    ensures forall d: nat :: d < least ==> !LoadsName(load, d, name)
    decreases depth
  {
    least := depth;
    if depth > 0 && LoadsName(load, depth - 1, name) {
      least := LeastDepth(load, depth - 1, name);
    } else {
      forall d: nat | d < depth ensures !LoadsName(load, d, name) {
        if LoadsName(load, d, name) {
          LoadsDeeper(load, d, depth - 1, name);
        }
      }
    }
  }

  lemma NoRepeats(load: string -> Option<Sections>, depth: nat, path: seq<string>)
    requires path != [] && IsChain(load, path) && LoadsName(load, depth, path[0])
    ensures !Repeats(path)
  {
    forall i, j | 0 <= i < j < |path| ensures path[i] != path[j] {
      LoadsAlong(load, depth, path, 0, i);
      var least := LeastDepth(load, depth - i, path[i]);
      LoadsAlong(load, least, path, i, j);
    }
  }

  /** A name that does not load to a depth starts a chain longer than that. */
  lemma {:induction false} LongChain(load: string -> Option<Sections>, depth: nat, name: string)
    returns (path: seq<string>)
    requires !LoadsName(load, depth, name)
    ensures |path| == depth + 1 && path[0] == name && IsChain(load, path)
    decreases depth
  {
    path := [name];
    if depth > 0 {
      LoadsIncluded(load, depth, name);
      var other :| IncludesName(load, name, other) && !LoadsName(load, depth - 1, other);
      var rest := LongChain(load, depth - 1, other);
      path := [name] + rest;
      forall k | 0 <= k < |path| - 1 ensures IncludesName(load, path[k], path[k + 1]) {
        assert k > 0 ==> path[k] == rest[k - 1] && path[k + 1] == rest[k - 1 + 1];
      }
    }
  }

  lemma {:induction false} ChainWithin(load: string -> Option<Sections>, names: seq<string>, within: set<string>,
                                       path: seq<string>, k: nat)
    requires Closed(load, names, within) && IsChain(load, path) && k < |path| && path[0] in within
    ensures path[k] in within
    decreases k
  {
    if k > 0 {
      ChainWithin(load, names, within, path, k - 1);
      assert IncludesName(load, path[k - 1], path[k - 1 + 1]);
    }
  }

  lemma {:induction false} TooManyRepeat(path: seq<string>, within: set<string>)
    requires |path| > |within| && forall k :: 0 <= k < |path| ==> path[k] in within
    ensures Repeats(path)
    decreases |path|
  {
    var front, last := path[..|path| - 1], path[|path| - 1];
    if j :| 0 <= j < |front| && front[j] == last {
      assert path[j] == path[|path| - 1];
    } else {
      TooManyRepeat(front, within - {last});
      var i, j :| 0 <= i < j < |front| && front[i] == front[j];
      assert path[i] == path[j];
    }
  }

  /** Where finitely many profiles can be reached, loading ends exactly if the request reaches no
  circle: no name that was processed is ever looked at, so a circle would be followed forever. */
  lemma LoadsIffNoCircle(load: string -> Option<Sections>, names: seq<string>, within: set<string>)
    requires Closed(load, names, within)
    ensures (exists depth: nat :: Loads(load, depth, names)) <==> !ReachesCircle(load, names)
  {
    if depth: nat :| Loads(load, depth, names) {
      LoadsOf(load, depth, names);
      forall path | path != [] && Requested(names, path[0]) && IsChain(load, path) ensures !Repeats(path) {
        NoRepeats(load, depth, path);
      }
    }
    if !ReachesCircle(load, names) {
      LoadsOf(load, |within|, names);
      forall name | Requested(names, name) ensures LoadsName(load, |within|, name) {
        if !LoadsName(load, |within|, name) {
          var path := LongChain(load, |within|, name);
          forall k | 0 <= k < |path| ensures path[k] in within {
            ChainWithin(load, names, within, path, k);
          }
          TooManyRepeat(path, within);
        }
      }
    }
  }

  // ---- what is loaded ----

  /** The profiles of the names, each in front of those it includes; a name that does not load is
  skipped. */
  ghost function Preorder(load: string -> Option<Sections>, depth: nat, names: seq<string>): seq<Sections>
    requires Loads(load, depth, names)
    decreases depth, 1, |names|
  {
    if names == [] then []
    else WithIncludes(load, depth, NameOf(names[0])) + Preorder(load, depth, names[1..])
  }

  ghost function WithIncludes(load: string -> Option<Sections>, depth: nat, name: string): seq<Sections>
    requires LoadsName(load, depth, name)
    decreases depth, 0, 0
  {
    match load(name)
    case None => []
    case Some(data) => [data] + Preorder(load, depth - 1, IncludesOf(data))
  }

  /** What a key is worth by inheritance: the value of the first name that has one, where a profile
  has its own value, or else the one it inherits from what it includes. */
  ghost function Inherited(load: string -> Option<Sections>, depth: nat, names: seq<string>,
                           section: string, key: string): Option<string>
    requires Loads(load, depth, names)
    decreases depth, |names|
  {
    if names == [] then None
    else
      assert LoadsName(load, depth, NameOf(names[0]));
      var first := (match load(NameOf(names[0]))
        case None => None
        case Some(data) =>
          OrElse(Get(UnitsOf(data), section, key), Inherited(load, depth - 1, IncludesOf(data), section, key)));
      OrElse(first, Inherited(load, depth, names[1..], section, key))
  }

  /** A profile's own value goes before what it inherits, and that before what the next names have. */
  lemma NearestValueWins(load: string -> Option<Sections>, depth: nat, names: seq<string>, data: Sections,
                         section: string, key: string)
    requires Loads(load, depth, names) && names != [] && load(NameOf(names[0])) == Some(data)
    ensures depth > 0 && Loads(load, depth - 1, IncludesOf(data)) && Loads(load, depth, names[1..])
    ensures var own, value := Get(UnitsOf(data), section, key), Inherited(load, depth, names, section, key);
      if own != None then value == own
      else if Inherited(load, depth - 1, IncludesOf(data), section, key) != None
      then value == Inherited(load, depth - 1, IncludesOf(data), section, key)
      else value == Inherited(load, depth, names[1..], section, key)
  {
  }

  function AllUnits(profiles: seq<Sections>): (units: seq<Sections>)
    ensures |units| == |profiles|
    ensures forall i :: 0 <= i < |units| ==> units[i] == UnitsOf(profiles[i])
  {
    seq(|profiles|, i requires 0 <= i < |profiles| => UnitsOf(profiles[i]))
  }

  lemma AllUnitsConcat(a: seq<Sections>, b: seq<Sections>)
    ensures AllUnits(a + b) == AllUnits(a) + AllUnits(b)
  {
  }

  lemma FirstDefinedCons(first: Sections, rest: seq<Sections>, section: string, key: string)
    ensures FirstDefined([first] + rest, section, key)
         == OrElse(Get(first, section, key), FirstDefined(rest, section, key))
  {
    assert ([first] + rest)[1..] == rest;
  }

  lemma FirstDefinedOfProfile(data: Sections, included: seq<Sections>, rest: seq<Sections>, section: string, key: string)
    ensures FirstDefined(AllUnits([data] + included + rest), section, key)
         == OrElse(OrElse(Get(UnitsOf(data), section, key), FirstDefined(AllUnits(included), section, key)),
                   FirstDefined(AllUnits(rest), section, key))
  {
    AllUnitsConcat([data] + included, rest);
    AllUnitsConcat([data], included);
    assert AllUnits([data]) == [UnitsOf(data)];
    FirstDefinedConcat(AllUnits([data] + included), AllUnits(rest), section, key);
    FirstDefinedCons(UnitsOf(data), AllUnits(included), section, key);
  }

  /** The first definition in the loaded list is the inherited one. */
  lemma {:induction false} FirstDefinedIsInherited(load: string -> Option<Sections>, depth: nat,
                                                   names: seq<string>, section: string, key: string)
    requires Loads(load, depth, names)
    ensures FirstDefined(AllUnits(Preorder(load, depth, names)), section, key)
         == Inherited(load, depth, names, section, key)
    decreases depth, |names|
  {
    if names != [] {
      FirstDefinedIsInherited(load, depth, names[1..], section, key);
      match load(NameOf(names[0]))
      case None =>
        FirstNotLoaded(load, depth, names);
      case Some(data) =>
        FirstLoaded(load, depth, names);
        FirstDefinedIsInherited(load, depth - 1, IncludesOf(data), section, key);
        FirstDefinedOfProfile(data, Preorder(load, depth - 1, IncludesOf(data)), Preorder(load, depth, names[1..]),
          section, key);
    }
  }

  lemma FirstNotLoaded(load: string -> Option<Sections>, depth: nat, names: seq<string>)
    requires Loads(load, depth, names) && names != [] && load(NameOf(names[0])).None?
    ensures Preorder(load, depth, names) == Preorder(load, depth, names[1..])
  {
    assert WithIncludes(load, depth, NameOf(names[0])) == [];
  }

  lemma FirstLoaded(load: string -> Option<Sections>, depth: nat, names: seq<string>)
    requires Loads(load, depth, names) && names != [] && load(NameOf(names[0])).Some?
    ensures var data := load(NameOf(names[0])).value;
      && depth > 0 && Loads(load, depth - 1, IncludesOf(data))
      && Preorder(load, depth, names)
         == [data] + Preorder(load, depth - 1, IncludesOf(data)) + Preorder(load, depth, names[1..])
  {
  }

  /** What is loaded does not depend on the depth allowed. */
  lemma {:induction false} DeeperLoadsSame(load: string -> Option<Sections>, depth: nat, more: nat, names: seq<string>)
    requires Loads(load, depth, names) && depth <= more
    ensures Loads(load, more, names) && Preorder(load, more, names) == Preorder(load, depth, names)
    decreases depth, |names|
  {
    if names != [] {
      DeeperLoadsSame(load, depth, more, names[1..]);
      match load(NameOf(names[0]))
      case None =>
      case Some(data) =>
        FirstLoaded(load, depth, names);
        DeeperLoadsSame(load, depth - 1, more - 1, IncludesOf(data));
    }
  }

  // ---- spaces and commas around names ----

  lemma NameIgnoresSpaces(before: string, name: string, after: string)
    requires AllIn(before, {' '}) && AllIn(after, {' '})
    ensures NameOf(before + name + after) == NameOf(name)
    ensures Trimmed(name, {' '}) ==> NameOf(before + name + after) == name
  {
    TrimIgnores(before, name, after, {' '});
    if Trimmed(name, {' '}) {
      TrimIs(before, name, after, {' '});
    }
  }

  /** Names load alike and load the same list, whatever spaces are around them. */
  lemma {:induction false} SpacesIgnored(load: string -> Option<Sections>, depth: nat, names: seq<string>,
                                         before: seq<string>, after: seq<string>)
    requires |before| == |names| == |after| && EachIn(before, {' '}) && EachIn(after, {' '})
    ensures Loads(load, depth, Padded(names, before, after)) <==> Loads(load, depth, names)
    ensures Loads(load, depth, names) ==>
      Preorder(load, depth, Padded(names, before, after)) == Preorder(load, depth, names)
    decreases |names|
  {
    if names != [] {
      SpacesIgnored(load, depth, names[1..], before[1..], after[1..]);
      NameIgnoresSpaces(before[0], names[0], after[0]);
      assert Padded(names, before, after)[1..] == Padded(names[1..], before[1..], after[1..]);
    }
  }

  /** A profile whose option "include" lists names, with commas between them and spaces around them, is
  followed by what these names load. */
  lemma IncludesFollow(load: string -> Option<Sections>, depth: nat, name: string, data: Sections,
                       names: seq<string>, before: seq<string>, after: seq<string>)
    requires load(name) == Some(data) && LoadsName(load, depth, name)
    requires names != [] && |before| == |names| == |after| && EachIn(before, {' '}) && EachIn(after, {' '})
    requires Without(names, ',') && Get(data, "main", "include") == Some(Joined(Padded(names, before, after), ','))
    ensures depth > 0 && Loads(load, depth - 1, names)
    ensures WithIncludes(load, depth, name) == [data] + Preorder(load, depth - 1, names)
  {
    PaddedWithout(names, before, after, {' '}, ',');
    SplitJoined(Padded(names, before, after), ',');
    SpacesIgnored(load, depth - 1, names, before, after);
  }

  /** The units of a file are its sections besides the default section and "main", in their order. */
  lemma {:induction false} UnitsOfFile(head: Sections, section: (string, Keys), tail: Sections)
    ensures UnitsOf(head + [section] + tail) ==
      UnitsOf(head) + (if section.0 in {"DEFAULT", "main"} then [] else [section]) + UnitsOf(tail)
    decreases |tail|
  {
    var all := head + [section] + tail;
    if tail == [] {
      assert all[..|all| - 1] == head;
    } else {
      UnitsOfFile(head, section, tail[..|tail| - 1]);
      assert all[..|all| - 1] == head + [section] + tail[..|tail| - 1];
    }
  }

  // ---- ini files and profiles as objects ----

  /** Setting a key that exists replaces its value. */
  class Section {
    const name: string
    var keys: Keys

    constructor (name: string, keys: Keys)
      ensures this.name == name && this.keys == keys
    {
      this.name, this.keys := name, keys;
    }

    method NewKey(key: string, value: string)
      modifies this
      ensures keys == Assigned(old(keys), key, value)
    {
      keys := Assigned(keys, key, value);
    }
  }

  class File {
    var sections: seq<Section>

    constructor (sections: seq<Section>)
      ensures this.sections == sections
    {
      this.sections := sections;
    }

    method GetSection(name: string) returns (section: Section)
      requires exists i :: 0 <= i < |sections| && sections[i].name == name
      ensures section in sections && section.name == name
    {
      var i := 0;
      while sections[i].name != name
        invariant 0 <= i < |sections|
        invariant forall j :: 0 <= j < i ==> sections[j].name != name
        decreases |sections| - i
      {
        i := i + 1;
      }
      section := sections[i];
    }

    /** A name that exists gives the section there is. */
    method NewSection(name: string) returns (section: Section)
      modifies this
      ensures (forall i :: 0 <= i < |old(sections)| ==> old(sections)[i].name != name) ==>
        fresh(section) && section.name == name && section.keys == [] && sections == old(sections) + [section]
    {
      for i := 0 to |sections|
        invariant sections == old(sections)
        invariant forall j :: 0 <= j < i ==> sections[j].name != name
      {
        if sections[i].name == name {
          section := sections[i];
          return;
        }
      }
      section := new Section(name, []);
      sections := sections + [section];
    }
  }

  datatype Profile = Profile(config: File, options: Option<Section>, units: seq<Section>)

  ghost function Contents(sections: seq<Section>): (data: Sections)
    reads sections
    ensures |data| == |sections|
    ensures forall i :: 0 <= i < |data| ==> data[i] == (sections[i].name, sections[i].keys)
  {
    seq(|sections|, i requires 0 <= i < |sections| reads sections => (sections[i].name, sections[i].keys))
  }

  ghost function OptionKeys(section: Option<Section>): Keys
    reads if section.Some? then {section.value} else {}
  {
    match section
    case None => []
    case Some(s) => s.keys
  }

  /** The sections of a file that are units. */
  function Units(sections: seq<Section>): (units: seq<Section>)
    ensures forall u :: u in units ==> u in sections && IsUnit(u.name)
    ensures forall s :: s in sections && IsUnit(s.name) ==> s in units
  {
    if sections == [] then []
    else Units(sections[..|sections| - 1]) + (if IsUnit(sections[|sections| - 1].name) then [sections[|sections| - 1]] else [])
  }

  ghost predicate DistinctNames(sections: seq<Section>) {
    forall i, j :: 0 <= i < j < |sections| ==> sections[i].name != sections[j].name
  }

  lemma {:induction false} UnitsContents(sections: seq<Section>)
    ensures Contents(Units(sections)) == UnitsOf(Contents(sections))
  {
    if sections != [] {
      var front := sections[..|sections| - 1];
      UnitsContents(front);
      assert Contents(sections)[..|sections| - 1] == Contents(front);
    }
  }

  lemma {:induction false} UnitsDistinct(sections: seq<Section>)
    requires DistinctNames(sections)
    ensures DistinctNames(Units(sections))
  {
    if sections != [] {
      UnitsDistinct(sections[..|sections| - 1]);
    }
  }

  // ---- merge on objects ----

  /** The units of the final profile and of its file agree on what has been merged. */
  ghost predicate Agree(final: Profile, merged: Sections)
    reads final.config, final.config.sections, final.units
  {
    match final
    case Profile(file, _, units) =>
      DistinctNames(file.sections) && Contents(Units(file.sections)) == merged && Contents(units) == merged
  }

  /** The options of the final profile are the section "main" of its file, if there is one. */
  ghost predicate HasMain(final: Profile)
    reads final.config
  {
    match final
    case Profile(file, Some(options), _) => options in file.sections && options.name == "main"
    case Profile(file, None, _) => forall i :: 0 <= i < |file.sections| ==> file.sections[i].name != "main"
  }

  /** The keys of `unit` that a unit and its section in the file lack. */
  method AddKeys(target: Section, section: Section, unit: Section)
    requires target.keys == section.keys && unit != target && unit != section
    modifies target, section
    ensures target.keys == section.keys == MergedKeys(old(target.keys), unit.keys)
  {
    for i := 0 to |unit.keys|
      invariant unit.keys == old(unit.keys)
      invariant target.keys == section.keys == MergedKeys(old(target.keys), unit.keys[..i])
    {
      var key := unit.keys[i];
      assert unit.keys[..i + 1][..i] == unit.keys[..i];
      if !HasKey(target.keys, key.0) {
        AssignedNew(target.keys, key.0, key.1);
        AssignedTwice(target.keys, key.0, key.1, key.1);
        target.NewKey(key.0, key.1);
        section.NewKey(key.0, key.1);
      }
    }
    assert unit.keys[..|unit.keys|] == unit.keys;
  }

  /** All keys of `unit`, into an empty section. */
  method CopyKeys(section: Section, unit: Section)
    requires section.keys == [] && unit != section && DistinctKeys(unit.keys)
    modifies section
    ensures section.keys == unit.keys
  {
    for i := 0 to |unit.keys|
      invariant unit.keys == old(unit.keys)
      invariant section.keys == unit.keys[..i]
    {
      AssignedNew(section.keys, unit.keys[i].0, unit.keys[i].1);
      section.NewKey(unit.keys[i].0, unit.keys[i].1);
    }
  }

  /** The position of the unit with a name. */
  method IsInclude(name: string, units: seq<Section>) returns (index: nat, found: bool)
    ensures found ==> index < |units| && units[index].name == name
    ensures !found ==> forall i :: 0 <= i < |units| ==> units[i].name != name
  {
    index, found := 0, false;
    for i := 0 to |units|
      invariant forall j :: 0 <= j < i ==> units[j].name != name
    {
      if units[i].name == name {
        return i, true;
      }
    }
  }

  lemma AreContents(sections: seq<Section>, data: Sections)
    requires |sections| == |data|
    requires forall i :: 0 <= i < |data| ==> sections[i].name == data[i].0 && sections[i].keys == data[i].1
    ensures Contents(sections) == data
  {
  }

  lemma WithKnownUnit(merged: Sections, index: nat, unit: (string, Keys))
    requires DistinctKeys(merged) && index < |merged| && merged[index].0 == unit.0
    ensures WithUnit(merged, unit) == merged[index := (unit.0, MergedKeys(merged[index].1, unit.1))]
  {
    LookupAt(merged, index, []);
    AssignedKnown(merged, index, MergedKeys(merged[index].1, unit.1));
  }

  /** The final profile after the keys of one unit changed in both copies. */
  lemma AgreeAfterKeys(final: Profile, index: nat, merged: Sections, data: (string, Keys))
    requires DistinctNames(final.config.sections) && DistinctKeys(merged)
    requires |Units(final.config.sections)| == |final.units| == |merged|
    requires index < |merged| && merged[index].0 == data.0
    requires forall i :: 0 <= i < |merged| ==>
      final.units[i].name == merged[i].0 == Units(final.config.sections)[i].name
    requires forall i :: 0 <= i < |merged| ==>
      final.units[i].keys == Units(final.config.sections)[i].keys
        == if i == index then MergedKeys(merged[i].1, data.1) else merged[i].1
    ensures Agree(final, WithUnit(merged, data))
  {
    WithKnownUnit(merged, index, data);
    AreContents(final.units, WithUnit(merged, data));
    AreContents(Units(final.config.sections), WithUnit(merged, data));
  }

  /** The i-th unit and the i-th unit of the file have the name of the i-th merged unit. */
  lemma SameNames(final: Profile, merged: Sections)
    requires Agree(final, merged)
    ensures |Units(final.config.sections)| == |final.units| == |merged| && DistinctKeys(merged)
    ensures forall i :: 0 <= i < |merged| ==> final.units[i].name == merged[i].0 == Units(final.config.sections)[i].name
  {
    UnitsDistinct(final.config.sections);
    forall i | 0 <= i < |merged| ensures final.units[i].name == merged[i].0 == Units(final.config.sections)[i].name {
      assert Contents(final.units)[i] == Contents(Units(final.config.sections))[i];
    }
  }

  /** A unit the final profile has: both of its copies get the missing keys. */
  method AddToUnit(final: Profile, index: nat, unit: Section, ghost data: (string, Keys), ghost merged: Sections)
    requires Agree(final, merged) && data == (unit.name, unit.keys)
    requires index < |final.units| && final.units[index].name == unit.name && IsUnit(unit.name)
    requires unit !in final.units && unit !in final.config.sections
    requires HasMain(final)
    modifies final.config.sections, final.units
    ensures final.config.sections == old(final.config.sections)
    ensures OptionKeys(final.options) == old(OptionKeys(final.options))
    ensures Agree(final, WithUnit(merged, data))
  {
    SameNames(final, merged);
    var section := CopyInFile(final, index, merged);
    AddKeys(final.units[index], section, unit);
    AgreeAfterKeys(final, index, merged, data);
  }

  /** The section of the file that goes with a unit. */
  method CopyInFile(final: Profile, index: nat, ghost merged: Sections) returns (section: Section)
    requires Agree(final, merged) && index < |final.units| && IsUnit(final.units[index].name)
    ensures index < |Units(final.config.sections)| && section == Units(final.config.sections)[index]
  {
    SameNames(final, merged);
    section := final.config.GetSection(final.units[index].name);
  }

  lemma UnitsAppend(sections: seq<Section>, s: Section)
    ensures Units(sections + [s]) == Units(sections) + (if IsUnit(s.name) then [s] else [])
  {
    assert (sections + [s])[..|sections|] == sections;
  }

  lemma ContentsAppend(sections: seq<Section>, s: Section)
    ensures Contents(sections + [s]) == Contents(sections) + [(s.name, s.keys)]
  {
  }

  /** A name no unit has is in neither the file nor the merged units. */
  lemma NameIsNew(final: Profile, merged: Sections, name: string)
    requires Agree(final, merged) && IsUnit(name)
    requires forall i :: 0 <= i < |final.units| ==> final.units[i].name != name
    ensures !HasKey(merged, name)
    ensures forall i :: 0 <= i < |final.config.sections| ==> final.config.sections[i].name != name
  {
    var own := Units(final.config.sections);
    SameNames(final, merged);
    forall i | 0 <= i < |final.config.sections| ensures final.config.sections[i].name != name {
      if final.config.sections[i] in own {
        var k :| 0 <= k < |own| && own[k] == final.config.sections[i];
        assert own[k].name == merged[k].0 == final.units[k].name;
      }
    }
  }

  /** A unit the final profile lacks: it is adopted, and copied into a new section of the file. */
  method AdoptUnit(final: Profile, unit: Section, ghost data: (string, Keys), ghost merged: Sections)
    returns (final': Profile, section: Section)
    requires Agree(final, merged) && data == (unit.name, unit.keys)
    requires IsUnit(unit.name) && DistinctKeys(unit.keys) && unit !in final.config.sections
    requires forall i :: 0 <= i < |final.units| ==> final.units[i].name != unit.name
    modifies final.config
    ensures final' == final.(units := final.units + [unit])
    ensures fresh(section) && final.config.sections == old(final.config.sections) + [section]
    ensures Agree(final', WithUnit(merged, data))
  {
    var file, units := final.config, final.units;
    ghost var own := Units(file.sections);
    NameIsNew(final, merged, unit.name);
    ghost var before := file.sections;
    section := file.NewSection(unit.name);
    CopyKeys(section, unit);
    final' := final.(units := units + [unit]);
    AgreeAfterAdoption(final, before, section, unit, merged);
  }

  /** The final profile after a unit and a section with its keys are appended. */
  lemma AgreeAfterAdoption(final: Profile, before: seq<Section>, section: Section, unit: Section, merged: Sections)
    requires DistinctNames(before) && (forall i :: 0 <= i < |before| ==> before[i].name != unit.name)
    requires Contents(Units(before)) == merged && Contents(final.units) == merged && !HasKey(merged, unit.name)
    requires final.config.sections == before + [section]
    requires IsUnit(unit.name) && section.name == unit.name && section.keys == unit.keys
    ensures Agree(final.(units := final.units + [unit]), WithUnit(merged, (unit.name, unit.keys)))
  {
    UnitsAppend(before, section);
    ContentsAppend(Units(before), section);
    ContentsAppend(final.units, unit);
  }

  /** All sections of the final profile, in its file or adopted, are in the region. */
  ghost predicate Inside(final: Profile, region: set<Section>)
    reads final.config
  {
    match final
    case Profile(file, _, units) =>
      && (forall i :: 0 <= i < |units| ==> units[i] in region)
      && (forall i :: 0 <= i < |file.sections| ==> file.sections[i] in region)
  }

  /** One unit of another profile. */
  method MergeUnit(final: Profile, unit: Section, ghost data: (string, Keys), ghost merged: Sections,
                   ghost region: set<Section>)
    returns (final': Profile, ghost added: set<Section>)
    requires Agree(final, merged) && Inside(final, region) && HasMain(final) && unit !in region
    requires IsUnit(unit.name) && DistinctKeys(unit.keys) && (unit.name, unit.keys) == data
    modifies final.config, region
    ensures final'.config == final.config && final'.options == final.options && HasMain(final')
    ensures OptionKeys(final.options) == old(OptionKeys(final.options))
    ensures fresh(added) && Inside(final', region + {unit} + added)
    ensures Agree(final', WithUnit(merged, data))
  {
    var index, found := IsInclude(unit.name, final.units);
    if !found {
      var section;
      final', section := AdoptUnit(final, unit, data, merged);
      added := {section};
    } else {
      final', added := final, {};
      AddToUnit(final, index, unit, data, merged);
    }
  }

  ghost predicate UnitData(data: Sections) {
    forall i :: 0 <= i < |data| ==> IsUnit(data[i].0) && DistinctKeys(data[i].1)
  }

  /** Units from the k-th on are as they were loaded. */
  ghost predicate Loaded(others: seq<Section>, k: nat, data: Sections)
    reads others
  {
    |others| == |data| && forall i :: k <= i < |others| ==> others[i].keys == data[i].1 && others[i].name == data[i].0
  }

  /** Between two units of another profile: k are done, and the others are apart. */
  ghost predicate UnitsMergedUpTo(final: Profile, others: seq<Section>, k: nat, merged: Sections, data: Sections,
                                  region: set<Section>)
    reads final.config, final.config.sections, final.units, others
  {
    match final
    case Profile(_, _, _) =>
      && k <= |data| && Agree(final, MergedUnits(merged, data[..k])) && HasMain(final) && Inside(final, region)
      && Loaded(others, k, data) && UnitData(data) && DistinctNames(others)
      && forall i :: k <= i < |others| ==> others[i] !in region
  }

  method MergeNextUnit(final: Profile, others: seq<Section>, k: nat, ghost merged: Sections, ghost data: Sections,
                       ghost region: set<Section>)
    returns (final': Profile, ghost region': set<Section>)
    requires k < |others| && UnitsMergedUpTo(final, others, k, merged, data, region)
    modifies final.config, region
    ensures final'.config == final.config && final'.options == final.options
    ensures OptionKeys(final.options) == old(OptionKeys(final.options))
    ensures region <= region' && fresh(region' - region - {others[k]})
    ensures UnitsMergedUpTo(final', others, k + 1, merged, data, region')
  {
    WithUnitIsNext(merged, data, k);
    ghost var added;
    final', added := MergeUnit(final, others[k], data[k], MergedUnits(merged, data[..k]), region);
    region' := region + {others[k]} + added;
  }

  /** The units of another profile, in turn. */
  method MergeUnits(final: Profile, others: seq<Section>, ghost merged: Sections, ghost data: Sections,
                    ghost region: set<Section>, ghost other: set<Section>)
    returns (final': Profile, ghost region': set<Section>)
    requires UnitsMergedUpTo(final, others, 0, merged, data, region)
    requires forall i :: 0 <= i < |others| ==> others[i] in other
    modifies final.config, region, other
    ensures final'.config == final.config && final'.options == final.options && HasMain(final')
    ensures OptionKeys(final.options) == old(OptionKeys(final.options))
    ensures Agree(final', MergedUnits(merged, data))
    ensures Inside(final', region') && region <= region' && fresh(region' - region - other)
  {
    final', region' := final, region;
    for k := 0 to |others|
      invariant final'.config == final.config && final'.options == final.options
      invariant OptionKeys(final.options) == old(OptionKeys(final.options))
      invariant UnitsMergedUpTo(final', others, k, merged, data, region')
      invariant region <= region' && fresh(region' - region - other)
    {
      final', region' := MergeNextUnit(final', others, k, merged, data, region');
    }
    assert data[..|others|] == data;
  }

  lemma WithUnitIsNext(merged: Sections, data: Sections, k: nat)
    requires k < |data|
    ensures MergedUnits(merged, data[..k + 1]) == WithUnit(MergedUnits(merged, data[..k]), data[k])
  {
    assert data[..k + 1][..k] == data[..k];
  }

  /** A section that is no unit does not matter to the units. */
  lemma UnitsUntouched(final: Profile, merged: Sections, s: Section)
    requires Agree(final, merged) && !IsUnit(s.name)
    ensures s !in Units(final.config.sections) && s !in final.units
  {
    SameNames(final, merged);
    UnitsOfMergedAreUnits(final, merged);
  }

  lemma UnitsOfMergedAreUnits(final: Profile, merged: Sections)
    requires Agree(final, merged)
    ensures forall u :: u in final.units ==> IsUnit(u.name)
  {
    SameNames(final, merged);
    var own := Units(final.config.sections);
    forall i | 0 <= i < |final.units| ensures IsUnit(final.units[i].name) {
      assert own[i] in own && own[i].name == final.units[i].name;
    }
  }

  /** The options section, made if there is none. */
  method EnsureOptions(final: Profile, ghost merged: Sections) returns (final': Profile)
    requires Agree(final, merged) && HasMain(final)
    modifies final.config
    ensures final'.config == final.config && final'.units == final.units && final'.options.Some?
    ensures final.options.Some? ==> final' == final && final.config.sections == old(final.config.sections)
    ensures final.options.None? ==> fresh(final'.options.value)
    ensures final.options.None? ==> final.config.sections == old(final.config.sections) + [final'.options.value]
    ensures Agree(final', merged) && HasMain(final')
    ensures OptionKeys(final'.options) == old(OptionKeys(final.options))
  {
    if final.options.Some? {
      return final;
    }
    ghost var before := final.config.sections;
    var section := final.config.NewSection("main");
    AgreeAfterMain(final, before, section, merged);
    final' := final.(options := Some(section));
  }

  lemma AgreeAfterMain(final: Profile, before: seq<Section>, section: Section, merged: Sections)
    requires DistinctNames(before) && Contents(Units(before)) == merged && Contents(final.units) == merged
    requires final.config.sections == before + [section] && section.name == "main"
    requires forall i :: 0 <= i < |before| ==> before[i].name != "main"
    ensures Agree(final.(options := Some(section)), merged) && HasMain(final.(options := Some(section)))
  {
    UnitsAppend(before, section);
    assert final.config.sections[|before|] == section;
  }

  /** Setting an option on the options and on the section "main" of the file, which are the same
  object. */
  method SetMain(final: Profile, key: string, value: string, ghost merged: Sections)
    requires Agree(final, merged) && HasMain(final) && final.options.Some?
    modifies final.options.value
    ensures Agree(final, merged)
    ensures final.options.value.keys == Assigned(old(final.options.value.keys), key, value)
  {
    var options := final.options.value;
    UnitsUntouched(final, merged, options);
    options.NewKey(key, value);
    var section := final.config.GetSection("main");
    assert section == options;
    AssignedTwice(old(options.keys), key, value, value);
    section.NewKey(key, value);
  }

  /** The final profile after some profiles were merged, and where its objects are. */
  ghost predicate Merged(final: Profile, units: Sections, options: Keys, region: set<Section>)
    reads final.config, final.config.sections, final.units, if final.options.Some? then {final.options.value} else {}
  {
    match final
    case Profile(_, main, _) =>
      Agree(final, units) && HasMain(final) && OptionKeys(main) == options && Inside(final, region)
  }

  /** One option of another profile. */
  method SetOption(final: Profile, key: string, value: string, ghost merged: Sections, ghost options: Keys,
                   ghost region: set<Section>)
    returns (final': Profile, ghost region': set<Section>)
    requires Merged(final, merged, options, region)
    modifies final.config, region
    ensures final'.config == final.config && region <= region' && fresh(region' - region)
    ensures Merged(final', merged, Assigned(options, key, value), region')
  {
    final' := EnsureOptions(final, merged);
    region' := region + {final'.options.value};
    SetMain(final', key, value, merged);
  }

  /** The options of another profile, except "include". */
  method MergeOptions(final: Profile, other: Section, ghost merged: Sections, ghost options: Keys,
                      ghost region: set<Section>)
    returns (final': Profile, ghost region': set<Section>)
    requires Merged(final, merged, options, region) && other !in region
    modifies final.config, region
    ensures final'.config == final.config && region <= region' && fresh(region' - region)
    ensures Merged(final', merged, OptionsSet(options, other.keys), region')
  {
    final', region' := final, region;
    ghost var keys := other.keys;
    for k := 0 to |other.keys|
      invariant other.keys == keys && final'.config == final.config
      invariant region <= region' && fresh(region' - region)
      invariant Merged(final', merged, OptionsSet(options, keys[..k]), region')
    {
      OptionsSetNext(options, keys, k);
      if other.keys[k].0 != "include" {
        var key, value := other.keys[k].0, other.keys[k].1;
        final', region' := SetOption(final', key, value, merged, OptionsSet(options, keys[..k]), region');
      }
    }
    assert keys[..|keys|] == keys;
  }

  ghost predicate WellFormed(data: Sections) {
    DistinctKeys(data) && forall i :: 0 <= i < |data| ==> DistinctKeys(data[i].1)
  }

  /** A profile is as it was loaded, and its units and options are in the region. */
  ghost predicate Fits(p: Profile, data: Sections, region: set<Section>)
    reads region
  {
    match p
    case Profile(_, options, units) =>
      && (forall i :: 0 <= i < |units| ==> units[i] in region)
      && (options.Some? ==> options.value in region && options.value !in units)
      && DistinctNames(units) && Loaded(units, 0, UnitsOf(data)) && OptionKeys(options) == OptionsOf(data)
      && WellFormed(data)
  }

  lemma {:induction false} UnitsOfWellFormed(data: Sections)
    requires WellFormed(data)
    ensures UnitData(UnitsOf(data)) && DistinctKeys(UnitsOf(data))
    ensures forall x :: HasKey(UnitsOf(data), x) ==> HasKey(data, x)
  {
    if data != [] {
      var front := data[..|data| - 1];
      assert WellFormed(front);
      UnitsOfWellFormed(front);
      forall x | HasKey(UnitsOf(data), x) ensures HasKey(data, x) {
        if HasKey(UnitsOf(front), x) {
          var i :| 0 <= i < |front| && front[i].0 == x;
          assert data[i].0 == x;
        } else {
          assert data[|data| - 1].0 == x;
        }
      }
      forall i | 0 <= i < |UnitsOf(front)| ensures UnitsOf(front)[i].0 != data[|data| - 1].0 {
        assert HasKey(UnitsOf(front), UnitsOf(front)[i].0);
        var j :| 0 <= j < |front| && front[j].0 == UnitsOf(front)[i].0;
        assert data[j].0 == front[j].0;
      }
    }
  }

  /** One profile: its options are set, and its units merged in. */
  method MergeProfile(final: Profile, p: Profile, ghost units: Sections, ghost options: Keys, ghost data: Sections,
                      ghost region: set<Section>, ghost other: set<Section>)
    returns (final': Profile, ghost region': set<Section>)
    requires Merged(final, units, options, region) && Fits(p, data, other) && region !! other
    modifies final.config, region, other
    ensures final'.config == final.config && region + other <= region' && fresh(region' - region - other)
    ensures Merged(final', MergedUnits(units, UnitsOf(data)), OptionsSet(options, OptionsOf(data)), region')
  {
    final', region' := final, region;
    UnitsOfWellFormed(data);
    if p.options.Some? {
      final', region' := MergeOptions(final, p.options.value, units, options, region);
    }
    assert UnitsOf(data)[..0] == [];
    assert UnitsMergedUpTo(final', p.units, 0, units, UnitsOf(data), region');
    final', region' := MergeUnits(final', p.units, units, UnitsOf(data), region', other);
    region' := region' + other;
  }

  ghost predicate Disjoint(owns: seq<set<Section>>) {
    forall i, j :: 0 <= i < j < |owns| ==> owns[i] !! owns[j]
  }

  /** The profiles from the k-th on are as loaded. */
  ghost predicate Pending(profiles: seq<Profile>, datas: seq<Sections>, owns: seq<set<Section>>, k: nat)
    requires |profiles| == |datas| == |owns|
    reads set i, s | 0 <= i < |owns| && s in owns[i] :: s
  {
    forall i :: k <= i < |profiles| ==> Fits(profiles[i], datas[i], owns[i])
  }

  /** The region has nothing of the profiles from the k-th on. */
  ghost predicate Clear(owns: seq<set<Section>>, k: nat, region: set<Section>) {
    forall j :: k <= j < |owns| ==> region !! owns[j]
  }

  /** The first n profiles merged. */
  ghost predicate Folded(datas: seq<Sections>, n: nat, units: Sections, options: Keys) {
    0 < n <= |datas| && units == MergedAll(AllUnits(datas[..n])) && options == AllOptions(datas[..n])
  }

  lemma FirstFolded(datas: seq<Sections>)
    requires datas != []
    ensures Folded(datas, 1, UnitsOf(datas[0]), OptionsOf(datas[0]))
  {
  }

  lemma NextFolded(datas: seq<Sections>, n: nat, units: Sections, options: Keys)
    requires Folded(datas, n, units, options) && n < |datas|
    ensures Folded(datas, n + 1, MergedUnits(units, UnitsOf(datas[n])), OptionsSet(options, OptionsOf(datas[n])))
  {
    assert datas[..n + 1][..n] == datas[..n];
    assert AllUnits(datas[..n + 1])[..n] == AllUnits(datas[..n]);
  }

  /** Between two profiles of a merge: k are done. */
  ghost predicate MergedUpTo(final: Profile, profiles: seq<Profile>, datas: seq<Sections>, owns: seq<set<Section>>,
                             k: nat, units: Sections, options: Keys, region: set<Section>)
    requires |profiles| == |datas| == |owns|
    reads final.config, final.config.sections, final.units, if final.options.Some? then {final.options.value} else {}
    reads set i, s | 0 <= i < |owns| && s in owns[i] :: s
  {
    match final
    case Profile(_, _, _) =>
      && Merged(final, units, options, region) && Folded(datas, k, units, options)
      && Pending(profiles, datas, owns, k) && Clear(owns, k, region)
  }

  method MergeNext(final: Profile, profiles: seq<Profile>, k: nat, ghost datas: seq<Sections>,
                   ghost owns: seq<set<Section>>, ghost units: Sections, ghost options: Keys, ghost region: set<Section>)
    returns (final': Profile, ghost region': set<Section>)
    requires k < |profiles| == |datas| == |owns| && Disjoint(owns)
    requires MergedUpTo(final, profiles, datas, owns, k, units, options, region)
    modifies final.config, region, owns[k]
    ensures final'.config == final.config && region + owns[k] <= region' && fresh(region' - region - owns[k])
    ensures MergedUpTo(final', profiles, datas, owns, k + 1, MergedUnits(units, UnitsOf(datas[k])),
                       OptionsSet(options, OptionsOf(datas[k])), region')
  {
    NextFolded(datas, k, units, options);
    final', region' := MergeProfile(final, profiles[k], units, options, datas[k], region, owns[k]);
  }

  /** All profiles into the first, whose file is changed in place. The units of the result and of its
  file keep the first value of every key; options keep the last. */
  method Merge(profiles: seq<Profile>, ghost datas: seq<Sections>, ghost owns: seq<set<Section>>,
               ghost all: set<Section>)
    returns (final: Profile)
    requires |profiles| == |datas| == |owns| > 0 && Disjoint(owns) && forall i :: 0 <= i < |owns| ==> owns[i] <= all
    requires Merged(profiles[0], UnitsOf(datas[0]), OptionsOf(datas[0]), owns[0])
    requires Pending(profiles, datas, owns, 1)
    modifies profiles[0].config, all
    ensures final.config == profiles[0].config
    ensures Agree(final, MergedAll(AllUnits(datas)))
    ensures HasMain(final) && OptionKeys(final.options) == AllOptions(datas)
  {
    final := profiles[0];
    ghost var region, units, options := owns[0], UnitsOf(datas[0]), OptionsOf(datas[0]);
    FirstFolded(datas);
    for i := 1 to |profiles|
      invariant final.config == profiles[0].config
      invariant MergedUpTo(final, profiles, datas, owns, i, units, options, region)
      invariant fresh(region - all)
    {
      final, region := MergeNext(final, profiles, i, datas, owns, units, options, region);
      units, options := MergedUnits(units, UnitsOf(datas[i])), OptionsSet(options, OptionsOf(datas[i]));
    }
    assert datas[..|datas|] == datas;
  }

  // ---- loading on objects ----

  /** The file of a name, read anew on every call. */
  method LoadConfigData(load: string -> Option<Sections>, name: string)
    returns (config: Option<File>, ghost region: set<Section>)
    ensures config.None? <==> load(name).None?
    ensures config.Some? ==> fresh(config.value) && fresh(region)
    ensures config.Some? ==> Contents(config.value.sections) == load(name).value
    ensures config.Some? ==> forall i :: 0 <= i < |config.value.sections| ==> config.value.sections[i] in region
  {
    region := {};
    match load(name)
    case None => config := None;
    case Some(data) =>
      var sections: seq<Section> := [];
      for i := 0 to |data|
        invariant |sections| == i && fresh(region)
        invariant forall j :: 0 <= j < i ==> sections[j].name == data[j].0 && sections[j].keys == data[j].1
        invariant forall j :: 0 <= j < i ==> sections[j] in region
      {
        var section := new Section(data[i].0, data[i].1);
        sections := sections + [section];
        region := region + {section};
      }
      AreContents(sections, data);
      var file := new File(sections);
      config := Some(file);
  }

  /** The options and units of a file. */
  method Create(config: File) returns (p: Profile)
    ensures p.config == config && p.units == Units(config.sections)
    ensures HasMain(p)
  {
    var options, units: seq<Section> := None, [];
    ghost var sections := config.sections;
    for i := 0 to |config.sections|
      invariant units == Units(sections[..i])
      invariant options.None? ==> forall j :: 0 <= j < i ==> sections[j].name != "main"
      invariant options.Some? ==> options.value in sections && options.value.name == "main"
    {
      var section := config.sections[i];
      assert sections[..i + 1][..i] == sections[..i];
      if section.name == "DEFAULT" {
        continue;
      }
      if section.name == "main" {
        options := Some(section);
      } else {
        units := units + [section];
      }
    }
    assert sections[..|sections|] == sections;
    p := Profile(config, options, units);
  }

  lemma SectionsDistinct(sections: seq<Section>, data: Sections)
    requires Contents(sections) == data && WellFormed(data)
    ensures DistinctNames(sections)
  {
    forall i, j | 0 <= i < j < |sections| ensures sections[i].name != sections[j].name {
      assert data[i].0 != data[j].0;
    }
  }

  lemma OptionsAreMain(p: Profile, data: Sections)
    requires Contents(p.config.sections) == data && WellFormed(data) && HasMain(p)
    ensures OptionKeys(p.options) == OptionsOf(data)
  {
    var sections := p.config.sections;
    if p.options.Some? {
      var k :| 0 <= k < |sections| && sections[k] == p.options.value;
      LookupAt(data, k, []);
    } else {
      MissingKey(data, "main");
    }
  }

  lemma CreatedFits(p: Profile, data: Sections, region: set<Section>)
    requires Contents(p.config.sections) == data && WellFormed(data) && p.units == Units(p.config.sections)
    requires HasMain(p) && forall i :: 0 <= i < |p.config.sections| ==> p.config.sections[i] in region
    ensures Merged(p, UnitsOf(data), OptionsOf(data), region) && Fits(p, data, region)
  {
    SectionsDistinct(p.config.sections, data);
    UnitsContents(p.config.sections);
    UnitsDistinct(p.config.sections);
    OptionsAreMain(p, data);
  }

  lemma {:induction false} MissingKey(data: Sections, name: string)
    requires forall i :: 0 <= i < |data| ==> data[i].0 != name
    ensures Lookup(data, name, []) == []
  {
    if data != [] {
      MissingKey(data[1..], name);
    }
  }

  ghost predicate AllWellFormed(load: string -> Option<Sections>) {
    forall name :: load(name).Some? ==> WellFormed(load(name).value)
  }

  lemma {:induction false} PreorderConcat(load: string -> Option<Sections>, depth: nat,
                                          a: seq<string>, b: seq<string>)
    requires Loads(load, depth, a) && Loads(load, depth, b)
    ensures Loads(load, depth, a + b)
    ensures Preorder(load, depth, a + b) == Preorder(load, depth, a) + Preorder(load, depth, b)
    decreases |a|
  {
    if a == [] {
      assert a + b == b;
    } else {
      PreorderConcat(load, depth, a[1..], b);
      assert (a + b)[1..] == a[1..] + b && (a + b)[0] == a[0];
      var first := WithIncludes(load, depth, NameOf(a[0]));
      Associative(first, Preorder(load, depth, a[1..]), Preorder(load, depth, b));
    }
  }

  /** The next name in the list. */
  lemma NextName(load: string -> Option<Sections>, depth: nat, names: seq<string>, i: nat)
    requires Loads(load, depth, names) && i < |names|
    ensures Loads(load, depth, names[..i]) && Loads(load, depth, names[..i + 1])
    ensures LoadsName(load, depth, NameOf(names[i]))
    ensures Preorder(load, depth, names[..i + 1])
         == Preorder(load, depth, names[..i]) + WithIncludes(load, depth, NameOf(names[i]))
  {
    LoadsEach(load, depth, names);
    LoadsEach(load, depth, names[..i]);
    assert names[..i + 1] == names[..i] + [names[i]];
    assert Loads(load, depth, [names[i]]);
    PreorderConcat(load, depth, names[..i], [names[i]]);
    assert [names[i]][1..] == [] && Preorder(load, depth, [names[i]][1..]) == [];
  }

  /** A profile as its file says; the sections of the file are in the region. */
  ghost predicate AsLoaded(p: Profile, data: Sections, region: set<Section>)
    reads p.config, region
  {
    match p
    case Profile(file, _, units) =>
      && (forall i :: 0 <= i < |file.sections| ==> file.sections[i] in region)
      && Contents(file.sections) == data && WellFormed(data) && units == Units(file.sections) && HasMain(p)
  }

  /** What profiles were loaded as, the sections of each, and all their sections and files. */
  datatype Trace = Trace(datas: seq<Sections>, owns: seq<set<Section>>, all: set<Section>, files: set<File>)

  /** Profiles loaded so far, none sharing a section with another. */
  ghost predicate Ready(profiles: seq<Profile>, t: Trace)
    reads t.all, t.files
  {
    match t
    case Trace(datas, owns, all, files) =>
      && |profiles| == |datas| == |owns| && Disjoint(owns)
      && forall i :: 0 <= i < |profiles| ==>
           profiles[i].config in files && owns[i] <= all && AsLoaded(profiles[i], datas[i], owns[i])
  }

  lemma ReadyToMerge(profiles: seq<Profile>, t: Trace)
    requires Ready(profiles, t) && profiles != []
    ensures |profiles| == |t.datas| == |t.owns| && Pending(profiles, t.datas, t.owns, 1) && Disjoint(t.owns)
    ensures Merged(profiles[0], UnitsOf(t.datas[0]), OptionsOf(t.datas[0]), t.owns[0])
  {
    var Trace(datas, owns, _, _) := t;
    assert AsLoaded(profiles[0], datas[0], owns[0]);
    CreatedFits(profiles[0], datas[0], owns[0]);
    forall i | 1 <= i < |profiles| ensures Fits(profiles[i], datas[i], owns[i]) {
      assert AsLoaded(profiles[i], datas[i], owns[i]);
      CreatedFits(profiles[i], datas[i], owns[i]);
    }
  }

  ghost function Extended(t: Trace, p: Profile, data: Sections, region: set<Section>): Trace {
    Trace(t.datas + [data], t.owns + [region], t.all + region, t.files + {p.config})
  }

  lemma ReadyAppend(profiles: seq<Profile>, t: Trace, p: Profile, data: Sections, region: set<Section>)
    requires Ready(profiles, t) && AsLoaded(p, data, region) && region !! t.all
    ensures Ready(profiles + [p], Extended(t, p, data, region))
  {
  }

  /** The names in the option "include", if there is one. */
  method Includes(p: Profile, ghost data: Sections, ghost region: set<Section>) returns (names: seq<string>)
    requires AsLoaded(p, data, region)
    ensures names == IncludesOf(data)
  {
    CreatedFits(p, data, region);
    LookupIsFind(data, "main", []);
    names := [];
    if p.options.Some? {
      match Find(p.options.value.keys, "include")
      case None =>
      case Some(value) => names := Split(value, ',');
    }
  }

  /** One profile, if its name loads. */
  method LoadOne(load: string -> Option<Sections>, name: string, profiles: seq<Profile>, ghost t: Trace)
    returns (profiles': seq<Profile>, includes: seq<string>, ghost t': Trace, ghost own: seq<Sections>)
    requires AllWellFormed(load) && Ready(profiles, t)
    ensures Ready(profiles', t') && t.all <= t'.all && t.files <= t'.files
    ensures fresh(t'.all - t.all) && fresh(t'.files - t.files)
    ensures t'.datas == t.datas + own && OwnAndIncludes(load, name, own, includes)
  {
    profiles', includes, t', own := profiles, [], t, [];
    var profile, region := LoadAndCreate(load, name);
    if profile.Some? {
      own := [load(name).value];
      ReadyAppend(profiles, t, profile.value, own[0], region);
      profiles', t' := profiles + [profile.value], Extended(t, profile.value, own[0], region);
      includes := Includes(profile.value, own[0], region);
    }
  }

  method LoadAndCreate(load: string -> Option<Sections>, name: string)
    returns (profile: Option<Profile>, ghost region: set<Section>)
    requires AllWellFormed(load)
    ensures profile.None? <==> load(name).None?
    ensures profile.Some? ==> fresh(profile.value.config) && fresh(region)
    ensures profile.Some? ==> AsLoaded(profile.value, load(name).value, region)
  {
    var config;
    config, region := LoadConfigData(load, name);
    if config.None? {
      return None, region;
    }
    var created := Create(config.value);
    profile := Some(created);
  }

  ghost predicate OwnAndIncludes(load: string -> Option<Sections>, name: string, own: seq<Sections>, includes: seq<string>) {
    match load(name)
    case None => own == [] && includes == []
    case Some(data) => own == [data] && includes == IncludesOf(data)
  }

  lemma OwnThenIncludes(load: string -> Option<Sections>, depth: nat, name: string,
                        own: seq<Sections>, includes: seq<string>)
    requires LoadsName(load, depth, name) && OwnAndIncludes(load, name, own, includes) && includes != []
    ensures depth > 0 && Loads(load, depth - 1, includes)
    ensures WithIncludes(load, depth, name) == own + Preorder(load, depth - 1, includes)
  {
  }

  lemma OwnAlone(load: string -> Option<Sections>, depth: nat, name: string, own: seq<Sections>)
    requires LoadsName(load, depth, name) && OwnAndIncludes(load, name, own, [])
    ensures WithIncludes(load, depth, name) == own
  {
  }

  /** One name: its profile, if it loads, and what that includes. */
  method LoadWithIncludes(load: string -> Option<Sections>, ghost depth: nat, name: string,
                          profiles: seq<Profile>, ghost t: Trace)
    returns (profiles': seq<Profile>, ghost t': Trace)
    requires LoadsName(load, depth, name) && AllWellFormed(load) && Ready(profiles, t)
    ensures Ready(profiles', t') && t'.datas == t.datas + WithIncludes(load, depth, name)
    ensures t.all <= t'.all && t.files <= t'.files && fresh(t'.all - t.all) && fresh(t'.files - t.files)
    decreases depth, 0
  {
    var includes;
    ghost var own;
    profiles', includes, t', own := LoadOne(load, name, profiles, t);
    if includes != [] {
      OwnThenIncludes(load, depth, name, own, includes);
      Associative(t.datas, own, Preorder(load, depth - 1, includes));
      profiles', t' := LoadProfile(load, depth - 1, includes, profiles', t');
    } else {
      OwnAlone(load, depth, name, own);
    }
  }

  /** The names in turn, each followed by what it includes. */
  method LoadProfile(load: string -> Option<Sections>, ghost depth: nat, names: seq<string>,
                     profiles: seq<Profile>, ghost t: Trace)
    returns (profiles': seq<Profile>, ghost t': Trace)
    requires Loads(load, depth, names) && AllWellFormed(load) && Ready(profiles, t)
    ensures Ready(profiles', t') && t'.datas == t.datas + Preorder(load, depth, names)
    ensures t.all <= t'.all && t.files <= t'.files && fresh(t'.all - t.all) && fresh(t'.files - t.files)
    decreases depth, 1
  {
    profiles', t' := profiles, t;
    for i := 0 to |names|
      invariant Loads(load, depth, names[..i])
      invariant Ready(profiles', t') && t'.datas == t.datas + Preorder(load, depth, names[..i])
      invariant t.all <= t'.all && t.files <= t'.files && fresh(t'.all - t.all) && fresh(t'.files - t.files)
    {
      NextName(load, depth, names, i);
      Associative(t.datas, Preorder(load, depth, names[..i]), WithIncludes(load, depth, NameOf(names[i])));
      profiles', t' := LoadWithIncludes(load, depth, NameOf(names[i]), profiles', t');
    }
    assert names[..|names|] == names;
  }

  predicate NameChar(c: char) {
    'a' <= c <= 'z' || 'A' <= c <= 'Z' || '0' <= c <= '9' || c == '_' || c == '.' || c == '-'
  }

  /** Names that are not empty and made of letters, digits, '_', '.' and '-'. */
  function Filter(names: seq<string>): seq<string> {
    if names == [] then []
    else
      Filter(names[..|names| - 1])
      + (if names[|names| - 1] != "" && forall c :: c in names[|names| - 1] ==> NameChar(c)
         then [names[|names| - 1]] else [])
  }

  /** Of a list of names exactly those made of the allowed characters remain, in their order. */
  lemma {:induction false} FilterKeeps(head: seq<string>, name: string, tail: seq<string>)
    ensures Filter(head + [name] + tail) ==
      Filter(head)
      + (if name != "" && forall c :: c in name ==> c in CAPITALS || c in SMALL || c in OTHERS then [name] else [])
      + Filter(tail)
    decreases |tail|
  {
    var all := head + [name] + tail;
    if tail == [] {
      assert all[..|all| - 1] == head;
      forall c ensures NameChar(c) <==> c in CAPITALS || c in SMALL || c in OTHERS {
        NameChars(c);
      }
    } else {
      FilterKeeps(head, name, tail[..|tail| - 1]);
      assert all[..|all| - 1] == head + [name] + tail[..|tail| - 1];
    }
  }

  const CAPITALS: string := "ABCDEFGHIJKLMNOPQRSTUVWXYZ"
  const SMALL: string := "abcdefghijklmnopqrstuvwxyz"
  const OTHERS: string := "0123456789_.-"

  lemma NameChars(c: char)
    ensures NameChar(c) <==> c in CAPITALS || c in SMALL || c in OTHERS
  {
    Capitals(c);
    Small(c);
    Others(c);
  }

  lemma Capitals(c: char)
    ensures c in CAPITALS <==> 'A' <= c <= 'Z'
  {
    if 'A' <= c <= 'Z' {
      assert CAPITALS[c as int - 'A' as int] == c;
    }
  }

  lemma Small(c: char)
    ensures c in SMALL <==> 'a' <= c <= 'z'
  {
    if 'a' <= c <= 'z' {
      assert SMALL[c as int - 'a' as int] == c;
    }
  }

  lemma Others(c: char)
    ensures c in OTHERS <==> '0' <= c <= '9' || c in {'_', '.', '-'}
  {
    if '0' <= c <= '9' {
      assert OTHERS[c as int - '0' as int] == c;
    }
    assert OTHERS[10] == '_' && OTHERS[11] == '.' && OTHERS[12] == '-';
  }

  datatype LoadResult = Success(profile: Profile) | NoValidName | NotFound

  /** The profile of the names. Each of its unit keys has the inherited value, in the profile and in
  its file alike. */
  method Load(load: string -> Option<Sections>, ghost depth: nat, names: seq<string>) returns (r: LoadResult)
    requires Loads(load, depth, Filter(names)) && AllWellFormed(load)
    ensures r.NoValidName? <==> Filter(names) == []
    ensures r.NotFound? <==> Filter(names) != [] && Preorder(load, depth, Filter(names)) == []
    ensures r.Success? ==> fresh(r.profile.config)
    ensures r.Success? ==> forall section, key ::
      Get(Contents(r.profile.units), section, key) == Inherited(load, depth, Filter(names), section, key)
    ensures r.Success? ==> Contents(Units(r.profile.config.sections)) == Contents(r.profile.units)
    ensures r.Success? ==> OptionKeys(r.profile.options) == AllOptions(Preorder(load, depth, Filter(names)))
  {
    var valid := Filter(names);
    if valid == [] {
      return NoValidName;
    }
    var profiles, t := LoadProfile(load, depth, valid, [], Trace([], [], {}, {}));
    assert t.datas == Preorder(load, depth, valid);
    if profiles == [] {
      return NotFound;
    }
    ReadyToMerge(profiles, t);
    var final := Merge(profiles, t.datas, t.owns, t.all);
    forall section, key ensures Get(Contents(final.units), section, key) == Inherited(load, depth, valid, section, key) {
      MergedIsInherited(load, depth, valid, section, key);
    }
    return Success(final);
  }

  /** Merging the loaded list gives every unit key its inherited value. */
  lemma MergedIsInherited(load: string -> Option<Sections>, depth: nat, names: seq<string>,
                          section: string, key: string)
    requires Loads(load, depth, names) && AllWellFormed(load) && Preorder(load, depth, names) != []
    ensures Get(MergedAll(AllUnits(Preorder(load, depth, names))), section, key)
         == Inherited(load, depth, names, section, key)
  {
    var list := Preorder(load, depth, names);
    PreorderWellFormed(load, depth, names);
    forall i | 0 <= i < |list| ensures DistinctKeys(UnitsOf(list[i])) {
      UnitsOfWellFormed(list[i]);
    }
    MergeKeepsFirst(AllUnits(list), section, key);
    FirstDefinedIsInherited(load, depth, names, section, key);
  }

  lemma {:induction false} PreorderWellFormed(load: string -> Option<Sections>, depth: nat, names: seq<string>)
    requires Loads(load, depth, names) && AllWellFormed(load)
    ensures forall i :: 0 <= i < |Preorder(load, depth, names)| ==> WellFormed(Preorder(load, depth, names)[i])
    decreases depth, |names|
  {
    if names != [] {
      var name := NameOf(names[0]);
      PreorderWellFormed(load, depth, names[1..]);
      match load(name)
      case None =>
      case Some(data) =>
        PreorderWellFormed(load, depth - 1, IncludesOf(data));
        assert WellFormed(data);
        assert WithIncludes(load, depth, name) == [data] + Preorder(load, depth - 1, IncludesOf(data));
    }
  }
}
