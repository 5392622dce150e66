/** Analytics presets: named tables of defaults that inherit from each other. */
module Presets {
  import opened Wrappers

  /** A configuration value; `Other` stands for every scalar or array that is not a string. */
  datatype Value = Text(text: string) | Other(repr: string) | Table(entries: map<string, Value>)

  type Path = seq<string>

  // ---- joining ----

  /** Values on the left win; tables are joined key by key. */
  function Join(a: Value, b: Value): Value
    decreases a
  {
    if a.Table? && b.Table? then
      Table(map k | k in a.entries.Keys + b.entries.Keys ::
              if k in a.entries && k in b.entries then Join(a.entries[k], b.entries[k])
              else if k in a.entries then a.entries[k] else b.entries[k])
    else a
  }

  function Lookup(v: Value, path: Path): Option<Value>
    decreases |path|
  {
    if path == [] then Some(v)
    else if v.Table? && path[0] in v.entries then Lookup(v.entries[path[0]], path[1..])
    else None
  }

  /** What is there to read at a path: a scalar, or nothing. */
  function LeafAt(v: Value, path: Path): Option<Value> {
    var found := Lookup(v, path);
    if found.Some? && found.value.Table? then None else found
  }

  predicate Defines(v: Value, path: Path) { Lookup(v, path).Some? }

  /** No scalar stands in the way of the path. */
  predicate Clear(v: Value, path: Path)
    decreases |path|
  {
    path == [] || (v.Table? && (path[0] in v.entries ==> Clear(v.entries[path[0]], path[1..])))
  }

  /** How many keys of the path can be followed. */
  function Reach(v: Value, path: Path): nat
    decreases |path|
  {
    if path == [] || !v.Table? || path[0] !in v.entries then 0 else 1 + Reach(v.entries[path[0]], path[1..])
  }

  lemma {:induction false} ReachTellsDefined(v: Value, path: Path)
    ensures Reach(v, path) <= |path| && (Defines(v, path) <==> Reach(v, path) == |path|)
    ensures Defines(v, path) ==> Clear(v, path)
    decreases |path|
  {
    if path != [] && v.Table? && path[0] in v.entries {
      ReachTellsDefined(v.entries[path[0]], path[1..]);
    }
  }

  /** What is to be read after joining, for all values: the left one decides unless it
      neither defines the path nor has a scalar in its way.  A scalar of the right one is in
      the way only if it is deeper than everything the left one has there. */
  lemma {:induction false} JoinReads(a: Value, b: Value, path: Path)
    ensures LeafAt(Join(a, b), path) ==
      if Defines(a, path) then LeafAt(a, path) else if Clear(a, path) then LeafAt(b, path) else None
    ensures Defines(Join(a, b), path) <==> Defines(a, path) || (Clear(a, path) && Defines(b, path))
    ensures Clear(Join(a, b), path) <==> Clear(a, path) && (Clear(b, path) || Reach(b, path) <= Reach(a, path))
    ensures Reach(Join(a, b), path) ==
      if Clear(a, path) && Reach(a, path) < Reach(b, path) then Reach(b, path) else Reach(a, path)
    decreases |path|
  {
    if path != [] && a.Table? && b.Table? && path[0] in a.entries && path[0] in b.entries {
      JoinReads(a.entries[path[0]], b.entries[path[0]], path[1..]);
      ReachTellsDefined(b.entries[path[0]], path[1..]);
    }
  }

  /** So joining is not even associative: whether a scalar hides a later table
      depends on the grouping. */
  lemma ScalarInTheWay(scalar: string, leaf: string)
    ensures var a, b, c := Table(map["k" := Table(map[])]), Table(map["k" := Text(scalar)]),
      Table(map["k" := Table(map["m" := Text(leaf)])]);
      LeafAt(Join(Join(a, b), c), ["k", "m"]) == Some(Text(leaf)) && LeafAt(Join(a, Join(b, c)), ["k", "m"]) == None
  {
    var a, b, c := Table(map["k" := Table(map[])]), Table(map["k" := Text(scalar)]),
      Table(map["k" := Table(map["m" := Text(leaf)])]);
    assert Join(a, b).entries["k"] == Table(map[]) && Join(b, c).entries["k"] == Text(scalar);
    assert Join(Table(map[]), c.entries["k"]).entries["m"] == Text(leaf);
    assert ["k", "m"][1..] == ["m"] && ["m"][1..] == [];
  }

  /** The first definition among some tables, independently of how they are joined. */
  function FirstLeaf(tables: seq<Value>, path: Path): Option<Value> {
    if tables == [] then None
    else if Defines(tables[0], path) then LeafAt(tables[0], path)
    else FirstLeaf(tables[1..], path)
  }

  predicate AnyDefines(tables: seq<Value>, path: Path) {
    exists i :: 0 <= i < |tables| && Defines(tables[i], path)
  }

  /** Some table defines the path, and no table before it has a scalar in the way. */
  predicate Yields(tables: seq<Value>, path: Path) {
    tables != [] && (Defines(tables[0], path) || (Clear(tables[0], path) && Yields(tables[1..], path)))
  }

  /** The first scalar in the way is deeper than `depth` and than all that the tables before
      it have there. */
  predicate Stops(tables: seq<Value>, depth: int, path: Path) {
    && tables != []
    && (if Clear(tables[0], path) then Stops(tables[1..], Max(depth, Reach(tables[0], path)), path)
        else depth < Reach(tables[0], path))
  }

  function Max(a: int, b: int): int { if a < b then b else a }

  lemma {:induction false} YieldsOneDefined(tables: seq<Value>, path: Path)
    requires Yields(tables, path)
    ensures AnyDefines(tables, path)
  {
    AnyDefinesHead(tables, path);
    if !Defines(tables[0], path) { YieldsOneDefined(tables[1..], path); }
  }

  lemma {:induction false} NothingToRead(tables: seq<Value>, path: Path)
    requires !AnyDefines(tables, path)
    ensures FirstLeaf(tables, path) == None
  {
    if tables != [] {
      AnyDefinesHead(tables, path);
      NothingToRead(tables[1..], path);
    }
  }

  lemma {:induction false} FirstLeafAppend(a: seq<Value>, b: seq<Value>, path: Path)
    ensures FirstLeaf(a + b, path) == if AnyDefines(a, path) then FirstLeaf(a, path) else FirstLeaf(b, path)
  {
    if a == [] {
      assert a + b == b;
    } else {
      FirstLeafAppend(a[1..], b, path);
      assert (a + b)[1..] == a[1..] + b;
      AnyDefinesHead(a, path);
    }
  }

  lemma AnyDefinesHead(tables: seq<Value>, path: Path)
    requires tables != []
    ensures AnyDefines(tables, path) <==> Defines(tables[0], path) || AnyDefines(tables[1..], path)
  {
    if AnyDefines(tables[1..], path) {
      var i :| 0 <= i < |tables[1..]| && Defines(tables[1..][i], path);
      assert Defines(tables[i + 1], path);
    }
    if AnyDefines(tables, path) && !Defines(tables[0], path) {
      var i :| 0 <= i < |tables| && Defines(tables[i], path);
      assert Defines(tables[1..][i - 1], path);
    }
  }

  // ---- inheritance ----

  type PresetMap = map<string, map<string, Value>>

  datatype PresetError = InheritsNotAString(preset: string) | NotFound(preset: string, inheritedBy: seq<string>)

  function Own(preset: map<string, Value>): Value { Table(preset - {"inherits"}) }

  /** Removing each preset as it is used makes the recursion end, whatever the map. */
  function GetPreset(name: string, presets: PresetMap, stack: seq<string>): Result<Value, PresetError>
    decreases presets.Keys
  {
    if name !in presets then Failure(NotFound(name, stack))
    else
      var preset := presets[name];
      if "inherits" !in preset then Success(Own(preset))
      else if !preset["inherits"].Text? then Failure(InheritsNotAString(name))
      else
        match GetPreset(preset["inherits"].text, presets - {name}, stack + [name])
        case Failure(error) => Failure(error)
        case Success(inherited) => Success(Join(Own(preset), inherited))
  }

  /** Each preset of the chain is there and inherits the next one by name; the last one
      inherits nothing. */
  predicate IsChain(presets: PresetMap, names: seq<string>) {
    && names != []
    && (forall i :: 0 <= i < |names| ==> names[i] in presets)
    && (forall i :: 0 <= i < |names| - 1 ==>
          "inherits" in presets[names[i]] && presets[names[i]]["inherits"] == Text(names[i + 1]))
    && "inherits" !in presets[names[|names| - 1]]
  }

  lemma ChainTail(presets: PresetMap, names: seq<string>)
    requires IsChain(presets, names) && |names| > 1
    ensures IsChain(presets, names[1..])
  {
    forall i | 0 <= i < |names[1..]| - 1
      ensures "inherits" in presets[names[1..][i]] && presets[names[1..][i]]["inherits"] == Text(names[1..][i + 1])
    {
      assert names[1..][i] == names[i + 1] && names[1..][i + 1] == names[i + 2];
    }
  }

  /** A name starts one chain at most. */
  lemma {:induction false} ChainIsUnique(presets: PresetMap, a: seq<string>, b: seq<string>)
    requires IsChain(presets, a) && IsChain(presets, b) && a[0] == b[0]
    ensures a == b
    decreases |a|
  {
    if |a| > 1 && |b| > 1 {
      ChainTail(presets, a);
      ChainTail(presets, b);
      ChainIsUnique(presets, a[1..], b[1..]);
      assert a == [a[0]] + a[1..] && b == [b[0]] + b[1..];
    } else {
      assert "inherits" !in presets[a[0]] <==> |a| == 1;
      assert "inherits" !in presets[b[0]] <==> |b| == 1;
    }
  }

  lemma {:induction false} ChainSuffix(presets: PresetMap, names: seq<string>, i: nat)
    requires IsChain(presets, names) && i < |names|
    ensures IsChain(presets, names[i..])
    decreases i
  {
    if i == 0 {
      assert names[0..] == names;
    } else {
      ChainTail(presets, names);
      ChainSuffix(presets, names[1..], i - 1);
      assert names[1..][i - 1..] == names[i..];
    }
  }

  /** So a chain that ends has no cycle. */
  lemma ChainIsAcyclic(presets: PresetMap, names: seq<string>, i: nat, j: nat)
    requires IsChain(presets, names) && i < j < |names|
    ensures names[i] != names[j]
  {
    if names[i] == names[j] {
      ChainSuffix(presets, names, i);
      ChainSuffix(presets, names, j);
      ChainIsUnique(presets, names[i..], names[j..]);
    }
  }

  lemma ChainWithoutHead(presets: PresetMap, names: seq<string>)
    requires IsChain(presets, names) && |names| > 1
    ensures IsChain(presets - {names[0]}, names[1..])
  {
    ChainTail(presets, names);
    var rest, tail := presets - {names[0]}, names[1..];
    forall i | 0 <= i < |tail| ensures tail[i] in rest && rest[tail[i]] == presets[tail[i]] {
      ChainIsAcyclic(presets, names, 0, i + 1);
    }
    assert forall i :: 0 <= i < |tail| - 1 ==> rest[tail[i]] == presets[tail[i]];
  }

  lemma ChainWithHead(presets: PresetMap, name: string, rest: seq<string>)
    requires name in presets && "inherits" in presets[name] && IsChain(presets - {name}, rest)
    requires presets[name]["inherits"] == Text(rest[0])
    ensures IsChain(presets, [name] + rest)
  {
    var names := [name] + rest;
    forall i | 0 <= i < |names| - 1
      ensures "inherits" in presets[names[i]] && presets[names[i]]["inherits"] == Text(names[i + 1])
    {
      if i > 0 { assert names[i] == rest[i - 1] && names[i + 1] == rest[i]; }
    }
  }

  function OwnTables(presets: PresetMap, names: seq<string>): (tables: seq<Value>)
    requires forall i :: 0 <= i < |names| ==> names[i] in presets
    ensures |tables| == |names|
  {
    seq(|names|, i requires 0 <= i < |names| => Own(presets[names[i]]))
  }

  /** Following a chain succeeds. */
  lemma {:induction false} ChainSucceeds(presets: PresetMap, names: seq<string>, stack: seq<string>)
    requires IsChain(presets, names)
    ensures GetPreset(names[0], presets, stack).Success?
    decreases |names|
  {
    if |names| > 1 {
      ChainWithoutHead(presets, names);
      ChainSucceeds(presets - {names[0]}, names[1..], stack + [names[0]]);
    }
  }

  /** ... and reads as its tables in order, up to the first scalar in the way. */
  lemma {:induction false} ChainReads(presets: PresetMap, names: seq<string>, stack: seq<string>, path: Path,
                                      depth: int)
    requires IsChain(presets, names) && GetPreset(names[0], presets, stack).Success?
    ensures var table, tables := GetPreset(names[0], presets, stack).value, OwnTables(presets, names);
      && (Defines(table, path) <==> Yields(tables, path))
      && LeafAt(table, path) == (if Yields(tables, path) then FirstLeaf(tables, path) else None)
      && (!Clear(table, path) && depth < Reach(table, path) <==> Stops(tables, depth, path))
    decreases |names|
  {
    var tables := OwnTables(presets, names);
    if |names| == 1 {
      assert tables[1..] == [];
    } else {
      ChainWithoutHead(presets, names);
      var rest := presets - {names[0]};
      TailTables(presets, names);
      ChainReads(rest, names[1..], stack + [names[0]], path, Max(depth, Reach(tables[0], path)));
      JoinReads(tables[0], GetPreset(names[1], rest, stack + [names[0]]).value, path);
      ReachTellsDefined(tables[0], path);
    }
  }

  lemma TailTables(presets: PresetMap, names: seq<string>)
    requires IsChain(presets, names) && |names| > 1 && IsChain(presets - {names[0]}, names[1..])
    ensures OwnTables(presets - {names[0]}, names[1..]) == OwnTables(presets, names)[1..]
  {
    var rest, tail := presets - {names[0]}, names[1..];
    forall i | 0 <= i < |tail| ensures Own(rest[tail[i]]) == Own(presets[names[i + 1]]) {
      assert tail[i] in rest;
    }
  }

  /** Success means that there is a chain. */
  lemma {:induction false} ResolvedHasChain(name: string, presets: PresetMap, stack: seq<string>)
    returns (names: seq<string>)
    requires GetPreset(name, presets, stack).Success?
    ensures IsChain(presets, names) && names[0] == name
    decreases presets.Keys
  {
    var preset := presets[name];
    if "inherits" !in preset {
      names := [name];
    } else {
      var rest := ResolvedHasChain(preset["inherits"].text, presets - {name}, stack + [name]);
      ChainWithHead(presets, name, rest);
      names := [name] + rest;
    }
  }

  /** Resolution succeeds if and only if following `inherits` from the name ends: no name is
      missing, none comes twice, every `inherits` is a string. */
  lemma ResolutionExact(name: string, presets: PresetMap)
    ensures GetPreset(name, presets, []).Success? <==> exists names :: IsChain(presets, names) && names[0] == name
  {
    if GetPreset(name, presets, []).Success? {
      var names := ResolvedHasChain(name, presets, []);
    }
    if names :| IsChain(presets, names) && names[0] == name {
      ChainSucceeds(presets, names, []);
    }
  }

  /** Each name but the last is there and inherits the next one. */
  ghost predicate Leads(presets: PresetMap, names: seq<string>) {
    forall i :: 0 <= i < |names| - 1 ==>
      names[i] in presets && "inherits" in presets[names[i]] && presets[names[i]]["inherits"] == Text(names[i + 1])
  }

  /** Following `inherits` along `path`, no name of which comes twice, leads to the preset that
      the error names: it is missing, it has been used already, or what it inherits is not
      a string.  The error tells the path. */
  ghost predicate EndsBadly(presets: PresetMap, name: string, stack: seq<string>, path: seq<string>,
                            error: PresetError) {
    && (path + [error.preset])[0] == name && Leads(presets, path + [error.preset])
    && (forall i, j :: 0 <= i < j < |path| ==> path[i] != path[j])
    && match error
       case NotFound(p, inheritedBy) => inheritedBy == stack + path && (p !in presets || p in path)
       case InheritsNotAString(p) =>
         p in presets && p !in path && "inherits" in presets[p] && !presets[p]["inherits"].Text?
  }

  lemma {:induction false} FailureHasPath(name: string, presets: PresetMap, stack: seq<string>, error: PresetError)
    returns (path: seq<string>)
    requires GetPreset(name, presets, stack) == Failure(error)
    ensures EndsBadly(presets, name, stack, path, error)
    decreases presets.Keys
  {
    if name !in presets || !presets[name]["inherits"].Text? {
      path := [];
    } else {
      var rest := presets - {name};
      var tail := FailureHasPath(presets[name]["inherits"].text, rest, stack + [name], error);
      path := [name] + tail;
      var names, after := path + [error.preset], tail + [error.preset];
      assert names == [name] + after;
      forall i | 0 <= i < |names| - 1
        ensures names[i] in presets && "inherits" in presets[names[i]]
          && presets[names[i]]["inherits"] == Text(names[i + 1])
      {
        if i > 0 { assert names[i] == after[i - 1] && names[i + 1] == after[i]; }
      }
      forall i | 0 <= i < |tail| ensures tail[i] != name {
        assert after[i] == tail[i] && after[i] in rest;
      }
    }
  }

  lemma {:induction false} PathFails(name: string, presets: PresetMap, stack: seq<string>, path: seq<string>,
                                     error: PresetError)
    requires EndsBadly(presets, name, stack, path, error)
    ensures GetPreset(name, presets, stack) == Failure(error)
    decreases |path|
  {
    if path == [] {
      assert stack + path == stack;
    } else {
      var rest, tail := presets - {name}, path[1..];
      var names, after := path + [error.preset], tail + [error.preset];
      assert names == [name] + after && path[0] == name;
      forall i | 0 <= i < |after| - 1
        ensures after[i] in rest && "inherits" in rest[after[i]] && rest[after[i]]["inherits"] == Text(after[i + 1])
      {
        assert after[i] == names[i + 1] == path[i + 1] && after[i + 1] == names[i + 2];
      }
      assert stack + path == (stack + [name]) + tail;
      assert forall p :: p in path <==> p == name || p in tail;
      assert names[0] in presets && presets[names[0]]["inherits"] == Text(names[1]) && names[1] == after[0];
      PathFails(after[0], rest, stack + [name], tail, error);
    }
  }

  /** Resolution fails with some error exactly when the path it tells leads there. */
  lemma FailsExactly(name: string, presets: PresetMap, error: PresetError)
    ensures GetPreset(name, presets, []) == Failure(error) <==> exists path :: EndsBadly(presets, name, [], path, error)
  {
    if GetPreset(name, presets, []) == Failure(error) {
      var path := FailureHasPath(name, presets, [], error);
    }
    if path :| EndsBadly(presets, name, [], path, error) {
      PathFails(name, presets, [], path, error);
    }
  }

  /** What a preset inherits is not a setting: no resolved preset has that key. */
  lemma {:induction false} InheritsIsConsumed(name: string, presets: PresetMap, stack: seq<string>)
    ensures var preset := GetPreset(name, presets, stack);
      preset.Success? ==> preset.value.Table? && "inherits" !in preset.value.entries
    decreases presets.Keys
  {
    if name in presets && "inherits" in presets[name] && presets[name]["inherits"].Text? {
      InheritsIsConsumed(presets[name]["inherits"].text, presets - {name}, stack + [name]);
    }
  }

  // ---- the configuration ----

  const PRESETS: Path := ["vendor_analytics", "presets"]

  /** Presets that are not all tables count as none. */
  function PresetsOf(config: Value): PresetMap {
    match Lookup(config, PRESETS)
    case Some(Table(entries)) =>
      if forall k :: k in entries ==> entries[k].Table? then map k | k in entries :: entries[k].entries else map[]
    case _ => map[]
  }

  function AtAnalytics(v: Value): Value { Table(map["vendor_analytics" := v]) }

  function ApplyPreset(name: string, config: Value): Result<Value, PresetError> {
    match GetPreset(name, PresetsOf(config), [])
    case Failure(error) => Failure(error)
    case Success(table) => Success(Join(config, AtAnalytics(table)))
  }

  /** The chosen preset if there is one, then the default one. */
  function WithAnalytics(config: Value): Result<Value, PresetError> {
    match Lookup(config, ["vendor_analytics", "preset"])
    case Some(Text(chosen)) =>
      (match ApplyPreset(chosen, config)
       case Failure(error) => Failure(error)
       case Success(joined) => ApplyPreset("default", joined))
    case _ => ApplyPreset("default", config)
  }

  function Chosen(config: Value): Option<string> {
    match Lookup(config, ["vendor_analytics", "preset"])
    case Some(Text(chosen)) => Some(chosen)
    case _ => None
  }

  /** The configuration that the default preset is applied to. */
  function AfterChosen(config: Value): Result<Value, PresetError> {
    if Chosen(config).Some? then ApplyPreset(Chosen(config).value, config) else Success(config)
  }

  /** The chosen preset inherits along `chain`, which is empty if none is chosen, and the
      default one along `defaults`. */
  predicate Resolves(config: Value, chain: seq<string>, defaults: seq<string>) {
    && (match Chosen(config)
        case Some(chosen) => IsChain(PresetsOf(config), chain) && chain[0] == chosen
        case None => chain == [])
    && AfterChosen(config).Success?
    && IsChain(PresetsOf(AfterChosen(config).value), defaults) && defaults[0] == "default"
  }

  /** The configuration is accepted if and only if both chains end. */
  lemma AcceptedExactly(config: Value)
    ensures WithAnalytics(config).Success? <==> exists chain, defaults :: Resolves(config, chain, defaults)
  {
    if WithAnalytics(config).Success? {
      var chain := [];
      if Chosen(config).Some? { chain := ResolvedHasChain(Chosen(config).value, PresetsOf(config), []); }
      var defaults := ResolvedHasChain("default", PresetsOf(AfterChosen(config).value), []);
      assert Resolves(config, chain, defaults);
    }
    if chain, defaults :| Resolves(config, chain, defaults) {
      ChainSucceeds(PresetsOf(AfterChosen(config).value), defaults, []);
    }
  }

  /** One preset that is no table hides all presets: nothing is accepted any more. */
  lemma OneBadPreset(config: Value, entries: map<string, Value>, bad: string)
    requires Lookup(config, ["vendor_analytics", "presets"]) == Some(Table(entries))
    requires bad in entries && !entries[bad].Table?
    ensures WithAnalytics(config) ==
      Failure(NotFound(match Lookup(config, ["vendor_analytics", "preset"])
                       case Some(Text(chosen)) => chosen
                       case _ => "default", []))
  {
    assert PresetsOf(config) == map[];
  }

  /** The tables that a chain contributes, placed in the configuration. */
  function Placed(tables: seq<Value>): (placed: seq<Value>)
    ensures |placed| == |tables| && forall i :: 0 <= i < |tables| ==> placed[i] == AtAnalytics(tables[i])
  {
    seq(|tables|, i requires 0 <= i < |tables| => AtAnalytics(tables[i]))
  }

  lemma AtAnalyticsReads(v: Value, path: Path)
    ensures var full := ["vendor_analytics"] + path;
      && Lookup(AtAnalytics(v), full) == Lookup(v, path) && Reach(AtAnalytics(v), full) == 1 + Reach(v, path)
      && (Clear(AtAnalytics(v), full) <==> Clear(v, path))
  {
    assert (["vendor_analytics"] + path)[1..] == path;
  }

  lemma {:induction false} PlacedReads(tables: seq<Value>, path: Path, depth: int)
    ensures var placed, full := Placed(tables), ["vendor_analytics"] + path;
      && (Yields(placed, full) <==> Yields(tables, path)) && FirstLeaf(placed, full) == FirstLeaf(tables, path)
      && (Stops(placed, depth + 1, full) <==> Stops(tables, depth, path))
  {
    if tables != [] {
      PlacedReads(tables[1..], path, Max(depth, Reach(tables[0], path)));
      assert Placed(tables)[1..] == Placed(tables[1..]);
      AtAnalyticsReads(tables[0], path);
    }
  }

  /** What there is to read in `v` is what `tables` yield, and a scalar in the way deeper than
      `depth` is one of theirs. */
  ghost predicate ReadsAs(v: Value, tables: seq<Value>, path: Path, depth: int) {
    && (Defines(v, path) <==> Yields(tables, path))
    && LeafAt(v, path) == (if Yields(tables, path) then FirstLeaf(tables, path) else None)
    && (!Clear(v, path) && depth < Reach(v, path) <==> Stops(tables, depth, path))
  }

  /** Applying a preset joins a value that reads as the tables of its chain. */
  lemma ApplyReads(name: string, config: Value, names: seq<string>, path: Path, depth: int) returns (added: Value)
    requires IsChain(PresetsOf(config), names) && names[0] == name
    ensures ApplyPreset(name, config) == Success(Join(config, added))
    ensures ReadsAs(added, Placed(OwnTables(PresetsOf(config), names)), ["vendor_analytics"] + path, depth)
  {
    ChainSucceeds(PresetsOf(config), names, []);
    ChainReads(PresetsOf(config), names, [], path, depth - 1);
    var table := GetPreset(name, PresetsOf(config), []).value;
    added := AtAnalytics(table);
    AtAnalyticsReads(table, path);
    PlacedReads(OwnTables(PresetsOf(config), names), path, depth - 1);
  }

  /** The tables that the chosen preset and the default one contribute. */
  function ChosenTables(config: Value, chain: seq<string>): seq<Value>
    requires forall i :: 0 <= i < |chain| ==> chain[i] in PresetsOf(config)
  {
    Placed(OwnTables(PresetsOf(config), chain))
  }

  /** Which layer a key is read from: the configuration, unless it neither defines the key
      nor has a scalar in the way; then the chosen tables if they yield it; then the default
      ones, unless a scalar of the chosen ones is left in the way. */
  function Reading(config: Value, chosen: seq<Value>, defaults: seq<Value>, path: Path): Option<Value> {
    if Defines(config, path) then LeafAt(config, path)
    else if !Clear(config, path) then None
    else if Yields(chosen, path) then FirstLeaf(chosen, path)
    else if Stops(chosen, Reach(config, path), path) then None
    else if Yields(defaults, path) then FirstLeaf(defaults, path)
    else None
  }

  lemma LayersRead(config: Value, x: Value, y: Value, chosen: seq<Value>, defaults: seq<Value>, path: Path)
    requires ReadsAs(x, chosen, path, Reach(config, path)) && ReadsAs(y, defaults, path, 0)
    ensures LeafAt(Join(Join(config, x), y), path) == Reading(config, chosen, defaults, path)
  {
    JoinReads(config, x, path);
    JoinReads(Join(config, x), y, path);
    ReachTellsDefined(config, path);
  }

  /** What every key below `vendor_analytics` reads as, for every configuration that is
      accepted, with or without a chosen preset. */
  lemma AnalyticsRead(config: Value, chain: seq<string>, defaults: seq<string>, path: Path)
    requires Resolves(config, chain, defaults)
    ensures var full := ["vendor_analytics"] + path;
      && WithAnalytics(config).Success?
      && LeafAt(WithAnalytics(config).value, full) ==
           Reading(config, ChosenTables(config, chain), ChosenTables(AfterChosen(config).value, defaults), full)
  {
    var full, joined := ["vendor_analytics"] + path, AfterChosen(config).value;
    var y := ApplyReads("default", joined, defaults, path, 0);
    if Chosen(config).Some? {
      var x := ApplyReads(Chosen(config).value, config, chain, path, Reach(config, full));
      LayersRead(config, x, y, ChosenTables(config, chain), ChosenTables(joined, defaults), full);
    } else {
      JoinReads(config, y, full);
    }
  }

  /** ... and all other keys read as they did. */
  lemma OthersUnchanged(config: Value, path: Path)
    requires path != [] && path[0] != "vendor_analytics" && WithAnalytics(config).Success?
    ensures LeafAt(WithAnalytics(config).value, path) == LeafAt(config, path)
  {
    forall a, v ensures LeafAt(Join(a, AtAnalytics(v)), path) == LeafAt(a, path) {
      JoinReads(a, AtAnalytics(v), path);
    }
  }

  /** No table before the first definition has a scalar in the way, but for one of the chosen
      tables that an earlier table hides. */
  predicate Unhidden(config: Value, chosen: seq<Value>, defaults: seq<Value>, path: Path) {
    if Defines(config, path) then true
    else if AnyDefines(chosen, path) then Clear(config, path) && Yields(chosen, path)
    else if AnyDefines(defaults, path) then
      Clear(config, path) && !Stops(chosen, Reach(config, path), path) && Yields(defaults, path)
    else true
  }

  /** The default tables come before a definition in the chosen ones: the chosen chain stops
      at a scalar of its own, which the configuration then hides. */
  predicate Overtaken(config: Value, chosen: seq<Value>, defaults: seq<Value>, path: Path) {
    && Clear(config, path) && AnyDefines(chosen, path) && !Yields(chosen, path)
    && !Stops(chosen, Reach(config, path), path) && Yields(defaults, path)
  }

  /** Each key has its first definition along the user's configuration, the chosen chain and
      the default chain, if and only if no scalar hides it; or if what is read instead
      happens to be the same. */
  lemma FirstDefinitionWins(config: Value, chain: seq<string>, defaults: seq<string>, path: Path)
    requires Resolves(config, chain, defaults)
    ensures var full := ["vendor_analytics"] + path;
      var a, b := ChosenTables(config, chain), ChosenTables(AfterChosen(config).value, defaults);
      var first := FirstLeaf([config] + a + b, full);
      && WithAnalytics(config).Success?
      && (LeafAt(WithAnalytics(config).value, full) == first <==>
          Unhidden(config, a, b, full) || first == if Overtaken(config, a, b, full) then FirstLeaf(b, full) else None)
  {
    var full := ["vendor_analytics"] + path;
    var a, b := ChosenTables(config, chain), ChosenTables(AfterChosen(config).value, defaults);
    AnalyticsRead(config, chain, defaults, path);
    WinsExactly(config, a, b, full);
  }

  lemma WinsExactly(config: Value, a: seq<Value>, b: seq<Value>, path: Path)
    ensures var first := FirstLeaf([config] + a + b, path);
      Reading(config, a, b, path) == first <==>
      Unhidden(config, a, b, path) || first == if Overtaken(config, a, b, path) then FirstLeaf(b, path) else None
  {
    ThreeLayers(config, a, b, path);
    if Yields(a, path) { YieldsOneDefined(a, path); }
    if Yields(b, path) { YieldsOneDefined(b, path); }
    if !AnyDefines(b, path) { NothingToRead(b, path); }
  }

  lemma ThreeLayers(config: Value, a: seq<Value>, b: seq<Value>, path: Path)
    ensures FirstLeaf([config] + a + b, path) ==
      if Defines(config, path) then LeafAt(config, path)
      else if AnyDefines(a, path) then FirstLeaf(a, path)
      else FirstLeaf(b, path)
  {
    FirstLeafAppend([config] + a, b, path);
    AnyDefinesHead([config] + a, path);
    assert ([config] + a)[1..] == a;
  }

  // ---- a default that comes before a chosen preset ----

  /** The chosen preset has a scalar where its base and the default preset have a table, and
      the configuration has an empty table there. */
  function Overtaking(mine: string, base: string, key: string, scalar: Value, inBase: Value, inDefault: Value): Value {
    AtAnalytics(Table(map[
      "preset" := Text(mine), "presets" := Table(SomePresets(mine, base, key, scalar, inBase, inDefault)),
        key := Table(map[])]))
  }

  function SomePresets(mine: string, base: string, key: string, scalar: Value, inBase: Value,
                       inDefault: Value): map<string, Value> {
    map[mine := Table(map["inherits" := Text(base), key := scalar]),
        base := Table(map[key := inBase]),
        "default" := Table(map[key := inDefault])]
  }

  lemma JoinedAt(a: map<string, Value>, b: map<string, Value>, key: string)
    requires b.Keys == {key} && key in a
    ensures Join(Table(a), Table(b)) == Table(a[key := Join(a[key], b[key])])
  {
  }

  lemma InheritsOnce(presets: PresetMap, name: string, base: string, stack: seq<string>)
    requires name in presets && base in presets && name != base
    requires "inherits" in presets[name] && presets[name]["inherits"] == Text(base) && "inherits" !in presets[base]
    ensures GetPreset(name, presets, stack) == Success(Join(Own(presets[name]), Own(presets[base])))
  {
    assert GetPreset(base, presets - {name}, stack + [name]) == Success(Own(presets[base]));
  }

  lemma LookupTwo(v: Value, a: string, b: string)
    requires v.Table? && a in v.entries && v.entries[a].Table? && b in v.entries[a].entries
    ensures Lookup(v, [a, b]) == Some(v.entries[a].entries[b])
  {
    assert [a, b][1..] == [b];
    assert Lookup(v.entries[a], [b]) == Lookup(v.entries[a].entries[b], [b][1..]);
  }

  lemma JoinAnalytics(analytics: map<string, Value>, key: string, v: Value)
    requires key in analytics
    ensures Join(AtAnalytics(Table(analytics)), AtAnalytics(Table(map[key := v]))) ==
      AtAnalytics(Table(analytics[key := Join(analytics[key], v)]))
  {
    var top := "vendor_analytics";
    JoinedAt(analytics, map[key := v], key);
    JoinedAt(map[top := Table(analytics)], map[top := Table(map[key := v])], top);
  }

  /** A scalar of the chosen preset changes nothing where the configuration has a table, and
      the default preset is then joined to that table. */
  lemma ScalarIsSkipped(config: Value, analytics: map<string, Value>, chosen: string, scalar: Value, key: string,
                        table: Value)
    requires config == AtAnalytics(Table(analytics)) && key in analytics && analytics[key] == Table(map[])
    requires !scalar.Table? && table.Table? && Chosen(config) == Some(chosen)
    requires GetPreset(chosen, PresetsOf(config), []) == Success(Table(map[key := scalar]))
    requires GetPreset("default", PresetsOf(config), []) == Success(Table(map[key := table]))
    ensures WithAnalytics(config) == Success(AtAnalytics(Table(analytics[key := table])))
  {
    JoinAnalytics(analytics, key, scalar);
    assert analytics[key := Table(map[])] == analytics;
    JoinAnalytics(analytics, key, table);
    assert Join(Table(map[]), table) == table;
  }

  lemma ScalarHidesBase(presets: PresetMap, mine: string, base: string, key: string, scalar: Value, inBase: Value)
    requires mine in presets && base in presets && mine != base && key != "inherits" && !scalar.Table?
    requires presets[mine] == map["inherits" := Text(base), key := scalar] && presets[base] == map[key := inBase]
    ensures GetPreset(mine, presets, []) == Success(Table(map[key := scalar]))
  {
    InheritsOnce(presets, mine, base, []);
    var own := presets[mine] - {"inherits"};
    assert presets[base] - {"inherits"} == presets[base] && own == map[key := scalar];
    JoinedAt(own, presets[base], key);
    assert own[key := scalar] == own;
  }

  lemma PresetsAre(config: Value, entries: map<string, Value>)
    requires Lookup(config, PRESETS) == Some(Table(entries)) && forall k :: k in entries ==> entries[k].Table?
    ensures PresetsOf(config) == map k | k in entries :: entries[k].entries
  {
  }

  lemma OvertakingPresets(mine: string, base: string, key: string, scalar: Value, inBase: Value, inDefault: Value)
    requires mine != base && mine != "default" && base != "default"
    requires key != "preset" && key != "presets" && key != "inherits" && !scalar.Table?
    ensures var config := Overtaking(mine, base, key, scalar, inBase, inDefault);
      && Chosen(config) == Some(mine)
      && GetPreset(mine, PresetsOf(config), []) == Success(Table(map[key := scalar]))
      && GetPreset("default", PresetsOf(config), []) == Success(Table(map[key := inDefault]))
  {
    var config := Overtaking(mine, base, key, scalar, inBase, inDefault);
    LookupTwo(config, "vendor_analytics", "preset");
    LookupTwo(config, "vendor_analytics", "presets");
    PresetsAre(config, SomePresets(mine, base, key, scalar, inBase, inDefault));
    ScalarHidesBase(PresetsOf(config), mine, base, key, scalar, inBase);
    var own := PresetsOf(config)["default"];
    assert "inherits" !in own && own - {"inherits"} == own;
  }

  lemma ReadsBelow(analytics: map<string, Value>, key: string, path: Path)
    requires key in analytics
    ensures LeafAt(AtAnalytics(Table(analytics)), ["vendor_analytics", key] + path) == LeafAt(analytics[key], path)
  {
    AtAnalyticsReads(Table(analytics), [key] + path);
    assert ["vendor_analytics", key] + path == ["vendor_analytics"] + ([key] + path);
    assert ([key] + path)[1..] == path;
  }

  /** Then the default preset is read, whatever the base of the chosen one says. */
  lemma DefaultOvertakesBase(mine: string, base: string, key: string, scalar: Value, inBase: Value, inDefault: Value,
                             path: Path)
    requires mine != base && mine != "default" && base != "default"
    requires key != "preset" && key != "presets" && key != "inherits" && !scalar.Table? && inDefault.Table?
    ensures var result := WithAnalytics(Overtaking(mine, base, key, scalar, inBase, inDefault));
      result.Success? && LeafAt(result.value, ["vendor_analytics", key] + path) == LeafAt(inDefault, path)
  {
    var config := Overtaking(mine, base, key, scalar, inBase, inDefault);
    var analytics := config.entries["vendor_analytics"].entries;
    OvertakingPresets(mine, base, key, scalar, inBase, inDefault);
    ScalarIsSkipped(config, analytics, mine, scalar, key, inDefault);
    ReadsBelow(analytics[key := inDefault], key, path);
  }
}
