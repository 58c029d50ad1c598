/** Layered configuration: the recursive merge, dotted-path lookup, and environment overrides. */
module ConfigLayers {
  import opened Common

  /** A configuration value: a nested dictionary, or a leaf of any other type. */
  datatype Value<T> = Leaf(leaf: T) | Dict(entries: map<string, Value<T>>)

  /** A dotted path, split at its dots: never empty. */
  type Path = p: seq<string> | p != [] witness [""]

  // ----- merging and looking up -----

  /** `_deep_merge` as a value: the override wins, except that two dictionaries merge. */
  function Merge<T>(base: Value<T>, over: Value<T>): (r: Value<T>)
    requires base.Dict? && over.Dict?
    ensures r.Dict?
    decreases over
  {
    Dict(map k | k in base.entries.Keys + over.entries.Keys ::
           if k in over.entries then MergeEntry(base, over, k) else base.entries[k])
  }

  function MergeEntry<T>(base: Value<T>, over: Value<T>, k: string): Value<T>
    requires base.Dict? && over.Dict? && k in over.entries
    decreases over, 0
  {
    if k in base.entries && base.entries[k].Dict? && over.entries[k].Dict?
    then Merge(base.entries[k], over.entries[k])
    else over.entries[k]
  }

  /** `_deep_merge`: copy the base, then assign the override key by key. */
  method DeepMerge<T>(base: Value<T>, over: Value<T>) returns (result: Value<T>)
    requires base.Dict? && over.Dict?
    ensures result == Merge(base, over)
    decreases over
  {
    var entries := base.entries;
    var todo := over.entries.Keys;
    while todo != {}
      invariant todo <= over.entries.Keys
      invariant forall k :: k in entries <==> k in base.entries || (k in over.entries && k !in todo)
      invariant forall k <- entries :: entries[k] ==
                  if k in over.entries && k !in todo then MergeEntry(base, over, k) else base.entries[k]
      decreases |todo|
    {
      var key :| key in todo;
      var value := over.entries[key];
      if key in entries && entries[key].Dict? && value.Dict? {
        value := DeepMerge(entries[key], value);
      }
      assert value == MergeEntry(base, over, key);
      entries := entries[key := value];
      todo := todo - {key};
    }
    result := Dict(entries);
    IsMerge(base, over, entries);
  }

  lemma IsMerge<T>(base: Value<T>, over: Value<T>, entries: map<string, Value<T>>)
    requires base.Dict? && over.Dict?
    requires forall k :: k in entries <==> k in base.entries || k in over.entries
    requires forall k <- entries :: entries[k] == if k in over.entries then MergeEntry(base, over, k) else base.entries[k]
    ensures Dict(entries) == Merge(base, over)
  {
    assert entries == Merge(base, over).entries;
  }

  /** The walk of `get`: what a path leads to, or nothing. */
  function Lookup<T>(v: Value<T>, path: seq<string>): Option<Value<T>>
    decreases |path|
  {
    if path == [] then Some(v)
    else if v.Dict? && path[0] in v.entries then Lookup(v.entries[path[0]], path[1..])
    else None
  }

  /** `get`: a moving cursor along the path. */
  method Get<T>(config: Value<T>, path: seq<string>) returns (r: Option<Value<T>>)
    ensures r == Lookup(config, path)
  {
    var current := config;
    for i := 0 to |path|
      invariant Lookup(config, path) == Lookup(current, path[i..])
    {
      assert path[i..][0] == path[i] && path[i..][1..] == path[i + 1..];
      if current.Dict? && path[i] in current.entries {
        current := current.entries[path[i]];
      } else {
        return None;
      }
    }
    return Some(current);
  }

  /** Some proper prefix of the path is a leaf, so nothing can be below it. */
  predicate LeafAbove<T>(v: Value<T>, path: seq<string>)
    decreases |path|
  {
    path != [] && (v.Leaf? || (path[0] in v.entries && LeafAbove(v.entries[path[0]], path[1..])))
  }

  /** A layer decides a path when it has a value there or a leaf on the way. */
  predicate Decides<T>(v: Value<T>, path: seq<string>) {
    Lookup(v, path).Some? || LeafAbove(v, path)
  }

  /** What a lookup in a merged configuration finds, in terms of the two layers alone. */
  lemma {:induction false} MergedLookup<T>(base: Value<T>, over: Value<T>, path: seq<string>)
    requires base.Dict? && over.Dict?
    ensures !Decides(over, path) ==> Lookup(Merge(base, over), path) == Lookup(base, path)
    ensures Lookup(over, path).Some? && Lookup(over, path).value.Leaf? ==> Lookup(Merge(base, over), path) == Lookup(over, path)
    ensures Lookup(over, path).Some? && Lookup(over, path).value.Dict? ==>
              Lookup(Merge(base, over), path)
              == (if Lookup(base, path).Some? && Lookup(base, path).value.Dict?
                  then Some(Merge(Lookup(base, path).value, Lookup(over, path).value)) else Lookup(over, path))
    ensures LeafAbove(over, path) ==> Lookup(Merge(base, over), path) == None
    decreases |path|
  {
    if path != [] {
      var k, rest := path[0], path[1..];
      if k in over.entries {
        if k in base.entries && base.entries[k].Dict? && over.entries[k].Dict? {
          MergedLookup(base.entries[k], over.entries[k], rest);
        } else {
          BelowDecided(over.entries[k], rest);
          assert Lookup(Merge(base, over), path) == Lookup(over.entries[k], rest);
          assert Lookup(over, path) == Lookup(over.entries[k], rest);
          if !Decides(over, path) {
            assert rest != [];
            assert LeafAbove(over, path) <==> LeafAbove(over.entries[k], rest);
            assert over.entries[k].Dict?;
            assert Lookup(base, path) == None;
          }
        }
      }
    }
  }

  lemma {:induction false} BelowDecided<T>(v: Value<T>, path: seq<string>)
    ensures LeafAbove(v, path) ==> Lookup(v, path) == None
    decreases |path|
  {
    if path != [] && v.Dict? && path[0] in v.entries {
      BelowDecided(v.entries[path[0]], path[1..]);
    }
  }

  // ----- layers -----

  /** All layers merged, lowest priority first. */
  function MergeAll<T>(layers: seq<Value<T>>): (r: Value<T>)
    requires forall l <- layers :: l.Dict?
    ensures r.Dict?
  {
    if layers == [] then Dict(map[])
    else
      assert layers[|layers| - 1] in layers;
      Merge(MergeAll(layers[..|layers| - 1]), layers[|layers| - 1])
  }

  /** `layers[i]` is the highest-priority layer with a say about the path. */
  ghost predicate TopDecider<T>(layers: seq<Value<T>>, path: seq<string>, i: nat) {
    i < |layers| && Decides(layers[i], path) && forall j :: i < j < |layers| ==> !Decides(layers[j], path)
  }

  /** A path reads as the leaf that the highest layer with a say has there, and as missing when
      that layer has a leaf on the way; the lower layers have no influence. */
  lemma {:induction false} TopLayerWins<T>(layers: seq<Value<T>>, path: seq<string>, i: nat)
    requires forall l <- layers :: l.Dict?
    requires TopDecider(layers, path, i)
    ensures LeafAbove(layers[i], path) ==> Lookup(MergeAll(layers), path) == None
    ensures Lookup(layers[i], path).Some? && Lookup(layers[i], path).value.Leaf? ==>
              Lookup(MergeAll(layers), path) == Lookup(layers[i], path)
    ensures Lookup(layers[i], path).Some? && Lookup(layers[i], path).value.Dict? ==>
              Lookup(MergeAll(layers), path).Some? && Lookup(MergeAll(layers), path).value.Dict?
  {
    var n := |layers| - 1;
    assert layers[n] in layers;
    MergedLookup(MergeAll(layers[..n]), layers[n], path);
    if i < n {
      assert !Decides(layers[n], path);
      assert TopDecider(layers[..n], path, i);
      TopLayerWins(layers[..n], path, i);
    }
  }

  /** A path no layer has a say about reads as missing. */
  lemma {:induction false} UndecidedIsMissing<T>(layers: seq<Value<T>>, path: seq<string>)
    requires path != [] && forall l <- layers :: l.Dict? && !Decides(l, path)
    ensures Lookup(MergeAll(layers), path) == None
  {
    if layers != [] {
      var n := |layers| - 1;
      assert layers[n] in layers;
      UndecidedIsMissing(layers[..n], path);
      MergedLookup(MergeAll(layers[..n]), layers[n], path);
    }
  }

  // ----- environment overrides -----

  /** `_set_nested_value`; nothing when the walk meets a leaf, where the source raises a TypeError. */
  function SetNested<T>(d: Value<T>, path: Path, leaf: T): (r: Option<Value<T>>)
    requires d.Dict?
    ensures r.Some? ==> r.value.Dict?
    decreases |path|
  {
    if |path| == 1 then Some(Dict(d.entries[path[0] := Leaf(leaf)]))
    else
      var child := if path[0] in d.entries then d.entries[path[0]] else Dict(map[]);
      if child.Leaf? then None
      else
        match SetNested(child, path[1..], leaf)
        case None => None
        case Some(c) => Some(Dict(d.entries[path[0] := c]))
  }

  predicate ProperPrefix(p: seq<string>, q: seq<string>) {
    p < q
  }

  /** Setting a path fails exactly when a leaf is in the way. */
  lemma {:induction false} SetFailsBelowLeaf<T>(d: Value<T>, path: Path, leaf: T)
    requires d.Dict?
    ensures SetNested(d, path, leaf).None? <==> LeafAbove(d, path)
    decreases |path|
  {
    var rest := path[1..];
    if rest != [] {
      var child := if path[0] in d.entries then d.entries[path[0]] else Dict(map[]);
      if child.Dict? {
        SetFailsBelowLeaf(child, rest, leaf);
        EmptyHasNoLeaf<T>(rest);
      }
    }
  }

  lemma EmptyHasNoLeaf<T>(path: seq<string>)
    ensures !LeafAbove(Value<T>.Dict(map[]), path)
    ensures path != [] ==> Lookup(Value<T>.Dict(map[]), path) == None
  {
  }

  /** After setting a path it reads back its leaf, nothing is below it, and every path that is not
      a prefix or an extension of it reads as before. */
  lemma {:induction false} SetLookup<T>(d: Value<T>, path: Path, leaf: T, q: seq<string>)
    requires d.Dict? && SetNested(d, path, leaf).Some?
    ensures var d' := SetNested(d, path, leaf).value;
            && (q == path ==> Lookup(d', q) == Some(Leaf(leaf)))
            && (ProperPrefix(path, q) ==> Lookup(d', q) == None)
            && (ProperPrefix(q, path) ==> Lookup(d', q).Some? && Lookup(d', q).value.Dict?)
            && (!(path <= q) && !(q <= path) ==> Lookup(d', q) == Lookup(d, q))
            && (LeafAbove(d', q) ==> LeafAbove(d, q) || ProperPrefix(path, q))
    decreases |path|
  {
    if q != [] && q[0] == path[0] {
      var rest, q' := path[1..], q[1..];
      assert path == [path[0]] + rest && q == [q[0]] + q';
      if rest != [] {
        var child := if path[0] in d.entries then d.entries[path[0]] else Dict(map[]);
        SetLookup(child, rest, leaf, q');
        EmptyHasNoLeaf<T>(q');
      } else {
        assert path == q[..1];
        assert LeafAbove(Leaf(leaf), q') ==> ProperPrefix(path, q);
      }
    }
  }

  type Overrides<T> = seq<(Path, T)>

  /** `_load_env_overrides`: the overrides, already converted, set one after the other. */
  function ApplyOverrides<T>(overrides: Overrides<T>): (r: Option<Value<T>>)
    ensures r.Some? ==> r.value.Dict?
  {
    if overrides == [] then Some(Dict(map[]))
    else
      var n := |overrides| - 1;
      match ApplyOverrides(overrides[..n])
      case None => None
      case Some(d) => SetNested(d, overrides[n].0, overrides[n].1)
  }

  /** No override lies below the path of an earlier one. */
  ghost predicate Loadable<T>(overrides: Overrides<T>) {
    forall i, j :: 0 <= i < j < |overrides| ==> !ProperPrefix(overrides[i].0, overrides[j].0)
  }

  lemma {:induction false} LeavesAreOverrides<T>(overrides: Overrides<T>, q: seq<string>)
    requires ApplyOverrides(overrides).Some? && LeafAbove(ApplyOverrides(overrides).value, q)
    ensures exists i :: 0 <= i < |overrides| && ProperPrefix(overrides[i].0, q)
  {
    if overrides == [] {
      EmptyHasNoLeaf<T>(q);
    } else {
      var n := |overrides| - 1;
      SetLookup(ApplyOverrides(overrides[..n]).value, overrides[n].0, overrides[n].1, q);
      if !ProperPrefix(overrides[n].0, q) {
        LeavesAreOverrides(overrides[..n], q);
        var i :| 0 <= i < n && ProperPrefix(overrides[..n][i].0, q);
        assert ProperPrefix(overrides[i].0, q);
      }
    }
  }

  lemma {:induction false} LeafBlocks<T>(d: Value<T>, short: seq<string>, long: seq<string>)
    requires Lookup(d, short).Some? && Lookup(d, short).value.Leaf? && ProperPrefix(short, long)
    ensures LeafAbove(d, long)
    decreases |short|
  {
    if short != [] {
      LeafBlocks(d.entries[short[0]], short[1..], long[1..]);
    }
  }

  /** Setting a path takes no leaf away from above another path. */
  lemma {:induction false} LeafStays<T>(d: Value<T>, path: Path, leaf: T, q: seq<string>)
    requires d.Dict? && SetNested(d, path, leaf).Some? && LeafAbove(d, q)
    ensures LeafAbove(SetNested(d, path, leaf).value, q)
    decreases |path|
  {
    if q[0] == path[0] && |path| > 1 {
      LeafStays(d.entries[path[0]], path[1..], leaf, q[1..]);
    }
  }

  /** After a set path there is a leaf above every longer path. */
  lemma SetBlocks<T>(d: Value<T>, path: Path, leaf: T, q: seq<string>)
    requires d.Dict? && SetNested(d, path, leaf).Some? && ProperPrefix(path, q)
    ensures LeafAbove(SetNested(d, path, leaf).value, q)
  {
    SetLookup(d, path, leaf, path);
    LeafBlocks(SetNested(d, path, leaf).value, path, q);
  }

  /** Which paths have a leaf above them after all overrides: the extensions of override paths. */
  lemma {:induction false} OverrideBlocks<T>(overrides: Overrides<T>, i: nat, q: seq<string>)
    requires ApplyOverrides(overrides).Some? && i < |overrides| && ProperPrefix(overrides[i].0, q)
    ensures LeafAbove(ApplyOverrides(overrides).value, q)
  {
    var n := |overrides| - 1;
    var d := ApplyOverrides(overrides[..n]).value;
    if i == n {
      SetBlocks(d, overrides[n].0, overrides[n].1, q);
    } else {
      OverrideBlocks(overrides[..n], i, q);
      LeafStays(d, overrides[n].0, overrides[n].1, q);
    }
  }

  /** The environment loads if and only if no override lies below the path of an earlier one. */
  lemma {:induction false} LoadsExactly<T>(overrides: Overrides<T>)
    ensures ApplyOverrides(overrides).Some? <==> Loadable(overrides)
  {
    if overrides != [] {
      var n := |overrides| - 1;
      LoadsExactly(overrides[..n]);
      LoadableSplits(overrides);
      if Loadable(overrides[..n]) {
        LastLoads(overrides);
      }
    }
  }

  /** The last override fits below no earlier one. */
  ghost predicate LastFits<T>(overrides: Overrides<T>)
    requires overrides != []
  {
    forall i :: 0 <= i < |overrides| - 1 ==> !ProperPrefix(overrides[i].0, overrides[|overrides| - 1].0)
  }

  lemma LoadableSplits<T>(overrides: Overrides<T>)
    requires overrides != []
    ensures Loadable(overrides) <==> Loadable(overrides[..|overrides| - 1]) && LastFits(overrides)
  {
    var before := overrides[..|overrides| - 1];
    if Loadable(before) && LastFits(overrides) {
      forall i, j | 0 <= i < j < |overrides| ensures !ProperPrefix(overrides[i].0, overrides[j].0) {
        assert j < |before| ==> before[i] == overrides[i] && before[j] == overrides[j];
      }
    }
    if Loadable(overrides) {
      forall i, j | 0 <= i < j < |before| ensures !ProperPrefix(before[i].0, before[j].0) {
        assert before[i] == overrides[i] && before[j] == overrides[j];
      }
    }
  }

  lemma LastLoads<T>(overrides: Overrides<T>)
    requires overrides != [] && ApplyOverrides(overrides[..|overrides| - 1]).Some?
    ensures ApplyOverrides(overrides).Some? <==> LastFits(overrides)
  {
    var n := |overrides| - 1;
    var before, path := overrides[..n], overrides[n].0;
    SetFailsBelowLeaf(ApplyOverrides(before).value, path, overrides[n].1);
    if LeafAbove(ApplyOverrides(before).value, path) {
      LeavesAreOverrides(before, path);
      var i :| 0 <= i < n && ProperPrefix(before[i].0, path);
      assert ProperPrefix(overrides[i].0, path);
    } else {
      forall i | 0 <= i < n ensures !ProperPrefix(overrides[i].0, path) {
        if ProperPrefix(before[i].0, path) {
          OverrideBlocks(before, i, path);
        }
      }
    }
  }

  /** No later override is at the path of the i-th or above it. */
  ghost predicate Stands<T>(overrides: Overrides<T>, i: nat)
    requires i < |overrides|
  {
    forall j :: i < j < |overrides| ==> !(overrides[j].0 <= overrides[i].0)
  }

  /** Of overrides that load, one that no later one replaces reads back its value. */
  lemma {:induction false} OverrideReadsBack<T>(overrides: Overrides<T>, i: nat)
    requires Loadable(overrides) && i < |overrides| && Stands(overrides, i)
    ensures ApplyOverrides(overrides).Some?
    ensures Lookup(ApplyOverrides(overrides).value, overrides[i].0) == Some(Leaf(overrides[i].1))
  {
    var n := |overrides| - 1;
    var before, path := overrides[..n], overrides[i].0;
    LoadsExactly(overrides);
    LoadableSplits(overrides);
    LoadsExactly(before);
    SetLookup(ApplyOverrides(before).value, overrides[n].0, overrides[n].1, path);
    if i < n {
      forall j | i < j < n ensures !(before[j].0 <= before[i].0) {
        assert !(overrides[j].0 <= overrides[i].0);
      }
      OverrideReadsBack(before, i);
      assert !ProperPrefix(path, overrides[n].0);
      assert before[i] == overrides[i];
    }
  }

  /** One that a later, shorter path replaced reads as missing. */
  lemma ReplacedReadsMissing<T>(overrides: Overrides<T>, i: nat, j: nat)
    requires Loadable(overrides) && i < j < |overrides| && ProperPrefix(overrides[j].0, overrides[i].0)
    ensures ApplyOverrides(overrides).Some?
    ensures Lookup(ApplyOverrides(overrides).value, overrides[i].0) == None
  {
    LoadsExactly(overrides);
    OverrideBlocks(overrides, j, overrides[i].0);
    BelowDecided(ApplyOverrides(overrides).value, overrides[i].0);
  }

  // ----- the loader -----

  /** What loading computes: the default file, the external file, and the environment, in
      increasing priority; nothing when an environment override cannot be set. */
  function Loaded<T>(default: Value<T>, external: Value<T>, overrides: Overrides<T>): Option<Value<T>>
    requires default.Dict? && external.Dict?
  {
    match ApplyOverrides(overrides)
    case None => None
    case Some(env) => Some(MergeAll([default, external, env]))
  }

  lemma MergeThree<T>(a: Value<T>, b: Value<T>, c: Value<T>)
    requires a.Dict? && b.Dict? && c.Dict?
    ensures MergeAll([a, b, c]) == Merge(Merge(Merge(Dict(map[]), a), b), c)
  {
    assert [a, b, c][..2] == [a, b] && [a, b][..1] == [a] && [a][..0] == [];
    assert MergeAll([a]) == Merge(Dict(map[]), a);
    assert MergeAll([a, b]) == Merge(MergeAll([a]), b);
  }

  lemma MergeNothing<T>(base: Value<T>, over: Value<T>)
    requires base.Dict? && over.Dict?
    ensures over.entries == map[] ==> Merge(base, over) == base
  {
    if over.entries == map[] {
      assert Merge(base, over).entries == base.entries;
    }
  }

  class ConfigLoader<T> {
    var config: Option<Value<T>>

    constructor ()
      ensures config == None
    {
      config := None;
    }

    /** `load`: empty layers are skipped, and the first result is kept for every later call. */
    method Load(default: Value<T>, external: Value<T>, overrides: Overrides<T>) returns (r: Option<Value<T>>)
      requires default.Dict? && external.Dict?
      modifies this
      ensures old(config).Some? ==> r == config == old(config)
      ensures old(config).None? ==> r == config == Loaded(default, external, overrides)
    {
      if config.Some? {
        return config;
      }
      var merged: Value<T> := Dict(map[]);
      MergeNothing(merged, default);
      if default.entries != map[] {
        merged := DeepMerge(merged, default);
      }
      MergeNothing(merged, external);
      if external.entries != map[] {
        merged := DeepMerge(merged, external);
      }
      var env := LoadEnvOverrides(overrides);
      if env.None? {
        return None;
      }
      MergeNothing(merged, env.value);
      MergeThree(default, external, env.value);
      if env.value.entries != map[] {
        merged := DeepMerge(merged, env.value);
      }
      config := Some(merged);
      return config;
    }
  }

  method LoadEnvOverrides<T>(overrides: Overrides<T>) returns (r: Option<Value<T>>)
    ensures r == ApplyOverrides(overrides)
  {
    r := Some(Dict(map[]));
    for i := 0 to |overrides|
      invariant r == ApplyOverrides(overrides[..i]) && r.Some?
    {
      assert overrides[..i + 1][..i] == overrides[..i];
      r := SetNested(r.value, overrides[i].0, overrides[i].1);
      if r.None? {
        EarlyFailure(overrides, i + 1);
        return;
      }
    }
    assert overrides[..|overrides|] == overrides;
  }

  lemma {:induction false} EarlyFailure<T>(overrides: Overrides<T>, n: nat)
    requires n <= |overrides| && ApplyOverrides(overrides[..n]).None?
    ensures ApplyOverrides(overrides).None?
    decreases |overrides| - n
  {
    if n == |overrides| {
      assert overrides[..n] == overrides;
    } else {
      assert overrides[..n + 1][..n] == overrides[..n];
      EarlyFailure(overrides, n + 1);
    }
  }

  /** Loading succeeds exactly for loadable overrides, and then an override that no later one
      replaces reads back its value, whatever the files say. */
  lemma EnvironmentWins<T>(default: Value<T>, external: Value<T>, overrides: Overrides<T>, i: nat)
    requires default.Dict? && external.Dict?
    ensures Loaded(default, external, overrides).Some? <==> Loadable(overrides)
    ensures Loadable(overrides) && i < |overrides| && Stands(overrides, i) ==>
              Lookup(Loaded(default, external, overrides).value, overrides[i].0) == Some(Leaf(overrides[i].1))
  {
    LoadsExactly(overrides);
    if Loadable(overrides) && i < |overrides| && Stands(overrides, i) {
      OverrideReadsBack(overrides, i);
      var layers := [default, external, ApplyOverrides(overrides).value];
      assert TopDecider(layers, overrides[i].0, 2);
      TopLayerWins(layers, overrides[i].0, 2);
    }
  }

  ghost predicate HasLeaf<T>(v: Value<T>, path: seq<string>, leaf: T) {
    Lookup(v, path) == Some(Leaf(leaf))
  }

  /** Which file a path reads from: the external file wins over the default one wherever it decides the
      path, and the default one is read exactly where the external file has nothing to say, as long as
      no environment override touches the path. */
  lemma FilesInOrder<T>(default: Value<T>, external: Value<T>, overrides: Overrides<T>, path: seq<string>, leaf: T)
    requires default.Dict? && external.Dict? && path != [] && Loadable(overrides)
    requires ApplyOverrides(overrides).Some? ==> !Decides(ApplyOverrides(overrides).value, path)
    requires Decides(external, path) || HasLeaf(default, path, leaf)
    ensures var r := Loaded(default, external, overrides);
            && r.Some?
            && (HasLeaf(external, path, leaf) ==> HasLeaf(r.value, path, leaf))
            && (LeafAbove(external, path) ==> Lookup(r.value, path) == None)
            && (!Decides(external, path) ==> HasLeaf(r.value, path, leaf))
  {
    LoadsExactly(overrides);
    var layers := [default, external, ApplyOverrides(overrides).value];
    if Decides(external, path) {
      assert TopDecider(layers, path, 1);
      TopLayerWins(layers, path, 1);
    } else {
      assert TopDecider(layers, path, 0);
      TopLayerWins(layers, path, 0);
    }
  }
}
