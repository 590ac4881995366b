/** The loader itself: lookups, and the merge with what it may do to the loaded configuration. */
module ConfigLoader {
  import opened Text
  import opened ConfigTree
  import opened ConfigHeap
  import opened ConfigPaths
  import Letters
  import M = ConfigMerge

  /** The loaded configuration once the merge is done: below level `depth` it is the merged tree. */
  function Synced(v: Value, merged: Value, depth: int): Value
    decreases v
  {
    if !v.Obj? || !merged.Obj? then v
    else if depth <= 0 then merged
    else
      var d := depth - 1;
      Obj(map k | k in v.entries ::
            if k in merged.entries then Synced(v.entries[k], merged.entries[k], d) else v.entries[k])
  }

  function AfterMerge(loaded: Tree, merged: Tree): Tree {
    var v := Synced(Obj(loaded), Obj(merged), MAX_DEPTH);
    if v.Obj? then v.entries else loaded
  }

  /** The same on pictures. */
  ghost function Sync(s: Snap, t: Snap, depth: int): (u: Snap)
    ensures s.SDict? ==> u.SDict?
    decreases s
  {
    if !s.SDict? || !t.SDict? then s
    else if depth <= 0 then t
    else
      var d := depth - 1;
      SDict(s.m, map k | k in s.kids :: if k in t.kids then Sync(s.kids[k], t.kids[k], d) else s.kids[k])
  }

  /** The picture holds, but for maps at level `depth` and below. */
  ghost predicate HoldsAbove(s: Snap, depth: int)
    requires Apart(s)
    reads Nodes(s) - DeepSpine(s, depth)
    decreases s
  {
    if !s.SDict? then Holds(s)
    else
      depth <= 0 ||
      (AboveReads(s, depth);
       var d := depth - 1;
       && s.m.entries.Keys == s.kids.Keys
       && forall k :: k in s.kids ==> s.m.entries[k] == Root(s.kids[k]) && HoldsAbove(s.kids[k], d))
  }

  lemma {:induction false} DeepWithin(s: Snap, depth: int)
    ensures DeepSpine(s, depth) <= Nodes(s)
    decreases s
  {
    SpineNodes(s);
    if s.SDict? && depth > 0 {
      var d := depth - 1;
      forall k | k in s.kids ensures DeepSpine(s.kids[k], d) <= Nodes(s.kids[k]) {
        DeepWithin(s.kids[k], d);
      }
    }
  }

  lemma AboveReads(s: Snap, depth: int)
    requires Apart(s) && s.SDict? && depth > 0
    ensures s.m in Nodes(s) - DeepSpine(s, depth)
    ensures forall k :: k in s.kids ==>
              Nodes(s.kids[k]) - DeepSpine(s.kids[k], depth - 1) <= Nodes(s) - DeepSpine(s, depth)
  {
    var d := depth - 1;
    forall k | k in s.kids ensures DeepSpine(s.kids[k], d) <= Nodes(s.kids[k]) {
      DeepWithin(s.kids[k], d);
    }
    KidNodes(s);
    assert forall x :: x in DeepSpine(s, depth) ==> exists k :: k in s.kids && x in DeepSpine(s.kids[k], d);
  }

  lemma {:induction false} HoldsToAbove(s: Snap, depth: int)
    requires Apart(s) && Holds(s)
    ensures HoldsAbove(s, depth)
    decreases s
  {
    if s.SDict? && depth > 0 {
      var d := depth - 1;
      forall k | k in s.kids ensures HoldsAbove(s.kids[k], d) {
        HoldsToAbove(s.kids[k], d);
      }
    }
  }

  lemma {:induction false} SyncHolds(s: Snap, t: Snap, depth: int, made: set<GoMap>)
    requires Apart(s) && HoldsAbove(s, depth) && Holds(t) && Shadows(s, t, depth, made)
    ensures Holds(Sync(s, t, depth)) && Root(Sync(s, t, depth)) == Root(s)
    decreases s
  {
    if s.SDict? && depth > 0 {
      var d := depth - 1;
      var u := Sync(s, t, depth);
      forall k | k in s.kids ensures Holds(u.kids[k]) && Root(u.kids[k]) == Root(s.kids[k]) {
        SyncHolds(s.kids[k], t.kids[k], d, made);
      }
    }
  }

  lemma {:induction false} SyncApart(s: Snap, t: Snap, depth: int, made: set<GoMap>)
    requires Apart(s) && Apart(t) && Shadows(s, t, depth, made) && made !! Nodes(s)
    ensures Apart(Sync(s, t, depth)) && Nodes(Sync(s, t, depth)) <= Nodes(s) + made * Nodes(t)
    decreases s
  {
    if s.SDict? && depth > 0 {
      var d := depth - 1;
      var u := Sync(s, t, depth);
      KidNodes(s);
      KidNodes(t);
      forall k | k in s.kids
        ensures Apart(u.kids[k]) && Nodes(u.kids[k]) <= Nodes(s.kids[k]) + made * Nodes(t.kids[k])
      {
        SyncApart(s.kids[k], t.kids[k], d, made);
      }
      forall j, k | j in u.kids && k in u.kids && j != k ensures Nodes(u.kids[j]) !! Nodes(u.kids[k]) {
        SetsApart(Nodes(u.kids[j]), Nodes(u.kids[k]), Nodes(s.kids[j]), Nodes(s.kids[k]),
                  made * Nodes(t.kids[j]), made * Nodes(t.kids[k]));
      }
    }
  }

  lemma {:induction false} SyncVal(s: Snap, t: Snap, depth: int)
    ensures Val(Sync(s, t, depth)) == Synced(Val(s), Val(t), depth)
    decreases s
  {
    if s.SDict? && t.SDict? && depth > 0 {
      var d := depth - 1;
      var a, b := Val(Sync(s, t, depth)).entries, Synced(Val(s), Val(t), depth).entries;
      forall k | k in a ensures a[k] == b[k] {
        if k in t.kids {
          SyncVal(s.kids[k], t.kids[k], d);
        }
      }
      assert a == b;
    }
  }

  lemma MergeStart(s: Snap, t: Snap, made: set<GoMap>, resolve: Resolver)
    requires s.SDict? && Copy(s, t, MAX_DEPTH, resolve) && MadeFrom(s, t, MAX_DEPTH, made)
    ensures Nodes(t) <= DeepNodes(s, MAX_DEPTH) + made
    ensures t.SDict? && Root(t) == Dict(t.m) && Apart(t) && Spine(t) <= DeepSpine(s, MAX_DEPTH) + made
    ensures Shadows(s, t, MAX_DEPTH, made)
    ensures Entries(t) == Subst(Obj(Entries(s)), MAX_DEPTH, resolve).entries
  {
    GrowsSelf(t, made);
    ShadowsGrow(s, t, t, MAX_DEPTH, {}, made);
    assert {} + made == made;
  }

  lemma MergeStartEmpty(t: Snap)
    requires t.SDict? && t.kids == map[] && t.m.entries == map[]
    ensures Holds(t) && Apart(t) && Spine(t) == Nodes(t) == {t.m} && Entries(t) == map[]
  {
  }

  lemma MergeStep(s: Snap, t: Snap, u: Snap, made: set<GoMap>, more: set<GoMap>)
    requires Grows(t, u, more) && Shadows(s, t, MAX_DEPTH, made)
    ensures Shadows(s, u, MAX_DEPTH, made + more)
  {
    ShadowsGrow(s, t, u, MAX_DEPTH, made, more);
  }

  lemma FoldStart(s: Snap)
    requires Apart(s)
    ensures Updated(s, s, {}) && Grows(s, s, {})
  {
    GrowsSelf(s, {});
  }

  lemma UpdatedFacts(s: Snap, t: Snap, made: set<GoMap>)
    requires Updated(s, t, made)
    ensures Apart(t) && Nodes(t) <= Nodes(s) + made && Spine(t) <= Spine(s) + made
  {
  }

  lemma FoldStep(s: Snap, t: Snap, u: Snap, made: set<GoMap>, more: set<GoMap>)
    requires Updated(s, t, made) && Updated(t, u, more) && Grows(s, t, made) && Grows(t, u, more)
    ensures Updated(s, u, made + more) && Grows(s, u, made + more)
  {
    hide Nodes, Spine, Apart, Grows;
    GrowsTrans(s, t, u, made, more);
  }

  lemma UnfoldMerge(t: Tree, environ: seq<string>, i: nat, prefix: string)
    requires i < |environ|
    ensures M.MergeAll(t, environ[i..], prefix)
         == M.MergeAll(M.MergeOne(t, environ[i], prefix), environ[i + 1..], prefix)
  {
    assert environ[i..][1..] == environ[i + 1..];
  }

  lemma BaseOf(loaded: Option<Tree>, resolve: Resolver)
    ensures loaded.None? ==> M.BaseTree(loaded, resolve) == map[]
    ensures loaded.Some? ==> M.BaseTree(loaded, resolve) == Subst(Obj(loaded.value), MAX_DEPTH, resolve).entries
  {
  }

  lemma MergedAll(t: Tree, environ: seq<string>, prefix: string)
    ensures M.MergeAll(t, environ[|environ|..], prefix) == t
  {
  }

  lemma MergeDone(t: Tree, environ: seq<string>, config: Option<Tree>, prefix: string, resolve: Resolver)
    requires t == M.BaseTree(config, resolve)
    ensures M.MergeAll(t, environ, prefix) == M.MergeWithEnv(config, environ, prefix, resolve)
  {
  }

  /** The configuration after the merge: what it shares with the result has changed with it. */
  lemma SyncLoaded(s: Snap, t: Snap, made: set<GoMap>)
    requires Apart(s) && HoldsAbove(s, MAX_DEPTH) && s.SDict? && made !! Nodes(s)
    requires Holds(t) && Apart(t) && t.SDict? && Shadows(s, t, MAX_DEPTH, made)
    ensures var u := Sync(s, t, MAX_DEPTH);
            && u.SDict? && u.m == s.m && Holds(u) && Apart(u)
            && AfterMerge(Entries(s), Entries(t)) == Entries(u)
  {
    SyncHolds(s, t, MAX_DEPTH, made);
    SyncApart(s, t, MAX_DEPTH, made);
    SyncVal(s, t, MAX_DEPTH);
  }

  lemma {:induction false} SyncedUntouched(v: Value, w: Value, depth: int)
    requires !MapBelow(v, depth)
    ensures Synced(v, w, depth) == v
    decreases v
  {
    if v.Obj? && w.Obj? {
      forall k | k in v.entries && k in w.entries
          ensures Synced(v.entries[k], w.entries[k], depth - 1) == v.entries[k] {
        SyncedUntouched(v.entries[k], w.entries[k], depth - 1);
      }
    }
  }

  lemma NothingShared(loaded: Tree, merged: Tree)
    ensures !MapBelow(Obj(loaded), MAX_DEPTH) ==> AfterMerge(loaded, merged) == loaded
  {
    if !MapBelow(Obj(loaded), MAX_DEPTH) {
      SyncedUntouched(Obj(loaded), Obj(merged), MAX_DEPTH);
    }
  }

  /** What one turn of the loop amounts to, by the parts of the environment string. */
  lemma OneTurn(t: Tree, kv: string, prefix: string)
    ensures var eq := IndexOf(kv, '=');
            && (eq.None? || !(prefix <= kv[..eq.value]) ==> M.MergeOne(t, kv, prefix) == t)
            && (eq.Some? && prefix <= kv[..eq.value] ==>
                  var keys := Split(Letters.Lower(kv[..eq.value][|prefix|..]), '_');
                  M.MergeOne(t, kv, prefix) ==
                  if At(t, keys) != Missing then t
                  else M.SetNestedKey(t, keys, Leaf(Str(kv[eq.value + 1..]))))
  {
  }

  class ConfigLoader {
    var config: GoMap?

    /** `s` pictures the loaded configuration, if one is loaded. */
    ghost predicate Shows(s: Snap)
      reads this, Nodes(s)
    {
      config != null ==> s.SDict? && s.m == config && Holds(s) && Apart(s)
    }

    /** The loaded configuration as a value. */
    ghost function Loaded(s: Snap): Option<Tree>
      requires Shows(s)
      reads this, Nodes(s)
    {
      if config == null then None else Some(Entries(s))
    }

    lemma LoadedFacts(s: Snap)
      requires Shows(s)
      ensures config != null ==>
                && s.SDict? && s.m == config && Holds(s) && Apart(s) && Root(s) == Dict(config)
                && Loaded(s) == Some(Entries(s))
      ensures config == null ==> Loaded(s) == None
    {
    }

    lemma LoadedAgain(s: Snap)
      requires config != null ==> s.SDict? && s.m == config && Holds(s) && Apart(s)
      ensures Shows(s) && (config != null ==> Loaded(s) == Some(Entries(s)))
    {
    }

    lemma DeepFacts(s: Snap)
      requires Shows(s)
      ensures config != null ==> Deep(s) == DeepNodes(s, MAX_DEPTH)
      ensures config == null ==> Deep(s) == {}
      ensures Loaded(s).None? || !MapBelow(Obj(Loaded(s).value), MAX_DEPTH) ==> Deep(s) == {}
    {
      DeepNodesExactly(s, MAX_DEPTH);
      assert config != null ==> Val(s) == Obj(Entries(s));
    }

    constructor (loaded: GoMap?, ghost s: Snap)
      requires loaded != null ==> s.SDict? && s.m == loaded && Holds(s) && Apart(s)
      ensures config == loaded && Shows(s)
    {
      config := loaded;
    }

    /** hasNestedKey */
    static method HasNestedKey(data: GoMap, keyPath: string, ghost s: Snap) returns (r: bool)
      requires s.SDict? && s.m == data && Holds(s)
      ensures r <==> At(Entries(s), Split(keyPath, '_')) != Missing
    {
      var current := data;
      var keys := Split(keyPath, '_');
      ghost var c := s;
      for i := 0 to |keys|
        invariant i < |keys| ==>
          && c.SDict? && c.m == current && Holds(c)
          && At(Entries(s), keys) == At(Entries(c), keys[i..])
        invariant i < |keys|
      {
        var key := keys[i];
        if key !in current.entries {
          return false;
        }
        if i == |keys| - 1 {
          return true;
        }
        assert keys[i..][1..] == keys[i + 1..];
        var next := current.entries[key];
        if !next.Dict? {
          assert !c.kids[key].SDict? && Entries(c)[key] == Val(c.kids[key]);
          return false;
        }
        c := c.kids[key];
        current := next.m;
      }
      return true;
    }

    /** Get: the substituted value at a dotted path, or the caller's default. */
    method Get(keyPath: string, default: Any, resolve: Resolver, ghost s: Snap)
      returns (r: Any, ghost t: Snap)
      requires Shows(s)
      ensures var found := ConfigTree.Get(old(Loaded(s)), keyPath, resolve);
              if found.None? then r == default else Holds(t) && r == Root(t) && Val(t) == found.value
    {
      t := s;
      if config == null {
        return default, s;
      }
      var value: Any := Dict(config);
      var keys := Split(keyPath, '.');
      ghost var c := s;
      for i := 0 to |keys|
        invariant Holds(c) && Apart(c) && value == Root(c)
        invariant Walk(Obj(Entries(s)), keys) == Walk(Val(c), keys[i..])
      {
        assert keys[i..][1..] == keys[i + 1..];
        if !value.Dict? {
          return default, s;
        }
        if keys[i] !in value.m.entries {
          return default, s;
        }
        value := value.m.entries[keys[i]];
        c := c.kids[keys[i]];
      }
      ghost var made;
      r, t, made := SubstituteVars(value, MAX_DEPTH, resolve, c);
    }

    /** GetSection: a substituted copy of one section, empty unless the section is a map. */
    method GetSection(section: string, resolve: Resolver, ghost s: Snap)
      returns (r: GoMap, ghost t: Snap)
      requires Shows(s)
      ensures Holds(t) && t.SDict? && t.m == r
      ensures Entries(t) == ConfigTree.GetSection(old(Loaded(s)), section, resolve)
    {
      if config != null && section in config.entries {
        var sub: Any;
        ghost var made;
        sub, t, made := SubstituteVars(config.entries[section], MAX_DEPTH, resolve, s.kids[section]);
        if sub.Dict? {
          return sub.m, t;
        }
      }
      r := new GoMap();
      t := SDict(r, map[]);
    }

    /** The maps of the loaded configuration at level MAX_DEPTH and below, through maps and slices. */
    ghost function Deep(s: Snap): set<GoMap>
      reads this
    {
      if config == null then {} else DeepNodes(s, MAX_DEPTH)
    }

    /** The loop of MergeWithEnv over the environment: sets each key that is not there yet. */
    static method FoldEnv(result: GoMap, envPrefix: string, environ: seq<string>, ghost s: Snap)
      returns (ghost t: Snap, ghost made: set<GoMap>)
      requires s.SDict? && s.m == result && Holds(s) && Apart(s)
      modifies Spine(s)
      ensures Holds(t) && t.SDict? && t.m == result && fresh(made) && Updated(s, t, made) && Grows(s, t, made)
      ensures Entries(t) == M.MergeAll(Entries(s), environ, envPrefix)
    {
      hide *;
      t := s;
      made := {};
      FoldStart(s);
      assert environ[0..] == environ;
      for i := 0 to |environ|
        invariant Holds(t) && t.SDict? && t.m == result && fresh(made) && Updated(s, t, made) && Grows(s, t, made)
        invariant M.MergeAll(Entries(t), environ[i..], envPrefix) == M.MergeAll(Entries(s), environ, envPrefix)
      {
        var kv := environ[i];
        NodesAllocated(t);
        UpdatedFacts(s, t, made);
        UnfoldMerge(Entries(t), environ, i, envPrefix);
        OneTurn(Entries(t), kv, envPrefix);
        var eq := IndexOf(kv, '=');
        if eq.None? {
          continue;
        }
        var key, val := kv[..eq.value], kv[eq.value + 1..];
        if !(envPrefix <= key) {
          continue;
        }
        var configKey := Letters.Lower(key[|envPrefix|..]);
        var has := HasNestedKey(result, configKey, t);
        if !has {
          ghost var u, more := SetNestedKey(result, configKey, val, t);
          FoldStep(s, t, u, made, more);
          t := u;
          made := made + more;
        }
      }
      MergedAll(Entries(t), environ, envPrefix);
    }

    /**
     * MergeWithEnv: folds the environment into the substituted configuration, in place. The result shares no map
     * with the loaded configuration but those at level MAX_DEPTH and below, and only such maps may change in it.
     * With none there, every map of the result is new.
     */
    method MergeWithEnv(envPrefix: string, environ: seq<string>, resolve: Resolver, ghost s: Snap)
      returns (result: GoMap, ghost t: Snap, ghost after: Snap)
      requires Shows(s)
      modifies if config == null then {} else DeepSpine(s, MAX_DEPTH)
      ensures Holds(t) && Apart(t) && t.SDict? && t.m == result
      ensures Entries(t) == M.MergeWithEnv(old(Loaded(s)), environ, envPrefix, resolve)
      ensures fresh(Nodes(t) - Deep(s))
      ensures old(Loaded(s)).None? || !MapBelow(Obj(old(Loaded(s)).value), MAX_DEPTH) ==> fresh(Nodes(t))
      ensures Shows(after)
      ensures old(Loaded(s)).Some? ==>
                && Loaded(after) == Some(AfterMerge(old(Loaded(s)).value, Entries(t)))
                && (!MapBelow(Obj(old(Loaded(s)).value), MAX_DEPTH) ==> Loaded(after) == old(Loaded(s)))
    {
      hide *;
      ghost var made := {};
      ghost var loaded := Loaded(s);
      ghost var t0;
      LoadedFacts(s);
      DeepFacts(s);
      if config != null {
        HoldsToAbove(s, MAX_DEPTH);
        NodesAllocated(s);
        var copy: Any;
        copy, t0, made := SubstituteVars(Dict(config), MAX_DEPTH, resolve, s);
        MergeStart(s, t0, made, resolve);
        result := copy.m;
      } else {
        result := new GoMap();
        made := {result};
        t0 := SDict(result, map[]);
        MergeStartEmpty(t0);
      }
      BaseOf(loaded, resolve);
      NodesAllocated(t0);
      ghost var more;
      t, more := FoldEnv(result, envPrefix, environ, t0);
      MergeDone(Entries(t0), environ, loaded, envPrefix, resolve);
      UpdatedFacts(t0, t, more);
      after := s;
      if config != null {
        MergeStep(s, t0, t, made, more);
        SyncLoaded(s, t, made + more);
        NothingShared(loaded.value, Entries(t));
        after := Sync(s, t, MAX_DEPTH);
      }
      LoadedAgain(after);
    }
  }
}
