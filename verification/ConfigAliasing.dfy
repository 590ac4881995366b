/** When the environment can reach the loaded configuration through the maps it shares with the result. */
module ConfigAliasing {
  import opened Letters
  import opened Text
  import opened ConfigTree
  import opened ConfigMerge
  import opened ConfigLoader

  /** A key that an environment variable's name can spell. */
  predicate Spellable(k: string) {
    forall i :: 0 <= i < |k| ==> k[i] != '_' && k[i] != '=' && !('A' <= k[i] <= 'Z')
  }

  predicate AllSpellable(p: Path) {
    forall i :: 0 <= i < |p| ==> Spellable(p[i])
  }

  predicate IsObj(r: Option<Value>) {
    r.Some? && r.value.Obj?
  }

  /** Some map sits at level MAX_DEPTH behind keys that a variable's name can spell. */
  ghost predicate Reachable(config: Tree) {
    exists p: Path :: |p| == MAX_DEPTH && AllSpellable(p) && IsObj(Walk(Obj(config), p))
  }

  lemma {:induction false} SyncedSame(v: Value, w: Value, depth: nat)
    requires v.Obj? && w.Obj?
    ensures Synced(v, w, depth) == v <==>
            forall p: Path :: |p| == depth && IsObj(Walk(v, p)) && IsObj(Walk(w, p)) ==> Walk(w, p) == Walk(v, p)
    decreases v
  {
    if depth == 0 {
      assert Walk(v, []) == Some(v) && Walk(w, []) == Some(w);
    } else {
      var u := Synced(v, w, depth);
      var d := depth - 1;
      assert u == v <==>
             forall k :: k in v.entries && k in w.entries ==> Synced(v.entries[k], w.entries[k], d) == v.entries[k];
      forall k | k in v.entries && k in w.entries
        ensures Synced(v.entries[k], w.entries[k], d) == v.entries[k] <==>
                forall q: Path :: |q| == d && IsObj(Walk(v, [k] + q)) && IsObj(Walk(w, [k] + q)) ==>
                                     Walk(w, [k] + q) == Walk(v, [k] + q)
      {
        var a, b := v.entries[k], w.entries[k];
        forall q: Path ensures Walk(v, [k] + q) == Walk(a, q) && Walk(w, [k] + q) == Walk(b, q) {
          assert ([k] + q)[1..] == q;
        }
        if a.Obj? && b.Obj? {
          SyncedSame(a, b, d);
        }
      }
      forall p: Path | |p| == depth ensures p == [p[0]] + p[1..] {
      }
    }
  }

  lemma {:induction false} SplitMember(s: string, c: char, i: nat, j: nat)
    requires i < |Split(s, c)| && j < |Split(s, c)[i]|
    ensures Split(s, c)[i][j] != c && exists n :: 0 <= n < |s| && s[n] == Split(s, c)[i][j]
  {
    if s != "" {
      var rest := Split(s[1..], c);
      var x := Split(s, c)[i][j];
      if s[0] == c {
        SplitMember(s[1..], c, i - 1, j);
        var n :| 0 <= n < |s[1..]| && s[1..][n] == x;
        assert s[n + 1] == x;
      } else if i == 0 && j == 0 {
        assert s[0] == x;
      } else {
        SplitMember(s[1..], c, i, if i == 0 then j - 1 else j);
        var n :| 0 <= n < |s[1..]| && s[1..][n] == x;
        assert s[n + 1] == x;
      }
    }
  }

  /** Every key of a setting's path can be spelled, being cut from a lower-cased variable name. */
  lemma ParsedSpellable(kv: string, prefix: string)
    requires Parse(kv, prefix).Some?
    ensures AllSpellable(Parse(kv, prefix).value.path)
  {
    var eq := IndexOf(kv, '=').value;
    var name := kv[..eq];
    var key := Lower(name[|prefix|..]);
    assert Parse(kv, prefix).value.path == Split(key, '_');
    assert forall n :: 0 <= n < |name| ==> name[n] != '=' by {
      assert '=' !in kv[..eq];
    }
    forall i, j | 0 <= i < |Split(key, '_')| && 0 <= j < |Split(key, '_')[i]|
      ensures var x := Split(key, '_')[i][j]; x != '_' && x != '=' && !('A' <= x <= 'Z')
    {
      SplitMember(key, '_', i, j);
      var n :| 0 <= n < |key| && key[n] == Split(key, '_')[i][j];
      LowerChar(name[|prefix|..], n);
    }
  }

  lemma LowerChar(s: string, n: nat)
    requires n < |s| && s[n] != '='
    ensures Lower(s)[n] != '=' && !('A' <= Lower(s)[n] <= 'Z')
  {
  }

  lemma {:induction false} AtWalk(t: Tree, p: Path, q: Path)
    requires q != []
    ensures IsObj(Walk(Obj(t), p)) ==> At(t, p + q) == At(Walk(Obj(t), p).value.entries, q)
    ensures p != [] ==> (At(t, p) == Branch <==> IsObj(Walk(Obj(t), p)))
    decreases p
  {
    if p == [] {
      assert p + q == q;
    } else {
      assert (p + q)[1..] == p[1..] + q;
      if p[0] in t && t[p[0]].Obj? {
        AtWalk(t[p[0]].entries, p[1..], q);
      }
    }
  }

  /** Below a path that no variable can spell, the merge changes nothing. */
  lemma UnspelledUnchanged(t: Tree, environ: seq<string>, prefix: string, p: Path)
    requires p != [] && !AllSpellable(p) && IsObj(Walk(Obj(t), p))
    ensures Walk(Obj(MergeAll(t, environ, prefix)), p) == Walk(Obj(t), p)
  {
    var r := MergeAll(t, environ, prefix);
    AtWalk(t, p, [""]);
    MergeKeeps(t, environ, prefix, p);
    AtWalk(r, p, [""]);
    forall q: Path | q != []
      ensures At(Walk(Obj(r), p).value.entries, q) == At(Walk(Obj(t), p).value.entries, q)
    {
      AtWalk(t, p, q);
      AtWalk(r, p, q);
      MergeIsExpected(t, environ, prefix, p + q);
      NotSpelled(p, q, environ, prefix);
    }
    SameTree(Walk(Obj(r), p).value.entries, Walk(Obj(t), p).value.entries);
  }

  lemma NotSpelled(p: Path, q: Path, environ: seq<string>, prefix: string)
    requires !AllSpellable(p)
    ensures !Extended(p + q, environ, prefix) && FirstSetting(p + q, environ, prefix).None?
  {
    var i :| 0 <= i < |p| && !Spellable(p[i]);
    forall kv | Parse(kv, prefix).Some?
      ensures !(p + q < Parse(kv, prefix).value.path) && p + q != Parse(kv, prefix).value.path
    {
      ParsedSpellable(kv, prefix);
      assert (p + q)[i] == p[i];
    }
    FirstSettingFrom(p + q, environ, prefix);
  }

  lemma {:induction false} FreshKey(keys: set<string>) returns (n: nat)
    ensures forall k :: k in keys ==> |k| < n
    decreases keys
  {
    n := 0;
    if keys != {} {
      var k :| k in keys;
      n := FreshKey(keys - {k});
      if |k| >= n {
        n := |k| + 1;
      }
    }
  }

  lemma {:induction false} JoinSpellable(keys: Path, i: nat)
    requires AllSpellable(keys) && i < |Join(keys, "_")|
    ensures var c := Join(keys, "_")[i]; c != '=' && !('A' <= c <= 'Z')
  {
    if |keys| > 1 && i > |keys[0]| {
      JoinSpellable(keys[1..], i - |keys[0]| - 1);
    }
  }

  /** A variable whose name spells the path: its setting goes exactly there. */
  lemma SpelledOut(keys: Path)
    requires keys != [] && AllSpellable(keys)
    ensures Parse(Join(keys, "_") + "=x", "") == Some(Setting(keys, "x"))
  {
    hide Parse, Split, Join;
    var key := Join(keys, "_");
    forall i | 0 <= i < |key| ensures key[i] != '=' && !('A' <= key[i] <= 'Z') {
      JoinSpellable(keys, i);
    }
    assert Lower(key) == key;
    forall k | k in keys ensures '_' !in k {
    }
    SplitJoin(keys, '_');
    ParseOf("", key, "x");
    assert "" + key + "=" + "x" == key + "=x";
  }

  /** The level from which on values are shared is the level where nothing is substituted any more. */
  lemma SharedLevel(config: Tree, resolve: Resolver, p: Path)
    requires |p| == MAX_DEPTH
    ensures Walk(Obj(BaseTree(Some(config), resolve)), p) == Walk(Obj(config), p)
  {
    WalkSubst(Obj(config), p, MAX_DEPTH, resolve);
  }

  lemma ReachableIsChanged(config: Tree, resolve: Resolver, p: Path) returns (environ: seq<string>)
    requires |p| == MAX_DEPTH && AllSpellable(p) && IsObj(Walk(Obj(config), p))
    ensures AfterMerge(config, MergeWithEnv(Some(config), environ, "", resolve)) != config
  {
    var t := BaseTree(Some(config), resolve);
    var e := Walk(Obj(config), p).value.entries;
    var n := FreshKey(e.Keys);
    var z := seq(n, _ => 'z');
    var path := p + [z];
    SpelledOut(path);
    environ := [Join(path, "_") + "=x"];
    var r := MergeAll(t, environ, "");
    MergeIsExpected(t, environ, "", path);
    MergeIsExpected(t, environ, "", p);
    assert environ[0] == Join(path, "_") + "=x" && p < path;
    assert Extended(p, environ, "");
    SharedLevel(config, resolve, p);
    AtWalk(t, p, [z]);
    AtWalk(r, p, [z]);
    SyncedSame(Obj(config), Obj(r), MAX_DEPTH);
  }

  /**
   * No environment and no prefix change the loaded configuration, exactly when no map at level
   * MAX_DEPTH sits behind keys that a variable's name can spell.
   */
  lemma UntouchedExactly(config: Tree, resolve: Resolver)
    ensures (forall environ: seq<string>, prefix: string ::
               AfterMerge(config, MergeWithEnv(Some(config), environ, prefix, resolve)) == config)
            <==> !Reachable(config)
  {
    if Reachable(config) {
      var p: Path :| |p| == MAX_DEPTH && AllSpellable(p) && IsObj(Walk(Obj(config), p));
      var environ := ReachableIsChanged(config, resolve, p);
    } else {
      forall environ: seq<string>, prefix: string
        ensures AfterMerge(config, MergeWithEnv(Some(config), environ, prefix, resolve)) == config
      {
        var t := BaseTree(Some(config), resolve);
        var r := MergeAll(t, environ, prefix);
        forall p: Path | |p| == MAX_DEPTH && IsObj(Walk(Obj(config), p)) && IsObj(Walk(Obj(r), p))
          ensures Walk(Obj(r), p) == Walk(Obj(config), p)
        {
          SharedLevel(config, resolve, p);
          UnspelledUnchanged(t, environ, prefix, p);
        }
        SyncedSame(Obj(config), Obj(r), MAX_DEPTH);
      }
    }
  }
}
