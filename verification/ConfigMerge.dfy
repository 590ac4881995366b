/** Merging environment variables into a configuration tree. */
module ConfigMerge {
  import opened Letters
  import opened Text
  import opened ConfigTree

  datatype Setting = Setting(path: Path, value: string)

  /** What one environment string contributes: nothing, unless it is PREFIX<key>=<value>. */
  function Parse(kv: string, prefix: string): (r: Option<Setting>)
    ensures r.Some? ==> r.value.path != []
  {
    match IndexOf(kv, '=')
    case None => None
    case Some(eq) =>
      var key := kv[..eq];
      if prefix <= key then Some(Setting(Split(Lower(key[|prefix|..]), '_'), kv[eq + 1..])) else None
  }

  predicate HasNestedKey(t: Tree, path: Path)
    requires path != []
  {
    At(t, path) != Missing
  }

  /** setNestedKey: whatever stands in the way of the path is replaced by an empty map. */
  function SetNestedKey(t: Tree, path: Path, v: Value): Tree
    requires path != []
    decreases path
  {
    if |path| == 1 then t[path[0] := v]
    else
      var below := if path[0] in t && t[path[0]].Obj? then t[path[0]].entries else map[];
      t[path[0] := Obj(SetNestedKey(below, path[1..], v))]
  }

  function MergeOne(t: Tree, kv: string, prefix: string): Tree {
    match Parse(kv, prefix)
    case None => t
    case Some(e) => if HasNestedKey(t, e.path) then t else SetNestedKey(t, e.path, Leaf(Str(e.value)))
  }

  function MergeAll(t: Tree, environ: seq<string>, prefix: string): Tree
    decreases |environ|
  {
    if environ == [] then t else MergeAll(MergeOne(t, environ[0], prefix), environ[1..], prefix)
  }

  /** The tree MergeWithEnv starts from. */
  function BaseTree(config: Option<Tree>, resolve: Resolver): Tree {
    match config
    case None => map[]
    case Some(t) => Subst(Obj(t), MAX_DEPTH, resolve).entries
  }

  function MergeWithEnv(config: Option<Tree>, environ: seq<string>, prefix: string, resolve: Resolver): Tree {
    MergeAll(BaseTree(config, resolve), environ, prefix)
  }

  // A description of the merged tree that mentions no order of execution.

  /** `q` is a strict prefix of some setting's path. */
  predicate Extended(q: Path, environ: seq<string>, prefix: string) {
    exists i :: 0 <= i < |environ| && Parse(environ[i], prefix).Some? && q < Parse(environ[i], prefix).value.path
  }

  /** The first value the environment gives `q`. */
  function FirstSetting(q: Path, environ: seq<string>, prefix: string): Option<string>
    decreases |environ|
  {
    if environ == [] then None
    else
      var e := Parse(environ[0], prefix);
      if e.Some? && e.value.path == q then Some(e.value.value) else FirstSetting(q, environ[1..], prefix)
  }

  function Expected(t: Tree, environ: seq<string>, prefix: string, q: Path): Shape
    requires q != []
  {
    if Extended(q, environ, prefix) then Branch
    else if At(t, q) != Missing then At(t, q)
    else
      match FirstSetting(q, environ, prefix)
      case Some(v) => End(Leaf(Str(v)))
      case None => Missing
  }

  lemma {:induction false} SetAt(t: Tree, path: Path, v: Value, q: Path)
    requires path != [] && q != [] && !HasNestedKey(t, path) && !v.Obj?
    ensures At(SetNestedKey(t, path, v), q) ==
            if q == path then End(v) else if q < path then Branch else At(t, q)
    decreases path
  {
    if |path| > 1 && q[0] == path[0] {
      var below := if path[0] in t && t[path[0]].Obj? then t[path[0]].entries else map[];
      if |q| > 1 {
        SetAt(below, path[1..], v, q[1..]);
        assert q == [q[0]] + q[1..] && path == [path[0]] + path[1..];
        assert q[1..] < path[1..] <==> q < path;
      }
    }
  }

  /** Present paths have maps at all their strict prefixes. */
  lemma {:induction false} PresentPrefix(t: Tree, path: Path, q: Path)
    requires path != [] && q != [] && q < path && HasNestedKey(t, path)
    ensures At(t, q) == Branch
    decreases path
  {
    if |q| > 1 {
      PresentPrefix(t[q[0]].entries, path[1..], q[1..]);
    }
  }

  lemma StepExpected(t: Tree, kv: string, rest: seq<string>, prefix: string, q: Path)
    requires q != []
    ensures Expected(MergeOne(t, kv, prefix), rest, prefix, q) == Expected(t, [kv] + rest, prefix, q)
  {
    var all := [kv] + rest;
    assert all[1..] == rest;
    assert Extended(q, rest, prefix) ==> Extended(q, all, prefix) by {
      if Extended(q, rest, prefix) {
        var i :| 0 <= i < |rest| && Parse(rest[i], prefix).Some? && q < Parse(rest[i], prefix).value.path;
        assert all[i + 1] == rest[i];
      }
    }
    var e := Parse(kv, prefix);
    if e.Some? {
      var path := e.value.path;
      if q < path {
        assert all[0] == kv;
      }
      if HasNestedKey(t, path) {
        if q < path { PresentPrefix(t, path, q); }
      } else {
        SetAt(t, path, Leaf(Str(e.value.value)), q);
      }
    }
  }

  /** The merged tree is the described one. */
  lemma {:induction false} MergeIsExpected(t: Tree, environ: seq<string>, prefix: string, q: Path)
    requires q != []
    ensures At(MergeAll(t, environ, prefix), q) == Expected(t, environ, prefix, q)
    decreases |environ|
  {
    if environ != [] {
      MergeIsExpected(MergeOne(t, environ[0], prefix), environ[1..], prefix, q);
      assert [environ[0]] + environ[1..] == environ;
      StepExpected(t, environ[0], environ[1..], prefix, q);
    }
  }

  // What the description gives.

  /** Two settings of one path that would both be taken: the order of the environment decides. */
  ghost predicate Clash(t: Tree, environ: seq<string>, prefix: string, a: string, b: string) {
    && a in environ && b in environ
    && Parse(a, prefix).Some? && Parse(b, prefix).Some?
    && var e, f := Parse(a, prefix).value, Parse(b, prefix).value;
    && e.path == f.path && e.value != f.value
    && !HasNestedKey(t, e.path) && !Extended(e.path, environ, prefix)
  }

  ghost predicate OrderMatters(t: Tree, environ: seq<string>, prefix: string) {
    exists a, b :: Clash(t, environ, prefix, a, b)
  }

  ghost predicate Confluent(t: Tree, environ: seq<string>, prefix: string) {
    forall other: seq<string> :: multiset(other) == multiset(environ) ==>
      MergeAll(t, other, prefix) == MergeAll(t, environ, prefix)
  }

  lemma ExtendedBy(q: Path, environ: seq<string>, prefix: string)
    ensures Extended(q, environ, prefix) <==>
            exists kv :: kv in environ && Parse(kv, prefix).Some? && q < Parse(kv, prefix).value.path
  {
    if Extended(q, environ, prefix) {
      var i :| 0 <= i < |environ| && Parse(environ[i], prefix).Some? && q < Parse(environ[i], prefix).value.path;
      assert environ[i] in environ;
    }
  }

  lemma {:induction false} FirstSettingFrom(q: Path, environ: seq<string>, prefix: string)
    ensures var r := FirstSetting(q, environ, prefix);
            && (r.Some? ==> exists kv :: kv in environ && Parse(kv, prefix) == Some(Setting(q, r.value)))
            && (r.None? ==> forall kv :: kv in environ && Parse(kv, prefix).Some? ==> Parse(kv, prefix).value.path != q)
  {
    if environ != [] {
      FirstSettingFrom(q, environ[1..], prefix);
      assert environ == [environ[0]] + environ[1..];
      assert environ[0] in environ;
      var e := Parse(environ[0], prefix);
      if !(e.Some? && e.value.path == q) && FirstSetting(q, environ[1..], prefix).Some? {
        var kv :| kv in environ[1..] && Parse(kv, prefix)
            == Some(Setting(q, FirstSetting(q, environ[1..], prefix).value));
        assert kv in environ;
      }
    }
  }

  lemma SameMembers(a: seq<string>, b: seq<string>, kv: string)
    requires multiset(a) == multiset(b)
    ensures kv in a <==> kv in b
  {
    assert kv in a <==> kv in multiset(a);
    assert kv in b <==> kv in multiset(b);
  }

  lemma SameExpected(t: Tree, environ: seq<string>, other: seq<string>, prefix: string, q: Path)
    requires q != [] && multiset(other) == multiset(environ) && !OrderMatters(t, environ, prefix)
    ensures Expected(t, other, prefix, q) == Expected(t, environ, prefix, q)
  {
    ExtendedBy(q, environ, prefix);
    ExtendedBy(q, other, prefix);
    forall kv ensures kv in environ <==> kv in other { SameMembers(environ, other, kv); }
    if !Extended(q, environ, prefix) && !HasNestedKey(t, q) {
      FirstSettingFrom(q, environ, prefix);
      FirstSettingFrom(q, other, prefix);
      var v, w := FirstSetting(q, environ, prefix), FirstSetting(q, other, prefix);
      if v.Some? && w.Some? {
        var a :| a in environ && Parse(a, prefix) == Some(Setting(q, v.value));
        var b :| b in other && Parse(b, prefix) == Some(Setting(q, w.value));
        assert !Clash(t, environ, prefix, a, b);
      }
    }
  }

  lemma MergesAgree(t: Tree, environ: seq<string>, other: seq<string>, prefix: string)
    requires multiset(other) == multiset(environ) && !OrderMatters(t, environ, prefix)
    ensures MergeAll(t, other, prefix) == MergeAll(t, environ, prefix)
  {
    forall q: Path | q != []
      ensures At(MergeAll(t, other, prefix), q) == At(MergeAll(t, environ, prefix), q)
    {
      MergeIsExpected(t, environ, prefix, q);
      MergeIsExpected(t, other, prefix, q);
      SameExpected(t, environ, other, prefix, q);
    }
    SameTree(MergeAll(t, other, prefix), MergeAll(t, environ, prefix));
  }

  /** Moving one string to the front of the environment. */
  lemma ToFront(environ: seq<string>, kv: string) returns (other: seq<string>)
    requires kv in environ
    ensures other != [] && other[0] == kv && multiset(other) == multiset(environ)
  {
    var i :| 0 <= i < |environ| && environ[i] == kv;
    other := [kv] + environ[..i] + environ[i + 1..];
    assert environ == environ[..i] + [kv] + environ[i + 1..];
  }

  lemma ClashBreaksOrder(t: Tree, environ: seq<string>, prefix: string, a: string, b: string)
    requires Clash(t, environ, prefix, a, b)
    ensures !Confluent(t, environ, prefix)
  {
    var q := Parse(a, prefix).value.path;
    var first := ToFront(environ, a);
    var second := ToFront(environ, b);
    MergeIsExpected(t, first, prefix, q);
    MergeIsExpected(t, second, prefix, q);
    ExtendedBy(q, environ, prefix);
    ExtendedBy(q, first, prefix);
    ExtendedBy(q, second, prefix);
    forall kv ensures (kv in environ <==> kv in first) && (kv in environ <==> kv in second) {
      SameMembers(environ, first, kv);
      SameMembers(environ, second, kv);
    }
    assert At(MergeAll(t, first, prefix), q) != At(MergeAll(t, second, prefix), q);
  }

  /** The merge is independent of the environment's order exactly when no two settings clash. */
  lemma ConfluentExactly(t: Tree, environ: seq<string>, prefix: string)
    ensures Confluent(t, environ, prefix) <==> !OrderMatters(t, environ, prefix)
  {
    if OrderMatters(t, environ, prefix) {
      var a, b :| Clash(t, environ, prefix, a, b);
      ClashBreaksOrder(t, environ, prefix, a, b);
    } else {
      forall other: seq<string> | multiset(other) == multiset(environ)
        ensures MergeAll(t, other, prefix) == MergeAll(t, environ, prefix)
      {
        MergesAgree(t, environ, other, prefix);
      }
    }
  }

  /** The setting's key as it is folded before being split. */
  function FoldedKey(kv: string, prefix: string): Option<string> {
    match IndexOf(kv, '=')
    case None => None
    case Some(eq) => if prefix <= kv[..eq] then Some(Lower(kv[..eq][|prefix|..])) else None
  }

  /** Environments whose prefixed keys stay different when lower-cased merge the same in any order. */
  lemma DistinctKeysConfluent(config: Option<Tree>, environ: seq<string>, other: seq<string>, prefix: string,
                              resolve: Resolver)
    requires multiset(other) == multiset(environ)
    requires forall a, b :: a in environ && b in environ && a != b && FoldedKey(a, prefix).Some? ==>
                              FoldedKey(a, prefix) != FoldedKey(b, prefix)
    ensures MergeWithEnv(config, other, prefix, resolve) == MergeWithEnv(config, environ, prefix, resolve)
  {
    var t := BaseTree(config, resolve);
    forall a, b ensures !Clash(t, environ, prefix, a, b) {
      if Parse(a, prefix).Some? && Parse(b, prefix).Some?
          && Parse(a, prefix).value.path == Parse(b, prefix).value.path {
        SplitInjective(FoldedKey(a, prefix).value, FoldedKey(b, prefix).value, '_');
      }
    }
    MergesAgree(t, environ, other, prefix);
  }

  /**
   * After the merge every prefixed path of the environment exists, a value that no setting goes
   * below keeps what the configuration gave it, and every present path stays present.
   */
  lemma MergeKeeps(t: Tree, environ: seq<string>, prefix: string, q: Path)
    requires q != []
    ensures var r := MergeAll(t, environ, prefix);
            && (forall kv :: kv in environ && Parse(kv, prefix).Some? ==> HasNestedKey(r, Parse(kv, prefix).value.path))
            && (HasNestedKey(t, q) ==> HasNestedKey(r, q))
            && (HasNestedKey(t, q) && !Extended(q, environ, prefix) ==> At(r, q) == At(t, q))
            && (Extended(q, environ, prefix) ==> At(r, q) == Branch)
  {
    MergeIsExpected(t, environ, prefix, q);
    forall kv | kv in environ && Parse(kv, prefix).Some?
      ensures HasNestedKey(MergeAll(t, environ, prefix), Parse(kv, prefix).value.path)
    {
      var p := Parse(kv, prefix).value.path;
      MergeIsExpected(t, environ, prefix, p);
      FirstSettingFrom(p, environ, prefix);
    }
  }

  /**
   * A configured value that no setting goes below comes out of the merge with its strings resolved, as far as they
   * stand less than ten levels below the root.
   */
  lemma MergeResolves(config: Tree, environ: seq<string>, prefix: string, q: Path, steps: seq<Step>,
                      resolve: Resolver)
    requires q != [] && At(config, q).End? && !Extended(q, environ, prefix)
    ensures var r := At(MergeWithEnv(Some(config), environ, prefix, resolve), q);
            && r.End?
            && match Reach(At(config, q).v, steps)
               case None => Reach(r.v, steps) == None
               case Some(x) =>
                 var y := Reach(r.v, steps);
                 y.Some? && Became(x, y.value, |q| + |steps| < 10, resolve)
  {
    hide *;
    AtSubst(config, q, 10, resolve);
    BaseTreeIs(config, resolve);
    MergeKeeps(BaseTree(Some(config), resolve), environ, prefix, q);
    SubstAt(At(config, q).v, steps, 10 - |q|, resolve);
  }

  lemma BaseTreeIs(config: Tree, resolve: Resolver)
    ensures BaseTree(Some(config), resolve) == Subst(Obj(config), 10, resolve).entries
    ensures forall environ, prefix :: MergeWithEnv(Some(config), environ, prefix, resolve)
                                      == MergeAll(BaseTree(Some(config), resolve), environ, prefix)
  {
    hide Subst;
  }

  /** What stands at a path of a substituted tree. */
  lemma {:induction false} AtSubst(t: Tree, q: Path, maxDepth: int, resolve: Resolver)
    requires q != []
    ensures var u := Subst(Obj(t), maxDepth, resolve).entries;
            && (At(t, q).End? ==> At(u, q) == End(Subst(At(t, q).v, maxDepth - |q|, resolve)) && HasNestedKey(u, q))
            && (At(t, q) == Branch ==> At(u, q) == Branch)
            && (At(t, q) == Missing ==> At(u, q) == Missing)
    decreases q
  {
    if q[0] in t {
      SubstChild(Obj(t), q[0], maxDepth, resolve);
      if |q| > 1 && t[q[0]].Obj? {
        AtSubst(t[q[0]].entries, q[1..], maxDepth - 1, resolve);
      }
    }
  }

  /** The documentation lets configured values win. They do exactly when no longer variable name exists. */
  lemma ConfiguredValueWins(t: Tree, environ: seq<string>, prefix: string, q: Path)
    requires q != [] && At(t, q).End?
    ensures At(MergeAll(t, environ, prefix), q) == At(t, q) <==> !Extended(q, environ, prefix)
  {
    MergeKeeps(t, environ, prefix, q);
  }

  lemma ParseOf(prefix: string, key: string, value: string)
    requires '=' !in prefix && '=' !in key
    ensures Parse(prefix + key + "=" + value, prefix) == Some(Setting(Split(Lower(key), '_'), value))
  {
    var name := prefix + key;
    var kv := name + "=" + value;
    assert kv == name + ['='] + value;
    IndexOfAfter(name, '=', value);
    assert kv[..|name|] == name && name[|prefix|..] == key && kv[|name| + 1..] == value;
  }

  lemma LowerLogLevel()
    ensures Split(Lower("LOG_LEVEL"), '_') == ["log", "level"]
  {
    assert Lower("LOG_LEVEL") == "log" + ['_'] + "level";
    hide Lower, Split;
    SplitPrefix("log", "level", '_');
    SplitPrefix("level", "", '_');
    assert ["log"] + ["level"] == ["log", "level"];
  }

  /** SWML_LOG_LEVEL turns the configured value of "log" into a map. */
  lemma LongerNameReplacesValue()
    ensures var t: Tree := map["log" := Leaf(Str("debug"))];
            At(MergeAll(t, ["SWML_LOG_LEVEL=info"], "SWML_"), ["log"]) == Branch
  {
    var t: Tree := map["log" := Leaf(Str("debug"))];
    var kv := "SWML_LOG_LEVEL=info";
    hide Parse, MergeAll;
    assert Parse(kv, "SWML_") == Some(Setting(["log", "level"], "info")) by {
      hide Lower, Split;
      ParseOf("SWML_", "LOG_LEVEL", "info");
      assert kv == "SWML_" + "LOG_LEVEL" + "=" + "info";
      assert Split(Lower("LOG_LEVEL"), '_') == ["log", "level"] by { LowerLogLevel(); }
    }
    assert ["log"] < ["log", "level"];
    assert Extended(["log"], [kv], "SWML_") by { assert [kv][0] == kv; }
    MergeKeeps(t, [kv], "SWML_", ["log"]);
  }
}
