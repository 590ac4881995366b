/** Configuration trees as values: substitution, lookup and the environment merge. */
module ConfigTree {
  import opened Text

  datatype Atom = Str(s: string) | Bool(b: bool) | Num(text: string) | Null

  datatype Value = Leaf(a: Atom) | Obj(entries: Tree) | Arr(items: seq<Value>)

  type Tree = map<string, Value>

  type Path = seq<string>

  /** What stands at a path of a tree, without looking below it. */
  datatype Shape = Missing | Branch | End(v: Value)

  function Kind(v: Value): Shape {
    if v.Obj? then Branch else End(v)
  }

  function At(t: Tree, q: Path): Shape
    requires q != []
    decreases q
  {
    if q[0] !in t then Missing
    else if |q| == 1 then Kind(t[q[0]])
    else if t[q[0]].Obj? then At(t[q[0]].entries, q[1..])
    else Missing
  }

  ghost predicate Agree(t: Tree, u: Tree) {
    forall q: Path :: q != [] ==> At(t, q) == At(u, q)
  }

  /** Trees that agree at every path are equal. */
  lemma SameTree(t: Tree, u: Tree)
    requires Agree(t, u)
    ensures t == u
  {
    SameObj(Obj(t), Obj(u));
  }

  lemma {:induction false} SameObj(v: Value, w: Value)
    requires v.Obj? && w.Obj? && Agree(v.entries, w.entries)
    ensures v == w
    decreases v
  {
    var t, u := v.entries, w.entries;
    forall k ensures k in t <==> k in u {
      assert At(t, [k]) == At(u, [k]);
    }
    forall k | k in t ensures t[k] == u[k] {
      assert At(t, [k]) == At(u, [k]);
      if t[k].Obj? {
        forall q: Path | q != [] ensures At(t[k].entries, q) == At(u[k].entries, q) {
          assert ([k] + q)[1..] == q;
          assert At(t, [k] + q) == At(u, [k] + q);
        }
        SameObj(t[k], u[k]);
      }
    }
  }

  // Substitution. `resolve` is what a string becomes once its ${VAR|default} references are
  // filled in from the environment and the result is read as a boolean or number.

  type Resolver = string -> Atom

  /** SubstituteVars */
  function Subst(v: Value, maxDepth: int, resolve: Resolver): (r: Value)
    ensures r.Obj? <==> v.Obj?
    ensures v.Obj? ==> r.entries.Keys == v.entries.Keys
    ensures r.Arr? <==> v.Arr?
    ensures v.Arr? ==> |r.items| == |v.items|
    decreases maxDepth
  {
    if maxDepth <= 0 then v
    else
      match v
      case Leaf(Str(s)) => Leaf(resolve(s))
      case Obj(entries) => Obj(map k | k in entries :: Subst(entries[k], maxDepth - 1, resolve))
      case Arr(items) => Arr(seq(|items|, i requires 0 <= i < |items| => Subst(items[i], maxDepth - 1, resolve)))
      case Leaf(_) => v
  }

  /** The value a chain of keys leads to. */
  function Walk(v: Value, keys: Path): Option<Value>
    decreases keys
  {
    if keys == [] then Some(v)
    else if v.Obj? && keys[0] in v.entries then Walk(v.entries[keys[0]], keys[1..])
    else None
  }

  function Substituted(r: Option<Value>, maxDepth: int, resolve: Resolver): Option<Value> {
    match r
    case None => None
    case Some(v) => Some(Subst(v, maxDepth, resolve))
  }

  /** Every string at a level from `lo` up to `hi` resolves to itself. */
  ghost predicate Stable(v: Value, lo: int, hi: int, resolve: Resolver)
    decreases v
  {
    hi <= lo || hi <= 0 ||
    match v
    case Leaf(Str(s)) => lo > 0 || resolve(s) == Str(s)
    case Leaf(_) => true
    case Obj(entries) => forall k :: k in entries ==> Stable(entries[k], lo - 1, hi - 1, resolve)
    case Arr(items) => forall i :: 0 <= i < |items| ==> Stable(items[i], lo - 1, hi - 1, resolve)
  }

  /** Two depth bounds give the same result exactly when the strings between them are stable. */
  lemma {:induction false} DepthMatters(v: Value, lo: int, hi: int, resolve: Resolver)
    requires lo <= hi
    ensures Subst(v, lo, resolve) == Subst(v, hi, resolve) <==> Stable(v, lo, hi, resolve)
    decreases v, 1
  {
    if 0 < hi && lo < hi {
      match v
      case Leaf(_) =>
      case Obj(_) => DepthMattersObj(v, lo, hi, resolve);
      case Arr(_) => DepthMattersArr(v, lo, hi, resolve);
    }
  }

  lemma {:induction false} DepthMattersObj(v: Value, lo: int, hi: int, resolve: Resolver)
    requires v.Obj? && lo < hi && 0 < hi
    ensures Subst(v, lo, resolve) == Subst(v, hi, resolve) <==> Stable(v, lo, hi, resolve)
    decreases v, 0
  {
    hide Subst;
    var a, b := Subst(v, lo, resolve).entries, Subst(v, hi, resolve).entries;
    forall k | k in v.entries ensures a[k] == b[k] <==> Stable(v.entries[k], lo - 1, hi - 1, resolve) {
      DepthMatters(v.entries[k], lo - 1, hi - 1, resolve);
      SubstChild(v, k, lo, resolve);
      SubstChild(v, k, hi, resolve);
    }
    assert a == b <==> forall k :: k in v.entries ==> a[k] == b[k];
  }

  lemma {:induction false} DepthMattersArr(v: Value, lo: int, hi: int, resolve: Resolver)
    requires v.Arr? && lo < hi && 0 < hi
    ensures Subst(v, lo, resolve) == Subst(v, hi, resolve) <==> Stable(v, lo, hi, resolve)
    decreases v, 0
  {
    hide Subst;
    var a, b := Subst(v, lo, resolve).items, Subst(v, hi, resolve).items;
    forall i | 0 <= i < |v.items| ensures a[i] == b[i] <==> Stable(v.items[i], lo - 1, hi - 1, resolve) {
      DepthMatters(v.items[i], lo - 1, hi - 1, resolve);
      SubstItem(v, i, lo, resolve);
      SubstItem(v, i, hi, resolve);
    }
    assert a == b <==> forall i :: 0 <= i < |v.items| ==> a[i] == b[i];
  }

  lemma SubstItem(v: Value, i: nat, maxDepth: int, resolve: Resolver)
    requires v.Arr? && i < |v.items|
    ensures Subst(v, maxDepth, resolve).items[i] == Subst(v.items[i], maxDepth - 1, resolve)
  {
  }

  lemma SubstChild(v: Value, k: string, maxDepth: int, resolve: Resolver)
    requires v.Obj? && k in v.entries
    ensures Subst(v, maxDepth, resolve).entries[k] == Subst(v.entries[k], maxDepth - 1, resolve)
  {
  }

  /** Looking up in a substituted tree is substituting what is looked up, that many levels less deep. */
  lemma {:induction false} WalkSubst(v: Value, keys: Path, maxDepth: int, resolve: Resolver)
    ensures Walk(Subst(v, maxDepth, resolve), keys) == Substituted(Walk(v, keys), maxDepth - |keys|, resolve)
    decreases keys
  {
    if keys != [] && v.Obj? && keys[0] in v.entries {
      SubstChild(v, keys[0], maxDepth, resolve);
      hide Subst;
      WalkSubst(v.entries[keys[0]], keys[1..], maxDepth - 1, resolve);
    }
  }

  // What substitution does at a place, told without it.

  /** One step down: into a map or into a slice. */
  datatype Step = Key(k: string) | Item(i: nat)

  /** The value that the steps lead to. */
  function Reach(v: Value, steps: seq<Step>): Option<Value>
    decreases steps
  {
    if steps == [] then Some(v)
    else
      match steps[0]
      case Key(k) => if v.Obj? && k in v.entries then Reach(v.entries[k], steps[1..]) else None
      case Item(i) => if v.Arr? && i < |v.items| then Reach(v.items[i], steps[1..]) else None
  }

  /** A chain of keys is that many steps into maps. */
  lemma {:induction false} WalkReaches(v: Value, keys: Path)
    ensures Walk(v, keys) == Reach(v, seq(|keys|, i requires 0 <= i < |keys| => Key(keys[i])))
    decreases keys
  {
    var steps := seq(|keys|, i requires 0 <= i < |keys| => Key(keys[i]));
    if keys != [] {
      var rest := keys[1..];
      assert steps[1..] == seq(|rest|, i requires 0 <= i < |rest| => Key(rest[i]));
      if v.Obj? && keys[0] in v.entries {
        WalkReaches(v.entries[keys[0]], rest);
      }
    }
  }

  /** What stands at a path is told by where its keys lead. */
  lemma {:induction false} AtReaches(t: Tree, q: Path)
    requires q != []
    ensures At(t, q) ==
            match Reach(Obj(t), seq(|q|, i requires 0 <= i < |q| => Key(q[i])))
            case None => Missing
            case Some(v) => if v.Obj? then Branch else End(v)
    decreases q
  {
    var steps := seq(|q|, i requires 0 <= i < |q| => Key(q[i]));
    var rest := q[1..];
    assert steps[1..] == seq(|rest|, i requires 0 <= i < |rest| => Key(rest[i]));
    if q[0] in t {
      if |q| > 1 && t[q[0]].Obj? {
        AtReaches(t[q[0]].entries, rest);
      } else if |q| > 1 {
        assert steps[1..] != [];
      }
    }
  }

  /** `w` is `v`, except that a string is resolved if `replaced`. */
  predicate Became(v: Value, w: Value, replaced: bool, resolve: Resolver) {
    match v
    case Leaf(Str(s)) => w == Leaf(if replaced then resolve(s) else Str(s))
    case Leaf(_) => w == v
    case Obj(entries) => w.Obj? && w.entries.Keys == entries.Keys
    case Arr(items) => w.Arr? && |w.items| == |items|
  }

  /** Every place stays where it is; strings are resolved above the depth bound, and nothing else changes. */
  lemma {:induction false} SubstAt(v: Value, steps: seq<Step>, maxDepth: int, resolve: Resolver)
    ensures var before, after := Reach(v, steps), Reach(Subst(v, maxDepth, resolve), steps);
            match before
            case None => after == None
            case Some(x) => after.Some? && Became(x, after.value, |steps| < maxDepth, resolve)
    decreases steps
  {
    if steps != [] {
      match steps[0]
      case Key(k) =>
        if v.Obj? && k in v.entries {
          SubstChild(v, k, maxDepth, resolve);
          SubstAt(v.entries[k], steps[1..], maxDepth - 1, resolve);
        }
      case Item(i) =>
        if v.Arr? && i < |v.items| {
          SubstItem(v, i, maxDepth, resolve);
          SubstAt(v.items[i], steps[1..], maxDepth - 1, resolve);
        }
    }
  }

  const MAX_DEPTH := 10

  /** Get, with None for the caller's default. */
  function Get(config: Option<Tree>, keyPath: string, resolve: Resolver): Option<Value> {
    if config.None? then None
    else Substituted(Walk(Obj(config.value), Split(keyPath, '.')), MAX_DEPTH, resolve)
  }

  function GetSection(config: Option<Tree>, section: string, resolve: Resolver): Tree {
    if config.None? || section !in config.value then map[]
    else
      var sub := Subst(config.value[section], MAX_DEPTH, resolve);
      if sub.Obj? then sub.entries else map[]
  }

  /** A lookup gives what stands at the path, its strings resolved down to ten levels below it. */
  lemma GetResolves(config: Tree, keys: Path, steps: seq<Step>, resolve: Resolver)
    requires keys != [] && forall i :: 0 <= i < |keys| ==> '.' !in keys[i]
    ensures var found, r := Walk(Obj(config), keys), Get(Some(config), Join(keys, "."), resolve);
            && (r.Some? <==> found.Some?)
            && (r.Some? ==>
                  match Reach(found.value, steps)
                  case None => Reach(r.value, steps) == None
                  case Some(x) =>
                    var y := Reach(r.value, steps);
                    y.Some? && Became(x, y.value, |steps| < 10, resolve))
  {
    hide Subst, Became;
    DottedGet(config, keys, resolve);
    if Walk(Obj(config), keys).Some? {
      SubstAt(Walk(Obj(config), keys).value, steps, 10, resolve);
    }
  }

  /** A section is what stands under its name, its strings resolved down to ten levels below it. */
  lemma SectionResolves(config: Tree, section: string, steps: seq<Step>, resolve: Resolver)
    ensures var r := GetSection(Some(config), section, resolve);
            if section in config && config[section].Obj? then
              match Reach(config[section], steps)
              case None => Reach(Obj(r), steps) == None
              case Some(x) =>
                var y := Reach(Obj(r), steps);
                y.Some? && Became(x, y.value, |steps| < 10, resolve)
            else r == map[]
  {
    hide Became;
    if section in config {
      SubstAt(config[section], steps, 10, resolve);
    }
  }

  /** A key chain as one dotted path. */
  function Dotted(keys: Path): string {
    Join(keys, ".")
  }

  /**
   * Reading a section and then a chain of keys in it agrees with reading the dotted path at once,
   * exactly when no string near the bottom of the value depends on the levels spent on the chain.
   */
  lemma SectionAgreesWithGet(config: Tree, section: string, keys: Path, resolve: Resolver)
    requires keys != [] && '.' !in section && forall i :: 0 <= i < |keys| ==> '.' !in keys[i]
    ensures var whole := Walk(Obj(config), [section] + keys);
            var viaSection := Walk(Obj(GetSection(Some(config), section, resolve)), keys);
            var direct := Get(Some(config), Dotted([section] + keys), resolve);
            && viaSection == Substituted(whole, MAX_DEPTH - |keys|, resolve)
            && direct == Substituted(whole, MAX_DEPTH, resolve)
            && (viaSection == direct
                <==> whole.None? || Stable(whole.value, MAX_DEPTH - |keys|, MAX_DEPTH, resolve))
  {
    hide *;
    var whole := Walk(Obj(config), [section] + keys);
    SectionWalk(config, section, keys, resolve);
    DottedGet(config, [section] + keys, resolve);
    SubstitutedAgree(whole, MAX_DEPTH - |keys|, MAX_DEPTH, resolve);
  }

  lemma DottedGet(config: Tree, keys: Path, resolve: Resolver)
    requires keys != [] && forall i :: 0 <= i < |keys| ==> '.' !in keys[i]
    ensures Get(Some(config), Dotted(keys), resolve) == Substituted(Walk(Obj(config), keys), MAX_DEPTH, resolve)
  {
    SplitJoin(keys, '.');
  }

  lemma SubstitutedAgree(r: Option<Value>, lo: int, hi: int, resolve: Resolver)
    requires lo <= hi
    ensures Substituted(r, lo, resolve) == Substituted(r, hi, resolve)
            <==> r.None? || Stable(r.value, lo, hi, resolve)
  {
    hide Subst, Stable;
    if r.Some? {
      DepthMatters(r.value, lo, hi, resolve);
    }
  }

  lemma SectionWalk(config: Tree, section: string, keys: Path, resolve: Resolver)
    requires keys != []
    ensures Walk(Obj(GetSection(Some(config), section, resolve)), keys)
            == Substituted(Walk(Obj(config), [section] + keys), MAX_DEPTH - |keys|, resolve)
  {
    hide Subst;
    var all := [section] + keys;
    assert all[0] == section && all[1..] == keys;
    if section in config {
      var sub := Subst(config[section], MAX_DEPTH, resolve);
      WalkSubst(config[section], keys, MAX_DEPTH, resolve);
      assert Walk(Obj(config), all) == Walk(config[section], keys);
      WalkInto(sub, keys);
    }
  }

  /** Only a map has anything below it. */
  lemma WalkInto(v: Value, keys: Path)
    requires keys != []
    ensures Walk(Obj(if v.Obj? then v.entries else map[]), keys) == Walk(v, keys)
  {
  }
}
