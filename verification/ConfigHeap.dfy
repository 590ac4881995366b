/** The configuration loader over Go's mutable maps. */
module ConfigHeap {
  import opened ConfigTree

  class GoMap {
    var entries: map<string, Any>

    constructor ()
      ensures entries == map[]
    {
      entries := map[];
    }
  }

  /** A decoded JSON value: maps are references, everything else is a value. */
  datatype Any = Plain(a: Atom) | Dict(m: GoMap) | List(items: seq<Any>)

  /** A picture of a value and of every map below it, against which the heap is described. */
  datatype Snap = SPlain(a: Atom) | SDict(m: GoMap, kids: map<string, Snap>) | SList(elems: seq<Snap>)

  ghost function Root(s: Snap): Any
    decreases s
  {
    match s
    case SPlain(a) => Plain(a)
    case SDict(m, _) => Dict(m)
    case SList(elems) => List(seq(|elems|, i requires 0 <= i < |elems| => Root(elems[i])))
  }

  ghost function Val(s: Snap): Value
    decreases s
  {
    match s
    case SPlain(a) => Leaf(a)
    case SDict(_, kids) => Obj(map k | k in kids :: Val(kids[k]))
    case SList(elems) => Arr(seq(|elems|, i requires 0 <= i < |elems| => Val(elems[i])))
  }

  /** All maps of the picture. */
  ghost function Nodes(s: Snap): set<GoMap>
    decreases s
  {
    match s
    case SPlain(_) => {}
    case SDict(m, kids) => {m} + set k, x | k in kids && x in Nodes(kids[k]) :: x
    case SList(elems) => set i, x | 0 <= i < |elems| && x in Nodes(elems[i]) :: x
  }

  /** The maps reached through maps alone, which are the ones setNestedKey can get to. */
  ghost function Spine(s: Snap): set<GoMap>
    decreases s
  {
    if s.SDict? then {s.m} + set k, x | k in s.kids && x in Spine(s.kids[k]) :: x else {}
  }

  /** No map occurs twice: the picture is a tree. */
  ghost predicate Apart(s: Snap)
    decreases s
  {
    match s
    case SPlain(_) => true
    case SDict(m, kids) =>
      && (forall k :: k in kids ==> Apart(kids[k]) && m !in Nodes(kids[k]))
      && (forall j, k :: j in kids && k in kids && j != k ==> Nodes(kids[j]) !! Nodes(kids[k]))
    case SList(elems) =>
      && (forall i :: 0 <= i < |elems| ==> Apart(elems[i]))
      && (forall i, j :: 0 <= i < j < |elems| ==> Nodes(elems[i]) !! Nodes(elems[j]))
  }

  /** The heap is as the picture shows it. */
  ghost predicate Holds(s: Snap)
    reads Nodes(s)
    decreases s
  {
    match s
    case SPlain(_) => true
    case SDict(m, kids) =>
      && m.entries.Keys == kids.Keys
      && forall k :: k in kids ==> m.entries[k] == Root(kids[k]) && Holds(kids[k])
    case SList(elems) => forall i :: 0 <= i < |elems| ==> Holds(elems[i])
  }

  /** The maps at nesting level `depth` and below, again through maps alone. */
  ghost function DeepSpine(s: Snap, depth: int): set<GoMap>
    decreases s
  {
    if depth <= 0 then Spine(s)
    else if s.SDict? then
      var d := depth - 1;
      set k, x | k in s.kids && x in DeepSpine(s.kids[k], d) :: x
    else {}
  }

  /** The maps at nesting level `depth` and below, counted through maps and slices. */
  ghost function DeepNodes(s: Snap, depth: int): set<GoMap>
    decreases s
  {
    if depth <= 0 then Nodes(s)
    else
      var d := depth - 1;
      match s
      case SPlain(_) => {}
      case SDict(_, kids) => set k, x | k in kids && x in DeepNodes(kids[k], d) :: x
      case SList(elems) => set i, x | 0 <= i < |elems| && x in DeepNodes(elems[i], d) :: x
  }

  lemma {:induction false} DeepNodesWithin(s: Snap, depth: int)
    ensures DeepNodes(s, depth) <= Nodes(s)
    decreases s
  {
    if depth > 0 {
      var d := depth - 1;
      match s
      case SPlain(_) =>
      case SDict(_, kids) =>
        forall k | k in kids ensures DeepNodes(kids[k], d) <= Nodes(kids[k]) {
          DeepNodesWithin(kids[k], d);
        }
      case SList(elems) =>
        forall i | 0 <= i < |elems| ensures DeepNodes(elems[i], d) <= Nodes(elems[i]) {
          DeepNodesWithin(elems[i], d);
        }
    }
  }

  /** Some map sits at level `depth` or below, counted through maps and slices. */
  predicate MapBelow(v: Value, depth: int)
    decreases v
  {
    match v
    case Leaf(_) => false
    case Obj(entries) => depth <= 0 || exists k :: k in entries && MapBelow(entries[k], depth - 1)
    case Arr(items) => exists i :: 0 <= i < |items| && MapBelow(items[i], depth - 1)
  }

  lemma {:induction false} DeepNodesExactly(s: Snap, depth: int)
    ensures DeepNodes(s, depth) != {} <==> MapBelow(Val(s), depth)
    decreases s
  {
    var d := depth - 1;
    match s
    case SPlain(_) =>
    case SDict(m, kids) =>
      forall k | k in kids ensures DeepNodes(kids[k], d) != {} <==> MapBelow(Val(kids[k]), d) {
        DeepNodesExactly(kids[k], d);
      }
      DeepOfKids(s, depth);
      MapBelowKids(s, depth);
    case SList(elems) =>
      forall i | 0 <= i < |elems| ensures DeepNodes(elems[i], d) != {} <==> MapBelow(Val(elems[i]), d) {
        DeepNodesExactly(elems[i], d);
      }
      DeepOfElems(s, depth);
      MapBelowElems(s, depth);
  }

  lemma MapBelowKids(s: Snap, depth: int)
    requires s.SDict?
    ensures MapBelow(Val(s), depth) <==> depth <= 0 || exists k :: k in s.kids && MapBelow(Val(s.kids[k]), depth - 1)
  {
    var entries := Val(s).entries;
    assert entries.Keys == s.kids.Keys && forall k :: k in s.kids ==> entries[k] == Val(s.kids[k]);
  }

  lemma MapBelowElems(s: Snap, depth: int)
    requires s.SList?
    ensures MapBelow(Val(s), depth) <==> exists i :: 0 <= i < |s.elems| && MapBelow(Val(s.elems[i]), depth - 1)
  {
    var items := Val(s).items;
    assert |items| == |s.elems| && forall i :: 0 <= i < |items| ==> items[i] == Val(s.elems[i]);
  }

  lemma DeepOfKids(s: Snap, depth: int)
    requires s.SDict?
    ensures DeepNodes(s, depth) != {}
            <==> depth <= 0 || exists k :: k in s.kids && DeepNodes(s.kids[k], depth - 1) != {}
  {
    if depth <= 0 {
      assert s.m in Nodes(s);
    } else {
      var d := depth - 1;
      forall k | k in s.kids ensures DeepNodes(s.kids[k], d) <= DeepNodes(s, depth) {
      }
    }
  }

  lemma DeepOfElems(s: Snap, depth: int)
    requires s.SList?
    ensures DeepNodes(s, depth) != {} <==> exists i :: 0 <= i < |s.elems| && DeepNodes(s.elems[i], depth - 1) != {}
  {
    var d := depth - 1;
    forall i | 0 <= i < |s.elems| ensures DeepNodes(s.elems[i], d) <= DeepNodes(s, depth) {
      assert depth <= 0 ==> DeepNodes(s.elems[i], d) == Nodes(s.elems[i]);
    }
  }

  /** A picture only shows maps that exist. */
  lemma {:induction false} NodesAllocated(s: Snap)
    ensures forall x :: x in Nodes(s) ==> allocated(x)
    decreases s
  {
    match s
    case SPlain(_) =>
    case SDict(_, kids) =>
      forall k | k in kids ensures forall x :: x in Nodes(kids[k]) ==> allocated(x) {
        NodesAllocated(kids[k]);
      }
    case SList(elems) =>
      forall i | 0 <= i < |elems| ensures forall x :: x in Nodes(elems[i]) ==> allocated(x) {
        NodesAllocated(elems[i]);
      }
  }

  lemma {:induction false} SpineNodes(s: Snap)
    ensures Spine(s) <= Nodes(s)
    decreases s
  {
    if s.SDict? {
      forall k | k in s.kids ensures Spine(s.kids[k]) <= Nodes(s.kids[k]) {
        SpineNodes(s.kids[k]);
      }
    }
  }

  /**
   * Every map of `s` down to level `depth` is matched in `t`; at that level by the very same map,
   * with nothing below it but what `s` has there and maps from `made`.
   */
  ghost predicate Shadows(s: Snap, t: Snap, depth: int, made: set<GoMap>)
    decreases s
  {
    s.SDict? ==>
      && t.SDict?
      && if depth <= 0 then s.m == t.m && Nodes(t) <= Nodes(s) + made
         else
           var d := depth - 1;
           forall k :: k in s.kids ==> k in t.kids && Shadows(s.kids[k], t.kids[k], d, made)
  }

  /** `t` pictures the substituted `s`. */
  ghost predicate Copy(s: Snap, t: Snap, maxDepth: int, resolve: Resolver) {
    && Apart(t)
    && Val(t) == Subst(Val(s), maxDepth, resolve)
    && Shadows(s, t, maxDepth, {})
  }

  /** `t` consists of the maps in `made` and of maps of `s` at level `depth` and below, on its spine of such a spine. */
  ghost predicate MadeFrom(s: Snap, t: Snap, depth: int, made: set<GoMap>) {
    && Nodes(t) <= DeepNodes(s, depth) + made
    && Spine(t) <= DeepSpine(s, depth) + made
  }

  /** SubstituteVars: builds new maps and slices down to maxDepth, below which it shares the original. */
  method SubstituteVars(v: Any, maxDepth: int, resolve: Resolver, ghost s: Snap)
    returns (r: Any, ghost t: Snap, ghost made: set<GoMap>)
    requires Holds(s) && Apart(s) && v == Root(s)
    ensures r == Root(t) && Holds(t) && Copy(s, t, maxDepth, resolve)
    ensures fresh(made) && MadeFrom(s, t, maxDepth, made)
    decreases maxDepth, 1
  {
    if maxDepth <= 0 {
      return v, s, {};
    }
    match v {
      case Plain(Str(text)) =>
        r := Plain(resolve(text));
        t := SPlain(resolve(text));
        made := {};
      case Plain(_) => return v, s, {};
      case Dict(m) => r, t, made := SubstituteMap(m, maxDepth, resolve, s);
      case List(items) => r, t, made := SubstituteList(items, maxDepth, resolve, s);
    }
  }

  /** `t` has the entries of `s` copied so far. */
  ghost predicate KidsMade(s: Snap, t: Snap, depth: int, resolve: Resolver, made: set<GoMap>) {
    && s.SDict? && t.SDict? && t.kids.Keys <= s.kids.Keys && t.m !in Nodes(s) + made
    && (forall k :: k in t.kids ==>
          Copy(s.kids[k], t.kids[k], depth, resolve) && MadeFrom(s.kids[k], t.kids[k], depth, made))
    && (forall j, k :: j in t.kids && k in t.kids && j != k ==> Nodes(t.kids[j]) !! Nodes(t.kids[k]))
  }

  lemma OneMoreKid(s: Snap, t: Snap, depth: int, resolve: Resolver, made: set<GoMap>, k: string, c: Snap,
      new': set<GoMap>)
    requires KidsMade(s, t, depth, resolve, made) && Apart(s) && k in s.kids && k !in t.kids
    requires Copy(s.kids[k], c, depth, resolve) && MadeFrom(s.kids[k], c, depth, new')
    requires made !! Nodes(s) && new' !! made + Nodes(s) + {t.m}
    ensures t.m !in Nodes(c) && KidsMade(s, SDict(t.m, t.kids[k := c]), depth, resolve, made + new')
  {
    hide Nodes, Spine, DeepSpine, DeepNodes, Apart, Copy;
    KidNodes(s);
    MadeFromWithin(s.kids[k], c, depth, new');
    var kids' := t.kids[k := c];
    forall j | j in kids'
      ensures MadeFrom(s.kids[j], kids'[j], depth, made + new')
      ensures j != k ==> Nodes(kids'[j]) !! Nodes(c)
    {
      if j != k {
        MadeFromWithin(s.kids[j], t.kids[j], depth, made);
        SetsApart(Nodes(t.kids[j]), Nodes(c), Nodes(s.kids[j]), Nodes(s.kids[k]), made, new');
      }
    }
  }

  lemma MadeFromWithin(s: Snap, t: Snap, depth: int, made: set<GoMap>)
    requires MadeFrom(s, t, depth, made)
    ensures Nodes(t) <= Nodes(s) + made
  {
    DeepNodesWithin(s, depth);
  }

  lemma SetsApart(a: set<GoMap>, b: set<GoMap>, fromA: set<GoMap>, fromB: set<GoMap>, madeA: set<GoMap>,
      madeB: set<GoMap>)
    requires a <= fromA + madeA && b <= fromB + madeB
    requires fromA !! fromB && madeA !! fromB && madeB !! fromA && madeB !! madeA
    ensures a !! b
  {
  }

  lemma KidNodes(s: Snap)
    requires s.SDict? && Apart(s)
    ensures forall k :: k in s.kids ==> Nodes(s.kids[k]) <= Nodes(s)
    ensures forall j, k :: j in s.kids && k in s.kids && j != k ==> Nodes(s.kids[j]) !! Nodes(s.kids[k])
  {
  }

  lemma NoKidsMade(s: Snap, m: GoMap, depth: int, resolve: Resolver)
    requires s.SDict? && m !in Nodes(s) && m.entries == map[]
    ensures KidsMade(s, SDict(m, map[]), depth, resolve, {}) && Holds(SDict(m, map[]))
  {
  }

  lemma KidsApart(s: Snap, t: Snap, depth: int, resolve: Resolver, made: set<GoMap>)
    requires KidsMade(s, t, depth, resolve, made)
    ensures Apart(t) && Nodes(t) <= Nodes(s) + made + {t.m}
  {
    forall k | k in t.kids ensures Nodes(t.kids[k]) <= Nodes(s) + made {
      MadeFromWithin(s.kids[k], t.kids[k], depth, made);
      assert Nodes(s.kids[k]) <= Nodes(s);
    }
  }

  lemma HoldsKids(s: Snap)
    requires s.SDict? && Holds(s) && Apart(s)
    ensures s.m in Nodes(s) && s.m.entries.Keys == s.kids.Keys
    ensures forall k :: k in s.kids ==> s.m.entries[k] == Root(s.kids[k]) && Holds(s.kids[k]) && Apart(s.kids[k])
  {
  }

  lemma ValOfKids(s: Snap, t: Snap, maxDepth: int, resolve: Resolver)
    requires maxDepth > 0 && s.SDict? && t.SDict? && t.kids.Keys == s.kids.Keys
    requires forall k :: k in t.kids ==> Val(t.kids[k]) == Subst(Val(s.kids[k]), maxDepth - 1, resolve)
    ensures Val(t) == Subst(Val(s), maxDepth, resolve)
  {
    var a, b := Val(t).entries, Subst(Val(s), maxDepth, resolve).entries;
    forall k | k in a ensures a[k] == b[k] {
      SubstChild(Val(s), k, maxDepth, resolve);
    }
    assert a == b;
  }

  lemma SpineOfKids(s: Snap, t: Snap, depth: int, resolve: Resolver, made: set<GoMap>)
    requires depth > 0 && KidsMade(s, t, depth - 1, resolve, made)
    ensures Spine(t) <= DeepSpine(s, depth) + made + {t.m}
  {
    forall k | k in t.kids ensures Spine(t.kids[k]) <= DeepSpine(s, depth) + made {
      assert DeepSpine(s.kids[k], depth - 1) <= DeepSpine(s, depth);
    }
  }

  lemma NodesOfKids(s: Snap, t: Snap, depth: int, resolve: Resolver, made: set<GoMap>)
    requires depth > 0 && KidsMade(s, t, depth - 1, resolve, made)
    ensures Nodes(t) <= DeepNodes(s, depth) + made + {t.m}
  {
    forall k | k in t.kids ensures Nodes(t.kids[k]) <= DeepNodes(s, depth) + made {
      assert DeepNodes(s.kids[k], depth - 1) <= DeepNodes(s, depth);
    }
  }

  lemma MapCopy(s: Snap, t: Snap, maxDepth: int, resolve: Resolver, made: set<GoMap>)
    requires maxDepth > 0 && KidsMade(s, t, maxDepth - 1, resolve, made) && t.kids.Keys == s.kids.Keys
    ensures Copy(s, t, maxDepth, resolve) && MadeFrom(s, t, maxDepth, made + {t.m})
    ensures Root(t) == Dict(t.m)
  {
    hide Val, Subst, Nodes, Spine, DeepSpine, DeepNodes, Apart;
    KidsApart(s, t, maxDepth - 1, resolve, made);
    NodesOfKids(s, t, maxDepth, resolve, made);
    SpineOfKids(s, t, maxDepth, resolve, made);
    ValOfKids(s, t, maxDepth, resolve);
  }

  /** Storing an entry in a map, which leaves the rest of the picture standing. */
  method Store(m: GoMap, k: string, v: Any, ghost s: Snap, ghost child: Snap)
    requires s.SDict? && s.m == m && Holds(s) && Apart(s)
    requires v == Root(child) && Holds(child) && m !in Nodes(child)
    modifies m
    ensures Holds(SDict(m, s.kids[k := child]))
  {
    assert forall j :: j in s.kids ==> Holds(s.kids[j]) && m !in Nodes(s.kids[j]);
    m.entries := m.entries[k := v];
    assert forall j :: j in s.kids ==> Holds(s.kids[j]);
  }

  method SubstituteMap(m: GoMap, maxDepth: int, resolve: Resolver, ghost s: Snap)
    returns (r: Any, ghost t: Snap, ghost made: set<GoMap>)
    requires maxDepth > 0
    requires s.SDict? && Holds(s) && Apart(s) && m == s.m
    ensures r == Root(t) && Holds(t) && Copy(s, t, maxDepth, resolve)
    ensures fresh(made) && MadeFrom(s, t, maxDepth, made)
    decreases maxDepth, 0
  {
    hide *;
    NodesAllocated(s);
    var out := new GoMap();
    var todo := m.entries.Keys;
    t := SDict(out, map[]);
    made := {};
    ghost var d := maxDepth - 1;
    HoldsKids(s);
    NoKidsMade(s, out, d, resolve);
    while todo != {}
      invariant t.SDict? && t.m == out && t.kids.Keys + todo == s.kids.Keys && t.kids.Keys !! todo
      invariant Holds(s) && fresh(out) && fresh(made) && out !in made
      invariant Holds(t) && KidsMade(s, t, d, resolve, made)
    {
      var k :| k in todo;
      HoldsKids(s);
      KidsApart(s, t, d, resolve, made);
      var item, copy, new' := SubstituteVars(m.entries[k], maxDepth - 1, resolve, s.kids[k]);
      OneMoreKid(s, t, d, resolve, made, k, copy, new');
      Store(out, k, item, t, copy);
      t := SDict(out, t.kids[k := copy]);
      made := made + new';
      todo := todo - {k};
    }
    assert t.kids.Keys == s.kids.Keys;
    MapCopy(s, t, maxDepth, resolve, made);
    r := Dict(out);
    made := made + {out};
  }

  ghost predicate ElemsMade(s: Snap, t: Snap, depth: int, resolve: Resolver, made: set<GoMap>) {
    && s.SList? && t.SList? && |t.elems| <= |s.elems|
    && (forall i :: 0 <= i < |t.elems| ==>
          Copy(s.elems[i], t.elems[i], depth, resolve) && Nodes(t.elems[i]) <= DeepNodes(s.elems[i], depth) + made)
    && (forall i, j :: 0 <= i < j < |t.elems| ==> Nodes(t.elems[i]) !! Nodes(t.elems[j]))
  }

  lemma ElemNodes(s: Snap)
    requires s.SList? && Apart(s)
    ensures forall i :: 0 <= i < |s.elems| ==> Nodes(s.elems[i]) <= Nodes(s)
    ensures forall i, j :: 0 <= i < j < |s.elems| ==> Nodes(s.elems[i]) !! Nodes(s.elems[j])
  {
  }

  lemma OneMoreElem(s: Snap, t: Snap, depth: int, resolve: Resolver, made: set<GoMap>, c: Snap, new': set<GoMap>)
    requires ElemsMade(s, t, depth, resolve, made) && Apart(s) && |t.elems| < |s.elems|
    requires made !! Nodes(s) && new' !! made + Nodes(s)
    requires Copy(s.elems[|t.elems|], c, depth, resolve) && MadeFrom(s.elems[|t.elems|], c, depth, new')
    ensures ElemsMade(s, SList(t.elems + [c]), depth, resolve, made + new')
  {
    hide Nodes, DeepNodes, DeepSpine, Spine, Apart, Copy;
    ElemNodes(s);
    var n := |t.elems|;
    MadeFromWithin(s.elems[n], c, depth, new');
    forall j | 0 <= j < n ensures Nodes(t.elems[j]) !! Nodes(c) {
      DeepNodesWithin(s.elems[j], depth);
      SetsApart(Nodes(t.elems[j]), Nodes(c), Nodes(s.elems[j]), Nodes(s.elems[n]), made, new');
    }
    var u, all := t.elems + [c], made + new';
    forall i | 0 <= i < |u|
      ensures Copy(s.elems[i], u[i], depth, resolve) && Nodes(u[i]) <= DeepNodes(s.elems[i], depth) + all
    {
      assert u[i] == if i < n then t.elems[i] else c;
    }
    forall i, j | 0 <= i < j < |u| ensures Nodes(u[i]) !! Nodes(u[j]) {
      assert u[i] == t.elems[i] && u[j] == if j < n then t.elems[j] else c;
    }
  }

  lemma HoldsElems(s: Snap, items: seq<Any>)
    requires s.SList? && Holds(s) && Apart(s) && List(items) == Root(s)
    ensures |items| == |s.elems|
    ensures forall i :: 0 <= i < |items| ==> items[i] == Root(s.elems[i]) && Holds(s.elems[i]) && Apart(s.elems[i])
  {
  }

  lemma AddElem(t: Snap, c: Snap)
    requires t.SList? && Holds(t) && Holds(c)
    ensures Holds(SList(t.elems + [c])) && Root(SList(t.elems + [c])) == List(Root(t).items + [Root(c)])
  {
    assert Root(SList(t.elems + [c])).items == Root(t).items + [Root(c)];
  }

  lemma NoElems(s: Snap, depth: int, resolve: Resolver)
    requires s.SList?
    ensures Holds(SList([])) && ElemsMade(s, SList([]), depth, resolve, {}) && Root(SList([])) == List([])
  {
    assert Root(SList([])).items == [];
  }

  lemma ElemsWithin(s: Snap, t: Snap, depth: int, resolve: Resolver, made: set<GoMap>)
    requires ElemsMade(s, t, depth, resolve, made)
    ensures Nodes(t) <= Nodes(s) + made && Spine(t) == {}
  {
    forall i | 0 <= i < |t.elems| ensures Nodes(t.elems[i]) <= Nodes(s) + made {
      DeepNodesWithin(s.elems[i], depth);
      assert Nodes(s.elems[i]) <= Nodes(s);
    }
  }

  lemma NodesOfElems(s: Snap, t: Snap, depth: int, resolve: Resolver, made: set<GoMap>)
    requires depth > 0 && ElemsMade(s, t, depth - 1, resolve, made)
    ensures Nodes(t) <= DeepNodes(s, depth) + made
  {
    forall i | 0 <= i < |t.elems| ensures Nodes(t.elems[i]) <= DeepNodes(s, depth) + made {
      assert DeepNodes(s.elems[i], depth - 1) <= DeepNodes(s, depth);
    }
  }

  lemma ListCopy(s: Snap, t: Snap, maxDepth: int, resolve: Resolver, made: set<GoMap>)
    requires maxDepth > 0 && ElemsMade(s, t, maxDepth - 1, resolve, made) && |t.elems| == |s.elems|
    ensures Copy(s, t, maxDepth, resolve) && MadeFrom(s, t, maxDepth, made)
  {
    hide Nodes, DeepNodes, Val, Subst;
    ElemsWithin(s, t, maxDepth - 1, resolve, made);
    NodesOfElems(s, t, maxDepth, resolve, made);
    ValOfElems(s, t, maxDepth, resolve, made);
    ElemsApart(s, t, maxDepth - 1, resolve, made);
  }

  lemma ElemsApart(s: Snap, t: Snap, depth: int, resolve: Resolver, made: set<GoMap>)
    requires ElemsMade(s, t, depth, resolve, made)
    ensures Apart(t)
  {
    hide Nodes, DeepNodes, Val, Subst;
  }

  lemma ValOfElems(s: Snap, t: Snap, depth: int, resolve: Resolver, made: set<GoMap>)
    requires depth > 0 && ElemsMade(s, t, depth - 1, resolve, made) && |t.elems| == |s.elems|
    ensures Val(t) == Subst(Val(s), depth, resolve)
  {
    hide Nodes, DeepNodes, Apart, Shadows;
    var a, b := Val(t).items, Subst(Val(s), depth, resolve).items;
    forall i | 0 <= i < |a| ensures a[i] == b[i] {
      SubstItem(Val(s), i, depth, resolve);
      assert Copy(s.elems[i], t.elems[i], depth - 1, resolve);
    }
    assert a == b;
  }

  method SubstituteList(items: seq<Any>, maxDepth: int, resolve: Resolver, ghost s: Snap)
    returns (r: Any, ghost t: Snap, ghost made: set<GoMap>)
    requires maxDepth > 0
    requires s.SList? && Holds(s) && Apart(s) && List(items) == Root(s)
    ensures r == Root(t) && Holds(t) && Copy(s, t, maxDepth, resolve)
    ensures fresh(made) && MadeFrom(s, t, maxDepth, made)
    decreases maxDepth, 0
  {
    hide *;
    NodesAllocated(s);
    HoldsElems(s, items);
    var out: seq<Any> := [];
    t := SList([]);
    ghost var d := maxDepth - 1;
    made := {};
    NoElems(s, d, resolve);
    for i := 0 to |items|
      invariant Holds(s) && fresh(made)
      invariant t.SList? && |t.elems| == i && Root(t) == List(out)
      invariant Holds(t) && ElemsMade(s, t, d, resolve, made)
    {
      HoldsElems(s, items);
      ElemsWithin(s, t, d, resolve, made);
      ghost var elem := s.elems[i];
      var item, copy, new' := SubstituteVars(items[i], maxDepth - 1, resolve, elem);
      OneMoreElem(s, t, d, resolve, made, copy, new');
      AddElem(t, copy);
      out := out + [item];
      t := SList(t.elems + [copy]);
      made := made + new';
    }
    r := List(out);
    ListCopy(s, t, maxDepth, resolve, made);
  }
}
