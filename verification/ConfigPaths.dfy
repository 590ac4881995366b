/** setNestedKey and hasNestedKey on the heap. */
module ConfigPaths {
  import opened Text
  import opened ConfigTree
  import opened ConfigHeap
  import M = ConfigMerge

  // Paths through the picture.

  /** The map at the end of a chain of keys. */
  ghost function Sub(t: Snap, p: Path): (r: Option<Snap>)
    ensures r.Some? ==> r.value.SDict?
    decreases p
  {
    if !t.SDict? then None
    else if p == [] then Some(t)
    else if p[0] in t.kids then Sub(t.kids[p[0]], p[1..])
    else None
  }

  /** The picture with that map drawn anew. */
  ghost function Put(t: Snap, p: Path, c: Snap): (r: Snap)
    requires Sub(t, p).Some? && c.SDict?
    ensures r.SDict?
    decreases p
  {
    if p == [] then c else SDict(t.m, t.kids[p[0] := Put(t.kids[p[0]], p[1..], c)])
  }

  lemma {:induction false} SubWithin(t: Snap, p: Path)
    requires Sub(t, p).Some? && Apart(t)
    ensures var c := Sub(t, p).value;
            c.SDict? && c.m in Spine(t) && Nodes(c) <= Nodes(t) && Spine(c) <= Spine(t) && Apart(c)
    decreases p
  {
    SpineNodes(t);
    if p != [] {
      SubWithin(t.kids[p[0]], p[1..]);
      assert Nodes(t.kids[p[0]]) <= Nodes(t) && Spine(t.kids[p[0]]) <= Spine(t);
    }
  }

  /** The picture holds, but for the entries of the map at `p`. */
  ghost predicate HoldsAround(t: Snap, p: Path)
    requires Apart(t) && Sub(t, p).Some?
    reads Nodes(t) - {Sub(t, p).value.m}
    decreases p
  {
    p == [] ||
    (SubWithin(t.kids[p[0]], p[1..]); SpineNodes(t.kids[p[0]]);
     && t.m.entries.Keys == t.kids.Keys
     && (forall k :: k in t.kids ==>
           && t.m.entries[k] == Root(t.kids[k])
           && (if k == p[0] then HoldsAround(t.kids[k], p[1..]) else Holds(t.kids[k]))))
  }

  lemma {:induction false} HoldsToAround(t: Snap, p: Path)
    requires Apart(t) && Sub(t, p).Some? && Holds(t)
    ensures HoldsAround(t, p) && Holds(Sub(t, p).value)
    decreases p
  {
    if p != [] {
      HoldsToAround(t.kids[p[0]], p[1..]);
    }
  }

  lemma {:induction false} AroundToHolds(t: Snap, p: Path, c: Snap)
    requires Apart(t) && Sub(t, p).Some? && HoldsAround(t, p)
    requires c.SDict? && c.m == Sub(t, p).value.m && Holds(c)
    ensures Holds(Put(t, p, c)) && Put(t, p, c).m == t.m
    decreases p
  {
    if p != [] {
      AroundToHolds(t.kids[p[0]], p[1..], c);
      assert Root(Put(t.kids[p[0]], p[1..], c)) == Root(t.kids[p[0]]);
    }
  }

  lemma {:induction false} PutApart(t: Snap, p: Path, c: Snap, new': set<GoMap>)
    requires Apart(t) && Sub(t, p).Some? && c.SDict? && Apart(c)
    requires Nodes(c) <= Nodes(Sub(t, p).value) + new' && Spine(c) <= Spine(Sub(t, p).value) + new'
    requires new' !! Nodes(t)
    ensures Apart(Put(t, p, c)) && Nodes(Put(t, p, c)) <= Nodes(t) + new' && Spine(Put(t, p, c)) <= Spine(t) + new'
    decreases p
  {
    if p != [] {
      var k := p[0];
      var kid := Put(t.kids[k], p[1..], c);
      KidNodes(t);
      PutApart(t.kids[k], p[1..], c, new');
      forall j | j in t.kids && j != k ensures Nodes(t.kids[j]) !! Nodes(kid) {
        SetsApart(Nodes(t.kids[j]), Nodes(kid), Nodes(t.kids[j]), Nodes(t.kids[k]), {}, new');
      }
    }
  }

  lemma {:induction false} PutSub(t: Snap, p: Path, c: Snap, k: string)
    requires Sub(t, p).Some? && c.SDict?
    ensures Sub(Put(t, p, c), p) == Some(c)
    ensures k in c.kids && c.kids[k].SDict? ==> Sub(Put(t, p, c), p + [k]) == Some(c.kids[k])
    decreases p
  {
    if p != [] {
      PutSub(t.kids[p[0]], p[1..], c, k);
      assert (p + [k])[1..] == p[1..] + [k];
    } else {
      assert ([] + [k])[1..] == [];
    }
  }

  lemma ValPutKid(t: Snap, k: string, x: Snap)
    requires t.SDict?
    ensures Val(SDict(t.m, t.kids[k := x])).entries == Val(t).entries[k := Val(x)]
  {
  }

  /** Lookups below `p` see only the map at `p`. */
  lemma {:induction false} SubAt(t: Snap, p: Path, r: Path)
    requires Sub(t, p).Some? && r != []
    ensures At(Val(t).entries, p + r) == At(Val(Sub(t, p).value).entries, r)
    decreases p
  {
    if p == [] {
      assert p + r == r;
    } else {
      SubAt(t.kids[p[0]], p[1..], r);
      assert (p + r)[1..] == p[1..] + r;
    }
  }

  /** Setting a key below `p` amounts to setting it in the map at `p`. */
  lemma {:induction false} PutSet(t: Snap, p: Path, c: Snap, r: Path, v: Value)
    requires Sub(t, p).Some? && c.SDict? && r != []
    ensures var c0 := Sub(t, p).value;
            && (M.SetNestedKey(Val(c).entries, r, v) == M.SetNestedKey(Val(c0).entries, r, v) ==>
                  M.SetNestedKey(Val(Put(t, p, c)).entries, p + r, v) == M.SetNestedKey(Val(t).entries, p + r, v))
            && (Val(c) == Obj(M.SetNestedKey(Val(c0).entries, r, v)) ==>
                  Val(Put(t, p, c)) == Obj(M.SetNestedKey(Val(t).entries, p + r, v)))
    decreases p
  {
    hide Val, M.SetNestedKey;
    if p == [] {
      assert p + r == r;
    } else {
      PutSet(t.kids[p[0]], p[1..], c, r, v);
      PutKidSet(t, p[0], Put(t.kids[p[0]], p[1..], c), p[1..] + r, v);
      assert p + r == [p[0]] + (p[1..] + r);
    }
  }

  lemma PutKidSet(t: Snap, k: string, x: Snap, r: Path, v: Value)
    requires t.SDict? && k in t.kids && t.kids[k].SDict? && x.SDict? && r != []
    ensures var u := SDict(t.m, t.kids[k := x]);
            && (M.SetNestedKey(Val(x).entries, r, v) == M.SetNestedKey(Val(t.kids[k]).entries, r, v) ==>
                  M.SetNestedKey(Val(u).entries, [k] + r, v) == M.SetNestedKey(Val(t).entries, [k] + r, v))
            && (Val(x) == Obj(M.SetNestedKey(Val(t.kids[k]).entries, r, v)) ==>
                  Val(u) == Obj(M.SetNestedKey(Val(t).entries, [k] + r, v)))
  {
    hide Val, M.SetNestedKey;
    var u := SDict(t.m, t.kids[k := x]);
    ValPutKid(t, k, x);
    SetBehind(t, k, r, v);
    SetBehind(u, k, r, v);
  }

  /** Setting behind a key that holds a map. */
  lemma SetBehind(t: Snap, k: string, r: Path, v: Value)
    requires t.SDict? && k in t.kids && t.kids[k].SDict? && r != []
    ensures Val(t) == Obj(Val(t).entries)
    ensures M.SetNestedKey(Val(t).entries, [k] + r, v)
            == Val(t).entries[k := Obj(M.SetNestedKey(Val(t.kids[k]).entries, r, v))]
  {
    assert ([k] + r)[1..] == r;
  }

  /** `t` has every map of `s` where `s` has it, with possibly more entries, made of maps in `made`. */
  ghost predicate Grows(s: Snap, t: Snap, made: set<GoMap>)
    decreases s
  {
    s.SDict? ==>
      && t.SDict? && t.m == s.m && Nodes(t) <= Nodes(s) + made
      && forall k :: k in s.kids ==> k in t.kids && Grows(s.kids[k], t.kids[k], made)
  }

  lemma {:induction false} GrowsSelf(s: Snap, made: set<GoMap>)
    ensures Grows(s, s, made)
    decreases s
  {
    if s.SDict? {
      forall k | k in s.kids ensures Grows(s.kids[k], s.kids[k], made) {
        GrowsSelf(s.kids[k], made);
      }
    }
  }

  lemma {:induction false} GrowsTrans(s: Snap, t: Snap, u: Snap, made: set<GoMap>, more: set<GoMap>)
    requires Grows(s, t, made) && Grows(t, u, more)
    ensures Grows(s, u, made + more)
    decreases s
  {
    if s.SDict? {
      forall k | k in s.kids ensures Grows(s.kids[k], u.kids[k], made + more) {
        GrowsTrans(s.kids[k], t.kids[k], u.kids[k], made, more);
      }
    }
  }

  lemma {:induction false} PutGrows(t: Snap, p: Path, c: Snap, made: set<GoMap>)
    requires Sub(t, p).Some? && c.SDict? && Grows(Sub(t, p).value, c, made)
    ensures Grows(t, Put(t, p, c), made)
    decreases p
  {
    if p != [] {
      var u := Put(t, p, c);
      PutGrows(t.kids[p[0]], p[1..], c, made);
      forall k | k in t.kids ensures Grows(t.kids[k], u.kids[k], made) {
        GrowsSelf(t.kids[k], made);
      }
      forall k | k in u.kids ensures Nodes(u.kids[k]) <= Nodes(t) + made {
        assert Nodes(t.kids[k]) <= Nodes(t);
      }
    }
  }

  lemma {:induction false} ShadowsGrow(s: Snap, t: Snap, u: Snap, depth: int, made: set<GoMap>, more: set<GoMap>)
    requires Shadows(s, t, depth, made) && Grows(t, u, more)
    ensures Shadows(s, u, depth, made + more)
    decreases s
  {
    if s.SDict? && depth > 0 {
      var d := depth - 1;
      forall k | k in s.kids ensures Shadows(s.kids[k], u.kids[k], d, made + more) {
        ShadowsGrow(s.kids[k], t.kids[k], u.kids[k], d, made, more);
      }
    }
  }

  lemma NewChildApart(c: Snap, k: string, child: Snap)
    requires c.SDict? && Apart(c) && Apart(child) && Nodes(child) !! Nodes(c)
    ensures Apart(SDict(c.m, c.kids[k := child]))
    ensures Nodes(SDict(c.m, c.kids[k := child])) <= Nodes(c) + Nodes(child)
    ensures Spine(SDict(c.m, c.kids[k := child])) <= Spine(c) + Nodes(child)
  {
    KidNodes(c);
    SpineNodes(child);
    var u := SDict(c.m, c.kids[k := child]);
    forall j | j in u.kids
      ensures Nodes(u.kids[j]) <= Nodes(c) + Nodes(child) && Spine(u.kids[j]) <= Spine(c) + Nodes(child)
    {
      if j != k {
        assert Spine(c.kids[j]) <= Spine(c);
      }
    }
  }

  /** Storing an entry in the map at `p` of a picture. */
  method StoreAt(m: GoMap, k: string, v: Any, ghost t: Snap, ghost p: Path, ghost child: Snap)
    returns (ghost u: Snap)
    requires Holds(t) && Apart(t) && Sub(t, p).Some? && Sub(t, p).value.m == m
    requires v == Root(child) && Holds(child) && Apart(child) && Nodes(child) !! Nodes(t)
    modifies m
    ensures u == Put(t, p, SDict(m, Sub(t, p).value.kids[k := child])) && u.m == t.m
    ensures Holds(u) && Apart(u) && Nodes(u) <= Nodes(t) + Nodes(child) && Spine(u) <= Spine(t) + Nodes(child)
  {
    hide *;
    ghost var c := Sub(t, p).value;
    NodesAllocated(t);
    SubWithin(t, p);
    SpineNodes(t);
    HoldsToAround(t, p);
    NewChildApart(c, k, child);
    PutApart(t, p, SDict(m, c.kids[k := child]), Nodes(child));
    Store(m, k, v, c, child);
    u := Put(t, p, SDict(m, c.kids[k := child]));
    AroundToHolds(t, p, SDict(m, c.kids[k := child]));
  }

  /** What setNestedKey has made of a picture. */
  ghost predicate Updated(s: Snap, t: Snap, made: set<GoMap>) {
    && Apart(t) && Nodes(t) <= Nodes(s) + made && Spine(t) <= Spine(s) + made
  }

  lemma MissingMap(c: Snap, k: string, rest: Path, next: GoMap, v: Value)
    requires c.SDict? && rest != [] && next !in Nodes(c) && (k in c.kids ==> !c.kids[k].SDict?)
    ensures var e := SDict(c.m, c.kids[k := SDict(next, map[])]);
            && Grows(c, e, {next})
            && M.SetNestedKey(Val(e).entries, [k] + rest, v) == M.SetNestedKey(Val(c).entries, [k] + rest, v)
            && At(Val(e).entries, [k] + rest) == At(Val(c).entries, [k] + rest) == Missing
  {
    var e := SDict(c.m, c.kids[k := SDict(next, map[])]);
    hide Grows, Nodes, M.SetNestedKey, At;
    MissingMapGrows(c, k, next);
    ValPutKid(c, k, SDict(next, map[]));
    assert Val(SDict(next, map[])).entries == map[];
    MissingEntry(Val(c).entries, k, rest, v);
  }

  lemma MissingEntry(t: Tree, k: string, rest: Path, v: Value)
    requires rest != [] && (k in t ==> !t[k].Obj?)
    ensures var u := t[k := Obj(map[])];
            && M.SetNestedKey(u, [k] + rest, v) == M.SetNestedKey(t, [k] + rest, v)
            && At(u, [k] + rest) == At(t, [k] + rest) == Missing
  {
    assert ([k] + rest)[1..] == rest;
    assert t[k := Obj(map[])][k := Obj(M.SetNestedKey(map[], rest, v))] == t[k := Obj(M.SetNestedKey(map[], rest, v))];
  }

  lemma MissingMapGrows(c: Snap, k: string, next: GoMap)
    requires c.SDict? && (k in c.kids ==> !c.kids[k].SDict?)
    ensures Grows(c, SDict(c.m, c.kids[k := SDict(next, map[])]), {next})
  {
    var e := SDict(c.m, c.kids[k := SDict(next, map[])]);
    forall j | j in c.kids ensures Grows(c.kids[j], e.kids[j], {next}) {
      GrowsSelf(c.kids[j], {next});
    }
  }

  /** The tree of entries a map stands for. */
  ghost function Entries(s: Snap): Tree
    requires s.SDict?
  {
    Val(s).entries
  }

  /** Making a map for key `k` of the map at `p`, where something else or nothing stood. */
  lemma StepDown(t: Snap, p: Path, k: string, rest: Path, next: GoMap, v: Value)
    requires Apart(t) && Sub(t, p).Some? && rest != [] && next !in Nodes(t)
    requires k in Sub(t, p).value.kids ==> !Sub(t, p).value.kids[k].SDict?
    ensures var c := Sub(t, p).value;
            var u := Put(t, p, SDict(c.m, c.kids[k := SDict(next, map[])]));
            && Grows(t, u, {next})
            && Sub(u, p + [k]) == Some(SDict(next, map[]))
            && M.SetNestedKey(Entries(u), p + ([k] + rest), v) == M.SetNestedKey(Entries(t), p + ([k] + rest), v)
            && At(Entries(u), p + ([k] + rest)) == At(Entries(t), p + ([k] + rest))
  {
    var c := Sub(t, p).value;
    var e := SDict(c.m, c.kids[k := SDict(next, map[])]);
    var r := [k] + rest;
    assert Nodes(c) <= Nodes(t) by { SubWithin(t, p); }
    hide Sub, Put, Grows, Nodes, Apart, M.SetNestedKey, At;
    MissingMap(c, k, rest, next, v);
    PutGrows(t, p, e, {next});
    PutSub(t, p, e, k);
    PutSet(t, p, e, r, v);
    SubAt(t, p, r);
    SubAt(Put(t, p, e), p, r);
  }

  /** The keys to a map the picture has, and one more. */
  lemma SubKid(t: Snap, p: Path, k: string)
    requires Sub(t, p).Some?
    ensures var c := Sub(t, p).value;
            k in c.kids && c.kids[k].SDict? ==> Sub(t, p + [k]) == Some(c.kids[k])
    decreases p
  {
    if p == [] {
      assert ([] + [k])[1..] == [];
    } else {
      SubKid(t.kids[p[0]], p[1..], k);
      assert (p + [k])[1..] == p[1..] + [k];
    }
  }

  /** The loop of setNestedKey has gone down the first `i` keys, making maps where there were none. */
  ghost predicate Descended(s: Snap, t: Snap, made: set<GoMap>, keys: Path, i: nat, v: Value, current: GoMap)
    requires s.SDict? && i < |keys|
  {
    && t.SDict? && t.m == s.m && Updated(s, t, made) && Grows(s, t, made)
    && Sub(t, keys[..i]).Some? && Sub(t, keys[..i]).value.m == current
    && M.SetNestedKey(Entries(t), keys, v) == M.SetNestedKey(Entries(s), keys, v)
    && At(Entries(t), keys) == At(Entries(s), keys)
  }

  lemma DescendedStart(s: Snap, keys: Path, v: Value)
    requires s.SDict? && Apart(s) && keys != []
    ensures Descended(s, s, {}, keys, 0, v, s.m)
  {
    GrowsSelf(s, {});
    assert keys[..0] == [];
  }

  /** The facts the loop body uses about the map it is at. */
  lemma DescendedHere(s: Snap, t: Snap, made: set<GoMap>, keys: Path, i: nat, v: Value, current: GoMap)
    requires s.SDict? && i < |keys| && Descended(s, t, made, keys, i, v, current) && Holds(t)
    ensures var c := Sub(t, keys[..i]).value;
            && Sub(t, keys[..i]).Some? && c.m == current && t.SDict? && t.m == s.m
            && Apart(t) && Nodes(t) <= Nodes(s) + made
            && current in Spine(s) + made
            && current.entries.Keys == c.kids.Keys
            && forall k :: k in c.kids ==>
                 && (current.entries[k].Dict? <==> c.kids[k].SDict?)
                 && (c.kids[k].SDict? ==> current.entries[k].m == c.kids[k].m)
  {
    SubWithin(t, keys[..i]);
    HoldsToAround(t, keys[..i]);
  }

  lemma DescendedUpdated(s: Snap, t: Snap, made: set<GoMap>, keys: Path, i: nat, v: Value, current: GoMap)
    requires s.SDict? && i < |keys| && Descended(s, t, made, keys, i, v, current)
    ensures Updated(s, t, made)
  {
  }

  lemma DescendedKeep(s: Snap, t: Snap, made: set<GoMap>, keys: Path, i: nat, v: Value, current: GoMap)
    requires s.SDict? && i + 1 < |keys| && Descended(s, t, made, keys, i, v, current)
    requires var c := Sub(t, keys[..i]).value; keys[i] in c.kids && c.kids[keys[i]].SDict?
    ensures Descended(s, t, made, keys, i + 1, v, Sub(t, keys[..i]).value.kids[keys[i]].m)
  {
    SubKid(t, keys[..i], keys[i]);
    assert keys[..i + 1] == keys[..i] + [keys[i]];
  }

  lemma DescendedNew(s: Snap, t: Snap, made: set<GoMap>, keys: Path, i: nat, v: Value, current: GoMap, next: GoMap)
    requires s.SDict? && i + 1 < |keys| && Descended(s, t, made, keys, i, v, current)
    requires var c := Sub(t, keys[..i]).value; keys[i] in c.kids ==> !c.kids[keys[i]].SDict?
    requires next !in Nodes(s) + made
    ensures var c := Sub(t, keys[..i]).value;
            var u := Put(t, keys[..i], SDict(c.m, c.kids[keys[i] := SDict(next, map[])]));
            Updated(t, u, {next}) ==> Descended(s, u, made + {next}, keys, i + 1, v, next)
  {
    hide Sub, Put, Grows, Nodes, Spine, Apart, M.SetNestedKey, At, Entries;
    var p, k, rest := keys[..i], keys[i], keys[i + 1..];
    var c := Sub(t, p).value;
    var u := Put(t, p, SDict(c.m, c.kids[k := SDict(next, map[])]));
    assert keys == p + ([k] + rest) && keys[..i + 1] == p + [k];
    StepDown(t, p, k, rest, next, v);
    GrowsTrans(s, t, u, made, {next});
  }

  /** The last step stores the value. */
  lemma DescendedStore(s: Snap, t: Snap, made: set<GoMap>, keys: Path, v: Value, current: GoMap, a: Atom)
    requires s.SDict? && keys != [] && v == Leaf(a)
    requires Descended(s, t, made, keys, |keys| - 1, v, current)
    ensures var p, k := keys[..|keys| - 1], keys[|keys| - 1];
            var c := Sub(t, p).value;
            var u := Put(t, p, SDict(c.m, c.kids[k := SPlain(a)]));
            && u.SDict? && Entries(u) == M.SetNestedKey(Entries(s), keys, v)
            && (At(Entries(s), keys) == Missing ==> Grows(s, u, made))
  {
    var p, k := keys[..|keys| - 1], keys[|keys| - 1];
    var c := Sub(t, p).value;
    var e := SDict(c.m, c.kids[k := SPlain(a)]);
    assert keys == p + [k];
    ValPutKid(c, k, SPlain(a));
    assert Val(e) == Obj(M.SetNestedKey(Entries(c), [k], v));
    PutSet(t, p, e, [k], v);
    SubAt(t, p, [k]);
    if At(Entries(s), keys) == Missing {
      StoreGrows(s, t, made, p, k, a);
    }
  }

  /** Storing a plain value under a key that is missing grows the picture. */
  lemma StoreGrows(s: Snap, t: Snap, made: set<GoMap>, p: Path, k: string, a: Atom)
    requires Grows(s, t, made) && Sub(t, p).Some? && Sub(t, p).value.SDict? && k !in Sub(t, p).value.kids
    ensures var c := Sub(t, p).value;
            Grows(s, Put(t, p, SDict(c.m, c.kids[k := SPlain(a)])), made)
  {
    var c := Sub(t, p).value;
    var e := SDict(c.m, c.kids[k := SPlain(a)]);
    forall j | j in c.kids ensures Grows(c.kids[j], e.kids[j], {}) {
      GrowsSelf(c.kids[j], {});
    }
    PutGrows(t, p, e, {});
    GrowsTrans(s, t, Put(t, p, e), made, {});
    assert made + {} == made;
  }

  lemma EmptyPicture(next: GoMap, t: Snap)
    requires next.entries == map[] && next !in Nodes(t)
    ensures var e := SDict(next, map[]);
            Root(e) == Dict(next) && Holds(e) && Apart(e) && Nodes(e) == {next} && Nodes(e) !! Nodes(t)
  {
  }

  lemma PlainPicture(a: Atom)
    ensures Root(SPlain(a)) == Plain(a) && Holds(SPlain(a)) && Apart(SPlain(a)) && Nodes(SPlain(a)) == {}
  {
  }

  lemma UpdatedMore(s: Snap, t: Snap, u: Snap, made: set<GoMap>, more: set<GoMap>)
    requires Updated(s, t, made) && Apart(u) && Nodes(u) <= Nodes(t) + more && Spine(u) <= Spine(t) + more
    ensures Updated(s, u, made + more) && Updated(t, u, more)
  {
  }

  /** setNestedKey */
  method SetNestedKey(data: GoMap, keyPath: string, value: string, ghost s: Snap)
    returns (ghost t: Snap, ghost made: set<GoMap>)
    requires s.SDict? && s.m == data && Holds(s) && Apart(s)
    modifies Spine(s)
    ensures Holds(t) && t.SDict? && t.m == data && fresh(made) && Updated(s, t, made)
    ensures Entries(t) == M.SetNestedKey(Entries(s), Split(keyPath, '_'), Leaf(Str(value)))
    ensures At(Entries(s), Split(keyPath, '_')) == Missing ==> Grows(s, t, made)
  {
    var keys := Split(keyPath, '_');
    ghost var v := Leaf(Str(value));
    var current := data;
    t := s;
    made := {};
    hide *;
    DescendedStart(s, keys, v);
    for i := 0 to |keys| - 1
      invariant Holds(t) && fresh(made) && Descended(s, t, made, keys, i, v, current)
    {
      var key := keys[i];
      ghost var p := keys[..i];
      DescendedHere(s, t, made, keys, i, v, current);
      if key in current.entries && current.entries[key].Dict? {
        DescendedKeep(s, t, made, keys, i, v, current);
        current := current.entries[key].m;
      } else {
        NodesAllocated(s);
        var next := new GoMap();
        EmptyPicture(next, t);
        DescendedUpdated(s, t, made, keys, i, v, current);
        DescendedNew(s, t, made, keys, i, v, current, next);
        ghost var u := StoreAt(current, key, Dict(next), t, p, SDict(next, map[]));
        UpdatedMore(s, t, u, made, {next});
        t := u;
        made := made + {next};
        current := next;
      }
    }
    DescendedHere(s, t, made, keys, |keys| - 1, v, current);
    DescendedStore(s, t, made, keys, v, current, Str(value));
    PlainPicture(Str(value));
    ghost var u := StoreAt(current, keys[|keys| - 1], Plain(Str(value)), t, keys[..|keys| - 1], SPlain(Str(value)));
    DescendedUpdated(s, t, made, keys, |keys| - 1, v, current);
    UpdatedMore(s, t, u, made, {});
    assert made + {} == made;
    t := u;
  }
}
