/** Where the references of a schema lead, told from the text of `$ref` alone. */
module SchemaRefs {
  import opened Text
  import opened Schema

  /** The reference names the schema `leaf`: it ends in a slash and that name, or is the name. */
  ghost predicate PointsTo(n: Schema, leaf: string) {
    n.ref != "" && '/' !in leaf && (n.ref == leaf || exists p :: n.ref == p + "/" + leaf)
  }

  /** From `n` the references lead over the named schemas to `m`. */
  ghost predicate Follows(schemas: Schemas, n: Schema, names: seq<string>, m: Schema)
    decreases names
  {
    if names == [] then m == n
    else PointsTo(n, names[0]) && names[0] in schemas && Follows(schemas, schemas[names[0]], names[1..], m)
  }

  /** The references end at `m`: it has none, or one to a name that is not defined. */
  ghost predicate Stops(schemas: Schemas, m: Schema) {
    m.ref == "" || exists leaf :: PointsTo(m, leaf) && leaf !in schemas
  }

  /** What stands behind the last slash of a reference. */
  lemma RefLeafIs(p: string, leaf: string)
    requires '/' !in leaf
    ensures RefLeaf(p + "/" + leaf) == leaf && RefLeaf(leaf) == leaf
  {
    LastIndexOfBefore(p, '/', leaf);
    assert p + ['/'] + leaf == p + "/" + leaf;
  }

  /** A reference points to one name. */
  lemma PointsToLeaf(n: Schema, leaf: string)
    requires n.ref != ""
    ensures PointsTo(n, leaf) <==> RefLeaf(n.ref) == leaf
  {
    if PointsTo(n, leaf) {
      hide RefLeaf;
      if n.ref == leaf {
        RefLeafIs("", leaf);
      } else {
        var p :| n.ref == p + "/" + leaf;
        RefLeafIs(p, leaf);
      }
    } else if RefLeaf(n.ref) == leaf {
      LeafSplits(n.ref);
    }
  }

  lemma LeafSplits(ref: string)
    ensures '/' !in RefLeaf(ref) && (ref == RefLeaf(ref) || exists p :: ref == p + "/" + RefLeaf(ref))
  {
    hide LastIndexOf;
    if '/' in ref {
      var i := LastIndexOf(ref, '/').value;
      assert ref == ref[..i] + "/" + ref[i + 1..];
    }
  }

  /** There is one way to where the references stop. */
  lemma {:induction false} OneWay(schemas: Schemas, n: Schema, a: seq<string>, m: Schema, b: seq<string>, k: Schema)
    requires Follows(schemas, n, a, m) && Stops(schemas, m) && Follows(schemas, n, b, k) && Stops(schemas, k)
    ensures a == b && m == k
    decreases a
  {
    if n.ref != "" {
      var leaf := RefLeaf(n.ref);
      forall x ensures PointsTo(n, x) <==> x == leaf {
        PointsToLeaf(n, x);
      }
      if a != [] && b != [] {
        OneWay(schemas, schemas[leaf], a[1..], m, b[1..], k);
        assert a == [a[0]] + a[1..] && b == [b[0]] + b[1..];
      }
    }
  }

  lemma {:induction false} FollowsOn(schemas: Schemas, n: Schema, names: seq<string>, m: Schema, i: nat)
    requires Follows(schemas, n, names, m) && i < |names|
    ensures names[i] in schemas && Follows(schemas, schemas[names[i]], names[i + 1..], m)
    decreases names
  {
    if i > 0 {
      FollowsOn(schemas, schemas[names[0]], names[1..], m, i - 1);
      assert names[1..][i..] == names[i + 1..];
    }
  }

  lemma NoRepeat(schemas: Schemas, n: Schema, names: seq<string>, m: Schema, i: nat, j: nat)
    requires Follows(schemas, n, names, m) && Stops(schemas, m) && i < j < |names|
    ensures names[i] != names[j]
  {
    FollowsOn(schemas, n, names, m, i);
    FollowsOn(schemas, n, names, m, j);
    assert |names[i + 1..]| != |names[j + 1..]|;
    if names[i] == names[j] {
      OneWay(schemas, schemas[names[i]], names[i + 1..], m, names[j + 1..], m);
    }
  }

  lemma {:induction false} FromAlong(schemas: Schemas, n: Schema, names: seq<string>, m: Schema, seen: set<string>)
    requires Follows(schemas, n, names, m) && Stops(schemas, m)
    requires forall i :: 0 <= i < |names| ==> names[i] !in seen
    requires forall x :: x in seen ==> x in schemas
    ensures ResolveFrom(schemas, n, seen) == if m.ref == "" then Some(m) else None
    decreases names
  {
    if n.ref != "" {
      var leaf := RefLeaf(n.ref);
      forall x ensures PointsTo(n, x) <==> x == leaf {
        PointsToLeaf(n, x);
      }
      if names != [] {
        forall i | 0 < i < |names| ensures names[i] != leaf {
          NoRepeat(schemas, n, names, m, 0, i);
        }
        FromAlong(schemas, schemas[leaf], names[1..], m, seen + {leaf});
      }
    }
  }

  /** Where the references stop at a schema, it is the result; where they stop at an undefined name, there is none. */
  lemma ResolvesAlong(schemas: Schemas, n: Schema, names: seq<string>, m: Schema)
    requires Follows(schemas, n, names, m) && Stops(schemas, m)
    ensures Resolve(schemas, n) == if m.ref == "" then Some(m) else None
  {
    FromAlong(schemas, n, names, m, {});
  }

  lemma {:induction false} WayOf(schemas: Schemas, n: Schema, seen: set<string>) returns (names: seq<string>, m: Schema)
    ensures Follows(schemas, n, names, m)
    ensures ResolveFrom(schemas, n, seen).None? ==> m.ref != "" && Stops(schemas, m)
    ensures ResolveFrom(schemas, n, seen).Some? ==> ResolveFrom(schemas, n, seen).value == m
    ensures ResolveFrom(schemas, n, seen).Some? && m.ref != "" ==>
              exists leaf :: PointsTo(m, leaf) && (leaf in seen || leaf in names)
    decreases schemas.Keys - seen
  {
    names, m := [], n;
    if n.ref != "" {
      var leaf := RefLeaf(n.ref);
      PointsToLeaf(n, leaf);
      if leaf !in seen && leaf in schemas {
        var rest;
        rest, m := WayOf(schemas, schemas[leaf], seen + {leaf});
        names := [leaf] + rest;
        assert names[1..] == rest;
        if ResolveFrom(schemas, n, seen).Some? && m.ref != "" {
          var x :| PointsTo(m, x) && (x in seen + {leaf} || x in rest);
          assert x in seen || x in names;
        }
      }
    }
  }

  /** The references lead to `m`, whose own reference names nothing that is defined. */
  ghost predicate Dangles(schemas: Schemas, n: Schema, names: seq<string>, m: Schema) {
    Follows(schemas, n, names, m) && m.ref != "" && Stops(schemas, m)
  }

  /** There is no result exactly when the references lead to a name that is not defined. */
  lemma DanglingExactly(schemas: Schemas, n: Schema)
    ensures Resolve(schemas, n).None?
       <==> exists names, m :: Dangles(schemas, n, names, m)
  {
    if Resolve(schemas, n).None? {
      var names, m := WayOf(schemas, n, {});
      assert Dangles(schemas, n, names, m);
    } else {
      forall names, m | Follows(schemas, n, names, m) && Stops(schemas, m) ensures m.ref == "" {
        ResolvesAlong(schemas, n, names, m);
      }
    }
  }

  /**
   * The result is a schema that the references lead to: the one without a reference, or on a cycle the one whose
   * reference leads back to a name already followed.
   */
  lemma ResultIsReached(schemas: Schemas, n: Schema) returns (names: seq<string>)
    requires Resolve(schemas, n).Some?
    ensures var m := Resolve(schemas, n).value;
            && Follows(schemas, n, names, m)
            && (m.ref == "" || exists leaf :: PointsTo(m, leaf) && leaf in names)
  {
    var m;
    names, m := WayOf(schemas, n, {});
  }

  /** A reference to a defined schema without one of its own resolves to that schema. */
  lemma ReferenceResolves(schemas: Schemas, n: Schema, p: string, leaf: string)
    requires n.ref == p + "/" + leaf && '/' !in leaf && leaf in schemas && schemas[leaf].ref == ""
    ensures Resolve(schemas, n) == Some(schemas[leaf])
  {
    assert PointsTo(n, leaf);
    assert Follows(schemas, schemas[leaf], [leaf][1..], schemas[leaf]);
    ResolvesAlong(schemas, n, [leaf], schemas[leaf]);
  }
}
