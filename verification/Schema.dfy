/** Flattening a request schema into named fields: which there are, in what order, and which are required. */
module Schema {
  import opened Text

  /** The keywords the generator reads; an absent list is empty. */
  datatype Schema = Schema(
    ref: string,
    allOf: seq<Schema>,
    anyOf: seq<Schema>,
    oneOf: seq<Schema>,
    required: seq<string>,
    properties: seq<Property>)

  datatype Property = Property(name: string, schema: Schema)

  type Schemas = map<string, Schema>

  /** refLeaf */
  function RefLeaf(ref: string): string {
    match LastIndexOf(ref, '/')
    case None => ref
    case Some(i) => ref[i + 1..]
  }

  /** resolveSchema, having followed the references in `seen`; None for a dangling one. */
  function ResolveFrom(schemas: Schemas, n: Schema, seen: set<string>): Option<Schema>
    decreases schemas.Keys - seen
  {
    if n.ref == "" then Some(n)
    else
      var leaf := RefLeaf(n.ref);
      if leaf in seen then Some(n)
      else if leaf !in schemas then None
      else ResolveFrom(schemas, schemas[leaf], seen + {leaf})
  }

  function Resolve(schemas: Schemas, n: Schema): Option<Schema> {
    ResolveFrom(schemas, n, {})
  }

  method ResolveSchema(schemas: Schemas, start: Schema) returns (r: Option<Schema>)
    ensures r == Resolve(schemas, start)
  {
    var seen: set<string> := {};
    var node := Some(start);
    while node.Some?
      invariant node.Some? ==> ResolveFrom(schemas, node.value, seen) == Resolve(schemas, start)
      invariant node.None? ==> Resolve(schemas, start) == None
      decreases node.Some?, schemas.Keys - seen
    {
      if node.value.ref == "" {
        return node;
      }
      var leaf := RefLeaf(node.value.ref);
      if leaf in seen {
        return node;
      }
      seen := seen + {leaf};
      node := if leaf in schemas then Some(schemas[leaf]) else None;
    }
    return None;
  }

  lemma {:induction false} ResolveSmaller(schemas: Schemas, n: Schema, seen: set<string>, fewer: set<string>)
    requires fewer <= seen && ResolveFrom(schemas, n, seen).Some?
    requires var m := ResolveFrom(schemas, n, seen).value; m.ref == "" || RefLeaf(m.ref) in fewer
    ensures ResolveFrom(schemas, n, fewer) == ResolveFrom(schemas, n, seen)
    decreases schemas.Keys - seen
  {
    if n.ref != "" && RefLeaf(n.ref) !in seen {
      ResolveSmaller(schemas, schemas[RefLeaf(n.ref)], seen + {RefLeaf(n.ref)}, fewer + {RefLeaf(n.ref)});
    }
  }

  /** A reference that resolution gave up on lies on a cycle, around which it comes back to itself. */
  lemma {:induction false} ResolveCycle(schemas: Schemas, n: Schema, seen: set<string>)
    requires ResolveFrom(schemas, n, seen).Some? && ResolveFrom(schemas, n, seen).value.ref != ""
    ensures var m := ResolveFrom(schemas, n, seen).value;
            var a := RefLeaf(m.ref);
            a in seen || (a in schemas && ResolveFrom(schemas, schemas[a], {a}) == Some(m))
    decreases schemas.Keys - seen
  {
    var b := RefLeaf(n.ref);
    if b !in seen {
      ResolveCycle(schemas, schemas[b], seen + {b});
      var m := ResolveFrom(schemas, n, seen).value;
      if RefLeaf(m.ref) == b {
        ResolveSmaller(schemas, schemas[b], seen + {b}, {b});
      }
    }
  }

  /** Resolving a resolved schema changes nothing. */
  lemma ResolveTwice(schemas: Schemas, n: Schema)
    ensures Resolve(schemas, n).Some? ==>
              Resolve(schemas, Resolve(schemas, n).value) == Resolve(schemas, n)
  {
    if Resolve(schemas, n).Some? && Resolve(schemas, n).value.ref != "" {
      ResolveCycle(schemas, n, {});
      assert {} + {RefLeaf(Resolve(schemas, n).value.ref)} == {RefLeaf(Resolve(schemas, n).value.ref)};
    }
  }

  /** The combinators below `n` bottom out within `h` levels: what the generator's recursion needs. */
  ghost predicate Grounded(schemas: Schemas, n: Schema, h: nat)
    decreases h, 0
  {
    h > 0 &&
    match Resolve(schemas, n)
    case None => true
    case Some(m) =>
      && AllGrounded(schemas, m.allOf, h - 1)
      && AllGrounded(schemas, m.anyOf, h - 1)
      && AllGrounded(schemas, m.oneOf, h - 1)
  }

  ghost predicate AllGrounded(schemas: Schemas, list: seq<Schema>, h: nat)
    decreases h, 1
  {
    forall i :: 0 <= i < |list| ==> Grounded(schemas, list[i], h)
  }

  /** A dangling reference bottoms out at once, and so does a schema without combinators. */
  lemma GroundedAtOnce(schemas: Schemas, n: Schema)
    ensures Resolve(schemas, n).None? ==> Grounded(schemas, n, 1)
    ensures Resolve(schemas, n).Some? ==>
              var m := Resolve(schemas, n).value;
              m.allOf == m.anyOf == m.oneOf == [] ==> Grounded(schemas, n, 1)
  {
  }

  /** Otherwise it takes one level more than its combinators do. */
  lemma GroundedAbove(schemas: Schemas, n: Schema, h: nat)
    requires Resolve(schemas, n).Some?
    requires var m := Resolve(schemas, n).value;
             forall x :: x in m.allOf || x in m.anyOf || x in m.oneOf ==> Grounded(schemas, x, h)
    ensures Grounded(schemas, n, h + 1)
  {
    hide Resolve;
    var m := Resolve(schemas, n).value;
    forall x | x in m.allOf || x in m.anyOf || x in m.oneOf ensures Grounded(schemas, x, h) {
    }
    AllOfThem(schemas, m.allOf, h);
    AllOfThem(schemas, m.anyOf, h);
    AllOfThem(schemas, m.oneOf, h);
  }

  lemma AllOfThem(schemas: Schemas, list: seq<Schema>, h: nat)
    requires forall x :: x in list ==> Grounded(schemas, x, h)
    ensures AllGrounded(schemas, list, h)
  {
    hide Grounded;
    forall i | 0 <= i < |list| ensures Grounded(schemas, list[i], h) {
      assert list[i] in list;
    }
  }

  /** The required set: members of allOf add up, variants of anyOf and oneOf intersect. */
  ghost function Required(schemas: Schemas, n: Schema, h: nat): set<string>
    requires Grounded(schemas, n, h)
    decreases h, 0
  {
    match Resolve(schemas, n)
    case None => {}
    case Some(m) =>
      RequiredByAll(schemas, m.allOf, h - 1) + RequiredByEvery(schemas, m.anyOf, h - 1)
      + RequiredByEvery(schemas, m.oneOf, h - 1) + (set x | x in m.required)
  }

  ghost function RequiredByAll(schemas: Schemas, list: seq<Schema>, h: nat): set<string>
    requires AllGrounded(schemas, list, h)
    decreases h, 1, |list|
  {
    if list == [] then {} else Required(schemas, list[0], h) + RequiredByAll(schemas, list[1..], h)
  }

  /** Fields required by every variant of a list; no field when there is no variant. */
  ghost function RequiredByEvery(schemas: Schemas, list: seq<Schema>, h: nat): set<string>
    requires AllGrounded(schemas, list, h)
    decreases h, 1, |list|
  {
    if list == [] then {}
    else if |list| == 1 then Required(schemas, list[0], h)
    else Required(schemas, list[0], h) * RequiredByEvery(schemas, list[1..], h)
  }

  // The meaning of a schema: the sets of keys an object may have.

  ghost predicate Accepts(schemas: Schemas, n: Schema, keys: set<string>, h: nat)
    requires Grounded(schemas, n, h)
    decreases h, 0
  {
    match Resolve(schemas, n)
    case None => true
    case Some(m) =>
      && (forall x :: x in m.required ==> x in keys)
      && EachAccepts(schemas, m.allOf, keys, h - 1)
      && (m.anyOf != [] ==> SomeAccepts(schemas, m.anyOf, keys, h - 1))
      && (m.oneOf != [] ==> SomeAccepts(schemas, m.oneOf, keys, h - 1))
  }

  ghost predicate EachAccepts(schemas: Schemas, list: seq<Schema>, keys: set<string>, h: nat)
    requires AllGrounded(schemas, list, h)
    decreases h, 1
  {
    forall i :: 0 <= i < |list| ==> Accepts(schemas, list[i], keys, h)
  }

  ghost predicate SomeAccepts(schemas: Schemas, list: seq<Schema>, keys: set<string>, h: nat)
    requires AllGrounded(schemas, list, h)
    decreases h, 1
  {
    exists i :: 0 <= i < |list| && Accepts(schemas, list[i], keys, h)
  }

  /** Every accepted key set has all required fields. */
  lemma {:induction false} RequiredIsSound(schemas: Schemas, n: Schema, keys: set<string>, h: nat)
    requires Grounded(schemas, n, h) && Accepts(schemas, n, keys, h)
    ensures forall f :: f in Required(schemas, n, h) ==> f in keys
    decreases h, 0
  {
    match Resolve(schemas, n)
    case None =>
    case Some(m) =>
      AllSound(schemas, m.allOf, keys, h - 1);
      if m.anyOf != [] { EverySound(schemas, m.anyOf, keys, h - 1); }
      if m.oneOf != [] { EverySound(schemas, m.oneOf, keys, h - 1); }
  }

  lemma {:induction false} AllSound(schemas: Schemas, list: seq<Schema>, keys: set<string>, h: nat)
    requires AllGrounded(schemas, list, h) && EachAccepts(schemas, list, keys, h)
    ensures forall f :: f in RequiredByAll(schemas, list, h) ==> f in keys
    decreases h, 1, |list|
  {
    if list != [] {
      RequiredIsSound(schemas, list[0], keys, h);
      AllSound(schemas, list[1..], keys, h);
    }
  }

  lemma {:induction false} EverySound(schemas: Schemas, list: seq<Schema>, keys: set<string>, h: nat)
    requires AllGrounded(schemas, list, h) && SomeAccepts(schemas, list, keys, h)
    ensures forall f :: f in RequiredByEvery(schemas, list, h) ==> f in keys
    decreases h, 1, |list|
  {
    var i :| 0 <= i < |list| && Accepts(schemas, list[i], keys, h);
    if i == 0 {
      RequiredIsSound(schemas, list[0], keys, h);
    } else {
      assert list[1..][i - 1] == list[i];
      EverySound(schemas, list[1..], keys, h);
    }
  }

  /** Every name that some required list below `n` mentions. */
  ghost function Mentioned(schemas: Schemas, n: Schema, h: nat): set<string>
    requires Grounded(schemas, n, h)
    decreases h, 0
  {
    match Resolve(schemas, n)
    case None => {}
    case Some(m) =>
      (set x | x in m.required) + MentionedIn(schemas, m.allOf, h - 1) + MentionedIn(schemas, m.anyOf, h - 1)
      + MentionedIn(schemas, m.oneOf, h - 1)
  }

  ghost function MentionedIn(schemas: Schemas, list: seq<Schema>, h: nat): set<string>
    requires AllGrounded(schemas, list, h)
    decreases h, 1, |list|
  {
    if list == [] then {} else Mentioned(schemas, list[0], h) + MentionedIn(schemas, list[1..], h)
  }

  /** A field that is not required can be missing from any object that has the other names mentioned. */
  lemma {:induction false} OptionalCanBeMissing(schemas: Schemas, n: Schema, f: string, keys: set<string>, h: nat)
    requires Grounded(schemas, n, h) && f !in Required(schemas, n, h)
    requires Mentioned(schemas, n, h) - {f} <= keys
    ensures Accepts(schemas, n, keys, h)
    decreases h, 0
  {
    match Resolve(schemas, n)
    case None =>
    case Some(m) =>
      AllCanMiss(schemas, m.allOf, f, keys, h - 1);
      if m.anyOf != [] { SomeCanMiss(schemas, m.anyOf, f, keys, h - 1); }
      if m.oneOf != [] { SomeCanMiss(schemas, m.oneOf, f, keys, h - 1); }
  }

  lemma {:induction false} AllCanMiss(schemas: Schemas, list: seq<Schema>, f: string, keys: set<string>, h: nat)
    requires AllGrounded(schemas, list, h) && f !in RequiredByAll(schemas, list, h)
    requires MentionedIn(schemas, list, h) - {f} <= keys
    ensures EachAccepts(schemas, list, keys, h)
    decreases h, 1, |list|
  {
    if list != [] {
      OptionalCanBeMissing(schemas, list[0], f, keys, h);
      AllCanMiss(schemas, list[1..], f, keys, h);
      forall i | 0 < i < |list| ensures Accepts(schemas, list[i], keys, h) {
        assert list[i] == list[1..][i - 1];
      }
    }
  }

  lemma {:induction false} SomeCanMiss(schemas: Schemas, list: seq<Schema>, f: string, keys: set<string>, h: nat)
    requires AllGrounded(schemas, list, h) && list != [] && f !in RequiredByEvery(schemas, list, h)
    requires MentionedIn(schemas, list, h) - {f} <= keys
    ensures SomeAccepts(schemas, list, keys, h)
    decreases h, 1, |list|
  {
    if f !in Required(schemas, list[0], h) {
      OptionalCanBeMissing(schemas, list[0], f, keys, h);
      assert Accepts(schemas, list[0], keys, h);
    } else {
      SomeCanMiss(schemas, list[1..], f, keys, h);
      var i :| 0 <= i < |list[1..]| && Accepts(schemas, list[1..][i], keys, h);
      assert list[i + 1] == list[1..][i];
    }
  }

  /** A field is in the required set exactly when every accepted set of keys contains it. */
  lemma RequiredIsExact(schemas: Schemas, n: Schema, f: string, h: nat)
    requires Grounded(schemas, n, h)
    ensures f in Required(schemas, n, h) <==> forall keys: set<string> :: Accepts(schemas, n, keys, h) ==> f in keys
  {
    if f in Required(schemas, n, h) {
      forall keys: set<string> | Accepts(schemas, n, keys, h) ensures f in keys {
        RequiredIsSound(schemas, n, keys, h);
      }
    } else {
      OptionalCanBeMissing(schemas, n, f, Mentioned(schemas, n, h) - {f}, h);
    }
  }

  // The height is only a bound.

  /** Bounds above the height of the combinators all give the same required set. */
  lemma {:induction false} RequiredAtAnyHeight(schemas: Schemas, n: Schema, h: nat, k: nat)
    requires Grounded(schemas, n, h) && Grounded(schemas, n, k)
    ensures Required(schemas, n, h) == Required(schemas, n, k)
    decreases h, 0
  {
    hide Resolve;
    match Resolve(schemas, n)
    case None =>
    case Some(m) =>
      ListsAtAnyHeight(schemas, m.allOf, h - 1, k - 1);
      ListsAtAnyHeight(schemas, m.anyOf, h - 1, k - 1);
      ListsAtAnyHeight(schemas, m.oneOf, h - 1, k - 1);
  }

  lemma {:induction false} ListsAtAnyHeight(schemas: Schemas, list: seq<Schema>, h: nat, k: nat)
    requires AllGrounded(schemas, list, h) && AllGrounded(schemas, list, k)
    ensures RequiredByAll(schemas, list, h) == RequiredByAll(schemas, list, k)
    ensures RequiredByEvery(schemas, list, h) == RequiredByEvery(schemas, list, k)
    decreases h, 1, |list|
  {
    if list != [] {
      RequiredAtAnyHeight(schemas, list[0], h, k);
      ListsAtAnyHeight(schemas, list[1..], h, k);
    }
  }

  /** They accept the same sets of keys, too. */
  lemma {:induction false} AcceptsAtAnyHeight(schemas: Schemas, n: Schema, keys: set<string>, h: nat, k: nat)
    requires Grounded(schemas, n, h) && Grounded(schemas, n, k)
    ensures Accepts(schemas, n, keys, h) <==> Accepts(schemas, n, keys, k)
    decreases h, 0
  {
    hide Resolve;
    match Resolve(schemas, n)
    case None =>
    case Some(m) =>
      EachAtAnyHeight(schemas, m.allOf, keys, h - 1, k - 1);
      EachAtAnyHeight(schemas, m.anyOf, keys, h - 1, k - 1);
      EachAtAnyHeight(schemas, m.oneOf, keys, h - 1, k - 1);
      hide Grounded, AllGrounded, EachAccepts, SomeAccepts;
  }

  lemma {:induction false} EachAtAnyHeight(schemas: Schemas, list: seq<Schema>, keys: set<string>, h: nat, k: nat)
    requires AllGrounded(schemas, list, h) && AllGrounded(schemas, list, k)
    ensures EachAccepts(schemas, list, keys, h) <==> EachAccepts(schemas, list, keys, k)
    ensures SomeAccepts(schemas, list, keys, h) <==> SomeAccepts(schemas, list, keys, k)
    decreases h, 1
  {
    forall i | 0 <= i < |list| ensures Accepts(schemas, list[i], keys, h) <==> Accepts(schemas, list[i], keys, k) {
      AcceptsAtAnyHeight(schemas, list[i], keys, h, k);
    }
  }
}
