/** The two walks over a request schema, and what their results have to do with each other. */
module SchemaFields {
  import opened Text
  import opened Schema

  type Typer = Schema -> string

  /** All properties in the order the walks meet them, repeats included. */
  ghost function Properties(schemas: Schemas, n: Schema, h: nat): seq<Property>
    requires Grounded(schemas, n, h)
    decreases h, 0
  {
    match Resolve(schemas, n)
    case None => []
    case Some(m) =>
      PropertiesOf(schemas, m.allOf, h - 1) + PropertiesOf(schemas, m.anyOf, h - 1)
      + PropertiesOf(schemas, m.oneOf, h - 1) + m.properties
  }

  ghost function PropertiesOf(schemas: Schemas, list: seq<Schema>, h: nat): seq<Property>
    requires AllGrounded(schemas, list, h)
    decreases h, 1, |list|
  {
    if list == [] then [] else Properties(schemas, list[0], h) + PropertiesOf(schemas, list[1..], h)
  }

  /** Like the required set, the properties do not depend on the bound. */
  lemma {:induction false} PropertiesAtAnyHeight(schemas: Schemas, n: Schema, h: nat, k: nat)
    requires Grounded(schemas, n, h) && Grounded(schemas, n, k)
    ensures Properties(schemas, n, h) == Properties(schemas, n, k)
    decreases h, 0
  {
    hide Resolve;
    match Resolve(schemas, n)
    case None =>
    case Some(m) =>
      PropertiesOfAtAnyHeight(schemas, m.allOf, h - 1, k - 1);
      PropertiesOfAtAnyHeight(schemas, m.anyOf, h - 1, k - 1);
      PropertiesOfAtAnyHeight(schemas, m.oneOf, h - 1, k - 1);
  }

  lemma {:induction false} PropertiesOfAtAnyHeight(schemas: Schemas, list: seq<Schema>, h: nat, k: nat)
    requires AllGrounded(schemas, list, h) && AllGrounded(schemas, list, k)
    ensures PropertiesOf(schemas, list, h) == PropertiesOf(schemas, list, k)
    decreases h, 1, |list|
  {
    if list != [] {
      PropertiesAtAnyHeight(schemas, list[0], h, k);
      PropertiesOfAtAnyHeight(schemas, list[1..], h, k);
    }
  }

  /** Recording types, the first one seen for a name winning. */
  function Record(types: map<string, string>, ps: seq<Property>, goType: Typer): map<string, string>
    decreases |ps|
  {
    if ps == [] then types
    else if ps[0].name in types then Record(types, ps[1..], goType)
    else Record(types[ps[0].name := goType(ps[0].schema)], ps[1..], goType)
  }

  /** Listing names, each once, in the order first seen. */
  function List(order: seq<string>, ps: seq<Property>): seq<string>
    decreases |ps|
  {
    if ps == [] then order
    else if ps[0].name in order then List(order, ps[1..])
    else List(order + [ps[0].name], ps[1..])
  }

  lemma {:induction false} RecordAppend(types: map<string, string>, a: seq<Property>, b: seq<Property>, goType: Typer)
    ensures Record(types, a + b, goType) == Record(Record(types, a, goType), b, goType)
    decreases |a|
  {
    if a == [] {
      assert a + b == b;
    } else {
      assert (a + b)[1..] == a[1..] + b;
      RecordAppend(if a[0].name in types then types else types[a[0].name := goType(a[0].schema)], a[1..], b, goType);
    }
  }

  lemma {:induction false} ListAppend(order: seq<string>, a: seq<Property>, b: seq<Property>)
    ensures List(order, a + b) == List(List(order, a), b)
    decreases |a|
  {
    if a == [] {
      assert a + b == b;
    } else {
      assert (a + b)[1..] == a[1..] + b;
      ListAppend(if a[0].name in order then order else order + [a[0].name], a[1..], b);
    }
  }

  /** One more branch of a list: its properties follow, its required set is added or intersected. */
  lemma OneMoreBranch(schemas: Schemas, list: seq<Schema>, i: nat, h: nat)
    requires AllGrounded(schemas, list, h) && i < |list|
    ensures AllGrounded(schemas, list[..i], h) && AllGrounded(schemas, list[..i + 1], h)
    ensures PropertiesOf(schemas, list[..i + 1], h)
            == PropertiesOf(schemas, list[..i], h) + Properties(schemas, list[i], h)
    ensures RequiredByAll(schemas, list[..i + 1], h)
            == RequiredByAll(schemas, list[..i], h) + Required(schemas, list[i], h)
    ensures RequiredByEvery(schemas, list[..i + 1], h)
            == if i == 0 then Required(schemas, list[0], h)
               else RequiredByEvery(schemas, list[..i], h) * Required(schemas, list[i], h)
  {
    assert list[..i + 1] == list[..i] + [list[i]];
    hide Required, Properties, Grounded;
    PropertiesSnoc(schemas, list[..i], list[i], h);
    AllSnoc(schemas, list[..i], list[i], h);
    EverySnoc(schemas, list[..i], list[i], h);
  }

  lemma {:induction false} PropertiesSnoc(schemas: Schemas, list: seq<Schema>, b: Schema, h: nat)
    requires AllGrounded(schemas, list, h) && AllGrounded(schemas, list + [b], h) && Grounded(schemas, b, h)
    ensures PropertiesOf(schemas, list + [b], h) == PropertiesOf(schemas, list, h) + Properties(schemas, b, h)
  {
    hide Properties, Grounded;
    if list != [] {
      assert (list + [b])[1..] == list[1..] + [b];
      PropertiesSnoc(schemas, list[1..], b, h);
    }
  }

  lemma {:induction false} AllSnoc(schemas: Schemas, list: seq<Schema>, b: Schema, h: nat)
    requires AllGrounded(schemas, list, h) && AllGrounded(schemas, list + [b], h) && Grounded(schemas, b, h)
    ensures RequiredByAll(schemas, list + [b], h) == RequiredByAll(schemas, list, h) + Required(schemas, b, h)
  {
    hide Required, Grounded;
    if list != [] {
      assert (list + [b])[1..] == list[1..] + [b];
      AllSnoc(schemas, list[1..], b, h);
    }
  }

  lemma {:induction false} EverySnoc(schemas: Schemas, list: seq<Schema>, b: Schema, h: nat)
    requires AllGrounded(schemas, list, h) && AllGrounded(schemas, list + [b], h) && Grounded(schemas, b, h)
    ensures RequiredByEvery(schemas, list + [b], h) ==
            if list == [] then Required(schemas, b, h)
            else RequiredByEvery(schemas, list, h) * Required(schemas, b, h)
  {
    hide Required, Grounded;
    if list != [] {
      assert (list + [b])[1..] == list[1..] + [b];
      EverySnoc(schemas, list[1..], b, h);
    }
  }

  lemma EmptyLists(schemas: Schemas, types: map<string, string>, goType: Typer, h: nat)
    ensures AllGrounded(schemas, [], h) && PropertiesOf(schemas, [], h) == []
    ensures RequiredByAll(schemas, [], h) == RequiredByEvery(schemas, [], h) == {}
    ensures Record(types, [], goType) == types
  {
  }

  /** What the parts of a resolved schema contribute. */
  lemma PartsOf(schemas: Schemas, n: Schema, h: nat, types: map<string, string>, goType: Typer, order: seq<string>)
    requires Grounded(schemas, n, h)
    ensures Resolve(schemas, n).None? ==> Required(schemas, n, h) == {} && Properties(schemas, n, h) == []
    ensures Record(types, [], goType) == types && List(order, []) == order
    ensures Resolve(schemas, n).Some? ==>
              var m := Resolve(schemas, n).value;
              && h > 0 && AllGrounded(schemas, m.allOf, h - 1)
              && AllGrounded(schemas, m.anyOf, h - 1) && AllGrounded(schemas, m.oneOf, h - 1)
              && Required(schemas, n, h) ==
                   RequiredByAll(schemas, m.allOf, h - 1) + RequiredByEvery(schemas, m.anyOf, h - 1)
                   + RequiredByEvery(schemas, m.oneOf, h - 1) + (set x | x in m.required)
              && var a, b, c := PropertiesOf(schemas, m.allOf, h - 1), PropertiesOf(schemas, m.anyOf, h - 1),
                                PropertiesOf(schemas, m.oneOf, h - 1);
              && Record(types, Properties(schemas, n, h), goType)
                 == Record(Record(Record(Record(types, a, goType), b, goType), c, goType), m.properties, goType)
              && List(order, Properties(schemas, n, h))
                 == List(List(List(List(order, a), b), c), m.properties)
  {
    if Resolve(schemas, n).Some? {
      var m := Resolve(schemas, n).value;
      var a, b, c := PropertiesOf(schemas, m.allOf, h - 1), PropertiesOf(schemas, m.anyOf, h - 1),
                     PropertiesOf(schemas, m.oneOf, h - 1);
      RecordAppend(types, a, b, goType);
      RecordAppend(types, a + b, c, goType);
      RecordAppend(types, a + b + c, m.properties, goType);
      ListAppend(order, a, b);
      ListAppend(order, a + b, c);
      ListAppend(order, a + b + c, m.properties);
    }
  }

  lemma NoProperties(types: map<string, string>, order: seq<string>, ps: seq<Property>, goType: Typer)
    ensures Record(types, ps[..0], goType) == types && List(order, ps[..0]) == order
  {
  }

  lemma OneMoreProperty(types: map<string, string>, order: seq<string>, ps: seq<Property>, i: nat, goType: Typer)
    requires i < |ps|
    ensures var t, o := Record(types, ps[..i], goType), List(order, ps[..i]);
            && Record(types, ps[..i + 1], goType)
               == (if ps[i].name in t then t else t[ps[i].name := goType(ps[i].schema)])
            && List(order, ps[..i + 1]) == (if ps[i].name in o then o else o + [ps[i].name])
  {
    assert ps[..i + 1] == ps[..i] + [ps[i]];
    RecordAppend(types, ps[..i], [ps[i]], goType);
    ListAppend(order, ps[..i], [ps[i]]);
  }

  /** The closure of schemaFieldTypes with the variables it updates. */
  class TypeWalk {
    const goType: Typer
    var types: map<string, string>
    var seen: set<string>

    constructor (goType: Typer)
      ensures this.goType == goType && types == map[] && seen == {}
    {
      this.goType := goType;
      types := map[];
      seen := {};
    }

    method Walk(schemas: Schemas, n: Schema, ghost h: nat) returns (req: set<string>)
      requires Grounded(schemas, n, h) && seen == types.Keys
      modifies this
      ensures seen == types.Keys
      ensures req == Required(schemas, n, h)
      ensures types == Record(old(types), Properties(schemas, n, h), goType)
      decreases h, 1
    {
      PartsOf(schemas, n, h, types, goType, []);
      hide *;
      var resolved := ResolveSchema(schemas, n);
      req := {};
      if resolved.None? {
        return;
      }
      var m := resolved.value;
      req := WalkMembers(schemas, m.allOf, h - 1);
      var inter := WalkVariants(schemas, m.anyOf, h - 1);
      req := req + inter;
      inter := WalkVariants(schemas, m.oneOf, h - 1);
      req := req + inter;
      req := req + set x | x in m.required;
      RecordOwn(m.properties);
    }

    /** The schema's own properties: the first type seen for a name stays. */
    method RecordOwn(ps: seq<Property>)
      requires seen == types.Keys
      modifies this
      ensures seen == types.Keys
      ensures types == Record(old(types), ps, goType)
    {
      hide *;
      NoProperties(types, [], ps, goType);
      for i := 0 to |ps|
        invariant seen == types.Keys
        invariant types == Record(old(types), ps[..i], goType)
      {
        OneMoreProperty(old(types), [], ps, i, goType);
        if ps[i].name !in seen {
          seen := seen + {ps[i].name};
          types := types[ps[i].name := goType(ps[i].schema)];
        }
      }
      assert ps[..|ps|] == ps;
    }

    /** allOf: the members' required sets add up. */
    method WalkMembers(schemas: Schemas, list: seq<Schema>, ghost h: nat) returns (req: set<string>)
      requires AllGrounded(schemas, list, h) && seen == types.Keys
      modifies this
      ensures seen == types.Keys
      ensures req == RequiredByAll(schemas, list, h)
      ensures types == Record(old(types), PropertiesOf(schemas, list, h), goType)
      decreases h, 2
    {
      hide RequiredByAll, PropertiesOf, Properties, Required, Record;
      EmptyLists(schemas, types, goType, h);
      assert list[..0] == [];
      req := {};
      for i := 0 to |list|
        invariant seen == types.Keys
        invariant AllGrounded(schemas, list[..i], h) && req == RequiredByAll(schemas, list[..i], h)
        invariant types == Record(old(types), PropertiesOf(schemas, list[..i], h), goType)
      {
        OneMoreBranch(schemas, list, i, h);
        RecordAppend(old(types), PropertiesOf(schemas, list[..i], h), Properties(schemas, list[i], h), goType);
        var br := Walk(schemas, list[i], h);
        req := req + br;
      }
      assert list[..|list|] == list;
    }

    /** anyOf and oneOf: what every variant requires. */
    method WalkVariants(schemas: Schemas, list: seq<Schema>, ghost h: nat) returns (inter: set<string>)
      requires AllGrounded(schemas, list, h) && seen == types.Keys
      modifies this
      ensures seen == types.Keys
      ensures inter == RequiredByEvery(schemas, list, h)
      ensures types == Record(old(types), PropertiesOf(schemas, list, h), goType)
      decreases h, 2
    {
      hide RequiredByEvery, PropertiesOf, Properties, Required, Record;
      EmptyLists(schemas, types, goType, h);
      assert list[..0] == [];
      inter := {};
      for i := 0 to |list|
        invariant seen == types.Keys
        invariant AllGrounded(schemas, list[..i], h) && inter == RequiredByEvery(schemas, list[..i], h)
        invariant types == Record(old(types), PropertiesOf(schemas, list[..i], h), goType)
      {
        OneMoreBranch(schemas, list, i, h);
        RecordAppend(old(types), PropertiesOf(schemas, list[..i], h), Properties(schemas, list[i], h), goType);
        var br := Walk(schemas, list[i], h);
        if i == 0 {
          inter := br;
          continue;
        }
        var next := set k | k in inter && k in br;
        assert next == inter * br;
        inter := next;
      }
      assert list[..|list|] == list;
    }
  }

  /** schemaFieldTypes */
  method SchemaFieldTypes(schemas: Schemas, n: Schema, goType: Typer, ghost h: nat)
    returns (types: map<string, string>, required: set<string>)
    requires Grounded(schemas, n, h)
    ensures types == Record(map[], Properties(schemas, n, h), goType)
    ensures required == Required(schemas, n, h)
  {
    var w := new TypeWalk(goType);
    required := w.Walk(schemas, n, h);
    types := w.types;
  }

  lemma OrderParts(schemas: Schemas, n: Schema, h: nat, order: seq<string>)
    requires Grounded(schemas, n, h)
    ensures Resolve(schemas, n).None? ==> List(order, Properties(schemas, n, h)) == order
    ensures Resolve(schemas, n).Some? ==>
              var m := Resolve(schemas, n).value;
              && h > 0 && AllGrounded(schemas, m.allOf, h - 1)
              && AllGrounded(schemas, m.anyOf, h - 1) && AllGrounded(schemas, m.oneOf, h - 1)
              && List(order, Properties(schemas, n, h))
                 == List(List(List(List(order, PropertiesOf(schemas, m.allOf, h - 1)),
                                   PropertiesOf(schemas, m.anyOf, h - 1)),
                              PropertiesOf(schemas, m.oneOf, h - 1)),
                         m.properties)
  {
    hide *;
    PartsOf(schemas, n, h, map[], _ => "", order);
  }

  lemma OneMoreName(order: seq<string>, ps: seq<Property>, i: nat)
    requires i < |ps|
    ensures var o := List(order, ps[..i]);
            List(order, ps[..i + 1]) == if ps[i].name in o then o else o + [ps[i].name]
  {
    OneMoreProperty(map[], order, ps, i, _ => "");
  }

  /** The closure of schemaFields with the variables it updates. */
  class OrderWalk {
    var order: seq<string>
    var seen: set<string>

    constructor ()
      ensures order == [] && seen == {}
    {
      order := [];
      seen := {};
    }

    ghost predicate Valid()
      reads this
    {
      forall x :: x in seen <==> x in order
    }

    method Walk(schemas: Schemas, n: Schema, ghost h: nat)
      requires Grounded(schemas, n, h) && Valid()
      modifies this
      ensures Valid() && order == List(old(order), Properties(schemas, n, h))
      decreases h, 1
    {
      OrderParts(schemas, n, h, order);
      var resolved := ResolveSchema(schemas, n);
      if resolved.None? {
        return;
      }
      var m := resolved.value;
      hide List, Properties, PropertiesOf, Grounded;
      WalkBranches(schemas, m.allOf, h - 1);
      WalkBranches(schemas, m.anyOf, h - 1);
      WalkBranches(schemas, m.oneOf, h - 1);
      ghost var before := order;
      for i := 0 to |m.properties|
        invariant Valid() && order == List(before, m.properties[..i])
      {
        var p := m.properties[i];
        OneMoreName(before, m.properties, i);
        if p.name !in seen {
          seen := seen + {p.name};
          order := order + [p.name];
        }
      }
      assert m.properties[..|m.properties|] == m.properties;
    }

    method WalkBranches(schemas: Schemas, list: seq<Schema>, ghost h: nat)
      requires AllGrounded(schemas, list, h) && Valid()
      modifies this
      ensures Valid() && order == List(old(order), PropertiesOf(schemas, list, h))
      decreases h, 2
    {
      for i := 0 to |list|
        invariant Valid() && AllGrounded(schemas, list[..i], h)
        invariant order == List(old(order), PropertiesOf(schemas, list[..i], h))
      {
        OneMoreBranch(schemas, list, i, h);
        ListAppend(old(order), PropertiesOf(schemas, list[..i], h), Properties(schemas, list[i], h));
        Walk(schemas, list[i], h);
      }
      assert list[..|list|] == list;
    }
  }

  /** The names of `order` that are (or are not) in `req`, in order. */
  function Keep(order: seq<string>, req: set<string>, wanted: bool): seq<string> {
    if order == [] then []
    else (if (order[0] in req) == wanted then [order[0]] else []) + Keep(order[1..], req, wanted)
  }

  lemma KeepOneMore(order: seq<string>, i: nat, req: set<string>, wanted: bool)
    requires i < |order|
    ensures Keep(order[..i + 1], req, wanted)
            == Keep(order[..i], req, wanted) + if (order[i] in req) == wanted then [order[i]] else []
    ensures Keep(order[..0], req, wanted) == [] && order[..|order|] == order
  {
    KeepAppend(order[..i], [order[i]], req, wanted);
    assert order[..i + 1] == order[..i] + [order[i]];
  }

  lemma {:induction false} KeepAppend(a: seq<string>, b: seq<string>, req: set<string>, wanted: bool)
    ensures Keep(a + b, req, wanted) == Keep(a, req, wanted) + Keep(b, req, wanted)
  {
    if a == [] {
      assert a + b == b;
    } else {
      assert (a + b)[1..] == a[1..] + b;
      KeepAppend(a[1..], b, req, wanted);
    }
  }

  /** schemaFields: required names first, each half in the order first seen. */
  ghost function FieldList(schemas: Schemas, n: Schema, h: nat): seq<string>
    requires Grounded(schemas, n, h)
  {
    var order, req := List([], Properties(schemas, n, h)), Required(schemas, n, h);
    Keep(order, req, true) + Keep(order, req, false)
  }

  lemma FieldListIs(schemas: Schemas, n: Schema, h: nat)
    requires Grounded(schemas, n, h)
    ensures var order, req := List([], Properties(schemas, n, h)), Required(schemas, n, h);
            FieldList(schemas, n, h) == Keep(order, req, true) + Keep(order, req, false)
  {
  }

  lemma NewOrderWalk(w: OrderWalk)
    requires w.order == [] && w.seen == {}
    ensures w.Valid()
  {
  }

  method SchemaFields(schemas: Schemas, n: Schema, goType: Typer, ghost h: nat) returns (out: seq<string>)
    requires Grounded(schemas, n, h)
    ensures out == FieldList(schemas, n, h)
  {
    ResolvedFirst(schemas, n, h);
    FieldListIs(schemas, n, h);
    hide *;
    var resolved := ResolveSchema(schemas, n);
    out := [];
    if resolved.None? {
      return;
    }
    var node := resolved.value;
    var _, required := SchemaFieldTypes(schemas, node, goType, h);
    var w := new OrderWalk();
    NewOrderWalk(w);
    w.Walk(schemas, node, h);
    var order := w.order;
    out := KeepWanted(order, required, true);
    var rest := KeepWanted(order, required, false);
    out := out + rest;
  }

  /** One of the two passes over the names. */
  method KeepWanted(order: seq<string>, required: set<string>, wanted: bool) returns (out: seq<string>)
    ensures out == Keep(order, required, wanted)
  {
    out := [];
    for i := 0 to |order|
      invariant out == Keep(order[..i], required, wanted)
    {
      KeepOneMore(order, i, required, wanted);
      if (order[i] in required) == wanted {
        out := out + [order[i]];
      }
    }
    assert order[..|order|] == order;
  }

  /** Starting from the resolved schema, as schemaFields does, gives what starting from the schema gives. */
  lemma ResolvedFirst(schemas: Schemas, n: Schema, h: nat)
    requires Grounded(schemas, n, h)
    ensures Resolve(schemas, n).None? ==> FieldList(schemas, n, h) == []
    ensures Resolve(schemas, n).Some? ==>
              var m := Resolve(schemas, n).value;
              && Grounded(schemas, m, h)
              && Properties(schemas, m, h) == Properties(schemas, n, h)
              && Required(schemas, m, h) == Required(schemas, n, h)
  {
    ResolveTwice(schemas, n);
  }

  // The two walks side by side.

  /** Where a name first occurs among the properties; their number if it does not. */
  function FirstAt(ps: seq<Property>, name: string): (i: nat)
    ensures i <= |ps|
  {
    if ps == [] || ps[0].name == name then 0 else 1 + FirstAt(ps[1..], name)
  }

  /** The names occur, in the order of their first occurrences; hence none is repeated. */
  ghost predicate InOrder(names: seq<string>, ps: seq<Property>) {
    && (forall i :: 0 <= i < |names| ==> FirstAt(ps, names[i]) < |ps|)
    && (forall i, j :: 0 <= i < j < |names| ==> FirstAt(ps, names[i]) < FirstAt(ps, names[j]))
  }

  lemma {:induction false} FirstAtSnoc(ps: seq<Property>, p: Property, name: string)
    ensures FirstAt(ps + [p], name) ==
            if FirstAt(ps, name) < |ps| || p.name == name then FirstAt(ps, name) else |ps| + 1
  {
    if ps != [] {
      assert (ps + [p])[1..] == ps[1..] + [p];
      FirstAtSnoc(ps[1..], p, name);
    }
  }

  /** `names` lists the names of `ps`, in order. */
  ghost predicate Lists(names: seq<string>, ps: seq<Property>) {
    InOrder(names, ps) && forall x :: x in names <==> FirstAt(ps, x) < |ps|
  }

  lemma MembersSnoc(names: seq<string>, ps: seq<Property>, p: Property, x: string)
    requires x in names <==> FirstAt(ps, x) < |ps|
    ensures var out := if p.name in names then names else names + [p.name];
            p.name == x || p.name in names ==> (x in out <==> FirstAt(ps + [p], x) < |ps| + 1)
    ensures p.name != x && p.name !in names ==> (x in names + [p.name] <==> FirstAt(ps + [p], x) < |ps| + 1)
  {
    FirstAtSnoc(ps, p, x);
  }

  lemma InOrderSnoc(names: seq<string>, ps: seq<Property>, p: Property)
    requires Lists(names, ps)
    ensures InOrder(if p.name in names then names else names + [p.name], ps + [p])
  {
    var n, qs := |ps|, ps + [p];
    forall i | 0 <= i < |names| ensures FirstAt(qs, names[i]) == FirstAt(ps, names[i]) < n {
      FirstAtSnoc(ps, p, names[i]);
    }
    if p.name !in names {
      FirstAtSnoc(ps, p, p.name);
      assert FirstAt(ps, p.name) == n;
    }
    hide FirstAt, Lists;
    assert InOrder(names, qs);
  }

  lemma ListsSnoc(names: seq<string>, ps: seq<Property>, p: Property)
    requires Lists(names, ps)
    ensures Lists(if p.name in names then names else names + [p.name], ps + [p])
  {
    InOrderSnoc(names, ps, p);
    hide FirstAt, InOrder;
    forall x
      ensures x in (if p.name in names then names else names + [p.name]) <==> FirstAt(ps + [p], x) < |ps + [p]|
    {
      MembersSnoc(names, ps, p, x);
    }
  }

  lemma {:induction false} ListInOrder(ps: seq<Property>)
    ensures Lists(List([], ps), ps)
    decreases |ps|
  {
    if ps != [] {
      var front, p := ps[..|ps| - 1], ps[|ps| - 1];
      assert ps == front + [p];
      ListInOrder(front);
      ListAppend([], front, [p]);
      hide Lists;
      ListsSnoc(List([], front), front, p);
    }
  }

  lemma {:induction false} RecordTypes(ps: seq<Property>, goType: Typer)
    ensures var types := Record(map[], ps, goType);
            && (forall x :: x in types <==> FirstAt(ps, x) < |ps|)
            && (forall x :: x in types ==> types[x] == goType(ps[FirstAt(ps, x)].schema))
    decreases |ps|
  {
    if ps != [] {
      var n := |ps| - 1;
      var front, p := ps[..n], ps[n];
      assert ps == front + [p];
      RecordTypes(front, goType);
      RecordAppend(map[], front, [p], goType);
      forall x ensures FirstAt(ps, x) == if FirstAt(front, x) < n || p.name == x then FirstAt(front, x) else n + 1 {
        FirstAtSnoc(front, p, x);
      }
      var t := Record(map[], front, goType);
      assert Record(map[], ps, goType) == if p.name in t then t else t[p.name := goType(p.schema)];
    }
  }

  lemma {:induction false} KeepMembers(order: seq<string>, req: set<string>, wanted: bool)
    ensures forall x :: x in Keep(order, req, wanted) <==> x in order && (x in req) == wanted
  {
    if order != [] {
      KeepMembers(order[1..], req, wanted);
      assert order == [order[0]] + order[1..];
    }
  }

  lemma {:induction false} KeepInOrder(order: seq<string>, ps: seq<Property>, req: set<string>, wanted: bool)
    requires InOrder(order, ps)
    ensures InOrder(Keep(order, req, wanted), ps)
  {
    if order != [] {
      KeepInOrder(order[1..], ps, req, wanted);
      KeepMembers(order[1..], req, wanted);
      var rest := Keep(order[1..], req, wanted);
      hide FirstAt;
      forall i | 0 <= i < |rest| ensures FirstAt(ps, order[0]) < FirstAt(ps, rest[i]) {
        assert rest[i] in rest;
        var j :| 0 <= j < |order[1..]| && order[1..][j] == rest[i];
        assert order[j + 1] == rest[i];
      }
    }
  }

  /**
   * The field list and the type map agree on every schema: the list names exactly the typed fields,
   * each once, the required ones first, either half in the order of first occurrence; a field's type
   * is that of its first occurrence.
   */
  lemma FieldsAgree(schemas: Schemas, n: Schema, goType: Typer, h: nat)
    requires Grounded(schemas, n, h)
    ensures var out := FieldList(schemas, n, h);
            var ps, req := Properties(schemas, n, h), Required(schemas, n, h);
            var types := Record(map[], ps, goType);
            && (forall x :: x in out <==> x in types)
            && (forall i, j :: 0 <= i < j < |out| ==> out[i] != out[j])
            && (forall i, j :: 0 <= i < j < |out| && out[j] in req ==> out[i] in req)
            && (forall i, j :: 0 <= i < j < |out| && (out[i] in req <==> out[j] in req) ==>
                  FirstAt(ps, out[i]) < FirstAt(ps, out[j]))
            && (forall x :: x in types ==> FirstAt(ps, x) < |ps| && types[x] == goType(ps[FirstAt(ps, x)].schema))
  {
    var ps, req := Properties(schemas, n, h), Required(schemas, n, h);
    var order := List([], ps);
    hide *;
    FieldListIs(schemas, n, h);
    ListInOrder(ps);
    RecordTypes(ps, goType);
    HalvesInOrder(order, ps, req);
  }

  lemma HalvesInOrder(order: seq<string>, ps: seq<Property>, req: set<string>)
    requires Lists(order, ps)
    ensures var out := Keep(order, req, true) + Keep(order, req, false);
            && (forall x :: x in out <==> FirstAt(ps, x) < |ps|)
            && (forall i, j :: 0 <= i < j < |out| ==> out[i] != out[j])
            && (forall i, j :: 0 <= i < j < |out| && out[j] in req ==> out[i] in req)
            && (forall i, j :: 0 <= i < j < |out| && (out[i] in req <==> out[j] in req) ==>
                  FirstAt(ps, out[i]) < FirstAt(ps, out[j]))
  {
    KeepInOrder(order, ps, req, true);
    KeepInOrder(order, ps, req, false);
    KeepMembers(order, req, true);
    KeepMembers(order, req, false);
    hide *;
    TwoHalves(Keep(order, req, true), Keep(order, req, false), ps, req);
    ListsMeans(order, ps);
  }

  lemma ListsMeans(order: seq<string>, ps: seq<Property>)
    requires Lists(order, ps)
    ensures forall x :: x in order <==> FirstAt(ps, x) < |ps|
  {
  }

  lemma TwoHalves(first: seq<string>, second: seq<string>, ps: seq<Property>, req: set<string>)
    requires InOrder(first, ps) && InOrder(second, ps)
    requires (forall x :: x in first ==> x in req) && (forall x :: x in second ==> x !in req)
    ensures var out := first + second;
            && (forall i, j :: 0 <= i < j < |out| ==> out[i] != out[j])
            && (forall i, j :: 0 <= i < j < |out| && out[j] in req ==> out[i] in req)
            && (forall i, j :: 0 <= i < j < |out| && (out[i] in req <==> out[j] in req) ==>
                  FirstAt(ps, out[i]) < FirstAt(ps, out[j]))
  {
    hide FirstAt;
    forall i | 0 <= i < |first| ensures first[i] in req { assert first[i] in first; }
    forall i | 0 <= i < |second| ensures second[i] !in req { assert second[i] in second; }
  }

  // Which fields there are, told without the order.

  /** The field is a property of the resolved schema or of one below its combinators. */
  ghost predicate Reaches(schemas: Schemas, n: Schema, name: string, h: nat)
    requires Grounded(schemas, n, h)
    decreases h, 0
  {
    match Resolve(schemas, n)
    case None => false
    case Some(m) =>
      || (exists i :: 0 <= i < |m.properties| && m.properties[i].name == name)
      || SomeReaches(schemas, m.allOf, name, h - 1)
      || SomeReaches(schemas, m.anyOf, name, h - 1)
      || SomeReaches(schemas, m.oneOf, name, h - 1)
  }

  ghost predicate SomeReaches(schemas: Schemas, list: seq<Schema>, name: string, h: nat)
    requires AllGrounded(schemas, list, h)
    decreases h, 1
  {
    exists i :: 0 <= i < |list| && Reaches(schemas, list[i], name, h)
  }

  predicate Has(ps: seq<Property>, name: string) {
    exists i :: 0 <= i < |ps| && ps[i].name == name
  }

  lemma HasConcat(a: seq<Property>, b: seq<Property>, name: string)
    ensures Has(a + b, name) <==> Has(a, name) || Has(b, name)
  {
    assert forall i :: 0 <= i < |a| ==> (a + b)[i] == a[i];
    assert forall i :: 0 <= i < |b| ==> (a + b)[|a| + i] == b[i];
  }

  lemma {:induction false} PropertiesReach(schemas: Schemas, n: Schema, name: string, h: nat)
    requires Grounded(schemas, n, h)
    ensures Has(Properties(schemas, n, h), name) <==> Reaches(schemas, n, name, h)
    decreases h, 0
  {
    hide Resolve, Has;
    match Resolve(schemas, n)
    case None => NoProperty(name);
    case Some(m) =>
      ListReaches(schemas, m.allOf, name, h - 1);
      ListReaches(schemas, m.anyOf, name, h - 1);
      ListReaches(schemas, m.oneOf, name, h - 1);
      var a, b, c := PropertiesOf(schemas, m.allOf, h - 1), PropertiesOf(schemas, m.anyOf, h - 1),
                     PropertiesOf(schemas, m.oneOf, h - 1);
      HasConcat(a, b, name);
      HasConcat(a + b, c, name);
      HasConcat(a + b + c, m.properties, name);
      HasIs(m.properties, name);
  }

  lemma NoProperty(name: string)
    ensures !Has([], name)
  {
  }

  lemma HasIs(ps: seq<Property>, name: string)
    ensures Has(ps, name) <==> exists i :: 0 <= i < |ps| && ps[i].name == name
  {
  }

  lemma {:induction false} ListReaches(schemas: Schemas, list: seq<Schema>, name: string, h: nat)
    requires AllGrounded(schemas, list, h)
    ensures Has(PropertiesOf(schemas, list, h), name) <==> SomeReaches(schemas, list, name, h)
    decreases h, 1, |list|
  {
    hide Has;
    NoProperty(name);
    if list != [] {
      PropertiesReach(schemas, list[0], name, h);
      ListReaches(schemas, list[1..], name, h);
      HasConcat(Properties(schemas, list[0], h), PropertiesOf(schemas, list[1..], h), name);
      SomeReachesStep(schemas, list, name, h);
    }
  }

  lemma SomeReachesStep(schemas: Schemas, list: seq<Schema>, name: string, h: nat)
    requires list != [] && AllGrounded(schemas, list, h)
    ensures AllGrounded(schemas, list[1..], h)
    ensures SomeReaches(schemas, list, name, h)
       <==> Reaches(schemas, list[0], name, h) || SomeReaches(schemas, list[1..], name, h)
  {
    hide Reaches;
    if i :| 0 <= i < |list[1..]| && Reaches(schemas, list[1..][i], name, h) {
      assert list[i + 1] == list[1..][i];
    }
    if i :| 0 < i < |list| && Reaches(schemas, list[i], name, h) {
      assert list[1..][i - 1] == list[i];
    }
  }

  lemma {:induction false} FirstAtHas(ps: seq<Property>, name: string)
    ensures FirstAt(ps, name) < |ps| <==> Has(ps, name)
  {
    if ps != [] {
      FirstAtHas(ps[1..], name);
      assert ps == [ps[0]] + ps[1..];
      HasConcat([ps[0]], ps[1..], name);
      assert [ps[0]][0] == ps[0];
    }
  }

  /** The field list has exactly the fields that the schema has itself or through its references and combinators. */
  lemma FieldsExactly(schemas: Schemas, n: Schema, name: string, h: nat)
    requires Grounded(schemas, n, h)
    ensures name in FieldList(schemas, n, h) <==> Reaches(schemas, n, name, h)
  {
    var ps := Properties(schemas, n, h);
    hide *;
    FieldsAgree(schemas, n, _ => "", h);
    RecordTypes(ps, _ => "");
    FirstAtHas(ps, name);
    PropertiesReach(schemas, n, name, h);
  }

  /** A schema with nothing but its own properties. */
  function Own(name: string, schema: Schema): Schema {
    Schema("", [], [], [], [], [Property(name, schema)])
  }

  /** A schema's fields come from allOf, then from anyOf, then from oneOf, and its own come last. */
  lemma PartsInOrder(schemas: Schemas, a: string, b: string, c: string, d: string, s: Schema)
    requires a != b && a != c && a != d && b != c && b != d && c != d
    ensures var n := Schema("", [Own(a, s)], [Own(b, s)], [Own(c, s)], [], [Property(d, s)]);
            Grounded(schemas, n, 2) && FieldList(schemas, n, 2) == [a, b, c, d]
  {
    var n := Schema("", [Own(a, s)], [Own(b, s)], [Own(c, s)], [], [Property(d, s)]);
    OwnGrounded(schemas, a, s);
    OwnGrounded(schemas, b, s);
    OwnGrounded(schemas, c, s);
    OwnAlone(schemas, a, s);
    OwnAlone(schemas, b, s);
    OwnAlone(schemas, c, s);
    assert Properties(schemas, n, 2) == [Property(a, s)] + [Property(b, s)] + [Property(c, s)] + [Property(d, s)];
    assert Required(schemas, n, 2) == {};
    hide Properties, PropertiesOf, Required, Grounded;
    FourNames(a, b, c, d, s);
    NoneRequired([a, b, c, d]);
    FieldListIs(schemas, n, 2);
  }

  lemma OwnGrounded(schemas: Schemas, a: string, s: Schema)
    ensures Grounded(schemas, Own(a, s), 1)
    ensures Properties(schemas, Own(a, s), 1) == [Property(a, s)] && Required(schemas, Own(a, s), 1) == {}
  {
    var own := Own(a, s);
    assert Resolve(schemas, own) == Some(own);
    assert PropertiesOf(schemas, own.allOf, 0) == [];
    assert [] + [] + [] + [Property(a, s)] == [Property(a, s)];
  }

  lemma OwnAlone(schemas: Schemas, a: string, s: Schema)
    ensures AllGrounded(schemas, [Own(a, s)], 1) && PropertiesOf(schemas, [Own(a, s)], 1) == [Property(a, s)]
    ensures RequiredByAll(schemas, [Own(a, s)], 1) == {} == RequiredByEvery(schemas, [Own(a, s)], 1)
  {
    hide Properties, Required;
    OwnGrounded(schemas, a, s);
    assert [Own(a, s)][1..] == [] && [Property(a, s)] + [] == [Property(a, s)];
  }

  lemma FourNames(a: string, b: string, c: string, d: string, s: Schema)
    requires a != b && a != c && a != d && b != c && b != d && c != d
    ensures List([], [Property(a, s)] + [Property(b, s)] + [Property(c, s)] + [Property(d, s)]) == [a, b, c, d]
  {
    var p, q, r, t := Property(a, s), Property(b, s), Property(c, s), Property(d, s);
    hide List;
    ListOne([], p);
    ListOne([a], q);
    ListOne([a, b], r);
    ListOne([a, b, c], t);
    ListAppend([], [p], [q]);
    ListAppend([], [p] + [q], [r]);
    ListAppend([], [p] + [q] + [r], [t]);
    assert [] + [a] == [a] && [a] + [b] == [a, b] && [a, b] + [c] == [a, b, c] && [a, b, c] + [d] == [a, b, c, d];
  }

  lemma ListOne(order: seq<string>, p: Property)
    ensures List(order, [p]) == if p.name in order then order else order + [p.name]
  {
    assert [p][1..] == [];
  }

  lemma {:induction false} NoneRequired(order: seq<string>)
    ensures Keep(order, {}, true) == [] && Keep(order, {}, false) == order
  {
    if order != [] {
      NoneRequired(order[1..]);
    }
  }
}
