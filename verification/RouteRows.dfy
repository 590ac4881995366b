/** The rows of the join: none is lost, and each names the operation with the longest template. */
module RouteRows {
  import opened Text
  import opened Letters
  import opened RouteJoin

  /** The k-th operation is the first of the longest ones under `key`. */
  predicate Wins(ops: seq<Op>, k: nat, key: string) {
    && k < |ops| && ops[k].WireName() == key
    && (forall j :: 0 <= j < |ops| && ops[j].WireName() == key ==> |ops[j].orig| <= |ops[k].orig|)
    && (forall j :: 0 <= j < k && ops[j].WireName() == key ==> |ops[j].orig| < |ops[k].orig|)
  }

  lemma ScanLast(ops: seq<Op>)
    requires ops != []
    ensures var init, last := ops[..|ops| - 1], ops[|ops| - 1];
            ScanAll(EMPTY, ops) == Scan(ScanAll(EMPTY, init), last)
  {
    var init, last := ops[..|ops| - 1], ops[|ops| - 1];
    assert ops == init + [last];
    ScanConcat(EMPTY, init, [last]);
    assert [last][1..] == [];
  }

  predicate HasPath(ops: seq<Op>, key: string) {
    exists op :: op in ops && op.PathKey() == key
  }

  predicate HasWire(ops: seq<Op>, key: string) {
    exists op :: op in ops && op.WireName() == key
  }

  lemma HasMore(init: seq<Op>, last: Op, key: string)
    ensures HasPath(init + [last], key) <==> HasPath(init, key) || last.PathKey() == key
    ensures HasWire(init + [last], key) <==> HasWire(init, key) || last.WireName() == key
  {
    hide NormParams, WireKey;
    assert forall op :: op in init + [last] <==> op in init || op == last;
  }

  lemma ScanKeys(t: Tables, op: Op, key: string)
    ensures key in Scan(t, op).opBy <==> key in t.opBy || op.PathKey() == key
    ensures key in Scan(t, op).wire <==> key in t.wire || op.WireName() == key
  {
    hide NormParams, WireKey;
  }

  /** The keys of the tables are those of the operations scanned. */
  lemma {:induction false} TableKeys(ops: seq<Op>, key: string)
    ensures var t := ScanAll(EMPTY, ops);
            && (key in t.opBy <==> HasPath(ops, key))
            && (key in t.wire <==> HasWire(ops, key))
    decreases |ops|
  {
    if ops != [] {
      hide *;
      var init, last := ops[..|ops| - 1], ops[|ops| - 1];
      assert ops == init + [last];
      ScanLast(ops);
      TableKeys(init, key);
      ScanKeys(ScanAll(EMPTY, init), last, key);
      HasMore(init, last, key);
    }
  }

  lemma WinsMore(init: seq<Op>, last: Op, k: nat, key: string)
    requires Wins(init, k, key)
    ensures Wins(init + [last], if last.WireName() == key && |last.orig| > |init[k].orig| then |init| else k, key)
  {
    hide WireKey;
    var ops := init + [last];
    assert forall j :: 0 <= j < |init| ==> ops[j] == init[j];
  }

  lemma WinsAlone(init: seq<Op>, last: Op, key: string)
    requires last.WireName() == key && forall op :: op in init ==> op.WireName() != key
    ensures Wins(init + [last], |init|, key)
  {
    hide WireKey;
    var ops := init + [last];
    assert forall j :: 0 <= j < |init| ==> ops[j] == init[j] && ops[j] in init;
  }

  lemma ScanWire(t: Tables, op: Op, key: string)
    ensures var wire := Scan(t, op).wire;
            && (key in wire <==> key in t.wire || op.WireName() == key)
            && (key in wire ==>
                  wire[key] == if op.WireName() == key && (key in t.wire ==> |op.orig| > t.wire[key].length)
                               then Winner(|op.orig|, op.Route()) else t.wire[key])
  {
    hide NormParams, WireKey;
  }

  /** What the wire table holds for a key: the length and the route of the winner. */
  lemma {:induction false} WinnerOf(ops: seq<Op>, key: string) returns (k: nat)
    requires key in ScanAll(EMPTY, ops).wire
    ensures Wins(ops, k, key)
    ensures ScanAll(EMPTY, ops).wire[key] == Winner(|ops[k].orig|, ops[k].Route())
    decreases |ops|
  {
    var n := |ops| - 1;
    var init, last := ops[..n], ops[n];
    assert ops == init + [last];
    ScanLast(ops);
    var before := ScanAll(EMPTY, init);
    hide ScanAll, Scan, WireKey, NormParams, Wins;
    ScanWire(before, last, key);
    if key in before.wire {
      k := WinnerOf(init, key);
      WinsMore(init, last, k, key);
      WinsInRange(init, k, key);
      if last.WireName() == key && |last.orig| > |ops[k].orig| {
        k := n;
      }
    } else {
      TableKeys(init, key);
      WinsAlone(init, last, key);
      k := n;
    }
  }

  lemma WinsInRange(ops: seq<Op>, k: nat, key: string)
    requires Wins(ops, k, key)
    ensures k < |ops|
  {
  }

  predicate Dotted(wire: map<string, Winner>) {
    forall key :: key in wire ==> '.' in wire[key].route
  }

  lemma RoutesDotted(ops: seq<Op>)
    ensures Dotted(ScanAll(EMPTY, ops).wire)
  {
    hide ScanAll;
    var wire := ScanAll(EMPTY, ops).wire;
    forall key | key in wire ensures '.' in wire[key].route {
      var k := WinnerOf(ops, key);
      assert ops[k].Route()[|ops[k].dir|] == '.';
    }
  }

  /** The row of one route, if it has one. */
  function RowOf(r: Route, t: Tables): Option<Row>
    requires Dotted(t.wire)
  {
    var np := NormParams(r.template);
    var wkey := r.verb + " " + WireKey(r.template);
    if r.via == [] || r.verb + " " + np !in t.opBy || wkey !in t.wire then None
    else
      var opID := t.wire[wkey].route;
      Some(Row(r.verb, np, opID, r.via[0], opID[..IndexOf(opID, '.').value]))
  }

  function RowsOf(routes: seq<Route>, t: Tables): seq<Row>
    requires Dotted(t.wire)
  {
    if routes == [] then []
    else
      var row := RowOf(routes[0], t);
      (if row.Some? then [row.value] else []) + RowsOf(routes[1..], t)
  }

  /** One round of the loop over the routes. */
  lemma RowsStep(routes: seq<Route>, i: nat, t: Tables, rows: seq<Row>)
    requires i < |routes| && Dotted(t.wire)
    ensures rows + RowsOf(routes[i..], t)
            == (match RowOf(routes[i], t) case None => rows case Some(row) => rows + [row]) + RowsOf(routes[i + 1..], t)
  {
    hide RowOf, Dotted;
    assert routes[i..][1..] == routes[i + 1..];
    assert rows + [] == rows;
  }

  lemma RowsEnds(routes: seq<Route>, t: Tables)
    requires Dotted(t.wire)
    ensures routes[0..] == routes && RowsOf(routes[|routes|..], t) == []
  {
  }

  method Join(routes: seq<Route>, specs: seq<Spec>) returns (rows: seq<Row>)
    ensures var t := ScanAll(EMPTY, AllOps(specs)); Dotted(t.wire) && rows == RowsOf(routes, t)
  {
    hide ScanAll, AllOps, NormParams, WireKey, Dotted, RowsOf;
    var opBy, wire := Tabulate(specs);
    ghost var t := Tables(opBy, wire);
    RoutesDotted(AllOps(specs));
    rows := [];
    RowsEnds(routes, t);
    for i := 0 to |routes|
      invariant Dotted(wire)
      invariant rows + RowsOf(routes[i..], t) == RowsOf(routes, t)
    {
      RowsStep(routes, i, t, rows);
      var r := routes[i];
      if |r.via| == 0 {
        continue;
      }
      var np := NormParams(r.template);
      if r.verb + " " + np !in opBy {
        continue;
      }
      var wkey := r.verb + " " + WireKey(r.template);
      if wkey !in wire {
        continue;
      }
      DottedAt(wire, wkey);
      var opID := wire[wkey].route;
      var spec := opID[..IndexOf(opID, '.').value];
      rows := rows + [Row(r.verb, np, opID, r.via[0], spec)];
    }
  }

  lemma DottedAt(wire: map<string, Winner>, key: string)
    requires Dotted(wire) && key in wire
    ensures '.' in wire[key].route
  {
  }

  // ---- which operations there are ----

  /** The HTTP methods by their keys in a path item. */
  predicate IsMethod(key: string, verb: string) {
    || (key == "get" && verb == "GET") || (key == "post" && verb == "POST") || (key == "put" && verb == "PUT")
    || (key == "patch" && verb == "PATCH") || (key == "delete" && verb == "DELETE")
  }

  /** The operation stands in the item under the key of its method, with an operation id. */
  predicate OpOf(spec: Spec, item: PathItem, key: string, op: Op) {
    && IsMethod(key, op.verb) && key in item.ops && item.ops[key] != ""
    && op.id == item.ops[key] && op.orig == spec.prefix + item.key && op.dir == spec.dir
  }

  lemma UpperMethods(key: string, verb: string)
    ensures IsMethod(key, verb) <==> key in VERBS && verb == Upper(key)
  {
    assert Upper("get") == "GET" && Upper("post") == "POST" && Upper("put") == "PUT";
    assert Upper("patch") == "PATCH" && Upper("delete") == "DELETE";
  }

  lemma {:induction false} VerbOpsExactly(spec: Spec, item: PathItem, verbs: seq<string>, op: Op)
    requires forall v :: v in verbs ==> v in VERBS
    ensures op in VerbOps(spec, item, verbs) <==> exists key :: key in verbs && OpOf(spec, item, key, op)
  {
    hide Upper;
    if verbs != [] {
      var v := verbs[0];
      VerbOpsExactly(spec, item, verbs[1..], op);
      UpperMethods(v, op.verb);
      assert v in VERBS;
      var rest := VerbOps(spec, item, verbs[1..]);
      assert OpOf(spec, item, v, op) <==>
             && v in item.ops && item.ops[v] != ""
             && op == Op(Upper(v), spec.prefix + item.key, spec.dir, item.ops[v]);
      assert op in VerbOps(spec, item, verbs) <==> OpOf(spec, item, v, op) || op in rest;
      hide OpOf, VerbOps;
      assert verbs == [v] + verbs[1..];
      assert forall key :: key in verbs <==> key == v || key in verbs[1..];
    }
  }

  lemma VerbsOfItem(spec: Spec, item: PathItem, op: Op)
    ensures op in VerbOps(spec, item, VERBS) <==> exists key :: OpOf(spec, item, key, op)
  {
    VerbOpsExactly(spec, item, VERBS, op);
    hide VerbOps, Upper;
    forall key | OpOf(spec, item, key, op) ensures key in VERBS {
      UpperMethods(key, op.verb);
    }
  }

  lemma {:induction false} PathOpsExactly(spec: Spec, paths: seq<PathItem>, op: Op)
    ensures op in PathOps(spec, paths) <==> exists i, key :: 0 <= i < |paths| && OpOf(spec, paths[i], key, op)
  {
    hide VerbOps, OpOf;
    if paths != [] {
      VerbsOfItem(spec, paths[0], op);
      PathOpsExactly(spec, paths[1..], op);
      assert forall i :: 0 < i < |paths| ==> paths[i] == paths[1..][i - 1];
      if i, key :| 0 <= i < |paths[1..]| && OpOf(spec, paths[1..][i], key, op) {
        assert OpOf(spec, paths[i + 1], key, op);
      }
    }
  }

  /** The operations are those that stand in some path item of some spec under one of the five methods, with an id. */
  lemma {:induction false} OpsExactly(specs: seq<Spec>, op: Op)
    ensures op in AllOps(specs) <==>
            exists s, i, key :: 0 <= s < |specs| && 0 <= i < |specs[s].paths|
                                && OpOf(specs[s], specs[s].paths[i], key, op)
  {
    hide PathOps, OpOf;
    if specs != [] {
      PathOpsExactly(specs[0], specs[0].paths, op);
      OpsExactly(specs[1..], op);
      assert forall s :: 0 < s < |specs| ==> specs[s] == specs[1..][s - 1];
      if s, i, key :| 0 <= s < |specs[1..]| && 0 <= i < |specs[1..][s].paths|
                      && OpOf(specs[1..][s], specs[1..][s].paths[i], key, op) {
        assert OpOf(specs[s + 1], specs[s + 1].paths[i], key, op);
      }
    }
  }

  /** They come spec by spec and path by path, and in one path in a fixed order of the methods. */
  lemma OpsInOrder(spec: Spec, key: string, ops: map<string, string>, before: seq<Spec>, after: seq<Spec>)
    requires spec.paths == [PathItem(key, ops)]
    requires forall v :: v in {"get", "post", "put", "patch", "delete"} ==> v in ops && ops[v] != ""
    ensures var orig := spec.prefix + key;
            AllOps(before + [spec] + after) ==
            AllOps(before)
            + [Op("GET", orig, spec.dir, ops["get"]), Op("POST", orig, spec.dir, ops["post"]),
               Op("PUT", orig, spec.dir, ops["put"]), Op("PATCH", orig, spec.dir, ops["patch"]),
               Op("DELETE", orig, spec.dir, ops["delete"])]
            + AllOps(after)
  {
    FiveOps(spec, PathItem(key, ops));
    hide VerbOps;
    assert PathOps(spec, spec.paths[1..]) == [];
    assert ([spec] + after)[1..] == after;
    assert AllOps([spec] + after) == PathOps(spec, spec.paths) + AllOps(after);
    AllOpsConcat(before, [spec] + after);
    assert before + [spec] + after == before + ([spec] + after);
  }

  lemma FiveOps(spec: Spec, item: PathItem)
    requires forall v :: v in {"get", "post", "put", "patch", "delete"} ==> v in item.ops && item.ops[v] != ""
    ensures var orig := spec.prefix + item.key;
            VerbOps(spec, item, VERBS) ==
            [Op("GET", orig, spec.dir, item.ops["get"]), Op("POST", orig, spec.dir, item.ops["post"]),
             Op("PUT", orig, spec.dir, item.ops["put"]), Op("PATCH", orig, spec.dir, item.ops["patch"]),
             Op("DELETE", orig, spec.dir, item.ops["delete"])]
  {
    assert Upper("get") == "GET" && Upper("post") == "POST" && Upper("put") == "PUT";
    assert Upper("patch") == "PATCH" && Upper("delete") == "DELETE";
    hide Upper;
    FirstOp(spec, item, "get", ["post", "put", "patch", "delete"]);
    FirstOp(spec, item, "post", ["put", "patch", "delete"]);
    FirstOp(spec, item, "put", ["patch", "delete"]);
    FirstOp(spec, item, "patch", ["delete"]);
    FirstOp(spec, item, "delete", []);
    assert VERBS == ["get"] + ["post", "put", "patch", "delete"];
    assert ["post"] + ["put", "patch", "delete"] == ["post", "put", "patch", "delete"];
    assert ["put"] + ["patch", "delete"] == ["put", "patch", "delete"] && ["patch"] + ["delete"] == ["patch", "delete"];
    assert ["delete"] + [] == ["delete"];
    hide VerbOps;
  }

  lemma FirstOp(spec: Spec, item: PathItem, v: string, verbs: seq<string>)
    requires v in item.ops && item.ops[v] != ""
    ensures VerbOps(spec, item, [v] + verbs)
            == [Op(Upper(v), spec.prefix + item.key, spec.dir, item.ops[v])] + VerbOps(spec, item, verbs)
    ensures VerbOps(spec, item, []) == []
  {
    assert ([v] + verbs)[1..] == verbs;
  }

  lemma {:induction false} AllOpsConcat(a: seq<Spec>, b: seq<Spec>)
    ensures AllOps(a + b) == AllOps(a) + AllOps(b)
  {
    hide PathOps;
    if a == [] {
      assert a + b == b;
    } else {
      AllOpsConcat(a[1..], b);
      assert (a + b)[1..] == a[1..] + b && (a + b)[0] == a[0];
      Assoc(PathOps(a[0], a[0].paths), AllOps(a[1..]), AllOps(b));
    }
  }

  /** Paths of one spec come in their order. */
  lemma {:induction false} PathOpsConcat(spec: Spec, a: seq<PathItem>, b: seq<PathItem>)
    ensures PathOps(spec, a + b) == PathOps(spec, a) + PathOps(spec, b)
  {
    hide VerbOps;
    if a == [] {
      assert a + b == b;
    } else {
      PathOpsConcat(spec, a[1..], b);
      assert (a + b)[1..] == a[1..] + b && (a + b)[0] == a[0];
      Assoc(VerbOps(spec, a[0], VERBS), PathOps(spec, a[1..]), PathOps(spec, b));
    }
  }

  // ---- what the rows say ----

  /** An HTTP method: one word. */
  predicate IsVerb(verb: string) {
    ' ' !in verb
  }

  predicate ProperOps(ops: seq<Op>) {
    forall op :: op in ops ==> IsVerb(op.verb)
  }

  lemma {:induction false} VerbOpsProper(spec: Spec, item: PathItem, verbs: seq<string>)
    requires forall v :: v in verbs ==> v in VERBS
    ensures ProperOps(VerbOps(spec, item, verbs))
  {
    if verbs != [] {
      VerbOpsProper(spec, item, verbs[1..]);
      assert verbs[0] in VERBS;
      UpperVerb(verbs[0]);
    }
  }

  lemma UpperVerb(v: string)
    requires v in VERBS
    ensures IsVerb(Upper(v))
  {
    assert forall i :: 0 <= i < |v| ==> IsLower(v[i]);
    assert forall i :: 0 <= i < |v| ==> IsUpper(Upper(v)[i]);
  }

  lemma {:induction false} PathOpsProper(spec: Spec, paths: seq<PathItem>)
    ensures ProperOps(PathOps(spec, paths))
  {
    if paths != [] {
      VerbOpsProper(spec, paths[0], VERBS);
      PathOpsProper(spec, paths[1..]);
    }
  }

  lemma {:induction false} AllOpsProper(specs: seq<Spec>)
    ensures ProperOps(AllOps(specs))
  {
    if specs != [] {
      PathOpsProper(specs[0], specs[0].paths);
      AllOpsProper(specs[1..]);
    }
  }

  /** The operation has the route's method and, parameter names aside, its path. */
  predicate SamePath(r: Route, op: Op) {
    op.verb == r.verb && NormParams(op.orig) == NormParams(r.template)
  }

  /** The operation has the route's method and wire key. */
  predicate SameWire(r: Route, op: Op) {
    op.verb == r.verb && WireKey(op.orig) == WireKey(r.template)
  }

  lemma KeysInjective(a: string, b: string, c: string, d: string)
    requires ' ' !in a && ' ' !in c
    ensures a + " " + b == c + " " + d <==> a == c && b == d
  {
    if a + " " + b == c + " " + d {
      IndexOfAfter(a, ' ', b);
      IndexOfAfter(c, ' ', d);
      var s := a + " " + b;
      assert s[..|a|] == a && s[|a| + 1..] == b && (c + " " + d)[..|c|] == c && (c + " " + d)[|c| + 1..] == d;
    }
  }

  lemma KeysMean(r: Route, op: Op)
    requires IsVerb(r.verb) && IsVerb(op.verb)
    ensures op.PathKey() == r.verb + " " + NormParams(r.template) <==> SamePath(r, op)
    ensures op.WireName() == r.verb + " " + WireKey(r.template) <==> SameWire(r, op)
    ensures SamePath(r, op) ==> SameWire(r, op)
  {
    hide NormParams, WireKey;
    KeysInjective(op.verb, NormParams(op.orig), r.verb, NormParams(r.template));
    KeysInjective(op.verb, WireKey(op.orig), r.verb, WireKey(r.template));
    WireKeyOfNorm(op.orig);
    WireKeyOfNorm(r.template);
  }

  /** The k-th operation is the first with the longest template among those with the route's wire key. */
  predicate IsBest(r: Route, ops: seq<Op>, k: nat) {
    && k < |ops| && SameWire(r, ops[k])
    && (forall j :: 0 <= j < |ops| && SameWire(r, ops[j]) ==> |ops[j].orig| <= |ops[k].orig|)
    && (forall j :: 0 <= j < k && SameWire(r, ops[j]) ==> |ops[j].orig| < |ops[k].orig|)
  }

  /** The text before the first dot, or all of it. */
  function UpToDot(s: string): string {
    match IndexOf(s, '.')
    case None => s
    case Some(i) => s[..i]
  }

  lemma DirOf(dir: string, id: string)
    ensures var route := dir + "." + id; '.' in route && route[..IndexOf(route, '.').value] == UpToDot(dir)
  {
    var route := dir + "." + id;
    assert route[|dir|] == '.';
    if '.' !in dir {
      IndexOfAfter(dir, '.', id);
      assert route[..|dir|] == dir;
    } else {
      var i := IndexOf(dir, '.').value;
      assert route == dir[..i] + ['.'] + (dir[i + 1..] + "." + id);
      IndexOfAfter(dir[..i], '.', dir[i + 1..] + "." + id);
    }
  }

  /**
   * A route with a via has a row exactly when some operation has its method and path, and the row names the
   * operation that wins the wire key. The spec it is filed under is that operation's, unless its directory has a dot.
   */
  lemma RowExactly(r: Route, specs: seq<Spec>) returns (k: nat)
    requires IsVerb(r.verb)
    ensures var ops := AllOps(specs);
            var t := ScanAll(EMPTY, ops);
            && Dotted(t.wire)
            && (RowOf(r, t).Some? <==> r.via != [] && exists op :: op in ops && SamePath(r, op))
            && (RowOf(r, t).Some? ==>
                  && IsBest(r, ops, k)
                  && RowOf(r, t).value
                     == Row(r.verb, NormParams(r.template), ops[k].Route(), r.via[0], UpToDot(ops[k].dir)))
  {
    hide ScanAll, AllOps, NormParams, WireKey, IsVerb, Dotted;
    var ops := AllOps(specs);
    AllOpsProper(specs);
    var t := ScanAll(EMPTY, ops);
    var np, wkey := r.verb + " " + NormParams(r.template), r.verb + " " + WireKey(r.template);
    RoutesDotted(ops);
    TableKeys(ops, np);
    TableKeys(ops, wkey);
    forall op | op in ops
      ensures op.PathKey() == np <==> SamePath(r, op)
      ensures op.WireName() == wkey <==> SameWire(r, op)
      ensures SamePath(r, op) ==> SameWire(r, op)
    {
      KeysMean(r, op);
    }
    k := 0;
    if wkey in t.wire {
      k := WinnerOf(ops, wkey);
      DirOf(ops[k].dir, ops[k].id);
    }
  }

  /** No route is lost or reordered: joining two lists of routes gives the rows of both. */
  lemma {:induction false} RowsInOrder(a: seq<Route>, b: seq<Route>, t: Tables)
    requires Dotted(t.wire)
    ensures RowsOf(a + b, t) == RowsOf(a, t) + RowsOf(b, t)
  {
    hide RowOf, Dotted;
    if a == [] {
      assert a + b == b;
    } else {
      assert (a + b)[1..] == a[1..] + b;
      RowsInOrder(a[1..], b, t);
    }
  }
}
