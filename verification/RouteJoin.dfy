/** The join of captured routes with the operations of the specs, as the REST test generator makes it. */
module RouteJoin {
  import opened Text
  import opened Letters

  // ---- path templates ----

  /** What stands before and behind the first {...} run. */
  datatype Run = Run(before: string, rest: string)

  function FirstRun(p: string): (r: Option<Run>)
    ensures r.Some? ==> |r.value.rest| < |p|
  {
    match IndexOf(p, '{')
    case None => None
    case Some(i) =>
      match IndexOf(p[i..], '}')
      case None => None
      case Some(j) => Some(Run(p[..i], p[i + j + 1..]))
  }

  /** Every {...} run replaced; an unclosed brace ends the replacing. */
  function ReplaceBraces(p: string, repl: string): string
    decreases |p|
  {
    match FirstRun(p)
    case None => p
    case Some(run) => run.before + repl + ReplaceBraces(run.rest, repl)
  }

  method ReplaceBracesLoop(template: string, repl: string) returns (r: string)
    ensures r == ReplaceBraces(template, repl)
  {
    hide FirstRun, ReplaceBraces, IndexOf;
    var p := template;
    r := "";
    assert r + ReplaceBraces(p, repl) == ReplaceBraces(p, repl);
    while true
      invariant r + ReplaceBraces(p, repl) == ReplaceBraces(template, repl)
      decreases |p|
    {
      LoopStep(r, p, repl);
      var i := IndexOf(p, '{');
      if i.None? {
        return r + p;
      }
      var j := IndexOf(p[i.value..], '}');
      if j.None? {
        return r + p;
      }
      r := r + p[..i.value];
      r := r + repl;
      p := p[i.value + j.value + 1..];
    }
  }

  lemma LoopStep(r: string, p: string, repl: string)
    ensures match IndexOf(p, '{')
            case None => ReplaceBraces(p, repl) == p
            case Some(i) =>
              match IndexOf(p[i..], '}')
              case None => ReplaceBraces(p, repl) == p
              case Some(j) => r + p[..i] + repl + ReplaceBraces(p[i + j + 1..], repl) == r + ReplaceBraces(p, repl)
  {
    var first := FirstRun(p);
    if first.Some? {
      var left := ReplaceBraces(first.value.rest, repl);
      assert ReplaceBraces(p, repl) == first.value.before + repl + left;
      hide ReplaceBraces;
      Assoc4(r, first.value.before, repl, left);
    }
  }

  function NormParams(p: string): string { ReplaceBraces(p, "{id}") }

  function WireKey(p: string): string { ReplaceBraces(p, "X") }

  lemma FirstRunIs(a: string, name: string, rest: string)
    requires '{' !in a && '}' !in name
    ensures FirstRun(a + "{" + name + "}" + rest) == Some(Run(a, rest))
  {
    var p := a + "{" + name + "}" + rest;
    var tail := ("{" + name) + ['}'] + rest;
    assert p == a + ['{'] + (name + "}" + rest);
    IndexOfAfter(a, '{', name + "}" + rest);
    assert p[|a|..] == tail && p[..|a|] == a;
    IndexOfAfter("{" + name, '}', rest);
    assert p[|a| + |name| + 2..] == rest;
  }

  lemma ReplaceFirst(a: string, name: string, rest: string, repl: string)
    requires '{' !in a && '}' !in name
    ensures ReplaceBraces(a + "{" + name + "}" + rest, repl) == a + repl + ReplaceBraces(rest, repl)
  {
    hide FirstRun;
    FirstRunIs(a, name, rest);
  }

  /**
   * In a path each run of braces becomes {id} in the normal form and X in the wire key, whatever stands in it; text
   * without an opening brace, or behind one that is never closed, stays.
   */
  lemma RunsReplaced(a: string, name: string, rest: string)
    requires '{' !in a && '}' !in name
    ensures NormParams(a + "{" + name + "}" + rest) == a + "{id}" + NormParams(rest)
    ensures WireKey(a + "{" + name + "}" + rest) == a + "X" + WireKey(rest)
    ensures NormParams(a) == a && WireKey(a) == a
    ensures NormParams(a + "{" + name) == a + "{" + name && WireKey(a + "{" + name) == a + "{" + name
  {
    ReplaceFirst(a, name, rest, "{id}");
    ReplaceFirst(a, name, rest, "X");
    Unclosed(a, name);
  }

  lemma Unclosed(a: string, name: string)
    requires '{' !in a && '}' !in name
    ensures FirstRun(a).None? && FirstRun(a + "{" + name).None?
  {
    hide IndexOf;
    var p := a + "{" + name;
    IndexOfAfter(a, '{', name);
    assert p == a + ['{'] + name && p[|a|..] == "{" + name;
  }

  lemma BeforeIsFree(p: string)
    requires FirstRun(p).Some?
    ensures '{' !in FirstRun(p).value.before
  {
    hide IndexOf;
  }

  lemma NormFirst(p: string)
    requires FirstRun(p).Some?
    ensures var run := FirstRun(p).value;
            '{' !in run.before && NormParams(p) == run.before + "{" + "id" + "}" + NormParams(run.rest)
  {
    hide FirstRun;
    BeforeIsFree(p);
    var run := FirstRun(p).value;
    SpellId(run.before, ReplaceBraces(run.rest, "{id}"));
  }

  lemma SpellId(a: string, left: string)
    ensures a + "{id}" + left == a + "{" + "id" + "}" + left
  {
    assert "{id}" == "{" + "id" + "}";
  }

  /** The names of the parameters do not matter to the wire key, whatever the text. */
  lemma {:induction false} WireKeyOfNorm(p: string)
    ensures WireKey(NormParams(p)) == WireKey(p)
    decreases |p|
  {
    if FirstRun(p).Some? {
      var run := FirstRun(p).value;
      WireKeyOfNorm(run.rest);
      NormFirst(p);
      hide FirstRun;
      ReplaceFirst(run.before, "id", NormParams(run.rest), "X");
    }
  }

  lemma {:induction false} NormTwice(p: string)
    ensures NormParams(NormParams(p)) == NormParams(p)
    decreases |p|
  {
    if FirstRun(p).Some? {
      var run := FirstRun(p).value;
      NormTwice(run.rest);
      NormFirst(p);
      hide FirstRun;
      ReplaceFirst(run.before, "id", NormParams(run.rest), "{id}");
    }
  }

  // ---- the specs ----

  /** One path of a spec: its key and the operation ids of its verbs. */
  datatype PathItem = PathItem(key: string, ops: map<string, string>)

  datatype Spec = Spec(dir: string, prefix: string, paths: seq<PathItem>)

  datatype Route = Route(verb: string, template: string, via: seq<string>)

  datatype Row = Row(verb: string, path: string, opID: string, via: string, spec: string)

  datatype Winner = Winner(length: nat, route: string)

  /** One operation as the scan meets it. */
  datatype Op = Op(verb: string, orig: string, dir: string, id: string) {
    function Route(): string { dir + "." + id }
    function PathKey(): string { verb + " " + NormParams(orig) }
    function WireName(): string { verb + " " + WireKey(orig) }
  }

  const VERBS: seq<string> := ["get", "post", "put", "patch", "delete"]

  function VerbOps(spec: Spec, item: PathItem, verbs: seq<string>): seq<Op> {
    if verbs == [] then []
    else if verbs[0] in item.ops && item.ops[verbs[0]] != "" then
      [Op(Upper(verbs[0]), spec.prefix + item.key, spec.dir, item.ops[verbs[0]])] + VerbOps(spec, item, verbs[1..])
    else VerbOps(spec, item, verbs[1..])
  }

  function PathOps(spec: Spec, paths: seq<PathItem>): seq<Op> {
    if paths == [] then [] else VerbOps(spec, paths[0], VERBS) + PathOps(spec, paths[1..])
  }

  /** The operations of the specs in the order of the scan. */
  function AllOps(specs: seq<Spec>): seq<Op> {
    if specs == [] then [] else PathOps(specs[0], specs[0].paths) + AllOps(specs[1..])
  }

  // ---- the two tables ----

  datatype Tables = Tables(opBy: map<string, string>, wire: map<string, Winner>)

  function Scan(t: Tables, op: Op): Tables {
    var wkey := op.WireName();
    Tables(t.opBy[op.PathKey() := op.Route()],
           if wkey !in t.wire || |op.orig| > t.wire[wkey].length
           then t.wire[wkey := Winner(|op.orig|, op.Route())] else t.wire)
  }

  function ScanAll(t: Tables, ops: seq<Op>): Tables
    decreases ops
  {
    if ops == [] then t else ScanAll(Scan(t, ops[0]), ops[1..])
  }

  const EMPTY := Tables(map[], map[])

  lemma {:induction false} ScanConcat(t: Tables, a: seq<Op>, b: seq<Op>)
    ensures ScanAll(t, a + b) == ScanAll(ScanAll(t, a), b)
    decreases a
  {
    if a == [] {
      assert a + b == b;
    } else {
      assert (a + b)[1..] == a[1..] + b;
      ScanConcat(Scan(t, a[0]), a[1..], b);
    }
  }

  /** The three nested loops of the scan. */
  method Tabulate(specs: seq<Spec>) returns (opBy: map<string, string>, wire: map<string, Winner>)
    ensures Tables(opBy, wire) == ScanAll(EMPTY, AllOps(specs))
  {
    hide *;
    opBy, wire := map[], map[];
    AllOpsUnfold(specs, 0);
    for s := 0 to |specs|
      invariant ScanAll(Tables(opBy, wire), AllOps(specs[s..])) == ScanAll(EMPTY, AllOps(specs))
    {
      AllOpsUnfold(specs, s);
      var spec := specs[s];
      ghost var after := ScanAll(ScanAll(Tables(opBy, wire), PathOps(spec, spec.paths[0..])), AllOps(specs[s + 1..]));
      ScanConcat(Tables(opBy, wire), PathOps(spec, spec.paths[0..]), AllOps(specs[s + 1..]));
      for i := 0 to |spec.paths|
        invariant ScanAll(ScanAll(Tables(opBy, wire), PathOps(spec, spec.paths[i..])), AllOps(specs[s + 1..])) == after
      {
        PathOpsUnfold(spec, i);
        var item := spec.paths[i];
        var orig := spec.prefix + item.key;
        var full := ReplaceBracesLoop(orig, "{id}");
        var wk := ReplaceBracesLoop(orig, "X");
        ScanConcat(Tables(opBy, wire), VerbOps(spec, item, VERBS[0..]), PathOps(spec, spec.paths[i + 1..]));
        ghost var later := ScanAll(Tables(opBy, wire), VerbOps(spec, item, VERBS[0..]));
        for v := 0 to |VERBS|
          invariant ScanAll(Tables(opBy, wire), VerbOps(spec, item, VERBS[v..])) == later
        {
          VerbOpsUnfold(spec, item, Tables(opBy, wire), v);
          var verb := VERBS[v];
          if verb !in item.ops || item.ops[verb] == "" {
            continue;
          }
          var route := spec.dir + "." + item.ops[verb];
          var vu := Upper(verb);
          ScanIs(Tables(opBy, wire), Op(vu, orig, spec.dir, item.ops[verb]), full, wk);
          opBy := opBy[vu + " " + full := route];
          var wkey := vu + " " + wk;
          if wkey !in wire || |orig| > wire[wkey].length {
            wire := wire[wkey := Winner(|orig|, route)];
          }
        }
        NothingLeft(spec, item);
      }
      NothingLeft(spec, PathItem("", map[]));
    }
    AllOpsEnd(specs);
  }

  lemma AllOpsUnfold(specs: seq<Spec>, s: nat)
    ensures specs[0..] == specs && EMPTY == Tables(map[], map[])
    ensures s < |specs| ==> AllOps(specs[s..])
                            == PathOps(specs[s], specs[s].paths[0..]) + AllOps(specs[s + 1..])
  {
    if s < |specs| {
      assert specs[s..][1..] == specs[s + 1..] && specs[s].paths[0..] == specs[s].paths;
    }
  }

  lemma AllOpsEnd(specs: seq<Spec>)
    ensures forall t :: ScanAll(t, AllOps(specs[|specs|..])) == t
  {
  }

  lemma PathOpsUnfold(spec: Spec, i: nat)
    requires i < |spec.paths|
    ensures PathOps(spec, spec.paths[i..])
            == VerbOps(spec, spec.paths[i], VERBS[0..]) + PathOps(spec, spec.paths[i + 1..])
  {
    assert spec.paths[i..][1..] == spec.paths[i + 1..] && VERBS[0..] == VERBS;
  }

  lemma VerbOpsUnfold(spec: Spec, item: PathItem, t: Tables, v: nat)
    requires v < |VERBS|
    ensures var verb := VERBS[v];
            ScanAll(t, VerbOps(spec, item, VERBS[v..]))
            == if verb in item.ops && item.ops[verb] != ""
               then ScanAll(Scan(t, Op(Upper(verb), spec.prefix + item.key, spec.dir, item.ops[verb])),
                            VerbOps(spec, item, VERBS[v + 1..]))
               else ScanAll(t, VerbOps(spec, item, VERBS[v + 1..]))
  {
    assert VERBS[v..][1..] == VERBS[v + 1..];
    var rest := VerbOps(spec, item, VERBS[v + 1..]);
    if VERBS[v] in item.ops && item.ops[VERBS[v]] != "" {
      var op := Op(Upper(VERBS[v]), spec.prefix + item.key, spec.dir, item.ops[VERBS[v]]);
      assert ([op] + rest)[1..] == rest;
    }
  }

  lemma ScanIs(t: Tables, op: Op, full: string, wk: string)
    requires full == ReplaceBraces(op.orig, "{id}") && wk == ReplaceBraces(op.orig, "X")
    ensures var wkey := op.verb + " " + wk;
            Scan(t, op) == Tables(t.opBy[op.verb + " " + full := op.dir + "." + op.id],
                                  if wkey !in t.wire || |op.orig| > t.wire[wkey].length
                                  then t.wire[wkey := Winner(|op.orig|, op.dir + "." + op.id)] else t.wire)
  {
  }

  lemma NothingLeft(spec: Spec, item: PathItem)
    ensures forall t :: ScanAll(t, VerbOps(spec, item, VERBS[|VERBS|..])) == t
    ensures forall t :: ScanAll(t, PathOps(spec, spec.paths[|spec.paths|..])) == t
  {
  }
}
