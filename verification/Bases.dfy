/** Flattening the `extends` chains of the resource bases into one method list each. */
module Bases {
  import opened Text
  import opened UrlCode

  datatype Base = Base(parent: string, methods: seq<string>)

  /** The method list of a base, its parent's first; fails on an undefined base and on a cycle. */
  function Resolve(bases: map<string, Base>, name: string, seen: set<string>): Result<seq<string>>
    decreases bases.Keys - seen
  {
    if name in seen then Err("x-sdk-bases: cyclic extends at " + name)
    else if name !in bases then Err("x-sdk-bases: undefined base " + Quote(name))
    else
      var bs := bases[name];
      if bs.parent == "" then Ok(bs.methods)
      else
        match Resolve(bases, bs.parent, seen + {name})
        case Err(e) => Err(e)
        case Ok(inherited) => Ok(inherited + bs.methods)
  }

  // ---- chains ----

  /** `chain` starts at `name` and follows `extends`, through defined bases only, to one that extends nothing. */
  predicate IsChain(bases: map<string, Base>, name: string, chain: seq<string>)
    decreases chain
  {
    && chain != [] && chain[0] == name && name in bases
    && if bases[name].parent == "" then |chain| == 1 else IsChain(bases, bases[name].parent, chain[1..])
  }

  /** The bases' own lists, from the end of the chain to its start. */
  function RootFirst(bases: map<string, Base>, chain: seq<string>): seq<string>
    requires forall name :: name in chain ==> name in bases
  {
    if chain == [] then [] else RootFirst(bases, chain[1..]) + bases[chain[0]].methods
  }

  ghost predicate Sound(bases: map<string, Base>, name: string) {
    exists chain :: IsChain(bases, name, chain)
  }

  lemma {:induction false} ChainDefined(bases: map<string, Base>, name: string, chain: seq<string>)
    requires IsChain(bases, name, chain)
    ensures forall n :: n in chain ==> n in bases
    decreases chain
  {
    assert chain == [chain[0]] + chain[1..];
    if bases[name].parent != "" {
      ChainDefined(bases, bases[name].parent, chain[1..]);
    }
  }

  lemma {:induction false} OneChain(bases: map<string, Base>, name: string, a: seq<string>, b: seq<string>)
    requires IsChain(bases, name, a) && IsChain(bases, name, b)
    ensures a == b
    decreases a
  {
    assert a == [a[0]] + a[1..] && b == [b[0]] + b[1..];
    if bases[name].parent != "" {
      OneChain(bases, bases[name].parent, a[1..], b[1..]);
    }
  }

  lemma {:induction false} ChainTail(bases: map<string, Base>, name: string, chain: seq<string>, i: nat)
    requires IsChain(bases, name, chain) && i < |chain|
    ensures IsChain(bases, chain[i], chain[i..])
    decreases i
  {
    if i > 0 {
      ChainTail(bases, bases[name].parent, chain[1..], i - 1);
      assert chain[1..][i - 1..] == chain[i..];
    }
  }

  /** A chain that ends meets no base twice. */
  lemma ChainAcyclic(bases: map<string, Base>, name: string, chain: seq<string>, i: nat, j: nat)
    requires IsChain(bases, name, chain) && i < j < |chain|
    ensures chain[i] != chain[j]
  {
    assert |chain[i..]| != |chain[j..]|;
    if chain[i] == chain[j] {
      ChainTail(bases, name, chain, i);
      ChainTail(bases, name, chain, j);
      OneChain(bases, chain[i], chain[i..], chain[j..]);
    }
  }

  /** Along a chain that avoids `seen` the bases resolve to the lists of the chain, root first. */
  lemma {:induction false} ChainResolves(bases: map<string, Base>, name: string, chain: seq<string>, seen: set<string>)
    requires IsChain(bases, name, chain) && forall n :: n in chain ==> n !in seen && n in bases
    ensures Resolve(bases, name, seen) == Ok(RootFirst(bases, chain))
    decreases chain
  {
    if bases[name].parent == "" {
      assert chain[1..] == [] && [] + bases[name].methods == bases[name].methods;
    } else {
      forall n | n in chain[1..] ensures n !in seen + {name} && n in bases {
        var j :| 0 <= j < |chain[1..]| && chain[1..][j] == n;
        assert n == chain[j + 1] && n in chain;
        ChainAcyclic(bases, name, chain, 0, j + 1);
      }
      ChainResolves(bases, bases[name].parent, chain[1..], seen + {name});
    }
  }

  lemma {:induction false} ResolvedChain(bases: map<string, Base>, name: string, seen: set<string>)
      returns (chain: seq<string>)
    requires Resolve(bases, name, seen).Ok?
    ensures IsChain(bases, name, chain)
    decreases bases.Keys - seen
  {
    if bases[name].parent == "" {
      chain := [name];
    } else {
      var rest := ResolvedChain(bases, bases[name].parent, seen + {name});
      chain := [name] + rest;
      assert chain[1..] == rest;
    }
  }

  /** A base resolves exactly when its chain is defined and ends, and then to the lists of that chain, root first. */
  lemma ResolvesExactly(bases: map<string, Base>, name: string)
    ensures Resolve(bases, name, {}).Ok? <==> Sound(bases, name)
    ensures forall chain :: IsChain(bases, name, chain) ==>
              (forall n :: n in chain ==> n in bases)
              && Resolve(bases, name, {}) == Ok(RootFirst(bases, chain))
  {
    forall chain | IsChain(bases, name, chain)
      ensures (forall n :: n in chain ==> n in bases) && Resolve(bases, name, {}) == Ok(RootFirst(bases, chain))
    {
      ChainDefined(bases, name, chain);
      ChainResolves(bases, name, chain, {});
    }
    if Resolve(bases, name, {}).Ok? {
      var chain := ResolvedChain(bases, name, {});
    }
  }

  // ---- why a base does not resolve ----

  /** `path` follows `extends` from `name` over defined bases, none twice, to `end`. */
  predicate Reaches(bases: map<string, Base>, name: string, path: seq<string>, end: string)
    decreases path
  {
    if path == [] then name == end
    else
      && path[0] == name && name in bases && bases[name].parent != ""
      && name !in path[1..] && Reaches(bases, bases[name].parent, path[1..], end)
  }

  lemma {:induction false} FailsAlong(bases: map<string, Base>, name: string, path: seq<string>, end: string,
      seen: set<string>)
    requires Reaches(bases, name, path, end) && (forall n :: n in path ==> n !in seen)
    requires end in path || end in seen || end !in bases
    ensures Resolve(bases, name, seen) ==
            if end in path || end in seen then Err("x-sdk-bases: cyclic extends at " + end)
            else Err("x-sdk-bases: undefined base " + Quote(end))
    decreases path
  {
    if path != [] {
      assert path == [path[0]] + path[1..];
      FailsAlong(bases, bases[name].parent, path[1..], end, seen + {name});
    }
  }

  lemma {:induction false} FailsSomewhere(bases: map<string, Base>, name: string, seen: set<string>)
    returns (path: seq<string>, end: string)
    requires Resolve(bases, name, seen).Err?
    ensures Reaches(bases, name, path, end) && (forall n :: n in path ==> n !in seen)
    ensures end in path || end in seen || end !in bases
    decreases bases.Keys - seen
  {
    path, end := [], name;
    if name !in seen && name in bases {
      var rest;
      rest, end := FailsSomewhere(bases, bases[name].parent, seen + {name});
      path := [name] + rest;
      assert path[1..] == rest;
    }
  }

  /** A failure names the base that following `extends` meets a second time, or the one that is not defined. */
  lemma FailsAt(bases: map<string, Base>, name: string) returns (path: seq<string>, end: string)
    requires Resolve(bases, name, {}).Err?
    ensures Reaches(bases, name, path, end) && (end in path || end !in bases)
    ensures Resolve(bases, name, {}) ==
            if end in path then Err("x-sdk-bases: cyclic extends at " + end)
            else Err("x-sdk-bases: undefined base " + Quote(end))
  {
    path, end := FailsSomewhere(bases, name, {});
    FailsAlong(bases, name, path, end, {});
  }

  method ResolveBase(bases: map<string, Base>, name: string, seen: set<string>) returns (r: Result<seq<string>>)
    ensures r == Resolve(bases, name, seen)
    decreases bases.Keys - seen
  {
    if name in seen {
      return Err("x-sdk-bases: cyclic extends at " + name);
    }
    if name !in bases {
      return Err("x-sdk-bases: undefined base " + Quote(name));
    }
    var bs := bases[name];
    var methods: seq<string> := [];
    if bs.parent != "" {
      var inherited := ResolveBase(bases, bs.parent, seen + {name});
      if inherited.Err? {
        return inherited;
      }
      methods := methods + inherited.value;
      assert methods == inherited.value;
    }
    methods := methods + bs.methods;
    assert bs.parent == "" ==> methods == bs.methods;
    return Ok(methods);
  }

  /** The bases once each has its flattened list. */
  predicate Flattened(bases: map<string, Base>, flat: map<string, Base>) {
    && flat.Keys == bases.Keys
    && forall name :: name in bases ==>
         && Resolve(bases, name, {}).Ok?
         && flat[name] == bases[name].(methods := Resolve(bases, name, {}).value)
  }

  /**
   * The two loops over the map of bases, each in whatever order the map gives: every list is flattened from
   * the bases as they were loaded, and only then are the flattened lists stored.
   */
  method LoadBases(bases: map<string, Base>) returns (r: Result<map<string, Base>>)
    ensures r.Ok? <==> forall name :: name in bases ==> Sound(bases, name)
    ensures r.Ok? ==> Flattened(bases, r.value)
  {
    var flat: map<string, seq<string>> := map[];
    var todo := bases.Keys;
    while todo != {}
      invariant todo <= bases.Keys && flat.Keys == bases.Keys - todo
      invariant forall name :: name in flat ==> Resolve(bases, name, {}) == Ok(flat[name])
    {
      var name :| name in todo;
      var m := ResolveBase(bases, name, {});
      ResolvesExactly(bases, name);
      if m.Err? {
        return Err(m.reason);
      }
      flat := flat[name := m.value];
      todo := todo - {name};
    }
    forall name | name in bases ensures Sound(bases, name) {
      ResolvesExactly(bases, name);
    }
    var out := bases;
    todo := flat.Keys;
    while todo != {}
      invariant todo <= flat.Keys == bases.Keys == out.Keys
      invariant forall name :: name in todo ==> out[name] == bases[name]
      invariant forall name :: name in bases && name !in todo ==> out[name] == bases[name].(methods := flat[name])
    {
      var name :| name in todo;
      out := out[name := out[name].(methods := flat[name])];
      todo := todo - {name};
    }
    return Ok(out);
  }
}
