/**
 * The search for a promoted method along the embeddings of a struct, as both enumerators run it:
 * depth first, with the structs already entered kept in a set, over a graph that may have cycles.
 * A struct is stored under its package and name, so the key it is entered under is the one it was found by.
 */
module Promotion {
  import opened Text

  /** One struct; `methods` maps the names it declares to what the enumerator records of them. */
  datatype Facts<S> = Facts(pkg: string, embeds: seq<string>, methods: map<string, S>)

  function KeyOf(pkg: string, name: string): string {
    pkg + "." + name
  }

  datatype Visit<S> = Visit(found: Option<S>, visited: set<string>)

  /** The search from the i-th embedding of `f` on, starting with the keys in `visited` already entered. */
  function SearchFrom<S>(structs: map<string, Facts<S>>, f: Facts<S>, i: nat, visited: set<string>,
      m: string): (r: Visit<S>)
    requires i <= |f.embeds|
    ensures visited <= r.visited
    decreases structs.Keys - visited, |f.embeds| - i
  {
    if i == |f.embeds| then Visit(None, visited)
    else
      var key := KeyOf(f.pkg, f.embeds[i]);
      if key !in structs || key in visited then SearchFrom(structs, f, i + 1, visited, m)
      else
        var base := structs[key];
        var entered := visited + {key};
        if m in base.methods then Visit(Some(base.methods[m]), entered)
        else
          var r := SearchFrom(structs, base, 0, entered, m);
          if r.found.Some? then r
          else SearchFrom(structs, f, i + 1, r.visited, m)
  }

  class Walk<S> {
    var visited: set<string>

    constructor ()
      ensures visited == {}
    {
      visited := {};
    }

    method Search(structs: map<string, Facts<S>>, f: Facts<S>, m: string) returns (sig: Option<S>)
      modifies this
      ensures Visit(sig, visited) == SearchFrom(structs, f, 0, old(visited), m)
      decreases structs.Keys - visited
    {
      for i := 0 to |f.embeds|
        invariant old(visited) <= visited
        invariant SearchFrom(structs, f, 0, old(visited), m) == SearchFrom(structs, f, i, visited, m)
      {
        var key := KeyOf(f.pkg, f.embeds[i]);
        if key !in structs {
          continue;
        }
        var base := structs[key];
        if key in visited {
          continue;
        }
        visited := visited + {key};
        if m in base.methods {
          return Some(base.methods[m]);
        }
        sig := Search(structs, base, m);
        if sig.Some? {
          return;
        }
      }
      sig := None;
    }
  }

  /** The declaration the enumerators take for a method that `f` does not declare itself. */
  method ResolvePromoted<S>(structs: map<string, Facts<S>>, f: Facts<S>, m: string) returns (sig: Option<S>)
    ensures sig == Resolved(structs, f, m)
  {
    var walk := new Walk<S>();
    sig := walk.Search(structs, f, m);
  }

  function Resolved<S>(structs: map<string, Facts<S>>, f: Facts<S>, m: string): Option<S> {
    SearchFrom(structs, f, 0, {}, m).found
  }

  // ---- what is reachable ----

  predicate Embeds<S>(structs: map<string, Facts<S>>, f: Facts<S>, key: string) {
    key in structs && exists i :: 0 <= i < |f.embeds| && key == KeyOf(f.pkg, f.embeds[i])
  }

  /** `path` leads from `f` over one or more embeddings, each key naming the struct embedded next. */
  predicate Leads<S>(structs: map<string, Facts<S>>, f: Facts<S>, path: seq<string>)
    decreases path
  {
    && path != []
    && Embeds(structs, f, path[0])
    && (|path| > 1 ==> Leads(structs, structs[path[0]], path[1..]))
  }

  predicate Declares<S>(structs: map<string, Facts<S>>, key: string, m: string) {
    key in structs && m in structs[key].methods
  }

  function Last(path: seq<string>): string
    requires path != []
  {
    path[|path| - 1]
  }

  /** What the search has found is declared at the end of a path. */
  lemma {:induction false} FoundIsReachable<S>(structs: map<string, Facts<S>>, f: Facts<S>, i: nat,
      visited: set<string>, m: string)
    returns (path: seq<string>)
    requires i <= |f.embeds| && SearchFrom(structs, f, i, visited, m).found.Some?
    ensures Leads(structs, f, path) && Declares(structs, Last(path), m)
    ensures SearchFrom(structs, f, i, visited, m).found == Some(structs[Last(path)].methods[m])
    decreases structs.Keys - visited, |f.embeds| - i
  {
    var key := KeyOf(f.pkg, f.embeds[i]);
    if key !in structs || key in visited {
      path := FoundIsReachable(structs, f, i + 1, visited, m);
    } else {
      var base := structs[key];
      var entered := visited + {key};
      if m in base.methods {
        path := [key];
      } else {
        var r := SearchFrom(structs, base, 0, entered, m);
        if r.found.Some? {
          var rest := FoundIsReachable(structs, base, 0, entered, m);
          path := [key] + rest;
          assert path[1..] == rest;
        } else {
          path := FoundIsReachable(structs, f, i + 1, r.visited, m);
        }
      }
    }
  }

  /** No key in `region` declares the method, and `seen` holds everything its structs embed. */
  predicate Explored<S>(structs: map<string, Facts<S>>, region: set<string>, seen: set<string>, m: string) {
    forall key :: key in region ==>
      !Declares(structs, key, m) && key in structs && EmbedsWithin(structs, structs[key], 0, seen)
  }

  /** From the i-th on, the embeddings that name a known struct are in `seen`. */
  predicate EmbedsWithin<S>(structs: map<string, Facts<S>>, f: Facts<S>, i: nat, seen: set<string>) {
    forall j :: i <= j < |f.embeds| && KeyOf(f.pkg, f.embeds[j]) in structs ==> KeyOf(f.pkg, f.embeds[j]) in seen
  }

  /** A search without a result has explored all it entered. */
  lemma {:induction false} NothingMissed<S>(structs: map<string, Facts<S>>, f: Facts<S>, i: nat,
      visited: set<string>, m: string)
    requires i <= |f.embeds| && SearchFrom(structs, f, i, visited, m).found.None?
    ensures var seen := SearchFrom(structs, f, i, visited, m).visited;
            Explored(structs, seen - visited, seen, m) && EmbedsWithin(structs, f, i, seen)
    decreases structs.Keys - visited, |f.embeds| - i
  {
    if i < |f.embeds| {
      var key := KeyOf(f.pkg, f.embeds[i]);
      if key !in structs || key in visited {
        NothingMissed(structs, f, i + 1, visited, m);
      } else {
        var base := structs[key];
        var entered := visited + {key};
        var r := SearchFrom(structs, base, 0, entered, m);
        NothingMissed(structs, base, 0, entered, m);
        NothingMissed(structs, f, i + 1, r.visited, m);
      }
    }
  }

  /** Every path stays within an explored region that holds its first step. */
  lemma {:induction false} PathStays<S>(structs: map<string, Facts<S>>, f: Facts<S>, path: seq<string>,
      seen: set<string>, m: string)
    requires Leads(structs, f, path) && EmbedsWithin(structs, f, 0, seen) && Explored(structs, seen, seen, m)
    ensures Last(path) in seen
    decreases path
  {
    assert path[0] in seen;
    if |path| > 1 {
      PathStays(structs, structs[path[0]], path[1..], seen, m);
    }
  }

  /** The search finds a declaration exactly when one is reachable over one or more embeddings. */
  lemma FoundExactly<S>(structs: map<string, Facts<S>>, f: Facts<S>, m: string)
    ensures Resolved(structs, f, m).Some?
       <==> exists path :: Leads(structs, f, path) && Declares(structs, Last(path), m)
  {
    if Resolved(structs, f, m).Some? {
      var path := FoundIsReachable(structs, f, 0, {}, m);
    } else {
      NothingMissed(structs, f, 0, {}, m);
      var seen := SearchFrom(structs, f, 0, {}, m).visited;
      assert seen - {} == seen;
      forall path | Leads(structs, f, path) ensures !Declares(structs, Last(path), m) {
        PathStays(structs, f, path, seen, m);
      }
    }
  }

  // ---- the two enumerators ----

  /** The same embeddings and the same declared names, whatever is recorded of a method. */
  predicate SameFacts<S, T>(f: Facts<S>, g: Facts<T>) {
    f.pkg == g.pkg && f.embeds == g.embeds && f.methods.Keys == g.methods.Keys
  }

  predicate SameGraph<S, T>(a: map<string, Facts<S>>, b: map<string, Facts<T>>) {
    a.Keys == b.Keys && forall key :: key in a ==> SameFacts(a[key], b[key])
  }

  lemma {:induction false} SearchesAgree<S, T>(a: map<string, Facts<S>>, b: map<string, Facts<T>>,
                                                f: Facts<S>, g: Facts<T>, i: nat, visited: set<string>, m: string)
    requires SameGraph(a, b) && SameFacts(f, g) && i <= |f.embeds|
    ensures var r, s := SearchFrom(a, f, i, visited, m), SearchFrom(b, g, i, visited, m);
            r.visited == s.visited && (r.found.Some? <==> s.found.Some?)
    decreases a.Keys - visited, |f.embeds| - i
  {
    if i < |f.embeds| {
      var key := KeyOf(f.pkg, f.embeds[i]);
      if key !in a || key in visited {
        SearchesAgree(a, b, f, g, i + 1, visited, m);
      } else {
        var entered := visited + {key};
        assert SameFacts(a[key], b[key]);
        assert m in a[key].methods <==> m in b[key].methods;
        if m !in a[key].methods {
          SearchesAgree(a, b, a[key], b[key], 0, entered, m);
          var r := SearchFrom(a, a[key], 0, entered, m);
          if r.found.None? {
            SearchesAgree(a, b, f, g, i + 1, r.visited, m);
          }
        }
      }
    }
  }

  /** The surface lists a promoted method exactly when the signatures can resolve it. */
  lemma EnumeratorsAgree<S, T>(a: map<string, Facts<S>>, b: map<string, Facts<T>>, f: Facts<S>, g: Facts<T>, m: string)
    requires SameGraph(a, b) && SameFacts(f, g)
    ensures Resolved(a, f, m).Some? <==> Resolved(b, g, m).Some?
  {
    SearchesAgree(a, b, f, g, 0, {}, m);
  }

  /**
   * Go itself promotes the declaration at the shallowest depth; depth first takes a deeper one when its
   * branch comes first. Here "p.D" embeds A and B, A embeds C, and both B and C declare the method.
   */
  lemma DeeperDeclarationWins()
    ensures var structs := map["p.A" := Facts("p", ["C"], map[]), "p.B" := Facts("p", [], map["Get" := 1]),
                               "p.C" := Facts("p", [], map["Get" := 2])];
            var f := Facts("p", ["A", "B"], map[]);
            && Leads(structs, f, ["p.B"]) && Declares(structs, "p.B", "Get")
            && Resolved(structs, f, "Get") == Some(2)
  {
    var a: Facts<int>, c := Facts("p", ["C"], map[]), Facts("p", [], map["Get" := 2]);
    var structs := map["p.A" := a, "p.B" := Facts("p", [], map["Get" := 1]), "p.C" := c];
    var f: Facts<int> := Facts("p", ["A", "B"], map[]);
    assert KeyOf("p", "A") == "p.A" && KeyOf("p", "B") == "p.B" && KeyOf("p", "C") == "p.C";
    assert "p.A" != "p.B" && "p.B" != "p.C" && "p.A" != "p.C" by {
      assert "p.A"[2] == 'A' && "p.B"[2] == 'B' && "p.C"[2] == 'C';
    }
    assert f.embeds[1] == "B";
    assert SearchFrom(structs, a, 0, {"p.A"}, "Get").found == Some(2);
    assert {} + {"p.A"} == {"p.A"};
  }
}
