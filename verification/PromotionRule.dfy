/**
 * The search against Go's own rule, by which an embedded method is promoted when it is the only one at the least
 * depth. The search follows, struct by struct, the first embedding from which a declaration can be reached.
 */
module PromotionRule {
  import opened Text
  import opened Promotion

  // ---- paths ----

  ghost predicate LeadsTo<S>(structs: map<string, Facts<S>>, f: Facts<S>, key: string) {
    exists path :: Leads(structs, f, path) && Last(path) == key
  }

  /** A path to a struct that declares the method. */
  ghost predicate Finds<S>(structs: map<string, Facts<S>>, f: Facts<S>, m: string, path: seq<string>) {
    Leads(structs, f, path) && Declares(structs, Last(path), m)
  }

  /** The struct under the key declares the method or leads to one that does. */
  ghost predicate Alive<S>(structs: map<string, Facts<S>>, key: string, m: string) {
    key in structs && (Declares(structs, key, m) || exists path :: Finds(structs, structs[key], m, path))
  }

  lemma {:induction false} LeadsOn<S>(structs: map<string, Facts<S>>, f: Facts<S>, a: seq<string>, b: seq<string>)
    requires Leads(structs, f, a) && Last(a) in structs && Leads(structs, structs[Last(a)], b)
    ensures Leads(structs, f, a + b) && Last(a + b) == Last(b)
    decreases a
  {
    if |a| == 1 {
      assert (a + b)[1..] == b;
    } else {
      LeadsOn(structs, structs[a[0]], a[1..], b);
      assert (a + b)[1..] == a[1..] + b;
    }
  }

  lemma StepTo<S>(structs: map<string, Facts<S>>, f: Facts<S>, key: string, path: seq<string>)
    requires Embeds(structs, f, key) && Leads(structs, structs[key], path)
    ensures Leads(structs, f, [key] + path) && Last([key] + path) == Last(path)
  {
    assert ([key] + path)[1..] == path;
  }

  // ---- the first way ----

  /** From the i-th embedding on, the first from which a declaration can be reached is `key`. */
  ghost predicate FirstAlive<S>(structs: map<string, Facts<S>>, f: Facts<S>, i: nat, m: string, key: string) {
    exists j :: i <= j < |f.embeds| && KeyOf(f.pkg, f.embeds[j]) == key && Alive(structs, key, m)
                && forall k :: i <= k < j ==> !Alive(structs, KeyOf(f.pkg, f.embeds[k]), m)
  }

  /** Each key is the first embedding from which a declaration can be reached, up to the first declaration. */
  ghost predicate FirstWay<S>(structs: map<string, Facts<S>>, f: Facts<S>, i: nat, m: string, path: seq<string>)
    decreases path
  {
    && path != [] && FirstAlive(structs, f, i, m, path[0])
    && if Declares(structs, path[0], m) then |path| == 1 else FirstWay(structs, structs[path[0]], 0, m, path[1..])
  }

  lemma {:induction false} FirstWayFinds<S>(structs: map<string, Facts<S>>, f: Facts<S>, i: nat, m: string,
      path: seq<string>)
    requires FirstWay(structs, f, i, m, path)
    ensures Finds(structs, f, m, path)
    decreases path
  {
    if |path| > 1 {
      FirstWayFinds(structs, structs[path[0]], 0, m, path[1..]);
    }
  }

  lemma FirstAliveUnique<S>(structs: map<string, Facts<S>>, f: Facts<S>, i: nat, m: string, a: string, b: string)
    requires FirstAlive(structs, f, i, m, a) && FirstAlive(structs, f, i, m, b)
    ensures a == b
  {
    hide Alive;
    var j :| i <= j < |f.embeds| && KeyOf(f.pkg, f.embeds[j]) == a && Alive(structs, a, m)
             && forall k :: i <= k < j ==> !Alive(structs, KeyOf(f.pkg, f.embeds[k]), m);
    var l :| i <= l < |f.embeds| && KeyOf(f.pkg, f.embeds[l]) == b && Alive(structs, b, m)
             && forall k :: i <= k < l ==> !Alive(structs, KeyOf(f.pkg, f.embeds[k]), m);
    assert j == l;
  }

  lemma {:induction false} FirstWayUnique<S>(structs: map<string, Facts<S>>, f: Facts<S>, i: nat, m: string,
                                              a: seq<string>, b: seq<string>)
    requires FirstWay(structs, f, i, m, a) && FirstWay(structs, f, i, m, b)
    ensures a == b
    decreases a
  {
    hide Finds;
    FirstAliveUnique(structs, f, i, m, a[0], b[0]);
    assert a == [a[0]] + a[1..] && b == [b[0]] + b[1..];
    if |a| > 1 {
      FirstWayUnique(structs, structs[a[0]], 0, m, a[1..], b[1..]);
    }
  }

  /** What follows a key on the first way is the first way from its struct. */
  lemma {:induction false} FirstWayTail<S>(structs: map<string, Facts<S>>, f: Facts<S>, i: nat, m: string,
                                            path: seq<string>, n: nat)
    requires FirstWay(structs, f, i, m, path) && n < |path|
    ensures path[n] in structs && Alive(structs, path[n], m)
    ensures n + 1 < |path| ==>
              FirstWay(structs, structs[path[n]], 0, m, path[n + 1..]) && !Declares(structs, path[n], m)
    ensures n + 1 == |path| ==> Declares(structs, path[n], m)
    decreases path
  {
    hide Finds;
    if n > 0 {
      FirstWayTail(structs, structs[path[0]], 0, m, path[1..], n - 1);
      assert path[1..][n..] == path[n + 1..];
    }
  }

  lemma FirstWayHasNoRepeats<S>(structs: map<string, Facts<S>>, f: Facts<S>, i: nat, m: string,
                                path: seq<string>, a: nat, b: nat)
    requires FirstWay(structs, f, i, m, path) && a < b < |path|
    ensures path[a] != path[b]
  {
    FirstWayTail(structs, f, i, m, path, a);
    FirstWayTail(structs, f, i, m, path, b);
    hide FirstWay, Alive;
    assert |path[a + 1..]| != |path[b + 1..]|;
    if path[a] == path[b] {
      FirstWayUnique(structs, structs[path[a]], 0, m, path[a + 1..], path[b + 1..]);
    }
  }

  // ---- the search follows the first way ----

  /** Every key that the search enters can be reached. */
  lemma {:induction false} EnteredIsReached<S>(structs: map<string, Facts<S>>, f: Facts<S>, i: nat,
      visited: set<string>, m: string, key: string)
    requires i <= |f.embeds| && key in SearchFrom(structs, f, i, visited, m).visited && key !in visited
    ensures LeadsTo(structs, f, key)
    decreases structs.Keys - visited, |f.embeds| - i
  {
    var k := KeyOf(f.pkg, f.embeds[i]);
    if k !in structs || k in visited {
      EnteredIsReached(structs, f, i + 1, visited, m, key);
    } else {
      var base, entered := structs[k], visited + {k};
      assert Embeds(structs, f, k) && Leads(structs, f, [k]) && Last([k]) == k;
      if key != k && m !in base.methods {
        var r := SearchFrom(structs, base, 0, entered, m);
        if key in r.visited {
          EnteredIsReached(structs, base, 0, entered, m, key);
          var path :| Leads(structs, base, path) && Last(path) == key;
          StepTo(structs, f, k, path);
        } else {
          EnteredIsReached(structs, f, i + 1, r.visited, m, key);
        }
      }
    }
  }

  /** Where the search finds something in a struct, the struct leads to a declaration. */
  lemma FoundIsAlive<S>(structs: map<string, Facts<S>>, key: string, visited: set<string>, m: string)
    requires key in structs && SearchFrom(structs, structs[key], 0, visited, m).found.Some?
    ensures Alive(structs, key, m)
  {
    var path := FoundIsReachable(structs, structs[key], 0, visited, m);
    assert Finds(structs, structs[key], m, path);
  }

  /** What leads to such a struct is such a struct. */
  lemma AliveBelow<S>(structs: map<string, Facts<S>>, key: string, path: seq<string>, m: string)
    requires key in structs && Leads(structs, structs[key], path) && Alive(structs, Last(path), m)
    ensures Alive(structs, key, m)
  {
    var k := Last(path);
    if Declares(structs, k, m) {
      assert Finds(structs, structs[key], m, path);
    } else {
      var rest :| Finds(structs, structs[k], m, rest);
      LeadsOn(structs, structs[key], path, rest);
      assert Finds(structs, structs[key], m, path + rest);
    }
  }

  /** A struct that leads to no declaration is left without a result, and all it leads to is as barren. */
  lemma DeadEnd<S>(structs: map<string, Facts<S>>, key: string, visited: set<string>, m: string)
    requires key in structs && !Alive(structs, key, m)
    ensures m !in structs[key].methods
    ensures var r := SearchFrom(structs, structs[key], 0, visited, m);
            r.found.None? && forall k :: k in r.visited && k !in visited ==> !Alive(structs, k, m)
  {
    var r := SearchFrom(structs, structs[key], 0, visited, m);
    if r.found.Some? {
      FoundIsAlive(structs, key, visited, m);
    }
    forall k | k in r.visited && k !in visited ensures !Alive(structs, k, m) {
      EnteredIsReached(structs, structs[key], 0, visited, m, k);
      var path :| Leads(structs, structs[key], path) && Last(path) == k;
      if Alive(structs, k, m) {
        AliveBelow(structs, key, path, m);
      }
    }
  }

  ghost predicate NoneVisited(path: seq<string>, visited: set<string>) {
    forall n :: 0 <= n < |path| ==> path[n] !in visited
  }

  lemma {:induction false} Follows<S>(structs: map<string, Facts<S>>, f: Facts<S>, i: nat, visited: set<string>,
                                       m: string, path: seq<string>)
    requires i <= |f.embeds| && FirstWay(structs, f, i, m, path) && NoneVisited(path, visited)
    ensures Declares(structs, Last(path), m)
    ensures SearchFrom(structs, f, i, visited, m).found == Some(structs[Last(path)].methods[m])
    decreases structs.Keys - visited, |f.embeds| - i
  {
    FirstWayFinds(structs, f, i, m, path);
    var key := KeyOf(f.pkg, f.embeds[i]);
    if key == path[0] {
      var base, entered := structs[key], visited + {key};
      if m !in base.methods {
        forall n | 0 < n < |path| ensures path[n] != path[0] {
          FirstWayHasNoRepeats(structs, f, i, m, path, 0, n);
        }
        Follows(structs, base, 0, entered, m, path[1..]);
      }
    } else {
      FirstAliveLater(structs, f, i, m, path[0]);
      assert FirstWay(structs, f, i + 1, m, path);
      if key !in structs || key in visited {
        Follows(structs, f, i + 1, visited, m, path);
      } else {
        var entered := visited + {key};
        DeadEnd(structs, key, entered, m);
        var r := SearchFrom(structs, structs[key], 0, entered, m);
        forall n | 0 <= n < |path| ensures path[n] !in r.visited {
          FirstWayTail(structs, f, i, m, path, n);
        }
        Follows(structs, f, i + 1, r.visited, m, path);
      }
    }
  }

  lemma FirstAliveLater<S>(structs: map<string, Facts<S>>, f: Facts<S>, i: nat, m: string, key: string)
    requires i < |f.embeds| && FirstAlive(structs, f, i, m, key) && KeyOf(f.pkg, f.embeds[i]) != key
    ensures FirstAlive(structs, f, i + 1, m, key) && !Alive(structs, KeyOf(f.pkg, f.embeds[i]), m)
  {
    hide Alive;
  }

  /** Wherever the first way ends, the search has found its declaration. Cycles beside it do not matter. */
  lemma FirstWayIsFound<S>(structs: map<string, Facts<S>>, f: Facts<S>, m: string, path: seq<string>)
    requires FirstWay(structs, f, 0, m, path)
    ensures Declares(structs, Last(path), m) && Resolved(structs, f, m) == Some(structs[Last(path)].methods[m])
  {
    Follows(structs, f, 0, {}, m, path);
  }

  // ---- without cycles there is a first way ----

  ghost predicate Acyclic<S>(structs: map<string, Facts<S>>) {
    forall key :: key in structs ==> !LeadsTo(structs, structs[key], key)
  }

  /** Every struct passed so far leads to `f`, that is to whatever `f` leads to. */
  ghost predicate Behind<S>(structs: map<string, Facts<S>>, f: Facts<S>, passed: set<string>) {
    forall key, to :: key in passed && LeadsTo(structs, f, to) ==> key in structs && LeadsTo(structs, structs[key], to)
  }

  lemma FindFirstAlive<S>(structs: map<string, Facts<S>>, f: Facts<S>, m: string) returns (key: string)
    requires exists path :: Finds(structs, f, m, path)
    ensures FirstAlive(structs, f, 0, m, key) && Embeds(structs, f, key)
  {
    var path :| Finds(structs, f, m, path);
    assert Alive(structs, path[0], m) by {
      if |path| > 1 { assert Finds(structs, structs[path[0]], m, path[1..]); }
    }
    var n :| 0 <= n < |f.embeds| && path[0] == KeyOf(f.pkg, f.embeds[n]);
    hide Alive, Finds, Leads;
    var j := 0;
    while !Alive(structs, KeyOf(f.pkg, f.embeds[j]), m)
      invariant j <= n && forall k :: 0 <= k < j ==> !Alive(structs, KeyOf(f.pkg, f.embeds[k]), m)
      decreases n - j
    {
      j := j + 1;
    }
    key := KeyOf(f.pkg, f.embeds[j]);
    AliveIsKnown(structs, key, m);
  }

  lemma AliveIsKnown<S>(structs: map<string, Facts<S>>, key: string, m: string)
    requires Alive(structs, key, m)
    ensures key in structs
    ensures !Declares(structs, key, m) ==> exists path :: Finds(structs, structs[key], m, path)
  {
  }

  lemma BehindNext<S>(structs: map<string, Facts<S>>, f: Facts<S>, passed: set<string>, key: string)
    requires Acyclic(structs) && Behind(structs, f, passed) && Embeds(structs, f, key)
    ensures key !in passed && Behind(structs, structs[key], passed + {key})
  {
    assert Leads(structs, f, [key]) && Last([key]) == key;
    assert LeadsTo(structs, f, key);
    forall to | LeadsTo(structs, structs[key], to) ensures LeadsTo(structs, f, to) {
      var path :| Leads(structs, structs[key], path) && Last(path) == to;
      StepTo(structs, f, key, path);
    }
  }

  lemma {:induction false} MakeFirstWay<S>(structs: map<string, Facts<S>>, f: Facts<S>, passed: set<string>, m: string)
    returns (path: seq<string>)
    requires Acyclic(structs) && Behind(structs, f, passed) && exists p :: Finds(structs, f, m, p)
    ensures FirstWay(structs, f, 0, m, path)
    decreases structs.Keys - passed
  {
    hide Acyclic, Behind, Finds, Alive, FirstAlive;
    var key := FindFirstAlive(structs, f, m);
    assert key in structs;
    if Declares(structs, key, m) {
      path := [key];
    } else {
      FirstAliveIsAlive(structs, f, 0, m, key);
      AliveIsKnown(structs, key, m);
      BehindNext(structs, f, passed, key);
      var rest := MakeFirstWay(structs, structs[key], passed + {key}, m);
      path := [key] + rest;
      assert path[1..] == rest;
    }
  }

  lemma FirstAliveIsAlive<S>(structs: map<string, Facts<S>>, f: Facts<S>, i: nat, m: string, key: string)
    requires FirstAlive(structs, f, i, m, key)
    ensures Alive(structs, key, m)
  {
  }

  /** Without cyclic embeddings, whatever the search finds it finds at the end of the first way. */
  lemma FoundOnFirstWay<S>(structs: map<string, Facts<S>>, f: Facts<S>, m: string) returns (path: seq<string>)
    requires Acyclic(structs) && Resolved(structs, f, m).Some?
    ensures FirstWay(structs, f, 0, m, path)
    ensures Declares(structs, Last(path), m) && Resolved(structs, f, m) == Some(structs[Last(path)].methods[m])
  {
    var some := FoundIsReachable(structs, f, 0, {}, m);
    assert Finds(structs, f, m, some);
    path := MakeFirstWay(structs, f, {}, m);
    FirstWayIsFound(structs, f, m, path);
  }

  // ---- Go's rule ----

  /** Go promotes the declaration at the end of the path: every other path to a declaration is longer. */
  ghost predicate Promotes<S>(structs: map<string, Facts<S>>, f: Facts<S>, m: string, path: seq<string>) {
    && Finds(structs, f, m, path)
    && forall other :: Finds(structs, f, m, other) && other != path ==> |other| > |path|
  }

  /** Go promotes the method from the struct under the key, on whatever path. */
  ghost predicate PromotesFrom<S>(structs: map<string, Facts<S>>, f: Facts<S>, m: string, key: string) {
    exists path :: Promotes(structs, f, m, path) && Last(path) == key
  }

  /** At each step of the path, any path to a declaration that starts with another embedding is longer than the rest. */
  ghost predicate NearestFirst<S>(structs: map<string, Facts<S>>, f: Facts<S>, m: string, path: seq<string>)
    requires Leads(structs, f, path)
    decreases path
  {
    && (forall other :: Finds(structs, f, m, other) && other != [] && other[0] != path[0] ==> |other| > |path|)
    && (|path| > 1 ==> NearestFirst(structs, structs[path[0]], m, path[1..]))
  }

  /** What follows the first key of Go's path is Go's path from its struct. */
  lemma PromotesTail<S>(structs: map<string, Facts<S>>, f: Facts<S>, m: string, path: seq<string>)
    requires |path| > 1 && Promotes(structs, f, m, path)
    ensures path[0] in structs && Promotes(structs, structs[path[0]], m, path[1..])
  {
    var key := path[0];
    forall rest | Finds(structs, structs[key], m, rest) && rest != path[1..] ensures |rest| > |path[1..]| {
      StepTo(structs, f, key, rest);
      assert ([key] + rest)[1..] == rest;
      assert Finds(structs, f, m, [key] + rest);
    }
  }

  lemma PromotesLonger<S>(structs: map<string, Facts<S>>, f: Facts<S>, m: string, path: seq<string>, other: seq<string>)
    requires |path| > 1 && Finds(structs, f, m, path) && Finds(structs, f, m, other) && other != path
    requires other[0] == path[0] && !Declares(structs, path[0], m)
    requires path[0] in structs && Promotes(structs, structs[path[0]], m, path[1..])
    ensures |other| > |path|
  {
    assert other == [other[0]] + other[1..] && path == [path[0]] + path[1..];
    assert |other| > 1;
    assert Finds(structs, structs[path[0]], m, other[1..]);
  }

  /** The first way is Go's exactly if at each of its steps no other embedding has a declaration as near. */
  lemma {:induction false} PromotesExactly<S>(structs: map<string, Facts<S>>, f: Facts<S>, i: nat, m: string,
      path: seq<string>)
    requires FirstWay(structs, f, i, m, path) && Leads(structs, f, path)
    ensures Promotes(structs, f, m, path) <==> NearestFirst(structs, f, m, path)
    decreases path
  {
    FirstWayFinds(structs, f, i, m, path);
    hide Finds, FirstAlive, Alive;
    if |path| > 1 {
      PromotesExactly(structs, structs[path[0]], 0, m, path[1..]);
      if Promotes(structs, f, m, path) {
        PromotesTail(structs, f, m, path);
      }
    }
    if NearestFirst(structs, f, m, path) {
      forall other | Finds(structs, f, m, other) && other != path ensures |other| > |path| {
        FindsSomething(structs, f, m, other);
        if other[0] == path[0] {
          if |path| > 1 {
            PromotesLonger(structs, f, m, path, other);
          } else {
            assert other == [path[0]] + other[1..] && path == [path[0]];
          }
        }
      }
    }
  }

  lemma FindsSomething<S>(structs: map<string, Facts<S>>, f: Facts<S>, m: string, path: seq<string>)
    requires Finds(structs, f, m, path)
    ensures path != []
  {
  }

  // ---- Go's rule, breadth first ----

  /** The paths of `d` embeddings. */
  function Ways<S>(structs: map<string, Facts<S>>, f: Facts<S>, d: nat): set<seq<string>>
    decreases d
  {
    if d == 0 then {}
    else
      var first := set i | 0 <= i < |f.embeds| && KeyOf(f.pkg, f.embeds[i]) in structs :: KeyOf(f.pkg, f.embeds[i]);
      if d == 1 then set key | key in first :: [key]
      else set key, rest | key in first && rest in Ways(structs, structs[key], d - 1) :: [key] + rest
  }

  /** Those at whose end the method is declared. */
  function Hits<S>(structs: map<string, Facts<S>>, f: Facts<S>, m: string, d: nat): set<seq<string>> {
    set path | path in Ways(structs, f, d) && path != [] && Declares(structs, Last(path), m)
  }

  /** The first such paths at depth `d` or more; no depth beyond the number of structs needs a look. */
  function NearestFrom<S>(structs: map<string, Facts<S>>, f: Facts<S>, m: string, d: nat): set<seq<string>>
    decreases |structs| + 1 - d
  {
    if d > |structs| then {}
    else if Hits(structs, f, m, d) != {} then Hits(structs, f, m, d)
    else NearestFrom(structs, f, m, d + 1)
  }

  function Nearest<S>(structs: map<string, Facts<S>>, f: Facts<S>, m: string): set<seq<string>> {
    NearestFrom(structs, f, m, 1)
  }

  /** There is one path, and it ends at the key. */
  predicate SoleEnd(paths: set<seq<string>>, key: string) {
    |paths| == 1 && forall path :: path in paths ==> path != [] && Last(path) == key
  }

  lemma {:induction false} WaysLead<S>(structs: map<string, Facts<S>>, f: Facts<S>, d: nat, path: seq<string>)
    ensures path in Ways(structs, f, d) <==> Leads(structs, f, path) && |path| == d
    decreases d
  {
    if d == 1 {
      if Leads(structs, f, path) && |path| == 1 {
        assert path == [path[0]];
      }
    } else if d > 1 {
      if path in Ways(structs, f, d) {
        var key, rest :| Embeds(structs, f, key) && rest in Ways(structs, structs[key], d - 1) && path == [key] + rest;
        WaysLead(structs, structs[key], d - 1, rest);
        assert path[1..] == rest;
      }
      if Leads(structs, f, path) && |path| == d {
        WaysLead(structs, structs[path[0]], d - 1, path[1..]);
        assert path == [path[0]] + path[1..];
      }
    }
  }

  lemma HitsFind<S>(structs: map<string, Facts<S>>, f: Facts<S>, m: string, d: nat, path: seq<string>)
    ensures path in Hits(structs, f, m, d) <==> Finds(structs, f, m, path) && |path| == d
  {
    WaysLead(structs, f, d, path);
    hide Ways, Declares;
  }

  /** A path may be cut behind any of its keys. */
  lemma {:induction false} LeadsSplit<S>(structs: map<string, Facts<S>>, f: Facts<S>, path: seq<string>, n: nat)
    requires Leads(structs, f, path) && n < |path|
    ensures Leads(structs, f, path[..n + 1]) && path[n] in structs
    ensures n + 1 < |path| ==> Leads(structs, structs[path[n]], path[n + 1..])
    decreases path
  {
    if n > 0 {
      LeadsSplit(structs, structs[path[0]], path[1..], n - 1);
      assert path[1..][..n] == path[..n + 1][1..];
      assert path[1..][n..] == path[n + 1..];
    }
  }

  lemma {:induction false} RepeatAmong(path: seq<string>, keys: set<string>) returns (a: nat, b: nat)
    requires (forall n :: 0 <= n < |path| ==> path[n] in keys) && |path| > |keys|
    ensures a < b < |path| && path[a] == path[b]
    decreases path
  {
    var last := |path| - 1;
    if n :| 0 <= n < last && path[n] == path[last] {
      a, b := n, last;
    } else {
      a, b := RepeatAmong(path[..last], keys - {path[last]});
    }
  }

  /** What can be found at all can be found within as many embeddings as there are structs. */
  lemma {:induction false} FindsWithin<S>(structs: map<string, Facts<S>>, f: Facts<S>, m: string, path: seq<string>)
    returns (short: seq<string>)
    requires Finds(structs, f, m, path)
    ensures Finds(structs, f, m, short) && |short| <= |structs|
    decreases |path|
  {
    if |path| <= |structs| {
      return path;
    }
    forall n | 0 <= n < |path| ensures path[n] in structs.Keys {
      LeadsSplit(structs, f, path, n);
    }
    assert |structs.Keys| == |structs|;
    var a, b := RepeatAmong(path, structs.Keys);
    LeadsSplit(structs, f, path, a);
    LeadsSplit(structs, f, path, b);
    var cut := path[..a + 1];
    if b + 1 < |path| {
      LeadsOn(structs, f, cut, path[b + 1..]);
      cut := cut + path[b + 1..];
    }
    short := FindsWithin(structs, f, m, cut);
  }

  lemma {:induction false} NearestFromIs<S>(structs: map<string, Facts<S>>, f: Facts<S>, m: string, d: nat,
      path: seq<string>)
    requires forall other :: Finds(structs, f, m, other) ==> |other| >= d
    ensures path in NearestFrom(structs, f, m, d)
       <==> Finds(structs, f, m, path) && forall other :: Finds(structs, f, m, other) ==> |other| >= |path|
    decreases |structs| + 1 - d
  {
    hide Finds, Hits;
    forall other ensures other in Hits(structs, f, m, d) <==> Finds(structs, f, m, other) && |other| == d {
      HitsFind(structs, f, m, d, other);
    }
    if d > |structs| {
      if Finds(structs, f, m, path) {
        var short := FindsWithin(structs, f, m, path);
      }
    } else if Hits(structs, f, m, d) == {} {
      NearestFromIs(structs, f, m, d + 1, path);
    } else {
      var some :| some in Hits(structs, f, m, d);
    }
  }

  /** The breadth-first search ends with the paths of the least length to a declaration, on any graph. */
  lemma NearestAre<S>(structs: map<string, Facts<S>>, f: Facts<S>, m: string, path: seq<string>)
    ensures path in Nearest(structs, f, m)
       <==> Finds(structs, f, m, path) && forall other :: Finds(structs, f, m, other) ==> |other| >= |path|
  {
    NearestFromIs(structs, f, m, 1, path);
  }

  /** Go takes a path exactly if it is the only nearest one. */
  lemma PromotesSole<S>(structs: map<string, Facts<S>>, f: Facts<S>, m: string, path: seq<string>)
    ensures Promotes(structs, f, m, path) <==> Nearest(structs, f, m) == {path}
  {
    hide Finds, Nearest;
    var near := Nearest(structs, f, m);
    NearestAre(structs, f, m, path);
    if Promotes(structs, f, m, path) {
      forall other | other in near ensures other == path {
        NearestAre(structs, f, m, other);
      }
    }
    if near == {path} {
      forall other | Finds(structs, f, m, other) && other != path ensures |other| > |path| {
        NearestAre(structs, f, m, other);
      }
    }
  }

  /** Go promotes the method from a struct exactly if it is where the only nearest path ends. */
  lemma PromotesFromExactly<S>(structs: map<string, Facts<S>>, f: Facts<S>, m: string, key: string)
    ensures PromotesFrom(structs, f, m, key) <==> SoleEnd(Nearest(structs, f, m), key)
  {
    hide Nearest;
    var near := Nearest(structs, f, m);
    if PromotesFrom(structs, f, m, key) {
      var path :| Promotes(structs, f, m, path) && Last(path) == key;
      PromotesSole(structs, f, m, path);
    }
    if SoleEnd(near, key) {
      var path :| path in near;
      OnlyOne(near, path);
      PromotesSole(structs, f, m, path);
    }
  }

  lemma OnlyOne(paths: set<seq<string>>, path: seq<string>)
    requires |paths| == 1 && path in paths
    ensures paths == {path}
  {
    assert |paths - {path}| == 0;
  }

  /**
   * Without cyclic embeddings, the search ends on the path that Go's rule picks exactly if at each step the first
   * embedding from which a declaration can be reached has one nearer than every other embedding.
   */
  lemma SameWayExactly<S>(structs: map<string, Facts<S>>, f: Facts<S>, m: string) returns (path: seq<string>)
    requires Acyclic(structs) && Resolved(structs, f, m).Some?
    ensures FirstWay(structs, f, 0, m, path) && Leads(structs, f, path)
    ensures Declares(structs, Last(path), m) && Resolved(structs, f, m) == Some(structs[Last(path)].methods[m])
    ensures Promotes(structs, f, m, path) <==> NearestFirst(structs, f, m, path)
  {
    path := FoundOnFirstWay(structs, f, m);
    FirstWayFinds(structs, f, 0, m, path);
    PromotesExactly(structs, f, 0, m, path);
  }

  /**
   * Without cyclic embeddings, the search returns the declaration that Go promotes exactly if breadth first there is
   * a single nearest path, and it ends where the first way ends. It need not be the first way itself.
   */
  lemma AgreesWithGoExactly<S>(structs: map<string, Facts<S>>, f: Facts<S>, m: string) returns (path: seq<string>)
    requires Acyclic(structs) && Resolved(structs, f, m).Some?
    ensures FirstWay(structs, f, 0, m, path) && path != []
    ensures Declares(structs, Last(path), m) && Resolved(structs, f, m) == Some(structs[Last(path)].methods[m])
    ensures PromotesFrom(structs, f, m, Last(path)) <==> SoleEnd(Nearest(structs, f, m), Last(path))
  {
    path := FoundOnFirstWay(structs, f, m);
    PromotesFromExactly(structs, f, m, Last(path));
  }

  /** With one way to each declaring struct, it is enough to compare the embeddings at each step of the first way. */
  lemma AgreesStepByStep<S>(structs: map<string, Facts<S>>, f: Facts<S>, m: string) returns (path: seq<string>)
    requires Acyclic(structs) && Resolved(structs, f, m).Some?
    requires forall a, b :: Finds(structs, f, m, a) && Finds(structs, f, m, b) && Last(a) == Last(b) ==> a == b
    ensures FirstWay(structs, f, 0, m, path) && Leads(structs, f, path)
    ensures Declares(structs, Last(path), m) && Resolved(structs, f, m) == Some(structs[Last(path)].methods[m])
    ensures PromotesFrom(structs, f, m, Last(path)) <==> NearestFirst(structs, f, m, path)
  {
    path := SameWayExactly(structs, f, m);
    FirstWayFinds(structs, f, 0, m, path);
  }

  /**
   * The search can return Go's declaration by a longer path than Go's: here "p.D" embeds A and C, A embeds C, and
   * only C declares the method.
   */
  lemma SameDeclarationByAnotherWay()
    ensures var structs := map["p.A" := Facts("p", ["C"], map[]), "p.C" := Facts("p", [], map["Get" := 1])];
            var f := Facts("p", ["A", "C"], map[]);
            && FirstWay(structs, f, 0, "Get", ["p.A", "p.C"]) && Leads(structs, f, ["p.A", "p.C"])
            && Resolved(structs, f, "Get") == Some(1)
            && Promotes(structs, f, "Get", ["p.C"]) && !NearestFirst(structs, f, "Get", ["p.A", "p.C"])
  {
    var a: Facts<int>, c := Facts("p", ["C"], map[]), Facts("p", [], map["Get" := 1]);
    var structs := map["p.A" := a, "p.C" := c];
    var f: Facts<int> := Facts("p", ["A", "C"], map[]);
    assert KeyOf("p", "A") == "p.A" && KeyOf("p", "C") == "p.C";
    assert "p.A"[2] == 'A' && "p.C"[2] == 'C';
    assert f.embeds[0] == "A" && f.embeds[1] == "C" && a.embeds[0] == "C";
    assert ["p.A", "p.C"][1..] == ["p.C"];
    assert Leads(structs, a, ["p.C"]);
    assert Finds(structs, a, "Get", ["p.C"]) && Finds(structs, f, "Get", ["p.C"]);
    assert FirstWay(structs, a, 0, "Get", ["p.C"]);
    FirstWayIsFound(structs, f, "Get", ["p.A", "p.C"]);
    forall other | Finds(structs, f, "Get", other) && other != ["p.C"] ensures |other| > 1 {
      assert other[0] == "p.A" || other[0] == "p.C";
      assert other == [other[0]] + other[1..];
    }
  }

  /** With or without cycles: a first way that is nearest at each step is found, and is what Go promotes. */
  lemma NearestIsPromoted<S>(structs: map<string, Facts<S>>, f: Facts<S>, m: string, path: seq<string>)
    requires FirstWay(structs, f, 0, m, path) && Leads(structs, f, path) && NearestFirst(structs, f, m, path)
    ensures Promotes(structs, f, m, path) && Declares(structs, Last(path), m)
    ensures Resolved(structs, f, m) == Some(structs[Last(path)].methods[m])
  {
    PromotesExactly(structs, f, 0, m, path);
    FirstWayIsFound(structs, f, m, path);
  }

  /** Two nearest declarations cancel each other in Go; the search takes one all the same. */
  lemma AmbiguousIsFound<S>(structs: map<string, Facts<S>>, f: Facts<S>, m: string, a: seq<string>, b: seq<string>)
    requires Finds(structs, f, m, a) && Finds(structs, f, m, b) && a != b && |a| == |b|
    requires forall other :: Finds(structs, f, m, other) ==> |other| >= |a|
    ensures forall path :: !Promotes(structs, f, m, path)
    ensures Resolved(structs, f, m).Some?
  {
    FoundExactly(structs, f, m);
    assert Leads(structs, f, a) && Declares(structs, Last(a), m);
    forall path ensures !Promotes(structs, f, m, path) {
    }
  }

  /** One struct declares the method, among all that can be reached: it is the one found, at whatever depths it is. */
  lemma OnlyDeclarationIsFound<S>(structs: map<string, Facts<S>>, f: Facts<S>, m: string, path: seq<string>)
    requires Finds(structs, f, m, path) && forall other :: Finds(structs, f, m, other) ==> Last(other) == Last(path)
    ensures Declares(structs, Last(path), m) && Resolved(structs, f, m) == Some(structs[Last(path)].methods[m])
  {
    FoundExactly(structs, f, m);
    assert Leads(structs, f, path) && Declares(structs, Last(path), m);
    var found := FoundIsReachable(structs, f, 0, {}, m);
    assert Finds(structs, f, m, found);
  }
}
