/** Adding the composition attributes that the signatures record to a finished surface. */
module SurfaceEnrich {
  import opened Sorting
  import opened Inventory

  /** What the signature file says of one method: the kinds of its parameters, and what it returns. */
  datatype Signature = Signature(kinds: seq<string>, result: string)

  type Signatures = map<string, map<string, map<string, Signature>>>

  predicate Contains(s: string, part: string) {
    part <= s || (s != "" && Contains(s[1..], part))
  }

  predicate IsCompositionReturn(ret: string) {
    !("union<" <= ret) && Contains(ret, "class:signalwire.")
  }

  predicate SelfOnly(kinds: seq<string>) {
    forall i :: 0 <= i < |kinds| ==> kinds[i] == "self"
  }

  /** A self-only member that returns an SDK class, under a name that Python allows. */
  predicate IsComposition(reserved: set<string>, m: string, sig: Signature) {
    m !in reserved && SelfOnly(sig.kinds) && IsCompositionReturn(sig.result)
  }

  predicate Attribute(methods: map<string, Signature>, reserved: set<string>, some: set<string>, m: string) {
    m in some && m in methods && IsComposition(reserved, m, methods[m])
  }

  /** The facts that one class of the signatures contributes. */
  predicate FromClass(methods: map<string, Signature>, reserved: set<string>, mod: string, cls: string, f: Fact) {
    || (f.HasMember? && f.mod == mod && f.cls == cls && Attribute(methods, reserved, methods.Keys, f.member))
    || (f == HasClass(mod, cls) && exists m :: m in methods && Attribute(methods, reserved, methods.Keys, m))
  }

  predicate FromClasses(classes: map<string, map<string, Signature>>, reserved: set<string>, mod: string,
      some: set<string>, f: Fact) {
    exists cls :: cls in some && cls in classes && FromClass(classes[cls], reserved, mod, cls, f)
  }

  predicate FromModules(sigs: Signatures, reserved: set<string>, some: set<string>, f: Fact) {
    exists mod :: mod in some && mod in sigs && FromClasses(sigs[mod], reserved, mod, sigs[mod].Keys, f)
  }

  predicate StandsAt(s: string, part: string, i: int) {
    0 <= i <= |s| - |part| && s[i..i + |part|] == part
  }

  lemma StandsFirst(s: string, part: string)
    ensures StandsAt(s, part, 0) <==> part <= s
    ensures s == "" ==> forall i :: StandsAt(s, part, i) ==> i == 0
  {
  }

  lemma StandsBehind(s: string, part: string, i: int)
    requires s != ""
    ensures StandsAt(s[1..], part, i) <==> i >= 0 && StandsAt(s, part, i + 1)
  {
    if 0 <= i <= |s| - 1 - |part| {
      assert s[1..][i..i + |part|] == s[i + 1..i + 1 + |part|];
    }
  }

  lemma {:induction false} ContainsExactly(s: string, part: string)
    ensures Contains(s, part) <==> exists i :: StandsAt(s, part, i)
  {
    hide StandsAt;
    StandsFirst(s, part);
    if s != "" && !(part <= s) {
      ContainsExactly(s[1..], part);
      if i :| StandsAt(s[1..], part, i) {
        StandsBehind(s, part, i);
      }
      if i :| StandsAt(s, part, i) {
        StandsInRange(s, part, i);
        StandsBehind(s, part, i - 1);
      }
    }
  }

  lemma StandsInRange(s: string, part: string, i: int)
    requires StandsAt(s, part, i)
    ensures i >= 0
  {
  }

  /**
   * A recorded method is a composition attribute: Python can have the name, it takes nothing but self, and it returns
   * a class of the SDK, which is not one among several types of a union.
   */
  ghost predicate IsAttribute(sigs: Signatures, reserved: set<string>, mod: string, cls: string, m: string) {
    && mod in sigs && cls in sigs[mod] && m in sigs[mod][cls] && m !in reserved
    && (forall i :: 0 <= i < |sigs[mod][cls][m].kinds| ==> sigs[mod][cls][m].kinds[i] == "self")
    && var ret := sigs[mod][cls][m].result;
    && !(|ret| >= 6 && ret[..6] == "union<")
    && exists i :: StandsAt(ret, "class:signalwire.", i)
  }

  /** The facts that enrichment adds: the composition attributes, and the classes that have one. */
  lemma AddedExactly(sigs: Signatures, reserved: set<string>, mod: string, cls: string, m: string)
    ensures FromModules(sigs, reserved, sigs.Keys, HasMember(mod, cls, m)) <==> IsAttribute(sigs, reserved, mod, cls, m)
    ensures FromModules(sigs, reserved, sigs.Keys, HasClass(mod, cls))
       <==> exists x :: IsAttribute(sigs, reserved, mod, cls, x)
    ensures !FromModules(sigs, reserved, sigs.Keys, HasFunction(mod, m))
  {
    forall x ensures IsAttribute(sigs, reserved, mod, cls, x) <==>
                     && mod in sigs && cls in sigs[mod]
                     && Attribute(sigs[mod][cls], reserved, sigs[mod][cls].Keys, x)
    {
      if mod in sigs && cls in sigs[mod] && x in sigs[mod][cls] {
        var ret := sigs[mod][cls][x].result;
        ContainsExactly(ret, "class:signalwire.");
        assert |"union<"| == 6 && ("union<" <= ret <==> |ret| >= 6 && ret[..6] == "union<");
      }
    }
    hide Attribute, IsAttribute;
    assert FromModules(sigs, reserved, sigs.Keys, HasMember(mod, cls, m)) <==>
           && mod in sigs && cls in sigs[mod]
           && Attribute(sigs[mod][cls], reserved, sigs[mod][cls].Keys, m);
    ClassAdded(sigs, reserved, mod, cls);
  }

  lemma ClassAdded(sigs: Signatures, reserved: set<string>, mod: string, cls: string)
    ensures FromModules(sigs, reserved, sigs.Keys, HasClass(mod, cls)) <==>
            && mod in sigs && cls in sigs[mod]
            && exists x :: Attribute(sigs[mod][cls], reserved, sigs[mod][cls].Keys, x)
  {
    hide IsComposition;
    if mod in sigs && cls in sigs[mod] {
      if x :| Attribute(sigs[mod][cls], reserved, sigs[mod][cls].Keys, x) {
        assert FromClass(sigs[mod][cls], reserved, mod, cls, HasClass(mod, cls));
        assert FromClasses(sigs[mod], reserved, mod, sigs[mod].Keys, HasClass(mod, cls));
      }
    }
  }

  /** The loop over the methods of a class, in any order. */
  method Collect(methods: map<string, Signature>, reserved: set<string>) returns (comp: seq<string>)
    ensures forall m :: m in comp <==> Attribute(methods, reserved, methods.Keys, m)
  {
    hide IsCompositionReturn;
    comp := [];
    var todo := methods.Keys;
    ghost var done: set<string> := {};
    while todo != {}
      invariant todo + done == methods.Keys
      invariant forall m :: m in comp <==> Attribute(methods, reserved, done, m)
    {
      var m :| m in todo;
      todo, done := todo - {m}, done + {m};
      if m in reserved {
        continue;
      }
      var nonSelf := false;
      for i := 0 to |methods[m].kinds|
        invariant nonSelf <==> !SelfOnly(methods[m].kinds[..i])
      {
        if methods[m].kinds[i] != "self" {
          nonSelf := true;
        }
        assert methods[m].kinds[..i + 1] == methods[m].kinds[..i] + [methods[m].kinds[i]];
      }
      assert methods[m].kinds[..|methods[m].kinds|] == methods[m].kinds;
      if nonSelf {
        continue;
      }
      if IsCompositionReturn(methods[m].result) {
        comp := comp + [m];
      }
    }
    assert done == methods.Keys;
  }

  /** What is not in the list yet is appended once. */
  method Extend(existing: seq<string>, comp: seq<string>) returns (r: seq<string>)
    requires NoRepeats(existing)
    ensures NoRepeats(r) && forall y :: y in r <==> y in existing || y in comp
  {
    r := existing;
    var seen := set e | e in existing;
    for i := 0 to |comp|
      invariant NoRepeats(r) && (forall y :: y in r <==> y in existing || y in comp[..i])
      invariant forall y :: y in seen <==> y in r
    {
      var m := comp[i];
      assert comp[..i + 1] == comp[..i] + [m];
      if m !in seen {
        r := r + [m];
        seen := seen + {m};
      }
    }
    assert comp[..|comp|] == comp;
  }

  method EnrichClass(ms: Modules, mod: string, cls: string, methods: map<string, Signature>, reserved: set<string>)
    returns (after: Modules)
    requires Normal(ms)
    ensures Normal(after)
    ensures forall f :: Holds(after, f) <==> Holds(ms, f) || FromClass(methods, reserved, mod, cls, f)
  {
    hide Attribute;
    var comp := Collect(methods, reserved);
    if |comp| == 0 {
      return ms;
    }
    assert comp[0] in comp && Attribute(methods, reserved, methods.Keys, comp[0]);
    AttributeDeclared(methods, reserved, comp[0]);
    var inv := Get(ms, mod);
    var existing := GetList(inv, cls);
    AscendingNoRepeats(existing);
    var more := Extend(existing, comp);
    SortAscends(more);
    after := ms[mod := inv.(classes := inv.classes[cls := Sort(more)])];
    Replaced(ms, mod, cls, Sort(more), after);
  }

  lemma AttributeDeclared(methods: map<string, Signature>, reserved: set<string>, m: string)
    requires Attribute(methods, reserved, methods.Keys, m)
    ensures m in methods
  {
  }

  lemma Replaced(ms: Modules, mod: string, cls: string, list: seq<string>, after: Modules)
    requires Normal(ms) && Ascending(list)
    requires var inv := Get(ms, mod); after == ms[mod := inv.(classes := inv.classes[cls := list])]
    requires forall y :: y in GetList(Get(ms, mod), cls) ==> y in list
    ensures Normal(after)
    ensures forall f :: Holds(after, f)
                   <==> Holds(ms, f) || f == HasClass(mod, cls)
                        || (f.HasMember? && f.mod == mod && f.cls == cls && f.member in list)
  {
    hide Ascending;
    assert mod !in ms ==> Ascending(Get(ms, mod).functions) by { NoneAscends(); }
    assert cls in after[mod].classes.Keys;
    forall f ensures Holds(after, f) <==> Holds(ms, f) || f == HasClass(mod, cls)
                                          || (f.HasMember? && f.mod == mod && f.cls == cls && f.member in list) {
      assert f.mod != mod ==> (f.mod in after <==> f.mod in ms) && (f.mod in ms ==> after[f.mod] == ms[f.mod]);
    }
  }

  lemma NoneAscends()
    ensures Ascending([])
  {
  }

  method EnrichModule(ms: Modules, mod: string, classes: map<string, map<string, Signature>>, reserved: set<string>)
    returns (after: Modules)
    requires Normal(ms)
    ensures Normal(after)
    ensures forall f :: Holds(after, f) <==> Holds(ms, f) || FromClasses(classes, reserved, mod, classes.Keys, f)
  {
    hide Holds, Normal, FromClass;
    after := ms;
    var todo := classes.Keys;
    ghost var done: set<string> := {};
    while todo != {}
      invariant todo + done == classes.Keys && Normal(after)
      invariant forall f :: Holds(after, f) <==> Holds(ms, f) || FromClasses(classes, reserved, mod, done, f)
    {
      var cls :| cls in todo;
      todo, done := todo - {cls}, done + {cls};
      after := EnrichClass(after, mod, cls, classes[cls], reserved);
    }
    assert done == classes.Keys;
  }

  /** Adds exactly the composition attributes to the facts of the surface, and keeps the lists in order. */
  method Enrich(ms: Modules, sigs: Signatures, reserved: set<string>) returns (after: Modules)
    requires Normal(ms)
    ensures Normal(after)
    ensures forall f :: Holds(after, f) <==> Holds(ms, f) || FromModules(sigs, reserved, sigs.Keys, f)
  {
    hide Holds, Normal, FromClasses;
    after := ms;
    var todo := sigs.Keys;
    ghost var done: set<string> := {};
    while todo != {}
      invariant todo + done == sigs.Keys && Normal(after)
      invariant forall f :: Holds(after, f) <==> Holds(ms, f) || FromModules(sigs, reserved, done, f)
    {
      var mod :| mod in todo;
      todo, done := todo - {mod}, done + {mod};
      after := EnrichModule(after, mod, sigs[mod], reserved);
    }
    assert done == sigs.Keys;
  }

  /** Enriching an enriched surface changes nothing, in whatever orders the two runs walk the maps. */
  lemma Idempotent(ms: Modules, once: Modules, twice: Modules, sigs: Signatures, reserved: set<string>)
    requires Normal(once) && Normal(twice)
    requires forall f :: Holds(once, f) <==> Holds(ms, f) || FromModules(sigs, reserved, sigs.Keys, f)
    requires forall f :: Holds(twice, f) <==> Holds(once, f) || FromModules(sigs, reserved, sigs.Keys, f)
    ensures twice == once
  {
    hide Holds, Normal, FromModules;
    Determined(twice, once);
  }
}
