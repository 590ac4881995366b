/** The surface told fact by fact from what was scanned and from the tables, without the loops that build it. */
module SurfaceMeaning {
  import opened Text
  import opened Names
  import opened Promotion
  import opened Inventory
  import opened SurfaceBuild

  /**
   * A struct supplies a Go method: a constructor is a function of its package; any other method is declared by the
   * struct or by one that it embeds, over one or more embeddings.
   */
  ghost predicate Supplies(inp: Inputs, key: string, g: string)
    requires key in inp.structs
  {
    var facts := inp.structs[key].facts;
    if |g| >= 3 && g[..3] == "New" then facts.pkg + "." + g in inp.funcs
    else g in facts.methods || Inherits(inp, key, g)
  }

  ghost predicate Inherits(inp: Inputs, key: string, g: string)
    requires key in inp.structs
  {
    exists path :: Leads(Graph(inp), inp.structs[key].facts, path) && Last(path) in inp.structs
                   && g in inp.structs[Last(path)].facts.methods
  }

  lemma SuppliesExactly(inp: Inputs, key: string, g: string)
    requires key in inp.structs
    ensures Supplies(inp, key, g) <==> Present(inp, key, g)
  {
    var facts, structs := inp.structs[key].facts, Graph(inp);
    assert |g| >= 3 && g[..3] == "New" <==> "New" <= g;
    FoundExactly(structs, facts, g);
    hide Leads, Resolved;
    forall path | Leads(structs, facts, path)
      ensures Last(path) in inp.structs && g in inp.structs[Last(path)].facts.methods
         <==> Declares(structs, Last(path), g)
    {
    }
  }

  /** The reference's spelling of a Go name: a correction from the table, or the name folded to snake case. */
  predicate Spelled(inp: Inputs, g: string, m: string) {
    (g in inp.corrections ==> m == inp.corrections[g]) && (g !in inp.corrections ==> m == Snake(g))
  }

  /**
   * What a class of the table has: the names of the methods that its struct supplies, the synthetic ones, and the
   * reference's own members of that class that a field spells, or a reader to which no method is mapped.
   */
  ghost predicate HasName(inp: Inputs, key: string, t: Target, m: string)
    requires key in inp.structs
  {
    var st := inp.structs[key];
    var reference := if t.mod in inp.oracle && t.cls in inp.oracle[t.mod] then inp.oracle[t.mod][t.cls] else {};
    || m in t.synthetic
    || (exists g :: g in t.methods && t.methods[g] == m && Supplies(inp, key, g))
    || (m in reference && exists g :: g in st.fields && Spelled(inp, g, m))
    || (m in reference && (forall g :: g in t.methods ==> t.methods[g] != m)
        && exists g :: g in st.readers && Spelled(inp, g, m))
  }

  lemma HasNameExactly(inp: Inputs, key: string, t: Target, m: string)
    requires key in inp.structs
    ensures HasName(inp, key, t, m) <==> MemberOf(inp, key, t, m)
  {
    hide Supplies, Present;
    var st := inp.structs[key];
    assert Mapped(inp, key, t, t.methods.Keys, m) <==>
           exists g :: g in t.methods && t.methods[g] == m && Supplies(inp, key, g) by {
      forall g ensures Supplies(inp, key, g) <==> Present(inp, key, g) {
        SuppliesExactly(inp, key, g);
      }
    }
    NameOf(inp, t, st.fields, m);
    NameOf(inp, t, st.readers, m);
    hide Spelled, FieldMember, Mapped;
    assert m !in t.methods.Values <==> forall g :: g in t.methods ==> t.methods[g] != m;
  }

  lemma NameOf(inp: Inputs, t: Target, some: set<string>, m: string)
    ensures FieldMember(inp, t, some, m) <==>
            && t.mod in inp.oracle && t.cls in inp.oracle[t.mod] && m in inp.oracle[t.mod][t.cls]
            && exists g :: g in some && Spelled(inp, g, m)
  {
    hide Snake;
    forall g ensures Spelled(inp, g, m) <==> Python(inp, g) == m {
    }
    hide Spelled, Python;
  }

  /** The i-th class that the table gives for a key. */
  predicate Entry(inp: Inputs, key: string, i: int, mod: string, cls: string) {
    && key in inp.table && 0 <= i < |inp.table[key]|
    && inp.table[key][i].mod == mod && inp.table[key][i].cls == cls
  }

  predicate SkillOf(inp: Inputs, i: int, mod: string, cls: string) {
    0 <= i < |inp.skills| && inp.skills[i].mod == mod && inp.skills[i].cls == cls
  }

  /** A member is wanted for the class of a scanned struct, as the __init__ of a known factory, or by a skill. */
  lemma MembersExactly(inp: Inputs, mod: string, cls: string, m: string)
    ensures Wanted(inp, HasMember(mod, cls, m)) <==>
            || (exists key, i :: key in inp.structs && Entry(inp, key, i, mod, cls)
                                 && HasName(inp, key, inp.table[key][i], m))
            || (m == "__init__" && exists goFn, i :: goFn in inp.factoryInit && goFn in inp.funcs
                                                     && Entry(inp, inp.factoryInit[goFn], i, mod, cls))
            || (exists i :: SkillOf(inp, i, mod, cls) && (m in inp.skills[i].methods || m in inp.skills[i].synthetic))
  {
    var f := HasMember(mod, cls, m);
    hide HasName, MemberOf, Wanted;
    MemberOfStruct(inp, mod, cls, m);
    MemberOfFactory(inp, mod, cls, m);
    MemberOfSkill(inp, mod, cls, m);
    WantedMember(inp, mod, cls, m);
  }

  lemma WantedMember(inp: Inputs, mod: string, cls: string, m: string)
    ensures var f := HasMember(mod, cls, m);
            Wanted(inp, f) <==>
            || (exists key :: key in inp.structs && FromStruct(inp, key, f))
            || (exists goFn :: goFn in inp.factoryInit && FromFactory(inp, goFn, f))
            || (exists sk :: sk in inp.skills && FromSkill(sk, f))
  {
    hide FromStruct, FromFactory, FromSkill;
  }

  lemma MemberOfStruct(inp: Inputs, mod: string, cls: string, m: string)
    ensures (exists key :: key in inp.structs && FromStruct(inp, key, HasMember(mod, cls, m))) <==>
            exists key, i :: key in inp.structs && Entry(inp, key, i, mod, cls)
                             && HasName(inp, key, inp.table[key][i], m)
  {
    hide HasName, MemberOf;
    var f := HasMember(mod, cls, m);
    if key :| key in inp.structs && FromStruct(inp, key, f) {
      var t :| t in inp.table[key] && FromTarget(inp, key, t, f);
      var i :| 0 <= i < |inp.table[key]| && inp.table[key][i] == t;
      HasNameExactly(inp, key, t, m);
      assert Entry(inp, key, i, mod, cls);
    }
    if key, i :| key in inp.structs && Entry(inp, key, i, mod, cls) && HasName(inp, key, inp.table[key][i], m) {
      HasNameExactly(inp, key, inp.table[key][i], m);
      assert FromTarget(inp, key, inp.table[key][i], f);
      assert FromStruct(inp, key, f);
    }
  }

  lemma MemberOfFactory(inp: Inputs, mod: string, cls: string, m: string)
    ensures (exists goFn :: goFn in inp.factoryInit && FromFactory(inp, goFn, HasMember(mod, cls, m))) <==>
            m == "__init__" && exists goFn, i :: goFn in inp.factoryInit && goFn in inp.funcs
                                                 && Entry(inp, inp.factoryInit[goFn], i, mod, cls)
  {
    var f := HasMember(mod, cls, m);
    if goFn :| goFn in inp.factoryInit && FromFactory(inp, goFn, f) {
      var ts := inp.table[inp.factoryInit[goFn]];
      var t :| t in ts && (f == HasClass(t.mod, t.cls) || f == HasMember(t.mod, t.cls, "__init__"));
      var i :| 0 <= i < |ts| && ts[i] == t;
      assert Entry(inp, inp.factoryInit[goFn], i, mod, cls);
    }
    if goFn, i :| m == "__init__" && goFn in inp.factoryInit && goFn in inp.funcs
                  && Entry(inp, inp.factoryInit[goFn], i, mod, cls) {
      assert inp.table[inp.factoryInit[goFn]][i] in inp.table[inp.factoryInit[goFn]];
      assert FromFactory(inp, goFn, f);
    }
  }

  lemma MemberOfSkill(inp: Inputs, mod: string, cls: string, m: string)
    ensures (exists sk :: sk in inp.skills && FromSkill(sk, HasMember(mod, cls, m))) <==>
            exists i :: SkillOf(inp, i, mod, cls) && (m in inp.skills[i].methods || m in inp.skills[i].synthetic)
  {
    if sk :| sk in inp.skills && FromSkill(sk, HasMember(mod, cls, m)) {
      var i :| 0 <= i < |inp.skills| && inp.skills[i] == sk;
      assert SkillOf(inp, i, mod, cls);
    }
    if i :| SkillOf(inp, i, mod, cls) && (m in inp.skills[i].methods || m in inp.skills[i].synthetic) {
      assert inp.skills[i] in inp.skills && FromSkill(inp.skills[i], HasMember(mod, cls, m));
    }
  }

  /** A class is wanted for a scanned struct or a known factory with a table entry, for a skill, or as a wire type. */
  lemma ClassesExactly(inp: Inputs, mod: string, cls: string)
    ensures Wanted(inp, HasClass(mod, cls)) <==>
            || (exists key, i :: key in inp.structs && Entry(inp, key, i, mod, cls))
            || (exists goFn, i :: goFn in inp.factoryInit && goFn in inp.funcs
                                  && Entry(inp, inp.factoryInit[goFn], i, mod, cls))
            || (exists i :: SkillOf(inp, i, mod, cls))
            || GenType(mod, cls) in inp.genTypes
  {
    hide Wanted;
    ClassOfStruct(inp, mod, cls);
    ClassOfFactory(inp, mod, cls);
    ClassOfSkill(inp, mod, cls);
    WantedClass(inp, mod, cls);
  }

  lemma WantedClass(inp: Inputs, mod: string, cls: string)
    ensures var f := HasClass(mod, cls);
            Wanted(inp, f) <==>
            || (exists key :: key in inp.structs && FromStruct(inp, key, f))
            || (exists goFn :: goFn in inp.factoryInit && FromFactory(inp, goFn, f))
            || (exists sk :: sk in inp.skills && FromSkill(sk, f))
            || GenType(mod, cls) in inp.genTypes
  {
    hide FromStruct, FromFactory, FromSkill;
    if gt :| gt in inp.genTypes && HasClass(mod, cls) == HasClass(gt.mod, gt.name) {
      assert gt == GenType(mod, cls);
    }
  }

  lemma ClassOfStruct(inp: Inputs, mod: string, cls: string)
    ensures (exists key :: key in inp.structs && FromStruct(inp, key, HasClass(mod, cls))) <==>
            exists key, i :: key in inp.structs && Entry(inp, key, i, mod, cls)
  {
    var f := HasClass(mod, cls);
    if key :| key in inp.structs && FromStruct(inp, key, f) {
      var t :| t in inp.table[key] && FromTarget(inp, key, t, f);
      var i :| 0 <= i < |inp.table[key]| && inp.table[key][i] == t;
      assert Entry(inp, key, i, mod, cls);
    }
    if key, i :| key in inp.structs && Entry(inp, key, i, mod, cls) {
      assert FromTarget(inp, key, inp.table[key][i], f);
      assert FromStruct(inp, key, f);
    }
  }

  lemma ClassOfFactory(inp: Inputs, mod: string, cls: string)
    ensures (exists goFn :: goFn in inp.factoryInit && FromFactory(inp, goFn, HasClass(mod, cls))) <==>
            exists goFn, i :: goFn in inp.factoryInit && goFn in inp.funcs
                              && Entry(inp, inp.factoryInit[goFn], i, mod, cls)
  {
    var f := HasClass(mod, cls);
    if goFn :| goFn in inp.factoryInit && FromFactory(inp, goFn, f) {
      var ts := inp.table[inp.factoryInit[goFn]];
      var t :| t in ts && (f == HasClass(t.mod, t.cls) || f == HasMember(t.mod, t.cls, "__init__"));
      var i :| 0 <= i < |ts| && ts[i] == t;
      assert Entry(inp, inp.factoryInit[goFn], i, mod, cls);
    }
    if goFn, i :| goFn in inp.factoryInit && goFn in inp.funcs && Entry(inp, inp.factoryInit[goFn], i, mod, cls) {
      assert inp.table[inp.factoryInit[goFn]][i] in inp.table[inp.factoryInit[goFn]];
      assert FromFactory(inp, goFn, f);
    }
  }

  lemma ClassOfSkill(inp: Inputs, mod: string, cls: string)
    ensures (exists sk :: sk in inp.skills && FromSkill(sk, HasClass(mod, cls))) <==>
            exists i :: SkillOf(inp, i, mod, cls)
  {
    if sk :| sk in inp.skills && FromSkill(sk, HasClass(mod, cls)) {
      var i :| 0 <= i < |inp.skills| && inp.skills[i] == sk;
      assert SkillOf(inp, i, mod, cls);
    }
    if i :| SkillOf(inp, i, mod, cls) {
      assert inp.skills[i] in inp.skills && FromSkill(inp.skills[i], HasClass(mod, cls));
    }
  }

  /** A function is wanted exactly if the table names it for a scanned one. */
  lemma FunctionsExactly(inp: Inputs, mod: string, name: string)
    ensures Wanted(inp, HasFunction(mod, name)) <==>
            exists key :: key in inp.funcs && key in inp.freeFns && inp.freeFns[key] == FreeFn(mod, name)
  {
    var f := HasFunction(mod, name);
    assert forall key :: FromFreeFn(inp, key, f) <==>
                         key in inp.funcs && key in inp.freeFns && inp.freeFns[key] == FreeFn(mod, name);
  }

  /**
   * The enumerator stops exactly if a skill's struct was not scanned, or a method of its contract has no Go method
   * that the struct declares or the skill base provides.
   */
  lemma StopsExactly(inp: Inputs, sk: Skill)
    ensures !SkillSound(inp, sk) <==>
            || sk.goStruct !in inp.structs
            || exists i :: 0 <= i < |sk.methods| && Lacks(inp, sk.goStruct, sk.methods[i])
  {
    if sk.goStruct in inp.structs {
      if leaf :| leaf in sk.methods && !LeafSound(inp, sk, leaf) {
        var i :| 0 <= i < |sk.methods| && sk.methods[i] == leaf;
        assert Lacks(inp, sk.goStruct, sk.methods[i]);
      }
      if i :| 0 <= i < |sk.methods| && Lacks(inp, sk.goStruct, sk.methods[i]) {
        assert sk.methods[i] in sk.methods;
      }
    }
  }

  predicate Lacks(inp: Inputs, goStruct: string, leaf: string)
    requires goStruct in inp.structs
  {
    leaf in inp.leaves ==>
      inp.leaves[leaf] !in inp.structs[goStruct].facts.methods && inp.leaves[leaf] !in inp.baseProvides
  }
}
