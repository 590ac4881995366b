/**
 * Building the surface from the scanned structs and the translation tables. The loops run over Go maps, whose
 * order is arbitrary; the result is not: it is the one normal inventory that holds exactly the wanted facts.
 */
module SurfaceBuild {
  import opened Text
  import opened Names
  import opened Promotion
  import opened Inventory

  /** A scanned struct; `fields` and `readers` are its exported fields and its zero-argument readers. */
  datatype Struct = Struct(facts: Facts<()>, fields: set<string>, readers: set<string>)

  datatype Target = Target(mod: string, cls: string, methods: map<string, string>, synthetic: seq<string>)

  datatype Skill = Skill(goStruct: string, mod: string, cls: string, methods: seq<string>, synthetic: seq<string>)

  datatype FreeFn = FreeFn(mod: string, name: string)

  datatype GenType = GenType(mod: string, name: string)

  /** What was scanned, and the tables that say what it stands for. */
  datatype Inputs = Inputs(
    structs: map<string, Struct>, funcs: set<string>, oracle: map<string, map<string, set<string>>>,
    table: map<string, seq<Target>>, factoryInit: map<string, string>, freeFns: map<string, FreeFn>,
    skills: seq<Skill>, leaves: map<string, string>, baseProvides: set<string>,
    genTypes: seq<GenType>, corrections: map<string, string>)

  function Python(inp: Inputs, name: string): string {
    if name in inp.corrections then inp.corrections[name] else Snake(name)
  }

  function Graph(inp: Inputs): map<string, Facts<()>> {
    map key | key in inp.structs :: inp.structs[key].facts
  }

  // ---- what is wanted ----

  /** The Go method that a table entry maps is there: a factory function, declared, or promoted. */
  predicate Present(inp: Inputs, key: string, goMethod: string)
    requires key in inp.structs
  {
    var facts := inp.structs[key].facts;
    if "New" <= goMethod then facts.pkg + "." + goMethod in inp.funcs
    else goMethod in facts.methods || Resolved(Graph(inp), facts, goMethod).Some?
  }

  /** `m` is mapped from one of the methods in `some`. */
  predicate Mapped(inp: Inputs, key: string, t: Target, some: set<string>, m: string)
    requires key in inp.structs
  {
    exists g :: g in some && g in t.methods && t.methods[g] == m && Present(inp, key, g)
  }

  predicate InOracle(inp: Inputs, t: Target) {
    t.mod in inp.oracle && t.cls in inp.oracle[t.mod]
  }

  predicate OracleHas(inp: Inputs, t: Target, m: string) {
    InOracle(inp, t) && m in inp.oracle[t.mod][t.cls]
  }

  /** `m` is the reference's spelling of one of the fields in `some`. */
  predicate FieldMember(inp: Inputs, t: Target, some: set<string>, m: string) {
    OracleHas(inp, t, m) && exists g :: g in some && Python(inp, g) == m
  }

  /** `m` is the reference's spelling of one of the readers in `some`, and no method is mapped to it. */
  predicate ReaderMember(inp: Inputs, t: Target, some: set<string>, m: string) {
    m !in t.methods.Values && FieldMember(inp, t, some, m)
  }

  predicate MemberOf(inp: Inputs, key: string, t: Target, m: string)
    requires key in inp.structs
  {
    var st := inp.structs[key];
    || Mapped(inp, key, t, t.methods.Keys, m) || m in t.synthetic
    || FieldMember(inp, t, st.fields, m) || ReaderMember(inp, t, st.readers, m)
  }

  predicate OfClass(f: Fact, mod: string, cls: string) {
    f == HasClass(mod, cls) || (f.HasMember? && f.mod == mod && f.cls == cls)
  }

  predicate FromTarget(inp: Inputs, key: string, t: Target, f: Fact)
    requires key in inp.structs
  {
    OfClass(f, t.mod, t.cls) && (f.HasMember? ==> MemberOf(inp, key, t, f.member))
  }

  predicate FromTargets(inp: Inputs, key: string, ts: seq<Target>, f: Fact)
    requires key in inp.structs
  {
    exists t :: t in ts && FromTarget(inp, key, t, f)
  }

  predicate FromStruct(inp: Inputs, key: string, f: Fact) {
    key in inp.structs && key in inp.table && FromTargets(inp, key, inp.table[key], f)
  }

  predicate InitOf(ts: seq<Target>, f: Fact) {
    exists t :: t in ts && (f == HasClass(t.mod, t.cls) || f == HasMember(t.mod, t.cls, "__init__"))
  }

  predicate FromFactory(inp: Inputs, goFn: string, f: Fact) {
    && goFn in inp.factoryInit && goFn in inp.funcs && inp.factoryInit[goFn] in inp.table
    && InitOf(inp.table[inp.factoryInit[goFn]], f)
  }

  predicate FromFreeFn(inp: Inputs, key: string, f: Fact) {
    key in inp.funcs && key in inp.freeFns && f == HasFunction(inp.freeFns[key].mod, inp.freeFns[key].name)
  }

  predicate FromSkill(sk: Skill, f: Fact) {
    OfClass(f, sk.mod, sk.cls) && (f.HasMember? ==> f.member in sk.methods || f.member in sk.synthetic)
  }

  predicate Wanted(inp: Inputs, f: Fact) {
    || (exists key :: key in inp.structs && FromStruct(inp, key, f))
    || (exists goFn :: goFn in inp.factoryInit && FromFactory(inp, goFn, f))
    || (exists key :: key in inp.funcs && FromFreeFn(inp, key, f))
    || (exists sk :: sk in inp.skills && FromSkill(sk, f))
    || (exists gt :: gt in inp.genTypes && f == HasClass(gt.mod, gt.name))
  }

  /** The skill's struct is known and supplies every method of the contract. */
  predicate SkillSound(inp: Inputs, sk: Skill) {
    sk.goStruct in inp.structs && forall leaf :: leaf in sk.methods ==> LeafSound(inp, sk, leaf)
  }

  predicate LeafSound(inp: Inputs, sk: Skill, leaf: string)
    requires sk.goStruct in inp.structs
  {
    && leaf in inp.leaves
    && (inp.leaves[leaf] in inp.structs[sk.goStruct].facts.methods || inp.leaves[leaf] in inp.baseProvides)
  }

  // ---- the loops ----

  /** Adds members of one class that is there already, one by one. */
  method AddAll(s: Surface, mod: string, cls: string, members: seq<string>)
    requires Proper(s.modules) && Holds(s.modules, HasClass(mod, cls))
    modifies s
    ensures Proper(s.modules)
    ensures forall f :: Holds(s.modules, f)
                   <==> Holds(old(s.modules), f) || (f.HasMember? && OfClass(f, mod, cls) && f.member in members)
  {
    hide Holds, Proper;
    for i := 0 to |members|
      invariant Proper(s.modules) && Holds(s.modules, HasClass(mod, cls))
      invariant forall f :: Holds(s.modules, f)
                       <==> || Holds(old(s.modules), f)
                            || (f.HasMember? && OfClass(f, mod, cls) && f.member in members[..i])
    {
      s.AddMethod(mod, cls, members[i]);
      assert members[..i + 1] == members[..i] + [members[i]];
    }
    assert members[..|members|] == members;
  }

  method ProjectMethods(inp: Inputs, key: string, t: Target, s: Surface)
    requires key in inp.structs
    requires Proper(s.modules) && Holds(s.modules, HasClass(t.mod, t.cls))
    modifies s
    ensures Proper(s.modules)
    ensures forall f :: Holds(s.modules, f)
                   <==> Holds(old(s.modules), f)
                        || (f.HasMember? && OfClass(f, t.mod, t.cls) && Mapped(inp, key, t, t.methods.Keys, f.member))
  {
    hide Holds, Proper, Present, Mapped;
    var facts := inp.structs[key].facts;
    var todo := t.methods.Keys;
    ghost var done: set<string> := {};
    MappedNone(inp, key, t);
    while todo != {}
      invariant todo <= t.methods.Keys && todo + done == t.methods.Keys
      invariant Proper(s.modules) && Holds(s.modules, HasClass(t.mod, t.cls))
      invariant forall f :: Holds(s.modules, f)
                       <==> Holds(old(s.modules), f)
                            || (f.HasMember? && OfClass(f, t.mod, t.cls) && Mapped(inp, key, t, done, f.member))
    {
      var goMethod :| goMethod in todo;
      MappedMore(inp, key, t, done, goMethod);
      todo, done := todo - {goMethod}, done + {goMethod};
      var present := IsPresent(inp, key, goMethod);
      if present {
        s.AddMethod(t.mod, t.cls, t.methods[goMethod]);
      }
    }
    assert done == t.methods.Keys;
  }

  method IsPresent(inp: Inputs, key: string, goMethod: string) returns (r: bool)
    requires key in inp.structs
    ensures r <==> Present(inp, key, goMethod)
  {
    var facts := inp.structs[key].facts;
    if "New" <= goMethod {
      return facts.pkg + "." + goMethod in inp.funcs;
    }
    if goMethod in facts.methods {
      return true;
    }
    var sig := ResolvePromoted(Graph(inp), facts, goMethod);
    return sig.Some?;
  }

  lemma MappedNone(inp: Inputs, key: string, t: Target)
    requires key in inp.structs
    ensures forall m :: !Mapped(inp, key, t, {}, m)
  {
  }

  lemma MappedMore(inp: Inputs, key: string, t: Target, some: set<string>, g: string)
    requires key in inp.structs && g in t.methods
    ensures forall m :: Mapped(inp, key, t, some + {g}, m)
                   <==> Mapped(inp, key, t, some, m) || (Present(inp, key, g) && m == t.methods[g])
  {
    hide Present;
  }

  /** The oracle-gated fold of the exported fields and of the readers. */
  method ProjectOracle(inp: Inputs, key: string, t: Target, s: Surface)
    requires key in inp.structs
    requires Proper(s.modules) && Holds(s.modules, HasClass(t.mod, t.cls))
    modifies s
    ensures Proper(s.modules)
    ensures var st := inp.structs[key];
            forall f :: Holds(s.modules, f)
                   <==> Holds(old(s.modules), f)
                        || (f.HasMember? && OfClass(f, t.mod, t.cls)
                            && (FieldMember(inp, t, st.fields, f.member) || ReaderMember(inp, t, st.readers, f.member)))
  {
    hide Holds, Proper, Python;
    var st := inp.structs[key];
    if InOracle(inp, t) {
      ProjectFields(inp, t, st.fields, {}, s);
      var mapped := t.methods.Values;
      ProjectFields(inp, t, st.readers, mapped, s);
    }
  }

  method ProjectFields(inp: Inputs, t: Target, names: set<string>, but: set<string>, s: Surface)
    requires InOracle(inp, t)
    requires Proper(s.modules) && Holds(s.modules, HasClass(t.mod, t.cls))
    modifies s
    ensures Proper(s.modules) && Holds(s.modules, HasClass(t.mod, t.cls))
    ensures forall f :: Holds(s.modules, f)
                   <==> Holds(old(s.modules), f)
                        || (f.HasMember? && OfClass(f, t.mod, t.cls) && f.member !in but
                           && FieldMember(inp, t, names, f.member))
  {
    hide Holds, Proper, Python, FieldMember;
    var todo := names;
    ghost var done: set<string> := {};
    FieldsNone(inp, t);
    while todo != {}
      invariant todo <= names && todo + done == names
      invariant Proper(s.modules) && Holds(s.modules, HasClass(t.mod, t.cls))
      invariant forall f :: Holds(s.modules, f)
                       <==> Holds(old(s.modules), f)
                            || (f.HasMember? && OfClass(f, t.mod, t.cls) && f.member !in but
                                && FieldMember(inp, t, done, f.member))
    {
      var name :| name in todo;
      FieldsMore(inp, t, done, name);
      todo, done := todo - {name}, done + {name};
      var snake := Python(inp, name);
      if snake in inp.oracle[t.mod][t.cls] && snake !in but {
        s.AddMethod(t.mod, t.cls, snake);
      }
    }
    assert done == names;
  }

  lemma FieldsNone(inp: Inputs, t: Target)
    ensures forall m :: !FieldMember(inp, t, {}, m)
  {
  }

  lemma FieldsMore(inp: Inputs, t: Target, some: set<string>, g: string)
    requires InOracle(inp, t)
    ensures forall m :: FieldMember(inp, t, some + {g}, m)
                   <==> FieldMember(inp, t, some, m) || (m == Python(inp, g) && m in inp.oracle[t.mod][t.cls])
  {
    hide Python;
  }

  method ProjectTarget(inp: Inputs, key: string, t: Target, s: Surface)
    requires key in inp.structs && Proper(s.modules)
    modifies s
    ensures Proper(s.modules)
    ensures forall f :: Holds(s.modules, f) <==> Holds(old(s.modules), f) || FromTarget(inp, key, t, f)
  {
    hide Holds, Proper, Mapped, FieldMember, ReaderMember;
    s.AddClass(t.mod, t.cls);
    ProjectMethods(inp, key, t, s);
    AddAll(s, t.mod, t.cls, t.synthetic);
    ProjectOracle(inp, key, t, s);
  }

  method ProjectStruct(inp: Inputs, key: string, s: Surface)
    requires key in inp.structs && Proper(s.modules)
    modifies s
    ensures Proper(s.modules)
    ensures forall f :: Holds(s.modules, f) <==> Holds(old(s.modules), f) || FromStruct(inp, key, f)
  {
    hide Holds, Proper, FromTarget;
    if key !in inp.table {
      return;
    }
    var targets := inp.table[key];
    for i := 0 to |targets|
      invariant Proper(s.modules)
      invariant forall f :: Holds(s.modules, f) <==> Holds(old(s.modules), f) || FromTargets(inp, key, targets[..i], f)
    {
      ProjectTarget(inp, key, targets[i], s);
      assert targets[..i + 1] == targets[..i] + [targets[i]];
    }
    assert targets[..|targets|] == targets;
  }

  predicate FromStructs(inp: Inputs, some: set<string>, f: Fact) {
    exists key :: key in some && FromStruct(inp, key, f)
  }

  predicate FromFactories(inp: Inputs, some: set<string>, f: Fact) {
    exists goFn :: goFn in some && FromFactory(inp, goFn, f)
  }

  predicate FromFreeFns(inp: Inputs, some: set<string>, f: Fact) {
    exists key :: key in some && FromFreeFn(inp, key, f)
  }

  predicate FromSkills(some: seq<Skill>, f: Fact) {
    exists sk :: sk in some && FromSkill(sk, f)
  }

  predicate FromGenTypes(some: seq<GenType>, f: Fact) {
    exists gt :: gt in some && f == HasClass(gt.mod, gt.name)
  }

  method ProjectStructs(inp: Inputs, s: Surface)
    requires Proper(s.modules)
    modifies s
    ensures Proper(s.modules)
    ensures forall f :: Holds(s.modules, f) <==> Holds(old(s.modules), f) || FromStructs(inp, inp.structs.Keys, f)
  {
    hide Holds, Proper, FromStruct;
    var todo := inp.structs.Keys;
    ghost var done: set<string> := {};
    while todo != {}
      invariant todo + done == inp.structs.Keys && Proper(s.modules)
      invariant forall f :: Holds(s.modules, f) <==> Holds(old(s.modules), f) || FromStructs(inp, done, f)
    {
      var key :| key in todo;
      todo, done := todo - {key}, done + {key};
      ProjectStruct(inp, key, s);
    }
    assert done == inp.structs.Keys;
  }

  method ProjectFactory(inp: Inputs, goFn: string, s: Surface)
    requires goFn in inp.factoryInit && Proper(s.modules)
    modifies s
    ensures Proper(s.modules)
    ensures forall f :: Holds(s.modules, f) <==> Holds(old(s.modules), f) || FromFactory(inp, goFn, f)
  {
    hide Holds, Proper;
    if goFn !in inp.funcs || inp.factoryInit[goFn] !in inp.table {
      return;
    }
    var targets := inp.table[inp.factoryInit[goFn]];
    for i := 0 to |targets|
      invariant Proper(s.modules)
      invariant forall f :: Holds(s.modules, f) <==> Holds(old(s.modules), f) || InitOf(targets[..i], f)
    {
      s.AddMethod(targets[i].mod, targets[i].cls, "__init__");
      assert targets[..i + 1] == targets[..i] + [targets[i]];
    }
    assert targets[..|targets|] == targets;
  }

  method ProjectFactories(inp: Inputs, s: Surface)
    requires Proper(s.modules)
    modifies s
    ensures Proper(s.modules)
    ensures forall f :: Holds(s.modules, f) <==> Holds(old(s.modules), f) || FromFactories(inp, inp.factoryInit.Keys, f)
  {
    hide Holds, Proper, FromFactory;
    var todo := inp.factoryInit.Keys;
    ghost var done: set<string> := {};
    while todo != {}
      invariant todo + done == inp.factoryInit.Keys && Proper(s.modules)
      invariant forall f :: Holds(s.modules, f) <==> Holds(old(s.modules), f) || FromFactories(inp, done, f)
    {
      var goFn :| goFn in todo;
      todo, done := todo - {goFn}, done + {goFn};
      ProjectFactory(inp, goFn, s);
    }
    assert done == inp.factoryInit.Keys;
  }

  method ProjectFreeFns(inp: Inputs, s: Surface)
    requires Proper(s.modules)
    modifies s
    ensures Proper(s.modules)
    ensures forall f :: Holds(s.modules, f) <==> Holds(old(s.modules), f) || FromFreeFns(inp, inp.funcs, f)
  {
    hide Holds, Proper;
    var todo := inp.funcs;
    ghost var done: set<string> := {};
    while todo != {}
      invariant todo + done == inp.funcs && Proper(s.modules)
      invariant forall f :: Holds(s.modules, f) <==> Holds(old(s.modules), f) || FromFreeFns(inp, done, f)
    {
      var key :| key in todo;
      todo, done := todo - {key}, done + {key};
      if key in inp.freeFns {
        s.AddFunction(inp.freeFns[key].mod, inp.freeFns[key].name);
      }
    }
    assert done == inp.funcs;
  }

  /** One skill; false where the enumerator stops because the struct or a method is missing. */
  method ProjectSkill(inp: Inputs, sk: Skill, s: Surface) returns (ok: bool)
    requires Proper(s.modules)
    modifies s
    ensures ok <==> SkillSound(inp, sk)
    ensures Proper(s.modules)
    ensures ok ==> forall f :: Holds(s.modules, f) <==> Holds(old(s.modules), f) || FromSkill(sk, f)
  {
    hide Holds, Proper;
    if sk.goStruct !in inp.structs {
      return false;
    }
    s.AddClass(sk.mod, sk.cls);
    for i := 0 to |sk.methods|
      invariant Proper(s.modules) && Holds(s.modules, HasClass(sk.mod, sk.cls))
      invariant forall j :: 0 <= j < i ==> LeafSound(inp, sk, sk.methods[j])
      invariant forall f :: Holds(s.modules, f)
                       <==> Holds(old(s.modules), f)
                            || (OfClass(f, sk.mod, sk.cls) && (f.HasMember? ==> f.member in sk.methods[..i]))
    {
      if !LeafSound(inp, sk, sk.methods[i]) {
        return false;
      }
      s.AddMethod(sk.mod, sk.cls, sk.methods[i]);
      assert sk.methods[..i + 1] == sk.methods[..i] + [sk.methods[i]];
    }
    assert sk.methods[..|sk.methods|] == sk.methods;
    AddAll(s, sk.mod, sk.cls, sk.synthetic);
    return true;
  }

  method ProjectSkills(inp: Inputs, s: Surface) returns (ok: bool)
    requires Proper(s.modules)
    modifies s
    ensures ok <==> forall sk :: sk in inp.skills ==> SkillSound(inp, sk)
    ensures Proper(s.modules)
    ensures ok ==> forall f :: Holds(s.modules, f) <==> Holds(old(s.modules), f) || FromSkills(inp.skills, f)
  {
    hide Holds, Proper, FromSkill, SkillSound;
    for i := 0 to |inp.skills|
      invariant Proper(s.modules)
      invariant forall j :: 0 <= j < i ==> SkillSound(inp, inp.skills[j])
      invariant forall f :: Holds(s.modules, f) <==> Holds(old(s.modules), f) || FromSkills(inp.skills[..i], f)
    {
      var fine := ProjectSkill(inp, inp.skills[i], s);
      if !fine {
        return false;
      }
      assert inp.skills[..i + 1] == inp.skills[..i] + [inp.skills[i]];
    }
    assert inp.skills[..|inp.skills|] == inp.skills;
    return true;
  }

  method ProjectGenTypes(inp: Inputs, s: Surface)
    requires Proper(s.modules)
    modifies s
    ensures Proper(s.modules)
    ensures forall f :: Holds(s.modules, f) <==> Holds(old(s.modules), f) || FromGenTypes(inp.genTypes, f)
  {
    hide Holds, Proper;
    for i := 0 to |inp.genTypes|
      invariant Proper(s.modules)
      invariant forall f :: Holds(s.modules, f) <==> Holds(old(s.modules), f) || FromGenTypes(inp.genTypes[..i], f)
    {
      s.AddClass(inp.genTypes[i].mod, inp.genTypes[i].name);
      assert inp.genTypes[..i + 1] == inp.genTypes[..i] + [inp.genTypes[i]];
    }
    assert inp.genTypes[..|inp.genTypes|] == inp.genTypes;
  }

  /** The whole build: it stops exactly on an unsound skill, and otherwise holds exactly the wanted facts, sorted. */
  method Build(inp: Inputs) returns (r: Result<Modules>)
    ensures r.Ok? <==> forall sk :: sk in inp.skills ==> SkillSound(inp, sk)
    ensures r.Ok? ==> Normal(r.value) && forall f :: Holds(r.value, f) <==> Wanted(inp, f)
  {
    hide Proper, SkillSound, Normal, FromStruct, FromFactory, FromFreeFn, FromSkill;
    var s := new Surface();
    EmptyIsProper();
    ProjectStructs(inp, s);
    ProjectFactories(inp, s);
    ProjectFreeFns(inp, s);
    var fine := ProjectSkills(inp, s);
    if !fine {
      return Err("a skill has no struct, or a method of its contract is missing");
    }
    ProjectGenTypes(inp, s);
    s.Normalise();
    return Ok(s.modules);
  }

  lemma EmptyIsProper()
    ensures Proper(map[]) && forall f :: !Holds(map[], f)
  {
  }

  /** Whatever order the maps are walked in, two builds from the same inputs give the same surface. */
  lemma OrderIsIrrelevant(inp: Inputs, a: Modules, b: Modules)
    requires Normal(a) && forall f :: Holds(a, f) <==> Wanted(inp, f)
    requires Normal(b) && forall f :: Holds(b, f) <==> Wanted(inp, f)
    ensures a == b
  {
    hide Holds, Wanted, Normal;
    Determined(a, b);
  }
}
