/**
 * The construction parameters of the classes, merged from the factories, the unfolded options structs, the
 * functional options and, for classes with none of these, the struct-literal fields.
 */
module Construction {
  import opened Text

  datatype Param = Param(typ: string, required: bool)

  type Params = map<string, Param>

  /** A parameter of an emitted __init__; `mechanism` marks receivers, option bags and the like. */
  datatype InitParam = InitParam(name: string, typ: string, required: Option<bool>, mechanism: bool)

  /** A field of an options struct: its derived name and its translated type, "" where that fails. */
  datatype Field = Field(name: string, typ: string)

  /** An options struct bound to a class; only structs with an exported field are recorded. */
  datatype OptionsStruct = OptionsStruct(target: string, fields: seq<Field>)

  /** A free function: `param` is the derived name of what follows "With". */
  datatype Fn = Fn(pkg: string, name: string, result: string, param: string, typ: string)

  datatype Pair = Pair(with: string, to: string, typ: string)

  datatype Tables = Tables(
    globalRenames: map<string, string>, globalRenameClasses: map<string, seq<string>>,
    mechanismFields: set<string>, pairs: map<string, Pair>, fieldRenames: map<string, string>,
    optionConstructs: map<string, string>, optionRenames: map<string, string>)

  datatype Sources = Sources(
    inits: map<string, seq<InitParam>>, structs: seq<OptionsStruct>, funcs: seq<Fn>, literals: map<string, Params>)

  // ---- what each source says of one class ----

  function GlobalRename(tb: Tables, cls: string, name: string): string {
    if name in tb.globalRenames && name in tb.globalRenameClasses
       && exists prefix :: prefix in tb.globalRenameClasses[name] && prefix <= cls
    then tb.globalRenames[name] else name
  }

  predicate Configures(p: InitParam) {
    !p.mechanism && p.name != "" && !("_" <= p.name)
  }

  function InitEntry(p: InitParam): Param {
    Param(if p.typ == "" then "any" else p.typ, p.required.None? || p.required.value)
  }

  /** The parameters of a factory, a later one winning over an earlier one of the same name. */
  function Factory(tb: Tables, cls: string, ps: seq<InitParam>): Params {
    if ps == [] then map[]
    else
      var rest, p := Factory(tb, cls, ps[..|ps| - 1]), ps[|ps| - 1];
      if Configures(p) then rest[GlobalRename(tb, cls, p.name) := InitEntry(p)] else rest
  }

  predicate HasField(fields: seq<Field>, name: string) {
    exists i :: 0 <= i < |fields| && fields[i].name == name
  }

  predicate IsFolded(tb: Tables, cls: string, name: string) {
    exists k :: k in tb.pairs && cls + "." <= k && tb.pairs[k].with == name
  }

  datatype Write = Write(name: string, param: Param)

  /** What a field of an options struct sets, if anything. */
  function FieldWrite(tb: Tables, st: OptionsStruct, f: Field): Option<Write> {
    var key := st.target + "." + f.name;
    if f.name in tb.mechanismFields then None
    else if key in tb.pairs && HasField(st.fields, tb.pairs[key].with) then
      Some(Write(tb.pairs[key].to, Param(tb.pairs[key].typ, false)))
    else if IsFolded(tb, st.target, f.name) then None
    else
      Some(Write(if key in tb.fieldRenames then tb.fieldRenames[key] else f.name,
                 Param(if f.typ == "" then "any" else f.typ, false)))
  }

  function FieldWrites(tb: Tables, st: OptionsStruct, n: nat): Params
    requires n <= |st.fields|
  {
    if n == 0 then map[]
    else
      var before := FieldWrites(tb, st, n - 1);
      match FieldWrite(tb, st, st.fields[n - 1])
      case None => before
      case Some(w) => before[w.name := w.param]
  }

  /** What the options structs bound to a class set, a later struct winning. */
  function Unfolded(tb: Tables, cls: string, sts: seq<OptionsStruct>): Params {
    if sts == [] then map[]
    else
      var before, st := Unfolded(tb, cls, sts[..|sts| - 1]), sts[|sts| - 1];
      if st.target == cls then before + FieldWrites(tb, st, |st.fields|) else before
  }

  predicate HasStruct(cls: string, sts: seq<OptionsStruct>) {
    exists i :: 0 <= i < |sts| && sts[i].target == cls
  }

  /** The class that a functional option configures. */
  function Bound(tb: Tables, fn: Fn): Option<string> {
    if "With" <= fn.name && |fn.name| > 4 && fn.pkg + "." + fn.result in tb.optionConstructs
    then Some(tb.optionConstructs[fn.pkg + "." + fn.result]) else None
  }

  function OptionName(tb: Tables, cls: string, fn: Fn): string {
    if cls + "." + fn.param in tb.optionRenames then tb.optionRenames[cls + "." + fn.param] else fn.param
  }

  /** What the functional options bound to a class offer, the first of a name winning. */
  function Offered(tb: Tables, cls: string, fns: seq<Fn>): Params {
    if fns == [] then map[]
    else
      var before, fn := Offered(tb, cls, fns[..|fns| - 1]), fns[|fns| - 1];
      if Bound(tb, fn) == Some(cls) && OptionName(tb, cls, fn) !in before
      then before[OptionName(tb, cls, fn) := Param(fn.typ, false)] else before
  }

  predicate HasOption(tb: Tables, cls: string, fns: seq<Fn>) {
    exists i :: 0 <= i < |fns| && Bound(tb, fns[i]) == Some(cls)
  }

  function FactoryOf(tb: Tables, src: Sources, cls: string): Params {
    if cls in src.inits then Factory(tb, cls, src.inits[cls]) else map[]
  }

  /** Some source other than the struct literal names the class, be it without a single parameter. */
  predicate Supplied(tb: Tables, src: Sources, cls: string) {
    FactoryOf(tb, src, cls) != map[] || HasStruct(cls, src.structs) || HasOption(tb, cls, src.funcs)
  }

  /** The merged parameters: options below factory below unfolded fields, or the struct literal. */
  function Merged(tb: Tables, src: Sources, cls: string): Params {
    if Supplied(tb, src, cls) then
      Offered(tb, cls, src.funcs) + (FactoryOf(tb, src, cls) + Unfolded(tb, cls, src.structs))
    else if cls in src.literals then src.literals[cls]
    else map[]
  }

  // ---- the merge ----

  function At(out: map<string, Params>, cls: string): Params {
    if cls in out then out[cls] else map[]
  }

  /** After the factories, and the options structs and functional options given. */
  ghost predicate Holding(tb: Tables, src: Sources, sts: seq<OptionsStruct>, fns: seq<Fn>, out: map<string, Params>) {
    forall cls ::
      && (cls in out <==> FactoryOf(tb, src, cls) != map[] || HasStruct(cls, sts) || HasOption(tb, cls, fns))
      && At(out, cls) == Offered(tb, cls, fns) + (FactoryOf(tb, src, cls) + Unfolded(tb, cls, sts))
  }

  method Factories(tb: Tables, src: Sources) returns (out: map<string, Params>)
    ensures Holding(tb, src, [], [], out)
  {
    hide GlobalRename, Configures, InitEntry;
    out := map[];
    var todo := src.inits.Keys;
    while todo != {}
      invariant todo <= src.inits.Keys
      invariant forall cls :: cls in out <==> cls !in todo && FactoryOf(tb, src, cls) != map[]
      invariant forall cls :: cls in out ==> out[cls] == FactoryOf(tb, src, cls)
    {
      var cls :| cls in todo;
      var ps := src.inits[cls];
      assert ps[..0] == [];
      for i := 0 to |ps|
        invariant cls in out <==> Factory(tb, cls, ps[..i]) != map[]
        invariant cls in out ==> out[cls] == Factory(tb, cls, ps[..i])
        invariant forall c :: c != cls ==> (c in out <==> c !in todo && FactoryOf(tb, src, c) != map[])
        invariant forall c :: c != cls && c in out ==> out[c] == FactoryOf(tb, src, c)
      {
        assert ps[..i + 1][..i] == ps[..i];
        var p := ps[i];
        if !Configures(p) {
          continue;
        }
        var params := At(out, cls);
        var name := GlobalRename(tb, cls, p.name);
        assert name in params[name := InitEntry(p)];
        out := out[cls := params[name := InitEntry(p)]];
      }
      assert ps[..|ps|] == ps;
      todo := todo - {cls};
    }
    assert forall cls :: Offered(tb, cls, []) == map[] && Unfolded(tb, cls, []) == map[];
  }

  lemma StructStep(tb: Tables, src: Sources, sts: seq<OptionsStruct>, st: OptionsStruct, cls: string, before: Params,
      after: Params)
    requires before == Offered(tb, cls, []) + (FactoryOf(tb, src, cls) + Unfolded(tb, cls, sts))
    requires after == if st.target == cls then before + FieldWrites(tb, st, |st.fields|) else before
    ensures after == Offered(tb, cls, []) + (FactoryOf(tb, src, cls) + Unfolded(tb, cls, sts + [st]))
  {
    hide FactoryOf, FieldWrites;
    assert (sts + [st])[..|sts|] == sts;
  }

  lemma HasStructStep(cls: string, sts: seq<OptionsStruct>, st: OptionsStruct)
    ensures HasStruct(cls, sts + [st]) <==> HasStruct(cls, sts) || st.target == cls
  {
    var all := sts + [st];
    assert all[|sts|] == st && forall i :: 0 <= i < |sts| ==> all[i] == sts[i];
  }

  method UnfoldStruct(tb: Tables, st: OptionsStruct, before: Params) returns (params: Params)
    ensures params == before + FieldWrites(tb, st, |st.fields|)
  {
    hide IsFolded, HasField;
    params := before;
    for i := 0 to |st.fields|
      invariant params == before + FieldWrites(tb, st, i)
    {
      var name := st.fields[i].name;
      var key := st.target + "." + name;
      if name in tb.mechanismFields {
        continue;
      }
      if key in tb.pairs {
        if HasField(st.fields, tb.pairs[key].with) {
          params := params[tb.pairs[key].to := Param(tb.pairs[key].typ, false)];
          continue;
        }
      }
      if IsFolded(tb, st.target, name) {
        continue;
      }
      if key in tb.fieldRenames {
        name := tb.fieldRenames[key];
      }
      var t := if st.fields[i].typ == "" then "any" else st.fields[i].typ;
      params := params[name := Param(t, false)];
    }
  }

  method Structs(tb: Tables, src: Sources, start: map<string, Params>) returns (out: map<string, Params>)
    requires Holding(tb, src, [], [], start)
    ensures Holding(tb, src, src.structs, [], out)
  {
    hide FactoryOf, Offered, Unfolded, FieldWrites, HasStruct, HasOption;
    out := start;
    assert src.structs[..0] == [];
    for i := 0 to |src.structs|
      invariant Holding(tb, src, src.structs[..i], [], out)
    {
      var st := src.structs[i];
      ghost var before := out;
      var params := UnfoldStruct(tb, st, At(out, st.target));
      out := out[st.target := params];
      forall cls
        ensures HasStruct(cls, src.structs[..i + 1]) <==> HasStruct(cls, src.structs[..i]) || st.target == cls
        ensures At(out, cls) == Offered(tb, cls, [])
                + (FactoryOf(tb, src, cls) + Unfolded(tb, cls, src.structs[..i + 1]))
      {
        assert src.structs[..i + 1] == src.structs[..i] + [st];
        HasStructStep(cls, src.structs[..i], st);
        StructStep(tb, src, src.structs[..i], st, cls, At(before, cls), At(out, cls));
      }
    }
    assert src.structs[..|src.structs|] == src.structs;
  }

  lemma HasOptionStep(tb: Tables, cls: string, fns: seq<Fn>, fn: Fn)
    ensures HasOption(tb, cls, fns + [fn]) <==> HasOption(tb, cls, fns) || Bound(tb, fn) == Some(cls)
  {
    hide Bound;
    var all := fns + [fn];
    assert all[|fns|] == fn && forall i :: 0 <= i < |fns| ==> all[i] == fns[i];
  }

  lemma OptionStep(tb: Tables, cls: string, fns: seq<Fn>, fn: Fn, base: Params, before: Params, after: Params)
    requires before == Offered(tb, cls, fns) + base
    requires after == if Bound(tb, fn) == Some(cls) && OptionName(tb, cls, fn) !in before
                      then before[OptionName(tb, cls, fn) := Param(fn.typ, false)] else before
    ensures after == Offered(tb, cls, fns + [fn]) + base
  {
    hide Bound, OptionName;
    assert (fns + [fn])[..|fns|] == fns;
  }

  lemma HoldingOption(tb: Tables, src: Sources, fns: seq<Fn>, fn: Fn, before: map<string, Params>,
      after: map<string, Params>)
    requires Holding(tb, src, src.structs, fns, before)
    requires match Bound(tb, fn)
             case None => after == before
             case Some(target) =>
               var pname, params := OptionName(tb, target, fn), At(before, target);
               after == before[target := if pname in params then params else params[pname := Param(fn.typ, false)]]
    ensures Holding(tb, src, src.structs, fns + [fn], after)
  {
    hide FactoryOf, Offered, Unfolded, HasStruct, HasOption, OptionName, Bound;
    forall cls
      ensures cls in after
              <==> FactoryOf(tb, src, cls) != map[] || HasStruct(cls, src.structs) || HasOption(tb, cls, fns + [fn])
      ensures At(after, cls) == Offered(tb, cls, fns + [fn])
              + (FactoryOf(tb, src, cls) + Unfolded(tb, cls, src.structs))
    {
      HasOptionStep(tb, cls, fns, fn);
      OptionStep(tb, cls, fns, fn, FactoryOf(tb, src, cls) + Unfolded(tb, cls, src.structs), At(before, cls),
          At(after, cls));
    }
  }

  method Options(tb: Tables, src: Sources, start: map<string, Params>) returns (out: map<string, Params>)
    requires Holding(tb, src, src.structs, [], start)
    ensures Holding(tb, src, src.structs, src.funcs, out)
  {
    hide Holding, OptionName, Bound;
    out := start;
    assert src.funcs[..0] == [];
    for i := 0 to |src.funcs|
      invariant Holding(tb, src, src.structs, src.funcs[..i], out)
    {
      var fn := src.funcs[i];
      ghost var before := out;
      var target := Bound(tb, fn);
      if target.Some? {
        var pname := OptionName(tb, target.value, fn);
        var params := At(out, target.value);
        out := out[target.value := if pname in params then params else params[pname := Param(fn.typ, false)]];
      }
      HoldingOption(tb, src, src.funcs[..i], fn, before, out);
      assert src.funcs[..i + 1] == src.funcs[..i] + [fn];
    }
    assert src.funcs[..|src.funcs|] == src.funcs;
  }

  /** The struct literals of the classes that have no entry yet. */
  method Literals(literals: map<string, Params>, supplied: map<string, Params>) returns (out: map<string, Params>)
    ensures out == literals + supplied
  {
    out := supplied;
    var todo := literals.Keys;
    while todo != {}
      invariant todo <= literals.Keys && out == (map cls | cls in literals && cls !in todo :: literals[cls]) + supplied
    {
      var cls :| cls in todo;
      todo := todo - {cls};
      if cls in out {
        continue;
      }
      out := out[cls := literals[cls]];
    }
    assert (map cls | cls in literals && cls !in todo :: literals[cls]) == literals;
  }

  lemma MergedIs(tb: Tables, src: Sources, supplied: map<string, Params>, cls: string)
    requires Holding(tb, src, src.structs, src.funcs, supplied)
    ensures Merged(tb, src, cls) == At(src.literals + supplied, cls)
  {
    hide FactoryOf, Offered, Unfolded, HasStruct, HasOption;
    assert cls in supplied <==> Supplied(tb, src, cls);
    assert cls in supplied ==> At(supplied, cls) == supplied[cls];
  }

  /** The whole merge: a class is in the result exactly when it has parameters, and then with the merged ones. */
  method BuildConstruction(tb: Tables, src: Sources) returns (out: map<string, Params>)
    ensures forall cls :: cls in out <==> Merged(tb, src, cls) != map[]
    ensures forall cls :: cls in out ==> out[cls] == Merged(tb, src, cls)
  {
    hide Holding, Merged;
    out := Factories(tb, src);
    out := Structs(tb, src, out);
    out := Options(tb, src, out);
    ghost var supplied := out;
    out := Literals(src.literals, out);
    forall cls ensures Merged(tb, src, cls) == At(out, cls) {
      MergedIs(tb, src, supplied, cls);
    }
    out := map cls | cls in out && out[cls] != map[] :: out[cls];
  }

  // ---- the precedence of the sources ----

  /**
   * Where several sources name a parameter of a class, an options-struct field wins over the factory, and the
   * factory over the functional options; struct-literal fields count only where no other source names the class.
   */
  lemma Precedence(tb: Tables, src: Sources, cls: string, name: string)
    ensures var unfolded, factory, offered :=
              Unfolded(tb, cls, src.structs), FactoryOf(tb, src, cls), Offered(tb, cls, src.funcs);
            var merged := Merged(tb, src, cls);
            && (name in unfolded ==> name in merged && merged[name] == unfolded[name])
            && (name in factory && name !in unfolded ==> name in merged && merged[name] == factory[name])
            && (name in offered && name !in unfolded && name !in factory ==>
                  name in merged && merged[name] == offered[name])
            && (Supplied(tb, src, cls) && name in merged ==> name in unfolded || name in factory || name in offered)
            && (!Supplied(tb, src, cls) ==> merged == At(src.literals, cls))
  {
    UnfoldedNeedsStruct(tb, cls, src.structs);
    OfferedNeedsOption(tb, cls, src.funcs);
    hide FactoryOf, Unfolded, Offered, HasStruct, HasOption;
    assert name in FactoryOf(tb, src, cls) ==> FactoryOf(tb, src, cls) != map[];
  }

  lemma {:induction false} UnfoldedNeedsStruct(tb: Tables, cls: string, sts: seq<OptionsStruct>)
    ensures Unfolded(tb, cls, sts) != map[] ==> HasStruct(cls, sts)
    ensures forall name :: name in Unfolded(tb, cls, sts) ==> !Unfolded(tb, cls, sts)[name].required
  {
    if sts != [] {
      var st := sts[|sts| - 1];
      UnfoldedNeedsStruct(tb, cls, sts[..|sts| - 1]);
      FieldsOptional(tb, st, |st.fields|);
    }
  }

  lemma {:induction false} FieldsOptional(tb: Tables, st: OptionsStruct, n: nat)
    requires n <= |st.fields|
    ensures forall name :: name in FieldWrites(tb, st, n) ==> !FieldWrites(tb, st, n)[name].required
  {
    if n > 0 {
      FieldsOptional(tb, st, n - 1);
    }
  }

  lemma {:induction false} OfferedNeedsOption(tb: Tables, cls: string, fns: seq<Fn>)
    ensures Offered(tb, cls, fns) != map[] ==> HasOption(tb, cls, fns)
    ensures forall name :: name in Offered(tb, cls, fns) ==> !Offered(tb, cls, fns)[name].required
  {
    if fns != [] {
      OfferedNeedsOption(tb, cls, fns[..|fns| - 1]);
    }
  }

  /** A parameter is required exactly when the factory requires it and no options-struct field replaces it. */
  lemma RequiredExactly(tb: Tables, src: Sources, cls: string, name: string)
    requires Supplied(tb, src, cls) && name in Merged(tb, src, cls)
    ensures Merged(tb, src, cls)[name].required
       <==> && name in FactoryOf(tb, src, cls) && FactoryOf(tb, src, cls)[name].required
            && name !in Unfolded(tb, cls, src.structs)
  {
    UnfoldedNeedsStruct(tb, cls, src.structs);
    OfferedNeedsOption(tb, cls, src.funcs);
    Precedence(tb, src, cls, name);
    hide FactoryOf, Unfolded, Offered, Supplied;
  }

  // ---- when the struct literal is lost ----

  /** The struct is bound to the class, and not one of its fields sets anything. */
  predicate SetsNothing(tb: Tables, st: OptionsStruct) {
    forall i :: 0 <= i < |st.fields| ==> FieldWrite(tb, st, st.fields[i]).None?
  }

  predicate AllSetNothing(tb: Tables, cls: string, sts: seq<OptionsStruct>) {
    forall i :: 0 <= i < |sts| && sts[i].target == cls ==> SetsNothing(tb, sts[i])
  }

  lemma {:induction false} FieldsWriteNothing(tb: Tables, st: OptionsStruct, n: nat)
    requires n <= |st.fields|
    ensures FieldWrites(tb, st, n) == map[] <==> forall i :: 0 <= i < n ==> FieldWrite(tb, st, st.fields[i]).None?
  {
    hide FieldWrite;
    if n > 0 {
      FieldsWriteNothing(tb, st, n - 1);
      var w := FieldWrite(tb, st, st.fields[n - 1]);
      assert w.Some? ==> w.value.name in FieldWrites(tb, st, n);
    }
  }

  lemma {:induction false} UnfoldsNothing(tb: Tables, cls: string, sts: seq<OptionsStruct>)
    ensures Unfolded(tb, cls, sts) == map[] <==> AllSetNothing(tb, cls, sts)
  {
    hide FieldWrites, SetsNothing;
    if sts != [] {
      var n := |sts| - 1;
      var before, st := sts[..n], sts[n];
      UnfoldsNothing(tb, cls, before);
      WritesNothing(tb, st);
      assert forall i :: 0 <= i < n ==> sts[i] == before[i];
      MapSum(Unfolded(tb, cls, before), FieldWrites(tb, st, |st.fields|));
    }
  }

  lemma WritesNothing(tb: Tables, st: OptionsStruct)
    ensures FieldWrites(tb, st, |st.fields|) == map[] <==> SetsNothing(tb, st)
  {
    FieldsWriteNothing(tb, st, |st.fields|);
  }

  lemma MapSum(a: Params, b: Params)
    ensures a + b == map[] <==> a == map[] && b == map[]
  {
    assert (a + b).Keys == a.Keys + b.Keys;
    assert a == map[] <==> a.Keys == {};
    assert b == map[] <==> b.Keys == {};
  }

  lemma {:induction false} FactoryGivesNothing(tb: Tables, cls: string, ps: seq<InitParam>)
    ensures Factory(tb, cls, ps) == map[] <==> forall i :: 0 <= i < |ps| ==> !Configures(ps[i])
  {
    hide Configures, GlobalRename, InitEntry;
    if ps != [] {
      var n := |ps| - 1;
      FactoryGivesNothing(tb, cls, ps[..n]);
      assert forall i :: 0 <= i < n ==> ps[i] == ps[..n][i];
      assert Configures(ps[n]) ==> GlobalRename(tb, cls, ps[n].name) in Factory(tb, cls, ps);
    }
  }

  lemma {:induction false} OptionOffers(tb: Tables, cls: string, fns: seq<Fn>)
    ensures HasOption(tb, cls, fns) ==> Offered(tb, cls, fns) != map[]
  {
    hide Bound, OptionName;
    if fns != [] {
      var n := |fns| - 1;
      OptionOffers(tb, cls, fns[..n]);
      assert forall i :: 0 <= i < n ==> fns[i] == fns[..n][i];
      assert Bound(tb, fns[n]) == Some(cls) ==> OptionName(tb, cls, fns[n]) in Offered(tb, cls, fns);
    }
  }

  /**
   * A class with a struct literal loses it, and is dropped for want of parameters, exactly when an options struct
   * is bound to it, no field of such a struct sets anything, no factory parameter configures it, and it has no option.
   */
  lemma LiteralLostExactly(tb: Tables, src: Sources, cls: string)
    requires cls in src.literals && src.literals[cls] != map[]
    ensures Merged(tb, src, cls) == map[] <==>
            && HasStruct(cls, src.structs) && AllSetNothing(tb, cls, src.structs)
            && (cls in src.inits ==> forall i :: 0 <= i < |src.inits[cls]| ==> !Configures(src.inits[cls][i]))
            && !HasOption(tb, cls, src.funcs)
  {
    UnfoldsNothing(tb, cls, src.structs);
    OptionOffers(tb, cls, src.funcs);
    OfferedNeedsOption(tb, cls, src.funcs);
    if cls in src.inits {
      FactoryGivesNothing(tb, cls, src.inits[cls]);
    }
    hide Factory, Unfolded, Offered, HasStruct, HasOption, AllSetNothing, Configures;
    MapSum(FactoryOf(tb, src, cls), Unfolded(tb, cls, src.structs));
    MapSum(Offered(tb, cls, src.funcs), FactoryOf(tb, src, cls) + Unfolded(tb, cls, src.structs));
  }

  /** An options struct whose one field only carries the agent's own options hides the literal of its class. */
  lemma MechanismHidesLiteral(tb: Tables, cls: string, literal: Params)
    requires "agent_options" in tb.mechanismFields && literal != map[]
    ensures var src := Sources(map[], [OptionsStruct(cls, [Field("agent_options", "any")])], [], map[cls := literal]);
            Merged(tb, src, cls) == map[]
  {
    var st := OptionsStruct(cls, [Field("agent_options", "any")]);
    assert SetsNothing(tb, st);
    assert [st][0] == st;
    hide Merged, SetsNothing;
    LiteralLostExactly(tb, Sources(map[], [st], [], map[cls := literal]), cls);
  }
}
