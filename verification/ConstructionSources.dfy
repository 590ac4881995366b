/** What the sources of construction parameters give, told entry by entry: which names, and with what type and need. */
module ConstructionSources {
  import opened Text
  import opened Construction

  predicate StartsWith(s: string, prefix: string) {
    |prefix| <= |s| && s[..|prefix|] == prefix
  }

  // ---- factories ----

  /** The rename table applies to the parameter in classes under one of its prefixes. */
  predicate Renamed(tb: Tables, cls: string, name: string) {
    && name in tb.globalRenames && name in tb.globalRenameClasses
    && exists i :: 0 <= i < |tb.globalRenameClasses[name]| && StartsWith(cls, tb.globalRenameClasses[name][i])
  }

  /** A factory parameter configures the class under the name `n`: it is neither a mechanism nor private. */
  predicate InitGives(tb: Tables, cls: string, p: InitParam, n: string) {
    && !p.mechanism && |p.name| > 0 && p.name[0] != '_'
    && n == if Renamed(tb, cls, p.name) then tb.globalRenames[p.name] else p.name
  }

  /** A missing type counts as any, and a parameter is required unless it says that it is not. */
  predicate InitSays(p: InitParam, r: Param) {
    && (p.typ == "" ==> r.typ == "any") && (p.typ != "" ==> r.typ == p.typ)
    && (r.required <==> p.required != Some(false))
  }

  lemma InitOne(tb: Tables, cls: string, p: InitParam, n: string)
    ensures InitGives(tb, cls, p, n) <==> Configures(p) && n == GlobalRename(tb, cls, p.name)
    ensures InitSays(p, InitEntry(p))
  {
    assert p.name != "" ==> ("_" <= p.name <==> p.name[0] == '_');
    RenameOne(tb, cls, p.name);
  }

  lemma RenameOne(tb: Tables, cls: string, name: string)
    ensures GlobalRename(tb, cls, name) == if Renamed(tb, cls, name) then tb.globalRenames[name] else name
  {
    if name in tb.globalRenames && name in tb.globalRenameClasses {
      var all := tb.globalRenameClasses[name];
      if prefix :| prefix in all && prefix <= cls {
        var i :| 0 <= i < |all| && all[i] == prefix;
        assert StartsWith(cls, all[i]);
      }
      if i :| 0 <= i < |all| && StartsWith(cls, all[i]) {
        assert all[i] in all && all[i] <= cls;
      }
    }
  }

  /** The last entry that gives a name decides what is said of it. */
  lemma {:induction false} FactoryExactly(tb: Tables, cls: string, ps: seq<InitParam>, n: string)
    ensures n in Factory(tb, cls, ps) <==> exists i :: 0 <= i < |ps| && InitGives(tb, cls, ps[i], n)
    ensures forall i :: 0 <= i < |ps| && InitGives(tb, cls, ps[i], n)
                        && (forall j :: i < j < |ps| ==> !InitGives(tb, cls, ps[j], n)) ==>
              n in Factory(tb, cls, ps) && InitSays(ps[i], Factory(tb, cls, ps)[n])
  {
    hide InitGives, InitSays, Configures, GlobalRename, InitEntry;
    if ps != [] {
      var m := |ps| - 1;
      FactoryExactly(tb, cls, ps[..m], n);
      InitOne(tb, cls, ps[m], n);
      assert forall i :: 0 <= i < m ==> ps[..m][i] == ps[i];
    }
  }

  // ---- options structs ----

  predicate Paired(tb: Tables, st: OptionsStruct, name: string) {
    && st.target + "." + name in tb.pairs
    && exists i :: 0 <= i < |st.fields| && st.fields[i].name == tb.pairs[st.target + "." + name].with
  }

  /** The field is the second member of some pair of the class. */
  predicate SecondOfPair(tb: Tables, cls: string, name: string) {
    exists k :: k in tb.pairs && StartsWith(k, cls + ".") && tb.pairs[k].with == name
  }

  /** A field sets the name `n`: under the name of its pair, or else its own name, renamed for the class. */
  predicate FieldGives(tb: Tables, st: OptionsStruct, f: Field, n: string) {
    var key := st.target + "." + f.name;
    && f.name !in tb.mechanismFields
    && (Paired(tb, st, f.name) ==> n == tb.pairs[key].to)
    && (!Paired(tb, st, f.name) ==>
          && !SecondOfPair(tb, st.target, f.name)
          && (key in tb.fieldRenames ==> n == tb.fieldRenames[key])
          && (key !in tb.fieldRenames ==> n == f.name))
  }

  /** It is never required; its type is that of the pair, or its own, where a missing one counts as any. */
  predicate FieldSays(tb: Tables, st: OptionsStruct, f: Field, r: Param) {
    && !r.required
    && (Paired(tb, st, f.name) ==> r.typ == tb.pairs[st.target + "." + f.name].typ)
    && (!Paired(tb, st, f.name) && f.typ != "" ==> r.typ == f.typ)
    && (!Paired(tb, st, f.name) && f.typ == "" ==> r.typ == "any")
  }

  lemma FieldOne(tb: Tables, st: OptionsStruct, f: Field, n: string)
    ensures FieldGives(tb, st, f, n) <==> FieldWrite(tb, st, f).Some? && FieldWrite(tb, st, f).value.name == n
    ensures FieldWrite(tb, st, f).Some? ==> FieldSays(tb, st, f, FieldWrite(tb, st, f).value.param)
  {
    var key := st.target + "." + f.name;
    assert Paired(tb, st, f.name) <==> key in tb.pairs && HasField(st.fields, tb.pairs[key].with);
    assert SecondOfPair(tb, st.target, f.name) <==> IsFolded(tb, st.target, f.name) by {
      forall k ensures StartsWith(k, st.target + ".") <==> st.target + "." <= k {
      }
    }
  }

  lemma {:induction false} FieldsExactly(tb: Tables, st: OptionsStruct, m: nat, n: string)
    requires m <= |st.fields|
    ensures n in FieldWrites(tb, st, m) <==> exists i :: 0 <= i < m && FieldGives(tb, st, st.fields[i], n)
    ensures forall i :: 0 <= i < m && FieldGives(tb, st, st.fields[i], n)
                        && (forall j :: i < j < m ==> !FieldGives(tb, st, st.fields[j], n)) ==>
              n in FieldWrites(tb, st, m) && FieldSays(tb, st, st.fields[i], FieldWrites(tb, st, m)[n])
  {
    hide FieldGives, FieldSays, FieldWrite;
    if m > 0 {
      FieldsExactly(tb, st, m - 1, n);
      FieldOne(tb, st, st.fields[m - 1], n);
    }
  }

  /** The struct is bound to the class, and its field `i` is its last to give the name. */
  predicate LastGiver(tb: Tables, cls: string, st: OptionsStruct, i: int, n: string) {
    && st.target == cls && 0 <= i < |st.fields| && FieldGives(tb, st, st.fields[i], n)
    && forall j :: i < j < |st.fields| ==> !FieldGives(tb, st, st.fields[j], n)
  }

  predicate StructGives(tb: Tables, cls: string, st: OptionsStruct, n: string) {
    st.target == cls && exists i :: 0 <= i < |st.fields| && FieldGives(tb, st, st.fields[i], n)
  }

  /** A class has the names that the fields of its structs give; the last struct, and in it the last field, decides. */
  lemma {:induction false} UnfoldedExactly(tb: Tables, cls: string, sts: seq<OptionsStruct>, n: string)
    ensures n in Unfolded(tb, cls, sts) <==> exists s :: 0 <= s < |sts| && StructGives(tb, cls, sts[s], n)
    ensures forall s, i :: 0 <= s < |sts| && LastGiver(tb, cls, sts[s], i, n)
                           && (forall t :: s < t < |sts| ==> !StructGives(tb, cls, sts[t], n)) ==>
              n in Unfolded(tb, cls, sts) && FieldSays(tb, sts[s], sts[s].fields[i], Unfolded(tb, cls, sts)[n])
  {
    hide StructGives, LastGiver, FieldSays, FieldWrites;
    if sts != [] {
      var m := |sts| - 1;
      UnfoldedExactly(tb, cls, sts[..m], n);
      StructOne(tb, cls, sts[m], n);
      assert forall s :: 0 <= s < m ==> sts[..m][s] == sts[s];
    }
  }

  lemma StructOne(tb: Tables, cls: string, st: OptionsStruct, n: string)
    ensures var w := FieldWrites(tb, st, |st.fields|);
            && (StructGives(tb, cls, st, n) <==> st.target == cls && n in w)
            && forall i :: LastGiver(tb, cls, st, i, n) ==>
                  StructGives(tb, cls, st, n) && n in w && FieldSays(tb, st, st.fields[i], w[n])
  {
    hide FieldGives, FieldSays, FieldWrites;
    FieldsExactly(tb, st, |st.fields|, n);
  }

  // ---- functional options ----

  /** The function WithX of an option type bound to the class gives the name `n`, renamed for the class. */
  predicate OptionGives(tb: Tables, cls: string, fn: Fn, n: string) {
    var opt, key := fn.pkg + "." + fn.result, cls + "." + fn.param;
    && StartsWith(fn.name, "With") && fn.name != "With"
    && opt in tb.optionConstructs && tb.optionConstructs[opt] == cls
    && (key in tb.optionRenames ==> n == tb.optionRenames[key])
    && (key !in tb.optionRenames ==> n == fn.param)
  }

  lemma OptionOne(tb: Tables, cls: string, fn: Fn, n: string)
    ensures OptionGives(tb, cls, fn, n) <==> Bound(tb, fn) == Some(cls) && OptionName(tb, cls, fn) == n
  {
    assert StartsWith(fn.name, "With") <==> "With" <= fn.name;
    assert StartsWith(fn.name, "With") && |fn.name| == 4 ==> fn.name == "With";
  }

  /** The first option that gives a name decides its type; none is required. */
  lemma {:induction false} OfferedExactly(tb: Tables, cls: string, fns: seq<Fn>, n: string)
    ensures n in Offered(tb, cls, fns) <==> exists i :: 0 <= i < |fns| && OptionGives(tb, cls, fns[i], n)
    ensures forall i :: 0 <= i < |fns| && OptionGives(tb, cls, fns[i], n)
                        && (forall j :: 0 <= j < i ==> !OptionGives(tb, cls, fns[j], n)) ==>
              n in Offered(tb, cls, fns) && Offered(tb, cls, fns)[n] == Param(fns[i].typ, false)
  {
    hide OptionGives, Bound, OptionName;
    if fns != [] {
      var m := |fns| - 1;
      OfferedExactly(tb, cls, fns[..m], n);
      OptionOne(tb, cls, fns[m], n);
      assert forall i :: 0 <= i < m ==> fns[..m][i] == fns[i];
    }
  }

  // ---- the whole merge ----

  /**
   * A class that some source other than its literal names has exactly the names that its structs, its factory and
   * its options give.
   */
  lemma MergedNames(tb: Tables, src: Sources, cls: string, n: string)
    requires Supplied(tb, src, cls)
    ensures n in Merged(tb, src, cls) <==>
            || (exists s :: 0 <= s < |src.structs| && StructGives(tb, cls, src.structs[s], n))
            || (cls in src.inits && exists i :: 0 <= i < |src.inits[cls]| && InitGives(tb, cls, src.inits[cls][i], n))
            || (exists i :: 0 <= i < |src.funcs| && OptionGives(tb, cls, src.funcs[i], n))
  {
    hide Unfolded, Factory, Offered, Supplied, StructGives, InitGives, OptionGives;
    UnfoldedExactly(tb, cls, src.structs, n);
    if cls in src.inits {
      FactoryExactly(tb, cls, src.inits[cls], n);
    }
    OfferedExactly(tb, cls, src.funcs, n);
    hide Merged;
    MergedHas(tb, src, cls, n);
  }

  lemma MergedHas(tb: Tables, src: Sources, cls: string, n: string)
    requires Supplied(tb, src, cls)
    ensures n in Merged(tb, src, cls) <==>
            || n in Unfolded(tb, cls, src.structs) || n in Offered(tb, cls, src.funcs)
            || (cls in src.inits && n in Factory(tb, cls, src.inits[cls]))
  {
    hide Unfolded, Factory, Offered, Supplied;
  }

  /** The merge considers the sources of a class exactly when one of them names it; else the struct literal counts. */
  lemma SuppliedExactly(tb: Tables, src: Sources, cls: string)
    ensures Supplied(tb, src, cls) <==>
            || (exists s :: 0 <= s < |src.structs| && src.structs[s].target == cls)
            || (cls in src.inits
                && exists i, n :: 0 <= i < |src.inits[cls]| && InitGives(tb, cls, src.inits[cls][i], n))
            || (exists i, n :: 0 <= i < |src.funcs| && OptionGives(tb, cls, src.funcs[i], n))
  {
    hide Factory, InitGives, OptionGives, Bound, OptionName, Configures;
    assert HasOption(tb, cls, src.funcs) <==>
           exists i, n :: 0 <= i < |src.funcs| && OptionGives(tb, cls, src.funcs[i], n) by {
      forall i | 0 <= i < |src.funcs| {
        OptionOne(tb, cls, src.funcs[i], OptionName(tb, cls, src.funcs[i]));
      }
      if i, n :| 0 <= i < |src.funcs| && OptionGives(tb, cls, src.funcs[i], n) {
        OptionOne(tb, cls, src.funcs[i], n);
      }
    }
    if cls in src.inits {
      var ps := src.inits[cls];
      FactoryGivesNothing(tb, cls, ps);
      forall i | 0 <= i < |ps| {
        InitOne(tb, cls, ps[i], GlobalRename(tb, cls, ps[i].name));
      }
      if i, n :| 0 <= i < |ps| && InitGives(tb, cls, ps[i], n) {
        InitOne(tb, cls, ps[i], n);
      }
    }
  }
}
