/** The surface inventory: per module the classes with their members, and the functions. */
module Inventory {
  import opened Sorting

  datatype Module = Module(classes: map<string, seq<string>>, functions: seq<string>)

  type Modules = map<string, Module>

  /** One thing an inventory can say. */
  datatype Fact =
    | HasClass(mod: string, cls: string)
    | HasMember(mod: string, cls: string, member: string)
    | HasFunction(mod: string, name: string)

  predicate Holds(ms: Modules, f: Fact) {
    && f.mod in ms
    && match f
       case HasClass(mod, cls) => cls in ms[mod].classes
       case HasMember(mod, cls, m) => cls in ms[mod].classes && m in ms[mod].classes[cls]
       case HasFunction(mod, name) => name in ms[mod].functions
  }

  /** No list repeats an entry, and no module is empty. */
  predicate Proper(ms: Modules) {
    forall mod :: mod in ms ==>
      && (ms[mod].classes.Keys != {} || ms[mod].functions != [])
      && NoRepeats(ms[mod].functions)
      && forall cls :: cls in ms[mod].classes ==> NoRepeats(ms[mod].classes[cls])
  }

  /** Every list is in ascending order, and no module is empty. */
  predicate Normal(ms: Modules) {
    forall mod :: mod in ms ==>
      && (ms[mod].classes.Keys != {} || ms[mod].functions != [])
      && Ascending(ms[mod].functions)
      && forall cls :: cls in ms[mod].classes ==> Ascending(ms[mod].classes[cls])
  }

  function Get(ms: Modules, mod: string): Module {
    if mod in ms then ms[mod] else Module(map[], [])
  }

  function GetList(m: Module, cls: string): seq<string> {
    if cls in m.classes then m.classes[cls] else []
  }

  class Surface {
    var modules: Modules

    constructor ()
      ensures modules == map[]
    {
      modules := map[];
    }

    method AddMethod(mod: string, cls: string, member: string)
      requires Proper(modules)
      modifies this
      ensures Proper(modules)
      ensures forall f :: Holds(modules, f)
                     <==> Holds(old(modules), f) || f == HasClass(mod, cls) || f == HasMember(mod, cls, member)
    {
      var inv := Get(modules, mod);
      var list := GetList(inv, cls);
      var found := false;
      for i := 0 to |list|
        invariant found <==> member in list[..i]
      {
        if list[i] == member {
          found := true;
        }
      }
      assert list[..|list|] == list;
      var more := if found then list else list + [member];
      AddedMember(modules, mod, cls, member);
      modules := modules[mod := inv.(classes := inv.classes[cls := more])];
    }

    method AddClass(mod: string, cls: string)
      requires Proper(modules)
      modifies this
      ensures Proper(modules)
      ensures forall f :: Holds(modules, f) <==> Holds(old(modules), f) || f == HasClass(mod, cls)
    {
      var inv := Get(modules, mod);
      if cls !in inv.classes {
        modules := modules[mod := inv.(classes := inv.classes[cls := []])];
      }
    }

    method AddFunction(mod: string, name: string)
      requires Proper(modules)
      modifies this
      ensures Proper(modules)
      ensures forall f :: Holds(modules, f) <==> Holds(old(modules), f) || f == HasFunction(mod, name)
    {
      var inv := Get(modules, mod);
      var list := inv.functions;
      var found := false;
      for i := 0 to |list|
        invariant found <==> name in list[..i]
      {
        if list[i] == name {
          found := true;
        }
      }
      assert list[..|list|] == list;
      AddedFunction(modules, mod, name);
      modules := modules[mod := inv.(functions := if found then list else list + [name])];
    }

    /** The final sorting, module by module and class by class, in any order. */
    method Normalise()
      requires Proper(modules)
      modifies this
      ensures Normal(modules)
      ensures forall f :: Holds(modules, f) <==> Holds(old(modules), f)
    {
      var before := modules;
      var todo := modules.Keys;
      while todo != {}
        invariant todo <= before.Keys && modules.Keys == before.Keys
        invariant forall mod :: mod in before ==>
                    modules[mod] == if mod in todo then before[mod] else SortModule(before[mod])
      {
        var mod :| mod in todo;
        var inv := modules[mod];
        var classes := inv.classes;
        var left := classes.Keys;
        while left != {}
          invariant left <= inv.classes.Keys && classes.Keys == inv.classes.Keys
          invariant forall cls :: cls in classes ==>
                      classes[cls] == if cls in left then inv.classes[cls] else Sort(inv.classes[cls])
        {
          var cls :| cls in left;
          classes := classes[cls := Sort(inv.classes[cls])];
          left := left - {cls};
        }
        assert classes == SortModule(inv).classes;
        modules := modules[mod := Module(classes, Sort(inv.functions))];
        todo := todo - {mod};
      }
      Sorted(before, modules);
    }
  }

  function SortModule(m: Module): Module {
    Module(map cls | cls in m.classes :: Sort(m.classes[cls]), Sort(m.functions))
  }

  lemma Appended(list: seq<string>, x: string)
    requires NoRepeats(list)
    ensures var more := if x in list then list else list + [x];
            NoRepeats(more) && more != [] && forall y :: y in more <==> y in list || y == x
  {
  }

  lemma AddedMember(ms: Modules, mod: string, cls: string, member: string)
    requires Proper(ms)
    ensures var inv := Get(ms, mod);
            var list := GetList(inv, cls);
            var more := if member in list then list else list + [member];
            var after := ms[mod := inv.(classes := inv.classes[cls := more])];
            && Proper(after)
            && forall f :: Holds(after, f)
                      <==> Holds(ms, f) || f == HasClass(mod, cls) || f == HasMember(mod, cls, member)
  {
    var inv := Get(ms, mod);
    var list := GetList(inv, cls);
    assert NoRepeats(list) && NoRepeats(inv.functions);
    Appended(list, member);
    hide NoRepeats;
    var more := if member in list then list else list + [member];
    var after := ms[mod := inv.(classes := inv.classes[cls := more])];
    assert cls in after[mod].classes.Keys;
    forall f ensures Holds(after, f) <==> Holds(ms, f) || f == HasClass(mod, cls) || f == HasMember(mod, cls, member) {
      assert f.mod != mod ==> (f.mod in after <==> f.mod in ms) && (f.mod in ms ==> after[f.mod] == ms[f.mod]);
    }
  }

  lemma AddedFunction(ms: Modules, mod: string, name: string)
    requires Proper(ms)
    ensures var inv := Get(ms, mod);
            var list := inv.functions;
            var after := ms[mod := inv.(functions := if name in list then list else list + [name])];
            && Proper(after)
            && forall f :: Holds(after, f) <==> Holds(ms, f) || f == HasFunction(mod, name)
  {
    var inv := Get(ms, mod);
    var list := inv.functions;
    assert NoRepeats(list);
    Appended(list, name);
    hide NoRepeats;
    var after := ms[mod := inv.(functions := if name in list then list else list + [name])];
    forall f ensures Holds(after, f) <==> Holds(ms, f) || f == HasFunction(mod, name) {
      assert f.mod != mod ==> (f.mod in after <==> f.mod in ms) && (f.mod in ms ==> after[f.mod] == ms[f.mod]);
    }
  }

  lemma Sorted(before: Modules, after: Modules)
    requires Proper(before) && after.Keys == before.Keys
    requires forall mod :: mod in before ==> after[mod] == SortModule(before[mod])
    ensures Normal(after) && forall f :: Holds(after, f) <==> Holds(before, f)
  {
    hide Sort, Ascending, NoRepeats;
    forall mod | mod in before
      ensures Ascending(after[mod].functions) && forall y :: y in after[mod].functions <==> y in before[mod].functions
      ensures after[mod].functions == [] ==> before[mod].functions == []
    {
      SortAscends(before[mod].functions);
      assert before[mod].functions != [] ==> before[mod].functions[0] in after[mod].functions;
    }
    forall mod, cls | mod in before && cls in before[mod].classes
      ensures Ascending(after[mod].classes[cls])
      ensures forall y :: y in after[mod].classes[cls] <==> y in before[mod].classes[cls]
    {
      SortAscends(before[mod].classes[cls]);
    }
    assert forall mod :: mod in before ==> after[mod].classes.Keys == before[mod].classes.Keys;
  }

  /** A normal inventory is determined by the facts it holds. */
  lemma Determined(a: Modules, b: Modules)
    requires Normal(a) && Normal(b) && forall f :: Holds(a, f) <==> Holds(b, f)
    ensures a == b
  {
    hide Ascending;
    ModuleSubset(a, b);
    ModuleSubset(b, a);
    forall mod | mod in a ensures a[mod] == b[mod] {
      forall y ensures y in a[mod].functions <==> y in b[mod].functions {
        assert Holds(a, HasFunction(mod, y)) <==> Holds(b, HasFunction(mod, y));
      }
      AscendingUnique(a[mod].functions, b[mod].functions);
      forall cls ensures cls in a[mod].classes <==> cls in b[mod].classes {
        assert Holds(a, HasClass(mod, cls)) <==> Holds(b, HasClass(mod, cls));
      }
      forall cls | cls in a[mod].classes ensures a[mod].classes[cls] == b[mod].classes[cls] {
        forall y ensures y in a[mod].classes[cls] <==> y in b[mod].classes[cls] {
          assert Holds(a, HasMember(mod, cls, y)) <==> Holds(b, HasMember(mod, cls, y));
        }
        AscendingUnique(a[mod].classes[cls], b[mod].classes[cls]);
      }
      assert a[mod].classes == b[mod].classes;
    }
  }

  lemma ModuleSubset(a: Modules, b: Modules)
    requires Normal(a) && forall f :: Holds(a, f) ==> Holds(b, f)
    ensures forall mod :: mod in a ==> mod in b
  {
    hide Ascending;
    forall mod | mod in a ensures mod in b {
      if a[mod].classes.Keys != {} {
        var cls :| cls in a[mod].classes.Keys;
        assert Holds(a, HasClass(mod, cls));
      } else {
        assert Holds(a, HasFunction(mod, a[mod].functions[0]));
      }
    }
  }
}
