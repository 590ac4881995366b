/** What the translator makes of plain and qualified names, told from the tables and the first character alone. */
module TypeNames {
  import opened Text
  import opened GoTypes
  import opened Translator
  import opened Compiler
  import opened TypeRoundTrip

  /** Letters, digits and underscores. */
  predicate IsWord(s: string) {
    s != "" && forall i :: 0 <= i < |s| ==>
      'a' <= s[i] <= 'z' || 'A' <= s[i] <= 'Z' || '0' <= s[i] <= '9' || s[i] == '_'
  }

  /** The class of a generated wire type, under its canonical leaf if it has one. */
  function WireType(name: string, tables: Tables): string
    requires name in tables.genModules
  {
    "class:" + tables.genModules[name] + "." + if name in tables.genLeaves then tables.genLeaves[name] else name
  }

  /**
   * An alias comes before everything but a closed set and any. A lower-case name can only be a generated type; of a
   * capitalised one the SDK class comes before the generated type, and without either it is taken for a class.
   */
  lemma PlainName(name: string, tables: Tables)
    requires IsWord(name) && name != "map" && name !in tables.closedSets
    ensures TranslateType(name, tables) ==
            if name == "any" then Ok("any")
            else if name in tables.aliases then Ok(tables.aliases[name])
            else if 'A' <= name[0] <= 'Z' then
              Ok(if name in tables.classesByName then "class:" + tables.classesByName[name]
                 else if name in tables.genModules then WireType(name, tables)
                 else "class:" + name)
            else if name in tables.genModules then Ok(WireType(name, tables))
            else Err("unknown type: " + name)
  {
    hide TranslateType;
    assert IsType(Ident(name)) by { WordIsName(name); }
    RefinesIdent(name, tables);
    assert Print(Ident(name)) == name;
  }

  lemma WordIsName(s: string)
    requires IsWord(s)
    ensures IsName(s)
  {
  }

  /**
   * Of a qualified name the whole spelling is looked up first: as an alias, or as a generated type if it is not
   * capitalised; then its last part as an alias; then the whole as an SDK class. A capitalised last part makes it a
   * class of that spelling.
   */
  lemma QualifiedName(pkg: string, sel: string, tables: Tables)
    requires IsWord(pkg) && pkg != "map" && IsWord(sel) && pkg + "." + sel !in tables.closedSets
    ensures var t := pkg + "." + sel;
            TranslateType(t, tables) ==
            if pkg == "http" && sel == "Header" then Ok("optional<dict<string,string>>")
            else if pkg == "context" && sel == "Context" then Ok("optional<float>")
            else if t in tables.aliases then Ok(tables.aliases[t])
            else if t in tables.genModules && !('A' <= pkg[0] <= 'Z') then Ok(WireType(t, tables))
            else if sel in tables.aliases then Ok(tables.aliases[sel])
            else if t in tables.classes then Ok("class:" + tables.classes[t])
            else if 'A' <= sel[0] <= 'Z' then Ok("class:" + t)
            else if 'A' <= pkg[0] <= 'Z' then
              Ok(if t in tables.classesByName then "class:" + tables.classesByName[t]
                 else if t in tables.genModules then WireType(t, tables)
                 else "class:" + t)
            else Err("unknown type: " + t)
  {
    hide TranslateType, CompileSelector;
    WordIsName(pkg);
    WordIsName(sel);
    QualifiedCompiles(pkg, sel, tables);
    hide Compile;
    var t := pkg + "." + sel;
    assert t[0] == pkg[0];
    if pkg == "http" && sel == "Header" {
      HeaderText(tables);
    } else if pkg == "context" && sel == "Context" {
      ContextText(tables);
    } else {
      QualifiedLookup(pkg, sel, tables);
    }
  }

  lemma HeaderText(tables: Tables)
    ensures Rendered(CompileSelector("http", "Header", tables)) == Ok("optional<dict<string,string>>")
  {
    var d := DictOf(Ref("string"), Ref("string"));
    assert CompileSelector("http", "Header", tables) == Ok(Optional(d));
    assert Render(d.key) == "string";
    assert Render(d) == "dict<" + "string" + "," + "string" + ">" == "dict<string,string>";
    assert Render(Optional(d)) == "optional<" + Render(d) + ">" == "optional<dict<string,string>>";
  }

  lemma ContextText(tables: Tables)
    ensures Rendered(CompileSelector("context", "Context", tables)) == Ok("optional<float>")
  {
    var f := Ref("float");
    assert CompileSelector("context", "Context", tables) == Ok(Optional(f));
    assert Render(f) == "float" && Render(Optional(f)) == "optional<" + Render(f) + ">" == "optional<float>";
  }

  lemma QualifiedLookup(pkg: string, sel: string, tables: Tables)
    requires pkg != "" && sel != "" && !(pkg == "http" && sel == "Header") && !(pkg == "context" && sel == "Context")
    ensures var t := pkg + "." + sel;
            && t[0] == pkg[0]
            && Rendered(CompileSelector(pkg, sel, tables)) ==
               if t in tables.aliases then Ok(tables.aliases[t])
               else if t in tables.genModules && !('A' <= t[0] <= 'Z') then Ok(WireType(t, tables))
               else if sel in tables.aliases then Ok(tables.aliases[sel])
               else if t in tables.classes then Ok("class:" + tables.classes[t])
               else if 'A' <= sel[0] <= 'Z' then Ok("class:" + t)
               else if 'A' <= t[0] <= 'Z' then
                 Ok(if t in tables.classesByName then "class:" + tables.classesByName[t]
                    else if t in tables.genModules then WireType(t, tables)
                    else "class:" + t)
               else Err("unknown type: " + t)
  {
  }

  lemma QualifiedCompiles(pkg: string, sel: string, tables: Tables)
    requires IsName(pkg) && pkg != "map" && IsName(sel) && pkg + "." + sel !in tables.closedSets
    ensures TranslateType(pkg + "." + sel, tables) == Rendered(CompileSelector(pkg, sel, tables))
  {
    hide CompileSelector, TranslateType;
    var e := Selector(Ident(pkg), sel);
    assert IsTypeName(Ident(pkg)) && IsType(e);
    assert Print(e) == pkg + "." + sel && Print(Ident(pkg)) == pkg;
    RefinesSelector(pkg, sel, tables);
  }

  // ---- texts that the printer never writes ----

  lemma {:induction false} NeverCloses(k: Scan, s: string, depth: nat)
    requires forall i :: 0 <= i < |s| ==> !Closes(k, s[i])
    ensures ClosingAt(k, s, depth).None?
  {
    if s != "" {
      NeverCloses(k, s[1..], if Opens(k, s[0]) then depth + 1 else depth);
    }
  }

  /** A map or function type whose bracket is never closed fails with its text. */
  lemma Unclosed(s: string, tables: Tables)
    requires s != "" && !IsSpace(s[|s| - 1])
    ensures ']' !in s && "map[" + s !in tables.closedSets ==>
              TranslateType("map[" + s, tables) == Err("malformed map type: " + ("map[" + s))
    ensures ')' !in s && "func(" + s !in tables.closedSets ==>
              TranslateType("func(" + s, tables) == Err("unbalanced func args: " + ("func(" + s))
  {
    hide TranslateType, ClosingAt;
    var t, u := "map[" + s, "func(" + s;
    assert t[4..] == s && u[5..] == s && t[|t| - 1] == s[|s| - 1] && u[|u| - 1] == s[|s| - 1];
    if ']' !in s && t !in tables.closedSets {
      NeverCloses(Square, s, 0);
      DispatchMap(t, tables);
    }
    if ')' !in s && u !in tables.closedSets {
      NeverCloses(Round, s, 0);
      DispatchFunc(u, tables);
    }
  }

  /** A dot in front makes no qualified name. */
  lemma LeadingDot(sel: string, tables: Tables)
    requires IsWord(sel)
    requires var t := "." + sel; t !in tables.closedSets && t !in tables.aliases && t !in tables.genModules
    ensures TranslateType("." + sel, tables) == Err("unknown type: " + ("." + sel))
  {
    hide TranslateType, LastIndexOf, IndexOf;
    var t := "." + sel;
    DotUnclaimed(sel);
    hide Unclaimed, Trimmed, IsWord;
    StepNamed(t, tables);
    assert "" + ['.'] + sel == t;
    LastIndexOfBefore("", '.', sel);
  }

  lemma DotUnclaimed(sel: string)
    requires IsWord(sel)
    ensures var t := "." + sel;
            && Unclaimed(t) && Trimmed(t) && t != "any" && t[0] == '.'
            && t != "http.Header" && t != "net/http.Header" && t != "context.Context"
    ensures '.' !in sel && '[' !in "." + sel
  {
    var t := "." + sel;
    assert t[0] == '.' && t[1] == sel[0] && t[|t| - 1] == sel[|sel| - 1];
    assert !IsSpace(sel[|sel| - 1]);
    assert forall i :: 0 < i < |t| ==> t[i] == sel[i - 1];
  }
}
