/** Scanning the printed text of a Go type gives exactly the meaning of its syntax tree. */
module TypeRoundTrip {
  import opened Text
  import opened GoTypes
  import opened Translator
  import opened Compiler
  import opened Brackets

  ghost predicate Trimmed(s: string) {
    s != "" && !IsSpace(s[0]) && !IsSpace(s[|s| - 1])
  }

  /** Characters of a type name: identifier characters, with at most the selector's dot. */
  lemma TypeNameChars(e: Expr)
    requires IsTypeName(e)
    ensures Print(e) != "" && IsNameChar(Print(e)[0]) && Print(e) != "map"
    ensures Trimmed(Print(e))
    ensures forall i :: 0 <= i < |Print(e)| ==> IsNameChar(Print(e)[i]) || Print(e)[i] == '.'
  {
    if e.Selector? {
      assert IsTypeName(e.pkg);
      assert Print(e)[|e.pkg.name|] == '.';
    }
  }

  lemma TrimmedAround(a: string, b: string)
    requires a != "" && b != "" && !IsSpace(a[0]) && !IsSpace(b[|b| - 1])
    ensures Trimmed(a + b)
  {
  }

  lemma TrimmedBehind(a: string, b: string)
    requires a != "" && !IsSpace(a[0]) && Trimmed(b)
    ensures Trimmed(a + b)
  {
  }

  lemma TrimmedName(x: Expr, tail: string)
    requires IsTypeName(x)
    ensures Trimmed(Print(x)) && Trimmed(Print(x) + tail + "]")
  {
    TypeNameChars(x);
    TrimmedAround(Print(x) + tail, "]");
  }

  /** A printed type has no blanks for TrimSpace to remove. */
  lemma {:induction false} PrintTrimmed(e: Expr)
    requires IsType(e)
    ensures Trimmed(Print(e))
    decreases e
  {
    hide Trimmed, IsTypeName, IsNameChar, PrintFields, PrintAll, Join;
    match e {
      case Ident(_) => TrimmedName(e, "");
      case Selector(_, _) => TrimmedName(e, "");
      case Star(x) => PrintTrimmed(x); TrimmedBehind("*", Print(x));
      case Slice(elt) => PrintTrimmed(elt); TrimmedBehind("[]", Print(elt));
      case Array(len, elt) => PrintTrimmed(elt); TrimmedBehind("[" + Print(len) + "]", Print(elt));
      case Map(key, val) => PrintTrimmed(val); TrimmedBehind("map[" + Print(key) + "]", Print(val));
      case Interface(_) =>
        TrimmedAround("interface{", "}");
        TrimmedAround("interface{...", "}");
        assert "interface{" + "}" == "interface{}" && "interface{..." + "}" == "interface{...}";
      case Func(params, results) =>
        TrimmedAround("func(" + Join(PrintFields(params), ",") + ") (" + Join(PrintFields(results), ","), ")");
      case Chan(x) => PrintTrimmed(x); TrimmedBehind("chan ", Print(x));
      case Ellipsis(elt) => PrintTrimmed(elt); TrimmedBehind("...", Print(elt));
      case Index(x, arg) => TrimmedName(x, "[" + Print(arg)); Assoc(Print(x), "[", Print(arg));
      case IndexList(x, args) =>
        TrimmedName(x, "[" + Join(PrintAll(args), ","));
        Assoc(Print(x), "[", Join(PrintAll(args), ","));
      case Other(kind) => TrimmedAround("<unhandled:" + kind, ">");
    }
  }

  /** The text is taken by none of the scanner's syntactic cases. */
  ghost predicate Unclaimed(t: string) {
    && !("*" <= t) && !("..." <= t) && !("[]" <= t) && !("chan " <= t) && !("map[" <= t)
    && !("interface{" <= t) && !("tuple(" <= t) && !("func(" <= t)
  }

  /** A type name, alone or with type arguments, is left for the tables. */
  lemma NamesUnclaimed(head: string, tail: string)
    requires head != "" && IsNameChar(head[0]) && head != "map"
    requires forall i :: 0 <= i < |head| ==> IsNameChar(head[i]) || head[i] == '.'
    requires tail == "" || tail[0] == '['
    ensures Unclaimed(head + tail)
  {
    var t := head + tail;
    assert t[0] == head[0];
    NotAPrefix("chan ", head, tail);
    NotAPrefix("interface{", head, tail);
    NotAPrefix("tuple(", head, tail);
    NotAPrefix("func(", head, tail);
    assert tail != "" ==> t[|head|] == '[';
    assert |head| > 3 ==> t[3] == head[3];
    assert |head| == 3 ==> t[..3] == head;
  }

  lemma NotAPrefix(p: string, head: string, tail: string)
    requires p != "" && !IsNameChar(p[|p| - 1]) && p[|p| - 1] != '.'
    requires forall i :: 0 <= i < |p| ==> p[i] != '['
    requires forall i :: 0 <= i < |head| ==> IsNameChar(head[i]) || head[i] == '.'
    requires tail == "" || tail[0] == '['
    ensures !(p <= head + tail)
  {
    var t := head + tail;
    assert tail != "" ==> t[|head|] == '[';
    assert |p| <= |head| ==> t[|p| - 1] == head[|p| - 1];
  }

  /** A text made of identifier characters alone is printed by an identifier only. */
  lemma OnlyIdent(e: Expr, name: string)
    requires IsType(e) && IsName(name)
    ensures Print(e) == name ==> e == Ident(name)
  {
    match e
    case Ident(_) =>
    case Selector(pkg, _) => assert Print(e)[|Print(pkg)|] == '.';
    case Interface(_) => assert Print(e)[9] == '{';
    case Func(_, _) => assert Print(e)[4] == '(';
    case Map(_, _) => assert Print(e)[3] == '[';
    case Chan(_) => assert Print(e)[4] == ' ';
    case Index(x, _) => assert Print(e)[|Print(x)|] == '[';
    case IndexList(x, _) => assert Print(e)[|Print(x)|] == '[';
    case Star(_) => assert Print(e)[0] == '*';
    case Slice(_) => assert Print(e)[0] == '[';
    case Array(_, _) => assert Print(e)[0] == '[';
    case Ellipsis(_) => assert Print(e)[0] == '.';
    case Other(_) => assert Print(e)[0] == '<';
  }

  /** translateType over a list of texts. */
  function TranslateEach(parts: seq<string>, tables: Tables): Result<seq<string>> {
    if parts == [] then Ok([])
    else
      var first :- TranslateType(parts[0], tables);
      var rest :- TranslateEach(parts[1..], tables);
      Ok([first] + rest)
  }

  ghost predicate AllTrimmed(parts: seq<string>) {
    forall i :: 0 <= i < |parts| ==> Trimmed(parts[i])
  }

  ghost predicate AllQuietParts(k: Scan, parts: seq<string>) {
    forall i :: 0 <= i < |parts| ==> Quiet(k, parts[i])
  }

  lemma {:induction false} PartsEach(parts: seq<string>, bound: nat, tables: Tables)
    requires forall p :: p in parts ==> |p| <= bound
    requires AllTrimmed(parts)
    ensures TranslateParts(parts, bound, tables) == TranslateEach(parts, tables)
  {
    if parts != [] {
      TrimKeeps(parts[0]);
      PartsEach(parts[1..], bound, tables);
    }
  }

  // What one step of the scanner does with each syntactic form.

  ghost predicate Plain(t: string, tables: Tables) {
    Trimmed(t) && t !in tables.closedSets
  }

  lemma StepStar(s: string, tables: Tables)
    requires Plain("*" + s, tables)
    ensures TranslateType("*" + s, tables) ==
            match TranslateType(s, tables)
            case Ok(inner) => Ok(if "class:" <= inner then inner else "optional<" + inner + ">")
            case Err(reason) => Err(reason)
  {
    TrimKeeps("*" + s);
    assert ("*" + s)[1..] == s;
  }

  lemma StepEllipsis(s: string, tables: Tables)
    requires Plain("..." + s, tables)
    ensures TranslateType("..." + s, tables) ==
            match TranslateType(s, tables)
            case Ok(inner) => Ok("list<" + inner + ">")
            case Err(reason) => Err(reason)
  {
    var t := "..." + s;
    TrimKeeps(t);
    assert t[0] == '.' && t[3..] == s;
  }

  lemma StepSlice(s: string, tables: Tables)
    requires Plain("[]" + s, tables)
    ensures TranslateType("[]" + s, tables) ==
            if s == "byte" then Ok("bytes")
            else match TranslateType(s, tables)
                 case Ok(inner) => Ok("list<" + inner + ">")
                 case Err(reason) => Err(reason)
  {
    var t := "[]" + s;
    TrimKeeps(t);
    assert t[0] == '[' && t[2..] == s;
    assert "[]byte"[2..] == "byte";
  }

  lemma StepChan(s: string, tables: Tables)
    requires Plain("chan " + s, tables)
    ensures TranslateType("chan " + s, tables) == Err("chan types have no canonical equivalent: " + ("chan " + s))
  {
    var t := "chan " + s;
    TrimKeeps(t);
    assert t[0] == 'c' && t[1] == 'h';
  }

  lemma DispatchMap(t: string, tables: Tables)
    requires "map[" <= t && Plain(t, tables)
    ensures TranslateType(t, tables) == TranslateMap(t, tables)
  {
    hide TranslateTuple, TranslateFunc, TranslateMap, SelectorOrBare, Trim;
    TrimKeeps(t);
    assert t[0] == 'm' && t[1] == 'a';
  }

  lemma StepMap(k: string, v: string, tables: Tables)
    requires Plain("map[" + k + "]" + v, tables) && Quiet(Square, k)
    ensures TranslateType("map[" + k + "]" + v, tables) ==
            match TranslateType(k, tables)
            case Err(reason) => Err(reason)
            case Ok(key) =>
              match TranslateType(v, tables)
              case Ok(val) => Ok("dict<" + key + "," + val + ">")
              case Err(reason) => Err(reason)
  {
    var t := "map[" + k + "]" + v;
    hide TranslateType;
    DispatchMap(t, tables);
    assert t[4..] == k + [']'] + v;
    ClosingFound(Square, k, ']', v);
    assert t[4..|k| + 4] == k && t[|k| + 5..] == v;
  }

  /** The result list of a printed func type, stripped of its blank and parentheses. */
  lemma ResultPiece(res: string)
    ensures TrimSuffix(TrimPrefix(Trim(" (" + res + ")"), "("), ")") == res
  {
    var tail, group := " (" + res + ")", "(" + res + ")";
    assert tail[1..] == group && !IsSpace('(') && !IsSpace(')');
    assert TrimLeft(tail) == group by {
      assert TrimLeft(group) == group;
    }
    TrimKeeps(group);
    assert TrimPrefix(group, "(") == res + ")";
    assert (res + ")")[..|res|] == res && (res + ")")[|res|..] == ")";
  }

  /** The pieces translateFunc cuts a printed func type into. */
  lemma FuncPieces(t: string, args: string, res: string)
    requires t == "func(" + args + ") (" + res + ")" && QuietInside(Round, args)
    ensures "func(" <= t
    ensures var rest := t[5..];
            && ClosingAt(Round, rest, 0) == Some(|args|)
            && rest[..|args|] == args
            && TrimSuffix(TrimPrefix(Trim(rest[|args| + 1..]), "("), ")") == res
  {
    hide ClosingAt, Trim, TrimPrefix, TrimSuffix;
    var tail, rest := " (" + res + ")", t[5..];
    assert rest == args + [')'] + tail;
    assert Walk(Round, args, 0) == Some(0);
    ClosingFound(Round, args, ')', tail);
    assert rest[|args| + 1..] == tail;
    ResultPiece(res);
  }

  lemma JoinNonEmpty(parts: seq<string>)
    requires AllTrimmed(parts)
    ensures Join(parts, ",") == "" <==> parts == []
  {
  }

  lemma DispatchFunc(t: string, tables: Tables)
    requires "func(" <= t && Plain(t, tables)
    ensures TranslateType(t, tables) == TranslateFunc(t, tables)
  {
    hide TranslateTuple, TranslateFunc, TranslateMap, SelectorOrBare, Trim;
    TrimKeeps(t);
    assert t[0] == 'f' && t[1] == 'u';
  }

  function CallableOf(ps: seq<string>, rs: seq<string>, tables: Tables): Result<string> {
    var args :- TranslateEach(ps, tables);
    var ret :- if rs == [] then Ok("void") else TranslateType(rs[0], tables);
    Ok("callable<list<" + Join(args, ",") + ">," + ret + ">")
  }

  lemma CallableOfSplit(args: string, res: string, bound: nat, tables: Tables)
    requires |args| <= bound && |res| <= bound
    requires AllTrimmed(SplitTopLevel(args)) && AllTrimmed(SplitTopLevel(res))
    requires (args == "" <==> SplitTopLevel(args) == []) && (res == "" <==> SplitTopLevel(res) == [])
    ensures TranslateCallable(args, res, bound, tables)
            == CallableOf(SplitTopLevel(args), SplitTopLevel(res), tables)
  {
    hide TranslateType, SplitFrom;
    PartsEach(SplitTopLevel(args), bound, tables);
    if res != "" {
      TrimKeeps(SplitTopLevel(res)[0]);
    }
  }

  lemma SplitsBack(ps: seq<string>)
    requires AllTrimmed(ps) && AllQuietParts(Commas, ps)
    ensures SplitTopLevel(Join(ps, ",")) == ps
  {
    hide SplitTopLevel, Join, Quiet;
    SplitUndoesJoin(ps);
  }

  lemma QuietArguments(ps: seq<string>)
    requires AllQuietParts(Round, ps)
    ensures QuietInside(Round, Join(ps, ","))
  {
    hide QuietInside, Join, Quiet;
    JoinQuietInside(Round, ps);
  }

  lemma StepFunc(t: string, ps: seq<string>, rs: seq<string>, tables: Tables)
    requires AllTrimmed(ps) && AllQuietParts(Round, ps) && AllQuietParts(Commas, ps)
    requires AllTrimmed(rs) && AllQuietParts(Commas, rs)
    requires t == "func(" + Join(ps, ",") + ") (" + Join(rs, ",") + ")" && Plain(t, tables)
    ensures TranslateType(t, tables) == CallableOf(ps, rs, tables)
  {
    hide *;
    var args, res := Join(ps, ","), Join(rs, ",");
    QuietArguments(ps);
    FuncPieces(t, args, res);
    FuncLengths(t, args, res);
    DispatchFunc(t, tables);
    FuncOfPieces(t, ps, rs, tables);
  }

  lemma FuncLengths(t: string, args: string, res: string)
    requires t == "func(" + args + ") (" + res + ")"
    ensures |args| <= |t| - 1 && |res| <= |t| - 1
  {
  }

  /** Once the argument text and the result text are cut out, both split back into the printed types. */
  lemma FuncOfPieces(t: string, ps: seq<string>, rs: seq<string>, tables: Tables)
    requires AllTrimmed(ps) && AllQuietParts(Commas, ps) && AllTrimmed(rs) && AllQuietParts(Commas, rs)
    requires var args, res := Join(ps, ","), Join(rs, ",");
             && "func(" <= t && |args| <= |t| - 1 && |res| <= |t| - 1
             && var rest := t[5..];
             && ClosingAt(Round, rest, 0) == Some(|args|)
             && rest[..|args|] == args
             && TrimSuffix(TrimPrefix(Trim(rest[|args| + 1..]), "("), ")") == res
    ensures TranslateFunc(t, tables) == CallableOf(ps, rs, tables)
  {
    var args, res := Join(ps, ","), Join(rs, ",");
    hide TranslateCallable, CallableOf, ClosingAt, TrimSuffix, TrimPrefix, Trim, Join, AllTrimmed, AllQuietParts,
        SplitTopLevel;
    assert TranslateFunc(t, tables) == TranslateCallable(args, res, |t| - 1, tables);
    hide TranslateFunc;
    SplitsBack(ps);
    SplitsBack(rs);
    JoinNonEmpty(ps);
    JoinNonEmpty(rs);
    CallableOfSplit(args, res, |t| - 1, tables);
  }

  lemma DispatchTuple(t: string, tables: Tables)
    requires "tuple(" <= t && HasSuffix(t, ")") && Plain(t, tables)
    ensures TranslateType(t, tables) == TranslateTuple(t, tables)
  {
    hide TranslateTuple, TranslateFunc, TranslateMap, SelectorOrBare, Trim;
    TrimKeeps(t);
    assert t[0] == 't' && t[1] == 'u';
  }

  lemma StepTuple(t: string, parts: seq<string>, tables: Tables)
    requires AllTrimmed(parts) && AllQuietParts(Commas, parts)
    requires t == "tuple(" + Join(parts, ",") + ")" && Plain(t, tables)
    ensures TranslateType(t, tables) ==
            match TranslateEach(parts, tables)
            case Ok(cs) => Ok("tuple<" + Join(cs, ",") + ">")
            case Err(reason) => Err(reason)
  {
    hide TranslateType, SplitFrom;
    var inner := Join(parts, ",");
    assert t[6..|t| - 1] == inner && t[|t| - 1..] == ")";
    DispatchTuple(t, tables);
    SplitUndoesJoin(parts);
    PartsEach(parts, |t| - 1, tables);
  }

  /** The spellings the scanner answers before looking at syntax. */
  lemma StepWord(t: string, tables: Tables)
    requires Trimmed(t)
    ensures t in tables.closedSets ==> TranslateType(t, tables) == Ok(tables.closedSets[t])
    ensures t !in tables.closedSets ==>
              && (t == "http.Header" ==> TranslateType(t, tables) == Ok(HEADER))
              && (t == "context.Context" ==> TranslateType(t, tables) == Ok("optional<float>"))
              && (t == "any" ==> TranslateType(t, tables) == Ok("any"))
              && ("interface{" <= t ==> TranslateType(t, tables) == Ok("any"))
  {
    TrimKeeps(t);
    if "interface{" <= t {
      assert t[0] == 'i' && t[9] == '{';
    }
  }

  /** Where the scanner goes with a text that no syntactic case claims. */
  lemma StepNamed(t: string, tables: Tables)
    requires Unclaimed(t) && Plain(t, tables)
    requires t != "http.Header" && t != "net/http.Header" && t != "context.Context" && t != "any"
    ensures TranslateType(t, tables) ==
            match Spelled(t, tables)
            case Some(c) => Ok(Render(c))
            case None =>
              var b := IndexOf(t, '[');
              if b.Some? && b.value > 0 && HasSuffix(t, "]") then TranslateType(t[..b.value], tables)
              else SelectorOrBare(t, tables)
  {
    TrimKeeps(t);
    assert "interface{}"[..10] == "interface{";
  }

  lemma InstanceText(t: string, head: string, inside: string)
    requires t == head + "[" + inside + "]" && head != "" && '[' !in head
    ensures IndexOf(t, '[') == Some(|head|) && t[..|head|] == head && HasSuffix(t, "]")
    ensures t != "http.Header" && t != "net/http.Header" && t != "context.Context" && t != "any"
  {
    assert t == head + ['['] + (inside + "]");
    IndexOfAfter(head, '[', inside + "]");
    assert t[|t| - 1..] == "]";
    assert t[|head|] == '[';
  }

  lemma InstanceUnclaimed(x: Expr, t: string, tail: string)
    requires IsTypeName(x) && t == Print(x) + tail && tail != "" && tail[0] == '['
    ensures Unclaimed(t) && Print(x) != "" && '[' !in Print(x)
  {
    TypeNameChars(x);
    NamesUnclaimed(Print(x), tail);
  }

  /** Type arguments are dropped. */
  lemma StepInstance(t: string, x: Expr, inside: string, tables: Tables)
    requires IsTypeName(x) && t == Print(x) + "[" + inside + "]" && Plain(t, tables)
    ensures TranslateType(t, tables) ==
            match Spelled(t, tables)
            case Some(c) => Ok(Render(c))
            case None => TranslateType(Print(x), tables)
  {
    hide TranslateType, Spelled, SelectorOrBare, Unclaimed, Plain, IsTypeName, Print;
    var tail := "[" + inside + "]";
    assert t == Print(x) + tail;
    InstanceUnclaimed(x, t, tail);
    InstanceText(t, Print(x), inside);
    StepNamed(t, tables);
  }

  lemma RefinesIdent(name: string, tables: Tables)
    requires IsType(Ident(name))
    ensures TranslateType(name, tables) == Rendered(Compile(Ident(name), tables))
  {
    hide TranslateType;
    TypeNameChars(Ident(name));
    StepWord(name, tables);
    if name !in tables.closedSets && name != "any" {
      NamesUnclaimed(name, "");
      assert name + "" == name && '.' !in name && '[' !in name;
      assert name != "http.Header" && name != "net/http.Header" && name != "context.Context" by {
        assert "http.Header"[4] == '.' && "net/http.Header"[8] == '.' && "context.Context"[7] == '.';
      }
      StepNamed(name, tables);
    }
  }

  lemma SelectorLookup(pkg: string, sel: string, tables: Tables)
    requires IsName(pkg) && IsName(sel)
    ensures SelectorOrBare(pkg + "." + sel, tables) ==
            if sel in tables.aliases then Ok(tables.aliases[sel])
            else if pkg + "." + sel in tables.classes then Ok("class:" + tables.classes[pkg + "." + sel])
            else if StartsUpper(sel) then Ok("class:" + (pkg + "." + sel))
            else Bare(pkg + "." + sel, tables)
  {
    var t := pkg + "." + sel;
    assert '.' !in sel;
    LastIndexOfBefore(pkg, '.', sel);
    assert t == pkg + ['.'] + sel && t[|pkg| + 1..] == sel;
  }

  lemma QualifiedEquals(pkg: string, sel: string, q: string, n: nat)
    requires IsName(pkg) && IsName(sel)
    requires n < |q| && q[n] == '.' && forall i :: 0 <= i < |q| && i != n ==> q[i] != '.'
    ensures pkg + "." + sel == q <==> pkg == q[..n] && sel == q[n + 1..]
  {
    assert (pkg + "." + sel)[|pkg|] == '.';
    assert q == q[..n] + "." + q[n + 1..];
    if pkg + "." + sel == q {
      assert q[..|pkg|] == pkg && q[|pkg| + 1..] == sel;
    }
  }

  /** A selector the tables do not spell out as a whole. */
  lemma SelectorUnclaimed(pkg: string, sel: string)
    requires IsName(pkg) && IsName(sel)
    ensures var t := pkg + "." + sel;
            Unclaimed(t) && '[' !in t && t != "net/http.Header" && t != "any"
  {
    var t := pkg + "." + sel;
    assert t[|pkg|] == '.';
    NamesUnclaimed(t, "");
    assert t + "" == t;
    assert "net/http.Header"[3] == '/' && !IsNameChar('/');
  }

  lemma FixedSelectors()
    ensures Render(Optional(DictOf(Ref("string"), Ref("string")))) == HEADER
    ensures Render(Optional(Ref("float"))) == "optional<float>"
  {
    var d := DictOf(Ref("string"), Ref("string"));
    assert Render(d) == "dict<" + "string" + "," + "string" + ">";
    assert Render(Optional(d)) == "optional<" + Render(d) + ">";
  }

  lemma StepQualified(pkg: string, sel: string, tables: Tables)
    requires IsName(pkg) && IsName(sel) && Plain(pkg + "." + sel, tables)
    requires pkg + "." + sel != "http.Header" && pkg + "." + sel != "context.Context"
    ensures var t := pkg + "." + sel;
            TranslateType(t, tables) ==
            match Spelled(t, tables) case Some(c) => Ok(Render(c)) case None => SelectorOrBare(t, tables)
  {
    hide *;
    SelectorUnclaimed(pkg, sel);
    StepNamed(pkg + "." + sel, tables);
  }

  lemma CompileQualified(pkg: string, sel: string, tables: Tables)
    requires !(pkg == "http" && sel == "Header") && !(pkg == "context" && sel == "Context")
    ensures var t := pkg + "." + sel;
            Rendered(CompileSelector(pkg, sel, tables)) ==
            match Spelled(t, tables)
            case Some(c) => Ok(Render(c))
            case None =>
              if sel in tables.aliases then Ok(tables.aliases[sel])
              else if t in tables.classes then Ok("class:" + tables.classes[t])
              else if StartsUpper(sel) then Ok("class:" + t)
              else Bare(t, tables)
  {
    hide Spelled, Bare, StartsUpper;
  }

  lemma RefinesQualified(pkg: string, sel: string, tables: Tables)
    requires IsName(pkg) && IsName(sel) && Plain(pkg + "." + sel, tables)
    ensures TranslateType(pkg + "." + sel, tables) == Rendered(CompileSelector(pkg, sel, tables))
  {
    hide TranslateType, SelectorOrBare, Bare, Spelled, IsName, CompileSelector, Plain;
    var t := pkg + "." + sel;
    QualifiedEquals(pkg, sel, "http.Header", 4);
    QualifiedEquals(pkg, sel, "context.Context", 7);
    FixedParts();
    if t == "http.Header" || t == "context.Context" {
      RefinesFixed(t, tables);
    } else {
      StepQualified(pkg, sel, tables);
      SelectorLookup(pkg, sel, tables);
      CompileQualified(pkg, sel, tables);
    }
  }

  lemma FixedParts()
    ensures "http.Header"[..4] == "http" && "http.Header"[5..] == "Header"
    ensures "context.Context"[..7] == "context" && "context.Context"[8..] == "Context"
  {
  }

  lemma RefinesFixed(t: string, tables: Tables)
    requires Plain(t, tables) && (t == "http.Header" || t == "context.Context")
    ensures t == "http.Header" ==> TranslateType(t, tables) == Rendered(CompileSelector("http", "Header", tables))
    ensures t == "context.Context" ==>
              TranslateType(t, tables) == Rendered(CompileSelector("context", "Context", tables))
  {
    hide TranslateType, Spelled, SelectorOrBare, Bare;
    StepWord(t, tables);
    FixedSelectors();
  }

  lemma RefinesSelector(pkg: string, sel: string, tables: Tables)
    requires IsType(Selector(Ident(pkg), sel))
    ensures TranslateType(pkg + "." + sel, tables) == Rendered(Compile(Selector(Ident(pkg), sel), tables))
  {
    hide TranslateType, CompileSelector;
    var e := Selector(Ident(pkg), sel);
    assert Print(e) == pkg + "." + sel && IsTypeName(Ident(pkg));
    TypeNameChars(e);
    StepWord(Print(e), tables);
    if Print(e) !in tables.closedSets {
      RefinesQualified(pkg, sel, tables);
    }
  }

  /** Texts that open with a bracket, which no case of the scanner expects. */
  lemma RefinesOpaque(t: string, tables: Tables)
    requires Plain(t, tables)
    requires (t[0] == '<' && '[' !in t) || (|t| >= 2 && t[0] == '[' && t[1] != ']')
    ensures TranslateType(t, tables) ==
            Rendered(match Spelled(t, tables) case Some(c) => Ok(c) case None => AsRef(SelectorOrBare(t, tables)))
  {
    hide TranslateType, SelectorOrBare;
    assert Unclaimed(t);
    StepNamed(t, tables);
  }

  lemma ArrayText(len: Expr, elt: Expr)
    requires IsType(Array(len, elt))
    ensures var t := Print(Array(len, elt)); |t| >= 2 && t[0] == '[' && t[1] != ']'
  {
    var t := Print(Array(len, elt));
    if len.Ident? || len.Selector? {
      TypeNameChars(len);
    }
    assert t[1] == Print(len)[0];
  }

  lemma OtherText(kind: string)
    requires IsKind(kind)
    ensures var t := Print(Other(kind)); t[0] == '<' && '[' !in t
  {
    assert '[' !in kind && '[' !in "<unhandled:";
  }

  /** Only a reference renders as a class. */
  lemma ClassMark(c: Canon)
    ensures "class:" <= Render(c) <==> c.Ref? && "class:" <= c.text
  {
    match c
    case Callable(_, _) => assert Render(c)[1] == 'a';
    case Optional(_) => assert Render(c)[0] == 'o';
    case ListOf(_) => assert Render(c)[0] == 'l';
    case DictOf(_, _) => assert Render(c)[0] == 'd';
    case TupleOf(_) => assert Render(c)[0] == 't';
    case _ =>
  }

  lemma {:induction false} EachRepeats(p: string, n: nat, rest: seq<string>, tables: Tables)
    requires n >= 1
    ensures TranslateEach(Repeat(p, n) + rest, tables) ==
            match TranslateType(p, tables)
            case Err(reason) => Err(reason)
            case Ok(c) =>
              match TranslateEach(rest, tables)
              case Err(reason) => Err(reason)
              case Ok(cs) => Ok(Repeat(c, n) + cs)
  {
    hide TranslateType;
    var parts := Repeat(p, n) + rest;
    if n == 1 {
      assert parts[1..] == rest;
      if TranslateType(p, tables).Ok? && TranslateEach(rest, tables).Ok? {
        var c := TranslateType(p, tables).value;
        assert [c] == Repeat(c, 1);
      }
    } else {
      assert parts[1..] == Repeat(p, n - 1) + rest;
      EachRepeats(p, n - 1, rest, tables);
      if TranslateType(p, tables).Ok? && TranslateEach(rest, tables).Ok? {
        var c := TranslateType(p, tables).value;
        assert [c] + (Repeat(c, n - 1) + TranslateEach(rest, tables).value)
            == Repeat(c, n) + TranslateEach(rest, tables).value;
      }
    }
  }

  lemma {:induction false} RenderRepeats(c: Canon, n: nat, rest: seq<Canon>)
    ensures RenderAll(Repeat(c, n) + rest) == Repeat(Render(c), n) + RenderAll(rest)
  {
    if n == 0 {
      assert Repeat(c, n) + rest == rest;
    } else {
      assert (Repeat(c, n) + rest)[1..] == Repeat(c, n - 1) + rest;
      RenderRepeats(c, n - 1, rest);
      assert [Render(c)] + Repeat(Render(c), n - 1) == Repeat(Render(c), n);
    }
  }

  lemma {:induction false} FieldsTrimmed(fs: seq<Field>)
    requires AreFields(fs)
    ensures AllTrimmed(PrintFields(fs))
  {
    if fs != [] {
      PrintTrimmed(fs[0].typ);
      FieldsTrimmed(fs[1..]);
    }
  }

  /** The induction step of Refines, one lemma a form: `Agrees` of the parts gives it of the whole. */
  ghost predicate Agrees(e: Expr, tables: Tables) {
    TranslateType(Print(e), tables) == Rendered(Compile(e, tables))
  }

  lemma RefinesStar(x: Expr, tables: Tables)
    requires IsType(x) && Plain("*" + Print(x), tables) && Agrees(x, tables)
    ensures Agrees(Star(x), tables)
  {
    hide TranslateType;
    StepStar(Print(x), tables);
    if Compile(x, tables).Ok? {
      ClassMark(Compile(x, tables).value);
    }
  }

  lemma RefinesSlice(elt: Expr, tables: Tables)
    requires IsType(elt) && Plain("[]" + Print(elt), tables) && Agrees(elt, tables)
    ensures Agrees(Slice(elt), tables)
  {
    hide TranslateType;
    OnlyIdent(elt, "byte");
    StepSlice(Print(elt), tables);
  }

  lemma RefinesMap(key: Expr, val: Expr, tables: Tables)
    requires IsType(Map(key, val)) && Plain(Print(Map(key, val)), tables)
    requires Agrees(key, tables) && Agrees(val, tables)
    ensures Agrees(Map(key, val), tables)
  {
    hide TranslateType;
    PrintQuiet(Square, key);
    StepMap(Print(key), Print(val), tables);
  }

  lemma RefinesEllipsis(elt: Expr, tables: Tables)
    requires Plain("..." + Print(elt), tables) && Agrees(elt, tables)
    ensures Agrees(Ellipsis(elt), tables)
  {
    hide TranslateType;
    StepEllipsis(Print(elt), tables);
  }

  lemma RefinesChan(x: Expr, tables: Tables)
    requires Plain("chan " + Print(x), tables)
    ensures Agrees(Chan(x), tables)
  {
    hide TranslateType;
    StepChan(Print(x), tables);
  }

  lemma RefinesInstance(e: Expr, x: Expr, inside: string, tables: Tables)
    requires IsType(e) && (e.Index? || e.IndexList?) && e.x == x
    requires Print(e) == Print(x) + "[" + inside + "]" && Plain(Print(e), tables)
    requires Agrees(x, tables)
    ensures Agrees(e, tables)
  {
    hide TranslateType, Spelled;
    StepInstance(Print(e), x, inside, tables);
    assert Compile(e, tables) ==
           match Spelled(Print(e), tables) case Some(c) => Ok(c) case None => Compile(x, tables);
  }

  lemma RefinesFunc(params: seq<Field>, results: seq<Field>, tables: Tables)
    requires IsType(Func(params, results)) && Plain(Print(Func(params, results)), tables)
    requires TranslateEach(PrintFields(params), tables) == RenderedAll(CompileFields(params, tables))
    requires results != [] ==>
               TranslateType(Print(results[0].typ), tables) == Rendered(CompileField(results[0], tables))
    ensures Agrees(Func(params, results), tables)
  {
    hide TranslateType, TranslateEach, Print, PrintFields, AllTrimmed, AllQuietParts, IsType;
    var ps, rs := PrintFields(params), PrintFields(results);
    FuncParts(params, results);
    FirstPrinted(results);
    StepFunc(Print(Func(params, results)), ps, rs, tables);
    RenderedFunc(params, results, tables);
  }

  lemma FuncParts(params: seq<Field>, results: seq<Field>)
    requires IsType(Func(params, results))
    ensures var ps, rs := PrintFields(params), PrintFields(results);
            && AllTrimmed(ps) && AllQuietParts(Round, ps) && AllQuietParts(Commas, ps)
            && AllTrimmed(rs) && AllQuietParts(Commas, rs)
            && Print(Func(params, results)) == "func(" + Join(ps, ",") + ") (" + Join(rs, ",") + ")"
  {
    FieldsTrimmed(params); FieldsQuiet(Round, params); FieldsQuiet(Commas, params);
    FieldsTrimmed(results); FieldsQuiet(Commas, results);
  }

  lemma FirstPrinted(results: seq<Field>)
    ensures results == [] <==> PrintFields(results) == []
    ensures results != [] ==> PrintFields(results)[0] == Print(results[0].typ)
  {
    if results != [] {
      assert PrintFields(results) == PrintField(results[0]) + PrintFields(results[1..]);
    }
  }

  lemma RenderedFunc(params: seq<Field>, results: seq<Field>, tables: Tables)
    requires Print(Func(params, results)) !in tables.closedSets
    ensures var args := CompileFields(params, tables);
            var ret := if results == [] then Ok(Void) else CompileField(results[0], tables);
            Rendered(Compile(Func(params, results), tables)) ==
            if args.Err? then Err(args.reason)
            else if ret.Err? then Err(ret.reason)
            else Ok("callable<list<" + Join(RenderAll(args.value), ",") + ">," + Render(ret.value) + ">")
  {
    hide Print, Join;
    var args := CompileFields(params, tables);
    var ret := if results == [] then Ok(Void) else CompileField(results[0], tables);
    var compiled := Compile(Func(params, results), tables);
    if args.Err? {
      assert compiled == Err(args.reason);
    } else if ret.Err? {
      assert compiled == Err(ret.reason);
    } else {
      assert compiled == Ok(Callable(args.value, ret.value));
    }
  }

  /** Scanning the printed text of a type yields the meaning of its tree, failure text included. */
  lemma {:induction false} Refines(e: Expr, tables: Tables)
    requires IsType(e)
    ensures TranslateType(Print(e), tables) == Rendered(Compile(e, tables))
    decreases e, 1
  {
    hide TranslateType, TranslateEach;
    var t := Print(e);
    PrintTrimmed(e);
    StepWord(t, tables);
    if t !in tables.closedSets {
      match e
      case Ident(name) => RefinesIdent(name, tables);
      case Selector(pkg, sel) => RefinesSelector(pkg.name, sel, tables);
      case Star(x) => Refines(x, tables); RefinesStar(x, tables);
      case Slice(elt) => Refines(elt, tables); RefinesSlice(elt, tables);
      case Array(len, elt) => ArrayText(len, elt); RefinesOpaque(t, tables);
      case Map(key, val) => Refines(key, tables); Refines(val, tables); RefinesMap(key, val, tables);
      case Interface(_) =>
      case Func(params, results) =>
        RefinesFields(params, tables);
        if results != [] {
          RefinesField(results[0], tables);
        }
        RefinesFunc(params, results, tables);
      case Chan(x) => RefinesChan(x, tables);
      case Ellipsis(elt) => Refines(elt, tables); RefinesEllipsis(elt, tables);
      case Index(x, arg) => Refines(x, tables); RefinesInstance(e, x, Print(arg), tables);
      case IndexList(x, args) =>
        Refines(x, tables); RefinesInstance(e, x, Join(PrintAll(args), ","), tables);
      case Other(kind) => OtherText(kind); RefinesOpaque(t, tables);
    }
  }

  lemma {:induction false} RefinesFields(fs: seq<Field>, tables: Tables)
    requires AreFields(fs)
    ensures TranslateEach(PrintFields(fs), tables) == RenderedAll(CompileFields(fs, tables))
    decreases fs, 0
  {
    hide TranslateType;
    if fs != [] {
      RefinesField(fs[0], tables);
      RefinesFields(fs[1..], tables);
      EachRepeats(Print(fs[0].typ), Arity(fs[0]), PrintFields(fs[1..]), tables);
      var c, rest := CompileField(fs[0], tables), CompileFields(fs[1..], tables);
      if c.Ok? && rest.Ok? {
        RenderRepeats(c.value, Arity(fs[0]), rest.value);
      }
    }
  }

  lemma {:induction false} RefinesField(f: Field, tables: Tables)
    requires IsField(f)
    ensures TranslateType(Print(f.typ), tables) == Rendered(CompileField(f, tables))
    decreases f, 0
  {
    Refines(f.typ, tables);
  }

  lemma {:induction false} LastPrinted(fs: seq<Field>)
    requires fs != []
    ensures var rets := PrintFields(fs);
            && rets != [] && rets[0] == Print(fs[0].typ)
            && rets[|rets| - 1] == Print(fs[|fs| - 1].typ)
            && (|rets| > 1 <==> |fs| > 1 || Arity(fs[0]) > 1)
  {
    assert PrintFields(fs) == PrintField(fs[0]) + PrintFields(fs[1..]);
    if |fs| > 1 {
      LastPrinted(fs[1..]);
    }
  }

  lemma {:induction false} FieldAt(fs: seq<Field>, i: nat)
    requires AreFields(fs) && i < |fs|
    ensures IsType(fs[i].typ)
  {
    assert IsField(fs[0]);
    if i > 0 {
      FieldAt(fs[1..], i - 1);
    }
  }

  lemma RefinesTuple(results: seq<Field>, tables: Tables)
    requires results != [] && AreFields(results) && IsTupleReturn(results)
    requires PrintReturns(results) == "tuple(" + Join(PrintFields(results), ",") + ")"
    ensures TranslateType(PrintReturns(results), tables) == Rendered(CompileReturns(results, tables))
  {
    hide TranslateType, PrintReturns, IsTupleReturn;
    var rets, t := PrintFields(results), PrintReturns(results);
    assert Trimmed(t) by { TrimmedAround("tuple(" + Join(rets, ","), ")"); }
    StepWord(t, tables);
    if t !in tables.closedSets {
      FieldsTrimmed(results);
      FieldsQuiet(Commas, results);
      StepTuple(t, rets, tables);
      RefinesFields(results, tables);
    }
  }

  /** The return types of a signature: a tuple of all of them, or the first alone. */
  lemma RefinesReturns(results: seq<Field>, tables: Tables)
    requires AreFields(results)
    ensures TranslateType(PrintReturns(results), tables) == Rendered(CompileReturns(results, tables))
  {
    if results != [] {
      hide TranslateType;
      LastPrinted(results);
      FieldAt(results, |results| - 1);
      OnlyIdent(results[|results| - 1].typ, "error");
      if IsTupleReturn(results) {
        RefinesTuple(results, tables);
      } else {
        FieldAt(results, 0);
        Refines(results[0].typ, tables);
      }
    }
  }

  lemma {:induction false} EachCount(parts: seq<string>, tables: Tables)
    ensures TranslateEach(parts, tables).Ok? ==> |TranslateEach(parts, tables).value| == |parts|
  {
    hide TranslateType;
    if parts != [] {
      EachCount(parts[1..], tables);
    }
  }

  lemma ReturnsPrinted(results: seq<Field>)
    requires AreFields(results) && ValueCount(results) >= 2 && results[|results| - 1].typ != Ident("error")
    ensures PrintReturns(results) == "tuple(" + Join(PrintFields(results), ",") + ")"
  {
    OneTypeEach(results);
    LastPrinted(results);
    FieldAt(results, |results| - 1);
    OnlyIdent(results[|results| - 1].typ, "error");
  }

  /**
   * Several values, the last of another type than error, come back as a tuple with one part for every value,
   * names that share a type counted one by one.
   */
  lemma ReturnsEachValue(results: seq<Field>, tables: Tables)
    requires AreFields(results) && ValueCount(results) >= 2 && results[|results| - 1].typ != Ident("error")
    requires PrintReturns(results) !in tables.closedSets
    ensures match TranslateEach(PrintFields(results), tables)
            case Ok(cs) => |cs| == ValueCount(results)
                           && TranslateType(PrintReturns(results), tables) == Ok("tuple<" + Join(cs, ",") + ">")
            case Err(reason) => TranslateType(PrintReturns(results), tables) == Err(reason)
  {
    hide TranslateType, PrintReturns;
    var rets, t := PrintFields(results), PrintReturns(results);
    ReturnsPrinted(results);
    OneTypeEach(results);
    EachCount(rets, tables);
    assert Trimmed(t) by { TrimmedAround("tuple(" + Join(rets, ","), ")"); }
    StepWord(t, tables);
    FieldsTrimmed(results);
    FieldsQuiet(Commas, results);
    StepTuple(t, rets, tables);
  }

  lemma GroupEach(n: nat, t: Expr, tables: Tables)
    ensures var all := PrintFields([Field(n, t)]);
            var count := if n == 0 then 1 else n;
            && all == seq(count, _ => Print(t))
            && TranslateEach(all, tables) ==
               match TranslateType(Print(t), tables)
               case Err(reason) => Err(reason)
               case Ok(c) => Ok(seq(count, _ => c))
  {
    hide TranslateType, Print;
    var count := if n == 0 then 1 else n;
    GroupPrints([], n, t, []);
    assert [] + [Field(n, t)] + [] == [Field(n, t)];
    EachRepeats(Print(t), count, [], tables);
    assert Repeat(Print(t), count) + [] == seq(count, _ => Print(t));
    if TranslateType(Print(t), tables).Ok? {
      var c := TranslateType(Print(t), tables).value;
      assert Repeat(c, count) + [] == seq(count, _ => c);
    }
  }

  /** Several results of one type under one list of names: a tuple with the type once for each name. */
  lemma GroupedReturn(n: nat, t: Expr, tables: Tables)
    requires n >= 2 && IsType(t) && t != Ident("error") && PrintReturns([Field(n, t)]) !in tables.closedSets
    ensures TranslateType(PrintReturns([Field(n, t)]), tables) ==
            match TranslateType(Print(t), tables)
            case Err(reason) => Err(reason)
            case Ok(c) => Ok("tuple<" + Join(seq(n, _ => c), ",") + ">")
  {
    hide TranslateType, PrintReturns, Print;
    var fs := [Field(n, t)];
    assert AreFields(fs) && ValueCount(fs) == n by {
      assert IsField(fs[0]) && fs[1..] == [];
    }
    ReturnsEachValue(fs, tables);
    GroupEach(n, t, tables);
  }

  /** Parameters of one type under one list of names: the type once for each name. */
  lemma GroupedParams(n: nat, t: Expr, tables: Tables)
    requires IsType(t) && Print(Func([Field(n, t)], [])) !in tables.closedSets
    ensures TranslateType(Print(Func([Field(n, t)], [])), tables) ==
            match TranslateType(Print(t), tables)
            case Err(reason) => Err(reason)
            case Ok(c) => Ok("callable<list<" + Join(seq(if n == 0 then 1 else n, _ => c), ",") + ">,void>")
  {
    hide TranslateType;
    var fs := [Field(n, t)];
    var f := Func(fs, []);
    assert AreFields(fs) by { assert IsField(fs[0]) && fs[1..] == []; }
    FuncParts(fs, []);
    PrintTrimmed(f);
    hide TranslateEach, Print, PrintFields, AllTrimmed, AllQuietParts, IsType;
    FirstPrinted([]);
    StepFunc(Print(f), PrintFields(fs), PrintFields([]), tables);
    GroupEach(n, t, tables);
    if TranslateType(Print(t), tables).Ok? {
      var c := TranslateType(Print(t), tables).value;
      VoidCallable(Join(seq(if n == 0 then 1 else n, _ => c), ","));
    }
  }

  lemma VoidCallable(args: string)
    ensures "callable<list<" + args + ">," + "void" + ">" == "callable<list<" + args + ">,void>"
  {
  }

  // When translation fails.

  /** The leaves whose translation the result depends on. */
  function Leaves(e: Expr, tables: Tables): set<Expr>
    decreases e, 1
  {
    if Print(e) in tables.closedSets then {}
    else
      match e
      case Star(x) => Leaves(x, tables)
      case Slice(elt) => if elt == Ident("byte") then {} else Leaves(elt, tables)
      case Map(key, val) => Leaves(key, tables) + Leaves(val, tables)
      case Func(params, results) =>
        FieldLeaves(params, tables) + (if results == [] then {} else FirstLeaves(results[0], tables))
      case Ellipsis(elt) => Leaves(elt, tables)
      case Index(x, _) => if Spelled(Print(e), tables).Some? then {} else Leaves(x, tables)
      case IndexList(x, _) => if Spelled(Print(e), tables).Some? then {} else Leaves(x, tables)
      case _ => {e}
  }

  function FirstLeaves(f: Field, tables: Tables): set<Expr>
    decreases f, 0
  {
    Leaves(f.typ, tables)
  }

  function FieldLeaves(fs: seq<Field>, tables: Tables): set<Expr>
    decreases fs, 0
  {
    if fs == [] then {} else FirstLeaves(fs[0], tables) + FieldLeaves(fs[1..], tables)
  }

  /** A channel, or a name no table knows and no capital letter excuses. */
  predicate Untranslatable(e: Expr, tables: Tables) {
    var t := Print(e);
    e.Chan? ||
    (&& Spelled(t, tables).None?
     && match e
        case Ident(name) => name != "any" && !StartsUpper(name)
        case Selector(pkg, sel) =>
          && t != "http.Header" && t != "context.Context"
          && sel !in tables.aliases && t !in tables.classes && !StartsUpper(sel) && !StartsUpper(t)
        case Array(_, _) => NothingBehindDot(t, tables)
        case Other(_) => NothingBehindDot(t, tables)
        case _ => false)
  }

  /** No class carries the text as its name, and what stands behind its last dot is no alias and not capitalised. */
  predicate NothingBehindDot(t: string, tables: Tables) {
    match LastIndexOf(t, '.')
    case None => true
    case Some(dot) => t !in tables.classes && t[dot + 1..] !in tables.aliases && !StartsUpper(t[dot + 1..])
  }

  lemma BracketLookup(t: string, tables: Tables)
    requires t != "" && (t[0] == '<' || t[0] == '[')
    ensures SelectorOrBare(t, tables).Err? <==> NothingBehindDot(t, tables)
    ensures NothingBehindDot(t, tables) ==> SelectorOrBare(t, tables) == Err("unknown type: " + t)
    ensures var r := SelectorOrBare(t, tables);
            r.Ok? ==> "class:" <= r.value || exists k :: k in tables.aliases && tables.aliases[k] == r.value
  {
    hide LastIndexOf;
    assert !StartsUpper(t);
  }

  lemma SelectorFailsExactly(pkg: string, sel: string, tables: Tables)
    requires IsType(Selector(Ident(pkg), sel)) && pkg + "." + sel !in tables.closedSets
    ensures Compile(Selector(Ident(pkg), sel), tables).Err? <==> Untranslatable(Selector(Ident(pkg), sel), tables)
  {
    var e := Selector(Ident(pkg), sel);
    assert Print(e) == pkg + "." + sel && IsTypeName(Ident(pkg));
    QualifiedEquals(pkg, sel, "http.Header", 4);
    QualifiedEquals(pkg, sel, "context.Context", 7);
    assert Compile(e, tables) == CompileSelector(pkg, sel, tables);
  }

  lemma LeafFailsExactly(e: Expr, tables: Tables)
    requires e.Ident? || e.Array? || e.Chan? || e.Other?
    requires IsType(e) && Print(e) !in tables.closedSets
    ensures Compile(e, tables).Err? <==> exists p :: p in Leaves(e, tables) && Untranslatable(p, tables)
  {
    if e.Array? {
      ArrayText(e.len, e.elt);
      BracketLookup(Print(e), tables);
    } else if e.Other? {
      OtherText(e.kind);
      BracketLookup(Print(e), tables);
    }
    hide NothingBehindDot, SelectorOrBare;
    assert Leaves(e, tables) == {e};
    assert Compile(e, tables).Err? <==> Untranslatable(e, tables);
    assert e in Leaves(e, tables);
  }

  /** Translation fails exactly when one of those leaves cannot be translated. */
  lemma {:induction false} FailsExactly(e: Expr, tables: Tables)
    requires IsType(e)
    ensures Compile(e, tables).Err? <==> exists p :: p in Leaves(e, tables) && Untranslatable(p, tables)
    decreases e, 1
  {
    if Print(e) !in tables.closedSets {
      match e
      case Ident(_) => LeafFailsExactly(e, tables);
      case Selector(pkg, sel) =>
        assert e == Selector(Ident(pkg.name), sel) && Print(e) == pkg.name + "." + sel;
        SelectorFailsExactly(pkg.name, sel, tables);
        assert e in Leaves(e, tables);
      case Star(x) => FailsExactly(x, tables);
      case Slice(elt) =>
        FailsExactly(elt, tables);
        assert Leaves(e, tables) == if elt == Ident("byte") then {} else Leaves(elt, tables);
      case Array(_, _) => LeafFailsExactly(e, tables);
      case Map(key, val) => FailsExactly(key, tables); FailsExactly(val, tables);
      case Interface(_) =>
      case Func(params, results) =>
        FieldsFailExactly(params, tables);
        if results != [] {
          FirstFailsExactly(results[0], tables);
        }
      case Chan(_) => LeafFailsExactly(e, tables);
      case Ellipsis(elt) => FailsExactly(elt, tables);
      case Index(x, _) => FailsExactly(x, tables);
      case IndexList(x, _) => FailsExactly(x, tables);
      case Other(_) => LeafFailsExactly(e, tables);
    }
  }

  lemma {:induction false} FirstFailsExactly(f: Field, tables: Tables)
    requires IsField(f)
    ensures CompileField(f, tables).Err? <==> exists p :: p in FirstLeaves(f, tables) && Untranslatable(p, tables)
    decreases f, 0
  {
    FailsExactly(f.typ, tables);
  }

  lemma {:induction false} FieldsFailExactly(fs: seq<Field>, tables: Tables)
    requires AreFields(fs)
    ensures CompileFields(fs, tables).Err? <==> exists p :: p in FieldLeaves(fs, tables) && Untranslatable(p, tables)
    decreases fs, 0
  {
    if fs != [] {
      FirstFailsExactly(fs[0], tables);
      FieldsFailExactly(fs[1..], tables);
    }
  }

  /** No table has an entry for the spelling `t`. */
  predicate Unlisted(t: string, tables: Tables) {
    t !in tables.closedSets && t !in tables.aliases && t !in tables.genModules && t !in tables.classes
  }

  /**
   * Fixed-length arrays are misread. Whatever the length and the element, the text is searched for a name: the
   * result is a failure, exactly when nothing known stands behind the last dot, or else an alias or a class; with
   * no list among the aliases it is never a list.
   */
  lemma FixedArrayIsNotAList(len: Expr, elt: Expr, tables: Tables)
    requires IsType(Array(len, elt)) && Unlisted(Print(Array(len, elt)), tables)
    ensures var t := Print(Array(len, elt));
            var r := TranslateType(t, tables);
            && (r.Err? <==> NothingBehindDot(t, tables))
            && (r.Err? ==> r.reason == "unknown type: " + t)
            && (r.Ok? ==> "class:" <= r.value || exists k :: k in tables.aliases && tables.aliases[k] == r.value)
            && (r.Ok? && (forall k :: k in tables.aliases ==> !("list<" <= tables.aliases[k]))
               ==> !("list<" <= r.value))
  {
    hide TranslateType, SelectorOrBare, NothingBehindDot;
    var t := Print(Array(len, elt));
    PrintTrimmed(Array(len, elt));
    ArrayText(len, elt);
    RefinesOpaque(t, tables);
    BracketLookup(t, tables);
    if TranslateType(t, tables).Ok? {
      ClassIsNoList(TranslateType(t, tables).value);
    }
  }

  lemma ClassIsNoList(r: string)
    ensures "class:" <= r ==> !("list<" <= r)
  {
    assert "class:" <= r ==> r[0] == 'c';
  }

  /**
   * An array of a plain name fails; one of a pointer to an exported foreign type passes for a class of that spelling.
   */
  lemma ArraysOfNames(len: string, name: string, pkg: string, sel: string, tables: Tables)
    requires IsName(len) && IsTypeName(Ident(name)) && IsTypeName(Selector(Ident(pkg), sel))
    requires var t := "[" + len + "]" + name; Unlisted(t, tables)
    requires var t := "[" + len + "]*" + pkg + "." + sel; Unlisted(t, tables)
    requires sel !in tables.aliases && StartsUpper(sel)
    ensures TranslateType("[" + len + "]" + name, tables) == Err("unknown type: " + ("[" + len + "]" + name))
    ensures TranslateType("[" + len + "]*" + pkg + "." + sel, tables)
            == Ok("class:" + ("[" + len + "]*" + pkg + "." + sel))
  {
    hide TranslateType;
    PlainArray(len, name, tables);
    PointerArray(len, pkg, sel, tables);
  }

  lemma PlainArray(len: string, name: string, tables: Tables)
    requires IsName(len) && IsTypeName(Ident(name)) && Unlisted("[" + len + "]" + name, tables)
    ensures TranslateType("[" + len + "]" + name, tables) == Err("unknown type: " + ("[" + len + "]" + name))
  {
    hide TranslateType;
    var arr := Array(BasicLit(len), Ident(name));
    PlainArrayText(len, name);
    assert '.' !in Print(arr);
    FixedArrayIsNotAList(arr.len, arr.elt, tables);
  }

  lemma PlainArrayText(len: string, name: string)
    requires IsName(len) && IsTypeName(Ident(name))
    ensures var arr := Array(BasicLit(len), Ident(name));
            IsType(arr) && Print(arr) == "[" + len + "]" + name
  {
    hide TranslateType;
    var arr := Array(BasicLit(len), Ident(name));
    assert IsLength(arr.len) && IsType(arr.elt);
    assert Print(arr.len) == len && Print(arr.elt) == name;
  }

  lemma PointerArray(len: string, pkg: string, sel: string, tables: Tables)
    requires IsName(len) && IsTypeName(Selector(Ident(pkg), sel)) && StartsUpper(sel)
    requires Unlisted("[" + len + "]*" + pkg + "." + sel, tables) && sel !in tables.aliases
    ensures TranslateType("[" + len + "]*" + pkg + "." + sel, tables)
            == Ok("class:" + ("[" + len + "]*" + pkg + "." + sel))
  {
    hide TranslateType, SelectorOrBare;
    var arr := Array(BasicLit(len), Star(Selector(Ident(pkg), sel)));
    var t := "[" + len + "]*" + pkg + "." + sel;
    PointerArrayText(len, pkg, sel);
    PrintTrimmed(arr);
    ArrayText(arr.len, arr.elt);
    RefinesOpaque(t, tables);
    ArrayTextLookup(t, "[" + len + "]*" + pkg, sel, tables);
  }

  lemma PointerArrayText(len: string, pkg: string, sel: string)
    requires IsName(len) && IsTypeName(Selector(Ident(pkg), sel))
    ensures var arr := Array(BasicLit(len), Star(Selector(Ident(pkg), sel)));
            IsType(arr) && Print(arr) == "[" + len + "]*" + pkg + "." + sel && '.' !in sel
  {
    var e := Selector(Ident(pkg), sel);
    assert Print(Ident(pkg)) == pkg && Print(e) == Print(Ident(pkg)) + "." + sel;
    assert Print(Star(e)) == "*" + Print(e);
    assert IsType(e) && IsType(Star(e)) && IsLength(BasicLit(len));
    assert Print(Array(BasicLit(len), Star(e))) == "[" + len + "]" + ("*" + (pkg + "." + sel));
    SpellPointerArray("[" + len, pkg, sel);
  }

  lemma SpellPointerArray(head: string, pkg: string, sel: string)
    ensures head + "]" + ("*" + (pkg + "." + sel)) == head + "]*" + pkg + "." + sel
  {
    assert "]" + "*" == "]*";
  }

  lemma ArrayTextLookup(t: string, before: string, sel: string, tables: Tables)
    requires t == before + "." + sel && before != "" && t[0] == '[' && '.' !in sel
    requires sel !in tables.aliases && t !in tables.classes && StartsUpper(sel)
    ensures SelectorOrBare(t, tables) == Ok("class:" + t)
  {
    LastIndexOfBefore(before, '.', sel);
    assert t == before + ['.'] + sel && t[|before| + 1..] == sel;
  }
}
