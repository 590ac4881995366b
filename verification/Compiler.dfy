/** The meaning of a Go type in the canonical language, read off the syntax tree. */
module Compiler {
  import opened Text
  import opened GoTypes
  import opened Translator

  datatype Canon =
    | Ref(text: string)
    | AnyType
    | Bytes
    | Void
    | Optional(of: Canon)
    | ListOf(elt: Canon)
    | DictOf(key: Canon, val: Canon)
    | TupleOf(parts: seq<Canon>)
    | Callable(args: seq<Canon>, ret: Canon)

  function Render(c: Canon): string
    decreases c
  {
    match c
    case Ref(text) => text
    case AnyType => "any"
    case Bytes => "bytes"
    case Void => "void"
    case Optional(of) => "optional<" + Render(of) + ">"
    case ListOf(elt) => "list<" + Render(elt) + ">"
    case DictOf(key, val) => "dict<" + Render(key) + "," + Render(val) + ">"
    case TupleOf(parts) => "tuple<" + Join(RenderAll(parts), ",") + ">"
    case Callable(args, ret) => "callable<list<" + Join(RenderAll(args), ",") + ">," + Render(ret) + ">"
  }

  function RenderAll(cs: seq<Canon>): (r: seq<string>)
    ensures |r| == |cs|
    decreases cs
  {
    if cs == [] then [] else [Render(cs[0])] + RenderAll(cs[1..])
  }

  function Rendered(r: Result<Canon>): Result<string> {
    match r
    case Ok(c) => Ok(Render(c))
    case Err(reason) => Err(reason)
  }

  function RenderedAll(r: Result<seq<Canon>>): Result<seq<string>> {
    match r
    case Ok(cs) => Ok(RenderAll(cs))
    case Err(reason) => Err(reason)
  }

  function AsRef(r: Result<string>): Result<Canon> {
    match r
    case Ok(text) => Ok(Ref(text))
    case Err(reason) => Err(reason)
  }

  /** What the tables say of a whole spelling, before its syntax is looked at. */
  function Spelled(t: string, tables: Tables): Option<Canon> {
    if t in tables.aliases then Some(Ref(tables.aliases[t]))
    else if t in tables.genModules && !StartsUpper(t) then Some(Ref(GenRef(t, tables)))
    else None
  }

  function CompileSelector(pkg: string, sel: string, tables: Tables): Result<Canon> {
    var t := pkg + "." + sel;
    if pkg == "http" && sel == "Header" then Ok(Optional(DictOf(Ref("string"), Ref("string"))))
    else if pkg == "context" && sel == "Context" then Ok(Optional(Ref("float")))
    else
      match Spelled(t, tables)
      case Some(c) => Ok(c)
      case None =>
        if sel in tables.aliases then Ok(Ref(tables.aliases[sel]))
        else if t in tables.classes then Ok(Ref("class:" + tables.classes[t]))
        else if StartsUpper(sel) then Ok(Ref("class:" + t))
        else AsRef(Bare(t, tables))
  }

  function Compile(e: Expr, tables: Tables): Result<Canon>
    decreases e, 1
  {
    var t := Print(e);
    if t in tables.closedSets then Ok(Ref(tables.closedSets[t]))
    else
      match e
      case Ident(name) =>
        if name == "any" then Ok(AnyType)
        else (match Spelled(t, tables) case Some(c) => Ok(c) case None => AsRef(Bare(t, tables)))
      case Selector(pkg, sel) => CompileSelector(Print(pkg), sel, tables)
      case Star(x) =>
        var c :- Compile(x, tables);
        // a passed object is never marked optional
        Ok(if c.Ref? && "class:" <= c.text then c else Optional(c))
      case Slice(elt) =>
        if elt == Ident("byte") then Ok(Bytes)
        else
          var c :- Compile(elt, tables);
          Ok(ListOf(c))
      case Map(key, val) =>
        var k :- Compile(key, tables);
        var v :- Compile(val, tables);
        Ok(DictOf(k, v))
      case Interface(_) => Ok(AnyType)
      case Func(params, results) =>
        var args :- CompileFields(params, tables);
        var ret :- if results == [] then Ok(Void) else CompileField(results[0], tables);
        Ok(Callable(args, ret))
      case Chan(_) => Err("chan types have no canonical equivalent: " + t)
      case Ellipsis(elt) =>
        var c :- Compile(elt, tables);
        Ok(ListOf(c))
      case Index(x, _) =>
        (match Spelled(t, tables) case Some(c) => Ok(c) case None => Compile(x, tables))
      case IndexList(x, _) =>
        (match Spelled(t, tables) case Some(c) => Ok(c) case None => Compile(x, tables))
      // the scanner has no case for these: it searches their text for a name
      case Array(_, _) =>
        (match Spelled(t, tables) case Some(c) => Ok(c) case None => AsRef(SelectorOrBare(t, tables)))
      case Other(_) =>
        (match Spelled(t, tables) case Some(c) => Ok(c) case None => AsRef(SelectorOrBare(t, tables)))
      case BasicLit(_) => Err("unknown type: " + t)
  }

  function CompileField(f: Field, tables: Tables): Result<Canon>
    decreases f, 0
  {
    Compile(f.typ, tables)
  }

  function CompileFields(fs: seq<Field>, tables: Tables): Result<seq<Canon>>
    decreases fs, 0
  {
    if fs == [] then Ok([])
    else
      var c :- CompileField(fs[0], tables);
      var rest :- CompileFields(fs[1..], tables);
      Ok(Repeat(c, Arity(fs[0])) + rest)
  }

  /** buildSignature's return type: a tuple when several values come back and the last is not an error. */
  function PrintReturns(results: seq<Field>): string {
    var rets := PrintFields(results);
    if rets == [] then ""
    else if |rets| > 1 && rets[|rets| - 1] != "error" then "tuple(" + Join(rets, ",") + ")"
    else rets[0]
  }

  predicate IsTupleReturn(results: seq<Field>) {
    && results != []
    && (|results| > 1 || Arity(results[0]) > 1)
    && results[|results| - 1].typ != Ident("error")
  }

  function CompileReturns(results: seq<Field>, tables: Tables): Result<Canon> {
    if results == [] then Ok(Void)
    else if !IsTupleReturn(results) then Compile(results[0].typ, tables)
    else if PrintReturns(results) in tables.closedSets then Ok(Ref(tables.closedSets[PrintReturns(results)]))
    else
      var cs :- CompileFields(results, tables);
      Ok(TupleOf(cs))
  }
}
