/** Go type expressions, and the source text the signature enumerator prints for them. */
module GoTypes {
  import opened Text

  datatype Expr =
    | Ident(name: string)
    | Selector(pkg: Expr, sel: string)
    | Star(x: Expr)
    | Slice(elt: Expr)
    | Array(len: Expr, elt: Expr)
    | Map(key: Expr, val: Expr)
    | Interface(methods: nat)
    | Func(params: seq<Field>, results: seq<Field>)
    | Chan(x: Expr)
    | Ellipsis(elt: Expr)
    | Index(x: Expr, arg: Expr)
    | IndexList(x: Expr, args: seq<Expr>)
    | BasicLit(text: string)
    | Other(kind: string)  // a node the printer has no case for, by its Go type name

  /** One entry of a parameter or result list: `names` identifiers sharing a type. */
  datatype Field = Field(names: nat, typ: Expr)

  /** How many values an entry stands for: an entry without names is one value. */
  function Arity(f: Field): (n: nat)
    ensures n >= 1
  {
    if f.names > 0 then f.names else 1
  }

  function Repeat<T>(x: T, n: nat): (r: seq<T>)
    ensures |r| == n
    ensures forall i :: 0 <= i < n ==> r[i] == x
  {
    seq(n, _ => x)
  }

  /** exprString and funcTypeString */
  function Print(e: Expr): string
    decreases e
  {
    match e
    case Ident(name) => name
    case Selector(pkg, sel) => Print(pkg) + "." + sel
    case Star(x) => "*" + Print(x)
    case Slice(elt) => "[]" + Print(elt)
    case Array(len, elt) => "[" + Print(len) + "]" + Print(elt)
    case Map(key, val) => "map[" + Print(key) + "]" + Print(val)
    case Interface(methods) => if methods == 0 then "interface{}" else "interface{...}"
    case Func(params, results) =>
      "func(" + Join(PrintFields(params), ",") + ") (" + Join(PrintFields(results), ",") + ")"
    case Chan(x) => "chan " + Print(x)
    case Ellipsis(elt) => "..." + Print(elt)
    case Index(x, arg) => Print(x) + "[" + Print(arg) + "]"
    case IndexList(x, args) => Print(x) + "[" + Join(PrintAll(args), ",") + "]"
    case BasicLit(text) => text
    case Other(kind) => "<unhandled:" + kind + ">"
  }

  function PrintFields(fs: seq<Field>): (r: seq<string>)
    ensures |r| >= |fs|
    decreases fs
  {
    if fs == [] then [] else PrintField(fs[0]) + PrintFields(fs[1..])
  }

  /** An entry prints its type once for every value it stands for. */
  function PrintField(f: Field): (r: seq<string>)
    ensures |r| >= 1
    decreases f
  {
    Repeat(Print(f.typ), Arity(f))
  }

  /** How many values a list stands for. */
  function ValueCount(fs: seq<Field>): nat {
    if fs == [] then 0 else (if fs[0].names == 0 then 1 else fs[0].names) + ValueCount(fs[1..])
  }

  /** One type is printed for every value. */
  lemma {:induction false} OneTypeEach(fs: seq<Field>)
    ensures |PrintFields(fs)| == ValueCount(fs)
  {
    if fs != [] {
      OneTypeEach(fs[1..]);
    }
  }

  /** An entry of `n` names, wherever it stands, prints as `n` copies of its type, and as one if it has no name. */
  lemma {:induction false} GroupPrints(a: seq<Field>, n: nat, t: Expr, b: seq<Field>)
    ensures PrintFields(a + [Field(n, t)] + b)
            == PrintFields(a) + seq(if n == 0 then 1 else n, _ => Print(t)) + PrintFields(b)
    decreases a
  {
    var fs := a + [Field(n, t)] + b;
    if a == [] {
      assert fs[0] == Field(n, t) && fs[1..] == b;
      assert PrintField(Field(n, t)) == seq(if n == 0 then 1 else n, _ => Print(t));
    } else {
      GroupPrints(a[1..], n, t, b);
      assert fs[0] == a[0] && fs[1..] == a[1..] + [Field(n, t)] + b;
    }
  }

  function PrintAll(es: seq<Expr>): (r: seq<string>)
    ensures |r| == |es|
    decreases es
  {
    if es == [] then [] else [Print(es[0])] + PrintAll(es[1..])
  }

  /** Characters of Go identifiers and literals; none of them is punctuation of a type. */
  predicate IsNameChar(c: char) {
    || 'a' <= c <= 'z' || 'A' <= c <= 'Z' || '0' <= c <= '9' || c == '_'
    || (c >= '\U{80}' && !IsSpace(c))
  }

  predicate IsName(s: string) {
    s != "" && forall i :: 0 <= i < |s| ==> IsNameChar(s[i])
  }

  /** A type or package name: never the keyword `map`, which opens a map type. */
  predicate IsTypeName(e: Expr) {
    match e
    case Ident(name) => IsName(name) && name != "map"
    case Selector(pkg, sel) => pkg.Ident? && IsTypeName(pkg) && IsName(sel)
    case _ => false
  }

  predicate IsKind(s: string) {
    forall i :: 0 <= i < |s| ==> IsNameChar(s[i]) || s[i] == '*' || s[i] == '.'
  }

  /** The syntax of Go types, with the nodes the printer does not know as atoms. */
  predicate IsType(e: Expr)
    decreases e
  {
    match e
    case Ident(_) => IsTypeName(e)
    case Selector(_, _) => IsTypeName(e)
    case Star(x) => IsType(x)
    case Slice(elt) => IsType(elt)
    case Array(len, elt) => IsLength(len) && IsType(elt)
    case Map(key, val) => IsType(key) && IsType(val)
    case Interface(_) => true
    case Func(params, results) => AreFields(params) && AreFields(results)
    case Chan(x) => IsType(x)
    case Ellipsis(elt) => IsType(elt)
    case Index(x, arg) => IsTypeName(x) && IsType(arg)
    case IndexList(x, args) => IsTypeName(x) && args != [] && AreTypes(args)
    case BasicLit(_) => false
    case Other(kind) => IsKind(kind)
  }

  /** An array length: a number, a constant's name, or an expression without a printer case. */
  predicate IsLength(e: Expr) {
    match e
    case BasicLit(text) => IsName(text)
    case Ident(_) => IsTypeName(e)
    case Selector(_, _) => IsTypeName(e)
    case Other(kind) => IsKind(kind)
    case _ => false
  }

  predicate AreFields(fs: seq<Field>)
    decreases fs
  {
    fs == [] || (IsField(fs[0]) && AreFields(fs[1..]))
  }

  predicate IsField(f: Field)
    decreases f
  {
    IsType(f.typ)
  }

  predicate AreTypes(es: seq<Expr>)
    decreases es
  {
    es == [] || (IsType(es[0]) && AreTypes(es[1..]))
  }

  /** The syntax is closed under every form of type. */
  lemma FormsOfTypes(a: Expr, b: Expr, n: nat, fs: seq<Field>, gs: seq<Field>, args: seq<Expr>, len: string)
    requires IsType(a) && IsType(b) && IsLength(BasicLit(len))
    requires (forall i :: 0 <= i < |fs| ==> IsType(fs[i].typ)) && (forall i :: 0 <= i < |gs| ==> IsType(gs[i].typ))
    requires args != [] && forall i :: 0 <= i < |args| ==> IsType(args[i])
    ensures IsType(Star(a)) && IsType(Slice(a)) && IsType(Map(a, b)) && IsType(Interface(n)) && IsType(Chan(a))
    ensures IsType(Ellipsis(a)) && IsType(Array(BasicLit(len), a)) && IsType(Func(fs, gs))
    ensures a.Ident? || a.Selector? ==> IsType(Index(a, b)) && IsType(IndexList(a, args))
  {
    FieldsAre(fs);
    FieldsAre(gs);
    TypesAre(args);
    hide IsTypeName, IsLength, AreFields, AreTypes;
    assert a.Ident? || a.Selector? ==> IsTypeName(a);
  }

  /** So are a length of letters and digits, and a node without a printer case such as a struct. */
  lemma OtherForms(len: string)
    requires len != "" && forall i :: 0 <= i < |len| ==> 'a' <= len[i] <= 'z' || '0' <= len[i] <= '9'
    ensures IsLength(BasicLit(len)) && IsType(Other("*ast.StructType"))
  {
  }

  lemma {:induction false} FieldsAre(fs: seq<Field>)
    requires forall i :: 0 <= i < |fs| ==> IsType(fs[i].typ)
    ensures AreFields(fs)
  {
    if fs != [] {
      FieldsAre(fs[1..]);
      assert IsType(fs[0].typ);
    }
  }

  lemma {:induction false} TypesAre(es: seq<Expr>)
    requires forall i :: 0 <= i < |es| ==> IsType(es[i])
    ensures AreTypes(es)
  {
    if es != [] {
      TypesAre(es[1..]);
    }
  }

  /** The texts that the translator never takes apart. */
  lemma AtomTexts(n: nat, kind: string)
    ensures Print(Interface(0)) == "interface{}" && (n > 0 ==> Print(Interface(n)) == "interface{...}")
    ensures Print(Other(kind)) == "<unhandled:" + kind + ">"
  {
  }
}
