/** The Go types of optional fields, and what the signature enumerator reads from them. */
module FieldTypes {
  import opened Text
  import opened GoTypes
  import opened Translator
  import opened Compiler
  import opened TypeRoundTrip

  function OptionalGoType(typ: string): string {
    if "[]" <= typ || "map[" <= typ || typ == "any" then typ
    else if "*" <= typ then typ
    else "*" + typ
  }

  function ParamFieldType(goType: string, required: bool): string {
    if goType == "" then "any"
    else if required then goType
    else OptionalGoType(goType)
  }

  /** A field without a type is of type any; a required one keeps its type. */
  lemma TypeKept(t: string)
    ensures ParamFieldType("", true) == "any" && ParamFieldType("", false) == "any"
    ensures t != "" ==> ParamFieldType(t, true) == t
  {
  }

  predicate IsNilableGoType(t: string) {
    "*" <= t || "[]" <= t || "map[" <= t || t == "any"
  }

  /** The types whose values can be nil, as the generator sees them. */
  predicate IsReference(e: Expr) {
    e.Star? || e.Slice? || e.Map? || e == Ident("any")
  }

  predicate Begins(t: string) {
    "*" <= t || "[]" <= t || "map[" <= t
  }

  lemma BeginsWith(t: string)
    requires t != "" && t[0] != '*' && t[0] != '[' && t[0] != 'm'
    ensures !Begins(t)
  {
  }

  lemma NameHead(x: Expr, tail: string)
    requires IsTypeName(x) && (tail == "" || tail[0] == '[')
    ensures !Begins(Print(x) + tail) && Print(x) + tail != ""
  {
    TypeNameChars(x);
    NamesUnclaimed(Print(x), tail);
  }

  lemma BeginsExactly(e: Expr)
    requires IsType(e)
    ensures Begins(Print(e)) <==> e.Star? || e.Slice? || e.Map?
    ensures Print(e) != ""
  {
    var t := Print(e);
    hide Begins, IsNameChar;
    match e
    case Ident(_) => NameHead(e, ""); assert t + "" == t;
    case Selector(_, _) => NameHead(e, ""); assert t + "" == t;
    case Index(x, arg) => InstanceHead(x, Print(arg));
    case IndexList(x, args) => InstanceHead(x, Join(PrintAll(args), ","));
    case Array(len, elt) => ArrayText(len, elt); ArrayHead(t);
    case Other(kind) => OtherText(kind); BeginsWith(t);
    case Star(_) => ReferenceHead(t);
    case Slice(_) => ReferenceHead(t);
    case Map(_, _) => ReferenceHead(t);
    case _ => BeginsWith(t);
  }

  lemma InstanceHead(x: Expr, inside: string)
    requires IsTypeName(x)
    ensures !Begins(Print(x) + "[" + inside + "]")
  {
    hide Begins;
    NameHead(x, "[" + inside + "]");
    assert Print(x) + "[" + inside + "]" == Print(x) + ("[" + inside + "]");
  }

  lemma ArrayHead(t: string)
    requires |t| >= 2 && t[0] == '[' && t[1] != ']'
    ensures !Begins(t)
  {
  }

  lemma ReferenceHead(t: string)
    requires "*" <= t || "[]" <= t || "map[" <= t
    ensures Begins(t)
  {
  }

  /** Telling a reference by the first characters of its text is telling it by the type. */
  lemma NilableExactly(e: Expr)
    requires IsType(e)
    ensures IsNilableGoType(Print(e)) <==> IsReference(e)
    ensures Print(e) != ""
  {
    assert IsName("any");
    OnlyIdent(e, "any");
    BeginsExactly(e);
    hide Print, IsType;
    assert IsNilableGoType(Print(e)) <==> Begins(Print(e)) || Print(e) == "any";
    assert Print(Ident("any")) == "any" by { PrintAny(); }
  }

  lemma PrintAny()
    ensures Print(Ident("any")) == "any"
  {
  }

  /** A field of the request body is guarded against nil exactly when it is optional or its type is a reference. */
  lemma GuardedExactly(e: Expr, required: bool)
    requires IsType(e)
    ensures IsNilableGoType(ParamFieldType(Print(e), required)) <==> !required || IsReference(e)
  {
    NilableExactly(e);
  }

  /**
   * In the signatures an optional field has the meaning of a pointer to its type, or of its type if that is a
   * reference.
   */
  lemma OptionalMeans(e: Expr, tables: Tables)
    requires IsType(e)
    ensures TranslateType(ParamFieldType(Print(e), false), tables)
            == Rendered(Compile(if IsReference(e) then e else Star(e), tables))
  {
    NilableExactly(e);
    hide TranslateType, Compile, IsType;
    var f := if IsReference(e) then e else Star(e);
    assert ParamFieldType(Print(e), false) == Print(f);
    StarIsType(e);
    Refines(f, tables);
  }

  lemma StarIsType(e: Expr)
    requires IsType(e)
    ensures IsType(Star(e))
  {
  }
}
