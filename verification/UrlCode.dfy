/**
 * The Go expressions the REST generator writes for a request path, and what they evaluate to:
 * `r.Base`, `r.Path(operands)` and a "+"-concatenation of operands, where an operand is a quoted
 * literal or an argument name.
 */
module UrlCode {
  import opened Text

  datatype Operand = Lit(text: string) | Var(name: string)

  /** Printable ASCII that a Go string literal holds as it stands. */
  predicate PlainChar(c: char) {
    ' ' <= c <= '~' && c != '"' && c != '\\'
  }

  predicate Plain(s: string) {
    forall c :: c in s ==> PlainChar(c)
  }

  predicate IsAlnum(c: char) {
    '0' <= c <= '9' || 'A' <= c <= 'Z' || 'a' <= c <= 'z'
  }

  predicate IsIdent(s: string) {
    s != "" && forall c :: c in s ==> IsAlnum(c)
  }

  predicate Readable(o: Operand) {
    match o
    case Lit(text) => Plain(text)
    case Var(name) => IsIdent(name)
  }

  function Escape(s: string): string {
    if s == "" then ""
    else (if s[0] == '"' || s[0] == '\\' then ['\\', s[0]] else [s[0]]) + Escape(s[1..])
  }

  /** The %q verb on printable text. */
  function Quote(s: string): string {
    "\"" + Escape(s) + "\""
  }

  lemma {:induction false} PlainEscape(s: string)
    requires Plain(s)
    ensures Escape(s) == s
  {
    if s != "" {
      assert s == [s[0]] + s[1..];
      assert PlainChar(s[0]);
      PlainEscape(s[1..]);
    }
  }

  function Show(o: Operand): string {
    match o
    case Lit(text) => Quote(text)
    case Var(name) => name
  }

  function ShowAll(ops: seq<Operand>): seq<string> {
    if ops == [] then [] else [Show(ops[0])] + ShowAll(ops[1..])
  }

  datatype Reading = Reading(op: Operand, rest: string)

  function IdentLength(s: string): (n: nat)
    ensures n <= |s|
  {
    if s != "" && IsAlnum(s[0]) then 1 + IdentLength(s[1..]) else 0
  }

  function ReadOperand(s: string): (r: Option<Reading>)
    ensures r.Some? ==> |r.value.rest| < |s|
  {
    if s == "" then None
    else if s[0] == '"' then
      match IndexOf(s[1..], '"')
      case None => None
      case Some(i) => Some(Reading(Lit(s[1..][..i]), s[1..][i + 1..]))
    else
      var n := IdentLength(s);
      if n == 0 then None else Some(Reading(Var(s[..n]), s[n..]))
  }

  function ReadList(s: string, sep: string): Option<seq<Operand>>
    decreases |s|
  {
    match ReadOperand(s)
    case None => None
    case Some(Reading(op, rest)) =>
      if rest == "" then Some([op])
      else if sep <= rest then
        match ReadList(rest[|sep|..], sep)
        case None => None
        case Some(ops) => Some([op] + ops)
      else None
  }

  lemma {:induction false} IdentLengthBefore(name: string, rest: string)
    requires forall c :: c in name ==> IsAlnum(c)
    requires rest == "" || !IsAlnum(rest[0])
    ensures IdentLength(name + rest) == |name|
  {
    if name == "" {
      assert name + rest == rest;
    } else {
      assert (name + rest)[1..] == name[1..] + rest;
      assert (name + rest)[0] == name[0] && name[0] in name;
      IdentLengthBefore(name[1..], rest);
    }
  }

  lemma ReadLiteral(text: string, rest: string)
    requires Plain(text)
    ensures ReadOperand(Quote(text) + rest) == Some(Reading(Lit(text), rest))
  {
    PlainEscape(text);
    var s := Quote(text) + rest;
    var inner := text + ['"'] + rest;
    assert s == ['"'] + inner;
    assert s[1..] == inner;
    assert '"' !in text;
    IndexOfAfter(text, '"', rest);
    assert inner[..|text|] == text && inner[|text| + 1..] == rest;
  }

  lemma ReadName(name: string, rest: string)
    requires IsIdent(name) && (rest == "" || !IsAlnum(rest[0]))
    ensures ReadOperand(name + rest) == Some(Reading(Var(name), rest))
  {
    var s := name + rest;
    IdentLengthBefore(name, rest);
    assert s[0] == name[0] && name[0] in name;
    assert s[..|name|] == name && s[|name|..] == rest;
  }

  lemma ReadShown(o: Operand, rest: string)
    requires Readable(o) && (rest == "" || !IsAlnum(rest[0]))
    ensures ReadOperand(Show(o) + rest) == Some(Reading(o, rest))
  {
    hide Plain, IsIdent, ReadOperand, Quote;
    match o
    case Lit(text) => ReadLiteral(text, rest);
    case Var(name) => ReadName(name, rest);
  }

  /** Reading undoes printing. */
  lemma {:induction false} ReadPrinted(ops: seq<Operand>, sep: string)
    requires ops != [] && forall o :: o in ops ==> Readable(o)
    requires sep != "" && !IsAlnum(sep[0])
    ensures ReadList(Join(ShowAll(ops), sep), sep) == Some(ops)
  {
    hide Readable, ReadOperand, Show, IsAlnum;
    if |ops| == 1 {
      assert Show(ops[0]) + "" == Show(ops[0]);
      ReadShown(ops[0], "");
      assert ops == [ops[0]];
    } else {
      var tail := Join(ShowAll(ops[1..]), sep);
      assert ShowAll(ops)[1..] == ShowAll(ops[1..]);
      assert Join(ShowAll(ops), sep) == Show(ops[0]) + (sep + tail);
      ReadShown(ops[0], sep + tail);
      ReadPrinted(ops[1..], sep);
      assert (sep + tail)[|sep|..] == tail;
      assert ops == [ops[0]] + ops[1..];
    }
  }

  /** The values of the operands; None when a name is not declared. */
  function Values(ops: seq<Operand>, env: map<string, string>): Option<seq<string>> {
    if ops == [] then Some([])
    else
      match Values(ops[1..], env)
      case None => None
      case Some(rest) =>
        match ops[0]
        case Lit(text) => Some([text] + rest)
        case Var(name) => if name in env then Some([env[name]] + rest) else None
  }

  /** Resource.Path: the parts behind the base, all joined with slashes. */
  function Path(base: string, parts: seq<string>): string {
    if parts == [] then base else base + "/" + Join(parts, "/")
  }

  const PATH_CALL := "r.Path("

  function Eval(code: string, base: string, env: map<string, string>): Option<string> {
    if code == "r.Base" then Some(base)
    else if PATH_CALL <= code && HasSuffix(code, ")") && |code| > |PATH_CALL| then
      match ReadList(code[|PATH_CALL|..|code| - 1], ", ")
      case None => None
      case Some(ops) =>
        match Values(ops, env)
        case None => None
        case Some(parts) => Some(Path(base, parts))
    else
      match ReadList(code, " + ")
      case None => None
      case Some(ops) =>
        match Values(ops, env)
        case None => None
        case Some(parts) => Some(Join(parts, ""))
  }

  lemma EvalCall(ops: seq<Operand>, base: string, env: map<string, string>)
    requires ops != [] && (forall o :: o in ops ==> Readable(o)) && Values(ops, env).Some?
    ensures Eval(PATH_CALL + Join(ShowAll(ops), ", ") + ")", base, env) == Some(Path(base, Values(ops, env).value))
  {
    var inner := Join(ShowAll(ops), ", ");
    var code := PATH_CALL + inner + ")";
    hide ReadList, Values, Readable, Path;
    ReadPrinted(ops, ", ");
    assert code[|PATH_CALL|..|code| - 1] == inner;
    assert code[2] == 'P';
  }

  lemma EvalConcat(ops: seq<Operand>, base: string, env: map<string, string>)
    requires ops != [] && (forall o :: o in ops ==> Readable(o)) && Values(ops, env).Some?
    requires ops[0].Lit?
    ensures Eval(Join(ShowAll(ops), " + "), base, env) == Some(Join(Values(ops, env).value, ""))
  {
    var code := Join(ShowAll(ops), " + ");
    assert code[0] == '"';
    hide ReadList, Values, Readable, Path, ShowAll;
    ReadPrinted(ops, " + ");
  }
}
