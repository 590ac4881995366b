/** The canonical type language, and the scanner that compiles printed Go types into it. */
module Translator {
  import opened Text

  /** The lookup tables of the enumerator. */
  datatype Tables = Tables(
    closedSets: map<string, string>,   // Go spelling -> canonical union
    aliases: map<string, string>,      // Go spelling -> canonical type
    classes: map<string, string>,      // pkg.Name -> module.Class
    classesByName: map<string, string>,  // Name -> module.Class
    genModules: map<string, string>,   // generated wire type -> module
    genLeaves: map<string, string>)    // exported leaf -> canonical leaf

  const HEADER := "optional<dict<string,string>>"

  predicate StartsUpper(t: string) {
    t != "" && 'A' <= t[0] <= 'Z'
  }

  function GenRef(t: string, tables: Tables): string
    requires t in tables.genModules
  {
    "class:" + tables.genModules[t] + "." + (if t in tables.genLeaves then tables.genLeaves[t] else t)
  }

  /** The three kinds of bracket scan the translator performs. */
  datatype Scan = Square | Round | Commas

  predicate Opens(k: Scan, c: char) {
    match k
    case Square => c == '['
    case Round => c == '('
    case Commas => c == '(' || c == '[' || c == '<'
  }

  predicate Closes(k: Scan, c: char) {
    match k
    case Square => c == ']'
    case Round => c == ')'
    case Commas => c == ')' || c == ']' || c == '>'
  }

  /** Position of the bracket that closes a group already `depth` levels open inside. */
  function ClosingAt(k: Scan, s: string, depth: nat): (r: Option<nat>)
    ensures r.Some? ==> r.value < |s|
  {
    if s == "" then None
    else if Closes(k, s[0]) && depth == 0 then Some(0)
    else
      var d := if Opens(k, s[0]) then depth + 1 else if Closes(k, s[0]) then depth - 1 else depth;
      match ClosingAt(k, s[1..], d)
      case None => None
      case Some(i) => Some(i + 1)
  }

  function SplitFrom(s: string, buf: string, depth: int): (parts: seq<string>)
    ensures forall p :: p in parts ==> |p| <= |buf| + |s|
  {
    if s == "" then if buf == "" then [] else [buf]
    else
      var d := if Opens(Commas, s[0]) then depth + 1 else if Closes(Commas, s[0]) then depth - 1 else depth;
      if s[0] == ',' && d == 0 then [buf] + SplitFrom(s[1..], "", d)
      else SplitFrom(s[1..], buf + [s[0]], d)
  }

  /** splitTopLevelCommas, as the loop below computes it. */
  function SplitTopLevel(s: string): (parts: seq<string>)
    ensures forall p :: p in parts ==> |p| <= |s|
  {
    SplitFrom(s, "", 0)
  }

  method SplitTopLevelCommas(s: string) returns (out: seq<string>)
    ensures out == SplitTopLevel(s)
  {
    out := [];
    var buf := "";
    var depth := 0;
    for i := 0 to |s|
      invariant SplitTopLevel(s) == out + SplitFrom(s[i..], buf, depth)
    {
      assert s[i..][1..] == s[i + 1..];
      var ch := s[i];
      match ch {
        case '(' => depth := depth + 1;
        case '[' => depth := depth + 1;
        case '<' => depth := depth + 1;
        case ')' => depth := depth - 1;
        case ']' => depth := depth - 1;
        case '>' => depth := depth - 1;
        case _ =>
      }
      if ch == ',' && depth == 0 {
        out := out + [buf];
        buf := "";
        continue;
      }
      buf := buf + [ch];
    }
    if |buf| > 0 {
      out := out + [buf];
    }
  }

  /** The bracket loop of the map case: 0 stands for "no closing bracket". */
  method MapKeyEnd(t: string) returns (split: nat)
    requires "map[" <= t
    ensures split == match ClosingAt(Square, t[4..], 0) case None => 0 case Some(i) => i + 4
  {
    var depth: nat := 0;
    split := 0;
    var i := 4;
    while i < |t|
      invariant 4 <= i <= |t| && split == 0
      invariant ClosingAt(Square, t[4..], 0) ==
                match ClosingAt(Square, t[i..], depth) case None => None case Some(j) => Some(j + i - 4)
    {
      assert t[i..][1..] == t[i + 1..];
      var ch := t[i];
      if ch == '[' {
        depth := depth + 1;
      } else if ch == ']' {
        if depth == 0 {
          split := i;
          break;
        }
        depth := depth - 1;
      }
      i := i + 1;
    }
  }

  /** The paren loop of translateFunc over the text after "func(": -1 when it never closes. */
  method FuncArgsEnd(rest: string) returns (argEnd: int)
    ensures argEnd == match ClosingAt(Round, rest, 0) case None => -1 case Some(i) => i
  {
    var depth: nat := 1;
    for i := 0 to |rest|
      invariant depth >= 1
      invariant ClosingAt(Round, rest, 0) ==
                match ClosingAt(Round, rest[i..], depth - 1) case None => None case Some(j) => Some(j + i)
    {
      assert rest[i..][1..] == rest[i + 1..];
      if rest[i] == '(' {
        depth := depth + 1;
      } else if rest[i] == ')' {
        depth := depth - 1;
        if depth == 0 {
          return i;
        }
      }
    }
    return -1;
  }

  /** translateType */
  function TranslateType(raw: string, tables: Tables): Result<string>
    decreases |raw|, 1
  {
    var t := Trim(raw);
    if t == "" then Ok("void")
    else if t in tables.closedSets then Ok(tables.closedSets[t])
    else if t == "http.Header" || t == "net/http.Header" then Ok(HEADER)
    else if t == "context.Context" then Ok("optional<float>")
    else if "*" <= t then
      var inner :- TranslateType(t[1..], tables);
      Ok(if "class:" <= inner then inner else "optional<" + inner + ">")
    else if "..." <= t then
      var inner :- TranslateType(t[3..], tables);
      Ok("list<" + inner + ">")
    else if "[]" <= t then
      if t == "[]byte" then Ok("bytes")
      else
        var inner :- TranslateType(t[2..], tables);
        Ok("list<" + inner + ">")
    else if "chan " <= t then Err("chan types have no canonical equivalent: " + t)
    else if "map[" <= t then TranslateMap(t, tables)
    else if t == "interface{}" || t == "any" || "interface{" <= t then Ok("any")
    else if "tuple(" <= t && HasSuffix(t, ")") then TranslateTuple(t, tables)
    else if "func(" <= t then TranslateFunc(t, tables)
    else if t in tables.aliases then Ok(tables.aliases[t])
    else if t in tables.genModules && !StartsUpper(t) then Ok(GenRef(t, tables))
    else
      var bracket := IndexOf(t, '[');
      if bracket.Some? && bracket.value > 0 && HasSuffix(t, "]") then TranslateType(t[..bracket.value], tables)
      else SelectorOrBare(t, tables)
  }

  /** The last two cases of translateType: a selector, then a bare identifier. */
  function SelectorOrBare(t: string, tables: Tables): Result<string> {
    var dot := LastIndexOf(t, '.');
    if dot.Some? && dot.value > 0 then
      var short := t[dot.value + 1..];
      if short in tables.aliases then Ok(tables.aliases[short])
      else if t in tables.classes then Ok("class:" + tables.classes[t])
      else if StartsUpper(short) then Ok("class:" + t)
      else Bare(t, tables)
    else Bare(t, tables)
  }

  function Bare(t: string, tables: Tables): Result<string> {
    if !StartsUpper(t) then Err("unknown type: " + t)
    else if t in tables.classesByName then Ok("class:" + tables.classesByName[t])
    else if t in tables.genModules then Ok(GenRef(t, tables))
    else Ok("class:" + t)
  }

  /** The map case of translateType. */
  function TranslateMap(t: string, tables: Tables): Result<string>
    requires "map[" <= t
    decreases |t|, 0
  {
    match ClosingAt(Square, t[4..], 0)
    case None => Err("malformed map type: " + t)
    case Some(i) =>
      var k :- TranslateType(t[4..i + 4], tables);
      var v :- TranslateType(t[i + 5..], tables);
      Ok("dict<" + k + "," + v + ">")
  }

  /** The case of a multi-value return. */
  function TranslateTuple(t: string, tables: Tables): Result<string>
    requires "tuple(" <= t && HasSuffix(t, ")")
    decreases |t|, 0
  {
    assert t[5] == '(' && t[|t| - 1..][0] == ')';
    var parts :- TranslateParts(SplitTopLevel(t[6..|t| - 1]), |t| - 1, tables);
    Ok("tuple<" + Join(parts, ",") + ">")
  }

  /** translateType over a split list, stopping at the first failure. */
  function TranslateParts(parts: seq<string>, bound: nat, tables: Tables): Result<seq<string>>
    requires forall p :: p in parts ==> |p| <= bound
    decreases bound, 2, |parts|
  {
    if parts == [] then Ok([])
    else
      assert |Trim(parts[0])| <= |parts[0]| <= bound;
      var first :- TranslateType(Trim(parts[0]), tables);
      var rest :- TranslateParts(parts[1..], bound, tables);
      Ok([first] + rest)
  }

  /** translateFunc */
  function TranslateFunc(t: string, tables: Tables): Result<string>
    decreases |t|, 0
  {
    if !("func(" <= t) then Err("not a func type: " + t)
    else
      var rest := t[5..];
      match ClosingAt(Round, rest, 0)
      case None => Err("unbalanced func args: " + t)
      case Some(argEnd) =>
        var resultPart := TrimSuffix(TrimPrefix(Trim(rest[argEnd + 1..]), "("), ")");
        TranslateCallable(rest[..argEnd], resultPart, |t| - 1, tables)
  }

  /** The two lists of a func type; only the first result is kept. */
  function TranslateCallable(argList: string, resultPart: string, bound: nat, tables: Tables): Result<string>
    requires |argList| <= bound && |resultPart| <= bound
    decreases bound, 3
  {
    var args :- if argList == "" then Ok([]) else TranslateParts(SplitTopLevel(argList), bound, tables);
    var results := SplitTopLevel(resultPart);
    var ret :-
      if resultPart == "" || results == [] then Ok("void")
      else
        assert results[0] in results;
        TranslateType(Trim(results[0]), tables);
    Ok("callable<list<" + Join(args, ",") + ">," + ret + ">")
  }
}
