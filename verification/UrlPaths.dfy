/**
 * The request path of a generated REST method: the segments of the operation's path template are
 * turned into arguments and literals, and the emitted expression is meant to evaluate to the
 * template with its parameters replaced by the arguments.
 */
module UrlPaths {
  import opened Text
  import opened Fresh
  import opened UrlCode

  function TrimLeftSlashes(s: string): string {
    if s != "" && s[0] == '/' then TrimLeftSlashes(s[1..]) else s
  }

  function TrimRightSlashes(s: string): string {
    if s != "" && s[|s| - 1] == '/' then TrimRightSlashes(s[..|s| - 1]) else s
  }

  function TrimSlash(s: string): string {
    if s != "" && s[0] == '/' then s[1..] else s
  }

  function JoinPath(a: string, b: string): string {
    if b == "" then a else TrimRightSlashes(a) + "/" + TrimLeftSlashes(b)
  }

  function SplitSegs(s: string): seq<string> {
    if s == "" then [] else Split(s, '/')
  }

  datatype Tail = Tail(segs: seq<string>, sibling: bool)

  function RelativeTail(coll: string, serverPath: string, opPath: string): Tail {
    var full := JoinPath(serverPath, coll);
    var abs := JoinPath(serverPath, opPath);
    if coll != "" && full + "/" <= abs then Tail(SplitSegs(abs[|full| + 1..]), false)
    else if coll != "" && abs == full then Tail([], false)
    else Tail(SplitSegs(TrimSlash(abs)), true)
  }

  /** The Go argument of a path parameter. */
  function ArgFor(brace: string): (r: string)
    ensures IsIdent(r)
  {
    match brace
    case "queue_id" => "queueID"
    case "NumberGroupId" => "groupID"
    case "documentId" => "documentID"
    case "chunkId" => "chunkID"
    case "mfa_request_id" => "requestID"
    case "e164_number" => "e164"
    case "fabric_subscriber_id" => "subscriberID"
    case "token_id" => "tokenID"
    case _ => "id"
  }

  predicate IsParam(seg: string) {
    |seg| >= 2 && seg[0] == '{' && seg[|seg| - 1] == '}'
  }

  function SetOf(names: seq<string>): set<string> {
    set n | n in names
  }

  function Inside(seg: string): string
    requires IsParam(seg)
  {
    seg[1..|seg| - 1]
  }

  function ArgName(seg: string, taken: seq<string>): string
    requires IsParam(seg)
  {
    Free(ArgFor(Inside(seg)), SetOf(taken), '2')
  }

  /** The arguments for the parameters among `segs`, with `taken` already in the signature. */
  function ArgNames(segs: seq<string>, taken: seq<string>): seq<string>
    decreases segs
  {
    if segs == [] then []
    else if IsParam(segs[0]) then
      var arg := ArgName(segs[0], taken);
      [arg] + ArgNames(segs[1..], taken + [arg])
    else ArgNames(segs[1..], taken)
  }

  /** The operands a list of segments stands for. */
  function Operands(segs: seq<string>, names: seq<string>): seq<Operand>
    decreases segs
  {
    if segs == [] then []
    else if IsParam(segs[0]) && names != [] then [Var(names[0])] + Operands(segs[1..], names[1..])
    else [Lit(segs[0])] + Operands(segs[1..], names)
  }

  /** What the absolute form writes between its outer quotes. */
  function Written(t: string, names: seq<string>): string
    requires Closed(t)
  {
    if t == "" then ""
    else if t[0] == '{' then
      "\"" + (if names == [] then "" else " + " + names[0] + " + ") + "\""
      + Written(t[IndexOf(t, '}').value + 1..], if names == [] then [] else names[1..])
    else [t[0]] + Written(t[1..], names)
  }

  /** Every opening brace is closed further on. */
  predicate Closed(t: string) {
    t != "" ==>
      if t[0] == '{' then '}' in t && Closed(t[IndexOf(t, '}').value + 1..]) else Closed(t[1..])
  }

  // ---- the builder loop, step by step ----

  /** The variables of the loop. */
  datatype Builder = Builder(out: string, ai: nat, i: nat)

  /** One round of the loop; a search without a result counts as -1. */
  function Step(full: string, names: seq<string>, b: Builder): Builder
    requires b.i < |full|
  {
    if full[b.i] == '{' then
      var j := match IndexOf(full[b.i..], '}') case None => -1 case Some(at) => at;
      var arg := if b.ai < |names| then " + " + names[b.ai] + " + " else "";
      Builder(b.out + "\"" + arg + "\"", b.ai + 1, b.i + j + 1)
    else Builder(b.out + [full[b.i]], b.ai, b.i + 1)
  }

  /** The variables after `n` rounds, or at the end if that comes first. */
  function Run(full: string, names: seq<string>, n: nat): (b: Builder)
    ensures b.i <= |full|
  {
    if n == 0 then Builder("\"", 0, 0)
    else
      var b := Run(full, names, n - 1);
      if b.i < |full| then Step(full, names, b) else b
  }

  /** At an unclosed brace the loop writes a pair of quotes and stays where it is, every time. */
  lemma {:induction false} StaysAtBrace(full: string, names: seq<string>, n: nat, more: nat)
    requires var b := Run(full, names, n); b.i < |full| && full[b.i] == '{' && '}' !in full[b.i..]
    ensures Run(full, names, n + more).i == Run(full, names, n).i
    ensures |Run(full, names, n + more).out| >= |Run(full, names, n).out| + 2 * more
    decreases more
  {
    hide Step;
    if more > 0 {
      StaysAtBrace(full, names, n, more - 1);
      StepAtBrace(full, names, Run(full, names, n + more - 1));
    }
  }

  lemma StepAtBrace(full: string, names: seq<string>, b: Builder)
    requires b.i < |full| && full[b.i] == '{' && '}' !in full[b.i..]
    ensures Step(full, names, b).i == b.i && |Step(full, names, b).out| >= |b.out| + 2
  {
  }

  lemma StepKeepsClosed(full: string, names: seq<string>, b: Builder)
    requires b.i < |full|
    ensures var next := Step(full, names, b);
            && next.i <= |full| && (Closed(full[next.i..]) <==> Closed(full[b.i..]))
            && (Closed(full[b.i..]) ==> next.i > b.i)
  {
    var t := full[b.i..];
    if t[0] == '{' && '}' in t {
      var j := IndexOf(t, '}').value;
      assert t[j + 1..] == full[b.i + j + 1..];
    } else {
      assert t[1..] == full[b.i + 1..];
    }
  }

  lemma {:induction false} RunKeepsClosed(full: string, names: seq<string>, n: nat)
    ensures Closed(full[Run(full, names, n).i..]) <==> Closed(full)
    ensures Closed(full) && n <= |full| ==> Run(full, names, n).i >= n
  {
    hide Closed, Step;
    if n == 0 {
      assert full[0..] == full;
    } else {
      RunKeepsClosed(full, names, n - 1);
      var b := Run(full, names, n - 1);
      if b.i < |full| {
        StepKeepsClosed(full, names, b);
      }
    }
  }

  /** The loop ends exactly if every opening brace is closed, whatever the arguments are. */
  lemma EndsExactly(full: string, names: seq<string>)
    ensures (exists n :: Run(full, names, n).i == |full|) <==> Closed(full)
  {
    if Closed(full) {
      RunKeepsClosed(full, names, |full|);
    }
    if n :| Run(full, names, n).i == |full| {
      RunKeepsClosed(full, names, n);
      assert full[|full|..] == "";
    }
  }

  const EMPTY_TAIL := " + \"\""

  function Absolute(full: string, names: seq<string>): string
    requires Closed(full)
  {
    TrimSuffix("\"" + Written(full, names) + "\"", EMPTY_TAIL)
  }

  lemma WriteChar(out: string, t: string, names: seq<string>)
    requires Closed(t) && t != "" && t[0] != '{'
    ensures Closed(t[1..]) && out + [t[0]] + Written(t[1..], names) == out + Written(t, names)
  {
    assert out + [t[0]] + Written(t[1..], names) == out + ([t[0]] + Written(t[1..], names));
  }

  /** The names still to be written after the first `ai`. */
  function From(names: seq<string>, ai: nat): seq<string> {
    if ai < |names| then names[ai..] else []
  }

  lemma WriteParam(out: string, t: string, names: seq<string>, ai: nat, more: string)
    requires Closed(t) && t != "" && t[0] == '{'
    requires more == if ai < |names| then out + "\"" + (" + " + names[ai] + " + ") else out + "\""
    ensures '}' in t
    ensures var left := t[IndexOf(t, '}').value + 1..];
            && Closed(left)
            && more + "\"" + Written(left, From(names, ai + 1)) == out + Written(t, From(names, ai))
  {
    ParamClosed(t);
    hide Closed, Written, From, IndexOf;
    var left := t[IndexOf(t, '}').value + 1..];
    WrittenParam(t, From(names, ai));
    var w := Written(left, From(names, ai + 1));
    FromNext(names, ai);
    hide *;
    if ai < |names| {
      SpellParam(out, " + " + names[ai] + " + ", w);
    } else {
      assert out + "\"" + "\"" + w == out + ("\"" + "" + "\"" + w);
    }
  }

  lemma FromNext(names: seq<string>, ai: nat)
    ensures ai < |names| ==> From(names, ai) != [] && From(names, ai)[0] == names[ai]
                             && From(names, ai)[1..] == From(names, ai + 1)
    ensures ai >= |names| ==> From(names, ai) == [] && From(names, ai + 1) == []
  {
  }

  lemma WrittenParam(t: string, names: seq<string>)
    requires Closed(t) && t != "" && t[0] == '{'
    ensures '}' in t
    ensures var left := t[IndexOf(t, '}').value + 1..];
            && Closed(left)
            && Written(t, names) == "\"" + (if names == [] then "" else " + " + names[0] + " + ") + "\""
                                    + Written(left, if names == [] then [] else names[1..])
  {
    hide IndexOf;
  }

  lemma SpellParam(out: string, arg: string, w: string)
    ensures out + "\"" + arg + "\"" + w == out + ("\"" + arg + "\"" + w)
  {
  }

  lemma RunStart(full: string, names: seq<string>)
    ensures Run(full, names, 0) == Builder("\"", 0, 0)
  {
  }

  /** One more round. */
  lemma RunOn(full: string, names: seq<string>, n: nat)
    requires Run(full, names, n).i < |full|
    ensures Run(full, names, n + 1) == Step(full, names, Run(full, names, n))
  {
  }

  /** The builder loop of the absolute form, which runs forever on an unclosed brace. */
  method AbsolutePath(serverPath: string, opPath: string, idArgs: seq<string>) returns (code: string)
    requires Closed(JoinPath(serverPath, TrimSlash(opPath)))
    ensures var full := JoinPath(serverPath, TrimSlash(opPath));
            exists n :: var b := Run(full, idArgs, n);
                        b.i == |full| && code == TrimSuffix(b.out + "\"", EMPTY_TAIL)
    ensures code == Absolute(JoinPath(serverPath, TrimSlash(opPath)), idArgs)
  {
    hide Closed, Written, JoinPath, TrimSlash, TrimSuffix, From, Run;
    var full := JoinPath(serverPath, TrimSlash(opPath));
    var out, ai, i := "\"", 0, 0;
    ghost var left, target := full, "\"" + Written(full, idArgs);
    FromStart(idArgs);
    ghost var n := 0;
    RunStart(full, idArgs);
    while i < |full|
      invariant i <= |full| && left == full[i..] && Closed(left)
      invariant out + Written(left, From(idArgs, ai)) == target
      invariant Run(full, idArgs, n) == Builder(out, ai, i)
    {
      RunOn(full, idArgs, n);
      n := n + 1;
      if full[i] == '{' {
        ghost var was := out;
        ParamClosed(left);
        var j := IndexOf(full[i..], '}').value;
        out := out + "\"";
        if ai < |idArgs| {
          out := out + (" + " + idArgs[ai] + " + ");
        }
        WriteParam(was, left, idArgs, ai, out);
        ai := ai + 1;
        out := out + "\"";
        i := i + j + 1;
        left := left[j + 1..];
      } else {
        WriteChar(out, left, From(idArgs, ai));
        out := out + [full[i]];
        i := i + 1;
        left := left[1..];
      }
    }
    NothingWritten(From(idArgs, ai));
    assert out + "" == out;
    out := out + "\"";
    code := TrimSuffix(out, EMPTY_TAIL);
  }

  lemma ParamClosed(t: string)
    requires Closed(t) && t != "" && t[0] == '{'
    ensures '}' in t
  {
  }

  lemma FromStart(names: seq<string>)
    ensures From(names, 0) == names
  {
  }

  lemma NothingWritten(names: seq<string>)
    ensures Closed("") && Written("", names) == ""
  {
  }

  /** The emitted path expression. */
  function PathCode(coll: string, serverPath: string, opPath: string): string
    requires RelativeTail(coll, serverPath, opPath).sibling ==> Closed(JoinPath(serverPath, TrimSlash(opPath)))
  {
    var tail := RelativeTail(coll, serverPath, opPath);
    var names := ArgNames(tail.segs, []);
    if tail.sibling then Absolute(JoinPath(serverPath, TrimSlash(opPath)), names)
    else if tail.segs == [] then "r.Base"
    else PATH_CALL + Join(ShowAll(Operands(tail.segs, names)), ", ") + ")"
  }

  /** The loop's next step on a segment that is a parameter. */
  lemma EmitParam(t: seq<string>, taken: seq<string>, shown: seq<string>)
    requires t != [] && IsParam(t[0])
    ensures var arg := ArgName(t[0], taken);
            && taken + [arg] + ArgNames(t[1..], taken + [arg]) == taken + ArgNames(t, taken)
            && shown + [arg] + ShowAll(Operands(t[1..], ArgNames(t[1..], taken + [arg])))
               == shown + ShowAll(Operands(t, ArgNames(t, taken)))
  {
    hide Free, ArgName;
    var arg := ArgName(t[0], taken);
    var rest := ArgNames(t[1..], taken + [arg]);
    assert ArgNames(t, taken) == [arg] + rest;
    assert ([arg] + rest)[1..] == rest;
    var ops := Operands(t[1..], rest);
    assert Operands(t, [arg] + rest) == [Var(arg)] + ops;
    assert ([Var(arg)] + ops)[1..] == ops;
    assert ShowAll([Var(arg)] + ops) == [arg] + ShowAll(ops);
    assert shown + [arg] + ShowAll(ops) == shown + ([arg] + ShowAll(ops));
  }

  /** The loop's next step on any other segment. */
  lemma EmitLiteral(t: seq<string>, taken: seq<string>, shown: seq<string>)
    requires t != [] && !IsParam(t[0])
    ensures taken + ArgNames(t[1..], taken) == taken + ArgNames(t, taken)
    ensures shown + [Quote(t[0])] + ShowAll(Operands(t[1..], ArgNames(t[1..], taken)))
            == shown + ShowAll(Operands(t, ArgNames(t, taken)))
  {
    hide Quote, ArgName;
    var ops := Operands(t[1..], ArgNames(t[1..], taken));
    assert ([Lit(t[0])] + ops)[1..] == ops;
    assert ShowAll([Lit(t[0])] + ops) == [Quote(t[0])] + ShowAll(ops);
    assert shown + [Quote(t[0])] + ShowAll(ops) == shown + ([Quote(t[0])] + ShowAll(ops));
  }

  lemma NothingEmitted(names: seq<string>)
    ensures ArgNames([], names) == [] && ShowAll(Operands([], [])) == []
    ensures ShowAll([]) == []
  {
  }

  lemma {:induction false} OperandCount(segs: seq<string>, names: seq<string>)
    ensures |ShowAll(Operands(segs, names))| == |segs|
    decreases segs
  {
    if segs != [] {
      OperandCount(segs[1..], names);
      if names != [] {
        OperandCount(segs[1..], names[1..]);
      }
      var ops := Operands(segs, names);
      assert ops[1..] == Operands(segs[1..], if IsParam(segs[0]) && names != [] then names[1..] else names);
    }
  }

  /** The path part of emitMethod. */
  method EmitPath(coll: string, serverPath: string, opPath: string) returns (idArgs: seq<string>, pathCode: string)
    requires RelativeTail(coll, serverPath, opPath).sibling ==> Closed(JoinPath(serverPath, TrimSlash(opPath)))
    ensures idArgs == ArgNames(RelativeTail(coll, serverPath, opPath).segs, [])
    ensures pathCode == PathCode(coll, serverPath, opPath)
  {
    hide ArgNames, Operands, ShowAll, RelativeTail, Quote, IsParam, Closed, Free, ArgFor, JoinPath, TrimSlash;
    var tail := RelativeTail(coll, serverPath, opPath);
    var segs := tail.segs;
    var pathExpr: seq<string> := [];
    idArgs := [];
    ghost var names := ArgNames(segs, []);
    assert segs[0..] == segs;
    for i := 0 to |segs|
      invariant idArgs + ArgNames(segs[i..], idArgs) == names
      invariant pathExpr + ShowAll(Operands(segs[i..], ArgNames(segs[i..], idArgs))) == ShowAll(Operands(segs, names))
    {
      var s := segs[i];
      assert segs[i..][0] == s && segs[i..][1..] == segs[i + 1..];
      if IsParam(s) {
        EmitParam(segs[i..], idArgs, pathExpr);
        var arg := Lengthen(ArgFor(Inside(s)), SetOf(idArgs), '2');
        idArgs := idArgs + [arg];
        pathExpr := pathExpr + [arg];
      } else {
        EmitLiteral(segs[i..], idArgs, pathExpr);
        pathExpr := pathExpr + [Quote(s)];
      }
    }
    assert segs[|segs|..] == [];
    NothingEmitted(idArgs);
    OperandCount(segs, names);
    assert idArgs + [] == idArgs && pathExpr + [] == pathExpr;
    if tail.sibling {
      pathCode := AbsolutePath(serverPath, opPath, idArgs);
    } else if |pathExpr| == 0 {
      pathCode := "r.Base";
    } else {
      pathCode := PATH_CALL + Join(pathExpr, ", ") + ")";
    }
  }
}
