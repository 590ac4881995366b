/**
 * The emitted path expression evaluates to the instantiated path template, with one family of
 * exceptions: a template that ends in a slash right behind the collection, or right behind the
 * server path, loses that slash.
 */
module UrlMeaning {
  import opened Text
  import opened Fresh
  import opened UrlCode
  import opened UrlPaths

  /** The template with its parameters replaced, in order. */
  function Inst(t: string, vals: seq<string>): string
    requires Closed(t)
  {
    if t == "" then ""
    else if t[0] == '{' then
      var left := t[IndexOf(t, '}').value + 1..];
      if vals == [] then Inst(left, []) else vals[0] + Inst(left, vals[1..])
    else [t[0]] + Inst(t[1..], vals)
  }

  /** The number of parameters of a template. */
  function Params(t: string): nat
    requires Closed(t)
  {
    if t == "" then 0
    else if t[0] == '{' then 1 + Params(t[IndexOf(t, '}').value + 1..])
    else Params(t[1..])
  }

  predicate BraceFree(s: string) {
    '{' !in s && '}' !in s
  }

  /** A name in braces. */
  ghost predicate Braced(seg: string) {
    exists name :: BraceFree(name) && seg == "{" + name + "}"
  }

  ghost predicate WholeSegment(seg: string) {
    BraceFree(seg) || Braced(seg)
  }

  ghost predicate AllWhole(segs: seq<string>) {
    forall seg :: seg in segs ==> WholeSegment(seg)
  }

  /** Braces occur only around whole segments. */
  ghost predicate Whole(t: string) {
    AllWhole(Split(t, '/'))
  }

  /** A path of segments that have no braces, or are a name in braces, is one of those the theorems are about. */
  lemma PathsAreWhole(segs: seq<string>)
    requires segs != [] && forall i :: 0 <= i < |segs| ==> '/' !in segs[i]
    requires forall i :: 0 <= i < |segs| ==>
               || ('{' !in segs[i] && '}' !in segs[i])
               || exists name :: '{' !in name && '}' !in name && segs[i] == "{" + name + "}"
    ensures Whole(Join(segs, "/")) && Split(Join(segs, "/"), '/') == segs
  {
    SplitJoin(segs, '/');
    forall i | 0 <= i < |segs| ensures WholeSegment(segs[i]) {
      if '{' in segs[i] || '}' in segs[i] {
        var name :| '{' !in name && '}' !in name && segs[i] == "{" + name + "}";
        assert BraceFree(name) && Braced(segs[i]);
      }
    }
  }

  /** The generator takes the braced segments for parameters, and what is in the braces for their names. */
  lemma BracedIsParam(seg: string)
    requires WholeSegment(seg)
    ensures IsParam(seg) <==> Braced(seg)
    ensures forall name :: seg == "{" + name + "}" ==> IsParam(seg) && Inside(seg) == name && BraceFree(name)
  {
    forall name | seg == "{" + name + "}"
      ensures IsParam(seg) && Inside(seg) == name && BraceFree(name)
    {
      BracesIn(name);
      if other :| BraceFree(other) && seg == "{" + other + "}" {
        assert seg[1..|seg| - 1] == other && seg[1..|seg| - 1] == name;
      }
    }
  }

  lemma BracesIn(name: string)
    ensures var seg := "{" + name + "}";
            !BraceFree(seg) && IsParam(seg) && Inside(seg) == name && seg[1..|seg| - 1] == name
  {
    var seg := "{" + name + "}";
    assert seg[0] == '{' && seg[0] in seg;
  }

  /** A parameter in front of a template takes the first value, a text without braces stands for itself. */
  lemma InstParam(p: string, name: string, t: string, v: string, vals: seq<string>)
    requires BraceFree(p) && BraceFree(name) && Closed(t)
    ensures Closed(p + ("{" + name + "}" + t))
    ensures Inst(p + ("{" + name + "}" + t), [v] + vals) == p + (v + Inst(t, vals))
  {
    hide Inst, Closed, Params;
    BracesIn(name);
    ParamFront("{" + name + "}", t, [v] + vals);
    assert ([v] + vals)[1..] == vals;
    LiteralFront(p, "{" + name + "}" + t, [v] + vals);
  }

  lemma {:induction false} LiteralFront(p: string, t: string, vals: seq<string>)
    requires BraceFree(p) && Closed(t)
    ensures Closed(p + t) && Inst(p + t, vals) == p + Inst(t, vals) && Params(p + t) == Params(t)
  {
    hide Closed, Inst, Params;
    if p == "" {
      assert p + t == t && p + Inst(t, vals) == Inst(t, vals);
    } else {
      var c, q := p[0], p[1..];
      BraceFreeStep(p);
      LiteralFront(q, t, vals);
      CharFront(c, q + t, vals);
      Assoc([c], q, t);
      Assoc([c], q, Inst(t, vals));
    }
  }

  lemma BraceFreeStep(p: string)
    requires BraceFree(p) && p != ""
    ensures BraceFree(p[1..]) && p[0] != '{' && p == [p[0]] + p[1..]
  {
  }

  lemma CharFront(c: char, t: string, vals: seq<string>)
    requires c != '{' && Closed(t)
    ensures Closed([c] + t) && Inst([c] + t, vals) == [c] + Inst(t, vals) && Params([c] + t) == Params(t)
  {
    assert ([c] + t)[1..] == t;
  }

  lemma Literal(p: string, vals: seq<string>)
    requires BraceFree(p)
    ensures Closed(p) && Inst(p, vals) == p && Params(p) == 0
  {
    assert p + "" == p;
    LiteralFront(p, "", vals);
  }

  lemma ParamFront(seg: string, t: string, vals: seq<string>)
    requires IsParam(seg) && BraceFree(Inside(seg)) && Closed(t) && vals != []
    ensures Closed(seg + t) && Params(seg + t) == 1 + Params(t)
    ensures Inst(seg + t, vals) == vals[0] + Inst(t, vals[1..])
  {
    var name := Inside(seg);
    assert seg == ['{'] + name + ['}'];
    assert seg + t == (['{'] + name) + ['}'] + t;
    assert '}' !in ['{'] + name;
    IndexOfAfter(['{'] + name, '}', t);
    assert (seg + t)[|name| + 2..] == t;
  }

  lemma {:induction false} BracesConcat(a: string, b: string)
    ensures multiset(a + b)['{'] == multiset(a)['{'] + multiset(b)['{']
  {
  }

  /** A template has as many parameters as opening braces. */
  lemma {:induction false} ParamsAreBraces(segs: seq<string>)
    requires AllWhole(segs)
    ensures multiset(Join(segs, "/"))['{'] == Count(segs)
    decreases segs
  {
    hide AllWhole, WholeSegment, IsParam;
    if segs != [] {
      AllWholeRest(segs);
      var seg, rest := segs[0], segs[1..];
      ParamsAreBraces(rest);
      BracesOfSegment(seg);
      if rest != [] {
        var t := Join(rest, "/");
        assert Join(segs, "/") == seg + ("/" + t);
        BracesConcat(seg, "/" + t);
        BracesConcat("/", t);
      }
    }
  }

  lemma BracesOfSegment(seg: string)
    requires WholeSegment(seg)
    ensures multiset(seg)['{'] == if IsParam(seg) then 1 else 0
  {
    BracedIsParam(seg);
    if IsParam(seg) {
      var name :| BraceFree(name) && seg == "{" + name + "}";
      BracesConcat("{" + name, "}");
      BracesConcat("{", name);
    }
  }

  function Count(segs: seq<string>): nat {
    if segs == [] then 0 else (if IsParam(segs[0]) then 1 else 0) + Count(segs[1..])
  }

  /** The segments with the parameters replaced. */
  function Filled(segs: seq<string>, vals: seq<string>): (r: seq<string>)
    ensures |r| == |segs|
  {
    if segs == [] then []
    else if IsParam(segs[0]) && vals != [] then [vals[0]] + Filled(segs[1..], vals[1..])
    else [segs[0]] + Filled(segs[1..], vals)
  }

  lemma AllWholeRest(segs: seq<string>)
    requires segs != [] && AllWhole(segs)
    ensures AllWhole(segs[1..]) && WholeSegment(segs[0])
  {
    assert segs[0] in segs;
    assert forall x :: x in segs[1..] ==> x in segs;
  }

  /** One segment in front of the rest of a template. */
  lemma SegmentFront(seg: string, t: string, vals: seq<string>)
    requires WholeSegment(seg) && Closed(t) && (IsParam(seg) ==> vals != [])
    ensures Closed(seg + t) && Params(seg + t) == (if IsParam(seg) then 1 else 0) + Params(t)
    ensures Inst(seg + t, vals) == if IsParam(seg) then vals[0] + Inst(t, vals[1..]) else seg + Inst(t, vals)
  {
    hide Inst, Params, Closed;
    BracedIsParam(seg);
    if IsParam(seg) {
      ParamFront(seg, t, vals);
    } else {
      LiteralFront(seg, t, vals);
    }
  }

  /** Instantiating a template is filling its segments. */
  lemma {:induction false} InstSegments(segs: seq<string>, vals: seq<string>)
    requires AllWhole(segs) && |vals| == Count(segs)
    ensures var t := Join(segs, "/");
            Closed(t) && Params(t) == Count(segs) && Inst(t, vals) == Join(Filled(segs, vals), "/")
    decreases segs
  {
    hide Inst, Params, Closed, AllWhole, WholeSegment, IsParam;
    if segs == [] {
      Literal("", vals);
    } else {
      AllWholeRest(segs);
      var seg, rest := segs[0], segs[1..];
      var left := if IsParam(seg) then vals[1..] else vals;
      InstSegments(rest, left);
      var filled := Filled(segs, vals);
      assert filled[1..] == Filled(rest, left);
      if rest == [] {
        Literal("", left);
        SegmentFront(seg, "", vals);
        assert seg + "" == seg;
        assert filled[0] + "" == filled[0];
      } else {
        var t := Join(rest, "/");
        assert Join(segs, "/") == seg + ("/" + t);
        LiteralFront("/", t, left);
        SegmentFront(seg, "/" + t, vals);
      }
    }
  }

  lemma InstWhole(t: string, vals: seq<string>)
    requires Whole(t) && |vals| == Count(Split(t, '/'))
    ensures Closed(t) && Params(t) == Count(Split(t, '/'))
    ensures Inst(t, vals) == Join(Filled(Split(t, '/'), vals), "/")
  {
    JoinSplit(t, '/');
    InstSegments(Split(t, '/'), vals);
  }

  lemma {:induction false} JoinConcat(a: seq<string>, b: seq<string>, sep: string)
    requires a != [] && b != []
    ensures Join(a + b, sep) == Join(a, sep) + sep + Join(b, sep)
  {
    if |a| == 1 {
      assert (a + b)[1..] == b;
    } else {
      JoinConcat(a[1..], b, sep);
      assert (a + b)[1..] == a[1..] + b;
      assert a[0] + sep + (Join(a[1..], sep) + sep + Join(b, sep)) == a[0] + sep + Join(a[1..], sep) + sep
          + Join(b, sep);
    }
  }

  lemma SplitConcat(a: string, b: string)
    ensures Split(a + "/" + b, '/') == Split(a, '/') + Split(b, '/')
  {
    var parts := Split(a, '/') + Split(b, '/');
    JoinSplit(a, '/');
    JoinSplit(b, '/');
    JoinConcat(Split(a, '/'), Split(b, '/'), "/");
    SplitJoin(parts, '/');
  }

  // ---- arguments ----

  predicate Binds(env: map<string, string>, names: seq<string>, vals: seq<string>) {
    |names| == |vals| && forall i :: 0 <= i < |names| ==> names[i] in env && env[names[i]] == vals[i]
  }

  /** The environment of a call with these arguments. */
  function Bind(names: seq<string>, vals: seq<string>): map<string, string>
    requires |names| == |vals|
  {
    if names == [] then map[] else Bind(names[1..], vals[1..])[names[0] := vals[0]]
  }

  predicate Distinct(names: seq<string>) {
    forall i, j :: 0 <= i < j < |names| ==> names[i] != names[j]
  }

  lemma {:induction false} BindBinds(names: seq<string>, vals: seq<string>)
    requires |names| == |vals| && Distinct(names)
    ensures Binds(Bind(names, vals), names, vals)
  {
    if names != [] {
      BindBinds(names[1..], vals[1..]);
      forall i | 0 < i < |names|
        ensures names[i] in Bind(names, vals) && Bind(names, vals)[names[i]] == vals[i]
      {
        assert names[i] == names[1..][i - 1] && vals[i] == vals[1..][i - 1];
      }
    }
  }

  lemma ArgNameIsNew(seg: string, taken: seq<string>)
    requires IsParam(seg)
    ensures ArgName(seg, taken) !in taken && IsIdent(ArgName(seg, taken))
  {
    var name := ArgFor(Inside(seg));
    FreeIsFree(name, SetOf(taken), '2');
    var r := ArgName(seg, taken);
    forall i | 0 <= i < |r| ensures IsAlnum(r[i]) {
      if i < |name| {
        assert name[i] in name && r[i] == name[i];
      }
    }
  }

  /** The arguments of one signature are as many as the parameters, all different, and Go identifiers. */
  lemma {:induction false} ArgNamesDiffer(segs: seq<string>, taken: seq<string>)
    ensures var names := ArgNames(segs, taken);
            && |names| == Count(segs) && Distinct(names)
            && forall i :: 0 <= i < |names| ==> names[i] !in taken && IsIdent(names[i])
    decreases segs
  {
    hide ArgName, IsIdent, IsParam;
    if segs != [] {
      if IsParam(segs[0]) {
        var arg := ArgName(segs[0], taken);
        ArgNameIsNew(segs[0], taken);
        ArgNamesDiffer(segs[1..], taken + [arg]);
        var names, rest := ArgNames(segs, taken), ArgNames(segs[1..], taken + [arg]);
        assert names == [arg] + rest;
        forall i | 0 <= i < |rest| ensures rest[i] != arg && rest[i] !in taken {
          assert rest[i] !in taken + [arg];
        }
      } else {
        ArgNamesDiffer(segs[1..], taken);
      }
    }
  }

  // ---- the relative form ----

  lemma {:induction false} OperandValues(segs: seq<string>, names: seq<string>, vals: seq<string>,
      env: map<string, string>)
    requires Binds(env, names, vals) && |names| == Count(segs)
    requires forall i :: 0 <= i < |names| ==> IsIdent(names[i])
    requires forall seg :: seg in segs ==> Plain(seg)
    ensures Values(Operands(segs, names), env) == Some(Filled(segs, vals))
    ensures forall o :: o in Operands(segs, names) ==> Readable(o)
    decreases segs
  {
    hide IsIdent, Plain, IsParam;
    if segs != [] {
      assert segs[0] in segs;
      assert forall x :: x in segs[1..] ==> x in segs;
      if IsParam(segs[0]) {
        OperandValues(segs[1..], names[1..], vals[1..], env);
        assert Operands(segs, names)[1..] == Operands(segs[1..], names[1..]);
      } else {
        OperandValues(segs[1..], names, vals, env);
        assert Operands(segs, names)[1..] == Operands(segs[1..], names);
      }
    }
  }

  // ---- the absolute form ----

  /** The operands that the text of the absolute form denotes, `p` being the literal begun. */
  function Pieces(t: string, names: seq<string>, p: string): seq<Operand>
    requires Closed(t)
  {
    if t == "" then [Lit(p)]
    else if t[0] == '{' then
      var left := t[IndexOf(t, '}').value + 1..];
      if names == [] then [Lit(p)] else [Lit(p), Var(names[0])] + Pieces(left, names[1..], "")
    else Pieces(t[1..], names, p + [t[0]])
  }

  lemma {:induction false} WrittenIsPieces(t: string, names: seq<string>, p: string)
    requires Closed(t) && Params(t) <= |names| && Plain(p) && Plain(t)
    ensures "\"" + p + Written(t, names) + "\"" == Join(ShowAll(Pieces(t, names, p)), " + ")
    decreases |t|
  {
    hide Plain;
    var ops := Pieces(t, names, p);
    if t == "" {
      PlainQuote(p);
      assert p + "" == p;
    } else if t[0] == '{' {
      var left := t[IndexOf(t, '}').value + 1..];
      PlainQuote(p);
      PlainRest(t, IndexOf(t, '}').value + 1);
      WrittenIsPieces(left, names[1..], "");
      var w, tail := Written(left, names[1..]), Pieces(left, names[1..], "");
      JoinShown(p, names[0], tail);
      SpellPair(p, names[0], w);
    } else {
      PlainRest(t, 1);
      PlainMore(p, t);
      WrittenIsPieces(t[1..], names, p + [t[0]]);
      assert "\"" + p + ([t[0]] + Written(t[1..], names)) + "\"" == "\"" + (p + [t[0]]) + Written(t[1..], names) + "\"";
    }
  }

  lemma PlainQuote(p: string)
    requires Plain(p)
    ensures Show(Lit(p)) == "\"" + p + "\""
  {
    PlainEscape(p);
  }

  lemma PlainRest(t: string, i: nat)
    requires Plain(t) && i <= |t|
    ensures Plain(t[i..]) && Plain("")
  {
  }

  lemma PlainMore(p: string, t: string)
    requires Plain(p) && Plain(t) && t != ""
    ensures Plain(p + [t[0]])
  {
    assert t[0] in t;
  }

  lemma JoinShown(p: string, name: string, tail: seq<Operand>)
    requires tail != []
    ensures Join(ShowAll([Lit(p), Var(name)] + tail), " + ")
            == Show(Lit(p)) + " + " + (name + " + " + Join(ShowAll(tail), " + "))
  {
    hide Quote;
    var ops := [Lit(p), Var(name)] + tail;
    assert ops[1..] == [Var(name)] + tail && ops[1..][1..] == tail;
    assert ShowAll(ops[1..]) == [name] + ShowAll(tail);
    assert ShowAll(ops) == [Show(Lit(p))] + ShowAll(ops[1..]);
  }

  lemma SpellPair(p: string, name: string, w: string)
    ensures "\"" + p + ("\"" + (" + " + name + " + ") + "\"" + w) + "\""
            == ("\"" + p + "\"") + " + " + (name + " + " + ("\"" + "" + w + "\""))
  {
  }

  lemma {:induction false} PiecesReadable(t: string, names: seq<string>, p: string)
    requires Closed(t) && Params(t) <= |names| && Plain(p) && Plain(t)
    requires forall i :: 0 <= i < |names| ==> IsIdent(names[i])
    ensures var ops := Pieces(t, names, p);
            && (forall o :: o in ops ==> Readable(o))
            && ops != [] && ops[0].Lit? && ops[|ops| - 1].Lit?
    decreases |t|
  {
    hide Plain, IsIdent, Closed, Params;
    ClosedStep(t);
    if t == "" {
    } else if t[0] == '{' {
      PlainRest(t, IndexOf(t, '}').value + 1);
      PiecesReadable(t[IndexOf(t, '}').value + 1..], names[1..], "");
    } else {
      PlainRest(t, 1);
      PlainMore(p, t);
      PiecesReadable(t[1..], names, p + [t[0]]);
    }
  }

  lemma {:induction false} PiecesMean(t: string, names: seq<string>, vals: seq<string>, p: string,
      env: map<string, string>)
    requires Closed(t) && Params(t) <= |names| && Binds(env, names, vals)
    ensures var ops := Pieces(t, names, p);
            ops != [] && Values(ops, env).Some? && Join(Values(ops, env).value, "") == p + Inst(t, vals)
    decreases |t|
  {
    hide *;
    ClosedStep(t);
    if t == "" {
      PiecesEnd(names, vals, p, env);
    } else if t[0] == '{' {
      var left := t[IndexOf(t, '}').value + 1..];
      BindsRest(env, names, vals);
      PiecesMean(left, names[1..], vals[1..], "", env);
      PiecesParam(t, names, vals, p);
      ValuesOfPair(p, names[0], Pieces(left, names[1..], ""), env);
    } else {
      PiecesMean(t[1..], names, vals, p + [t[0]], env);
      PiecesChar(t, names, vals, p);
    }
  }

  lemma PiecesEnd(names: seq<string>, vals: seq<string>, p: string, env: map<string, string>)
    ensures var ops := Pieces("", names, p);
            ops != [] && Values(ops, env).Some? && Join(Values(ops, env).value, "") == p + Inst("", vals)
  {
    assert [p] + [] == [p] && p + "" == p;
  }

  lemma BindsRest(env: map<string, string>, names: seq<string>, vals: seq<string>)
    requires Binds(env, names, vals) && names != []
    ensures Binds(env, names[1..], vals[1..]) && vals != [] && names[0] in env && env[names[0]] == vals[0]
  {
  }

  lemma PiecesParam(t: string, names: seq<string>, vals: seq<string>, p: string)
    requires Closed(t) && t != "" && t[0] == '{' && '}' in t && names != [] && vals != []
    ensures var left := t[IndexOf(t, '}').value + 1..];
            && Closed(left)
            && Pieces(t, names, p) == [Lit(p), Var(names[0])] + Pieces(left, names[1..], "")
            && p + Inst(t, vals) == p + (vals[0] + ("" + Inst(left, vals[1..])))
  {
    var left := t[IndexOf(t, '}').value + 1..];
    assert "" + Inst(left, vals[1..]) == Inst(left, vals[1..]);
  }

  lemma PiecesChar(t: string, names: seq<string>, vals: seq<string>, p: string)
    requires Closed(t) && t != "" && t[0] != '{'
    ensures Closed(t[1..]) && Pieces(t, names, p) == Pieces(t[1..], names, p + [t[0]])
    ensures p + Inst(t, vals) == p + [t[0]] + Inst(t[1..], vals)
  {
    hide Pieces;
    assert p + [t[0]] + Inst(t[1..], vals) == p + ([t[0]] + Inst(t[1..], vals)) by {
      hide *;
    }
    PiecesSkip(t, names, p);
  }

  lemma PiecesSkip(t: string, names: seq<string>, p: string)
    requires Closed(t) && t != "" && t[0] != '{'
    ensures Closed(t[1..]) && Pieces(t, names, p) == Pieces(t[1..], names, p + [t[0]])
  {
  }

  lemma ClosedStep(t: string)
    requires Closed(t)
    ensures t != "" && t[0] == '{' ==> '}' in t
    ensures t != "" && t[0] == '{' ==>
              var left := t[IndexOf(t, '}').value + 1..]; Closed(left) && Params(t) == 1 + Params(left)
    ensures t != "" && t[0] != '{' ==> Closed(t[1..]) && Params(t) == Params(t[1..])
  {
  }

  lemma ValuesOfPair(p: string, name: string, tail: seq<Operand>, env: map<string, string>)
    requires name in env && Values(tail, env).Some? && tail != []
    ensures var ops := [Lit(p), Var(name)] + tail;
            Values(ops, env).Some? && Join(Values(ops, env).value, "") == p
                + (env[name] + Join(Values(tail, env).value, ""))
  {
    var ops := [Lit(p), Var(name)] + tail;
    var vs := Values(tail, env).value;
    assert ops[1..] == [Var(name)] + tail && ops[1..][1..] == tail;
    assert Values(ops[1..], env) == Some([env[name]] + vs);
    assert Values(ops, env) == Some([p] + ([env[name]] + vs));
    assert ([p] + ([env[name]] + vs))[1..] == [env[name]] + vs && ([env[name]] + vs)[1..] == vs;
    ValuesCount(tail, env);
    assert p + "" == p && env[name] + "" == env[name];
  }

  lemma {:induction false} ValuesCount(ops: seq<Operand>, env: map<string, string>)
    requires Values(ops, env).Some?
    ensures |Values(ops, env).value| == |ops|
  {
    if ops != [] {
      ValuesCount(ops[1..], env);
    }
  }
}
