/** What the emitted path expression evaluates to, for every collection, server path and operation path. */
module UrlTheorem {
  import opened Text
  import opened UrlCode
  import opened UrlPaths
  import opened UrlMeaning

  // ---- the absolute form: trimming the empty last operand ----

  /** The operands left after an empty literal at the end is dropped. */
  function Trimmed(ops: seq<Operand>): seq<Operand> {
    if |ops| > 1 && ops[|ops| - 1] == Lit("") then ops[..|ops| - 1] else ops
  }

  lemma {:induction false} ShowAllConcat(a: seq<Operand>, b: seq<Operand>)
    ensures ShowAll(a + b) == ShowAll(a) + ShowAll(b)
  {
    hide Show;
    if a == [] {
      assert a + b == b;
    } else {
      assert (a + b)[1..] == a[1..] + b;
      ShowAllConcat(a[1..], b);
    }
  }

  lemma JoinShownLast(init: seq<Operand>, last: Operand)
    requires init != []
    ensures Join(ShowAll(init + [last]), " + ") == Join(ShowAll(init), " + ") + " + " + Show(last)
  {
    hide Show;
    ShowAllConcat(init, [last]);
    assert ShowAll([last]) == [Show(last)];
    assert ShowAll(init) != [];
    JoinConcat(ShowAll(init), [Show(last)], " + ");
  }

  lemma NoEmptyTail(pre: string, x: string)
    requires x != "" && '"' !in x
    ensures !HasSuffix(pre + ("\"" + x + "\""), EMPTY_TAIL)
  {
    var s := pre + ("\"" + x + "\"");
    assert s[|s| - 2] == x[|x| - 1] && x[|x| - 1] in x;
    assert EMPTY_TAIL[3] == '"' && |EMPTY_TAIL| == 5;
    assert |s| >= 5 ==> s[|s| - 5..][3] == s[|s| - 2];
  }

  lemma TrimText(pre: string, x: string)
    requires '"' !in x
    ensures TrimSuffix(pre + " + " + ("\"" + x + "\""), EMPTY_TAIL)
            == if x == "" then pre else pre + " + " + ("\"" + x + "\"")
  {
    if x == "" {
      assert pre + " + " + ("\"" + x + "\"") == pre + EMPTY_TAIL;
      assert (pre + EMPTY_TAIL)[..|pre|] == pre;
    } else {
      NoEmptyTail(pre + " + ", x);
    }
  }

  lemma TrimShown(ops: seq<Operand>)
    requires ops != [] && ops[|ops| - 1].Lit? && Plain(ops[|ops| - 1].text)
    ensures TrimSuffix(Join(ShowAll(ops), " + "), EMPTY_TAIL) == Join(ShowAll(Trimmed(ops)), " + ")
  {
    hide Plain, TrimSuffix, HasSuffix, Show, Join, ShowAll;
    var init, x := ops[..|ops| - 1], ops[|ops| - 1].text;
    assert ops == init + [Lit(x)];
    PlainQuote(x);
    NoQuote(x);
    if init == [] {
      assert ops == [Lit(x)];
      ShowOne(Lit(x));
      TrimOnly(x);
    } else {
      JoinShownLast(init, Lit(x));
      TrimText(Join(ShowAll(init), " + "), x);
    }
  }

  lemma ShowOne(o: Operand)
    ensures Join(ShowAll([o]), " + ") == Show(o)
  {
    assert ShowAll([o]) == [Show(o)];
  }

  lemma TrimOnly(x: string)
    requires '"' !in x
    ensures TrimSuffix("\"" + x + "\"", EMPTY_TAIL) == "\"" + x + "\""
  {
    if x != "" {
      NoEmptyTail("", x);
      assert "" + ("\"" + x + "\"") == "\"" + x + "\"";
    }
  }

  lemma NoQuote(x: string)
    requires Plain(x)
    ensures '"' !in x
  {
  }

  lemma {:induction false} ValuesConcat(a: seq<Operand>, b: seq<Operand>, env: map<string, string>)
    requires Values(a + b, env).Some?
    ensures Values(a, env).Some? && Values(b, env).Some?
    ensures Values(a + b, env).value == Values(a, env).value + Values(b, env).value
  {
    if a == [] {
      assert a + b == b;
    } else {
      assert (a + b)[1..] == a[1..] + b;
      assert (a + b)[0] == a[0];
      ValuesConcat(a[1..], b, env);
      var v := if a[0].Lit? then a[0].text else env[a[0].name];
      var va, vb := Values(a[1..], env).value, Values(b, env).value;
      assert Values(a + b, env) == Some([v] + (va + vb));
      assert Values(a, env) == Some([v] + va);
      hide *;
      assert [v] + (va + vb) == [v] + va + vb;
    }
  }

  lemma TrimmedMean(ops: seq<Operand>, env: map<string, string>)
    requires ops != [] && Values(ops, env).Some?
    ensures Values(Trimmed(ops), env).Some?
    ensures Join(Values(Trimmed(ops), env).value, "") == Join(Values(ops, env).value, "")
  {
    if |ops| > 1 && ops[|ops| - 1] == Lit("") {
      var init := ops[..|ops| - 1];
      assert ops == init + [Lit("")];
      ValuesConcat(init, [Lit("")], env);
      assert [Lit("")][1..] == [] && [""] + [] == [""];
      assert Values([Lit("")], env) == Some([""]);
      ValuesCount(init, env);
      var vs := Values(init, env).value;
      JoinConcat(vs, [""], "");
      assert Join(vs, "") + "" + "" == Join(vs, "");
    }
  }

  /** The absolute form evaluates to the instantiated template. */
  lemma AbsoluteMeans(full: string, names: seq<string>, vals: seq<string>, base: string, env: map<string, string>)
    requires Closed(full) && Params(full) <= |names| && Binds(env, names, vals) && Plain(full)
    requires forall i :: 0 <= i < |names| ==> IsIdent(names[i])
    ensures Eval(Absolute(full, names), base, env) == Some(Inst(full, vals))
  {
    hide Closed, Params, Inst, Pieces, Written, Plain, IsIdent, Binds, Values, ShowAll, Eval, TrimSuffix;
    PlainRest(full, 0);
    var ops := Pieces(full, names, "");
    PiecesReadable(full, names, "");
    PiecesMean(full, names, vals, "", env);
    WrittenIsPieces(full, names, "");
    assert "\"" + "" + Written(full, names) + "\"" == "\"" + Written(full, names) + "\"";
    assert Readable(ops[|ops| - 1]);
    TrimShown(ops);
    TrimmedMean(ops, env);
    assert forall o :: o in Trimmed(ops) ==> o in ops;
    EvalConcat(Trimmed(ops), base, env);
    assert "" + Inst(full, vals) == Inst(full, vals);
  }

  // ---- paths ----

  /** What loadSpec guarantees of a server path: no slash at its end, unless it is all there is. */
  predicate ServerPath(s: string) {
    s == "/" || (s != "" && s[|s| - 1] != '/')
  }

  /** A server path is not empty, and a slash ends it only if it is one. */
  lemma ServerPathExactly(s: string)
    ensures ServerPath(s) <==> |s| >= 1 && (s[|s| - 1] == '/' ==> |s| == 1)
  {
  }

  lemma ServerPathTrim(s: string)
    requires ServerPath(s)
    ensures TrimRightSlashes(s) == if s == "/" then "" else s
  {
    assert "/"[..0] == "";
  }

  lemma JoinPathIs(a: string, b: string)
    requires ServerPath(a)
    ensures JoinPath(a, b) == if b == "" then a else (if a == "/" then "" else a) + "/" + TrimLeftSlashes(b)
  {
    ServerPathTrim(a);
  }

  lemma {:induction false} TrimLeftIsSuffix(b: string)
    ensures |TrimLeftSlashes(b)| <= |b|
    ensures TrimLeftSlashes(b) == b[|b| - |TrimLeftSlashes(b)|..]
  {
    if b != "" && b[0] == '/' {
      TrimLeftIsSuffix(b[1..]);
    }
  }

  lemma JoinPathBraceFree(a: string, b: string)
    requires ServerPath(a) && BraceFree(a) && BraceFree(b)
    ensures BraceFree(JoinPath(a, b))
  {
    JoinPathIs(a, b);
    TrimLeftIsSuffix(b);
  }

  lemma JoinPathPlain(a: string, b: string)
    requires ServerPath(a) && Plain(a) && Plain(b)
    ensures Plain(JoinPath(a, b))
  {
    JoinPathIs(a, b);
    TrimLeftIsSuffix(b);
    assert PlainChar('/');
  }

  /** Dropping the operation path's first slash changes the joined path only when nothing is left of it. */
  lemma JoinPathTrimmed(a: string, b: string)
    requires ServerPath(a)
    ensures JoinPath(a, TrimSlash(b)) == if b == "/" then a else JoinPath(a, b)
  {
    JoinPathIs(a, b);
    JoinPathIs(a, TrimSlash(b));
  }

  /** The template ends in a slash that no segment of the emitted code stands for. */
  predicate LosesSlash(coll: string, serverPath: string, opPath: string) {
    if RelativeTail(coll, serverPath, opPath).sibling then opPath == "/" && serverPath != "/"
    else JoinPath(serverPath, opPath) == JoinPath(serverPath, coll) + "/"
  }

  /** The paths the generator is made for; the collection may be anything without braces. */
  ghost predicate Sound(coll: string, serverPath: string, opPath: string) {
    && ServerPath(serverPath) && BraceFree(serverPath) && Plain(serverPath)
    && BraceFree(coll) && Plain(coll)
    && Plain(opPath) && Whole(JoinPath(serverPath, opPath))
  }

  lemma Templates(coll: string, serverPath: string, opPath: string)
    requires Sound(coll, serverPath, opPath)
    ensures Closed(JoinPath(serverPath, opPath)) && Closed(JoinPath(serverPath, TrimSlash(opPath)))
  {
    hide Closed, JoinPath, Whole;
    var abs := JoinPath(serverPath, opPath);
    WholeClosed(abs);
    JoinPathTrimmed(serverPath, opPath);
    Literal(serverPath, []);
  }

  lemma BracesAreParams(coll: string, serverPath: string, opPath: string)
    requires Sound(coll, serverPath, opPath)
    ensures Closed(JoinPath(serverPath, opPath))
    ensures multiset(JoinPath(serverPath, opPath))['{'] == Params(JoinPath(serverPath, opPath))
  {
    hide Closed, JoinPath, Whole, Params;
    var abs := JoinPath(serverPath, opPath);
    WholeClosed(abs);
    WholeSegments(abs);
    ParamsAreBraces(Split(abs, '/'));
    JoinSplit(abs, '/');
  }

  lemma WholeSegments(t: string)
    requires Whole(t)
    ensures AllWhole(Split(t, '/'))
  {
  }

  lemma WholeClosed(t: string)
    requires Whole(t)
    ensures Closed(t) && Params(t) == Count(Split(t, '/'))
  {
    hide Closed, Whole, Params;
    InstWhole(t, seq(Count(Split(t, '/')), i => ""));
  }

  lemma WholeTail(a: string, b: string)
    requires Whole(a + "/" + b)
    ensures Whole(b)
  {
    SplitConcat(a, b);
    assert forall seg :: seg in Split(b, '/') ==> seg in Split(a, '/') + Split(b, '/');
  }

  lemma {:induction false} SplitPlain(t: string)
    requires Plain(t)
    ensures forall seg :: seg in Split(t, '/') ==> Plain(seg)
  {
    hide PlainChar;
    if t != "" {
      assert t[0] in t;
      assert forall c :: c in t[1..] ==> c in t;
      SplitPlain(t[1..]);
      var rest := Split(t[1..], '/');
      assert rest[0] in rest;
      assert forall c :: c in [t[0]] + rest[0] ==> c == t[0] || c in rest[0];
      assert forall seg :: seg in Split(t, '/') ==> seg == "" || seg == [t[0]] + rest[0] || seg in rest;
    }
  }

  lemma PlainTail(a: string, b: string)
    requires Plain(a + "/" + b)
    ensures Plain(b)
  {
    assert forall c :: c in b ==> c in a + "/" + b;
  }

  /** Under the collection: the call of Path fills the segments behind the base. */
  lemma RelativeMeans(full: string, rest: string, vals: seq<string>)
    requires Whole(full + "/" + rest) && Plain(full + "/" + rest) && BraceFree(full) && rest != ""
    requires |vals| == Count(Split(full + "/" + rest, '/'))
    ensures Closed(full + "/" + rest)
    ensures var segs := Split(rest, '/');
            var names := ArgNames(segs, []);
            && |names| == |vals| && Binds(Bind(names, vals), names, vals)
            && Eval(PATH_CALL + Join(ShowAll(Operands(segs, names)), ", ") + ")", full, Bind(names, vals))
               == Some(Inst(full + "/" + rest, vals))
  {
    hide *;
    var segs := Split(rest, '/');
    var names := ArgNames(segs, []);
    WholeTail(full, rest);
    PlainTail(full, rest);
    SplitPlain(rest);
    WholeClosed(rest);
    BraceFreeSlash();
    LiteralFront("/", rest, vals);
    LiteralFront(full, "/" + rest, vals);
    assert full + "/" + rest == full + ("/" + rest);
    WholeClosed(full + "/" + rest);
    ArgNamesDiffer(segs, []);
    BindBinds(names, vals);
    InstWhole(rest, vals);
    OperandValues(segs, names, vals, Bind(names, vals));
    FilledCount(segs, names);
    EvalCall(Operands(segs, names), full, Bind(names, vals));
    PathOfFilled(full, Filled(segs, vals));
    assert full + "/" + Inst(rest, vals) == full + ("/" + Inst(rest, vals));
  }

  lemma PathOfFilled(base: string, parts: seq<string>)
    requires parts != []
    ensures Path(base, parts) == base + "/" + Join(parts, "/")
  {
  }

  lemma BraceFreeSlash()
    ensures BraceFree("/")
  {
  }

  lemma FilledCount(segs: seq<string>, names: seq<string>)
    requires segs != []
    ensures Operands(segs, names) != []
  {
  }

  lemma {:induction false} ParamsOfTail(t: string)
    requires Whole(t)
    ensures Closed(TrimSlash(t)) && Closed(t) && Params(TrimSlash(t)) == Params(t)
    ensures Count(SplitSegs(TrimSlash(t))) == Params(t)
  {
    WholeClosed(t);
    if t != "" && t[0] == '/' {
      assert t == "" + "/" + t[1..];
      WholeTail("", t[1..]);
      WholeClosed(t[1..]);
    }
  }

  /** The Go expression of a method, run with the given arguments. */
  function Run(coll: string, serverPath: string, opPath: string, vals: seq<string>): Option<string>
    requires Closed(JoinPath(serverPath, TrimSlash(opPath)))
    requires |vals| == |ArgNames(RelativeTail(coll, serverPath, opPath).segs, [])|
  {
    var names := ArgNames(RelativeTail(coll, serverPath, opPath).segs, []);
    Eval(PathCode(coll, serverPath, opPath), JoinPath(serverPath, coll), Bind(names, vals))
  }

  /** What the request path is meant to be. */
  function Meant(serverPath: string, opPath: string, vals: seq<string>): string
    requires Closed(JoinPath(serverPath, opPath))
  {
    Inst(JoinPath(serverPath, opPath), vals)
  }

  /** An operation under the collection. */
  lemma UnderMeans(coll: string, serverPath: string, opPath: string, vals: seq<string>)
    requires Sound(coll, serverPath, opPath)
    requires coll != "" && JoinPath(serverPath, coll) + "/" <= JoinPath(serverPath, opPath)
    requires Closed(JoinPath(serverPath, opPath)) && Closed(JoinPath(serverPath, TrimSlash(opPath)))
    requires |vals| == Params(JoinPath(serverPath, opPath))
    ensures |ArgNames(RelativeTail(coll, serverPath, opPath).segs, [])| == |vals|
    ensures var r := Run(coll, serverPath, opPath, vals);
            && r.Some?
            && Meant(serverPath, opPath, vals)
               == r.value + if LosesSlash(coll, serverPath, opPath) then "/" else ""
  {
    hide Closed, Inst, Params, Whole, Plain, ServerPath, ArgNames, Bind, Eval, ShowAll, JoinPath, BraceFree,
        Absolute, Count;
    var full, abs := JoinPath(serverPath, coll), JoinPath(serverPath, opPath);
    var rest := abs[|full| + 1..];
    assert abs == full + "/" + rest;
    JoinPathBraceFree(serverPath, coll);
    if rest == "" {
      BraceFreeSlash();
      Literal("/", vals);
      LiteralFront(full, "/", vals);
      assert abs == full + "/";
      BaseMeans(full, vals);
      NoArguments();
    } else {
      assert abs != full + "/";
      JoinPathPlain(serverPath, opPath);
      WholeClosed(abs);
      RelativeMeans(full, rest, vals);
      SplitNotEmpty(rest);
      assert Meant(serverPath, opPath, vals) + "" == Meant(serverPath, opPath, vals);
    }
  }

  lemma SplitNotEmpty(rest: string)
    requires rest != ""
    ensures SplitSegs(rest) == Split(rest, '/') && SplitSegs(rest) != []
  {
  }

  lemma NoArguments()
    ensures SplitSegs("") == [] && ArgNames([], []) == []
  {
  }

  lemma BaseMeans(full: string, vals: seq<string>)
    ensures Eval("r.Base", full, map[]) == Some(full)
    ensures Bind([], []) == map[]
  {
  }

  /** An operation on the collection itself. */
  lemma AtMeans(coll: string, serverPath: string, opPath: string, vals: seq<string>)
    requires Sound(coll, serverPath, opPath)
    requires coll != "" && JoinPath(serverPath, coll) == JoinPath(serverPath, opPath)
    requires Closed(JoinPath(serverPath, opPath)) && Closed(JoinPath(serverPath, TrimSlash(opPath)))
    requires |vals| == Params(JoinPath(serverPath, opPath))
    ensures !LosesSlash(coll, serverPath, opPath)
    ensures |ArgNames(RelativeTail(coll, serverPath, opPath).segs, [])| == |vals|
    ensures Run(coll, serverPath, opPath, vals) == Some(Meant(serverPath, opPath, vals))
  {
    hide Closed, Inst, Params, Whole, Plain, ServerPath, ArgNames, Bind, Eval, ShowAll, JoinPath, BraceFree,
        Absolute, Count;
    var full := JoinPath(serverPath, coll);
    JoinPathBraceFree(serverPath, coll);
    Literal(full, vals);
    NoArguments();
    BaseMeans(full, vals);
    assert |full + "/"| != |full|;
  }

  /** An operation outside the collection. */
  lemma SiblingMeans(coll: string, serverPath: string, opPath: string, vals: seq<string>)
    requires Sound(coll, serverPath, opPath)
    requires RelativeTail(coll, serverPath, opPath).sibling
    requires Closed(JoinPath(serverPath, opPath)) && Closed(JoinPath(serverPath, TrimSlash(opPath)))
    requires |vals| == Params(JoinPath(serverPath, opPath))
    ensures |ArgNames(RelativeTail(coll, serverPath, opPath).segs, [])| == |vals|
    ensures var r := Run(coll, serverPath, opPath, vals);
            && r.Some?
            && Meant(serverPath, opPath, vals)
               == r.value + if LosesSlash(coll, serverPath, opPath) then "/" else ""
  {
    hide Closed, Inst, Params, Whole, Plain, ServerPath, ArgNames, Bind, Binds, Eval, ShowAll, JoinPath, BraceFree,
        Absolute, Count, IsIdent, TrimSlash, SplitSegs;
    var abs := JoinPath(serverPath, opPath);
    var full := JoinPath(serverPath, TrimSlash(opPath));
    var segs := RelativeTail(coll, serverPath, opPath).segs;
    var names := ArgNames(segs, []);
    ParamsOfTail(abs);
    ArgNamesDiffer(segs, []);
    BindBinds(names, vals);
    JoinPathTrimmed(serverPath, opPath);
    JoinPathPlain(serverPath, opPath);
    Literal(serverPath, vals);
    AbsoluteMeans(full, names, vals, JoinPath(serverPath, coll), Bind(names, vals));
    if opPath == "/" {
      SlashOnly(serverPath, vals);
    }
    assert Meant(serverPath, opPath, vals) + "" == Meant(serverPath, opPath, vals);
  }

  lemma SlashOnly(serverPath: string, vals: seq<string>)
    requires ServerPath(serverPath) && BraceFree(serverPath)
    ensures Closed(JoinPath(serverPath, "/"))
    ensures Inst(JoinPath(serverPath, "/"), vals) == if serverPath == "/" then "/" else serverPath + "/"
  {
    JoinPathIs(serverPath, "/");
    assert TrimLeftSlashes("/") == "";
    var abs := JoinPath(serverPath, "/");
    assert abs == if serverPath == "/" then "/" else serverPath + "/";
    Literal(abs, vals);
  }

  /**
   * For every collection, server path, operation path and arguments the emitted expression is
   * readable, and its value is the instantiated template, or lacks just its last slash.
   */
  lemma Means(coll: string, serverPath: string, opPath: string, vals: seq<string>)
    requires Sound(coll, serverPath, opPath)
    requires Closed(JoinPath(serverPath, opPath)) && |vals| == multiset(JoinPath(serverPath, opPath))['{']
    ensures Closed(JoinPath(serverPath, TrimSlash(opPath)))
    ensures |ArgNames(RelativeTail(coll, serverPath, opPath).segs, [])| == |vals|
    ensures var r := Run(coll, serverPath, opPath, vals);
            && r.Some?
            && Meant(serverPath, opPath, vals)
               == r.value + if LosesSlash(coll, serverPath, opPath) then "/" else ""
  {
    hide Closed, Inst, Params, Sound, ArgNames, Bind, Eval, ShowAll, JoinPath, LosesSlash, Run, Meant, TrimSlash,
        SplitSegs;
    var full, abs := JoinPath(serverPath, coll), JoinPath(serverPath, opPath);
    Templates(coll, serverPath, opPath);
    BracesAreParams(coll, serverPath, opPath);
    if coll != "" && full + "/" <= abs {
      UnderMeans(coll, serverPath, opPath, vals);
    } else if coll != "" && abs == full {
      AtMeans(coll, serverPath, opPath, vals);
      assert Meant(serverPath, opPath, vals) + "" == Meant(serverPath, opPath, vals);
    } else {
      SiblingMeans(coll, serverPath, opPath, vals);
    }
  }

  /** The emitted expression has the meant value exactly when no slash is lost. */
  lemma MeansExactly(coll: string, serverPath: string, opPath: string, vals: seq<string>)
    requires Sound(coll, serverPath, opPath)
    requires Closed(JoinPath(serverPath, opPath)) && |vals| == multiset(JoinPath(serverPath, opPath))['{']
    ensures Closed(JoinPath(serverPath, TrimSlash(opPath)))
    ensures |ArgNames(RelativeTail(coll, serverPath, opPath).segs, [])| == |vals|
    ensures Run(coll, serverPath, opPath, vals) == Some(Meant(serverPath, opPath, vals))
       <==> !LosesSlash(coll, serverPath, opPath)
  {
    hide *;
    Means(coll, serverPath, opPath, vals);
    var u := Run(coll, serverPath, opPath, vals).value;
    assert u + "" == u && |u + "/"| == |u| + 1;
  }

  /** The family is not empty: below "/api", the operation "/a/" of the collection "/a" is sent to "/api/a". */
  lemma SlashIsLost()
    ensures Sound("/a", "/api", "/a/") && LosesSlash("/a", "/api", "/a/")
    ensures Closed(JoinPath("/api", TrimSlash("/a/"))) && PathCode("/a", "/api", "/a/") == "r.Base"
  {
    var sp := "/api";
    var full, abs := JoinPath(sp, "/a"), JoinPath(sp, "/a/");
    SlashPaths();
    BraceFreeWhole(abs);
    hide Closed, Whole, JoinPath, Split;
    assert Sound("/a", sp, "/a/");
    Templates("/a", sp, "/a/");
    assert abs == full + "/" && abs[|full| + 1..] == "";
  }

  lemma SlashPaths()
    ensures JoinPath("/api", "/a") == "/api/a" && JoinPath("/api", "/a/") == "/api/a/"
    ensures "/api/a/" == "/api/a" + "/" && BraceFree("/api/a/")
  {
    assert "/a"[1..] == "a" && "/a/"[1..] == "a/";
    JoinPathIs("/api", "/a");
    JoinPathIs("/api", "/a/");
  }

  lemma BraceFreeWhole(t: string)
    requires BraceFree(t)
    ensures Whole(t)
  {
    JoinSplit(t, '/');
    SplitBraceFree(t);
  }

  lemma {:induction false} SplitBraceFree(t: string)
    requires BraceFree(t)
    ensures forall seg :: seg in Split(t, '/') ==> BraceFree(seg)
  {
    if t != "" {
      assert t == [t[0]] + t[1..];
      SplitBraceFree(t[1..]);
      var rest := Split(t[1..], '/');
      assert rest[0] in rest;
      assert forall seg :: seg in Split(t, '/') ==> seg == "" || seg == [t[0]] + rest[0] || seg in rest;
    }
  }
}
