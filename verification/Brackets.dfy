/** Bracket scans pass over printed types unharmed. */
module Brackets {
  import opened Text
  import opened GoTypes
  import opened Translator

  /** Depth after `s`, or None when `s` closes a group it did not open or shows a top-level comma. */
  function Walk(k: Scan, s: string, depth: nat): Option<nat> {
    if s == "" then Some(depth)
    else if Opens(k, s[0]) then Walk(k, s[1..], depth + 1)
    else if Closes(k, s[0]) then if depth == 0 then None else Walk(k, s[1..], depth - 1)
    else if k.Commas? && s[0] == ',' && depth == 0 then None
    else Walk(k, s[1..], depth)
  }

  /** `s` is transparent to scan `k` at every depth. */
  ghost predicate Quiet(k: Scan, s: string) {
    forall d: nat :: Walk(k, s, d) == Some(d)
  }

  /** `s` is transparent once a group is open around it. */
  ghost predicate QuietInside(k: Scan, s: string) {
    forall d: nat :: (k.Commas? ==> d >= 1) ==> Walk(k, s, d) == Some(d)
  }

  lemma {:induction false} WalkAppend(k: Scan, a: string, b: string, d: nat)
    requires Walk(k, a, d).Some?
    ensures Walk(k, a + b, d) == Walk(k, b, Walk(k, a, d).value)
  {
    if a == "" {
      assert a + b == b;
    } else {
      assert (a + b)[1..] == a[1..] + b;
      var e := if Opens(k, a[0]) then d + 1 else if Closes(k, a[0]) then d - 1 else d;
      WalkAppend(k, a[1..], b, e);
    }
  }

  lemma QuietAppend(k: Scan, a: string, b: string)
    requires Quiet(k, a) && Quiet(k, b)
    ensures Quiet(k, a + b)
  {
    forall d: nat ensures Walk(k, a + b, d) == Some(d) {
      WalkAppend(k, a, b, d);
    }
  }

  lemma {:induction false} PlainQuiet(k: Scan, s: string)
    requires forall i :: 0 <= i < |s| ==> !Opens(k, s[i]) && !Closes(k, s[i]) && s[i] != ','
    ensures Quiet(k, s)
  {
    if s != "" {
      PlainQuiet(k, s[1..]);
    }
  }

  /** A bracket pair around a text that is quiet inside it. */
  lemma WrapQuiet(k: Scan, o: char, s: string, c: char)
    requires (o == '(' && c == ')') || (o == '[' && c == ']') || (o == '<' && c == '>')
    requires QuietInside(k, s)
    ensures Quiet(k, [o] + s + [c])
  {
    var t := [o] + s + [c];
    assert t[1..] == s + [c];
    forall d: nat ensures Walk(k, t, d) == Some(d) {
      var e := if Opens(k, o) then d + 1 else d;
      WalkAppend(k, s, [c], e);
      assert [c][1..] == "";
      assert Walk(k, [c], e) == Some(d);
    }
  }

  lemma {:induction false} JoinQuietInside(k: Scan, parts: seq<string>)
    requires forall i :: 0 <= i < |parts| ==> Quiet(k, parts[i])
    ensures QuietInside(k, Join(parts, ","))
  {
    if |parts| > 1 {
      var rest := Join(parts[1..], ",");
      JoinQuietInside(k, parts[1..]);
      forall d: nat | k.Commas? ==> d >= 1 ensures Walk(k, parts[0] + "," + rest, d) == Some(d) {
        WalkAppend(k, parts[0], ",", d);
        WalkAppend(k, parts[0] + ",", rest, d);
        assert ","[1..] == "";
      }
    }
  }

  lemma TypeNameQuiet(k: Scan, e: Expr)
    requires IsTypeName(e)
    ensures Quiet(k, Print(e))
  {
    if e.Ident? {
      PlainQuiet(k, e.name);
    } else {
      assert IsTypeName(e.pkg);
      PlainQuiet(k, e.pkg.name); PlainQuiet(k, "."); PlainQuiet(k, e.sel);
      QuietAppend(k, e.pkg.name, "."); QuietAppend(k, e.pkg.name + ".", e.sel);
    }
  }

  lemma OtherQuiet(k: Scan, kind: string)
    requires IsKind(kind)
    ensures Quiet(k, Print(Other(kind)))
  {
    PlainQuiet(k, "unhandled:"); PlainQuiet(k, kind); QuietAppend(k, "unhandled:", kind);
    WrapQuiet(k, '<', "unhandled:" + kind, '>');
    assert Print(Other(kind)) == "<" + ("unhandled:" + kind) + ">";
  }

  lemma LengthQuiet(k: Scan, e: Expr)
    requires IsLength(e)
    ensures Quiet(k, Print(e))
  {
    match e
    case BasicLit(text) => PlainQuiet(k, text);
    case Other(kind) => OtherQuiet(k, kind);
    case _ => TypeNameQuiet(k, e);
  }

  lemma FuncTextQuiet(k: Scan, args: string, res: string)
    requires QuietInside(k, args) && QuietInside(k, res)
    ensures Quiet(k, "func(" + args + ") (" + res + ")")
  {
    hide Quiet, QuietInside;
    var p, r := "(" + args + ")", "(" + res + ")";
    WrapQuiet(k, '(', args, ')');
    WrapQuiet(k, '(', res, ')');
    PlainQuiet(k, "func");
    PlainQuiet(k, " ");
    QuietAppend(k, "func", p);
    QuietAppend(k, " ", r);
    QuietAppend(k, "func" + p, " " + r);
    assert "func" + p == "func(" + args + ")" && " " + r == " (" + res + ")";
    assert "func(" + args + ")" + (" (" + res + ")") == "func(" + args + ") (" + res + ")";
  }

  lemma FuncQuiet(k: Scan, ps: seq<string>, rs: seq<string>)
    requires forall i :: 0 <= i < |ps| ==> Quiet(k, ps[i])
    requires forall i :: 0 <= i < |rs| ==> Quiet(k, rs[i])
    ensures Quiet(k, "func(" + Join(ps, ",") + ") (" + Join(rs, ",") + ")")
  {
    JoinQuietInside(k, ps);
    JoinQuietInside(k, rs);
    FuncTextQuiet(k, Join(ps, ","), Join(rs, ","));
  }

  /** A plain prefix leaves a quiet text quiet. */
  lemma PrefixQuiet(k: Scan, p: string, s: string)
    requires forall i :: 0 <= i < |p| ==> !Opens(k, p[i]) && !Closes(k, p[i]) && p[i] != ','
    requires Quiet(k, s)
    ensures Quiet(k, p + s)
  {
    PlainQuiet(k, p);
    QuietAppend(k, p, s);
  }

  /** A square-bracketed text between two quiet ones. */
  lemma BracketQuiet(k: Scan, before: string, inside: string, after: string)
    requires Quiet(k, before) && QuietInside(k, inside) && Quiet(k, after)
    ensures Quiet(k, before + "[" + inside + "]" + after)
  {
    var group := "[" + inside + "]";
    WrapQuiet(k, '[', inside, ']');
    QuietAppend(k, before, group);
    QuietAppend(k, before + group, after);
    assert before + "[" + inside + "]" + after == before + group + after;
  }

  lemma EndBracketQuiet(k: Scan, before: string, inside: string)
    requires Quiet(k, before) && QuietInside(k, inside)
    ensures Quiet(k, before + "[" + inside + "]")
  {
    BracketQuiet(k, before, inside, "");
    assert before + "[" + inside + "]" + "" == before + "[" + inside + "]";
  }

  lemma ArrayQuiet(k: Scan, inside: string, elt: string)
    requires Quiet(k, inside) && Quiet(k, elt)
    ensures Quiet(k, "[" + inside + "]" + elt)
  {
    BracketQuiet(k, "", inside, elt);
    assert "" + "[" + inside + "]" + elt == "[" + inside + "]" + elt;
  }

  lemma MapQuiet(k: Scan, key: string, val: string)
    requires Quiet(k, key) && Quiet(k, val)
    ensures Quiet(k, "map[" + key + "]" + val)
  {
    PlainQuiet(k, "map");
    BracketQuiet(k, "map", key, val);
    assert "map" + "[" + key + "]" + val == "map[" + key + "]" + val;
  }

  /** Every printed type is balanced for all three scans, with its commas inside groups. */
  lemma {:induction false} PrintQuiet(k: Scan, e: Expr)
    requires IsType(e)
    ensures Quiet(k, Print(e))
    decreases e, 1
  {
    match e
    case Ident(_) => TypeNameQuiet(k, e);
    case Selector(_, _) => TypeNameQuiet(k, e);
    case Star(x) => PrintQuiet(k, x); PrefixQuiet(k, "*", Print(x));
    case Slice(elt) => PrintQuiet(k, elt); ArrayQuiet(k, "", Print(elt)); assert "[" + "" + "]" == "[]";
    case Array(len, elt) => LengthQuiet(k, len); PrintQuiet(k, elt); ArrayQuiet(k, Print(len), Print(elt));
    case Map(key, val) => PrintQuiet(k, key); PrintQuiet(k, val); MapQuiet(k, Print(key), Print(val));
    case Interface(_) => PlainQuiet(k, Print(e));
    case Func(params, results) =>
      FieldsQuiet(k, params); FieldsQuiet(k, results);
      FuncQuiet(k, PrintFields(params), PrintFields(results));
    case Chan(x) => PrintQuiet(k, x); PrefixQuiet(k, "chan ", Print(x));
    case Ellipsis(elt) => PrintQuiet(k, elt); PrefixQuiet(k, "...", Print(elt));
    case Index(x, arg) => TypeNameQuiet(k, x); PrintQuiet(k, arg); EndBracketQuiet(k, Print(x), Print(arg));
    case IndexList(x, args) =>
      TypeNameQuiet(k, x); AllQuiet(k, args); JoinQuietInside(k, PrintAll(args));
      EndBracketQuiet(k, Print(x), Join(PrintAll(args), ","));
    case Other(kind) => OtherQuiet(k, kind);
  }

  lemma {:induction false} FieldsQuiet(k: Scan, fs: seq<Field>)
    requires AreFields(fs)
    ensures forall i :: 0 <= i < |PrintFields(fs)| ==> Quiet(k, PrintFields(fs)[i])
    decreases fs, 0
  {
    if fs != [] {
      FieldQuiet(k, fs[0]);
      FieldsQuiet(k, fs[1..]);
    }
  }

  lemma {:induction false} FieldQuiet(k: Scan, f: Field)
    requires IsField(f)
    ensures forall i :: 0 <= i < |PrintField(f)| ==> Quiet(k, PrintField(f)[i])
    decreases f, 0
  {
    PrintQuiet(k, f.typ);
  }

  lemma {:induction false} AllQuiet(k: Scan, es: seq<Expr>)
    requires AreTypes(es)
    ensures forall i :: 0 <= i < |PrintAll(es)| ==> Quiet(k, PrintAll(es)[i])
    decreases es, 0
  {
    if es != [] {
      PrintQuiet(k, es[0]);
      AllQuiet(k, es[1..]);
    }
  }

  /** A quiet text is stepped over when looking for the closing bracket. */
  lemma {:induction false} ClosingSkips(k: Scan, a: string, b: string, d: nat)
    requires Walk(k, a, d).Some?
    ensures ClosingAt(k, a + b, d) ==
            match ClosingAt(k, b, Walk(k, a, d).value) case None => None case Some(i) => Some(i + |a|)
  {
    if a == "" {
      assert a + b == b;
    } else {
      assert (a + b)[1..] == a[1..] + b;
      var e := if Opens(k, a[0]) then d + 1 else if Closes(k, a[0]) then d - 1 else d;
      ClosingSkips(k, a[1..], b, e);
    }
  }

  /** The bracket that ends a quiet group is found where the group ends. */
  lemma ClosingFound(k: Scan, a: string, c: char, b: string)
    requires Walk(k, a, 0) == Some(0) && Closes(k, c)
    ensures ClosingAt(k, a + [c] + b, 0) == Some(|a|)
  {
    ClosingSkips(k, a, [c] + b, 0);
    assert a + [c] + b == a + ([c] + b);
  }

  lemma {:induction false} SplitSkips(a: string, b: string, buf: string, d: nat)
    requires Walk(Commas, a, d).Some?
    ensures SplitFrom(a + b, buf, d) == SplitFrom(b, buf + a, Walk(Commas, a, d).value)
  {
    if a == "" {
      assert a + b == b && buf + a == buf;
    } else {
      assert (a + b)[1..] == a[1..] + b;
      assert buf + a == buf + [a[0]] + a[1..];
      var e := if Opens(Commas, a[0]) then d + 1 else if Closes(Commas, a[0]) then d - 1 else d;
      SplitSkips(a[1..], b, buf + [a[0]], e);
    }
  }

  /** The comma split undoes the printer's join. */
  lemma {:induction false} SplitUndoesJoin(parts: seq<string>)
    requires forall i :: 0 <= i < |parts| ==> parts[i] != "" && Quiet(Commas, parts[i])
    ensures SplitTopLevel(Join(parts, ",")) == parts
  {
    if |parts| > 0 {
      hide Walk;
      var p := parts[0];
      assert Walk(Commas, p, 0) == Some(0) && "" + p == p;
      if |parts| == 1 {
        SplitSkips(p, "", "", 0);
        assert p + "" == p;
      } else {
        var rest := Join(parts[1..], ",");
        SplitUndoesJoin(parts[1..]);
        SplitSkips(p, "," + rest, "", 0);
        assert p + "," + rest == p + ("," + rest) && ("," + rest)[1..] == rest;
      }
    }
  }
}
