/** The text of the emitted paths: which form an operation gets, the names of its arguments, and the joined paths. */
module UrlText {
  import opened Text
  import opened Fresh
  import opened UrlCode
  import opened UrlPaths

  // ---- joined paths ----

  function Slashes(n: nat): string {
    seq(n, _ => '/')
  }

  lemma {:induction false} TrimmedLeft(n: nat, s: string)
    requires s == "" || s[0] != '/'
    ensures TrimLeftSlashes(Slashes(n) + s) == s
  {
    if n == 0 {
      assert Slashes(n) + s == s;
    } else {
      assert (Slashes(n) + s)[1..] == Slashes(n - 1) + s;
      TrimmedLeft(n - 1, s);
    }
  }

  lemma {:induction false} TrimmedRight(s: string, n: nat)
    requires s == "" || s[|s| - 1] != '/'
    ensures TrimRightSlashes(s + Slashes(n)) == s
  {
    if n == 0 {
      assert s + Slashes(n) == s;
    } else {
      var t := s + Slashes(n);
      assert t[..|t| - 1] == s + Slashes(n - 1);
      TrimmedRight(s, n - 1);
    }
  }

  /** Two paths are joined with one slash, however many the first ends with and the second begins with. */
  lemma JoinedText(a: string, n: nat, m: nat, b: string)
    requires (a == "" || a[|a| - 1] != '/') && (b == "" || b[0] != '/')
    ensures JoinPath(a, "") == a
    ensures Slashes(m) + b != "" ==> JoinPath(a + Slashes(n), Slashes(m) + b) == a + "/" + b
  {
    TrimmedRight(a, n);
    TrimmedLeft(m, b);
  }

  // ---- the form ----

  /**
   * An operation whose path lies below the collection's is a call of Path with one operand for each segment behind
   * it; one on the collection itself is the base; any other is spelled out in full.
   */
  lemma FormOf(coll: string, serverPath: string, opPath: string)
    requires RelativeTail(coll, serverPath, opPath).sibling ==> Closed(JoinPath(serverPath, TrimSlash(opPath)))
    ensures var full, abs, code :=
              JoinPath(serverPath, coll), JoinPath(serverPath, opPath), PathCode(coll, serverPath, opPath);
            && (forall rest :: coll != "" && rest != "" && abs == full + "/" + rest ==>
                  var segs := Split(rest, '/');
                  code == "r.Path(" + Join(ShowAll(Operands(segs, ArgNames(segs, []))), ", ") + ")")
            && (coll != "" && (abs == full || abs == full + "/") ==> code == "r.Base")
            && (coll == "" || (abs != full && forall rest :: abs != full + "/" + rest) ==>
                  && Closed(JoinPath(serverPath, TrimSlash(opPath)))
                  && code == Absolute(JoinPath(serverPath, TrimSlash(opPath)),
                                      ArgNames(SplitSegs(TrimSlash(abs)), [])))
  {
    hide JoinPath, Closed, Absolute, ArgNames, Operands, ShowAll, Split, TrimSlash;
    var full, abs := JoinPath(serverPath, coll), JoinPath(serverPath, opPath);
    forall rest | abs == full + "/" + rest
      ensures full + "/" <= abs && abs[|full| + 1..] == rest
    {
    }
    if full + "/" <= abs {
      assert abs == full + "/" + abs[|full| + 1..];
      assert abs != full;
    }
    assert abs == full + "/" ==> abs == full + "/" + "";
  }

  // ---- arguments ----

  /** The names that the parameters of the specs get, and the one that all others share. */
  lemma ArgumentNames(brace: string)
    ensures ArgNames(["{" + brace + "}"], []) ==
            [if brace == "queue_id" then "queueID"
             else if brace == "NumberGroupId" then "groupID"
             else if brace == "documentId" then "documentID"
             else if brace == "chunkId" then "chunkID"
             else if brace == "mfa_request_id" then "requestID"
             else if brace == "e164_number" then "e164"
             else if brace == "fabric_subscriber_id" then "subscriberID"
             else if brace == "token_id" then "tokenID"
             else "id"]
  {
    OneArgument("{" + brace + "}", brace, []);
    FreeOfNone(ArgFor(brace));
    assert ArgNames([], [ArgFor(brace)]) == [];
  }

  lemma OneArgument(seg: string, brace: string, taken: seq<string>)
    requires seg == "{" + brace + "}"
    ensures IsParam(seg) && ArgNames([seg], taken) == [Free(ArgFor(brace), SetOf(taken), '2')]
  {
    hide ArgFor, Free;
    assert seg[1..|seg| - 1] == brace && [seg][1..] == [];
    assert ArgNames([], taken + [ArgName(seg, taken)]) == [];
  }

  lemma FreeOfNone(name: string)
    ensures Free(name, SetOf([]), '2') == name
  {
    assert SetOf([]) == {};
  }

  /** A second parameter of the same name is told apart by a 2. */
  lemma SecondArgument(a: string, b: string)
    requires ArgNames(["{" + a + "}"], []) == ["id"] && ArgNames(["{" + b + "}"], []) == ["id"]
    ensures ArgNames(["{" + a + "}", "{" + b + "}"], []) == ["id", "id2"]
  {
    var p, q := "{" + a + "}", "{" + b + "}";
    OneArgument(p, a, []);
    OneArgument(q, b, []);
    OneArgument(q, b, ["id"]);
    FreeOfNone(ArgFor(a));
    FreeOfNone(ArgFor(b));
    assert [p, q][1..] == [q] && [] + ["id"] == ["id"];
    assert ArgName(p, []) == "id";
    SecondId();
  }

  lemma SecondId()
    ensures Free("id", SetOf(["id"]), '2') == "id2"
  {
    assert SetOf(["id"]) == {"id"} && "id" + ['2'] == "id2";
    assert Free("id2", {"id"}, '2') == "id2";
  }

  // ---- literals ----

  /** The text of a Go string literal behind its opening quote: what it denotes up to the closing one. */
  function Denoted(s: string): Option<string> {
    if s == "" then None
    else if s[0] == '"' then (if |s| == 1 then Some("") else None)
    else if s[0] == '\\' then
      if |s| == 1 then None
      else (match Denoted(s[2..]) case None => None case Some(rest) => Some([s[1]] + rest))
    else (match Denoted(s[1..]) case None => None case Some(rest) => Some([s[0]] + rest))
  }

  lemma {:induction false} EscapeDenotes(s: string)
    ensures Denoted(Escape(s) + "\"") == Some(s)
  {
    if s != "" {
      EscapeDenotes(s[1..]);
      var t := Escape(s[1..]) + "\"";
      if s[0] == '"' || s[0] == '\\' {
        assert Escape(s) + "\"" == ['\\', s[0]] + t;
        assert (['\\', s[0]] + t)[2..] == t;
      } else {
        assert Escape(s) + "\"" == [s[0]] + t;
        assert ([s[0]] + t)[1..] == t;
      }
      assert [s[0]] + s[1..] == s;
    }
  }

  /** A quoted text denotes the text, quotes and backslashes included. */
  lemma QuoteDenotes(s: string)
    ensures Quote(s) != "" && Quote(s)[0] == '"' && Denoted(Quote(s)[1..]) == Some(s)
  {
    EscapeDenotes(s);
    assert Quote(s)[1..] == Escape(s) + "\"";
  }

  /** The texts that need no escape, by their codes: printable ASCII but the quote and the backslash. */
  lemma PlainExactly(s: string)
    ensures Plain(s) <==> forall i :: 0 <= i < |s| ==>
              32 <= s[i] as int <= 126 && s[i] as int != 34 && s[i] as int != 92
  {
    if Plain(s) {
      forall i | 0 <= i < |s| ensures PlainChar(s[i]) {
        assert s[i] in s;
      }
    }
  }

  /** The argument names that an evaluator can read, by their codes: letters and digits. */
  lemma IdentExactly(s: string)
    ensures IsIdent(s) <==> s != "" && forall i :: 0 <= i < |s| ==>
              48 <= s[i] as int <= 57 || 65 <= s[i] as int <= 90 || 97 <= s[i] as int <= 122
  {
    if IsIdent(s) {
      forall i | 0 <= i < |s| ensures IsAlnum(s[i]) {
        assert s[i] in s;
      }
    }
  }

  /** Path puts the parts behind the base, each behind a slash; without parts it is the base. */
  lemma {:induction false} PathText(base: string, parts: seq<string>, last: string)
    ensures Path(base, []) == base && Path(base, parts + [last]) == Path(base, parts) + "/" + last
  {
    if parts == [] {
      assert [] + [last] == [last];
    } else {
      JoinSnoc(parts, last);
      assert base + "/" + (Join(parts, "/") + "/" + last) == base + "/" + Join(parts, "/") + "/" + last;
    }
  }

  lemma {:induction false} JoinSnoc(parts: seq<string>, last: string)
    requires parts != []
    ensures Join(parts + [last], "/") == Join(parts, "/") + "/" + last
  {
    var all := parts + [last];
    assert all[1..] == parts[1..] + [last];
    if |parts| > 1 {
      JoinSnoc(parts[1..], last);
      var rest := Join(parts[1..], "/");
      assert parts[0] + "/" + (rest + "/" + last) == parts[0] + "/" + rest + "/" + last;
    } else {
      assert all[1..] == [last];
    }
  }
}
