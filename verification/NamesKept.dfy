/** What the Go name of a field keeps of its wire key, for keys of any shape. */
module NamesKept {
  import opened Text
  import opened Letters
  import opened Names

  /** A first letter made a capital. */
  function Capital(c: char): char {
    if 'a' <= c <= 'z' then ((c as int) - 32) as char else c
  }

  lemma CapitalIs(c: char)
    ensures UpperRune(c) == Capital(c)
  {
    Cases(c);
  }

  /** A segment that is no initialism keeps all its characters; only the first is made a capital. */
  lemma SegmentKept(seg: string)
    requires seg != "" && !IsInitialism(Lower(seg))
    ensures SegCase(seg) == [Capital(seg[0])] + seg[1..]
  {
    hide IsInitialism;
    CapitalIs(seg[0]);
    assert Upper(seg[..1]) == [UpperRune(seg[0])];
  }

  /** An initialism, however it is written, becomes all capitals. */
  lemma InitialismCapitals(seg: string)
    requires IsInitialism(Lower(seg))
    ensures |SegCase(seg)| == |seg| && forall i :: 0 <= i < |seg| ==> SegCase(seg)[i] == Capital(seg[i])
  {
    hide IsInitialism;
    forall i | 0 <= i < |seg| ensures UpperRune(seg[i]) == Capital(seg[i]) {
      CapitalIs(seg[i]);
    }
  }

  lemma NoKeyword(s: string)
    requires s != "" && !('a' <= s[0] <= 'z')
    ensures EscapeIdent(s) == s
  {
  }

  /** A key of one segment that is no initialism: its name is the key with a capital in front. */
  lemma NameKept(key: string)
    requires key != "" && '_' !in key && !IsInitialism(Lower(key))
    ensures FieldName(key) == [Capital(key[0])] + key[1..]
  {
    hide IsInitialism, SegCase, EscapeIdent;
    SplitPrefix(key, "", '_');
    SegmentKept(key);
    var s := [Capital(key[0])] + key[1..];
    assert CaseAll([key]) == s + CaseAll([]);
    assert s + "" == s;
    NoKeyword(s);
  }

  /** Two such keys that differ behind their first character have different names. */
  lemma NamesKeptApart(a: string, b: string)
    requires a != "" && '_' !in a && !IsInitialism(Lower(a)) && b != "" && '_' !in b && !IsInitialism(Lower(b))
    ensures FieldName(a) == FieldName(b) <==> Capital(a[0]) == Capital(b[0]) && a[1..] == b[1..]
  {
    hide FieldName, IsInitialism;
    NameKept(a);
    NameKept(b);
    assert FieldName(a)[1..] == a[1..] && FieldName(b)[1..] == b[1..];
  }

  lemma LowerOfCased(seg: string)
    ensures Lower(SegCase(seg)) == Lower(seg)
  {
    hide IsInitialism;
    forall c ensures LowerRune(UpperRune(c)) == LowerRune(c) {
    }
    if seg != "" && !IsInitialism(Lower(seg)) {
      assert seg == seg[..1] + seg[1..];
    }
  }

  lemma LowerConcat(a: string, b: string)
    ensures Lower(a + b) == Lower(a) + Lower(b)
  {
  }

  lemma {:induction false} LowerOfAll(parts: seq<string>)
    ensures Lower(CaseAll(parts)) == Lower(Join(parts, ""))
  {
    hide SegCase, Lower;
    if parts != [] {
      LowerOfCased(parts[0]);
      LowerOfAll(parts[1..]);
      LowerConcat(SegCase(parts[0]), CaseAll(parts[1..]));
      LowerConcat(parts[0], Join(parts[1..], ""));
      if |parts| == 1 {
        assert parts[0] + Join(parts[1..], "") == parts[0];
      } else {
        assert parts[0] + "" + Join(parts[1..], "") == parts[0] + Join(parts[1..], "");
      }
    }
  }

  /** The name of any key has all its characters but the underscores, in their order, and differs only in case. */
  lemma OnlyCaseChanges(key: string)
    ensures var kept := Join(Split(key, '_'), "");
            Lower(FieldName(key)) == if kept == "" then "field" else Lower(kept)
  {
    var parts := Split(key, '_');
    hide Split, Join, SegCase, IsKeyword;
    LowerOfAll(parts);
    var s := CaseAll(parts);
    assert |Lower(s)| == |s| && |Lower(Join(parts, ""))| == |Join(parts, "")|;
    if s != "" {
      CasedStart(parts);
      NoKeyword(s);
    } else {
      NoKeyword("Field");
      assert Lower("Field") == "field";
    }
  }

  /** A name never starts with a lower-case letter. */
  lemma {:induction false} CasedStart(parts: seq<string>)
    requires CaseAll(parts) != ""
    ensures !IsLower(CaseAll(parts)[0])
  {
    hide IsInitialism;
    var seg := parts[0];
    if seg == "" {
      CasedStart(parts[1..]);
      assert CaseAll(parts) == CaseAll(parts[1..]);
    } else if IsInitialism(Lower(seg)) {
      InitialismCapitals(seg);
    } else {
      SegmentKept(seg);
    }
  }

  /** Mixed case and capitals are kept, as in these keys of the specs. */
  lemma MixedCaseKept()
    ensures FieldName("numberedBullets") == "NumberedBullets" && FieldName("SWML") == "SWML"
  {
    hide FieldName;
    assert Lower("numberedBullets") == "numberedbullets" && Lower("SWML") == "swml";
    NameKept("numberedBullets");
    NameKept("SWML");
    assert [Capital('n')] + "numberedBullets"[1..] == "NumberedBullets";
    assert [Capital('S')] + "SWML"[1..] == "SWML";
  }

  /** The sixteen acronyms are written in capitals, and no other lower-case key is. */
  lemma Acronyms(key: string)
    requires IsSegment(key)
    ensures FieldName(key) ==
            if key in {"id", "ip", "api", "rpc", "sip", "sql", "tcp", "tls", "udp", "uri", "url", "xml",
                       "http", "json", "uuid", "https"}
            then seq(|key|, i requires 0 <= i < |key| => Capital(key[i]))
            else [Capital(key[0])] + key[1..]
  {
    LowerSegment(key);
    if IsInitialism(key) {
      hide SegCase, EscapeIdent, Lower;
      SplitPrefix(key, "", '_');
      InitialismCapitals(key);
      var s := SegCase(key);
      assert s == seq(|key|, i requires 0 <= i < |key| => Capital(key[i]));
      assert CaseAll([key]) == s + CaseAll([]);
      assert s + "" == s;
      NoKeyword(s);
    } else {
      NameKept(key);
    }
  }

  lemma {:induction false} FoldedIsLower(prev: Option<char>, s: string)
    ensures forall i :: 0 <= i < |SnakeFrom(prev, s)| ==> !IsUpper(SnakeFrom(prev, s)[i])
    decreases s
  {
    if s != "" {
      FoldedIsLower(Some(s[0]), s[1..]);
      Cases(s[0]);
    }
  }

  /** A key with a capital never makes the round trip: folding leaves none. */
  lemma CapitalsLost(key: string, i: nat)
    requires i < |key| && 'A' <= key[i] <= 'Z'
    ensures Snake(FieldName(key)) != key
  {
    hide FieldName, SnakeFrom;
    FoldedIsLower(None, FieldName(key));
  }

  /** No keyword of Go comes out of the escape, which leaves every other name alone. */
  lemma EscapedExactly(s: string)
    ensures var keywords := {
              "break", "case", "chan", "const", "continue", "default", "defer", "else", "fallthrough", "for", "func",
              "go", "goto", "if", "import", "interface", "map", "package", "range", "return", "select", "struct",
              "switch", "type", "var"
            };
            && EscapeIdent(s) !in keywords
            && EscapeIdent(s) == if s in keywords then s + "_" else s
  {
    var t := s + "_";
    assert t[|t| - 1] == '_';
  }

  /** Lower-case segments with digits, each with a letter in front, make a key of those the round trip is about. */
  lemma KeysAre(segs: seq<string>)
    requires segs != [] && forall i :: 0 <= i < |segs| ==> segs[i] != "" && 'a' <= segs[i][0] <= 'z'
    requires forall i, j :: 0 <= i < |segs| && 0 <= j < |segs[i]| ==>
               'a' <= segs[i][j] <= 'z' || '0' <= segs[i][j] <= '9'
    ensures IsKey(Join(segs, "_")) && Split(Join(segs, "_"), '_') == segs
  {
    SplitJoin(segs, '_');
  }
}
