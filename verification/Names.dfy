/** Wire keys as Go field names, and Go names folded back to snake case. */
module Names {
  import opened Text
  import opened Letters

  /** A word begins at `c`, standing between `prev` and the text `after`. */
  predicate Breaks(prev: Option<char>, c: char, after: string) {
    prev.Some? && IsUpper(c) && (IsLower(prev.value) || (after != "" && IsLower(after[0]) && IsUpper(prev.value)))
  }

  /** GoNameToSnake from the point where `prev` has been read. */
  function SnakeFrom(prev: Option<char>, s: string): string
    decreases s
  {
    if s == "" then ""
    else (if Breaks(prev, s[0], s[1..]) then "_" else "") + [LowerRune(s[0])] + SnakeFrom(Some(s[0]), s[1..])
  }

  function Snake(s: string): string {
    SnakeFrom(None, s)
  }

  /** The folding of `s` from position `i` on. */
  function SnakeAt(s: string, i: nat): string
    requires i <= |s|
  {
    SnakeFrom(if i == 0 then None else Some(s[i - 1]), s[i..])
  }

  lemma SnakeStep(s: string, i: nat)
    requires i < |s|
    ensures SnakeAt(s, i) ==
            (if i > 0 && IsUpper(s[i])
                && (IsLower(s[i - 1]) || (i + 1 < |s| && IsLower(s[i + 1]) && IsUpper(s[i - 1])))
             then "_" else "") + [LowerRune(s[i])] + SnakeAt(s, i + 1)
  {
    assert s[i..][1..] == s[i + 1..];
  }

  method GoNameToSnake(s: string) returns (out: string)
    ensures out == Snake(s)
  {
    hide SnakeAt;
    out := "";
    assert SnakeAt(s, 0) == Snake(s) by { assert s[0..] == s; SnakeStart(s); }
    for i := 0 to |s|
      invariant Snake(s) == out + SnakeAt(s, i)
    {
      SnakeStep(s, i);
      var r := s[i];
      if i > 0 {
        var prev := s[i - 1];
        if (IsUpper(r) && IsLower(prev)) || (IsUpper(r) && i + 1 < |s| && IsLower(s[i + 1]) && IsUpper(prev)) {
          out := out + "_";
        }
      }
      out := out + [LowerRune(r)];
    }
    SnakeStart(s);
  }

  lemma SnakeStart(s: string)
    ensures SnakeAt(s, 0) == Snake(s) && SnakeAt(s, |s|) == ""
  {
    assert s[0..] == s;
  }

  /** commonInitialisms */
  predicate IsInitialism(seg: string) {
    seg in {
      "id", "url", "uri", "api", "http", "https", "sip", "rpc", "json", "xml",
      "sql", "tls", "tcp", "udp", "ip", "uuid"
    }
  }

  predicate IsKeyword(s: string) {
    s in {
      "break", "case", "chan", "const", "continue", "default", "defer", "else", "fallthrough", "for",
      "func", "go", "goto", "if", "import", "interface", "map", "package", "range", "return", "select",
      "struct", "switch", "type", "var"
    }
  }

  function SegCase(seg: string): string {
    if seg == "" then ""
    else if IsInitialism(Lower(seg)) then Upper(seg)
    else Upper(seg[..1]) + seg[1..]
  }

  function EscapeIdent(s: string): string {
    if IsKeyword(s) then s + "_" else s
  }

  function CaseAll(parts: seq<string>): string {
    if parts == [] then "" else SegCase(parts[0]) + CaseAll(parts[1..])
  }

  /** structFieldName, as the loop below computes it. */
  function FieldName(field: string): string {
    var s := CaseAll(Split(field, '_'));
    EscapeIdent(if s == "" then "Field" else s)
  }

  lemma CaseStep(parts: seq<string>, i: nat)
    requires i < |parts|
    ensures CaseAll(parts[i..]) == SegCase(parts[i]) + CaseAll(parts[i + 1..])
    ensures parts[i] == "" ==> SegCase(parts[i]) == ""
  {
    assert parts[i..][1..] == parts[i + 1..];
  }

  lemma CaseEnds(parts: seq<string>)
    ensures CaseAll(parts[0..]) == CaseAll(parts) && CaseAll(parts[|parts|..]) == ""
  {
    assert parts[0..] == parts;
  }

  method StructFieldName(field: string) returns (r: string)
    ensures r == FieldName(field)
  {
    hide CaseAll, SegCase, EscapeIdent, Split;
    var parts := Split(field, '_');
    var b := "";
    CaseEnds(parts);
    for i := 0 to |parts|
      invariant CaseAll(parts) == b + CaseAll(parts[i..])
    {
      CaseStep(parts, i);
      if parts[i] == "" {
        continue;
      }
      b := b + SegCase(parts[i]);
    }
    assert CaseAll(parts) == b;
    if b == "" {
      b := "Field";
    }
    r := EscapeIdent(b);
  }

  // The round trip.

  /** A snake segment: a lower-case letter, then lower-case letters and digits. */
  predicate IsSegment(seg: string) {
    seg != "" && IsLower(seg[0]) && forall i :: 0 <= i < |seg| ==> IsLower(seg[i]) || '0' <= seg[i] <= '9'
  }

  predicate AreSegments(segs: seq<string>) {
    forall i :: 0 <= i < |segs| ==> IsSegment(segs[i])
  }

  /** The segment is written in capitals only. */
  predicate IsCapital(seg: string) {
    IsInitialism(seg) || |seg| == 1
  }

  /** The boundary between two segments can be seen in the Go name. */
  predicate Visible(a: string, b: string) {
    if IsCapital(a) then !IsInitialism(b) && |b| >= 2 && IsLower(b[1])
    else a != "" && IsLower(a[|a| - 1])
  }

  /** The segments with an underscore at the visible boundaries only. */
  function JoinVisible(segs: seq<string>): string {
    if |segs| == 0 then ""
    else if |segs| == 1 then segs[0]
    else segs[0] + (if Visible(segs[0], segs[1]) then "_" else "") + JoinVisible(segs[1..])
  }

  lemma InitialismLetters(seg: string)
    requires IsInitialism(seg)
    ensures |seg| >= 2 && forall i :: 0 <= i < |seg| ==> IsLower(seg[i])
  {
  }

  lemma LowerSegment(seg: string)
    requires IsSegment(seg)
    ensures Lower(seg) == seg
  {
  }

  lemma {:induction false} SnakePlain(prev: char, t: string, rest: string)
    requires forall i :: 0 <= i < |t| ==> IsLower(t[i]) || '0' <= t[i] <= '9'
    ensures SnakeFrom(Some(prev), t + rest) == t + SnakeFrom(Some(if t == "" then prev else t[|t| - 1]), rest)
    decreases t
  {
    if t == "" {
      assert t + rest == rest;
    } else {
      assert (t + rest)[1..] == t[1..] + rest;
      SnakePlain(t[0], t[1..], rest);
    }
  }

  /** The last character read once the capitals of `t` are read after `prev`. */
  function LastCapital(prev: char, t: string): char {
    if t == "" then prev else UpperRune(t[|t| - 1])
  }

  lemma {:induction false} SnakeCapitals(prev: char, t: string, rest: string)
    requires IsUpper(prev) && forall i :: 0 <= i < |t| ==> IsLower(t[i])
    requires rest == "" || IsUpper(rest[0])
    ensures SnakeFrom(Some(prev), Upper(t) + rest) == t + SnakeFrom(Some(LastCapital(prev, t)), rest)
    decreases t
  {
    if t == "" {
      assert Upper(t) + rest == rest;
    } else {
      var tail := SnakeFrom(Some(LastCapital(prev, t)), rest);
      var s := Upper(t) + rest;
      assert LastCapital(UpperRune(t[0]), t[1..]) == LastCapital(prev, t);
      CapitalsStep(t, rest);
      assert !Breaks(Some(prev), s[0], s[1..]);
      SnakeCapitals(UpperRune(t[0]), t[1..], rest);
      hide SnakeFrom, Upper, Breaks, LastCapital;
      UnfoldSnake(Some(prev), s);
      Assoc([t[0]], t[1..], tail);
      assert [t[0]] + t[1..] == t && "" + [t[0]] == [t[0]];
    }
  }

  lemma CapitalsStep(t: string, rest: string)
    requires t != "" && forall i :: 0 <= i < |t| ==> IsLower(t[i])
    requires rest == "" || IsUpper(rest[0])
    ensures var s := Upper(t) + rest;
            && s != "" && s[0] == UpperRune(t[0]) && LowerRune(s[0]) == t[0] && IsUpper(s[0])
            && s[1..] == Upper(t[1..]) + rest
            && (s[1..] == "" || IsUpper(s[1..][0]))
  {
    var s := Upper(t) + rest;
    assert s[1..] == Upper(t[1..]) + rest;
    assert |t| > 1 ==> s[1..][0] == UpperRune(t[1]);
  }

  /** What folding a cased segment gives: itself, after an underscore if a word begins there. */
  ghost predicate ReadBack(prev: Option<char>, c: string, seg: string, rest: string)
    requires c != ""
  {
    SnakeFrom(prev, c + rest) ==
      (if Breaks(prev, c[0], (c + rest)[1..]) then "_" else "") + seg + SnakeFrom(Some(c[|c| - 1]), rest)
  }

  lemma ReadBackTail(prev: Option<char>, c: string, seg: string, rest: string)
    requires c != "" && seg != "" && |c| == |seg| && LowerRune(c[0]) == seg[0]
    requires SnakeFrom(Some(c[0]), c[1..] + rest) == seg[1..] + SnakeFrom(Some(c[|c| - 1]), rest)
    ensures ReadBack(prev, c, seg, rest)
  {
    hide SnakeFrom, Breaks;
    var s := c + rest;
    assert s[0] == c[0] && s[1..] == c[1..] + rest;
    var mark := if Breaks(prev, s[0], s[1..]) then "_" else "";
    UnfoldSnake(prev, s);
    Assoc4(mark, [seg[0]], seg[1..], SnakeFrom(Some(c[|c| - 1]), rest));
    assert [seg[0]] + seg[1..] == seg;
  }

  lemma UnfoldSnake(prev: Option<char>, s: string)
    requires s != ""
    ensures SnakeFrom(prev, s) ==
            (if Breaks(prev, s[0], s[1..]) then "_" else "") + [LowerRune(s[0])] + SnakeFrom(Some(s[0]), s[1..])
  {
  }

  /** One cased segment is read back as itself. */
  lemma SnakeSegment(prev: Option<char>, seg: string, rest: string)
    requires IsSegment(seg) && (rest == "" || IsUpper(rest[0]))
    ensures var c := SegCase(seg); c != "" && IsUpper(c[0]) && ReadBack(prev, c, seg, rest)
  {
    hide IsInitialism, ReadBack;
    var c := SegCase(seg);
    LowerSegment(seg);
    if IsInitialism(seg) {
      InitialismLetters(seg);
      assert c == Upper(seg) && c[1..] == Upper(seg[1..]);
      SnakeCapitals(c[0], seg[1..], rest);
      assert LastCapital(c[0], seg[1..]) == c[|c| - 1];
    } else {
      assert c == [UpperRune(seg[0])] + seg[1..];
      SnakePlain(c[0], seg[1..], rest);
    }
    ReadBackTail(prev, c, seg, rest);
  }

  lemma LastOfInitialism(a: string)
    requires IsSegment(a) && IsInitialism(a)
    ensures SegCase(a) != "" && SegCase(a)[|SegCase(a)| - 1] == UpperRune(a[|a| - 1]) && IsUpper(UpperRune(a[|a| - 1]))
  {
    LowerSegment(a);
    InitialismLetters(a);
    hide IsInitialism, IsSegment, Lower;
    assert SegCase(a) == Upper(a);
  }

  lemma LastOfTitle(a: string)
    requires IsSegment(a) && !IsInitialism(a)
    ensures var c := SegCase(a);
            c != "" && c[|c| - 1] == if |a| == 1 then UpperRune(a[0]) else a[|a| - 1]
    ensures IsUpper(UpperRune(a[0]))
  {
    LowerSegment(a);
    hide IsInitialism, Lower;
    assert SegCase(a) == Upper(a[..1]) + a[1..];
    hide SegCase;
    assert Upper(a[..1]) == [UpperRune(a[0])];
  }

  /** The last character of a cased segment is a capital exactly for segments written in capitals. */
  lemma LastCased(a: string)
    requires IsSegment(a)
    ensures var c := SegCase(a);
            c != "" && c[|c| - 1] == if IsCapital(a) then UpperRune(a[|a| - 1]) else a[|a| - 1]
    ensures IsCapital(a) ==> IsUpper(UpperRune(a[|a| - 1]))
  {
    if IsInitialism(a) {
      LastOfInitialism(a);
    } else {
      LastOfTitle(a);
    }
    hide IsInitialism, SegCase;
  }

  /** The second character of a cased segment, read on into what follows. */
  lemma SecondCased(b: string, rest: string)
    requires IsSegment(b) && (rest == "" || IsUpper(rest[0]))
    ensures var c := SegCase(b);
            && c != "" && IsUpper(c[0])
            && var after := (c + rest)[1..];
               (after != "" && IsLower(after[0]) <==> !IsInitialism(b) && |b| >= 2 && IsLower(b[1]))
  {
    LowerSegment(b);
    var c := SegCase(b);
    if IsInitialism(b) {
      InitialismLetters(b);
      assert (c + rest)[1..][0] == UpperRune(b[1]);
    } else if |b| >= 2 {
      assert (c + rest)[1..][0] == b[1];
    } else {
      assert (c + rest)[1..] == rest;
    }
  }

  /** An underscore is put in front of a segment exactly where the boundary can be seen. */
  lemma BreaksWhereVisible(a: string, b: string, rest: string)
    requires IsSegment(a) && IsSegment(b) && (rest == "" || IsUpper(rest[0]))
    ensures var c, d := SegCase(a), SegCase(b);
            c != "" && d != "" && (Breaks(Some(c[|c| - 1]), d[0], (d + rest)[1..]) <==> Visible(a, b))
  {
    hide SegCase, IsInitialism;
    LastCased(a);
    SecondCased(b, rest);
  }

  lemma CaseAllStarts(segs: seq<string>)
    requires AreSegments(segs)
    ensures segs == [] ==> CaseAll(segs) == ""
    ensures segs != [] ==> CaseAll(segs) != "" && IsUpper(CaseAll(segs)[0])
  {
    if segs != [] {
      hide SegCase;
      SecondCased(segs[0], "");
    }
  }

  /** The text that follows a cased segment `a` in the folded name. */
  function VisibleRest(a: string, segs: seq<string>): string {
    (if segs != [] && Visible(a, segs[0]) then "_" else "") + JoinVisible(segs)
  }

  lemma JoinVisibleStep(segs: seq<string>)
    requires segs != []
    ensures JoinVisible(segs) == segs[0] + VisibleRest(segs[0], segs[1..])
  {
  }

  lemma SnakeNext(p: char, a: string, b: string, rest: string, tail: string)
    requires IsSegment(a) && IsSegment(b) && (rest == "" || IsUpper(rest[0]))
    requires SegCase(a) != "" && p == SegCase(a)[|SegCase(a)| - 1]
    requires SegCase(b) != "" && SnakeFrom(Some(SegCase(b)[|SegCase(b)| - 1]), rest) == tail
    ensures SnakeFrom(Some(p), SegCase(b) + rest) == (if Visible(a, b) then "_" else "") + b + tail
  {
    hide SegCase, Visible, Breaks, IsSegment, SnakeFrom;
    BreaksWhereVisible(a, b, rest);
    SnakeSegment(Some(p), b, rest);
  }

  lemma {:induction false} SnakeAfter(a: string, segs: seq<string>)
    requires IsSegment(a) && AreSegments(segs)
    ensures SegCase(a) != "" && SnakeFrom(Some(SegCase(a)[|SegCase(a)| - 1]), CaseAll(segs)) == VisibleRest(a, segs)
    decreases segs
  {
    LastCased(a);
    hide SegCase, Visible, IsSegment, SnakeFrom;
    var p := SegCase(a)[|SegCase(a)| - 1];
    SnakeEmpty(Some(p));
    if segs != [] {
      CaseAllStarts(segs[1..]);
      SnakeAfter(segs[0], segs[1..]);
      SnakeNext(p, a, segs[0], CaseAll(segs[1..]), VisibleRest(segs[0], segs[1..]));
      JoinVisibleStep(segs);
      hide VisibleRest, JoinVisible;
      VisibleRestIs(a, segs);
      Assoc(if Visible(a, segs[0]) then "_" else "", segs[0], VisibleRest(segs[0], segs[1..]));
    }
  }

  lemma VisibleRestIs(a: string, segs: seq<string>)
    requires segs != []
    ensures VisibleRest(a, segs) == (if Visible(a, segs[0]) then "_" else "") + JoinVisible(segs)
  {
  }

  lemma SnakeEmpty(prev: Option<char>)
    ensures SnakeFrom(prev, "") == ""
  {
  }

  /** The folded Go name of a key: its segments, with underscores at the visible boundaries. */
  lemma SnakeOfCased(segs: seq<string>)
    requires AreSegments(segs) && segs != []
    ensures Snake(CaseAll(segs)) == JoinVisible(segs)
  {
    hide SegCase, Visible, IsSegment, SnakeFrom;
    CaseAllStarts(segs[1..]);
    SnakeSegment(None, segs[0], CaseAll(segs[1..]));
    SnakeAfter(segs[0], segs[1..]);
    JoinVisibleStep(segs);
  }

  predicate AllVisible(segs: seq<string>) {
    forall i :: 0 < i < |segs| ==> Visible(segs[i - 1], segs[i])
  }

  lemma {:induction false} JoinVisibleIs(segs: seq<string>)
    ensures |JoinVisible(segs)| <= |Join(segs, "_")|
    ensures JoinVisible(segs) == Join(segs, "_") <==> AllVisible(segs)
    ensures |JoinVisible(segs)| == |Join(segs, "_")| ==> AllVisible(segs)
  {
    hide Visible;
    if |segs| > 1 {
      var rest := segs[1..];
      JoinVisibleIs(rest);
      assert AllVisible(segs) <==> Visible(segs[0], segs[1]) && AllVisible(rest) by {
        forall i | 0 < i < |rest| ensures rest[i - 1] == segs[i] && rest[i] == segs[i + 1] {
        }
        if Visible(segs[0], segs[1]) && AllVisible(rest) {
          forall i | 0 < i < |segs| ensures Visible(segs[i - 1], segs[i]) {
            assert i > 1 ==> Visible(rest[i - 2], rest[i - 1]);
          }
        }
        if AllVisible(segs) {
          forall i | 0 < i < |rest| ensures Visible(rest[i - 1], rest[i]) {
            assert Visible(segs[i], segs[i + 1]);
          }
        }
      }
      if Visible(segs[0], segs[1]) {
        assert JoinVisible(segs) == segs[0] + "_" + JoinVisible(rest);
        if JoinVisible(segs) == Join(segs, "_") {
          assert JoinVisible(rest) == JoinVisible(segs)[|segs[0]| + 1..] == Join(rest, "_");
        }
      }
    }
  }

  /** A snake key: segments joined by underscores. */
  predicate IsKey(k: string) {
    AreSegments(Split(k, '_'))
  }

  lemma KeywordsLower(s: string)
    requires IsKeyword(s)
    ensures s != "" && IsLower(s[0])
  {
  }

  lemma FieldNameOf(k: string)
    requires IsKey(k)
    ensures FieldName(k) == CaseAll(Split(k, '_'))
  {
    hide IsKeyword;
    CaseAllStarts(Split(k, '_'));
    if IsKeyword(FieldName(k)) || IsKeyword(CaseAll(Split(k, '_'))) {
      if IsKeyword(CaseAll(Split(k, '_'))) { KeywordsLower(CaseAll(Split(k, '_'))); }
    }
  }

  /** Folding a key's Go name gives the key back exactly when every segment boundary can be seen. */
  lemma RoundTripExactly(k: string)
    requires IsKey(k)
    ensures Snake(FieldName(k)) == k <==> AllVisible(Split(k, '_'))
  {
    var segs := Split(k, '_');
    hide AllVisible, IsSegment, FieldName, CaseAll, Snake;
    FieldNameOf(k);
    SnakeOfCased(segs);
    JoinVisibleIs(segs);
    JoinSplit(k, '_');
  }

  /** Keys that make the round trip have different Go names. */
  lemma FieldNamesDiffer(k: string, j: string)
    requires IsKey(k) && IsKey(j) && AllVisible(Split(k, '_')) && AllVisible(Split(j, '_')) && k != j
    ensures FieldName(k) != FieldName(j)
  {
    RoundTripExactly(k);
    RoundTripExactly(j);
  }

  lemma TwoSegments(a: string, b: string)
    requires IsSegment(a) && IsSegment(b)
    ensures Split(a + "_" + b, '_') == [a, b] && IsKey(a + "_" + b)
  {
    assert a + ['_'] + b == a + "_" + b;
    SplitPrefix(a, b, '_');
    SplitPrefix(b, "", '_');
    assert [a] + [b] == [a, b];
  }

  /** An initialism after an initialism, or after a digit, is not folded back: ip_id, line2_id. */
  lemma BoundaryLost(a: string, b: string)
    requires IsSegment(a) && IsSegment(b)
    requires IsInitialism(b) && (IsInitialism(a) || (|a| >= 2 && !IsLower(a[|a| - 1])))
    ensures Snake(FieldName(a + "_" + b)) != a + "_" + b
  {
    TwoSegments(a, b);
    RoundTripExactly(a + "_" + b);
    assert !Visible([a, b][0], [a, b][1]);
  }
}
