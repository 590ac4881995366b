/** Giving the fields of one struct different Go names. */
module FieldNames {
  import opened Letters
  import opened Text
  import opened Names
  import opened Fresh

  function Assign(fields: seq<string>, used: set<string>): seq<string>
    decreases fields
  {
    if fields == [] then []
    else
      var fn := Free(FieldName(fields[0]), used, '_');
      [fn] + Assign(fields[1..], used + {fn})
  }

  /** One round of the naming loop. */
  lemma AssignStep(fields: seq<string>, i: nat, names: seq<string>, used: set<string>)
    requires i < |fields|
    ensures var fn := Free(FieldName(fields[i]), used, '_');
            names + Assign(fields[i..], used) == names + [fn] + Assign(fields[i + 1..], used + {fn})
  {
    hide FieldName, Free;
    assert fields[i..][1..] == fields[i + 1..];
  }

  /** The naming loop of the params structs (with "Extras" taken) and of the type structs (with none). */
  method NameFields(fields: seq<string>, reserved: set<string>) returns (names: seq<string>)
    ensures names == Assign(fields, reserved)
  {
    hide FieldName, Free, Assign;
    var used := reserved;
    names := [];
    AssignEnds(fields, used);
    for i := 0 to |fields|
      invariant Assign(fields, reserved) == names + Assign(fields[i..], used)
    {
      AssignStep(fields, i, names, used);
      var fn := StructFieldName(fields[i]);
      fn := Lengthen(fn, used, '_');
      used := used + {fn};
      names := names + [fn];
    }
    AssignEnds(fields, used);
    assert names + [] == names;
  }

  lemma AssignEnds(fields: seq<string>, used: set<string>)
    ensures fields[0..] == fields && [] + Assign(fields, used) == Assign(fields, used)
    ensures Assign(fields[|fields|..], used) == []
  {
  }

  /** Whatever the keys, the names are pairwise different and none of them is reserved. */
  lemma {:induction false} NamesDiffer(fields: seq<string>, used: set<string>)
    ensures var names := Assign(fields, used);
            && |names| == |fields|
            && (forall i :: 0 <= i < |names| ==> names[i] !in used && FieldName(fields[i]) <= names[i])
            && (forall i, j :: 0 <= i < j < |names| ==> names[i] != names[j])
    decreases fields
  {
    if fields != [] {
      var fn := Free(FieldName(fields[0]), used, '_');
      FreeIsFree(FieldName(fields[0]), used, '_');
      NamesDiffer(fields[1..], used + {fn});
      var names, rest := Assign(fields, used), Assign(fields[1..], used + {fn});
      assert names == [fn] + rest;
      forall i | 0 < i < |names| ensures names[i] == rest[i - 1] && fields[i] == fields[1..][i - 1] {
      }
    }
  }

  /** Different keys, each of which makes the round trip through its Go name. */
  ghost predicate Foldable(fields: seq<string>) {
    && (forall i :: 0 <= i < |fields| ==> IsKey(fields[i]) && AllVisible(Split(fields[i], '_')))
    && (forall i, j :: 0 <= i < j < |fields| ==> fields[i] != fields[j])
  }

  lemma ExtrasName()
    ensures IsKey("extras") && AllVisible(Split("extras", '_')) && FieldName("extras") == "Extras"
  {
    SplitPrefix("extras", "", '_');
    ExtrasSegment();
    hide SegCase, IsSegment, Split, FieldName;
    var segs := Split("extras", '_');
    assert segs == ["extras"] && segs[1..] == [];
    assert CaseAll(segs) == SegCase("extras") + CaseAll(segs[1..]);
    FieldNameOf("extras");
  }

  lemma ExtrasSegment()
    ensures IsSegment("extras") && SegCase("extras") == "Extras"
  {
    LowerSegment("extras");
    assert !IsInitialism("extras");
    hide IsInitialism, Lower;
    assert Upper("extras"[..1]) == "E" && "extras"[1..] == "xtras";
  }

  lemma {:induction false} CasedHasNoUnderscore(segs: seq<string>)
    requires AreSegments(segs)
    ensures '_' !in CaseAll(segs)
  {
    if segs != [] {
      CasedHasNoUnderscore(segs[1..]);
      SegmentHasNoUnderscore(segs[0]);
    }
  }

  lemma SegmentHasNoUnderscore(seg: string)
    requires IsSegment(seg)
    ensures '_' !in SegCase(seg)
  {
    hide IsInitialism;
    assert forall i :: 0 <= i < |seg| ==> UpperRune(seg[i]) != '_' && seg[i] != '_';
  }

  function ParamName(field: string): string {
    if field == "extras" then "Extras_" else FieldName(field)
  }

  lemma ParamNamesDiffer(f: string, g: string)
    requires Foldable([f]) && Foldable([g]) && f != g
    ensures ParamName(f) != ParamName(g)
    ensures FieldName(f) == "Extras" <==> f == "extras"
    ensures FieldName(f) != "Extras_"
  {
    assert [f][0] == f && [g][0] == g;
    ExtrasName();
    FieldNameOf(f);
    FieldNameOf(g);
    CasedHasNoUnderscore(Split(f, '_'));
    CasedHasNoUnderscore(Split(g, '_'));
    assert '_' in "Extras_" by { assert "Extras_"[6] == '_'; }
    hide FieldName, AllVisible, IsKey;
    FieldNamesDiffer(f, g);
    if f != "extras" {
      FieldNamesDiffer(f, "extras");
    }
  }

  /** The names in use once the keys in `done` have theirs. */
  function Taken(done: seq<string>): set<string> {
    {"Extras"} + set g | g in done :: ParamName(g)
  }

  lemma TakenMore(done: seq<string>, f: string)
    ensures Taken(done + [f]) == Taken(done) + {ParamName(f)}
  {
    assert forall g :: g in done + [f] <==> g in done || g == f;
  }

  lemma FoldablePair(done: seq<string>, f: string, i: nat)
    requires Foldable(done + [f]) && i < |done|
    ensures Foldable([done[i]]) && done[i] != f
  {
    var all := done + [f];
    assert all[i] == done[i] && all[|done|] == f;
  }

  lemma FoldableLast(done: seq<string>, f: string)
    requires Foldable(done + [f])
    ensures Foldable([f])
  {
    assert (done + [f])[|done|] == f;
  }

  lemma FoldableExtras()
    ensures Foldable(["extras"])
  {
    ExtrasName();
  }

  /** A key not in `done` may still take its own name. */
  lemma StillFree(done: seq<string>, f: string)
    requires Foldable(done + [f])
    ensures ParamName(f) !in Taken(done)
    ensures FieldName(f) in Taken(done) <==> f == "extras"
  {
    hide Foldable, FieldName, IsKey, AllVisible, Split;
    FoldableLast(done, f);
    ExtrasName();
    FoldableExtras();
    forall g | g in done ensures ParamName(g) != ParamName(f) && ParamName(g) != FieldName(f) {
      var i :| 0 <= i < |done| && done[i] == g;
      FoldablePair(done, f, i);
      ParamNamesDiffer(f, g);
      ParamNamesDiffer(g, f);
    }
    if f != "extras" {
      ParamNamesDiffer(f, "extras");
    }
  }

  /** The name the loop settles on for the next key. */
  lemma NextFree(done: seq<string>, f: string)
    requires Foldable(done + [f])
    ensures Free(FieldName(f), Taken(done), '_') == ParamName(f)
  {
    hide Foldable, FieldName, Taken, Longer;
    StillFree(done, f);
    if f == "extras" {
      ExtrasName();
      assert "Extras" + ['_'] == "Extras_";
      assert Free("Extras_", Taken(done), '_') == "Extras_";
    }
  }

  /** Next to the "Extras" field of a params struct, only the key "extras" has to be renamed. */
  lemma OnlyExtrasRenamed(fields: seq<string>)
    requires Foldable(fields)
    ensures var names := Assign(fields, {"Extras"});
            |names| == |fields| && forall i :: 0 <= i < |fields| ==> names[i] == ParamName(fields[i])
  {
    assert [] + fields == fields;
    assert Taken([]) == {"Extras"};
    AssignAfter([], fields);
  }

  lemma FoldablePrefix(a: seq<string>, b: seq<string>)
    requires Foldable(a + b)
    ensures Foldable(a)
  {
    assert forall i :: 0 <= i < |a| ==> (a + b)[i] == a[i];
  }

  lemma {:induction false} AssignAfter(done: seq<string>, fields: seq<string>)
    requires Foldable(done + fields)
    ensures var names := Assign(fields, Taken(done));
            |names| == |fields| && forall i :: 0 <= i < |fields| ==> names[i] == ParamName(fields[i])
    decreases fields
  {
    if fields != [] {
      hide Foldable, Taken, Free, FieldName, ParamName;
      var f := fields[0];
      assert done + fields == (done + [f]) + fields[1..];
      FoldablePrefix(done + [f], fields[1..]);
      NextFree(done, f);
      TakenMore(done, f);
      AssignAfter(done + [f], fields[1..]);
    }
  }
}
