/** The Go types of the REST specs: their names, and the one declaration each name gets in the package. */
module TypeDedup {
  import opened Text
  import opened Letters

  // ---- names ----

  predicate IsIdentChar(c: char) {
    'A' <= c <= 'Z' || 'a' <= c <= 'z' || '0' <= c <= '9' || c == '_'
  }

  function Fold(raw: string): (r: string)
    ensures |r| == |raw|
  {
    seq(|raw|, i requires 0 <= i < |raw| => if IsIdentChar(raw[i]) then raw[i] else '_')
  }

  function TrimUnderscores(s: string): string {
    if s != "" && s[0] == '_' then TrimUnderscores(s[1..]) else s
  }

  function TypeGoName(raw: string): string {
    var s := TrimUnderscores(Fold(raw));
    if s == "" then "Schema"
    else
      var t := if '0' <= s[0] <= '9' then "Schema_" + s else s;
      if IsLower(t[0]) then [UpperRune(t[0])] + t[1..] else t
  }

  /** An identifier that Go exports; no keyword is one. */
  predicate IsExported(s: string) {
    s != "" && IsUpper(s[0]) && forall c :: c in s ==> IsIdentChar(c)
  }

  lemma {:induction false} TrimmedIs(s: string)
    ensures var t := TrimUnderscores(s);
            && |t| <= |s| && t == s[|s| - |t|..] && (t != "" ==> t[0] != '_') && (s != "" && s[0] != '_' ==> t == s)
  {
    if s != "" && s[0] == '_' {
      TrimmedIs(s[1..]);
    }
  }

  /** The builder loop and the three repairs. */
  method BuildTypeGoName(raw: string) returns (s: string)
    ensures s == TypeGoName(raw)
  {
    var b := "";
    for i := 0 to |raw|
      invariant b == Fold(raw)[..i]
    {
      var r := raw[i];
      if IsIdentChar(r) {
        b := b + [r];
      } else {
        b := b + ['_'];
      }
    }
    assert b == Fold(raw);
    s := TrimUnderscores(b);
    if s == "" {
      return "Schema";
    }
    if '0' <= s[0] <= '9' {
      s := "Schema_" + s;
    }
    if IsLower(s[0]) {
      s := [UpperRune(s[0])] + s[1..];
    }
  }

  /** Every emitted name is an exported identifier. */
  lemma NameIsExported(raw: string)
    ensures IsExported(TypeGoName(raw))
  {
    var f := Fold(raw);
    var s := TrimUnderscores(f);
    TrimmedIs(f);
    forall i | 0 <= i < |s| ensures IsIdentChar(s[i]) {
      assert s[i] == f[|f| - |s| + i];
    }
    var r := TypeGoName(raw);
    forall i | 0 <= i < |r| ensures IsIdentChar(r[i]) {
      assert s != "" && '0' <= s[0] <= '9' ==> r == "Schema_" + s;
      assert s != "" && !('0' <= s[0] <= '9') ==> |r| == |s| && (i > 0 ==> r[i] == s[i]);
    }
  }

  /** The names left as they are are exactly the exported identifiers; hence naming twice changes nothing. */
  lemma NameKept(raw: string)
    ensures TypeGoName(raw) == raw <==> IsExported(raw)
    ensures TypeGoName(TypeGoName(raw)) == TypeGoName(raw)
  {
    NameIsExported(raw);
    if IsExported(raw) {
      ExportedKept(raw);
    }
    ExportedKept(TypeGoName(raw));
  }

  lemma ExportedKept(s: string)
    requires IsExported(s)
    ensures TypeGoName(s) == s
  {
    assert Fold(s) == s by {
      assert forall i :: 0 <= i < |s| ==> s[i] in s;
    }
    TrimmedIs(s);
  }

  predicate IsWord(c: char) {
    'A' <= c <= 'Z' || 'a' <= c <= 'z' || '0' <= c <= '9'
  }

  /**
   * The name of any key: what stands before its first letter or digit is dropped; that character is made a capital,
   * or stands behind "Schema_" if it is a digit; behind it, what is no letter, digit or underscore becomes one.
   */
  lemma NameText(junk: string, c: char, rest: string)
    requires (forall x :: x in junk ==> !IsWord(x)) && IsWord(c)
    ensures TypeGoName(junk) == "Schema"
    ensures TypeGoName(junk + [c] + rest)
            == (if '0' <= c <= '9' then "Schema_" + [c] else if 'a' <= c <= 'z' then [UpperRune(c)] else [c])
               + seq(|rest|, i requires 0 <= i < |rest| => if IsWord(rest[i]) then rest[i] else '_')
  {
    var tail := seq(|rest|, i requires 0 <= i < |rest| => if IsWord(rest[i]) then rest[i] else '_');
    var raw := junk + [c] + rest;
    var dashes := seq(|junk|, _ => '_');
    assert Fold(junk) == dashes by { JunkFolds(junk); }
    assert Fold(raw) == dashes + ([c] + tail) by { JunkFolds(junk); }
    TrimDashes(|junk|, "");
    TrimDashes(|junk|, [c] + tail);
    assert dashes + "" == dashes;
    hide Fold, TrimUnderscores;
    if '0' <= c <= '9' {
      assert "Schema_" + ([c] + tail) == "Schema_" + [c] + tail;
    }
  }

  lemma JunkFolds(junk: string)
    requires forall x :: x in junk ==> !IsWord(x)
    ensures forall i :: 0 <= i < |junk| ==> !IsIdentChar(junk[i]) || junk[i] == '_'
  {
    assert forall i :: 0 <= i < |junk| ==> junk[i] in junk;
  }

  lemma {:induction false} TrimDashes(n: nat, s: string)
    requires s == "" || s[0] != '_'
    ensures TrimUnderscores(seq(n, _ => '_') + s) == s
  {
    var dashes := seq(n, _ => '_');
    if n == 0 {
      assert dashes + s == s;
    } else {
      assert (dashes + s)[1..] == seq(n - 1, _ => '_') + s;
      TrimDashes(n - 1, s);
    }
  }

  // ---- declarations ----

  /** One entry of components/schemas: its key, its x-sdk-enum mark or "", and whether it lists enum values. */
  datatype Schema = Schema(key: string, sdkEnum: string, hasEnum: bool)

  /** One occasion to declare a type; it declares nothing when the marked enum has no values. */
  datatype Occasion = Occasion(spec: nat, name: string, declares: bool)

  function OccasionsOf(spec: nat, schema: Schema): seq<Occasion> {
    (if schema.sdkEnum != "" then [Occasion(spec, TypeGoName(schema.sdkEnum), schema.hasEnum)] else [])
    + [Occasion(spec, TypeGoName(schema.key), true)]
  }

  function Occasions(spec: nat, schemas: seq<Schema>): seq<Occasion>
    decreases schemas
  {
    if schemas == [] then [] else OccasionsOf(spec, schemas[0]) + Occasions(spec, schemas[1..])
  }

  /** The occasions of all specs, in the order of the specs. */
  function AllOccasions(spec: nat, specs: seq<seq<Schema>>): seq<Occasion>
    decreases specs
  {
    if specs == [] then [] else Occasions(spec, specs[0]) + AllOccasions(spec + 1, specs[1..])
  }

  /** The declarations made, with the names in `used` taken. */
  function Declared(occs: seq<Occasion>, used: set<string>): seq<Occasion>
    decreases occs
  {
    if occs == [] then []
    else if occs[0].name in used then Declared(occs[1..], used)
    else (if occs[0].declares then [occs[0]] else []) + Declared(occs[1..], used + {occs[0].name})
  }

  function NamesOf(occs: seq<Occasion>): set<string> {
    set o | o in occs :: o.name
  }

  lemma NamesConcat(a: seq<Occasion>, b: seq<Occasion>)
    ensures NamesOf(a + b) == NamesOf(a) + NamesOf(b)
  {
    assert forall o :: o in a + b <==> o in a || o in b;
  }

  lemma NamesFirst(a: seq<Occasion>)
    requires a != []
    ensures NamesOf(a) == {a[0].name} + NamesOf(a[1..])
  {
    assert a == [a[0]] + a[1..];
    NamesConcat([a[0]], a[1..]);
    assert NamesOf([a[0]]) == {a[0].name};
  }

  lemma DeclaredUnfold(o: Occasion, rest: seq<Occasion>, used: set<string>)
    ensures Declared([o] + rest, used)
            == (if o.name in used || !o.declares then [] else [o])
               + Declared(rest, if o.name in used then used else used + {o.name})
  {
    assert ([o] + rest)[1..] == rest;
  }

  lemma {:induction false} DeclaredConcat(a: seq<Occasion>, b: seq<Occasion>, used: set<string>)
    ensures Declared(a + b, used) == Declared(a, used) + Declared(b, used + NamesOf(a))
    decreases a
  {
    hide Declared;
    if a == [] {
      assert a + b == b && used + NamesOf(a) == used;
      DeclaredNothing(used);
    } else {
      var o, rest := a[0], a[1..];
      assert a == [o] + rest && a + b == [o] + (rest + b);
      var now := if o.name in used then used else used + {o.name};
      DeclaredUnfold(o, rest, used);
      DeclaredUnfold(o, rest + b, used);
      DeclaredConcat(rest, b, now);
      NamesFirst(a);
      hide NamesOf;
      assert now + NamesOf(rest) == used + NamesOf(a);
    }
  }

  const HAND_OWNED: set<string> := {"PhoneCallHandler"}

  /** The names declared so far in the package; the hand-written ones count from the start. */
  class Package {
    var emitted: set<string>

    constructor ()
      ensures emitted == HAND_OWNED
    {
      emitted := HAND_OWNED;
    }

    method EmitTypesFile(spec: nat, schemas: seq<Schema>) returns (decls: seq<Occasion>)
      modifies this
      ensures decls == Declared(Occasions(spec, schemas), old(emitted))
      ensures emitted == old(emitted) + NamesOf(Occasions(spec, schemas))
    {
      hide *;
      decls := [];
      ghost var done: seq<Occasion> := [];
      OccasionsUnfold(spec, schemas, 0, done);
      DeclaredNothing(emitted);
      for i := 0 to |schemas|
        invariant done + Occasions(spec, schemas[i..]) == Occasions(spec, schemas)
        invariant decls == Declared(done, old(emitted)) && emitted == old(emitted) + NamesOf(done)
      {
        OccasionsUnfold(spec, schemas, i, done);
        var schema := schemas[i];
        var goName := BuildTypeGoName(schema.key);
        if schema.sdkEnum != "" {
          var en := BuildTypeGoName(schema.sdkEnum);
          DeclaredStep(done, Occasion(spec, en, schema.hasEnum), old(emitted));
          done := done + [Occasion(spec, en, schema.hasEnum)];
          if en !in emitted {
            emitted := emitted + {en};
            if schema.hasEnum {
              decls := decls + [Occasion(spec, en, true)];
            }
          }
        }
        DeclaredStep(done, Occasion(spec, goName, true), old(emitted));
        done := done + [Occasion(spec, goName, true)];
        if goName in emitted {
          continue;
        }
        emitted := emitted + {goName};
        decls := decls + [Occasion(spec, goName, true)];
      }
      OccasionsEnd(spec, schemas, done);
    }

    /** The specs one after the other. */
    method EmitAll(specs: seq<seq<Schema>>) returns (decls: seq<Occasion>)
      modifies this
      ensures decls == Declared(AllOccasions(0, specs), old(emitted))
      ensures emitted == old(emitted) + NamesOf(AllOccasions(0, specs))
    {
      hide *;
      decls := [];
      ghost var done: seq<Occasion> := [];
      AllUnfold(specs, 0, done);
      DeclaredNothing(emitted);
      for s := 0 to |specs|
        invariant done + AllOccasions(s, specs[s..]) == AllOccasions(0, specs)
        invariant decls == Declared(done, old(emitted)) && emitted == old(emitted) + NamesOf(done)
      {
        AllUnfold(specs, s, done);
        DeclaredConcat(done, Occasions(s, specs[s]), old(emitted));
        NamesConcat(done, Occasions(s, specs[s]));
        var file := EmitTypesFile(s, specs[s]);
        decls := decls + file;
        done := done + Occasions(s, specs[s]);
      }
      AllEnd(specs, done);
    }
  }

  lemma DeclaredNothing(used: set<string>)
    ensures Declared([], used) == [] && used + NamesOf([]) == used
  {
  }

  lemma DeclaredStep(done: seq<Occasion>, o: Occasion, used: set<string>)
    ensures Declared(done + [o], used)
            == Declared(done, used) + if o.name in used + NamesOf(done) || !o.declares then [] else [o]
    ensures used + NamesOf(done + [o]) == used + NamesOf(done) + {o.name}
    ensures o.name in used + NamesOf(done) ==> used + NamesOf(done + [o]) == used + NamesOf(done)
  {
    DeclaredConcat(done, [o], used);
    NamesConcat(done, [o]);
    assert [o][1..] == [] && NamesOf([o]) == {o.name};
  }

  lemma OccasionsUnfold(spec: nat, schemas: seq<Schema>, i: nat, done: seq<Occasion>)
    ensures schemas[0..] == schemas && [] + Occasions(spec, schemas) == Occasions(spec, schemas)
    ensures i < |schemas| ==>
              var key := Occasion(spec, TypeGoName(schemas[i].key), true);
              var en := Occasion(spec, TypeGoName(schemas[i].sdkEnum), schemas[i].hasEnum);
              done + Occasions(spec, schemas[i..])
              == (if schemas[i].sdkEnum != "" then done + [en] + [key] else done + [key])
                  + Occasions(spec, schemas[i + 1..])
  {
    if i < |schemas| {
      assert schemas[i..][1..] == schemas[i + 1..];
      var rest := Occasions(spec, schemas[i + 1..]);
      assert Occasions(spec, schemas[i..]) == OccasionsOf(spec, schemas[i]) + rest;
      hide Occasions, TypeGoName;
      Assoc(done, OccasionsOf(spec, schemas[i]), rest);
      Spread(done, spec, schemas[i]);
    }
  }

  lemma Spread(done: seq<Occasion>, spec: nat, schema: Schema)
    ensures var key := Occasion(spec, TypeGoName(schema.key), true);
            var en := Occasion(spec, TypeGoName(schema.sdkEnum), schema.hasEnum);
            done + OccasionsOf(spec, schema) == if schema.sdkEnum != "" then done + [en] + [key] else done + [key]
  {
    hide TypeGoName;
  }

  lemma OccasionsEnd(spec: nat, schemas: seq<Schema>, done: seq<Occasion>)
    ensures done + Occasions(spec, schemas[|schemas|..]) == done
  {
  }

  lemma AllUnfold(specs: seq<seq<Schema>>, s: nat, done: seq<Occasion>)
    ensures specs[0..] == specs && [] + AllOccasions(0, specs) == AllOccasions(0, specs)
    ensures s < |specs| ==>
              done + AllOccasions(s, specs[s..]) == done + Occasions(s, specs[s]) + AllOccasions(s + 1, specs[s + 1..])
  {
    hide Occasions;
    if s < |specs| {
      assert specs[s..][1..] == specs[s + 1..];
    }
  }

  lemma AllEnd(specs: seq<seq<Schema>>, done: seq<Occasion>)
    ensures done + AllOccasions(|specs|, specs[|specs|..]) == done
  {
  }

  // ---- what is declared ----

  /** The i-th occasion is the first with its name, the name is free, and there is something to declare. */
  predicate FirstDeclares(occs: seq<Occasion>, used: set<string>, i: nat) {
    && i < |occs| && occs[i].declares && occs[i].name !in used
    && forall j :: 0 <= j < i ==> occs[j].name != occs[i].name
  }

  /** No name is declared twice, and none that was taken. */
  lemma {:induction false} DeclaredOnce(occs: seq<Occasion>, used: set<string>)
    ensures var decls := Declared(occs, used);
            && (forall d :: d in decls ==> d.name !in used)
            && (forall i, j :: 0 <= i < j < |decls| ==> decls[i].name != decls[j].name)
    decreases occs
  {
    if occs != [] {
      var now := used + {occs[0].name};
      DeclaredOnce(occs[1..], used);
      DeclaredOnce(occs[1..], now);
      var rest := Declared(occs[1..], now);
      forall d | d in rest ensures d.name !in used && d.name != occs[0].name {
        assert d.name !in now;
      }
      assert forall i :: 0 <= i < |rest| ==> rest[i] in rest;
    }
  }

  /** Some occasion that declares `d` is the first with its name. */
  ghost predicate FirstIs(occs: seq<Occasion>, used: set<string>, d: Occasion) {
    exists i: nat :: FirstDeclares(occs, used, i) && occs[i] == d
  }

  lemma FirstBehind(occs: seq<Occasion>, used: set<string>, i: nat)
    requires occs != [] && i < |occs| - 1
    ensures FirstDeclares(occs[1..], used + {occs[0].name}, i) <==> FirstDeclares(occs, used, i + 1)
  {
    var rest := occs[1..];
    assert rest[i] == occs[i + 1];
    assert forall j :: 0 <= j < i ==> rest[j] == occs[j + 1];
    if FirstDeclares(rest, used + {occs[0].name}, i) {
      assert forall j :: 0 < j < i + 1 ==> occs[j] == rest[j - 1];
    }
  }

  lemma FirstStep(occs: seq<Occasion>, used: set<string>, d: Occasion)
    requires occs != []
    ensures FirstIs(occs, used, d)
       <==> (FirstDeclares(occs, used, 0) && occs[0] == d) || FirstIs(occs[1..], used + {occs[0].name}, d)
  {
    var rest, now := occs[1..], used + {occs[0].name};
    if FirstIs(occs, used, d) {
      var i: nat :| FirstDeclares(occs, used, i) && occs[i] == d;
      if i > 0 {
        FirstBehind(occs, used, i - 1);
        assert rest[i - 1] == d;
      }
    }
    if FirstIs(rest, now, d) {
      var i: nat :| FirstDeclares(rest, now, i) && rest[i] == d;
      FirstBehind(occs, used, i);
      assert occs[i + 1] == d;
    }
  }

  /**
   * An occasion leads to a declaration exactly when it is the first of all with its name, the name is not
   * taken by hand, and it has something to declare.
   */
  lemma {:induction false} DeclaredExactly(occs: seq<Occasion>, used: set<string>, d: Occasion)
    ensures d in Declared(occs, used) <==> FirstIs(occs, used, d)
    decreases occs
  {
    if occs != [] {
      var now := used + {occs[0].name};
      DeclaredExactly(occs[1..], now, d);
      FirstStep(occs, used, d);
      assert occs[0].name in used ==> now == used;
    }
  }

  /** Occasions come in the order of the specs. */
  predicate Ordered(occs: seq<Occasion>) {
    forall i, j :: 0 <= i < j < |occs| ==> occs[i].spec <= occs[j].spec
  }

  lemma {:induction false} OccasionsSpec(spec: nat, schemas: seq<Schema>)
    ensures forall o :: o in Occasions(spec, schemas) ==> o.spec == spec
    decreases schemas
  {
    if schemas != [] {
      OccasionsSpec(spec, schemas[1..]);
    }
  }

  lemma {:induction false} AllOrdered(spec: nat, specs: seq<seq<Schema>>)
    ensures Ordered(AllOccasions(spec, specs)) && forall o :: o in AllOccasions(spec, specs) ==> o.spec >= spec
    decreases specs
  {
    hide Occasions;
    if specs != [] {
      var here, rest := Occasions(spec, specs[0]), AllOccasions(spec + 1, specs[1..]);
      OccasionsSpec(spec, specs[0]);
      AllOrdered(spec + 1, specs[1..]);
      OrderedAppend(spec, here, rest);
    }
  }

  lemma OrderedAppend(spec: nat, here: seq<Occasion>, rest: seq<Occasion>)
    requires (forall o :: o in here ==> o.spec == spec) && (forall o :: o in rest ==> o.spec > spec) && Ordered(rest)
    ensures Ordered(here + rest) && forall o :: o in here + rest ==> o.spec >= spec
  {
    var all := here + rest;
    forall i, j | 0 <= i < j < |all| ensures all[i].spec <= all[j].spec {
      assert all[i] == if i < |here| then here[i] else rest[i - |here|];
      assert all[j] == if j < |here| then here[j] else rest[j - |here|];
      assert i < |here| ==> here[i] in here;
      assert j < |here| ==> here[j] in here;
      assert j >= |here| ==> rest[j - |here|] in rest;
    }
  }

  /** The first occasion with the name of the i-th. */
  lemma FirstWithName(occs: seq<Occasion>, i: nat) returns (k: nat)
    requires i < |occs|
    ensures k <= i && occs[k].name == occs[i].name && forall j :: 0 <= j < k ==> occs[j].name != occs[i].name
  {
    k := 0;
    while occs[k].name != occs[i].name
      invariant k <= i && forall j :: 0 <= j < k ==> occs[j].name != occs[i].name
      decreases i - k
    {
      k := k + 1;
    }
  }

  /**
   * Over all specs: a name that is not taken by hand is declared, in the first spec that has an occasion for it,
   * exactly when its first occasion has something to declare; otherwise it is never declared.
   */
  lemma DeclaredByFirst(specs: seq<seq<Schema>>, i: nat) returns (k: nat)
    requires i < |AllOccasions(0, specs)| && AllOccasions(0, specs)[i].name !in HAND_OWNED
    ensures var occs := AllOccasions(0, specs);
            var decls := Declared(occs, HAND_OWNED);
            && k <= i && occs[k].name == occs[i].name
            && (forall o :: o in occs && o.name == occs[i].name ==> occs[k].spec <= o.spec)
            && (occs[k].declares ==> occs[k] in decls)
            && (!occs[k].declares ==> forall d :: d in decls ==> d.name != occs[i].name)
  {
    var occs := AllOccasions(0, specs);
    AllOrdered(0, specs);
    hide AllOccasions, Declared;
    k := FirstWithName(occs, i);
    DeclaredExactly(occs, HAND_OWNED, occs[k]);
    assert occs[k].declares ==> FirstDeclares(occs, HAND_OWNED, k);
    forall d | d in Declared(occs, HAND_OWNED) && d.name == occs[i].name ensures occs[k].declares {
      DeclaredExactly(occs, HAND_OWNED, d);
      var n: nat :| FirstDeclares(occs, HAND_OWNED, n) && occs[n] == d;
      assert n == k;
    }
  }

  /** Every mark comes with a value list. */
  predicate AllListed(specs: seq<seq<Schema>>) {
    forall s, i :: 0 <= s < |specs| && 0 <= i < |specs[s]| && specs[s][i].sdkEnum != "" ==> specs[s][i].hasEnum
  }

  lemma {:induction false} ListedOccasions(spec: nat, schemas: seq<Schema>)
    requires forall i :: 0 <= i < |schemas| && schemas[i].sdkEnum != "" ==> schemas[i].hasEnum
    ensures forall o :: o in Occasions(spec, schemas) ==> o.declares
    decreases schemas
  {
    if schemas != [] {
      ListedOccasions(spec, schemas[1..]);
    }
  }

  lemma {:induction false} ListedDeclares(spec: nat, specs: seq<seq<Schema>>)
    requires AllListed(specs)
    ensures forall o :: o in AllOccasions(spec, specs) ==> o.declares
    decreases specs
  {
    if specs != [] {
      ListedOccasions(spec, specs[0]);
      ListedDeclares(spec + 1, specs[1..]);
    }
  }

  /** The i-th schema of spec `s` is an occasion for its name. */
  lemma {:induction false} SchemaOccasion(spec: nat, schemas: seq<Schema>, i: nat)
    requires i < |schemas|
    ensures Occasion(spec, TypeGoName(schemas[i].key), true) in Occasions(spec, schemas)
    decreases schemas
  {
    hide TypeGoName;
    if i > 0 {
      SchemaOccasion(spec, schemas[1..], i - 1);
    } else {
      assert OccasionsOf(spec, schemas[0])[|OccasionsOf(spec, schemas[0])| - 1]
             == Occasion(spec, TypeGoName(schemas[0].key), true);
    }
  }

  lemma {:induction false} SpecOccasion(spec: nat, specs: seq<seq<Schema>>, s: nat, i: nat)
    requires s < |specs| && i < |specs[s]|
    ensures Occasion(spec + s, TypeGoName(specs[s][i].key), true) in AllOccasions(spec, specs)
    decreases specs
  {
    hide TypeGoName, Occasions;
    if s > 0 {
      SpecOccasion(spec + 1, specs[1..], s - 1, i);
    } else {
      SchemaOccasion(spec, specs[0], i);
    }
  }

  /**
   * With a value list behind every mark, each schema's name is declared unless it is taken by hand: by an occasion
   * of the first spec that has one for the name.
   */
  lemma EveryNameDeclared(specs: seq<seq<Schema>>, s: nat, i: nat) returns (d: Occasion)
    requires AllListed(specs) && s < |specs| && i < |specs[s]|
    requires TypeGoName(specs[s][i].key) !in HAND_OWNED
    ensures var name := TypeGoName(specs[s][i].key);
            && d in Declared(AllOccasions(0, specs), HAND_OWNED) && d.name == name && d.spec <= s
            && forall o :: o in AllOccasions(0, specs) && o.name == name ==> d.spec <= o.spec
  {
    var occs := AllOccasions(0, specs);
    var o := Occasion(s, TypeGoName(specs[s][i].key), true);
    SpecOccasion(0, specs, s, i);
    ListedDeclares(0, specs);
    hide AllOccasions, Declared, TypeGoName;
    var n: nat :| n < |occs| && occs[n] == o;
    var k := DeclaredByFirst(specs, n);
    d := occs[k];
  }

  /** PhoneCallHandler, the one type written by hand, is never declared; a name that one spec alone has is. */
  lemma HandWrittenExactly(specs: seq<seq<Schema>>, key: string)
    ensures forall d :: d in Declared(AllOccasions(0, specs), HAND_OWNED) ==> d.name != "PhoneCallHandler"
    ensures Declared(AllOccasions(0, [[Schema(key, "", false)]]), HAND_OWNED)
            == if TypeGoName(key) == "PhoneCallHandler" then [] else [Occasion(0, TypeGoName(key), true)]
  {
    DeclaredOnce(AllOccasions(0, specs), HAND_OWNED);
    OneSchema(0, Schema(key, "", false));
    var o := Occasion(0, TypeGoName(key), true);
    assert [[Schema(key, "", false)]][1..] == [] && AllOccasions(1, []) == [];
    assert AllOccasions(0, [[Schema(key, "", false)]]) == [o] + [];
    assert [o] + [] == [o] && [o][1..] == [];
  }

  /** A marked enum without values takes its name and declares nothing; a later schema of that name is lost. */
  lemma ListlessEnumBlocks()
    ensures var specs := [[Schema("Calls", "Mode", false)], [Schema("Mode", "", true)]];
            Declared(AllOccasions(0, specs), HAND_OWNED) == [Occasion(0, "Calls", true)]
  {
    var a, b, c := Occasion(0, "Mode", false), Occasion(0, "Calls", true), Occasion(1, "Mode", true);
    NamesKept();
    hide TypeGoName;
    var first: seq<Schema>, second: seq<Schema> := [Schema("Calls", "Mode", false)], [Schema("Mode", "", true)];
    OneSchema(0, first[0]);
    OneSchema(1, second[0]);
    hide Occasions;
    assert [first, second][1..] == [second] && [second][1..] == [];
    assert AllOccasions(2, []) == [] && AllOccasions(1, [second]) == Occasions(1, second) + AllOccasions(2, []);
    assert AllOccasions(0, [first, second]) == Occasions(0, first) + AllOccasions(1, [second]);
    assert [a, b] + ([c] + []) == [a, b, c];
    DeclaresCalls();
  }

  lemma OneSchema(spec: nat, schema: Schema)
    ensures var key := Occasion(spec, TypeGoName(schema.key), true);
            Occasions(spec, [schema]) == if schema.sdkEnum == "" then [key]
                                         else [Occasion(spec, TypeGoName(schema.sdkEnum), schema.hasEnum), key]
  {
    hide TypeGoName;
    assert [schema][1..] == [];
  }

  lemma NamesKept()
    ensures TypeGoName("Mode") == "Mode" && TypeGoName("Calls") == "Calls"
  {
    ExportedKept("Mode");
    ExportedKept("Calls");
  }

  lemma DeclaresCalls()
    ensures var occs := [Occasion(0, "Mode", false), Occasion(0, "Calls", true), Occasion(1, "Mode", true)];
            Declared(occs, HAND_OWNED) == [Occasion(0, "Calls", true)]
  {
    var a, b, c := Occasion(0, "Mode", false), Occasion(0, "Calls", true), Occasion(1, "Mode", true);
    assert [a, b, c][1..] == [b, c] && [b, c][1..] == [c] && [c][1..] == [];
    assert "Mode"[0] == 'M' && "Calls"[0] == 'C' && "PhoneCallHandler"[0] == 'P';
  }
}
