/**
 * The required set under the stricter reading of oneOf, by which exactly one variant may accept an object.
 * Every required field is still forced; when no further field is forced is told from the choices of the schema,
 * that is from the sets of names that picking one variant of every list asks for.
 */
module SchemaStrict {
  import opened Text
  import opened Schema

  ghost predicate AcceptsStrictly(schemas: Schemas, n: Schema, keys: set<string>, h: nat)
    requires Grounded(schemas, n, h)
    decreases h, 0
  {
    match Resolve(schemas, n)
    case None => true
    case Some(m) =>
      && (forall x :: x in m.required ==> x in keys)
      && EachStrictly(schemas, m.allOf, keys, h - 1)
      && (m.anyOf != [] ==> SomeStrictly(schemas, m.anyOf, keys, h - 1))
      && (m.oneOf != [] ==> OneStrictly(schemas, m.oneOf, keys, h - 1))
  }

  ghost predicate EachStrictly(schemas: Schemas, list: seq<Schema>, keys: set<string>, h: nat)
    requires AllGrounded(schemas, list, h)
    decreases h, 1
  {
    forall i :: 0 <= i < |list| ==> AcceptsStrictly(schemas, list[i], keys, h)
  }

  ghost predicate SomeStrictly(schemas: Schemas, list: seq<Schema>, keys: set<string>, h: nat)
    requires AllGrounded(schemas, list, h)
    decreases h, 1
  {
    exists i :: 0 <= i < |list| && AcceptsStrictly(schemas, list[i], keys, h)
  }

  ghost predicate OneStrictly(schemas: Schemas, list: seq<Schema>, keys: set<string>, h: nat)
    requires AllGrounded(schemas, list, h)
    decreases h, 1
  {
    exists i :: 0 <= i < |list| && AcceptsStrictly(schemas, list[i], keys, h)
                && forall j :: 0 <= j < |list| && j != i ==> !AcceptsStrictly(schemas, list[j], keys, h)
  }

  /** What the stricter reading accepts, the other one accepts. */
  lemma {:induction false} StrictIsAccepted(schemas: Schemas, n: Schema, keys: set<string>, h: nat)
    requires Grounded(schemas, n, h) && AcceptsStrictly(schemas, n, keys, h)
    ensures Accepts(schemas, n, keys, h)
    decreases h, 0
  {
    hide Resolve;
    match Resolve(schemas, n)
    case None =>
    case Some(m) =>
      EachAccepted(schemas, m.allOf, keys, h - 1);
      EachAccepted(schemas, m.anyOf, keys, h - 1);
      EachAccepted(schemas, m.oneOf, keys, h - 1);
  }

  lemma {:induction false} EachAccepted(schemas: Schemas, list: seq<Schema>, keys: set<string>, h: nat)
    requires AllGrounded(schemas, list, h)
    ensures EachStrictly(schemas, list, keys, h) ==> EachAccepts(schemas, list, keys, h)
    ensures SomeStrictly(schemas, list, keys, h) || OneStrictly(schemas, list, keys, h)
            ==> SomeAccepts(schemas, list, keys, h)
    decreases h, 1
  {
    forall i | 0 <= i < |list| && AcceptsStrictly(schemas, list[i], keys, h)
        ensures Accepts(schemas, list[i], keys, h) {
      StrictIsAccepted(schemas, list[i], keys, h);
    }
  }

  /** The field is in every set of keys that the stricter reading accepts. */
  ghost predicate Forced(schemas: Schemas, n: Schema, f: string, h: nat)
    requires Grounded(schemas, n, h)
  {
    forall keys: set<string> :: AcceptsStrictly(schemas, n, keys, h) ==> f in keys
  }

  /** Required fields are forced, by the stricter reading too. */
  lemma RequiredIsForced(schemas: Schemas, n: Schema, f: string, h: nat)
    requires Grounded(schemas, n, h) && f in Required(schemas, n, h)
    ensures Forced(schemas, n, f, h)
  {
    forall keys: set<string> | AcceptsStrictly(schemas, n, keys, h) ensures f in keys {
      StrictIsAccepted(schemas, n, keys, h);
      RequiredIsSound(schemas, n, keys, h);
    }
  }

  // ---- choices ----

  /** The names asked for by each way of picking one variant from every list below `n`. */
  ghost function Choices(schemas: Schemas, n: Schema, h: nat): set<set<string>>
    requires Grounded(schemas, n, h)
    decreases h, 0
  {
    match Resolve(schemas, n)
    case None => {{}}
    case Some(m) =>
      Combine({set x | x in m.required},
              Combine(ChoicesOfAll(schemas, m.allOf, h - 1),
                      Combine(ChoicesOfSome(schemas, m.anyOf, h - 1), ChoicesOfSome(schemas, m.oneOf, h - 1))))
  }

  ghost function Combine(xs: set<set<string>>, ys: set<set<string>>): set<set<string>> {
    set x, y | x in xs && y in ys :: x + y
  }

  ghost function ChoicesOfAll(schemas: Schemas, list: seq<Schema>, h: nat): set<set<string>>
    requires AllGrounded(schemas, list, h)
    decreases h, 1, |list|
  {
    if list == [] then {{}} else Combine(Choices(schemas, list[0], h), ChoicesOfAll(schemas, list[1..], h))
  }

  ghost function ChoicesOfSome(schemas: Schemas, list: seq<Schema>, h: nat): set<set<string>>
    requires AllGrounded(schemas, list, h)
    decreases h, 1, |list|
  {
    if list == [] then {{}}
    else if |list| == 1 then Choices(schemas, list[0], h)
    else Choices(schemas, list[0], h) + ChoicesOfSome(schemas, list[1..], h)
  }

  lemma Combined(xs: set<set<string>>, ys: set<set<string>>, x: set<string>, y: set<string>)
    requires x in xs && y in ys
    ensures x + y in Combine(xs, ys)
  {
  }

  /** A field that is not required is missing from some choice. */
  lemma {:induction false} AvoidingChoice(schemas: Schemas, n: Schema, f: string, h: nat) returns (c: set<string>)
    requires Grounded(schemas, n, h) && f !in Required(schemas, n, h)
    ensures c in Choices(schemas, n, h) && f !in c
    decreases h, 0
  {
    hide Resolve, Combine;
    match Resolve(schemas, n)
    case None => c := {};
    case Some(m) =>
      var own := set x | x in m.required;
      var a := AvoidingAll(schemas, m.allOf, f, h - 1);
      var b := AvoidingSome(schemas, m.anyOf, f, h - 1);
      var d := AvoidingSome(schemas, m.oneOf, f, h - 1);
      var some, one := ChoicesOfSome(schemas, m.anyOf, h - 1), ChoicesOfSome(schemas, m.oneOf, h - 1);
      Combined(some, one, b, d);
      Combined(ChoicesOfAll(schemas, m.allOf, h - 1), Combine(some, one), a, b + d);
      c := own + (a + (b + d));
      Combined({own}, Combine(ChoicesOfAll(schemas, m.allOf, h - 1), Combine(some, one)), own, a + (b + d));
  }

  lemma {:induction false} AvoidingAll(schemas: Schemas, list: seq<Schema>, f: string, h: nat) returns (c: set<string>)
    requires AllGrounded(schemas, list, h) && f !in RequiredByAll(schemas, list, h)
    ensures c in ChoicesOfAll(schemas, list, h) && f !in c
    decreases h, 1, |list|
  {
    hide Combine;
    c := {};
    if list != [] {
      var a := AvoidingChoice(schemas, list[0], f, h);
      var b := AvoidingAll(schemas, list[1..], f, h);
      c := a + b;
      Combined(Choices(schemas, list[0], h), ChoicesOfAll(schemas, list[1..], h), a, b);
    }
  }

  lemma {:induction false} AvoidingSome(schemas: Schemas, list: seq<Schema>, f: string, h: nat) returns (c: set<string>)
    requires AllGrounded(schemas, list, h) && f !in RequiredByEvery(schemas, list, h)
    ensures c in ChoicesOfSome(schemas, list, h) && f !in c
    decreases h, 1, |list|
  {
    c := {};
    if list != [] {
      if f !in Required(schemas, list[0], h) {
        c := AvoidingChoice(schemas, list[0], f, h);
      } else {
        c := AvoidingSome(schemas, list[1..], f, h);
      }
    }
  }

  /** Every choice is an object that the stricter reading accepts: no choice fits two variants of a oneOf. */
  ghost predicate Separate(schemas: Schemas, n: Schema, h: nat)
    requires Grounded(schemas, n, h)
  {
    forall c :: c in Choices(schemas, n, h) ==> AcceptsStrictly(schemas, n, c, h)
  }

  /** Where no choice fits two variants, exactly the required fields are forced. */
  lemma SeparateIsExact(schemas: Schemas, n: Schema, f: string, h: nat)
    requires Grounded(schemas, n, h) && Separate(schemas, n, h)
    ensures f in Required(schemas, n, h) <==> Forced(schemas, n, f, h)
  {
    if f in Required(schemas, n, h) {
      RequiredIsForced(schemas, n, f, h);
    } else {
      var c := AvoidingChoice(schemas, n, f, h);
    }
  }

  // ---- any schema: only the names mentioned matter ----

  lemma {:induction false} OnlyMentionedMatter(schemas: Schemas, n: Schema, keys: set<string>, names: set<string>,
      h: nat)
    requires Grounded(schemas, n, h) && Mentioned(schemas, n, h) <= names
    ensures AcceptsStrictly(schemas, n, keys, h) <==> AcceptsStrictly(schemas, n, keys * names, h)
    decreases h, 0
  {
    hide *;
    match Resolve(schemas, n)
    case None => StrictUnfold(schemas, n, keys, h); StrictUnfold(schemas, n, keys * names, h);
    case Some(m) =>
      MentionedParts(schemas, n, m, h);
      ListsMentioned(schemas, m.allOf, keys, names, h - 1);
      ListsMentioned(schemas, m.anyOf, keys, names, h - 1);
      ListsMentioned(schemas, m.oneOf, keys, names, h - 1);
      StrictUnfold(schemas, n, keys, h);
      StrictUnfold(schemas, n, keys * names, h);
  }

  lemma MentionedParts(schemas: Schemas, n: Schema, m: Schema, h: nat)
    requires Grounded(schemas, n, h) && Resolve(schemas, n) == Some(m)
    ensures h > 0 && AllGrounded(schemas, m.allOf, h - 1) && AllGrounded(schemas, m.anyOf, h - 1)
    ensures AllGrounded(schemas, m.oneOf, h - 1)
    ensures var names := Mentioned(schemas, n, h);
            && (forall x :: x in m.required ==> x in names)
            && MentionedIn(schemas, m.allOf, h - 1) <= names && MentionedIn(schemas, m.anyOf, h - 1) <= names
            && MentionedIn(schemas, m.oneOf, h - 1) <= names
  {
    hide Resolve, MentionedIn;
  }

  lemma StrictUnfold(schemas: Schemas, n: Schema, keys: set<string>, h: nat)
    requires Grounded(schemas, n, h)
    ensures AcceptsStrictly(schemas, n, keys, h) <==>
            match Resolve(schemas, n)
            case None => true
            case Some(m) =>
              && (forall x :: x in m.required ==> x in keys)
              && EachStrictly(schemas, m.allOf, keys, h - 1)
              && (m.anyOf != [] ==> SomeStrictly(schemas, m.anyOf, keys, h - 1))
              && (m.oneOf != [] ==> OneStrictly(schemas, m.oneOf, keys, h - 1))
  {
    hide Resolve, EachStrictly, SomeStrictly, OneStrictly;
  }

  lemma {:induction false} ListsMentioned(schemas: Schemas, list: seq<Schema>, keys: set<string>, names: set<string>,
      h: nat)
    requires AllGrounded(schemas, list, h) && MentionedIn(schemas, list, h) <= names
    ensures EachStrictly(schemas, list, keys, h) <==> EachStrictly(schemas, list, keys * names, h)
    ensures SomeStrictly(schemas, list, keys, h) <==> SomeStrictly(schemas, list, keys * names, h)
    ensures OneStrictly(schemas, list, keys, h) <==> OneStrictly(schemas, list, keys * names, h)
    decreases h, 1
  {
    hide Mentioned;
    forall i | 0 <= i < |list|
      ensures AcceptsStrictly(schemas, list[i], keys, h) <==> AcceptsStrictly(schemas, list[i], keys * names, h)
    {
      MemberMentioned(schemas, list, i, h);
      OnlyMentionedMatter(schemas, list[i], keys, names, h);
    }
  }

  lemma {:induction false} MemberMentioned(schemas: Schemas, list: seq<Schema>, i: nat, h: nat)
    requires AllGrounded(schemas, list, h) && i < |list|
    ensures Mentioned(schemas, list[i], h) <= MentionedIn(schemas, list, h)
    decreases list
  {
    hide Mentioned;
    if i > 0 {
      assert list[1..][i - 1] == list[i];
      MemberMentioned(schemas, list[1..], i - 1, h);
    }
  }

  /** The field is in every accepted set of names that the schema mentions, of which there are finitely many. */
  ghost predicate ForcedAmongMentioned(schemas: Schemas, n: Schema, f: string, h: nat)
    requires Grounded(schemas, n, h)
  {
    forall keys :: keys <= Mentioned(schemas, n, h) && AcceptsStrictly(schemas, n, keys, h) ==> f in keys
  }

  /**
   * The required set is what the stricter reading forces exactly when no other field is in all the accepted sets of
   * names that the schema mentions.
   */
  lemma ExactExactly(schemas: Schemas, n: Schema, h: nat)
    requires Grounded(schemas, n, h)
    ensures (forall f :: f in Required(schemas, n, h) <==> Forced(schemas, n, f, h))
       <==> (forall f :: ForcedAmongMentioned(schemas, n, f, h) ==> f in Required(schemas, n, h))
  {
    var names := Mentioned(schemas, n, h);
    forall f
      ensures Forced(schemas, n, f, h) <==> ForcedAmongMentioned(schemas, n, f, h)
      ensures f in Required(schemas, n, h) ==> Forced(schemas, n, f, h)
    {
      if f in Required(schemas, n, h) {
        RequiredIsForced(schemas, n, f, h);
      }
      if ForcedAmongMentioned(schemas, n, f, h) {
        forall keys: set<string> | AcceptsStrictly(schemas, n, keys, h) ensures f in keys {
          OnlyMentionedMatter(schemas, n, keys, names, h);
          assert keys * names <= names;
        }
      }
    }
  }

  // ---- schemas without a oneOf inside a variant of a oneOf ----

  ghost predicate OneOfFree(schemas: Schemas, n: Schema, h: nat)
    requires Grounded(schemas, n, h)
    decreases h, 0
  {
    match Resolve(schemas, n)
    case None => true
    case Some(m) => m.oneOf == [] && AllFree(schemas, m.allOf, h - 1) && AllFree(schemas, m.anyOf, h - 1)
  }

  ghost predicate AllFree(schemas: Schemas, list: seq<Schema>, h: nat)
    requires AllGrounded(schemas, list, h)
    decreases h, 1
  {
    forall i :: 0 <= i < |list| ==> OneOfFree(schemas, list[i], h)
  }

  /** No variant of a oneOf has a oneOf of its own. */
  ghost predicate Shallow(schemas: Schemas, n: Schema, h: nat)
    requires Grounded(schemas, n, h)
    decreases h, 0
  {
    match Resolve(schemas, n)
    case None => true
    case Some(m) =>
      AllShallow(schemas, m.allOf, h - 1) && AllShallow(schemas, m.anyOf, h - 1) && AllFree(schemas, m.oneOf, h - 1)
  }

  ghost predicate AllShallow(schemas: Schemas, list: seq<Schema>, h: nat)
    requires AllGrounded(schemas, list, h)
    decreases h, 1
  {
    forall i :: 0 <= i < |list| ==> Shallow(schemas, list[i], h)
  }

  lemma {:induction false} FreeIsShallow(schemas: Schemas, n: Schema, h: nat)
    requires Grounded(schemas, n, h) && OneOfFree(schemas, n, h)
    ensures Shallow(schemas, n, h)
    decreases h, 0
  {
    hide Resolve;
    match Resolve(schemas, n)
    case None =>
    case Some(m) =>
      AllFreeShallow(schemas, m.allOf, h - 1);
      AllFreeShallow(schemas, m.anyOf, h - 1);
  }

  lemma {:induction false} AllFreeShallow(schemas: Schemas, list: seq<Schema>, h: nat)
    requires AllGrounded(schemas, list, h) && AllFree(schemas, list, h)
    ensures AllShallow(schemas, list, h)
    decreases h, 1
  {
    forall i | 0 <= i < |list| ensures Shallow(schemas, list[i], h) {
      FreeIsShallow(schemas, list[i], h);
    }
  }

  /** Without a oneOf, an accepted set of keys may grow. */
  lemma {:induction false} FreeGrows(schemas: Schemas, n: Schema, keys: set<string>, more: set<string>, h: nat)
    requires Grounded(schemas, n, h) && OneOfFree(schemas, n, h)
    requires keys <= more && AcceptsStrictly(schemas, n, keys, h)
    ensures AcceptsStrictly(schemas, n, more, h)
    decreases h, 0
  {
    hide Resolve;
    match Resolve(schemas, n)
    case None =>
    case Some(m) =>
      AllFreeGrow(schemas, m.allOf, keys, more, h - 1);
      AllFreeGrow(schemas, m.anyOf, keys, more, h - 1);
  }

  lemma {:induction false} AllFreeGrow(schemas: Schemas, list: seq<Schema>, keys: set<string>, more: set<string>,
      h: nat)
    requires AllGrounded(schemas, list, h) && AllFree(schemas, list, h) && keys <= more
    ensures EachStrictly(schemas, list, keys, h) ==> EachStrictly(schemas, list, more, h)
    ensures SomeStrictly(schemas, list, keys, h) ==> SomeStrictly(schemas, list, more, h)
    decreases h, 1
  {
    forall i | 0 <= i < |list| && AcceptsStrictly(schemas, list[i], keys, h)
      ensures AcceptsStrictly(schemas, list[i], more, h)
    {
      FreeGrows(schemas, list[i], keys, more, h);
    }
  }

  /** From the choice up to the keys, every set is accepted. */
  ghost predicate Core(schemas: Schemas, n: Schema, c: set<string>, keys: set<string>, h: nat)
    requires Grounded(schemas, n, h)
  {
    c <= keys && forall x :: c <= x <= keys ==> AcceptsStrictly(schemas, n, x, h)
  }

  lemma {:induction false} HasCore(schemas: Schemas, n: Schema, keys: set<string>, h: nat) returns (c: set<string>)
    requires Grounded(schemas, n, h) && Shallow(schemas, n, h) && AcceptsStrictly(schemas, n, keys, h)
    ensures c in Choices(schemas, n, h) && Core(schemas, n, c, keys, h)
    decreases h, 0
  {
    hide Resolve, Combine;
    match Resolve(schemas, n)
    case None => c := {};
    case Some(m) =>
      var own := set x | x in m.required;
      var a := AllHaveCore(schemas, m.allOf, keys, h - 1);
      var b := SomeHasCore(schemas, m.anyOf, keys, h - 1);
      var d := OneHasCore(schemas, m.oneOf, keys, h - 1);
      var some, one := ChoicesOfSome(schemas, m.anyOf, h - 1), ChoicesOfSome(schemas, m.oneOf, h - 1);
      Combined(some, one, b, d);
      Combined(ChoicesOfAll(schemas, m.allOf, h - 1), Combine(some, one), a, b + d);
      c := own + (a + (b + d));
      Combined({own}, Combine(ChoicesOfAll(schemas, m.allOf, h - 1), Combine(some, one)), own, a + (b + d));
      assert c in Choices(schemas, n, h);
      hide Choices, ChoicesOfAll, ChoicesOfSome, EachStrictly, SomeStrictly, OneStrictly;
      forall x | c <= x <= keys ensures AcceptsStrictly(schemas, n, x, h) {
        assert a <= x && b <= x && d <= x && own <= x;
      }
  }

  lemma {:induction false} AllHaveCore(schemas: Schemas, list: seq<Schema>, keys: set<string>, h: nat)
    returns (c: set<string>)
    requires AllGrounded(schemas, list, h) && AllShallow(schemas, list, h) && EachStrictly(schemas, list, keys, h)
    ensures c in ChoicesOfAll(schemas, list, h) && c <= keys
    ensures forall x :: c <= x <= keys ==> EachStrictly(schemas, list, x, h)
    decreases h, 1, |list|
  {
    hide Combine;
    c := {};
    if list != [] {
      var a := HasCore(schemas, list[0], keys, h);
      var b := AllHaveCore(schemas, list[1..], keys, h);
      c := a + b;
      Combined(Choices(schemas, list[0], h), ChoicesOfAll(schemas, list[1..], h), a, b);
      forall x, i | c <= x <= keys && 0 <= i < |list| ensures AcceptsStrictly(schemas, list[i], x, h) {
        assert a <= x && b <= x;
        assert i > 0 ==> list[1..][i - 1] == list[i];
      }
    }
  }

  lemma {:induction false} OneOfChoices(schemas: Schemas, list: seq<Schema>, i: nat, h: nat)
    requires AllGrounded(schemas, list, h) && i < |list|
    ensures Choices(schemas, list[i], h) <= ChoicesOfSome(schemas, list, h)
    decreases list
  {
    if i > 0 {
      assert list[1..][i - 1] == list[i];
      OneOfChoices(schemas, list[1..], i - 1, h);
    }
  }

  lemma {:induction false} SomeHasCore(schemas: Schemas, list: seq<Schema>, keys: set<string>, h: nat)
    returns (c: set<string>)
    requires AllGrounded(schemas, list, h) && AllShallow(schemas, list, h)
    requires list != [] ==> SomeStrictly(schemas, list, keys, h)
    ensures c in ChoicesOfSome(schemas, list, h) && c <= keys
    ensures list != [] ==> forall x :: c <= x <= keys ==> SomeStrictly(schemas, list, x, h)
    decreases h, 1, |list|
  {
    c := {};
    if list != [] {
      var i :| 0 <= i < |list| && AcceptsStrictly(schemas, list[i], keys, h);
      c := HasCore(schemas, list[i], keys, h);
      OneOfChoices(schemas, list, i, h);
    }
  }

  lemma {:induction false} OneHasCore(schemas: Schemas, list: seq<Schema>, keys: set<string>, h: nat)
    returns (c: set<string>)
    requires AllGrounded(schemas, list, h) && AllFree(schemas, list, h)
    requires list != [] ==> OneStrictly(schemas, list, keys, h)
    ensures c in ChoicesOfSome(schemas, list, h) && c <= keys
    ensures list != [] ==> forall x :: c <= x <= keys ==> OneStrictly(schemas, list, x, h)
    decreases h, 1, |list|
  {
    c := {};
    if list != [] {
      var i :| 0 <= i < |list| && AcceptsStrictly(schemas, list[i], keys, h)
               && forall j :: 0 <= j < |list| && j != i ==> !AcceptsStrictly(schemas, list[j], keys, h);
      FreeIsShallow(schemas, list[i], h);
      c := HasCore(schemas, list[i], keys, h);
      OneOfChoices(schemas, list, i, h);
      forall x, j | c <= x <= keys && 0 <= j < |list| && j != i ensures !AcceptsStrictly(schemas, list[j], x, h) {
        if AcceptsStrictly(schemas, list[j], x, h) {
          FreeGrows(schemas, list[j], x, keys, h);
        }
      }
    }
  }

  /** The field is in every choice that the stricter reading accepts. */
  ghost predicate InEveryFitting(schemas: Schemas, n: Schema, f: string, h: nat)
    requires Grounded(schemas, n, h)
  {
    forall c :: c in Choices(schemas, n, h) && AcceptsStrictly(schemas, n, c, h) ==> f in c
  }

  /** Forced are exactly the fields that every choice fitting the stricter reading has. */
  lemma ForcedExactly(schemas: Schemas, n: Schema, f: string, h: nat)
    requires Grounded(schemas, n, h) && Shallow(schemas, n, h)
    ensures Forced(schemas, n, f, h) <==> InEveryFitting(schemas, n, f, h)
  {
    if InEveryFitting(schemas, n, f, h) {
      forall keys: set<string> | AcceptsStrictly(schemas, n, keys, h) ensures f in keys {
        var c := HasCore(schemas, n, keys, h);
        assert c <= c <= keys;
      }
    }
  }

  /**
   * The required set is what the stricter reading forces exactly when no other field is in all the choices that
   * fit that reading.
   */
  lemma ExactForOneOfExactly(schemas: Schemas, n: Schema, h: nat)
    requires Grounded(schemas, n, h) && Shallow(schemas, n, h)
    ensures (forall f :: f in Required(schemas, n, h) <==> Forced(schemas, n, f, h))
       <==> (forall f :: InEveryFitting(schemas, n, f, h) ==> f in Required(schemas, n, h))
  {
    forall f
      ensures Forced(schemas, n, f, h) <==> InEveryFitting(schemas, n, f, h)
      ensures f in Required(schemas, n, h) ==> Forced(schemas, n, f, h)
    {
      ForcedExactly(schemas, n, f, h);
      if f in Required(schemas, n, h) {
        RequiredIsForced(schemas, n, f, h);
      }
    }
  }

  /** A schema that only requires some fields. */
  function Needs(fields: seq<string>): Schema {
    Schema("", [], [], [], fields, [])
  }

  lemma NeedsMeans(schemas: Schemas, fields: seq<string>, keys: set<string>, h: nat)
    requires h > 0
    ensures Grounded(schemas, Needs(fields), h) && Required(schemas, Needs(fields), h) == set x | x in fields
    ensures AcceptsStrictly(schemas, Needs(fields), keys, h) <==> forall x :: x in fields ==> x in keys
  {
  }

  /** Two equal variants leave only the third to be the one. */
  lemma OnlyTheThird(schemas: Schemas, a: Schema, b: Schema, keys: set<string>, h: nat)
    requires AllGrounded(schemas, [a, b, b], h) && OneStrictly(schemas, [a, b, b], keys, h)
    ensures Grounded(schemas, a, h) && AcceptsStrictly(schemas, a, keys, h)
  {
    hide Grounded, AcceptsStrictly;
    var list := [a, b, b];
    var i :| 0 <= i < |list| && AcceptsStrictly(schemas, list[i], keys, h)
             && forall j :: 0 <= j < |list| && j != i ==> !AcceptsStrictly(schemas, list[j], keys, h);
    assert AcceptsStrictly(schemas, list[1], keys, h) <==> AcceptsStrictly(schemas, list[2], keys, h);
  }

  lemma NotInEvery(schemas: Schemas, a: Schema, b: Schema, f: string, h: nat)
    requires Grounded(schemas, a, h) && Grounded(schemas, b, h) && f !in Required(schemas, b, h)
    ensures AllGrounded(schemas, [a, b, b], h) && f !in RequiredByEvery(schemas, [a, b, b], h)
  {
    hide Grounded, Required;
    assert [a, b, b][1..] == [b, b];
  }

  function OneOf(variants: seq<Schema>): Schema {
    Schema("", [], [], variants, [], [])
  }

  lemma OneOfMeans(schemas: Schemas, variants: seq<Schema>, keys: set<string>, h: nat)
    requires AllGrounded(schemas, variants, h) && variants != []
    ensures var n := OneOf(variants);
            && Grounded(schemas, n, h + 1)
            && Required(schemas, n, h + 1) == RequiredByEvery(schemas, variants, h)
            && (AcceptsStrictly(schemas, n, keys, h + 1) <==> OneStrictly(schemas, variants, keys, h))
  {
    hide OneStrictly;
    assert Resolve(schemas, OneOf(variants)) == Some(OneOf(variants));
    assert RequiredByEvery(schemas, [], h) == {} && RequiredByAll(schemas, [], h) == {};
  }

  /** With a variant twice among three, the third is forced: its required fields are, optional as they look. */
  lemma TwinsForceTheThird(schemas: Schemas, a: Schema, b: Schema, f: string, h: nat)
    requires Grounded(schemas, a, h) && Grounded(schemas, b, h)
    requires f in Required(schemas, a, h) && f !in Required(schemas, b, h)
    ensures var n := OneOf([a, b, b]);
            Grounded(schemas, n, h + 1) && f !in Required(schemas, n, h + 1) && Forced(schemas, n, f, h + 1)
  {
    var n := OneOf([a, b, b]);
    NotInEvery(schemas, a, b, f, h);
    OneOfMeans(schemas, [a, b, b], {}, h);
    hide Grounded, Required, AcceptsStrictly, OneStrictly, RequiredByEvery, AllGrounded;
    forall keys: set<string> | AcceptsStrictly(schemas, n, keys, h + 1) ensures f in keys {
      OneOfMeans(schemas, [a, b, b], keys, h);
      OnlyTheThird(schemas, a, b, keys, h);
      RequiredIsForced(schemas, a, f, h);
    }
  }

  /** oneOf: [{a}, {b}, {b}] forces "a", which the generator leaves optional. */
  lemma ExactlyOneForcesMore(schemas: Schemas)
    ensures var n := OneOf([Needs(["a"]), Needs(["b"]), Needs(["b"])]);
            Grounded(schemas, n, 2) && "a" !in Required(schemas, n, 2) && Forced(schemas, n, "a", 2)
  {
    NeedsMeans(schemas, ["a"], {}, 1);
    NeedsMeans(schemas, ["b"], {}, 1);
    TwinsForceTheThird(schemas, Needs(["a"]), Needs(["b"]), "a", 1);
  }
}
