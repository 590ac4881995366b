/** Which Go struct a generated resource embeds, and which of its declared methods are emitted beside it. */
module Embeds {
  import opened Text
  import opened UrlPaths
  import opened UrlCode

  datatype Method = Method(name: string, op: string)

  datatype Resource = Resource(name: string, base: string, updateMethod: string, coll: string, methods: seq<Method>)

  /** The server path of a spec and the path of each of its operations. */
  datatype Spec = Spec(serverPath: string, opIndex: map<string, string>)

  datatype Embed = Embed(field: string, ctor: string, crud: bool)

  predicate IsSibling(rm: Resource, sd: Spec, mm: Method) {
    mm.op in sd.opIndex && RelativeTail(rm.coll, sd.serverPath, sd.opIndex[mm.op]).sibling
  }

  /** The resource declares list_addresses on a path outside its collection. */
  predicate Overrides(rm: Resource, sd: Spec) {
    exists mm :: mm in rm.methods && mm.name == "list_addresses" && IsSibling(rm, sd, mm)
  }

  method HasSiblingAddressOverride(rm: Resource, sd: Spec) returns (r: bool)
    ensures r <==> Overrides(rm, sd)
  {
    hide IsSibling;
    for i := 0 to |rm.methods|
      invariant forall j :: 0 <= j < i ==> !(rm.methods[j].name == "list_addresses" && IsSibling(rm, sd, rm.methods[j]))
    {
      var mm := rm.methods[i];
      if mm.name != "list_addresses" {
        continue;
      }
      if IsSibling(rm, sd, mm) {
        return true;
      }
    }
    return false;
  }

  const PLAIN := Embed("Resource", "Resource{HTTP: client, Base: %s}", false)
  const CRUD := Embed("*CrudResource", "NewCrudResource(client, %s)", true)
  const CRUD_PUT := Embed("*CrudResource", "NewCrudResourcePUT(client, %s)", true)
  const ADDRESSES := Embed("*CrudWithAddresses", "NewCrudWithAddresses(client, %s)", true)
  const ADDRESSES_PUT := Embed("*CrudWithAddresses", "NewCrudWithAddressesPUT(client, %s)", true)

  function EmbedFor(rm: Resource, sd: Spec): Result<Embed> {
    match rm.base
    case "BaseResource" => Ok(PLAIN)
    case "ReadResource" => Ok(PLAIN)
    case "CrudResource" =>
      if rm.updateMethod == "" then Err(rm.name + ": CrudResource requires update_method")
      else Ok(if rm.updateMethod == "PUT" then CRUD_PUT else CRUD)
    case "FabricResource" =>
      if Overrides(rm, sd) then Ok(if rm.updateMethod == "PUT" then CRUD_PUT else CRUD)
      else Ok(if rm.updateMethod == "PUT" then ADDRESSES_PUT else ADDRESSES)
    case _ => Err(rm.name + ": unknown base " + Quote(rm.base))
  }

  /** A value of the hand-written base structs: its type, and the verb that its Update sends. */
  datatype Base = Base(typ: string, update: string)

  /** What the constructors of the base structs make. */
  function Constructed(ctor: string): Option<Base> {
    match ctor
    case "Resource{HTTP: client, Base: %s}" => Some(Base("Resource", ""))
    case "NewCrudResource(client, %s)" => Some(Base("*CrudResource", "PATCH"))
    case "NewCrudResourcePUT(client, %s)" => Some(Base("*CrudResource", "PUT"))
    case "NewCrudWithAddresses(client, %s)" => Some(Base("*CrudWithAddresses", "PATCH"))
    case "NewCrudWithAddressesPUT(client, %s)" => Some(Base("*CrudWithAddresses", "PUT"))
    case _ => None
  }

  /** The constructor makes the struct that is embedded, and its Update sends PUT exactly if the markup says so. */
  lemma ConstructorFits(rm: Resource, sd: Spec)
    requires EmbedFor(rm, sd).Ok?
    ensures var emb := EmbedFor(rm, sd).value;
            && (rm.base == "BaseResource" || rm.base == "ReadResource" ==>
                  Constructed(emb.ctor) == Some(Base("Resource", "")) && emb.field == "Resource" && !emb.crud)
            && (rm.base == "CrudResource" || rm.base == "FabricResource" ==>
                  && emb.crud
                  && Constructed(emb.ctor) == Some(Base(emb.field, if rm.updateMethod == "PUT" then "PUT" else "PATCH"))
                  && (emb.field == "*CrudWithAddresses" || emb.field == "*CrudResource")
                  && (emb.field == "*CrudWithAddresses" <==> rm.base == "FabricResource" && !Overrides(rm, sd)))
  {
    hide Overrides;
    assert "*CrudWithAddresses" != "*CrudResource" by {
      assert |"*CrudWithAddresses"| != |"*CrudResource"|;
    }
  }

  /** There is no embed for an unknown base, and none for a CrudResource that does not say how it updates. */
  lemma EmbedsExactly(rm: Resource, sd: Spec)
    ensures EmbedFor(rm, sd).Ok? <==>
            || rm.base == "BaseResource" || rm.base == "ReadResource" || rm.base == "FabricResource"
            || (rm.base == "CrudResource" && rm.updateMethod != "")
    ensures EmbedFor(rm, sd).Err? ==>
              EmbedFor(rm, sd).reason == rm.name + if rm.base == "CrudResource"
                                                   then ": CrudResource requires update_method"
                                                   else ": unknown base " + Quote(rm.base)
  {
    assert |"CrudResource"| == 12 && |"BaseResource"| == 12 && "CrudResource"[0] != "BaseResource"[0];
    assert "ReadResource"[0] == 'R' && "FabricResource"[0] == 'F';
  }

  /** The markup names that extraMethods takes to be supplied by the embedded struct. */
  function Skipped(field: string): set<string> {
    match field
    case "*CrudResource" => {"list", "create", "get", "update", "delete"}
    case "*CrudWithAddresses" => {"list", "create", "get", "update", "delete", "list_addresses"}
    case _ => {}
  }

  predicate IsExtra(rm: Resource, emb: Embed, sd: Spec, mm: Method) {
    mm.name in Skipped(emb.field) ==> mm.name == "list_addresses" && IsSibling(rm, sd, mm)
  }

  function Extras(rm: Resource, emb: Embed, sd: Spec, methods: seq<Method>): seq<Method> {
    if methods == [] then []
    else (if IsExtra(rm, emb, sd, methods[0]) then [methods[0]] else []) + Extras(rm, emb, sd, methods[1..])
  }

  lemma ExtrasStep(rm: Resource, emb: Embed, sd: Spec, i: nat, out: seq<Method>)
    requires i < |rm.methods|
    ensures out + Extras(rm, emb, sd, rm.methods[i..])
            == (if IsExtra(rm, emb, sd, rm.methods[i]) then out + [rm.methods[i]] else out)
               + Extras(rm, emb, sd, rm.methods[i + 1..])
  {
    hide IsExtra;
    assert rm.methods[i..][1..] == rm.methods[i + 1..];
    assert [] + Extras(rm, emb, sd, rm.methods[i + 1..]) == Extras(rm, emb, sd, rm.methods[i + 1..]);
  }

  lemma ExtrasEnds(rm: Resource, emb: Embed, sd: Spec)
    ensures rm.methods[0..] == rm.methods && Extras(rm, emb, sd, rm.methods[|rm.methods|..]) == []
  {
  }

  method ExtraMethods(rm: Resource, emb: Embed, sd: Spec) returns (out: seq<Method>)
    ensures out == Extras(rm, emb, sd, rm.methods)
  {
    hide IsSibling, Skipped, Extras;
    var provided := Skipped(emb.field);
    out := [];
    ExtrasEnds(rm, emb, sd);
    for i := 0 to |rm.methods|
      invariant out + Extras(rm, emb, sd, rm.methods[i..]) == Extras(rm, emb, sd, rm.methods)
    {
      ExtrasStep(rm, emb, sd, i, out);
      var mm := rm.methods[i];
      if mm.name in provided {
        if mm.name == "list_addresses" {
          if IsSibling(rm, sd, mm) {
            out := out + [mm];
            continue;
          }
        }
        continue;
      }
      out := out + [mm];
    }
  }

  /** The methods that are not skipped, in their order. */
  function NotSkipped(field: string, methods: seq<Method>): seq<Method> {
    if methods == [] then []
    else (if methods[0].name in Skipped(field) then [] else [methods[0]]) + NotSkipped(field, methods[1..])
  }

  lemma OverrideNeedsPlain(rm: Resource, sd: Spec, mm: Method)
    requires EmbedFor(rm, sd).Ok? && mm in rm.methods
    ensures IsExtra(rm, EmbedFor(rm, sd).value, sd, mm) <==> mm.name !in Skipped(EmbedFor(rm, sd).value.field)
  {
    hide IsSibling;
    var field := EmbedFor(rm, sd).value.field;
    assert field == "*CrudWithAddresses" ==> rm.base == "FabricResource" && !Overrides(rm, sd) by {
      assert |"*CrudWithAddresses"| != |"*CrudResource"| && |"Resource"| != |"*CrudWithAddresses"|;
    }
    assert "list_addresses" in Skipped(field) ==> field == "*CrudWithAddresses" by {
      assert |"list_addresses"| == 14;
    }
  }

  /** With the embed chosen for the resource, the shadowing branch never fires: what is inherited is not emitted. */
  lemma {:induction false} NeverShadows(rm: Resource, sd: Spec, i: nat)
    requires EmbedFor(rm, sd).Ok? && i <= |rm.methods|
    ensures var emb := EmbedFor(rm, sd).value;
            Extras(rm, emb, sd, rm.methods[i..]) == NotSkipped(emb.field, rm.methods[i..])
    decreases |rm.methods| - i
  {
    if i < |rm.methods| {
      NeverShadows(rm, sd, i + 1);
      assert rm.methods[i..][1..] == rm.methods[i + 1..];
      OverrideNeedsPlain(rm, sd, rm.methods[i]);
    }
  }

  lemma {:induction false} NotSkippedHas(field: string, methods: seq<Method>, mm: Method)
    ensures mm in NotSkipped(field, methods) <==> mm in methods && mm.name !in Skipped(field)
  {
    if methods != [] {
      assert methods == [methods[0]] + methods[1..];
      NotSkippedHas(field, methods[1..], mm);
    }
  }

  /**
   * With any embed, a method is emitted exactly if the embed's own CRUD methods do not have it, or if it is
   * list_addresses on a path outside the collection.
   */
  lemma {:induction false} ExtrasExactly(rm: Resource, emb: Embed, sd: Spec, methods: seq<Method>, mm: Method)
    ensures mm in Extras(rm, emb, sd, methods) <==>
            && mm in methods
            && (|| mm.name !in Supplied(emb.field) || mm.name == "paginate"
                || (mm.name == "list_addresses" && mm.op in sd.opIndex
                    && RelativeTail(rm.coll, sd.serverPath, sd.opIndex[mm.op]).sibling))
  {
    hide RelativeTail;
    SkippedBy(emb.field, mm.name);
    hide Skipped, Supplied;
    if methods != [] {
      ExtrasExactly(rm, emb, sd, methods[1..], mm);
      assert methods == [methods[0]] + methods[1..];
    }
  }

  lemma SkippedBy(field: string, name: string)
    ensures name in Skipped(field) <==> name in Supplied(field) && name != "paginate"
  {
    assert |"paginate"| == 8 && |"list_addresses"| == 14;
  }

  // ---- what a resource has ----

  /**
   * The methods that the hand-written base structs declare themselves, by their markup names; no other
   * markup name is given the Go name of one of them.
   */
  function OwnMethods(field: string): set<string> {
    match field
    case "*CrudResource" => {"list", "paginate", "create", "get", "update", "delete"}
    case "*CrudWithAddresses" => {"list_addresses"}
    case _ => {}
  }

  /** What a base struct supplies: its own methods and those promoted from the struct it embeds in turn. */
  function Supplied(field: string): set<string> {
    OwnMethods(field) + (if field == "*CrudWithAddresses" then OwnMethods("*CrudResource") else {})
  }

  /** What the generator writes out for a resource beside its declared methods. */
  function Synthesized(base: string): set<string> {
    if base == "ReadResource" then {"list", "get", "paginate"} else {}
  }

  lemma SkippedIsSupplied(rm: Resource, sd: Spec, x: string)
    requires EmbedFor(rm, sd).Ok?
    ensures var emb := EmbedFor(rm, sd).value;
            && (x in Supplied(emb.field) <==> x in Skipped(emb.field) || (x == "paginate" && emb.crud))
            && (x == "paginate" ==> x !in Skipped(emb.field))
            && (emb.crud <==> rm.base == "CrudResource" || rm.base == "FabricResource")
            && (emb.crud <==> Supplied(emb.field) != {})
            && (emb.crud ==> Synthesized(rm.base) == {})
  {
    hide Overrides;
    assert |"paginate"| == 8;
    assert "list" in OwnMethods("*CrudResource") && OwnMethods("Resource") == {};
  }

  /** A declared method is emitted exactly when extraMethods does not skip it. */
  lemma EmittedExactly(rm: Resource, sd: Spec, mm: Method)
    requires EmbedFor(rm, sd).Ok?
    ensures var emb := EmbedFor(rm, sd).value;
            mm in Extras(rm, emb, sd, rm.methods) <==> mm in rm.methods && mm.name !in Skipped(emb.field)
  {
    hide EmbedFor, Extras, NotSkipped;
    NeverShadows(rm, sd, 0);
    assert rm.methods[0..] == rm.methods;
    NotSkippedHas(EmbedFor(rm, sd).value.field, rm.methods, mm);
  }

  /**
   * For every markup a declared method is inherited or emitted, and it is both exactly if it is a CRUD base's
   * paginate.
   */
  lemma InheritedOrEmitted(rm: Resource, sd: Spec, mm: Method)
    requires EmbedFor(rm, sd).Ok? && mm in rm.methods
    ensures var emb := EmbedFor(rm, sd).value;
            var emitted, inherited := mm in Extras(rm, emb, sd, rm.methods), mm.name in Supplied(emb.field);
            && (emitted || inherited)
            && (emitted && inherited <==> emb.crud && mm.name == "paginate")
  {
    hide EmbedFor, Extras, Supplied, Skipped, Synthesized;
    EmittedExactly(rm, sd, mm);
    SkippedIsSupplied(rm, sd, mm.name);
  }

  predicate DeclaresOne(rm: Resource, names: set<string>) {
    exists mm :: mm in rm.methods && mm.name in names
  }

  /** Some emitted method is inherited from the embedded struct or written out as well. */
  predicate HasTwice(rm: Resource, sd: Spec)
    requires EmbedFor(rm, sd).Ok?
  {
    var emb := EmbedFor(rm, sd).value;
    exists mm :: mm in Extras(rm, emb, sd, rm.methods) && mm.name in Supplied(emb.field) + Synthesized(rm.base)
  }

  /**
   * A resource has a method twice exactly when it is a CrudResource or FabricResource that declares paginate,
   * or a ReadResource that declares one of the methods written out for it.
   */
  lemma DeclaredTwiceExactly(rm: Resource, sd: Spec)
    requires EmbedFor(rm, sd).Ok?
    ensures HasTwice(rm, sd) <==>
            || ((rm.base == "CrudResource" || rm.base == "FabricResource") && DeclaresOne(rm, {"paginate"}))
            || (rm.base == "ReadResource" && DeclaresOne(rm, {"list", "get", "paginate"}))
  {
    var emb := EmbedFor(rm, sd).value;
    assert Skipped("Resource") == {} && (rm.base == "ReadResource" ==> emb == PLAIN);
    assert Synthesized(rm.base) == if rm.base == "ReadResource" then {"list", "get", "paginate"} else {};
    hide EmbedFor, Extras, Supplied, Skipped, Synthesized;
    forall mm
      ensures mm in Extras(rm, emb, sd, rm.methods) <==> mm in rm.methods && mm.name !in Skipped(emb.field)
      ensures mm.name in Supplied(emb.field) <==> mm.name in Skipped(emb.field) || (mm.name == "paginate" && emb.crud)
      ensures mm.name == "paginate" ==> mm.name !in Skipped(emb.field)
    {
      EmittedExactly(rm, sd, mm);
      SkippedIsSupplied(rm, sd, mm.name);
    }
    SkippedIsSupplied(rm, sd, "");
    assert rm.base == "ReadResource" ==> !emb.crud && Supplied(emb.field) == {};
  }

  /** The markup of a CRUD resource that names its inherited paginate declares it a second time. */
  lemma PaginateTwice(sd: Spec, op: string)
    ensures var rm := Resource("R", "CrudResource", "PATCH", "/r", [Method("paginate", op)]);
            EmbedFor(rm, sd).Ok? && HasTwice(rm, sd)
  {
    var rm := Resource("R", "CrudResource", "PATCH", "/r", [Method("paginate", op)]);
    assert rm.methods[0].name == "paginate" && rm.methods[0] in rm.methods;
    assert EmbedFor(rm, sd) == Ok(CRUD);
    hide EmbedFor, HasTwice;
    DeclaredTwiceExactly(rm, sd);
  }

  /**
   * A Fabric resource lists its addresses through the embed exactly when it declares no route outside its collection.
   */
  lemma AddressesOnce(rm: Resource, sd: Spec)
    requires rm.base == "FabricResource"
    ensures EmbedFor(rm, sd).Ok?
    ensures var emb := EmbedFor(rm, sd).value;
            && ("list_addresses" in Supplied(emb.field) <==> !Overrides(rm, sd))
            && (Overrides(rm, sd)
                <==> exists mm :: mm in Extras(rm, emb, sd, rm.methods) && mm.name == "list_addresses")
  {
    hide IsSibling;
    var emb := EmbedFor(rm, sd).value;
    assert emb.field == if Overrides(rm, sd) then "*CrudResource" else "*CrudWithAddresses";
    assert "list_addresses" !in Skipped("*CrudResource") by {
      assert |"list_addresses"| == 14 && |"*CrudResource"| == 13 && |"*CrudWithAddresses"| == 18;
    }
    assert "list_addresses" in Skipped("*CrudWithAddresses");
    SkippedIsSupplied(rm, sd, "list_addresses");
    hide EmbedFor, Extras, Skipped, Supplied;
    forall mm | mm in rm.methods
      ensures mm in Extras(rm, emb, sd, rm.methods) <==> mm.name !in Skipped(emb.field)
    {
      EmittedExactly(rm, sd, mm);
    }
    ExtrasDeclared(rm, emb, sd, rm.methods);
  }

  lemma {:induction false} ExtrasDeclared(rm: Resource, emb: Embed, sd: Spec, methods: seq<Method>)
    ensures forall mm :: mm in Extras(rm, emb, sd, methods) ==> mm in methods
  {
    if methods != [] {
      ExtrasDeclared(rm, emb, sd, methods[1..]);
    }
  }
}
