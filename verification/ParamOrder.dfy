/** Moving request_options in front of the keyword bag of a canonical signature. */
module ParamOrder {
  import opened Text

  datatype Param = Param(name: string, kind: string)

  predicate IsBag(p: Param) { p.kind == "var_keyword" }

  predicate IsOptions(p: Param) { p.name == "request_options" }

  /** The first parameter of a kind, and none before it. */
  predicate FirstAt(ps: seq<Param>, holds: Param -> bool, i: nat) {
    i < |ps| && holds(ps[i]) && NoneBefore(ps, holds, i)
  }

  predicate NoneBefore(ps: seq<Param>, holds: Param -> bool, i: nat)
    requires i <= |ps|
  {
    forall j :: 0 <= j < i ==> !holds(ps[j])
  }

  method IndexOfFirst(ps: seq<Param>, holds: Param -> bool) returns (r: Option<nat>)
    ensures match r case None => NoneBefore(ps, holds, |ps|) case Some(i) => FirstAt(ps, holds, i)
  {
    for i := 0 to |ps|
      invariant NoneBefore(ps, holds, i)
    {
      if holds(ps[i]) {
        return Some(i);
      }
    }
    return None;
  }

  function Without(ps: seq<Param>, i: nat): seq<Param>
    requires i < |ps|
  {
    ps[..i] + ps[i + 1..]
  }

  /** `out` is `ps` with its first request_options, at `r`, moved to `s`; all others keep their order. */
  predicate MovedUp(ps: seq<Param>, out: seq<Param>, r: nat, s: nat) {
    && s <= r < |ps| && |out| == |ps|
    && FirstAt(out, IsOptions, s) && out[s] == ps[r] && Without(out, s) == Without(ps, r)
  }

  /** The first request_options stands at `j`. */
  predicate OptionsFirstAt(ps: seq<Param>, j: int) {
    0 <= j < |ps| && ps[j].name == "request_options" && forall i :: 0 <= i < j ==> ps[i].name != "request_options"
  }

  /**
   * The reordering: no keyword bag is left in front of the first request_options, which is all that moves, and
   * it moves only if there was one.
   */
  method Reorder(params: seq<Param>) returns (out: seq<Param>)
    ensures NoneBefore(params, IsOptions, |params|) ==> out == params
    ensures forall r: nat :: FirstAt(params, IsOptions, r) ==>
              if NoneBefore(params, IsBag, r) then out == params
              else exists s: nat :: MovedUp(params, out, r, s) && NoneBefore(out, IsBag, s)
    ensures (forall i :: 0 <= i < |params| ==> params[i].name != "request_options") ==> out == params
    ensures forall i, j :: 0 <= i < j < |out| && OptionsFirstAt(out, j) ==> out[i].kind != "var_keyword"
    ensures (exists j :: OptionsFirstAt(params, j) && forall i :: 0 <= i < j ==> params[i].kind != "var_keyword") ==>
              out == params
  {
    out := params;
    var roIdx := IndexOfFirst(params, IsOptions);
    if roIdx.None? {
      return;
    }
    var r := roIdx.value;
    var ro := params[r];
    var firstVK := IndexOfFirst(params, IsBag);
    if firstVK.Some? && firstVK.value < r {
      var v := firstVK.value;
      var rest := params[..r] + params[r + 1..];
      out := rest[..v] + [ro] + rest[v..];
      Moved(params, r, v);
    }
  }

  lemma Moved(ps: seq<Param>, r: nat, v: nat)
    requires FirstAt(ps, IsOptions, r) && FirstAt(ps, IsBag, v) && v < r
    ensures var rest := Without(ps, r);
            var out := rest[..v] + [ps[r]] + rest[v..];
            MovedUp(ps, out, r, v) && NoneBefore(out, IsBag, v)
  {
    var rest := Without(ps, r);
    var out := rest[..v] + [ps[r]] + rest[v..];
    assert forall j :: 0 <= j < v ==> out[j] == ps[j];
    assert out[v] == ps[r];
    assert out[v + 1..] == rest[v..] && out[..v] == rest[..v];
    assert rest == rest[..v] + rest[v..];
  }
}
