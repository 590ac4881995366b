/** Names made different by appending a character until they are free. */
module Fresh {

  /** The names in use of at least `n` characters: what bounds the loops that lengthen a name. */
  function Longer(used: set<string>, n: nat): set<string> {
    set x | x in used && |x| >= n
  }

  lemma FewerLonger(name: string, used: set<string>, suffix: char)
    requires name in used
    ensures |Longer(used, |name + [suffix]|)| < |Longer(used, |name|)|
  {
    var a, b := Longer(used, |name + [suffix]|), Longer(used, |name|);
    assert a <= b - {name};
    SubsetSize(a, b - {name});
  }

  lemma {:induction false} SubsetSize(a: set<string>, b: set<string>)
    requires a <= b
    ensures |a| <= |b|
    decreases a
  {
    if a != {} {
      var x :| x in a;
      SubsetSize(a - {x}, b - {x});
    }
  }

  /** `name` with the suffix appended until no name in use is hit. */
  function Free(name: string, used: set<string>, suffix: char): (r: string)
    decreases |Longer(used, |name|)|
  {
    if name in used then
      FewerLonger(name, used, suffix);
      Free(name + [suffix], used, suffix)
    else name
  }

  lemma {:induction false} FreeIsFree(name: string, used: set<string>, suffix: char)
    ensures var r := Free(name, used, suffix);
            && r !in used && name <= r
            && (forall i :: |name| <= i < |r| ==> r[i] == suffix)
            && (name !in used ==> r == name)
    decreases |Longer(used, |name|)|
  {
    if name in used {
      FewerLonger(name, used, suffix);
      FreeIsFree(name + [suffix], used, suffix);
    }
  }

  /** The loop that lengthens a name. */
  method Lengthen(name: string, used: set<string>, suffix: char) returns (r: string)
    ensures r == Free(name, used, suffix)
  {
    r := name;
    while r in used
      invariant Free(r, used, suffix) == Free(name, used, suffix)
      decreases |Longer(used, |r|)|
    {
      FewerLonger(r, used, suffix);
      r := r + [suffix];
    }
  }
}
