/** ASCII letter case, as the generators and the config loader change it. */
module Letters {

  predicate IsUpper(c: char) { 'A' <= c <= 'Z' }

  predicate IsLower(c: char) { 'a' <= c <= 'z' }

  function LowerRune(c: char): char {
    if IsUpper(c) then c - 'A' + 'a' else c
  }

  function UpperRune(c: char): char {
    if IsLower(c) then c - 'a' + 'A' else c
  }

  function Lower(s: string): (r: string)
    ensures |r| == |s|
  {
    seq(|s|, i requires 0 <= i < |s| => LowerRune(s[i]))
  }

  function Upper(s: string): (r: string)
    ensures |r| == |s|
  {
    seq(|s|, i requires 0 <= i < |s| => UpperRune(s[i]))
  }

  /** The twenty-six pairs, by their codes; everything else has no case. */
  lemma Cases(c: char)
    ensures 'A' <= c <= 'Z' ==> LowerRune(c) as int == c as int + 32
    ensures 'a' <= c <= 'z' ==> UpperRune(c) as int == c as int - 32
    ensures !('A' <= c <= 'Z') ==> LowerRune(c) == c
    ensures !('a' <= c <= 'z') ==> UpperRune(c) == c
  {
  }
}
