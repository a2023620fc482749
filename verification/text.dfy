/** String helpers the description is built from. */
module Text {

  /** `toUpperCase` on one character, for the ASCII letters; every other character is left alone. */
  function UpperChar(c: char): (u: char)
    ensures 'a' <= c <= 'z' ==> 'A' <= u <= 'Z' && u as int == c as int - 32
    ensures !('a' <= c <= 'z') ==> u == c
  {
    if 'a' <= c <= 'z' then (c as int - 32) as char else c
  }

  /** `s.charAt(0).toUpperCase() + s.slice(1)`: the first character upper-cased, the rest unchanged. */
  function Capitalize(s: string): (r: string)
    ensures |r| == |s|
    ensures |s| > 0 ==> r[0] == UpperChar(s[0])
    ensures forall i :: 1 <= i < |s| ==> r[i] == s[i]
  {
    if |s| == 0 then s else [UpperChar(s[0])] + s[1..]
  }

  /** Capitalising twice is the same as capitalising once. */
  lemma CapitalizeIdempotent(s: string)
    ensures Capitalize(Capitalize(s)) == Capitalize(s)
  {
    if |s| > 0 {
      var r := Capitalize(s);
      assert 'A' <= r[0] <= 'Z' || !('a' <= r[0] <= 'z');
      assert Capitalize(r) == [UpperChar(r[0])] + r[1..];
    }
  }

  /** The parts in order with `sep` between neighbours, as `Array.prototype.join`. */
  function Join(parts: seq<string>, sep: string): string
    decreases |parts|
  {
    if |parts| == 0 then ""
    else if |parts| == 1 then parts[0]
    else parts[0] + sep + Join(parts[1..], sep)
  }

  lemma JoinCons(first: string, rest: seq<string>, sep: string)
    requires |rest| > 0
    ensures Join([first] + rest, sep) == first + sep + Join(rest, sep)
  {
    assert ([first] + rest)[1..] == rest;
  }

  /** `t` occurs in `d` starting at position `i`. */
  predicate OccursAt(d: string, i: int, t: string) {
    0 <= i && i + |t| <= |d| && d[i..i + |t|] == t
  }

  // The identities below are plain facts about sequence concatenation, stated
  // as lemmas only so that proofs elsewhere can name the step they need and
  // stay cheap; they say nothing about the page.

  lemma PrefixOfConcat(a: string, b: string)
    ensures a <= a + b
  {
    assert (a + b)[..|a|] == a;
  }

  lemma SliceOfConcat(a: string, b: string, c: string)
    ensures (a + b + c)[|a|..|a| + |b|] == b
  {
  }

  lemma SuffixOfConcat(a: string, b: string)
    ensures (a + b)[|a|..] == b
  {
  }

  lemma AppendEmpty(a: string)
    ensures a + "" == a
  {
  }

  lemma Assoc(a: string, b: string, c: string)
    ensures a + b + c == a + (b + c)
  {
  }

  lemma Regroup(h: string, s: string, g: string, m: string)
    ensures h + (s + g) + (s + m) == h + s + (g + s + m)
  {
  }
}
