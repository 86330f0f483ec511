/** Case-insensitive comparison of names, as the store's `IgnoreCase` queries and
    `LOWER(...) = LOWER(...)` perform it, restricted to ASCII letters. */
module IgnoreCase {

  /** Lowers one ASCII upper-case letter; every other character is kept. */
  function LowerChar(c: char): (l: char)
    ensures !('A' <= l <= 'Z')
    ensures l == c || 'A' <= c <= 'Z'
    ensures 'A' <= c <= 'Z' ==> l as int - c as int == 'a' as int - 'A' as int
  {
    if 'A' <= c <= 'Z' then (c as int - 'A' as int + 'a' as int) as char else c
  }

  /** The lower-cased string: same length, each character lowered. */
  function Lower(s: string): (r: string)
    ensures |r| == |s|
    ensures forall i :: 0 <= i < |s| ==> r[i] == LowerChar(s[i])
  {
    if s == [] then [] else [LowerChar(s[0])] + Lower(s[1..])
  }

  /** Two names are the same when they differ at most in letter case. */
  predicate SameName(a: string, b: string)
    ensures a == b ==> SameName(a, b)
    ensures SameName(a, b) ==> |a| == |b|
  {
    Lower(a) == Lower(b)
  }

  /** SameName is an equivalence relation. */
  lemma SameNameIsEquivalence()
    ensures forall a :: SameName(a, a)
    ensures forall a, b :: SameName(a, b) ==> SameName(b, a)
    ensures forall a, b, c :: SameName(a, b) && SameName(b, c) ==> SameName(a, c)
  {
  }

  /** Lowering twice is lowering once. */
  lemma {:induction false} LowerIdempotent(s: string)
    ensures Lower(Lower(s)) == Lower(s)
  {
    var l := Lower(s);
    assert forall i :: 0 <= i < |s| ==> Lower(l)[i] == LowerChar(LowerChar(s[i])) == l[i];
  }

  /** A name is the same as its own lower-cased form. */
  lemma SameAsLowered(s: string)
    ensures SameName(s, Lower(s))
  {
    LowerIdempotent(s);
  }

  /** SameName compares lengths and then the lowered characters one by one. */
  lemma SameNameCharwise(a: string, b: string)
    ensures SameName(a, b) <==>
      |a| == |b| && forall i :: 0 <= i < |a| ==> LowerChar(a[i]) == LowerChar(b[i])
  {
    if |a| == |b| && forall i :: 0 <= i < |a| ==> LowerChar(a[i]) == LowerChar(b[i]) {
      assert forall i :: 0 <= i < |a| ==> Lower(a)[i] == Lower(b)[i];
    }
  }

  /** Names that differ in length are never the same. */
  lemma DifferentLengthsDiffer(a: string, b: string)
    requires |a| != |b|
    ensures !SameName(a, b)
  {
  }
}
