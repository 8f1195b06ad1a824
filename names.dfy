/**
 * Case-insensitive name comparison, as used to match a key against a property
 * name (`string.Equals(..., StringComparison.OrdinalIgnoreCase)`). The model
 * folds ASCII letters only: every other character compares by itself.
 */
module Names {

  /** Upper-cases an ASCII lower-case letter and leaves every other character alone. */
  function FoldCase(c: char): (r: char)
    ensures !('a' <= r <= 'z')
    ensures !('a' <= c <= 'z') ==> r == c
    ensures 'a' <= c <= 'z' ==> 'A' <= r <= 'Z' && r as int == c as int - 32
  {
    if 'a' <= c <= 'z' then (c as int - 32) as char else c
  }

  /** The string with every character case-folded. */
  function Folded(s: string): seq<char>
  {
    seq(|s|, i requires 0 <= i < |s| => FoldCase(s[i]))
  }

  /**
   * Ordinal comparison that ignores ASCII case: the two strings have the same
   * length and agree character by character once case-folded.
   */
  predicate EqualsIgnoreCase(a: string, b: string)
    ensures EqualsIgnoreCase(a, b) <==>
            |a| == |b| && forall i :: 0 <= i < |a| ==> FoldCase(a[i]) == FoldCase(b[i])
  {
    FoldedPointwise(a, b);
    Folded(a) == Folded(b)
  }

  /** Folded strings are equal exactly when they agree character by character. */
  lemma FoldedPointwise(a: string, b: string)
    ensures Folded(a) == Folded(b) <==>
            |a| == |b| && forall i :: 0 <= i < |a| ==> FoldCase(a[i]) == FoldCase(b[i])
  {
    if |a| == |b| && forall i :: 0 <= i < |a| ==> FoldCase(a[i]) == FoldCase(b[i]) {
      assert forall i :: 0 <= i < |a| ==> Folded(a)[i] == Folded(b)[i];
    }
    if Folded(a) == Folded(b) {
      assert |Folded(a)| == |a| && |Folded(b)| == |b|;
      forall i | 0 <= i < |a| ensures FoldCase(a[i]) == FoldCase(b[i]) {
        assert Folded(a)[i] == Folded(b)[i];
      }
    }
  }

  /** Ignoring case is an equivalence relation, and exact equality implies it. */
  lemma EqualsIgnoreCaseIsEquivalence(a: string, b: string, c: string)
    ensures a == b ==> EqualsIgnoreCase(a, b)
    ensures EqualsIgnoreCase(a, b) ==> EqualsIgnoreCase(b, a)
    ensures EqualsIgnoreCase(a, b) && EqualsIgnoreCase(b, c) ==> EqualsIgnoreCase(a, c)
  {
  }
}
