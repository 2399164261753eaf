/**
 * Case-insensitive string comparison as `String.equalsIgnoreCase` performs it:
 * equal lengths, and every pair of characters equal, or equal after
 * upper-casing, or equal after upper- then lower-casing.  Character case
 * mapping is restricted to the ASCII letters.
 */
module CaseFold {

  /** `Character.toUpperCase` on ASCII letters; every other character is kept. */
  function ToUpper(c: char): char
  {
    if 'a' <= c <= 'z' then (c as int - 32) as char else c
  }

  /** `Character.toLowerCase` on ASCII letters; every other character is kept. */
  function ToLower(c: char): char
  {
    if 'A' <= c <= 'Z' then (c as int + 32) as char else c
  }

  /** The three-step comparison the JDK applies to one pair of characters. */
  predicate CharEqualsIgnoreCase(a: char, b: char)
  {
    a == b || ToUpper(a) == ToUpper(b) || ToLower(ToUpper(a)) == ToLower(ToUpper(b))
  }

  /** The lower-case image of a string. */
  function Fold(s: string): string
  {
    seq(|s|, i requires 0 <= i < |s| => ToLower(s[i]))
  }

  /**
   * Strings equal ignoring case: their lower-case images coincide.  This is
   * an equivalence relation by construction; `EqualsIgnoreCaseCharwise`
   * shows it is the JDK's character-by-character comparison.
   */
  predicate EqualsIgnoreCase(a: string, b: string)
  {
    Fold(a) == Fold(b)
  }

  /** The JDK's three-step character test is equality after lower-casing. */
  lemma CharEqualsIgnoreCaseIffSameLower(a: char, b: char)
    ensures CharEqualsIgnoreCase(a, b) <==> ToLower(a) == ToLower(b)
  {
  }

  /** Equal ignoring case exactly when the lengths agree and every character pair passes the JDK's test. */
  lemma EqualsIgnoreCaseCharwise(a: string, b: string)
    ensures EqualsIgnoreCase(a, b) <==>
            |a| == |b| && forall i :: 0 <= i < |a| ==> CharEqualsIgnoreCase(a[i], b[i])
  {
    if EqualsIgnoreCase(a, b) {
      forall i | 0 <= i < |a|
        ensures CharEqualsIgnoreCase(a[i], b[i])
      {
        assert Fold(a)[i] == Fold(b)[i];
        CharEqualsIgnoreCaseIffSameLower(a[i], b[i]);
      }
    }
    if |a| == |b| && forall i :: 0 <= i < |a| ==> CharEqualsIgnoreCase(a[i], b[i]) {
      forall i | 0 <= i < |a|
        ensures Fold(a)[i] == Fold(b)[i]
      {
        CharEqualsIgnoreCaseIffSameLower(a[i], b[i]);
      }
    }
  }

  /** One position whose characters differ after lower-casing tells two strings apart. */
  lemma DifferAt(a: string, b: string, i: nat)
    requires i < |a| && i < |b| && ToLower(a[i]) != ToLower(b[i])
    ensures !EqualsIgnoreCase(a, b)
  {
    assert Fold(a)[i] != Fold(b)[i];
  }
}
