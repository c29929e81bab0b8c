/**
 * The name test of the two search handlers, `name ILIKE '%' + term + '%'`:
 * the term occurs somewhere in the name, letters compared without regard to
 * case. Case is folded for the ASCII letters A to Z only.
 */
module Search {

  function LowerAscii(c: char): char
  {
    if 'A' <= c <= 'Z' then (c as int + 32) as char else c
  }

  function Fold(s: string): (r: string)
    ensures |r| == |s|
  {
    seq(|s|, k requires 0 <= k < |s| => LowerAscii(s[k]))
  }

  /** t occurs in s starting at position i. */
  ghost predicate OccursAt(s: string, t: string, i: int)
  {
    0 <= i && i + |t| <= |s| && s[i..i + |t|] == t
  }

  /** t is a prefix of s, or occurs in what follows the first character of s. */
  predicate Contains(s: string, t: string)
    decreases |s|
  {
    (|t| <= |s| && s[..|t|] == t) || (s != [] && Contains(s[1..], t))
  }

  /** A position where t occurs in s, when Contains(s, t) holds. */
  lemma {:induction false} ContainsWitness(s: string, t: string) returns (i: nat)
    requires Contains(s, t)
    ensures OccursAt(s, t, i)
    decreases |s|
  {
    if |t| <= |s| && s[..|t|] == t {
      i := 0;
    } else {
      var j := ContainsWitness(s[1..], t);
      assert s[1..][j..j + |t|] == s[j + 1..j + 1 + |t|];
      i := j + 1;
    }
  }

  /** An occurrence at i is found once the first i characters are dropped. */
  lemma {:induction false} OccursContains(s: string, t: string, i: nat)
    requires OccursAt(s, t, i)
    ensures Contains(s, t)
    decreases i
  {
    if i > 0 {
      assert s[1..][i - 1..i - 1 + |t|] == s[i..i + |t|];
      OccursContains(s[1..], t, i - 1);
    }
  }

  lemma ContainsIffOccurs(s: string, t: string)
    ensures Contains(s, t) <==> exists i :: OccursAt(s, t, i)
  {
    if Contains(s, t) {
      var i := ContainsWitness(s, t);
    }
    if i :| OccursAt(s, t, i) {
      OccursContains(s, t, i);
    }
  }

  /** `name ILIKE '%' + term + '%'`: the case-folded term occurs somewhere in the case-folded name. */
  predicate NameMatches(name: string, term: string)
    ensures NameMatches(name, term) <==> exists i :: OccursAt(Fold(name), Fold(term), i)
  {
    ContainsIffOccurs(Fold(name), Fold(term));
    Contains(Fold(name), Fold(term))
  }

  /** An empty term is a substring of every name. */
  lemma EmptyTermMatchesEveryName(name: string)
    ensures NameMatches(name, "")
  {
    assert Fold("") == "";
  }

  /** The case of the letters on either side does not change the outcome. */
  lemma MatchIgnoresCase(name: string, term: string)
    ensures NameMatches(Fold(name), Fold(term)) == NameMatches(name, term)
    ensures NameMatches(Fold(name), term) == NameMatches(name, term)
    ensures NameMatches(name, Fold(term)) == NameMatches(name, term)
  {
    assert Fold(Fold(name)) == Fold(name);
    assert Fold(Fold(term)) == Fold(term);
  }
}
