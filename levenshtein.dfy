/**
 * Edit distance and the similarity fuzzyMatch derives from it
 * (internal/matcher/matcher.go:140-148). The distance itself comes from a
 * library that is not part of this model; it is given here by the standard
 * recursive definition over the two strings' suffixes.
 */
module Levenshtein {

  function Min3(x: nat, y: nat, z: nat): (r: nat)
    ensures r <= x && r <= y && r <= z
    ensures r == x || r == y || r == z
  {
    if x <= y && x <= z then x else if y <= z then y else z
  }

  function MaxLen(a: string, b: string): nat
  {
    if |a| >= |b| then |a| else |b|
  }

  /**
   * The least number of single-character insertions, deletions and
   * substitutions that turn `a` into `b`. It never exceeds the longer
   * length and is never below the difference of the lengths.
   */
  function Distance(a: string, b: string): (r: nat)
    ensures r <= MaxLen(a, b)
    ensures |a| - |b| <= r && |b| - |a| <= r
    decreases |a| + |b|
  {
    if a == [] then |b|
    else if b == [] then |a|
    else
      Min3(Distance(a[1..], b) + 1,
           Distance(a, b[1..]) + 1,
           Distance(a[1..], b[1..]) + (if a[0] == b[0] then 0 else 1))
  }

  /** One step of an edit script: the distance is at most any of the three moves. */
  lemma Steps(a: string, b: string)
    requires a != [] && b != []
    ensures Distance(a, b) <= Distance(a[1..], b) + 1
    ensures Distance(a, b) <= Distance(a, b[1..]) + 1
    ensures Distance(a, b) <= Distance(a[1..], b[1..]) + (if a[0] == b[0] then 0 else 1)
  {
  }

  /** The distance is zero exactly between equal strings. */
  lemma {:induction false} ZeroIff(a: string, b: string)
    ensures Distance(a, b) == 0 <==> a == b
    decreases |a| + |b|
  {
    if a != [] && b != [] {
      ZeroIff(a[1..], b[1..]);
      if a == b {
        Steps(a, b);
      }
    }
  }

  /** Turning `a` into `b` costs what turning `b` into `a` does. */
  lemma {:induction false} Symmetric(a: string, b: string)
    ensures Distance(a, b) == Distance(b, a)
    decreases |a| + |b|
  {
    if a != [] && b != [] {
      Symmetric(a[1..], b);
      Symmetric(a, b[1..]);
      Symmetric(a[1..], b[1..]);
    }
  }

  /** A shared prefix costs nothing. */
  lemma {:induction false} SharedPrefix(p: string, x: string, y: string)
    ensures Distance(p + x, p + y) <= Distance(x, y)
    decreases |p|
  {
    if p != [] {
      assert (p + x)[1..] == p[1..] + x;
      assert (p + y)[1..] == p[1..] + y;
      Steps(p + x, p + y);
      SharedPrefix(p[1..], x, y);
    } else {
      assert p + x == x && p + y == y;
    }
  }

  /** How many characters of `s` lie in `c`. */
  function CountIn(s: string, c: set<char>): (r: nat)
    ensures r <= |s|
  {
    if s == [] then 0 else (if s[0] in c then 1 else 0) + CountIn(s[1..], c)
  }

  /** Each edit changes the count of any set of characters by at most one. */
  lemma {:induction false} CountBound(a: string, b: string, c: set<char>)
    ensures CountIn(b, c) - CountIn(a, c) <= Distance(a, b)
    decreases |a| + |b|
  {
    if a != [] && b != [] {
      CountBound(a[1..], b, c);
      CountBound(a, b[1..], c);
      CountBound(a[1..], b[1..], c);
    }
  }

  /** fuzzyMatch: 1 − distance / longer length, and 1.0 for two empty strings. */
  function FuzzyMatch(s1: string, s2: string): (r: real)
    ensures 0.0 <= r <= 1.0
  {
    var maxLen := MaxLen(s1, s2);
    if maxLen == 0 then 1.0
    else
      Ratio(Distance(s1, s2), maxLen);
      1.0 - (Distance(s1, s2) as real) / (maxLen as real)
  }

  lemma Ratio(d: nat, m: nat)
    requires d <= m && 0 < m
    ensures 0.0 <= (d as real) / (m as real) <= 1.0
  {
    var q := (d as real) / (m as real);
    assert q * (m as real) == d as real;
  }

  /** Similarity 1.0 means equal strings, and equal strings score 1.0. */
  lemma FuzzyExactIff(s1: string, s2: string)
    ensures FuzzyMatch(s1, s2) == 1.0 <==> s1 == s2
  {
    ZeroIff(s1, s2);
  }

  lemma FuzzySymmetric(s1: string, s2: string)
    ensures FuzzyMatch(s1, s2) == FuzzyMatch(s2, s1)
  {
    Symmetric(s1, s2);
  }

  /** Two one-letter strings that differ share nothing: similarity 0. */
  lemma FuzzyDisjointLetters(x: char, y: char)
    requires x != y
    ensures FuzzyMatch([x], [y]) == 0.0
  {
    ZeroIff([x], [y]);
  }

  /** "kristen" against "kristina": distance 2 over length 8, similarity 0.75. */
  lemma KristenKristina(a: string, b: string)
    requires a == "kristen" && b == "kristina"
    ensures Distance(a, b) == 2
    ensures FuzzyMatch(a, b) == 0.75
  {
    KristenAtMostTwo(a, b);
    var c := {'i', 'a'};
    CountBound(a, b, c);
    KristenCounts(a, b, c);
    assert MaxLen(a, b) == 8;
  }

  /** Keep "krist", substitute 'e' by 'i', keep 'n', insert 'a'. */
  lemma KristenAtMostTwo(a: string, b: string)
    requires a == "kristen" && b == "kristina"
    ensures Distance(a, b) <= 2
  {
    var p, x, y := a[..5], a[5..], b[5..];
    assert a == p + x && b == p + y;
    SharedPrefix(p, x, y);
    EnIna(x, y);
  }

  lemma EnIna(x: string, y: string)
    requires x == "en" && y == "ina"
    ensures Distance(x, y) <= 2
  {
    Steps(x, y);
    Steps(x[1..], y[1..]);
    assert x[1..][1..] == [] && y[1..][1..] == "a";
  }

  lemma KristenCounts(a: string, b: string, c: set<char>)
    requires a == "kristen" && b == "kristina" && c == {'i', 'a'}
    ensures CountIn(a, c) == 1 && CountIn(b, c) == 3
  {
    CountKristen();
    CountKristina();
  }

  lemma CountKristen()
    ensures CountIn("kristen", {'i', 'a'}) == 1
  {
  }

  lemma CountKristina()
    ensures CountIn("kristina", {'i', 'a'}) == 3
  {
  }
}
