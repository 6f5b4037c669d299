/**
 * The scores calculateMatchScore gives the inputs of its own test
 * against the contestant Sophie S: first name Sophie, last name Stevens,
 * no nickname. Each score is pinned between the rule that reaches it and
 * an upper bound on every other rule.
 */
module MatcherExamples {
  import opened Text
  import opened Levenshtein
  import opened Roster
  import opened Normalizer
  import opened Matcher

  /** Sophie S's normalised names. */
  predicate SophieForms(c: Contestant, f: Forms)
  {
    && c.nickname == "" && c.lastName != ""
    && f.canon == "sophie s" && f.nick == "" && f.first == "sophie" && f.last == "stevens"
    && f.full == "sophie stevens" && f.reverse == "stevens sophie"
  }

  /** Letters of "stevens" that "sophie s" lacks. */
  const Rare: set<char> := {'t', 'v', 'n'}

  /**
   * What the scores below depend on, with the letters abstracted away:
   * the lengths, how the names are assembled from the first and last
   * name, and three letters of the last name missing from the canonical
   * name. The similarity of two literal strings would otherwise be
   * evaluated letter by letter.
   */
  predicate SophieShape(c: Contestant, f: Forms)
  {
    && c.nickname == "" && c.lastName != "" && f.nick == ""
    && |f.first| == 6 && |f.last| == 7
    && f.canon == f.first + " " + f.last[..1]
    && f.full == f.first + " " + f.last
    && f.reverse == f.last + " " + f.first
    && CountIn(f.last, Rare) == 3 && CountIn(f.canon, Rare) == 0
  }

  lemma ShapeOfForms(c: Contestant, f: Forms)
    requires SophieForms(c, f)
    ensures SophieShape(c, f)
  {
    assert f.canon == f.first + " " + f.last[..1];
    assert f.full == f.first + " " + f.last;
    assert f.reverse == f.last + " " + f.first;
    CountStevens();
    CountSophieS();
  }

  lemma CountStevens()
    ensures CountIn("stevens", {'t', 'v', 'n'}) == 3
  {
  }

  lemma CountSophieS()
    ensures CountIn("sophie s", {'t', 'v', 'n'}) == 0
  {
  }

  /** The test's contestant. */
  const SophieS := Contestant("Sophie S", "Sophie", "Stevens", "")

  /** The normaliser turns the test's contestant into those names. */
  lemma SophieSForms(c: Contestant)
    requires c == SophieS
    ensures SophieForms(c, FormsOf(c))
  {
    SophieSCanon(c);
    SophieSFirst(c);
    SophieSLast(c);
    SophieSFull(c);
    SophieSReverse(c);
  }

  lemma SophieSCanon(c: Contestant)
    requires c == SophieS
    ensures FormsOf(c).canon == "sophie s"
  {
    CanonOfSophieS(c.canonicalName);
  }

  lemma SophieSFirst(c: Contestant)
    requires c == SophieS
    ensures FormsOf(c).first == "sophie"
  {
    OneWordOf(c.firstName, "sophie");
  }

  lemma SophieSLast(c: Contestant)
    requires c == SophieS
    ensures FormsOf(c).last == "stevens"
  {
    OneWordOf(c.lastName, "stevens");
  }

  lemma SophieSFull(c: Contestant)
    requires c == SophieS
    ensures FormsOf(c).full == "sophie stevens"
  {
    FullOfSophieS(c.firstName + " " + c.lastName);
  }

  lemma SophieSReverse(c: Contestant)
    requires c == SophieS
    ensures FormsOf(c).reverse == "stevens sophie"
  {
    ReverseOfSophieS(c.lastName + " " + c.firstName);
  }

  lemma CanonOfSophieS(s: string)
    requires s == "Sophie S"
    ensures Normalize(s) == "sophie s"
  {
    assert s[..0] == "" && s[6..7] == " " && s[8..] == "";
    CanonWords(s[0..6], s[7..8]);
    TwoWordsAt(s, 0, 6, 7, 8, "sophie s");
  }

  lemma FullOfSophieS(s: string)
    requires s == "Sophie" + " " + "Stevens"
    ensures Normalize(s) == "sophie stevens"
  {
    assert s[..0] == "" && s[6..7] == " " && s[14..] == "";
    FullWords(s[0..6], s[7..14]);
    TwoWordsAt(s, 0, 6, 7, 14, "sophie stevens");
  }

  lemma ReverseOfSophieS(s: string)
    requires s == "Stevens" + " " + "Sophie"
    ensures Normalize(s) == "stevens sophie"
  {
    assert s[..0] == "" && s[7..8] == " " && s[14..] == "";
    ReverseWords(s[0..7], s[8..14]);
    TwoWordsAt(s, 0, 7, 8, 14, "stevens sophie");
  }

  /** Two capitalised words of Sophie S's names, lower-cased and joined. */
  lemma CanonWords(w1: string, w2: string)
    requires w1 == "Sophie" && w2 == "S"
    ensures Letters(w1) && Letters(w2)
    ensures ToLower(w1) + " " + ToLower(w2) == "sophie s"
  {
    CapitalWord(w1, "sophie");
    CapitalWord(w2, "s");
    JoinedWords("sophie", "s", "sophie s");
  }

  lemma FullWords(w1: string, w2: string)
    requires w1 == "Sophie" && w2 == "Stevens"
    ensures Letters(w1) && Letters(w2)
    ensures ToLower(w1) + " " + ToLower(w2) == "sophie stevens"
  {
    CapitalWord(w1, "sophie");
    CapitalWord(w2, "stevens");
    JoinedWords("sophie", "stevens", "sophie stevens");
  }

  lemma ReverseWords(w1: string, w2: string)
    requires w1 == "Stevens" && w2 == "Sophie"
    ensures Letters(w1) && Letters(w2)
    ensures ToLower(w1) + " " + ToLower(w2) == "stevens sophie"
  {
    CapitalWord(w1, "stevens");
    CapitalWord(w2, "sophie");
    JoinedWords("stevens", "sophie", "stevens sophie");
  }

  lemma OneWordOf(w: string, r: string)
    requires (w == "Sophie" && r == "sophie") || (w == "Stevens" && r == "stevens")
    ensures Normalize(w) == r
  {
    CapitalWord(w, r);
    OneWord(w);
  }

  /** A string one letter short of another, and otherwise its prefix, is one edit away. */
  lemma OneShort(a: string, b: string)
    requires |b| == |a| + 1 && a == b[..|a|]
    ensures Distance(a, b) == 1
  {
    SharedPrefix(a, [], [b[|a|]]);
    assert a + [] == a && a + [b[|a|]] == b;
    ZeroIff(a, b);
  }

  /** A six-letter word against itself less its last letter: 5/6 (the test's 0.833 within 0.01). */
  lemma DroppedLastLetter(s1: string, s2: string)
    requires |s1| == 6 && s2 == s1[..5]
    ensures FuzzyMatch(s1, s2) == 5.0 / 6.0
  {
    OneShort(s2, s1);
    Symmetric(s1, s2);
    assert MaxLen(s1, s2) == 6;
  }

  /** A canonical name with a space in it is no single word, and an empty nickname matches nothing. */
  lemma NoWordHit(input: string, f: Forms)
    requires ' ' in f.canon && f.nick == ""
    ensures !WordMatch(input, f)
  {
    var words := SplitOn(input, ' ');
    forall i | 0 <= i < |words| ensures !WordHit(words[i], f) {
      assert ' ' !in words[i];
    }
  }

  /** Past the exact rules, with no word hit, a bound on every applying rule bounds the score. */
  lemma ScoreAtMost(input: string, c: Contestant, f: Forms, b: real)
    requires input != f.canon && !(c.nickname != "" && input == f.nick)
    requires 0.0 <= b && !WordMatch(input, f)
    requires forall k :: 0 <= k < 9 && Rules(input, c, f)[k].applies ==> Rules(input, c, f)[k].value <= b
    ensures ScoreWith(input, c, f) <= b
  {
    var rules := Rules(input, c, f);
    ApplicableFrom(rules);
    assert Terms(input, c, f) == Applicable(rules);
    SeqMaxBelow(Applicable(rules), b);
  }

  /** "sophie", the first name: 0.85 (the exact first-name rule). */
  lemma SophieFirstName(c: Contestant, f: Forms)
    requires SophieShape(c, f)
    ensures ScoreWith(f.first, c, f) == 0.85
  {
    var input := f.first;
    assert f.canon[6] == ' ';
    NoWordHit(input, f);
    RuleBoundsScore(input, c, f, 0);
    assert FuzzyMatch(input, f.canon) <= 0.75 by { assert MaxLen(input, f.canon) == 8; }
    assert FuzzyMatch(input, f.full) <= 0.5 by { assert MaxLen(input, f.full) == 14; }
    assert FuzzyMatch(input, f.reverse) <= 0.5 by { assert MaxLen(input, f.reverse) == 14; }
    assert FuzzyMatch(input, f.last) <= 6.0 / 7.0 by { assert MaxLen(input, f.last) == 7; }
    ScoreAtMost(input, c, f, 0.85);
  }

  /** "stevens", the last name: 0.85 (the exact last-name rule). */
  lemma StevensLastName(c: Contestant, f: Forms)
    requires SophieShape(c, f)
    ensures ScoreWith(f.last, c, f) == 0.85
  {
    var input := f.last;
    assert f.canon[6] == ' ';
    NoWordHit(input, f);
    RuleBoundsScore(input, c, f, 1);
    assert Distance(input, f.canon) >= 3 by {
      CountBound(f.canon, input, Rare);
      Symmetric(f.canon, input);
    }
    assert FuzzyMatch(input, f.canon) <= 0.625 by { assert MaxLen(input, f.canon) == 8; }
    assert FuzzyMatch(input, f.full) <= 0.5 by { assert MaxLen(input, f.full) == 14; }
    assert FuzzyMatch(input, f.reverse) <= 0.5 by { assert MaxLen(input, f.reverse) == 14; }
    assert FuzzyMatch(input, f.first) <= 6.0 / 7.0 by { assert MaxLen(input, f.first) == 7; }
    ScoreAtMost(input, c, f, 0.85);
  }

  /** "sophie stevens", the full name: 0.9 (the exact full-name rule). */
  lemma SophieStevensFullName(c: Contestant, f: Forms)
    requires SophieShape(c, f)
    ensures ScoreWith(f.full, c, f) == 0.9
  {
    var input := f.full;
    assert f.canon[6] == ' ';
    NoWordHit(input, f);
    RuleBoundsScore(input, c, f, 2);
    assert FuzzyMatch(input, f.canon) <= 8.0 / 14.0 by { assert MaxLen(input, f.canon) == 14; }
    assert FuzzyMatch(input, f.first) <= 6.0 / 14.0 by { assert MaxLen(input, f.first) == 14; }
    assert FuzzyMatch(input, f.last) <= 0.5 by { assert MaxLen(input, f.last) == 14; }
    ScoreAtMost(input, c, f, 0.9);
  }

  /** "stevens sophie", the reversed full name: 0.9 (the same rule). */
  lemma StevensSophieReversed(c: Contestant, f: Forms)
    requires SophieShape(c, f)
    ensures ScoreWith(f.reverse, c, f) == 0.9
  {
    var input := f.reverse;
    assert f.canon[6] == ' ';
    NoWordHit(input, f);
    RuleBoundsScore(input, c, f, 2);
    assert FuzzyMatch(input, f.canon) <= 8.0 / 14.0 by { assert MaxLen(input, f.canon) == 14; }
    assert FuzzyMatch(input, f.first) <= 6.0 / 14.0 by { assert MaxLen(input, f.first) == 14; }
    assert FuzzyMatch(input, f.last) <= 0.5 by { assert MaxLen(input, f.last) == 14; }
    ScoreAtMost(input, c, f, 0.9);
  }

  /**
   * "sophi", the first name less its last letter: 5/6 of the first-name
   * similarity weight 0.8, which is 2/3 (the test's 0.67 within 0.01).
   */
  lemma SophiTypo(c: Contestant, f: Forms)
    requires SophieShape(c, f)
    ensures ScoreWith(f.first[..5], c, f) == 2.0 / 3.0
  {
    var input := f.first[..5];
    assert f.canon[6] == ' ';
    NoWordHit(input, f);
    OneShort(input, f.first);
    assert FuzzyMatch(input, f.first) == 5.0 / 6.0 by { assert MaxLen(input, f.first) == 6; }
    RuleBoundsScore(input, c, f, 7);
    assert FuzzyMatch(input, f.canon) <= 5.0 / 8.0 by { assert MaxLen(input, f.canon) == 8; }
    assert FuzzyMatch(input, f.full) <= 5.0 / 14.0 by { assert MaxLen(input, f.full) == 14; }
    assert FuzzyMatch(input, f.reverse) <= 5.0 / 14.0 by { assert MaxLen(input, f.reverse) == 14; }
    assert FuzzyMatch(input, f.last) <= 5.0 / 7.0 by { assert MaxLen(input, f.last) == 7; }
    ScoreAtMost(input, c, f, 2.0 / 3.0);
  }
}
