/**
 * The fuzzy contestant matcher (internal/matcher/matcher.go): a weighted
 * score of a normalised input against one contestant, the best-scoring
 * contestant of a roster above a 0.70 threshold, and the match type that
 * names the score's band. Scores are exact reals here; the source uses
 * float64.
 */
module Matcher {
  import opened Outcomes
  import opened Text
  import opened Normalizer
  import opened Levenshtein
  import opened Roster

  const MinimumThreshold: real := 0.70

  function Max(a: real, b: real): (r: real)
    ensures r >= a && r >= b && (r == a || r == b)
  {
    if a >= b then a else b
  }

  /** The largest of `ts`, or 0.0 (the initial maxScore) when there is none. */
  function SeqMax(ts: seq<real>): (r: real)
    ensures r >= 0.0
  {
    if ts == [] then 0.0 else Max(SeqMax(ts[..|ts| - 1]), ts[|ts| - 1])
  }

  /** SeqMax bounds every term and is one of them, or 0.0. */
  lemma {:induction false} SeqMaxIs(ts: seq<real>)
    ensures forall i :: 0 <= i < |ts| ==> ts[i] <= SeqMax(ts)
    ensures SeqMax(ts) == 0.0 || exists i :: 0 <= i < |ts| && ts[i] == SeqMax(ts)
  {
    if ts != [] {
      var init := ts[..|ts| - 1];
      SeqMaxIs(init);
      assert forall i :: 0 <= i < |init| ==> ts[i] == init[i];
    }
  }

  /** A one-element sequence when `cond` holds: one `math.Max` the source performs under that condition. */
  function Opt(cond: bool, t: real): seq<real>
  {
    if cond then [t] else []
  }

  lemma SeqMaxAppend(ts: seq<real>, cond: bool, t: real)
    ensures SeqMax(ts + Opt(cond, t)) == if cond then Max(SeqMax(ts), t) else SeqMax(ts)
  {
    if cond {
      assert (ts + [t])[..|ts|] == ts;
    } else {
      assert ts + [] == ts;
    }
  }

  /** The normalised names calculateMatchScore compares against. */
  datatype Forms = Forms(canon: string, nick: string, first: string, last: string, full: string, reverse: string)

  function FormsOf(c: Contestant): Forms
  {
    Forms(Normalize(c.canonicalName),
          if c.nickname != "" then Normalize(c.nickname) else "",
          Normalize(c.firstName),
          Normalize(c.lastName),
          Normalize(c.firstName + " " + c.lastName),
          Normalize(c.lastName + " " + c.firstName))
  }

  /** A word of the input equals the canonical name or the (non-empty) nickname. */
  predicate WordHit(word: string, f: Forms)
  {
    word == f.canon || (f.nick != "" && word == f.nick)
  }

  predicate AnyHit(words: seq<string>, f: Forms)
  {
    exists i :: 0 <= i < |words| && WordHit(words[i], f)
  }

  predicate WordMatch(input: string, f: Forms)
  {
    AnyHit(SplitOn(input, ' '), f)
  }

  /** One `math.Max` of the source: it takes part only when its condition holds. */
  datatype Rule = Rule(applies: bool, value: real)

  /** The word loop's maximum folded through the rules is the score of the remaining case of calculateMatchScore. */
  lemma ScoreFromParts(input: string, c: Contestant, f: Forms, m: real, score: real)
    requires input != f.canon && !(c.nickname != "" && input == f.nick)
    requires m == if WordMatch(input, f) then 0.95 else 0.0
    requires score == FoldMax(m, Rules(input, c, f))
    ensures score == ScoreWith(input, c, f)
  {
    var ws := Opt(WordMatch(input, f), 0.95);
    assert m == SeqMax(ws);
    FoldIsSeqMax(ws, Rules(input, c, f));
  }

  /** The word loop: 0.95 when some word of the input is the canonical name or the nickname. */
  method WordScore(words: seq<string>, f: Forms) returns (maxScore: real)
    ensures maxScore == if AnyHit(words, f) then 0.95 else 0.0
  {
    maxScore := 0.0;
    var i := 0;
    while i < |words|
      invariant 0 <= i <= |words|
      invariant maxScore == if AnyHit(words[..i], f) then 0.95 else 0.0
    {
      if words[i] == f.canon || (f.nick != "" && words[i] == f.nick) {
        maxScore := Max(maxScore, 0.95);
      }
      assert words[..i + 1] == words[..i] + [words[i]];
      i := i + 1;
    }
    assert words[..i] == words;
  }

  /** The rules after the word loop, in the source's order. */
  function Rules(input: string, c: Contestant, f: Forms): seq<Rule>
  {
    var hasLast := c.lastName != "";
    [ Rule(input == f.first, 0.85),
      Rule(hasLast && input == f.last, 0.85),
      Rule(hasLast && (input == f.full || input == f.reverse), 0.90),
      Rule(hasLast, FuzzyMatch(input, f.full) * 0.9),
      Rule(hasLast, FuzzyMatch(input, f.reverse) * 0.9),
      Rule(true, FuzzyMatch(input, f.canon) * 1.0),
      Rule(c.nickname != "", FuzzyMatch(input, f.nick) * 0.9),
      Rule(true, FuzzyMatch(input, f.first) * 0.8),
      Rule(hasLast, FuzzyMatch(input, f.last) * 0.8) ]
  }

  /** The values of the rules that apply. */
  function Applicable(rules: seq<Rule>): seq<real>
  {
    if rules == [] then [] else Opt(rules[0].applies, rules[0].value) + Applicable(rules[1..])
  }

  /**
   * Every candidate score calculateMatchScore takes the maximum of, once
   * neither exact rule has returned: the word rule, then the rules.
   */
  function Terms(input: string, c: Contestant, f: Forms): seq<real>
  {
    Opt(WordMatch(input, f), 0.95) + Applicable(Rules(input, c, f))
  }

  /** calculateMatchScore, given the contestant's normalised names. */
  function ScoreWith(input: string, c: Contestant, f: Forms): real
  {
    if input == f.canon then 1.0
    else if c.nickname != "" && input == f.nick then 0.95
    else SeqMax(Terms(input, c, f))
  }

  function MatchScore(input: string, c: Contestant): real
  {
    ScoreWith(input, c, FormsOf(c))
  }

  /** Applying rules one by one to a running maximum. */
  function FoldMax(m: real, rules: seq<Rule>): real
    decreases |rules|
  {
    if rules == [] then m else FoldMax(if rules[0].applies then Max(m, rules[0].value) else m, rules[1..])
  }

  /** Folding rules into the maximum of `ws` is the maximum of `ws` and the applicable values. */
  lemma {:induction false} FoldIsSeqMax(ws: seq<real>, rules: seq<Rule>)
    ensures FoldMax(SeqMax(ws), rules) == SeqMax(ws + Applicable(rules))
    decreases |rules|
  {
    if rules == [] {
      assert ws + [] == ws;
    } else {
      var r := rules[0];
      var ws' := ws + Opt(r.applies, r.value);
      SeqMaxAppend(ws, r.applies, r.value);
      FoldIsSeqMax(ws', rules[1..]);
      ApplicableCons(ws, rules);
    }
  }

  lemma ApplicableCons(ws: seq<real>, rules: seq<Rule>)
    requires rules != []
    ensures ws + Opt(rules[0].applies, rules[0].value) + Applicable(rules[1..]) == ws + Applicable(rules)
  {
  }

  /** calculateMatchScore (the repeated nickname check after the word loop can no longer fire and is not repeated). */
  method CalculateMatchScore(input: string, c: Contestant) returns (score: real)
    ensures score == MatchScore(input, c)
  {
    var maxScore := 0.0;
    var canonicalNorm := Normalize(c.canonicalName);
    if input == canonicalNorm {
      return 1.0;
    }
    if c.nickname != "" && input == Normalize(c.nickname) {
      return 0.95;
    }
    var words := SplitOn(input, ' ');
    var nicknameNorm := "";
    if c.nickname != "" {
      nicknameNorm := Normalize(c.nickname);
    }
    var f := Forms(canonicalNorm, nicknameNorm, Normalize(c.firstName), Normalize(c.lastName),
                   Normalize(c.firstName + " " + c.lastName), Normalize(c.lastName + " " + c.firstName));
    assert f == FormsOf(c);
    maxScore := WordScore(words, f);
    score := ApplyRules(input, c, f, maxScore);
    ScoreFromParts(input, c, f, maxScore, score);
  }

  /** The rules after the word loop, applied to the running maximum in the source's order. */
  method ApplyRules(input: string, c: Contestant, f: Forms, m: real) returns (maxScore: real)
    ensures maxScore == FoldMax(m, Rules(input, c, f))
  {
    ghost var rs := Rules(input, c, f);
    maxScore := ComponentRules(input, c, f, m);
    ghost var x2 := maxScore;
    assert x2 == MaxIf(MaxIf(m, rs[0]), rs[1]);
    if c.lastName != "" {
      maxScore := FullNameRules(input, f, maxScore);
    }
    ghost var x5 := maxScore;
    assert x5 == MaxIf(MaxIf(MaxIf(x2, rs[2]), rs[3]), rs[4]);
    maxScore := SimilarityRules(input, c, f, maxScore);
    assert maxScore == MaxIf(MaxIf(MaxIf(MaxIf(x5, rs[5]), rs[6]), rs[7]), rs[8]);
    Unroll(m, rs);
  }

  /** The exact first-name and last-name rules. */
  method ComponentRules(input: string, c: Contestant, f: Forms, m: real) returns (maxScore: real)
    ensures maxScore == MaxIf(MaxIf(m, Rule(input == f.first, 0.85)),
                              Rule(c.lastName != "" && input == f.last, 0.85))
  {
    maxScore := m;
    if input == f.first {
      maxScore := Max(maxScore, 0.85);
    }
    if c.lastName != "" && input == f.last {
      maxScore := Max(maxScore, 0.85);
    }
  }

  /** The similarity rules against the canonical name, the nickname, the first and the last name. */
  method SimilarityRules(input: string, c: Contestant, f: Forms, m: real) returns (maxScore: real)
    ensures maxScore == MaxIf(MaxIf(MaxIf(MaxIf(m, Rule(true, FuzzyMatch(input, f.canon) * 1.0)),
                                          Rule(c.nickname != "", FuzzyMatch(input, f.nick) * 0.9)),
                                    Rule(true, FuzzyMatch(input, f.first) * 0.8)),
                              Rule(c.lastName != "", FuzzyMatch(input, f.last) * 0.8))
  {
    maxScore := m;
    var canonicalSimilarity := FuzzyMatch(input, f.canon);
    maxScore := Max(maxScore, canonicalSimilarity * 1.0);
    if c.nickname != "" {
      var nicknameSimilarity := FuzzyMatch(input, f.nick);
      maxScore := Max(maxScore, nicknameSimilarity * 0.9);
    }
    var firstSimilarity := FuzzyMatch(input, f.first);
    maxScore := Max(maxScore, firstSimilarity * 0.8);
    if c.lastName != "" {
      var lastSimilarity := FuzzyMatch(input, f.last);
      maxScore := Max(maxScore, lastSimilarity * 0.8);
    }
  }

  /** The full-name rules, taken only when the contestant has a last name. */
  method FullNameRules(input: string, f: Forms, m: real) returns (maxScore: real)
    ensures maxScore == MaxIf(MaxIf(MaxIf(m, Rule(input == f.full || input == f.reverse, 0.90)),
                                    Rule(true, FuzzyMatch(input, f.full) * 0.9)),
                              Rule(true, FuzzyMatch(input, f.reverse) * 0.9))
  {
    maxScore := m;
    if input == f.full || input == f.reverse {
      maxScore := Max(maxScore, 0.90);
    }
    var fullSimilarity := FuzzyMatch(input, f.full);
    maxScore := Max(maxScore, fullSimilarity * 0.9);
    var reverseSimilarity := FuzzyMatch(input, f.reverse);
    maxScore := Max(maxScore, reverseSimilarity * 0.9);
  }

  function MaxIf(m: real, r: Rule): real
  {
    if r.applies then Max(m, r.value) else m
  }

  /** The fold over nine rules, written out. */
  lemma Unroll(m: real, rs: seq<Rule>)
    requires |rs| == 9
    ensures FoldMax(m, rs) ==
      MaxIf(MaxIf(MaxIf(MaxIf(MaxIf(MaxIf(MaxIf(MaxIf(MaxIf(m, rs[0]), rs[1]), rs[2]), rs[3]), rs[4]), rs[5]), rs[6]), rs[7]), rs[8])
  {
    assert rs[0..] == rs;
    var x0 := m;
    FoldSlice(x0, rs, 0);
    var x1 := MaxIf(x0, rs[0]);
    FoldSlice(x1, rs, 1);
    var x2 := MaxIf(x1, rs[1]);
    FoldSlice(x2, rs, 2);
    var x3 := MaxIf(x2, rs[2]);
    FoldSlice(x3, rs, 3);
    var x4 := MaxIf(x3, rs[3]);
    FoldSlice(x4, rs, 4);
    var x5 := MaxIf(x4, rs[4]);
    FoldSlice(x5, rs, 5);
    var x6 := MaxIf(x5, rs[5]);
    FoldSlice(x6, rs, 6);
    var x7 := MaxIf(x6, rs[6]);
    FoldSlice(x7, rs, 7);
    var x8 := MaxIf(x7, rs[7]);
    FoldSlice(x8, rs, 8);
    assert rs[9..] == [];
  }

  lemma FoldSlice(x: real, rs: seq<Rule>, k: nat)
    requires k < |rs|
    ensures FoldMax(x, rs[k..]) == FoldMax(MaxIf(x, rs[k]), rs[k + 1..])
  {
    assert rs[k..][1..] == rs[k + 1..];
  }

  // ---- properties of the score ----

  /** Every applicable value is the value of a rule that applies. */
  lemma {:induction false} ApplicableFrom(rules: seq<Rule>)
    ensures forall t :: t in Applicable(rules) ==> exists k :: 0 <= k < |rules| && rules[k].applies && rules[k].value == t
  {
    if rules != [] {
      ApplicableFrom(rules[1..]);
      forall t | t in Applicable(rules)
        ensures exists k :: 0 <= k < |rules| && rules[k].applies && rules[k].value == t
      {
        if t in Applicable(rules[1..]) {
          var k :| 0 <= k < |rules[1..]| && rules[1..][k].applies && rules[1..][k].value == t;
          assert rules[k + 1] == rules[1..][k];
        } else {
          assert rules[0].applies && rules[0].value == t;
        }
      }
    }
  }

  /** Every term is at most 1, and below 1 unless the input is the normalised canonical name. */
  lemma TermsBelowOne(input: string, c: Contestant, f: Forms)
    ensures forall t :: t in Terms(input, c, f) ==> t <= 1.0
    ensures input != f.canon ==> forall t :: t in Terms(input, c, f) ==> t < 1.0
  {
    var rules := Rules(input, c, f);
    ApplicableFrom(rules);
    FuzzyExactIff(input, f.canon);
    forall t | t in Terms(input, c, f) ensures t <= 1.0 && (input != f.canon ==> t < 1.0) {
      if t !in Opt(WordMatch(input, f), 0.95) {
        assert t in Applicable(rules);
        var k :| 0 <= k < |rules| && rules[k].applies && rules[k].value == t;
      }
    }
  }

  /** The score lies in [0, 1], and is 1.0 exactly when the input is the canonical form. */
  lemma ScoreWithBounds(input: string, c: Contestant, f: Forms)
    ensures 0.0 <= ScoreWith(input, c, f) <= 1.0
    ensures ScoreWith(input, c, f) == 1.0 <==> input == f.canon
  {
    var ts := Terms(input, c, f);
    TermsBelowOne(input, c, f);
    SeqMaxBelow(ts, 1.0);
    if input != f.canon {
      SeqMaxBelowOne(ts);
    }
  }

  lemma SeqMaxBelow(ts: seq<real>, b: real)
    requires 0.0 <= b && forall t :: t in ts ==> t <= b
    ensures SeqMax(ts) <= b
  {
    SeqMaxIs(ts);
    if SeqMax(ts) != 0.0 {
      var i :| 0 <= i < |ts| && ts[i] == SeqMax(ts);
      assert ts[i] in ts;
    }
  }

  lemma SeqMaxBelowOne(ts: seq<real>)
    requires forall t :: t in ts ==> t < 1.0
    ensures SeqMax(ts) < 1.0
  {
    SeqMaxIs(ts);
    if SeqMax(ts) != 0.0 {
      var i :| 0 <= i < |ts| && ts[i] == SeqMax(ts);
      assert ts[i] in ts;
    }
  }

  /** calculateMatchScore lies in [0, 1]. */
  lemma ScoreBounds(input: string, c: Contestant)
    ensures 0.0 <= MatchScore(input, c) <= 1.0
  {
    ScoreWithBounds(input, c, FormsOf(c));
  }

  /** calculateMatchScore returns 1.0 exactly when the input is the normalised canonical name. */
  lemma ExactIff(input: string, c: Contestant)
    ensures MatchScore(input, c) == 1.0 <==> input == Normalize(c.canonicalName)
  {
    ScoreWithBounds(input, c, FormsOf(c));
  }

  /**
   * Outside the two exact rules, the score is the largest applicable term:
   * it bounds every term and is one of them, or 0.0 when none applies.
   */
  lemma ScoreIsBestTerm(input: string, c: Contestant, f: Forms)
    requires input != f.canon && !(c.nickname != "" && input == f.nick)
    ensures forall t :: t in Terms(input, c, f) ==> t <= ScoreWith(input, c, f)
    ensures ScoreWith(input, c, f) == 0.0 || ScoreWith(input, c, f) in Terms(input, c, f)
  {
    SeqMaxIs(Terms(input, c, f));
  }

  /** Each rule that applies bounds the score from below. */
  lemma RuleBoundsScore(input: string, c: Contestant, f: Forms, k: nat)
    requires input != f.canon && !(c.nickname != "" && input == f.nick)
    requires k < 9 && Rules(input, c, f)[k].applies
    ensures Rules(input, c, f)[k].value <= ScoreWith(input, c, f)
  {
    var rules := Rules(input, c, f);
    ApplicableHas(rules, k);
    ScoreIsBestTerm(input, c, f);
    assert rules[k].value in Terms(input, c, f);
  }

  lemma {:induction false} ApplicableHas(rules: seq<Rule>, k: nat)
    requires k < |rules| && rules[k].applies
    ensures rules[k].value in Applicable(rules)
  {
    if k > 0 {
      ApplicableHas(rules[1..], k - 1);
    }
  }

  /** A word of the input that is the canonical name or the nickname scores at least 0.95. */
  lemma WordBoundsScore(input: string, c: Contestant, f: Forms)
    requires WordMatch(input, f)
    ensures ScoreWith(input, c, f) >= 0.95
  {
    if input != f.canon && !(c.nickname != "" && input == f.nick) {
      SeqMaxIs(Terms(input, c, f));
      assert Terms(input, c, f)[0] == 0.95;
    }
  }

  // ---- choosing the contestant ----

  /** A contestant with a positive score: its position in the roster and its score. */
  datatype Candidate = Candidate(index: nat, score: real)

  /** What MatchContestant returns on success: the contestant, its roster position, the match type and the score. */
  datatype MatchResult = MatchResult(contestant: Contestant, index: nat, matchType: string, score: real)

  /** MatchContestant's result: a match, or one of its two errors. */
  datatype MatchOutcome =
    | Matched(result: MatchResult)
    | NoMatch(inputName: string)
    | BelowThreshold(inputName: string, bestScore: real)

  /** The candidates among `scores`: every positive score with its position, in order. */
  function Candidates(scores: seq<real>): seq<Candidate>
  {
    if scores == [] then []
    else
      var last := |scores| - 1;
      Candidates(scores[..last]) + (if scores[last] > 0.0 then [Candidate(last, scores[last])] else [])
  }

  /** The position of the first candidate with the highest score. */
  function FirstMax(cands: seq<Candidate>): (r: nat)
    requires cands != []
    ensures r < |cands|
  {
    if |cands| == 1 then 0
    else
      var k := FirstMax(cands[..|cands| - 1]);
      if cands[|cands| - 1].score > cands[k].score then |cands| - 1 else k
  }

  /** determineMatchType: the band the score falls in (the input and the contestant are not consulted). */
  function DetermineMatchType(score: real): string
  {
    if score == 1.0 then "exact match"
    else if score >= 0.95 then "nickname match"
    else if score >= 0.85 then "name component match"
    else if score >= 0.7 then "fuzzy match"
    else "low confidence match"
  }

  /** Every contestant's score against the normalised input. */
  function ScoresOf(input: string, cs: seq<Contestant>): seq<real>
  {
    seq(|cs|, k requires 0 <= k < |cs| => MatchScore(input, cs[k]))
  }

  /** MatchContestant. */
  function Match(inputName: string, r: SeasonRoster): MatchOutcome
  {
    var scores := ScoresOf(Normalize(inputName), r.contestants);
    CandidateIndices(scores);
    Choose(inputName, r.contestants, Candidates(scores))
  }

  /** MatchContestant once the candidates are known: no candidate, the best below the threshold, or the best. */
  function Choose(inputName: string, cs: seq<Contestant>, cands: seq<Candidate>): MatchOutcome
    requires forall k :: 0 <= k < |cands| ==> cands[k].index < |cs|
  {
    if cands == [] then NoMatch(inputName)
    else
      var best := cands[FirstMax(cands)];
      if best.score < MinimumThreshold then BelowThreshold(inputName, best.score)
      else Matched(MatchResult(cs[best.index], best.index, DetermineMatchType(best.score), best.score))
  }

  /** Every candidate is a positive score at its position, and positions increase. */
  lemma {:induction false} CandidatesSound(scores: seq<real>)
    ensures forall k :: 0 <= k < |Candidates(scores)| ==>
              Candidates(scores)[k].index < |scores| &&
              Candidates(scores)[k].score == scores[Candidates(scores)[k].index] &&
              Candidates(scores)[k].score > 0.0
    ensures forall k, l :: 0 <= k < l < |Candidates(scores)| ==> Candidates(scores)[k].index < Candidates(scores)[l].index
  {
    if scores != [] {
      var last := |scores| - 1;
      CandidatesSound(scores[..last]);
    }
  }

  /** Every positive score is a candidate. */
  lemma {:induction false} CandidatesComplete(scores: seq<real>, i: nat)
    requires i < |scores| && scores[i] > 0.0
    ensures exists k :: 0 <= k < |Candidates(scores)| && Candidates(scores)[k].index == i
  {
    var last := |scores| - 1;
    var init := Candidates(scores[..last]);
    if i == last {
      assert Candidates(scores)[|init|].index == i;
    } else {
      CandidatesComplete(scores[..last], i);
      var k :| 0 <= k < |init| && init[k].index == i;
      assert Candidates(scores)[k] == init[k];
    }
  }

  /** FirstMax is a highest score, and every candidate before it scores strictly less. */
  lemma {:induction false} FirstMaxIs(cands: seq<Candidate>)
    requires cands != []
    ensures forall k :: 0 <= k < |cands| ==> cands[k].score <= cands[FirstMax(cands)].score
    ensures forall k :: 0 <= k < FirstMax(cands) ==> cands[k].score < cands[FirstMax(cands)].score
  {
    if |cands| > 1 {
      var init := cands[..|cands| - 1];
      FirstMaxIs(init);
      assert forall k :: 0 <= k < |init| ==> cands[k] == init[k];
    }
  }

  /**
   * The chosen candidate of a list of non-negative scores has the highest
   * score of all, and every position before it scores strictly less.
   */
  lemma BestOf(scores: seq<real>)
    requires forall i :: 0 <= i < |scores| ==> scores[i] >= 0.0
    requires Candidates(scores) != []
    ensures var best := Candidates(scores)[FirstMax(Candidates(scores))];
            best.index < |scores| && best.score == scores[best.index] && best.score > 0.0 &&
            (forall i :: 0 <= i < |scores| ==> scores[i] <= best.score) &&
            (forall i :: 0 <= i < best.index ==> scores[i] < best.score)
  {
    var cands := Candidates(scores);
    var b := FirstMax(cands);
    CandidatesSound(scores);
    FirstMaxIs(cands);
    forall i | 0 <= i < |scores| && scores[i] > 0.0
      ensures scores[i] <= cands[b].score && (i < cands[b].index ==> scores[i] < cands[b].score)
    {
      CandidatesComplete(scores, i);
      var k :| 0 <= k < |cands| && cands[k].index == i;
      if i < cands[b].index {
        assert k < b;
      }
    }
  }

  /** There is no candidate exactly when every score is zero. */
  lemma NoCandidatesIff(scores: seq<real>)
    requires forall i :: 0 <= i < |scores| ==> scores[i] >= 0.0
    ensures Candidates(scores) == [] <==> forall i :: 0 <= i < |scores| ==> scores[i] == 0.0
  {
    CandidatesSound(scores);
    if exists i :: 0 <= i < |scores| && scores[i] != 0.0 {
      var i :| 0 <= i < |scores| && scores[i] != 0.0;
      CandidatesComplete(scores, i);
    }
  }

  /** MatchContestant: score every contestant, keep the positive scores, sort them and take the first. */
  method MatchContestant(inputName: string, r: SeasonRoster) returns (out: MatchOutcome)
    ensures out == Match(inputName, r)
  {
    var normalizedInput := Normalize(inputName);
    var candidates := CollectCandidates(normalizedInput, r.contestants);
    CandidateIndices(ScoresOf(normalizedInput, r.contestants));
    out := PickBest(inputName, r.contestants, candidates);
  }

  /** The rest of MatchContestant: sort the candidates, then apply the threshold to the first. */
  method PickBest(inputName: string, cs: seq<Contestant>, candidates: seq<Candidate>) returns (out: MatchOutcome)
    requires forall k :: 0 <= k < |candidates| ==> candidates[k].index < |cs|
    ensures out == Choose(inputName, cs, candidates)
  {
    if |candidates| == 0 {
      return NoMatch(inputName);
    }
    var a := new Candidate[|candidates|](k requires 0 <= k < |candidates| => candidates[k]);
    assert a[..] == candidates;
    SortByScore(a);
    var best := a[0];
    if best.score < MinimumThreshold {
      return BelowThreshold(inputName, best.score);
    }
    var matchType := DetermineMatchType(best.score);
    return Matched(MatchResult(cs[best.index], best.index, matchType, best.score));
  }

  /** MatchContestant's first loop: every contestant with a positive score, in roster order. */
  method CollectCandidates(input: string, cs: seq<Contestant>) returns (candidates: seq<Candidate>)
    ensures candidates == Candidates(ScoresOf(input, cs))
  {
    ghost var scores := ScoresOf(input, cs);
    candidates := [];
    var i := 0;
    while i < |cs|
      invariant 0 <= i <= |cs|
      invariant candidates == Candidates(scores[..i])
    {
      var score := CalculateMatchScore(input, cs[i]);
      assert score == scores[i];
      CandidatesSnoc(scores, i);
      if score > 0.0 {
        candidates := candidates + [Candidate(i, score)];
      }
      i := i + 1;
    }
    CandidatesAll(scores);
  }

  /**
   * MatchContestant's descending sort: for each position i, every later
   * candidate with a strictly higher score is swapped into i. Position 0
   * ends up holding the first candidate with the highest score.
   */
  method SortByScore(a: array<Candidate>)
    modifies a
    ensures multiset(a[..]) == multiset(old(a[..]))
    ensures forall p, q :: 0 <= p < q < a.Length ==> a[p].score >= a[q].score
    ensures a.Length > 0 ==> a[0] == old(a[..])[FirstMax(old(a[..]))]
  {
    ghost var o := a[..];
    var i := 0;
    while i < a.Length - 1
      invariant 0 <= i <= a.Length
      invariant SortInv(a[..], o, i)
    {
      ghost var s := a[..];
      ghost var m := SwapInMax(a, i);
      PassDone(a[..], s, i, m);
      SortStep(s, a[..], o, i);
      i := i + 1;
    }
    SortDone(a[..], o, i);
  }
  /** The sort's state after i passes: a permutation of the input whose first i positions hold the i highest scores in order. */
  predicate SortInv(s: seq<Candidate>, o: seq<Candidate>, i: nat)
  {
    && |s| == |o| && i <= |s|
    && multiset(s) == multiset(o)
    && (forall p, q :: 0 <= p < i && p < q < |s| ==> s[p].score >= s[q].score)
    && (i == 0 ==> s == o)
    && (i > 0 ==> s[0] == o[FirstMax(o)])
  }
  lemma SortStep(s: seq<Candidate>, t: seq<Candidate>, o: seq<Candidate>, i: nat)
    requires SortInv(s, o, i) && i < |s|
    requires |t| == |s| && t[..i] == s[..i] && multiset(t[i..]) == multiset(s[i..])
    requires t[i] == s[i..][FirstMax(s[i..])]
    requires forall k :: i < k < |t| ==> t[k].score <= t[i].score
    ensures SortInv(t, o, i + 1)
  {
    assert s == s[..i] + s[i..] && t == t[..i] + t[i..];
    forall p, q | 0 <= p < i + 1 && p < q < |t| ensures t[p].score >= t[q].score {
      if p < i {
        assert t[p] == s[p];
        if q < i {
          assert t[q] == s[q];
        } else {
          assert t[q] == t[i..][q - i];
          assert t[q] in multiset(s[i..]);
          var k :| 0 <= k < |s[i..]| && s[i..][k] == t[q];
        }
      }
    }
    if i == 0 {
      assert s[0..] == s;
    }
  }
  lemma SortDone(s: seq<Candidate>, o: seq<Candidate>, i: nat)
    requires SortInv(s, o, i) && i >= |s| - 1
    ensures forall p, q :: 0 <= p < q < |s| ==> s[p].score >= s[q].score
    ensures |s| > 0 ==> s[0] == o[FirstMax(o)]
  {
  }
  /** One pass of the sort: the first highest-scoring candidate of a[i..] is swapped into position i. */
  method SwapInMax(a: array<Candidate>, i: nat) returns (ghost m: nat)
    requires i < a.Length
    modifies a
    ensures PassInv(a[..], old(a[..]), i, a.Length, m)
  {
    ghost var o := a[..];
    m := i;
    var j := i + 1;
    while j < a.Length
      invariant i + 1 <= j <= a.Length
      invariant PassInv(a[..], o, i, j, m)
    {
      ghost var s := a[..];
      PassStep(s, o, i, j, m);
      if a[j].score > a[i].score {
        a[i], a[j] := a[j], a[i];
        assert a[..] == s[i := s[j]][j := s[i]];
        m := j;
      }
      j := j + 1;
    }
  }
  /**
   * The state of pass i after looking at positions up to j: a permutation
   * of the pass's input `o` that differs from it only inside [i, j), with
   * o[m] (the first highest score of o[i..j]) at position i and nothing
   * after i scoring higher.
   */
  predicate PassInv(s: seq<Candidate>, o: seq<Candidate>, i: nat, j: nat, m: nat)
  {
    && |s| == |o| && i < j <= |s| && i <= m < j
    && multiset(s) == multiset(o)
    && (forall k :: 0 <= k < |s| && (k < i || j <= k) ==> s[k] == o[k])
    && s[i] == o[m]
    && (forall k :: i <= k < j ==> o[k].score <= o[m].score)
    && (forall k :: i <= k < m ==> o[k].score < o[m].score)
    && (forall k :: i < k < j ==> s[k].score <= s[i].score)
  }
  lemma PassStep(s: seq<Candidate>, o: seq<Candidate>, i: nat, j: nat, m: nat)
    requires PassInv(s, o, i, j, m) && j < |s|
    ensures s[j].score > s[i].score ==> PassInv(s[i := s[j]][j := s[i]], o, i, j + 1, j)
    ensures s[j].score <= s[i].score ==> PassInv(s, o, i, j + 1, m)
  {
  }
  lemma PassDone(s: seq<Candidate>, o: seq<Candidate>, i: nat, m: nat)
    requires PassInv(s, o, i, |s|, m)
    ensures s[..i] == o[..i]
    ensures multiset(s[i..]) == multiset(o[i..])
    ensures s[i] == o[i..][FirstMax(o[i..])]
    ensures forall k :: i < k < |s| ==> s[k].score <= s[i].score
  {
    Unchanged(s, o, i);
    var tail := o[i..];
    FirstMaxUnique(tail, m - i);
  }
  /** Two sequences with the same multiset and the same first i elements have the same multiset after i. */
  lemma Unchanged(s: seq<Candidate>, t: seq<Candidate>, i: nat)
    requires |s| == |t| && i <= |s|
    requires multiset(s) == multiset(t)
    requires forall k :: 0 <= k < i ==> s[k] == t[k]
    ensures s[..i] == t[..i]
    ensures multiset(s[i..]) == multiset(t[i..])
  {
    assert s == s[..i] + s[i..] && t == t[..i] + t[i..];
    assert s[..i] == t[..i];
    var p := multiset(s[..i]);
    assert p + multiset(s[i..]) == p + multiset(t[i..]);
    assert multiset(s[i..]) == p + multiset(s[i..]) - p;
    assert multiset(t[i..]) == p + multiset(t[i..]) - p;
  }
  /** FirstMax is the only position that scores highest with every earlier one strictly lower. */
  lemma FirstMaxUnique(cands: seq<Candidate>, m: nat)
    requires m < |cands|
    requires forall k :: 0 <= k < |cands| ==> cands[k].score <= cands[m].score
    requires forall k :: 0 <= k < m ==> cands[k].score < cands[m].score
    ensures m == FirstMax(cands)
  {
    FirstMaxIs(cands);
  }

  lemma CandidatesSnoc(scores: seq<real>, i: nat)
    requires i < |scores|
    ensures Candidates(scores[..i + 1]) ==
              Candidates(scores[..i]) + (if scores[i] > 0.0 then [Candidate(i, scores[i])] else [])
  {
    assert scores[..i + 1][..i] == scores[..i];
  }

  lemma CandidatesAll(scores: seq<real>)
    ensures Candidates(scores[..|scores|]) == Candidates(scores)
  {
    assert scores[..|scores|] == scores;
  }

  lemma CandidateIndices(scores: seq<real>)
    ensures forall k :: 0 <= k < |Candidates(scores)| ==> Candidates(scores)[k].index < |scores|
  {
    CandidatesSound(scores);
  }

  // ---- properties of the choice ----

  /** What Choose returns for the candidates of non-negative scores, in terms of the scores alone. */
  lemma ChooseOf(inputName: string, cs: seq<Contestant>, scores: seq<real>)
    requires |scores| == |cs|
    requires forall i :: 0 <= i < |scores| ==> scores[i] >= 0.0
    ensures CandidateIndicesHold(cs, Candidates(scores))
    ensures var out := Choose(inputName, cs, Candidates(scores));
            && (out.NoMatch? <==> forall i :: 0 <= i < |scores| ==> scores[i] == 0.0)
            && (out.Matched? <==> exists i :: 0 <= i < |scores| && scores[i] >= MinimumThreshold)
            && (out.BelowThreshold? ==> out.bestScore > 0.0 && forall i :: 0 <= i < |scores| ==> scores[i] <= out.bestScore < MinimumThreshold)
            && (out.Matched? ==>
                  var res := out.result;
                  && res.index < |cs| && res.contestant == cs[res.index]
                  && res.score == scores[res.index] && res.score >= MinimumThreshold
                  && res.matchType == DetermineMatchType(res.score)
                  && (forall i :: 0 <= i < |scores| ==> scores[i] <= res.score)
                  && (forall i :: 0 <= i < res.index ==> scores[i] < res.score))
  {
    CandidateIndices(scores);
    NoCandidatesIff(scores);
    var cands := Candidates(scores);
    if cands != [] {
      BestOf(scores);
    }
  }

  predicate CandidateIndicesHold(cs: seq<Contestant>, cands: seq<Candidate>)
  {
    forall k :: 0 <= k < |cands| ==> cands[k].index < |cs|
  }

  /** Score i is calculateMatchScore of contestant i, and every score lies in [0, 1]. */
  lemma ScoresInRange(input: string, cs: seq<Contestant>)
    ensures |ScoresOf(input, cs)| == |cs|
    ensures forall i :: 0 <= i < |cs| ==> ScoresOf(input, cs)[i] == MatchScore(input, cs[i])
    ensures forall i :: 0 <= i < |cs| ==> 0.0 <= ScoresOf(input, cs)[i] <= 1.0
  {
    forall i | 0 <= i < |cs| ensures 0.0 <= ScoresOf(input, cs)[i] <= 1.0 {
      ScoreBounds(input, cs[i]);
    }
  }

  lemma ScoresNonNegative(input: string, cs: seq<Contestant>)
    ensures |ScoresOf(input, cs)| == |cs|
    ensures forall i :: 0 <= i < |cs| ==> 0.0 <= ScoresOf(input, cs)[i]
  {
    ScoresInRange(input, cs);
  }

  /**
   * A match is the first contestant of the roster with the highest score,
   * and that score reaches the threshold; its type names the score's band.
   */
  lemma MatchedIsBest(inputName: string, r: SeasonRoster)
    requires Match(inputName, r).Matched?
    ensures var scores := ScoresOf(Normalize(inputName), r.contestants);
            var res := Match(inputName, r).result;
            && res.index < |r.contestants| && res.contestant == r.contestants[res.index]
            && res.score == scores[res.index] && res.score >= MinimumThreshold
            && res.matchType == DetermineMatchType(res.score)
            && (forall i :: 0 <= i < |r.contestants| ==> scores[i] <= res.score)
            && (forall i :: 0 <= i < res.index ==> scores[i] < res.score)
  {
    var scores := ScoresOf(Normalize(inputName), r.contestants);
    ScoresNonNegative(Normalize(inputName), r.contestants);
    ChooseOf(inputName, r.contestants, scores);
  }

  /** "no match found" exactly when every contestant scores zero. */
  lemma NoMatchIff(inputName: string, r: SeasonRoster)
    ensures var scores := ScoresOf(Normalize(inputName), r.contestants);
            Match(inputName, r) == NoMatch(inputName) <==> forall i :: 0 <= i < |r.contestants| ==> scores[i] == 0.0
  {
    var scores := ScoresOf(Normalize(inputName), r.contestants);
    ScoresNonNegative(Normalize(inputName), r.contestants);
    ChooseOf(inputName, r.contestants, scores);
  }

  /** A match is returned exactly when some contestant reaches the threshold. */
  lemma MatchedIff(inputName: string, r: SeasonRoster)
    ensures var scores := ScoresOf(Normalize(inputName), r.contestants);
            Match(inputName, r).Matched? <==> exists i :: 0 <= i < |r.contestants| && scores[i] >= MinimumThreshold
  {
    var scores := ScoresOf(Normalize(inputName), r.contestants);
    ScoresNonNegative(Normalize(inputName), r.contestants);
    ChooseOf(inputName, r.contestants, scores);
  }

  /** The below-threshold error reports the highest score, which is positive and under 0.70. */
  lemma BelowThresholdIsBest(inputName: string, r: SeasonRoster)
    requires Match(inputName, r).BelowThreshold?
    ensures var scores := ScoresOf(Normalize(inputName), r.contestants);
            var best := Match(inputName, r).bestScore;
            && 0.0 < best < MinimumThreshold
            && (forall i :: 0 <= i < |r.contestants| ==> scores[i] <= best)
            && (exists i :: 0 <= i < |r.contestants| && scores[i] == best)
  {
    var scores := ScoresOf(Normalize(inputName), r.contestants);
    ScoresNonNegative(Normalize(inputName), r.contestants);
    ChooseOf(inputName, r.contestants, scores);
    BestOf(scores);
  }

  /** A match is never of low confidence, and it is an exact match exactly when the input is the contestant's canonical form. */
  lemma MatchTypeOfMatch(inputName: string, r: SeasonRoster)
    requires Match(inputName, r).Matched?
    ensures var res := Match(inputName, r).result;
            && res.matchType != "low confidence match"
            && (res.matchType == "exact match" <==> Normalize(inputName) == Normalize(res.contestant.canonicalName))
  {
    var input := Normalize(inputName);
    var res := Match(inputName, r).result;
    assert res.index < |r.contestants| && res.contestant == r.contestants[res.index] &&
           res.score == ScoresOf(input, r.contestants)[res.index] &&
           res.matchType == DetermineMatchType(res.score) && res.score >= MinimumThreshold by {
      MatchedIsBest(inputName, r);
    }
    ScoreIs(input, r.contestants, res.index);
    ExactIff(input, res.contestant);
    MatchTypeBands(res.score);
  }

  lemma ScoreIs(input: string, cs: seq<Contestant>, i: nat)
    requires i < |cs|
    ensures ScoresOf(input, cs)[i] == MatchScore(input, cs[i])
  {
  }

  /** determineMatchType's five bands, each as the exact range of scores that gets its name. */
  lemma MatchTypeBands(score: real)
    ensures DetermineMatchType(score) == "exact match" <==> score == 1.0
    ensures DetermineMatchType(score) == "nickname match" <==> score >= 0.95 && score != 1.0
    ensures DetermineMatchType(score) == "name component match" <==> 0.85 <= score < 0.95
    ensures DetermineMatchType(score) == "fuzzy match" <==> 0.7 <= score < 0.85
    ensures DetermineMatchType(score) == "low confidence match" <==> score < 0.7
  {
  }
}
