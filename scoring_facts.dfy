/**
 * Properties of the scoring engine of internal/scorer/scorer.go, and the
 * values its tests (apps/cli/internal/scorer/scorer_test.go) expect.
 * The tests hand `calculateCurrentScore` and `calculatePointsAvailable`
 * a position table directly; the examples below do the same, for any
 * names and any table that places them as the test does.
 */
module ScoringFacts {
  import opened Outcomes
  import opened DraftFile
  import opened Scoring

  // ---- one more entry at the end ----

  lemma CurrentScoreSnoc(s: seq<Entry>, e: Entry, fp: map<string, int>, n: nat)
    ensures CurrentScore(s + [e], fp, n) == CurrentScore(s, fp, n) + EntryScore(e, fp, n)
  {
    assert (s + [e])[..|s|] == s;
  }

  /** The picks a remainder keeps of one entry: it alone when the table lacks it. */
  function Kept(e: Entry, fp: map<string, int>): seq<Entry>
  {
    if e.playerName in fp then [] else [e]
  }

  lemma RemainderSnoc(s: seq<Entry>, e: Entry, fp: map<string, int>)
    ensures Remainder(s + [e], fp) == Remainder(s, fp) + Kept(e, fp)
  {
    assert (s + [e])[..|s|] == s;
  }

  lemma SurvivorPointsSnoc(s: seq<Entry>, e: Entry, open: set<int>, n: nat)
    requires open != {}
    ensures SurvivorPoints(s + [e], open, n) == SurvivorPoints(s, open, n) + (n + 1 - e.position) - MinDistance(e.position, open)
  {
    assert (s + [e])[..|s|] == s;
  }

  /** The distance from p to the nearest of the open positions lo..hi. */
  lemma MinDistanceToRange(p: int, open: set<int>, lo: int, hi: int)
    requires lo <= hi && forall q :: q in open <==> lo <= q <= hi
    ensures open != {} && MinDistance(p, open) == if p < lo then lo - p else if p > hi then p - hi else 0
  {
    var nearest := if p < lo then lo else if p > hi then hi else p;
    assert nearest in open;
    MinDistanceIs(p, open, nearest);
  }

  /** The distance from p to the range lo..hi. */
  function RangeDistance(p: int, lo: int, hi: int): nat
    requires lo <= hi
  {
    if p < lo then lo - p else if p > hi then p - hi else 0
  }

  /** SurvivorPoints when the open positions are exactly lo..hi. */
  function RangeSurvivorPoints(survivors: seq<Entry>, lo: int, hi: int, n: nat): int
    requires lo <= hi
  {
    if survivors == [] then 0
    else
      var p := survivors[|survivors| - 1].position;
      RangeSurvivorPoints(survivors[..|survivors| - 1], lo, hi, n) + (n + 1 - p) - RangeDistance(p, lo, hi)
  }

  lemma {:induction false} SurvivorPointsRange(survivors: seq<Entry>, open: set<int>, lo: int, hi: int, n: nat)
    requires lo <= hi && forall q :: q in open <==> lo <= q <= hi
    ensures open != {} && SurvivorPoints(survivors, open, n) == RangeSurvivorPoints(survivors, lo, hi, n)
  {
    assert lo in open;
    if survivors != [] {
      SurvivorPointsRange(survivors[..|survivors| - 1], open, lo, hi, n);
      MinDistanceToRange(survivors[|survivors| - 1].position, open, lo, hi);
    }
  }

  // ---- validation ----

  /**
   * score fails exactly when the final is not "Current" and some pick is
   * not a named final entry (a blank pick never is), and the error names
   * the first such pick.
   */
  lemma ScoreFailsIff(draft: Draft, final: Draft)
    ensures ScoreOf(draft, final).Err? <==>
              final.metadata.drafter != CurrentSeason &&
              exists e :: e in draft.entries && (e.playerName == "" || e.playerName !in Names(final.entries))
    ensures ScoreOf(draft, final).Err? ==>
              ScoreOf(draft, final) == Err(NotFound(FirstMissing(draft.entries, FinalPositions(final.entries)).value))
    ensures final.metadata.drafter == CurrentSeason ==> ScoreOf(draft, final).Ok?
  {
    var fp := FinalPositions(final.entries);
    if final.metadata.drafter != CurrentSeason {
      if exists e :: e in draft.entries && (e.playerName == "" || e.playerName !in Names(final.entries)) {
        var e :| e in draft.entries && (e.playerName == "" || e.playerName !in Names(final.entries));
        var i :| 0 <= i < |draft.entries| && draft.entries[i] == e;
        assert draft.entries[i].playerName !in fp;
      } else {
        forall i | 0 <= i < |draft.entries| ensures draft.entries[i].playerName in fp {
          assert draft.entries[i] in draft.entries;
        }
      }
    }
  }

  // ---- current score ----

  /** With none of its picks eliminated a draft has scored nothing yet. */
  lemma {:induction false} NothingEliminatedScoresZero(entries: seq<Entry>, fp: map<string, int>, n: nat)
    requires forall e :: e in entries ==> e.playerName !in fp
    ensures CurrentScore(entries, fp, n) == 0
  {
    if entries != [] {
      var init := entries[..|entries| - 1];
      assert forall e :: e in init ==> e in entries;
      NothingEliminatedScoresZero(init, fp, n);
    }
  }

  /** A pick can never score more than its draft value n + 1 − p. */
  function DraftValue(entries: seq<Entry>, n: nat): int
  {
    if entries == [] then 0
    else DraftValue(entries[..|entries| - 1], n) + (n + 1 - entries[|entries| - 1].position)
  }

  lemma {:induction false} CurrentScoreAtMostDraftValue(entries: seq<Entry>, fp: map<string, int>, n: nat)
    requires forall e :: e in entries ==> 1 <= e.position <= n
    ensures CurrentScore(entries, fp, n) <= DraftValue(entries, n)
  {
    if entries != [] {
      var init := entries[..|entries| - 1];
      assert forall e :: e in init ==> e in entries;
      assert entries[|entries| - 1] in entries;
      CurrentScoreAtMostDraftValue(init, fp, n);
    }
  }

  // ---- points available at the start of a season ----

  lemma {:induction false} AllSurvive(entries: seq<Entry>, fp: map<string, int>)
    requires forall e :: e in entries ==> e.playerName !in fp
    ensures Remainder(entries, fp) == entries
  {
    if entries != [] {
      var init, last := entries[..|entries| - 1], entries[|entries| - 1];
      assert forall e :: e in init ==> e in entries;
      assert last in entries;
      AllSurvive(init, fp);
      assert entries == init + [last];
    }
  }

  lemma {:induction false} SurvivorPointsInOpen(entries: seq<Entry>, open: set<int>, n: nat)
    requires open != {}
    requires forall e :: e in entries ==> e.position in open
    ensures SurvivorPoints(entries, open, n) == DraftValue(entries, n)
  {
    if entries != [] {
      var init, last := entries[..|entries| - 1], entries[|entries| - 1];
      assert forall e :: e in init ==> e in entries;
      assert last in entries;
      SurvivorPointsInOpen(init, open, n);
      MinDistanceIs(last.position, open, last.position);
    }
  }

  lemma {:induction false} DraftValuePositive(entries: seq<Entry>, n: nat)
    requires entries != [] && forall e :: e in entries ==> 1 <= e.position <= n
    ensures DraftValue(entries, n) >= |entries|
  {
    var init := entries[..|entries| - 1];
    assert entries[|entries| - 1] in entries;
    if init != [] {
      assert forall e :: e in init ==> e in entries;
      DraftValuePositive(init, n);
    }
  }

  /**
   * Before anyone is voted out, every pick sits on an open position, so the
   * points available are the whole draft value, which is positive for a
   * non-empty draft of positions 1..n; the current score is 0.
   */
  lemma StartOfSeason(entries: seq<Entry>, n: nat)
    requires forall e :: e in entries ==> 1 <= e.position <= n
    ensures CurrentScore(entries, map[], n) == 0
    ensures entries != [] ==> PointsAvailable(entries, map[], n) == DraftValue(entries, n) >= |entries|
  {
    NothingEliminatedScoresZero(entries, map[], n);
    if entries != [] {
      AllSurvive(entries, map[]);
      var open := OpenPositions(map[], n);
      var e0 := entries[0];
      assert e0 in entries && e0.position in open;
      SurvivorPointsInOpen(entries, open, n);
      DraftValuePositive(entries, n);
    }
  }

  // ---- the all-eliminated branch ----

  /** A ranked draft: the i-th pick at position i + 1. */
  predicate Ranked(entries: seq<Entry>)
  {
    forall i :: 0 <= i < |entries| ==> entries[i].position == i + 1
  }

  /** A ranked draft of k picks is worth Σ_{p=1..k} (n + 1 − p). */
  lemma {:induction false} RankedDraftValue(entries: seq<Entry>, n: nat)
    requires Ranked(entries)
    ensures 2 * DraftValue(entries, n) == |entries| * (2 * n + 1 - |entries|)
  {
    if entries != [] {
      var k := |entries|;
      RankedDraftValue(entries[..k - 1], n);
      assert entries[k - 1].position == k;
      assert (k - 1) * (2 * n + 2 - k) + 2 * (n + 1 - k) == k * (2 * n + 1 - k);
    }
  }

  /**
   * When every pick was eliminated exactly where it was drafted, the
   * all-eliminated totals are the draft value twice and no known loss.
   */
  lemma {:induction false} ExactTotals(entries: seq<Entry>, fp: map<string, int>, n: nat)
    requires forall e :: e in entries ==> e.playerName in fp && fp[e.playerName] == e.position && 1 <= e.position <= n
    ensures LegacyTotals(entries, fp, n, n) == Totals(DraftValue(entries, n), DraftValue(entries, n), 0)
  {
    if entries != [] {
      var init, e := entries[..|entries| - 1], entries[|entries| - 1];
      assert forall x :: x in init ==> x in entries;
      assert e in entries;
      ExactTotals(init, fp, n);
      assert KnownLoss(e, fp, n, n) == 0;
    }
  }

  /**
   * A draft of positions 1..n that the final table matches exactly:
   * nothing survives and the legacy aggregate leaves 0 points available.
   */
  lemma PerfectDraft(entries: seq<Entry>, fp: map<string, int>)
    requires Ranked(entries)
    requires forall e :: e in entries ==> e.playerName in fp && fp[e.playerName] == e.position
    requires forall q :: q in fp.Values ==> q <= |entries|
    ensures CurrentScore(entries, fp, |entries|) == DraftValue(entries, |entries|) == (|entries| * (|entries| + 1)) / 2
    ensures PointsAvailable(entries, fp, |entries|) == 0
  {
    var n := |entries|;
    forall e | e in entries ensures 1 <= e.position <= n {
      var i :| 0 <= i < n && entries[i] == e;
    }
    RankedDraftValue(entries, n);
    CurrentScoreExact(entries, fp, n);
    var rem := Remainder(entries, fp);
    RemainderMembers(entries, fp);
    if rem != [] {
      assert false;
    }
    if n > 0 {
      var last := entries[n - 1];
      assert last in entries;
      assert fp[last.playerName] == n;
      SetMaxIs(fp.Values, n);
      ExactTotals(entries, fp, n);
    }
  }

  lemma {:induction false} CurrentScoreExact(entries: seq<Entry>, fp: map<string, int>, n: nat)
    requires forall e :: e in entries ==> e.playerName in fp && fp[e.playerName] == e.position && 1 <= e.position <= n
    ensures CurrentScore(entries, fp, n) == DraftValue(entries, n)
  {
    if entries != [] {
      var init, e := entries[..|entries| - 1], entries[|entries| - 1];
      assert forall x :: x in init ==> x in entries;
      assert e in entries;
      CurrentScoreExact(init, fp, n);
    }
  }

  // ---- the repository's test scenarios ----

  /** makeDraft([a, b, c]) */
  function Draft3(a: string, b: string, c: string): seq<Entry>
  {
    [Entry(1, a), Entry(2, b), Entry(3, c)]
  }

  /** Only C is out, at 3: A scores nothing, so does B; C scores 1; A and B can still win 3 + 2. */
  lemma SingleElimination(fp: map<string, int>, a: string, b: string, c: string)
    requires a !in fp && b !in fp && c in fp && fp[c] == 3 && fp.Values == {3}
    ensures CurrentScore(Draft3(a, b, c), fp, 3) == 1
    ensures PointsAvailable(Draft3(a, b, c), fp, 3) == 5
  {
    SingleEliminationScore(fp, a, b, c);
    SingleEliminationAvailable(fp, a, b, c);
  }

  lemma SingleEliminationScore(fp: map<string, int>, a: string, b: string, c: string)
    requires a !in fp && b !in fp && c in fp && fp[c] == 3
    ensures CurrentScore(Draft3(a, b, c), fp, 3) == 1
  {
    var e1, e2, e3 := Entry(1, a), Entry(2, b), Entry(3, c);
    CurrentScoreSnoc([], e1, fp, 3);
    CurrentScoreSnoc([e1], e2, fp, 3);
    CurrentScoreSnoc([e1, e2], e3, fp, 3);
    assert [] + [e1] == [e1] && [e1] + [e2] == [e1, e2] && [e1, e2] + [e3] == [e1, e2, e3];
  }

  lemma SingleEliminationAvailable(fp: map<string, int>, a: string, b: string, c: string)
    requires a !in fp && b !in fp && c in fp && fp[c] == 3 && fp.Values == {3}
    ensures PointsAvailable(Draft3(a, b, c), fp, 3) == 5
  {
    var e1, e2, e3 := Entry(1, a), Entry(2, b), Entry(3, c);
    RemainderThree(e1, e2, e3, fp);
    assert Kept(e1, fp) == [e1] && Kept(e2, fp) == [e2] && Kept(e3, fp) == [];
    assert [e1] + [e2] + [] == [e1, e2];
    assert Remainder(Draft3(a, b, c), fp) == [e1, e2];
    OnlyThirdOut(fp);
    FirstTwoSurvive(e1, e2, OpenPositions(fp, 3));
  }

  lemma OnlyThirdOut(fp: map<string, int>)
    requires fp.Values == {3}
    ensures OpenPositions(fp, 3) == {1, 2}
  {
  }

  lemma FirstTwoSurvive(e1: Entry, e2: Entry, open: set<int>)
    requires e1.position == 1 && e2.position == 2 && open == {1, 2}
    ensures SurvivorPoints([e1, e2], open, 3) == 5
  {
    MinDistanceIs(1, open, 1);
    MinDistanceIs(2, open, 2);
    SurvivorPointsSnoc([], e1, open, 3);
    SurvivorPointsSnoc([e1], e2, open, 3);
    assert [] + [e1] == [e1] && [e1] + [e2] == [e1, e2];
  }

  /** X, Y and Z hold 1..3: no position is open, so nothing is available. */
  lemma NoRemainingPositions(fp: map<string, int>, a: string, b: string, c: string)
    requires a !in fp && b !in fp && c !in fp && fp.Values == {1, 2, 3}
    ensures PointsAvailable(Draft3(a, b, c), fp, 3) == 0
  {
    var entries := Draft3(a, b, c);
    assert forall x :: x in entries ==> x.playerName !in fp;
    AllSurvive(entries, fp);
    assert OpenPositions(fp, 3) == {};
  }

  function Draft5(a: string, b: string, c: string, d: string, e: string): seq<Entry>
  {
    [Entry(1, a), Entry(2, b), Entry(3, c), Entry(4, d), Entry(5, e)]
  }

  /** Positions 3..5 are taken by others, so only 1 and 2 are open. */
  lemma NegativeContribution(fp: map<string, int>, a: string, b: string, c: string, d: string, e: string)
    requires a !in fp && b !in fp && c !in fp && d !in fp && e !in fp && fp.Values == {3, 4, 5}
    ensures PointsAvailable(Draft5(a, b, c, d, e), fp, 5) == 9
  {
    var entries := Draft5(a, b, c, d, e);
    assert forall x :: x in entries ==> x.playerName !in fp;
    AllSurvive(entries, fp);
    var open := OpenPositions(fp, 5);
    assert open == {1, 2};
    SurvivorPointsRange(entries, open, 1, 2, 5);
    var e1, e2, e3, e4 := Entry(1, a), Entry(2, b), Entry(3, c), Entry(4, d);
    assert entries[..4] == [e1, e2, e3, e4];
    assert [e1, e2, e3, e4][..3] == [e1, e2, e3];
    assert [e1, e2, e3][..2] == [e1, e2];
    assert [e1, e2][..1] == [e1];
    assert RangeSurvivorPoints([e1], 1, 2, 5) == 5;
    assert RangeSurvivorPoints([e1, e2], 1, 2, 5) == 9;
    assert RangeSurvivorPoints([e1, e2, e3], 1, 2, 5) == 11;
    assert RangeSurvivorPoints([e1, e2, e3, e4], 1, 2, 5) == 11;
    // 5 + 4 + 2 + 0 − 2: the pick at 5 contributes a negative term
    assert RangeSurvivorPoints(entries, 1, 2, 5) == 9;
  }

  /** Week 4: the draft Tom..Curly at 1..8. */
  function Week4Draft(tom: string, dick: string, harry: string, cosmo: string,
                      elaine: string, larry: string, moe: string, curly: string): seq<Entry>
  {
    [Entry(1, tom), Entry(2, dick), Entry(3, harry), Entry(4, cosmo),
     Entry(5, elaine), Entry(6, larry), Entry(7, moe), Entry(8, curly)]
  }

  /** The week-4 table: Larry, Dick, Harry and Moe out at 5..8, the other picks still in. */
  predicate Week4Table(fp: map<string, int>, tom: string, dick: string, harry: string, cosmo: string,
                       elaine: string, larry: string, moe: string, curly: string)
  {
    && tom !in fp && cosmo !in fp && elaine !in fp && curly !in fp
    && larry in fp && dick in fp && harry in fp && moe in fp
    && fp[larry] == 5 && fp[dick] == 6 && fp[harry] == 7 && fp[moe] == 8
    && fp.Values == {5, 6, 7, 8}
  }

  /** Dick 3, Harry 2, Larry 2 and Moe 1 points: 8 with draft-position values. */
  lemma Week4Current(fp: map<string, int>, tom: string, dick: string, harry: string, cosmo: string,
                     elaine: string, larry: string, moe: string, curly: string)
    requires Week4Table(fp, tom, dick, harry, cosmo, elaine, larry, moe, curly)
    ensures CurrentScore(Week4Draft(tom, dick, harry, cosmo, elaine, larry, moe, curly), fp, 8) == 8
  {
    var e1, e2, e3, e4 := Entry(1, tom), Entry(2, dick), Entry(3, harry), Entry(4, cosmo);
    var e5, e6, e7, e8 := Entry(5, elaine), Entry(6, larry), Entry(7, moe), Entry(8, curly);
    assert EntryScore(e1, fp, 8) == 0 && EntryScore(e4, fp, 8) == 0 && EntryScore(e5, fp, 8) == 0 && EntryScore(e8, fp, 8) == 0;
    assert EntryScore(e2, fp, 8) == 3 && EntryScore(e3, fp, 8) == 2 && EntryScore(e6, fp, 8) == 2 && EntryScore(e7, fp, 8) == 1;
    CurrentScoreSnoc([], e1, fp, 8);
    assert [] + [e1] == [e1];
    assert CurrentScore([e1], fp, 8) == 0;
    CurrentScoreSnoc([e1], e2, fp, 8);
    assert [e1] + [e2] == [e1, e2];
    assert CurrentScore([e1, e2], fp, 8) == 3;
    CurrentScoreSnoc([e1, e2], e3, fp, 8);
    assert [e1, e2] + [e3] == [e1, e2, e3];
    assert CurrentScore([e1, e2, e3], fp, 8) == 5;
    CurrentScoreSnoc([e1, e2, e3], e4, fp, 8);
    assert [e1, e2, e3] + [e4] == [e1, e2, e3, e4];
    assert CurrentScore([e1, e2, e3, e4], fp, 8) == 5;
    CurrentScoreSnoc([e1, e2, e3, e4], e5, fp, 8);
    assert [e1, e2, e3, e4] + [e5] == [e1, e2, e3, e4, e5];
    assert CurrentScore([e1, e2, e3, e4, e5], fp, 8) == 5;
    CurrentScoreSnoc([e1, e2, e3, e4, e5], e6, fp, 8);
    assert [e1, e2, e3, e4, e5] + [e6] == [e1, e2, e3, e4, e5, e6];
    assert CurrentScore([e1, e2, e3, e4, e5, e6], fp, 8) == 7;
    CurrentScoreSnoc([e1, e2, e3, e4, e5, e6], e7, fp, 8);
    assert [e1, e2, e3, e4, e5, e6] + [e7] == [e1, e2, e3, e4, e5, e6, e7];
    assert CurrentScore([e1, e2, e3, e4, e5, e6, e7], fp, 8) == 7 + 1;
    CurrentScoreSnoc([e1, e2, e3, e4, e5, e6, e7], e8, fp, 8);
    assert [e1, e2, e3, e4, e5, e6, e7] + [e8] == [e1, e2, e3, e4, e5, e6, e7, e8];
  }

  lemma Week4Survivors(fp: map<string, int>, tom: string, dick: string, harry: string, cosmo: string,
                       elaine: string, larry: string, moe: string, curly: string)
    requires Week4Table(fp, tom, dick, harry, cosmo, elaine, larry, moe, curly)
    ensures Remainder(Week4Draft(tom, dick, harry, cosmo, elaine, larry, moe, curly), fp)
         == [Entry(1, tom), Entry(4, cosmo), Entry(5, elaine), Entry(8, curly)]
  {
    var e1, e2, e3, e4 := Entry(1, tom), Entry(2, dick), Entry(3, harry), Entry(4, cosmo);
    var e5, e6, e7, e8 := Entry(5, elaine), Entry(6, larry), Entry(7, moe), Entry(8, curly);
    assert Week4Draft(tom, dick, harry, cosmo, elaine, larry, moe, curly) == [e1, e2, e3, e4] + [e5, e6, e7, e8];
    RemainderAppend([e1, e2, e3, e4], [e5, e6, e7, e8], fp);
    RemainderFour(e1, e2, e3, e4, fp);
    RemainderFour(e5, e6, e7, e8, fp);
    assert Kept(e1, fp) + Kept(e2, fp) + Kept(e3, fp) + Kept(e4, fp) == [e1, e4];
    assert Kept(e5, fp) + Kept(e6, fp) + Kept(e7, fp) + Kept(e8, fp) == [e5, e8];
    assert [e1, e4] + [e5, e8] == [e1, e4, e5, e8];
  }

  /** The remainder of a concatenation is the concatenation of the remainders. */
  lemma {:induction false} RemainderAppend(a: seq<Entry>, b: seq<Entry>, fp: map<string, int>)
    ensures Remainder(a + b, fp) == Remainder(a, fp) + Remainder(b, fp)
    decreases |b|
  {
    if b == [] {
      assert a + b == a;
      assert Remainder(a, fp) + [] == Remainder(a, fp);
    } else {
      var init, last := b[..|b| - 1], b[|b| - 1];
      assert b == init + [last];
      assert a + b == (a + init) + [last];
      RemainderSnoc(a + init, last, fp);
      RemainderSnoc(init, last, fp);
      calc {
        Remainder(a + b, fp);
        Remainder(a + init, fp) + Kept(last, fp);
        { RemainderAppend(a, init, fp); }
        (Remainder(a, fp) + Remainder(init, fp)) + Kept(last, fp);
        Remainder(a, fp) + (Remainder(init, fp) + Kept(last, fp));
        Remainder(a, fp) + Remainder(b, fp);
      }
    }
  }

  lemma RemainderOne(e: Entry, fp: map<string, int>)
    ensures Remainder([e], fp) == Kept(e, fp)
  {
    assert [e][..0] == [];
  }

  lemma RemainderThree(a: Entry, b: Entry, c: Entry, fp: map<string, int>)
    ensures Remainder([a, b, c], fp) == Kept(a, fp) + Kept(b, fp) + Kept(c, fp)
  {
    assert [a, b, c] == [a] + [b] + [c];
    RemainderAppend([a] + [b], [c], fp);
    RemainderAppend([a], [b], fp);
    RemainderOne(a, fp);
    RemainderOne(b, fp);
    RemainderOne(c, fp);
  }

  lemma RemainderFour(a: Entry, b: Entry, c: Entry, d: Entry, fp: map<string, int>)
    ensures Remainder([a, b, c, d], fp) == Kept(a, fp) + Kept(b, fp) + Kept(c, fp) + Kept(d, fp)
  {
    assert [a, b, c, d] == [a] + [b] + [c] + [d];
    RemainderAppend([a] + [b] + [c], [d], fp);
    RemainderAppend([a] + [b], [c], fp);
    RemainderAppend([a], [b], fp);
    RemainderOne(a, fp);
    RemainderOne(b, fp);
    RemainderOne(c, fp);
    RemainderOne(d, fp);
  }

  /** With Larry, Dick, Harry and Moe out at 5..8, the positions 1..4 are open. */
  lemma Week4Open(fp: map<string, int>, tom: string, dick: string, harry: string, cosmo: string,
                  elaine: string, larry: string, moe: string, curly: string)
    requires Week4Table(fp, tom, dick, harry, cosmo, elaine, larry, moe, curly)
    ensures OpenPositions(fp, 8) == {1, 2, 3, 4}
  {
  }

  /** Week 4's points available: 13. */
  lemma Week4Available(fp: map<string, int>, tom: string, dick: string, harry: string, cosmo: string,
                       elaine: string, larry: string, moe: string, curly: string)
    requires Week4Table(fp, tom, dick, harry, cosmo, elaine, larry, moe, curly)
    ensures PointsAvailable(Week4Draft(tom, dick, harry, cosmo, elaine, larry, moe, curly), fp, 8) == 13
  {
    Week4Survivors(fp, tom, dick, harry, cosmo, elaine, larry, moe, curly);
    Week4Open(fp, tom, dick, harry, cosmo, elaine, larry, moe, curly);
    var survivors := [Entry(1, tom), Entry(4, cosmo), Entry(5, elaine), Entry(8, curly)];
    SurvivorPointsRange(survivors, OpenPositions(fp, 8), 1, 4, 8);
    var e1, e4, e5 := Entry(1, tom), Entry(4, cosmo), Entry(5, elaine);
    assert survivors[..3] == [e1, e4, e5];
    assert [e1, e4, e5][..2] == [e1, e4];
    assert [e1, e4][..1] == [e1];
    // Tom 8, Cosmo 5, Elaine 4 − 1 and Curly 1 − 4 against the open slots 1..4
    assert RangeSurvivorPoints([e1], 1, 4, 8) == 8;
    assert RangeSurvivorPoints([e1, e4], 1, 4, 8) == 13;
    assert RangeSurvivorPoints([e1, e4, e5], 1, 4, 8) == 16;
    assert RangeSurvivorPoints(survivors, 1, 4, 8) == 13;
  }
}
