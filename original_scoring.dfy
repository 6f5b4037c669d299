/**
 * The oldest scorer, `score` in main.go: every pick must be in the final
 * (no "Current" exemption), and each adds its draft value less its
 * distance from its final position, with no floor. Its `readDraft` is the
 * same text as internal/scorer's, modelled by DraftFile.ReadDraft.
 */
module OriginalScoring {
  import opened Outcomes
  import opened DraftFile
  import opened Scoring
  import ScoringFacts
  import LegacyCmdScoring

  /** One pick's points: (n + 1 − p) − |p − f|, negative when it finished far from p. */
  function Points(e: Entry, fp: map<string, int>, n: nat): int
    requires e.playerName in fp
  {
    (n - e.position + 1) - Abs(e.position - fp[e.playerName])
  }

  function Total(entries: seq<Entry>, fp: map<string, int>, n: nat): int
    requires forall e :: e in entries ==> e.playerName in fp
  {
    if entries == [] then 0
    else
      var init := entries[..|entries| - 1];
      assert forall e :: e in init ==> e in entries;
      Total(init, fp, n) + Points(entries[|entries| - 1], fp, n)
  }

  /** What main.go's `score` returns. The table is cmd/main.go's: every final entry, a later one overriding. */
  function OriginalScore(draft: Draft, final: Draft): Result<int>
  {
    Summed(draft.entries, LegacyCmdScoring.AllPositions(final.entries), |final.entries|)
  }

  /** The draft loop's outcome: the first pick missing from the table, or the total. */
  function Summed(entries: seq<Entry>, fp: map<string, int>, n: nat): Result<int>
  {
    var missing := FirstMissing(entries, fp);
    if missing.Some? then Err(LegacyCmdScoring.CmdNotFound(missing.value))
    else
      assert forall e :: e in entries ==> e.playerName in fp by {
        forall e | e in entries ensures e.playerName in fp {
          var i :| 0 <= i < |entries| && entries[i] == e;
        }
      }
      Ok(Total(entries, fp, n))
  }

  /** score (main.go). */
  method Score(draft: Draft, final: Draft) returns (r: Result<int>)
    ensures r == OriginalScore(draft, final)
  {
    var totalPositions := |final.entries|;
    var finalPositions: map<string, int> := map[];
    var i := 0;
    while i < |final.entries|
      invariant 0 <= i <= |final.entries|
      invariant finalPositions == LegacyCmdScoring.AllPositions(final.entries[..i])
    {
      var e := final.entries[i];
      finalPositions := finalPositions[e.playerName := e.position];
      assert final.entries[..i + 1][..i] == final.entries[..i];
      i := i + 1;
    }
    assert final.entries[..i] == final.entries;
    r := SumPicks(draft.entries, finalPositions, totalPositions);
  }

  /** score's loop over the draft. */
  method SumPicks(entries: seq<Entry>, finalPositions: map<string, int>, totalPositions: nat) returns (r: Result<int>)
    ensures r == Summed(entries, finalPositions, totalPositions)
  {
    var totalScore := 0;
    var i := 0;
    while i < |entries|
      invariant 0 <= i <= |entries|
      invariant forall k :: 0 <= k < i ==> entries[k].playerName in finalPositions
      invariant forall e :: e in entries[..i] ==> e.playerName in finalPositions
      invariant totalScore == Total(entries[..i], finalPositions, totalPositions)
    {
      var e := entries[i];
      if e.playerName !in finalPositions {
        FirstMissingAt(entries, finalPositions, i);
        return Err(LegacyCmdScoring.CmdNotFound(e.playerName));
      }
      var score := totalPositions - e.position + 1;
      score := score - Abs(e.position - finalPositions[e.playerName]);
      totalScore := totalScore + score;
      assert entries[..i + 1][..i] == entries[..i];
      i := i + 1;
    }
    assert entries[..i] == entries;
    r := Ok(totalScore);
  }

  // ---- properties ----

  /** score fails exactly when some pick, blank included, names no final entry; a "Current" final is no exception. */
  lemma OriginalScoreFailsIff(draft: Draft, final: Draft)
    ensures OriginalScore(draft, final).Err? <==>
              exists e :: e in draft.entries && e.playerName !in Names(final.entries)
  {
    var fp := LegacyCmdScoring.AllPositions(final.entries);
    if exists e :: e in draft.entries && e.playerName !in Names(final.entries) {
      var e :| e in draft.entries && e.playerName !in Names(final.entries);
      var i :| 0 <= i < |draft.entries| && draft.entries[i] == e;
      assert draft.entries[i].playerName !in fp;
    } else {
      forall i | 0 <= i < |draft.entries| ensures draft.entries[i].playerName in fp {
        assert draft.entries[i] in draft.entries;
      }
    }
  }

  lemma {:induction false} ExactTotal(entries: seq<Entry>, fp: map<string, int>, n: nat)
    requires forall e :: e in entries ==> e.playerName in fp && fp[e.playerName] == e.position
    ensures Total(entries, fp, n) == ScoringFacts.DraftValue(entries, n)
  {
    if entries != [] {
      var init := entries[..|entries| - 1];
      assert forall e :: e in init ==> e in entries;
      assert entries[|entries| - 1] in entries;
      ExactTotal(init, fp, n);
    }
  }

  /** A draft of n distinct players in exactly the final's order scores n(n+1)/2. */
  lemma PerfectDraft(draft: Draft, final: Draft)
    requires final.entries == draft.entries
    requires ScoringFacts.Ranked(draft.entries) && LegacyCmdScoring.DistinctNamed(draft.entries)
    ensures OriginalScore(draft, final) == Ok((|draft.entries| * (|draft.entries| + 1)) / 2)
  {
    var entries := draft.entries;
    var fp := LegacyCmdScoring.AllPositions(entries);
    LegacyCmdScoring.PerfectTable(entries);
    assert FirstMissing(entries, fp).None?;
    ExactTotal(entries, fp, |entries|);
    ScoringFacts.RankedDraftValue(entries, |entries|);
    assert Total(entries, fp, |entries|) == (|entries| * (|entries| + 1)) / 2;
  }

  /** A repeated name in the final takes its last position. */
  lemma LastPositionWins(final: seq<Entry>, name: string, p: int, q: int)
    ensures LegacyCmdScoring.AllPositions(final + [Entry(p, name), Entry(q, name)])[name] == q
  {
    var entries := final + [Entry(p, name), Entry(q, name)];
    LegacyCmdScoring.AllPositionsLast(entries, |entries| - 1);
  }

  /**
   * Nothing floors a pick's points: the player drafted third of three who
   * finished first scores (3 − 3 + 1) − 2 = −1.
   */
  lemma NegativeTotal(m: Metadata, fm: Metadata, a: string, b: string, c: string)
    requires a != b && a != c
    ensures OriginalScore(Draft(m, [Entry(3, a)]), Draft(fm, [Entry(1, a), Entry(2, b), Entry(3, c)])) == Ok(-1)
  {
    var final := [Entry(1, a), Entry(2, b), Entry(3, c)];
    var fp := LegacyCmdScoring.AllPositions(final);
    LegacyCmdScoring.AllPositionsLast(final, 0);
    assert a in fp && fp[a] == 1;
    var picks := [Entry(3, a)];
    assert FirstMissing(picks, fp) == None;
    assert picks[..0] == [];
    assert Points(picks[0], fp, 3) == -1;
    assert Total(picks, fp, 3) == -1;
  }
}
