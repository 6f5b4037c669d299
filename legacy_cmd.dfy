/**
 * The legacy scorer of cmd/main.go (`score`, `scores`). Unlike
 * internal/scorer it keys blank final entries too, counts a pick that is
 * not in the final as finishing at position 0, charges "known losses"
 * against the last blank slot, and clamps the points available at 0.
 * Its `readDraft` is the same text as internal/scorer's, modelled by
 * DraftFile.ReadDraft.
 */
module LegacyCmdScoring {
  import opened Outcomes
  import opened DraftFile
  import opened Scoring
  import ScoringFacts

  // ---- the final's table ----

  /** finalPositions: every final entry, blank names included; a later entry overrides. */
  function AllPositions(entries: seq<Entry>): (r: map<string, int>)
    ensures r.Keys == Names(entries)
  {
    if entries == [] then map[]
    else
      var init, last := entries[..|entries| - 1], entries[|entries| - 1];
      assert entries == init + [last];
      AllPositions(init)[last.playerName := last.position]
  }

  /** An entry that no later entry renames is what the table holds for its name. */
  lemma {:induction false} AllPositionsLast(entries: seq<Entry>, i: nat)
    requires i < |entries| && LastNamed(entries, i)
    ensures AllPositions(entries)[entries[i].playerName] == entries[i].position
  {
    var init := entries[..|entries| - 1];
    if i < |entries| - 1 {
      assert init[i] == entries[i];
      AllPositionsLast(init, i);
    }
  }

  /** currentPositions: the named final entries, the players already out. */
  function NamedCount(entries: seq<Entry>): (r: nat)
    ensures r <= |entries|
  {
    if entries == [] then 0
    else NamedCount(entries[..|entries| - 1]) + if entries[|entries| - 1].playerName != "" then 1 else 0
  }

  /** maxPosition: the largest position of a blank final entry, 0 when there is none. */
  function BlankMax(entries: seq<Entry>): (r: int)
    ensures r >= 0
  {
    if entries == [] then 0
    else
      var m := BlankMax(entries[..|entries| - 1]);
      var last := entries[|entries| - 1];
      if last.playerName == "" && last.position > m then last.position else m
  }

  lemma {:induction false} BlankMaxBounds(entries: seq<Entry>)
    ensures forall i :: 0 <= i < |entries| && entries[i].playerName == "" ==> entries[i].position <= BlankMax(entries)
    ensures BlankMax(entries) == 0 || exists i :: 0 <= i < |entries| && entries[i].playerName == "" && entries[i].position == BlankMax(entries)
  {
    if entries != [] {
      var init := entries[..|entries| - 1];
      BlankMaxBounds(init);
      assert forall i :: 0 <= i < |init| ==> init[i] == entries[i];
    }
  }

  // ---- one pick ----

  /** entryScore: a pick missing from the table counts as finishing at position 0. */
  function EntryPoints(e: Entry, fp: map<string, int>, n: nat): (r: nat)
    ensures e.playerName in fp && fp[e.playerName] == e.position ==> r == Max(0, n + 1 - e.position)
  {
    var finalPosition := if e.playerName in fp then fp[e.playerName] else 0;
    Max(0, (n - e.position + 1) - Abs(e.position - finalPosition))
  }

  /**
   * knownLoss, charged only for picks missing from the table: the whole
   * position value when the pick is further than that from the last blank
   * slot, its distance from position 0 when it is off that slot at all.
   */
  function KnownLoss(e: Entry, fp: map<string, int>, n: nat, maxPosition: int): int
  {
    if e.playerName in fp then 0
    else
      var positionValue := n - e.position + 1;
      var lossDistance := Abs(e.position - maxPosition);
      if lossDistance > positionValue then positionValue
      else if lossDistance > 0 then Abs(e.position - 0)
      else 0
  }

  datatype Tally = Tally(currentScore: int, knownLosses: int)

  /** What the draft loop accumulates. */
  function DraftTally(entries: seq<Entry>, fp: map<string, int>, n: nat, maxPosition: int): (r: Tally)
    ensures r.currentScore >= 0
  {
    if entries == [] then Tally(0, 0)
    else
      var t := DraftTally(entries[..|entries| - 1], fp, n, maxPosition);
      var e := entries[|entries| - 1];
      Tally(t.currentScore + EntryPoints(e, fp, n), t.knownLosses + KnownLoss(e, fp, n, maxPosition))
  }

  function CmdNotFound(name: string): string
  {
    "Player not found in final results: " + name
  }

  /** What cmd/main.go's `score` returns for a draft against a final. */
  function CmdScore(draft: Draft, final: Draft): (r: Result<ScoreResult>)
    ensures r.Ok? ==> r.value.score >= 0 && r.value.pointsAvailable >= 0
  {
    var fp := AllPositions(final.entries);
    var n := |final.entries|;
    var missing := FirstMissing(draft.entries, fp);
    if missing.Some? && final.metadata.drafter != CurrentSeason then Err(CmdNotFound(missing.value))
    else
      var perfect := (n * (n + 1)) / 2;
      var k := NamedCount(final.entries);
      var currentMax := (k * (k + 1)) / 2;
      var t := DraftTally(draft.entries, fp, n, BlankMax(final.entries));
      Ok(ScoreResult(t.currentScore, Max(0, perfect - currentMax - (currentMax - t.currentScore) - t.knownLosses)))
  }

  // ---- the methods ----

  /** The loop over the final: the table, the named count and the last blank slot. */
  method ReadFinal(entries: seq<Entry>) returns (finalPositions: map<string, int>, currentPositions: nat, maxPosition: int)
    ensures finalPositions == AllPositions(entries)
    ensures currentPositions == NamedCount(entries)
    ensures maxPosition == BlankMax(entries)
  {
    finalPositions, currentPositions, maxPosition := map[], 0, 0;
    var i := 0;
    while i < |entries|
      invariant 0 <= i <= |entries|
      invariant finalPositions == AllPositions(entries[..i])
      invariant currentPositions == NamedCount(entries[..i])
      invariant maxPosition == BlankMax(entries[..i])
    {
      var e := entries[i];
      finalPositions := finalPositions[e.playerName := e.position];
      if e.playerName != "" {
        currentPositions := currentPositions + 1;
      } else if e.position > maxPosition {
        maxPosition := e.position;
      }
      assert entries[..i + 1][..i] == entries[..i];
      i := i + 1;
    }
    assert entries[..i] == entries;
  }

  /** score (cmd/main.go). */
  method Score(draft: Draft, final: Draft) returns (r: Result<ScoreResult>)
    ensures r == CmdScore(draft, final)
  {
    var totalPositions := |final.entries|;
    var perfectScore := (totalPositions * (totalPositions + 1)) / 2;
    var finalPositions, currentPositions, maxPosition := ReadFinal(final.entries);
    var currentMax := (currentPositions * (currentPositions + 1)) / 2;
    var tally := TallyDraft(draft.entries, finalPositions, totalPositions, maxPosition, final.metadata.drafter == CurrentSeason);
    if tally.Err? {
      return Err(tally.message);
    }
    var currentScore, knownLosses := tally.value.currentScore, tally.value.knownLosses;
    var currentMisses := currentMax - currentScore;
    var pointsAvailable := perfectScore - currentMax - currentMisses - knownLosses;
    r := Ok(ScoreResult(currentScore, Max(0, pointsAvailable)));
  }

  /**
   * The loop over the draft: the current score and the known losses, or
   * the first pick missing from the table unless missing picks are
   * tolerated (a "Current" final).
   */
  method TallyDraft(entries: seq<Entry>, finalPositions: map<string, int>, totalPositions: nat, maxPosition: int,
                    tolerateMissing: bool)
    returns (r: Result<Tally>)
    ensures !tolerateMissing && FirstMissing(entries, finalPositions).Some? ==>
              r == Err(CmdNotFound(FirstMissing(entries, finalPositions).value))
    ensures tolerateMissing || FirstMissing(entries, finalPositions).None? ==>
              r == Ok(DraftTally(entries, finalPositions, totalPositions, maxPosition))
  {
    var currentScore, knownLosses := 0, 0;
    var i := 0;
    while i < |entries|
      invariant 0 <= i <= |entries|
      invariant DraftTally(entries[..i], finalPositions, totalPositions, maxPosition) == Tally(currentScore, knownLosses)
      invariant !tolerateMissing ==> forall k :: 0 <= k < i ==> entries[k].playerName in finalPositions
    {
      var e := entries[i];
      if e.playerName !in finalPositions && !tolerateMissing {
        FirstMissingAt(entries, finalPositions, i);
        return Err(CmdNotFound(e.playerName));
      }
      var points, knownLoss := TallyPick(e, finalPositions, totalPositions, maxPosition);
      DraftTallySnoc(entries, i, finalPositions, totalPositions, maxPosition);
      assert !tolerateMissing ==> entries[i].playerName in finalPositions;
      currentScore, knownLosses := currentScore + points, knownLosses + knownLoss;
      i := i + 1;
    }
    assert entries[..i] == entries;
    r := Ok(Tally(currentScore, knownLosses));
  }

  /** The loop body for one pick: its points, and its known loss when it is missing from the table. */
  method TallyPick(e: Entry, finalPositions: map<string, int>, totalPositions: nat, maxPosition: int)
    returns (points: nat, knownLoss: int)
    ensures points == EntryPoints(e, finalPositions, totalPositions)
    ensures knownLoss == KnownLoss(e, finalPositions, totalPositions, maxPosition)
  {
    var positionValue := totalPositions - e.position + 1;
    knownLoss := 0;
    if e.playerName in finalPositions {
      var distance := Abs(e.position - finalPositions[e.playerName]);
      points := Max(0, positionValue - distance);
    } else {
      // a missing player's final position reads as Go's zero value
      var distance := Abs(e.position - 0);
      points := Max(0, positionValue - distance);
      var lossDistance := Abs(e.position - maxPosition);
      if lossDistance > positionValue {
        knownLoss := positionValue;
      } else if lossDistance > 0 {
        knownLoss := distance;
      }
    }
  }

  lemma DraftTallySnoc(entries: seq<Entry>, i: nat, fp: map<string, int>, n: nat, maxPosition: int)
    requires i < |entries|
    ensures var t := DraftTally(entries[..i], fp, n, maxPosition);
            DraftTally(entries[..i + 1], fp, n, maxPosition)
            == Tally(t.currentScore + EntryPoints(entries[i], fp, n), t.knownLosses + KnownLoss(entries[i], fp, n, maxPosition))
  {
    assert entries[..i + 1][..i] == entries[..i];
  }

  /** scores (cmd/main.go): every draft's result in draft order, or the first error. */
  method Scores(drafts: seq<Draft>, final: Draft) returns (r: Result<seq<ScoreResult>>)
    ensures r.Ok? <==> forall i :: 0 <= i < |drafts| ==> CmdScore(drafts[i], final).Ok?
    ensures r.Ok? ==> |r.value| == |drafts|
    ensures r.Ok? ==> forall i :: 0 <= i < |drafts| ==> CmdScore(drafts[i], final) == Ok(r.value[i])
    ensures r.Err? ==> exists i :: 0 <= i < |drafts| && CmdScore(drafts[i], final) == Err(r.message)
                                   && forall k :: 0 <= k < i ==> CmdScore(drafts[k], final).Ok?
  {
    var results: seq<ScoreResult> := [];
    var i := 0;
    while i < |drafts|
      invariant 0 <= i <= |drafts| && |results| == i
      invariant forall k :: 0 <= k < i ==> CmdScore(drafts[k], final) == Ok(results[k])
    {
      var result := Score(drafts[i], final);
      if result.Err? {
        return Err(result.message);
      }
      results := results + [result.value];
      i := i + 1;
    }
    r := Ok(results);
  }

  // ---- properties ----

  /**
   * score fails exactly when the final is not "Current" and some pick's
   * name, blank included, is not the name of any final entry.
   */
  lemma CmdScoreFailsIff(draft: Draft, final: Draft)
    ensures CmdScore(draft, final).Err? <==>
              final.metadata.drafter != CurrentSeason &&
              exists e :: e in draft.entries && e.playerName !in Names(final.entries)
  {
    var fp := AllPositions(final.entries);
    if final.metadata.drafter != CurrentSeason {
      if exists e :: e in draft.entries && e.playerName !in Names(final.entries) {
        var e :| e in draft.entries && e.playerName !in Names(final.entries);
        var i :| 0 <= i < |draft.entries| && draft.entries[i] == e;
        assert draft.entries[i].playerName !in fp;
      } else {
        forall i | 0 <= i < |draft.entries| ensures draft.entries[i].playerName in fp {
          assert draft.entries[i] in draft.entries;
        }
      }
    }
  }

  /** A known loss is charged only for a pick missing from the table. */
  lemma {:induction false} NoLossesWhenAllFound(entries: seq<Entry>, fp: map<string, int>, n: nat, maxPosition: int)
    requires forall e :: e in entries ==> e.playerName in fp
    ensures DraftTally(entries, fp, n, maxPosition).knownLosses == 0
  {
    if entries != [] {
      var init := entries[..|entries| - 1];
      assert forall e :: e in init ==> e in entries;
      NoLossesWhenAllFound(init, fp, n, maxPosition);
      assert entries[|entries| - 1] in entries;
    }
  }

  /** The picks that finished exactly where they were drafted score their whole value. */
  lemma {:induction false} ExactScore(entries: seq<Entry>, fp: map<string, int>, n: nat)
    requires forall e :: e in entries ==> e.playerName in fp && fp[e.playerName] == e.position && e.position <= n + 1
    ensures DraftTally(entries, fp, n, 0).currentScore == ScoringFacts.DraftValue(entries, n)
  {
    if entries != [] {
      var init := entries[..|entries| - 1];
      assert forall e :: e in init ==> e in entries;
      assert entries[|entries| - 1] in entries;
      ExactScore(init, fp, n);
    }
  }

  /** Every entry of `entries` is named, and no name occurs twice. */
  predicate DistinctNamed(entries: seq<Entry>)
  {
    forall i :: 0 <= i < |entries| ==> entries[i].playerName != "" && LastNamed(entries, i)
  }

  lemma {:induction false} AllNamed(entries: seq<Entry>)
    requires DistinctNamed(entries)
    ensures NamedCount(entries) == |entries|
  {
    if entries != [] {
      var init := entries[..|entries| - 1];
      assert forall i :: 0 <= i < |init| ==> init[i] == entries[i];
      AllNamed(init);
    }
  }

  /**
   * A final of n distinctly named players scored against the draft that
   * predicted it exactly: the perfect score n(n+1)/2, and nothing left.
   */
  lemma PerfectDraft(draft: Draft, final: Draft)
    requires final.entries == draft.entries
    requires ScoringFacts.Ranked(draft.entries) && DistinctNamed(draft.entries)
    ensures CmdScore(draft, final) == Ok(ScoreResult((|draft.entries| * (|draft.entries| + 1)) / 2, 0))
  {
    var entries := draft.entries;
    var n := |entries|;
    var fp := AllPositions(entries);
    PerfectTable(entries);
    assert FirstMissing(entries, fp).None?;
    PerfectTally(entries, fp, BlankMax(entries));
    AllNamed(entries);
  }

  lemma PerfectTable(entries: seq<Entry>)
    requires ScoringFacts.Ranked(entries) && DistinctNamed(entries)
    ensures forall e :: e in entries ==>
              e.playerName in AllPositions(entries) && AllPositions(entries)[e.playerName] == e.position && e.position <= |entries| + 1
  {
    forall e | e in entries
      ensures e.playerName in AllPositions(entries) && AllPositions(entries)[e.playerName] == e.position && e.position <= |entries| + 1
    {
      var i :| 0 <= i < |entries| && entries[i] == e;
      AllPositionsLast(entries, i);
    }
  }

  lemma PerfectTally(entries: seq<Entry>, fp: map<string, int>, maxPosition: int)
    requires ScoringFacts.Ranked(entries)
    requires forall e :: e in entries ==> e.playerName in fp && fp[e.playerName] == e.position && e.position <= |entries| + 1
    ensures DraftTally(entries, fp, |entries|, maxPosition) == Tally((|entries| * (|entries| + 1)) / 2, 0)
  {
    var n := |entries|;
    ExactScore(entries, fp, n);
    ScoringFacts.RankedDraftValue(entries, n);
    NoLossesWhenAllFound(entries, fp, n, maxPosition);
    TallyScoreIgnoresMax(entries, fp, n, maxPosition);
  }

  /** The score does not depend on the blank-slot position; only the losses do. */
  lemma {:induction false} TallyScoreIgnoresMax(entries: seq<Entry>, fp: map<string, int>, n: nat, maxPosition: int)
    ensures DraftTally(entries, fp, n, maxPosition).currentScore == DraftTally(entries, fp, n, 0).currentScore
  {
    if entries != [] {
      TallyScoreIgnoresMax(entries[..|entries| - 1], fp, n, maxPosition);
    }
  }

  /** The file a new season starts from: n blank slots numbered 1..n. */
  predicate BlankSlots(entries: seq<Entry>)
  {
    forall i :: 0 <= i < |entries| ==> entries[i] == Entry(i + 1, "")
  }

  lemma {:induction false} BlankSlotsTable(entries: seq<Entry>)
    requires BlankSlots(entries)
    ensures NamedCount(entries) == 0 && BlankMax(entries) == |entries|
  {
    if entries != [] {
      var init := entries[..|entries| - 1];
      assert forall i :: 0 <= i < |init| ==> init[i] == entries[i];
      BlankSlotsTable(init);
    }
  }

  /**
   * Scoring against a "Current" final of n blank slots, before anyone is
   * out: a first pick scores n − 1 points, since a missing player counts as
   * finishing at 0, and the points available then exceed the perfect score
   * n(n+1)/2.
   */
  lemma FirstPickBeforeAnyoneIsOut(final: Draft, m: Metadata, name: string)
    requires final.metadata.drafter == CurrentSeason && BlankSlots(final.entries) && |final.entries| >= 2
    requires name != ""
    ensures var n := |final.entries|;
            CmdScore(Draft(m, [Entry(1, name)]), final) == Ok(ScoreResult(n - 1, (n * (n + 1)) / 2 + n - 2))
  {
    var n := |final.entries|;
    var fp := AllPositions(final.entries);
    BlankSlotsTable(final.entries);
    assert name !in Names(final.entries);
    var e := Entry(1, name);
    assert [e][..0] == [];
    assert EntryPoints(e, fp, n) == n - 1;
    assert KnownLoss(e, fp, n, n) == 1;
    assert DraftTally([e], fp, n, n) == Tally(n - 1, 1);
    var perfect := (n * (n + 1)) / 2;
    assert perfect - 0 - (0 - (n - 1)) - 1 == perfect + n - 2;
  }
}
