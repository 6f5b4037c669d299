/**
 * The scoring engine of internal/scorer/scorer.go: `score`, its two
 * calculations `calculateCurrentScore` and `calculatePointsAvailable`,
 * the batch `Scores`, and the helpers `abs` and `max`.
 *
 * Go maps become Dafny maps. A `range` over a map is modelled as a loop
 * that takes the map's values out of a set one at a time, in whatever
 * order; the source only folds them with max, min and set difference,
 * which do not depend on that order.
 */
module Scoring {
  import opened Outcomes
  import opened DraftFile

  datatype ScoreResult = ScoreResult(score: int, pointsAvailable: int)

  /** The final's Drafter value that marks a season still in progress. */
  const CurrentSeason: string := "Current"

  function Abs(x: int): (r: nat)
    ensures r == x || r == -x
  {
    if x < 0 then -x else x
  }

  function Max(a: int, b: int): (r: int)
    ensures r >= a && r >= b && (r == a || r == b)
  {
    if a > b then a else b
  }

  // ---- the final's position table ----

  /** The names that appear in `entries`. */
  function Names(entries: seq<Entry>): set<string>
  {
    set e | e in entries :: e.playerName
  }

  /** No later entry of `entries` carries the name of entry `i`. */
  predicate LastNamed(entries: seq<Entry>, i: nat)
    requires i < |entries|
  {
    forall j :: i < j < |entries| ==> entries[j].playerName != entries[i].playerName
  }

  /**
   * finalPositions: every named final entry mapped to its position; blank
   * entries are skipped (FinalPositionsLast: a later entry overrides an
   * earlier one).
   */
  function FinalPositions(entries: seq<Entry>): (r: map<string, int>)
    ensures r.Keys == Names(entries) - {""}
  {
    if entries == [] then map[]
    else
      var init, last := entries[..|entries| - 1], entries[|entries| - 1];
      assert entries == init + [last];
      var m := FinalPositions(init);
      if last.playerName != "" then m[last.playerName := last.position] else m
  }

  /** A named entry that no later entry renames is what the table holds for that name. */
  lemma {:induction false} FinalPositionsLast(entries: seq<Entry>, i: nat)
    requires i < |entries| && entries[i].playerName != "" && LastNamed(entries, i)
    ensures FinalPositions(entries)[entries[i].playerName] == entries[i].position
  {
    var init, last := entries[..|entries| - 1], entries[|entries| - 1];
    if i < |entries| - 1 {
      assert init[i] == entries[i];
      FinalPositionsLast(init, i);
    }
  }

  // ---- validation ----

  /** The first drafted name that the table does not know, if any. */
  function FirstMissing(entries: seq<Entry>, fp: map<string, int>): (r: Option<string>)
    ensures r.None? <==> forall i :: 0 <= i < |entries| ==> entries[i].playerName in fp
    ensures r.Some? ==> exists i :: 0 <= i < |entries| && entries[i].playerName == r.value &&
                          r.value !in fp && forall k :: 0 <= k < i ==> entries[k].playerName in fp
  {
    if entries == [] then None
    else if entries[0].playerName !in fp then Some(entries[0].playerName)
    else
      var r := FirstMissing(entries[1..], fp);
      assert forall i :: 1 <= i < |entries| ==> entries[i] == entries[1..][i - 1];
      r
  }

  /** When every earlier name is known and the i-th is not, the i-th is the first missing. */
  lemma FirstMissingAt(entries: seq<Entry>, fp: map<string, int>, i: nat)
    requires i < |entries| && entries[i].playerName !in fp
    requires forall k :: 0 <= k < i ==> entries[k].playerName in fp
    ensures FirstMissing(entries, fp) == Some(entries[i].playerName)
  {
    var r := FirstMissing(entries, fp);
    var j :| 0 <= j < |entries| && entries[j].playerName == r.value &&
             r.value !in fp && forall k :: 0 <= k < j ==> entries[k].playerName in fp;
    assert j == i;
  }

  function NotFound(name: string): string
  {
    "player not found in final results: " + name
  }

  // ---- current score ----

  /** Points locked in by one pick: nothing unless its player is eliminated. */
  function EntryScore(e: Entry, fp: map<string, int>, n: nat): (r: nat)
    ensures e.playerName !in fp ==> r == 0
    ensures e.playerName in fp ==> r <= Max(0, n + 1 - e.position)
  {
    if e.playerName in fp then
      Max(0, (n + 1 - e.position) - Abs(e.position - fp[e.playerName]))
    else 0
  }

  /** Sum of EntryScore over the draft. */
  function CurrentScore(entries: seq<Entry>, fp: map<string, int>, n: nat): (r: int)
    ensures r >= 0
  {
    if entries == [] then 0
    else CurrentScore(entries[..|entries| - 1], fp, n) + EntryScore(entries[|entries| - 1], fp, n)
  }

  // ---- points available ----

  /** The picks whose players are not yet eliminated, in draft order. */
  function Remainder(entries: seq<Entry>, fp: map<string, int>): (r: seq<Entry>)
    ensures |r| <= |entries|
  {
    if entries == [] then []
    else
      var init, last := entries[..|entries| - 1], entries[|entries| - 1];
      assert entries == init + [last];
      if last.playerName !in fp then Remainder(init, fp) + [last] else Remainder(init, fp)
  }

  /** The remainder holds exactly the picks whose players the table lacks. */
  lemma {:induction false} RemainderMembers(entries: seq<Entry>, fp: map<string, int>)
    ensures forall e :: e in Remainder(entries, fp) <==> e in entries && e.playerName !in fp
  {
    if entries != [] {
      var init, last := entries[..|entries| - 1], entries[|entries| - 1];
      assert entries == init + [last];
      RemainderMembers(init, fp);
    }
  }

  /** A non-empty set has a member to pick. */
  lemma Member(s: set<int>)
    requires s != {}
    ensures exists x :: x in s
  {
    if forall x :: x !in s {
      assert false;
    }
  }

  /** The largest of the values and 0: Go's `maxPosition` loop started at 0. */
  ghost function SetMax(s: set<int>): (r: int)
    ensures r >= 0 && forall x :: x in s ==> x <= r
    ensures r == 0 || r in s
  {
    if s == {} then 0
    else
      Member(s);
      var x :| x in s;
      var rest := SetMax(s - {x});
      assert forall y :: y in s ==> y == x || y in s - {x};
      Max(x, rest)
  }

  lemma SetMaxIs(s: set<int>, m: int)
    requires m >= 0 && (forall x :: x in s ==> x <= m) && (m == 0 || m in s)
    ensures SetMax(s) == m
  {
  }

  /** The distance from `p` to the nearest member of `s`. */
  ghost function MinDistance(p: int, s: set<int>): (r: nat)
    requires s != {}
    ensures exists q :: q in s && r == Abs(p - q)
    ensures forall q :: q in s ==> r <= Abs(p - q)
  {
    Member(s);
    var q :| q in s;
    if s == {q} then Abs(p - q)
    else
      var rest := MinDistance(p, s - {q});
      assert forall y :: y in s ==> y == q || y in s - {q};
      if Abs(p - q) < rest then Abs(p - q) else rest
  }

  lemma MinDistanceIs(p: int, s: set<int>, q: int)
    requires q in s && forall x :: x in s ==> Abs(p - q) <= Abs(p - x)
    ensures MinDistance(p, s) == Abs(p - q)
  {
  }

  /** The final positions 1..n that no eliminated player holds. */
  function OpenPositions(fp: map<string, int>, n: nat): (r: set<int>)
    ensures forall q :: q in r <==> 1 <= q <= n && q !in fp.Values
  {
    set q | 1 <= q <= n && q !in fp.Values
  }

  /** What the all-eliminated branch accumulates over the draft. */
  datatype Totals = Totals(currentMax: int, currentScore: int, knownLosses: int)

  /** positionValue in the all-eliminated branch: valued by the FINAL position. */
  function FinalValue(e: Entry, fp: map<string, int>, n: nat): int
  {
    if e.playerName in fp then n - fp[e.playerName] + 1 else 0
  }

  /**
   * knownLoss: the whole value when the pick is further from the last
   * claimed position than it is worth, its distance when it is off that
   * position at all, nothing otherwise.
   */
  function KnownLoss(e: Entry, fp: map<string, int>, n: nat, maxPosition: int): int
  {
    if e.playerName in fp then
      var pv := FinalValue(e, fp, n);
      var lossDistance := Abs(e.position - maxPosition);
      if lossDistance > pv then pv
      else if lossDistance > 0 then Abs(e.position - fp[e.playerName])
      else 0
    else 0
  }

  function LegacyTotals(entries: seq<Entry>, fp: map<string, int>, n: nat, maxPosition: int): (r: Totals)
    ensures r.currentScore >= 0
  {
    if entries == [] then Totals(0, 0, 0)
    else
      var t := LegacyTotals(entries[..|entries| - 1], fp, n, maxPosition);
      var e := entries[|entries| - 1];
      var entryScore := if e.playerName in fp then Max(0, FinalValue(e, fp, n) - Abs(e.position - fp[e.playerName])) else 0;
      Totals(t.currentMax + FinalValue(e, fp, n), t.currentScore + entryScore,
             t.knownLosses + KnownLoss(e, fp, n, maxPosition))
  }

  /** perfect − currentMax − currentMiss − knownLosses, unclamped. */
  ghost function AllEliminatedPoints(entries: seq<Entry>, fp: map<string, int>, n: nat): int
  {
    var t := LegacyTotals(entries, fp, n, SetMax(fp.Values));
    (n * (n + 1)) / 2 - t.currentMax - (t.currentMax - t.currentScore) - t.knownLosses
  }

  /** Each survivor's value less its distance to the nearest open position. */
  ghost function SurvivorPoints(survivors: seq<Entry>, open: set<int>, n: nat): int
    requires open != {}
  {
    if survivors == [] then 0
    else
      var p := survivors[|survivors| - 1].position;
      SurvivorPoints(survivors[..|survivors| - 1], open, n) + (n + 1 - p) - MinDistance(p, open)
  }

  ghost function PointsAvailable(entries: seq<Entry>, fp: map<string, int>, n: nat): int
  {
    var remainder := Remainder(entries, fp);
    if remainder == [] then AllEliminatedPoints(entries, fp, n)
    else
      var open := OpenPositions(fp, n);
      if open == {} then 0 else SurvivorPoints(remainder, open, n)
  }

  /** What `score` returns for a draft against a final. */
  ghost function ScoreOf(draft: Draft, final: Draft): Result<ScoreResult>
  {
    var fp := FinalPositions(final.entries);
    var n := |final.entries|;
    var missing := FirstMissing(draft.entries, fp);
    if missing.Some? && final.metadata.drafter != CurrentSeason then Err(NotFound(missing.value))
    else Ok(ScoreResult(CurrentScore(draft.entries, fp, n), PointsAvailable(draft.entries, fp, n)))
  }

  // ---- the methods ----

  /** score: build the table, validate, then run both calculations. */
  method Score(draft: Draft, final: Draft) returns (r: Result<ScoreResult>)
    ensures r == ScoreOf(draft, final)
  {
    var totalPositions := |final.entries|;
    var finalPositions: map<string, int> := map[];
    var i := 0;
    while i < |final.entries|
      invariant 0 <= i <= |final.entries|
      invariant finalPositions == FinalPositions(final.entries[..i])
    {
      var e := final.entries[i];
      if e.playerName != "" {
        finalPositions := finalPositions[e.playerName := e.position];
      }
      assert final.entries[..i + 1][..i] == final.entries[..i];
      i := i + 1;
    }
    assert final.entries[..i] == final.entries;

    i := 0;
    while i < |draft.entries|
      invariant 0 <= i <= |draft.entries|
      invariant final.metadata.drafter != CurrentSeason ==>
                  forall k :: 0 <= k < i ==> draft.entries[k].playerName in finalPositions
    {
      var name := draft.entries[i].playerName;
      if name !in finalPositions && final.metadata.drafter != CurrentSeason {
        FirstMissingAt(draft.entries, finalPositions, i);
        return Err(NotFound(name));
      }
      i := i + 1;
    }
    assert final.metadata.drafter != CurrentSeason ==> FirstMissing(draft.entries, finalPositions).None?;

    var currentScore := CalculateCurrentScore(draft.entries, finalPositions, totalPositions);
    var pointsAvailable := CalculatePointsAvailable(draft.entries, finalPositions, totalPositions);
    r := Ok(ScoreResult(currentScore, pointsAvailable));
  }

  method CalculateCurrentScore(entries: seq<Entry>, fp: map<string, int>, n: nat) returns (s: int)
    ensures s == CurrentScore(entries, fp, n)
  {
    s := 0;
    var i := 0;
    while i < |entries|
      invariant 0 <= i <= |entries|
      invariant s == CurrentScore(entries[..i], fp, n)
    {
      var e := entries[i];
      if e.playerName in fp {
        var distance := Abs(e.position - fp[e.playerName]);
        var positionValue := n + 1 - e.position;
        s := s + Max(0, positionValue - distance);
      }
      assert entries[..i + 1][..i] == entries[..i];
      i := i + 1;
    }
    assert entries[..i] == entries;
  }

  method CalculatePointsAvailable(entries: seq<Entry>, fp: map<string, int>, n: nat) returns (pa: int)
    ensures pa == PointsAvailable(entries, fp, n)
  {
    var remainder := Survivors(entries, fp);
    if |remainder| == 0 {
      assert remainder == [];
      pa := AllEliminated(entries, fp, n);
      return;
    }

    var open := OpenSet(fp, n);
    if |open| == 0 {
      assert open == {};
      return 0;
    }
    pa := SumSurvivors(remainder, open, n);
  }

  /** The survivor loop: each survivor's value less its distance to the nearest open slot. */
  method SumSurvivors(remainder: seq<Entry>, open: set<int>, n: nat) returns (pa: int)
    requires open != {}
    ensures pa == SurvivorPoints(remainder, open, n)
  {
    pa := 0;
    var i := 0;
    while i < |remainder|
      invariant 0 <= i <= |remainder|
      invariant pa == SurvivorPoints(remainder[..i], open, n)
    {
      var survivor := remainder[i];
      var bestDistance := NearestOpen(survivor.position, open);
      var positionValue := n + 1 - survivor.position;
      pa := pa + (positionValue - bestDistance);
      assert remainder[..i + 1][..i] == remainder[..i];
      i := i + 1;
    }
    assert remainder[..i] == remainder;
  }

  /** remainder: the draft entries whose players are not in the table. */
  method Survivors(entries: seq<Entry>, fp: map<string, int>) returns (remainder: seq<Entry>)
    ensures remainder == Remainder(entries, fp)
  {
    remainder := [];
    var i := 0;
    while i < |entries|
      invariant 0 <= i <= |entries|
      invariant remainder == Remainder(entries[..i], fp)
    {
      if entries[i].playerName !in fp {
        remainder := remainder + [entries[i]];
      }
      assert entries[..i + 1][..i] == entries[..i];
      i := i + 1;
    }
    assert entries[..i] == entries;
  }

  /** The legacy aggregate of calculatePointsAvailable, when no pick survives. */
  method AllEliminated(entries: seq<Entry>, fp: map<string, int>, n: nat) returns (pa: int)
    ensures pa == AllEliminatedPoints(entries, fp, n)
  {
    var perfectScore := (n * (n + 1)) / 2;
    var maxPosition := MaxClaimed(fp);
    var knownLosses, currentScore, currentMax := 0, 0, 0;
    var i := 0;
    while i < |entries|
      invariant 0 <= i <= |entries|
      invariant LegacyTotals(entries[..i], fp, n, maxPosition) == Totals(currentMax, currentScore, knownLosses)
    {
      var e := entries[i];
      var positionValue, entryScore, distance, lossDistance, knownLoss := 0, 0, 0, 0, 0;
      if e.playerName in fp {
        var finalPosition := fp[e.playerName];
        distance := Abs(e.position - finalPosition);
        positionValue := n - finalPosition + 1;
        entryScore := Max(0, positionValue - distance);
        lossDistance := Abs(e.position - maxPosition);
        if lossDistance > positionValue {
          knownLoss := positionValue;
        } else if lossDistance > 0 {
          knownLoss := distance;
        }
      }
      currentMax := currentMax + positionValue;
      currentScore := currentScore + entryScore;
      knownLosses := knownLosses + knownLoss;
      assert entries[..i + 1][..i] == entries[..i];
      i := i + 1;
    }
    assert entries[..i] == entries;
    var currentMiss := currentMax - currentScore;
    pa := perfectScore - currentMax - currentMiss - knownLosses;
  }

  /** maxPosition: the largest claimed final position, or 0. */
  method MaxClaimed(fp: map<string, int>) returns (maxPosition: int)
    ensures maxPosition == SetMax(fp.Values)
  {
    maxPosition := 0;
    var rest := fp.Values;
    ghost var seen: set<int> := {};
    while rest != {}
      invariant seen !! rest && seen + rest == fp.Values
      invariant maxPosition == SetMax(seen)
      decreases rest
    {
      Member(rest);
      var pos :| pos in rest;
      if pos > maxPosition {
        maxPosition := pos;
      }
      rest := rest - {pos};
      SetMaxIs(seen + {pos}, maxPosition);
      seen := seen + {pos};
    }
  }

  /** remainingPositionsMap: 1..n, then every claimed position deleted. */
  method OpenSet(fp: map<string, int>, n: nat) returns (open: set<int>)
    ensures open == OpenPositions(fp, n)
  {
    open := {};
    var p := 1;
    while p <= n
      invariant 1 <= p <= n + 1
      invariant forall q :: q in open <==> 1 <= q < p
    {
      open := open + {p};
      p := p + 1;
    }
    var rest := fp.Values;
    ghost var seen: set<int> := {};
    while rest != {}
      invariant seen !! rest && seen + rest == fp.Values
      invariant forall q :: q in open <==> 1 <= q <= n && q !in seen
      decreases rest
    {
      Member(rest);
      var pos :| pos in rest;
      open := open - {pos};
      rest := rest - {pos};
      seen := seen + {pos};
    }
  }

  /** bestDistance: the smallest |p − q| over the open positions q. */
  method NearestOpen(p: int, open: set<int>) returns (bestDistance: int)
    requires open != {}
    ensures bestDistance == MinDistance(p, open)
  {
    bestDistance := -1;
    var rest := open;
    ghost var seen: set<int> := {};
    ghost var nearest: int := 0;
    while rest != {}
      invariant seen !! rest && seen + rest == open
      invariant bestDistance == -1 <==> seen == {}
      invariant seen != {} ==> nearest in seen && bestDistance == Abs(p - nearest)
      invariant forall x :: x in seen ==> bestDistance <= Abs(p - x)
      decreases rest
    {
      Member(rest);
      var q :| q in rest;
      var d := Abs(p - q);
      if bestDistance == -1 || d < bestDistance {
        bestDistance := d;
        nearest := q;
      }
      rest := rest - {q};
      seen := seen + {q};
    }
    MinDistanceIs(p, open, nearest);
  }

  /**
   * Scores: every draft's result, in draft order, or the first draft's
   * error. (The source keys its result map by draft pointer; here the
   * i-th result belongs to the i-th draft.)
   */
  method Scores(drafts: seq<Draft>, final: Draft) returns (r: Result<seq<ScoreResult>>)
    ensures r.Ok? <==> forall i :: 0 <= i < |drafts| ==> ScoreOf(drafts[i], final).Ok?
    ensures r.Ok? ==> |r.value| == |drafts|
    ensures r.Ok? ==> forall i :: 0 <= i < |drafts| ==> ScoreOf(drafts[i], final) == Ok(r.value[i])
    ensures r.Err? ==> exists i :: 0 <= i < |drafts| && ScoreOf(drafts[i], final) == Err(r.message)
                                   && forall k :: 0 <= k < i ==> ScoreOf(drafts[k], final).Ok?
  {
    var results: seq<ScoreResult> := [];
    var i := 0;
    while i < |drafts|
      invariant 0 <= i <= |drafts| && |results| == i
      invariant forall k :: 0 <= k < i ==> ScoreOf(drafts[k], final) == Ok(results[k])
    {
      var result := Score(drafts[i], final);
      if result.Err? {
        return Err(result.message);
      }
      results := results + [result.value];
      i := i + 1;
    }
    r := Ok(results);
  }
}
