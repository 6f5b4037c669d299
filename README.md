# srvivor scoring, name matching and draft fixing, in Dafny

srvivor scores "Survivor" fantasy drafts. A draft is a text file:
- `Key: Value` metadata lines (Drafter, Date, Season);
- a `---` separator;
- one `<position>. <player>` line per pick.

The final-results file has the same format. A draft of n picks is scored against the final:
- a pick drafted at position p is worth `n + 1 − p`;
- once its player is eliminated, the pick locks in that value less its distance from the player's final position, floored at 0;
- "points available" estimates what the picks still in the game can add.

This project models the core of the repository and proves properties of the model:

- **The draft reader.** `readDraft` in internal/scorer/scorer.go is module `DraftFile`; cmd/main.go and main.go hold identical copies. The reader is modelled over the lines a scanner yields. A serializer is proved to round-trip through it.
- **The scorers.**
  - internal/scorer/scorer.go: `score`, `calculateCurrentScore`, `calculatePointsAvailable` and `Scores`, in `Scoring`, with the properties in `ScoringFacts`.
  - cmd/main.go's older `score`: `LegacyCmdScoring`.
  - main.go's original `score`: `OriginalScoring`.

  The methods keep the source's loops and are proved equal to specification functions. The specification functions are then proved against the repository's test scenarios and general laws:
  - the failure condition;
  - scores never negative;
  - a perfect draft;
  - start of season.
- **The name matcher.** internal/matcher/normalize.go and internal/matcher/matcher.go are modules `Normalizer`, `Levenshtein` and `Matcher`, plus the test values in `MatcherExamples`. `MatchContestant` collects candidates, sorts an array of them in place and applies the 0.70 threshold. The proofs show it returns the first contestant with the highest score.
- **The roster validator.** `validateRoster` in apps/cli/internal/roster/loader.go is module `Roster`.
- **The `fix-drafts` command.** cli/cmd/fix_drafts.go is module `DraftFixer`. The loop rewrites an array of lines in place. The regular expression `^(\d+)\s*(.+)$` is modelled as a leftmost-first match and proved to be that match.
- **The `score` command's logic.** cli/cmd/score.go is module `Report`:
  - flag checks;
  - wildcard expansion;
  - the leaderboard sort (an in-place array sort against the source's comparator);
  - draft validation;
  - the Discord message text;
  - the empty final file.

Go `float64` scores are modelled as `real`. Go `int` values are unbounded integers; `strconv.Atoi` keeps its 64-bit range check. Strings are `seq<char>`, with ASCII case and white-space rules. A Go map the source iterates is modelled as a set or a map, because the source's results do not depend on iteration order.

## Model

| member | source | states |
|---|---|---|
| DraftFile.ParseMetadataLine | internal/scorer/scorer.go:263-278 | a metadata line is accepted exactly when it contains ": " |
| DraftFile.ParseEntryLine | internal/scorer/scorer.go:279-299 | an entry line is accepted exactly when it splits at its first ". " and Atoi reads a positive position before it; the entry is that position, at most 2^63−1, and the trimmed rest |
| DraftFile.NonPositiveRejected | internal/scorer/scorer.go:286-293 | a position Atoi reads as zero or less is rejected, whatever name follows |
| DraftFile.ZeroAndNegativeRejected | internal/scorer/scorer.go:290-292 | "0. x" and "-1. x" are rejected |
| DraftFile.EmptyNameEntry | internal/scorer/scorer.go:281-298 | "1. " reads as position 1 with an empty name |
| Text.AtoiNoDot | internal/scorer/scorer.go:281-286 | a string Atoi accepts holds no '.', so the split at ". " cannot cut inside a position |
| DraftFile.ReadDraft | internal/scorer/scorer.go:248-307 | the reader's loop returns exactly the fold of one step per line, stopping at the first error |
| DraftFile.ReadLine | internal/scorer/scorer.go:257-300 | one pass of the loop is the step function: separator, metadata line or entry line |
| DraftFile.ParseLinesNext | internal/scorer/scorer.go:257-300 | reading one more line is one more step, unless an error already happened |
| DraftFile.ErrorStops | internal/scorer/scorer.go:266-293 | once a prefix fails, the whole file fails with the same error |
| DraftFile.ParseContents | internal/scorer/scorer.go:248-307 | on success the mode is entry mode exactly when a `---` was read, the entries are the parsed entry lines in file order, and each metadata field is the value of its last line |
| DraftFile.ParseMode | internal/scorer/scorer.go:258-261 | the reader ends in metadata mode exactly when no `---` occurs |
| DraftFile.ParseEntries | internal/scorer/scorer.go:279-299 | the entries are exactly the lines after the first `---` (other than `---`), parsed, in order |
| DraftFile.ParseMeta | internal/scorer/scorer.go:263-278 | each metadata field is the trimmed value of the last line with that key, or "" |
| DraftFile.StepEffect | internal/scorer/scorer.go:257-300 | one step switches mode only at `---`, appends exactly one entry in entry mode and changes metadata only in metadata mode |
| DraftFile.ParseSucceedsIff | internal/scorer/scorer.go:248-307 | the reader succeeds exactly when every line is accepted in the mode it is read in |
| DraftFile.ReadEntryLine | internal/scorer/scorer.go:279-299 | the `<pos>. <name>` line of an entry with a positive 64-bit position and a trimmed name reads back as that entry |
| DraftFile.ReadDrafterLine | internal/scorer/scorer.go:271-274 | `Drafter: v` sets only the drafter |
| DraftFile.ReadDateLine | internal/scorer/scorer.go:271-276 | `Date: v` sets only the date |
| DraftFile.ReadSeasonLine | internal/scorer/scorer.go:271-278 | `Season: v` sets only the season |
| DraftFile.ReadHeader | internal/scorer/scorer.go:258-278 | the three metadata lines and `---` read back as the metadata, in entry mode |
| DraftFile.ReadEntries | internal/scorer/scorer.go:279-299 | a header followed by entry lines reads back as exactly those entries |
| DraftFile.StepEntry | internal/scorer/scorer.go:295-298 | in entry mode an entry's line appends exactly that entry |
| DraftFile.RoundTrip | internal/scorer/scorer.go:248-307 | reading back a written well-formed draft gives the same draft |
| Text.SplitOnce | internal/scorer/scorer.go:265-268 | `strings.SplitN(s, sep, 2)`: the two parts rejoin with the separator to the input |
| Text.SplitOnceFirst | internal/scorer/scorer.go:265-268 | the split is at the first occurrence, and it fails only when the separator does not occur |
| Text.Atoi | internal/scorer/scorer.go:286-289 | `strconv.Atoi`: a result lies in the 64-bit range, and is non-negative for a string of digits |
| Text.AtoiItoa | internal/scorer/scorer.go:286-289 | Atoi reads back what Itoa writes, for every value up to 2^63−1 |
| Text.ToLower | internal/matcher/normalize.go:21 | lower-casing keeps the length and maps every character on its own |
| Text.TrimSpace | internal/scorer/scorer.go:270 | the result has no white space at either end |
| Text.ReplaceFirst | cli/cmd/fix_drafts.go:179 | `strings.Replace(s, pat, repl, 1)`: the first occurrence of `pat` replaced, or `s` unchanged when there is none |
| Scoring.Abs | internal/scorer/scorer.go:241-246 | the absolute value is x or −x and never negative |
| Scoring.Max | internal/scorer/scorer.go:222-227 | the maximum bounds both arguments and is one of them |
| Scoring.FinalPositions | internal/scorer/scorer.go:52-64 | the table's keys are exactly the non-blank names of the final |
| Scoring.FinalPositionsLast | internal/scorer/scorer.go:57-60 | a named entry that no later entry renames gives its name's position |
| Scoring.FirstMissing | internal/scorer/scorer.go:69-77 | nothing is missing exactly when every pick is in the table; otherwise the first pick that is not |
| Scoring.FirstMissingAt | internal/scorer/scorer.go:69-77 | the first pick missing from the table is the one reported |
| Scoring.EntryScore | internal/scorer/scorer.go:103-112 | a pick scores nothing until eliminated, and then at most its value n + 1 − p |
| Scoring.CalculateCurrentScore | internal/scorer/scorer.go:99-115 | the loop returns the sum of the picks' locked-in points |
| Scoring.CurrentScore | internal/scorer/scorer.go:99-115 | the current score is never negative |
| Scoring.Survivors | internal/scorer/scorer.go:127-132 | the loop keeps exactly the remainder: the picks whose players are not eliminated |
| Scoring.Remainder | internal/scorer/scorer.go:127-132 | the remainder is no longer than the draft |
| Scoring.RemainderMembers | internal/scorer/scorer.go:127-132 | a pick is in the remainder exactly when its player is missing from the table |
| Scoring.SetMax | internal/scorer/scorer.go:141-146 | maxPosition bounds every claimed position and is one of them, or 0 |
| Scoring.MaxClaimed | internal/scorer/scorer.go:141-146 | the loop computes that maximum |
| Scoring.MinDistance | internal/scorer/scorer.go:203-209 | the distance to the nearest open position is attained and is the least |
| Scoring.NearestOpen | internal/scorer/scorer.go:203-209 | the loop computes that distance |
| Scoring.OpenPositions | internal/scorer/scorer.go:174-187 | the open positions are exactly 1..n minus the claimed ones |
| Scoring.OpenSet | internal/scorer/scorer.go:174-187 | the map-and-delete loop computes exactly those positions |
| Scoring.LegacyTotals | internal/scorer/scorer.go:148-167 | the all-eliminated loop's current total is never negative |
| Scoring.AllEliminated | internal/scorer/scorer.go:137-172 | the all-eliminated branch returns perfect − currentMax − currentMiss − knownLosses |
| Scoring.SumSurvivors | internal/scorer/scorer.go:194-217 | the survivor loop adds each survivor's value less its distance to the nearest open position |
| Scoring.CalculatePointsAvailable | internal/scorer/scorer.go:125-218 | the three branches: all picks eliminated, no open position (0), and the survivor sum |
| Scoring.Score | internal/scorer/scorer.go:43-89 | score builds the table, fails on a pick missing from a final not named "Current", and otherwise returns both calculations |
| Scoring.Scores | internal/scorer/scorer.go:229-239 | every draft's own result in draft order, or the first failing draft's error |
| ScoringFacts.CurrentScoreSnoc | internal/scorer/scorer.go:101-113 | one more pick adds exactly its own locked-in points |
| ScoringFacts.RemainderSnoc | internal/scorer/scorer.go:127-132 | one more pick extends the remainder by itself when it survives |
| ScoringFacts.SurvivorPointsSnoc | internal/scorer/scorer.go:194-217 | one more survivor adds its value less its distance |
| ScoringFacts.MinDistanceToRange | internal/scorer/scorer.go:203-209 | when the open positions are a range lo..hi, the nearest distance is the distance to that range |
| ScoringFacts.SurvivorPointsRange | internal/scorer/scorer.go:194-217 | with a range of open positions the survivor sum has a closed form |
| ScoringFacts.ScoreFailsIff | internal/scorer/scorer.go:52-77 | score fails exactly when the final is not "Current" and some pick is not a named final entry (a blank pick never is), and the error names the first such pick; a "Current" final never fails |
| ScoringFacts.NothingEliminatedScoresZero | internal/scorer/scorer.go:99-115 | with no pick eliminated the current score is 0 |
| ScoringFacts.CurrentScoreAtMostDraftValue | internal/scorer/scorer.go:103-112 | the current score never exceeds the draft's total value |
| ScoringFacts.AllSurvive | internal/scorer/scorer.go:127-132 | with nobody eliminated the remainder is the whole draft |
| ScoringFacts.SurvivorPointsInOpen | internal/scorer/scorer.go:194-217 | survivors sitting on open positions add their whole value |
| ScoringFacts.DraftValuePositive | internal/scorer/scorer.go:194-217 | a non-empty draft of positions 1..n is worth at least one point per pick |
| ScoringFacts.StartOfSeason | apps/cli/internal/scorer/scorer_test.go:112-120 | before anyone is out the score is 0 and the points available are the whole draft value |
| ScoringFacts.RankedDraftValue | internal/scorer/scorer.go:139 | a ranked draft of k picks is worth Σ (n + 1 − p) = k(2n + 1 − k)/2 |
| ScoringFacts.ExactTotals | internal/scorer/scorer.go:148-167 | picks eliminated exactly where drafted: currentMax = currentScore = draft value, no known loss |
| ScoringFacts.CurrentScoreExact | internal/scorer/scorer.go:99-115 | picks eliminated exactly where drafted lock in their whole value |
| ScoringFacts.PerfectDraft | apps/cli/internal/scorer/scorer_test.go:100-109 | a perfect draft scores n(n+1)/2 with 0 points available |
| ScoringFacts.SingleElimination | apps/cli/internal/scorer/scorer_test.go:72-94 | only the third pick out, at 3: score 1, points available 5 |
| ScoringFacts.SingleEliminationScore | apps/cli/internal/scorer/scorer_test.go:72-77 | the score of that scenario is 1 |
| ScoringFacts.SingleEliminationAvailable | apps/cli/internal/scorer/scorer_test.go:87-94 | the points available in that scenario are 5 |
| ScoringFacts.OnlyThirdOut | internal/scorer/scorer.go:174-187 | with only position 3 claimed of 3, positions 1 and 2 are open |
| ScoringFacts.FirstTwoSurvive | internal/scorer/scorer.go:194-217 | survivors at 1 and 2 on open 1..2 add 3 + 2 |
| ScoringFacts.NoRemainingPositions | apps/cli/internal/scorer/scorer_test.go:146-155 | every position claimed by others: nothing available |
| ScoringFacts.NegativeContribution | apps/cli/internal/scorer/scorer_test.go:157-172 | positions 3..5 claimed by others: 9 points available |
| ScoringFacts.Week4Current | test_analysis/main.go:33-36 | the week-4 draft scores 8 |
| ScoringFacts.Week4Survivors | apps/cli/internal/scorer/scorer_test.go:41-53 | the week-4 survivors are Tom, Cosmo, Elaine and Curly, in draft order |
| ScoringFacts.Week4Open | apps/cli/internal/scorer/scorer_test.go:41-53 | the week-4 open positions are 1..4 |
| ScoringFacts.Week4Available | apps/cli/internal/scorer/scorer_test.go:60 | the week-4 points available are 13 |
| ScoringFacts.RemainderAppend | internal/scorer/scorer.go:127-132 | the remainder of a concatenation is the concatenation of the remainders |
| LegacyCmdScoring.AllPositions | cmd/main.go:173-178 | the table's keys are every final name, the blank name included |
| LegacyCmdScoring.AllPositionsLast | cmd/main.go:175-178 | an entry no later entry renames gives its name's position |
| LegacyCmdScoring.NamedCount | cmd/main.go:180-181 | the count of eliminated players is at most the final's length |
| LegacyCmdScoring.BlankMax | cmd/main.go:182-186 | the last blank slot's position is never negative |
| LegacyCmdScoring.BlankMaxBounds | cmd/main.go:182-186 | maxPosition bounds every blank slot's position and is one of them, or 0 |
| LegacyCmdScoring.EntryPoints | cmd/main.go:195-208 | a pick eliminated where drafted scores its whole value |
| LegacyCmdScoring.DraftTally | cmd/main.go:193-245 | the accumulated current score is never negative |
| LegacyCmdScoring.CmdScore | cmd/main.go:164-263 | a result's score and points available are never negative (the clamp) |
| LegacyCmdScoring.ReadFinal | cmd/main.go:173-187 | the final loop computes the table, the named count and the last blank slot |
| LegacyCmdScoring.Score | cmd/main.go:164-263 | the method returns exactly CmdScore |
| LegacyCmdScoring.TallyDraft | cmd/main.go:193-245 | the draft loop fails at the first missing pick unless the final is "Current", and otherwise accumulates the tally |
| LegacyCmdScoring.TallyPick | cmd/main.go:195-243 | the loop body computes one pick's points and known loss |
| LegacyCmdScoring.DraftTallySnoc | cmd/main.go:193-245 | one more pick adds its points and its known loss |
| LegacyCmdScoring.Scores | cmd/main.go:265-275 | every draft's result in draft order, or the first error |
| LegacyCmdScoring.CmdScoreFailsIff | cmd/main.go:197-204 | score fails exactly when the final is not "Current" and some pick's name, the blank name included, is not a final name |
| LegacyCmdScoring.NoLossesWhenAllFound | cmd/main.go:222-243 | a known loss is charged only for a pick missing from the table |
| LegacyCmdScoring.ExactScore | cmd/main.go:195-208 | picks eliminated exactly where drafted score the whole draft value |
| LegacyCmdScoring.AllNamed | cmd/main.go:180-181 | distinctly named finals count every entry as eliminated |
| LegacyCmdScoring.PerfectDraft | cmd/main.go:164-263 | a final equal to a ranked draft of distinct names scores n(n+1)/2 with 0 available |
| LegacyCmdScoring.PerfectTable | cmd/main.go:173-178 | in that case every pick is in the table at its own position |
| LegacyCmdScoring.PerfectTally | cmd/main.go:193-245 | in that case the tally is n(n+1)/2 and no loss |
| LegacyCmdScoring.TallyScoreIgnoresMax | cmd/main.go:207-208 | the score does not depend on the last blank slot; only losses do |
| LegacyCmdScoring.BlankSlotsTable | cmd/main.go:173-187 | a final of n blank slots has no eliminated player and maxPosition n |
| LegacyCmdScoring.FirstPickBeforeAnyoneIsOut | cmd/main.go:164-263 | against n blank slots a first pick scores n − 1 and the points available exceed the perfect score |
| OriginalScoring.Score | main.go:130-156 | the method returns exactly the specification: the first missing pick, or the sum of points |
| OriginalScoring.SumPicks | main.go:141-153 | the draft loop returns the first missing pick's error or the total |
| OriginalScoring.OriginalScoreFailsIff | main.go:141-146 | score fails exactly when some pick, blank included, names no final entry; a "Current" final is no exception |
| OriginalScoring.ExactTotal | main.go:149-152 | picks finishing where drafted score the draft value |
| OriginalScoring.PerfectDraft | main.go:130-156 | a perfect draft of n distinct names scores n(n+1)/2 |
| OriginalScoring.LastPositionWins | main.go:136-139 | a repeated final name takes its last position |
| OriginalScoring.NegativeTotal | main.go:148-152 | nothing floors a pick's points: a draft can total −1 |
| Roster.CanonicalsMembers | apps/cli/internal/roster/loader.go:42-51 | the canonical-name set holds exactly the contestants' canonical names |
| Roster.ValidateRoster | apps/cli/internal/roster/loader.go:33-59 | the method returns exactly the specification's first error, or none |
| Roster.ValidIff | apps/cli/internal/roster/loader.go:33-59 | no error exactly for a positive season, some contestants, non-empty canonical and first names, and distinct canonical names |
| Roster.FromNoneIff | apps/cli/internal/roster/loader.go:43-56 | the contestant loop finds no error exactly when every contestant passes |
| Roster.FromFirstFault | apps/cli/internal/roster/loader.go:43-56 | a loop error is that of the first contestant that fails |
| Roster.CheckOrder | apps/cli/internal/roster/loader.go:34-56 | season first, then emptiness, then the first failing contestant |
| Roster.CanonicalsSame | apps/cli/internal/roster/loader.go:42-51 | the set depends only on the canonical names |
| Roster.FromSame | apps/cli/internal/roster/loader.go:43-56 | the loop depends only on canonical and first names |
| Roster.IgnoresLastAndNickname | apps/cli/internal/roster/loader.go:43-56 | rosters that differ only in last names and nicknames validate alike |
| Roster.DuplicateReported | shared/roster/roster_test.go:139-150 | two contestants with one canonical name report the second as a duplicate |
| Levenshtein.Distance | internal/matcher/matcher.go:141-148 | the edit distance is at most the longer length and at least the length difference |
| Levenshtein.Steps | internal/matcher/matcher.go:141-148 | the distance is at most each of the three edit moves |
| Levenshtein.ZeroIff | internal/matcher/matcher.go:141-148 | the distance is 0 exactly between equal strings |
| Levenshtein.Symmetric | internal/matcher/matcher.go:141-148 | the distance is symmetric |
| Levenshtein.SharedPrefix | internal/matcher/matcher.go:141-148 | a shared prefix costs nothing |
| Levenshtein.CountBound | internal/matcher/matcher.go:141-148 | each edit changes the count of any set of letters by at most one |
| Levenshtein.FuzzyMatch | internal/matcher/matcher.go:141-148 | fuzzyMatch lies in [0, 1] |
| Levenshtein.FuzzyExactIff | internal/matcher/matcher.go:141-148 | similarity 1.0 exactly for equal strings |
| Levenshtein.FuzzySymmetric | internal/matcher/matcher.go:141-148 | similarity is symmetric |
| Levenshtein.FuzzyDisjointLetters | apps/cli/internal/matcher/matcher_test.go:143 | "a" against "b" scores 0 |
| Levenshtein.KristenKristina | apps/cli/internal/matcher/matcher_test.go:139 | "kristen" against "kristina": distance 2, similarity 0.75 |
| Normalizer.StripQuotes | internal/matcher/normalize.go:16-19 | quote removal keeps only non-quote characters of the input |
| Normalizer.CollapseSpaces | internal/matcher/normalize.go:23 | collapsing is empty only for empty input and keeps a non-space first character |
| Normalizer.CollapseSpacesChars | internal/matcher/normalize.go:23 | collapsing adds only ' ' and keeps no other white space |
| Normalizer.CollapseSpacesSingle | internal/matcher/normalize.go:23 | the result is single-spaced |
| Normalizer.CollapseSpacesFixed | internal/matcher/normalize.go:23 | a single-spaced string has nothing to collapse |
| Normalizer.Normalize | internal/matcher/normalize.go:12-25 | the result is no longer than the input, quote-free, without capitals and single-spaced |
| Normalizer.NormalizeFixed | internal/matcher/normalize.go:12-25 | an already normalised string is its own normal form |
| Normalizer.QuotedLeadingSpace | internal/matcher/normalize.go:14-19 | trimming comes before quote removal, so `" x"` in quotes normalises to " x", which is not normalised |
| Normalizer.TwoWords | internal/matcher/normalize.go:12-25 | two padded words with any gap normalise to the lower-cased words joined by one space |
| Normalizer.OneWord | internal/matcher/normalize.go:12-25 | a single word of letters normalises to its lower case |
| Normalizer.HelloWorld | apps/cli/internal/matcher/matcher_test.go:16 | "  Hello World  " normalises to "hello world" |
| Normalizer.MultipleSpaces | apps/cli/internal/matcher/matcher_test.go:21 | "  multiple   spaces  " normalises to "multiple spaces" |
| Normalizer.EmptyName | apps/cli/internal/matcher/matcher_test.go:20 | "" normalises to "" |
| Matcher.WordScore | internal/matcher/matcher.go:79-89 | the word loop gives 0.95 exactly when some word is the canonical name or the nickname |
| Matcher.CalculateMatchScore | internal/matcher/matcher.go:65-138 | the method returns exactly the specification score |
| Matcher.ApplyRules | internal/matcher/matcher.go:96-135 | the rules after the word loop fold into the running maximum in the source's order |
| Matcher.ComponentRules | internal/matcher/matcher.go:96-104 | the exact first- and last-name rules |
| Matcher.FullNameRules | internal/matcher/matcher.go:106-118 | the full-name rules, only with a last name |
| Matcher.SimilarityRules | internal/matcher/matcher.go:120-135 | the weighted similarities against canonical, nickname, first and last name |
| Matcher.ScoreFromParts | internal/matcher/matcher.go:79-135 | the word maximum folded through the rules is the score |
| Matcher.TermsBelowOne | internal/matcher/matcher.go:79-135 | every candidate term is at most 1, and below 1 unless the input is the canonical form |
| Matcher.ScoreWithBounds | internal/matcher/matcher.go:65-138 | the score lies in [0, 1] and is 1.0 exactly for the canonical form |
| Matcher.ScoreBounds | internal/matcher/matcher.go:65-138 | calculateMatchScore lies in [0, 1] |
| Matcher.ExactIff | internal/matcher/matcher.go:68-71 | calculateMatchScore is 1.0 exactly when the input is the normalised canonical name |
| Matcher.ScoreIsBestTerm | internal/matcher/matcher.go:79-135 | past the exact rules the score bounds every term and is one of them, or 0 |
| Matcher.RuleBoundsScore | internal/matcher/matcher.go:96-135 | each rule that applies bounds the score from below |
| Matcher.WordBoundsScore | internal/matcher/matcher.go:79-89 | a word hit scores at least 0.95 |
| Matcher.FirstMax | internal/matcher/matcher.go:41-50 | the chosen candidate's index is in range |
| Matcher.FirstMaxIs | internal/matcher/matcher.go:41-50 | it is a highest score and every earlier candidate scores strictly less |
| Matcher.CandidatesSound | internal/matcher/matcher.go:26-35 | every candidate is a positive score at its position, positions increasing |
| Matcher.CandidatesComplete | internal/matcher/matcher.go:26-35 | every positive score is a candidate |
| Matcher.BestOf | internal/matcher/matcher.go:41-50 | the chosen candidate has the highest score of all, and every position before it scores strictly less |
| Matcher.NoCandidatesIff | internal/matcher/matcher.go:37-39 | no candidate exactly when every score is 0 |
| Matcher.MatchContestant | internal/matcher/matcher.go:22-62 | the method returns exactly the specification outcome |
| Matcher.CollectCandidates | internal/matcher/matcher.go:26-35 | the loop collects exactly the positive scores with their positions |
| Matcher.PickBest | internal/matcher/matcher.go:41-62 | sort, threshold and type give the specification's choice |
| Matcher.SortByScore | internal/matcher/matcher.go:41-48 | the in-place sort is a permutation, descending, with the first highest candidate at the front |
| Matcher.SwapInMax | internal/matcher/matcher.go:41-48 | one pass moves the first highest of the rest into place |
| Matcher.ChooseOf | internal/matcher/matcher.go:37-59 | no match exactly for all-zero scores, a match exactly when some score reaches 0.70, and a match is the first highest |
| Matcher.ScoresInRange | internal/matcher/matcher.go:26-35 | score i is contestant i's score and lies in [0, 1] |
| Matcher.MatchedIsBest | internal/matcher/matcher.go:22-62 | a match is the first contestant with the highest score, at least 0.70, typed by its band |
| Matcher.NoMatchIff | internal/matcher/matcher.go:37-39 | "no match found" exactly when every contestant scores 0 |
| Matcher.MatchedIff | internal/matcher/matcher.go:52-55 | a match exactly when some contestant reaches the threshold |
| Matcher.BelowThresholdIsBest | internal/matcher/matcher.go:52-55 | the below-threshold error reports the highest score, positive and under 0.70 |
| Matcher.MatchTypeOfMatch | internal/matcher/matcher.go:57-59 | a match is never "low confidence", and is "exact" exactly for the canonical form |
| Matcher.MatchTypeBands | internal/matcher/matcher.go:151-165 | each of the five names is given for exactly its band of scores |
| MatcherExamples.SophieSForms | apps/cli/internal/matcher/matcher_test.go:105-111 | the test contestant normalises to "sophie s", "sophie", "stevens", "sophie stevens" and "stevens sophie" |
| MatcherExamples.ShapeOfForms | apps/cli/internal/matcher/matcher_test.go:105-111 | those names have the lengths and letters the scores depend on |
| MatcherExamples.SophieFirstName | apps/cli/internal/matcher/matcher_test.go:118 | "sophie" scores 0.85 |
| MatcherExamples.StevensLastName | apps/cli/internal/matcher/matcher_test.go:119 | "stevens" scores 0.85 |
| MatcherExamples.SophieStevensFullName | apps/cli/internal/matcher/matcher_test.go:120 | "sophie stevens" scores 0.9 |
| MatcherExamples.StevensSophieReversed | apps/cli/internal/matcher/matcher_test.go:121 | "stevens sophie" scores 0.9 |
| MatcherExamples.SophiTypo | apps/cli/internal/matcher/matcher_test.go:122 | "sophi" scores 2/3 |
| MatcherExamples.DroppedLastLetter | apps/cli/internal/matcher/matcher_test.go:140 | "sophie" against "sophi" is 5/6 similar |
| MatcherExamples.ScoreAtMost | internal/matcher/matcher.go:79-135 | with no word hit, a bound on every applying rule bounds the score |
| DraftFixer.EntrySplit | cli/cmd/fix_drafts.go:126 | the regular expression's cut leaves a non-empty digit group and a non-empty rest |
| DraftFixer.EntrySplitIsPattern | cli/cmd/fix_drafts.go:126 | the cut is the leftmost-first match of `^(\d+)\s*(.+)$`: none when no split exists, otherwise the greediest split |
| DraftFixer.EntryMatch | cli/cmd/fix_drafts.go:142-145 | the groups are a non-empty digit string and a non-empty name |
| DraftFixer.DigitsOnly | cli/cmd/fix_drafts.go:126 | "12" matches as position "1" and name "2" |
| DraftFixer.CleanNameTrims | cli/cmd/fix_drafts.go:152-156 | the cleaned name is the chain of TrimSpace, TrimLeft(". )"), TrimSpace and Trim(`"`) |
| DraftFixer.ReadEntry | cli/cmd/fix_drafts.go:142-159 | a read entry has a non-empty name and a 64-bit position |
| DraftFixer.ReadEntryOccurs | cli/cmd/fix_drafts.go:152-179 | the cleaned name occurs in the raw line, so the replacement always finds it |
| DraftFixer.FixEntryCases | cli/cmd/fix_drafts.go:161-184 | as written: skipped lines stay; a correction is never an error and replaces the name's first occurrence in the raw line; otherwise the line ends up formatted |
| DraftFixer.IntendedFixEntryCases | cli/cmd/fix_drafts.go:161-184 | the corrected fix: the same outcomes, except that a correction writes `<pos>. <canonical>` |
| DraftFixer.PastSeparatorIff | cli/cmd/fix_drafts.go:132-135 | the loop is in entry mode exactly after a `---` |
| DraftFixer.Fix | cli/cmd/fix_drafts.go:128-185 | the loop keeps the number of lines; each line gets the source's fix (FixPointwise) |
| DraftFixer.FixLines | cli/cmd/fix_drafts.go:128-185 | the in-place loop leaves the lines and counters of the fold `Fix`, whose entry lines get the source's raw-line replacement |
| DraftFixer.FixLineAt | cli/cmd/fix_drafts.go:131-184 | one pass: `---` ends metadata mode, metadata lines are skipped, an entry line gets FixEntry (a correction replaces the name's first occurrence in the raw line), and only line i changes |
| DraftFixer.FixEntryAt | cli/cmd/fix_drafts.go:142-184 | an entry line is rewritten in place exactly as FixEntry says: a correction replaces the name in the raw line; only line i changes |
| DraftFixer.FixReadAt | cli/cmd/fix_drafts.go:150-184 | the same, once the line has been read: the result is FixRead of the original line, a correction being `strings.Replace(line, name, canonical, 1)` |
| DraftFixer.FixSnoc | cli/cmd/fix_drafts.go:128-185 | one more line extends the fold by that line's fix |
| DraftFixer.FixDraft | cli/cmd/fix_drafts.go:108-199 | a failed read counts one error; the lines the source's fix produces are written only outside a dry run and only when something changed; a failed write counts one more error |
| DraftFixer.FixPointwise | cli/cmd/fix_drafts.go:128-185 | each output line is the source's fix of the input line at the same place, in the mode the lines before it set |
| DraftFixer.KeepsHeader | cli/cmd/fix_drafts.go:131-139 | the line count is kept, and the lines before the first `---` and every `---` are kept verbatim |
| DraftFixer.UnmodifiedUnchanged | cli/cmd/fix_drafts.go:187-196 | nothing marked modified means nothing changed, so skipping the write loses nothing |
| DraftFixer.FixLineBasics | cli/cmd/fix_drafts.go:161-184 | an entry line's fix is FixRead of its read entry; an unchanged line is kept and a correction is never an error |
| DraftFixer.FixReadBasics | cli/cmd/fix_drafts.go:161-184 | FixRead, the source's fix of a read line, keeps an unchanged line and never counts a correction as an error |
| DraftFixer.CountsBound | cli/cmd/fix_drafts.go:169-184 | corrections plus errors never exceed the number of lines |
| DraftFixer.ReadParenLine | cli/cmd/fix_drafts.go:142-159 | "1)Sophi" reads as position 1, name "Sophi" |
| DraftFixer.ReplaceInParenLine | cli/cmd/fix_drafts.go:179 | replacing "Sophi" in "1)Sophi" keeps the parenthesis |
| DraftFixer.NoDotNoEntry | internal/scorer/scorer.go:281-284 | a line without `.` is never a readable entry line |
| DraftFixer.CorrectionKeepsBadFormat | cli/cmd/fix_drafts.go:177-184 | as written, "1)Sophi" corrected to "Sophi B" becomes "1)Sophi B", which the reader rejects |
| DraftFixer.ParenFixRejected | internal/scorer/scorer.go:281-284 | "1)Sophi B" fails to parse as an entry |
| DraftFixer.IntendedCorrectionReads | cli/cmd/fix_drafts.go:161-184 | with the corrected fix, a corrected line reads back as the entry at the same position naming the canonical contestant |
| DraftFixer.AgreeOnFormattedLines | cli/cmd/fix_drafts.go:177-184 | on lines already in `<pos>. <name>` form the code as written and the corrected fix agree |
| DraftFixer.ReplaceAfterPosition | cli/cmd/fix_drafts.go:179 | replacing such a name in `<digits>. <name>` gives `<digits>. <replacement>` |
| DraftFixer.FirstOccurrence | cli/cmd/fix_drafts.go:179 | such a name first occurs right after the ". " |
| DraftFixer.CorrectionIsCanonical | cli/cmd/fix_drafts.go:169-181 | with the matcher MatchContestant gives over the season's roster, a corrected line's new name is a canonical name of that roster |
| DraftFixer.ExpandWildcard | cli/cmd/fix_drafts.go:74-88 | the wildcard loop gives every match's stem except "final", in order |
| DraftFixer.DraftersOfMembers | cli/cmd/fix_drafts.go:81-87 | a drafter is exactly the stem of some match other than "final" |
| Report.StrLessIsLexicographic | cli/cmd/score.go:205 | Go's string `<` is the lexicographic order with a proper prefix first |
| Report.StrLessIrreflexive | cli/cmd/score.go:205 | no string is less than itself |
| Report.StrLessTransitive | cli/cmd/score.go:205 | the string order is transitive |
| Report.StrLessTotal | cli/cmd/score.go:205 | two different strings are ordered one way, never both |
| Report.BeforeIrreflexive | cli/cmd/score.go:196-206 | no standing comes before itself |
| Report.BeforeTransitive | cli/cmd/score.go:196-206 | the comparator is transitive |
| Report.Incomparable | cli/cmd/score.go:196-206 | two standings tie exactly when score, points available and drafter are equal |
| Report.SortedReads | cli/cmd/score.go:195-206 | a sorted board reads by score, then points available, then name, descending, descending, ascending |
| Report.Least | cli/cmd/score.go:196-206 | the index found is one nothing in the rest comes before |
| Report.SwapLeast | cli/cmd/score.go:196-206 | swapping it into place extends the sorted, settled prefix and keeps the multiset |
| Report.SortStandings | cli/cmd/score.go:196-206 | the in-place sort leaves the standings sorted by the comparator and a permutation of the input |
| Report.Leaderboard | cli/cmd/score.go:189-206 | an error exactly when some draft fails to score, and then that draft's error; otherwise every draft with its own result, sorted for the leaderboard |
| Report.OffendersMembers | cli/cmd/score.go:296-300 | a name is reported exactly when some entry carries it and it is non-blank and not canonical |
| Report.OffendersEmpty | cli/cmd/score.go:296-302 | validation passes exactly when no entry offends; blank names never do |
| Report.OffendersCount | cli/cmd/score.go:296-300 | one name is reported per offending entry |
| Report.OffendersAppend | cli/cmd/score.go:296-300 | names are reported in entry order |
| Report.Complaints | cli/cmd/score.go:298-299 | one complaint per offending name |
| Report.ValidateDraft | cli/cmd/score.go:294-313 | it fails exactly when some non-blank name is not canonical, and prints one complaint per such entry, their count, and the fix-drafts suggestion as the source formats it (`-s %!d(string=<season>)`) |
| Report.FirstInvalid | cli/cmd/score.go:284-289 | none exactly when every draft passes; otherwise the first failing draft |
| Report.ValidateDrafts | cli/cmd/score.go:267-292 | a roster error stops everything; the final is checked first, labelled "final", then the drafts in order, and the first failure ends it with that draft's report, the as-formatted suggestion last |
| Report.CanonicalSet | cli/cmd/score.go:273-277 | the loop collects exactly the roster's canonical names |
| Report.ValidateEach | cli/cmd/score.go:284-289 | the drafts loop reports the first invalid draft with its report (ending in the as-formatted suggestion), or nothing |
| Report.FirstInvalidAt | cli/cmd/score.go:284-289 | a failing draft after a valid prefix is the first invalid one |
| Report.SuggestionMangled | cli/cmd/score.go:308 | as written, the text after `-s` is Go's bad-verb marker `%!d(string=…)`, not the season |
| Report.SuggestionNamesSeason | cli/cmd/score.go:308 | the corrected line names the season right after `-s` |
| Report.NumberedLines | cli/cmd/score.go:322-326 | line k is made from item k under number k + 1 |
| Report.BoardLines | cli/cmd/score.go:322-326 | the board has one line per standing, the k-th ranked k + 1 |
| Report.BuildMessage | cli/cmd/score.go:315-332 | the builder's writes give exactly the message text |
| Report.WriteOpening | cli/cmd/score.go:316-321 | the first writes give the title, the eliminations and the heading |
| Report.MessageEnd | cli/cmd/score.go:315-332 | the message is the opening, the board, a blank line and the footer |
| Report.MessageLines | cli/cmd/score.go:315-332 | read back line by line, the message is the title, the eliminations only when there are any, the heading, one line per draft numbered 1..n, a blank line and the footer |
| Report.CheckFlags | cli/cmd/score.go:84-92 | publishing needs a voted-out list, then exactly one of a file and drafters, in that order |
| Report.Stems | cli/cmd/score.go:112-118 | one stem per match |
| Report.ExpandDrafters | cli/cmd/score.go:103-119 | the wildcard loop gives every match's stem, in order |
| Report.StemsMembers | cli/cmd/score.go:112-118 | a drafter is exactly the stem of some match, "final" included |
| Report.WildcardsDiffer | cli/cmd/score.go:112-118 | the fix-drafts expansion is the score expansion without "final" |
| Report.BlankEntries | cli/cmd/score.go:258-262 | n blank entries numbered 1..n |
| Report.EmptyFinal | cli/cmd/score.go:240-265 | the file written: a "Current" header with the date and season, `---`, and lines `1. ` to `18. ` |
| Report.EmptyFinalReads | cli/cmd/score.go:240-265 | read back, the empty final is a "Current" final of 18 blank positions |
| Report.EmptyFinalScoresNothing | cli/cmd/score.go:240-265 | against an empty final every draft scores 0 and none fails |

## Left out

- File and network I/O are left out: `os.ReadFile`/`WriteFile`, bufio scanning, `filepath.Glob`, Discord publishing, logging (`slog`), configuration and the cobra command wiring. Reads and writes are parameters: lines in, lines out, a success flag. The glob's matches are an input sequence.
- `LoadRoster` (apps/cli/internal/roster/loader.go:13-30) reads and decodes JSON. Only its `validateRoster` is modelled; validateDrafts takes the load's outcome as a parameter.
- `time.Now` in createEmptyFinal is the caller's `date` parameter.
- Printing: validateDraft's and fixDraft's `fmt.Printf` output are returned lines or not modelled. The `%q` quoting is modelled only for names without quotes, backslashes or control characters. The `%.2f` confidence in fixDraft's messages is left out.
- The column alignment (`maxLen`) of printed tables, and runFixDrafts' summary totals across files, are printing only.
- Levenshtein.Distance: the source calls an external library. It is modelled by the recursive definition of edit distance, which is what that library computes.
- Scores are `float64` in the source and `real` here, so rounding error is not modelled. The test's 0.67 and 0.833 are proved as the exact 2/3 and 5/6.
- Strings are sequences of characters. ASCII case and white space are modelled, not Unicode's. The quote characters U+201C and U+201D are kept.
- Go's 64-bit `int` wrap-around in the score sums is not modelled: sums are unbounded. Atoi's range check is modelled.
- Map iteration order: the source ranges over Go maps in the maximum and minimum-distance loops. The model iterates the same keys as a set, and the results do not depend on order.
- Report.SortStandings: `sort.Slice`'s own algorithm is not modelled. A selection sort with the library's contract (sorted by the comparator, a permutation) stands for it, so equal-key order may differ from Go's.
- DraftFixer: the matcher is a function parameter (`string -> Option<string>`) in the fixer; DraftFixer.RosterMatcher is the one the source passes, built from Matcher.Match. The fixer passes a `--threshold` flag, but `MatchContestant` uses the constant 0.70 (internal/matcher/matcher.go:12), so the flag has no effect. The code is followed.
- The dead nickname check at internal/matcher/matcher.go:91-94 cannot fire once the exact nickname rule has returned, so it is not repeated.
- determineMatchType ignores its input and contestant arguments; `Matcher.DetermineMatchType` takes the score alone.
- The week-4 regression test in apps/cli/internal/scorer/scorer_test.go:59 expects a current score of 3, which belongs to a scorer variant outside this model. internal/scorer/scorer.go gives 8, which test_analysis/main.go:33-36 also expects; the model follows that code. The 13 points available agree with both.
- `readDraft` exists three times (internal/scorer/scorer.go:248-307, cmd/main.go:354-413, main.go:166-225) with identical code; it is modelled once.
- The MatchContestant outcomes over the test roster of apps/cli/internal/matcher/matcher_test.go:32-103 are left out, for example "MC" to Michelle. They would need the similarity of every input against all four contestants. That computation is left out for proof cost; the scores against one contestant are proved in `MatcherExamples`.
- MatcherExamples.SophieFirstName: this lemma and the other score examples are stated for the contestant's normalised names ("sophie" is `f.first`, "sophi" is `f.first[..5]`), proved equal to the test's strings by SophieSForms. They do not take the literal strings, because evaluating the edit distance of two literals is too costly for the verifier.
- The end-to-end tests and the fixture-file tests read files and are not modelled.
- Helper methods such as TallyPick, FixReadAt, SwapInMax and SumSurvivors are loop bodies or inner loops taken out of the source's functions. They keep the source's order of operations.

## Findings

| source | as written | input that shows it | evidently intended | confidence | as-written member | corrected member |
|---|---|---|---|---|---|---|
| cli/cmd/fix_drafts.go:177-184 | a correction replaces the first occurrence of the cleaned name in the raw line, so a line in a bad format keeps that format | the line "1)Sophi" with "Sophi" matched to "Sophi B" becomes "1)Sophi B", which the draft reader rejects (no ". ") | the corrected line is written as `<pos>. <canonical>`, like the format rewrite just above it, so the draft reads back | not executed | DraftFixer.CorrectionKeepsBadFormat | DraftFixer.IntendedCorrectionReads |
| cli/cmd/score.go:308 | the season, a string, is formatted with `%d` | any season, e.g. "49", prints `-s %!d(string=49)` | `-s 49` | not executed | Report.SuggestionMangled | Report.SuggestionNamesSeason |

The fixer's loops (DraftFixer.FixLines, DraftFixer.FixDraft) and validateDraft's report (Report.ValidateDraft) follow the code as written. The corrected definitions (DraftFixer.IntendedFixEntry, Report.Suggestion) are stated beside them, with their intended properties proved.
