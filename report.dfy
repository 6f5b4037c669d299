// The score command's own logic (cli/cmd/score.go): the leaderboard
// order, validation of drafted names against the roster, the text
// published for a week, the flag rules, the `*` drafter wildcard and the
// template of an empty final.

module Report {
  import opened Outcomes
  import opened Text
  import opened DraftFile
  import opened Scoring
  import Roster
  import DraftFixer

  // ---- the leaderboard order ----

  /**
   * A scored draft. The source keeps results in a map keyed by the draft;
   * here each draft carries its result.
   */
  datatype Standing = Standing(draft: Draft, result: ScoreResult)

  function Drafter(s: Standing): string
  {
    s.draft.metadata.drafter
  }

  /** Go's `<` on strings: element-wise, a proper prefix first. */
  predicate StrLess(a: string, b: string)
  {
    if a == [] then b != []
    else if b == [] then false
    else if a[0] != b[0] then a[0] < b[0]
    else StrLess(a[1..], b[1..])
  }

  /** The textbook lexicographic order, as a reference for StrLess. */
  ghost predicate Lexicographic(a: string, b: string)
  {
    || (|a| < |b| && a == b[..|a|])
    || exists k: nat :: k < |a| && k < |b| && a[..k] == b[..k] && a[k] < b[k]
  }

  lemma {:induction false} StrLessIsLexicographic(a: string, b: string)
    ensures StrLess(a, b) <==> Lexicographic(a, b)
  {
    if a == [] || b == [] {
    } else if a[0] != b[0] {
      if a[0] < b[0] {
        assert a[..0] == b[..0];
      } else if Lexicographic(a, b) && !(|a| < |b| && a == b[..|a|]) {
        var k: nat :| k < |a| && k < |b| && a[..k] == b[..k] && a[k] < b[k];
      }
    } else {
      StrLessIsLexicographic(a[1..], b[1..]);
      if Lexicographic(a[1..], b[1..]) {
        if |a[1..]| < |b[1..]| && a[1..] == b[1..][..|a[1..]|] {
          assert a == b[..|a|];
        } else {
          var k: nat :| k < |a[1..]| && k < |b[1..]| && a[1..][..k] == b[1..][..k] && a[1..][k] < b[1..][k];
          assert a[..k + 1] == [a[0]] + a[1..][..k];
          assert b[..k + 1] == [b[0]] + b[1..][..k];
        }
      }
      if Lexicographic(a, b) {
        if |a| < |b| && a == b[..|a|] {
          assert a[1..] == b[1..][..|a[1..]|];
        } else {
          var k: nat :| k < |a| && k < |b| && a[..k] == b[..k] && a[k] < b[k];
          assert k > 0;
          assert a[1..][..k - 1] == a[..k][1..];
          assert b[1..][..k - 1] == b[..k][1..];
          assert a[1..][k - 1] == a[k] && b[1..][k - 1] == b[k];
        }
      }
    }
  }

  lemma {:induction false} StrLessIrreflexive(a: string)
    ensures !StrLess(a, a)
  {
    if a != [] { StrLessIrreflexive(a[1..]); }
  }

  lemma {:induction false} StrLessTransitive(a: string, b: string, c: string)
    requires StrLess(a, b) && StrLess(b, c)
    ensures StrLess(a, c)
  {
    if a != [] && b != [] && c != [] && a[0] == b[0] && b[0] == c[0] {
      StrLessTransitive(a[1..], b[1..], c[1..]);
    }
  }

  /** Two different strings are ordered one way or the other, never both. */
  lemma {:induction false} StrLessTotal(a: string, b: string)
    ensures a != b <==> StrLess(a, b) || StrLess(b, a)
    ensures !(StrLess(a, b) && StrLess(b, a))
  {
    if a == [] || b == [] {
    } else if a[0] == b[0] {
      StrLessTotal(a[1..], b[1..]);
      if a[1..] == b[1..] { assert a == [a[0]] + a[1..] && b == [b[0]] + b[1..]; }
    } else {
    }
  }

  /**
   * The comparator given to sort.Slice: higher score first, then more
   * points available, then the drafter's name in byte order.
   */
  predicate Before(x: Standing, y: Standing)
  {
    if x.result.score != y.result.score then x.result.score > y.result.score
    else if x.result.pointsAvailable != y.result.pointsAvailable then
      x.result.pointsAvailable > y.result.pointsAvailable
    else StrLess(Drafter(x), Drafter(y))
  }

  lemma BeforeIrreflexive(x: Standing)
    ensures !Before(x, x)
  {
    StrLessIrreflexive(Drafter(x));
  }

  lemma BeforeTransitive(x: Standing, y: Standing, z: Standing)
    requires Before(x, y) && Before(y, z)
    ensures Before(x, z)
  {
    if x.result == y.result && y.result == z.result {
      StrLessTransitive(Drafter(x), Drafter(y), Drafter(z));
    }
  }

  /**
   * Neither of two standings comes first exactly when they tie on score,
   * points available and drafter: the comparator is a strict weak order
   * whose ties are equal keys.
   */
  lemma Incomparable(x: Standing, y: Standing)
    ensures !Before(x, y) && !Before(y, x) <==> x.result == y.result && Drafter(x) == Drafter(y)
    ensures !(Before(x, y) && Before(y, x))
  {
    StrLessTotal(Drafter(x), Drafter(y));
  }

  /** No standing comes before an earlier one. */
  predicate Sorted(s: seq<Standing>)
  {
    forall i, j :: 0 <= i < j < |s| ==> !Before(s[j], s[i])
  }

  /** A sorted leaderboard reads by score, then points available, then name. */
  lemma SortedReads(s: seq<Standing>, i: nat, j: nat)
    requires Sorted(s) && i < j < |s|
    ensures s[i].result.score >= s[j].result.score
    ensures s[i].result.score == s[j].result.score ==>
              s[i].result.pointsAvailable >= s[j].result.pointsAvailable
    ensures s[i].result == s[j].result ==> Drafter(s[i]) == Drafter(s[j]) || StrLess(Drafter(s[i]), Drafter(s[j]))
  {
    StrLessTotal(Drafter(s[i]), Drafter(s[j]));
  }

  /** The index of a standing that nothing in a[lo..] comes before. */
  method Least(a: array<Standing>, lo: nat) returns (least: nat)
    requires lo < a.Length
    ensures lo <= least < a.Length
    ensures forall m :: lo <= m < a.Length ==> !Before(a[m], a[least])
  {
    least := lo;
    BeforeIrreflexive(a[lo]);
    for j := lo + 1 to a.Length
      invariant lo <= least < j
      invariant forall m :: lo <= m < j ==> !Before(a[m], a[least])
    {
      if Before(a[j], a[least]) {
        forall m | lo <= m < j ensures !Before(a[m], a[j]) {
          if Before(a[m], a[j]) { BeforeTransitive(a[m], a[j], a[least]); }
        }
        BeforeIrreflexive(a[j]);
        least := j;
      }
    }
  }

  /** Everything from `i` on comes no earlier than anything before `i`. */
  predicate Settled(s: seq<Standing>, i: nat)
  {
    forall k, m :: 0 <= k < i <= m < |s| ==> !Before(s[m], s[k])
  }

  /** Swapping the least of s[i..] into place extends the sorted, settled prefix. */
  lemma SwapLeast(s: seq<Standing>, i: nat, least: nat)
    requires i <= least < |s|
    requires Sorted(s[..i]) && Settled(s, i)
    requires forall m :: i <= m < |s| ==> !Before(s[m], s[least])
    ensures var t := s[i := s[least]][least := s[i]];
            Sorted(t[..i + 1]) && Settled(t, i + 1) && multiset(t) == multiset(s)
  {
    var t := s[i := s[least]][least := s[i]];
    forall k, m | 0 <= k < i + 1 <= m < |t| ensures !Before(t[m], t[k]) {
      if k < i {
        assert t[m] == s[m] || t[m] == s[i];
      }
    }
    forall k, m | 0 <= k < m < i + 1 ensures !Before(t[m], t[k]) {
      if m < i {
        assert t[m] == s[..i][m] && t[k] == s[..i][k];
      }
    }
  }

  /**
   * sort.Slice with the comparator above, in place. The library's algorithm
   * is not part of this model: a selection sort stands for it, with the
   * contract the library promises.
   */
  method SortStandings(a: array<Standing>)
    modifies a
    ensures Sorted(a[..])
    ensures multiset(a[..]) == multiset(old(a[..]))
  {
    for i := 0 to a.Length
      invariant multiset(a[..]) == multiset(old(a[..]))
      invariant Sorted(a[..i]) && Settled(a[..], i)
    {
      var least := Least(a, i);
      SwapLeast(a[..], i, least);
      a[i], a[least] := a[least], a[i];
    }
    assert a[..a.Length] == a[..];
  }

  /** Every draft with the result `score` gives it, in draft order. */
  ghost function Scored(drafts: seq<Draft>, final: Draft): (r: seq<Standing>)
    requires forall i :: 0 <= i < |drafts| ==> ScoreOf(drafts[i], final).Ok?
    ensures |r| == |drafts|
  {
    seq(|drafts|, i requires 0 <= i < |drafts| => Standing(drafts[i], ScoreOf(drafts[i], final).value))
  }

  /**
   * Scores followed by the sort: either the first failing draft's error, or
   * every draft with its own result, ordered for the leaderboard.
   */
  method Leaderboard(drafts: seq<Draft>, final: Draft) returns (r: Result<seq<Standing>>)
    ensures r.Ok? <==> forall i :: 0 <= i < |drafts| ==> ScoreOf(drafts[i], final).Ok?
    ensures r.Err? ==> exists i :: 0 <= i < |drafts| && ScoreOf(drafts[i], final) == Err(r.message)
    ensures r.Ok? ==> Sorted(r.value) && multiset(r.value) == multiset(Scored(drafts, final))
  {
    var scores := Scores(drafts, final);
    if scores.Err? {
      return Err(scores.message);
    }
    var a := new Standing[|drafts|](i requires 0 <= i < |drafts| => Standing(drafts[i], scores.value[i]));
    assert a[..] == Scored(drafts, final);
    SortStandings(a);
    r := Ok(a[..]);
  }

  // ---- validation against the roster ----

  /** An entry whose non-blank name is not a canonical name. */
  predicate Offends(e: Entry, canonical: set<string>)
  {
    e.playerName != "" && e.playerName !in canonical
  }

  /** The offending names, in entry order. */
  function Offenders(entries: seq<Entry>, canonical: set<string>): seq<string>
  {
    if entries == [] then []
    else
      var init, last := entries[..|entries| - 1], entries[|entries| - 1];
      Offenders(init, canonical) + if Offends(last, canonical) then [last.playerName] else []
  }

  /** A name is reported exactly when some entry carries it and it offends. */
  lemma {:induction false} OffendersMembers(entries: seq<Entry>, canonical: set<string>)
    ensures forall x :: x in Offenders(entries, canonical) <==>
              exists i :: 0 <= i < |entries| && entries[i].playerName == x && Offends(entries[i], canonical)
  {
    if entries != [] {
      var init := entries[..|entries| - 1];
      OffendersMembers(init, canonical);
      forall x | x in Offenders(entries, canonical)
        ensures exists i :: 0 <= i < |entries| && entries[i].playerName == x && Offends(entries[i], canonical)
      {
        if x in Offenders(init, canonical) {
          var i :| 0 <= i < |init| && init[i].playerName == x && Offends(init[i], canonical);
          assert entries[i] == init[i];
        }
      }
      forall x | exists i :: 0 <= i < |entries| && entries[i].playerName == x && Offends(entries[i], canonical)
        ensures x in Offenders(entries, canonical)
      {
        var i :| 0 <= i < |entries| && entries[i].playerName == x && Offends(entries[i], canonical);
        if i < |init| { assert init[i] == entries[i]; }
      }
    }
  }

  /** Validation passes exactly when no entry offends; blank names never do. */
  lemma OffendersEmpty(entries: seq<Entry>, canonical: set<string>)
    ensures Offenders(entries, canonical) == [] <==> forall i :: 0 <= i < |entries| ==> !Offends(entries[i], canonical)
  {
    OffendersMembers(entries, canonical);
    if Offenders(entries, canonical) != [] {
      assert Offenders(entries, canonical)[0] in Offenders(entries, canonical);
    }
  }

  /** The indices of the offending entries. */
  function OffendingAt(entries: seq<Entry>, canonical: set<string>): set<nat>
  {
    set i: nat | i < |entries| && Offends(entries[i], canonical)
  }

  /** One name is reported per offending entry. */
  lemma {:induction false} OffendersCount(entries: seq<Entry>, canonical: set<string>)
    ensures |Offenders(entries, canonical)| == |OffendingAt(entries, canonical)|
  {
    if entries != [] {
      var init, n := entries[..|entries| - 1], |entries| - 1;
      OffendersCount(init, canonical);
      var before := OffendingAt(init, canonical);
      if Offends(entries[n], canonical) {
        assert OffendingAt(entries, canonical) == before + {n};
      } else {
        assert OffendingAt(entries, canonical) == before;
      }
    }
  }

  /** Names are reported in entry order: the report of a split draft is the two reports in turn. */
  lemma {:induction false} OffendersAppend(a: seq<Entry>, b: seq<Entry>, canonical: set<string>)
    ensures Offenders(a + b, canonical) == Offenders(a, canonical) + Offenders(b, canonical)
    decreases |b|
  {
    if b == [] {
      assert a + b == a;
    } else {
      var init := b[..|b| - 1];
      assert (a + b)[..|a + b| - 1] == a + init;
      OffendersAppend(a, init, canonical);
    }
  }

  /** The text %q gives a name without quotes, backslashes or control characters. */
  function Quote(s: string): string
  {
    "\"" + s + "\""
  }

  function NotExact(owner: string, player: string): string
  {
    "  " + owner + ": " + Quote(player) + " is not an exact match for any contestant"
  }

  function Complaints(owner: string, names: seq<string>): (r: seq<string>)
    ensures |r| == |names|
  {
    seq(|names|, k requires 0 <= k < |names| => NotExact(owner, names[k]))
  }

  function Summary(count: nat): string
  {
    "Validation failed: " + Itoa(count) + " names do not exactly match roster"
  }

  const SuggestPrefix: string := "Suggestion: Run 'srvivor fix-drafts -s "
  const SuggestRest: string := " -d \"*\"' to automatically correct names"

  /** The suggested repair command, naming the draft's season. */
  function Suggestion(season: string): string
  {
    SuggestPrefix + season + SuggestRest
  }

  const Validating: string := "Validating drafts for season..."
  const ValidationFailed: string := "validation failed"

  /**
   * What validateDraft prints for a draft: nothing when every name is
   * canonical; otherwise the complaints, their count and the suggestion as
   * the source formats it.
   */
  function DraftReport(owner: string, draft: Draft, canonical: set<string>): seq<string>
  {
    var names := Offenders(draft.entries, canonical);
    if names == [] then []
    else [Validating] + Complaints(owner, names) + [Summary(|names|), SuggestionAsWritten(draft.metadata.season)]
  }

  /**
   * validateDraft: the lines it prints and its error. It fails exactly when
   * some entry has a non-blank name outside the canonical set, complains
   * once per such entry in entry order, reports their number and ends with
   * the suggestion as the source formats it.
   */
  method ValidateDraft(draft: Draft, canonical: set<string>, owner: string)
      returns (report: seq<string>, err: Option<string>)
    ensures err.Some? <==> exists i :: 0 <= i < |draft.entries| && Offends(draft.entries[i], canonical)
    ensures err.Some? <==> Offenders(draft.entries, canonical) != []
    ensures err.Some? ==> err.value == ValidationFailed
    ensures report == DraftReport(owner, draft, canonical)
    ensures err.Some? ==> |report| == |OffendingAt(draft.entries, canonical)| + 3
                          && report[|report| - 2] == Summary(|OffendingAt(draft.entries, canonical)|)
                          && report[|report| - 1] == SuggestionAsWritten(draft.metadata.season)
  {
    var names: seq<string> := [];
    var errors: seq<string> := [];
    for i := 0 to |draft.entries|
      invariant names == Offenders(draft.entries[..i], canonical)
      invariant errors == Complaints(owner, names)
    {
      assert draft.entries[..i + 1][..i] == draft.entries[..i];
      var e := draft.entries[i];
      if e.playerName != "" && e.playerName !in canonical {
        names := names + [e.playerName];
        errors := errors + [NotExact(owner, e.playerName)];
      }
    }
    assert draft.entries[..|draft.entries|] == draft.entries;
    OffendersEmpty(draft.entries, canonical);
    OffendersCount(draft.entries, canonical);
    if |errors| > 0 {
      report := [Validating] + errors + [Summary(|errors|), SuggestionAsWritten(draft.metadata.season)];
      err := Some(ValidationFailed);
    } else {
      report, err := [], None;
    }
  }

  function CanonicalNames(r: Roster.SeasonRoster): set<string>
  {
    Roster.Canonicals(r.contestants)
  }

  /** The first draft with an offending entry. */
  function FirstInvalid(drafts: seq<Draft>, canonical: set<string>): (r: Option<nat>)
    ensures r.None? <==> forall i :: 0 <= i < |drafts| ==> Offenders(drafts[i].entries, canonical) == []
    ensures r.Some? ==> r.value < |drafts| && Offenders(drafts[r.value].entries, canonical) != []
                        && forall k :: 0 <= k < r.value ==> Offenders(drafts[k].entries, canonical) == []
  {
    if drafts == [] then None
    else
      var init := drafts[..|drafts| - 1];
      var r := FirstInvalid(init, canonical);
      if r.Some? then Some(r.value)
      else if Offenders(drafts[|drafts| - 1].entries, canonical) != [] then Some(|drafts| - 1)
      else None
  }

  /**
   * validateDrafts with the roster load's outcome passed in: the final is
   * checked first (labelled "final"), then every draft in order (labelled
   * by its drafter), and the first failure ends the check.
   */
  method ValidateDrafts(drafts: seq<Draft>, final: Draft, roster: Result<Roster.SeasonRoster>)
      returns (report: seq<string>, err: Option<string>)
    ensures roster.Err? ==> report == [] && err == Some("failed to load roster: " + roster.message)
    ensures roster.Ok? ==>
              var canonical := CanonicalNames(roster.value);
              var bad := FirstInvalid(drafts, canonical);
              if Offenders(final.entries, canonical) != [] then
                report == DraftReport("final", final, canonical) && err == Some(ValidationFailed)
              else if bad.Some? then
                report == DraftReport(drafts[bad.value].metadata.drafter, drafts[bad.value], canonical)
                && err == Some(ValidationFailed)
              else report == [] && err == None
  {
    if roster.Err? {
      return [], Some("failed to load roster: " + roster.message);
    }
    var canonical := CanonicalSet(roster.value.contestants);
    report, err := ValidateDraft(final, canonical, "final");
    if err.None? {
      report, err := ValidateEach(drafts, canonical);
    }
  }

  /** The loop filling the canonical-name map. */
  method CanonicalSet(contestants: seq<Roster.Contestant>) returns (canonical: set<string>)
    ensures canonical == Roster.Canonicals(contestants)
  {
    canonical := {};
    for i := 0 to |contestants|
      invariant canonical == Roster.Canonicals(contestants[..i])
    {
      assert contestants[..i + 1][..i] == contestants[..i];
      canonical := canonical + {contestants[i].canonicalName};
    }
    assert contestants[..|contestants|] == contestants;
  }

  /** validateDrafts' loop over the drafts, stopping at the first failure. */
  method ValidateEach(drafts: seq<Draft>, canonical: set<string>) returns (report: seq<string>, err: Option<string>)
    ensures var bad := FirstInvalid(drafts, canonical);
            if bad.Some? then
              report == DraftReport(drafts[bad.value].metadata.drafter, drafts[bad.value], canonical)
              && err == Some(ValidationFailed)
            else report == [] && err == None
  {
    report, err := [], None;
    for i := 0 to |drafts|
      invariant FirstInvalid(drafts[..i], canonical).None?
      invariant report == [] && err == None
    {
      report, err := ValidateDraft(drafts[i], canonical, drafts[i].metadata.drafter);
      if err.Some? {
        FirstInvalidAt(drafts, canonical, i);
        return;
      }
      assert drafts[..i + 1][..i] == drafts[..i];
    }
    assert drafts[..|drafts|] == drafts;
  }

  /** A draft that fails after a valid prefix is the first invalid one. */
  lemma FirstInvalidAt(drafts: seq<Draft>, canonical: set<string>, i: nat)
    requires i < |drafts| && FirstInvalid(drafts[..i], canonical).None?
    requires Offenders(drafts[i].entries, canonical) != []
    ensures FirstInvalid(drafts, canonical) == Some(i)
  {
    assert forall k :: 0 <= k < i ==> drafts[..i][k] == drafts[k];
  }

  /**
   * The suggestion line as the source formats it: the season is a string
   * given to %d, which Go prints as "%!d(string=<season>)".
   */
  function SuggestionAsWritten(season: string): string
  {
    SuggestPrefix + "%!d(string=" + season + ")" + SuggestRest
  }

  /** As written, the value after `-s` is not the season but Go's bad-verb marker. */
  lemma SuggestionMangled(season: string)
    ensures SuggestionAsWritten(season)[|SuggestPrefix|..|SuggestPrefix| + 11] == "%!d(string="
    ensures SuggestionAsWritten(season) != Suggestion(season)
  {
    var w := SuggestionAsWritten(season);
    assert w == SuggestPrefix + ("%!d(string=" + season + ")" + SuggestRest);
    assert w[|SuggestPrefix|] == '%';
    if |season| > 0 && season[0] == '%' {
      assert |w| == |Suggestion(season)| + 12;
    }
  }

  /** The intended line names the season right after `-s`. */
  lemma SuggestionNamesSeason(season: string)
    ensures Suggestion(season)[|SuggestPrefix|..|SuggestPrefix| + |season|] == season
  {
    var w := Suggestion(season);
    assert w == SuggestPrefix + (season + SuggestRest);
  }

  // ---- the published message ----

  const Footer: string := "*Scores calculated automatically.*"

  /** One leaderboard line, without its newline. */
  function Ranked(rank: nat, s: Standing, showPoints: bool): string
  {
    Itoa(rank) + ". " + Drafter(s) + ": " + IntToString(s.result.score)
    + if showPoints then " (points available: " + IntToString(s.result.pointsAvailable) + ")" else ""
  }

  /** Lines made from items numbered from 1, in the given order. */
  function Numbered<T>(items: seq<T>, line: (nat, T) -> string): (r: seq<string>)
    ensures |r| == |items|
  {
    if items == [] then []
    else
      var n := |items| - 1;
      Numbered(items[..n], line) + [line(n + 1, items[n])]
  }

  /** Line k is made from item k under number k + 1. */
  lemma {:induction false} NumberedLines<T>(items: seq<T>, line: (nat, T) -> string)
    ensures forall k :: 0 <= k < |items| ==> Numbered(items, line)[k] == line(k + 1, items[k])
    decreases |items|
  {
    if items != [] {
      var n := |items| - 1;
      var init, lines := items[..n], Numbered(items, line);
      NumberedLines(init, line);
      assert lines == Numbered(init, line) + [line(n + 1, items[n])];
      forall k | 0 <= k < |items|
        ensures lines[k] == line(k + 1, items[k])
      {
        if k < n {
          assert init[k] == items[k];
        }
      }
    }
  }

  /** Ranked, as a line maker for Numbered. */
  function Ranker(showPoints: bool): (nat, Standing) -> string
  {
    (rank: nat, s: Standing) => Ranked(rank, s, showPoints)
  }

  /** The leaderboard lines, numbered from 1 in the given order. */
  function Board(standings: seq<Standing>, showPoints: bool): seq<string>
  {
    Numbered(standings, Ranker(showPoints))
  }

  /** Line k of the board ranks the k-th standing as number k + 1. */
  lemma BoardLines(standings: seq<Standing>, showPoints: bool)
    ensures |Board(standings, showPoints)| == |standings|
    ensures forall k :: 0 <= k < |standings| ==> Board(standings, showPoints)[k] == Ranked(k + 1, standings[k], showPoints)
  {
    NumberedLines(standings, Ranker(showPoints));
  }

  const Heading: string := "**Leaderboard:**"
  const VotedOutLabel: string := "Voted out this week: "

  function Title(season: int): string
  {
    "**Survivor Season " + IntToString(season) + " Scores**"
  }

  /** The lines before the leaderboard: the title, the week's eliminations when there are any. */
  function Opening(season: int, votedOut: seq<string>): seq<string>
  {
    [Title(season)] + (if votedOut != [] then [VotedOutLabel + Join(votedOut, ", "), ""] else []) + [Heading]
  }

  /** Each line followed by a newline. */
  function Unlines(lines: seq<string>): string
  {
    if lines == [] then [] else Unlines(lines[..|lines| - 1]) + (lines[|lines| - 1] + "\n")
  }

  lemma UnlinesSnoc(lines: seq<string>, line: string)
    ensures Unlines(lines + [line]) == Unlines(lines) + (line + "\n")
  {
    assert (lines + [line])[..|lines|] == lines;
  }

  /** The message buildMessage assembles. */
  function MessageText(season: int, votedOut: seq<string>, standings: seq<Standing>, showPoints: bool): string
  {
    Unlines(Opening(season, votedOut) + Board(standings, showPoints) + [""]) + Footer
  }

  /** buildMessage's first writes: the title, the eliminations, the heading. */
  method WriteOpening(season: int, votedOut: seq<string>) returns (sb: string)
    ensures sb == Unlines(Opening(season, votedOut))
  {
    ghost var written: seq<string> := [];
    sb := [];
    sb := Write(sb, written, Title(season));
    written := written + [Title(season)];
    if |votedOut| > 0 {
      var voted := VotedOutLabel + Join(votedOut, ", ");
      sb := WriteBlank(sb, written, voted);
      written := written + [voted, ""];
    }
    sb := Write(sb, written, Heading);
    written := written + [Heading];
    assert written == Opening(season, votedOut);
  }

  /** WriteString of one line and its newline. */
  method Write(sb: string, ghost written: seq<string>, line: string) returns (next: string)
    requires sb == Unlines(written)
    ensures next == Unlines(written + [line])
  {
    UnlinesSnoc(written, line);
    next := sb + (line + "\n");
  }

  /** WriteString of one line and a blank line after it. */
  method WriteBlank(sb: string, ghost written: seq<string>, line: string) returns (next: string)
    requires sb == Unlines(written)
    ensures next == Unlines(written + [line, ""])
  {
    UnlinesSnoc(written, line);
    UnlinesSnoc(written + [line], "");
    assert written + [line] + [""] == written + [line, ""];
    next := sb + (line + "\n\n");
    assert next == sb + (line + "\n") + ("" + "\n");
  }

  /** One more leaderboard line, with its newline. */
  lemma BoardSnoc(opening: seq<string>, standings: seq<Standing>, i: nat, showPoints: bool)
    requires i < |standings|
    ensures Unlines(opening + Board(standings[..i + 1], showPoints))
            == Unlines(opening + Board(standings[..i], showPoints)) + (Ranked(i + 1, standings[i], showPoints) + "\n")
  {
    NumberedSnoc(opening, standings, i, Ranker(showPoints));
  }

  lemma NumberedSnoc<T>(opening: seq<string>, items: seq<T>, i: nat, line: (nat, T) -> string)
    requires i < |items|
    ensures Unlines(opening + Numbered(items[..i + 1], line))
            == Unlines(opening + Numbered(items[..i], line)) + (line(i + 1, items[i]) + "\n")
  {
    var next := line(i + 1, items[i]);
    var before := Numbered(items[..i], line);
    assert items[..i + 1][..i] == items[..i];
    assert Numbered(items[..i + 1], line) == before + [next];
    assert opening + (before + [next]) == (opening + before) + [next];
    UnlinesSnoc(opening + before, next);
  }

  /** buildMessage: the strings.Builder filled line by line. */
  method BuildMessage(season: int, votedOut: seq<string>, standings: seq<Standing>, showPoints: bool)
      returns (message: string)
    ensures message == MessageText(season, votedOut, standings, showPoints)
  {
    var sb := WriteOpening(season, votedOut);
    ghost var opening := Opening(season, votedOut);
    assert opening + Board(standings[..0], showPoints) == opening;
    for i := 0 to |standings|
      invariant sb == Unlines(opening + Board(standings[..i], showPoints))
    {
      BoardSnoc(opening, standings, i, showPoints);
      sb := sb + (Ranked(i + 1, standings[i], showPoints) + "\n");
    }
    assert standings[..|standings|] == standings;
    MessageEnd(season, votedOut, standings, showPoints);
    message := sb + ("" + "\n") + Footer;
  }

  /** The message is the opening and the board, a blank line and the footer. */
  lemma MessageEnd(season: int, votedOut: seq<string>, standings: seq<Standing>, showPoints: bool)
    ensures MessageText(season, votedOut, standings, showPoints)
            == Unlines(Opening(season, votedOut) + Board(standings, showPoints)) + ("" + "\n") + Footer
  {
    UnlinesSnoc(Opening(season, votedOut) + Board(standings, showPoints), "");
  }

  predicate SingleLine(s: string)
  {
    '\n' !in s
  }

  predicate SingleLines(lines: seq<string>)
  {
    forall k :: 0 <= k < |lines| ==> SingleLine(lines[k])
  }

  /** Splitting at a newline after text without one. */
  lemma {:induction false} SplitAfter(a: string, b: string)
    requires '\n' !in a
    ensures SplitOn(a + "\n" + b, '\n') == [a] + SplitOn(b, '\n')
    decreases |a|
  {
    if a == [] {
      assert a + "\n" + b == "\n" + b;
      assert ("\n" + b)[1..] == b;
    } else {
      SplitAfter(a[1..], b);
      assert (a + "\n" + b)[1..] == a[1..] + "\n" + b;
      assert a == [a[0]] + a[1..];
    }
  }

  lemma {:induction false} SplitLast(a: string)
    requires '\n' !in a
    ensures SplitOn(a, '\n') == [a]
    decreases |a|
  {
    if a != [] {
      SplitLast(a[1..]);
      assert a == [a[0]] + a[1..];
    }
  }

  /** Lines joined by Unlines and a last line come apart again at the newlines. */
  lemma {:induction false} SplitUnlines(lines: seq<string>, last: string)
    requires SingleLines(lines) && SingleLine(last)
    ensures SplitOn(Unlines(lines) + last, '\n') == lines + [last]
    decreases |lines|
  {
    if lines == [] {
      SplitLast(last);
      assert Unlines(lines) + last == last;
    } else {
      var rest := Unlines(lines[1..]) + last;
      UnlinesCons(lines[0], lines[1..]);
      assert lines == [lines[0]] + lines[1..];
      assert Unlines(lines) + last == lines[0] + "\n" + rest;
      SplitAfter(lines[0], rest);
      SplitUnlines(lines[1..], last);
    }
  }

  lemma {:induction false} UnlinesCons(line: string, lines: seq<string>)
    ensures Unlines([line] + lines) == line + "\n" + Unlines(lines)
    decreases |lines|
  {
    if lines == [] {
      assert [line] + lines == [] + [line];
      UnlinesSnoc([], line);
    } else {
      var init, last := lines[..|lines| - 1], lines[|lines| - 1];
      UnlinesCons(line, init);
      assert [line] + lines == ([line] + init) + [last];
      UnlinesSnoc([line] + init, last);
      assert lines == init + [last];
      UnlinesSnoc(init, last);
    }
  }

  lemma NoNewlineInNumber(i: int)
    ensures '\n' !in IntToString(i)
  {
    var s := IntToString(i);
    var digits := if i < 0 then Itoa(-i) else Itoa(i);
    assert forall k :: 0 <= k < |digits| ==> IsDigit(digits[k]);
    if i < 0 {
      assert s == "-" + digits;
      assert forall k :: 0 < k < |s| ==> s[k] == digits[k - 1];
    }
  }

  lemma {:induction false} NoNewlineInJoin(parts: seq<string>, sep: string)
    requires '\n' !in sep && forall k :: 0 <= k < |parts| ==> '\n' !in parts[k]
    ensures '\n' !in Join(parts, sep)
    decreases |parts|
  {
    if |parts| > 1 {
      NoNewlineInJoin(parts[1..], sep);
      assert forall k :: 1 <= k < |parts| ==> parts[1..][k - 1] == parts[k];
    }
  }

  /**
   * Read back line by line, the message is: the title; the eliminations
   * and a blank line only when some player was voted out; the leaderboard
   * heading; one line per draft, numbered 1..n in the given order and with
   * points available only when asked for; a blank line; the footer last.
   * (Drafter and player names are single lines.)
   */
  lemma RankedSingleLine(rank: nat, st: Standing, showPoints: bool)
    requires '\n' !in Drafter(st)
    ensures '\n' !in Ranked(rank, st, showPoints)
  {
    NoNewlineInNumber(rank);
    NoNewlineInNumber(st.result.score);
    NoNewlineInNumber(st.result.pointsAvailable);
  }

  lemma OpeningSingleLines(season: int, votedOut: seq<string>)
    requires forall k :: 0 <= k < |votedOut| ==> '\n' !in votedOut[k]
    ensures forall k :: 0 <= k < |Opening(season, votedOut)| ==> '\n' !in Opening(season, votedOut)[k]
  {
    TitleSingleLine(season);
    HeadingSingleLine();
    if votedOut != [] {
      NoNewlineInJoin(votedOut, ", ");
      VotedSingleLine(Join(votedOut, ", "));
    }
  }

  lemma TitleSingleLine(season: int)
    ensures '\n' !in Title(season)
  {
    NoNewlineInNumber(season);
    var t := Title(season);
    forall k | 0 <= k < |t| ensures t[k] != '\n' {
      assert t[k] in "**Survivor Season " || t[k] in IntToString(season) || t[k] in " Scores**";
    }
  }

  lemma VotedSingleLine(names: string)
    requires '\n' !in names
    ensures '\n' !in VotedOutLabel + names
  {
    var t := VotedOutLabel + names;
    forall k | 0 <= k < |t| ensures t[k] != '\n' {
      if k >= |VotedOutLabel| { assert t[k] == names[k - |VotedOutLabel|]; }
    }
  }

  lemma HeadingSingleLine()
    ensures '\n' !in Heading
  {
    forall k | 0 <= k < |Heading| ensures Heading[k] != '\n' { }
  }

  lemma FooterSingleLine()
    ensures SingleLine(Footer)
  {
    forall k | 0 <= k < |Footer| ensures Footer[k] != '\n' { }
  }

  lemma MessageSingleLines(season: int, votedOut: seq<string>, standings: seq<Standing>, showPoints: bool)
    requires forall k :: 0 <= k < |votedOut| ==> '\n' !in votedOut[k]
    requires forall k :: 0 <= k < |standings| ==> '\n' !in Drafter(standings[k])
    ensures var lines := Opening(season, votedOut) + Board(standings, showPoints) + [""];
            SingleLines(lines)
  {
    var opening, board := Opening(season, votedOut), Board(standings, showPoints);
    var lines := opening + board + [""];
    OpeningSingleLines(season, votedOut);
    BoardLines(standings, showPoints);
    forall k | 0 <= k < |lines| ensures '\n' !in lines[k] {
      if k < |opening| {
        assert lines[k] == opening[k];
      } else if k < |opening| + |board| {
        assert lines[k] == board[k - |opening|];
        RankedSingleLine(k - |opening| + 1, standings[k - |opening|], showPoints);
      }
    }
  }

  /**
   * Read back line by line, the message is: the title; the eliminations
   * and a blank line only when some player was voted out; the leaderboard
   * heading; one line per draft, numbered 1..n in the given order and with
   * points available only when asked for; a blank line; the footer last.
   * (Drafter and player names are single lines.)
   */
  lemma MessageLines(season: int, votedOut: seq<string>, standings: seq<Standing>, showPoints: bool)
    requires forall k :: 0 <= k < |votedOut| ==> '\n' !in votedOut[k]
    requires forall k :: 0 <= k < |standings| ==> '\n' !in Drafter(standings[k])
    ensures SplitOn(MessageText(season, votedOut, standings, showPoints), '\n')
            == Opening(season, votedOut) + Board(standings, showPoints) + ["", Footer]
  {
    var lines := Opening(season, votedOut) + Board(standings, showPoints) + [""];
    MessageSingleLines(season, votedOut, standings, showPoints);
    FooterSingleLine();
    SplitUnlines(lines, Footer);
    assert lines + [Footer] == Opening(season, votedOut) + Board(standings, showPoints) + ["", Footer];
  }

  // ---- the flags ----

  const PublishNeedsVotedOut: string := "voted-out is required when publishing"
  const FileOrDrafters: string := "You must specify either a file or drafters, but not both"

  /**
   * The flag checks, in order: publishing needs a voted-out list, then
   * exactly one of a file and a drafter list must be given.
   */
  function CheckFlags(publish: bool, votedOut: seq<string>, file: string, drafters: seq<string>): (r: Option<string>)
    ensures r.None? <==> (publish ==> votedOut != []) && (file != "" <==> drafters == [])
    ensures publish && votedOut == [] ==> r == Some(PublishNeedsVotedOut)
    ensures r.Some? && r.value == FileOrDrafters ==> !(publish && votedOut == []) && (file != "" <==> drafters != [])
  {
    if publish && |votedOut| == 0 then Some(PublishNeedsVotedOut)
    else if (file != "" && |drafters| > 0) || (file == "" && |drafters| == 0) then Some(FileOrDrafters)
    else None
  }

  // ---- the `*` drafter ----

  /** The stems of the glob's matches: every one, "final" included. */
  function Stems(paths: seq<string>): (r: seq<string>)
    ensures |r| == |paths|
  {
    if paths == [] then [] else Stems(paths[..|paths| - 1]) + [DraftFixer.Stem(paths[|paths| - 1])]
  }

  /** The score command's wildcard loop: each match's basename without `.txt`. */
  method ExpandDrafters(paths: seq<string>) returns (drafters: seq<string>)
    ensures drafters == Stems(paths)
  {
    drafters := [];
    for i := 0 to |paths|
      invariant drafters == Stems(paths[..i])
    {
      assert paths[..i + 1][..i] == paths[..i];
      drafters := drafters + [DraftFixer.Stem(paths[i])];
    }
    assert paths[..|paths|] == paths;
  }

  /** A wildcard drafter is exactly the stem of some match, "final" included. */
  lemma {:induction false} StemsMembers(paths: seq<string>)
    ensures forall x :: x in Stems(paths) <==> exists p :: p in paths && DraftFixer.Stem(p) == x
    decreases |paths|
  {
    if paths != [] {
      var init, last := paths[..|paths| - 1], paths[|paths| - 1];
      StemsMembers(init);
      assert paths == init + [last];
      assert Stems(paths) == Stems(init) + [DraftFixer.Stem(last)];
      forall x
        ensures x in Stems(paths) <==> exists p :: p in paths && DraftFixer.Stem(p) == x
      {
        if x in Stems(paths) && x != DraftFixer.Stem(last) {
          assert x in Stems(init);
          var p :| p in init && DraftFixer.Stem(p) == x;
          assert p in paths;
        }
        if exists p :: p in paths && DraftFixer.Stem(p) == x {
          var p :| p in paths && DraftFixer.Stem(p) == x;
          if p != last {
            assert p in init;
          }
        }
      }
    }
  }

  /**
   * The two wildcards differ only in "final": the fix-drafts expansion is
   * the score expansion without it.
   */
  lemma WildcardsDiffer(paths: seq<string>)
    ensures forall x :: x in DraftFixer.DraftersOf(paths) <==> x in Stems(paths) && x != "final"
  {
    DraftFixer.DraftersOfMembers(paths);
    StemsMembers(paths);
  }

  // ---- the empty final ----

  const FinalSlots: nat := 18

  /** `n` entries numbered from 1, all blank. */
  function BlankEntries(n: nat): (r: seq<Entry>)
    ensures |r| == n
    ensures forall k :: 0 <= k < n ==> r[k] == Entry(k + 1, "")
  {
    if n == 0 then [] else BlankEntries(n - 1) + [Entry(n, "")]
  }

  /** The draft createEmptyFinal describes, dated by the caller. */
  function BlankFinal(date: string, season: int): Draft
  {
    Draft(Metadata(CurrentSeason, date, IntToString(season)), BlankEntries(FinalSlots))
  }

  /** The lines createEmptyFinal writes (the date is the caller's). */
  method EmptyFinal(date: string, season: int) returns (lines: seq<string>)
    ensures lines == Serialize(BlankFinal(date, season))
    ensures |lines| == 4 + FinalSlots
    ensures lines[..4] == ["Drafter: Current", "Date: " + date, "Season: " + IntToString(season), "---"]
    ensures forall k :: 4 <= k < |lines| ==> lines[k] == Itoa(k - 3) + ". "
  {
    var m := Metadata(CurrentSeason, date, IntToString(season));
    lines := ["Drafter: Current", "Date: " + date, "Season: " + IntToString(season), "---"];
    assert "Drafter: " + CurrentSeason == "Drafter: Current";
    assert lines == Header(m) + EntryLinesOf(BlankEntries(0));
    for i := 1 to FinalSlots + 1
      invariant lines == Header(m) + EntryLinesOf(BlankEntries(i - 1))
    {
      BlankLine(i);
      lines := lines + [Itoa(i) + ". "];
    }
    forall k | 4 <= k < |lines| ensures lines[k] == Itoa(k - 3) + ". " {
      EntryLinesAt(BlankEntries(FinalSlots), k - 4);
      BlankLineText(k - 3);
    }
  }

  lemma BlankLineText(i: nat)
    requires i > 0
    ensures EntryLine(Entry(i, "")) == Itoa(i) + ". "
  {
    assert Itoa(i) + ". " + "" == Itoa(i) + ". ";
  }

  lemma BlankLine(i: nat)
    requires i > 0
    ensures EntryLinesOf(BlankEntries(i)) == EntryLinesOf(BlankEntries(i - 1)) + [Itoa(i) + ". "]
  {
    var es := BlankEntries(i);
    assert es[..i - 1] == BlankEntries(i - 1);
    assert es[i - 1] == Entry(i, "");
    BlankLineText(i);
  }

  lemma {:induction false} EntryLinesAt(es: seq<Entry>, k: nat)
    requires forall e :: e in es ==> e.position > 0
    requires k < |es|
    ensures EntryLinesOf(es)[k] == EntryLine(es[k])
    decreases |es|
  {
    var n := |es| - 1;
    if k < n {
      assert es[..n][k] == es[k];
      EntryLinesAt(es[..n], k);
    }
  }

  /** A decimal numeral has no white space at either end. */
  lemma NumberUnpadded(i: int)
    ensures Unpadded(IntToString(i))
  {
    var s := IntToString(i);
    var digits := if i < 0 then Itoa(-i) else Itoa(i);
    assert IsDigit(digits[|digits| - 1]) && IsDigit(digits[0]);
    if i < 0 {
      assert s[|s| - 1] == digits[|digits| - 1];
    }
  }

  /** Read back, the empty final is a "Current" final of 18 blank positions. */
  lemma EmptyFinalReads(date: string, season: int)
    requires Unpadded(date)
    ensures Parse(Serialize(BlankFinal(date, season))) == Ok(BlankFinal(date, season))
  {
    NumberUnpadded(season);
    BlankEntriesFit(FinalSlots);
    RoundTrip(BlankFinal(date, season));
  }

  lemma BlankEntriesFit(n: nat)
    requires n <= MaxInt64
    ensures forall e :: e in BlankEntries(n) ==> 0 < e.position <= MaxInt64 && Unpadded(e.playerName)
  {
    forall e | e in BlankEntries(n) ensures 0 < e.position <= MaxInt64 && e.playerName == "" {
      var k :| 0 <= k < n && BlankEntries(n)[k] == e;
    }
  }

  /** Nothing is eliminated yet, so against an empty final every draft scores 0 and none fails. */
  lemma EmptyFinalScoresNothing(draft: Draft, date: string, season: int)
    ensures ScoreOf(draft, BlankFinal(date, season)).Ok?
    ensures ScoreOf(draft, BlankFinal(date, season)).value.score == 0
  {
    var final := BlankFinal(date, season);
    assert Names(final.entries) - {""} == {} by {
      forall x | x in Names(final.entries) ensures x == "" {
        NamesMember(final.entries, x);
      }
    }
    NothingLockedIn(draft.entries, FinalPositions(final.entries), |final.entries|);
  }

  lemma {:induction false} NamesMember(es: seq<Entry>, x: string)
    requires x in Names(es)
    ensures exists k :: 0 <= k < |es| && es[k].playerName == x
    decreases |es|
  {
    var n := |es| - 1;
    if x in Names(es[..n]) {
      NamesMember(es[..n], x);
      var k :| 0 <= k < n && es[..n][k].playerName == x;
    }
  }

  lemma {:induction false} NothingLockedIn(entries: seq<Entry>, fp: map<string, int>, n: nat)
    requires fp == map[]
    ensures CurrentScore(entries, fp, n) == 0
    decreases |entries|
  {
    if entries != [] {
      NothingLockedIn(entries[..|entries| - 1], fp, n);
    }
  }
}
