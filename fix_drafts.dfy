/**
 * The draft-file fixer of cli/cmd/fix_drafts.go: every entry line of a draft
 * is re-read with the pattern `^(\d+)\s*(.+)$`, rewritten as `<pos>. <name>`
 * and, when the matcher names a different contestant, corrected in place.
 * The matcher is a parameter (Matcher.Match in the program): it gives the
 * canonical name of the contestant a cleaned name denotes, or None when
 * matching fails. Reading and writing the file are parameters too.
 */
module DraftFixer {
  import opened Outcomes
  import opened Text
  import opened DraftFile
  import Roster
  import Matcher

  /** RE2's `\s` class: tab, newline, form feed, carriage return and space. */
  const RegexSpace: set<char> := {'\t', '\n', '\U{000C}', '\r', ' '}

  /** Characters stripped from the front of a name: `.`, space and `)`. */
  const LeadingSeparators: set<char> := {'.', ' ', ')'}

  /** Length of the run of decimal digits that starts `s`. */
  function DigitRun(s: string): (k: nat)
    ensures k <= |s|
    ensures forall i :: 0 <= i < k ==> IsDigit(s[i])
    ensures k == |s| || !IsDigit(s[k])
  {
    if s != [] && IsDigit(s[0]) then 1 + DigitRun(s[1..]) else 0
  }

  // ---- the pattern ^(\d+)\s*(.+)$ ----

  /**
   * `t` is digits t[..i], then `\s` characters t[i..j], then at least one
   * character other than a newline (what `.` accepts) up to the end.
   */
  predicate Splits(t: string, i: nat, j: nat)
  {
    && 0 < i <= j < |t|
    && (forall k :: 0 <= k < i ==> IsDigit(t[k]))
    && (forall k :: i <= k < j ==> t[k] in RegexSpace)
    && (forall k :: j <= k < |t| ==> t[k] != '\n')
  }

  /** The end of the run of `\s` characters that starts at `from`. */
  function SpaceRun(s: string, from: nat): (e: nat)
    requires from <= |s|
    ensures from <= e <= |s|
    ensures forall p :: from <= p < e ==> s[p] in RegexSpace
    ensures e == |s| || s[e] !in RegexSpace
    decreases |s| - from
  {
    if from < |s| && s[from] in RegexSpace then SpaceRun(s, from + 1) else from
  }

  /** No newline from `from` on: what `.+$` needs. */
  predicate NewlineFree(s: string, from: nat)
  {
    forall p :: from <= p < |s| ==> s[p] != '\n'
  }

  /**
   * Where regexp.FindStringSubmatch with `^(\d+)\s*(.+)$` cuts `t`: the ends
   * of the digit group and of the space run, or None when it does not match.
   * Greedy `\d+` takes the whole digit run unless nothing would be left for
   * `.+`; greedy `\s*` takes the whole space run unless it reaches the end.
   */
  function EntrySplit(t: string): (r: Option<(nat, nat)>)
    ensures r.Some? ==> 0 < r.value.0 <= r.value.1 < |t|
  {
    var k := DigitRun(t);
    if k == 0 then None
    else if k == |t| then
      if k >= 2 then Some((k - 1, k - 1)) else None
    else
      var e := SpaceRun(t, k);
      if e < |t| then
        if NewlineFree(t, e) then Some((k, e)) else None
      else if t[|t| - 1] != '\n' then Some((k, |t| - 1))
      else None
  }

  /** The pattern's two groups: the position digits and the rest. */
  function EntryMatch(t: string): (r: Option<(string, string)>)
    ensures r.Some? ==> r.value.0 != [] && AllDigits(r.value.0) && r.value.1 != []
  {
    match EntrySplit(t)
    case None => None
    case Some((i, j)) => Some((t[..i], t[j..]))
  }

  /**
   * EntrySplit is the pattern's leftmost-first match: it succeeds exactly
   * when some split exists, its cut is a split, and no split has a longer
   * first group, or the same first group and a longer `\s*` run.
   */
  lemma EntrySplitIsPattern(t: string)
    ensures EntrySplit(t).None? ==> forall i: nat, j: nat :: !Splits(t, i, j)
    ensures EntrySplit(t).Some? ==>
              var (i0, j0) := EntrySplit(t).value;
              && Splits(t, i0, j0)
              && forall i: nat, j: nat :: Splits(t, i, j) ==> i < i0 || (i == i0 && j <= j0)
  {
    var k := DigitRun(t);
    if 0 < k < |t| {
      var e := SpaceRun(t, k);
      if e < |t| && !NewlineFree(t, e) {
        var q :| e <= q < |t| && t[q] == '\n';
        forall i: nat, j: nat ensures !Splits(t, i, j) {
          if Splits(t, i, j) {
          }
        }
      }
    }
  }

  /** A digits-only line "12" matches as position "1" and name "2". */
  lemma DigitsOnly(t: string)
    requires t == "12"
    ensures EntryMatch(t) == Some(("1", "2"))
  {
    assert DigitRun(t[2..]) == 0;
    assert DigitRun(t[1..]) == 1 by { assert t[1..][1..] == t[2..]; }
    assert DigitRun(t) == 2;
    assert EntrySplit(t) == Some((1, 1));
    assert t[..1] == "1" && t[1..] == "2";
  }

  // ---- the cleaned name ----

  /** strings.TrimLeft on s[lo..hi]: where the kept part starts. */
  function SkipIn(s: string, lo: nat, hi: nat, cut: set<char>): (e: nat)
    requires lo <= hi <= |s|
    ensures lo <= e <= hi
    decreases hi - lo
  {
    if lo < hi && s[lo] in cut then SkipIn(s, lo + 1, hi, cut) else lo
  }

  /** strings.TrimRight on s[lo..hi]: where the kept part ends. */
  function BackIn(s: string, lo: nat, hi: nat, cut: set<char>): (e: nat)
    requires lo <= hi <= |s|
    ensures lo <= e <= hi
    decreases hi - lo
  {
    if lo < hi && s[hi - 1] in cut then BackIn(s, lo, hi - 1, cut) else hi
  }

  /**
   * Where the cleaned name lies in the group: trim white space, drop leading
   * `.`, space and `)`, trim white space again, then strip `"` from both ends.
   */
  function NameBounds(group: string): (r: (nat, nat))
    ensures r.0 <= r.1 <= |group|
  {
    var a1 := SkipIn(group, 0, |group|, Spaces);
    var b1 := BackIn(group, a1, |group|, Spaces);
    var a2 := SkipIn(group, a1, b1, LeadingSeparators);
    var a3 := SkipIn(group, a2, b1, Spaces);
    var b3 := BackIn(group, a3, b1, Spaces);
    var a4 := SkipIn(group, a3, b3, {'"'});
    var b4 := BackIn(group, a4, b3, {'"'});
    (a4, b4)
  }

  /** The name the fixer looks up. */
  function CleanName(group: string): string
  {
    group[NameBounds(group).0..NameBounds(group).1]
  }

  lemma {:induction false} SkipIsTrimLeft(s: string, lo: nat, hi: nat, cut: set<char>)
    requires lo <= hi <= |s|
    ensures TrimLeftIn(s[lo..hi], cut) == s[SkipIn(s, lo, hi, cut)..hi]
    decreases hi - lo
  {
    if lo < hi && s[lo] in cut {
      assert s[lo..hi][1..] == s[lo + 1..hi];
      SkipIsTrimLeft(s, lo + 1, hi, cut);
    }
  }

  lemma {:induction false} BackIsTrimRight(s: string, lo: nat, hi: nat, cut: set<char>)
    requires lo <= hi <= |s|
    ensures TrimRightIn(s[lo..hi], cut) == s[lo..BackIn(s, lo, hi, cut)]
    decreases hi - lo
  {
    if lo < hi && s[hi - 1] in cut {
      assert s[lo..hi][..hi - lo - 1] == s[lo..hi - 1];
      BackIsTrimRight(s, lo, hi - 1, cut);
    }
  }

  lemma TrimIsBounds(s: string, lo: nat, hi: nat, cut: set<char>)
    requires lo <= hi <= |s|
    ensures var a := SkipIn(s, lo, hi, cut);
            TrimIn(s[lo..hi], cut) == s[a..BackIn(s, a, hi, cut)]
  {
    var a := SkipIn(s, lo, hi, cut);
    SkipIsTrimLeft(s, lo, hi, cut);
    BackIsTrimRight(s, a, hi, cut);
  }

  /** CleanName is the source's chain of strings.TrimSpace, TrimLeft and Trim calls. */
  lemma CleanNameTrims(group: string)
    ensures CleanName(group) == TrimIn(TrimSpace(TrimLeftIn(TrimSpace(group), LeadingSeparators)), {'"'})
  {
    var a1 := SkipIn(group, 0, |group|, Spaces);
    var b1 := BackIn(group, a1, |group|, Spaces);
    TrimIsBounds(group, 0, |group|, Spaces);
    assert group[0..|group|] == group;
    var a2 := SkipIn(group, a1, b1, LeadingSeparators);
    SkipIsTrimLeft(group, a1, b1, LeadingSeparators);
    var a3 := SkipIn(group, a2, b1, Spaces);
    var b3 := BackIn(group, a3, b1, Spaces);
    TrimIsBounds(group, a2, b1, Spaces);
    TrimIsBounds(group, a3, b3, {'"'});
  }

  /** strings.TrimSpace on a line, as the slice between its white-space ends. */
  function Trimmed(line: string): string
  {
    var a := SkipIn(line, 0, |line|, Spaces);
    line[a..BackIn(line, a, |line|, Spaces)]
  }

  lemma TrimmedIsTrimSpace(line: string)
    ensures Trimmed(line) == TrimSpace(line)
  {
    TrimIsBounds(line, 0, |line|, Spaces);
    assert line[0..|line|] == line;
  }

  // ---- one entry line ----

  /** strconv.Atoi on the digit group: a position, or None when it overflows. */
  function Position(digits: string): (r: Option<nat>)
    requires AllDigits(digits)
    ensures r.Some? ==> r.value <= MaxInt64
  {
    match Atoi(digits)
    case None => None
    case Some(p) => Some(p)
  }

  /**
   * What the fixer reads from an entry line: the position and the cleaned
   * name, or None when it leaves the line alone (no match, a position Atoi
   * rejects, or an empty cleaned name).
   */
  function ReadEntry(line: string): (r: Option<(nat, string)>)
    ensures r.Some? ==> r.value.1 != [] && r.value.0 <= MaxInt64
  {
    match EntryMatch(Trimmed(line))
    case None => None
    case Some((digits, group)) =>
      match Position(digits)
      case None => None
      case Some(position) =>
        var name := CleanName(group);
        if name == [] then None else Some((position, name))
  }

  /** The name the fixer reads is a piece of the raw line, so the correction always finds it. */
  lemma ReadEntryOccurs(line: string)
    requires ReadEntry(line).Some?
    ensures IndexOf(line, ReadEntry(line).value.1).Some?
  {
    var lo := SkipIn(line, 0, |line|, Spaces);
    var hi := BackIn(line, lo, |line|, Spaces);
    var (i, j) := EntrySplit(line[lo..hi]).value;
    var (a, b) := NameBounds(line[lo..hi][j..]);
    SliceOccurs(line, lo, hi, j, a, b);
  }

  lemma SliceOccurs(s: string, lo: nat, hi: nat, j: nat, a: nat, b: nat)
    requires lo <= hi <= |s| && j <= hi - lo && a <= b <= hi - lo - j
    ensures OccursAt(s, s[lo..hi][j..][a..b], lo + j + a)
  {
    var p := s[lo..hi][j..][a..b];
    forall k | 0 <= k < |p| ensures p[k] == s[lo + j + a + k] {
      assert p[k] == s[lo..hi][j..][a + k] == s[lo..hi][j + a + k];
    }
    assert p == s[lo + j + a..lo + j + a + |p|];
  }

  /** The `%d. %s` line the fixer writes. */
  function Formatted(position: nat, name: string): string
  {
    Itoa(position) + ". " + name
  }

  /** What happens to one line: its new text and which counters it moves. */
  datatype LineFix = LineFix(line: string, corrected: bool, failed: bool, changed: bool)

  function Kept(line: string): LineFix
  {
    LineFix(line, false, false, false)
  }

  /**
   * One entry line as the source handles it. A line that differs from its
   * format is rewritten to it; then a failed match is an error, and a
   * different canonical name replaces the first occurrence of the cleaned
   * name in the raw line, discarding the format rewrite.
   */
  function FixEntry(line: string, matcher: string -> Option<string>): LineFix
  {
    FixRead(line, ReadEntry(line), matcher)
  }

  /** FixEntry once the line has been read as `entry`. */
  function FixRead(line: string, entry: Option<(nat, string)>, matcher: string -> Option<string>): LineFix
  {
    match entry
    case None => Kept(line)
    case Some((position, name)) =>
      var formatted := Formatted(position, name);
      var reformat := formatted != Trimmed(line);
      var kept := if reformat then formatted else line;
      match matcher(name)
      case None => LineFix(kept, false, true, reformat)
      case Some(canonical) =>
        if canonical != name then LineFix(ReplaceFirst(line, name, canonical), true, false, true)
        else LineFix(kept, false, false, reformat)
  }

  /**
   * The outcomes of one entry line: skipped lines stay and count nowhere; a
   * correction is counted once, never as an error, and replaces the first
   * occurrence of the cleaned name in the raw line with the canonical name;
   * otherwise the line ends up in `<pos>. <name>` form (rewritten, or already
   * so after trimming); a line the flag calls unchanged is unchanged.
   */
  lemma FixEntryCases(line: string, matcher: string -> Option<string>)
    ensures var r := FixEntry(line, matcher);
            && (ReadEntry(line).None? ==> r == Kept(line))
            && (r.corrected ==> !r.failed && r.changed)
            && (!r.changed ==> r.line == line)
            && (r.failed <==> ReadEntry(line).Some? && matcher(ReadEntry(line).value.1).None?)
            && (ReadEntry(line).Some? ==>
                  var (position, name) := ReadEntry(line).value;
                  var formatted := Formatted(position, name);
                  && (r.corrected <==> matcher(name).Some? && matcher(name).value != name)
                  && IndexOf(line, name).Some?
                  && (r.corrected ==>
                        var k := IndexOf(line, name).value;
                        && OccursAt(line, name, k)
                        && r.line == line[..k] + matcher(name).value + line[k + |name|..])
                  && (!r.corrected ==>
                        r.line == formatted || (r.line == line && Trimmed(line) == formatted)))
  {
    if ReadEntry(line).Some? {
      ReadEntryOccurs(line);
    }
  }

  // ---- the whole file ----

  /**
   * One line in the loop: `---` and metadata lines are kept as they are; an
   * entry line gets FixEntry.
   */
  function FixLine(line: string, inEntries: bool, matcher: string -> Option<string>): LineFix
  {
    if line == Separator || !inEntries then Kept(line) else FixEntry(line, matcher)
  }

  /** Whether a `---` line occurs in `lines`: the loop is in entry mode after them. */
  function PastSeparator(lines: seq<string>): bool
  {
    lines != [] && (PastSeparator(lines[..|lines| - 1]) || lines[|lines| - 1] == Separator)
  }

  lemma {:induction false} PastSeparatorIff(lines: seq<string>)
    ensures PastSeparator(lines) <==> Separator in lines
  {
    if lines != [] {
      var init := lines[..|lines| - 1];
      PastSeparatorIff(init);
      assert lines == init + [lines[|lines| - 1]];
    }
  }

  /** The loop's result: new lines, corrections, errors and the `modified` flag. */
  datatype Tally = Tally(lines: seq<string>, corrections: nat, errors: nat, modified: bool)

  function Count(b: bool): nat { if b then 1 else 0 }

  /** The loop over all lines; a line is in entry mode once a `---` precedes it. */
  function Fix(lines: seq<string>, matcher: string -> Option<string>): (t: Tally)
    ensures |t.lines| == |lines|
  {
    if lines == [] then Tally([], 0, 0, false)
    else
      var init := lines[..|lines| - 1];
      var prev := Fix(init, matcher);
      var f := FixLine(lines[|lines| - 1], PastSeparator(init), matcher);
      Tally(prev.lines + [f.line], prev.corrections + Count(f.corrected),
            prev.errors + Count(f.failed), prev.modified || f.changed)
  }

  /**
   * The body of fixDraft's loop for an entry line at index `i`: rewrite it in
   * place and report which counters move. A correction replaces the name
   * in the raw line.
   */
  method FixEntryAt(lines: array<string>, i: nat, matcher: string -> Option<string>)
      returns (corrected: bool, failed: bool, changed: bool)
    requires i < lines.Length
    modifies lines
    ensures LineFix(lines[i], corrected, failed, changed) == FixEntry(old(lines[i]), matcher)
    ensures lines[..] == old(lines[..])[i := lines[i]]
  {
    // the pattern match, strconv.Atoi and the name cleaning
    var entry := ReadEntry(lines[i]);
    corrected, failed, changed := FixReadAt(lines, i, entry, matcher);
  }

  /** FixEntryAt once the line has been read as `entry`. */
  method FixReadAt(lines: array<string>, i: nat, entry: Option<(nat, string)>, matcher: string -> Option<string>)
      returns (corrected: bool, failed: bool, changed: bool)
    requires i < lines.Length
    modifies lines
    ensures LineFix(lines[i], corrected, failed, changed) == FixRead(old(lines[i]), entry, matcher)
    ensures lines[..] == old(lines[..])[i := lines[i]]
  {
    var line := lines[i];
    corrected, failed, changed := false, false, false;
    if entry.Some? {
      var (position, name) := entry.value;
      var formatted := Formatted(position, name);
      if formatted != Trimmed(line) {
        lines[i] := formatted;
        changed := true;
      }
      var result := matcher(name);
      if result.None? {
        failed := true;
      } else if result.value != name {
        lines[i] := ReplaceFirst(line, name, result.value);
        corrected := true;
        changed := true;
      }
    }
  }

  /** One pass of fixDraft's loop: a `---` line ends the metadata, an entry line is fixed. */
  method FixLineAt(lines: array<string>, i: nat, parsingMetadata: bool, matcher: string -> Option<string>)
      returns (corrected: bool, failed: bool, changed: bool, stillMetadata: bool)
    requires i < lines.Length
    modifies lines
    ensures LineFix(lines[i], corrected, failed, changed) == FixLine(old(lines[i]), !parsingMetadata, matcher)
    ensures stillMetadata == (parsingMetadata && old(lines[i]) != Separator)
    ensures lines[..] == old(lines[..])[i := lines[i]]
  {
    corrected, failed, changed, stillMetadata := false, false, false, parsingMetadata;
    if lines[i] == Separator {
      stillMetadata := false;
    } else if !parsingMetadata {
      corrected, failed, changed := FixEntryAt(lines, i, matcher);
    }
  }

  /**
   * fixDraft's loop, rewriting `lines` in place; returns corrections, errors
   * and whether anything was marked for writing.
   */
  method FixLines(lines: array<string>, matcher: string -> Option<string>)
      returns (corrections: nat, errors: nat, modified: bool)
    modifies lines
    ensures Tally(lines[..], corrections, errors, modified) == Fix(old(lines[..]), matcher)
  {
    ghost var o := lines[..];
    corrections, errors, modified := 0, 0, false;
    var parsingMetadata := true;
    for i := 0 to lines.Length
      invariant Tally(lines[..i], corrections, errors, modified) == Fix(o[..i], matcher)
      invariant lines[i..] == o[i..]
      invariant parsingMetadata == !PastSeparator(o[..i])
    {
      FixSnoc(o, i, matcher);
      ghost var before := lines[..];
      var corrected, failed, changed;
      corrected, failed, changed, parsingMetadata := FixLineAt(lines, i, parsingMetadata, matcher);
      corrections := corrections + Count(corrected);
      errors := errors + Count(failed);
      modified := modified || changed;
      Advance(before, lines[..], o, i, lines[i]);
    }
    assert o[..lines.Length] == o;
    assert lines[..lines.Length] == lines[..];
  }

  /** One more line of the loop. */
  lemma FixSnoc(lines: seq<string>, i: nat, matcher: string -> Option<string>)
    requires i < |lines|
    ensures var prev := Fix(lines[..i], matcher);
            var f := FixLine(lines[i], PastSeparator(lines[..i]), matcher);
            Fix(lines[..i + 1], matcher) ==
              Tally(prev.lines + [f.line], prev.corrections + Count(f.corrected),
                    prev.errors + Count(f.failed), prev.modified || f.changed)
    ensures PastSeparator(lines[..i + 1]) == (PastSeparator(lines[..i]) || lines[i] == Separator)
  {
    assert lines[..i + 1][..i] == lines[..i];
  }

  /** Writing the fixed line at `i` extends the fixed prefix by one and keeps the rest. */
  lemma Advance(before: seq<string>, after: seq<string>, o: seq<string>, i: nat, line: string)
    requires i < |before| == |o| && before[i..] == o[i..] && after == before[i := line]
    ensures after[..i + 1] == before[..i] + [line]
    ensures after[i + 1..] == o[i + 1..]
  {
    assert before[i + 1..] == before[i..][1..];
  }

  /**
   * fixDraft. `read` is the file's lines or None when reading fails;
   * `writeOk` says whether writing would succeed. The lines are written only
   * outside a dry run and only when something was marked modified; a failed
   * read gives (0, 1) and a failed write adds one error.
   */
  method FixDraft(read: Option<seq<string>>, matcher: string -> Option<string>, dryRun: bool, writeOk: bool)
      returns (corrections: nat, errors: nat, written: Option<seq<string>>)
    ensures read.None? ==> corrections == 0 && errors == 1 && written.None?
    ensures read.Some? ==>
              var t := Fix(read.value, matcher);
              && corrections == t.corrections
              && written == (if !dryRun && t.modified then Some(t.lines) else None)
              && errors == t.errors + (if written.Some? && !writeOk then 1 else 0)
  {
    if read.None? {
      return 0, 1, None;
    }
    var lines := new string[|read.value|](k requires 0 <= k < |read.value| => read.value[k]);
    assert lines[..] == read.value;
    var modified;
    corrections, errors, modified := FixLines(lines, matcher);
    written := None;
    if !dryRun && modified {
      written := Some(lines[..]);
      if !writeOk {
        errors := errors + 1;
      }
    }
  }

  // ---- what the loop promises ----

  /** Each output line is the fix of the input line at the same place. */
  lemma {:induction false} FixPointwise(lines: seq<string>, matcher: string -> Option<string>, i: nat)
    requires i < |lines|
    ensures Fix(lines, matcher).lines[i] == FixLine(lines[i], PastSeparator(lines[..i]), matcher).line
    decreases |lines|
  {
    var init := lines[..|lines| - 1];
    if i < |init| {
      FixPointwise(init, matcher, i);
      assert init[..i] == lines[..i];
    }
  }

  /**
   * The line count never changes, and the lines before the first `---`, and
   * every `---` line, are kept verbatim.
   */
  lemma KeepsHeader(lines: seq<string>, matcher: string -> Option<string>)
    ensures |Fix(lines, matcher).lines| == |lines|
    ensures forall i :: 0 <= i < |lines| && (Separator !in lines[..i] || lines[i] == Separator) ==>
              Fix(lines, matcher).lines[i] == lines[i]
  {
    forall i | 0 <= i < |lines| && (Separator !in lines[..i] || lines[i] == Separator)
      ensures Fix(lines, matcher).lines[i] == lines[i]
    {
      FixPointwise(lines, matcher, i);
      PastSeparatorIff(lines[..i]);
    }
  }

  /** Nothing marked modified means nothing changed, so skipping the write loses nothing. */
  lemma {:induction false} UnmodifiedUnchanged(lines: seq<string>, matcher: string -> Option<string>)
    ensures !Fix(lines, matcher).modified ==> Fix(lines, matcher).lines == lines
    decreases |lines|
  {
    if lines != [] {
      var init := lines[..|lines| - 1];
      var last := lines[|lines| - 1];
      UnmodifiedUnchanged(init, matcher);
      FixLineBasics(last, PastSeparator(init), matcher);
      assert init + [last] == lines;
    }
  }

  /** An unchanged line is kept as it was, and a correction is never an error. */
  lemma FixLineBasics(line: string, inEntries: bool, matcher: string -> Option<string>)
    ensures var f := FixLine(line, inEntries, matcher);
            (!f.changed ==> f.line == line) && (f.corrected ==> !f.failed)
  {
    if line != Separator && inEntries {
      var entry := ReadEntry(line);
      assert FixLine(line, inEntries, matcher) == FixRead(line, entry, matcher);
      FixReadBasics(line, entry, matcher);
    }
  }

  lemma FixReadBasics(line: string, entry: Option<(nat, string)>, matcher: string -> Option<string>)
    ensures var f := FixRead(line, entry, matcher);
            (!f.changed ==> f.line == line) && (f.corrected ==> !f.failed)
  {
  }

  /** A line is counted at most once, as a correction or as an error. */
  lemma {:induction false} CountsBound(lines: seq<string>, matcher: string -> Option<string>)
    ensures Fix(lines, matcher).corrections + Fix(lines, matcher).errors <= |lines|
    decreases |lines|
  {
    if lines != [] {
      CountsBound(lines[..|lines| - 1], matcher);
      FixLineBasics(lines[|lines| - 1], PastSeparator(lines[..|lines| - 1]), matcher);
    }
  }

  // ---- the matcher the fixer passes ----

  /**
   * MatchContestant against the season's roster: the matched contestant's
   * canonical name, or None for any of its errors.
   */
  function RosterMatcher(r: Roster.SeasonRoster): string -> Option<string>
  {
    name =>
      var out := Matcher.Match(name, r);
      if out.Matched? then Some(out.result.contestant.canonicalName) else None
  }

  /** With the roster's matcher, a corrected line names a canonical contestant of the roster. */
  lemma CorrectionIsCanonical(line: string, r: Roster.SeasonRoster)
    requires ReadEntry(line).Some? && FixEntry(line, RosterMatcher(r)).corrected
    ensures var name := ReadEntry(line).value.1;
            && RosterMatcher(r)(name).Some?
            && RosterMatcher(r)(name).value in Roster.Canonicals(r.contestants)
  {
    var name := ReadEntry(line).value.1;
    FixEntryCases(line, RosterMatcher(r));
    Matcher.MatchedIsBest(name, r);
    var res := Matcher.Match(name, r).result;
    Roster.CanonicalsMembers(r.contestants, res.contestant.canonicalName);
  }

  // ---- the line a correction leaves behind ----

  /** How the fixer reads "1)Sophi": position 1, name "Sophi". */
  lemma ReadParenLine(line: string)
    requires line == "1)Sophi"
    ensures Trimmed(line) == line
    ensures ReadEntry(line) == Some((1, "Sophi"))
  {
    assert SkipIn(line, 0, |line|, Spaces) == 0;
    assert BackIn(line, 0, |line|, Spaces) == |line|;
    assert line[0..|line|] == line;
    assert DigitRun(line[1..]) == 0;
    assert DigitRun(line) == 1;
    assert SpaceRun(line, 1) == 1;
    assert EntrySplit(line) == Some((1, 1));
    assert line[..1] == "1";
    assert Atoi("1") == Some(1);
    assert line[1..] == ")Sophi";
    ParenGroupName(line[1..]);
  }

  /** The group after the digits of "1)Sophi" cleans to "Sophi". */
  lemma ParenGroupName(g: string)
    requires g == ")Sophi"
    ensures CleanName(g) == "Sophi"
  {
    assert SkipIn(g, 0, 6, Spaces) == 0;
    assert BackIn(g, 0, 6, Spaces) == 6;
    assert SkipIn(g, 1, 6, LeadingSeparators) == 1;
    assert SkipIn(g, 0, 6, LeadingSeparators) == 1;
    assert SkipIn(g, 1, 6, Spaces) == 1;
    assert BackIn(g, 1, 6, Spaces) == 6;
    assert SkipIn(g, 1, 6, {'"'}) == 1;
    assert BackIn(g, 1, 6, {'"'}) == 6;
    assert NameBounds(g) == (1, 6);
    assert g[1..6] == "Sophi";
  }

  /** Replacing "Sophi" in "1)Sophi" keeps the parenthesis. */
  lemma ReplaceInParenLine(line: string)
    requires line == "1)Sophi"
    ensures ReplaceFirst(line, "Sophi", "Sophi B") == "1)Sophi B"
  {
    assert OccursAt(line, "Sophi", 2);
    assert line[0] != 'S' && line[1] != 'S';
    assert IndexOf(line, "Sophi") == Some(2);
  }

  /** A line without a `.` is not an entry line the draft reader accepts. */
  lemma NoDotNoEntry(line: string)
    requires '.' !in line
    ensures ParseEntryLine(line).Err?
  {
    forall k | 0 <= k <= |line| ensures !OccursAt(line, ". ", k) {
      if k + 2 <= |line| { assert line[k] in line; }
    }
    SplitOnceFirst(line, ". ");
  }

  /**
   * A correction is made in the raw line, so a line the reader of drafts
   * rejects stays rejected: "1)Sophi" matched to "Sophi B" becomes
   * "1)Sophi B", which has no ". " and fails to parse.
   */
  lemma CorrectionKeepsBadFormat(line: string, matcher: string -> Option<string>)
    requires line == "1)Sophi" && matcher("Sophi") == Some("Sophi B")
    ensures FixEntry(line, matcher).corrected
    ensures FixEntry(line, matcher).line == "1)Sophi B"
    ensures ParseEntryLine(FixEntry(line, matcher).line).Err?
  {
    ReadParenLine(line);
    assert FixEntry(line, matcher) == FixRead(line, Some((1, "Sophi")), matcher);
    ReplaceInParenLine(line);
    ParenFixRejected();
  }

  lemma ParenFixRejected()
    ensures ParseEntryLine("1)Sophi B").Err?
  {
    var fixed := "1)Sophi B";
    assert '.' !in fixed by {
      forall k | 0 <= k < |fixed| ensures fixed[k] != '.' { }
    }
    NoDotNoEntry(fixed);
  }

  /** The correction the fixer evidently intends: the formatted line with the canonical name. */
  function IntendedFixEntry(line: string, matcher: string -> Option<string>): LineFix
  {
    IntendedFixRead(line, ReadEntry(line), matcher)
  }

  function IntendedFixRead(line: string, entry: Option<(nat, string)>, matcher: string -> Option<string>): LineFix
  {
    match entry
    case None => Kept(line)
    case Some((position, name)) =>
      var formatted := Formatted(position, name);
      var reformat := formatted != Trimmed(line);
      var kept := if reformat then formatted else line;
      match matcher(name)
      case None => LineFix(kept, false, true, reformat)
      case Some(canonical) =>
        if canonical != name then LineFix(Formatted(position, canonical), true, false, true)
        else LineFix(kept, false, false, reformat)
  }

  /**
   * The outcomes of one entry line under the intended fix: as FixEntryCases,
   * except that a correction writes `<pos>. <canonical>`.
   */
  lemma IntendedFixEntryCases(line: string, matcher: string -> Option<string>)
    ensures var r := IntendedFixEntry(line, matcher);
            && (ReadEntry(line).None? ==> r == Kept(line))
            && (r.corrected ==> !r.failed && r.changed)
            && (!r.changed ==> r.line == line)
            && (r.failed <==> ReadEntry(line).Some? && matcher(ReadEntry(line).value.1).None?)
            && (ReadEntry(line).Some? ==>
                  var (position, name) := ReadEntry(line).value;
                  var formatted := Formatted(position, name);
                  && (r.corrected <==> matcher(name).Some? && matcher(name).value != name)
                  && (r.corrected ==> r.line == Formatted(position, matcher(name).value))
                  && (!r.corrected ==>
                        r.line == formatted || (r.line == line && Trimmed(line) == formatted)))
  {
  }

  /**
   * With the intended correction, a corrected line always reads back as the
   * entry at the same position naming the canonical contestant (for a
   * positive position and a canonical name without surrounding white space).
   */
  lemma IntendedCorrectionReads(line: string, matcher: string -> Option<string>)
    requires ReadEntry(line).Some? && ReadEntry(line).value.0 > 0
    requires var name := ReadEntry(line).value.1;
             matcher(name).Some? && matcher(name).value != name && Unpadded(matcher(name).value)
    ensures IntendedFixEntry(line, matcher).corrected
    ensures var (position, name) := ReadEntry(line).value;
            ParseEntryLine(IntendedFixEntry(line, matcher).line) == Ok(Entry(position, matcher(name).value))
  {
    var (position, name) := ReadEntry(line).value;
    ReadEntryLine(Entry(position, matcher(name).value));
  }

  /**
   * On a line already in `<pos>. <name>` form the code as written and the
   * intended fix agree, provided the name cannot be found earlier in the line
   * (it does not start with a digit, `.` or a space).
   */
  lemma AgreeOnFormattedLines(line: string, matcher: string -> Option<string>)
    requires ReadEntry(line).Some?
    requires var (position, name) := ReadEntry(line).value;
             && line == Formatted(position, name)
             && !IsDigit(name[0]) && name[0] != '.' && name[0] != ' '
    ensures FixEntry(line, matcher) == IntendedFixEntry(line, matcher)
  {
    var entry := ReadEntry(line);
    AgreeOnFormatted(line, entry.value.0, entry.value.1, matcher);
  }

  lemma AgreeOnFormatted(line: string, position: nat, name: string, matcher: string -> Option<string>)
    requires name != [] && line == Formatted(position, name)
    requires !IsDigit(name[0]) && name[0] != '.' && name[0] != ' '
    ensures FixRead(line, Some((position, name)), matcher) == IntendedFixRead(line, Some((position, name)), matcher)
  {
    if matcher(name).Some? {
      ReplaceAfterPosition(Itoa(position), name, matcher(name).value);
    }
  }

  /** Replacing such a name in `<digits>. <name>` gives `<digits>. <replacement>`. */
  lemma ReplaceAfterPosition(digits: string, name: string, c: string)
    requires AllDigits(digits) && name != []
    requires !IsDigit(name[0]) && name[0] != '.' && name[0] != ' '
    ensures ReplaceFirst(digits + ". " + name, name, c) == digits + ". " + c
  {
    var line := digits + ". " + name;
    FirstOccurrence(digits, name);
    assert line[..|digits| + 2] == digits + ". ";
    assert line[|digits| + 2 + |name|..] == [];
  }

  /** In `<digits>. <name>` the first occurrence of a name not starting with a digit, `.` or space is after the ". ". */
  lemma FirstOccurrence(digits: string, name: string)
    requires AllDigits(digits) && name != []
    requires !IsDigit(name[0]) && name[0] != '.' && name[0] != ' '
    ensures var line := digits + ". " + name;
            IndexOf(line, name) == Some(|digits| + 2)
  {
    var line := digits + ". " + name;
    assert OccursAt(line, name, |digits| + 2);
  }

  // ---- the wildcard ----

  /** A draft file's drafter: its base name without ".txt". */
  function Stem(path: string): string
  {
    TrimSuffix(Base(path), ".txt")
  }

  /** The drafters a `*` expands to: every stem, in order, except "final". */
  function DraftersOf(paths: seq<string>): seq<string>
  {
    if paths == [] then []
    else
      var init := DraftersOf(paths[..|paths| - 1]);
      var d := Stem(paths[|paths| - 1]);
      if d != "final" then init + [d] else init
  }

  /** runFixDrafts' wildcard loop over the glob's matches. */
  method ExpandWildcard(paths: seq<string>) returns (drafters: seq<string>)
    ensures drafters == DraftersOf(paths)
  {
    drafters := [];
    for i := 0 to |paths|
      invariant drafters == DraftersOf(paths[..i])
    {
      assert paths[..i + 1][..i] == paths[..i];
      var drafter := Stem(paths[i]);
      if drafter != "final" {
        drafters := drafters + [drafter];
      }
    }
    assert paths[..|paths|] == paths;
  }

  /** A wildcard drafter is exactly the stem of some match other than "final". */
  lemma {:induction false} DraftersOfMembers(paths: seq<string>)
    ensures forall x :: x in DraftersOf(paths) <==> x != "final" && exists p :: p in paths && Stem(p) == x
    decreases |paths|
  {
    if paths != [] {
      var init := paths[..|paths| - 1];
      DraftersOfMembers(init);
      assert paths == init + [paths[|paths| - 1]];
    }
  }
}
