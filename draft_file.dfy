/**
 * The draft / final-results text format and its reader, `readDraft`
 * (internal/scorer/scorer.go:248-307). The reader is modelled over the
 * lines a bufio.Scanner would produce. cmd/main.go and main.go hold
 * textually identical copies of the reader.
 */
module DraftFile {
  import opened Outcomes
  import opened Text

  datatype Metadata = Metadata(drafter: string, date: string, season: string)
  datatype Entry = Entry(position: int, playerName: string)
  datatype Draft = Draft(metadata: Metadata, entries: seq<Entry>)

  const Separator: string := "---"

  /** What the reader's loop carries from line to line. */
  datatype ParseState = ParseState(draft: Draft, parsingMetadata: bool)

  const Initial: ParseState := ParseState(Draft(Metadata("", "", ""), []), true)

  /** A `Key: Value` line: only Drafter, Date and Season are recorded, trimmed. */
  function ParseMetadataLine(m: Metadata, line: string): (r: Result<Metadata>)
    ensures r.Ok? <==> SplitOnce(line, ": ").Some?
  {
    match SplitOnce(line, ": ")
    case None => Err("invalid metadata length: not 2 parts: " + line)
    case Some((k, v)) =>
      var key, value := TrimSpace(k), TrimSpace(v);
      Ok(if key == "Drafter" then m.(drafter := value)
         else if key == "Date" then m.(date := value)
         else if key == "Season" then m.(season := value)
         else m)
  }

  /**
   * A `<pos>. <name>` line: accepted exactly when it splits at its first
   * ". " and Atoi reads a positive position before it; the entry is that
   * position and the trimmed rest.
   */
  function ParseEntryLine(line: string): (r: Result<Entry>)
    ensures r.Ok? ==> 0 < r.value.position <= MaxInt64
    ensures r.Ok? <==> SplitOnce(line, ". ").Some? && Atoi(SplitOnce(line, ". ").value.0).Some?
                       && Atoi(SplitOnce(line, ". ").value.0).value > 0
    ensures r.Ok? ==> r.value == Entry(Atoi(SplitOnce(line, ". ").value.0).value,
                                       TrimSpace(SplitOnce(line, ". ").value.1))
  {
    match SplitOnce(line, ". ")
    case None => Err("invalid entry length: not 2 parts: " + line)
    case Some((p, name)) =>
      match Atoi(p)
      case None => Err("invalid position: not an integer: " + p)
      case Some(position) =>
        if position <= 0 then Err("invalid position: less than zero: " + p)
        else Ok(Entry(position, TrimSpace(name)))
  }

  /** A position Atoi reads as zero or less is rejected, whatever follows. */
  lemma NonPositiveRejected(p: string, rest: string)
    requires Atoi(p).Some? && Atoi(p).value <= 0
    ensures ParseEntryLine(p + ". " + rest).Err?
  {
    AtoiNoDot(p);
    SplitOnceAt(p, ". ", rest);
  }

  /** "0. x" and "-1. x" are rejected. */
  lemma ZeroAndNegativeRejected()
    ensures ParseEntryLine("0. x").Err?
    ensures ParseEntryLine("-1. x").Err?
  {
    assert Atoi("0") == Some(0);
    assert "0. x" == "0" + ". " + "x";
    NonPositiveRejected("0", "x");
    assert "-1"[1..] == "1";
    assert Atoi("-1") == Some(-1);
    assert "-1. x" == "-1" + ". " + "x";
    NonPositiveRejected("-1", "x");
  }

  /** "1. " reads as position 1 with an empty name. */
  lemma EmptyNameEntry()
    ensures ParseEntryLine("1. ") == Ok(Entry(1, ""))
  {
    assert "1. " == "1" + ". " + "";
    SplitOnceAt("1", ". ", "");
    assert Atoi("1") == Some(1);
    assert TrimSpace("") == "";
  }

  /** One iteration of the reader's loop. */
  function Step(st: ParseState, line: string): Result<ParseState>
  {
    if line == Separator then Ok(st.(parsingMetadata := false))
    else if st.parsingMetadata then
      match ParseMetadataLine(st.draft.metadata, line)
      case Err(e) => Err(e)
      case Ok(m) => Ok(st.(draft := st.draft.(metadata := m)))
    else
      match ParseEntryLine(line)
      case Err(e) => Err(e)
      case Ok(e) => Ok(st.(draft := st.draft.(entries := st.draft.entries + [e])))
  }

  /** The reader's loop over all lines; the first error ends it. */
  function ParseLines(lines: seq<string>): Result<ParseState>
  {
    if lines == [] then Ok(Initial)
    else
      match ParseLines(lines[..|lines| - 1])
      case Err(e) => Err(e)
      case Ok(st) => Step(st, lines[|lines| - 1])
  }

  lemma ParseLinesSnoc(lines: seq<string>, line: string)
    ensures ParseLines(lines + [line]) ==
              match ParseLines(lines)
              case Err(e) => Err(e)
              case Ok(st) => Step(st, line)
  {
    assert (lines + [line])[..|lines|] == lines;
  }

  function Parse(lines: seq<string>): Result<Draft>
  {
    match ParseLines(lines)
    case Err(e) => Err(e)
    case Ok(st) => Ok(st.draft)
  }

  /** readDraft: scan the lines, switching to entry mode at each `---`. */
  method ReadDraft(lines: seq<string>) returns (r: Result<Draft>)
    ensures r == Parse(lines)
  {
    var d := Initial.draft;
    var parsingMetadata := true;
    var i := 0;
    while i < |lines|
      invariant 0 <= i <= |lines|
      invariant ParseLines(lines[..i]) == Ok(ParseState(d, parsingMetadata))
    {
      ParseLinesNext(lines, i);
      var next := ReadLine(d, parsingMetadata, lines[i]);
      if next.Err? {
        ErrorStops(lines, i + 1);
        return Err(next.message);
      }
      d, parsingMetadata := next.value.draft, next.value.parsingMetadata;
      i := i + 1;
    }
    assert lines[..i] == lines;
    r := Ok(d);
  }

  lemma ParseLinesNext(lines: seq<string>, i: nat)
    requires i < |lines|
    ensures ParseLines(lines[..i + 1]) ==
              match ParseLines(lines[..i])
              case Err(e) => Err(e)
              case Ok(st) => Step(st, lines[i])
  {
    assert lines[..i + 1] == lines[..i] + [lines[i]];
    ParseLinesSnoc(lines[..i], lines[i]);
  }

  /** One pass of readDraft's loop. */
  method ReadLine(d: Draft, parsingMetadata: bool, line: string) returns (r: Result<ParseState>)
    ensures r == Step(ParseState(d, parsingMetadata), line)
  {
    if line == Separator {
      return Ok(ParseState(d, false));
    } else if parsingMetadata {
      var parts := SplitOnce(line, ": ");
      if parts.None? {
        return Err("invalid metadata length: not 2 parts: " + line);
      }
      var key, value := TrimSpace(parts.value.0), TrimSpace(parts.value.1);
      var m := d.metadata;
      if key == "Drafter" {
        m := m.(drafter := value);
      } else if key == "Date" {
        m := m.(date := value);
      } else if key == "Season" {
        m := m.(season := value);
      }
      return Ok(ParseState(d.(metadata := m), true));
    } else {
      var parts := SplitOnce(line, ". ");
      if parts.None? {
        return Err("invalid entry length: not 2 parts: " + line);
      }
      var position := Atoi(parts.value.0);
      if position.None? {
        return Err("invalid position: not an integer: " + parts.value.0);
      }
      if position.value <= 0 {
        return Err("invalid position: less than zero: " + parts.value.0);
      }
      return Ok(ParseState(d.(entries := d.entries + [Entry(position.value, TrimSpace(parts.value.1))]), false));
    }
  }

  /** Once a prefix fails, the whole input fails with the same error. */
  lemma {:induction false} ErrorStops(lines: seq<string>, j: nat)
    requires j <= |lines| && ParseLines(lines[..j]).Err?
    ensures ParseLines(lines) == ParseLines(lines[..j])
    decreases |lines| - j
  {
    if j < |lines| {
      var next := lines[..j + 1];
      assert next[..|next| - 1] == lines[..j];
      ErrorStops(lines, j + 1);
    } else {
      assert lines[..j] == lines;
    }
  }

  // ---- what the reader produces ----

  /** Whether `line` would be read in metadata mode: no `---` before it. */
  predicate InMetadata(lines: seq<string>, i: nat)
    requires i <= |lines|
  {
    Separator !in lines[..i]
  }

  /** The lines read as entries: after the first `---`, and not `---` themselves. */
  function EntryLines(lines: seq<string>): seq<string>
  {
    if lines == [] then []
    else
      var init, last := lines[..|lines| - 1], lines[|lines| - 1];
      if last != Separator && Separator in init then EntryLines(init) + [last] else EntryLines(init)
  }

  /** The trimmed value of the last metadata line whose trimmed key is `key`, or "". */
  function MetaValue(lines: seq<string>, key: string): string
  {
    if lines == [] then ""
    else
      var init, last := lines[..|lines| - 1], lines[|lines| - 1];
      if last != Separator && Separator !in init && SplitOnce(last, ": ").Some?
         && TrimSpace(SplitOnce(last, ": ").value.0) == key
      then TrimSpace(SplitOnce(last, ": ").value.1)
      else MetaValue(init, key)
  }

  /** A line the reader accepts in the mode it is read in. */
  predicate LineAccepted(lines: seq<string>, i: nat)
    requires i < |lines|
  {
    lines[i] == Separator ||
    (if InMetadata(lines, i) then SplitOnce(lines[i], ": ").Some? else ParseEntryLine(lines[i]).Ok?)
  }

  /**
   * On success: the mode is entry mode exactly when a `---` was read; the
   * entries are the entry lines, parsed, in file order; each recorded
   * metadata field is the value of its last `Key: Value` line.
   */
  lemma {:induction false} ParseContents(lines: seq<string>)
    requires ParseLines(lines).Ok?
    ensures var st := ParseLines(lines).value;
      && st.parsingMetadata == (Separator !in lines)
      && |st.draft.entries| == |EntryLines(lines)|
      && (forall k :: 0 <= k < |EntryLines(lines)| ==> ParseEntryLine(EntryLines(lines)[k]) == Ok(st.draft.entries[k]))
      && st.draft.metadata == Metadata(MetaValue(lines, "Drafter"), MetaValue(lines, "Date"), MetaValue(lines, "Season"))
  {
    ParseMode(lines);
    ParseEntries(lines);
    ParseMeta(lines);
  }

  /** What one step does to the mode, the entries and the metadata. */
  lemma StepEffect(st: ParseState, line: string)
    requires Step(st, line).Ok?
    ensures var next := Step(st, line).value;
      && next.parsingMetadata == (st.parsingMetadata && line != Separator)
      && (line == Separator || st.parsingMetadata ==> next.draft.entries == st.draft.entries)
      && (line != Separator && !st.parsingMetadata ==>
            next.draft.entries == st.draft.entries + [ParseEntryLine(line).value])
      && (line == Separator || !st.parsingMetadata ==> next.draft.metadata == st.draft.metadata)
      && (line != Separator && st.parsingMetadata ==>
            next.draft.metadata == ParseMetadataLine(st.draft.metadata, line).value)
  {
  }

  lemma {:induction false} ParseMode(lines: seq<string>)
    requires ParseLines(lines).Ok?
    ensures ParseLines(lines).value.parsingMetadata == (Separator !in lines)
  {
    if lines != [] {
      var init, last := lines[..|lines| - 1], lines[|lines| - 1];
      assert lines == init + [last];
      assert (Separator in lines) <==> (Separator in init || last == Separator);
      ParseMode(init);
      var st := ParseLines(init).value;
      assert ParseLines(lines) == Step(st, last);
      StepEffect(st, last);
    }
  }

  lemma {:induction false} ParseEntries(lines: seq<string>)
    requires ParseLines(lines).Ok?
    ensures var st := ParseLines(lines).value;
      && |st.draft.entries| == |EntryLines(lines)|
      && (forall k :: 0 <= k < |EntryLines(lines)| ==> ParseEntryLine(EntryLines(lines)[k]) == Ok(st.draft.entries[k]))
  {
    if lines != [] {
      var init, last := lines[..|lines| - 1], lines[|lines| - 1];
      ParseEntries(init);
      ParseMode(init);
      StepEffect(ParseLines(init).value, last);
    }
  }

  lemma {:induction false} ParseMeta(lines: seq<string>)
    requires ParseLines(lines).Ok?
    ensures ParseLines(lines).value.draft.metadata
            == Metadata(MetaValue(lines, "Drafter"), MetaValue(lines, "Date"), MetaValue(lines, "Season"))
  {
    if lines != [] {
      var init, last := lines[..|lines| - 1], lines[|lines| - 1];
      ParseMeta(init);
      ParseMode(init);
      StepEffect(ParseLines(init).value, last);
      MetadataKeys();
    }
  }

  /** The reader succeeds exactly when every line is accepted in its mode. */
  lemma {:induction false} ParseSucceedsIff(lines: seq<string>)
    ensures ParseLines(lines).Ok? <==> forall i :: 0 <= i < |lines| ==> LineAccepted(lines, i)
  {
    if lines != [] {
      var init, last := lines[..|lines| - 1], lines[|lines| - 1];
      assert lines == init + [last];
      ParseSucceedsIff(init);
      ParseLinesSnoc(init, last);
      forall i | 0 <= i < |init| ensures LineAccepted(lines, i) <==> LineAccepted(init, i) {
        assert lines[..i] == init[..i];
      }
      if ParseLines(init).Ok? {
        var st := ParseLines(init).value;
        ParseContents(init);
        assert InMetadata(lines, |lines| - 1) == st.parsingMetadata;
        assert ParseLines(lines).Ok? <==> LineAccepted(lines, |lines| - 1);
      }
    }
  }

  // ---- writing a draft back out ----

  /** Fields as the reader leaves them: no white space at either end. */
  predicate Unpadded(s: string)
  {
    s == [] || (!IsSpace(s[0]) && !IsSpace(s[|s| - 1]))
  }

  /** The drafts the text format can express: positive 64-bit positions, trimmed text. */
  predicate WellFormed(d: Draft)
  {
    && Unpadded(d.metadata.drafter) && Unpadded(d.metadata.date) && Unpadded(d.metadata.season)
    && forall e :: e in d.entries ==> 0 < e.position <= MaxInt64 && Unpadded(e.playerName)
  }

  function EntryLine(e: Entry): string
    requires e.position > 0
  {
    Itoa(e.position) + ". " + e.playerName
  }

  function EntryLinesOf(es: seq<Entry>): (r: seq<string>)
    requires forall e :: e in es ==> e.position > 0
    ensures |r| == |es|
  {
    if es == [] then [] else EntryLinesOf(es[..|es| - 1]) + [EntryLine(es[|es| - 1])]
  }

  function Header(m: Metadata): seq<string>
  {
    ["Drafter: " + m.drafter, "Date: " + m.date, "Season: " + m.season, Separator]
  }

  /** The file the format describes for a draft. */
  function Serialize(d: Draft): seq<string>
    requires forall e :: e in d.entries ==> e.position > 0
  {
    Header(d.metadata) + EntryLinesOf(d.entries)
  }

  lemma ReadEntryLine(e: Entry)
    requires 0 < e.position <= MaxInt64 && Unpadded(e.playerName)
    ensures ParseEntryLine(EntryLine(e)) == Ok(e)
    ensures EntryLine(e) != Separator
  {
    var digits := Itoa(e.position);
    assert '.' !in digits by {
      forall k | 0 <= k < |digits| ensures digits[k] != '.' { assert IsDigit(digits[k]); }
    }
    SplitOnceAt(digits, ". ", e.playerName);
    AtoiItoa(e.position);
    TrimSpaceUnpadded(e.playerName);
    assert EntryLine(e)[0] == digits[0];
  }

  /** The three recorded keys are distinct and carry no white space. */
  lemma MetadataKeys()
    ensures TrimSpace("Drafter") == "Drafter" && TrimSpace("Date") == "Date" && TrimSpace("Season") == "Season"
    ensures "Date" != "Drafter" && "Season" != "Drafter" && "Season" != "Date"
  {
    KeyTrimmed("Drafter");
    KeyTrimmed("Date");
    KeyTrimmed("Season");
    assert "Date"[1] != "Drafter"[1];
  }

  lemma KeyTrimmed(key: string)
    requires |key| > 0 && 'A' <= key[0] <= 'Z' && 'a' <= key[|key| - 1] <= 'z'
    ensures TrimSpace(key) == key
  {
    TrimSpaceUnpadded(key);
  }

  lemma ReadDrafterLine(m: Metadata, value: string)
    requires Unpadded(value)
    ensures ParseMetadataLine(m, "Drafter: " + value) == Ok(m.(drafter := value))
  {
    assert "Drafter: " + value == "Drafter" + ": " + value;
    SplitOnceAt("Drafter", ": ", value);
    TrimSpaceUnpadded(value);
    MetadataKeys();
  }

  lemma ReadDateLine(m: Metadata, value: string)
    requires Unpadded(value)
    ensures ParseMetadataLine(m, "Date: " + value) == Ok(m.(date := value))
  {
    assert "Date: " + value == "Date" + ": " + value;
    SplitOnceAt("Date", ": ", value);
    TrimSpaceUnpadded(value);
    MetadataKeys();
  }

  lemma ReadSeasonLine(m: Metadata, value: string)
    requires Unpadded(value)
    ensures ParseMetadataLine(m, "Season: " + value) == Ok(m.(season := value))
  {
    assert "Season: " + value == "Season" + ": " + value;
    SplitOnceAt("Season", ": ", value);
    TrimSpaceUnpadded(value);
    MetadataKeys();
  }

  /** Reading four lines is four steps from the initial state. */
  lemma ReadFourLines(a: string, b: string, c: string, d: string, s1: ParseState, s2: ParseState, s3: ParseState, s4: ParseState)
    requires Step(Initial, a) == Ok(s1) && Step(s1, b) == Ok(s2) && Step(s2, c) == Ok(s3) && Step(s3, d) == Ok(s4)
    ensures ParseLines([a, b, c, d]) == Ok(s4)
  {
    ParseLinesSnoc([], a);
    assert [] + [a] == [a];
    assert ParseLines([a]) == Ok(s1);
    ParseLinesSnoc([a], b);
    assert [a] + [b] == [a, b];
    assert ParseLines([a, b]) == Ok(s2);
    ParseLinesSnoc([a, b], c);
    assert [a, b] + [c] == [a, b, c];
    assert ParseLines([a, b, c]) == Ok(s3);
    ParseLinesSnoc([a, b, c], d);
    assert [a, b, c] + [d] == [a, b, c, d];
  }

  lemma ReadHeader(m: Metadata)
    requires Unpadded(m.drafter) && Unpadded(m.date) && Unpadded(m.season)
    ensures ParseLines(Header(m)) == Ok(ParseState(Draft(m, []), false))
  {
    var m1 := Initial.draft.metadata.(drafter := m.drafter);
    var m2 := m1.(date := m.date);
    ReadDrafterLine(Initial.draft.metadata, m.drafter);
    ReadDateLine(m1, m.date);
    ReadSeasonLine(m2, m.season);
    assert m2.(season := m.season) == m;
    assert "Drafter: " + m.drafter != Separator && "Date: " + m.date != Separator && "Season: " + m.season != Separator by {
      assert ("Drafter: " + m.drafter)[0] == 'D' && ("Date: " + m.date)[0] == 'D' && ("Season: " + m.season)[0] == 'S';
    }
    ReadFourLines("Drafter: " + m.drafter, "Date: " + m.date, "Season: " + m.season, Separator,
      ParseState(Draft(m1, []), true), ParseState(Draft(m2, []), true), ParseState(Draft(m, []), true),
      ParseState(Draft(m, []), false));
  }

  lemma {:induction false} ReadEntries(m: Metadata, es: seq<Entry>)
    requires Unpadded(m.drafter) && Unpadded(m.date) && Unpadded(m.season)
    requires forall e :: e in es ==> 0 < e.position <= MaxInt64 && Unpadded(e.playerName)
    ensures ParseLines(Header(m) + EntryLinesOf(es)) == Ok(ParseState(Draft(m, es), false))
  {
    if es == [] {
      ReadHeader(m);
      assert Header(m) + EntryLinesOf(es) == Header(m);
    } else {
      var init, last := es[..|es| - 1], es[|es| - 1];
      assert es == init + [last];
      ReadEntries(m, init);
      var pre := Header(m) + EntryLinesOf(init);
      assert Header(m) + EntryLinesOf(es) == pre + [EntryLine(last)];
      ParseLinesSnoc(pre, EntryLine(last));
      StepEntry(ParseState(Draft(m, init), false), last);
    }
  }

  /** In entry mode, an entry's own line appends exactly that entry. */
  lemma StepEntry(st: ParseState, e: Entry)
    requires !st.parsingMetadata && 0 < e.position <= MaxInt64 && Unpadded(e.playerName)
    ensures Step(st, EntryLine(e)) == Ok(st.(draft := st.draft.(entries := st.draft.entries + [e])))
  {
    ReadEntryLine(e);
  }

  /** Reading back a written well-formed draft gives the same draft. */
  lemma RoundTrip(d: Draft)
    requires WellFormed(d)
    ensures Parse(Serialize(d)) == Ok(d)
  {
    ReadEntries(d.metadata, d.entries);
  }
}
