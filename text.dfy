/**
 * ASCII models of the Go standard-library string functions the core calls:
 * strings.TrimSpace / TrimLeft / Trim / TrimSuffix / SplitN / Split /
 * Replace / Join / ToLower, strconv.Atoi / Itoa and filepath.Base.
 * Characters are Dafny `char`s; the source's inputs are ASCII text files.
 */
module Text {
  import opened Outcomes

  /** The ASCII members of Go's unicode.IsSpace, which strings.TrimSpace strips. */
  const Spaces: set<char> := {' ', '\t', '\n', '\U{000B}', '\U{000C}', '\r'}

  predicate IsSpace(c: char) { c in Spaces }

  predicate IsDigit(c: char) { '0' <= c <= '9' }

  predicate AllDigits(s: string) { forall i :: 0 <= i < |s| ==> IsDigit(s[i]) }

  /** strings.TrimLeft(s, cutset): drop leading characters that are in `cut`. */
  function TrimLeftIn(s: string, cut: set<char>): (r: string)
    ensures |r| <= |s| && r == s[|s| - |r|..]
    ensures r == [] || r[0] !in cut
    ensures forall i :: 0 <= i < |s| - |r| ==> s[i] in cut
  {
    if s != [] && s[0] in cut then TrimLeftIn(s[1..], cut) else s
  }

  /** strings.TrimRight(s, cutset): drop trailing characters that are in `cut`. */
  function TrimRightIn(s: string, cut: set<char>): (r: string)
    ensures |r| <= |s| && r == s[..|r|]
    ensures r == [] || r[|r| - 1] !in cut
    ensures forall i :: |r| <= i < |s| ==> s[i] in cut
  {
    if s != [] && s[|s| - 1] in cut then TrimRightIn(s[..|s| - 1], cut) else s
  }

  /** strings.Trim(s, cutset). */
  function TrimIn(s: string, cut: set<char>): string
  {
    TrimRightIn(TrimLeftIn(s, cut), cut)
  }

  /** strings.TrimSpace, restricted to ASCII white space. */
  function TrimSpace(s: string): (r: string)
    ensures |r| <= |s|
    ensures r == [] || (!IsSpace(r[0]) && !IsSpace(r[|r| - 1]))
  {
    TrimIn(s, Spaces)
  }

  /** A string with no white space at either end is its own TrimSpace. */
  lemma TrimSpaceUnpadded(s: string)
    requires s == [] || (!IsSpace(s[0]) && !IsSpace(s[|s| - 1]))
    ensures TrimSpace(s) == s
  {
  }

  predicate OccursAt(s: string, pat: string, k: nat)
  {
    k + |pat| <= |s| && s[k..k + |pat|] == pat
  }

  /** Index of the first occurrence of `pat` in `s` at or after `from`. */
  function IndexFrom(s: string, pat: string, from: nat): (r: Option<nat>)
    requires from <= |s|
    ensures r.Some? ==> from <= r.value && OccursAt(s, pat, r.value)
    ensures r.Some? ==> forall k :: from <= k < r.value ==> !OccursAt(s, pat, k)
    ensures r.None? ==> forall k :: from <= k <= |s| ==> !OccursAt(s, pat, k)
    decreases |s| - from
  {
    if OccursAt(s, pat, from) then Some(from)
    else if from == |s| then None
    else IndexFrom(s, pat, from + 1)
  }

  /** strings.Index. */
  function IndexOf(s: string, pat: string): Option<nat>
  {
    IndexFrom(s, pat, 0)
  }

  /**
   * strings.SplitN(s, sep, 2) for a non-empty separator: the text before and
   * after the first occurrence of `sep`, or None when the result would have
   * only one part.
   */
  function SplitOnce(s: string, sep: string): (r: Option<(string, string)>)
    ensures r.Some? ==> s == r.value.0 + sep + r.value.1
  {
    match IndexOf(s, sep)
    case None => None
    case Some(k) =>
      assert s == s[..k] + s[k..k + |sep|] + s[k + |sep|..];
      Some((s[..k], s[k + |sep|..]))
  }

  /** SplitOnce cuts at the first occurrence, and fails only when there is none. */
  lemma SplitOnceFirst(s: string, sep: string)
    ensures SplitOnce(s, sep).Some? ==>
              forall k :: 0 <= k < |SplitOnce(s, sep).value.0| ==> !OccursAt(s, sep, k)
    ensures SplitOnce(s, sep).None? ==> forall k :: 0 <= k <= |s| ==> !OccursAt(s, sep, k)
  {
  }

  /** When the separator's first character does not occur in `a`, the split is at the end of `a`. */
  lemma SplitOnceAt(a: string, sep: string, b: string)
    requires sep != [] && sep[0] !in a
    ensures SplitOnce(a + sep + b, sep) == Some((a, b))
  {
    var s := a + sep + b;
    assert OccursAt(s, sep, |a|);
    forall k | 0 <= k < |a| ensures !OccursAt(s, sep, k) {
      assert s[k] == a[k];
    }
    SplitOnceFirst(s, sep);
    var r := SplitOnce(s, sep);
    assert OccursAt(s, sep, |r.value.0|);
  }

  /** strings.Split(s, string(sep)) for a one-character separator: never empty. */
  function SplitOn(s: string, sep: char): (r: seq<string>)
    ensures |r| >= 1
    ensures forall i :: 0 <= i < |r| ==> sep !in r[i]
  {
    if s == [] then [[]]
    else
      var rest := SplitOn(s[1..], sep);
      if s[0] == sep then [[]] + rest
      else [[s[0]] + rest[0]] + rest[1..]
  }

  function LowerChar(c: char): (r: char)
    ensures !('A' <= r <= 'Z')
  {
    if 'A' <= c <= 'Z' then (c as int + 32) as char else c
  }

  /** strings.ToLower on ASCII letters. */
  function ToLower(s: string): (r: string)
    ensures |r| == |s|
    ensures forall i :: 0 <= i < |s| ==> r[i] == LowerChar(s[i])
  {
    if s == [] then [] else [LowerChar(s[0])] + ToLower(s[1..])
  }

  /** strings.ReplaceAll(s, string(c), ""). */
  function RemoveAll(s: string, c: char): (r: string)
    ensures |r| <= |s|
    ensures c !in r
    ensures forall x :: x in r ==> x in s
  {
    if s == [] then [] else if s[0] == c then RemoveAll(s[1..], c) else [s[0]] + RemoveAll(s[1..], c)
  }

  lemma RemoveAllAbsent(s: string, c: char)
    requires c !in s
    ensures RemoveAll(s, c) == s
  {
    if s != [] { RemoveAllAbsent(s[1..], c); }
  }

  /** strings.Replace(s, pat, repl, 1). */
  function ReplaceFirst(s: string, pat: string, repl: string): (r: string)
    ensures pat == [] ==> r == repl + s
    ensures pat != [] && IndexOf(s, pat).None? ==> r == s
    ensures pat != [] && IndexOf(s, pat).Some? ==>
              var k := IndexOf(s, pat).value;
              r == s[..k] + repl + s[k + |pat|..]
  {
    if pat == [] then repl + s
    else match IndexOf(s, pat)
      case None => s
      case Some(k) => s[..k] + repl + s[k + |pat|..]
  }

  /** strings.Join. */
  function Join(parts: seq<string>, sep: string): string
  {
    if parts == [] then []
    else if |parts| == 1 then parts[0]
    else parts[0] + sep + Join(parts[1..], sep)
  }

  /** strings.HasSuffix / strings.TrimSuffix. */
  function TrimSuffix(s: string, suffix: string): (r: string)
    ensures |suffix| <= |s| && s[|s| - |suffix|..] == suffix ==> r + suffix == s
    ensures !(|suffix| <= |s| && s[|s| - |suffix|..] == suffix) ==> r == s
  {
    if |suffix| <= |s| && s[|s| - |suffix|..] == suffix then s[..|s| - |suffix|] else s
  }

  /** The text after the last '/' of a path with no trailing slash. */
  function AfterLastSlash(p: string): (r: string)
    ensures '/' !in r
    ensures |r| <= |p| && r == p[|p| - |r|..]
  {
    if p == [] then []
    else if p[|p| - 1] == '/' then []
    else AfterLastSlash(p[..|p| - 1]) + [p[|p| - 1]]
  }

  /** filepath.Base on a slash-separated path. */
  function Base(path: string): string
  {
    if path == [] then "."
    else
      var p := TrimRightIn(path, {'/'});
      if p == [] then "/" else AfterLastSlash(p)
  }

  // ---- integers ----

  const MinInt64: int := -0x8000_0000_0000_0000
  const MaxInt64: int := 0x7FFF_FFFF_FFFF_FFFF

  function DigitValue(c: char): nat
    requires IsDigit(c)
  {
    c as int - '0' as int
  }

  function DigitChar(d: nat): (c: char)
    requires d < 10
    ensures IsDigit(c) && DigitValue(c) == d
  {
    ('0' as int + d) as char
  }

  /** Decimal value of a string of digits. */
  function DigitsValue(s: string): nat
    requires AllDigits(s)
  {
    if s == [] then 0 else DigitsValue(s[..|s| - 1]) * 10 + DigitValue(s[|s| - 1])
  }

  /**
   * strconv.Atoi: an optional '+' or '-', then at least one decimal digit,
   * with the value inside the 64-bit range of Go's int.
   */
  function Atoi(s: string): (r: Option<int>)
    ensures r.Some? ==> MinInt64 <= r.value <= MaxInt64
    ensures r.Some? && AllDigits(s) ==> r.value >= 0
  {
    var signed := s != [] && (s[0] == '+' || s[0] == '-');
    var digits := if signed then s[1..] else s;
    if digits == [] || !AllDigits(digits) then None
    else
      var v: int := if signed && s[0] == '-' then 0 - (DigitsValue(digits) as int) else DigitsValue(digits);
      if v < MinInt64 || v > MaxInt64 then None else Some(v)
  }

  /** strconv.Itoa / fmt's %d for a non-negative integer. */
  function Itoa(n: nat): (s: string)
    ensures s != [] && AllDigits(s)
    ensures DigitsValue(s) == n
    decreases n
  {
    if n < 10 then [DigitChar(n)]
    else
      var init := Itoa(n / 10);
      var s := init + [DigitChar(n % 10)];
      assert s[..|s| - 1] == init;
      s
  }

  /** fmt's %d for any integer. */
  function IntToString(i: int): (s: string)
    ensures s != []
    ensures i >= 0 ==> s == Itoa(i)
  {
    if i < 0 then "-" + Itoa(-i) else Itoa(i)
  }

  /** A string Atoi accepts is a sign and digits: it holds no '.'. */
  lemma AtoiNoDot(s: string)
    requires Atoi(s).Some?
    ensures '.' !in s
  {
    var signed := s != [] && (s[0] == '+' || s[0] == '-');
    var digits := if signed then s[1..] else s;
    forall i | 0 <= i < |s| ensures s[i] != '.' {
      if !(signed && i == 0) {
        assert s[i] == digits[if signed then i - 1 else i];
      }
    }
  }

  /** Atoi reads back what Itoa writes. */
  lemma AtoiItoa(n: nat)
    requires n <= MaxInt64
    ensures Atoi(Itoa(n)) == Some(n)
  {
    var s := Itoa(n);
    assert IsDigit(s[0]);
  }
}
