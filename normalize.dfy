/**
 * Normalize (internal/matcher/normalize.go): trim, drop quote
 * characters, lower-case, then collapse every run of white space to one
 * space. `\s` in Go's regular expressions is the ASCII class
 * [\t\n\f\r ]: it does not include the vertical tab, which TrimSpace does
 * strip.
 */
module Normalizer {
  import opened Text

  /** The characters Go's RE2 class `\s` matches. */
  const RegexSpaces: set<char> := {' ', '\t', '\n', '\U{000C}', '\r'}

  /** The quote characters Normalize removes: ", ', U+201C and U+201D. */
  const Quotes: set<char> := {'"', '\'', '\U{201C}', '\U{201D}'}

  function StripQuotes(s: string): (r: string)
    ensures |r| <= |s|
    ensures forall c :: c in r ==> c in s && c !in Quotes
  {
    RemoveAll(RemoveAll(RemoveAll(RemoveAll(s, '"'), '\''), '\U{201C}'), '\U{201D}')
  }

  /** regexp `\s+` replaced by " ": every maximal white-space run becomes one space. */
  function CollapseSpaces(s: string): (r: string)
    ensures |r| <= |s|
    ensures r == [] <==> s == []
    ensures r != [] && s[0] !in RegexSpaces ==> r[0] == s[0]
    decreases |s|
  {
    if s == [] then []
    else if s[0] in RegexSpaces then
      var rest := TrimLeftIn(s[1..], RegexSpaces);
      " " + CollapseSpaces(rest)
    else [s[0]] + CollapseSpaces(s[1..])
  }

  /** Collapsing adds no character other than ' ' and keeps no other white space. */
  lemma {:induction false} CollapseSpacesChars(s: string)
    ensures forall c :: c in CollapseSpaces(s) ==> c == ' ' || (c in s && c !in RegexSpaces)
    decreases |s|
  {
    if s != [] {
      if s[0] in RegexSpaces {
        var rest := TrimLeftIn(s[1..], RegexSpaces);
        CollapseSpacesChars(rest);
        assert forall c :: c in rest ==> c in s;
      } else {
        CollapseSpacesChars(s[1..]);
      }
    }
  }

  /** Single-spaced: the only white space of `\s` is ' ', never two in a row. */
  predicate SingleSpaced(s: string)
  {
    (forall i :: 0 <= i < |s| ==> s[i] in RegexSpaces ==> s[i] == ' ') &&
    (forall i, j :: 0 <= i < |s| && 0 <= j < |s| && j == i + 1 ==> !(s[i] == ' ' && s[j] == ' '))
  }

  /** Prepending one character keeps a string single-spaced when it cannot start a double space. */
  lemma SingleSpacedCons(c: char, tail: string)
    requires SingleSpaced(tail)
    requires c in RegexSpaces ==> c == ' '
    requires c == ' ' && tail != [] ==> tail[0] != ' '
    ensures SingleSpaced([c] + tail)
  {
    var r := [c] + tail;
    forall i, j | 0 <= i && j == i + 1 && j < |r| ensures !(r[i] == ' ' && r[j] == ' ') {
      if i > 0 { assert r[i] == tail[i - 1] && r[j] == tail[i]; }
    }
    forall i | 0 <= i < |r| && r[i] in RegexSpaces ensures r[i] == ' ' {
      if i > 0 { assert r[i] == tail[i - 1]; }
    }
  }

  lemma {:induction false} CollapseSpacesSingle(s: string)
    ensures SingleSpaced(CollapseSpaces(s))
    decreases |s|
  {
    if s != [] {
      if s[0] in RegexSpaces {
        var rest := TrimLeftIn(s[1..], RegexSpaces);
        CollapseSpacesSingle(rest);
        SingleSpacedCons(' ', CollapseSpaces(rest));
      } else {
        CollapseSpacesSingle(s[1..]);
        SingleSpacedCons(s[0], CollapseSpaces(s[1..]));
      }
    }
  }

  /** A single-spaced string has nothing to collapse. */
  lemma {:induction false} CollapseSpacesFixed(s: string)
    requires SingleSpaced(s)
    ensures CollapseSpaces(s) == s
    decreases |s|
  {
    if s != [] {
      assert SingleSpaced(s[1..]) by {
        assert forall i :: 0 <= i < |s| - 1 ==> s[1..][i] == s[i + 1];
      }
      if s[0] in RegexSpaces {
        assert s[0] == ' ';
        assert s[1..] == [] || s[1] !in RegexSpaces;
        assert TrimLeftIn(s[1..], RegexSpaces) == s[1..];
      }
      CollapseSpacesFixed(s[1..]);
    }
  }

  /** Lower-casing keeps a string free of quotes and leaves no capital letter. */
  lemma LowerNoQuotes(s: string)
    requires forall c :: c in s ==> c !in Quotes
    ensures forall c :: c in ToLower(s) ==> c !in Quotes && !('A' <= c <= 'Z')
  {
    var r := ToLower(s);
    forall c | c in r ensures c !in Quotes && !('A' <= c <= 'Z') {
      var i :| 0 <= i < |r| && r[i] == c;
      assert r[i] == LowerChar(s[i]) && s[i] in s;
    }
  }

  /** Collapsing keeps every character other than white space. */
  lemma CollapseKeeps(s: string)
    requires forall c :: c in s ==> c !in Quotes && !('A' <= c <= 'Z')
    ensures forall c :: c in CollapseSpaces(s) ==> c !in Quotes && !('A' <= c <= 'Z')
  {
    CollapseSpacesChars(s);
  }

  /** Normalize. */
  function Normalize(name: string): (r: string)
    ensures |r| <= |name|
    ensures forall c :: c in r ==> c !in Quotes && !('A' <= c <= 'Z')
    ensures SingleSpaced(r)
  {
    var trimmed := TrimSpace(name);
    var unquoted := StripQuotes(trimmed);
    var lower := ToLower(unquoted);
    LowerNoQuotes(unquoted);
    CollapseKeeps(lower);
    CollapseSpacesSingle(lower);
    CollapseSpaces(lower)
  }

  /** Already normalised: lower-case, quote-free, single-spaced and unpadded. */
  predicate Normalized(s: string)
  {
    && (forall c :: c in s ==> c !in Quotes && !('A' <= c <= 'Z'))
    && SingleSpaced(s)
    && (s == [] || (!IsSpace(s[0]) && !IsSpace(s[|s| - 1])))
  }

  predicate Lowercase(s: string)
  {
    forall i :: 0 <= i < |s| ==> !('A' <= s[i] <= 'Z')
  }

  lemma MembersLowercase(s: string)
    requires forall c :: c in s ==> !('A' <= c <= 'Z')
    ensures Lowercase(s)
  {
    forall i | 0 <= i < |s| ensures !('A' <= s[i] <= 'Z') {
      assert s[i] in s;
    }
  }

  lemma ToLowerFixed(s: string)
    requires Lowercase(s)
    ensures ToLower(s) == s
  {
    LowerWord(s, s);
  }

  /** ToLower maps each character on its own. */
  lemma LowerWord(w: string, r: string)
    requires |w| == |r|
    requires forall i :: 0 <= i < |w| ==> LowerChar(w[i]) == r[i]
    ensures ToLower(w) == r
  {
  }

  /** A normalised string is its own normal form. */
  lemma NormalizeFixed(s: string)
    requires Normalized(s)
    ensures Normalize(s) == s
  {
    TrimSpaceUnpadded(s);
    RemoveAllAbsent(s, '"');
    RemoveAllAbsent(s, '\'');
    RemoveAllAbsent(s, '\U{201C}');
    RemoveAllAbsent(s, '\U{201D}');
    MembersLowercase(s);
    ToLowerFixed(s);
    CollapseSpacesFixed(s);
  }

  lemma StripQuotedSpace(x: char)
    requires 'a' <= x <= 'z'
    ensures StripQuotes(['"', ' ', x, '"']) == [' ', x]
  {
    assert RemoveAll(['"'], '"') == [];
    assert RemoveAll([x, '"'], '"') == [x];
    assert RemoveAll([' ', x, '"'], '"') == [' ', x];
    RemoveAllAbsent([' ', x], '\'');
    RemoveAllAbsent([' ', x], '\U{201C}');
    RemoveAllAbsent([' ', x], '\U{201D}');
  }

  /**
   * Trimming comes before quote removal, so a space inside the quotes
   * survives: a quoted " x" normalises to " x", which is not itself
   * normalised.
   */
  lemma QuotedLeadingSpace(x: char)
    requires 'a' <= x <= 'z'
    ensures Normalize(['"', ' ', x, '"']) == [' ', x]
    ensures !Normalized(Normalize(['"', ' ', x, '"']))
  {
    var s := ['"', ' ', x, '"'];
    var ax := [' ', x];
    NormalizeSteps(s);
    TrimSpaceUnpadded(s);
    StripQuotedSpace(x);
    LowerSpaced(x);
    CollapseSpaced(x);
    assert IsSpace(ax[0]);
  }

  lemma NormalizeSteps(name: string)
    ensures Normalize(name) == CollapseSpaces(ToLower(StripQuotes(TrimSpace(name))))
  {
  }

  lemma LowerSpaced(x: char)
    requires 'a' <= x <= 'z'
    ensures ToLower([' ', x]) == [' ', x]
  {
    assert LowerChar(x) == x;
  }

  lemma CollapseSpaced(x: char)
    requires 'a' <= x <= 'z'
    ensures CollapseSpaces([' ', x]) == [' ', x]
  {
    var s := [' ', x];
    assert SingleSpaced(s) by {
      assert s[1] !in RegexSpaces;
    }
    CollapseSpacesFixed(s);
  }

  // ---- the test values: padded words ----

  predicate Letters(w: string)
  {
    forall i :: 0 <= i < |w| ==> 'a' <= w[i] <= 'z' || 'A' <= w[i] <= 'Z'
  }

  predicate AllIn(s: string, cut: set<char>)
  {
    forall i :: 0 <= i < |s| ==> s[i] in cut
  }

  lemma {:induction false} TrimLeftPadded(pad: string, s: string, cut: set<char>)
    requires AllIn(pad, cut)
    requires s == [] || s[0] !in cut
    ensures TrimLeftIn(pad + s, cut) == s
    decreases |pad|
  {
    if pad == [] {
      assert pad + s == s;
    } else {
      assert (pad + s)[1..] == pad[1..] + s;
      TrimLeftPadded(pad[1..], s, cut);
    }
  }

  lemma {:induction false} TrimRightPadded(s: string, pad: string, cut: set<char>)
    requires AllIn(pad, cut)
    requires s == [] || s[|s| - 1] !in cut
    ensures TrimRightIn(s + pad, cut) == s
    decreases |pad|
  {
    if pad == [] {
      assert s + pad == s;
    } else {
      assert (s + pad)[..|s + pad| - 1] == s + pad[..|pad| - 1];
      TrimRightPadded(s, pad[..|pad| - 1], cut);
    }
  }

  lemma {:induction false} ToLowerAppend(a: string, b: string)
    ensures ToLower(a + b) == ToLower(a) + ToLower(b)
  {
    var ab, r := a + b, ToLower(a) + ToLower(b);
    forall i | 0 <= i < |ab| ensures LowerChar(ab[i]) == r[i] {
      if i < |a| {
        assert ab[i] == a[i] && r[i] == ToLower(a)[i];
      } else {
        assert ab[i] == b[i - |a|] && r[i] == ToLower(b)[i - |a|];
      }
    }
    LowerWord(ab, r);
  }

  lemma {:induction false} ToLowerNonLetters(s: string)
    requires AllIn(s, RegexSpaces)
    ensures ToLower(s) == s
  {
  }

  lemma {:induction false} CollapseWord(w: string, rest: string)
    requires forall i :: 0 <= i < |w| ==> w[i] !in RegexSpaces
    ensures CollapseSpaces(w + rest) == w + CollapseSpaces(rest)
    decreases |w|
  {
    if w == [] {
      assert w + rest == rest;
    } else {
      var s := w + rest;
      assert s[0] == w[0] && s[0] !in RegexSpaces;
      assert s[1..] == w[1..] + rest;
      assert CollapseSpaces(s) == [w[0]] + CollapseSpaces(w[1..] + rest);
      CollapseWord(w[1..], rest);
      assert w == [w[0]] + w[1..];
    }
  }

  lemma {:induction false} CollapseGap(gap: string, v: string)
    requires gap != [] && AllIn(gap, RegexSpaces)
    requires v == [] || v[0] !in RegexSpaces
    ensures CollapseSpaces(gap + v) == " " + CollapseSpaces(v)
  {
    assert (gap + v)[0] == gap[0];
    assert (gap + v)[1..] == gap[1..] + v;
    TrimLeftPadded(gap[1..], v, RegexSpaces);
  }

  lemma {:induction false} LowerLetters(w: string)
    requires Letters(w)
    ensures Letters(ToLower(w))
    ensures forall i :: 0 <= i < |w| ==> ToLower(w)[i] !in RegexSpaces && !IsSpace(ToLower(w)[i])
  {
  }

  /**
   * Two words of letters, padded with white space on both sides and
   * separated by any run of it, normalise to the lower-cased words joined by
   * one space: "  Hello World  " and "  multiple   spaces  ".
   */
  lemma TrimStage(pad1: string, mid: string, pad2: string)
    requires AllIn(pad1, Spaces) && AllIn(pad2, Spaces)
    requires mid != [] && !IsSpace(mid[0]) && !IsSpace(mid[|mid| - 1])
    ensures TrimSpace(pad1 + mid + pad2) == mid
  {
    var t := pad1 + mid + pad2;
    assert t == pad1 + (mid + pad2);
    assert (mid + pad2)[0] == mid[0];
    TrimLeftPadded(pad1, mid + pad2, Spaces);
    TrimRightPadded(mid, pad2, Spaces);
    assert TrimSpace(t) == TrimRightIn(TrimLeftIn(t, Spaces), Spaces);
  }

  lemma QuoteFree(w1: string, gap: string, w2: string)
    requires Letters(w1) && Letters(w2) && AllIn(gap, RegexSpaces)
    ensures StripQuotes(w1 + gap + w2) == w1 + gap + w2
  {
    var mid := w1 + gap + w2;
    RemoveAllAbsent(mid, '"');
    RemoveAllAbsent(mid, '\'');
    RemoveAllAbsent(mid, '\U{201C}');
    RemoveAllAbsent(mid, '\U{201D}');
  }

  lemma LowerStage(w1: string, gap: string, w2: string)
    requires AllIn(gap, RegexSpaces)
    ensures ToLower(w1 + gap + w2) == ToLower(w1) + gap + ToLower(w2)
  {
    ToLowerAppend(w1 + gap, w2);
    ToLowerAppend(w1, gap);
    ToLowerNonLetters(gap);
  }

  lemma CollapseStage(l1: string, gap: string, l2: string)
    requires Letters(l1) && Letters(l2) && l2 != []
    requires gap != [] && AllIn(gap, RegexSpaces)
    ensures CollapseSpaces(l1 + gap + l2) == l1 + " " + l2
  {
    assert l1 + gap + l2 == l1 + (gap + l2);
    LettersNotSpaces(l1);
    CollapseWord(l1, gap + l2);
    LettersNotSpaces(l2);
    CollapseGap(gap, l2);
    LettersCollapse(l2);
    assert l1 + (" " + l2) == l1 + " " + l2;
  }

  lemma LettersNotSpaces(w: string)
    requires Letters(w)
    ensures forall i :: 0 <= i < |w| ==> w[i] !in RegexSpaces
  {
    forall i | 0 <= i < |w| ensures w[i] !in RegexSpaces {
      assert 'a' <= w[i] <= 'z' || 'A' <= w[i] <= 'Z';
    }
  }

  lemma LettersCollapse(w: string)
    requires Letters(w)
    ensures CollapseSpaces(w) == w
  {
    assert SingleSpaced(w);
    CollapseSpacesFixed(w);
  }

  /**
   * Two words of letters, padded with white space on both sides and
   * separated by any run of it, normalise to the lower-cased words joined by
   * one space: "  Hello World  " and "  multiple   spaces  ".
   */
  lemma TwoWords(pad1: string, w1: string, gap: string, w2: string, pad2: string)
    requires AllIn(pad1, Spaces) && AllIn(pad2, Spaces)
    requires gap != [] && AllIn(gap, RegexSpaces)
    requires w1 != [] && w2 != [] && Letters(w1) && Letters(w2)
    ensures Normalize(pad1 + w1 + gap + w2 + pad2) == ToLower(w1) + " " + ToLower(w2)
  {
    var mid := w1 + gap + w2;
    assert pad1 + w1 + gap + w2 + pad2 == pad1 + mid + pad2;
    assert mid[0] == w1[0] && mid[|mid| - 1] == w2[|w2| - 1];
    TrimStage(pad1, mid, pad2);
    QuoteFree(w1, gap, w2);
    LowerStage(w1, gap, w2);
    LowerLetters(w1);
    LowerLetters(w2);
    CollapseStage(ToLower(w1), gap, ToLower(w2));
    NormalizeSteps(pad1 + mid + pad2);
  }

  /** A single word of letters normalises to its lower case. */
  lemma OneWord(w: string)
    requires w != [] && Letters(w)
    ensures Normalize(w) == ToLower(w)
  {
    assert "" + w + "" == w;
    assert !IsSpace(w[0]) && !IsSpace(w[|w| - 1]);
    TrimStage("", w, "");
    QuoteFree(w, "", "");
    LowerLetters(w);
    LettersCollapse(ToLower(w));
    NormalizeSteps(w);
  }

  /** The shape TwoWords needs, with the words already lower-cased to `r`. */
  predicate TwoWordsShape(s: string, i: nat, j: nat, k: nat, l: nat, r: string)
  {
    && i < j < k < l <= |s|
    && AllIn(s[..i], Spaces) && AllIn(s[j..k], RegexSpaces) && AllIn(s[l..], Spaces)
    && Letters(s[i..j]) && Letters(s[k..l])
    && ToLower(s[i..j]) + " " + ToLower(s[k..l]) == r
  }

  lemma TwoWordsAt(s: string, i: nat, j: nat, k: nat, l: nat, r: string)
    requires TwoWordsShape(s, i, j, k, l, r)
    ensures Normalize(s) == r
  {
    FiveSlices(s, i, j, k, l);
    TwoWords(s[..i], s[i..j], s[j..k], s[k..l], s[l..]);
  }

  lemma FiveSlices(s: string, i: nat, j: nat, k: nat, l: nat)
    requires i <= j <= k <= l <= |s|
    ensures s == s[..i] + s[i..j] + s[j..k] + s[k..l] + s[l..]
  {
    assert s[..j] == s[..i] + s[i..j];
    assert s[..k] == s[..j] + s[j..k];
    assert s[..l] == s[..k] + s[k..l];
    assert s == s[..l] + s[l..];
  }

  lemma HelloWorldShape(s: string)
    requires s == "  Hello World  "
    ensures TwoWordsShape(s, 2, 7, 8, 13, "hello world")
  {
    assert s[..2] == "  " && s[7..8] == " " && s[13..] == "  ";
    HelloWorldWords(s[2..7], s[8..13]);
  }

  lemma HelloWorldWords(w1: string, w2: string)
    requires w1 == "Hello" && w2 == "World"
    ensures Letters(w1) && Letters(w2)
    ensures ToLower(w1) + " " + ToLower(w2) == "hello world"
  {
    CapitalWord(w1, "hello");
    CapitalWord(w2, "world");
    JoinedWords("hello", "world", "hello world");
  }

  /** A word of small letters is its own lower case. */
  lemma SmallWord(w: string)
    requires forall i :: 0 <= i < |w| ==> 'a' <= w[i] <= 'z'
    ensures Letters(w)
    ensures ToLower(w) == w
  {
    LowerWord(w, w);
  }

  /** A capitalised word of letters lower-cases to `r`. */
  lemma CapitalWord(w: string, r: string)
    requires |w| == |r| && w != [] && 'A' <= w[0] <= 'Z' && r[0] == LowerChar(w[0])
    requires forall i :: 0 < i < |w| ==> 'a' <= w[i] <= 'z' && r[i] == w[i]
    ensures Letters(w)
    ensures ToLower(w) == r
  {
    LowerWord(w, r);
  }

  lemma HelloWorld(s: string)
    requires s == "  Hello World  "
    ensures Normalize(s) == "hello world"
  {
    HelloWorldShape(s);
    TwoWordsAt(s, 2, 7, 8, 13, "hello world");
  }

  lemma MultipleSpacesShape(s: string)
    requires s == "  multiple   spaces  "
    ensures TwoWordsShape(s, 2, 10, 13, 19, "multiple spaces")
  {
    assert s[..2] == "  " && s[10..13] == "   " && s[19..] == "  ";
    MultipleSpacesWords(s[2..10], s[13..19]);
  }

  lemma MultipleSpacesWords(w1: string, w2: string)
    requires w1 == "multiple" && w2 == "spaces"
    ensures Letters(w1) && Letters(w2)
    ensures ToLower(w1) + " " + ToLower(w2) == "multiple spaces"
  {
    SmallWord(w1);
    SmallWord(w2);
    JoinedWords(w1, w2, "multiple spaces");
  }

  lemma MultipleSpaces(s: string)
    requires s == "  multiple   spaces  "
    ensures Normalize(s) == "multiple spaces"
  {
    MultipleSpacesShape(s);
    TwoWordsAt(s, 2, 10, 13, 19, "multiple spaces");
  }

  lemma JoinedWords(a: string, b: string, ab: string)
    requires |ab| == |a| + 1 + |b| && ab[..|a|] == a && ab[|a|] == ' ' && ab[|a| + 1..] == b
    ensures a + " " + b == ab
  {
    var j := a + " " + b;
    forall i | 0 <= i < |ab| ensures j[i] == ab[i] {
      if i < |a| { assert ab[..|a|][i] == ab[i]; }
      else if i > |a| { assert ab[|a| + 1..][i - |a| - 1] == ab[i]; }
    }
  }

  lemma EmptyName()
    ensures Normalize("") == ""
  {
    NormalizeSteps("");
  }
}
