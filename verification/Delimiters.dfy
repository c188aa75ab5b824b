/** Cutting a text after punctuation (`split_with_delimiters`). */
module Delimiters {
  import opened Sequences
  import opened Text

  /** `HARD_BOUNDARY_RE`: one character that ends a sentence or clause. */
  predicate IsHardBoundary(c: char) {
    c in {'.', '!', '?', ';', ':', '\n', '\U{3002}', '\U{FF01}', '\U{FF1F}', '\U{FF1B}', '\U{FF1A}'}
  }

  /** `SOFT_BOUNDARY_RE`: a comma-like character. */
  predicate IsSoftBoundary(c: char) {
    c in {',', '\U{3001}', '\U{FF0C}'}
  }

  /** The index of the first delimiter, or the length of the text. */
  function FirstDelimiter(text: string, delim: char -> bool): (i: nat)
    ensures i <= |text|
    ensures i < |text| ==> delim(text[i])
    ensures forall k :: 0 <= k < i ==> !delim(text[k])
  {
    if text == "" || delim(text[0]) then 0
    else
      var i := FirstDelimiter(text[1..], delim);
      assert forall k :: 1 <= k < i + 1 ==> text[k] == text[1..][k - 1];
      1 + i
  }

  /** `pattern.split(text)` for a captured one-character class: text runs and
      delimiters alternate, and a run may be empty. */
  function PatternSplit(text: string, delim: char -> bool): seq<string>
    decreases |text|
  {
    var i := FirstDelimiter(text, delim);
    if i == |text| then [text]
    else [text[..i], [text[i]]] + PatternSplit(text[i + 1..], delim)
  }

  function NonBlank(s: string): seq<string> {
    if Strip(s) == "" then [] else [Strip(s)]
  }

  /** The clauses of a text: each runs up to and including the next delimiter,
      stripped; blank ones disappear. */
  function Clauses(text: string, delim: char -> bool): seq<string>
    decreases |text|
  {
    var i := FirstDelimiter(text, delim);
    if i == |text| then NonBlank(text)
    else NonBlank(text[..i + 1]) + Clauses(text[i + 1..], delim)
  }

  ghost predicate DelimiterFree(s: string, delim: char -> bool) {
    forall j :: 0 <= j < |s| ==> !delim(s[j])
  }

  /** A piece of the split is one delimiter or a run without any. */
  ghost predicate IsPiece(s: string, delim: char -> bool) {
    (|s| == 1 && delim(s[0])) || DelimiterFree(s, delim)
  }

  lemma {:induction false} PatternSplitPieces(text: string, delim: char -> bool)
    ensures forall k :: 0 <= k < |PatternSplit(text, delim)| ==> IsPiece(PatternSplit(text, delim)[k], delim)
    decreases |text|
  {
    var i := FirstDelimiter(text, delim);
    if i < |text| { PatternSplitPieces(text[i + 1..], delim); }
  }

  lemma {:induction false} PatternSplitJoins(text: string, delim: char -> bool)
    ensures Join(PatternSplit(text, delim)) == text
    decreases |text|
  {
    hide Join;
    var i := FirstDelimiter(text, delim);
    if i == |text| {
      JoinOne(text);
    } else {
      var rest := text[i + 1..];
      PatternSplitJoins(rest, delim);
      JoinConcat([text[..i], [text[i]]], PatternSplit(rest, delim));
      JoinTwo(text[..i], [text[i]]);
      assert text == text[..i] + [text[i]] + rest;
    }
  }

  /** Reading one run and its delimiter off the front of a text. */
  lemma ClausesStep(run: string, c: char, rest: string, delim: char -> bool)
    requires delim(c) && DelimiterFree(run, delim)
    ensures Clauses(run + [c] + rest, delim) == NonBlank(run + [c]) + Clauses(rest, delim)
  {
    var text := run + [c] + rest;
    var i := FirstDelimiter(text, delim);
    assert text[|run|] == c;
    assert forall j :: 0 <= j < |run| ==> text[j] == run[j];
    assert text[..i + 1] == run + [c];
    assert text[i + 1..] == rest;
  }

  /** Reading one piece: a delimiter closes a clause, a text run is collected. */
  lemma ScanPiece(current: string, item: string, rest: string, delim: char -> bool)
    requires DelimiterFree(current, delim) && IsPiece(item, delim)
    ensures |item| == 1 && delim(item[0]) ==>
              Clauses(current + (item + rest), delim) == NonBlank(current + item) + Clauses("" + rest, delim)
    ensures !(|item| == 1 && delim(item[0])) ==>
              Clauses(current + (item + rest), delim) == Clauses((current + item) + rest, delim)
              && DelimiterFree(current + item, delim)
  {
    hide Clauses;
    assert current + (item + rest) == (current + item) + rest;
    if |item| == 1 && delim(item[0]) {
      ClausesStep(current, item[0], rest, delim);
      assert item == [item[0]] && "" + rest == rest;
    }
  }

  lemma ClausesLast(run: string, delim: char -> bool)
    requires DelimiterFree(run, delim)
    ensures Clauses(run, delim) == NonBlank(run)
  {
  }

  /** The loop: collect text into `current`, close a clause at every delimiter. A piece
      is a full match of the pattern exactly when it is one delimiter. */
  method SplitWithDelimiters(text: string, delim: char -> bool) returns (groups: seq<string>)
    ensures groups == Clauses(text, delim)
  {
    var parts := PatternSplit(text, delim);
    PatternSplitPieces(text, delim);
    PatternSplitJoins(text, delim);
    hide Clauses, Strip, Join, PatternSplit, FirstDelimiter;
    ghost var goal := Clauses(text, delim);
    ghost var pending := text;
    groups := [];
    var current := "";
    assert parts[0..] == parts && current + pending == text;
    for k := 0 to |parts|
      invariant DelimiterFree(current, delim)
      invariant pending == Join(parts[k..])
      invariant goal == groups + Clauses(current + pending, delim)
    {
      var item := parts[k];
      ghost var rest := Join(parts[k + 1..]);
      JoinFrom(parts, k);
      ScanPiece(current, item, rest, delim);
      assert current + "" == current;
      if item != "" {
        current := current + item;
        if |item| == 1 && delim(item[0]) {
          var stripped := Strip(current);
          if stripped != "" { groups := groups + [stripped]; }
          current := "";
        }
      }
      pending := rest;
    }
    JoinNothing(parts);
    assert current + pending == current;
    ClausesLast(current, delim);
    var stripped := Strip(current);
    if stripped != "" { groups := groups + [stripped]; }
  }

  lemma NonBlankFacts(s: string)
    ensures Clean(NonBlank(s)) && Conserves(NonBlank(s), s)
  {
    StripFacts(s);
    StripEmpty(s);
    JoinOne(Strip(s));
  }

  /** Clause splitting keeps every visible character in order and yields clean clauses. */
  lemma {:induction false} ClausesFacts(text: string, delim: char -> bool)
    ensures Conserves(Clauses(text, delim), text)
    ensures Clean(Clauses(text, delim))
    decreases |text|
  {
    hide Join, Squeeze, NonBlank, IsSpace, Clean;
    var i := FirstDelimiter(text, delim);
    if i == |text| {
      NonBlankFacts(text);
    } else {
      var first, rest := text[..i + 1], text[i + 1..];
      NonBlankFacts(first);
      ClausesFacts(rest, delim);
      SqueezeJoinConcat(NonBlank(first), Clauses(rest, delim));
      CleanConcat(NonBlank(first), Clauses(rest, delim));
      SqueezeConcat(first, rest);
      assert text == first + rest;
    }
  }

  lemma NonBlankEnds(run: string, delim: char -> bool)
    requires run != "" && DelimiterFree(Init(run), delim)
    ensures forall g :: g in NonBlank(run) ==> g != "" && DelimiterFree(Init(g), delim)
  {
    StripSlice(run);
    var g := Strip(run);
    forall j | 0 <= j < |g| - 1 ensures !delim(g[j]) {
      assert g[j] == Init(run)[Lead(run) + j];
    }
  }

  /** A delimiter can only stand at the end of a clause: every one has been cut after. */
  lemma {:induction false} ClausesCutEverywhere(text: string, delim: char -> bool)
    ensures forall g :: g in Clauses(text, delim) ==> g != "" && DelimiterFree(Init(g), delim)
    decreases |text|
  {
    var i := FirstDelimiter(text, delim);
    if i == |text| {
      if text != "" { NonBlankEnds(text, delim); }
    } else {
      assert Init(text[..i + 1]) == text[..i];
      NonBlankEnds(text[..i + 1], delim);
      ClausesCutEverywhere(text[i + 1..], delim);
    }
  }

  /** How many delimiters a text has. */
  function DelimiterCount(text: string, delim: char -> bool): nat {
    if text == "" then 0 else (if delim(text[0]) then 1 else 0) + DelimiterCount(text[1..], delim)
  }

  lemma {:induction false} FirstDelimiterCounts(text: string, delim: char -> bool)
    ensures var i := FirstDelimiter(text, delim);
            i < |text| ==> DelimiterCount(text, delim) == 1 + DelimiterCount(text[i + 1..], delim)
  {
    if text != "" && !delim(text[0]) {
      FirstDelimiterCounts(text[1..], delim);
      var i := FirstDelimiter(text, delim);
      if i < |text| { assert text[1..][i..] == text[i + 1..]; }
    }
  }

  /** Cuts are made at delimiters only: there is at most one clause more than delimiters. */
  lemma {:induction false} ClausesCutNowhereElse(text: string, delim: char -> bool)
    ensures |Clauses(text, delim)| <= DelimiterCount(text, delim) + 1
    decreases |text|
  {
    hide DelimiterCount;
    var i := FirstDelimiter(text, delim);
    FirstDelimiterCounts(text, delim);
    if i < |text| { ClausesCutNowhereElse(text[i + 1..], delim); }
  }

  /** No clause at all is found exactly in a blank text. */
  lemma ClausesEmpty(text: string, delim: char -> bool)
    ensures Clauses(text, delim) == [] <==> Strip(text) == ""
  {
    ClausesFacts(text, delim);
    StripEmpty(text);
    var g := Clauses(text, delim);
    if g != [] {
      CleanHasChars(g[0]);
      SqueezeConcat(g[0], Join(g[1..]));
    }
  }
}
