/** Rewriting a text to a character budget (`lora_build_text_repair_features.py`). */
module TextBudget {
  import opened Numbers
  import opened Sequences
  import opened Text
  import opened Delimiters

  /** The phrase table and the one hand-written clarification of the heuristic rewriter.
      Every theorem holds for any rules. */
  datatype Rules = Rules(replacements: seq<(string, string)>, clarityTerms: seq<string>, clarityText: string)

  predicate IsTerminal(c: char) { c in {'。', '？', '！', '.', '!', '?'} }

  predicate EndsSentence(c: char) { c in {'。', '？', '！', '!', '?', '；', ';'} }

  // ---------------------------------------------------------------- budget

  /** Characters allowed for a text, at least and at most. */
  datatype Budget = Budget(min: int, max: int)

  /** `char_budget`: scaled down to the wanted rate, and shorter than the original. */
  function CharBudget(maxRequired: real, targetSec: real, originalChars: int, cps: real, minRatio: real): Budget {
    var wanted :=
      if maxRequired > 0.0 then (originalChars as real * cps / maxRequired).Floor
      else (targetSec * cps).Floor;
    var max := Min(Max(1, wanted), Max(1, originalChars - 1));
    Budget(Max(1, Min(max, (max as real * minRatio).Floor)), max)
  }

  /** Every budget is usable, and shorter than the original unless that has one character. */
  lemma CharBudgetRange(maxRequired: real, targetSec: real, originalChars: int, cps: real, minRatio: real)
    ensures var b := CharBudget(maxRequired, targetSec, originalChars, cps, minRatio);
            1 <= b.min <= b.max <= Max(1, originalChars - 1)
  {
  }

  /** A text of the original's required rate, cut to a budget of more than one character,
      no longer needs more than the wanted rate. */
  lemma BudgetReachesRate(maxRequired: real, targetSec: real, originalChars: int, cps: real, minRatio: real)
    requires maxRequired > 0.0
    ensures var b := CharBudget(maxRequired, targetSec, originalChars, cps, minRatio);
            b.max > 1 ==> b.max as real * maxRequired <= originalChars as real * cps
  {
    var b := CharBudget(maxRequired, targetSec, originalChars, cps, minRatio);
    var q := originalChars as real * cps / maxRequired;
    assert q * maxRequired == originalChars as real * cps;
    assert b.max > 1 ==> b.max as real <= q;
    assert b.max as real <= q ==> (q - b.max as real) * maxRequired >= 0.0;
  }

  /** The maximum is the largest there is: one more would not be shorter than the original
      or would exceed the wanted rate. So is the minimum among the shares of the maximum. */
  lemma BudgetIsLargest(maxRequired: real, targetSec: real, originalChars: int, cps: real, minRatio: real)
    ensures var b := CharBudget(maxRequired, targetSec, originalChars, cps, minRatio);
            && (b.max + 1 < originalChars ==>
                  if maxRequired > 0.0 then (b.max + 1) as real * maxRequired > originalChars as real * cps
                  else (b.max + 1) as real > targetSec * cps)
            && (maxRequired <= 0.0 && b.max > 1 ==> b.max as real <= targetSec * cps)
            && (b.min == b.max || (b.min + 1) as real > b.max as real * minRatio)
            && (b.min == 1 || b.min as real <= b.max as real * minRatio)
  {
    var b := CharBudget(maxRequired, targetSec, originalChars, cps, minRatio);
    if maxRequired > 0.0 && b.max + 1 < originalChars {
      var q := originalChars as real * cps / maxRequired;
      assert q * maxRequired == originalChars as real * cps;
      assert (b.max + 1) as real > q;
      assert ((b.max + 1) as real - q) * maxRequired > 0.0;
    }
  }

  // ---------------------------------------------------------------- punctuation

  /** `str.replace` for a non-empty old text. */
  function Replace(s: string, was: string, now: string): string
    requires was != ""
    decreases |s|
  {
    if s == "" then ""
    else if was <= s then now + Replace(s[|was|..], was, now)
    else [s[0]] + Replace(s[1..], was, now)
  }

  /** Runs of one character become a single one. */
  function Collapse(s: string, c: char): string {
    if s == "" then ""
    else if |s| > 1 && s[0] == c && s[1] == c then Collapse(s[1..], c)
    else [s[0]] + Collapse(s[1..], c)
  }

  /** Where the quote opened at the start closes, after a non-empty stretch without line
      breaks; 0 when it does not. */
  function ClosingQuote(s: string): (k: nat)
    ensures k > 0 ==> 2 <= k < |s| && s[0] == s[k] == '"'
  {
    if s == "" || s[0] != '"' then 0
    else
      var j := FirstDelimiter(s[1..], c => c == '"' || c == '\n');
      if 1 <= j < |s| - 1 && s[1 + j] == '"' then 1 + j else 0
  }

  /** Straight quotes around a non-empty stretch of one line become curly. */
  function Curly(s: string): string
    decreases |s|
  {
    if s == "" then ""
    else
      var k := ClosingQuote(s);
      if k > 0 then ['“'] + s[1..k] + ['”'] + Curly(s[k + 1..]) else [s[0]] + Curly(s[1..])
  }

  function NormalizePunctuation(text: string): string {
    var quoted := Replace(Curly(Strip(text)), "——", "，");
    var collapsed := Collapse(Collapse(quoted, '，'), '。');
    Replace(Replace(collapsed, "，。", "。"), "。。", "。")
  }

  /** Replacement, told by its occurrences: a text without any stays, and in any other the
      first one is replaced and the rest treated alike. */
  lemma {:induction false} ReplaceFirst(front: string, was: string, now: string, rest: string)
    requires was != ""
    requires forall i :: 0 <= i < |front| ==> !(was <= (front + was + rest)[i..])
    ensures Replace(front + was + rest, was, now) == front + now + Replace(rest, was, now)
    decreases |front|
  {
    var s := front + was + rest;
    if front == "" {
      assert s == was + rest && s[|was|..] == rest;
    } else {
      FrontOfThree(front, was, rest);
      FrontOfThree(front, now, Replace(rest, was, now));
      assert !(was <= s[0..]) && s[0..] == s;
      forall i | 0 <= i < |front[1..]| ensures !(was <= s[1..][i..]) { assert s[1..][i..] == s[i + 1..]; }
      ReplaceFirst(front[1..], was, now, rest);
    }
  }

  lemma {:induction false} ReplaceNothing(s: string, was: string, now: string)
    requires was != "" && forall i :: 0 <= i < |s| ==> !(was <= s[i..])
    ensures Replace(s, was, now) == s
    decreases |s|
  {
    if s != "" {
      assert s[0..] == s;
      forall i | 0 <= i < |s[1..]| ensures !(was <= s[1..][i..]) { assert s[1..][i..] == s[i + 1..]; }
      ReplaceNothing(s[1..], was, now);
    }
  }

  /** The two characters stand nowhere side by side. */
  ghost predicate NoPair(s: string, a: char, b: char) {
    forall i {:trigger s[i]} :: 0 <= i < |s| - 1 ==> !(s[i] == a && s[i + 1] == b)
  }

  lemma NoPairTail(s: string, a: char, b: char)
    requires s != ""
    ensures NoPair(s, a, b) <==> NoPair(s[1..], a, b) && !(|s| > 1 && s[0] == a && s[1] == b)
  {
    var tail := s[1..];
    if NoPair(s, a, b) {
      forall i | 0 <= i < |tail| - 1 ensures !(tail[i] == a && tail[i + 1] == b) {
        assert tail[i] == s[i + 1] && tail[i + 1] == s[i + 2];
      }
    }
    if NoPair(tail, a, b) && !(|s| > 1 && s[0] == a && s[1] == b) {
      forall i | 0 <= i < |s| - 1 ensures !(s[i] == a && s[i + 1] == b) {
        if i > 0 { assert s[i] == tail[i - 1] && s[i + 1] == tail[i]; }
      }
    }
  }

  lemma NoPairJoin(x: string, y: string, a: char, b: char)
    requires NoPair(x, a, b) && NoPair(y, a, b)
    requires x == "" || y == "" || !(Last(x) == a && y[0] == b)
    ensures NoPair(x + y, a, b)
  {
    var s := x + y;
    forall i | 0 <= i < |s| - 1 ensures !(s[i] == a && s[i + 1] == b) {
      if i + 1 < |x| {
        assert s[i] == x[i] && s[i + 1] == x[i + 1];
      } else if i >= |x| {
        assert s[i] == y[i - |x|] && s[i + 1] == y[i - |x| + 1];
      } else {
        assert s[i] == Last(x) && s[i + 1] == y[0];
      }
    }
  }

  /** Collapsing, told by its doubles: a text without any stays, and one double less changes
      nothing in the result. */
  lemma {:induction false} CollapseDouble(front: string, c: char, rest: string)
    ensures Collapse(front + [c, c] + rest, c) == Collapse(front + [c] + rest, c)
  {
    var long, short := front + [c, c] + rest, front + [c] + rest;
    if front == "" {
      assert long[1..] == short;
    } else {
      CollapseDouble(front[1..], c, rest);
      assert long[1..] == front[1..] + [c, c] + rest && short[1..] == front[1..] + [c] + rest;
      assert long[1] == short[1];
    }
  }

  lemma {:induction false} CollapseNothing(s: string, c: char)
    requires NoPair(s, c, c)
    ensures Collapse(s, c) == s
  {
    if s != "" {
      NoPairTail(s, c, c);
      CollapseNothing(s[1..], c);
    }
  }

  /** Collapsing leaves no double, and no new pair of other characters. */
  lemma {:induction false} CollapsePairs(s: string, c: char, a: char, b: char)
    requires NoPair(s, a, b)
    ensures NoPair(Collapse(s, c), c, c) && NoPair(Collapse(s, c), a, b)
    ensures s != "" ==> Collapse(s, c) != "" && Collapse(s, c)[0] == s[0]
  {
    if s != "" {
      NoPairTail(s, a, b);
      CollapsePairs(s[1..], c, a, b);
      var r := Collapse(s[1..], c);
      if !(|s| > 1 && s[0] == c && s[1] == c) {
        assert ([s[0]] + r)[1..] == r;
        NoPairTail([s[0]] + r, c, c);
        NoPairTail([s[0]] + r, a, b);
      }
    }
  }

  /** A replacement makes no new pair when the new text begins and ends with that half of
      the pair only where the old one did. */
  lemma {:induction false} ReplaceKeepsNoPair(s: string, was: string, now: string, a: char, b: char)
    requires was != "" && now != "" && NoPair(s, a, b) && NoPair(now, a, b)
    requires now[0] == b ==> was[0] == b
    requires Last(now) == a ==> Last(was) == a
    ensures var r := Replace(s, was, now);
            NoPair(r, a, b) && (s == "" ==> r == "") && (r != "" && r[0] == b ==> s != "" && s[0] == b)
    decreases |s|
  {
    if s != "" {
      if was <= s {
        var rest := s[|was|..];
        assert s == was + rest && s[|was| - 1] == Last(was) && (rest != "" ==> s[|was|] == rest[0]);
        NoPairBehind(s, |was|, a, b);
        ReplaceKeepsNoPair(rest, was, now, a, b);
        if rest != "" { assert !(s[|was| - 1] == a && s[|was| - 1 + 1] == b); }
        NoPairJoin(now, Replace(rest, was, now), a, b);
      } else {
        NoPairTail(s, a, b);
        ReplaceKeepsNoPair(s[1..], was, now, a, b);
        NoPairJoin([s[0]], Replace(s[1..], was, now), a, b);
      }
    }
  }

  lemma NoPairBehind(s: string, k: nat, a: char, b: char)
    requires NoPair(s, a, b) && k <= |s|
    ensures NoPair(s[k..], a, b)
  {
    forall i | 0 <= i < |s[k..]| - 1 ensures !(s[k..][i] == a && s[k..][i + 1] == b) {
      assert s[k..][i] == s[k + i] && s[k..][i + 1] == s[k + i + 1];
    }
  }

  /** Replacing a pair removes it, unless its first half can be left standing before what
      is put in: when that is the second half, doubles of the first must be gone already. */
  lemma {:induction false} ReplaceRemovesPair(s: string, a: char, b: char, c: char)
    requires c != a && (c == b ==> NoPair(s, a, a))
    ensures var r := Replace(s, [a, b], [c]);
            NoPair(r, a, b) && (s == "" ==> r == "")
            && (r != "" && r[0] == b && b != c ==> s != "" && s[0] == b)
            && (r != "" && r[0] == b && b == c ==> s[0] == b || [a, b] <= s)
    decreases |s|
  {
    if s != "" {
      if [a, b] <= s {
        if c == b { NoPairBehind(s, 2, a, a); }
        ReplaceRemovesPair(s[2..], a, b, c);
        NoPairJoin([c], Replace(s[2..], [a, b], [c]), a, b);
      } else {
        if c == b { NoPairTail(s, a, a); }
        ReplaceRemovesPair(s[1..], a, b, c);
        NoPairJoin([s[0]], Replace(s[1..], [a, b], [c]), a, b);
      }
    }
  }

  /** The quote at the start opens a pair: the next quote closes it, behind something and
      before any line break. */
  ghost predicate OpensPair(s: string) {
    s != "" && s[0] == '"'
    && exists k :: 2 <= k < |s| && s[k] == '"' && forall j :: 1 <= j < k ==> s[j] != '"' && s[j] != '\n'
  }

  lemma ClosingQuoteIff(s: string, k: nat)
    ensures ClosingQuote(s) == 0 <==> !OpensPair(s)
    ensures (s != "" && s[0] == '"' && 2 <= k < |s| && s[k] == '"'
             && forall j :: 1 <= j < k ==> s[j] != '"' && s[j] != '\n') ==> ClosingQuote(s) == k
  {
    if s != "" && s[0] == '"' {
      var tail := s[1..];
      var delim := c => c == '"' || c == '\n';
      var i := FirstDelimiter(tail, delim);
      assert forall j :: 1 <= j < |s| ==> s[j] == tail[j - 1];
      if k :| 2 <= k < |s| && s[k] == '"' && forall j :: 1 <= j < k ==> s[j] != '"' && s[j] != '\n' {
        QuoteEnd(s, tail, k);
      }
      if 2 <= k < |s| && s[k] == '"' && forall j :: 1 <= j < k ==> s[j] != '"' && s[j] != '\n' {
        QuoteEnd(s, tail, k);
      }
    }
  }

  lemma QuoteEnd(s: string, tail: string, k: nat)
    requires s != "" && s[0] == '"' && tail == s[1..] && 2 <= k < |s| && s[k] == '"'
    requires forall j :: 1 <= j < k ==> s[j] != '"' && s[j] != '\n'
    ensures ClosingQuote(s) == k
  {
    var i := FirstDelimiter(tail, c => c == '"' || c == '\n');
    assert forall j :: 0 <= j < |tail| ==> tail[j] == s[j + 1];
    assert tail[k - 1] == '"';
  }

  /** Quotes, told by their pairs: the first pair becomes curly and the rest is treated
      alike; a quote that opens no pair and a text without quotes stay. */
  lemma {:induction false} CurlyPair(front: string, inner: string, rest: string)
    requires forall j :: 0 <= j < |front| ==> front[j] != '"'
    requires inner != "" && forall j :: 0 <= j < |inner| ==> inner[j] != '"' && inner[j] != '\n'
    ensures Curly(front + "\"" + inner + "\"" + rest) == front + "“" + inner + "”" + Curly(rest)
    decreases |front|
  {
    hide ClosingQuote, Curly;
    if front == "" {
      QuotedFirst(inner, rest);
    } else {
      var s := front + "\"" + inner + "\"" + rest;
      var tail, curlyTail := front[1..] + "\"" + inner + "\"" + rest, front[1..] + "“" + inner + "”" + Curly(rest);
      assert s == [front[0]] + tail && s[1..] == tail;
      CurlySkips(s);
      CurlyPair(front[1..], inner, rest);
      assert front + "“" + inner + "”" + Curly(rest) == [front[0]] + curlyTail;
    }
  }

  lemma CurlySkips(s: string)
    requires s != "" && s[0] != '"'
    ensures Curly(s) == [s[0]] + Curly(s[1..])
  {
    hide ClosingQuote;
    NoQuoteNoPair(s);
  }

  lemma QuotedFirst(inner: string, rest: string)
    requires inner != "" && forall j :: 0 <= j < |inner| ==> inner[j] != '"' && inner[j] != '\n'
    ensures Curly("" + "\"" + inner + "\"" + rest) == "" + "“" + inner + "”" + Curly(rest)
  {
    hide ClosingQuote;
    var s, k := "" + "\"" + inner + "\"" + rest, 1 + |inner|;
    assert s[0] == '"' && s[k] == '"' && s[1..k] == inner && s[k + 1..] == rest;
    ClosingQuoteIff(s, k);
  }

  lemma {:induction false} CurlyLone(front: string, rest: string)
    requires forall j :: 0 <= j < |front| ==> front[j] != '"'
    ensures !OpensPair("\"" + rest) ==> Curly(front + "\"" + rest) == front + "\"" + Curly(rest)
    decreases |front|
  {
    hide ClosingQuote, OpensPair;
    var s := front + "\"" + rest;
    if front == "" {
      ClosingQuoteIff(s, 0);
      assert s == "\"" + rest && s[1..] == rest;
    } else {
      FrontOfThree(front, "\"", rest);
      FrontOfThree(front, "\"", Curly(rest));
      NoQuoteNoPair(s);
      CurlyLone(front[1..], rest);
    }
  }

  lemma {:induction false} CurlyNothing(s: string)
    requires forall j :: 0 <= j < |s| ==> s[j] != '"'
    ensures Curly(s) == s
  {
    hide ClosingQuote;
    if s != "" {
      NoQuoteNoPair(s);
      CurlyNothing(s[1..]);
    }
  }

  lemma NoQuoteNoPair(s: string)
    requires s != "" && s[0] != '"'
    ensures ClosingQuote(s) == 0
  {
  }

  /** A text with nothing to normalise is only stripped. */
  lemma NormalizeLeaves(text: string)
    requires forall j :: 0 <= j < |text| ==> text[j] != '"'
    requires NoPair(text, '—', '—') && NoPair(text, '，', '，') && NoPair(text, '。', '。') && NoPair(text, '，', '。')
    ensures NormalizePunctuation(text) == Strip(text)
  {
    hide Replace, Collapse, Curly, Strip, Lead, NoPair, OpensPair;
    var s := Strip(text);
    StripSlice(text);
    CurlyNothing(s);
    forall a, b | NoPair(text, a, b) ensures NoPair(s, a, b) { NoPairInside(text, Lead(text), s, a, b); }
    PairAbsent(s, '—', '—', "，");
    CollapseNothing(s, '，');
    CollapseNothing(s, '。');
    PairAbsent(s, '，', '。', "。");
    PairAbsent(s, '。', '。', "。");
  }

  lemma NoPairInside(text: string, off: nat, part: string, a: char, b: char)
    requires NoPair(text, a, b) && off + |part| <= |text| && part == text[off..off + |part|]
    ensures NoPair(part, a, b)
  {
    forall i | 0 <= i < |part| - 1 ensures !(part[i] == a && part[i + 1] == b) {
      assert part[i] == text[off + i] && part[i + 1] == text[off + i + 1];
    }
  }

  lemma PairAbsent(s: string, a: char, b: char, now: string)
    requires NoPair(s, a, b)
    ensures Replace(s, [a, b], now) == s
  {
    forall i | 0 <= i < |s| ensures !([a, b] <= s[i..]) {
      if |s[i..]| >= 2 { assert s[i..][0] == s[i] && s[i..][1] == s[i + 1]; }
    }
    ReplaceNothing(s, [a, b], now);
  }

  /** What normalising guarantees: no long dash, no doubled comma and no comma before a full
      stop is left. A doubled full stop can be: see `DoubleStopCanRemain`. */
  lemma NormalizeRemoves(text: string)
    ensures var r := NormalizePunctuation(text);
            NoPair(r, '—', '—') && NoPair(r, '，', '，') && NoPair(r, '，', '。')
  {
    hide Replace, Collapse, Curly, Strip, NoPair;
    var quoted := Replace(Curly(Strip(text)), "——", "，");
    ReplaceRemovesPair(Curly(Strip(text)), '—', '—', '，');
    var commas := Collapse(quoted, '，');
    CollapsePairs(quoted, '，', '—', '—');
    var collapsed := Collapse(commas, '。');
    CollapsePairs(commas, '。', '—', '—');
    CollapsePairs(commas, '。', '，', '，');
    var stops := Replace(collapsed, "，。", "。");
    SingleHasNoPair();
    ReplaceKeepsNoPair(collapsed, "，。", "。", '—', '—');
    ReplaceKeepsNoPair(collapsed, "，。", "。", '，', '，');
    ReplaceRemovesPair(collapsed, '，', '。', '。');
    ReplaceKeepsNoPair(stops, "。。", "。", '—', '—');
    ReplaceKeepsNoPair(stops, "。。", "。", '，', '，');
    ReplaceKeepsNoPair(stops, "。。", "。", '，', '。');
  }

  lemma SingleHasNoPair()
    ensures forall a, b :: NoPair("。", a, b)
  {
  }

  predicate HasTerminal(text: string) {
    Strip(text) != "" && IsTerminal(Last(Strip(text)))
  }

  function EnsureTerminal(text: string, max: int): string {
    var stripped := NormalizePunctuation(text);
    if stripped == "" || HasTerminal(stripped) then stripped
    else if CountChars(stripped) + 1 <= max then stripped + "。"
    else stripped
  }

  lemma CountConcat(a: string, b: string)
    ensures CountChars(a + b) == CountChars(a) + CountChars(b)
  {
    SqueezeConcat(a, b);
  }

  lemma CountHead(s: string)
    requires s != ""
    ensures CountChars(s) == CountChars([s[0]]) + CountChars(s[1..])
    ensures CountChars([s[0]]) == if IsSpace(s[0]) then 0 else 1
  {
    assert s == [s[0]] + s[1..];
    CountConcat([s[0]], s[1..]);
    assert [s[0]][1..] == "";
  }

  lemma {:induction false} ReplaceShrinks(s: string, was: string, now: string)
    requires was != "" && CountChars(now) <= CountChars(was)
    ensures CountChars(Replace(s, was, now)) <= CountChars(s)
    decreases |s|
  {
    hide CountChars;
    if s != "" {
      if was <= s {
        ReplaceShrinks(s[|was|..], was, now);
        CountConcat(now, Replace(s[|was|..], was, now));
        CountConcat(was, s[|was|..]);
        assert s == was + s[|was|..];
      } else {
        ReplaceShrinks(s[1..], was, now);
        CountConcat([s[0]], Replace(s[1..], was, now));
        CountHead(s);
      }
    } else {
      assert Replace(s, was, now) == s;
    }
  }

  lemma {:induction false} CollapseShrinks(s: string, c: char)
    ensures CountChars(Collapse(s, c)) <= CountChars(s)
  {
    hide CountChars;
    if s != "" {
      CollapseShrinks(s[1..], c);
      CountHead(s);
      CountConcat([s[0]], Collapse(s[1..], c));
    } else {
      assert Collapse(s, c) == s;
    }
  }

  lemma {:induction false} CurlyKeepsCount(s: string)
    ensures CountChars(Curly(s)) == CountChars(s)
    decreases |s|
  {
    hide CountChars, ClosingQuote;
    if s != "" {
      var k := ClosingQuote(s);
      if k > 0 {
        CurlyKeepsCount(s[k + 1..]);
        QuotedCount(s[1..k], s[k + 1..], Curly(s[k + 1..]));
        AroundFirstAnd(s, k);
      } else {
        CountHead(s);
        CurlyKeepsCount(s[1..]);
        CountConcat([s[0]], Curly(s[1..]));
      }
    } else {
      assert Curly(s) == s;
    }
  }

  lemma QuotedCount(inner: string, rest: string, curlyRest: string)
    requires CountChars(curlyRest) == CountChars(rest)
    ensures CountChars(['“'] + inner + ['”'] + curlyRest) == CountChars(['"'] + inner + ['"'] + rest)
  {
    hide CountChars;
    CountHead(['“']);
    CountHead(['”']);
    CountHead(['"']);
    CountConcat(['“'] + inner + ['”'], curlyRest);
    CountConcat(['“'] + inner, ['”']);
    CountConcat(['“'], inner);
    CountConcat(['"'] + inner + ['"'], rest);
    CountConcat(['"'] + inner, ['"']);
    CountConcat(['"'], inner);
  }

  lemma MarkCounts()
    ensures CountChars("，") == 1 && CountChars("。") == 1 && CountChars("——") == 2
    ensures CountChars("，。") == 2 && CountChars("。。") == 2
  {
  }

  /** Normalising punctuation never adds characters. */
  lemma NormalizeShrinks(text: string)
    ensures CountChars(NormalizePunctuation(text)) <= CountChars(text)
  {
    hide CountChars, Replace, Collapse, Curly, Strip;
    MarkCounts();
    StripCount(text);
    CurlyKeepsCount(Strip(text));
    var quoted := Replace(Curly(Strip(text)), "——", "，");
    ReplaceShrinks(Curly(Strip(text)), "——", "，");
    CollapseShrinks(quoted, '，');
    var collapsed := Collapse(Collapse(quoted, '，'), '。');
    CollapseShrinks(Collapse(quoted, '，'), '。');
    ReplaceShrinks(collapsed, "，。", "。");
    ReplaceShrinks(Replace(collapsed, "，。", "。"), "。。", "。");
  }

  /** A doubled full stop can be left: removing commas joins three stops, and one
      replacement leaves two of them. */
  lemma DoubleStopCanRemain()
    ensures NormalizePunctuation("。，。，。") == "。。"
  {
    hide Strip, Lead, IsSpace, Replace, Curly, Collapse;
    DotsTrimmed();
    var s := "。，。，。";
    StripTrimmed(s);
    CurlyNothing(s);
    PairAbsent(s, '—', '—', "，");
    CollapseNothing(s, '，');
    CollapseNothing(s, '。');
    StopsJoin();
  }

  lemma DotsTrimmed()
    ensures Trimmed("。，。，。")
  {
  }

  lemma StopsJoin()
    ensures Replace("。，。，。", "，。", "。") == "。。。"
    ensures Replace("。。。", "。。", "。") == "。。"
  {
    var s := "。，。，。";
    assert Replace(s[5..], "，。", "。") == "";
    assert Replace(s[3..], "，。", "。") == "。";
    assert Replace(s[1..], "，。", "。") == "。。";
    assert Replace("。。。"[2..], "。。", "。") == "。";
  }

  /** The result ends a sentence unless the text is blank or the budget has no room for one
      more character; it is the normalised text, or that and a full stop. */
  lemma EnsureTerminalEnds(text: string, max: int)
    ensures var n, r := NormalizePunctuation(text), EnsureTerminal(text, max);
            && (HasTerminal(r) || n == "" || CountChars(n) >= max)
            && (r == n || r == n + "。") && (n == "" ==> r == "")
            && (HasTerminal(n) || CountChars(n) >= max ==> r == n)
  {
    hide CountChars, NormalizePunctuation;
    var n := NormalizePunctuation(text);
    StopEnds(n);
  }

  lemma StopEnds(n: string)
    ensures HasTerminal(n + "。")
  {
    var s := n + "。";
    hide Lead;
    StripSlice(s);
    var r := Strip(s);
    assert !IsSpace(s[|s| - 1]);
    assert Lead(s) + |r| == |s|;
    assert Last(r) == s[|s| - 1];
  }

  /** Adding the final full stop never breaks a budget that holds without it. */
  lemma EnsureTerminalWithin(text: string, max: int)
    requires CountChars(text) <= max
    ensures CountChars(EnsureTerminal(text, max)) <= max
  {
    hide CountChars, NormalizePunctuation, Strip;
    NormalizeShrinks(text);
    MarkCounts();
    CountConcat(NormalizePunctuation(text), "。");
  }

  // ---------------------------------------------------------------- heuristic_rewrite

  /** Replacements are applied in order until the text is short enough. */
  function Shortened(out: string, max: int, table: seq<(string, string)>): string
    decreases |table|
  {
    if table == [] || CountChars(out) <= max then out
    else
      var (was, now) := table[0];
      Shortened(if was == "" then out else Replace(out, was, now), max, table[1..])
  }

  /** No entry of the table replaces a phrase by a longer one. */
  ghost predicate Shortening(table: seq<(string, string)>) {
    forall k :: 0 <= k < |table| ==> CountChars(table[k].1) <= CountChars(table[k].0)
  }

  /** With such a table the replacements never add visible characters, and they leave a
      text that fits the budget alone. */
  lemma {:induction false} ShorteningTableShrinks(out: string, max: int, table: seq<(string, string)>)
    requires Shortening(table)
    ensures CountChars(Shortened(out, max, table)) <= CountChars(out)
    ensures CountChars(out) <= max ==> Shortened(out, max, table) == out
    decreases |table|
  {
    hide CountChars;
    if table != [] && CountChars(out) > max {
      var (was, now) := table[0];
      assert CountChars(now) <= CountChars(was);
      var next := if was == "" then out else Replace(out, was, now);
      if was != "" { ReplaceShrinks(out, was, now); }
      assert Shortening(table[1..]);
      ShorteningTableShrinks(next, max, table[1..]);
    }
  }

  predicate Contains(s: string, t: string) {
    t <= s || (s != "" && Contains(s[1..], t))
  }

  function Clarified(out: string, budget: Budget, rules: Rules): string {
    if (forall t :: t in rules.clarityTerms ==> Contains(out, t))
       && budget.min <= CountChars(rules.clarityText) <= budget.max
    then rules.clarityText else out
  }

  /** The stretch of `s` that starts at `i` is `t`. */
  predicate StandsAt(s: string, t: string, i: int) {
    0 <= i && i + |t| <= |s| && s[i..i + |t|] == t
  }

  lemma {:induction false} ContainsIff(s: string, t: string)
    ensures Contains(s, t) <==> exists i :: StandsAt(s, t, i)
  {
    hide StandsAt;
    StandsLater(s, t);
    if t <= s { assert StandsAt(s, t, 0); }
    if s != "" {
      ContainsIff(s[1..], t);
      StandsLater(s[1..], t);
      if i :| StandsAt(s[1..], t, i) { assert StandsAt(s, t, i + 1); }
      if i :| StandsAt(s, t, i) && i != 0 { assert StandsAt(s[1..], t, i - 1); }
    }
  }

  lemma StandsLater(s: string, t: string)
    ensures StandsAt(s, t, 0) <==> t <= s
    ensures s != "" ==> forall i :: i != 0 ==> (StandsAt(s, t, i) <==> StandsAt(s[1..], t, i - 1))
    ensures s != "" ==> forall i :: 0 <= i ==> (StandsAt(s, t, i + 1) <==> StandsAt(s[1..], t, i))
    ensures forall i :: StandsAt(s, t, i) ==> 0 <= i && (s == "" ==> i == 0)
  {
    if s != "" {
      forall i | i != 0 ensures StandsAt(s, t, i) <==> StandsAt(s[1..], t, i - 1) {
        if 1 <= i && i + |t| <= |s| { SliceOfSlice(s, 1, s[1..], i - 1, i - 1 + |t|); }
      }
      forall i | 0 <= i ensures StandsAt(s, t, i + 1) <==> StandsAt(s[1..], t, i) {
        if i + 1 + |t| <= |s| { SliceOfSlice(s, 1, s[1..], i, i + |t|); }
      }
    }
  }

  /** The replacements of the table, one after the other. */
  function ReplacedAll(out: string, table: seq<(string, string)>): string {
    if table == [] then out
    else
      var (was, now) := Last(table);
      var before := ReplacedAll(out, Init(table));
      if was == "" then before else Replace(before, was, now)
  }

  lemma {:induction false} ReplacedFirst(out: string, table: seq<(string, string)>)
    requires table != []
    ensures ReplacedAll(out, table)
            == ReplacedAll(if table[0].0 == "" then out else Replace(out, table[0].0, table[0].1), table[1..])
  {
    if |table| == 1 {
      assert Init(table) == [] && table[1..] == [];
    } else {
      ReplacedFirst(out, Init(table));
      assert Init(table)[1..] == Init(table[1..]) && Last(table[1..]) == Last(table) && Init(table)[0] == table[0];
    }
  }

  /** Exactly as many replacements are made, in the order of the table, as the text needs to
      fit the budget. */
  lemma {:induction false} ShortenedIsLeast(out: string, max: int, table: seq<(string, string)>) returns (n: nat)
    ensures n <= |table| && Shortened(out, max, table) == ReplacedAll(out, table[..n])
    ensures n < |table| ==> CountChars(Shortened(out, max, table)) <= max
    ensures forall m :: 0 <= m < n ==> CountChars(ReplacedAll(out, table[..m])) > max
    decreases |table|
  {
    hide CountChars, Replace;
    if table == [] || CountChars(out) <= max {
      n := 0;
      assert table[..0] == [];
    } else {
      var next := if table[0].0 == "" then out else Replace(out, table[0].0, table[0].1);
      var k := ShortenedIsLeast(next, max, table[1..]);
      n := k + 1;
      forall m | 0 < m <= |table| ensures ReplacedAll(out, table[..m]) == ReplacedAll(next, table[1..][..m - 1]) {
        ReplacedFirst(out, table[..m]);
        assert table[..m][1..] == table[1..][..m - 1];
      }
      assert table[..0] == [];
      forall m | 0 <= m < n ensures CountChars(ReplacedAll(out, table[..m])) > max {
        if m > 0 { assert CountChars(ReplacedAll(next, table[1..][..m - 1])) > max; }
      }
    }
  }

  /** The hand-written text is taken exactly when all its terms occur and it fits. */
  lemma ClarifiedIff(out: string, budget: Budget, rules: Rules)
    ensures Clarified(out, budget, rules) ==
              if (forall t :: t in rules.clarityTerms ==> exists i :: StandsAt(out, t, i))
                 && budget.min <= CountChars(rules.clarityText) && CountChars(rules.clarityText) <= budget.max
              then rules.clarityText else out
  {
    hide CountChars, StandsAt;
    forall t ensures Contains(out, t) <==> exists i :: StandsAt(out, t, i) { ContainsIff(out, t); }
  }

  /** The first sentences that fit together. */
  function Kept(sentences: seq<string>, max: int): (kept: seq<string>)
    ensures |kept| <= |sentences|
  {
    if sentences == [] then []
    else
      var kept := Kept(Init(sentences), max);
      if |kept| == |sentences| - 1 && CountChars(Join(kept + [Last(sentences)])) <= max
      then kept + [Last(sentences)] else kept
  }

  /** The longest prefix with at most `max` visible characters. */
  function Within(out: string, max: int): (prefix: string)
    ensures prefix <= out
  {
    if out == "" then ""
    else
      var prefix := Within(Init(out), max);
      if |prefix| == |out| - 1 && CountChars(out) <= max then out else prefix
  }

  /** The longest prefix of at most n characters that ends in terminal punctuation and
      has the minimum length; 0 when there is none. */
  function LastEnd(trimmed: string, n: nat, min: int): (k: nat)
    requires n <= |trimmed|
    ensures k <= n
    ensures k > 0 ==> IsTerminal(trimmed[k - 1]) && CountChars(trimmed[..k]) >= min
    ensures forall i :: k < i <= n ==> !(IsTerminal(trimmed[i - 1]) && CountChars(trimmed[..i]) >= min)
  {
    if n == 0 then 0
    else if IsTerminal(trimmed[n - 1]) && CountChars(trimmed[..n]) >= min then n
    else LastEnd(trimmed, n - 1, min)
  }

  function CutToBudget(out: string, budget: Budget): string {
    var joined := Strip(Join(Kept(Clauses(Strip(out), EndsSentence), budget.max)));
    if CountChars(joined) >= budget.min && HasTerminal(joined) then joined
    else
      var trimmed := Strip(Within(out, budget.max));
      var k := LastEnd(trimmed, |trimmed|, budget.min);
      if k > 0 then Strip(trimmed[..k]) else EnsureTerminal(trimmed, budget.max)
  }

  function Draft(text: string, budget: Budget, rules: Rules): string {
    Clarified(Shortened(NormalizePunctuation(text), budget.max, rules.replacements), budget, rules)
  }

  function Rewritten(text: string, budget: Budget, rules: Rules): string {
    var out := Draft(text, budget, rules);
    if CountChars(out) <= budget.max then EnsureTerminal(out, budget.max) else CutToBudget(out, budget)
  }

  method HeuristicRewrite(text: string, budget: Budget, rules: Rules) returns (result: string)
    ensures result == Rewritten(text, budget, rules)
  {
    hide CountChars, Strip, NormalizePunctuation, Replace, EnsureTerminal, Clauses, HasTerminal;
    var out := NormalizePunctuation(text);
    for k := 0 to |rules.replacements|
      invariant Shortened(out, budget.max, rules.replacements[k..])
                == Shortened(NormalizePunctuation(text), budget.max, rules.replacements)
    {
      if CountChars(out) <= budget.max { break; }
      var (was, now) := rules.replacements[k];
      assert rules.replacements[k..][1..] == rules.replacements[k + 1..];
      if was != "" { out := Replace(out, was, now); }
    }
    out := Clarified(out, budget, rules);
    if CountChars(out) <= budget.max {
      return EnsureTerminal(out, budget.max);
    }
    var joined := KeepSentences(out, budget.max);
    if CountChars(joined) >= budget.min && HasTerminal(joined) { return joined; }
    var prefix := TakeWithin(out, budget.max);
    var trimmed := Strip(prefix);
    var index := |trimmed| - 1;
    while index >= 0
      invariant -1 <= index < |trimmed|
      invariant LastEnd(trimmed, |trimmed|, budget.min) == LastEnd(trimmed, index + 1, budget.min)
    {
      if IsTerminal(trimmed[index]) && CountChars(trimmed[..index + 1]) >= budget.min {
        return Strip(trimmed[..index + 1]);
      }
      index := index - 1;
    }
    result := EnsureTerminal(trimmed, budget.max);
  }

  method KeepSentences(out: string, max: int) returns (joined: string)
    ensures joined == Strip(Join(Kept(Clauses(Strip(out), EndsSentence), max)))
  {
    hide CountChars, Strip, Clauses, Join;
    var sentences := SplitWithDelimiters(Strip(out), EndsSentence);
    var kept: seq<string> := [];
    assert sentences[..|sentences|] == sentences;
    for k := 0 to |sentences|
      invariant kept == Kept(sentences[..k], max) && |kept| == k
    {
      KeptNext(sentences, k, max);
      if CountChars(Join(kept + [sentences[k]])) <= max {
        kept := kept + [sentences[k]];
        continue;
      }
      KeptStops(sentences, k + 1, max);
      break;
    }
    joined := Strip(Join(kept));
  }

  lemma KeptNext(sentences: seq<string>, k: nat, max: int)
    requires k < |sentences|
    ensures var kept := Kept(sentences[..k], max);
            Kept(sentences[..k + 1], max) ==
              if |kept| == k && CountChars(Join(kept + [sentences[k]])) <= max then kept + [sentences[k]] else kept
  {
    assert Init(sentences[..k + 1]) == sentences[..k];
  }

  /** Once a sentence did not fit, no later one is kept. */
  lemma {:induction false} KeptStops(sentences: seq<string>, k: nat, max: int)
    requires k <= |sentences| && |Kept(sentences[..k], max)| < k
    ensures Kept(sentences, max) == Kept(sentences[..k], max)
    decreases |sentences| - k
  {
    if k == |sentences| {
      assert sentences[..k] == sentences;
    } else {
      KeptNext(sentences, k, max);
      KeptStops(sentences, k + 1, max);
    }
  }

  method TakeWithin(out: string, max: int) returns (prefix: string)
    ensures prefix == Within(out, max)
  {
    hide CountChars;
    prefix := "";
    var count := 0;
    CountNothing();
    assert out[..|out|] == out;
    for k := 0 to |out|
      invariant prefix == out[..k] == Within(out[..k], max) && count == CountChars(out[..k])
    {
      WithinNext(out, k, max);
      if !IsSpace(out[k]) { count := count + 1; }
      if count > max {
        WithinStops(out, k + 1, max);
        break;
      }
      prefix := prefix + [out[k]];
    }
  }

  lemma CountNothing()
    ensures CountChars("") == 0
  {
  }

  lemma WithinNext(out: string, k: nat, max: int)
    requires k < |out|
    ensures CountChars(out[..k + 1]) == CountChars(out[..k]) + if IsSpace(out[k]) then 0 else 1
    ensures var prefix := Within(out[..k], max);
            Within(out[..k + 1], max) ==
              if |prefix| == k && CountChars(out[..k + 1]) <= max then out[..k + 1] else prefix
  {
    assert Init(out[..k + 1]) == out[..k];
    assert out[..k + 1] == out[..k] + [out[k]];
    CountConcat(out[..k], [out[k]]);
    CountHead([out[k]]);
  }

  lemma {:induction false} WithinStops(out: string, k: nat, max: int)
    requires k <= |out| && |Within(out[..k], max)| < k
    ensures Within(out, max) == Within(out[..k], max)
    decreases |out| - k
  {
    if k == |out| {
      assert out[..k] == out;
    } else {
      WithinNext(out, k, max);
      WithinStops(out, k + 1, max);
    }
  }

  lemma {:induction false} KeptFits(sentences: seq<string>, max: int)
    requires max >= 0
    ensures CountChars(Join(Kept(sentences, max))) <= max
    ensures Kept(sentences, max) <= sentences
  {
    hide CountChars, Join;
    if sentences != [] {
      KeptFits(Init(sentences), max);
      assert sentences == Init(sentences) + [Last(sentences)];
    } else {
      NothingFits();
    }
  }

  /** One sentence more would not fit. */
  lemma {:induction false} KeptIsLongest(sentences: seq<string>, max: int)
    ensures var n := |Kept(sentences, max)|;
            && Kept(sentences, max) == sentences[..n]
            && (n < |sentences| ==> CountChars(Join(sentences[..n + 1])) > max)
  {
    hide CountChars, Join;
    if sentences != [] {
      var front := Init(sentences);
      KeptIsLongest(front, max);
      var n := |Kept(front, max)|;
      if n == |front| {
        assert front[..n] == front && front + [Last(sentences)] == sentences == sentences[..|sentences|];
        assert sentences[..n] == front;
      } else {
        assert front[..n + 1] == sentences[..n + 1] && front[..n] == sentences[..n];
      }
    }
  }

  lemma NothingFits()
    ensures CountChars(Join([])) == 0
  {
  }

  lemma {:induction false} WithinFits(out: string, max: int)
    requires max >= 0
    ensures CountChars(Within(out, max)) <= max
  {
    hide CountChars;
    if out != "" { WithinFits(Init(out), max); } else { CountNothing(); }
  }

  /** A text that is too long is cut at exactly the budget. */
  lemma {:induction false} WithinIsLongest(out: string, max: int)
    requires max >= 0
    ensures CountChars(out) <= max ==> Within(out, max) == out
    ensures CountChars(out) > max ==> CountChars(Within(out, max)) == max
  {
    hide CountChars;
    if out == "" {
      CountNothing();
    } else {
      var front := Init(out);
      WithinIsLongest(front, max);
      assert out == front + [Last(out)];
      CountConcat(front, [Last(out)]);
      CountHead([Last(out)]);
      CountNothing();
      PrefixCount(out, |front|);
    }
  }

  lemma PrefixCount(s: string, k: nat)
    requires k <= |s|
    ensures CountChars(s[..k]) <= CountChars(s)
    ensures Squeeze(s[..k]) <= Squeeze(s)
  {
    assert s == s[..k] + s[k..];
    SqueezeConcat(s[..k], s[k..]);
  }

  /** Cutting fits the budget on each of its paths. */
  lemma CutFits(out: string, budget: Budget)
    requires budget.max >= 0
    ensures CountChars(CutToBudget(out, budget)) <= budget.max
  {
    hide CountChars, Strip, Kept, Within, LastEnd, EnsureTerminal, Clauses, Join, HasTerminal;
    var sentences := Clauses(Strip(out), EndsSentence);
    KeptFits(sentences, budget.max);
    StripCount(Join(Kept(sentences, budget.max)));
    WithinFits(out, budget.max);
    StripCount(Within(out, budget.max));
    var trimmed := Strip(Within(out, budget.max));
    var k := LastEnd(trimmed, |trimmed|, budget.min);
    PrefixCount(trimmed, k);
    StripCount(trimmed[..k]);
    EnsureTerminalWithin(trimmed, budget.max);
  }

  /** Every path of the rewriter, including the added full stop, stays within the maximum. */
  lemma RewriteWithinBudget(text: string, budget: Budget, rules: Rules)
    requires budget.max >= 0
    ensures CountChars(Rewritten(text, budget, rules)) <= budget.max
  {
    hide CountChars, EnsureTerminal, CutToBudget, Draft;
    var out := Draft(text, budget, rules);
    if CountChars(out) <= budget.max { EnsureTerminalWithin(out, budget.max); }
    CutFits(out, budget);
  }

  /** The rewriter step by step: the normalised text, the replacements it needs, the clearer
      text where all its terms occur and it fits, and a full stop or a cut. */
  lemma RewriteSteps(text: string, budget: Budget, rules: Rules) returns (n: nat, draft: string)
    ensures n <= |rules.replacements|
    ensures n < |rules.replacements| ==>
              CountChars(ReplacedAll(NormalizePunctuation(text), rules.replacements[..n])) <= budget.max
    ensures forall m :: 0 <= m < n ==>
              CountChars(ReplacedAll(NormalizePunctuation(text), rules.replacements[..m])) > budget.max
    ensures var out := ReplacedAll(NormalizePunctuation(text), rules.replacements[..n]);
            draft == if (forall t :: t in rules.clarityTerms ==> exists i :: StandsAt(out, t, i))
                        && budget.min <= CountChars(rules.clarityText) && CountChars(rules.clarityText) <= budget.max
                     then rules.clarityText else out
    ensures Rewritten(text, budget, rules)
            == if CountChars(draft) <= budget.max then EnsureTerminal(draft, budget.max) else CutToBudget(draft, budget)
  {
    hide CountChars, NormalizePunctuation, EnsureTerminal, CutToBudget, StandsAt, Clarified, Shortened;
    n := ShortenedIsLeast(NormalizePunctuation(text), budget.max, rules.replacements);
    ClarifiedIff(Shortened(NormalizePunctuation(text), budget.max, rules.replacements), budget, rules);
    draft := Draft(text, budget, rules);
  }

  /** The rewritten text ends a sentence, or uses up the budget, or is blank. */
  lemma RewriteEndsOrFills(text: string, budget: Budget, rules: Rules)
    requires budget.max >= 0
    ensures var r := Rewritten(text, budget, rules);
            HasTerminal(r) || CountChars(r) == budget.max || r == ""
  {
    hide CountChars, EnsureTerminal, CutToBudget, Draft, HasTerminal;
    var out := Draft(text, budget, rules);
    RewriteWithinBudget(text, budget, rules);
    if CountChars(out) <= budget.max {
      EnsureTerminalEnds(out, budget.max);
    } else {
      var p := CutEndsSentence(out, budget);
      EnsureTerminalEnds(Strip(p), budget.max);
    }
  }

  /** Cutting at sentence ends keeps an initial stretch of the visible text and, by its
      own test, at least the minimum length. */
  lemma CutKeepsPrefix(out: string, budget: Budget)
    ensures var joined := Strip(Join(Kept(Clauses(Strip(out), EndsSentence), budget.max)));
            Squeeze(joined) <= Squeeze(out)
    ensures var trimmed := Strip(Within(out, budget.max)); var k := LastEnd(trimmed, |trimmed|, budget.min);
            Squeeze(Strip(trimmed[..k])) <= Squeeze(out)
  {
    hide Squeeze, Strip, Within, LastEnd, Clauses, Join, Kept;
    var sentences := Clauses(Strip(out), EndsSentence);
    var kept := Kept(sentences, budget.max);
    ClausesFacts(Strip(out), EndsSentence);
    StripFacts(out);
    KeptIsPrefix(sentences, budget.max);
    assert sentences == kept + sentences[|kept|..];
    SqueezeJoinConcat(kept, sentences[|kept|..]);
    StripFacts(Join(kept));
    var prefix := Within(out, budget.max);
    var trimmed := Strip(prefix);
    var k := LastEnd(trimmed, |trimmed|, budget.min);
    StripFacts(prefix);
    PrefixCount(trimmed, k);
    StripFacts(trimmed[..k]);
    assert prefix == out[..|prefix|];
    PrefixCount(out, |prefix|);
  }

  lemma TerminalIsVisible(s: string, k: nat)
    requires 0 < k <= |s| && IsTerminal(s[k - 1])
    ensures HasTerminal(s[..k])
  {
    hide Lead;
    var p := s[..k];
    StripSlice(p);
    assert p[k - 1] == s[k - 1] && !IsSpace(p[k - 1]);
    assert Last(Strip(p)) == p[k - 1];
  }

  lemma HasTerminalStripped(s: string)
    ensures HasTerminal(Strip(s)) <==> HasTerminal(s)
  {
    StripFacts(s);
    StripTrimmed(Strip(s));
  }

  /** A text over the budget is cut to its first `max` characters. When a sentence of the
      minimum length ends among them, the result is an initial stretch of the text within the
      budget that ends a sentence; otherwise it is that, or all of these characters. */
  lemma CutEndsSentence(out: string, budget: Budget) returns (p: string)
    requires CountChars(out) > budget.max >= 0
    ensures p <= out && CountChars(p) == budget.max
    ensures var r, t := CutToBudget(out, budget), Strip(p);
            var ended := budget.min <= CountChars(r) && CountChars(r) <= budget.max && HasTerminal(r)
                         && Squeeze(r) <= Squeeze(out);
            && (ended || r == EnsureTerminal(t, budget.max))
            && ((exists i :: 0 < i <= |t| && IsTerminal(t[i - 1]) && CountChars(t[..i]) >= budget.min) ==> ended)
  {
    hide Squeeze, Strip, Kept, Within, EnsureTerminal, Clauses, Join, HasTerminal, IsTerminal, CountChars, LastEnd;
    p := Within(out, budget.max);
    WithinIsLongest(out, budget.max);
    CutFits(out, budget);
    CutKeepsPrefix(out, budget);
    var t := Strip(p);
    var k := LastEnd(t, |t|, budget.min);
    if k > 0 {
      TerminalIsVisible(t, k);
      HasTerminalStripped(t[..k]);
      StripCount(t[..k]);
    }
  }

  /** Sentences come first: when as many first ones as fit end a sentence and have the minimum
      length, they are the result. */
  lemma SentencesPreferred(out: string, budget: Budget, n: nat)
    requires var sentences := Clauses(Strip(out), EndsSentence);
             && n <= |sentences|
             && budget.min <= CountChars(Join(sentences[..n])) && CountChars(Join(sentences[..n])) <= budget.max
             && (n < |sentences| ==> CountChars(Join(sentences[..n + 1])) > budget.max)
             && HasTerminal(Join(sentences[..n]))
    ensures CutToBudget(out, budget) == Strip(Join(Clauses(Strip(out), EndsSentence)[..n]))
  {
    hide CountChars, Strip, Kept, Within, LastEnd, EnsureTerminal, Clauses, Join, HasTerminal;
    var sentences := Clauses(Strip(out), EndsSentence);
    var m := |Kept(sentences, budget.max)|;
    JoinsGrow(sentences, 0, n);
    KeptIsLongest(sentences, budget.max);
    KeptFits(sentences, budget.max);
    if m < n { JoinsGrow(sentences, m + 1, n); }
    if n < m { JoinsGrow(sentences, n + 1, m); }
    HasTerminalStripped(Join(sentences[..n]));
    StripCount(Join(sentences[..n]));
  }

  lemma JoinsGrow(parts: seq<string>, a: nat, b: nat)
    requires a <= b <= |parts|
    ensures 0 <= CountChars(Join(parts[..a])) <= CountChars(Join(parts[..b]))
  {
    hide Join, Squeeze;
    assert parts[..b] == parts[..a] + parts[a..b];
    JoinConcat(parts[..a], parts[a..b]);
    CountConcat(Join(parts[..a]), Join(parts[a..b]));
  }

  /** Otherwise the characters that fit are cut at the last sentence end that leaves the
      minimum length, or, without one, kept whole. */
  lemma CutAtLastEnd(out: string, budget: Budget, p: string, k: nat)
    requires var sentences := Clauses(Strip(out), EndsSentence);
             var first := Join(Kept(sentences, budget.max));
             CountChars(first) < budget.min || !HasTerminal(first)
    requires p <= out && CountChars(p) <= budget.max
    requires |p| < |out| ==> CountChars(out[..|p| + 1]) > budget.max
    requires k <= |Strip(p)|
    requires forall i :: k < i <= |Strip(p)| ==>
               !(IsTerminal(Strip(p)[i - 1]) && CountChars(Strip(p)[..i]) >= budget.min)
    requires k > 0 ==> IsTerminal(Strip(p)[k - 1]) && CountChars(Strip(p)[..k]) >= budget.min
    ensures CutToBudget(out, budget)
            == if k > 0 then Strip(Strip(p)[..k]) else EnsureTerminal(Strip(p), budget.max)
  {
    hide CountChars, Strip, Kept, EnsureTerminal, Clauses, Join, HasTerminal, IsTerminal;
    var first := Join(Kept(Clauses(Strip(out), EndsSentence), budget.max));
    HasTerminalStripped(first);
    StripCount(first);
    WithinIs(out, budget.max, p);
    LastEndIs(Strip(p), |Strip(p)|, budget.min, k);
  }

  lemma {:induction false} LastEndIs(t: string, n: nat, min: int, k: nat)
    requires k <= n <= |t|
    requires forall i :: k < i <= n ==> !(IsTerminal(t[i - 1]) && CountChars(t[..i]) >= min)
    requires k > 0 ==> IsTerminal(t[k - 1]) && CountChars(t[..k]) >= min
    ensures LastEnd(t, n, min) == k
  {
    hide CountChars, IsTerminal;
    if k < n {
      assert !(IsTerminal(t[n - 1]) && CountChars(t[..n]) >= min);
      LastEndIs(t, n - 1, min, k);
    }
  }

  lemma {:induction false} WithinIs(out: string, max: int, p: string)
    requires p <= out && CountChars(p) <= max
    requires |p| < |out| ==> CountChars(out[..|p| + 1]) > max
    ensures Within(out, max) == p
    decreases |out|
  {
    hide CountChars;
    if out != "" {
      var front := Init(out);
      if |p| < |out| {
        assert p <= front && front[..|p|] == p;
        assert out[..|p| + 1] == if |p| < |front| then front[..|p| + 1] else out;
        WithinIs(front, max, p);
        PrefixCount(out, |p| + 1);
      } else {
        assert p == out && front == out[..|front|];
        PrefixCount(out, |front|);
        WithinIs(front, max, front);
      }
    }
  }

  lemma {:induction false} KeptIsPrefix(sentences: seq<string>, max: int)
    ensures Kept(sentences, max) <= sentences
  {
    hide CountChars, Join;
    if sentences != [] {
      KeptIsPrefix(Init(sentences), max);
      assert sentences == Init(sentences) + [Last(sentences)];
    }
  }

  // ---------------------------------------------------------------- choose_repaired_text

  datatype Method = Llm | Heuristic

  function Distance(chars: int, budget: Budget): int {
    if chars < budget.min then budget.min - chars
    else if chars > budget.max then chars - budget.max
    else 0
  }

  predicate InBudget(text: string, budget: Budget) { budget.min <= CountChars(text) <= budget.max }

  /** The candidates in order of preference. */
  function RepairCandidates(llmText: Option<string>, heuristicText: string, budget: Budget): seq<(Method, string)> {
    (if llmText.Some? && llmText.value != "" then [(Llm, EnsureTerminal(llmText.value, budget.max))] else [])
    + [(Heuristic, EnsureTerminal(heuristicText, budget.max))]
  }

  /** Closer to the budget comes first; at equal distance, too long before too short. */
  predicate Closer(a: string, b: string, budget: Budget) {
    var x, y := Distance(CountChars(a), budget), Distance(CountChars(b), budget);
    x < y || (x == y && CountChars(a) >= budget.min && CountChars(b) < budget.min)
  }

  method ChooseRepairedText(llmText: Option<string>, heuristicText: string, budget: Budget)
    returns (text: string, how: Method)
    ensures var candidates := RepairCandidates(llmText, heuristicText, budget);
            && (how, text) in candidates
            && (budget.min <= CountChars(text) <= budget.max <==>
                  exists i :: 0 <= i < |candidates|
                    && budget.min <= CountChars(candidates[i].1) && CountChars(candidates[i].1) <= budget.max)
            && (forall i :: 0 <= i < |candidates| ==>
                  Distance(CountChars(text), budget) <= Distance(CountChars(candidates[i].1), budget))
            && (budget.min <= CountChars(candidates[0].1) <= budget.max ==> (how, text) == candidates[0])
            && (forall i :: 0 <= i < |candidates| ==> !Closer(candidates[i].1, text, budget))
  {
    hide CountChars, EnsureTerminal;
    var candidates := RepairCandidates(llmText, heuristicText, budget);
    for k := 0 to |candidates|
      invariant forall i :: 0 <= i < k ==> !InBudget(candidates[i].1, budget)
    {
      if InBudget(candidates[k].1, budget) {
        return candidates[k].1, candidates[k].0;
      }
    }
    var best := candidates[0];
    for k := 1 to |candidates|
      invariant best in candidates
      invariant forall i :: 0 <= i < k ==> !Closer(candidates[i].1, best.1, budget)
    {
      if Closer(candidates[k].1, best.1, budget) { best := candidates[k]; }
    }
    return best.1, best.0;
  }

  /** The repaired text of a row can exceed its maximum in one case only: the rewrite by
      the language model is too long, by no more than the heuristic one is too short. */
  method RepairText(original: string, llmText: Option<string>, budget: Budget, rules: Rules)
    returns (text: string, how: Method)
    requires 1 <= budget.min <= budget.max
    ensures var heuristic := CountChars(EnsureTerminal(Rewritten(original, budget, rules), budget.max));
            CountChars(text) > budget.max <==>
              && llmText.Some? && llmText.value != ""
              && var llm := CountChars(EnsureTerminal(llmText.value, budget.max));
                 && llm > budget.max && heuristic < budget.min
                 && llm - budget.max <= budget.min - heuristic
  {
    hide CountChars, EnsureTerminal, Rewritten;
    var heuristicText := HeuristicRewrite(original, budget, rules);
    RewriteWithinBudget(original, budget, rules);
    EnsureTerminalWithin(heuristicText, budget.max);
    text, how := ChooseRepairedText(llmText, heuristicText, budget);
    ghost var candidates := RepairCandidates(llmText, heuristicText, budget);
    assert Last(candidates) == (Heuristic, EnsureTerminal(heuristicText, budget.max));
    assert text == candidates[0].1 || text == candidates[|candidates| - 1].1;
  }
}
