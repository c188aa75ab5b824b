/** Strings as the tools see them: whitespace, `str.strip`, `"".join` and counting. */
module Text {
  import opened Sequences

  /** Python's `str.isspace` for one character; `str.strip` removes the same characters. */
  predicate IsSpace(c: char) {
    || c == ' ' || ('\t' <= c <= '\r') || ('\U{1C}' <= c <= '\U{1F}')
    || c == '\U{85}' || c == '\U{A0}' || c == '\U{1680}'
    || ('\U{2000}' <= c <= '\U{200A}') || c == '\U{2028}' || c == '\U{2029}'
    || c == '\U{202F}' || c == '\U{205F}' || c == '\U{3000}'
  }

  /** The text without its whitespace: what the planner must conserve. */
  function Squeeze(s: string): string {
    if s == "" then ""
    else if IsSpace(s[0]) then Squeeze(s[1..])
    else [s[0]] + Squeeze(s[1..])
  }

  /** `count_chars` / `speakable_len`: the number of non-space characters. */
  function CountChars(s: string): nat { |Squeeze(s)| }

  function LStrip(s: string): string {
    if s != "" && IsSpace(s[0]) then LStrip(s[1..]) else s
  }

  function RStrip(s: string): string {
    if s != "" && IsSpace(Last(s)) then RStrip(Init(s)) else s
  }

  function Strip(s: string): string { RStrip(LStrip(s)) }

  function Join(parts: seq<string>): string {
    if parts == [] then "" else parts[0] + Join(parts[1..])
  }

  ghost predicate Trimmed(s: string) {
    s == "" || (!IsSpace(s[0]) && !IsSpace(Last(s)))
  }

  /** The number of leading spaces, i.e. where `s.strip()` starts in `s`. */
  function Lead(s: string): nat
    ensures Lead(s) <= |s|
  {
    if s != "" && IsSpace(s[0]) then 1 + Lead(s[1..]) else 0
  }

  lemma {:induction false} SqueezeConcat(a: string, b: string)
    ensures Squeeze(a + b) == Squeeze(a) + Squeeze(b)
  {
    if a == "" {
      assert a + b == b;
    } else {
      assert (a + b)[1..] == a[1..] + b;
      SqueezeConcat(a[1..], b);
    }
  }

  lemma {:induction false} SqueezeLength(s: string)
    ensures CountChars(s) <= |s|
  {
    if s != "" { SqueezeLength(s[1..]); }
  }

  lemma {:induction false} SqueezeNoSpace(s: string)
    ensures forall c :: c in Squeeze(s) <==> c in s && !IsSpace(c)
  {
    if s != "" {
      SqueezeNoSpace(s[1..]);
      assert s == [s[0]] + s[1..];
    }
  }

  lemma {:induction false} LStripFacts(s: string)
    ensures Squeeze(LStrip(s)) == Squeeze(s)
    ensures LStrip(s) == s[Lead(s)..]
    ensures LStrip(s) != "" ==> !IsSpace(LStrip(s)[0])
    ensures forall i :: 0 <= i < Lead(s) ==> IsSpace(s[i])
  {
    if s != "" && IsSpace(s[0]) {
      LStripFacts(s[1..]);
      forall i | 0 <= i < Lead(s) ensures IsSpace(s[i]) {
        if i > 0 { assert s[i] == s[1..][i - 1]; }
      }
    }
  }

  lemma {:induction false} RStripFacts(s: string)
    ensures Squeeze(RStrip(s)) == Squeeze(s)
    ensures RStrip(s) <= s
    ensures RStrip(s) != "" ==> !IsSpace(Last(RStrip(s)))
    ensures forall i :: |RStrip(s)| <= i < |s| ==> IsSpace(s[i])
  {
    if s != "" && IsSpace(Last(s)) {
      RStripFacts(Init(s));
      assert s == Init(s) + [Last(s)];
      SqueezeConcat(Init(s), [Last(s)]);
    }
  }

  /** `strip` keeps the visible text and ends up with visible characters outside. */
  lemma StripFacts(s: string)
    ensures Squeeze(Strip(s)) == Squeeze(s)
    ensures Trimmed(Strip(s))
    ensures |Strip(s)| <= |s|
  {
    LStripFacts(s);
    RStripFacts(LStrip(s));
    var l := LStrip(s);
    var r := RStrip(l);
    assert r == l[..|r|];
    if r != "" { assert r[0] == l[0]; }
  }

  lemma StripCount(s: string)
    ensures CountChars(Strip(s)) == CountChars(s)
  {
    StripFacts(s);
  }

  /** `strip` takes a slice of its input, and only whitespace lies outside of it. */
  lemma StripSlice(s: string)
    ensures Lead(s) + |Strip(s)| <= |s|
    ensures Strip(s) == s[Lead(s)..Lead(s) + |Strip(s)|]
    ensures forall i :: 0 <= i < Lead(s) || Lead(s) + |Strip(s)| <= i < |s| ==> IsSpace(s[i])
  {
    hide LStrip, RStrip, Lead, IsSpace, Squeeze;
    LStripFacts(s);
    var l := LStrip(s);
    RStripFacts(l);
    var r := RStrip(l);
    assert r == l[..|r|];
    forall i | Lead(s) + |r| <= i < |s| ensures IsSpace(s[i]) {
      assert s[i] == l[i - Lead(s)];
    }
  }

  lemma StripTrimmed(s: string)
    requires Trimmed(s)
    ensures Strip(s) == s && Lead(s) == 0
  {
  }

  /** A text strips to nothing exactly when it has no visible character. */
  lemma StripEmpty(s: string)
    ensures Strip(s) == "" <==> Squeeze(s) == ""
  {
    StripFacts(s);
    if Strip(s) != "" {
      SqueezeNoSpace(Strip(s));
      assert Strip(s)[0] in Strip(s);
      assert Strip(s)[0] in Squeeze(Strip(s));
    }
  }

  lemma {:induction false} JoinConcat(a: seq<string>, b: seq<string>)
    ensures Join(a + b) == Join(a) + Join(b)
  {
    if a == [] {
      assert a + b == b;
    } else {
      assert (a + b)[1..] == a[1..] + b;
      JoinConcat(a[1..], b);
    }
  }

  lemma JoinOne(s: string)
    ensures Join([s]) == s
  {
  }

  lemma JoinTwo(s: string, t: string)
    ensures Join([s, t]) == s + t
  {
    assert [s, t][1..] == [t];
    JoinOne(t);
  }

  lemma JoinFrom(parts: seq<string>, k: nat)
    requires k < |parts|
    ensures Join(parts[k..]) == parts[k] + Join(parts[k + 1..])
  {
    assert parts[k..][1..] == parts[k + 1..];
  }

  lemma JoinNothing(parts: seq<string>)
    ensures Join(parts[|parts|..]) == ""
  {
  }

  /** Squeezing a joined list piece by piece. */
  lemma SqueezeJoinConcat(a: seq<string>, b: seq<string>)
    ensures Squeeze(Join(a + b)) == Squeeze(Join(a)) + Squeeze(Join(b))
  {
    JoinConcat(a, b);
    SqueezeConcat(Join(a), Join(b));
  }

  lemma SqueezeJoinSnoc(a: seq<string>, s: string)
    ensures Squeeze(Join(a + [s])) == Squeeze(Join(a)) + Squeeze(s)
  {
    SqueezeJoinConcat(a, [s]);
    JoinOne(s);
  }

  /** `sum(count_chars(part) for part in parts)`. */
  function TotalChars(parts: seq<string>): nat {
    if parts == [] then 0 else TotalChars(Init(parts)) + CountChars(Last(parts))
  }

  lemma TotalCharsSnoc(a: seq<string>, s: string)
    ensures TotalChars(a + [s]) == TotalChars(a) + CountChars(s)
  {
    assert Init(a + [s]) == a;
  }

  lemma TotalCharsTwo(s: string, t: string)
    ensures TotalChars([s, t]) == CountChars(s) + CountChars(t)
  {
    hide CountChars;
    assert Init([s, t]) == [s] && Init([s]) == [];
    assert TotalChars([s]) == CountChars(s);
  }

  /** Counting part by part and counting the joined text agree. */
  lemma {:induction false} TotalCharsJoin(parts: seq<string>)
    ensures TotalChars(parts) == CountChars(Join(parts))
  {
    if parts != [] {
      TotalCharsJoin(Init(parts));
      assert parts == Init(parts) + [Last(parts)];
      SqueezeJoinSnoc(Init(parts), Last(parts));
    }
  }

  /** `parts` carries the visible text of `text`, all of it and in order. */
  ghost predicate Conserves(parts: seq<string>, text: string) {
    Squeeze(Join(parts)) == Squeeze(text)
  }

  /** Every part is stripped and non-empty. */
  ghost predicate Clean(parts: seq<string>) {
    forall i :: 0 <= i < |parts| ==> parts[i] != "" && Trimmed(parts[i])
  }

  lemma CleanConcat(a: seq<string>, b: seq<string>)
    ensures Clean(a + b) <==> Clean(a) && Clean(b)
  {
    if Clean(a + b) {
      forall i | 0 <= i < |a| ensures a[i] != "" && Trimmed(a[i]) { assert a[i] == (a + b)[i]; }
      forall i | 0 <= i < |b| ensures b[i] != "" && Trimmed(b[i]) { assert b[i] == (a + b)[|a| + i]; }
    }
  }

  lemma CleanOne(s: string)
    requires s != "" && Trimmed(s)
    ensures Clean([s])
  {
  }

  lemma CleanHasChars(s: string)
    requires s != "" && Trimmed(s)
    ensures CountChars(s) >= 1
  {
    StripTrimmed(s);
    StripEmpty(s);
  }

  lemma {:induction false} CleanTotal(parts: seq<string>)
    requires Clean(parts)
    ensures TotalChars(parts) >= |parts|
  {
    if parts != [] {
      assert parts == Init(parts) + [Last(parts)];
      CleanConcat(Init(parts), [Last(parts)]);
      CleanTotal(Init(parts));
      CleanHasChars(Last(parts));
    }
  }

  /** `[part for part in parts if part.strip()]`. */
  function NonBlankOnly(parts: seq<string>): seq<string> {
    if parts == [] then []
    else NonBlankOnly(Init(parts)) + if Strip(Last(parts)) != "" then [Last(parts)] else []
  }

  lemma {:induction false} NonBlankOnlyFacts(parts: seq<string>)
    ensures Squeeze(Join(NonBlankOnly(parts))) == Squeeze(Join(parts))
    ensures |NonBlankOnly(parts)| <= |parts|
    ensures forall i :: 0 <= i < |NonBlankOnly(parts)| ==> CountChars(NonBlankOnly(parts)[i]) >= 1
  {
    hide Join, Squeeze, Strip;
    if parts != [] {
      NonBlankOnlyFacts(Init(parts));
      StripEmpty(Last(parts));
      assert parts == Init(parts) + [Last(parts)];
      SqueezeJoinSnoc(Init(parts), Last(parts));
      SqueezeJoinSnoc(NonBlankOnly(Init(parts)), Last(parts));
      var kept := NonBlankOnly(parts);
      if Strip(Last(parts)) == "" {
        assert kept == NonBlankOnly(Init(parts));
        assert Squeeze(Join(Init(parts))) + "" == Squeeze(Join(Init(parts)));
      }
      forall i | 0 <= i < |kept| ensures CountChars(kept[i]) >= 1 {
        if i < |NonBlankOnly(Init(parts))| { assert kept[i] == NonBlankOnly(Init(parts))[i]; }
      }
    }
  }

  /** Nothing is filtered out of a list without blank parts. */
  lemma {:induction false} NonBlankOnlyKeeps(parts: seq<string>)
    requires forall i :: 0 <= i < |parts| ==> CountChars(parts[i]) >= 1
    ensures NonBlankOnly(parts) == parts
  {
    if parts != [] {
      NonBlankOnlyKeeps(Init(parts));
      StripEmpty(Last(parts));
      assert parts == Init(parts) + [Last(parts)];
    }
  }

  lemma CleanAllHaveChars(parts: seq<string>)
    requires Clean(parts)
    ensures forall i :: 0 <= i < |parts| ==> CountChars(parts[i]) >= 1
  {
    forall i | 0 <= i < |parts| ensures CountChars(parts[i]) >= 1 { CleanHasChars(parts[i]); }
  }
}
