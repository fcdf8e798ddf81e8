// The interrupt-callback safety checker (tools/validators/isr_safety.py): a
// lexical scan of C text that finds the callback functions by naming and
// signature conventions, takes each one's extent by counting braces, and
// reports every line inside it that calls a routine of the rule table.
// The regular-expression search for callback headers is an input (`Finder`):
// for a text it gives, convention by convention, the matches in text order.
// Everything after that search is modelled.
module IsrSafety {
  import opened PtTypes

  // ---------------------------------------------------------------------
  // Characters and the Python string operations the checker relies on
  // ---------------------------------------------------------------------

  /** Python's `\s` and `str.isspace`, restricted to ASCII: the six C white-space characters and the four separators U+001C to U+001F. */
  predicate IsSpace(c: char)
  {
    c == ' ' || c == '\t' || c == '\n' || c == '\r' || c == '\U{0B}' || c == '\U{0C}' || '\U{1C}' <= c <= '\U{1F}'
  }

  /** Python's `\w`, restricted to ASCII. */
  predicate IsWord(c: char)
  {
    ('a' <= c <= 'z') || ('A' <= c <= 'Z') || ('0' <= c <= '9') || c == '_'
  }

  /** `s.count(c)` for a single character. */
  function Count(s: string, c: char): nat
  {
    if |s| == 0 then 0 else (if s[0] == c then 1 else 0) + Count(s[1..], c)
  }

  lemma {:induction false} CountAppend(s: string, t: string, c: char)
    ensures Count(s + t, c) == Count(s, c) + Count(t, c)
    decreases |s|
  {
    if |s| == 0 {
      assert s + t == t;
    } else {
      assert (s + t)[1..] == s[1..] + t;
      CountAppend(s[1..], t, c);
    }
  }

  /** More text never holds fewer occurrences: the basis of every line-number bound. */
  lemma CountPrefix(s: string, a: nat, b: nat, c: char)
    requires a <= b <= |s|
    ensures Count(s[..a], c) <= Count(s[..b], c) <= Count(s, c)
  {
    assert s[..b] == s[..a] + s[a..b];
    CountAppend(s[..a], s[a..b], c);
    assert s == s[..b] + s[b..];
    CountAppend(s[..b], s[b..], c);
  }

  lemma {:induction false} CountNone(s: string, c: char)
    requires forall k :: 0 <= k < |s| ==> s[k] != c
    ensures Count(s, c) == 0
    decreases |s|
  {
    if |s| > 0 {
      CountNone(s[1..], c);
    }
  }

  /**
   * `s.find(c, from)`: the first index at or after `from` holding `c`
   * (`None` for -1, also when `from` is past the end).
   */
  function Find(s: string, c: char, from: nat): (r: Option<nat>)
    ensures r.Some? ==> from <= r.value < |s| && s[r.value] == c
    ensures r.Some? ==> forall k :: from <= k < r.value ==> s[k] != c
    ensures r.None? ==> forall k :: from <= k < |s| ==> s[k] != c
    decreases |s| - from
  {
    if from >= |s| then None
    else if s[from] == c then Some(from)
    else Find(s, c, from + 1)
  }

  /** The first index at or after `from` where `a` is immediately followed by `b`. */
  function FindPair(s: string, a: char, b: char, from: nat): (r: Option<nat>)
    ensures r.Some? ==> from <= r.value && r.value + 1 < |s| && s[r.value] == a && s[r.value + 1] == b
    ensures r.Some? ==> forall k :: from <= k < r.value ==> !(s[k] == a && s[k + 1] == b)
    ensures r.None? ==> forall k :: from <= k < |s| - 1 ==> !(s[k] == a && s[k + 1] == b)
    decreases |s| - from
  {
    if from + 1 >= |s| then None
    else if s[from] == a && s[from + 1] == b then Some(from)
    else FindPair(s, a, b, from + 1)
  }

  /** `s.split(sep)` for a one-character separator. */
  function Split(s: string, sep: char): (parts: seq<string>)
    ensures |parts| > 0
    ensures forall i :: 0 <= i < |parts| ==> sep !in parts[i]
    decreases |s|
  {
    match Find(s, sep, 0)
    case None => [s]
    case Some(i) => [s[..i]] + Split(s[i + 1..], sep)
  }

  /** `sep.join(parts)`. */
  function Join(parts: seq<string>, sep: char): string
  {
    if |parts| == 0 then "" else if |parts| == 1 then parts[0] else parts[0] + [sep] + Join(parts[1..], sep)
  }

  /** Splitting on a separator and joining with it gives the text back. */
  lemma {:induction false} SplitJoin(s: string, sep: char)
    ensures Join(Split(s, sep), sep) == s
    decreases |s|
  {
    match Find(s, sep, 0)
    case None =>
    case Some(i) =>
      var rest := Split(s[i + 1..], sep);
      SplitJoin(s[i + 1..], sep);
      assert Split(s, sep) == [s[..i]] + rest;
      assert (Split(s, sep))[1..] == rest;
      assert s == s[..i] + [sep] + s[i + 1..];
  }

  /** A text splits into one more piece than it has separators. */
  lemma {:induction false} SplitCount(s: string, sep: char)
    ensures |Split(s, sep)| == Count(s, sep) + 1
    decreases |s|
  {
    match Find(s, sep, 0)
    case None =>
      CountNone(s, sep);
    case Some(i) =>
      SplitCount(s[i + 1..], sep);
      assert s == s[..i] + s[i..];
      CountAppend(s[..i], s[i..], sep);
      CountNone(s[..i], sep);
      assert s[i..][1..] == s[i + 1..];
  }

  /** `code.split("\n")`. */
  function Lines(code: string): seq<string>
  {
    Split(code, '\n')
  }

  function TrimLeft(s: string): (t: string)
    ensures |t| <= |s| && t == s[|s| - |t|..]
    ensures |t| > 0 ==> !IsSpace(t[0])
    ensures forall k :: 0 <= k < |s| - |t| ==> IsSpace(s[k])
    decreases |s|
  {
    if |s| > 0 && IsSpace(s[0]) then TrimLeft(s[1..]) else s
  }

  function TrimRight(s: string): (t: string)
    ensures |t| <= |s| && t == s[..|t|]
    ensures |t| > 0 ==> !IsSpace(t[|t| - 1])
    ensures forall k :: |t| <= k < |s| ==> IsSpace(s[k])
    decreases |s|
  {
    if |s| > 0 && IsSpace(s[|s| - 1]) then TrimRight(s[..|s| - 1]) else s
  }

  /**
   * `s.strip()`: the part `s[a..b]` left when the white space before `a`
   * and from `b` on is removed, with no white space left at either end.
   */
  function Strip(s: string): (t: string)
    ensures |t| <= |s|
    ensures |t| > 0 ==> !IsSpace(t[0]) && !IsSpace(t[|t| - 1])
    ensures exists a, b :: StrippedAt(s, t, a, b)
  {
    var l := TrimLeft(s);
    var r := TrimRight(l);
    assert |r| > 0 ==> r[0] == l[0];
    TrimBoth(s, l, r);
    r
  }

  /** Trimming the white space off the left and then off the right leaves a middle slice. */
  lemma TrimBoth(s: string, l: string, r: string)
    requires |l| <= |s| && l == s[|s| - |l|..] && forall k :: 0 <= k < |s| - |l| ==> IsSpace(s[k])
    requires |r| <= |l| && r == l[..|r|] && forall k :: |r| <= k < |l| ==> IsSpace(l[k])
    ensures StrippedAt(s, r, |s| - |l|, |s| - |l| + |r|)
  {
    var a := |s| - |l|;
    assert r == s[a..a + |r|];
    forall k | a + |r| <= k < |s|
      ensures IsSpace(s[k])
    {
      assert s[k] == l[k - a];
    }
  }

  /** `t` is `s[a..b]`, and `s` holds only white space before `a` and from `b` on. */
  predicate StrippedAt(s: string, t: string, a: int, b: int)
  {
    0 <= a <= b <= |s| && t == s[a..b]
    && (forall k :: 0 <= k < a ==> IsSpace(s[k]))
    && (forall k :: b <= k < |s| ==> IsSpace(s[k]))
  }

  // ---------------------------------------------------------------------
  // Callback discovery and extents
  // ---------------------------------------------------------------------

  /** A line number, counted from 1 as the checker reports them. */
  type LineNo = n: int | 1 <= n witness 1

  /** One header found by a convention: the function's name and where the match starts. */
  datatype Match = Match(name: string, pos: nat)

  /**
   * What the regular-expression search gives for a text: per convention, its
   * matches in text order. The nine conventions, in the order they are tried,
   * are five name suffixes (`_asr`, `_notifier`, `_completion`, `_callback`,
   * `_event`, with a `void`/`OSErr` return and optional `static`/`pascal`),
   * then the MacTCP ASR (`StreamPtr`), Open Transport notifier
   * (`void *, OTEventCode`) and two ADSP completion (`DSPPBPtr`, `TPCCB`)
   * signatures.
   */
  type Finder = string -> seq<seq<Match>>

  /** A callback: its name and the first and last line of its text. */
  datatype Span = Span(name: string, startLine: LineNo, endLine: LineNo)

  /** Brace nesting change of code[a..b]: each `{` adds one, each `}` takes one away. */
  function Depth(code: string, a: nat, b: nat): int
    requires a <= b <= |code|
    decreases b - a
  {
    if a == b then 0
    else Depth(code, a, b - 1) + (if code[b - 1] == '{' then 1 else if code[b - 1] == '}' then -1 else 0)
  }

  /**
   * Where the scan from the opening brace at `open` stops when it has
   * reached `e`: at the first point where the nesting is back to zero, or at
   * the end of the text.
   */
  function CloseFrom(code: string, open: nat, e: nat): (end: nat)
    requires open < e <= |code|
    ensures e <= end <= |code|
    decreases |code| - e
  {
    if Nesting(code, open, e) == 0 || e == |code| then e else CloseFrom(code, open, e + 1)
  }

  /** The brace count of the scan from the `{` at `open` once it has reached `e`. */
  function Nesting(code: string, open: nat, e: nat): int
    requires open < e <= |code|
  {
    1 + Depth(code, open + 1, e)
  }

  /** One past the closing brace of the `{` at `open` (or the end of the text when it never closes). */
  function Closing(code: string, open: nat): nat
    requires open < |code|
  {
    CloseFrom(code, open, open + 1)
  }

  /**
   * The extent rule: nesting stays positive up to the end, and the end is
   * either one past the brace that brings it back to zero — which is a `}` —
   * or the end of the text.
   */
  lemma {:induction false} ClosingBrace(code: string, open: nat)
    requires open < |code| && code[open] == '{'
    ensures open < Closing(code, open) <= |code|
    ensures forall e :: open + 1 <= e < Closing(code, open) ==> Nesting(code, open, e) > 0
    ensures Nesting(code, open, Closing(code, open)) == 0 || Closing(code, open) == |code|
    ensures Nesting(code, open, Closing(code, open)) == 0 ==> code[Closing(code, open) - 1] == '}'
  {
    CloseFromScan(code, open, open + 1);
  }

  lemma {:induction false} CloseFromScan(code: string, open: nat, e: nat)
    requires open < e <= |code|
    requires forall k :: open + 1 <= k <= e ==> Nesting(code, open, k) >= 0
    requires forall k :: open + 1 <= k < e ==> Nesting(code, open, k) > 0
    ensures var end := CloseFrom(code, open, e);
      (forall k :: open + 1 <= k < end ==> Nesting(code, open, k) > 0)
      && (Nesting(code, open, end) == 0 || end == |code|)
      && (Nesting(code, open, end) == 0 ==> code[end - 1] == '}')
    decreases |code| - e
  {
    var d := Nesting(code, open, e);
    if d == 0 || e == |code| {
      if d == 0 {
        assert e > open + 1;
        assert Nesting(code, open, e - 1) > 0;
      }
    } else {
      assert d > 0;
      CloseFromScan(code, open, e + 1);
    }
  }

  /**
   * The brace scan for one header: the extent starts on the header's line
   * (1 + the newlines before the match) and ends on the line of the brace
   * that closes the first `{` after it; a header with no later `{` gives
   * nothing.
   */
  function SpanOf(code: string, m: Match): Option<Span>
  {
    match Find(code, '{', m.pos)
    case None => None
    case Some(open) =>
      Some(Span(m.name, Count(code[..m.pos], '\n') + 1, Count(code[..Closing(code, open)], '\n') + 1))
  }

  /** A span lies inside the text: it starts no later than it ends, and ends at most on the last line. */
  lemma SpanInText(code: string, m: Match)
    requires SpanOf(code, m).Some?
    ensures SpanOf(code, m).value.startLine <= SpanOf(code, m).value.endLine <= |Lines(code)|
    ensures SpanOf(code, m).value.name == m.name
  {
    var open := Find(code, '{', m.pos).value;
    ClosingBrace(code, open);
    CountPrefix(code, m.pos, Closing(code, open), '\n');
    SplitCount(code, '\n');
  }

  /** The spans of a run of matches, in match order. */
  function SpansOf(code: string, ms: seq<Match>): seq<Span>
  {
    if |ms| == 0 then [] else SpansOf(code, ms[..|ms| - 1]) + AsSeq(SpanOf(code, ms[|ms| - 1]))
  }

  function AsSeq(o: Option<Span>): seq<Span>
  {
    match o
    case Some(sp) => [sp]
    case None => []
  }

  /** All matches, convention by convention. */
  function Concat(found: seq<seq<Match>>): seq<Match>
  {
    if |found| == 0 then [] else Concat(found[..|found| - 1]) + found[|found| - 1]
  }

  predicate NamedIn(name: string, spans: seq<Span>)
  {
    exists i :: 0 <= i < |spans| && spans[i].name == name
  }

  /** Deduplication by name: each span whose name no earlier span carries, in order. */
  function Unique(spans: seq<Span>): seq<Span>
  {
    if |spans| == 0 then []
    else
      var init := spans[..|spans| - 1];
      Unique(init) + (if NamedIn(spans[|spans| - 1].name, init) then [] else [spans[|spans| - 1]])
  }

  /** The callbacks of a text, as the checker lists them. */
  function Callbacks(code: string, found: seq<seq<Match>>): seq<Span>
  {
    Unique(SpansOf(code, Concat(found)))
  }

  lemma UniquePrefix(spans: seq<Span>)
    requires |spans| > 0
    ensures var init := spans[..|spans| - 1];
      Unique(spans) == Unique(init) + (if NamedIn(spans[|spans| - 1].name, init) then [] else [spans[|spans| - 1]])
  {
  }

  /** Deduplication leaves no two callbacks with one name. */
  lemma {:induction false} UniqueDistinct(spans: seq<Span>)
    ensures forall i, j :: 0 <= i < j < |Unique(spans)| ==> Unique(spans)[i].name != Unique(spans)[j].name
    decreases |spans|
  {
    if |spans| > 0 {
      var n := |spans| - 1;
      var init := spans[..n];
      UniqueDistinct(init);
      UniqueNames(init);
      var u := Unique(init);
      if !NamedIn(spans[n].name, init) {
        assert Unique(spans) == u + [spans[n]];
        forall i, j | 0 <= i < j < |Unique(spans)|
          ensures Unique(spans)[i].name != Unique(spans)[j].name
        {
          if j == |u| {
            assert u[i].name == Unique(spans)[i].name;
            assert NamedIn(u[i].name, u);
          }
        }
      }
    }
  }

  /** Deduplication keeps every name found, and no other. */
  lemma {:induction false} UniqueNames(spans: seq<Span>)
    ensures forall name :: NamedIn(name, spans) <==> NamedIn(name, Unique(spans))
    decreases |spans|
  {
    if |spans| > 0 {
      var n := |spans| - 1;
      var init := spans[..n];
      UniqueNames(init);
      var u := Unique(init);
      var w := Unique(spans);
      assert u <= w;
      forall name | NamedIn(name, spans)
        ensures NamedIn(name, w)
      {
        var i :| 0 <= i < |spans| && spans[i].name == name;
        if i < n || NamedIn(name, init) {
          if i < n {
            assert init[i].name == name;
          }
          assert NamedIn(name, init);
          assert NamedIn(name, u);
          var j :| 0 <= j < |u| && u[j].name == name;
          assert w[j].name == name;
        } else {
          assert w[|u|].name == name;
        }
      }
      forall name | NamedIn(name, w)
        ensures NamedIn(name, spans)
      {
        var i :| 0 <= i < |w| && w[i].name == name;
        if i < |u| {
          assert u[i].name == name;
          assert NamedIn(name, u);
          assert NamedIn(name, init);
          var j :| 0 <= j < |init| && init[j].name == name;
          assert spans[j].name == name;
        } else {
          assert spans[n].name == name;
        }
      }
    }
  }

  /** The span at `k` is the first to carry its name. */
  predicate FirstOfName(spans: seq<Span>, k: nat)
    requires k < |spans|
  {
    !NamedIn(spans[k].name, spans[..k])
  }

  /** `u` holds exactly the spans that are the first of their name. */
  ghost predicate HoldsFirsts(u: seq<Span>, spans: seq<Span>)
  {
    forall s :: s in u <==> exists k :: 0 <= k < |spans| && spans[k] == s && FirstOfName(spans, k)
  }

  /** Appending a span keeps `HoldsFirsts` when the span joins exactly if it is the first of its name. */
  lemma FirstsGrow(u: seq<Span>, spans: seq<Span>)
    requires |spans| > 0 && HoldsFirsts(u, spans[..|spans| - 1])
    ensures HoldsFirsts(u + (if FirstOfName(spans, |spans| - 1) then [spans[|spans| - 1]] else []), spans)
  {
    var n := |spans| - 1;
    var init := spans[..n];
    var w := u + (if FirstOfName(spans, n) then [spans[n]] else []);
    forall k | 0 <= k < n
      ensures spans[k] == init[k] && FirstOfName(spans, k) == FirstOfName(init, k)
    {
      assert spans[..k] == init[..k];
    }
    forall s | s in w
      ensures exists k :: 0 <= k < |spans| && spans[k] == s && FirstOfName(spans, k)
    {
      if s in u {
        var k :| 0 <= k < |init| && init[k] == s && FirstOfName(init, k);
        assert spans[k] == s && FirstOfName(spans, k);
      } else {
        assert spans[n] == s && FirstOfName(spans, n);
      }
    }
    forall s | exists k :: 0 <= k < |spans| && spans[k] == s && FirstOfName(spans, k)
      ensures s in w
    {
      var k :| 0 <= k < |spans| && spans[k] == s && FirstOfName(spans, k);
      if k < n {
        assert init[k] == s && FirstOfName(init, k);
        assert s in u;
      }
    }
  }

  /** Deduplication keeps exactly the spans that are the first of their name. */
  lemma {:induction false} UniqueFirsts(spans: seq<Span>)
    ensures forall s :: s in Unique(spans) <==> exists k :: 0 <= k < |spans| && spans[k] == s && FirstOfName(spans, k)
    decreases |spans|
  {
    if |spans| > 0 {
      var n := |spans| - 1;
      UniqueFirsts(spans[..n]);
      UniquePrefix(spans);
      FirstsGrow(Unique(spans[..n]), spans);
      assert HoldsFirsts(Unique(spans), spans);
    }
  }

  /** `idx` picks `u` out of `spans` in order: strictly increasing positions of spans that are first of their name. */
  predicate PicksFirsts(u: seq<Span>, spans: seq<Span>, idx: seq<nat>)
  {
    |idx| == |u|
    && (forall i :: 0 <= i < |idx| ==> idx[i] < |spans| && spans[idx[i]] == u[i] && FirstOfName(spans, idx[i]))
    && (forall i, j :: 0 <= i < j < |idx| ==> idx[i] < idx[j])
  }

  /** Picks from a prefix stay picks when one span is appended, and the new span is picked too when it is the first of its name. */
  lemma PicksGrow(u: seq<Span>, spans: seq<Span>, idx: seq<nat>)
    requires |spans| > 0 && PicksFirsts(u, spans[..|spans| - 1], idx)
    ensures PicksFirsts(u, spans, idx)
    ensures FirstOfName(spans, |spans| - 1) ==> PicksFirsts(u + [spans[|spans| - 1]], spans, idx + [|spans| - 1])
  {
    var n := |spans| - 1;
    var init := spans[..n];
    forall k | 0 <= k < n
      ensures spans[k] == init[k] && FirstOfName(spans, k) == FirstOfName(init, k)
    {
      assert spans[..k] == init[..k];
    }
    if FirstOfName(spans, n) {
      var u', idx' := u + [spans[n]], idx + [n];
      forall i | 0 <= i < |idx'|
        ensures idx'[i] < |spans| && spans[idx'[i]] == u'[i] && FirstOfName(spans, idx'[i])
      {
        if i < |idx| {
          assert idx'[i] == idx[i] && u'[i] == u[i];
        }
      }
    }
  }

  /** Deduplication keeps the input's order: its result is a subsequence of the spans. */
  lemma {:induction false} UniqueInOrder(spans: seq<Span>)
    ensures exists idx :: PicksFirsts(Unique(spans), spans, idx)
    decreases |spans|
  {
    if |spans| == 0 {
      assert PicksFirsts(Unique(spans), spans, []);
    } else {
      var n := |spans| - 1;
      UniqueInOrder(spans[..n]);
      var idx: seq<nat> :| PicksFirsts(Unique(spans[..n]), spans[..n], idx);
      UniquePrefix(spans);
      PicksGrow(Unique(spans[..n]), spans, idx);
      if FirstOfName(spans, n) {
        assert PicksFirsts(Unique(spans), spans, idx + [n]);
      } else {
        assert PicksFirsts(Unique(spans), spans, idx);
      }
    }
  }

  /** The extent scan of `find_callback_functions`: one past the brace that closes the `{` at `open`. */
  method ScanBraces(code: string, open: nat) returns (end: nat)
    requires open < |code| && code[open] == '{'
    ensures end == Closing(code, open)
  {
    var count := 1;
    end := open + 1;
    while count > 0 && end < |code|
      invariant open + 1 <= end <= |code|
      invariant count == Nesting(code, open, end)
      invariant CloseFrom(code, open, end) == Closing(code, open)
      invariant count >= 0
      decreases |code| - end
    {
      if code[end] == '{' {
        count := count + 1;
      } else if code[end] == '}' {
        count := count - 1;
      }
      end := end + 1;
    }
  }

  /** The span of one header, or nothing when no `{` follows it. */
  method HeaderSpan(code: string, m: Match) returns (r: Option<Span>)
    ensures r == SpanOf(code, m)
  {
    var open := Find(code, '{', m.pos);
    if open.None? {
      return None;
    }
    var end := ScanBraces(code, open.value);
    r := Some(Span(m.name, Count(code[..m.pos], '\n') + 1, Count(code[..end], '\n') + 1));
  }

  lemma ConcatStep(found: seq<seq<Match>>, p: nat)
    requires p < |found|
    ensures Concat(found[..p + 1]) == Concat(found[..p]) + found[p]
  {
    assert found[..p + 1][..p] == found[..p];
  }

  lemma SpansOfStep(code: string, ms: seq<Match>, m: Match)
    ensures SpansOf(code, ms + [m]) == SpansOf(code, ms) + AsSeq(SpanOf(code, m))
  {
    assert (ms + [m])[..|ms|] == ms;
  }

  lemma PrefixStep(before: seq<Match>, ms: seq<Match>, k: nat)
    requires k < |ms|
    ensures before + ms[..k + 1] == (before + ms[..k]) + [ms[k]]
  {
    assert ms[..k + 1] == ms[..k] + [ms[k]];
  }

  /** The span of one more match, appended to those already collected. */
  method AppendSpan(code: string, spans: seq<Span>, before: seq<Match>, m: Match) returns (out: seq<Span>)
    requires spans == SpansOf(code, before)
    ensures out == SpansOf(code, before + [m])
  {
    var sp := HeaderSpan(code, m);
    SpansOfStep(code, before, m);
    out := spans + AsSeq(sp);
  }

  /** The spans of one convention's matches, appended to those already collected. */
  method AppendSpans(code: string, spans: seq<Span>, before: seq<Match>, ms: seq<Match>) returns (out: seq<Span>)
    requires spans == SpansOf(code, before)
    ensures out == SpansOf(code, before + ms)
  {
    out := spans;
    var k := 0;
    assert before + ms[..0] == before;
    while k < |ms|
      invariant 0 <= k <= |ms|
      invariant out == SpansOf(code, before + ms[..k])
    {
      out := AppendSpan(code, out, before + ms[..k], ms[k]);
      PrefixStep(before, ms, k);
      k := k + 1;
    }
    assert ms[..k] == ms;
  }

  /** The spans of every match, convention by convention, before deduplication. */
  method CollectSpans(code: string, found: seq<seq<Match>>) returns (spans: seq<Span>)
    ensures spans == SpansOf(code, Concat(found))
  {
    spans := [];
    var p := 0;
    while p < |found|
      invariant 0 <= p <= |found|
      invariant spans == SpansOf(code, Concat(found[..p]))
    {
      ConcatStep(found, p);
      spans := AppendSpans(code, spans, Concat(found[..p]), found[p]);
      p := p + 1;
    }
    assert found[..p] == found;
  }

  /** `find_callback_functions`: the spans of all matches, keeping the first span of each name. */
  method FindCallbacks(code: string, found: seq<seq<Match>>) returns (unique: seq<Span>)
    ensures unique == Callbacks(code, found)
  {
    var spans := CollectSpans(code, found);
    var seen: set<string> := {};
    unique := [];
    var i := 0;
    while i < |spans|
      invariant 0 <= i <= |spans|
      invariant unique == Unique(spans[..i])
      invariant forall name :: name in seen <==> NamedIn(name, spans[..i])
    {
      assert spans[..i + 1][..i] == spans[..i];
      if spans[i].name !in seen {
        seen := seen + {spans[i].name};
        unique := unique + [spans[i]];
      }
      assert forall name :: NamedIn(name, spans[..i + 1]) <==> NamedIn(name, spans[..i]) || name == spans[i].name by {
        forall name | NamedIn(name, spans[..i + 1])
          ensures NamedIn(name, spans[..i]) || name == spans[i].name
        {
          var j :| 0 <= j < i + 1 && spans[..i + 1][j].name == name;
          if j < i {
            assert spans[..i][j].name == name;
          }
        }
        forall name | NamedIn(name, spans[..i])
          ensures NamedIn(name, spans[..i + 1])
        {
          var j :| 0 <= j < i && spans[..i][j].name == name;
          assert spans[..i + 1][j].name == name;
        }
        assert spans[..i + 1][i] == spans[i];
      }
      i := i + 1;
    }
    assert spans[..i] == spans;
  }

  // ---------------------------------------------------------------------
  // The rule table
  // ---------------------------------------------------------------------

  /** One forbidden routine: its name, the category it belongs to and why it is forbidden. */
  datatype Rule = Rule(name: string, category: string, reason: string)

  /**
   * One line of the rule database: blank lines and `#` comments give
   * nothing, and so does any line that does not split on `|` into exactly
   * three fields.
   */
  function ParseRule(line: string): (r: Option<Rule>)
    ensures r.Some? <==> |Strip(line)| > 0 && Strip(line)[0] != '#' && Count(Strip(line), '|') == 2
    ensures r.Some? ==> r.value.name + "|" + r.value.category + "|" + r.value.reason == Strip(line)
    ensures r.Some? ==> '|' !in r.value.name && '|' !in r.value.category && '|' !in r.value.reason
  {
    var t := Strip(line);
    SplitCount(t, '|');
    if |t| == 0 || t[0] == '#' then None
    else
      var parts := Split(t, '|');
      if |parts| != 3 then None
      else
        SplitThree(t);
        Some(Rule(parts[0], parts[1], parts[2]))
  }

  /** Three fields joined back with `|` give the line. */
  lemma SplitThree(t: string)
    requires |Split(t, '|')| == 3
    ensures var parts := Split(t, '|'); parts[0] + "|" + parts[1] + "|" + parts[2] == t
  {
    var parts := Split(t, '|');
    SplitJoin(t, '|');
    assert parts[1..][1..] == [parts[2]];
    assert Join(parts[1..], '|') == parts[1] + ['|'] + parts[2];
  }

  /** The rule named `name`, if any. */
  function Lookup(rules: seq<Rule>, name: string): (r: Option<nat>)
    ensures r.Some? ==> r.value < |rules| && rules[r.value].name == name
    ensures r.None? ==> forall i :: 0 <= i < |rules| ==> rules[i].name != name
  {
    if |rules| == 0 then None
    else if rules[|rules| - 1].name == name then Some(|rules| - 1)
    else Lookup(rules[..|rules| - 1], name)
  }

  /**
   * A dictionary store: a known name keeps its place and takes the new
   * rule, a new name goes at the end.
   */
  function Put(rules: seq<Rule>, r: Rule): seq<Rule>
  {
    match Lookup(rules, r.name)
    case Some(i) => rules[i := r]
    case None => rules + [r]
  }

  /** The table the loader builds from the database lines read so far. */
  function Table(lines: seq<string>): seq<Rule>
  {
    if |lines| == 0 then []
    else
      var t := Table(lines[..|lines| - 1]);
      match ParseRule(lines[|lines| - 1])
      case Some(r) => Put(t, r)
      case None => t
  }

  /** The rule of the last line that defines `name`. */
  function LastRule(lines: seq<string>, name: string): (r: Option<Rule>)
    ensures r.Some? ==> r.value.name == name && exists i :: 0 <= i < |lines| && ParseRule(lines[i]) == r
  {
    if |lines| == 0 then None
    else
      var p := ParseRule(lines[|lines| - 1]);
      if p.Some? && p.value.name == name then p
      else
        var r := LastRule(lines[..|lines| - 1], name);
        if r.Some? then
          var i :| 0 <= i < |lines| - 1 && ParseRule(lines[..|lines| - 1][i]) == r;
          assert ParseRule(lines[i]) == r;
          r
        else r
  }

  predicate DistinctNames(rules: seq<Rule>)
  {
    forall i, j :: 0 <= i < j < |rules| ==> rules[i].name != rules[j].name
  }

  /**
   * The table holds each name once, and for each name the rule of the last
   * database line that defines it: a later duplicate wins.
   */
  lemma {:induction false} TableLastWins(lines: seq<string>)
    ensures DistinctNames(Table(lines))
    ensures forall name :: (Lookup(Table(lines), name).Some? <==> LastRule(lines, name).Some?)
    ensures forall name :: Lookup(Table(lines), name).Some? ==>
      Table(lines)[Lookup(Table(lines), name).value] == LastRule(lines, name).value
  {
    if |lines| > 0 {
      var init := lines[..|lines| - 1];
      TableLastWins(init);
      var t := Table(init);
      var p := ParseRule(lines[|lines| - 1]);
      if p.Some? {
        var r := p.value;
        assert Table(lines) == Put(t, r);
        PutStores(t, r);
        forall name
          ensures Lookup(Put(t, r), name).Some? <==> LastRule(lines, name).Some?
          ensures Lookup(Put(t, r), name).Some? ==> Put(t, r)[Lookup(Put(t, r), name).value] == LastRule(lines, name).value
        {
          if name != r.name {
            PutKeeps(t, r, name);
            assert LastRule(lines, name) == LastRule(init, name);
          }
        }
      } else {
        assert Table(lines) == t;
        forall name
          ensures LastRule(lines, name) == LastRule(init, name)
        {
        }
      }
    }
  }

  /** In a table without repeated names, the lookup finds the one entry with that name. */
  lemma LookupUnique(t: seq<Rule>, name: string, i: nat)
    requires DistinctNames(t) && i < |t| && t[i].name == name
    ensures Lookup(t, name) == Some(i)
  {
    var k := Lookup(t, name);
    assert k.Some? && t[k.value].name == t[i].name;
  }

  /** A store keeps names distinct and files the rule under its name. */
  lemma PutStores(t: seq<Rule>, r: Rule)
    requires DistinctNames(t)
    ensures DistinctNames(Put(t, r))
    ensures Lookup(Put(t, r), r.name).Some? && Put(t, r)[Lookup(Put(t, r), r.name).value] == r
  {
    var u := Put(t, r);
    var at := Lookup(t, r.name);
    if at.Some? {
      assert u == t[at.value := r];
      assert forall i :: 0 <= i < |u| ==> u[i].name == t[i].name;
      assert DistinctNames(u);
      LookupUnique(u, r.name, at.value);
    } else {
      assert u == t + [r];
      assert DistinctNames(u);
      LookupUnique(u, r.name, |t|);
    }
  }

  /** A store leaves every other name where it was, with the rule it had. */
  lemma PutKeeps(t: seq<Rule>, r: Rule, name: string)
    requires DistinctNames(t) && name != r.name
    ensures Lookup(Put(t, r), name).Some? == Lookup(t, name).Some?
    ensures Lookup(t, name).Some? ==> Put(t, r)[Lookup(Put(t, r), name).value] == t[Lookup(t, name).value]
  {
    var u := Put(t, r);
    PutStores(t, r);
    var a := Lookup(t, name);
    var b := Lookup(u, name);
    if Lookup(t, r.name).Some? {
      assert u == t[Lookup(t, r.name).value := r];
    } else {
      assert u == t + [r];
    }
    if a.Some? {
      assert u[a.value] == t[a.value];
      LookupUnique(u, name, a.value);
    }
  }

  /** Reading one more database line stores its rule, if it holds one. */
  lemma TableStep(lines: seq<string>, i: nat)
    requires i < |lines|
    ensures Table(lines[..i + 1]) == match ParseRule(lines[i])
      case Some(r) => Put(Table(lines[..i]), r)
      case None => Table(lines[..i])
  {
    assert lines[..i + 1][..i] == lines[..i];
  }

  /**
   * `load_forbidden_calls`: `None` when the database is missing (the
   * checker then stops with status 2), otherwise the table of its lines.
   */
  method LoadRules(db: Option<seq<string>>) returns (r: Option<seq<Rule>>)
    ensures r.None? <==> db.None?
    ensures r.Some? ==> r.value == Table(db.value)
  {
    if db.None? {
      return None;
    }
    var lines := db.value;
    var rules: seq<Rule> := [];
    var i := 0;
    while i < |lines|
      invariant 0 <= i <= |lines|
      invariant rules == Table(lines[..i])
    {
      TableStep(lines, i);
      var parsed := ParseRule(lines[i]);
      if parsed.Some? {
        rules := Put(rules, parsed.value);
      }
      i := i + 1;
    }
    assert lines[..i] == lines;
    r := Some(rules);
  }

  // ---------------------------------------------------------------------
  // Scanning one callback
  // ---------------------------------------------------------------------

  /** `line.split("//")[0]`: the text before the first `//`. */
  function BeforeLineComment(line: string): (t: string)
    ensures t <= line
    ensures forall k :: 0 <= k < |t| - 1 ==> !(t[k] == '/' && t[k + 1] == '/')
    ensures t == line || (|t| + 1 < |line| && line[|t|] == '/' && line[|t| + 1] == '/')
    ensures FindPair(line, '/', '/', 0).None? ==> t == line
    ensures FindPair(line, '/', '/', 0).Some? ==> |t| == FindPair(line, '/', '/', 0).value
  {
    match FindPair(line, '/', '/', 0)
    case None => line
    case Some(k) => line[..k]
  }

  /**
   * The block-comment removal on one line: from the first `/*`, delete up
   * to and including the first `*/` that starts after it, and go on after
   * that; an opening with no closing after it deletes nothing (and then no
   * later opening has one either). A line holds no newline, so the pattern's
   * `.` matches every character in between.
   */
  function StripBlocks(s: string): (t: string)
    ensures |t| <= |s|
    ensures FindPair(s, '/', '*', 0).None? ==> t == s
    decreases |s|
  {
    match FindPair(s, '/', '*', 0)
    case None => s
    case Some(i) =>
      match FindPair(s, '*', '/', i + 2)
      case None => s
      case Some(j) => s[..i] + StripBlocks(s[j + 2..])
  }

  /** What the scan looks at in a line: the line without its comments. */
  function CodeOf(line: string): string
  {
    StripBlocks(BeforeLineComment(line))
  }

  /** `\b` between s[p-1] and s[p]. */
  predicate Boundary(s: string, p: nat)
    requires p <= |s|
  {
    (p > 0 && IsWord(s[p - 1])) != (p < |s| && IsWord(s[p]))
  }

  /** The first position at or after `q` that is not white space. */
  function SkipSpaces(s: string, q: nat): (k: nat)
    requires q <= |s|
    ensures q <= k <= |s|
    ensures forall j :: q <= j < k ==> IsSpace(s[j])
    ensures k < |s| ==> !IsSpace(s[k])
    decreases |s| - q
  {
    if q < |s| && IsSpace(s[q]) then SkipSpaces(s, q + 1) else q
  }

  /** The pattern `\b NAME \s* \(` matches at `p`. */
  predicate CallAt(s: string, name: string, p: nat)
  {
    p + |name| <= |s| && s[p..p + |name|] == name && Boundary(s, p)
    && var k := SkipSpaces(s, p + |name|); k < |s| && s[k] == '('
  }

  /** The search for the pattern from position `q` on, left to right as `re.search` goes. */
  predicate CallFrom(s: string, name: string, q: nat)
    decreases |s| - q
  {
    q <= |s| && (CallAt(s, name, q) || CallFrom(s, name, q + 1))
  }

  /** The search finds the pattern exactly when it matches at some position from `q` on. */
  lemma {:induction false} CallFromExists(s: string, name: string, q: nat)
    ensures CallFrom(s, name, q) <==> exists p: nat :: q <= p <= |s| && CallAt(s, name, p)
    decreases |s| - q
  {
    if q <= |s| {
      CallFromExists(s, name, q + 1);
    }
  }

  /** A line calls `name` when the pattern matches somewhere in its code. */
  predicate Calls(line: string, name: string)
  {
    CallFrom(CodeOf(line), name, 0)
  }

  /** One detected violation: where, in which callback, which call and the rule's category and reason. */
  datatype Violation = Violation(file: string, line: int, callback: string, call: string,
                                 category: string, reason: string, context: string)

  /** The record for a call of `rule` on line `lineNo` (whose text is `text`) of callback `sp`. */
  function Report(file: string, sp: Span, rule: Rule, lineNo: int, text: string): Violation
  {
    Violation(file, lineNo, sp.name, rule.name, rule.category, rule.reason, Strip(text))
  }

  /** Python's `lines[a:b]` for non-negative bounds. */
  function Slice(lines: seq<string>, a: nat, b: nat): seq<string>
  {
    var lo := if a <= |lines| then a else |lines|;
    var hi := if b <= |lines| then b else |lines|;
    if lo <= hi then lines[lo..hi] else []
  }

  /** The lines of a callback: from its start line to its end line, both included. */
  function Body(code: string, sp: Span): seq<string>
  {
    SpanLines(Lines(code), sp)
  }

  /** Which lines of a body call `name`. */
  function Marks(body: seq<string>, name: string): (m: seq<bool>)
    ensures |m| == |body|
    ensures forall i :: 0 <= i < |body| ==> m[i] == Calls(body[i], name)
  {
    seq(|body|, i requires 0 <= i < |body| => Calls(body[i], name))
  }

  /** The report for line `i` of the body. */
  function ReportAt(body: seq<string>, sp: Span, rule: Rule, file: string, i: nat): Violation
    requires i < |body|
  {
    Report(file, sp, rule, sp.startLine + i, body[i])
  }

  /**
   * The reports of one rule over the lines of `body`, where `marks` says
   * which lines call it (line `sp.startLine + i` for body[i]).
   */
  function Reports(body: seq<string>, marks: seq<bool>, sp: Span, rule: Rule, file: string): seq<Violation>
    requires |marks| == |body|
  {
    if |body| == 0 then []
    else
      var n := |body| - 1;
      Reports(body[..n], marks[..n], sp, rule, file) + (if marks[n] then [ReportAt(body, sp, rule, file, n)] else [])
  }

  /** The reports of one rule over a callback's lines. */
  function RuleHits(body: seq<string>, sp: Span, rule: Rule, file: string): seq<Violation>
  {
    Reports(body, Marks(body, rule.name), sp, rule, file)
  }

  /** Which lines of a body call which rule's routine: row `r` marks the calls of `rules[r]`. */
  function MarkTable(body: seq<string>, rules: seq<Rule>): (t: seq<seq<bool>>)
    ensures |t| == |rules|
    ensures forall r :: 0 <= r < |rules| ==> t[r] == Marks(body, rules[r].name)
  {
    seq(|rules|, r requires 0 <= r < |rules| => Marks(body, rules[r].name))
  }

  /** `table` has one row per rule and one mark per line of the body. */
  predicate Fits(table: seq<seq<bool>>, body: seq<string>, n: nat)
  {
    |table| == n && forall r :: 0 <= r < n ==> |table[r]| == |body|
  }

  /** The reports of every rule, rule by rule, where `table` says which lines call which rule. */
  function TableReports(body: seq<string>, table: seq<seq<bool>>, sp: Span, rules: seq<Rule>, file: string): seq<Violation>
    requires Fits(table, body, |rules|)
  {
    if |rules| == 0 then []
    else
      var n := |rules| - 1;
      TableReports(body, table[..n], sp, rules[..n], file) + Reports(body, table[n], sp, rules[n], file)
  }

  /** The reports for one callback: rule by rule, and within a rule line by line. */
  function FunctionViolations(body: seq<string>, sp: Span, rules: seq<Rule>, file: string): seq<Violation>
  {
    TableReports(body, MarkTable(body, rules), sp, rules, file)
  }

  /** Every report is the report of a marked line. */
  lemma {:induction false} ReportsSound(body: seq<string>, marks: seq<bool>, sp: Span, rule: Rule, file: string, v: Violation)
    requires |marks| == |body|
    requires v in Reports(body, marks, sp, rule, file)
    ensures exists i: nat :: i < |body| && marks[i] && v == ReportAt(body, sp, rule, file, i)
    decreases |body|
  {
    var n := |body| - 1;
    var init := body[..n];
    if v in Reports(init, marks[..n], sp, rule, file) {
      ReportsSound(init, marks[..n], sp, rule, file, v);
      var i: nat :| i < |init| && marks[..n][i] && v == ReportAt(init, sp, rule, file, i);
      assert body[i] == init[i];
      assert marks[i] && v == ReportAt(body, sp, rule, file, i);
    } else {
      assert marks[n] && v == ReportAt(body, sp, rule, file, n);
    }
  }

  /** Every marked line is reported. */
  lemma {:induction false} ReportsComplete(body: seq<string>, marks: seq<bool>, sp: Span, rule: Rule, file: string, i: nat)
    requires |marks| == |body| && i < |body| && marks[i]
    ensures ReportAt(body, sp, rule, file, i) in Reports(body, marks, sp, rule, file)
    decreases |body|
  {
    var n := |body| - 1;
    var init := body[..n];
    var x := ReportAt(body, sp, rule, file, i);
    assert Reports(body, marks, sp, rule, file)
      == Reports(init, marks[..n], sp, rule, file) + (if marks[n] then [ReportAt(body, sp, rule, file, n)] else []);
    if i < n {
      assert init[i] == body[i] && marks[..n][i];
      ReportsComplete(init, marks[..n], sp, rule, file, i);
      assert ReportAt(init, sp, rule, file, i) == x;
    } else {
      assert x == ReportAt(body, sp, rule, file, n);
    }
  }

  /**
   * One rule's reports go in line order, one per line, and stay on the
   * body's lines: two calls on one line give one report, calls on two lines
   * give two.
   */
  lemma {:induction false} ReportsOrdered(body: seq<string>, marks: seq<bool>, sp: Span, rule: Rule, file: string)
    requires |marks| == |body|
    ensures forall v :: v in Reports(body, marks, sp, rule, file) ==> sp.startLine <= v.line < sp.startLine + |body|
    ensures forall a, b :: 0 <= a < b < |Reports(body, marks, sp, rule, file)| ==>
      Reports(body, marks, sp, rule, file)[a].line < Reports(body, marks, sp, rule, file)[b].line
    decreases |body|
  {
    if |body| > 0 {
      var n := |body| - 1;
      ReportsOrdered(body[..n], marks[..n], sp, rule, file);
    }
  }

  /** Every report is the report of a line marked for its rule. */
  lemma {:induction false} TableReportsSound(body: seq<string>, table: seq<seq<bool>>, sp: Span, rules: seq<Rule>, file: string, v: Violation)
    requires Fits(table, body, |rules|)
    requires v in TableReports(body, table, sp, rules, file)
    ensures exists r: nat, i: nat :: r < |rules| && i < |body| && table[r][i] && v == ReportAt(body, sp, rules[r], file, i)
    decreases |rules|
  {
    var n := |rules| - 1;
    if v in TableReports(body, table[..n], sp, rules[..n], file) {
      TableReportsSound(body, table[..n], sp, rules[..n], file, v);
      var r: nat, i: nat :| r < n && i < |body| && table[..n][r][i] && v == ReportAt(body, sp, rules[..n][r], file, i);
      assert rules[..n][r] == rules[r] && table[..n][r] == table[r];
    } else {
      ReportsSound(body, table[n], sp, rules[n], file, v);
    }
  }

  /** Every line marked for a rule is reported. */
  lemma {:induction false} TableReportsComplete(body: seq<string>, table: seq<seq<bool>>, sp: Span, rules: seq<Rule>, file: string, r: nat, i: nat)
    requires Fits(table, body, |rules|)
    requires r < |rules| && i < |body| && table[r][i]
    ensures ReportAt(body, sp, rules[r], file, i) in TableReports(body, table, sp, rules, file)
    decreases |rules|
  {
    var n := |rules| - 1;
    if r < n {
      assert rules[..n][r] == rules[r] && table[..n][r] == table[r];
      TableReportsComplete(body, table[..n], sp, rules[..n], file, r, i);
    } else {
      ReportsComplete(body, table[n], sp, rules[n], file, i);
    }
  }

  /**
   * Every report of a callback is the report of a line that calls one
   * rule's routine, carrying the callback's name and the rule's category
   * and reason.
   */
  lemma FunctionViolationsSound(body: seq<string>, sp: Span, rules: seq<Rule>, file: string, v: Violation)
    requires v in FunctionViolations(body, sp, rules, file)
    ensures exists r: nat, i: nat :: (r < |rules| && i < |body| && Calls(body[i], rules[r].name)
      && v == ReportAt(body, sp, rules[r], file, i))
  {
    var table := MarkTable(body, rules);
    TableReportsSound(body, table, sp, rules, file, v);
    var r: nat, i: nat :| r < |rules| && i < |body| && table[r][i] && v == ReportAt(body, sp, rules[r], file, i);
    assert table[r][i] == Calls(body[i], rules[r].name);
  }

  /** Every (rule, line) pair where the line calls the rule's routine is reported. */
  lemma FunctionViolationsComplete(body: seq<string>, sp: Span, rules: seq<Rule>, file: string, r: nat, i: nat)
    requires r < |rules| && i < |body| && Calls(body[i], rules[r].name)
    ensures ReportAt(body, sp, rules[r], file, i) in FunctionViolations(body, sp, rules, file)
  {
    var table := MarkTable(body, rules);
    assert table[r][i] == Calls(body[i], rules[r].name);
    TableReportsComplete(body, table, sp, rules, file, r, i);
  }

  /** The lines of a callback within the lines of its text: from its start line to its end line. */
  function SpanLines(lines: seq<string>, sp: Span): seq<string>
  {
    Slice(lines, sp.startLine - 1, sp.endLine)
  }

  /** Line `i` of a callback is the text's line `sp.startLine + i`, never past the span's end line. */
  lemma BodyLine(lines: seq<string>, sp: Span, i: nat)
    requires i < |SpanLines(lines, sp)|
    ensures sp.startLine + i <= sp.endLine && sp.startLine + i <= |lines|
    ensures SpanLines(lines, sp)[i] == lines[sp.startLine + i - 1]
  {
    var a := sp.startLine - 1;
    var hi := if sp.endLine <= |lines| then sp.endLine else |lines|;
    assert a <= hi && SpanLines(lines, sp) == lines[a..hi];
  }

  /**
   * Every report of a callback lies inside its span, names the callback,
   * and carries the category and reason of a rule named by its call.
   */
  lemma ViolationInSpan(lines: seq<string>, sp: Span, rules: seq<Rule>, file: string, v: Violation)
    requires v in FunctionViolations(SpanLines(lines, sp), sp, rules, file)
    ensures sp.startLine <= v.line <= sp.endLine && v.line <= |lines|
    ensures v.callback == sp.name && v.file == file
    ensures exists r :: 0 <= r < |rules| && rules[r].name == v.call && rules[r].category == v.category && rules[r].reason == v.reason
  {
    var body := SpanLines(lines, sp);
    FunctionViolationsSound(body, sp, rules, file, v);
    var r: nat, i: nat :| r < |rules| && i < |body| && Calls(body[i], rules[r].name) && v == ReportAt(body, sp, rules[r], file, i);
    BodyLine(lines, sp, i);
  }

  /** The line a report points at calls the reported routine, and the report's context is that line, trimmed. */
  lemma ViolationLine(lines: seq<string>, sp: Span, rules: seq<Rule>, file: string, v: Violation)
    requires v in FunctionViolations(SpanLines(lines, sp), sp, rules, file)
    ensures 1 <= v.line <= |lines|
    ensures Calls(lines[v.line - 1], v.call) && v.context == Strip(lines[v.line - 1])
  {
    var body := SpanLines(lines, sp);
    FunctionViolationsSound(body, sp, rules, file, v);
    var r: nat, i: nat :| r < |rules| && i < |body| && Calls(body[i], rules[r].name) && v == ReportAt(body, sp, rules[r], file, i);
    LineOf(lines, sp, rules[r], file, i, v);
  }

  /** The report for line `i` of a callback points at the text's line holding that call. */
  lemma LineOf(lines: seq<string>, sp: Span, rule: Rule, file: string, i: nat, v: Violation)
    requires i < |SpanLines(lines, sp)| && Calls(SpanLines(lines, sp)[i], rule.name)
    requires v == ReportAt(SpanLines(lines, sp), sp, rule, file, i)
    ensures 1 <= v.line <= |lines|
    ensures Calls(lines[v.line - 1], v.call) && v.context == Strip(lines[v.line - 1])
  {
    BodyLine(lines, sp, i);
    assert v.line == sp.startLine + i;
    assert lines[v.line - 1] == SpanLines(lines, sp)[i];
  }

  /** `check_function_for_violations`: rule by rule, line by line over the callback's lines. */
  method CheckFunction(code: string, sp: Span, rules: seq<Rule>, file: string) returns (vs: seq<Violation>)
    ensures vs == FunctionViolations(Body(code, sp), sp, rules, file)
  {
    var body := Body(code, sp);
    ghost var table := MarkTable(body, rules);
    vs := [];
    var r := 0;
    while r < |rules|
      invariant 0 <= r <= |rules|
      invariant vs == TableReports(body, table[..r], sp, rules[..r], file)
    {
      assert rules[..r + 1][..r] == rules[..r] && table[..r + 1][..r] == table[..r];
      var hits := RuleLines(body, sp, rules[r], file);
      vs := vs + hits;
      r := r + 1;
    }
    assert rules[..r] == rules && table[..r] == table;
  }

  /** Taking one more line of the body adds that line's report, if it is marked. */
  lemma ReportsStep(body: seq<string>, marks: seq<bool>, sp: Span, rule: Rule, file: string, i: nat)
    requires |marks| == |body| && i < |body|
    ensures Reports(body[..i + 1], marks[..i + 1], sp, rule, file)
      == Reports(body[..i], marks[..i], sp, rule, file) + (if marks[i] then [ReportAt(body, sp, rule, file, i)] else [])
  {
    assert body[..i + 1][..i] == body[..i] && marks[..i + 1][..i] == marks[..i];
  }

  /** The inner loop: the lines of the callback that call one rule's routine. */
  method RuleLines(body: seq<string>, sp: Span, rule: Rule, file: string) returns (hits: seq<Violation>)
    ensures hits == RuleHits(body, sp, rule, file)
  {
    ghost var marks := Marks(body, rule.name);
    hits := [];
    var i := 0;
    while i < |body|
      invariant 0 <= i <= |body|
      invariant hits == Reports(body[..i], marks[..i], sp, rule, file)
    {
      ReportsStep(body, marks, sp, rule, file, i);
      var called := Calls(body[i], rule.name);
      assert called == marks[i];
      if called {
        hits := hits + [ReportAt(body, sp, rule, file, i)];
      }
      i := i + 1;
    }
    assert body[..i] == body && marks[..i] == marks;
  }

  // ---------------------------------------------------------------------
  // Texts, files, directories and the exit status
  // ---------------------------------------------------------------------

  /** The reports for the callbacks of a text, callback by callback. */
  function ContentViolations(code: string, spans: seq<Span>, rules: seq<Rule>, file: string): seq<Violation>
  {
    if |spans| == 0 then []
    else
      var sp := spans[|spans| - 1];
      ContentViolations(code, spans[..|spans| - 1], rules, file) + FunctionViolations(Body(code, sp), sp, rules, file)
  }

  /** Every report of a text lies inside one of its callbacks and names it. */
  lemma {:induction false} ContentInSpans(code: string, spans: seq<Span>, rules: seq<Rule>, file: string, v: Violation)
    requires v in ContentViolations(code, spans, rules, file)
    ensures exists k :: 0 <= k < |spans| && spans[k].name == v.callback && spans[k].startLine <= v.line <= spans[k].endLine
    ensures v.line <= |Lines(code)| && Calls(Lines(code)[v.line - 1], v.call)
    decreases |spans|
  {
    var n := |spans| - 1;
    if v in ContentViolations(code, spans[..n], rules, file) {
      ContentInSpans(code, spans[..n], rules, file, v);
      var k :| 0 <= k < n && spans[..n][k].name == v.callback && spans[..n][k].startLine <= v.line <= spans[..n][k].endLine;
      assert spans[k] == spans[..n][k];
    } else {
      ViolationInSpan(Lines(code), spans[n], rules, file, v);
      ViolationLine(Lines(code), spans[n], rules, file, v);
    }
  }

  /**
   * `check_content`: `None` when the rule database is missing (status 2),
   * otherwise the reports for the text's callbacks.
   */
  method CheckContent(code: string, finder: Finder, db: Option<seq<string>>, file: string) returns (r: Option<seq<Violation>>)
    ensures r.None? <==> db.None?
    ensures r.Some? ==> r.value == ContentViolations(code, Callbacks(code, finder(code)), Table(db.value), file)
  {
    var rules := LoadRules(db);
    if rules.None? {
      return None;
    }
    var callbacks := FindCallbacks(code, finder(code));
    var all: seq<Violation> := [];
    var k := 0;
    while k < |callbacks|
      invariant 0 <= k <= |callbacks|
      invariant all == ContentViolations(code, callbacks[..k], rules.value, file)
    {
      assert callbacks[..k + 1][..k] == callbacks[..k];
      var vs := CheckFunction(code, callbacks[k], rules.value, file);
      all := all + vs;
      k := k + 1;
    }
    assert callbacks[..k] == callbacks;
    r := Some(all);
  }

  /** A C file as the scan sees it: its path and its text (`None` when it cannot be read). */
  datatype SourceFile = SourceFile(path: string, text: Option<string>)

  /** The rules in force: the database's table, none when it is missing. */
  function RulesOf(db: Option<seq<string>>): seq<Rule>
  {
    if db.Some? then Table(db.value) else []
  }

  /** The reports for one file; an unreadable file contributes none. */
  function FileViolations(f: SourceFile, finder: Finder, rules: seq<Rule>): seq<Violation>
  {
    match f.text
    case None => []
    case Some(code) => ContentViolations(code, Callbacks(code, finder(code)), rules, f.path)
  }

  predicate AnyReadable(files: seq<SourceFile>)
  {
    exists i :: 0 <= i < |files| && files[i].text.Some?
  }

  /** The reports for a list of files, file by file. */
  function FilesViolations(files: seq<SourceFile>, finder: Finder, rules: seq<Rule>): seq<Violation>
  {
    if |files| == 0 then []
    else FilesViolations(files[..|files| - 1], finder, rules) + FileViolations(files[|files| - 1], finder, rules)
  }

  /** One more file adds its reports, and is readable or not. */
  lemma FilesStep(files: seq<SourceFile>, finder: Finder, rules: seq<Rule>, i: nat)
    requires i < |files|
    ensures FilesViolations(files[..i + 1], finder, rules) == FilesViolations(files[..i], finder, rules) + FileViolations(files[i], finder, rules)
    ensures AnyReadable(files[..i + 1]) <==> AnyReadable(files[..i]) || files[i].text.Some?
  {
    assert files[..i + 1][..i] == files[..i];
    if files[i].text.Some? {
      assert files[..i + 1][i] == files[i];
    }
    if AnyReadable(files[..i + 1]) {
      var j :| 0 <= j < i + 1 && files[..i + 1][j].text.Some?;
      if j < i {
        assert files[..i][j] == files[j];
      }
    }
  }

  /**
   * `check_file`: a read failure gives no reports; a readable file with the
   * database missing stops the run (`None`).
   */
  method CheckFile(f: SourceFile, finder: Finder, db: Option<seq<string>>) returns (r: Option<seq<Violation>>)
    ensures r.None? <==> db.None? && f.text.Some?
    ensures r.Some? ==> r.value == FileViolations(f, finder, RulesOf(db))
  {
    if f.text.None? {
      return Some([]);
    }
    r := CheckContent(f.text.value, finder, db, f.path);
  }

  /** `check_directory`: the files in the order they are listed, stopping at the first that stops the run. */
  method CheckDirectory(files: seq<SourceFile>, finder: Finder, db: Option<seq<string>>) returns (r: Option<seq<Violation>>)
    ensures r.None? <==> db.None? && AnyReadable(files)
    ensures r.Some? ==> r.value == FilesViolations(files, finder, RulesOf(db))
  {
    var all: seq<Violation> := [];
    var i := 0;
    while i < |files|
      invariant 0 <= i <= |files|
      invariant all == FilesViolations(files[..i], finder, RulesOf(db))
      invariant db.None? ==> !AnyReadable(files[..i])
    {
      FilesStep(files, finder, RulesOf(db), i);
      var vs := CheckFile(files[i], finder, db);
      if vs.None? {
        return None;
      }
      all := all + vs.value;
      i := i + 1;
    }
    assert files[..i] == files;
    r := Some(all);
  }

  /** What a path on the command line names. */
  datatype PathKind = RegularFile(file: SourceFile) | Directory(files: seq<SourceFile>) | Missing

  datatype Target = Target(path: string, kind: PathKind)

  /** Whether a run scans anything (and so needs the rule database). */
  predicate Scans(content: Option<string>, target: Option<Target>, defaults: seq<SourceFile>)
  {
    if content.Some? && content.value != "" then true
    else if target.Some? && target.value.path != "" then
      match target.value.kind
      case RegularFile(f) => f.text.Some?
      case Directory(files) => AnyReadable(files)
      case Missing => false
    else AnyReadable(defaults)
  }

  /** A target was given and does not exist. */
  predicate TargetMissing(content: Option<string>, target: Option<Target>)
  {
    !(content.Some? && content.value != "") && target.Some? && target.value.path != "" && target.value.kind.Missing?
  }

  /** The reports of a run that goes through. */
  function RunViolations(content: Option<string>, target: Option<Target>, defaults: seq<SourceFile>,
                         finder: Finder, rules: seq<Rule>): seq<Violation>
  {
    if content.Some? && content.value != "" then
      ContentViolations(content.value, Callbacks(content.value, finder(content.value)), rules, "<stdin>")
    else if target.Some? && target.value.path != "" then
      match target.value.kind
      case RegularFile(f) => FileViolations(f, finder, rules)
      case Directory(files) => FilesViolations(files, finder, rules)
      case Missing => []
    else FilesViolations(defaults, finder, rules)
  }

  /**
   * The command: content given directly (a non-empty option) wins, then a
   * non-empty target (a file, a directory, or a missing path), then the
   * default source directories (`defaults`: the C files under src/mactcp,
   * src/opentransport and src/appletalk that exist). The exit status is 2
   * for a missing target or, when anything is scanned, a missing rule
   * database; otherwise 1 exactly when some violation was found.
   */
  method Run(content: Option<string>, target: Option<Target>, defaults: seq<SourceFile>,
             finder: Finder, db: Option<seq<string>>) returns (status: int, violations: seq<Violation>)
    ensures status == 2 <==> TargetMissing(content, target) || (db.None? && Scans(content, target, defaults))
    ensures status == 2 ==> violations == []
    ensures status != 2 ==> violations == RunViolations(content, target, defaults, finder, RulesOf(db))
    ensures status == 1 <==> status != 2 && |violations| > 0
    ensures status == 0 <==> status != 2 && violations == []
  {
    var r: Option<seq<Violation>>;
    if content.Some? && content.value != "" {
      r := CheckContent(content.value, finder, db, "<stdin>");
    } else if target.Some? && target.value.path != "" {
      match target.value.kind {
        case RegularFile(f) =>
          r := CheckFile(f, finder, db);
        case Directory(files) =>
          r := CheckDirectory(files, finder, db);
        case Missing =>
          r := None;
      }
    } else {
      r := CheckDirectory(defaults, finder, db);
    }
    if r.None? {
      return 2, [];
    }
    violations := r.value;
    status := if |violations| > 0 then 1 else 0;
  }
}
