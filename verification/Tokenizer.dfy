/**
 * The in-place tokenizer: cuts a NUL-terminated buffer into words by writing
 * terminators over delimiters, and reports where the words start.
 */
module Tokenizer {
  import opened Common

  const NUL := '\0'

  /** The nonempty maximal delimiter-free runs of `s`, in order. */
  function Runs(s: string, delim: char): (r: seq<string>)
    decreases |s|
  {
    var n := Span(s, {delim});
    (if n > 0 then [s[..n]] else []) + (if n < |s| then Runs(s[n + 1..], delim) else [])
  }

  function Flatten(parts: seq<string>): string {
    if parts == [] then "" else parts[0] + Flatten(parts[1..])
  }

  lemma {:induction false} FlattenConcat(a: seq<string>, b: seq<string>)
    ensures Flatten(a + b) == Flatten(a) + Flatten(b)
  {
    if a == [] {
      assert a + b == b;
    } else {
      assert (a + b)[1..] == a[1..] + b;
      FlattenConcat(a[1..], b);
    }
  }

  lemma {:induction false} FilterAll(s: string, p: char -> bool)
    requires forall i :: 0 <= i < |s| ==> p(s[i])
    ensures Filter(s, p) == s
  {
    if s != "" {
      FilterAll(s[..|s| - 1], p);
    }
  }

  /** The runs of a text whose first delimiter follows `w`. */
  lemma RunHead(w: string, rest: string, delim: char)
    requires forall k :: 0 <= k < |w| ==> w[k] != delim
    ensures Runs(w + [delim] + rest, delim) == (if w != "" then [w] else []) + Runs(rest, delim)
  {
    hide Span;
    var s := w + [delim] + rest;
    assert s == w + ([delim] + rest);
    SpanOver(w, [delim] + rest, {delim});
    assert s[..|w|] == w && s[|w| + 1..] == rest;
  }

  lemma LoneRun(w: string, delim: char)
    requires forall k :: 0 <= k < |w| ==> w[k] != delim
    ensures Runs(w, delim) == if w != "" then [w] else []
  {
    hide Span;
    SpanOver(w, "", {delim});
    assert w + "" == w && w[..|w|] == w;
  }

  lemma FlattenOne(w: string)
    ensures Flatten(if w != "" then [w] else []) == w
  {
    if w != "" {
      assert [w][1..] == [] && w + "" == w;
    }
  }

  lemma FilterDrops(w: string, delim: char)
    requires delim !in w
    ensures Filter(w + [delim], c => c != delim) == w
  {
    assert (w + [delim])[..|w|] == w;
    FilterAll(w, c => c != delim);
  }

  /** The runs are nonempty and delimiter-free, and together they are the text
      without its delimiters. */
  lemma {:induction false} RunsCoverText(s: string, delim: char)
    ensures forall i :: 0 <= i < |Runs(s, delim)| ==> Runs(s, delim)[i] != "" && delim !in Runs(s, delim)[i]
    ensures Flatten(Runs(s, delim)) == Filter(s, c => c != delim)
    decreases |s|
  {
    hide Runs, Span, Flatten, Filter;
    var n, p := Span(s, {delim}), (c: char) => c != delim;
    var w := s[..n];
    FilterAll(w, p);
    FlattenOne(w);
    if n < |s| {
      var t := s[n + 1..];
      assert s == w + [delim] + t;
      RunHead(w, t, delim);
      RunsCoverText(t, delim);
      FlattenConcat(if w != "" then [w] else [], Runs(t, delim));
      FilterConcat(w + [delim], t, p);
      FilterDrops(w, delim);
    } else {
      assert w == s;
      LoneRun(s, delim);
    }
  }

  /** Runs are maximal: a delimiter between two texts separates their runs, and
      nothing else does. */
  lemma {:induction false} RunsSplit(a: string, b: string, delim: char)
    ensures Runs(a + [delim] + b, delim) == Runs(a, delim) + Runs(b, delim)
    decreases |a|
  {
    hide Runs, Span;
    var n := Span(a, {delim});
    if n < |a| {
      var w, t := a[..n], a[n + 1..];
      assert a == w + [delim] + t;
      assert a + [delim] + b == w + [delim] + (t + [delim] + b);
      RunHead(w, t, delim);
      RunHead(w, t + [delim] + b, delim);
      RunsSplit(t, b, delim);
    } else {
      RunHead(a, b, delim);
      LoneRun(a, delim);
    }
  }

  /** What is left behind the leading spaces. */
  function SkipSpaces(s: string): (r: string)
    ensures |r| <= |s| && r == s[|s| - |r|..]
    ensures forall i :: 0 <= i < |s| - |r| ==> s[i] == ' '
    ensures r != "" ==> r[0] != ' '
  {
    if s != "" && s[0] == ' ' then SkipSpaces(s[1..]) else s
  }

  /** A NUL-terminated string `t` starts at position `at` of the buffer. */
  ghost predicate TextAt(buf: seq<char>, at: int, t: string) {
    && 0 <= at && at + |t| < |buf|
    && buf[at..at + |t|] == t && buf[at + |t|] == NUL && NUL !in t
  }

  /** All words found so far are in place, in front of position `limit`. */
  ghost predicate Found(buf: seq<char>, starts: seq<int>, words: seq<string>, limit: int) {
    && |words| <= |starts|
    && forall j :: 0 <= j < |words| ==> TextAt(buf, starts[j], words[j]) && starts[j] + |words[j]| < limit
  }

  lemma FoundKept(buf: seq<char>, buf': seq<char>, starts: seq<int>, words: seq<string>, limit: nat)
    requires Found(buf, starts, words, limit) && limit <= |buf| == |buf'|
    requires forall k :: 0 <= k < limit ==> buf[k] == buf'[k]
    ensures Found(buf', starts, words, limit)
  {
    forall j | 0 <= j < |words|
      ensures TextAt(buf', starts[j], words[j])
    {
      var at, t := starts[j], words[j];
      assert buf'[at..at + |t|] == buf[at..at + |t|];
    }
  }

  /** A freshly placed word joins the ones in front of it. */
  lemma WordPlaced(buf: seq<char>, starts: seq<int>, words: seq<string>, at: int, word: string)
    requires |words| < |starts| && Found(buf, starts, words, at) && TextAt(buf, at, word)
    ensures Found(buf, starts[|words| := at], words + [word], at + |word| + 1)
  {
    hide TextAt;
  }

  lemma FoundBefore(buf: seq<char>, starts: seq<int>, words: seq<string>, limit: int, further: int)
    requires Found(buf, starts, words, limit) && limit <= further
    ensures Found(buf, starts, words, further)
  {
    hide TextAt;
  }

  lemma FoundWords(buf: seq<char>, starts: seq<int>, words: seq<string>, all: seq<string>, limit: int)
    requires Found(buf, starts, words, limit) && words <= all
    ensures |words| <= |starts| && forall j :: 0 <= j < |words| ==> TextAt(buf, starts[j], all[j])
  {
    hide TextAt;
  }

  lemma SkipOne(text: string, n: nat)
    requires n < |text| && text[n] == ' '
    ensures SkipSpaces(text[n + 1..]) == SkipSpaces(text[n..])
  {
    assert text[n..][1..] == text[n + 1..];
  }

  /** At a delimiter the run since `p`, if there is one, is complete. */
  lemma RunEnds(text: string, p: nat, n: nat, delim: char)
    requires p <= n < |text| && text[n] == delim
    requires forall k :: p <= k < n ==> text[k] != delim
    ensures Runs(text[p..], delim) == (if n > p then [text[p..n]] else []) + Runs(text[n + 1..], delim)
  {
    hide Runs;
    assert text[p..] == text[p..n] + [delim] + text[n + 1..];
    RunHead(text[p..n], text[n + 1..], delim);
  }

  /** The state of the cutting loop: `done` is stored, the word since `p` has been
      read as far as `n`, and `all` is what the whole text holds. */
  ghost predicate Cutting(buf: seq<char>, starts: seq<int>, text: string, delim: char,
                          all: seq<string>, done: seq<string>, p: int, n: int)
  {
    && 0 <= p <= n <= |text| < |buf| && buf[|text|] == NUL && NUL !in text
    && (forall k :: p <= k < |text| ==> buf[k] == text[k])
    && (forall k :: p <= k < n ==> text[k] != delim)
    && (p < n ==> |done| < |starts|)
    && all == done + Runs(text[p..], delim)
    && Found(buf, starts, done, p)
  }

  lemma CuttingAt(buf: seq<char>, starts: seq<int>, text: string, delim: char,
                  all: seq<string>, done: seq<string>, p: int, n: int)
    requires Cutting(buf, starts, text, delim, all, done, p, n)
    ensures 0 <= p <= n <= |text| < |buf| && |done| <= |starts| && (p < n ==> |done| < |starts|)
    ensures buf[n] != NUL <==> n < |text|
    ensures n < |text| && buf[n] != delim && |done| < |starts| ==>
              Cutting(buf, starts, text, delim, all, done, p, n + 1)
  {
    hide Runs;
  }

  lemma WordAt(buf: seq<char>, text: string, p: int, n: int)
    requires 0 <= p < n <= |text| && n < |buf| && buf[n] == NUL && NUL !in text
    requires forall k :: p <= k < n ==> buf[k] == text[k]
    ensures TextAt(buf, p, text[p..n])
  {
    assert buf[p..n] == text[p..n];
  }

  /** Terminating the word at a delimiter and storing its start. */
  lemma CuttingWord(buf: seq<char>, starts: seq<int>, text: string, delim: char,
                    all: seq<string>, done: seq<string>, p: int, n: int)
    requires Cutting(buf, starts, text, delim, all, done, p, n) && p < n < |text| && text[n] == delim
    ensures Cutting(buf[n := NUL], starts[|done| := p], text, delim, all, done + [text[p..n]], n + 1, n + 1)
  {
    hide Runs, TextAt, Found;
    RunEnds(text, p, n, delim);
    FoundKept(buf, buf[n := NUL], starts, done, p);
    WordAt(buf[n := NUL], text, p, n);
    WordPlaced(buf[n := NUL], starts, done, p, text[p..n]);
  }

  /** A delimiter with no word in front of it. */
  lemma CuttingNothing(buf: seq<char>, starts: seq<int>, text: string, delim: char,
                       all: seq<string>, done: seq<string>, n: int)
    requires Cutting(buf, starts, text, delim, all, done, n, n) && n < |text| && text[n] == delim
    ensures Cutting(buf[n := NUL], starts, text, delim, all, done, n + 1, n + 1)
  {
    hide Runs, TextAt, Found;
    RunEnds(text, n, n, delim);
    FoundKept(buf, buf[n := NUL], starts, done, n);
    FoundBefore(buf[n := NUL], starts, done, n, n + 1);
  }

  lemma CuttingDelim(buf: seq<char>, starts: seq<int>, text: string, delim: char,
                     all: seq<string>, done: seq<string>, p: int, n: int)
    requires Cutting(buf, starts, text, delim, all, done, p, n)
    requires 0 <= p <= n < |text| < |buf| && buf[n] == delim
    ensures p < n ==>
              && |done| < |starts|
              && Cutting(buf[n := NUL], starts[|done| := p], text, delim, all, done + [text[p..n]], n + 1, n + 1)
    ensures p == n ==> Cutting(buf[n := NUL], starts, text, delim, all, done, n + 1, n + 1)
  {
    hide Runs, TextAt, Found;
    if p < n {
      CuttingWord(buf, starts, text, delim, all, done, p, n);
    } else {
      CuttingNothing(buf, starts, text, delim, all, done, n);
    }
  }

  lemma CuttingFull(buf: seq<char>, starts: seq<int>, text: string, delim: char,
                    all: seq<string>, done: seq<string>, p: int, n: int)
    requires Cutting(buf, starts, text, delim, all, done, p, n) && |done| == |starts|
    ensures |done| <= |all| && forall j :: 0 <= j < |done| ==> TextAt(buf, starts[j], all[j])
  {
    hide Runs, TextAt, Found;
    FoundWords(buf, starts, done, all, p);
  }

  lemma CuttingStart(buf: seq<char>, starts: seq<int>, text: string, delim: char, n: int)
    requires TextAt(buf, 0, text) && 0 <= n <= |text|
    ensures Cutting(buf, starts, text, delim, Runs(text[n..], delim), [], n, n)
  {
    hide Runs;
    assert forall k :: 0 <= k < |text| ==> buf[k] == buf[0..|text|][k];
  }

  /** At the end of the text the last word, if any, is the one since `p`. */
  lemma CuttingEnd(buf: seq<char>, starts: seq<int>, text: string, delim: char,
                   all: seq<string>, done: seq<string>, p: int)
    requires Cutting(buf, starts, text, delim, all, done, p, |text|)
    ensures if p < |text| then all == done + [text[p..]] && Found(buf, starts[|done| := p], all, |text| + 1)
            else all == done && Found(buf, starts, all, p)
  {
    hide Runs, TextAt, Found;
    LoneRun(text[p..], delim);
    if p < |text| {
      assert text[p..|text|] == text[p..];
      WordAt(buf, text, p, |text|);
      WordPlaced(buf, starts, done, p, text[p..]);
    }
  }

  method SkipLeading(str: array<char>, ghost text: string) returns (n: nat)
    requires TextAt(str[..], 0, text)
    ensures n <= |text| && text[n..] == SkipSpaces(text)
  {
    assert forall k :: 0 <= k < |text| ==> str[k] == str[0..|text|][k] == text[k];
    n := 0;
    assert text[0..] == text;
    while str[n] == ' '
      invariant 0 <= n <= |text| && SkipSpaces(text[n..]) == SkipSpaces(text)
      decreases |text| - n
    {
      SkipOne(text, n);
      n := n + 1;
    }
  }

  /** Returns the number of words stored. There is no bounds check on the last
      store of the source; none is needed. */
  method Tokenize(result: array<int>, str: array<char>, delim: char, ghost text: string) returns (i: nat)
    requires TextAt(str[..], 0, text)
    modifies result, str
    ensures var words := Runs(SkipSpaces(text), delim);
            && i == (if |words| <= result.Length then |words| else result.Length)
            && forall j :: 0 <= j < i ==> TextAt(str[..], result[j], words[j])
  {
    hide Runs, SkipSpaces, Found, Cutting;
    var n := SkipLeading(str, text);
    hide TextAt;
    var p := n;
    i := 0;
    ghost var buf, starts, all, done := str[..], result[..], Runs(SkipSpaces(text), delim), [];
    CuttingStart(buf, starts, text, delim, n);
    CuttingAt(buf, starts, text, delim, all, done, p, n);
    while str[n] != NUL
      invariant str[..] == buf && result[..] == starts && |starts| == result.Length && i == |done|
      invariant Cutting(buf, starts, text, delim, all, done, p, n)
      invariant 0 <= p <= n <= |text| < |buf| && |done| <= |starts| && (p < n ==> |done| < |starts|)
      invariant str[n] != NUL <==> n < |text|
      decreases |text| - n
    {
      if i == result.Length {
        CuttingFull(buf, starts, text, delim, all, done, p, n);
        return;
      }
      if str[n] == delim {
        CuttingDelim(buf, starts, text, delim, all, done, p, n);
        str[n] := NUL;
        buf := buf[n := NUL];
        assert str[..] == buf;
        if n > p {
          result[i] := p;
          starts := starts[i := p];
          assert result[..] == starts;
          done := done + [text[p..n]];
          i := i + 1;
        }
        n := n + 1;
        p := n;
      } else {
        CuttingAt(buf, starts, text, delim, all, done, p, n);
        n := n + 1;
      }
      CuttingAt(buf, starts, text, delim, all, done, p, n);
    }
    CuttingEnd(buf, starts, text, delim, all, done, p);
    if n > p {
      result[i] := p;
      assert result[..] == starts[i := p];
      i := i + 1;
    }
    FoundWords(str[..], result[..], all, all, if p < n then n + 1 else p);
  }
}
