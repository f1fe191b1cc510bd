/**
 * What hand-written configuration text means to the reader: every kind of line,
 * spelled out, and what lines do to a file.
 */
module IniLines {
  import opened Common
  import opened Dictionaries
  import opened IniText
  import opened IniRoundTrip

  // ---------------------------------------------------------------- blanks

  predicate BlankChar(c: char) {
    c in {' ', '\t', '\n', 11 as char, 12 as char, '\r'}
  }

  predicate Blank(s: string) {
    forall i :: 0 <= i < |s| ==> BlankChar(s[i])
  }

  predicate Quote(c: char) {
    c == '"' || c == '\''
  }

  /** Nothing, or a comment behind a value. */
  predicate Remark(s: string) {
    s == "" || s[0] == ';' || s[0] == '#'
  }

  lemma LStripOver(blanks: string, s: string)
    requires Blank(blanks) && (s != "" ==> !IsSpace(s[0]))
    ensures LStrip(blanks + s) == s
    decreases |blanks|
  {
    if blanks == "" {
      assert blanks + s == s;
    } else {
      assert (blanks + s)[1..] == blanks[1..] + s;
      LStripOver(blanks[1..], s);
    }
  }

  lemma RStripKeeps(s: string, tail: string)
    requires s != "" && !IsSpace(s[|s| - 1])
    ensures s <= RStrip(s + tail)
  {
    assert (s + tail)[|s| - 1] == s[|s| - 1];
  }

  lemma LeadingBlanks(s: string) returns (a: nat)
    ensures a <= |s| && LStrip(s) == s[a..] && Blank(s[..a])
  {
    if s != "" && IsSpace(s[0]) {
      var n := LeadingBlanks(s[1..]);
      a := n + 1;
      assert s[1..][n..] == s[a..] && s[1..][..n] == s[1..a];
    } else {
      a := 0;
    }
  }

  /** Stripping takes blanks off both ends and nothing else. */
  lemma StripExact(s: string) returns (a: nat, b: nat)
    ensures a <= b <= |s| && Strip(s) == s[a..b] && Blank(s[..a]) && Blank(s[b..])
    ensures a < b ==> !BlankChar(s[a]) && !BlankChar(s[b - 1])
  {
    hide LStrip, RStrip;
    a := LeadingBlanks(s);
    var r := RStrip(s[a..]);
    b := a + |r|;
    assert s[a..][..|r|] == s[a..b];
    assert forall i :: b <= i < |s| ==> s[i] == s[a..][i - a];
  }

  // ---------------------------------------------------------------- kinds of lines

  lemma EqualsSign(t: string)
    ensures KeyPart(t) == None <==> '=' !in t || t[0] == '='
  {
    var k := Span(t, {'='});
    assert k < |t| ==> t[k] == '=';
  }

  /** Which kind a line is that has been stripped. */
  lemma KindExact(t: string, section: string)
    requires Stripped(t)
    ensures var kind := ParseLine(t, section);
            var comment := t != "" && (t[0] == '#' || t[0] == ';');
            var header := t != "" && t[0] == '[' && t[|t| - 1] == ']';
            && (kind == Empty <==> t == "")
            && (kind == Comment <==> comment)
            && (kind.Section? <==> header)
            && (kind == Error <==> t != "" && !comment && !header && ('=' !in t || t[0] == '='))
  {
    hide LStrip, RStrip, Lower;
    StripOfStripped(t);
    EqualsSign(t);
  }

  /** A comment may follow blanks and say anything. */
  lemma CommentLine(blanks: string, mark: char, text: string, section: string)
    requires Blank(blanks) && (mark == '#' || mark == ';')
    ensures ParseLine(blanks + [mark] + text, section) == Comment
  {
    hide LStrip, RStrip, Lower;
    assert blanks + [mark] + text == blanks + ([mark] + text);
    LStripOver(blanks, [mark] + text);
    RStripKeeps([mark], text);
  }

  /** A header names its section in lower case, blanks around the name ignored. */
  lemma HeaderLine(name: string, tail: string, section: string)
    requires name != "" && ']' !in name
    requires tail == "" || tail[|tail| - 1] == ']'
    ensures ParseLine("[" + name + "]" + tail, section) == Section(Lower(Strip(name)))
  {
    hide LStrip, RStrip, Lower;
    var t := "[" + name + "]" + tail;
    assert t == "[" + (name + ("]" + tail));
    StripOfStripped(t);
    assert t[1..] == name + ("]" + tail);
    SpanOver(name, "]" + tail, {']'});
    assert t[1..][..|name|] == name;
  }

  /** A header that names nothing keeps the section there is. */
  lemma NamelessHeader(tail: string, section: string)
    requires tail == "" || tail[|tail| - 1] == ']'
    ensures ParseLine("[]" + tail, section) == Section(Lower(Strip(section)))
  {
    hide LStrip, RStrip, Lower;
    var t := "[]" + tail;
    StripOfStripped(t);
    assert t[1..] == "" + ("]" + tail);
    SpanOver("", "]" + tail, {']'});
  }

  /** A key that may stand in front of '='. */
  predicate KeyText(key: string) {
    key != "" && '=' !in key && !BlankChar(key[0]) && key[0] !in {'#', ';', '['}
  }

  lemma RStripHead(head: string, tail: string) returns (rest: string)
    requires head != "" && !IsSpace(head[|head| - 1])
    ensures RStrip(head + tail) == head + rest && rest <= tail && Blank(tail[|rest|..])
  {
    hide RStrip;
    var whole := head + tail;
    RStripKeeps(head, tail);
    var t := RStrip(whole);
    rest := t[|head|..];
    assert t == whole[..|t|];
    assert rest == tail[..|t| - |head|];
    assert forall i :: |rest| <= i < |tail| ==> tail[i] == whole[|head| + i];
  }

  /** What stripping leaves of a text whose head has no blanks around it. */
  lemma StripHead(head: string, tail: string) returns (rest: string)
    requires head != "" && !IsSpace(head[0]) && !IsSpace(head[|head| - 1])
    ensures Strip(head + tail) == head + rest && rest <= tail && Blank(tail[|rest|..])
  {
    hide RStrip;
    assert "" + (head + tail) == head + tail;
    LStripOver("", head + tail);
    hide LStrip;
    rest := RStripHead(head, tail);
  }

  lemma KeySplit(key: string, blanks: string, value: string)
    requires KeyText(key) && Blank(blanks) && (value != "" ==> !IsSpace(value[0]))
    ensures KeyPart(key + "=" + blanks + value) == Some((key, value))
  {
    hide LStrip, KeyPart;
    assert key + "=" + blanks + value == key + "=" + (blanks + value);
    KeyBeforeEquals(key, blanks + value);
    LStripOver(blanks, value);
  }

  /** A line with a key: how it is stripped and split. */
  lemma KeyLine(key: string, blanks: string, value: string, tail: string) returns (rest: string)
    requires KeyText(key) && Blank(blanks)
    requires value != "" && !IsSpace(value[0]) && !IsSpace(value[|value| - 1])
    ensures var t := Strip(key + "=" + blanks + value + tail);
            && |t| > 0 && t[0] == key[0] && KeyPart(t) == Some((key, value + rest))
    ensures rest <= tail && Blank(tail[|rest|..])
  {
    hide Strip, LStrip, RStrip, KeyPart;
    var head := key + "=" + blanks + value;
    assert head[|head| - 1] == value[|value| - 1] && head[0] == key[0];
    rest := StripHead(head, tail);
    KeySplit(key, blanks, value + rest);
    assert key + "=" + blanks + (value + rest) == head + rest;
  }

  /** A quoted value ends at its closing quote, or with the line when there is none;
      what follows does not matter. */
  lemma QuotedLine(key: string, blanks: string, q: char, v: string, tail: string, section: string)
    requires KeyText(key) && Blank(blanks) && Quote(q)
    requires v != "" && q !in v && Stripped(v) && v != "\"\"" && v != "''"
    requires tail == "" || tail[0] == q
    ensures ParseLine(key + "=" + blanks + ([q] + v) + tail, section) == Pair(Lower(Strip(key)), v)
  {
    hide LStrip, RStrip, Lower, KeyPart;
    var value := [q] + v;
    var rest := KeyLine(key, blanks, value, tail);
    var t := Strip(key + "=" + blanks + value + tail);
    assert (value + rest)[1..] == v + rest;
    assert rest != "" ==> rest[0] == q;
    SpanOver(v, rest, {q});
    assert (v + rest)[..|v|] == v;
    assert QuotedValue(t, q) == Some((key, v));
    assert q == '\'' ==> QuotedValue(t, '"') == None;
    StripOfStripped(v);
  }

  lemma UpToRemark(v: string, gap: string, remark: string, rest: string)
    requires v != "" && ';' !in v && '#' !in v && Blank(gap) && Remark(remark)
    requires rest <= gap + remark && Blank((gap + remark)[|rest|..])
    ensures var n := Span(v + rest, {';', '#'});
            |v| <= n && forall i :: |v| <= i < n ==> IsSpace((v + rest)[i])
  {
    var n := Span(v + rest, {';', '#'});
    assert |gap| < |rest| ==> (v + rest)[|v| + |gap|] == (gap + remark)[|gap|];
    assert n < |v + rest| ==> (v + rest)[n] in {';', '#'};
    assert forall i :: |v| <= i < |v| + |gap| && i < |v + rest| ==> (v + rest)[i] == gap[i - |v|];
  }

  /** A plain value ends where a comment starts, blanks in front of it ignored. */
  lemma PlainLine(key: string, blanks: string, v: string, gap: string, remark: string, section: string)
    requires KeyText(key) && Blank(blanks) && Blank(gap) && Remark(remark)
    requires v != "" && Stripped(v) && ';' !in v && '#' !in v && !Quote(v[0])
    ensures ParseLine(key + "=" + blanks + v + (gap + remark), section) == Pair(Lower(Strip(key)), v)
  {
    hide LStrip, RStrip, Lower, KeyPart;
    var rest := KeyLine(key, blanks, v, gap + remark);
    var t := Strip(key + "=" + blanks + v + (gap + remark));
    assert QuotedValue(t, '"') == None && QuotedValue(t, '\'') == None;
    UpToRemark(v, gap, remark, rest);
    var n := Span(v + rest, {';', '#'});
    assert PlainValue(t) == Some((key, (v + rest)[..n]));
    StripPadded(v, (v + rest)[|v|..n]);
    assert (v + rest)[..n] == v + (v + rest)[|v|..n];
  }

  lemma KeyAlone(key: string, blanks: string, remark: string) returns (t: string, rest: string)
    requires KeyText(key) && Blank(blanks) && Remark(remark)
    ensures t == Strip(key + "=" + (blanks + remark)) && |t| > 0 && t[0] == key[0]
    ensures KeyPart(t) == Some((key, rest)) && Remark(rest)
  {
    hide Strip, LStrip, RStrip, KeyPart;
    var head := key + "=";
    assert head[0] == key[0];
    var left := StripHead(head, blanks + remark);
    t := Strip(head + (blanks + remark));
    if |left| <= |blanks| {
      rest := "";
      assert left == blanks[..|left|];
      KeySplit(key, left, "");
      assert key + "=" + left + "" == t;
    } else {
      rest := left[|blanks|..];
      assert left == blanks + rest && rest[0] == remark[0];
      KeySplit(key, blanks, rest);
      assert key + "=" + blanks + rest == t;
    }
  }

  /** A key with nothing behind its sign but a comment has the empty value, and so
      has one with an empty pair of quotes. */
  lemma EmptyLine(key: string, blanks: string, remark: string, section: string)
    requires KeyText(key) && Blank(blanks) && Remark(remark)
    ensures ParseLine(key + "=" + (blanks + remark), section) == Pair(Lower(Strip(key)), "")
  {
    hide LStrip, RStrip, Lower, KeyPart;
    var t, rest := KeyAlone(key, blanks, remark);
    assert QuotedValue(t, '"') == None && QuotedValue(t, '\'') == None;
    assert PlainValue(t) == None;
  }

  lemma EmptyQuotes(key: string, blanks: string, q: char, section: string)
    requires KeyText(key) && Blank(blanks) && Quote(q)
    ensures ParseLine(key + "=" + blanks + [q, q], section) == Pair(Lower(Strip(key)), "")
  {
    assert key + "=" + blanks + [q, q] + "" == key + "=" + blanks + [q, q];
    hide LStrip, RStrip, Lower, KeyPart;
    var value := [q, q];
    var rest := KeyLine(key, blanks, value, "");
    var t := Strip(key + "=" + blanks + value + "");
    assert value + rest == value;
    assert QuotedValue(t, '"') == None && QuotedValue(t, '\'') == None;
    SpanOver(value, "", {';', '#'});
    assert value + "" == value && value[..2] == value;
    StripOfStripped(value);
  }

  // ---------------------------------------------------------------- lines in a file

  /** A line that fits the buffer, is not blank and does not continue. */
  predicate Ordinary(l: string) {
    && '\n' !in l && |l| + 1 < ASCIILINESZ
    && var t := RStrip(l); t != "" && t[|t| - 1] != '\\'
  }

  function Lines(ls: seq<string>): string {
    if ls == [] then "" else ls[0] + "\n" + Lines(ls[1..])
  }

  lemma CommentStored(blanks: string, mark: char, text: string, st: LoadState)
    requires Blank(blanks) && (mark == '#' || mark == ';')
    ensures StoreLine(st, RStrip(blanks + [mark] + text)) == st
  {
    hide LStrip, RStrip, ParseLine;
    var l := blanks + [mark];
    RStripKeeps(l, text);
    var t := RStrip(l + text);
    assert t == blanks + [mark] + t[|l|..];
    CommentLine(blanks, mark, t[|l|..], st.section);
  }

  /** A comment changes nothing, wherever in the file it stands. */
  lemma {:induction false} CommentIgnored(ls: seq<string>, blanks: string, mark: char, text: string, rest: string,
                                          st: LoadState)
    requires forall i :: 0 <= i < |ls| ==> Ordinary(ls[i])
    requires Blank(blanks) && (mark == '#' || mark == ';') && Ordinary(blanks + [mark] + text)
    ensures LoadText(Lines(ls) + (blanks + [mark] + text + "\n" + rest), "", st) == LoadText(Lines(ls) + rest, "", st)
  {
    hide LoadText, RStrip, StoreLine;
    var l := blanks + [mark] + text;
    if ls == [] {
      assert Lines(ls) + (l + "\n" + rest) == l + "\n" + rest && Lines(ls) + rest == rest;
      LoadLine(l, rest, st);
      CommentStored(blanks, mark, text, st);
    } else {
      var more := Lines(ls[1..]);
      assert Lines(ls) + (l + "\n" + rest) == ls[0] + "\n" + (more + (l + "\n" + rest));
      assert Lines(ls) + rest == ls[0] + "\n" + (more + rest);
      LoadLine(ls[0], more + (l + "\n" + rest), st);
      LoadLine(ls[0], more + rest, st);
      CommentIgnored(ls[1..], blanks, mark, text, rest, StoreLine(st, RStrip(ls[0])));
    }
  }

  /** A pair is stored under its section; a header opens one; both clear earlier
      syntax errors. */
  lemma LineStored(l: string, rest: string, st: LoadState)
    requires Ordinary(l)
    ensures var kind := ParseLine(RStrip(l), st.section);
            LoadText(l + "\n" + rest, "", st) ==
            match kind
            case Pair(key, value) =>
              LoadText(rest, "", LoadState(st.section, st.contents[st.section + ":" + key := Some(value)], 0))
            case Section(name) => LoadText(rest, "", LoadState(name, st.contents[name := None], 0))
            case Error => LoadText(rest, "", st.(errs := st.errs + 1))
            case _ => LoadText(rest, "", st)
  {
    hide LoadText, RStrip, ParseLine;
    LoadLine(l, rest, st);
  }

  /** A file whose last line is a syntax error is not loaded. */
  lemma LastErrorRejects(l: string, st: LoadState)
    requires Ordinary(l) && st.errs >= 0 && ParseLine(RStrip(l), st.section) == Error
    ensures LoadText(l + "\n", "", st) == Rejected
  {
    hide RStrip, ParseLine, FetchLine;
    assert l + "\n" + "" == l + "\n";
    LineStored(l, "", st);
  }

  /** A syntax error in front of a pair or a header is forgiven. */
  lemma ErrorForgiven(bad: string, good: string, rest: string, st: LoadState)
    requires Ordinary(bad) && Ordinary(good) && ParseLine(RStrip(bad), st.section) == Error
    requires var kind := ParseLine(RStrip(good), st.section); kind.Pair? || kind.Section?
    ensures LoadText(bad + "\n" + (good + "\n" + rest), "", st) == LoadText(good + "\n" + rest, "", st)
  {
    hide RStrip, ParseLine, LoadText;
    LineStored(bad, good + "\n" + rest, st);
    LineStored(good, rest, st);
    LineStored(good, rest, st.(errs := st.errs + 1));
  }

  lemma StripOneBack(a: string)
    ensures RStrip(a + "\\") == a + "\\" && (a + "\\")[..|a|] == a
  {
  }

  lemma Continues(a: string, rest: string)
    requires |a| + 2 < ASCIILINESZ
    ensures SortLine(a + "\\" + "\n", rest, "") == More(rest, a)
  {
    RStripBlanks(a + "\\", "\n");
    StripOneBack(a);
  }

  lemma FirstHalf(a: string, more: string)
    requires '\n' !in a && |a| + 2 < ASCIILINESZ
    ensures FetchLine(a + "\\" + "\n" + more, "") == More(more, a)
  {
    hide SortLine, FetchLine;
    var first := a + "\\";
    ReadLine(first, more);
    FetchIsSort(first + "\n" + more);
    Continues(a, more);
  }

  lemma ReadPart(l: string, rest: string, limit: nat)
    requires '\n' !in l && |l| + 1 <= limit
    ensures ReadLength(l + "\n" + rest, limit) == |l| + 1
    ensures (l + "\n" + rest)[..|l| + 1] == l + "\n" && (l + "\n" + rest)[|l| + 1..] == rest
  {
    assert l + "\n" + rest == l + ("\n" + rest);
    SpanOver(l, "\n" + rest, {'\n'});
  }

  lemma SecondHalf(a: string, b: string, rest: string)
    requires '\n' !in a && '\n' !in b && |a| + |b| + 2 < ASCIILINESZ
    ensures FetchLine(b + "\n" + rest, a) == SortLine(a + b + "\n", rest, a)
    ensures FetchLine(a + b + "\n" + rest, "") == SortLine(a + b + "\n", rest, "")
  {
    hide SortLine;
    ReadPart(b, rest, ASCIILINESZ - 1 - |a|);
    assert a + (b + "\n") == a + b + "\n";
    ReadLine(a + b, rest);
    FetchIsSort(a + b + "\n" + rest);
  }

  /** Past its first character a line does not remember where it was cut. */
  lemma SortedAlike(line: string, rest: string, pending: string)
    requires line != "" && |line| < ASCIILINESZ && |pending| <= ASCIILINESZ - 3
    ensures SortLine(line, rest, pending) ==
            if |line| == 1 then More(rest, pending) else SortLine(line, rest, "")
  {
    hide RStrip;
  }

  /** A backslash at the end joins a line with the next. */
  lemma LinesJoin(a: string, b: string, rest: string, st: LoadState)
    requires '\n' !in a && '\n' !in b && |a| + |b| + 2 < ASCIILINESZ
    ensures LoadText(a + "\\" + "\n" + (b + "\n" + rest), "", st) == LoadText(a + b + "\n" + rest, "", st)
  {
    hide SortLine, RStrip, StoreLine;
    FirstHalf(a, b + "\n" + rest);
    SecondHalf(a, b, rest);
    hide FetchLine;
    assert a + "\\" + "\n" + (b + "\n" + rest) != "" && b + "\n" + rest != "" && a + b + "\n" + rest != "";
    SortedAlike(a + b + "\n", rest, a);
  }

  lemma NothingButBlanks(s: string)
    requires Blank(s)
    ensures RStrip(s) == ""
  {
    var r := RStrip(s);
    assert r != "" ==> BlankChar(s[|r| - 1]);
  }

  /** A line of nothing but blanks makes the reader look in front of its buffer. */
  lemma BlankLineOutOfBounds(l: string, rest: string, st: LoadState)
    requires l != "" && Blank(l) && '\n' !in l && |l| + 1 < ASCIILINESZ
    ensures LoadText(l + "\n" + rest, "", st) == OutOfBounds
  {
    ReadLine(l, rest);
    FetchIsSort(l + "\n" + rest);
    NothingButBlanks(l + "\n");
  }

  /** A line without its newline, or too long for the buffer, spoils the file. */
  lemma UnfinishedRejects(l: string, rest: string, st: LoadState)
    requires '\n' !in l && |l| > 1 && (rest == "" || |l| + 1 >= ASCIILINESZ)
    ensures LoadText(l + rest, "", st) == Rejected
  {
    hide RStrip;
    var file := l + rest;
    var n := ReadLength(file, ASCIILINESZ - 1);
    FetchIsSort(file);
    var k := Span(file, {'\n'});
    assert n <= |l| && file[..n] == l[..n];
  }

  // ---------------------------------------------------------------- configurations without sections

  /** The text printed for a value when there are no sections. */
  function BareText(v: Value): string {
    if v.Some? then v.value else "(null)"
  }

  /** An entry that fits on a line of its own. */
  predicate BareOk(k: string, v: Value) {
    KeyName(k) && ValueOk(BareText(v)) && |k| + |BareText(v)| + 4 < ASCIILINESZ
  }

  lemma BareLine(k: string, text: string, section: string)
    requires KeyName(k) && ValueOk(text)
    ensures ParseLine(if text == "" then k + " =" else k + " = " + text, section) == Pair(k, text)
  {
    hide ParseLine, RStrip, LStrip, Lower, KeyPart;
    var key := k + " ";
    StripPadded(k, " ");
    if text == "" {
      EmptyLine(key, "", "", section);
      assert key + "=" + ("" + "") == k + " =";
    } else {
      PlainLine(key, " ", text, "", "", section);
      assert key + "=" + " " + text + ("" + "") == k + " = " + text;
    }
  }

  lemma LoadBarePair(k: string, v: Value, rest: string, st: LoadState)
    requires BareOk(k, v)
    ensures LoadText(k + " = " + BareText(v) + "\n" + rest, "", st) ==
            LoadText(rest, "", st.(contents := st.contents[st.section + ":" + k := Some(BareText(v))], errs := 0))
  {
    hide LoadText, ParseLine, RStrip, LStrip, StoreLine;
    var text := BareText(v);
    var l := k + " = " + text;
    if text == "" {
      assert l == k + " =" + " ";
      StripOfStripped(k + " =");
      RStripBlanks(k + " =", " ");
      BareLine(k, "", st.section);
    } else {
      StripOfStripped(l);
      BareLine(k, text, st.section);
    }
    LoadLine(l, rest, st);
    LineStored(l, rest, st);
  }

  lemma EndOfText(st: LoadState)
    requires st.errs == 0
    ensures LoadText("", "", st) == Loaded(st.contents)
  {
  }

  lemma BareTextPrinted(keys: seq<Option<string>>, vals: seq<Value>, j: nat)
    requires |keys| == |vals| && j < |keys| && keys[j].Some?
    ensures PrintBare(keys, vals, j) ==
            keys[j].value + " = " + BareText(vals[j]) + "\n" + PrintBare(keys, vals, j + 1)
  {
  }

  lemma KeysApart(keys: seq<Option<string>>, j: nat)
    requires DistinctKeys(keys) && j < |keys| && keys[j].Some?
    ensures forall i :: j < i < |keys| && keys[i].Some? ==> ":" + keys[i].value != ":" + keys[j].value
  {
    forall i | j < i < |keys| && keys[i].Some?
      ensures ":" + keys[i].value != ":" + keys[j].value
    {
      assert (":" + keys[i].value)[1..] == keys[i].value && (":" + keys[j].value)[1..] == keys[j].value;
    }
  }

  /** A configuration without sections does not come back as it was: each key is
      read into a section without a name, and a missing value as "(null)". */
  lemma {:induction false} BareReloads(keys: seq<Option<string>>, vals: seq<Value>, j: nat, st: LoadState)
      returns (m: Contents)
    requires |keys| == |vals| && j <= |keys| && DistinctKeys(keys) && st.errs == 0 && st.section == ""
    requires forall i :: 0 <= i < |keys| && keys[i].Some? ==> BareOk(keys[i].value, vals[i])
    ensures LoadText(PrintBare(keys, vals, j), "", st) == Loaded(m)
    ensures forall i :: j <= i < |keys| && keys[i].Some? ==>
              ":" + keys[i].value in m && m[":" + keys[i].value] == Some(BareText(vals[i]))
    ensures forall x :: x in m ==>
              x in st.contents || exists i :: j <= i < |keys| && keys[i].Some? && x == ":" + keys[i].value
    ensures forall x ::
              x in st.contents && (forall i :: j <= i < |keys| && keys[i].Some? ==> x != ":" + keys[i].value) ==>
              x in m && m[x] == st.contents[x]
    decreases |keys| - j
  {
    hide BareOk, LoadText, BareText;
    if j == |keys| {
      m := st.contents;
      assert LoadText("", "", st) == Loaded(st.contents) by {
        EndOfText(st);
      }
    } else if keys[j].None? {
      m := BareReloads(keys, vals, j + 1, st);
    } else {
      var k := keys[j].value;
      var st' := st.(contents := st.contents[":" + k := Some(BareText(vals[j]))], errs := 0);
      m := BareReloads(keys, vals, j + 1, st');
      LoadBarePair(k, vals[j], PrintBare(keys, vals, j + 1), st);
      assert "" + ":" + k == ":" + k;
      BareTextPrinted(keys, vals, j);
      KeysApart(keys, j);
    }
  }

  // ---------------------------------------------------------------- the printed order

  /** The line of slot `a`, with the lines of later slots behind it. */
  lemma {:induction false} PairPrinted(keys: seq<Option<string>>, vals: seq<Value>, sec: string, j: nat, a: nat)
      returns (before: string)
    requires |keys| == |vals| && j <= a < |keys| && keys[a].Some? && InSection(keys[a].value, sec)
    ensures PrintPairs(keys, vals, sec, j) ==
            before + (PrintPair(keys[a].value, vals[a], sec) + PrintPairs(keys, vals, sec, a + 1))
    decreases a - j
  {
    hide PrintPair;
    if j == a {
      before := "";
    } else {
      before := PairPrinted(keys, vals, sec, j + 1, a);
      if keys[j].Some? && InSection(keys[j].value, sec) {
        var line := PrintPair(keys[j].value, vals[j], sec);
        ConcatAssociates(line, before, PrintPair(keys[a].value, vals[a], sec) + PrintPairs(keys, vals, sec, a + 1));
        before := line + before;
      }
    }
  }

  /** A section's pairs are printed in the order of their slots. */
  lemma PairsInOrder(keys: seq<Option<string>>, vals: seq<Value>, sec: string, a: nat, b: nat)
      returns (before: string, between: string, after: string)
    requires |keys| == |vals| && a < b < |keys|
    requires keys[a].Some? && InSection(keys[a].value, sec) && keys[b].Some? && InSection(keys[b].value, sec)
    ensures PrintPairs(keys, vals, sec, 0) ==
            before + (PrintPair(keys[a].value, vals[a], sec) +
                      (between + (PrintPair(keys[b].value, vals[b], sec) + after)))
  {
    hide PrintPair, PrintPairs;
    before := PairPrinted(keys, vals, sec, 0, a);
    between := PairPrinted(keys, vals, sec, a + 1, b);
    after := PrintPairs(keys, vals, sec, b + 1);
  }
}
