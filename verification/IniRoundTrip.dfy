/**
 * Printing a well-formed configuration and loading the text again gives the
 * same map, whatever slots the entries were stored in.
 */
module IniRoundTrip {
  import opened Common
  import opened Dictionaries
  import opened IniText

  // ---------------------------------------------------------------- the domain

  predicate Stripped(s: string) {
    s != "" ==> !IsSpace(s[0]) && !IsSpace(s[|s| - 1])
  }

  predicate SectionName(s: string) {
    && s != "" && Stripped(s) && Lower(s) == s && |s| + 3 < ASCIILINESZ
    && ':' !in s && ']' !in s && '\n' !in s
  }

  predicate KeyName(r: string) {
    && r != "" && Stripped(r) && Lower(r) == r
    && '=' !in r && '\n' !in r
    && r[0] !in {'#', ';', '['}
  }

  predicate ValueOk(v: string) {
    && Stripped(v) && '\n' !in v && ';' !in v && '#' !in v
    && (v != "" ==> v[0] !in {'"', '\''} && v[|v| - 1] != '\\')
  }

  /** A key and a value that fit on one line. */
  predicate PairOk(r: string, v: Value) {
    KeyName(r) && v.Some? && ValueOk(v.value) && |Pad30(r)| + |v.value| + 4 < ASCIILINESZ
  }

  /** Entry `j` is a declared section, or a pair of one that fits on a line. */
  ghost predicate EntryOk(keys: seq<Option<string>>, vals: seq<Value>, j: int)
    requires |keys| == |vals| && 0 <= j < |keys| && keys[j].Some?
  {
    var k := keys[j].value;
    if IsSection(k) then SectionName(k) && vals[j] == None
    else
      var sec, r := k[..Span(k, {':'})], k[Span(k, {':'}) + 1..];
      Some(sec) in keys && PairOk(r, vals[j])
  }

  ghost predicate WellFormed(keys: seq<Option<string>>, vals: seq<Value>) {
    && |keys| == |vals| && DistinctKeys(keys)
    && forall j :: 0 <= j < |keys| && keys[j].Some? ==> EntryOk(keys, vals, j)
  }

  // ---------------------------------------------------------------- scanning lemmas

  lemma StripOfStripped(s: string)
    requires Stripped(s)
    ensures LStrip(s) == s && RStrip(s) == s && Strip(s) == s
  {
  }

  lemma {:induction false} RStripBlanks(s: string, blanks: string)
    requires forall i :: 0 <= i < |blanks| ==> IsSpace(blanks[i])
    ensures RStrip(s + blanks) == RStrip(s)
  {
    if blanks == "" {
      assert s + blanks == s;
    } else {
      var n := |blanks| - 1;
      assert (s + blanks)[..|s + blanks| - 1] == s + blanks[..n];
      RStripBlanks(s, blanks[..n]);
    }
  }

  /** Stripping a name followed by blanks gives the name back. */
  lemma StripPadded(s: string, blanks: string)
    requires s != "" && Stripped(s)
    requires forall i :: 0 <= i < |blanks| ==> IsSpace(blanks[i])
    ensures Strip(s + blanks) == s
  {
    RStripBlanks(s, blanks);
    StripOfStripped(s);
    assert (s + blanks)[0] == s[0];
  }

  lemma SpaceBefore(v: string)
    requires Stripped(v)
    ensures LStrip(" " + v) == v
  {
    assert (" " + v)[1..] == v;
    StripOfStripped(v);
  }

  // ---------------------------------------------------------------- single lines

  lemma ParseSection(s: string, section: string)
    requires SectionName(s)
    ensures ParseLine("[" + s + "]", section) == Section(s)
  {
    var line := "[" + s + "]";
    StripOfStripped(line);
    assert line[1..] == s + "]";
    SpanOver(s, "]", {']'});
    StripOfStripped(s);
    assert line[1..][..|s|] == s;
  }

  /** What is left of a printed pair once the reader has trimmed it. */
  function TrimmedPair(r: string, v: string): string {
    if v == "" then Pad30(r) + " =" else Pad30(r) + " = " + v
  }

  /** A key is padded to thirty columns. */
  lemma PadBlanks(r: string) returns (blanks: string)
    ensures Pad30(r) + " " == r + blanks
    ensures forall i :: 0 <= i < |blanks| ==> blanks[i] == ' '
    ensures |blanks| == if |r| < 30 then 31 - |r| else 1
  {
    blanks := if |r| < 30 then seq(30 - |r|, _ => ' ') + " " else " ";
  }

  lemma KeyBeforeEquals(key: string, rest: string)
    requires key != "" && '=' !in key
    ensures KeyPart(key + "=" + rest) == Some((key, LStrip(rest)))
  {
    var line := key + "=" + rest;
    assert line == key + ("=" + rest);
    SpanOver(key, "=" + rest, {'='});
    assert line[..|key|] == key && line[|key| + 1..] == rest;
  }

  lemma PairKeyPart(r: string, v: string)
    requires KeyName(r) && ValueOk(v)
    ensures KeyPart(TrimmedPair(r, v)) == Some((Pad30(r) + " ", v))
    ensures Strip(Pad30(r) + " ") == r
  {
    hide KeyPart, LStrip, RStrip, Lower;
    var key := Pad30(r) + " ";
    var blanks := PadBlanks(r);
    StripPadded(r, blanks);
    SpaceBefore(v);
    if v == "" {
      assert TrimmedPair(r, v) == key + "=" + "";
      KeyBeforeEquals(key, "");
    } else {
      assert TrimmedPair(r, v) == key + "=" + (" " + v);
      KeyBeforeEquals(key, " " + v);
    }
  }

  /** No quoted pattern applies, so the plain or the empty one does. */
  lemma ValuePatterns(line: string, key: string, v: string)
    requires KeyPart(line) == Some((key, v)) && ValueOk(v)
    ensures QuotedValue(line, '"') == None && QuotedValue(line, '\'') == None
    ensures PlainValue(line) == if v == "" then None else Some((key, v))
    ensures EmptyValue(line) == Some(key)
  {
    SpanOver(v, "", {';', '#'});
    assert v + "" == v;
    assert v[..|v|] == v;
  }

  lemma PairOfPlain(key: string, r: string, v: string)
    requires KeyName(r) && Strip(key) == r && ValueOk(v) && v != ""
    ensures PairOf(key, v) == Pair(r, v)
  {
    StripOfStripped(v);
  }

  lemma ParsePair(r: string, v: string, section: string)
    requires KeyName(r) && ValueOk(v)
    ensures ParseLine(TrimmedPair(r, v), section) == Pair(r, v)
  {
    var line, key := TrimmedPair(r, v), Pad30(r) + " ";
    PairKeyPart(r, v);
    ValuePatterns(line, key, v);
    assert line[0] == r[0];
    StripOfStripped(line);
    if v != "" {
      PairOfPlain(key, r, v);
    }
  }

  // ---------------------------------------------------------------- consuming lines

  lemma ReadLine(l: string, rest: string)
    requires '\n' !in l && |l| + 1 < ASCIILINESZ
    ensures ReadLength(l + "\n" + rest, ASCIILINESZ - 1) == |l| + 1
    ensures (l + "\n" + rest)[..|l| + 1] == l + "\n"
    ensures (l + "\n" + rest)[|l| + 1..] == rest
  {
    assert l + "\n" + rest == l + ("\n" + rest);
    SpanOver(l, "\n" + rest, {'\n'});
  }

  lemma LoadBlank(rest: string, st: LoadState)
    ensures LoadText("\n" + rest, "", st) == LoadText(rest, "", st)
  {
    ReadLine("", rest);
    assert "" + "\n" + rest == "\n" + rest;
  }

  lemma SortOrdinary(line: string, rest: string)
    requires 1 < |line| < ASCIILINESZ && line[|line| - 1] == '\n'
    requires RStrip(line) != "" && RStrip(line)[|RStrip(line)| - 1] != '\\'
    ensures SortLine(line, rest, "") == Line(rest, RStrip(line))
  {
  }

  lemma FetchIsSort(file: string)
    requires file != ""
    ensures var n := ReadLength(file, ASCIILINESZ - 1);
            FetchLine(file, "") == SortLine(file[..n], file[n..], "")
  {
    var n := ReadLength(file, ASCIILINESZ - 1);
    assert "" + file[..n] == file[..n];
  }

  lemma LoadFetched(file: string, rest: string, line: string, st: LoadState)
    requires file != "" && FetchLine(file, "") == Line(rest, line)
    ensures LoadText(file, "", st) == LoadText(rest, "", StoreLine(st, line))
  {
    hide FetchLine, StoreLine;
  }

  lemma LoadLine(l: string, rest: string, st: LoadState)
    requires l != "" && '\n' !in l && |l| + 1 < ASCIILINESZ
    requires var t := RStrip(l); t != "" && t[|t| - 1] != '\\'
    ensures LoadText(l + "\n" + rest, "", st) == LoadText(rest, "", StoreLine(st, RStrip(l)))
  {
    hide LoadText, StoreLine, RStrip, SortLine, FetchLine;
    var file := l + "\n" + rest;
    ReadLine(l, rest);
    RStripBlanks(l, "\n");
    FetchIsSort(file);
    SortOrdinary(l + "\n", rest);
    LoadFetched(file, rest, RStrip(l), st);
  }

  lemma HeaderText(s: string, rest: string)
    ensures "\n[" + s + "]\n" + rest == "\n" + ("[" + s + "]" + "\n" + rest)
  {
  }

  lemma LoadSection(s: string, rest: string, st: LoadState)
    requires SectionName(s)
    ensures LoadText("\n[" + s + "]\n" + rest, "", st) ==
            LoadText(rest, "", LoadState(s, st.contents[s := None], 0))
  {
    hide LoadText, ParseLine, RStrip, LStrip;
    var l := "[" + s + "]";
    HeaderText(s, rest);
    LoadBlank(l + "\n" + rest, st);
    StripOfStripped(l);
    LoadLine(l, rest, st);
    ParseSection(s, st.section);
  }

  lemma TrimPair(r: string, v: string)
    requires KeyName(r) && ValueOk(v)
    ensures RStrip(Pad30(r) + " = " + v) == TrimmedPair(r, v)
    ensures var t := TrimmedPair(r, v); t != "" && t[|t| - 1] != '\\'
    ensures '\n' !in Pad30(r) + " = " + v
  {
    var t := TrimmedPair(r, v);
    assert Stripped(t);
    StripOfStripped(t);
    if v == "" {
      assert Pad30(r) + " = " + v == t + " ";
      RStripBlanks(t, " ");
    }
  }

  lemma LoadPair(r: string, v: string, rest: string, st: LoadState)
    requires KeyName(r) && ValueOk(v) && |Pad30(r)| + |v| + 4 < ASCIILINESZ
    ensures LoadText(Pad30(r) + " = " + v + "\n" + rest, "", st) ==
            LoadText(rest, "", st.(contents := st.contents[st.section + ":" + r := Some(v)], errs := 0))
  {
    hide LoadText, ParseLine, RStrip, LStrip;
    var l := Pad30(r) + " = " + v;
    TrimPair(r, v);
    LoadLine(l, rest, st);
    ParsePair(r, v, st.section);
  }

  // ---------------------------------------------------------------- whole sections

  /** The pairs of section `sec` in slots `j` and up, as a map. */
  ghost function PairsMap(keys: seq<Option<string>>, vals: seq<Value>, sec: string, j: nat): (m: Contents)
    requires |keys| == |vals| && j <= |keys|
    ensures forall x :: x in m ==> exists i :: j <= i < |keys| && keys[i] == Some(x) && m[x] == vals[i]
    ensures forall i :: j <= i < |keys| && keys[i].Some? && InSection(keys[i].value, sec) ==> keys[i].value in m
    decreases |keys| - j
  {
    if j == |keys| then map[]
    else if keys[j].Some? && InSection(keys[j].value, sec)
    then map[keys[j].value := vals[j]] + PairsMap(keys, vals, sec, j + 1)
    else PairsMap(keys, vals, sec, j + 1)
  }

  /** The sections in slots `i` and up with all their pairs, as a map. */
  ghost function SectionsMap(keys: seq<Option<string>>, vals: seq<Value>, i: nat): (m: Contents)
    requires |keys| == |vals| && i <= |keys|
    decreases |keys| - i
  {
    if i == |keys| then map[]
    else if SectionSlot(keys[i])
    then map[keys[i].value := None] + PairsMap(keys, vals, keys[i].value, 0) + SectionsMap(keys, vals, i + 1)
    else SectionsMap(keys, vals, i + 1)
  }

  lemma UnionStep(m: Contents, k: string, v: Value, p: Contents)
    ensures m[k := v] + p == m + (map[k := v] + p)
  {
  }

  lemma UnionAssociates(a: Contents, b: Contents, c: Contents)
    ensures (a + b) + c == a + (b + c)
  {
  }

  /** A key under a colon-free section splits at its first colon. */
  lemma SectionSplit(k: string, sec: string)
    requires IsSection(sec) && InSection(k, sec)
    ensures |sec| < |k| && Span(k, {':'}) == |sec| && k[..|sec|] == sec && !IsSection(k)
  {
    assert k == sec + k[|sec|..];
    SpanOver(sec, k[|sec|..], {':'});
  }

  lemma SectionText(header: string, pairs: string, more: string, rest: string)
    ensures header + pairs + "\n" + more + rest == header + (pairs + ("\n" + (more + rest)))
  {
  }

  lemma LoadStoredPair(k: string, v: Value, rest: string, st: LoadState)
    requires IsSection(st.section) && InSection(k, st.section) && st.errs == 0
    requires Span(k, {':'}) < |k| && PairOk(k[Span(k, {':'}) + 1..], v)
    ensures LoadText(PrintPair(k, v, st.section) + rest, "", st) ==
            LoadText(rest, "", st.(contents := st.contents[k := v]))
  {
    hide LoadText, Lower, RStrip, LStrip;
    SectionSplit(k, st.section);
    var r := k[|st.section| + 1..];
    assert k == st.section + ":" + r;
    LoadPair(r, v.value, rest, st);
  }

  lemma {:induction false} LoadPairs(keys: seq<Option<string>>, vals: seq<Value>, sec: string, j: nat,
                                     rest: string, st: LoadState)
    requires WellFormed(keys, vals) && j <= |keys|
    requires IsSection(sec) && st.section == sec && st.errs == 0
    ensures LoadText(PrintPairs(keys, vals, sec, j) + rest, "", st) ==
            LoadText(rest, "", st.(contents := st.contents + PairsMap(keys, vals, sec, j)))
    decreases |keys| - j
  {
    hide LoadText, Lower, RStrip, LStrip, PrintPair, PairOk;
    if j == |keys| {
      assert "" + rest == rest;
      assert st.contents + PairsMap(keys, vals, sec, j) == st.contents;
    } else if keys[j].Some? && InSection(keys[j].value, sec) {
      var k, v, more := keys[j].value, vals[j], PrintPairs(keys, vals, sec, j + 1);
      assert EntryOk(keys, vals, j);
      SectionSplit(k, sec);
      ConcatAssociates(PrintPair(k, v, sec), more, rest);
      LoadStoredPair(k, v, more + rest, st);
      LoadPairs(keys, vals, sec, j + 1, rest, st.(contents := st.contents[k := v]));
      UnionStep(st.contents, k, v, PairsMap(keys, vals, sec, j + 1));
    } else {
      LoadPairs(keys, vals, sec, j + 1, rest, st);
    }
  }

  lemma {:induction false} LoadSections(keys: seq<Option<string>>, vals: seq<Value>, i: nat,
                                        rest: string, st: LoadState) returns (st': LoadState)
    requires WellFormed(keys, vals) && i <= |keys| && st.errs == 0
    ensures st'.errs == 0 && st'.contents == st.contents + SectionsMap(keys, vals, i)
    ensures LoadText(PrintSections(keys, vals, i) + rest, "", st) == LoadText(rest, "", st')
    decreases |keys| - i
  {
    hide LoadText, Lower, RStrip, LStrip, PrintPairs, PairsMap;
    if i == |keys| {
      assert "" + rest == rest;
      st' := st;
    } else if SectionSlot(keys[i]) {
      var sec := keys[i].value;
      assert EntryOk(keys, vals, i);
      DistinctSlot(keys, i);
      var pairs, more := PrintPairs(keys, vals, sec, 0), PrintSections(keys, vals, i + 1);
      SectionText("\n[" + sec + "]\n", pairs, more, rest);
      LoadSection(sec, pairs + ("\n" + (more + rest)), st);
      var st1 := LoadState(sec, st.contents[sec := None], 0);
      LoadPairs(keys, vals, sec, 0, "\n" + (more + rest), st1);
      var st2 := st1.(contents := st1.contents + PairsMap(keys, vals, sec, 0));
      LoadBlank(more + rest, st2);
      st' := LoadSections(keys, vals, i + 1, rest, st2);
      var p, q := PairsMap(keys, vals, sec, 0), SectionsMap(keys, vals, i + 1);
      UnionStep(st.contents, sec, None, p + q);
      UnionAssociates(st1.contents, p, q);
      UnionAssociates(map[sec := None], p, q);
    } else {
      st' := LoadSections(keys, vals, i + 1, rest, st);
    }
  }

  // ---------------------------------------------------------------- nothing missing, nothing extra

  /** Everything in a sections map is a stored entry. */
  lemma {:induction false} SectionsMapSound(keys: seq<Option<string>>, vals: seq<Value>, i: nat, x: string)
    requires WellFormed(keys, vals) && i <= |keys| && x in SectionsMap(keys, vals, i)
    ensures exists s :: 0 <= s < |keys| && keys[s] == Some(x) && SectionsMap(keys, vals, i)[x] == vals[s]
    decreases |keys| - i
  {
    if SectionSlot(keys[i]) {
      assert EntryOk(keys, vals, i);
      if x in SectionsMap(keys, vals, i + 1) {
        SectionsMapSound(keys, vals, i + 1, x);
      }
    } else {
      SectionsMapSound(keys, vals, i + 1, x);
    }
  }

  /** Slot `s` with its section in slot `i` or later is covered. */
  lemma {:induction false} SectionsMapComplete(keys: seq<Option<string>>, vals: seq<Value>, i: nat, d: nat, s: nat)
    requires |keys| == |vals| && i <= d < |keys| && s < |keys| && keys[s].Some?
    requires SectionSlot(keys[d]) && (s == d || InSection(keys[s].value, keys[d].value))
    ensures keys[s].value in SectionsMap(keys, vals, i)
    decreases d - i
  {
    if i < d {
      SectionsMapComplete(keys, vals, i + 1, d, s);
    }
  }

  lemma FirstColon(x: string) returns (n: nat)
    requires !IsSection(x)
    ensures n == Span(x, {':'}) && n < |x|
    ensures IsSection(x[..n]) && InSection(x, x[..n])
  {
    n := Span(x, {':'});
    var i :| 0 <= i < |x| && x[i] == ':';
    assert x[..n] + [':'] == x[..n + 1];
  }

  /** The declared section of slot `s`. */
  lemma SectionOf(keys: seq<Option<string>>, vals: seq<Value>, s: nat) returns (d: nat)
    requires WellFormed(keys, vals) && s < |keys| && keys[s].Some?
    ensures d < |keys| && SectionSlot(keys[d])
    ensures s == d || InSection(keys[s].value, keys[d].value)
  {
    var x := keys[s].value;
    assert EntryOk(keys, vals, s);
    if IsSection(x) {
      return s;
    }
    var n := FirstColon(x);
    d :| 0 <= d < |keys| && keys[d] == Some(x[..n]);
  }

  lemma SectionsMapIsAll(keys: seq<Option<string>>, vals: seq<Value>)
    requires WellFormed(keys, vals)
    ensures SectionsMap(keys, vals, 0) == MapOf(keys, vals)
  {
    hide EntryOk, SectionsMap, PairsMap;
    var a, b := SectionsMap(keys, vals, 0), MapOf(keys, vals);
    forall x
      ensures x in a <==> x in b
      ensures x in a ==> a[x] == b[x]
    {
      MapOfAt(keys, vals, x);
      if x in a {
        SectionsMapSound(keys, vals, 0, x);
        var s :| 0 <= s < |keys| && keys[s] == Some(x) && a[x] == vals[s];
        DistinctSlot(keys, s);
      }
      if x in b {
        var s := SlotOf(keys, x);
        var d := SectionOf(keys, vals, s);
        SectionsMapComplete(keys, vals, 0, d, s);
      }
    }
  }

  lemma {:induction false} SectionCounted(keys: seq<Option<string>>, i: nat, d: nat)
    requires i <= d < |keys| && SectionSlot(keys[d])
    ensures CountSections(keys, i) > 0
    decreases d - i
  {
    if i < d {
      SectionCounted(keys, i + 1, d);
    }
  }

  lemma {:induction false} PrintBareEmpty(keys: seq<Option<string>>, vals: seq<Value>, i: nat)
    requires |keys| == |vals| && i <= |keys|
    requires forall j :: 0 <= j < |keys| ==> keys[j].None?
    ensures PrintBare(keys, vals, i) == ""
    decreases |keys| - i
  {
    if i < |keys| {
      PrintBareEmpty(keys, vals, i + 1);
    }
  }

  /** Without a section nothing is stored. */
  lemma NoSections(keys: seq<Option<string>>, vals: seq<Value>)
    requires WellFormed(keys, vals) && CountSections(keys, 0) == 0
    ensures PrintBare(keys, vals, 0) == "" && MapOf(keys, vals) == map[]
  {
    hide EntryOk, PrintBare;
    forall j | 0 <= j < |keys|
      ensures keys[j].None?
    {
      if keys[j].Some? {
        var d := SectionOf(keys, vals, j);
        SectionCounted(keys, 0, d);
      }
    }
    PrintBareEmpty(keys, vals, 0);
  }

  /** Print, then load: the same map comes back. */
  lemma PrintThenLoad(keys: seq<Option<string>>, vals: seq<Value>)
    requires WellFormed(keys, vals)
    ensures LoadText(PrintIni(keys, vals), "", START) == Loaded(MapOf(keys, vals))
  {
    hide EntryOk, DistinctKeys, RStrip, FetchLine, PrintSections, PrintBare, SectionsMap, CountSections, MapOf;
    SectionsMapIsAll(keys, vals);
    if CountSections(keys, 0) < 1 {
      NoSections(keys, vals);
    } else {
      var st := LoadSections(keys, vals, 0, "\n", START);
      LoadBlank("", st);
      assert "\n" + "" == "\n";
      assert START.contents + SectionsMap(keys, vals, 0) == SectionsMap(keys, vals, 0);
    }
  }
}
