/**
 * The configuration reader and writer as they run: buffers filled by loops, a
 * dictionary updated line by line. Each method is tied to its text function.
 */
module IniParser {
  import opened Common
  import opened Dictionaries
  import opened IniText
  import opened IniRoundTrip

  /** Lowers what fits the buffer. */
  method StrLwc(s: string) returns (l: string)
    ensures l == Lower(if |s| <= ASCIILINESZ then s else s[..ASCIILINESZ])
  {
    l := "";
    var i := 0;
    while i < |s| && i < ASCIILINESZ
      invariant 0 <= i <= |s| && i <= ASCIILINESZ && l == Lower(s[..i])
    {
      assert s[..i + 1][..i] == s[..i];
      l := l + [ToLower(s[i])];
      i := i + 1;
    }
    assert s[..|s|] == s;
  }

  method SkipBlanks(s: string) returns (l: string)
    ensures l == LStrip(s)
  {
    var start := 0;
    while start < |s| && IsSpace(s[start])
      invariant 0 <= start <= |s| && LStrip(s[start..]) == LStrip(s)
    {
      assert s[start..][1..] == s[start + 1..];
      start := start + 1;
    }
    l := s[start..];
  }

  method StrStrip(s: string) returns (l: string)
    ensures l == Strip(s)
  {
    hide LStrip;
    l := SkipBlanks(s);
    var last := |l|;
    while last > 0
      invariant 0 <= last <= |l| && RStrip(l[..last]) == RStrip(l)
    {
      if !IsSpace(l[last - 1]) {
        break;
      }
      assert l[..last][..last - 1] == l[..last - 1];
      last := last - 1;
    }
    l := l[..last];
  }

  /** The name of the `n`-th section slot from slot `i` on. */
  function NthSection(keys: seq<Option<string>>, i: nat, n: int): Option<string>
    requires i <= |keys|
    decreases |keys| - i
  {
    if i == |keys| then None
    else if SectionSlot(keys[i]) then (if n == 0 then keys[i] else NthSection(keys, i + 1, n - 1))
    else NthSection(keys, i + 1, n)
  }

  /** The number of sections is the number of keys without a colon. */
  lemma {:induction false} SectionsCounted(keys: seq<Option<string>>, i: nat)
    requires i <= |keys|
    ensures CountSections(keys, i) == |set j | i <= j < |keys| && keys[j].Some? && ':' !in keys[j].value|
    decreases |keys| - i
  {
    var here := set j | i <= j < |keys| && keys[j].Some? && ':' !in keys[j].value;
    if i < |keys| {
      SectionsCounted(keys, i + 1);
      var after := set j | i + 1 <= j < |keys| && keys[j].Some? && ':' !in keys[j].value;
      assert here == after + if keys[i].Some? && ':' !in keys[i].value then {i} else {};
    } else {
      assert here == {};
    }
  }

  method GetNSec(d: Dictionary) returns (nsec: int)
    requires d.Valid()
    ensures nsec == CountSections(d.key[..], 0)
  {
    nsec := 0;
    for i := 0 to d.size
      invariant nsec + CountSections(d.key[..], i) == CountSections(d.key[..], 0)
    {
      if d.key[i].Some? && ':' !in d.key[i].value {
        nsec := nsec + 1;
      }
    }
  }

  method GetSecName(d: Dictionary, n: int) returns (name: Option<string>)
    requires d.Valid()
    ensures name == if n < 0 then None else NthSection(d.key[..], 0, n)
  {
    if n < 0 {
      return None;
    }
    var foundsec, i := 0, 0;
    while i < d.size
      invariant 0 <= i <= d.size && foundsec <= n
      invariant NthSection(d.key[..], i, n - foundsec) == NthSection(d.key[..], 0, n)
    {
      if d.key[i].Some? && ':' !in d.key[i].value {
        foundsec := foundsec + 1;
        if foundsec > n {
          break;
        }
      }
      i := i + 1;
    }
    if foundsec <= n {
      return None;
    }
    return d.key[i];
  }

  method DumpSectionIni(d: Dictionary, s: string) returns (out: string)
    requires d.Valid() && |s| < ASCIILINESZ
    ensures out == PrintSection(d.key[..], d.val[..], s)
  {
    var lc := StrLwc(s);
    var slot := d.FindSlot(lc);
    if slot >= d.size {
      return "";
    }
    out := "\n[" + s + "]\n";
    ghost var header := out;
    for j := 0 to d.size
      invariant out + PrintPairs(d.key[..], d.val[..], s, j) == header + PrintPairs(d.key[..], d.val[..], s, 0)
    {
      if d.key[j].Some? && InSection(d.key[j].value, s) {
        ConcatAssociates(out, PrintPair(d.key[j].value, d.val[j], s), PrintPairs(d.key[..], d.val[..], s, j + 1));
        out := out + PrintPair(d.key[j].value, d.val[j], s);
      }
    }
    assert out + "" == out;
    out := out + "\n";
  }

  /** The sections from the `n`-th on, in the order `GetSecName` numbers them. */
  function PrintFromNth(keys: seq<Option<string>>, vals: seq<Value>, n: nat): string
    requires |keys| == |vals|
    decreases CountSections(keys, 0) - n
  {
    if n >= CountSections(keys, 0) then ""
    else
      match NthSection(keys, 0, n)
      case None => ""
      case Some(s) => PrintSection(keys, vals, s) + PrintFromNth(keys, vals, n + 1)
  }

  lemma {:induction false} NthSectionExists(keys: seq<Option<string>>, i: nat, n: nat)
    requires i <= |keys| && n < CountSections(keys, i)
    ensures NthSection(keys, i, n).Some?
    decreases |keys| - i
  {
    if SectionSlot(keys[i]) && n > 0 {
      NthSectionExists(keys, i + 1, n - 1);
    } else if !SectionSlot(keys[i]) {
      NthSectionExists(keys, i + 1, n);
    }
  }

  lemma FromNthStep(keys: seq<Option<string>>, vals: seq<Value>, n: nat)
    requires |keys| == |vals| && n < CountSections(keys, 0)
    ensures NthSection(keys, 0, n).Some?
    ensures PrintFromNth(keys, vals, n) ==
            PrintSection(keys, vals, NthSection(keys, 0, n).value) + PrintFromNth(keys, vals, n + 1)
  {
    hide PrintSection;
    NthSectionExists(keys, 0, n);
  }

  lemma {:induction false} NthSectionSlot(keys: seq<Option<string>>, i: nat, n: nat) returns (j: nat)
    requires i <= |keys| && NthSection(keys, i, n).Some?
    ensures i <= j < |keys| && keys[j] == NthSection(keys, i, n) && SectionSlot(keys[j])
    ensures n == CountSections(keys, i) - CountSections(keys, j)
    decreases |keys| - i
  {
    if SectionSlot(keys[i]) {
      if n == 0 {
        j := i;
      } else {
        j := NthSectionSlot(keys, i + 1, n - 1);
      }
    } else {
      j := NthSectionSlot(keys, i + 1, n);
    }
  }

  /** The text of the section numbered `i`. */
  method DumpNth(d: Dictionary, i: nat) returns (text: string)
    requires d.Valid() && i < CountSections(d.key[..], 0)
    requires forall k :: k in d.Map() && IsSection(k) ==> |k| < ASCIILINESZ
    ensures text + PrintFromNth(d.key[..], d.val[..], i + 1) == PrintFromNth(d.key[..], d.val[..], i)
  {
    hide PrintSection, PrintBare, PrintSections, PrintFromNth, MapOf, SlotOf, CountSections, NthSection,
      HashesAgree, DistinctKeys, Occupied;
    ghost var keys, vals := d.key[..], d.val[..];
    FromNthStep(keys, vals, i);
    var secname := GetSecName(d, i);
    var j := NthSectionSlot(keys, 0, i);
    MapOfAt(keys, vals, secname.value);
    text := DumpSectionIni(d, secname.value);
  }

  method DumpBare(d: Dictionary) returns (out: string)
    requires d.Valid()
    ensures out == PrintBare(d.key[..], d.val[..], 0)
  {
    out := "";
    for i := 0 to d.size
      invariant out + PrintBare(d.key[..], d.val[..], i) == PrintBare(d.key[..], d.val[..], 0)
    {
      if d.key[i].Some? {
        var text := d.key[i].value + " = " + (if d.val[i].Some? then d.val[i].value else "(null)") + "\n";
        ConcatAssociates(out, text, PrintBare(d.key[..], d.val[..], i + 1));
        out := out + text;
      }
    }
    assert out + "" == out;
  }

  lemma FromNthEnd(keys: seq<Option<string>>, vals: seq<Value>, n: nat)
    requires |keys| == |vals| && n == CountSections(keys, 0)
    ensures PrintFromNth(keys, vals, n) == ""
  {
  }

  /** Skipping the `n` sections before slot `i` reaches the sections after it. */
  lemma {:induction false} NthSkip(keys: seq<Option<string>>, i: nat, j: nat, m: nat)
    requires i <= j <= |keys|
    ensures CountSections(keys, i) >= CountSections(keys, j)
    ensures NthSection(keys, i, CountSections(keys, i) - CountSections(keys, j) + m) == NthSection(keys, j, m)
    decreases j - i
  {
    if i < j {
      NthSkip(keys, i + 1, j, m);
    }
  }

  /** Printing by section number is printing in slot order. */
  lemma {:induction false} NthOrder(keys: seq<Option<string>>, vals: seq<Value>, n: nat, i: nat)
    requires |keys| == |vals| && i <= |keys| && n == CountSections(keys, 0) - CountSections(keys, i)
    ensures PrintFromNth(keys, vals, n) == PrintSections(keys, vals, i)
    decreases |keys| - i
  {
    hide PrintSection;
    if i < |keys| {
      if SectionSlot(keys[i]) {
        NthSkip(keys, 0, i, 0);
        NthOrder(keys, vals, n + 1, i + 1);
      } else {
        NthOrder(keys, vals, n, i + 1);
      }
    }
  }

  method DumpIni(d: Dictionary) returns (out: string)
    requires d.Valid()
    requires forall k :: k in d.Map() && IsSection(k) ==> |k| < ASCIILINESZ
    ensures out == PrintIni(d.key[..], d.val[..])
  {
    hide PrintSection, PrintBare, PrintSections, PrintFromNth, MapOf, SlotOf, CountSections, NthSection,
      HashesAgree, DistinctKeys, Occupied;
    var nsec := GetNSec(d);
    if nsec < 1 {
      out := DumpBare(d);
      return;
    }
    out := "";
    ghost var keys, vals := d.key[..], d.val[..];
    for i := 0 to nsec
      invariant out + PrintFromNth(keys, vals, i) == PrintFromNth(keys, vals, 0)
    {
      var text := DumpNth(d, i);
      ConcatAssociates(out, text, PrintFromNth(keys, vals, i + 1));
      out := out + text;
    }
    FromNthEnd(keys, vals, nsec);
    assert out + "" == out;
    NthOrder(keys, vals, 0, 0);
    out := out + "\n";
  }

  /** Trims the blanks, the newline among them, at the end of the line buffer. */
  method TrimEnd(line: string) returns (r: string)
    requires line != ""
    ensures r == RStrip(line)
  {
    var len := |line| - 1;
    while len >= 0 && (line[len] == '\n' || IsSpace(line[len]))
      invariant -1 <= len < |line| && RStrip(line[..len + 1]) == RStrip(line)
    {
      assert line[..len + 1][..len] == line[..len];
      len := len - 1;
    }
    r := line[..len + 1];
  }

  // One turn of the reading loop, unfolded.

  lemma LoadTurn(file: string, pending: string, st: LoadState)
    requires file != "" && |pending| <= ASCIILINESZ - 3
    ensures var n := ReadLength(file, ASCIILINESZ - 1 - |pending|);
            LoadText(file, pending, st) ==
            match SortLine(pending + file[..n], file[n..], pending)
            case Stop(result) => result
            case More(rest, pending') => LoadText(rest, pending', st)
            case Line(rest, line) => LoadText(rest, "", StoreLine(st, line))
  {
    hide SortLine, StoreLine;
  }

  lemma SortCases(line: string, rest: string, pending: string)
    requires line != "" && |line| < ASCIILINESZ && |pending| <= ASCIILINESZ - 3
    ensures var t := RStrip(line);
            SortLine(line, rest, pending) ==
            if |line| == 1 then More(rest, pending)
            else if line[|line| - 1] != '\n' then Stop(Rejected)
            else if t == "" then Stop(OutOfBounds)
            else if t[|t| - 1] == '\\' then More(rest, t[..|t| - 1]) else Line(rest, t)
  {
  }

  lemma StoreCases(st: LoadState, line: string)
    ensures StoreLine(st, line) ==
            match ParseLine(line, st.section)
            case Empty => st
            case Comment => st
            case Section(name) => LoadState(name, st.contents[name := None], 0)
            case Pair(key, value) => st.(contents := st.contents[st.section + ":" + key := Some(value)], errs := 0)
            case Error => st.(errs := st.errs + 1)
  {
    hide ParseLine;
  }

  lemma LoadEnd(pending: string, st: LoadState)
    requires |pending| <= ASCIILINESZ - 3
    ensures LoadText("", pending, st) == if st.errs != 0 then Rejected else Loaded(st.contents)
  {
  }

  /** The reading loop. A text it gives up on leaves no dictionary. */
  method Load(file: string) returns (dict: Dictionary?, outOfBounds: bool)
    ensures match LoadText(file, "", START)
            case Loaded(m) => dict != null && dict.Valid() && dict.Map() == m && !outOfBounds
            case Rejected => dict == null && !outOfBounds
            case OutOfBounds => dict == null && outOfBounds
    ensures dict != null ==> fresh(dict)
  {
    hide LoadText, StoreLine, ParseLine, FetchLine, SortLine, RStrip;
    var d := new Dictionary(0);
    var pos, pending, section, errs := 0, "", "", 0;
    assert file[0..] == file;
    while pos < |file|
      invariant 0 <= pos <= |file| && |pending| <= ASCIILINESZ - 3
      invariant d.Valid() && fresh(d) && fresh(d.key) && fresh(d.val) && fresh(d.hash)
      invariant LoadText(file, "", START) == LoadText(file[pos..], pending, LoadState(section, d.Map(), errs))
    {
      ghost var st := LoadState(section, d.Map(), errs);
      LoadTurn(file[pos..], pending, st);
      var n := ReadLength(file[pos..], ASCIILINESZ - 1 - |pending|);
      var line := pending + file[pos..][..n];
      assert file[pos..][n..] == file[pos + n..];
      SortCases(line, file[pos + n..], pending);
      pos := pos + n;
      if |line| == 1 {
        continue;
      }
      if line[|line| - 1] != '\n' {
        return null, false;
      }
      var stripped := TrimEnd(line);
      if stripped == "" {
        return null, true;
      }
      if stripped[|stripped| - 1] == '\\' {
        pending := stripped[..|stripped| - 1];
        continue;
      }
      pending := "";
      StoreCases(st, stripped);
      match ParseLine(stripped, section) {
        case Empty =>
        case Comment =>
        case Section(name) =>
          section := name;
          errs := d.Set(section, None);
        case Pair(key, value) =>
          errs := d.Set(section + ":" + key, Some(value));
        case Error =>
          errs := errs + 1;
      }
    }
    LoadEnd(pending, LoadState(section, d.Map(), errs));
    assert file[pos..] == "";
    if errs != 0 {
      return null, false;
    }
    return d, false;
  }

  /** Section names of a well-formed configuration fit the printing buffer. */
  lemma SectionsFit(keys: seq<Option<string>>, vals: seq<Value>)
    requires WellFormed(keys, vals)
    ensures forall k :: k in MapOf(keys, vals) && IsSection(k) ==> |k| < ASCIILINESZ
  {
    forall k | k in MapOf(keys, vals) && IsSection(k)
      ensures |k| < ASCIILINESZ
    {
      MapOfAt(keys, vals, k);
      assert EntryOk(keys, vals, SlotOf(keys, k));
    }
  }

  /** Writing a well-formed configuration out and reading it back gives a dictionary
      with the same contents. */
  method DumpThenLoad(d: Dictionary) returns (d': Dictionary)
    requires d.Valid() && WellFormed(d.key[..], d.val[..])
    ensures fresh(d') && d'.Valid() && d'.Map() == d.Map()
  {
    hide LoadText, PrintIni, EntryOk;
    SectionsFit(d.key[..], d.val[..]);
    PrintThenLoad(d.key[..], d.val[..]);
    var text := DumpIni(d);
    var loaded, _ := Load(text);
    d' := loaded;
  }
}
