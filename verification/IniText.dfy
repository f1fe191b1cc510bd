/**
 * What the configuration reader and writer compute, as functions on text: the
 * `sscanf` patterns of a line, the line-reading loop, and the printed form.
 */
module IniText {
  import opened Common
  import opened Dictionaries

  const ASCIILINESZ := 1024

  // ---------------------------------------------------------------- characters

  predicate IsSpace(c: char) {
    c == ' ' || 9 <= c as int <= 13
  }

  /** Drops leading blanks. */
  function LStrip(s: string): (r: string)
    ensures |r| <= |s|
    ensures r != "" ==> !IsSpace(r[0])
  {
    if s != "" && IsSpace(s[0]) then LStrip(s[1..]) else s
  }

  /** Drops trailing blanks. */
  function RStrip(s: string): (r: string)
    ensures r <= s
    ensures r != "" ==> !IsSpace(r[|r| - 1])
    ensures forall i :: |r| <= i < |s| ==> IsSpace(s[i])
  {
    if s != "" && IsSpace(s[|s| - 1]) then RStrip(s[..|s| - 1]) else s
  }

  function Strip(s: string): string {
    RStrip(LStrip(s))
  }

  // ---------------------------------------------------------------- one line

  /** `%[^=] = ` : a nonempty key part and what follows the sign and blanks. */
  function KeyPart(line: string): Option<(string, string)> {
    var k := Span(line, {'='});
    if k == 0 || k == |line| then None else Some((line[..k], LStrip(line[k + 1..])))
  }

  /** `%[^=] = "%[^"]"` and its single-quoted twin. */
  function QuotedValue(line: string, quote: char): Option<(string, string)> {
    match KeyPart(line)
    case None => None
    case Some((key, rest)) =>
      if rest == "" || rest[0] != quote then None else
      var v := Span(rest[1..], {quote});
      if v == 0 then None else Some((key, rest[1..][..v]))
  }

  /** `%[^=] = %[^;#]` */
  function PlainValue(line: string): Option<(string, string)> {
    match KeyPart(line)
    case None => None
    case Some((key, rest)) =>
      var v := Span(rest, {';', '#'});
      if v == 0 then None else Some((key, rest[..v]))
  }

  /** `%[^=] = %[;#]` or `%[^=] %[=]`: a key with nothing usable behind it. */
  function EmptyValue(line: string): Option<string> {
    match KeyPart(line)
    case None => None
    case Some((key, rest)) => Some(key)
  }

  datatype LineKind = Empty | Comment | Section(name: string) | Pair(key: string, value: string) | Error

  function PairOf(key: string, value: string): LineKind {
    var v := Strip(value);
    Pair(Lower(Strip(key)), if v == "\"\"" || v == "''" then "" else v)
  }

  /** Classifies a line; a section header that names nothing keeps `section`. */
  function ParseLine(input: string, section: string): LineKind {
    var line := Strip(input);
    if line == "" then Empty
    else if line[0] == '#' || line[0] == ';' then Comment
    else if line[0] == '[' && line[|line| - 1] == ']' then
      var n := Span(line[1..], {']'});
      Section(Lower(Strip(if n == 0 then section else line[1..][..n])))
    else
      match (QuotedValue(line, '"'), QuotedValue(line, '\''), PlainValue(line), EmptyValue(line))
      case (Some(kv), _, _, _) => PairOf(kv.0, kv.1)
      case (None, Some(kv), _, _) => PairOf(kv.0, kv.1)
      case (None, None, Some(kv), _) => PairOf(kv.0, kv.1)
      case (None, None, None, Some(key)) => Pair(Lower(Strip(key)), "")
      case (None, None, None, None) => Error
  }

  // ---------------------------------------------------------------- a whole file

  datatype LoadState = LoadState(section: string, contents: Contents, errs: int)

  /** `errs` is overwritten by every successful store, as in the program. */
  function StoreLine(st: LoadState, line: string): LoadState {
    match ParseLine(line, st.section)
    case Empty => st
    case Comment => st
    case Section(name) => LoadState(name, st.contents[name := None], 0)
    case Pair(key, value) => st.(contents := st.contents[st.section + ":" + key := Some(value)], errs := 0)
    case Error => st.(errs := st.errs + 1)
  }

  /** `OutOfBounds` is the whitespace-only line, where the program looks in front
      of its buffer. */
  datatype LoadResult = Loaded(contents: Contents) | Rejected | OutOfBounds

  function Outcome(st: LoadState): LoadResult {
    if st.errs != 0 then Rejected else Loaded(st.contents)
  }

  /** One `fgets` call: up to `limit` characters, stopping after a newline. */
  function ReadLength(file: string, limit: nat): (n: nat)
    ensures n <= |file| && n <= limit
    ensures file != "" && limit > 0 ==> n > 0
  {
    var k := Span(file, {'\n'});
    var n := if k < |file| then k + 1 else k;
    if n <= limit then n else limit
  }

  /** What one `fetch` turn of the reading loop does: give up, go on reading with
      the part of a multi-line value collected so far, or hand on a line. */
  datatype Fetch = Stop(result: LoadResult) | More(rest: string, pending: string) | Line(rest: string, line: string)

  /** What becomes of the buffer `line` once `fgets` has filled it. */
  function SortLine(line: string, rest: string, pending: string): (t: Fetch)
    requires line != "" && |line| < ASCIILINESZ && |pending| <= ASCIILINESZ - 3
    ensures !t.Stop? ==> t.rest == rest
    ensures t.More? ==> |t.pending| <= ASCIILINESZ - 3
  {
    var stripped := RStrip(line);
    if |line| == 1 then More(rest, pending)
    else if line[|line| - 1] != '\n' then Stop(Rejected)
    else if stripped == "" then Stop(OutOfBounds)
    else if stripped[|stripped| - 1] == '\\' then More(rest, stripped[..|stripped| - 1])
    else Line(rest, stripped)
  }

  function FetchLine(file: string, pending: string): (t: Fetch)
    requires |pending| <= ASCIILINESZ - 3 && file != ""
    ensures t.More? ==> |t.rest| < |file| && |t.pending| <= ASCIILINESZ - 3
    ensures t.Line? ==> |t.rest| < |file|
  {
    var n := ReadLength(file, ASCIILINESZ - 1 - |pending|);
    SortLine(pending + file[..n], file[n..], pending)
  }

  function LoadText(file: string, pending: string, st: LoadState): LoadResult
    requires |pending| <= ASCIILINESZ - 3
    decreases |file|
  {
    if file == "" then Outcome(st)
    else
      match FetchLine(file, pending)
      case Stop(result) => result
      case More(rest, pending') => LoadText(rest, pending', st)
      case Line(rest, line) => LoadText(rest, "", StoreLine(st, line))
  }

  const START := LoadState("", map[], 0)

  // ---------------------------------------------------------------- printing

  /** `%-30s` */
  function Pad30(s: string): string {
    if |s| < 30 then s + seq(30 - |s|, _ => ' ') else s
  }

  predicate IsSection(key: string) {
    ':' !in key
  }

  /** `key` is stored under section `sec`. */
  predicate InSection(key: string, sec: string) {
    sec + [':'] <= key
  }

  function ValueText(v: Value): string {
    if v.Some? then v.value else ""
  }

  function PrintPair(key: string, v: Value, sec: string): string
    requires InSection(key, sec)
  {
    Pad30(key[|sec| + 1..]) + " = " + ValueText(v) + "\n"
  }

  /** The pairs of section `sec` in slots `j` and up. */
  function PrintPairs(keys: seq<Option<string>>, vals: seq<Value>, sec: string, j: nat): string
    requires |keys| == |vals| && j <= |keys|
    decreases |keys| - j
  {
    if j == |keys| then ""
    else if keys[j].Some? && InSection(keys[j].value, sec)
    then PrintPair(keys[j].value, vals[j], sec) + PrintPairs(keys, vals, sec, j + 1)
    else PrintPairs(keys, vals, sec, j + 1)
  }

  function PrintSection(keys: seq<Option<string>>, vals: seq<Value>, sec: string): string
    requires |keys| == |vals|
  {
    if SlotOf(keys, Lower(sec)) == |keys| then ""
    else "\n[" + sec + "]\n" + PrintPairs(keys, vals, sec, 0) + "\n"
  }

  predicate SectionSlot(k: Option<string>) {
    k.Some? && IsSection(k.value)
  }

  /** The sections in slots `i` and up. */
  function PrintSections(keys: seq<Option<string>>, vals: seq<Value>, i: nat): string
    requires |keys| == |vals| && i <= |keys|
    decreases |keys| - i
  {
    if i == |keys| then ""
    else if SectionSlot(keys[i])
    then PrintSection(keys, vals, keys[i].value) + PrintSections(keys, vals, i + 1)
    else PrintSections(keys, vals, i + 1)
  }

  function CountSections(keys: seq<Option<string>>, i: nat): (n: nat)
    requires i <= |keys|
    decreases |keys| - i
  {
    if i == |keys| then 0 else (if SectionSlot(keys[i]) then 1 else 0) + CountSections(keys, i + 1)
  }

  /** Without any section all entries are printed as they are. */
  function PrintBare(keys: seq<Option<string>>, vals: seq<Value>, i: nat): string
    requires |keys| == |vals| && i <= |keys|
    decreases |keys| - i
  {
    if i == |keys| then ""
    else if keys[i].None? then PrintBare(keys, vals, i + 1)
    else keys[i].value + " = " + (if vals[i].Some? then vals[i].value else "(null)") + "\n" +
         PrintBare(keys, vals, i + 1)
  }

  function PrintIni(keys: seq<Option<string>>, vals: seq<Value>): string
    requires |keys| == |vals|
  {
    if CountSections(keys, 0) < 1 then PrintBare(keys, vals, 0)
    else PrintSections(keys, vals, 0) + "\n"
  }
}
