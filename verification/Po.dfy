/**
 * The subset of gettext PO files that `po.ts` prints and reads: entries in
 * blocks of lines, each line a comment or a quoted field.
 */
module Po {
  import opened Outcome
  import opened JsText

  datatype PoEntry = PoEntry(
    key: string,
    english: string,
    translation: string,
    fuzzy: bool,
    notes: seq<string>,
    previousEnglish: Option<string>)

  datatype PoFile = PoFile(language: string, entries: seq<PoEntry>)

  datatype PoError = UnreadableLine(line: string) | NoContext(english: string)

  // ----- quoted fields -----

  function Quote(text: string): string {
    var t1 := ReplaceChar(text, '\\', "\\\\");
    var t2 := ReplaceChar(t1, '"', "\\\"");
    var t3 := ReplaceChar(t2, '\n', "\\n");
    "\"" + ReplaceChar(t3, '\t', "\\t") + "\""
  }

  /** `raw.replace(/\\(.)/g, ...)`: a backslash before a line end stays, since `.` skips it. */
  function Unescape(raw: string): string {
    if raw == "" then ""
    else if raw[0] == '\\' && |raw| > 1 && !IsLineEnd(raw[1]) then
      [if raw[1] == 'n' then '\n' else if raw[1] == 't' then '\t' else raw[1]] + Unescape(raw[2..])
    else raw[..1] + Unescape(raw[1..])
  }

  /** The text between the first and the last quote; `slice(0, -1)` when there is none. */
  function Unquote(line: string, at: nat): string
    requires at < |line|
  {
    var first, last := IndexOf(line, '"', at), LastIndexOf(line, '"');
    var lo := if first.Some? then first.value + 1 else 0;
    var hi := if last.Some? then last.value else |line| - 1;
    Unescape(if lo <= hi then line[lo..hi] else "")
  }

  // ----- lines and blocks -----

  /** `source.replace(/\r\n/g, '\n')`. */
  function DropCarriageReturns(s: string): string {
    if |s| < 2 then s
    else if s[0] == '\r' && s[1] == '\n' then "\n" + DropCarriageReturns(s[2..])
    else s[..1] + DropCarriageReturns(s[1..])
  }

  /** The length of the part of `s` up to the last newline of its leading white space. */
  function BlankLines(s: string): (n: nat)
    ensures n <= |s|
  {
    if s == "" || !IsSpace(s[0]) then 0
    else
      var n := BlankLines(s[1..]);
      if n > 0 then n + 1 else if s[0] == '\n' then 1 else 0
  }

  /** `s.split(/\n\s*\n/)`, with `acc` the part already walked over. */
  function SplitBlocks(s: string, acc: string): seq<string>
    decreases |s|
  {
    if s == "" then [acc]
    else if s[0] == '\n' && BlankLines(s[1..]) > 0 then
      [acc] + SplitBlocks(s[1 + BlankLines(s[1..])..], "")
    else SplitBlocks(s[1..], acc + s[..1])
  }

  function KeepNonBlank(lines: seq<string>): seq<string> {
    if lines == [] then []
    else (if Trim(lines[0]) != "" then lines[..1] else []) + KeepNonBlank(lines[1..])
  }

  function BlockLines(block: string): seq<string> {
    KeepNonBlank(Split(block, '\n'))
  }

  // ----- reading -----

  /** The field a continuation line extends. */
  datatype Field = Key | English | Translation

  datatype Draft = Draft(entry: PoEntry, field: Option<Field>)

  const EMPTY_DRAFT := Draft(PoEntry("", "", "", false, [], None), None)

  predicate SaysFuzzy(flags: seq<string>) {
    exists i :: 0 <= i < |flags| && Trim(flags[i]) == "fuzzy"
  }

  function Continue(entry: PoEntry, field: Field, more: string): PoEntry {
    match field
    case Key => entry.(key := entry.key + more)
    case English => entry.(english := entry.english + more)
    case Translation => entry.(translation := entry.translation + more)
  }

  function ReadLine(d: Draft, line: string): Result<Draft, PoError> {
    var e := d.entry;
    if StartsWith(line, "#.") then Ok(d.(entry := e.(notes := e.notes + [Trim(line[2..])])))
    else if StartsWith(line, "#,") then
      Ok(d.(entry := e.(fuzzy := e.fuzzy || SaysFuzzy(Split(line[2..], ',')))))
    else if StartsWith(line, "#| msgid ") then Ok(d.(entry := e.(previousEnglish := Some(Unquote(line, 8)))))
    else if StartsWith(line, "#") then Ok(d)
    else if StartsWith(line, "msgctxt ") then Ok(Draft(e.(key := Unquote(line, 7)), Some(Key)))
    else if StartsWith(line, "msgid ") then Ok(Draft(e.(english := Unquote(line, 5)), Some(English)))
    else if StartsWith(line, "msgstr ") then Ok(Draft(e.(translation := Unquote(line, 6)), Some(Translation)))
    else if StartsWith(line, "\"") && d.field.Some? then
      Ok(d.(entry := Continue(e, d.field.value, Unquote(line, 0))))
    else Err(UnreadableLine(line))
  }

  function ReadLines(d: Draft, lines: seq<string>): Result<Draft, PoError>
    decreases |lines|
  {
    if lines == [] then Ok(d)
    else
      var d1 :- ReadLine(d, lines[0]);
      ReadLines(d1, lines[1..])
  }

  /** The length of the leading run of non-space characters. */
  function NonSpaceLength(s: string): (n: nat)
    ensures n <= |s|
    ensures forall i :: 0 <= i < n ==> !IsSpace(s[i])
    ensures n == |s| || IsSpace(s[n])
  {
    if s == "" || IsSpace(s[0]) then 0 else 1 + NonSpaceLength(s[1..])
  }

  function SkipBlanks(s: string): (rest: string)
    ensures |rest| <= |s|
  {
    if s == "" || s[0] != ' ' then s else SkipBlanks(s[1..])
  }

  /** The capture of `/^Language: *(\S+)$/` at the start of `s`, if it matches there. */
  function LanguageHere(s: string): (r: Option<string>)
    ensures r.Some? ==> r.value != "" && forall i :: 0 <= i < |r.value| ==> !IsSpace(r.value[i])
  {
    if !StartsWith(s, "Language:") then None
    else
      var t := SkipBlanks(s[9..]);
      var n := NonSpaceLength(t);
      if n > 0 && (n == |t| || IsLineEnd(t[n])) then Some(t[..n]) else None
  }

  /** The first such capture at a line start. */
  function FindLanguage(s: string, atLineStart: bool): (r: Option<string>)
    ensures r.Some? ==> forall i :: 0 <= i < |r.value| ==> !IsSpace(r.value[i])
  {
    if atLineStart && LanguageHere(s).Some? then LanguageHere(s)
    else if s == "" then None
    else FindLanguage(s[1..], IsLineEnd(s[0]))
  }

  /** A block whose lines have been read, added to the file: the header, an entry, or an error. */
  function AddEntry(file: PoFile, entry: PoEntry): Result<PoFile, PoError> {
    if entry.key == "" && entry.english == "" then
      var found := FindLanguage(entry.translation, true);
      Ok(if found.Some? then file.(language := found.value) else file)
    else if entry.key == "" then Err(NoContext(entry.english))
    else Ok(file.(entries := file.entries + [entry]))
  }

  function ReadBlock(file: PoFile, lines: seq<string>): Result<PoFile, PoError> {
    if lines == [] then Ok(file)
    else
      var d :- ReadLines(EMPTY_DRAFT, lines);
      AddEntry(file, d.entry)
  }

  function ReadBlocks(file: PoFile, blocks: seq<string>): Result<PoFile, PoError>
    decreases |blocks|
  {
    if blocks == [] then Ok(file)
    else
      var next :- ReadBlock(file, BlockLines(blocks[0]));
      ReadBlocks(next, blocks[1..])
  }

  function ParsePo(source: string): Result<PoFile, PoError> {
    ReadBlocks(PoFile("", []), SplitBlocks(DropCarriageReturns(source), ""))
  }

  // ----- writing -----

  function NoteLines(notes: seq<string>): seq<string> {
    if notes == [] then [] else ["#. " + notes[0]] + NoteLines(notes[1..])
  }

  function FieldLines(entry: PoEntry): seq<string> {
    (if entry.fuzzy then ["#, fuzzy"] else [])
    + (if entry.fuzzy && entry.previousEnglish.Some? then ["#| msgid " + Quote(entry.previousEnglish.value)] else [])
    + ["msgctxt " + Quote(entry.key), "msgid " + Quote(entry.english), "msgstr " + Quote(entry.translation)]
  }

  function EntryLines(entry: PoEntry): seq<string> {
    NoteLines(entry.notes) + FieldLines(entry)
  }

  function LanguageField(language: string): string {
    "Language: " + language + "\n"
  }

  function MimeVersion(): string { "MIME-Version: 1.0" }

  function ContentType(): string { "Content-Type: text/plain; charset=UTF-8" }

  function Encoding(): string { "Content-Transfer-Encoding: 8bit" }

  /** What `quote` returns for a text with nothing to escape, and a newline. */
  function FixedLine(text: string): string {
    "\"" + (text + "\\n") + "\""
  }

  function HeaderLines(language: string): seq<string> {
    ["msgid \"\"", "msgstr \"\""]
    + [Quote(LanguageField(language)), FixedLine(MimeVersion()), FixedLine(ContentType()), FixedLine(Encoding())]
  }

  function EntryBlocks(entries: seq<PoEntry>): seq<string> {
    if entries == [] then [] else [Join(EntryLines(entries[0]), "\n")] + EntryBlocks(entries[1..])
  }

  function FormatBlocks(header: seq<string>, entries: seq<PoEntry>): string {
    Join([Join(header, "\n")] + EntryBlocks(entries), "\n\n") + "\n"
  }

  function FormatPo(file: PoFile): string {
    FormatBlocks(HeaderLines(file.language), file.entries)
  }

  // ----- the parser as it runs -----

  method Parse(source: string) returns (r: Result<PoFile, PoError>)
    ensures r == ParsePo(source)
  {
    var file := PoFile("", []);
    var blocks := SplitBlocks(DropCarriageReturns(source), "");
    for b := 0 to |blocks|
      invariant ParsePo(source) == ReadBlocks(file, blocks[b..])
    {
      var lines := BlockLines(blocks[b]);
      if lines == [] {
        continue;
      }
      var draft := EMPTY_DRAFT;
      for l := 0 to |lines|
        invariant ReadLines(EMPTY_DRAFT, lines) == ReadLines(draft, lines[l..])
      {
        var next := ReadLine(draft, lines[l]);
        if next.Err? {
          return Err(next.error);
        }
        draft := next.value;
      }
      var entry := draft.entry;
      if entry.key == "" && entry.english == "" {
        var found := FindLanguage(entry.translation, true);
        if found.Some? {
          file := file.(language := found.value);
        }
        continue;
      }
      if entry.key == "" {
        return Err(NoContext(entry.english));
      }
      file := file.(entries := file.entries + [entry]);
    }
    r := Ok(file);
  }
}
