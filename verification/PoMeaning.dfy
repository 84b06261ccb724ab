/** What the lines, the blocks and the quoted fields of a PO file mean. */
module PoMeaning {
  import opened Outcome
  import opened JsText
  import opened Sequences
  import opened Po

  // ----- white space, separators, quotes -----

  predicate Spaces(s: string) {
    forall i :: 0 <= i < |s| ==> IsSpace(s[i])
  }

  /** `s` is `core` between white space, and `core` neither begins nor ends with any. */
  ghost predicate Trimmed(s: string, core: string) {
    && (exists front: string, back: string :: Spaces(front) && Spaces(back) && s == front + core + back)
    && (core != "" ==> !IsSpace(core[0]) && !IsSpace(core[|core| - 1]))
  }

  lemma {:induction false} SkipSpaceMeans(s: string) returns (front: string)
    ensures Spaces(front) && s == front + SkipSpace(s)
  {
    front := "";
    if s != "" && IsSpace(s[0]) {
      var more := SkipSpaceMeans(s[1..]);
      front := s[..1] + more;
      assert s == s[..1] + s[1..];
    }
  }

  lemma {:induction false} DropSpaceMeans(s: string) returns (back: string)
    ensures Spaces(back) && s == DropSpaceAtEnd(s) + back
  {
    back := "";
    if s != "" && IsSpace(s[|s| - 1]) {
      var n := |s| - 1;
      var more := DropSpaceMeans(s[..n]);
      back := more + [s[n]];
      assert s == s[..n] + [s[n]];
    }
  }

  lemma TrimMeans(s: string)
    ensures Trimmed(s, Trim(s))
  {
    var front := SkipSpaceMeans(s);
    var t := SkipSpace(s);
    var back := DropSpaceMeans(t);
    assert s == front + Trim(s) + back;
    assert Trim(s) != "" ==> Trim(s)[0] == t[0];
  }

  /** The parts are those of `s` between the separators. */
  lemma {:induction false} SplitMeans(s: string, c: char)
    ensures Join(Split(s, c), [c]) == s && forall part :: part in Split(s, c) ==> c !in part
  {
    if s != "" {
      var rest := Split(s[1..], c);
      SplitMeans(s[1..], c);
      assert s == s[..1] + s[1..];
      if s[0] == c {
        assert ([""] + rest)[1..] == rest;
        assert Join([""] + rest, [c]) == "" + ([c] + Join(rest, [c]));
      } else if |rest| == 1 {
        assert Join([s[..1] + rest[0]] + rest[1..], [c]) == s[..1] + rest[0];
      } else {
        var parts := [s[..1] + rest[0]] + rest[1..];
        assert parts[1..] == rest[1..];
        assert Join(parts, [c]) == (s[..1] + rest[0]) + ([c] + Join(rest[1..], [c]));
        Assoc(s[..1], rest[0], [c] + Join(rest[1..], [c]));
      }
    }
  }

  /** An escape stands for one character: a newline, a tab, or the character itself. */
  function Escaped(c: char): char {
    if c == 'n' then '\n' else if c == 't' then '\t' else c
  }

  /** A backslash and the character behind it are one, unless that ends the line; all else stands for itself. */
  lemma UnescapeMeans(c: char, rest: string)
    ensures c != '\\' ==> Unescape([c] + rest) == [c] + Unescape(rest)
    ensures !IsLineEnd(c) ==> Unescape(['\\', c] + rest) == [Escaped(c)] + Unescape(rest)
    ensures rest == "" || IsLineEnd(rest[0]) ==> Unescape("\\" + rest) == "\\" + Unescape(rest)
    ensures Unescape("") == ""
  {
    assert ([c] + rest)[1..] == rest && ([c] + rest)[..1] == [c];
    assert (['\\', c] + rest)[2..] == rest;
    assert ("\\" + rest)[1..] == rest && ("\\" + rest)[..1] == "\\";
  }

  /** `first` and `last` are the first quote at or behind `at` and the last one of the line. */
  predicate Quotes(line: string, at: nat, first: nat, last: nat) {
    && at <= first < |line| && line[first] == '"' && (forall i :: at <= i < first ==> line[i] != '"')
    && last < |line| && line[last] == '"' && (forall i :: last < i < |line| ==> line[i] != '"')
  }

  /** A quoted field is what stands between its first and its last quote, unescaped; nothing if it has only one. */
  lemma UnquoteMeans(line: string, at: nat, first: nat, last: nat)
    requires at < |line| && Quotes(line, at, first, last)
    ensures Unquote(line, at) == Unescape(if first < last then line[first + 1..last] else "")
  {
  }

  // ----- one line -----

  datatype Line =
    | Opening(field: Field, text: string)
    | More(text: string)
    | Note(text: string)
    | Flags(fuzzy: bool)
    | Previous(text: string)
    | Comment
    | Garbage

  /** One of the flags between the commas is `fuzzy`. */
  ghost predicate Flagged(line: string) {
    exists flag :: flag in Split(line, ',') && Trim(flag) == "fuzzy"
  }

  /** What a line says. */
  ghost predicate LineIs(line: string, l: Line) {
    match l
    case Opening(Key, text) => "msgctxt " <= line && text == Unquote(line, 7)
    case Opening(English, text) => "msgid " <= line && text == Unquote(line, 5)
    case Opening(Translation, text) => "msgstr " <= line && text == Unquote(line, 6)
    case More(text) => "\"" <= line && text == Unquote(line, 0)
    case Note(text) => "#." <= line && text == Trim(line[2..])
    case Flags(fuzzy) => "#," <= line && (fuzzy <==> Flagged(line[2..]))
    case Previous(text) => "#| msgid " <= line && text == Unquote(line, 8)
    case Comment => "#" <= line && !("#." <= line) && !("#," <= line) && !("#| msgid " <= line)
    case Garbage => !("#" <= line) && !("\"" <= line) && !("msgctxt " <= line) && !("msgid " <= line) && !("msgstr " <= line)
  }

  function Extended(e: PoEntry, f: Field, text: string): PoEntry {
    match f
    case Key => e.(key := e.key + text)
    case English => e.(english := e.english + text)
    case Translation => e.(translation := e.translation + text)
  }

  function Set(e: PoEntry, f: Field, text: string): PoEntry {
    match f
    case Key => e.(key := text)
    case English => e.(english := text)
    case Translation => e.(translation := text)
  }

  /** What a line does to a draft; nothing can be done with garbage, nor with a continuation that continues nothing. */
  function After(d: Draft, l: Line): Option<Draft> {
    match l
    case Opening(f, text) => Some(Draft(Set(d.entry, f, text), Some(f)))
    case More(text) => if d.field.None? then None else Some(d.(entry := Extended(d.entry, d.field.value, text)))
    case Note(text) => Some(d.(entry := d.entry.(notes := d.entry.notes + [text])))
    case Flags(fuzzy) => Some(d.(entry := d.entry.(fuzzy := d.entry.fuzzy || fuzzy)))
    case Previous(text) => Some(d.(entry := d.entry.(previousEnglish := Some(text))))
    case Comment => Some(d)
    case Garbage => None
  }

  lemma FlaggedMeans(flags: string)
    ensures SaysFuzzy(Split(flags, ',')) <==> Flagged(flags)
  {
    var parts := Split(flags, ',');
    if i :| 0 <= i < |parts| && Trim(parts[i]) == "fuzzy" {
      assert parts[i] in parts;
    }
  }

  lemma CommentRead(d: Draft, line: string) returns (l: Line)
    requires "#" <= line
    ensures LineIs(line, l) && After(d, l).Some? && ReadLine(d, line) == Ok(After(d, l).value)
  {
    if "#." <= line {
      l := Note(Trim(line[2..]));
    } else if "#," <= line {
      FlaggedMeans(line[2..]);
      l := Flags(SaysFuzzy(Split(line[2..], ',')));
    } else if "#| msgid " <= line {
      l := Previous(Unquote(line, 8));
    } else {
      l := Comment;
    }
  }

  /** Each line says one thing, and that is what is done to the draft. */
  lemma LineRead(d: Draft, line: string) returns (l: Line)
    ensures LineIs(line, l)
    ensures ReadLine(d, line) == if After(d, l).Some? then Ok(After(d, l).value) else Err(UnreadableLine(line))
  {
    if "#" <= line {
      l := CommentRead(d, line);
    } else {
      assert line == "" || line[0] != '#';
      if "msgctxt " <= line {
        l := Opening(Key, Unquote(line, 7));
      } else if "msgid " <= line {
        l := Opening(English, Unquote(line, 5));
      } else if "msgstr " <= line {
        l := Opening(Translation, Unquote(line, 6));
      } else if "\"" <= line {
        l := More(Unquote(line, 0));
      } else {
        l := Garbage;
      }
    }
  }

  // ----- the lines of a block -----

  predicate IsLast(said: seq<Line>, f: Field, i: nat) {
    && i < |said| && said[i].Opening? && said[i].field == f
    && forall j :: i < j < |said| ==> !(said[j].Opening? && said[j].field == f)
  }

  /** What continues the field that is open, from line `from` to the next line that opens one. */
  function Continued(said: seq<Line>, from: nat): string
    decreases |said| - from
  {
    if from >= |said| || said[from].Opening? then ""
    else (if said[from].More? then said[from].text else "") + Continued(said, from + 1)
  }

  /** The text of a field: what the last line that opens it says, and what continues that; empty if no line opens it. */
  ghost predicate FieldIs(said: seq<Line>, f: Field, text: string) {
    && (forall i: nat :: IsLast(said, f, i) ==> text == said[i].text + Continued(said, i + 1))
    && ((forall i :: 0 <= i < |said| ==> !(said[i].Opening? && said[i].field == f)) ==> text == "")
  }

  function Notes(said: seq<Line>): seq<string> {
    if said == [] then []
    else
      var last := said[|said| - 1];
      Notes(said[..|said| - 1]) + if last.Note? then [last.text] else []
  }

  /** The last previous English that is given. */
  function LastPrevious(said: seq<Line>): Option<string> {
    if said == [] then None
    else
      var last := said[|said| - 1];
      if last.Previous? then Some(last.text) else LastPrevious(said[..|said| - 1])
  }

  /** The texts of the three fields. */
  ghost predicate FieldsAre(said: seq<Line>, e: PoEntry) {
    FieldIs(said, Key, e.key) && FieldIs(said, English, e.english) && FieldIs(said, Translation, e.translation)
  }

  /** The entry that the lines of a block make up. */
  ghost predicate EntryIs(said: seq<Line>, e: PoEntry) {
    && FieldsAre(said, e)
    && e.notes == Notes(said) && e.previousEnglish == LastPrevious(said)
    && (e.fuzzy <==> exists i :: 0 <= i < |said| && said[i] == Flags(true))
  }

  predicate NoneOpens(said: seq<Line>, from: nat) {
    forall j :: from <= j < |said| ==> !said[j].Opening?
  }

  /** The field that is open behind the lines. */
  ghost predicate OpenIs(said: seq<Line>, field: Option<Field>) {
    if field.None? then NoneOpens(said, 0)
    else exists i: nat :: IsLast(said, field.value, i) && NoneOpens(said, i + 1)
  }

  lemma {:induction false} ContinuedSnoc(said: seq<Line>, l: Line, from: nat)
    requires from <= |said|
    ensures Continued(said + [l], from)
         == Continued(said, from) + if NoneOpens(said, from) && l.More? then l.text else ""
    decreases |said| - from
  {
    var all := said + [l];
    if from == |said| {
      assert all[from] == l && Continued(all, from + 1) == "";
      if l.More? {
        Unit(l.text);
      }
    } else {
      assert all[from] == said[from];
      if !said[from].Opening? {
        ContinuedSnoc(said, l, from + 1);
        assert NoneOpens(said, from) <==> NoneOpens(said, from + 1);
        Assoc(if said[from].More? then said[from].text else "", Continued(said, from + 1),
              if NoneOpens(said, from) && l.More? then l.text else "");
      }
    }
  }

  lemma IsLastSnoc(said: seq<Line>, l: Line, f: Field, i: nat)
    requires !(l.Opening? && l.field == f)
    ensures IsLast(said + [l], f, i) <==> IsLast(said, f, i)
    ensures i < |said| ==> (said + [l])[i] == said[i]
  {
    var all := said + [l];
    assert all[|said|] == l;
    assert forall j :: 0 <= j < |said| ==> all[j] == said[j];
  }

  /** A line that does not open the field. */
  lemma FieldSnoc(said: seq<Line>, l: Line, f: Field, text: string, more: string, open: Option<Field>)
    requires FieldIs(said, f, text) && OpenIs(said, open) && !(l.Opening? && l.field == f)
    requires more == if open == Some(f) && l.More? then l.text else ""
    ensures FieldIs(said + [l], f, text + more)
  {
    var all := said + [l];
    forall i: nat | IsLast(all, f, i)
      ensures text + more == all[i].text + Continued(all, i + 1)
    {
      IsLastSnoc(said, l, f, i);
      ContinuedSnoc(said, l, i + 1);
      OpenAfter(said, f, i, open);
      Assoc(said[i].text, Continued(said, i + 1), more);
    }
    if forall i :: 0 <= i < |all| ==> !(all[i].Opening? && all[i].field == f) {
      assert forall i :: 0 <= i < |said| ==> said[i] == all[i];
      NotOpen(said, f, open);
    }
  }

  /** Behind its last opening a field is open exactly if no other line opens one. */
  lemma OpenAfter(said: seq<Line>, f: Field, i: nat, open: Option<Field>)
    requires IsLast(said, f, i) && OpenIs(said, open)
    ensures NoneOpens(said, i + 1) <==> open == Some(f)
  {
    if open.Some? {
      var k: nat :| IsLast(said, open.value, k) && NoneOpens(said, k + 1);
      assert said[k].Opening? && said[i].Opening?;
    }
  }

  lemma NotOpen(said: seq<Line>, f: Field, open: Option<Field>)
    requires OpenIs(said, open) && forall i :: 0 <= i < |said| ==> !(said[i].Opening? && said[i].field == f)
    ensures open != Some(f)
  {
  }

  lemma FieldOpened(said: seq<Line>, l: Line)
    requires l.Opening?
    ensures FieldIs(said + [l], l.field, l.text) && OpenIs(said + [l], Some(l.field))
  {
    var all := said + [l];
    assert all[|said|] == l && IsLast(all, l.field, |said|);
    assert Continued(all, |said| + 1) == "";
    Unit(l.text);
    forall i: nat | IsLast(all, l.field, i)
      ensures i == |said|
    {
    }
  }

  lemma OpenSnoc(said: seq<Line>, l: Line, open: Option<Field>)
    requires OpenIs(said, open) && !l.Opening?
    ensures OpenIs(said + [l], open)
  {
    var all := said + [l];
    assert all[|said|] == l;
    assert forall j :: 0 <= j < |said| ==> all[j] == said[j];
    if open.Some? {
      var k: nat :| IsLast(said, open.value, k) && NoneOpens(said, k + 1);
      IsLastSnoc(said, l, open.value, k);
    }
  }

  lemma RestSnoc(said: seq<Line>, l: Line)
    ensures Notes(said + [l]) == Notes(said) + if l.Note? then [l.text] else []
    ensures LastPrevious(said + [l]) == if l.Previous? then Some(l.text) else LastPrevious(said)
    ensures (exists i :: 0 <= i < |said + [l]| && (said + [l])[i] == Flags(true))
       <==> (exists i :: 0 <= i < |said| && said[i] == Flags(true)) || l == Flags(true)
  {
    var all := said + [l];
    assert all[..|said|] == said && all[|said|] == l;
    assert forall j :: 0 <= j < |said| ==> all[j] == said[j];
  }

  /** One line more. */
  lemma EntrySnoc(said: seq<Line>, l: Line, d: Draft, next: Draft)
    requires EntryIs(said, d.entry) && OpenIs(said, d.field) && After(d, l) == Some(next)
    ensures EntryIs(said + [l], next.entry) && OpenIs(said + [l], next.field)
  {
    RestSnoc(said, l);
    FieldsSnoc(said, l, d, next);
    if l.Opening? {
      FieldOpened(said, l);
    } else {
      OpenSnoc(said, l, d.field);
    }
    Unit(d.entry.notes);
  }

  /** What a line adds to a field. */
  function AddedTo(l: Line, f: Field, open: Option<Field>): string {
    if open == Some(f) && l.More? then l.text else ""
  }

  lemma FieldOneMore(said: seq<Line>, l: Line, f: Field, text: string, open: Option<Field>, next: string)
    requires FieldIs(said, f, text) && OpenIs(said, open)
    requires next == if l.Opening? && l.field == f then l.text else text + AddedTo(l, f, open)
    ensures FieldIs(said + [l], f, next)
  {
    if l.Opening? && l.field == f {
      FieldOpened(said, l);
    } else {
      FieldSnoc(said, l, f, text, AddedTo(l, f, open), open);
    }
  }

  lemma FieldsSnoc(said: seq<Line>, l: Line, d: Draft, next: Draft)
    requires FieldsAre(said, d.entry) && OpenIs(said, d.field) && After(d, l) == Some(next)
    ensures FieldsAre(said + [l], next.entry)
  {
    var e := d.entry;
    Unit(e.key);
    Unit(e.english);
    Unit(e.translation);
    FieldOneMore(said, l, Key, e.key, d.field, next.entry.key);
    FieldOneMore(said, l, English, e.english, d.field, next.entry.english);
    FieldOneMore(said, l, Translation, e.translation, d.field, next.entry.translation);
  }

  lemma ReadSnoc(d: Draft, lines: seq<string>, line: string)
    ensures ReadLines(d, lines + [line])
         == if ReadLines(d, lines).Ok? then ReadLine(ReadLines(d, lines).value, line) else ReadLines(d, lines)
    decreases |lines|
  {
    var all := lines + [line];
    if lines == [] {
      assert all[1..] == [];
    } else {
      assert all[1..] == lines[1..] + [line];
      if ReadLine(d, lines[0]).Ok? {
        ReadSnoc(ReadLine(d, lines[0]).value, lines[1..], line);
      }
    }
  }

  ghost predicate AllSay(lines: seq<string>, said: seq<Line>) {
    |said| == |lines| && forall i :: 0 <= i < |lines| ==> LineIs(lines[i], said[i])
  }

  lemma AllSayOneMore(lines: seq<string>, said: seq<Line>, line: string, l: Line)
    requires AllSay(lines, said) && LineIs(line, l)
    ensures AllSay(lines + [line], said + [l])
  {
  }

  /** The lines of a block that can be read make up the entry. */
  lemma {:induction false} LinesMean(lines: seq<string>, d: Draft) returns (said: seq<Line>)
    requires ReadLines(EMPTY_DRAFT, lines) == Ok(d)
    ensures AllSay(lines, said) && EntryIs(said, d.entry) && OpenIs(said, d.field)
  {
    said := [];
    if lines != [] {
      var n := |lines| - 1;
      var init, line := lines[..n], lines[n];
      assert lines == init + [line];
      ReadSnoc(EMPTY_DRAFT, init, line);
      var before := ReadLines(EMPTY_DRAFT, init).value;
      said := LinesMean(init, before);
      var l := LineRead(before, line);
      EntrySnoc(said, l, before, d);
      AllSayOneMore(init, said, line, l);
      said := said + [l];
    }
  }

  /** A line that is neither readable nor continues a field. */
  ghost predicate Astray(lines: seq<string>, said: seq<Line>, k: nat) {
    && k < |lines| == |said| && AllSay(lines, said)
    && (said[k] == Garbage || (said[k].More? && NoneOpens(said[..k], 0)))
  }

  /** Lines are refused for the first that is astray. */
  lemma {:induction false} LinesRefused(lines: seq<string>) returns (k: nat, said: seq<Line>)
    requires ReadLines(EMPTY_DRAFT, lines).Err?
    ensures k < |lines| && ReadLines(EMPTY_DRAFT, lines) == Err(UnreadableLine(lines[k]))
    ensures Astray(lines[..k + 1], said, k) && ReadLines(EMPTY_DRAFT, lines[..k]).Ok?
  {
    var n := |lines| - 1;
    var init, line := lines[..n], lines[n];
    assert lines == init + [line];
    ReadSnoc(EMPTY_DRAFT, init, line);
    if ReadLines(EMPTY_DRAFT, init).Err? {
      k, said := LinesRefused(init);
      assert init[..k + 1] == lines[..k + 1] && init[..k] == lines[..k];
    } else {
      k := n;
      var before := ReadLines(EMPTY_DRAFT, init).value;
      said := LinesMean(init, before);
      var l := LineRead(before, line);
      AllSayOneMore(init, said, line, l);
      assert (said + [l])[..k] == said && lines[..k + 1] == lines;
      said := said + [l];
    }
  }

  // ----- blocks -----

  /** Two newlines with nothing but white space between them, and all of it. */
  predicate Gap(s: string) {
    |s| >= 2 && s[0] == '\n' && s[|s| - 1] == '\n' && Spaces(s)
  }

  /** From newline `i` to newline `j` there is only white space. */
  predicate GapAt(s: string, i: nat, j: nat) {
    i < j < |s| && s[i] == '\n' && s[j] == '\n' && Spaces(s[i..j])
  }

  /** The text begins with a blank line, up to newline `j`. */
  predicate BlankTo(s: string, j: nat) {
    j < |s| && s[j] == '\n' && Spaces(s[..j])
  }

  ghost predicate NoGap(s: string) {
    forall i: nat, j: nat :: !GapAt(s, i, j)
  }

  ghost predicate NoBlank(s: string) {
    forall j: nat :: !BlankTo(s, j)
  }

  /** The blocks with the gaps between them. */
  function Woven(blocks: seq<string>, gaps: seq<string>): string
    requires |blocks| == |gaps| + 1
  {
    if gaps == [] then blocks[0] else blocks[0] + (gaps[0] + Woven(blocks[1..], gaps[1..]))
  }

  ghost predicate GapRight(blocks: seq<string>, gaps: seq<string>, g: nat) {
    g < |gaps| && g + 1 < |blocks| && Gap(gaps[g]) && NoGap(blocks[g] + "\n") && NoBlank(blocks[g + 1])
  }

  /** The text falls into these blocks: each gap begins at the first newline it can and ends at the last. */
  ghost predicate BlocksAre(text: string, blocks: seq<string>, gaps: seq<string>) {
    && |blocks| == |gaps| + 1 && text == Woven(blocks, gaps)
    && (forall g :: 0 <= g < |gaps| ==> GapRight(blocks, gaps, g))
    && NoGap(blocks[|gaps|])
  }

  lemma {:induction false} BlankLinesMean(s: string)
    ensures var n := BlankLines(s);
            && (n == 0 ==> NoBlank(s))
            && (n > 0 ==> n <= |s| && BlankTo(s, n - 1) && Spaces(s[..n]) && NoBlank(s[n..]))
  {
    if s != "" && IsSpace(s[0]) {
      var rest := s[1..];
      BlankLinesMean(rest);
      var n, m := BlankLines(s), BlankLines(rest);
      forall j: nat | BlankTo(s, j) && j > 0
        ensures BlankTo(rest, j - 1)
      {
        assert rest[..j - 1] == s[..j][1..];
      }
      if m > 0 {
        assert s[..n] == [s[0]] + rest[..m] && s[..n - 1] == [s[0]] + rest[..m - 1] && s[n..] == rest[m..];
      } else if n > 0 {
        assert s[n..] == rest;
      }
    } else {
      forall j | 0 < j < |s|
        ensures !BlankTo(s, j)
      {
        assert s[..j][0] == s[0];
      }
    }
  }

  /** No gap begins in the part already walked over. */
  ghost predicate NoneBegins(acc: string, s: string) {
    forall i: nat, j: nat :: i < |acc| ==> !GapAt(acc + s, i, j)
  }

  lemma GapKept(front: string, back: string, text: string, i: nat, j: nat)
    requires text == front + back && !GapAt(text, i, j)
    ensures !GapAt(front, i, j)
  {
    if j < |front| && i < j {
      assert text[i..j] == front[i..j];
    }
  }

  lemma WalkOn(acc: string, s: string)
    requires s != "" && NoneBegins(acc, s) && (s[0] == '\n' ==> NoBlank(s[1..]))
    ensures NoneBegins(acc + s[..1], s[1..])
  {
    var text := acc + s;
    assert (acc + s[..1]) + s[1..] == text;
    forall i: nat, j: nat | i < |acc| + 1
      ensures !GapAt(text, i, j)
    {
      if i == |acc| && GapAt(text, i, j) {
        var k := j - |acc| - 1;
        assert s[1..][k] == text[j];
        assert s[1..][..k] == text[i..j][1..];
        assert BlankTo(s[1..], k);
      }
    }
  }

  /** A gap begins right behind the part walked over. */
  lemma GapHere(acc: string, s: string, n: nat)
    requires s != "" && s[0] == '\n' && NoneBegins(acc, s) && 0 < n <= |s[1..]| && BlankTo(s[1..], n - 1) && Spaces(s[1..][..n])
    ensures Gap(s[..n + 1]) && NoGap(acc + "\n")
  {
    assert s[..n + 1] == [s[0]] + s[1..][..n];
    assert s == "\n" + s[1..];
    Assoc(acc, "\n", s[1..]);
    forall i: nat, j: nat
      ensures !GapAt(acc + "\n", i, j)
    {
      if i < |acc| {
        GapKept(acc + "\n", s[1..], acc + s, i, j);
      }
    }
  }

  lemma FirstBlank(text: string, block: string)
    requires block <= text && NoBlank(text)
    ensures NoBlank(block)
  {
    forall j: nat | BlankTo(block, j)
      ensures BlankTo(text, j)
    {
      assert text[..j] == block[..j];
    }
  }

  lemma {:induction false} SplitBlocksMean(s: string, acc: string) returns (gaps: seq<string>)
    requires NoneBegins(acc, s)
    ensures BlocksAre(acc + s, SplitBlocks(s, acc), gaps) && SplitBlocks(s, acc)[0] <= acc + s
    decreases |s|
  {
    if s == "" {
      gaps := [];
      Unit(acc);
      LastBlock(acc);
    } else {
      BlankLinesMean(s[1..]);
      var n := BlankLines(s[1..]);
      if s[0] == '\n' && n > 0 {
        var rest := s[1 + n..];
        var more := SplitBlocksMean(rest, "");
        Unit(rest);
        gaps := AtGap(s, acc, n, rest, SplitBlocks(rest, ""), more);
      } else {
        WalkOn(acc, s);
        gaps := SplitBlocksMean(s[1..], acc + s[..1]);
        TakeDrop(acc, s, 1);
      }
    }
  }

  lemma LastBlock(acc: string)
    requires NoneBegins(acc, "")
    ensures BlocksAre(acc, [acc], [])
  {
    Unit(acc);
    forall i: nat, j: nat
      ensures !GapAt(acc, i, j)
    {
      assert i < |acc| ==> !GapAt(acc + "", i, j);
    }
  }

  lemma AtGap(s: string, acc: string, n: nat, rest: string, later: seq<string>, more: seq<string>) returns (gaps: seq<string>)
    requires s != "" && s[0] == '\n' && NoneBegins(acc, s) && 0 < n < |s| && rest == s[1 + n..]
    requires BlankTo(s[1..], n - 1) && Spaces(s[1..][..n]) && NoBlank(s[1..][n..])
    requires BlocksAre(rest, later, more) && later[0] <= rest
    ensures BlocksAre(acc + s, [acc] + later, gaps)
  {
    assert rest == s[1..][n..];
    GapHere(acc, s, n);
    FirstBlank(rest, later[0]);
    gaps := [s[..n + 1]] + more;
    BlocksInFront(acc, s[..n + 1], rest, later, more, [acc] + later, gaps);
    assert s == s[..n + 1] + rest;
  }

  lemma BlocksInFront(first: string, gap: string, rest: string, later: seq<string>, more: seq<string>,
                      blocks: seq<string>, gaps: seq<string>)
    requires BlocksAre(rest, later, more) && blocks == [first] + later && gaps == [gap] + more
    requires Gap(gap) && NoGap(first + "\n") && NoBlank(later[0])
    ensures BlocksAre(first + (gap + rest), blocks, gaps)
  {
    assert blocks[1..] == later && gaps[1..] == more;
    forall g | 0 <= g < |gaps|
      ensures GapRight(blocks, gaps, g)
    {
      assert blocks[g + 1] == later[g];
      if g > 0 {
        assert GapRight(later, more, g - 1);
        assert gaps[g] == more[g - 1] && blocks[g] == later[g - 1];
      }
    }
    assert blocks[|gaps|] == later[|more|];
  }

  // ----- carriage returns, lines -----

  predicate NoReturn(s: string) {
    forall i :: 0 <= i < |s| - 1 ==> !(s[i] == '\r' && s[i + 1] == '\n')
  }

  predicate NoReturns(parts: seq<string>) {
    forall i :: 0 <= i < |parts| ==> NoReturn(parts[i])
  }

  /** Each carriage return in front of a newline goes, and nothing else. */
  lemma {:induction false} ReturnsMean(s: string) returns (parts: seq<string>)
    ensures parts != [] && NoReturns(parts)
    ensures s == Join(parts, "\r\n") && DropCarriageReturns(s) == Join(parts, "\n")
    ensures s != "" && parts[0] != "" ==> parts[0][0] == s[0]
  {
    if |s| < 2 {
      parts := [s];
    } else if s[0] == '\r' && s[1] == '\n' {
      var rest := ReturnsMean(s[2..]);
      parts := [""] + rest;
      assert s == "\r\n" + s[2..];
      JoinEmpty(rest, parts, "\r\n");
      JoinEmpty(rest, parts, "\n");
    } else {
      var rest := ReturnsMean(s[1..]);
      parts := [s[..1] + rest[0]] + rest[1..];
      assert s == s[..1] + s[1..];
      assert NoReturn(rest[0]) && NoReturn(s[..1] + rest[0]);
      assert forall i :: 0 < i < |parts| ==> parts[i] == rest[i];
      JoinFirst(s[..1], rest, parts, "\r\n");
      JoinFirst(s[..1], rest, parts, "\n");
    }
  }

  lemma JoinEmpty(rest: seq<string>, parts: seq<string>, glue: string)
    requires rest != [] && parts == [""] + rest
    ensures Join(parts, glue) == glue + Join(rest, glue)
  {
    assert parts[1..] == rest;
    Unit(glue + Join(rest, glue));
  }

  lemma JoinFirst(c: string, rest: seq<string>, parts: seq<string>, glue: string)
    requires rest != [] && parts == [c + rest[0]] + rest[1..]
    ensures Join(parts, glue) == c + Join(rest, glue)
  {
    assert parts[1..] == rest[1..];
    if |rest| > 1 {
      Assoc(c, rest[0], glue + Join(rest[1..], glue));
    }
  }

  lemma BlankMeans(s: string)
    ensures Trim(s) == "" <==> Spaces(s)
  {
    TrimMeans(s);
    var front: string, back: string :| Spaces(front) && Spaces(back) && s == front + Trim(s) + back;
    if Trim(s) != "" {
      assert s[|front|] == Trim(s)[0];
    }
  }

  /** The lines that are not all white space. */
  function NonBlank(lines: seq<string>): seq<string> {
    if lines == [] then [] else (if Spaces(lines[0]) then [] else [lines[0]]) + NonBlank(lines[1..])
  }

  lemma {:induction false} KeepMeans(lines: seq<string>)
    ensures KeepNonBlank(lines) == NonBlank(lines)
  {
    if lines != [] {
      BlankMeans(lines[0]);
      KeepMeans(lines[1..]);
      assert lines[..1] == [lines[0]];
    }
  }

  // ----- the language of a header -----

  predicate AllBlanks(s: string) {
    forall i :: 0 <= i < |s| ==> s[i] == ' '
  }

  predicate Word(s: string) {
    s != "" && forall i :: 0 <= i < |s| ==> !IsSpace(s[i])
  }

  predicate LineEnds(s: string) {
    s == "" || IsLineEnd(s[0])
  }

  /** The text begins with a line that names the language and nothing else. */
  ghost predicate Names(s: string, language: string) {
    exists blanks: string, back: string ::
      AllBlanks(blanks) && Word(language) && LineEnds(back) && s == "Language:" + (blanks + (language + back))
  }

  lemma {:induction false} SkipBlanksMean(s: string) returns (blanks: string)
    ensures AllBlanks(blanks) && s == blanks + SkipBlanks(s) && (SkipBlanks(s) == "" || SkipBlanks(s)[0] != ' ')
  {
    blanks := "";
    if s != "" && s[0] == ' ' {
      var more := SkipBlanksMean(s[1..]);
      blanks := s[..1] + more;
      assert s == s[..1] + s[1..];
    }
  }

  lemma {:induction false} BlanksSkipped(blanks: string, rest: string)
    requires AllBlanks(blanks) && (rest == "" || rest[0] != ' ')
    ensures SkipBlanks(blanks + rest) == rest
  {
    if blanks == "" {
      Unit(rest);
    } else {
      assert (blanks + rest)[1..] == blanks[1..] + rest;
      BlanksSkipped(blanks[1..], rest);
    }
  }

  lemma {:induction false} WordLength(word: string, rest: string)
    requires (word == "" || Word(word)) && (rest == "" || IsSpace(rest[0]))
    ensures NonSpaceLength(word + rest) == |word|
  {
    if word == "" {
      Unit(rest);
    } else {
      assert (word + rest)[1..] == word[1..] + rest;
      WordLength(word[1..], rest);
    }
  }

  lemma HereNames(s: string, language: string)
    requires LanguageHere(s) == Some(language)
    ensures Names(s, language)
  {
    var rest, t, n := HereIs(s, language);
    var blanks := SkipBlanksMean(rest);
    var back := t[n..];
    TakeWord(t, n, language, back);
    NamesBy(s, language, blanks, back, rest);
  }

  lemma NamesBy(s: string, language: string, blanks: string, back: string, rest: string)
    requires AllBlanks(blanks) && Word(language) && LineEnds(back)
    requires s == "Language:" + rest && rest == blanks + (language + back)
    ensures Names(s, language)
  {
  }

  lemma HereIs(s: string, language: string) returns (rest: string, t: string, n: nat)
    requires LanguageHere(s) == Some(language)
    ensures s == "Language:" + rest && t == SkipBlanks(rest) && 0 < n <= |t|
    ensures language == t[..n] && Word(language) && (n == |t| || IsLineEnd(t[n]))
  {
    rest := s[9..];
    PrefixSplit(s, "Language:", rest);
    t := SkipBlanks(rest);
    n := NonSpaceLength(t);
  }

  lemma PrefixSplit(s: string, prefix: string, rest: string)
    requires prefix <= s && rest == s[|prefix|..]
    ensures s == prefix + rest
  {
  }

  lemma TakeWord(t: string, n: nat, word: string, back: string)
    requires n <= |t| && word == t[..n] && back == t[n..]
    ensures t == word + back && (n < |t| ==> back[0] == t[n])
  {
  }

  lemma NamesGives(s: string, language: string, blanks: string, back: string)
    requires AllBlanks(blanks) && Word(language) && LineEnds(back) && s == "Language:" + (blanks + (language + back))
    ensures LanguageHere(s) == Some(language)
  {
    var rest := language + back;
    assert s[9..] == blanks + rest;
    assert rest[0] == language[0];
    BlanksSkipped(blanks, rest);
    WordLength(language, back);
    assert rest[..|language|] == language && (back != "" ==> rest[|language|] == back[0]);
  }

  lemma NamesHere(s: string, language: string)
    ensures LanguageHere(s) == Some(language) <==> Names(s, language)
  {
    if LanguageHere(s) == Some(language) {
      HereNames(s, language);
    }
    if blanks: string, back: string :|
      AllBlanks(blanks) && Word(language) && LineEnds(back) && s == "Language:" + (blanks + (language + back)) {
      NamesGives(s, language, blanks, back);
    }
  }

  /** A line of the text begins at `p` and names the language. */
  ghost predicate NamedAt(text: string, p: nat, language: string) {
    p <= |text| && (p == 0 || IsLineEnd(text[p - 1])) && Names(text[p..], language)
  }

  /** The first line that names a language names this one; none does if it is absent. */
  ghost predicate LanguageIs(text: string, found: Option<string>) {
    match found
    case Some(language) => exists p: nat :: NamedAt(text, p, language) && NoneBefore(text, p)
    case None => NoneBefore(text, |text| + 1)
  }

  ghost predicate NoneBefore(text: string, p: nat) {
    forall r: nat, other :: r < p ==> !NamedAt(text, r, other)
  }

  lemma {:induction false} FindMeans(text: string, p: nat)
    requires p <= |text| && NoneBefore(text, p)
    ensures LanguageIs(text, FindLanguage(text[p..], p == 0 || IsLineEnd(text[p - 1])))
    decreases |text| - p
  {
    var s, start := text[p..], p == 0 || IsLineEnd(text[p - 1]);
    forall other
      ensures NamedAt(text, p, other) <==> start && LanguageHere(s) == Some(other)
    {
      NamesHere(s, other);
    }
    if start && LanguageHere(s).Some? {
      assert NamedAt(text, p, LanguageHere(s).value);
    } else {
      assert NoneBefore(text, p + 1);
      if p < |text| {
        assert s[1..] == text[p + 1..];
        FindMeans(text, p + 1);
      }
    }
  }

  lemma LanguageMeans(text: string)
    ensures LanguageIs(text, FindLanguage(text, true))
  {
    assert text[0..] == text;
    FindMeans(text, 0);
  }

  // ----- the file -----

  /** What a block holds: nothing, or the entry its lines make up. */
  ghost predicate BlockIs(block: string, held: Option<PoEntry>) {
    exists parts: seq<string> ::
      && Join(parts, "\n") == block && (forall part :: part in parts ==> '\n' !in part)
      && (held.None? <==> NonBlank(parts) == [])
      && (held.Some? ==> exists said :: AllSay(NonBlank(parts), said) && EntryIs(said, held.value))
  }

  /** The entries with a key, in order. */
  function Keyed(held: seq<Option<PoEntry>>): seq<PoEntry> {
    if held == [] then []
    else
      var last := held[|held| - 1];
      Keyed(held[..|held| - 1]) + if last.Some? && last.value.key != "" then [last.value] else []
  }

  predicate IsHeader(held: Option<PoEntry>) {
    held.Some? && held.value.key == "" && held.value.english == ""
  }

  /** The last header that names a language gives it to the file. */
  ghost predicate FileLanguage(held: seq<Option<PoEntry>>, language: string) {
    if held == [] then language == ""
    else
      var last := held[|held| - 1];
      if IsHeader(last) && !LanguageIs(last.value.translation, None)
      then LanguageIs(last.value.translation, Some(language))
      else FileLanguage(held[..|held| - 1], language)
  }

  /** The file that the blocks make up; an entry without a key is a header, and has no English. */
  ghost predicate FileIs(held: seq<Option<PoEntry>>, file: PoFile) {
    && file.entries == Keyed(held) && FileLanguage(held, file.language)
    && forall i :: 0 <= i < |held| && held[i].Some? && held[i].value.key == "" ==> IsHeader(held[i])
  }

  ghost predicate BlocksHold(blocks: seq<string>, held: seq<Option<PoEntry>>) {
    |held| == |blocks| && forall i :: 0 <= i < |blocks| ==> BlockIs(blocks[i], held[i])
  }

  lemma BlockMeans(file: PoFile, block: string, next: PoFile) returns (held: Option<PoEntry>)
    requires ReadBlock(file, BlockLines(block)) == Ok(next)
    ensures BlockIs(block, held)
    ensures held.None? ==> next == file
    ensures held.Some? ==> AddEntry(file, held.value) == Ok(next)
  {
    var parts := Split(block, '\n');
    SplitMeans(block, '\n');
    KeepMeans(parts);
    var lines := BlockLines(block);
    held := None;
    if lines != [] {
      var d := ReadLines(EMPTY_DRAFT, lines).value;
      var said := LinesMean(lines, d);
      held := Some(d.entry);
    }
    assert Join(parts, "\n") == block;
  }

  lemma FileOneMore(held: seq<Option<PoEntry>>, file: PoFile, h: Option<PoEntry>, next: PoFile)
    requires FileIs(held, file) && if h.None? then next == file else AddEntry(file, h.value) == Ok(next)
    ensures FileIs(held + [h], next)
  {
    var all := held + [h];
    assert all[..|held|] == held && all[|held|] == h;
    assert forall i :: 0 <= i < |held| ==> all[i] == held[i];
    Unit(file.entries);
    if IsHeader(h) {
      LanguageMeans(h.value.translation);
      OneLanguage(h.value.translation, FindLanguage(h.value.translation, true));
    }
  }

  lemma OneLanguage(text: string, found: Option<string>)
    requires LanguageIs(text, found)
    ensures LanguageIs(text, None) <==> found.None?
  {
    if found.Some? {
      var p: nat :| NamedAt(text, p, found.value);
    }
  }

  lemma {:induction false} BlocksMean(file: PoFile, blocks: seq<string>, before: seq<Option<PoEntry>>, next: PoFile)
    returns (held: seq<Option<PoEntry>>)
    requires ReadBlocks(file, blocks) == Ok(next) && FileIs(before, file)
    ensures BlocksHold(blocks, held) && FileIs(before + held, next)
    decreases |blocks|
  {
    if blocks == [] {
      held := [];
      Unit(before);
    } else {
      var middle := ReadBlock(file, BlockLines(blocks[0])).value;
      var h := BlockMeans(file, blocks[0], middle);
      FileOneMore(before, file, h, middle);
      var rest := BlocksMean(middle, blocks[1..], before + [h], next);
      held := [h] + rest;
      Assoc(before, [h], rest);
      HoldsFirst(blocks, h, rest, held);
    }
  }

  lemma HoldsFirst(blocks: seq<string>, h: Option<PoEntry>, rest: seq<Option<PoEntry>>, held: seq<Option<PoEntry>>)
    requires blocks != [] && BlockIs(blocks[0], h) && BlocksHold(blocks[1..], rest) && held == [h] + rest
    ensures BlocksHold(blocks, held)
  {
    forall i | 0 <= i < |blocks|
      ensures BlockIs(blocks[i], held[i])
    {
      if i > 0 {
        assert blocks[i] == blocks[1..][i - 1] && held[i] == rest[i - 1];
      }
    }
  }

  /**
   * What a PO file says: without the carriage returns at its line ends it falls into blocks, the lines of each block
   * make up an entry, and the entries with a key, in order, with the language of the last header that names one, are
   * the file.
   */
  lemma ParseMeans(source: string, file: PoFile)
    returns (parts: seq<string>, blocks: seq<string>, gaps: seq<string>, held: seq<Option<PoEntry>>)
    requires ParsePo(source) == Ok(file)
    ensures parts != [] && NoReturns(parts) && source == Join(parts, "\r\n")
    ensures BlocksAre(Join(parts, "\n"), blocks, gaps) && BlocksHold(blocks, held) && FileIs(held, file)
  {
    parts := ReturnsMean(source);
    var text := Join(parts, "\n");
    assert NoneBegins("", text);
    gaps := SplitBlocksMean(text, "");
    blocks := SplitBlocks(text, "");
    Unit(text);
    held := BlocksMean(PoFile("", []), blocks, [], file);
    Unit(held);
  }

  /** A file is refused for its first block that has a line astray, or an English text without a key. */
  lemma {:induction false} BlocksRefused(file: PoFile, blocks: seq<string>) returns (k: nat)
    requires ReadBlocks(file, blocks).Err?
    ensures k < |blocks| && ReadBlocks(file, blocks[..k]).Ok?
    ensures var read := ReadLines(EMPTY_DRAFT, BlockLines(blocks[k]));
            if read.Err? then ReadBlocks(file, blocks) == Err(read.error)
            else
              && read.value.entry.key == "" && read.value.entry.english != ""
              && ReadBlocks(file, blocks) == Err(NoContext(read.value.entry.english))
    decreases |blocks|
  {
    var first := ReadBlock(file, BlockLines(blocks[0]));
    if first.Err? {
      k := 0;
    } else {
      var later := BlocksRefused(first.value, blocks[1..]);
      k := later + 1;
      assert blocks[..k][1..] == blocks[1..][..later] && blocks[..k][0] == blocks[0];
      assert blocks[k] == blocks[1..][later];
    }
  }

  // ----- what is printed -----

  lemma {:induction false} NotesPrinted(notes: seq<string>)
    ensures |NoteLines(notes)| == |notes| && forall i :: 0 <= i < |notes| ==> NoteLines(notes)[i] == "#. " + notes[i]
  {
    if notes != [] {
      NotesPrinted(notes[1..]);
    }
  }

  /** The lines of an entry: its notes, the flag and the previous English of a draft, and the three fields, quoted. */
  lemma EntryPrinted(e: PoEntry)
    ensures var lines, n, drafts := EntryLines(e), |e.notes|, if !e.fuzzy then 0 else if e.previousEnglish.None? then 1 else 2;
            && |lines| == n + drafts + 3
            && (forall i :: 0 <= i < n ==> lines[i] == "#. " + e.notes[i])
            && (drafts >= 1 ==> lines[n] == "#, fuzzy")
            && (drafts == 2 ==> lines[n + 1] == "#| msgid " + Quote(e.previousEnglish.value))
            && lines[n + drafts] == "msgctxt " + Quote(e.key)
            && lines[n + drafts + 1] == "msgid " + Quote(e.english)
            && lines[n + drafts + 2] == "msgstr " + Quote(e.translation)
  {
    NotesPrinted(e.notes);
    var fields := FieldLines(e);
    if e.fuzzy && e.previousEnglish.Some? {
      assert fields[0] == "#, fuzzy" && |fields| == 5;
    }
  }
}
