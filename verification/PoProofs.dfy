/** Printing a PO file and reading it back. */
module PoProofs {
  import opened Outcome
  import opened JsText
  import opened Po
  import opened Sequences

  // ----- quoted fields -----

  /** What the four replacements of `quote` do to one character. */
  function EscapeChar(c: char): string {
    match c
    case '\\' => "\\\\"
    case '"' => "\\\""
    case '\n' => "\\n"
    case '\t' => "\\t"
    case _ => [c]
  }

  function EscapeText(text: string): string {
    if text == "" then "" else EscapeChar(text[0]) + EscapeText(text[1..])
  }

  function Replaced(text: string): string {
    ReplaceChar(ReplaceChar(ReplaceChar(ReplaceChar(text, '\\', "\\\\"), '"', "\\\""), '\n', "\\n"), '\t', "\\t")
  }

  lemma {:induction false} ReplaceConcat(a: string, b: string, c: char, replacement: string)
    ensures ReplaceChar(a + b, c, replacement) == ReplaceChar(a, c, replacement) + ReplaceChar(b, c, replacement)
  {
    if a == "" {
      Unit(b);
      Unit(ReplaceChar(b, c, replacement));
    } else {
      assert (a + b)[1..] == a[1..] + b && (a + b)[0] == a[0];
      ReplaceConcat(a[1..], b, c, replacement);
      var first := if a[0] == c then replacement else [a[0]];
      Assoc(first, ReplaceChar(a[1..], c, replacement), ReplaceChar(b, c, replacement));
    }
  }

  lemma ReplacedConcat(a: string, b: string)
    ensures Replaced(a + b) == Replaced(a) + Replaced(b)
  {
    ReplaceConcat(a, b, '\\', "\\\\");
    var a1, b1 := ReplaceChar(a, '\\', "\\\\"), ReplaceChar(b, '\\', "\\\\");
    ReplaceConcat(a1, b1, '"', "\\\"");
    var a2, b2 := ReplaceChar(a1, '"', "\\\""), ReplaceChar(b1, '"', "\\\"");
    ReplaceConcat(a2, b2, '\n', "\\n");
    ReplaceConcat(ReplaceChar(a2, '\n', "\\n"), ReplaceChar(b2, '\n', "\\n"), '\t', "\\t");
  }

  lemma ReplaceOne(s: char, c: char, replacement: string)
    ensures ReplaceChar([s], c, replacement) == if s == c then replacement else [s]
  {
    var rest := [s][1..];
    assert rest == "" && ReplaceChar(rest, c, replacement) == "";
  }

  lemma ReplaceTwo(s: char, t: char, c: char, replacement: string)
    requires s != c && t != c
    ensures ReplaceChar([s, t], c, replacement) == [s, t]
  {
    ReplaceOne(t, c, replacement);
    assert [s, t][1..] == [t];
  }

  lemma ReplacedChar(c: char)
    ensures Replaced([c]) == EscapeChar(c)
  {
    ReplaceOne(c, '\\', "\\\\");
    ReplaceOne(c, '"', "\\\"");
    ReplaceOne(c, '\n', "\\n");
    ReplaceOne(c, '\t', "\\t");
    ReplaceTwo('\\', '\\', '"', "\\\"");
    ReplaceTwo('\\', '\\', '\n', "\\n");
    ReplaceTwo('\\', '\\', '\t', "\\t");
    ReplaceTwo('\\', '"', '\n', "\\n");
    ReplaceTwo('\\', '"', '\t', "\\t");
    ReplaceTwo('\\', 'n', '\t', "\\t");
    assert "\\\\" == ['\\', '\\'] && "\\\"" == ['\\', '"'] && "\\n" == ['\\', 'n'];
  }

  lemma {:induction false} ReplacedText(text: string)
    ensures Replaced(text) == EscapeText(text)
  {
    if text != "" {
      assert text == [text[0]] + text[1..];
      ReplacedConcat([text[0]], text[1..]);
      ReplacedChar(text[0]);
      ReplacedText(text[1..]);
    }
  }

  /** The replacements run one after the other act on each character alone. */
  lemma QuoteText(text: string)
    ensures Quote(text) == "\"" + EscapeText(text) + "\""
  {
    ReplacedText(text);
  }

  lemma UnescapeChar(c: char, rest: string)
    ensures Unescape(EscapeChar(c) + rest) == [c] + Unescape(rest)
  {
    var s := EscapeChar(c) + rest;
    if |EscapeChar(c)| == 2 {
      assert s[2..] == rest;
    } else {
      assert s[..1] == [c] && s[1..] == rest;
    }
  }

  lemma {:induction false} UnescapeText(text: string)
    ensures Unescape(EscapeText(text)) == text
  {
    if text != "" {
      UnescapeChar(text[0], EscapeText(text[1..]));
      UnescapeText(text[1..]);
    }
  }

  /** A quoted field read back, whatever field name stands in front of it. */
  lemma UnquoteQuote(prefix: string, text: string, at: nat)
    requires at <= |prefix| && '"' !in prefix
    ensures Unquote(prefix + Quote(text), at) == text
  {
    QuoteText(text);
    var body := EscapeText(text);
    var line := prefix + Quote(text);
    assert line == prefix + "\"" + body + "\"";
    forall j | at <= j < |prefix|
      ensures line[j] != '"'
    {
      assert line[j] == prefix[j] && prefix[j] in prefix;
    }
    IndexIs(line, '"', at, |prefix|);
    assert line[|line| - 1] == '"';
    assert line[|prefix| + 1..|line| - 1] == body;
    UnescapeText(text);
  }

  // ----- lines and blocks -----

  /** A line as `formatPo` prints it. */
  predicate IsLine(line: string) {
    line != "" && !IsSpace(line[0]) && '\n' !in line
  }

  predicate AreLines(lines: seq<string>) {
    forall line :: line in lines ==> IsLine(line)
  }

  /** Lines, each ended by a newline. */
  function Ended(lines: seq<string>): string {
    if lines == [] then "" else lines[0] + ("\n" + Ended(lines[1..]))
  }

  /** Blocks of lines with a blank line between them. */
  function EndedBlocks(blocks: seq<seq<string>>): string {
    if blocks == [] then ""
    else if |blocks| == 1 then Ended(blocks[0])
    else Ended(blocks[0]) + ("\n" + EndedBlocks(blocks[1..]))
  }

  function JoinEach(blocks: seq<seq<string>>): (r: seq<string>)
    ensures |r| == |blocks|
  {
    if blocks == [] then [] else [Join(blocks[0], "\n")] + JoinEach(blocks[1..])
  }

  lemma {:induction false} EndedJoin(lines: seq<string>)
    requires lines != []
    ensures Ended(lines) == Join(lines, "\n") + "\n"
  {
    if |lines| == 1 {
      assert Ended(lines[1..]) == "";
      Unit("\n");
    } else {
      EndedJoin(lines[1..]);
      Assoc("\n", Join(lines[1..], "\n"), "\n");
      Assoc(lines[0], "\n" + Join(lines[1..], "\n"), "\n");
    }
  }

  lemma {:induction false} EndedBlocksJoin(blocks: seq<seq<string>>)
    requires blocks != [] && forall i :: 0 <= i < |blocks| ==> blocks[i] != []
    ensures EndedBlocks(blocks) == Join(JoinEach(blocks), "\n\n") + "\n"
  {
    EndedJoin(blocks[0]);
    var joined := JoinEach(blocks);
    if |blocks| > 1 {
      var tail := blocks[1..];
      EndedBlocksJoin(tail);
      assert joined[1..] == JoinEach(tail);
      BlankLineText(joined[0], Join(joined[1..], "\n\n"));
    }
  }

  lemma BlankLineText(first: string, rest: string)
    ensures (first + "\n") + ("\n" + (rest + "\n")) == (first + ("\n\n" + rest)) + "\n"
  {
  }

  lemma {:induction false} SplitBlocksLine(line: string, rest: string, acc: string)
    requires '\n' !in line
    ensures SplitBlocks(line + rest, acc) == SplitBlocks(rest, acc + line)
    decreases |line|
  {
    if line == "" {
      Unit(rest);
      Unit(acc);
    } else {
      var s := line + rest;
      assert s[0] == line[0] && line[0] in line;
      assert s[..1] == line[..1] && s[1..] == line[1..] + rest;
      SplitBlocksLine(line[1..], rest, acc + line[..1]);
      assert (acc + line[..1]) + line[1..] == acc + line;
    }
  }

  /** A single newline before more text does not end a block. */
  lemma SplitBlocksNewline(rest: string, acc: string)
    requires rest == "" || !IsSpace(rest[0])
    ensures SplitBlocks("\n" + rest, acc) == SplitBlocks(rest, acc + "\n")
  {
    var s := "\n" + rest;
    assert s[..1] == "\n" && s[1..] == rest;
  }

  lemma SplitBlocksBlank(rest: string, acc: string)
    requires rest != "" && !IsSpace(rest[0])
    ensures SplitBlocks("\n" + ("\n" + rest), acc) == [acc] + SplitBlocks(rest, "")
  {
    var t := "\n" + rest;
    assert t[1..] == rest;
    assert BlankLines(rest) == 0;
    assert BlankLines(t) == 1;
    var s := "\n" + t;
    assert s[1..] == t && s[2..] == rest;
  }

  lemma StartsWithLine(lines: seq<string>, after: string)
    requires lines != [] && IsLine(lines[0])
    ensures var s := Ended(lines) + after; s != "" && !IsSpace(s[0])
  {
    assert (Ended(lines) + after)[0] == lines[0][0];
  }

  /** The lines of a block, then either the end or a blank line and the next block. */
  lemma {:induction false} SplitBlocksLines(lines: seq<string>, after: string, acc: string)
    requires lines != [] && AreLines(lines)
    requires after == "" || (|after| > 1 && after[0] == '\n' && !IsSpace(after[1]))
    ensures SplitBlocks(Ended(lines) + after, acc)
         == if after == "" then [acc + Ended(lines)]
            else [acc + Join(lines, "\n")] + SplitBlocks(after[1..], "")
    decreases |lines|
  {
    var line, tail := lines[0], lines[1..];
    var more := Ended(tail) + after;
    assert line in lines;
    assert Ended(lines) + after == line + ("\n" + more) by {
      Assoc(line, "\n" + Ended(tail), after);
      Assoc("\n", Ended(tail), after);
    }
    SplitBlocksLine(line, "\n" + more, acc);
    if tail == [] {
      Unit(after);
      LastLine(line, after, acc);
    } else {
      StartsWithLine(tail, after);
      SplitBlocksNewline(more, acc + line);
      SplitBlocksLines(tail, after, acc + line + "\n");
      AccText(acc, line, Ended(tail));
      AccText(acc, line, Join(tail, "\n"));
    }
  }

  lemma AccText(acc: string, line: string, rest: string)
    ensures ((acc + line) + "\n") + rest == acc + (line + ("\n" + rest))
  {
  }

  lemma LastLine(line: string, after: string, acc: string)
    requires after == "" || (|after| > 1 && after[0] == '\n' && !IsSpace(after[1]))
    ensures SplitBlocks("\n" + after, acc + line)
         == if after == "" then [acc + (line + ("\n" + ""))] else [acc + line] + SplitBlocks(after[1..], "")
  {
    if after == "" {
      SplitBlocksNewline("", acc + line);
      assert "\n" + "" == "\n" + after;
      AccText(acc, line, "");
      Unit((acc + line) + "\n");
    } else {
      SplitBlocksBlank(after[1..], acc + line);
      assert after == "\n" + after[1..];
    }
  }

  // ----- the lines of a block -----

  lemma {:induction false} SplitLine(line: string, c: char, rest: string)
    requires c !in line
    ensures Split(line + ([c] + rest), c) == [line] + Split(rest, c)
  {
    var s := line + ([c] + rest);
    if line == "" {
      Unit([c] + rest);
      assert s[1..] == rest;
    } else {
      assert s[0] == line[0] && line[0] in line;
      assert s[1..] == line[1..] + ([c] + rest) && s[..1] == line[..1];
      SplitLine(line[1..], c, rest);
      assert line[..1] + line[1..] == line;
    }
  }

  lemma {:induction false} SplitNone(line: string, c: char)
    requires c !in line
    ensures Split(line, c) == [line]
  {
    if line != "" {
      assert line[0] in line;
      SplitNone(line[1..], c);
      assert line[..1] + line[1..] == line;
    }
  }

  lemma {:induction false} SkipSpaceSpaces(s: string)
    requires SkipSpace(s) == ""
    ensures forall i :: 0 <= i < |s| ==> IsSpace(s[i])
  {
    if s != "" && IsSpace(s[0]) {
      SkipSpaceSpaces(s[1..]);
    }
  }

  lemma {:induction false} DropSpaceKeepsStart(s: string)
    requires s != "" && !IsSpace(s[0])
    ensures DropSpaceAtEnd(s) != ""
  {
    if |s| > 1 && IsSpace(s[|s| - 1]) {
      DropSpaceKeepsStart(s[..|s| - 1]);
    }
  }

  lemma TrimLine(line: string)
    requires IsLine(line)
    ensures Trim(line) != ""
  {
    DropSpaceKeepsStart(line);
  }

  lemma {:induction false} BlockLinesJoin(lines: seq<string>)
    requires lines != [] && AreLines(lines)
    ensures BlockLines(Join(lines, "\n")) == lines
    ensures BlockLines(Ended(lines)) == lines
    decreases |lines|
  {
    var line, tail := lines[0], lines[1..];
    assert line in lines;
    TrimLine(line);
    assert "\n" == ['\n'];
    SplitLine(line, '\n', Ended(tail));
    KeepLine(line, Split(Ended(tail), '\n'));
    assert [line] + tail == lines;
    if tail == [] {
      SplitNone(line, '\n');
      KeepLine(line, []);
      assert Split("", '\n') == [""] && KeepNonBlank([""]) == [] by {
        assert [""][1..] == [];
      }
    } else {
      SplitLine(line, '\n', Join(tail, "\n"));
      KeepLine(line, Split(Join(tail, "\n"), '\n'));
      BlockLinesJoin(tail);
    }
  }

  lemma KeepLine(line: string, rest: seq<string>)
    requires Trim(line) != ""
    ensures KeepNonBlank([line] + rest) == [line] + KeepNonBlank(rest)
  {
    var all := [line] + rest;
    assert all[1..] == rest && all[..1] == [line];
  }

  // ----- carriage returns -----

  /** A line without the carriage return that `\r\n` gives up. */
  function StripReturn(line: string): string {
    if line != "" && line[|line| - 1] == '\r' then line[..|line| - 1] else line
  }

  function StripReturns(lines: seq<string>): (r: seq<string>)
    ensures |r| == |lines| && forall i :: 0 <= i < |r| ==> r[i] == StripReturn(lines[i])
  {
    if lines == [] then [] else [StripReturn(lines[0])] + StripReturns(lines[1..])
  }

  lemma {:induction false} DropReturnsLine(line: string, rest: string)
    requires '\n' !in line
    ensures DropCarriageReturns(line + ("\n" + rest)) == StripReturn(line) + ("\n" + DropCarriageReturns(rest))
  {
    var s := line + ("\n" + rest);
    if line == "" {
      DropReturnsNewline(rest);
      Unit("\n" + rest);
      Unit("\n" + DropCarriageReturns(rest));
    } else if line == "\r" {
      assert s[2..] == rest;
      Unit("\n" + DropCarriageReturns(rest));
    } else {
      assert s[0] == line[0];
      assert s[1] == if |line| > 1 then line[1] else '\n';
      assert |line| > 1 ==> line[1] in line;
      assert s[..1] == line[..1] && s[1..] == line[1..] + ("\n" + rest);
      DropReturnsLine(line[1..], rest);
      assert StripReturn(line) == line[..1] + StripReturn(line[1..]);
      Assoc(line[..1], StripReturn(line[1..]), "\n" + DropCarriageReturns(rest));
    }
  }

  lemma DropReturnsNewline(rest: string)
    ensures DropCarriageReturns("\n" + rest) == "\n" + DropCarriageReturns(rest)
  {
    var s := "\n" + rest;
    assert s[..1] == "\n" && s[1..] == rest;
    if rest == "" {
      assert s == "\n";
    }
  }

  lemma {:induction false} DropReturnsLines(lines: seq<string>, rest: string)
    requires forall line :: line in lines ==> '\n' !in line
    ensures DropCarriageReturns(Ended(lines) + rest) == Ended(StripReturns(lines)) + DropCarriageReturns(rest)
    decreases |lines|
  {
    if lines == [] {
      Unit(rest);
      Unit(DropCarriageReturns(rest));
    } else {
      var line, tail := lines[0], lines[1..];
      assert line in lines;
      Assoc(line, "\n" + Ended(tail), rest);
      Assoc("\n", Ended(tail), rest);
      DropReturnsLine(line, Ended(tail) + rest);
      DropReturnsLines(tail, rest);
      var stripped := StripReturns(lines);
      assert stripped[1..] == StripReturns(tail);
      Assoc(StripReturn(line), "\n" + Ended(stripped[1..]), DropCarriageReturns(rest));
      Assoc("\n", Ended(stripped[1..]), DropCarriageReturns(rest));
    }
  }

  function StripEach(blocks: seq<seq<string>>): (r: seq<seq<string>>)
    ensures |r| == |blocks| && forall i :: 0 <= i < |r| ==> r[i] == StripReturns(blocks[i])
  {
    if blocks == [] then [] else [StripReturns(blocks[0])] + StripEach(blocks[1..])
  }

  predicate OneLine(text: string) {
    '\n' !in text
  }

  lemma {:induction false} DropReturnsBlocks(blocks: seq<seq<string>>)
    requires blocks != [] && forall i, j :: 0 <= i < |blocks| && 0 <= j < |blocks[i]| ==> OneLine(blocks[i][j])
    ensures DropCarriageReturns(EndedBlocks(blocks)) == EndedBlocks(StripEach(blocks))
  {
    var first := blocks[0];
    forall line | line in first
      ensures '\n' !in line
    {
      var j :| 0 <= j < |first| && first[j] == line;
      assert OneLine(blocks[0][j]);
    }
    if |blocks| == 1 {
      DropReturnsLines(first, "");
      Unit(Ended(first));
      Unit(Ended(StripReturns(first)));
    } else {
      var tail := blocks[1..];
      forall i, j | 0 <= i < |tail| && 0 <= j < |tail[i]|
        ensures OneLine(tail[i][j])
      {
        assert OneLine(blocks[i + 1][j]);
      }
      DropReturnsLines(first, "\n" + EndedBlocks(tail));
      DropReturnsNewline(EndedBlocks(tail));
      DropReturnsBlocks(tail);
      assert StripEach(blocks)[1..] == StripEach(tail);
    }
  }

  function FoldBlocks(file: PoFile, blocks: seq<seq<string>>): Result<PoFile, PoError>
    decreases |blocks|
  {
    if blocks == [] then Ok(file)
    else
      var next :- ReadBlock(file, blocks[0]);
      FoldBlocks(next, blocks[1..])
  }

  lemma ReadFirstBlock(file: PoFile, block: string, lines: seq<string>, rest: seq<string>)
    requires BlockLines(block) == lines
    ensures ReadBlocks(file, [block] + rest)
         == if ReadBlock(file, lines).Ok? then ReadBlocks(ReadBlock(file, lines).value, rest)
            else ReadBlock(file, lines)
  {
    var all := [block] + rest;
    assert all[0] == block && all[1..] == rest;
  }

  lemma StartsWithBlock(blocks: seq<seq<string>>)
    requires blocks != [] && blocks[0] != [] && AreLines(blocks[0])
    ensures EndedBlocks(blocks) != "" && !IsSpace(EndedBlocks(blocks)[0])
  {
    assert blocks[0][0] in blocks[0];
    StartsWithLine(blocks[0], "");
    if |blocks| == 1 {
      Unit(Ended(blocks[0]));
    } else {
      StartsWithLine(blocks[0], "\n" + EndedBlocks(blocks[1..]));
    }
  }

  /** Splitting printed blocks finds exactly the blocks that were printed. */
  lemma {:induction false} ReadEndedBlocks(file: PoFile, blocks: seq<seq<string>>)
    requires blocks != [] && forall i :: 0 <= i < |blocks| ==> blocks[i] != [] && AreLines(blocks[i])
    ensures ReadBlocks(file, SplitBlocks(EndedBlocks(blocks), "")) == FoldBlocks(file, blocks)
    decreases |blocks|
  {
    var lines := blocks[0];
    BlockLinesJoin(lines);
    if |blocks| == 1 {
      SplitBlocksLines(lines, "", "");
      Unit(Ended(lines));
      ReadFirstBlock(file, Ended(lines), lines, []);
      Unit([Ended(lines)]);
    } else {
      var tail := blocks[1..];
      var after := "\n" + EndedBlocks(tail);
      StartsWithBlock(tail);
      assert after[1..] == EndedBlocks(tail);
      SplitBlocksLines(lines, after, "");
      Unit(Join(lines, "\n"));
      ReadFirstBlock(file, Join(lines, "\n"), lines, SplitBlocks(EndedBlocks(tail), ""));
      var next := ReadBlock(file, lines);
      if next.Ok? {
        ReadEndedBlocks(next.value, tail);
      }
    }
  }

  // ----- reading the printed lines -----

  lemma Differs(line: string, prefix: string, i: nat)
    requires i < |line| && i < |prefix| && line[i] != prefix[i]
    ensures !StartsWith(line, prefix)
  {
  }

  lemma TrimSpaced(s: string)
    ensures Trim(" " + s) == Trim(s)
  {
    assert (" " + s)[1..] == s;
  }

  lemma ReadNoteLine(d: Draft, note: string)
    ensures ReadLine(d, "#. " + note) == Ok(d.(entry := d.entry.(notes := d.entry.notes + [Trim(note)])))
  {
    var line := "#. " + note;
    assert line[2..] == " " + note;
    TrimSpaced(note);
  }

  lemma FuzzyFlag()
    ensures SaysFuzzy(Split(" fuzzy", ','))
  {
    SplitNone(" fuzzy", ',');
    TrimSpaced("fuzzy");
    assert " fuzzy" == " " + "fuzzy";
    assert Trim("fuzzy") == "fuzzy";
    assert Trim(Split(" fuzzy", ',')[0]) == "fuzzy";
  }

  lemma ReadFuzzyLine(d: Draft)
    ensures ReadLine(d, "#, fuzzy") == Ok(d.(entry := d.entry.(fuzzy := true)))
  {
    var line := "#, fuzzy";
    Differs(line, "#.", 1);
    assert line[2..] == " fuzzy";
    FuzzyFlag();
  }

  lemma ReadPreviousLine(d: Draft, text: string)
    ensures ReadLine(d, "#| msgid " + Quote(text)) == Ok(d.(entry := d.entry.(previousEnglish := Some(text))))
  {
    var line := "#| msgid " + Quote(text);
    Differs(line, "#.", 1);
    Differs(line, "#,", 1);
    UnquoteQuote("#| msgid ", text, 8);
  }

  lemma ReadFieldLine(d: Draft, name: string, text: string)
    requires name in {"msgctxt ", "msgid ", "msgstr "}
    ensures ReadLine(d, name + Quote(text))
         == Ok(if name == "msgctxt " then Draft(d.entry.(key := text), Some(Key))
               else if name == "msgid " then Draft(d.entry.(english := text), Some(English))
               else Draft(d.entry.(translation := text), Some(Translation)))
  {
    var line := name + Quote(text);
    Differs(line, "#", 0);
    Differs(line, "#.", 0);
    Differs(line, "#,", 0);
    Differs(line, "#| msgid ", 0);
    if name != "msgctxt " {
      Differs(line, "msgctxt ", 3);
    }
    if name == "msgstr " {
      Differs(line, "msgid ", 3);
    }
    UnquoteQuote(name, text, |name| - 1);
  }

  lemma ReadMoreLine(d: Draft, text: string)
    requires d.field == Some(Translation)
    ensures ReadLine(d, Quote(text)) == Ok(d.(entry := d.entry.(translation := d.entry.translation + text)))
  {
    var line := Quote(text);
    Differs(line, "#", 0);
    Differs(line, "#.", 0);
    Differs(line, "#,", 0);
    Differs(line, "#| msgid ", 0);
    Differs(line, "msgctxt ", 0);
    Differs(line, "msgid ", 0);
    Differs(line, "msgstr ", 0);
    assert line[..1] == "\"";
    UnquoteQuote("", text, 0);
    Unit(line);
  }

  lemma ReadFirstLine(d: Draft, line: string, rest: seq<string>, next: Draft)
    requires ReadLine(d, line) == Ok(next)
    ensures ReadLines(d, [line] + rest) == ReadLines(next, rest)
  {
    var all := [line] + rest;
    assert all[0] == line && all[1..] == rest;
  }

  function TrimEach(notes: seq<string>): (r: seq<string>)
    ensures |r| == |notes| && forall i :: 0 <= i < |r| ==> r[i] == Trim(notes[i])
  {
    if notes == [] then [] else [Trim(notes[0])] + TrimEach(notes[1..])
  }

  lemma {:induction false} ReadNoteLines(d: Draft, notes: seq<string>, rest: seq<string>)
    ensures ReadLines(d, NoteLines(notes) + rest)
         == ReadLines(d.(entry := d.entry.(notes := d.entry.notes + TrimEach(notes))), rest)
    decreases |notes|
  {
    if notes == [] {
      Unit(rest);
      Unit(d.entry.notes);
    } else {
      var next := d.(entry := d.entry.(notes := d.entry.notes + [Trim(notes[0])]));
      var more := NoteLines(notes[1..]) + rest;
      Assoc(["#. " + notes[0]], NoteLines(notes[1..]), rest);
      ReadNoteLine(d, notes[0]);
      ReadFirstLine(d, "#. " + notes[0], more, next);
      ReadNoteLines(next, notes[1..], rest);
      Assoc(d.entry.notes, [Trim(notes[0])], TrimEach(notes[1..]));
    }
  }

  /** An entry as it comes back: notes trimmed, and the previous English only of a draft. */
  function Normalize(e: PoEntry): PoEntry {
    e.(notes := TrimEach(e.notes), previousEnglish := if e.fuzzy then e.previousEnglish else None)
  }

  function KeyLines(key: string, english: string, translation: string): seq<string> {
    ["msgctxt " + Quote(key)] + (["msgid " + Quote(english)] + ["msgstr " + Quote(translation)])
  }

  lemma ReadKeyLines(d: Draft, key: string, english: string, translation: string)
    ensures ReadLines(d, KeyLines(key, english, translation))
         == Ok(Draft(d.entry.(key := key, english := english, translation := translation), Some(Translation)))
  {
    var last := ["msgstr " + Quote(translation)];
    var two := ["msgid " + Quote(english)] + last;
    var d2 := Draft(d.entry.(key := key), Some(Key));
    var d3 := Draft(d2.entry.(english := english), Some(English));
    var d4 := Draft(d3.entry.(translation := translation), Some(Translation));
    ReadFieldLine(d, "msgctxt ", key);
    ReadFirstLine(d, "msgctxt " + Quote(key), two, d2);
    ReadFieldLine(d2, "msgid ", english);
    ReadFirstLine(d2, "msgid " + Quote(english), last, d3);
    ReadFieldLine(d3, "msgstr ", translation);
    ReadFirstLine(d3, "msgstr " + Quote(translation), [], d4);
    Unit(last);
  }

  lemma ReadFieldLines(d: Draft, e: PoEntry)
    requires d.entry == EMPTY_DRAFT.entry.(notes := TrimEach(e.notes))
    ensures ReadLines(d, FieldLines(e)) == Ok(Draft(Normalize(e), Some(Translation)))
  {
    var three := KeyLines(e.key, e.english, e.translation);
    var n := Normalize(e);
    var d1 := Draft(d.entry.(fuzzy := n.fuzzy, previousEnglish := n.previousEnglish), d.field);
    assert FieldLines(e) == (if e.fuzzy then ["#, fuzzy"] else [])
      + ((if e.fuzzy && e.previousEnglish.Some? then ["#| msgid " + Quote(e.previousEnglish.value)] else []) + three);
    assert ReadLines(d, FieldLines(e)) == ReadLines(d1, three) by {
      if e.fuzzy {
        ReadFuzzyLine(d);
        var df := d.(entry := d.entry.(fuzzy := true));
        if e.previousEnglish.Some? {
          ReadPreviousLine(df, e.previousEnglish.value);
          var line := "#| msgid " + Quote(e.previousEnglish.value);
          ReadFirstLine(d, "#, fuzzy", [line] + three, df);
          ReadFirstLine(df, line, three, d1);
        } else {
          ReadFirstLine(d, "#, fuzzy", three, df);
          Unit(three);
        }
      } else {
        Unit(three);
        assert FieldLines(e) == three;
      }
    }
    ReadKeyLines(d1, e.key, e.english, e.translation);
  }

  lemma ReadEntryLines(e: PoEntry)
    ensures ReadLines(EMPTY_DRAFT, EntryLines(e)) == Ok(Draft(Normalize(e), Some(Translation)))
  {
    ReadNoteLines(EMPTY_DRAFT, e.notes, FieldLines(e));
    Unit(TrimEach(e.notes));
    ReadFieldLines(EMPTY_DRAFT.(entry := EMPTY_DRAFT.entry.(notes := TrimEach(e.notes))), e);
  }

  // ----- carriage returns in notes -----

  lemma {:induction false} TrimReturn(s: string)
    ensures Trim(StripReturn(s)) == Trim(s)
  {
    if s != "" && s[|s| - 1] == '\r' {
      SkipSpaceAtEnd(s[..|s| - 1], '\r');
      assert s[..|s| - 1] + ['\r'] == s;
    }
  }

  lemma {:induction false} SkipSpaceAtEnd(s: string, c: char)
    requires IsSpace(c)
    ensures Trim(s + [c]) == Trim(s)
  {
    if s == "" {
      assert (s + [c])[1..] == "";
    } else if IsSpace(s[0]) {
      assert (s + [c])[1..] == s[1..] + [c];
      SkipSpaceAtEnd(s[1..], c);
    } else {
      assert (s + [c])[..|s|] == s;
    }
  }

  lemma {:induction false} EscapeOneLine(text: string)
    ensures '\n' !in EscapeText(text)
  {
    if text != "" {
      EscapeOneLine(text[1..]);
      assert '\n' !in EscapeChar(text[0]);
    }
  }

  /** A line that survives the removal of carriage returns as it is. */
  predicate PlainLine(line: string) {
    IsLine(line) && StripReturn(line) == line
  }

  predicate PlainLines(lines: seq<string>) {
    forall i :: 0 <= i < |lines| ==> PlainLine(lines[i])
  }

  lemma PlainConcat(a: seq<string>, b: seq<string>)
    requires PlainLines(a) && PlainLines(b)
    ensures PlainLines(a + b)
  {
  }

  lemma FieldLinePlain(name: string, text: string)
    requires name == "" || IsLine(name)
    ensures PlainLine(name + Quote(text))
  {
    QuoteText(text);
    EscapeOneLine(text);
    var line := name + Quote(text);
    assert line[|line| - 1] == '"';
    assert line[0] == if name == "" then '"' else name[0];
  }

  function WithNotes(e: PoEntry, notes: seq<string>): PoEntry {
    e.(notes := notes)
  }

  lemma {:induction false} StripNoteLines(notes: seq<string>)
    requires forall i :: 0 <= i < |notes| ==> OneLine(notes[i])
    ensures |NoteLines(notes)| == |notes|
    ensures forall i :: 0 <= i < |notes| ==>
      NoteLines(notes)[i] == "#. " + notes[i] && OneLine(NoteLines(notes)[i])
    ensures StripReturns(NoteLines(notes)) == NoteLines(StripReturns(notes))
  {
    if notes != [] {
      StripNoteLines(notes[1..]);
      var note := notes[0];
      assert note != "" ==> ("#. " + note)[..|note| + 2] == "#. " + note[..|note| - 1];
      assert StripReturn("#. " + note) == "#. " + StripReturn(note);
      assert NoteLines(notes)[1..] == NoteLines(notes[1..]);
    }
  }

  lemma {:induction false} StripConcat(a: seq<string>, b: seq<string>)
    ensures StripReturns(a + b) == StripReturns(a) + StripReturns(b)
  {
  }

  lemma FieldListPlain(fuzzy: seq<string>, previous: seq<string>, key: string, english: string, translation: string)
    requires PlainLines(fuzzy) && PlainLines(previous)
    requires PlainLine(key) && PlainLine(english) && PlainLine(translation)
    ensures PlainLines(fuzzy + previous + [key, english, translation])
  {
    PlainConcat(fuzzy, previous);
    PlainConcat(fuzzy + previous, [key, english, translation]);
  }

  lemma OnePlain(line: string)
    requires PlainLine(line)
    ensures PlainLines([line])
  {
  }

  lemma FuzzyPlain()
    ensures PlainLines(["#, fuzzy"])
  {
    assert PlainLine("#, fuzzy");
  }

  lemma FieldLinesPlain(e: PoEntry)
    ensures PlainLines(FieldLines(e))
  {
    var fuzzy := if e.fuzzy then ["#, fuzzy"] else [];
    FuzzyPlain();
    var previous :=
      if e.fuzzy && e.previousEnglish.Some? then ["#| msgid " + Quote(e.previousEnglish.value)] else [];
    if e.previousEnglish.Some? {
      FieldLinePlain("#| msgid ", e.previousEnglish.value);
      OnePlain("#| msgid " + Quote(e.previousEnglish.value));
    }
    FieldLinePlain("msgctxt ", e.key);
    FieldLinePlain("msgid ", e.english);
    FieldLinePlain("msgstr ", e.translation);
    FieldListPlain(fuzzy, previous, "msgctxt " + Quote(e.key), "msgid " + Quote(e.english), "msgstr " + Quote(e.translation));
  }

  predicate NotesOnOneLine(e: PoEntry) {
    forall i :: 0 <= i < |e.notes| ==> OneLine(e.notes[i])
  }

  lemma LinesOf(lines: seq<string>)
    requires forall i :: 0 <= i < |lines| ==> IsLine(lines[i])
    ensures AreLines(lines)
  {
  }

  lemma StripPlain(lines: seq<string>)
    requires PlainLines(lines)
    ensures StripReturns(lines) == lines
  {
    forall i | 0 <= i < |lines|
      ensures StripReturn(lines[i]) == lines[i]
    {
      assert PlainLine(lines[i]);
    }
  }

  lemma StrippedNotes(e: PoEntry)
    requires NotesOnOneLine(e)
    ensures NotesOnOneLine(WithNotes(e, StripReturns(e.notes)))
    ensures Normalize(WithNotes(e, StripReturns(e.notes))) == Normalize(e)
  {
    var stripped := StripReturns(e.notes);
    forall i | 0 <= i < |stripped|
      ensures OneLine(stripped[i]) && Trim(stripped[i]) == Trim(e.notes[i])
    {
      assert OneLine(e.notes[i]);
      TrimReturn(e.notes[i]);
    }
    assert TrimEach(stripped) == TrimEach(e.notes);
  }

  lemma EntryLinesShape(e: PoEntry)
    requires NotesOnOneLine(e)
    ensures StripReturns(EntryLines(e)) == EntryLines(WithNotes(e, StripReturns(e.notes)))
    ensures EntryLines(e) != [] && AreLines(EntryLines(e))
    ensures forall i :: 0 <= i < |EntryLines(e)| ==> OneLine(EntryLines(e)[i])
  {
    var notes, fields := NoteLines(e.notes), FieldLines(e);
    StripNoteLines(e.notes);
    FieldLinesPlain(e);
    StripConcat(notes, fields);
    StripPlain(fields);
    assert FieldLines(WithNotes(e, StripReturns(e.notes))) == fields;
    NotesThenFields(notes, fields);
    LinesOf(EntryLines(e));
  }

  lemma NotesThenFields(notes: seq<string>, fields: seq<string>)
    requires PlainLines(fields) && forall i :: 0 <= i < |notes| ==> IsLine(notes[i]) && OneLine(notes[i])
    ensures forall i :: 0 <= i < |notes + fields| ==> IsLine((notes + fields)[i]) && OneLine((notes + fields)[i])
  {
    forall i | 0 <= i < |notes + fields|
      ensures IsLine((notes + fields)[i]) && OneLine((notes + fields)[i])
    {
      if i >= |notes| {
        assert (notes + fields)[i] == fields[i - |notes|] && PlainLine(fields[i - |notes|]);
      }
    }
  }

  // ----- the header -----

  lemma {:induction false} NoLanguage(s: string, atLineStart: bool)
    requires 'L' !in s
    ensures FindLanguage(s, atLineStart) == None
  {
    if s != "" {
      assert s[0] != 'L';
      NoLanguage(s[1..], IsLineEnd(s[0]));
    }
  }

  predicate NothingToEscape(text: string) {
    forall i :: 0 <= i < |text| ==> text[i] !in {'\\', '"', '\n', '\t'}
  }

  lemma {:induction false} QuoteEnded(text: string)
    requires NothingToEscape(text)
    ensures EscapeText(text + "\n") == text + "\\n"
  {
    if text == "" {
      assert text + "\n" == "\n";
      assert "\n"[1..] == "";
    } else {
      assert (text + "\n")[1..] == text[1..] + "\n";
      QuoteEnded(text[1..]);
      assert [text[0]] + (text[1..] + "\\n") == text + "\\n";
    }
  }

  /** The fixed header lines are what `quote` makes of their texts. */
  lemma FixedLineQuoted(text: string)
    requires NothingToEscape(text)
    ensures FixedLine(text) == Quote(text + "\n")
  {
    QuoteEnded(text);
    QuoteText(text + "\n");
  }

  lemma FixedTexts()
    ensures NothingToEscape(MimeVersion())
    ensures NothingToEscape(ContentType())
    ensures NothingToEscape(Encoding())
  {
  }

  function HeaderEnd(): string {
    (MimeVersion() + "\n") + (ContentType() + "\n") + (Encoding() + "\n")
  }

  lemma MimeVersionNoLanguage()
    ensures 'L' !in MimeVersion()
  {
  }

  lemma ContentTypeNoLanguage()
    ensures 'L' !in ContentType()
  {
  }

  lemma EncodingNoLanguage()
    ensures 'L' !in Encoding()
  {
  }

  lemma NotInJoined(c: char, a: string, b: string)
    requires c !in a && c !in b
    ensures c !in a + b
  {
  }

  lemma HeaderEndNoLanguage()
    ensures 'L' !in HeaderEnd()
  {
    MimeVersionNoLanguage();
    ContentTypeNoLanguage();
    EncodingNoLanguage();
    var a, b, c := MimeVersion(), ContentType(), Encoding();
    NotInJoined('L', a, "\n");
    NotInJoined('L', b, "\n");
    NotInJoined('L', c, "\n");
    NotInJoined('L', b + "\n", c + "\n");
    NotInJoined('L', a + "\n", (b + "\n") + (c + "\n"));
  }

  /** The language a printed header reads back as. */
  function HeaderLanguage(language: string): string {
    var found := FindLanguage(LanguageField(language) + HeaderEnd(), true);
    if found.Some? then found.value else ""
  }

  predicate NoSpace(s: string) {
    forall i :: 0 <= i < |s| ==> !IsSpace(s[i])
  }

  lemma {:induction false} NonSpaceLengthOf(name: string, rest: string)
    requires NoSpace(name) && rest != "" && IsSpace(rest[0])
    ensures NonSpaceLength(name + rest) == |name|
  {
    if name == "" {
      Unit(rest);
    } else {
      assert (name + rest)[1..] == name[1..] + rest;
      NonSpaceLengthOf(name[1..], rest);
    }
  }

  lemma LanguageFieldText(language: string, tail: string)
    ensures var s := LanguageField(language) + tail;
            && StartsWith(s, "Language:")
            && s[9..] == " " + (language + ("\n" + tail))
  {
    var s := LanguageField(language) + tail;
    assert s[..9] == "Language:";
  }

  lemma LanguageAt(s: string, t: string)
    requires StartsWith(s, "Language:") && s[9..] == " " + t && t != "" && t[0] != ' '
    ensures var n := NonSpaceLength(t);
            LanguageHere(s) == if n > 0 && (n == |t| || IsLineEnd(t[n])) then Some(t[..n]) else None
  {
    assert s[9..][1..] == t;
    assert SkipBlanks(t) == t;
    assert SkipBlanks(s[9..]) == t;
  }

  lemma EmptyLanguage(tail: string)
    requires 'L' !in tail
    ensures FindLanguage(LanguageField("") + tail, true) == None
  {
    var s := LanguageField("") + tail;
    LanguageFieldText("", tail);
    Unit("\n" + tail);
    LanguageAt(s, "\n" + tail);
    NoMoreLanguage(s[1..], tail);
  }

  lemma NoMoreLanguage(rest: string, tail: string)
    requires 'L' !in tail && rest == (LanguageField("") + tail)[1..]
    ensures FindLanguage(rest, false) == None
  {
    var middle := "anguage: " + "" + "\n";
    assert 'L' !in middle;
    assert rest == middle + tail;
    NoLanguage(rest, false);
  }

  lemma FoundLanguage(language: string, tail: string)
    requires language != "" && NoSpace(language)
    ensures FindLanguage(LanguageField(language) + tail, true) == Some(language)
  {
    var after := "\n" + tail;
    var t := language + after;
    LanguageFieldText(language, tail);
    assert t[0] == language[0] && !IsSpace(language[0]);
    LanguageAt(LanguageField(language) + tail, t);
    NonSpaceLengthOf(language, after);
    assert t[..|language|] == language && t[|language|] == '\n';
  }

  /** The header keeps a language exactly when it has no white space in it. */
  lemma HeaderKeepsLanguage(language: string)
    ensures HeaderLanguage(language) == language <==> NoSpace(language)
  {
    if language == "" {
      HeaderEndNoLanguage();
      EmptyLanguage(HeaderEnd());
    } else if NoSpace(language) {
      FoundLanguage(language, HeaderEnd());
    }
  }

  lemma ReadTwoLines(rest: seq<string>)
    ensures ReadLines(EMPTY_DRAFT, ["msgid \"\"", "msgstr \"\""] + rest)
         == ReadLines(EMPTY_DRAFT.(field := Some(Translation)), rest)
  {
    var d0 := EMPTY_DRAFT;
    var d1 := d0.(field := Some(English));
    var first, second := "msgid \"\"", "msgstr \"\"";
    QuoteText("");
    assert "msgid " + Quote("") == first && "msgstr " + Quote("") == second;
    ReadFieldLine(d0, "msgid ", "");
    ReadFieldLine(d1, "msgstr ", "");
    assert [first, second] + rest == [first] + ([second] + rest);
    ReadFirstLine(d0, first, [second] + rest, d1);
    ReadFirstLine(d1, second, rest, d0.(field := Some(Translation)));
  }

  lemma ReadHeaderLines(language: string)
    ensures ReadLines(EMPTY_DRAFT, HeaderLines(language))
         == Ok(Draft(EMPTY_DRAFT.entry.(translation := LanguageField(language) + HeaderEnd()), Some(Translation)))
  {
    FixedTexts();
    ReadHeaderTexts(LanguageField(language), MimeVersion(), ContentType(), Encoding());
  }

  lemma ReadHeaderTexts(t1: string, t2: string, t3: string, t4: string)
    requires NothingToEscape(t2) && NothingToEscape(t3) && NothingToEscape(t4)
    ensures ReadLines(EMPTY_DRAFT,
                      ["msgid \"\"", "msgstr \"\""] + [Quote(t1), FixedLine(t2), FixedLine(t3), FixedLine(t4)])
         == Ok(Draft(EMPTY_DRAFT.entry.(translation := t1 + ((t2 + "\n") + (t3 + "\n") + (t4 + "\n"))), Some(Translation)))
  {
    var d := EMPTY_DRAFT.(field := Some(Translation));
    FixedLineQuoted(t2);
    FixedLineQuoted(t3);
    FixedLineQuoted(t4);
    var lines := [Quote(t1), FixedLine(t2), FixedLine(t3), FixedLine(t4)];
    ReadTwoLines(lines);
    ReadFourLines(d, t1, t2 + "\n", t3 + "\n", t4 + "\n");
    assert [Quote(t1)] + ([FixedLine(t2)] + ([FixedLine(t3)] + [FixedLine(t4)])) == lines;
    Unit(t1);
    Assoc(t1, t2 + "\n", t3 + "\n");
    Assoc(t1, (t2 + "\n") + (t3 + "\n"), t4 + "\n");
  }

  lemma ReadFourLines(d: Draft, t1: string, t2: string, t3: string, t4: string)
    requires d.field == Some(Translation)
    ensures ReadLines(d, [Quote(t1)] + ([Quote(t2)] + ([Quote(t3)] + [Quote(t4)])))
         == Ok(d.(entry := d.entry.(translation := d.entry.translation + t1 + t2 + t3 + t4)))
  {
    var l4 := [Quote(t4)];
    var l3 := [Quote(t3)] + l4;
    var d1 := d.(entry := d.entry.(translation := d.entry.translation + t1));
    var d2 := d.(entry := d.entry.(translation := d.entry.translation + t1 + t2));
    var d3 := d.(entry := d.entry.(translation := d.entry.translation + t1 + t2 + t3));
    var d4 := d.(entry := d.entry.(translation := d.entry.translation + t1 + t2 + t3 + t4));
    ReadMoreLine(d, t1);
    ReadMoreLine(d1, t2);
    ReadMoreLine(d2, t3);
    ReadMoreLine(d3, t4);
    ReadFirstLine(d, Quote(t1), [Quote(t2)] + l3, d1);
    ReadFirstLine(d1, Quote(t2), l3, d2);
    ReadFirstLine(d2, Quote(t3), l4, d3);
    ReadFirstLine(d3, Quote(t4), [], d4);
    Unit(l4);
  }

  lemma HeaderStartPlain()
    ensures PlainLines(["msgid \"\"", "msgstr \"\""])
  {
    QuoteText("");
    FieldLinePlain("msgid ", "");
    FieldLinePlain("msgstr ", "");
    assert "msgid " + Quote("") == "msgid \"\"" && "msgstr " + Quote("") == "msgstr \"\"";
  }

  lemma FixedLinePlain(text: string)
    requires OneLine(text)
    ensures PlainLine(FixedLine(text))
  {
    var line := FixedLine(text);
    assert line[0] == '"' && line[|line| - 1] == '"';
  }

  lemma HeaderPlain(t1: string, t2: string, t3: string, t4: string)
    requires OneLine(t2) && OneLine(t3) && OneLine(t4)
    ensures PlainLines(["msgid \"\"", "msgstr \"\""] + [Quote(t1), FixedLine(t2), FixedLine(t3), FixedLine(t4)])
  {
    HeaderStartPlain();
    FieldLinePlain("", t1);
    Unit(Quote(t1));
    FixedLinePlain(t2);
    FixedLinePlain(t3);
    FixedLinePlain(t4);
    PlainConcat(["msgid \"\"", "msgstr \"\""], [Quote(t1), FixedLine(t2), FixedLine(t3), FixedLine(t4)]);
  }

  lemma HeaderLinesPlain(language: string)
    ensures PlainLines(HeaderLines(language)) && HeaderLines(language) != []
  {
    HeaderPlain(LanguageField(language), MimeVersion(), ContentType(), Encoding());
  }

  // ----- whole files -----

  function EntriesLines(entries: seq<PoEntry>): (r: seq<seq<string>>)
    ensures |r| == |entries| && forall i :: 0 <= i < |r| ==> r[i] == EntryLines(entries[i])
  {
    if entries == [] then [] else [EntryLines(entries[0])] + EntriesLines(entries[1..])
  }

  function FileLines(header: seq<string>, entries: seq<PoEntry>): seq<seq<string>> {
    [header] + EntriesLines(entries)
  }

  lemma {:induction false} EntryBlocksJoin(entries: seq<PoEntry>)
    ensures EntryBlocks(entries) == JoinEach(EntriesLines(entries))
  {
    if entries != [] {
      EntryBlocksJoin(entries[1..]);
      assert EntriesLines(entries)[1..] == EntriesLines(entries[1..]);
    }
  }

  lemma FormatLines(header: seq<string>, entries: seq<PoEntry>)
    requires header != []
    ensures FormatBlocks(header, entries) == EndedBlocks(FileLines(header, entries))
  {
    EntryBlocksJoin(entries);
    var lines := FileLines(header, entries);
    assert lines[1..] == EntriesLines(entries);
    forall i | 0 <= i < |lines|
      ensures lines[i] != []
    {
      if i > 0 {
        assert lines[i] == EntryLines(entries[i - 1]);
        assert |FieldLines(entries[i - 1])| >= 3;
      }
    }
    EndedBlocksJoin(lines);
  }

  predicate NotesOnOneLineEach(entries: seq<PoEntry>) {
    forall i :: 0 <= i < |entries| ==> NotesOnOneLine(entries[i])
  }

  function NormalizeEach(entries: seq<PoEntry>): (r: seq<PoEntry>)
    ensures |r| == |entries| && forall i :: 0 <= i < |r| ==> r[i] == Normalize(entries[i])
  {
    if entries == [] then [] else [Normalize(entries[0])] + NormalizeEach(entries[1..])
  }

  function StripNotesEach(entries: seq<PoEntry>): (r: seq<PoEntry>)
    ensures |r| == |entries|
    ensures forall i :: 0 <= i < |r| ==> r[i] == WithNotes(entries[i], StripReturns(entries[i].notes))
  {
    if entries == [] then []
    else [WithNotes(entries[0], StripReturns(entries[0].notes))] + StripNotesEach(entries[1..])
  }

  function AddEntries(file: PoFile, entries: seq<PoEntry>): Result<PoFile, PoError>
    decreases |entries|
  {
    if entries == [] then Ok(file)
    else
      var next :- AddEntry(file, entries[0]);
      AddEntries(next, entries[1..])
  }

  lemma {:induction false} FoldEntries(file: PoFile, entries: seq<PoEntry>)
    ensures FoldBlocks(file, EntriesLines(entries)) == AddEntries(file, NormalizeEach(entries))
    decreases |entries|
  {
    if entries != [] {
      ReadEntryLines(entries[0]);
      assert |FieldLines(entries[0])| >= 3;
      assert EntriesLines(entries)[1..] == EntriesLines(entries[1..]);
      assert NormalizeEach(entries)[1..] == NormalizeEach(entries[1..]);
      var next := AddEntry(file, Normalize(entries[0]));
      if next.Ok? {
        FoldEntries(next.value, entries[1..]);
      }
    }
  }

  lemma StripEntries(entries: seq<PoEntry>)
    requires NotesOnOneLineEach(entries)
    ensures var stripped := StripNotesEach(entries);
            && NotesOnOneLineEach(stripped)
            && NormalizeEach(stripped) == NormalizeEach(entries)
            && forall i :: 0 <= i < |entries| ==> EntryLines(stripped[i]) == StripReturns(EntryLines(entries[i]))
  {
    var stripped := StripNotesEach(entries);
    forall i | 0 <= i < |stripped|
      ensures EntryLines(stripped[i]) == StripReturns(EntryLines(entries[i]))
      ensures Normalize(stripped[i]) == Normalize(entries[i])
      ensures NotesOnOneLine(stripped[i])
    {
      EntryLinesShape(entries[i]);
      StrippedNotes(entries[i]);
    }
    assert NormalizeEach(stripped) == NormalizeEach(entries);
  }

  lemma StripFileLines(header: seq<string>, entries: seq<PoEntry>)
    requires NotesOnOneLineEach(entries) && PlainLines(header)
    ensures StripEach(FileLines(header, entries)) == FileLines(header, StripNotesEach(entries))
  {
    StripEntries(entries);
    StripPlain(header);
    var lines := FileLines(header, entries);
    var a, b := StripEach(lines), FileLines(header, StripNotesEach(entries));
    forall i | 0 <= i < |a|
      ensures a[i] == b[i]
    {
      assert a[i] == StripReturns(lines[i]);
      if i > 0 {
        assert lines[i] == EntryLines(entries[i - 1]);
        assert b[i] == EntryLines(StripNotesEach(entries)[i - 1]);
      }
    }
  }

  predicate BlocksOfLines(blocks: seq<seq<string>>) {
    forall i :: 0 <= i < |blocks| ==> blocks[i] != [] && AreLines(blocks[i])
  }

  lemma FileLinesShape(header: seq<string>, entries: seq<PoEntry>)
    requires NotesOnOneLineEach(entries) && PlainLines(header) && header != []
    ensures BlocksOfLines(FileLines(header, entries))
  {
    var lines := FileLines(header, entries);
    forall i | 0 <= i < |header|
      ensures IsLine(header[i])
    {
      assert PlainLine(header[i]);
    }
    LinesOf(header);
    forall i | 0 < i < |lines|
      ensures lines[i] != [] && AreLines(lines[i])
    {
      EntryLinesShape(entries[i - 1]);
    }
  }

  lemma OneLineBlocks(blocks: seq<seq<string>>)
    requires BlocksOfLines(blocks)
    ensures forall i, j :: 0 <= i < |blocks| && 0 <= j < |blocks[i]| ==> OneLine(blocks[i][j])
  {
    forall i, j | 0 <= i < |blocks| && 0 <= j < |blocks[i]|
      ensures OneLine(blocks[i][j])
    {
      assert blocks[i][j] in blocks[i] && IsLine(blocks[i][j]);
    }
  }

  lemma ReadFormatted(header: seq<string>, entries: seq<PoEntry>, start: PoFile, next: PoFile)
    requires NotesOnOneLineEach(entries) && PlainLines(header) && header != []
    requires ReadBlock(start, header) == Ok(next)
    ensures ReadBlocks(start, SplitBlocks(DropCarriageReturns(FormatBlocks(header, entries)), ""))
         == AddEntries(next, NormalizeEach(entries))
  {
    var stripped := StripNotesEach(entries);
    FormatLines(header, entries);
    FileLinesShape(header, entries);
    OneLineBlocks(FileLines(header, entries));
    DropReturnsBlocks(FileLines(header, entries));
    StripFileLines(header, entries);
    StripEntries(entries);
    FileLinesShape(header, stripped);
    ReadEndedBlocks(start, FileLines(header, stripped));
    assert FileLines(header, stripped)[1..] == EntriesLines(stripped);
    FoldEntries(next, stripped);
  }

  /** What comes back from a printed file whose notes stay on one line each. */
  lemma ParseFormat(file: PoFile)
    requires NotesOnOneLineEach(file.entries)
    ensures ParsePo(FormatPo(file))
         == AddEntries(PoFile(HeaderLanguage(file.language), []), NormalizeEach(file.entries))
  {
    var header := HeaderLines(file.language);
    HeaderLinesPlain(file.language);
    ReadHeaderLines(file.language);
    ReadFormatted(header, file.entries, PoFile("", []), PoFile(HeaderLanguage(file.language), []));
  }

  /** An entry in its file: the English it was once made from, and no `#, fuzzy` in front. */
  function StaleLines(e: PoEntry): seq<string>
    requires e.previousEnglish.Some?
  {
    ["#| msgid " + Quote(e.previousEnglish.value)] + KeyLines(e.key, e.english, e.translation)
  }

  lemma StaleLinesPlain(e: PoEntry)
    requires e.previousEnglish.Some?
    ensures PlainLines(StaleLines(e))
  {
    FieldLinePlain("#| msgid ", e.previousEnglish.value);
    OnePlain("#| msgid " + Quote(e.previousEnglish.value));
    FieldLinePlain("msgctxt ", e.key);
    OnePlain("msgctxt " + Quote(e.key));
    FieldLinePlain("msgid ", e.english);
    OnePlain("msgid " + Quote(e.english));
    FieldLinePlain("msgstr ", e.translation);
    OnePlain("msgstr " + Quote(e.translation));
    PlainConcat(["msgid " + Quote(e.english)], ["msgstr " + Quote(e.translation)]);
    PlainConcat(["msgctxt " + Quote(e.key)], ["msgid " + Quote(e.english)] + ["msgstr " + Quote(e.translation)]);
    PlainConcat(["#| msgid " + Quote(e.previousEnglish.value)], KeyLines(e.key, e.english, e.translation));
  }

  /** A file can hold an entry that is no draft and still carries any previous English at all. */
  lemma StaleEntryIsReadable(e: PoEntry)
    requires e.key != "" && e.notes == [] && !e.fuzzy && e.previousEnglish.Some?
    ensures ParsePo(FormatBlocks(StaleLines(e), [])) == Ok(PoFile("", [e]))
  {
    var lines, line := StaleLines(e), "#| msgid " + Quote(e.previousEnglish.value);
    var d := EMPTY_DRAFT.(entry := EMPTY_DRAFT.entry.(previousEnglish := e.previousEnglish));
    StaleLinesPlain(e);
    ReadPreviousLine(EMPTY_DRAFT, e.previousEnglish.value);
    ReadFirstLine(EMPTY_DRAFT, line, KeyLines(e.key, e.english, e.translation), d);
    ReadKeyLines(d, e.key, e.english, e.translation);
    Unit([e]);
    ReadFormatted(lines, [], PoFile("", []), PoFile("", [e]));
  }

  lemma {:induction false} AddKeyed(file: PoFile, entries: seq<PoEntry>)
    requires forall i :: 0 <= i < |entries| ==> entries[i].key != ""
    ensures AddEntries(file, entries) == Ok(file.(entries := file.entries + entries))
    decreases |entries|
  {
    if entries == [] {
      Unit(file.entries);
    } else {
      AddKeyed(file.(entries := file.entries + [entries[0]]), entries[1..]);
      assert file.entries + [entries[0]] + entries[1..] == file.entries + entries;
    }
  }

  // ----- exactly which files survive -----

  /** What every entry the parser returns satisfies. */
  predicate ReadableEntry(e: PoEntry) {
    e.key != "" && forall i :: 0 <= i < |e.notes| ==> OneLine(e.notes[i]) && Trim(e.notes[i]) == e.notes[i]
  }

  predicate RoundTrips(file: PoFile) {
    && NoSpace(file.language)
    && forall i :: 0 <= i < |file.entries| ==>
         ReadableEntry(file.entries[i]) && KeepsPrevious(file.entries[i])
  }

  lemma {:induction false} SkipSpaceSuffix(s: string)
    ensures SkipSpace(s) == s[|s| - |SkipSpace(s)|..]
  {
    if s != "" && IsSpace(s[0]) {
      SkipSpaceSuffix(s[1..]);
    }
  }

  lemma TrimIdempotent(s: string)
    ensures Trim(Trim(s)) == Trim(s)
  {
    var t := SkipSpace(s);
    var u := DropSpaceAtEnd(t);
    if u != "" {
      assert u[0] == t[0];
    }
  }

  lemma TrimOneLine(s: string)
    requires OneLine(s)
    ensures OneLine(Trim(s))
  {
    SkipSpaceSuffix(s);
    var t := SkipSpace(s);
    forall c | c in Trim(s)
      ensures c in s
    {
      assert c in t;
    }
  }

  predicate TidyNotes(notes: seq<string>) {
    forall i :: 0 <= i < |notes| ==> OneLine(notes[i]) && Trim(notes[i]) == notes[i]
  }

  lemma {:induction false} ReadLinesNotes(d: Draft, lines: seq<string>)
    requires TidyNotes(d.entry.notes) && forall i :: 0 <= i < |lines| ==> OneLine(lines[i])
    ensures ReadLines(d, lines).Ok? ==> TidyNotes(ReadLines(d, lines).value.entry.notes)
    decreases |lines|
  {
    if lines != [] {
      var line := lines[0];
      assert OneLine(lines[0]);
      if StartsWith(line, "#.") {
        TrimIdempotent(line[2..]);
        TrimOneLine(line[2..]);
      }
      var next := ReadLine(d, line);
      if next.Ok? {
        ReadLinesNotes(next.value, lines[1..]);
      }
    }
  }

  lemma {:induction false} KeepNonBlankOneLine(lines: seq<string>)
    requires forall i :: 0 <= i < |lines| ==> OneLine(lines[i])
    ensures forall i :: 0 <= i < |KeepNonBlank(lines)| ==> OneLine(KeepNonBlank(lines)[i])
  {
    if lines != [] {
      KeepNonBlankOneLine(lines[1..]);
    }
  }

  predicate ReadableFile(file: PoFile) {
    NoSpace(file.language) && forall i :: 0 <= i < |file.entries| ==> ReadableEntry(file.entries[i])
  }

  lemma {:induction false} ReadBlocksReadable(file: PoFile, blocks: seq<string>)
    requires ReadableFile(file)
    ensures ReadBlocks(file, blocks).Ok? ==> ReadableFile(ReadBlocks(file, blocks).value)
    decreases |blocks|
  {
    if blocks != [] {
      var lines := BlockLines(blocks[0]);
      forall i | 0 <= i < |Split(blocks[0], '\n')|
        ensures OneLine(Split(blocks[0], '\n')[i])
      {
        assert Split(blocks[0], '\n')[i] in Split(blocks[0], '\n');
      }
      KeepNonBlankOneLine(Split(blocks[0], '\n'));
      ReadLinesNotes(EMPTY_DRAFT, lines);
      var next := ReadBlock(file, lines);
      if next.Ok? {
        ReadBlocksReadable(next.value, blocks[1..]);
      }
    }
  }

  /** Every parsed file has non-empty keys, tidy notes and a language without white space. */
  lemma ParsedIsReadable(source: string)
    ensures ParsePo(source).Ok? ==> ReadableFile(ParsePo(source).value)
  {
    ReadBlocksReadable(PoFile("", []), SplitBlocks(DropCarriageReturns(source), ""));
  }

  lemma {:induction false} NormalizeTidy(entries: seq<PoEntry>)
    requires forall i :: 0 <= i < |entries| ==> TidyNotes(entries[i].notes)
    ensures forall i :: 0 <= i < |entries| ==>
      NormalizeEach(entries)[i] == entries[i].(previousEnglish :=
        if entries[i].fuzzy then entries[i].previousEnglish else None)
  {
    forall i | 0 <= i < |entries|
      ensures TrimEach(entries[i].notes) == entries[i].notes
    {
      assert TidyNotes(entries[i].notes);
    }
  }

  lemma NormalizeReadable(file: PoFile)
    requires ReadableFile(file)
    ensures NotesOnOneLineEach(file.entries)
    ensures forall i :: 0 <= i < |file.entries| ==> NormalizeEach(file.entries)[i].key != ""
    ensures forall i :: 0 <= i < |file.entries| ==>
      NormalizeEach(file.entries)[i] == file.entries[i].(previousEnglish :=
        if file.entries[i].fuzzy then file.entries[i].previousEnglish else None)
  {
    forall i | 0 <= i < |file.entries|
      ensures TidyNotes(file.entries[i].notes) && NotesOnOneLine(file.entries[i]) && file.entries[i].key != ""
    {
      assert ReadableEntry(file.entries[i]);
    }
    NormalizeTidy(file.entries);
  }

  lemma AddNormal(file: PoFile, entries: seq<PoEntry>)
    requires file.entries == [] && forall i :: 0 <= i < |entries| ==> entries[i].key != ""
    ensures AddEntries(file, entries) == Ok(PoFile(file.language, entries))
  {
    AddKeyed(file, entries);
    Unit(entries);
  }

  /** `read` stands for what came back, `language` for the language found in the header. */
  lemma RoundTripOfReadable(file: PoFile, read: Result<PoFile, PoError>, language: string)
    requires ReadableFile(file) && (language == file.language <==> NoSpace(file.language))
    requires read == AddEntries(PoFile(language, []), NormalizeEach(file.entries))
    ensures read == Ok(file) <==> RoundTrips(file)
  {
    NormalizeReadable(file);
    AddNormal(PoFile(language, []), NormalizeEach(file.entries));
    RoundTripReadable(file.entries, NormalizeEach(file.entries));
  }

  lemma RoundTripOf(file: PoFile, text: string, read: Result<PoFile, PoError>, language: string)
    requires read == ParsePo(text)
    requires NotesOnOneLineEach(file.entries) ==>
      read == AddEntries(PoFile(language, []), NormalizeEach(file.entries))
    requires language == file.language <==> NoSpace(file.language)
    ensures read == Ok(file) <==> RoundTrips(file)
  {
    if ReadableFile(file) {
      NormalizeReadable(file);
      RoundTripOfReadable(file, read, language);
    } else {
      ParsedIsReadable(text);
    }
  }

  /** A file comes back from disk as it was exactly when it satisfies `RoundTrips`. */
  lemma RoundTrip(file: PoFile)
    ensures ParsePo(FormatPo(file)) == Ok(file) <==> RoundTrips(file)
  {
    if NotesOnOneLineEach(file.entries) {
      ParseFormat(file);
    }
    HeaderKeepsLanguage(file.language);
    RoundTripOf(file, FormatPo(file), ParsePo(FormatPo(file)), HeaderLanguage(file.language));
  }

  predicate KeepsPrevious(e: PoEntry) {
    !e.fuzzy ==> e.previousEnglish == None
  }

  lemma RoundTripReadable(entries: seq<PoEntry>, normal: seq<PoEntry>)
    requires |normal| == |entries|
    requires forall i :: 0 <= i < |entries| ==>
      normal[i] == entries[i].(previousEnglish := if entries[i].fuzzy then entries[i].previousEnglish else None)
    ensures normal == entries <==> forall i :: 0 <= i < |entries| ==> KeepsPrevious(entries[i])
  {
    if normal == entries {
      forall i | 0 <= i < |entries|
        ensures KeepsPrevious(entries[i])
      {
        assert normal[i] == entries[i];
      }
    } else if forall i :: 0 <= i < |entries| ==> KeepsPrevious(entries[i]) {
      forall i | 0 <= i < |entries|
        ensures normal[i] == entries[i]
      {
        assert KeepsPrevious(entries[i]);
      }
    }
  }
}
