/** What repeated syncing does to a catalog and to the provenance of its drafts. */
module CatalogProofs {
  import opened Outcome
  import opened Numbers
  import opened Po
  import opened PoProofs
  import opened Sequences
  import opened Catalog

  // ----- the English source -----

  /** The keys of an object: all different. */
  predicate DistinctKeys(sources: Sources) {
    forall i, j :: 0 <= i < j < |sources| ==> sources[i].0 != sources[j].0
  }

  predicate NotesFit(sources: Sources) {
    forall i :: 0 <= i < |sources| ==> OneLine(sources[i].1.note)
  }

  /** An empty key is either absent or has an empty text. */
  predicate KeysReadBack(sources: Sources) {
    forall i :: 0 <= i < |sources| ==> sources[i].0 == "" ==> sources[i].1.text == ""
  }

  predicate KeysFilled(sources: Sources) {
    forall i :: 0 <= i < |sources| ==> sources[i].0 != ""
  }

  // The same of what the entries take from it.

  predicate Distinct(wants: seq<Wanted>) {
    forall i, j :: 0 <= i < j < |wants| ==> wants[i].key != wants[j].key
  }

  predicate Fit(wants: seq<Wanted>) {
    forall i, j :: 0 <= i < |wants| && 0 <= j < |wants[i].notes| ==> OneLine(wants[i].notes[j])
  }

  predicate ReadBack(wants: seq<Wanted>) {
    forall i :: 0 <= i < |wants| ==> wants[i].key == "" ==> wants[i].text == ""
  }

  predicate Filled(wants: seq<Wanted>) {
    forall i :: 0 <= i < |wants| ==> wants[i].key != ""
  }

  lemma WantsShape(sources: Sources)
    ensures DistinctKeys(sources) ==> Distinct(Wants(sources))
    ensures NotesFit(sources) ==> Fit(Wants(sources))
    ensures KeysReadBack(sources) <==> ReadBack(Wants(sources))
    ensures KeysFilled(sources) ==> Filled(Wants(sources))
  {
    var wants := Wants(sources);
    forall i | 0 <= i < |sources|
      ensures wants[i].key == sources[i].0 && wants[i].text == sources[i].1.text
      ensures NotesFit(sources) ==> forall j :: 0 <= j < |wants[i].notes| ==> OneLine(wants[i].notes[j])
    {
      WantAt(sources, i);
      if NotesFit(sources) {
        NotesOneLine(sources[i].1);
      }
    }
  }

  lemma {:induction false} DigitsOneLine(n: nat)
    ensures OneLine(Digits(n))
  {
    if n >= 10 {
      DigitsOneLine(n / 10);
    }
  }

  lemma NotesOneLine(source: Source)
    requires OneLine(source.note)
    ensures forall i :: 0 <= i < |Notes(source)| ==> OneLine(Notes(source)[i])
  {
    if source.max.Some? {
      DigitsOneLine(source.max.value);
      assert OneLine("Max ") && OneLine(" characters.");
    }
  }

  lemma SyncNotes(wants: seq<Wanted>, existing: seq<PoEntry>)
    requires Fit(wants)
    ensures NotesOnOneLineEach(SyncEntries(wants, existing))
  {
    var entries := SyncEntries(wants, existing);
    forall i | 0 <= i < |entries|
      ensures NotesOnOneLine(entries[i])
    {
      assert entries[i].notes == wants[i].notes;
    }
  }

  // ----- looking entries up -----

  predicate DistinctEntries(entries: seq<PoEntry>) {
    forall i, j :: 0 <= i < j < |entries| ==> entries[i].key != entries[j].key
  }

  lemma {:induction false} LookupMissing(entries: seq<PoEntry>, key: string)
    requires forall i :: 0 <= i < |entries| ==> entries[i].key != key
    ensures Lookup(entries, key) == None
  {
    if entries != [] {
      LookupMissing(entries[..|entries| - 1], key);
    }
  }

  lemma {:induction false} LookupAt(entries: seq<PoEntry>, i: nat)
    requires i < |entries| && DistinctEntries(entries)
    ensures Lookup(entries, entries[i].key) == Some(entries[i])
  {
    if i < |entries| - 1 {
      assert entries[i].key != entries[|entries| - 1].key;
      LookupAt(entries[..|entries| - 1], i);
    }
  }

  /** The entries that have a key. */
  function Keyed(entries: seq<PoEntry>): seq<PoEntry> {
    if entries == [] then []
    else (if entries[0].key == "" then [] else [entries[0]]) + Keyed(entries[1..])
  }

  lemma {:induction false} KeyedAll(entries: seq<PoEntry>)
    requires forall i :: 0 <= i < |entries| ==> entries[i].key != ""
    ensures Keyed(entries) == entries
  {
    if entries != [] {
      KeyedAll(entries[1..]);
      assert [entries[0]] + entries[1..] == entries;
    }
  }

  lemma {:induction false} KeyedMembers(entries: seq<PoEntry>)
    ensures forall e :: e in Keyed(entries) <==> e in entries && e.key != ""
    ensures forall i :: 0 <= i < |Keyed(entries)| ==> Keyed(entries)[i].key != ""
  {
    if entries != [] {
      KeyedMembers(entries[1..]);
    }
  }

  lemma {:induction false} KeyedDistinct(entries: seq<PoEntry>)
    requires DistinctEntries(entries)
    ensures DistinctEntries(Keyed(entries))
  {
    if entries != [] {
      var rest := Keyed(entries[1..]);
      KeyedDistinct(entries[1..]);
      KeyedMembers(entries[1..]);
      forall j | 0 <= j < |rest|
        ensures entries[0].key != rest[j].key
      {
        assert rest[j] in rest;
        var k :| 0 <= k < |entries[1..]| && entries[1..][k] == rest[j];
        assert entries[k + 1] == rest[j];
      }
    }
  }

  lemma LookupKeyed(entries: seq<PoEntry>, i: nat)
    requires i < |entries| && DistinctEntries(entries)
    ensures Lookup(Keyed(entries), entries[i].key) == if entries[i].key == "" then None else Some(entries[i])
  {
    var keyed := Keyed(entries);
    KeyedMembers(entries);
    if entries[i].key == "" {
      LookupMissing(keyed, "");
    } else {
      KeyedDistinct(entries);
      assert entries[i] in keyed;
      var k :| 0 <= k < |keyed| && keyed[k] == entries[i];
      LookupAt(keyed, k);
    }
  }

  // ----- reading a synced file back -----

  lemma {:induction false} AddSkipping(file: PoFile, entries: seq<PoEntry>)
    requires forall i :: 0 <= i < |entries| ==> entries[i].key == "" ==>
      entries[i].english == "" && entries[i].translation == ""
    ensures AddEntries(file, entries) == Ok(file.(entries := file.entries + Keyed(entries)))
    decreases |entries|
  {
    if entries == [] {
      Unit(file.entries);
    } else if entries[0].key == "" {
      assert FindLanguage("", true) == None;
      AddSkipping(file, entries[1..]);
      Unit(Keyed(entries[1..]));
    } else {
      AddSkipping(file.(entries := file.entries + [entries[0]]), entries[1..]);
      Assoc(file.entries, [entries[0]], Keyed(entries[1..]));
    }
  }

  lemma {:induction false} AddFails(file: PoFile, entries: seq<PoEntry>, i: nat)
    requires i < |entries| && entries[i].key == "" && entries[i].english != ""
    ensures AddEntries(file, entries).Err?
    decreases |entries|
  {
    var next := AddEntry(file, entries[0]);
    if i > 0 && next.Ok? {
      AddFails(next.value, entries[1..], i - 1);
    }
  }

  /** No old entry has an empty key: true of null and of every parsed file. */
  predicate OldKeys(existing: seq<PoEntry>) {
    forall i :: 0 <= i < |existing| ==> existing[i].key != ""
  }

  lemma SyncKeys(wants: seq<Wanted>, existing: seq<PoEntry>)
    ensures var normal := NormalizeEach(SyncEntries(wants, existing));
            forall i :: 0 <= i < |wants| ==> normal[i].key == wants[i].key && normal[i].english == wants[i].text
    ensures Distinct(wants) ==> DistinctEntries(NormalizeEach(SyncEntries(wants, existing)))
  {
    var entries := SyncEntries(wants, existing);
    var normal := NormalizeEach(entries);
    forall i | 0 <= i < |wants|
      ensures normal[i].key == wants[i].key && normal[i].english == wants[i].text
    {
      assert normal[i] == Normalize(entries[i]);
      assert entries[i] == SyncEntry(wants[i], Lookup(existing, wants[i].key));
    }
  }

  /** Reading back what a sync wrote; `language` is what the header gives. */
  lemma ReadSynced(wants: seq<Wanted>, existing: seq<PoEntry>, language: string)
    requires ReadBack(wants) && (OldKeys(existing) || Filled(wants))
    ensures var normal := NormalizeEach(SyncEntries(wants, existing));
            AddEntries(PoFile(language, []), normal) == Ok(PoFile(language, Keyed(normal)))
  {
    var entries := SyncEntries(wants, existing);
    var normal := NormalizeEach(entries);
    SyncKeys(wants, existing);
    forall i | 0 <= i < |normal| && normal[i].key == ""
      ensures normal[i].english == "" && normal[i].translation == ""
    {
      LookupMissing(existing, "");
      assert entries[i] == SyncEntry(wants[i], None);
      assert normal[i] == Normalize(entries[i]);
    }
    AddSkipping(PoFile(language, []), normal);
    Unit(Keyed(normal));
  }

  /** A second sync prints every entry as the first one did. */
  lemma SyncAgain(wants: seq<Wanted>, existing: seq<PoEntry>)
    requires Distinct(wants) && ReadBack(wants) && (OldKeys(existing) || Filled(wants))
    ensures var first := SyncEntries(wants, existing);
            var second := SyncEntries(wants, Keyed(NormalizeEach(first)));
            |second| == |first| && forall i :: 0 <= i < |first| ==> EntryLines(second[i]) == EntryLines(first[i])
  {
    var first := SyncEntries(wants, existing);
    var normal := NormalizeEach(first);
    var second := SyncEntries(wants, Keyed(normal));
    SyncKeys(wants, existing);
    forall i | 0 <= i < |first|
      ensures EntryLines(second[i]) == EntryLines(first[i])
    {
      LookupKeyed(normal, i);
      assert first[i] == SyncEntry(wants[i], Lookup(existing, wants[i].key));
      assert normal[i] == Normalize(first[i]);
      if wants[i].key == "" {
        LookupMissing(existing, "");
        assert second[i] == first[i];
      } else {
        SyncNormalized(wants[i], Lookup(existing, wants[i].key));
      }
    }
  }

  lemma SyncNormalized(want: Wanted, was: Option<PoEntry>)
    ensures var e := SyncEntry(want, was);
            var again := SyncEntry(want, Some(Normalize(e)));
            again.notes == e.notes && FieldLines(again) == FieldLines(e)
  {
    var e := SyncEntry(want, was);
    var again := SyncEntry(want, Some(Normalize(e)));
    assert again == e.(previousEnglish := if e.fuzzy then e.previousEnglish else None);
    SameFieldLines(e, again);
  }

  lemma SameFieldLines(e: PoEntry, f: PoEntry)
    requires f == e.(previousEnglish := if e.fuzzy then e.previousEnglish else None)
    ensures FieldLines(f) == FieldLines(e)
  {
  }

  lemma {:induction false} SameBlocks(a: seq<PoEntry>, b: seq<PoEntry>)
    requires |a| == |b| && forall i :: 0 <= i < |a| ==> EntryLines(a[i]) == EntryLines(b[i])
    ensures EntryBlocks(a) == EntryBlocks(b)
    decreases |a|
  {
    if a != [] {
      SameBlocks(a[1..], b[1..]);
    }
  }

  /**
   * What one sync-and-write leaves on disk is in step, so the check cannot report it, exactly
   * when an empty key has an empty text. Notes stay on one line, as the English modules keep them.
   */
  lemma SyncReachesFixedPoint(sources: Sources, language: string, existing: Option<PoFile>)
    requires DistinctKeys(sources) && NotesFit(sources)
    requires existing.Some? ==> OldKeys(existing.value.entries)
    ensures InStep(sources, language, FormatPo(Sync(sources, language, existing))) <==> KeysReadBack(sources)
  {
    if KeysReadBack(sources) {
      InStepIfKeysReadBack(sources, language, existing);
    } else {
      OutOfStepOtherwise(sources, language, existing);
    }
  }

  lemma InStepIfKeysReadBack(sources: Sources, language: string, existing: Option<PoFile>)
    requires DistinctKeys(sources) && NotesFit(sources) && KeysReadBack(sources)
    requires (existing.Some? ==> OldKeys(existing.value.entries)) || KeysFilled(sources)
    ensures InStep(sources, language, FormatPo(Sync(sources, language, existing)))
  {
    var was := if existing.Some? then existing.value.entries else [];
    WantsShape(sources);
    SyncNotes(Wants(sources), was);
    ParseFormat(Sync(sources, language, existing));
    InStepWhenKeyed(Wants(sources), was, HeaderLanguage(language), HeaderLines(language));
  }

  lemma OutOfStepOtherwise(sources: Sources, language: string, existing: Option<PoFile>)
    requires NotesFit(sources) && !KeysReadBack(sources)
    ensures ParsePo(FormatPo(Sync(sources, language, existing))).Err?
  {
    var was := if existing.Some? then existing.value.entries else [];
    WantsShape(sources);
    SyncNotes(Wants(sources), was);
    ParseFormat(Sync(sources, language, existing));
    SyncedFails(Wants(sources), was, HeaderLanguage(language));
  }

  lemma SyncedFails(wants: seq<Wanted>, was: seq<PoEntry>, found: string)
    requires !ReadBack(wants)
    ensures AddEntries(PoFile(found, []), NormalizeEach(SyncEntries(wants, was))).Err?
  {
    var i :| 0 <= i < |wants| && wants[i].key == "" && wants[i].text != "";
    SyncKeys(wants, was);
    AddFails(PoFile(found, []), NormalizeEach(SyncEntries(wants, was)), i);
  }

  lemma InStepWhenKeyed(wants: seq<Wanted>, was: seq<PoEntry>, found: string, header: seq<string>)
    requires Distinct(wants) && ReadBack(wants) && (OldKeys(was) || Filled(wants))
    ensures var normal := NormalizeEach(SyncEntries(wants, was));
            && AddEntries(PoFile(found, []), normal) == Ok(PoFile(found, Keyed(normal)))
            && FormatBlocks(header, SyncEntries(wants, Keyed(normal))) == FormatBlocks(header, SyncEntries(wants, was))
  {
    ReadSynced(wants, was, found);
    SyncAgain(wants, was);
    SameBlocks(SyncEntries(wants, Keyed(NormalizeEach(SyncEntries(wants, was)))), SyncEntries(wants, was));
  }

  /** With non-empty keys this holds whatever the old file was. */
  lemma KeyedSyncIsFixed(sources: Sources, language: string, existing: Option<PoFile>)
    requires DistinctKeys(sources) && NotesFit(sources) && KeysFilled(sources)
    ensures InStep(sources, language, FormatPo(Sync(sources, language, existing)))
  {
    InStepIfKeysReadBack(sources, language, existing);
  }

  // ----- the provenance of drafts -----

  /** An English source that still has `key`, under non-empty distinct keys. */
  predicate Edit(sources: Sources, key: string) {
    && DistinctKeys(sources) && NotesFit(sources) && KeysFilled(sources)
    && exists i :: 0 <= i < |sources| && sources[i].0 == key
  }

  predicate Edits(edits: seq<Sources>, key: string) {
    forall i :: 0 <= i < |edits| ==> Edit(edits[i], key)
  }

  function TextOf(sources: Sources, key: string): string {
    if sources == [] then ""
    else if sources[0].0 == key then sources[0].1.text
    else TextOf(sources[1..], key)
  }

  /** Each edit is synced, written and read back; nobody edits the catalog in between. */
  function AfterEdits(edits: seq<Sources>, language: string, file: PoFile): Result<PoFile, PoError>
    decreases |edits|
  {
    if edits == [] then Ok(file)
    else
      var next :- ParsePo(FormatPo(Sync(edits[0], language, Some(file))));
      AfterEdits(edits[1..], language, next)
  }

  lemma {:induction false} TextAt(sources: Sources, i: nat)
    requires i < |sources| && DistinctKeys(sources)
    ensures TextOf(sources, sources[i].0) == sources[i].1.text
  {
    if i > 0 {
      assert sources[0].0 != sources[i].0;
      TextAt(sources[1..], i - 1);
    }
  }

  lemma SyncStep(sources: Sources, language: string, file: PoFile, key: string)
    returns (next: PoFile, want: Wanted)
    requires Edit(sources, key)
    ensures ParsePo(FormatPo(Sync(sources, language, Some(file)))) == Ok(next)
    ensures want.key == key && want.text == TextOf(sources, key)
    ensures Lookup(next.entries, key) == Some(Normalize(SyncEntry(want, Lookup(file.entries, key))))
  {
    WantsShape(sources);
    var i :| 0 <= i < |sources| && sources[i].0 == key;
    TextAt(sources, i);
    WantAt(sources, i);
    SyncNotes(Wants(sources), file.entries);
    ParseFormat(Sync(sources, language, Some(file)));
    next := SyncedLookup(Wants(sources), file.entries, i, HeaderLanguage(language));
    want := Wants(sources)[i];
  }

  lemma FirstEdit(edits: seq<Sources>, language: string, file: PoFile, key: string)
    returns (next: PoFile, want: Wanted)
    requires edits != [] && Edit(edits[0], key)
    ensures AfterEdits(edits, language, file) == AfterEdits(edits[1..], language, next)
    ensures want.key == key && want.text == TextOf(edits[0], key)
    ensures Lookup(next.entries, key) == Some(Normalize(SyncEntry(want, Lookup(file.entries, key))))
  {
    next, want := SyncStep(edits[0], language, file, key);
  }

  lemma SyncedLookup(wants: seq<Wanted>, existing: seq<PoEntry>, i: nat, found: string) returns (next: PoFile)
    requires i < |wants| && Distinct(wants) && Filled(wants)
    ensures AddEntries(PoFile(found, []), NormalizeEach(SyncEntries(wants, existing))) == Ok(next)
    ensures Lookup(next.entries, wants[i].key)
         == Some(Normalize(SyncEntry(wants[i], Lookup(existing, wants[i].key))))
  {
    var normal := NormalizeEach(SyncEntries(wants, existing));
    ReadSynced(wants, existing, found);
    SyncKeys(wants, existing);
    KeyedAll(normal);
    LookupAt(normal, i);
    assert normal[i] == Normalize(SyncEntries(wants, existing)[i]);
    next := PoFile(found, normal);
  }

  /** A translation somebody has approved. */
  predicate Reviewed(e: PoEntry) {
    !e.fuzzy && e.translation != ""
  }

  /** `e` still tells what it was reviewed against, and would after any further edit. */
  predicate Traces(e: PoEntry, base: string, translation: string) {
    && e.translation == translation
    && (if e.fuzzy then e.previousEnglish == Some(base)
        else e.english == base && e.previousEnglish in {None, Some(base)})
  }

  lemma SyncTraces(want: Wanted, e: PoEntry, base: string, translation: string)
    requires translation != "" && Traces(e, base, translation)
    ensures var next := Normalize(SyncEntry(want, Some(e)));
            && Traces(next, base, translation)
            && next.english == want.text
            && (next.fuzzy <==> e.fuzzy || want.text != base)
  {
  }

  lemma EditTraces(edits: seq<Sources>, language: string, file: PoFile, key: string,
                   e: PoEntry, base: string, translation: string)
    returns (next: PoFile, e1: PoEntry)
    requires edits != [] && Edits(edits, key) && translation != ""
    requires Lookup(file.entries, key) == Some(e) && Traces(e, base, translation)
    ensures AfterEdits(edits, language, file) == AfterEdits(edits[1..], language, next) && Edits(edits[1..], key)
    ensures Lookup(next.entries, key) == Some(e1) && Traces(e1, base, translation)
    ensures e1.english == TextOf(edits[0], key) && (e1.fuzzy <==> e.fuzzy || TextOf(edits[0], key) != base)
  {
    var want;
    assert Edit(edits[0], key);
    next, want := FirstEdit(edits, language, file, key);
    SyncTraces(want, e, base, translation);
    e1 := Normalize(SyncEntry(want, Some(e)));
  }

  /** The state of a key after the edits, read off the edits alone. */
  predicate Tells(e: PoEntry, edits: seq<Sources>, key: string, base: string, translation: string, fuzzy: bool) {
    && Traces(e, base, translation)
    && (e.fuzzy <==> fuzzy || exists i :: 0 <= i < |edits| && TextOf(edits[i], key) != base)
    && (edits != [] ==> e.english == TextOf(edits[|edits| - 1], key))
  }

  lemma {:induction false} TracesAfter(edits: seq<Sources>, language: string, file: PoFile, key: string,
                                       e: PoEntry, base: string, translation: string) returns (last: PoEntry)
    requires Edits(edits, key) && translation != ""
    requires Lookup(file.entries, key) == Some(e) && Traces(e, base, translation)
    ensures Ends(edits, language, file, key, last) && Tells(last, edits, key, base, translation, e.fuzzy)
    decreases |edits|
  {
    if edits == [] {
      last := e;
    } else {
      var next, e1 := EditTraces(edits, language, file, key, e, base, translation);
      last := TracesAfter(edits[1..], language, next, key, e1, base, translation);
      TellsStep(last, edits, key, base, translation, e.fuzzy, e1);
    }
  }

  /** After the edits the catalog has `last` under the key. */
  predicate Ends(edits: seq<Sources>, language: string, file: PoFile, key: string, last: PoEntry) {
    var r := AfterEdits(edits, language, file);
    r.Ok? && Lookup(r.value.entries, key) == Some(last)
  }

  lemma TellsStep(last: PoEntry, edits: seq<Sources>, key: string, base: string, translation: string,
                  fuzzy: bool, e1: PoEntry)
    requires edits != [] && Tells(last, edits[1..], key, base, translation, e1.fuzzy)
    requires e1.fuzzy <==> fuzzy || TextOf(edits[0], key) != base
    requires edits[1..] == [] ==> last.english == TextOf(edits[0], key)
    ensures Tells(last, edits, key, base, translation, fuzzy)
  {
    var tail := edits[1..];
    assert forall i :: 0 <= i < |tail| ==> tail[i] == edits[i + 1];
    if i :| 0 <= i < |edits| && TextOf(edits[i], key) != base {
      if i > 0 {
        assert TextOf(tail[i - 1], key) != base;
      }
    }
  }

  /** A draft names the English it was reviewed against; what is no draft was reviewed against the current one. */
  predicate NamesBase(e: PoEntry, base: string, translation: string) {
    e.translation == translation && (if e.fuzzy then e.previousEnglish == Some(base) else e.english == base)
  }

  /** After the edits, `key` is a draft exactly if its English ever changed, and knows from what. */
  predicate KeepsProvenance(edits: seq<Sources>, language: string, file: PoFile, key: string, e: PoEntry) {
    var r := AfterEdits(edits, language, file);
    && r.Ok? && Lookup(r.value.entries, key).Some?
    && var last := Lookup(r.value.entries, key).value;
       && NamesBase(last, e.english, e.translation)
       && (last.fuzzy <==> exists i :: 0 <= i < |edits| && TextOf(edits[i], key) != e.english)
  }

  lemma TellsIsKept(edits: seq<Sources>, language: string, file: PoFile, key: string, e: PoEntry, last: PoEntry)
    requires Ends(edits, language, file, key, last) && Tells(last, edits, key, e.english, e.translation, false)
    ensures KeepsProvenance(edits, language, file, key, e)
  {
  }

  /**
   * Provenance survives every sequence of edits and syncs exactly when the reviewed entry
   * carries no `#| msgid` left over from an earlier English.
   */
  lemma DraftProvenance(language: string, file: PoFile, key: string, e: PoEntry)
    requires Lookup(file.entries, key) == Some(e) && Reviewed(e) && key != ""
    ensures (forall edits | Edits(edits, key) :: KeepsProvenance(edits, language, file, key, e))
       <==> e.previousEnglish in {None, Some(e.english)}
  {
    if e.previousEnglish in {None, Some(e.english)} {
      forall edits | Edits(edits, key)
        ensures KeepsProvenance(edits, language, file, key, e)
      {
        var last := TracesAfter(edits, language, file, key, e, e.english, e.translation);
        TellsIsKept(edits, language, file, key, e, last);
      }
    } else {
      var edits, last := StaleProvenance(language, file, key, e);
      assert Edits(edits, key) && !KeepsProvenance(edits, language, file, key, e);
    }
  }

  /** Otherwise one edit is enough: the draft it leaves names an English the translation was not reviewed against. */
  lemma StaleProvenance(language: string, file: PoFile, key: string, e: PoEntry)
    returns (edits: seq<Sources>, last: PoEntry)
    requires Lookup(file.entries, key) == Some(e) && Reviewed(e) && key != ""
    requires e.previousEnglish !in {None, Some(e.english)}
    ensures |edits| == 1 && Edits(edits, key) && Ends(edits, language, file, key, last)
    ensures last.fuzzy && last.translation == e.translation
    ensures last.previousEnglish == e.previousEnglish != Some(e.english)
    ensures !KeepsProvenance(edits, language, file, key, e)
  {
    edits := OneChange(key, e.english);
    var next, want := FirstEdit(edits, language, file, key);
    last := Normalize(SyncEntry(want, Some(e)));
    StaysStale(want, e);
    EndsThere(edits, language, file, next, key, last);
    MisleadsIfNamed(edits, language, file, key, e, last);
  }

  /** An edit that gives the key a text other than `english`. */
  lemma OneChange(key: string, english: string) returns (edits: seq<Sources>)
    requires key != ""
    ensures |edits| == 1 && edits[1..] == [] && Edit(edits[0], key) && Edits(edits, key)
    ensures TextOf(edits[0], key) != english
  {
    var changed := english + "!";
    assert |changed| == |english| + 1;
    edits := [[(key, Source(changed, "", None))]];
    OneSource(key, changed);
  }

  lemma EndsThere(edits: seq<Sources>, language: string, file: PoFile, next: PoFile, key: string, last: PoEntry)
    requires AfterEdits(edits, language, file) == AfterEdits([], language, next) && Lookup(next.entries, key) == Some(last)
    ensures Ends(edits, language, file, key, last)
  {
    assert AfterEdits([], language, next) == Ok(next);
  }

  lemma MisleadsIfNamed(edits: seq<Sources>, language: string, file: PoFile, key: string, e: PoEntry, last: PoEntry)
    requires Ends(edits, language, file, key, last) && last.fuzzy && last.previousEnglish != Some(e.english)
    ensures !KeepsProvenance(edits, language, file, key, e)
  {
  }

  lemma OneSource(key: string, text: string)
    requires key != ""
    ensures Edit([(key, Source(text, "", None))], key) && TextOf([(key, Source(text, "", None))], key) == text
  {
    var sources := [(key, Source(text, "", None))];
    assert sources[0].0 == key && OneLine("");
  }

  /** A sync to another English hands the stale note of an entry on to its draft. */
  lemma StaysStale(want: Wanted, e: PoEntry)
    requires Reviewed(e) && e.previousEnglish.Some? && want.text != e.english
    ensures var next := Normalize(SyncEntry(want, Some(e)));
            next.fuzzy && next.translation == e.translation && next.previousEnglish == e.previousEnglish
  {
  }

  /**
   * Such entries come from files: for every key, English, translation and stale previous English there is a
   * catalog whose entry, once its English is edited, names that stale one.
   */
  lemma StaleFileMisleads(language: string, e: PoEntry) returns (raw: string, edits: seq<Sources>, last: PoEntry)
    requires e.key != "" && e.notes == [] && Reviewed(e) && e.previousEnglish !in {None, Some(e.english)}
    ensures ParsePo(raw) == Ok(PoFile("", [e])) && |edits| == 1 && Edits(edits, e.key)
    ensures Ends(edits, language, PoFile("", [e]), e.key, last)
    ensures last.fuzzy && last.translation == e.translation && last.previousEnglish == e.previousEnglish
  {
    raw := FormatBlocks(StaleLines(e), []);
    StaleEntryIsReadable(e);
    assert [e][..0] == [];
    assert Lookup([e], e.key) == Some(e);
    edits, last := StaleProvenance(language, PoFile("", [e]), e.key, e);
  }
}
