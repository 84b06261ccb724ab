/** What a synced catalog holds, entry by entry, in terms of the source and the old entries. */
module CatalogMeaning {
  import opened Outcome
  import opened Numbers
  import Message
  import MessageMeaning
  import opened Po
  import opened Catalog

  /** `old` is the entry that counts for the key: the last one that has it. */
  ghost predicate Counts(was: seq<PoEntry>, key: string, o: PoEntry) {
    exists j :: 0 <= j < |was| && was[j] == o && o.key == key && forall k :: j < k < |was| ==> was[k].key != key
  }

  lemma {:induction false} LookupMeans(was: seq<PoEntry>, key: string)
    ensures Lookup(was, key).Some? ==> Counts(was, key, Lookup(was, key).value)
    ensures Lookup(was, key).None? ==> forall j :: 0 <= j < |was| ==> was[j].key != key
  {
    if was != [] {
      var n := |was| - 1;
      LookupMeans(was[..n], key);
      if was[n].key == key {
        assert Counts(was, key, was[n]);
      } else if Lookup(was, key).Some? {
        var o := Lookup(was, key).value;
        var j :| 0 <= j < n && was[..n][j] == o && o.key == key && forall k :: j < k < n ==> was[..n][k].key != key;
        assert was[j] == o && forall k :: j < k < n ==> was[k] == was[..n][k];
      }
    }
  }

  lemma OneCounts(was: seq<PoEntry>, key: string, o: PoEntry, p: PoEntry)
    requires Counts(was, key, o) && Counts(was, key, p)
    ensures o == p
  {
  }

  /** `s` is the decimal numeral of `n`. */
  ghost predicate NumeralOf(s: string, n: nat) {
    s != "" && Message.IsDigits(s) && (s == "0" || s[0] != '0') && Message.Decimal(s) == n
  }

  /** The note of the source, and how long a translation may be if the source limits it. */
  ghost predicate NotesOf(source: Source, notes: seq<string>) {
    && notes != [] && notes[0] == source.note
    && (source.max in {None, Some(0)} ==> |notes| == 1)
    && (source.max !in {None, Some(0)} ==>
          |notes| == 2 && exists s: string :: NumeralOf(s, source.max.value) && notes[1] == "Max " + s + " characters.")
  }

  /** An entry that arrives new: empty and no draft. */
  predicate Blank(e: PoEntry) {
    e.translation == "" && !e.fuzzy && e.previousEnglish == None
  }

  /** An entry that takes over `o`: its translation, and that it is a draft if it was one or its English has changed. */
  predicate TakenOver(e: PoEntry, o: PoEntry) {
    && e.translation == o.translation
    && (e.fuzzy <==> o.fuzzy || (o.english != e.english && o.translation != ""))
    && (!e.fuzzy ==> e.previousEnglish == None)
    && (e.fuzzy && (o.english == e.english || o.translation == "") ==> e.previousEnglish == o.previousEnglish)
    && (o.english != e.english && o.translation != "" ==>
          e.previousEnglish == if o.previousEnglish.Some? then o.previousEnglish else Some(o.english))
  }

  /** The entry of a key of the source. */
  ghost predicate EntryOf(key: string, source: Source, was: seq<PoEntry>, e: PoEntry) {
    && e.key == key && e.english == source.text && NotesOf(source, e.notes)
    && ((forall j :: 0 <= j < |was| ==> was[j].key != key) ==> Blank(e))
    && forall o :: Counts(was, key, o) ==> TakenOver(e, o)
  }

  lemma NotesMean(source: Source)
    ensures NotesOf(source, Notes(source))
  {
    if source.max !in {None, Some(0)} {
      var n := source.max.value;
      MessageMeaning.DigitsDecimal(n);
      assert NumeralOf(Digits(n), n) && Notes(source)[1] == "Max " + Digits(n) + " characters.";
    }
  }

  lemma SyncEntryMeans(key: string, source: Source, was: seq<PoEntry>, notes: seq<string>, e: PoEntry)
    requires NotesOf(source, notes) && e == SyncEntry(Wanted(key, source.text, notes), Lookup(was, key))
    ensures EntryOf(key, source, was, e)
  {
    LookupMeans(was, key);
    forall o | Counts(was, key, o)
      ensures TakenOver(e, o)
    {
      OneCounts(was, key, o, Lookup(was, key).value);
    }
  }

  /**
   * A synced catalog has one entry for each key of the source, in its order, and no other: a key no old entry has
   * arrives blank, any other takes over the old entry that counts for it.
   */
  lemma SyncMeans(sources: Sources, language: string, existing: Option<PoFile>)
    ensures var file, was := Sync(sources, language, existing), if existing.Some? then existing.value.entries else [];
            && file.language == language && |file.entries| == |sources|
            && forall i :: 0 <= i < |sources| ==> EntryOf(sources[i].0, sources[i].1, was, file.entries[i])
  {
    var was := if existing.Some? then existing.value.entries else [];
    forall i | 0 <= i < |sources|
      ensures EntryOf(sources[i].0, sources[i].1, was, Sync(sources, language, existing).entries[i])
    {
      WantAt(sources, i);
      NotesMean(sources[i].1);
      SyncEntryMeans(sources[i].0, sources[i].1, was, Notes(sources[i].1), Sync(sources, language, existing).entries[i]);
    }
  }
}
