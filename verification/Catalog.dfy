/** Keeping a language's catalog in step with the English source (`catalog.ts`). */
module Catalog {
  import opened Outcome
  import opened Numbers
  import opened Po
  import opened Sequences

  datatype Source = Source(text: string, note: string, max: Option<nat>)

  /** The English source: its keys in order, each with its message. */
  type Sources = seq<(string, Source)>

  function Notes(source: Source): seq<string> {
    [source.note]
    + if source.max.Some? && source.max.value != 0 then ["Max " + Digits(source.max.value) + " characters."] else []
  }

  /** `new Map(entries.map(entry => [entry.key, entry]))`: the last entry of a key counts. */
  function Prior(entries: seq<PoEntry>): map<string, PoEntry> {
    if entries == [] then map[]
    else
      var last := entries[|entries| - 1];
      Prior(entries[..|entries| - 1])[last.key := last]
  }

  function Lookup(entries: seq<PoEntry>, key: string): Option<PoEntry> {
    if key in Prior(entries) then Some(Prior(entries)[key]) else None
  }

  /** What a key's entry takes from the English source. */
  datatype Wanted = Wanted(key: string, text: string, notes: seq<string>)

  function Wants(sources: Sources): (wants: seq<Wanted>)
    ensures |wants| == |sources|
  {
    if sources == [] then []
    else [Wanted(sources[0].0, sources[0].1.text, Notes(sources[0].1))] + Wants(sources[1..])
  }

  function SyncEntry(want: Wanted, was: Option<PoEntry>): PoEntry {
    var blank := PoEntry(want.key, want.text, "", false, want.notes, None);
    if was.None? then blank
    else
      var o := was.value;
      var kept := blank.(translation := o.translation, fuzzy := o.fuzzy,
                         previousEnglish := if o.fuzzy then o.previousEnglish else None);
      if o.english != want.text && o.translation != "" then
        kept.(fuzzy := true,
              previousEnglish := if o.previousEnglish.Some? then o.previousEnglish else Some(o.english))
      else kept
  }

  function SyncEntries(wants: seq<Wanted>, existing: seq<PoEntry>): (entries: seq<PoEntry>)
    ensures |entries| == |wants|
    ensures forall i :: 0 <= i < |wants| ==> entries[i] == SyncEntry(wants[i], Lookup(existing, wants[i].key))
  {
    if wants == [] then []
    else [SyncEntry(wants[0], Lookup(existing, wants[0].key))] + SyncEntries(wants[1..], existing)
  }

  function Sync(sources: Sources, language: string, existing: Option<PoFile>): PoFile {
    PoFile(language, SyncEntries(Wants(sources), if existing.Some? then existing.value.entries else []))
  }

  /** The check that reports a catalog as out of step passes. */
  predicate InStep(sources: Sources, language: string, raw: string) {
    ParsePo(raw).Ok? && FormatPo(Sync(sources, language, Some(ParsePo(raw).value))) == raw
  }

  /** The map of the old entries, the last one of a key winning. */
  method PriorEntries(was: seq<PoEntry>) returns (prior: map<string, PoEntry>)
    ensures prior == Prior(was)
  {
    prior := map[];
    for i := 0 to |was|
      invariant prior == Prior(was[..i])
    {
      assert was[..i + 1][..i] == was[..i];
      prior := prior[was[i].key := was[i]];
    }
    assert was[..|was|] == was;
  }

  /** `syncCatalog` as it runs: a map of the old entries, then one entry per key. */
  method SyncCatalog(sources: Sources, language: string, existing: Option<PoFile>) returns (file: PoFile)
    ensures file == Sync(sources, language, existing)
  {
    var was := if existing.Some? then existing.value.entries else [];
    var prior := PriorEntries(was);
    var entries: seq<PoEntry> := [];
    ghost var synced := SyncEntries(Wants(sources), was);
    for i := 0 to |sources|
      invariant entries == synced[..i]
    {
      var (key, source) := sources[i];
      var o := if key in prior then Some(prior[key]) else None;
      SyncedAt(sources, was, i);
      var entry := MergeEntry(key, source, o);
      OneMore(synced, i);
      entries := entries + [entry];
    }
    assert synced[..|sources|] == synced;
    file := PoFile(language, entries);
  }

  /** The body of the loop: a new entry takes over what the old one of its key has. */
  method MergeEntry(key: string, source: Source, o: Option<PoEntry>) returns (entry: PoEntry)
    ensures entry == SyncEntry(Wanted(key, source.text, Notes(source)), o)
  {
    entry := PoEntry(key, source.text, "", false, Notes(source), None);
    if o.Some? {
      var was := o.value;
      entry := entry.(translation := was.translation);
      entry := entry.(fuzzy := was.fuzzy);
      entry := entry.(previousEnglish := if was.fuzzy then was.previousEnglish else None);
      if was.english != source.text && was.translation != "" {
        entry := entry.(fuzzy := true);
        entry := entry.(previousEnglish := if was.previousEnglish.Some? then was.previousEnglish else Some(was.english));
      }
    }
  }

  lemma SyncedAt(sources: Sources, was: seq<PoEntry>, i: nat)
    requires i < |sources|
    ensures |SyncEntries(Wants(sources), was)| == |sources|
    ensures SyncEntries(Wants(sources), was)[i]
         == SyncEntry(Wanted(sources[i].0, sources[i].1.text, Notes(sources[i].1)), Lookup(was, sources[i].0))
  {
    WantAt(sources, i);
  }

  lemma {:induction false} WantAt(sources: Sources, i: nat)
    requires i < |sources|
    ensures Wants(sources)[i] == Wanted(sources[i].0, sources[i].1.text, Notes(sources[i].1))
  {
    if i > 0 {
      WantAt(sources[1..], i - 1);
    }
  }
}
