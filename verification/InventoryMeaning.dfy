/** What the flat list and the rows of an inventory hold, in terms of the document. */
module InventoryMeaning {
  import opened Outcome
  import opened Places
  import opened Inventory
  import opened InventoryRows

  // ----- fields -----

  predicate Says(v: Json, field: string, value: Json) {
    v.Object? && field in v.fields && v.fields[field] == value
  }

  /** The field is absent or null. */
  predicate Lacks(v: Json, field: string) {
    !v.Object? || field !in v.fields || v.fields[field] == Null
  }

  /** The text in `ItemType`, or in `Type` if there is no `ItemType`. */
  predicate PathIs(entry: Json, path: string) {
    path != "" && (Says(entry, "ItemType", Text(path)) || (Lacks(entry, "ItemType") && Says(entry, "Type", Text(path))))
  }

  ghost predicate HasPath(entry: Json) {
    exists path :: PathIs(entry, path)
  }

  /** The whole number in `ItemCount`, or one if there is none. */
  predicate CountIs(entry: Json, n: nat) {
    || (Lacks(entry, "ItemCount") && n == 1)
    || (n <= 9007199254740991 && Says(entry, "ItemCount", Number(n as real)))
  }

  /** The number in `XP`, or none. */
  ghost predicate XpIs(entry: Json, xp: real) {
    Says(entry, "XP", Number(xp)) || (xp == 0.0 && forall x :: !Says(entry, "XP", Number(x)))
  }

  lemma PathMeans(entry: Json, path: string)
    ensures PathOf(entry) == Some(path) <==> PathIs(entry, path)
  {
  }

  lemma CountMeans(entry: Json, n: nat)
    ensures CountOf(entry) == Some(n) <==> CountIs(entry, n)
  {
    if CountIs(entry, n) && !Lacks(entry, "ItemCount") {
      assert (n as real).Floor == n;
    }
  }

  lemma XpMeans(entry: Json)
    ensures XpIs(entry, XpOf(entry))
  {
    var xp := AsNumber(Get(entry, "XP"));
    if xp.Some? {
      assert Says(entry, "XP", Number(xp.value));
    }
  }

  /** The flat entry of an entry of the category. */
  ghost predicate FlatOf(category: string, entry: Json, e: Entry) {
    e.category == category && PathIs(entry, e.path) && CountIs(entry, e.count) && XpIs(entry, e.xp)
  }

  // ----- the flat list -----

  /** The flat entries are those of the entries at `places`, and no other entry has a path. */
  ghost predicate Lists(category: string, entries: seq<Json>, places: seq<nat>, flat: seq<Entry>) {
    && |places| == |flat| && Increasing(places)
    && (forall k :: 0 <= k < |places| ==> places[k] < |entries| && FlatOf(category, entries[places[k]], flat[k]))
    && (forall i :: 0 <= i < |entries| && HasPath(entries[i]) ==> i in places)
  }

  /** The places of a list are those of its tail, shifted, and the first if it has a path. */
  lemma PathsShifted(entries: seq<Json>, rest: seq<nat>, i: nat)
    requires entries != [] && (forall j :: 0 <= j < |entries[1..]| && HasPath(entries[1..][j]) ==> j in rest)
    requires 0 < i < |entries| && HasPath(entries[i])
    ensures i in Shifted(rest) && i in [0] + Shifted(rest)
  {
    assert entries[1..][i - 1] == entries[i];
    InShifted(rest, i - 1);
  }

  lemma FlatShifted(category: string, entries: seq<Json>, rest: seq<nat>, flat: seq<Entry>, k: nat)
    requires entries != [] && Lists(category, entries[1..], rest, flat) && k < |rest|
    ensures Shifted(rest)[k] < |entries| && FlatOf(category, entries[Shifted(rest)[k]], flat[k])
  {
    assert entries[1..][rest[k]] == entries[rest[k] + 1];
  }

  lemma ListsSkip(category: string, entries: seq<Json>, rest: seq<nat>, flat: seq<Entry>)
    requires entries != [] && Lists(category, entries[1..], rest, flat) && !HasPath(entries[0])
    ensures Lists(category, entries, Shifted(rest), flat)
  {
    ShiftedIncreasing(rest);
    forall i | 0 <= i < |entries| && HasPath(entries[i])
      ensures i in Shifted(rest)
    {
      PathsShifted(entries, rest, i);
    }
    forall k | 0 <= k < |rest|
      ensures Shifted(rest)[k] < |entries| && FlatOf(category, entries[Shifted(rest)[k]], flat[k])
    {
      FlatShifted(category, entries, rest, flat, k);
    }
  }

  lemma ListsOne(category: string, entries: seq<Json>, rest: seq<nat>, flat: seq<Entry>, e: Entry, places: seq<nat>, all: seq<Entry>)
    requires entries != [] && Lists(category, entries[1..], rest, flat) && FlatOf(category, entries[0], e)
    requires places == [0] + Shifted(rest) && all == [e] + flat
    ensures Lists(category, entries, places, all)
  {
    ShiftedIncreasing(rest);
    forall i | 0 <= i < |entries| && HasPath(entries[i])
      ensures i in places
    {
      if i > 0 {
        PathsShifted(entries, rest, i);
      }
    }
    forall k | 0 <= k < |places|
      ensures places[k] < |entries| && FlatOf(category, entries[places[k]], all[k])
    {
      if k > 0 {
        FlatShifted(category, entries, rest, flat, k - 1);
        assert places[k] == Shifted(rest)[k - 1] && all[k] == flat[k - 1];
      }
    }
  }

  /** The entries of a category, in order, except those without a path. */
  lemma {:induction false} FlattenedEntries(category: string, entries: seq<Json>) returns (places: seq<nat>)
    requires FlattenEntries(category, entries).Ok?
    ensures Lists(category, entries, places, FlattenEntries(category, entries).value)
  {
    places := [];
    if entries != [] {
      var rest := FlattenedEntries(category, entries[1..]);
      var flat := FlattenEntries(category, entries[1..]).value;
      var path := PathOf(entries[0]);
      if path.None? {
        NoPath(entries[0]);
        ListsSkip(category, entries, rest, flat);
        places := Shifted(rest);
      } else {
        PathMeans(entries[0], path.value);
        CountMeans(entries[0], CountOf(entries[0]).value);
        XpMeans(entries[0]);
        places := [0] + Shifted(rest);
        var e := Entry(category, path.value, CountOf(entries[0]).value, XpOf(entries[0]));
        ListsOne(category, entries, rest, flat, e, places, [e] + flat);
      }
    }
  }

  lemma NoPath(entry: Json)
    ensures PathOf(entry).None? <==> !HasPath(entry)
  {
    forall path
      ensures PathOf(entry) == Some(path) <==> PathIs(entry, path)
    {
      PathMeans(entry, path);
    }
  }

  function Joined(parts: seq<seq<Entry>>): seq<Entry> {
    if parts == [] then [] else parts[0] + Joined(parts[1..])
  }

  /** The array in a field, empty if it holds none. */
  ghost predicate ArrayIs(root: Json, field: string, items: seq<Json>) {
    Says(root, field, Array(items)) || (items == [] && forall other :: !Says(root, field, Array(other)))
  }

  lemma ArrayMeans(root: Json, field: string)
    ensures ArrayIs(root, field, AsArray(Get(root, field)))
  {
    var v := Get(root, field);
    if v.Some? && v.value.Array? {
      assert Says(root, field, Array(v.value.items));
    }
  }

  ghost predicate ListsCategory(root: Json, category: string, part: seq<Entry>) {
    exists entries, places :: ArrayIs(root, category, entries) && Lists(category, entries, places, part)
  }

  ghost predicate ListsAll(root: Json, categories: seq<string>, parts: seq<seq<Entry>>) {
    |parts| == |categories| && forall c :: 0 <= c < |categories| ==> ListsCategory(root, categories[c], parts[c])
  }

  lemma ListsFirst(root: Json, categories: seq<string>, first: seq<Entry>, rest: seq<seq<Entry>>, parts: seq<seq<Entry>>)
    requires categories != [] && ListsCategory(root, categories[0], first) && ListsAll(root, categories[1..], rest)
    requires parts == [first] + rest
    ensures ListsAll(root, categories, parts) && Joined(parts) == first + Joined(rest)
  {
    assert parts[1..] == rest;
    forall c | 0 <= c < |categories|
      ensures ListsCategory(root, categories[c], parts[c])
    {
      if c > 0 {
        assert categories[c] == categories[1..][c - 1] && parts[c] == rest[c - 1];
      }
    }
  }

  /** The flat list is category by category what its entries with a path are, in order. */
  lemma {:induction false} FlattenedCategories(root: Json, categories: seq<string>) returns (parts: seq<seq<Entry>>)
    requires FlattenCategories(root, categories).Ok?
    ensures FlattenCategories(root, categories) == Ok(Joined(parts)) && ListsAll(root, categories, parts)
  {
    parts := [];
    if categories != [] {
      var entries := AsArray(Get(root, categories[0]));
      var first := FlattenEntries(categories[0], entries).value;
      var places := FlattenedEntries(categories[0], entries);
      ArrayMeans(root, categories[0]);
      assert ListsCategory(root, categories[0], first);
      var rest := FlattenedCategories(root, categories[1..]);
      parts := [first] + rest;
      ListsFirst(root, categories, first, rest, parts);
    }
  }

  ghost predicate NoCount(entry: Json) {
    HasPath(entry) && forall n: nat :: !CountIs(entry, n)
  }

  lemma SpoilsMeans(entry: Json)
    ensures Spoils(entry) <==> NoCount(entry)
  {
    NoPath(entry);
    forall n: nat
      ensures CountOf(entry) == Some(n) <==> CountIs(entry, n)
    {
      CountMeans(entry, n);
    }
    if CountOf(entry).Some? {
      assert CountIs(entry, CountOf(entry).value);
    }
  }

  /** An entry of one of the categories whose count is no count. */
  ghost predicate SomeNoCount(root: Json, categories: seq<string>) {
    exists c, items, e :: c in categories && Says(root, c, Array(items)) && e in items && NoCount(e)
  }

  /** `flatten_inventory`: refused for a document that is no object or holds a bad count, or else the list of its entries. */
  lemma FlattenMeans(root: Json) returns (parts: seq<seq<Entry>>)
    ensures !root.Object? ==> Flatten(root) == Err(NotAnObject)
    ensures root.Object? && SomeNoCount(root, Categories()) ==> Flatten(root) == Err(BadCount)
    ensures root.Object? && !SomeNoCount(root, Categories()) ==>
              Flatten(root) == Ok(Joined(parts)) && ListsAll(root, Categories(), parts)
  {
    parts := [];
    CategoriesRefused(root, Categories());
    SpoilsFound(root, Categories());
    if root.Object? && FlattenCategories(root, Categories()).Ok? {
      parts := FlattenedCategories(root, Categories());
    }
  }

  lemma SpoilsFound(root: Json, categories: seq<string>)
    ensures SomeSpoil(root, categories) <==> SomeNoCount(root, categories)
  {
    forall e
      ensures Spoils(e) <==> NoCount(e)
    {
      SpoilsMeans(e);
    }
    if c, e :| c in categories && e in AsArray(Get(root, c)) && Spoils(e) {
      assert Says(root, c, Array(AsArray(Get(root, c))));
    }
    if c, items, e :| c in categories && Says(root, c, Array(items)) && e in items && NoCount(e) {
      assert e in AsArray(Get(root, c));
    }
  }

  // ----- kept levels -----

  /** The `lvl` in the fingerprint of an upgrade, 0 if there is none. */
  ghost predicate LevelIs(entry: Json, parse: string -> Option<Json>, level: real) {
    || LevelGiven(entry, parse, level)
    || (level == 0.0 && forall other :: !LevelGiven(entry, parse, other))
  }

  ghost predicate LevelGiven(entry: Json, parse: string -> Option<Json>, level: real) {
    exists raw :: Says(entry, "UpgradeFingerprint", Text(raw)) && parse(raw).Some? && Says(parse(raw).value, "lvl", Number(level))
  }

  lemma UpgradeMeans(entry: Json, parse: string -> Option<Json>)
    ensures LevelIs(entry, parse, UpgradeLevel(entry, parse))
    ensures forall path: string :: UpgradePath(entry) == Some(path) <==> path != "" && Says(entry, "ItemType", Text(path))
  {
    var raw := Get(entry, "UpgradeFingerprint");
    if raw.Some? && raw.value.Text? {
      var fingerprint := parse(raw.value.text);
      assert Says(entry, "UpgradeFingerprint", Text(raw.value.text));
      if fingerprint.Some? && AsNumber(Get(fingerprint.value, "lvl")).Some? {
        assert Says(fingerprint.value, "lvl", Number(UpgradeLevel(entry, parse)));
        assert LevelGiven(entry, parse, UpgradeLevel(entry, parse));
      }
    }
  }

  // ----- rows -----

  /** The entry resolves to something with a slug. */
  predicate Named(t: Tables, e: Entry) {
    t.resolve(e.path).Some? && t.resolve(e.path).value.slug != ""
  }

  function Identified(r: Resolved): string {
    r.slug + "|" + if r.refinement.Some? then r.refinement.value else ""
  }

  /** The entry belongs to the row of the key. */
  predicate Of(t: Tables, e: Entry, key: string) {
    Named(t, e) && Identified(t.resolve(e.path).value) == key
  }

  function OfKey(t: Tables, key: string): Entry -> bool {
    (e: Entry) => Of(t, e, key)
  }

  /** Entries of the key that have been levelled. */
  function LeveledOf(t: Tables, key: string): Entry -> bool {
    (e: Entry) => Of(t, e, key) && e.xp > 0.0
  }

  function UnnamedIn(t: Tables, category: string): Entry -> bool {
    (e: Entry) => !Named(t, e) && e.category == category
  }

  /** The copies in the entries that have the property. */
  function Copies(flat: seq<Entry>, p: Entry -> bool): nat {
    if flat == [] then 0 else Copies(flat[..|flat| - 1], p) + if p(flat[|flat| - 1]) then flat[|flat| - 1].count else 0
  }

  function Times(flat: seq<Entry>, p: Entry -> bool): nat {
    if flat == [] then 0 else Times(flat[..|flat| - 1], p) + if p(flat[|flat| - 1]) then 1 else 0
  }

  /** The first entry of the key. */
  predicate FirstAt(t: Tables, flat: seq<Entry>, key: string, f: nat) {
    f < |flat| && Of(t, flat[f], key) && forall g :: 0 <= g < f ==> !Of(t, flat[g], key)
  }

  /** The row is named after the first entry of its key and holds what all its entries come to. */
  ghost predicate RowIs(t: Tables, flat: seq<Entry>, key: string, row: Item) {
    && (exists f: nat :: FirstAt(t, flat, key, f) && NamedAfter(t, flat[f], row))
    && row.count == Copies(flat, OfKey(t, key))
    && row.leveled == Copies(flat, LeveledOf(t, key))
    && HighestIs(t, flat, key, row.keptLevel)
  }

  predicate NamedAfter(t: Tables, e: Entry, row: Item)
    requires Named(t, e)
  {
    var r := t.resolve(e.path).value;
    && row.name == r.name && row.slug == r.slug && row.subtype == r.refinement
    && (r.category in {None, Some("")} ==> row.itemType == e.category)
    && (r.category !in {None, Some("")} ==> Some(row.itemType) == r.category)
  }

  /** The highest level kept for a path of the entries of the key, none if there is none. */
  ghost predicate HighestIs(t: Tables, flat: seq<Entry>, key: string, level: Option<real>) {
    && (level.Some? ==> exists i :: 0 <= i < |flat| && Of(t, flat[i], key) && t.kept(flat[i].path) == level)
    && forall i :: 0 <= i < |flat| && Of(t, flat[i], key) && t.kept(flat[i].path).Some? ==>
         level.Some? && t.kept(flat[i].path).value <= level.value
  }

  lemma OfMeans(t: Tables, e: Entry, key: string)
    ensures KeyOf(t, e) == Some(key) <==> Of(t, e, key)
    ensures KeyOf(t, e).Some? <==> Named(t, e)
  {
  }

  lemma {:induction false} TotalsMean(t: Tables, flat: seq<Entry>, key: string)
    ensures Total(t, flat, key) == Copies(flat, OfKey(t, key))
    ensures LeveledTotal(t, flat, key) == Copies(flat, LeveledOf(t, key))
  {
    if flat != [] {
      TotalsMean(t, flat[..|flat| - 1], key);
      OfMeans(t, flat[|flat| - 1], key);
    }
  }

  lemma {:induction false} HighestMeans(t: Tables, flat: seq<Entry>, key: string)
    ensures HighestIs(t, flat, key, HighestKept(t, flat, key))
  {
    if flat != [] {
      var n := |flat| - 1;
      var init := flat[..n];
      HighestMeans(t, init, key);
      OfMeans(t, flat[n], key);
      assert forall i :: 0 <= i < n ==> flat[i] == init[i];
      var before, now := HighestKept(t, init, key), HighestKept(t, flat, key);
      if now.Some? && now == before {
        var i :| 0 <= i < n && Of(t, init[i], key) && t.kept(init[i].path) == before;
        assert Of(t, flat[i], key) && t.kept(flat[i].path) == now;
      }
    }
  }

  lemma {:induction false} FirstMeans(t: Tables, flat: seq<Entry>, key: string) returns (f: nat)
    requires key in Keys(t, flat)
    ensures FirstAt(t, flat, key, f) && flat[f] == FirstOf(t, flat, key)
  {
    var n := |flat| - 1;
    var init := flat[..n];
    assert forall i :: 0 <= i < n ==> flat[i] == init[i];
    if key in Keys(t, init) {
      f := FirstMeans(t, init, key);
    } else {
      f := n;
      OfMeans(t, flat[n], key);
      KeyedEntriesHaveRows(t, init, key);
      forall g | 0 <= g < n
        ensures !Of(t, flat[g], key)
      {
        OfMeans(t, init[g], key);
      }
    }
  }

  lemma {:induction false} UnresolvedMeans(t: Tables, flat: seq<Entry>, category: string)
    ensures Unresolved(t, flat, category) == Times(flat, UnnamedIn(t, category))
  {
    if flat != [] {
      UnresolvedMeans(t, flat[..|flat| - 1], category);
    }
  }

  lemma RowMeans(t: Tables, flat: seq<Entry>, key: string)
    requires key in Keys(t, flat)
    ensures RowIs(t, flat, key, RowOf(t, flat, key))
  {
    TotalsMean(t, flat, key);
    HighestMeans(t, flat, key);
    var f := FirstMeans(t, flat, key);
    assert NamedAfter(t, flat[f], RowOf(t, flat, key));
  }

  /** A key seen before the last entry has its first entry before it. */
  lemma FirstBefore(t: Tables, flat: seq<Entry>, key: string, f: nat)
    requires flat != [] && key in Keys(t, flat[..|flat| - 1]) && FirstAt(t, flat, key, f)
    ensures FirstAt(t, flat[..|flat| - 1], key, f)
  {
    var init := flat[..|flat| - 1];
    KeyedEntriesHaveRows(t, init, key);
    var k :| 0 <= k < |init| && KeyOf(t, init[k]) == Some(key);
    OfMeans(t, init[k], key);
    assert flat[k] == init[k];
    assert forall g :: 0 <= g < f ==> init[g] == flat[g];
  }

  /** The keys come in the order of their first entries. */
  lemma {:induction false} KeysInOrder(t: Tables, flat: seq<Entry>, i: nat, j: nat, f: nat, g: nat)
    requires i < j < |Keys(t, flat)| && FirstAt(t, flat, Keys(t, flat)[i], f) && FirstAt(t, flat, Keys(t, flat)[j], g)
    ensures f < g
  {
    var n := |flat| - 1;
    var init := flat[..n];
    var before := Keys(t, init);
    assert forall k :: 0 <= k < n ==> flat[k] == init[k];
    FirstBefore(t, flat, before[i], f);
    if j < |before| {
      FirstBefore(t, flat, before[j], g);
      KeysInOrder(t, init, i, j, f, g);
    } else {
      KeyedEntriesHaveRows(t, init, Keys(t, flat)[j]);
      forall m | 0 <= m < n
        ensures !Of(t, flat[m], Keys(t, flat)[j])
      {
        OfMeans(t, init[m], Keys(t, flat)[j]);
      }
    }
  }

  /** Every entry that resolves has a row. */
  ghost predicate Covered(t: Tables, flat: seq<Entry>, owned: seq<(string, Item)>) {
    forall e :: e in flat && Named(t, e) ==>
      exists j :: 0 <= j < |owned| && owned[j].0 == Identified(t.resolve(e.path).value)
  }

  /** The rows stand in the order of their first entries. */
  ghost predicate InOrder(t: Tables, flat: seq<Entry>, owned: seq<(string, Item)>) {
    forall i, j, f: nat, g: nat :: 0 <= i < j < |owned| && FirstAt(t, flat, owned[i].0, f) && FirstAt(t, flat, owned[j].0, g) ==>
      f < g
  }

  /** A category is listed with the number of its entries that do not resolve, unless all do. */
  ghost predicate UnnamedCounted(t: Tables, flat: seq<Entry>, unresolved: map<string, nat>) {
    forall category ::
      var n := Times(flat, UnnamedIn(t, category));
      if n == 0 then category !in unresolved else category in unresolved && unresolved[category] == n
  }

  lemma AllCovered(t: Tables, flat: seq<Entry>, owned: seq<(string, Item)>)
    requires RowsRight(t, flat, owned)
    ensures Covered(t, flat, owned)
  {
    forall e | e in flat && Named(t, e)
      ensures exists j :: 0 <= j < |owned| && owned[j].0 == Identified(t.resolve(e.path).value)
    {
      HasRow(t, flat, owned, e);
    }
  }

  lemma AllInOrder(t: Tables, flat: seq<Entry>, owned: seq<(string, Item)>)
    requires RowsRight(t, flat, owned)
    ensures InOrder(t, flat, owned)
  {
    forall i, j, f: nat, g: nat | 0 <= i < j < |owned| && FirstAt(t, flat, owned[i].0, f) && FirstAt(t, flat, owned[j].0, g)
      ensures f < g
    {
      KeysInOrder(t, flat, i, j, f, g);
    }
  }

  lemma AllUnnamedCounted(t: Tables, flat: seq<Entry>, unresolved: map<string, nat>)
    requires UnresolvedRight(t, flat, unresolved)
    ensures UnnamedCounted(t, flat, unresolved)
  {
    forall category
      ensures CountIn(unresolved, category) == Times(flat, UnnamedIn(t, category))
    {
      UnresolvedMeans(t, flat, category);
    }
  }

  /** The rows of a normalized inventory, in the order of their first entries, and its unresolved entries. */
  lemma NormalizedMeans(t: Tables, flat: seq<Entry>, n: Normalized)
    requires IsNormalized(t, flat, n)
    ensures n.flatCount == |flat| && Covered(t, flat, n.owned) && InOrder(t, flat, n.owned)
    ensures forall j :: 0 <= j < |n.owned| ==> RowIs(t, flat, n.owned[j].0, n.owned[j].1)
    ensures UnnamedCounted(t, flat, n.unresolved)
  {
    forall j | 0 <= j < |n.owned|
      ensures RowIs(t, flat, n.owned[j].0, n.owned[j].1)
    {
      RowMeans(t, flat, n.owned[j].0);
    }
    AllCovered(t, flat, n.owned);
    AllInOrder(t, flat, n.owned);
    AllUnnamedCounted(t, flat, n.unresolved);
  }

  lemma HasRow(t: Tables, flat: seq<Entry>, owned: seq<(string, Item)>, e: Entry)
    requires RowsRight(t, flat, owned) && e in flat && Named(t, e)
    ensures exists j :: 0 <= j < |owned| && owned[j].0 == Identified(t.resolve(e.path).value)
  {
    var key := Identified(t.resolve(e.path).value);
    OfMeans(t, e, key);
    var i :| 0 <= i < |flat| && flat[i] == e;
    KeyedEntriesHaveRows(t, flat, key);
    var j :| 0 <= j < |Keys(t, flat)| && Keys(t, flat)[j] == key;
    assert owned[j].0 == key;
  }
}
