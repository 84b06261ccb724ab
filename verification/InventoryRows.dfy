/** Counting flat entries into one row for each market identity (`inventory.rs`). */
module InventoryRows {
  import opened Outcome
  import opened Inventory

  // ----- kept levels -----

  function UpgradeLevel(entry: Json, parse: string -> Option<Json>): real {
    var raw := Get(entry, "UpgradeFingerprint");
    var fingerprint := if raw.Some? && raw.value.Text? then parse(raw.value.text) else None;
    var level := if fingerprint.Some? then AsNumber(Get(fingerprint.value, "lvl")) else None;
    if level.Some? then level.value else 0.0
  }

  function UpgradePath(entry: Json): Option<string> {
    AsPath(Get(entry, "ItemType"))
  }

  function OrElse(level: Option<real>, other: real): real {
    if level.Some? then level.value else other
  }

  /** The level kept for a path among the upgrades. */
  function KeptLevel(upgrades: seq<Json>, parse: string -> Option<Json>, path: string): Option<real> {
    if upgrades == [] then None
    else
      var n := |upgrades| - 1;
      var before := KeptLevel(upgrades[..n], parse, path);
      if UpgradePath(upgrades[n]) == Some(path) && UpgradeLevel(upgrades[n], parse) > OrElse(before, -1.0)
      then Some(UpgradeLevel(upgrades[n], parse)) else before
  }

  function Lookup(levels: map<string, real>, path: string): Option<real> {
    if path in levels then Some(levels[path]) else None
  }

  /** `kept_levels` */
  method KeptLevels(root: Json, parse: string -> Option<Json>) returns (out: map<string, real>)
    ensures forall path :: Lookup(out, path) == KeptLevel(AsArray(Get(root, "Upgrades")), parse, path)
  {
    out := map[];
    var upgrades := AsArray(Get(root, "Upgrades"));
    for i := 0 to |upgrades|
      invariant forall path :: Lookup(out, path) == KeptLevel(upgrades[..i], parse, path)
    {
      var entry := upgrades[i];
      ghost var seen := upgrades[..i + 1];
      assert seen[..i] == upgrades[..i] && seen[i] == entry;
      var path := UpgradePath(entry);
      if path.Some? {
        var level := UpgradeLevel(entry, parse);
        if level > OrElse(Lookup(out, path.value), -1.0) {
          out := out[path.value := level];
        }
      }
      assert forall p :: Lookup(out, p) == KeptLevel(seen, parse, p);
    }
    assert upgrades[..|upgrades|] == upgrades;
  }

  /** Upgrade `i` is of the path. */
  predicate IsOf(upgrades: seq<Json>, i: nat, path: string) {
    i < |upgrades| && UpgradePath(upgrades[i]) == Some(path)
  }

  /** A path keeps the highest level above -1 among its upgrades, and none if there is none. */
  lemma {:induction false} KeptLevelIsHighest(upgrades: seq<Json>, parse: string -> Option<Json>, path: string)
    ensures var kept := KeptLevel(upgrades, parse, path);
            if kept.None? then
              forall i: nat :: IsOf(upgrades, i, path) ==> UpgradeLevel(upgrades[i], parse) <= -1.0
            else
              && kept.value > -1.0
              && (exists i: nat :: IsOf(upgrades, i, path) && UpgradeLevel(upgrades[i], parse) == kept.value)
              && (forall i: nat :: IsOf(upgrades, i, path) ==> UpgradeLevel(upgrades[i], parse) <= kept.value)
  {
    if upgrades != [] {
      var n := |upgrades| - 1;
      var init := upgrades[..n];
      KeptLevelIsHighest(init, parse, path);
      assert forall i: nat :: i < n ==> IsOf(upgrades, i, path) == IsOf(init, i, path) && upgrades[i] == init[i];
      assert IsOf(upgrades, n, path) <==> UpgradePath(upgrades[n]) == Some(path);
      var kept := KeptLevel(upgrades, parse, path);
      if kept.Some? && kept == KeptLevel(init, parse, path) {
        var i: nat :| IsOf(init, i, path) && UpgradeLevel(init[i], parse) == kept.value;
        assert IsOf(upgrades, i, path) && UpgradeLevel(upgrades[i], parse) == kept.value;
      }
    }
  }

  // ----- the rows -----

  function KeyFor(r: Resolved): string {
    r.slug + "|" + SubtypeOf(r)
  }

  function SubtypeOf(r: Resolved): string {
    if r.refinement.Some? then r.refinement.value else ""
  }

  /** What a path resolves to, and the levels kept for paths. */
  datatype Tables = Tables(resolve: string -> Option<Resolved>, kept: string -> Option<real>)

  /** The market identity of an entry: a resolved path with a slug. */
  function Identity(t: Tables, e: Entry): Option<Resolved> {
    var r := t.resolve(e.path);
    if r.Some? && r.value.slug != "" then r else None
  }

  function KeyOf(t: Tables, e: Entry): Option<string> {
    var r := Identity(t, e);
    if r.Some? then Some(KeyFor(r.value)) else None
  }

  /** The keys in the order they first appear. */
  function Keys(t: Tables, flat: seq<Entry>): seq<string> {
    if flat == [] then []
    else
      var before := Keys(t, flat[..|flat| - 1]);
      var key := KeyOf(t, flat[|flat| - 1]);
      if key.Some? && key.value !in before then before + [key.value] else before
  }

  function Total(t: Tables, flat: seq<Entry>, key: string): nat {
    if flat == [] then 0
    else
      var e := flat[|flat| - 1];
      Total(t, flat[..|flat| - 1], key) + if KeyOf(t, e) == Some(key) then e.count else 0
  }

  function LeveledTotal(t: Tables, flat: seq<Entry>, key: string): nat {
    if flat == [] then 0
    else
      var e := flat[|flat| - 1];
      LeveledTotal(t, flat[..|flat| - 1], key) + if KeyOf(t, e) == Some(key) && e.xp > 0.0 then e.count else 0
  }

  function Higher(a: Option<real>, b: Option<real>): Option<real> {
    if b.Some? && (a.None? || b.value > a.value) then b else a
  }

  function HighestKept(t: Tables, flat: seq<Entry>, key: string): Option<real> {
    if flat == [] then None
    else
      var e := flat[|flat| - 1];
      var before := HighestKept(t, flat[..|flat| - 1], key);
      if KeyOf(t, e) == Some(key) then Higher(before, t.kept(e.path)) else before
  }

  function FirstOf(t: Tables, flat: seq<Entry>, key: string): (e: Entry)
    requires key in Keys(t, flat)
    ensures KeyOf(t, e) == Some(key)
  {
    var before := flat[..|flat| - 1];
    if key in Keys(t, before) then FirstOf(t, before, key) else flat[|flat| - 1]
  }

  /** A new row, named after the entry that brought it up. */
  function NewItem(t: Tables, e: Entry): Item
    requires Identity(t, e).Some?
  {
    var r := Identity(t, e).value;
    Item(0, r.name, if r.category.Some? && r.category.value != "" then r.category.value else e.category,
         r.slug, r.refinement, None, 0)
  }

  /** The row of a key: sums and maximum over exactly the entries of the key. */
  function RowOf(t: Tables, flat: seq<Entry>, key: string): Item
    requires key in Keys(t, flat)
  {
    NewItem(t, FirstOf(t, flat, key)).(
      count := Total(t, flat, key), leveled := LeveledTotal(t, flat, key), keptLevel := HighestKept(t, flat, key))
  }

  function Unresolved(t: Tables, flat: seq<Entry>, category: string): nat {
    if flat == [] then 0
    else
      var e := flat[|flat| - 1];
      Unresolved(t, flat[..|flat| - 1], category) + if KeyOf(t, e).None? && e.category == category then 1 else 0
  }

  function CountIn(counts: map<string, nat>, category: string): nat {
    if category in counts then counts[category] else 0
  }

  /** One row for each key, in the order the keys first appear. */
  ghost predicate RowsRight(t: Tables, flat: seq<Entry>, owned: seq<(string, Item)>) {
    && |owned| == |Keys(t, flat)|
    && (forall j :: 0 <= j < |owned| ==>
      owned[j].0 == Keys(t, flat)[j] && owned[j].0 in Keys(t, flat) && owned[j].1 == RowOf(t, flat, owned[j].0))
  }

  /** `positions` gives the row of each key. */
  ghost predicate PositionsRight(keys: seq<string>, positions: map<string, nat>) {
    && (forall key :: key in positions <==> key in keys)
    && (forall key :: key in positions ==> positions[key] < |keys| && keys[positions[key]] == key)
  }

  /** `owned`, `positions` and `unresolved` after the entries of `flat`. */
  ghost predicate Tallied(t: Tables, flat: seq<Entry>, owned: seq<(string, Item)>, positions: map<string, nat>,
                          unresolved: map<string, nat>)
  {
    && RowsRight(t, flat, owned)
    && PositionsRight(Keys(t, flat), positions)
    && UnresolvedRight(t, flat, unresolved)
  }

  /** The categories with unresolved entries, each with their number. */
  ghost predicate UnresolvedRight(t: Tables, flat: seq<Entry>, unresolved: map<string, nat>) {
    && (forall category :: CountIn(unresolved, category) == Unresolved(t, flat, category))
    && (forall category :: category in unresolved ==> unresolved[category] > 0)
  }

  ghost predicate WithinSafe(t: Tables, flat: seq<Entry>) {
    forall key :: Total(t, flat, key) <= MAX_SAFE
  }

  /** An entry without an identity changes no row. */
  lemma SkipStep(t: Tables, flat: seq<Entry>, e: Entry)
    requires KeyOf(t, e).None?
    ensures Keys(t, flat + [e]) == Keys(t, flat)
    ensures forall key :: Total(t, flat + [e], key) == Total(t, flat, key)
    ensures forall key :: key in Keys(t, flat) ==> RowOf(t, flat + [e], key) == RowOf(t, flat, key)
    ensures forall category :: Unresolved(t, flat + [e], category)
                            == Unresolved(t, flat, category) + if category == e.category then 1 else 0
  {
    assert (flat + [e])[..|flat|] == flat;
  }

  /** An entry changes the row of its key and no other. */
  lemma RowStep(t: Tables, flat: seq<Entry>, e: Entry, key: string)
    requires KeyOf(t, e) == Some(key)
    ensures Keys(t, flat + [e]) == Keys(t, flat) + if key in Keys(t, flat) then [] else [key]
    ensures forall other :: other != key ==> Total(t, flat + [e], other) == Total(t, flat, other)
    ensures forall other :: other != key && other in Keys(t, flat) ==> RowOf(t, flat + [e], other) == RowOf(t, flat, other)
    ensures forall category :: Unresolved(t, flat + [e], category) == Unresolved(t, flat, category)
    ensures Total(t, flat + [e], key) == Total(t, flat, key) + e.count
    ensures key in Keys(t, flat + [e])
    ensures RowOf(t, flat + [e], key)
         == (if key in Keys(t, flat) then RowOf(t, flat, key) else NewItem(t, e)).(
              count := Total(t, flat, key) + e.count,
              leveled := LeveledTotal(t, flat, key) + if e.xp > 0.0 then e.count else 0,
              keptLevel := Higher(HighestKept(t, flat, key), t.kept(e.path)))
    ensures key !in Keys(t, flat) ==>
              Total(t, flat, key) == 0 && LeveledTotal(t, flat, key) == 0 && HighestKept(t, flat, key) == None
  {
    assert (flat + [e])[..|flat|] == flat;
    if key !in Keys(t, flat) {
      NothingWithoutKey(t, flat, key);
    }
  }

  lemma {:induction false} NothingWithoutKey(t: Tables, flat: seq<Entry>, key: string)
    requires key !in Keys(t, flat)
    ensures Total(t, flat, key) == 0 && LeveledTotal(t, flat, key) == 0 && HighestKept(t, flat, key) == None
  {
    if flat != [] {
      NothingWithoutKey(t, flat[..|flat| - 1], key);
    }
  }

  lemma {:induction false} TotalGrows(t: Tables, flat: seq<Entry>, n: nat, key: string)
    requires n <= |flat|
    ensures Total(t, flat[..n], key) <= Total(t, flat, key)
  {
    if n < |flat| {
      var init := flat[..|flat| - 1];
      assert init[..n] == flat[..n];
      TotalGrows(t, init, n, key);
    } else {
      assert flat[..n] == flat;
    }
  }

  lemma {:induction false} KeysDistinct(t: Tables, flat: seq<Entry>)
    ensures forall i, j :: 0 <= i < j < |Keys(t, flat)| ==> Keys(t, flat)[i] != Keys(t, flat)[j]
  {
    if flat != [] {
      KeysDistinct(t, flat[..|flat| - 1]);
    }
  }

  /** A row with one more entry of its key. */
  function Added(t: Tables, row: Item, e: Entry): Item {
    row.(count := row.count + e.count, leveled := row.leveled + if e.xp > 0.0 then e.count else 0,
         keptLevel := Higher(row.keptLevel, t.kept(e.path)))
  }

  lemma TallySkip(t: Tables, flat: seq<Entry>, e: Entry, owned: seq<(string, Item)>, positions: map<string, nat>,
                  unresolved: map<string, nat>)
    requires Tallied(t, flat, owned, positions, unresolved) && KeyOf(t, e).None?
    ensures Tallied(t, flat + [e], owned, positions, unresolved[e.category := CountIn(unresolved, e.category) + 1])
    ensures WithinSafe(t, flat) ==> WithinSafe(t, flat + [e])
  {
    SkipStep(t, flat, e);
    var counts := unresolved[e.category := CountIn(unresolved, e.category) + 1];
    forall category
      ensures CountIn(counts, category) == Unresolved(t, flat + [e], category)
    {
      assert CountIn(unresolved, category) == Unresolved(t, flat, category);
    }
  }

  /** The rows before the entry is added: with a new one if its key is new. */
  function WithRow(t: Tables, owned: seq<(string, Item)>, positions: map<string, nat>, e: Entry, key: string): seq<(string, Item)>
    requires KeyOf(t, e) == Some(key)
  {
    if key in positions then owned else owned + [(key, NewItem(t, e))]
  }

  function PositionOf(owned: seq<(string, Item)>, positions: map<string, nat>, key: string): nat {
    if key in positions then positions[key] else |owned|
  }

  lemma PositionsGrow(keys: seq<string>, positions: map<string, nat>, key: string)
    requires PositionsRight(keys, positions)
    ensures PositionsRight(keys + if key in keys then [] else [key],
                           positions[key := if key in positions then positions[key] else |keys|])
  {
    assert key in positions <==> key in keys;
    assert keys + [] == keys;
  }

  /** The rows with one more entry of the key of row `index`. */
  lemma RowsGrow(t: Tables, flat: seq<Entry>, e: Entry, key: string, owned: seq<(string, Item)>, index: nat)
    requires RowsRight(t, flat, owned) && KeyOf(t, e) == Some(key)
    requires if key in Keys(t, flat) then index < |owned| && owned[index].0 == key else index == |owned|
    ensures var rows := if key in Keys(t, flat) then owned else owned + [(key, NewItem(t, e))];
            && RowsRight(t, flat + [e], rows[index := (key, Added(t, rows[index].1, e))])
            && Total(t, flat + [e], key) == rows[index].1.count + e.count
  {
    RowStep(t, flat, e, key);
    KeysDistinct(t, flat);
    var all := flat + [e];
    var rows := if key in Keys(t, flat) then owned else owned + [(key, NewItem(t, e))];
    var next := rows[index := (key, Added(t, rows[index].1, e))];
    forall j | 0 <= j < |next|
      ensures next[j].0 == Keys(t, all)[j] && next[j].0 in Keys(t, all) && next[j].1 == RowOf(t, all, next[j].0)
    {
      if j != index {
        assert next[j] == owned[j] && owned[j].0 == Keys(t, flat)[j] && owned[j].0 != key;
      }
    }
  }

  /** The entry of a key leaves the state right for one entry more. */
  lemma TallyRow(t: Tables, flat: seq<Entry>, e: Entry, key: string, owned: seq<(string, Item)>,
                 positions: map<string, nat>, unresolved: map<string, nat>)
    requires Tallied(t, flat, owned, positions, unresolved) && KeyOf(t, e) == Some(key)
    ensures var index, rows := PositionOf(owned, positions, key), WithRow(t, owned, positions, e, key);
            && index < |rows| && rows[index].0 == key
            && Tallied(t, flat + [e], rows[index := (key, Added(t, rows[index].1, e))],
                       positions[key := index], unresolved)
            && Total(t, flat + [e], key) == rows[index].1.count + e.count
            && (WithinSafe(t, flat) && rows[index].1.count + e.count <= MAX_SAFE ==> WithinSafe(t, flat + [e]))
  {
    assert key in positions <==> key in Keys(t, flat);
    RowStep(t, flat, e, key);
    RowsGrow(t, flat, e, key, owned, PositionOf(owned, positions, key));
    PositionsGrow(Keys(t, flat), positions, key);
  }

  /** What is done to the row of an entry, unless its count grows too large. */
  method AddToRow(t: Tables, kept: map<string, real>, given: Item, item: Entry) returns (safe: bool, row: Item)
    requires Lookup(kept, item.path) == t.kept(item.path)
    ensures safe <==> given.count + item.count <= MAX_SAFE
    ensures safe ==> row == Added(t, given, item)
  {
    row := given.(count := given.count + item.count);
    if row.count > MAX_SAFE {
      return false, row;
    }
    if item.xp > 0.0 {
      row := row.(leveled := row.leveled + item.count);
    }
    if item.path in kept {
      var level := kept[item.path];
      if row.keptLevel.None? || level > row.keptLevel.value {
        row := row.(keptLevel := Some(level));
      }
    }
    return true, row;
  }

  /** The aggregation loop of `normalize_inventory`; `places` is its `positions` at the end. */
  method Aggregate(t: Tables, kept: map<string, real>, flat: seq<Entry>)
    returns (r: Result<(seq<(string, Item)>, map<string, nat>), Error>, ghost places: map<string, nat>)
    requires forall path :: Lookup(kept, path) == t.kept(path)
    ensures r.Ok? <==> WithinSafe(t, flat)
    ensures r.Err? ==> r.error == TotalTooLarge
    ensures r.Ok? ==> Tallied(t, flat, r.value.0, places, r.value.1)
  {
    var owned: seq<(string, Item)> := [];
    var unresolved: map<string, nat> := map[];
    var positions: map<string, nat> := map[];
    for i := 0 to |flat|
      invariant Tallied(t, flat[..i], owned, positions, unresolved)
      invariant WithinSafe(t, flat[..i])
    {
      var item := flat[i];
      ghost var seen, more := flat[..i], flat[..i + 1];
      assert more == seen + [item];
      var resolved := Identity(t, item);
      if resolved.None? {
        TallySkip(t, seen, item, owned, positions, unresolved);
        unresolved := unresolved[item.category := CountIn(unresolved, item.category) + 1];
      } else {
        var key := KeyFor(resolved.value);
        TallyRow(t, seen, item, key, owned, positions, unresolved);
        ghost var next := positions[key := PositionOf(owned, positions, key)];
        if key !in positions {
          positions := positions[key := |owned|];
          owned := owned + [(key, NewItem(t, item))];
        }
        var index := positions[key];
        assert positions == next;
        var safe, row := AddToRow(t, kept, owned[index].1, item);
        if !safe {
          TotalGrows(t, flat, i + 1, key);
          assert Total(t, flat, key) > MAX_SAFE;
          return Err(TotalTooLarge), positions;
        }
        owned := owned[index := (key, row)];
      }
    }
    assert flat[..|flat|] == flat;
    return Ok((owned, unresolved)), positions;
  }

  /** What the rows of a document are counted by. */
  function TablesOf(root: Json, resolve: string -> Option<Resolved>, parse: string -> Option<Json>): Tables {
    Tables(resolve, path => KeptLevel(AsArray(Get(root, "Upgrades")), parse, path))
  }

  /** One row for each identity, each with the sums over its entries, and the unresolved entries by category. */
  ghost predicate IsNormalized(t: Tables, flat: seq<Entry>, n: Normalized) {
    && RowsRight(t, flat, n.owned)
    && UnresolvedRight(t, flat, n.unresolved)
    && n.flatCount == |flat|
  }

  /** Why a document is refused. */
  ghost function Refusal(t: Tables, root: Json): Option<Error> {
    var flat := Flatten(root);
    if flat.Err? then Some(flat.error)
    else if |flat.value| > MAX_ROWS then Some(TooManyRows)
    else if !WithinSafe(t, flat.value) then Some(TotalTooLarge)
    else None
  }

  /** `normalize_inventory` */
  method NormalizeInventory(root: Json, resolve: string -> Option<Resolved>, parse: string -> Option<Json>)
    returns (r: Result<Normalized, Error>)
    ensures r.Err? ==> Refusal(TablesOf(root, resolve, parse), root) == Some(r.error)
    ensures r.Ok? ==>
              && Refusal(TablesOf(root, resolve, parse), root) == None
              && IsNormalized(TablesOf(root, resolve, parse), Flatten(root).value, r.value)
  {
    var flattened := FlattenInventory(root);
    if flattened.Err? {
      return Err(flattened.error);
    }
    var flat := flattened.value;
    var kept := KeptLevels(root, parse);
    if |flat| > MAX_ROWS {
      return Err(TooManyRows);
    }
    var t := TablesOf(root, resolve, parse);
    var rows, places := Aggregate(t, kept, flat);
    if rows.Err? {
      return Err(rows.error);
    }
    return Ok(Normalized(rows.value.0, rows.value.1, |flat|));
  }

  // ----- nothing is lost -----

  function ResolvedCount(t: Tables, flat: seq<Entry>): nat {
    if flat == [] then 0
    else ResolvedCount(t, flat[..|flat| - 1]) + if KeyOf(t, flat[|flat| - 1]).Some? then 1 else 0
  }

  function UnresolvedIn(counts: map<string, nat>, categories: seq<string>): nat {
    if categories == [] then 0
    else CountIn(counts, categories[0]) + UnresolvedIn(counts, categories[1..])
  }

  function AllUnresolved(t: Tables, flat: seq<Entry>, categories: seq<string>): nat {
    if categories == [] then 0
    else Unresolved(t, flat, categories[0]) + AllUnresolved(t, flat, categories[1..])
  }

  ghost predicate Distinct(keys: seq<string>) {
    forall i, j :: 0 <= i < j < |keys| ==> keys[i] != keys[j]
  }

  /** One more unresolved entry is counted once, under its own category. */
  lemma {:induction false} OneMoreUnresolved(t: Tables, flat: seq<Entry>, e: Entry, categories: seq<string>)
    requires Distinct(categories)
    ensures AllUnresolved(t, flat + [e], categories)
         == AllUnresolved(t, flat, categories) + if KeyOf(t, e).None? && e.category in categories then 1 else 0
  {
    assert (flat + [e])[..|flat|] == flat;
    if categories != [] {
      OneMoreUnresolved(t, flat, e, categories[1..]);
      assert e.category in categories <==> e.category == categories[0] || e.category in categories[1..];
    }
  }

  lemma {:induction false} NoneYet(t: Tables, categories: seq<string>)
    ensures AllUnresolved(t, [], categories) == 0
  {
    if categories != [] {
      NoneYet(t, categories[1..]);
    }
  }

  /** Each flat entry is either resolved or counted as unresolved. */
  lemma {:induction false} EntriesAreCounted(t: Tables, flat: seq<Entry>, categories: seq<string>)
    requires Distinct(categories) && forall e :: e in flat ==> e.category in categories
    ensures |flat| == ResolvedCount(t, flat) + AllUnresolved(t, flat, categories)
  {
    if flat == [] {
      NoneYet(t, categories);
    } else {
      var n := |flat| - 1;
      assert flat == flat[..n] + [flat[n]];
      EntriesAreCounted(t, flat[..n], categories);
      OneMoreUnresolved(t, flat[..n], flat[n], categories);
    }
  }

  lemma {:induction false} CountsAgree(t: Tables, flat: seq<Entry>, counts: map<string, nat>, categories: seq<string>)
    requires forall category :: CountIn(counts, category) == Unresolved(t, flat, category)
    ensures UnresolvedIn(counts, categories) == AllUnresolved(t, flat, categories)
  {
    if categories != [] {
      CountsAgree(t, flat, counts, categories[1..]);
    }
  }

  lemma CategoriesDistinct()
    ensures Distinct(Categories())
  {
  }

  /** The flat count is the resolved entries and the unresolved counts together. */
  lemma FlatCountAddsUp(t: Tables, root: Json, n: Normalized)
    requires Flatten(root).Ok? && IsNormalized(t, Flatten(root).value, n)
    ensures n.flatCount == ResolvedCount(t, Flatten(root).value) + UnresolvedIn(n.unresolved, Categories())
  {
    var flat, categories := Flatten(root).value, Categories();
    FlatCategories(root, categories);
    CategoriesDistinct();
    EntriesAreCounted(t, flat, categories);
    CountsAgree(t, flat, n.unresolved, categories);
  }

  /** The copies in all entries that have an identity. */
  function ResolvedCopies(t: Tables, flat: seq<Entry>): nat {
    if flat == [] then 0
    else
      var e := flat[|flat| - 1];
      ResolvedCopies(t, flat[..|flat| - 1]) + if KeyOf(t, e).Some? then e.count else 0
  }

  function Totals(t: Tables, flat: seq<Entry>, keys: seq<string>): nat {
    if keys == [] then 0 else Total(t, flat, keys[0]) + Totals(t, flat, keys[1..])
  }

  function RowCopies(owned: seq<(string, Item)>): nat {
    if owned == [] then 0 else owned[0].1.count + RowCopies(owned[1..])
  }

  lemma {:induction false} OneMoreTotal(t: Tables, flat: seq<Entry>, e: Entry, keys: seq<string>)
    requires Distinct(keys)
    ensures Totals(t, flat + [e], keys)
         == Totals(t, flat, keys) + if KeyOf(t, e).Some? && KeyOf(t, e).value in keys then e.count else 0
  {
    assert (flat + [e])[..|flat|] == flat;
    if keys != [] {
      OneMoreTotal(t, flat, e, keys[1..]);
      assert forall k :: k in keys <==> k == keys[0] || k in keys[1..];
    }
  }

  lemma {:induction false} NoCopiesYet(t: Tables, keys: seq<string>)
    ensures Totals(t, [], keys) == 0
  {
    if keys != [] {
      NoCopiesYet(t, keys[1..]);
    }
  }

  lemma {:induction false} TotalsAddUp(t: Tables, flat: seq<Entry>, keys: seq<string>)
    requires Distinct(keys) && forall key :: key in Keys(t, flat) ==> key in keys
    ensures Totals(t, flat, keys) == ResolvedCopies(t, flat)
  {
    if flat == [] {
      NoCopiesYet(t, keys);
    } else {
      var n := |flat| - 1;
      assert flat == flat[..n] + [flat[n]];
      TotalsAddUp(t, flat[..n], keys);
      OneMoreTotal(t, flat[..n], flat[n], keys);
    }
  }

  lemma {:induction false} RowsHoldTotals(t: Tables, flat: seq<Entry>, owned: seq<(string, Item)>, keys: seq<string>)
    requires |owned| == |keys| && forall j :: 0 <= j < |owned| ==> owned[j].1.count == Total(t, flat, keys[j])
    ensures RowCopies(owned) == Totals(t, flat, keys)
  {
    if keys != [] {
      RowsHoldTotals(t, flat, owned[1..], keys[1..]);
    }
  }

  /** Merging entries into rows neither loses nor invents a copy, and no key has two rows. */
  lemma CopiesAreKept(t: Tables, flat: seq<Entry>, n: Normalized)
    requires IsNormalized(t, flat, n)
    ensures RowCopies(n.owned) == ResolvedCopies(t, flat)
    ensures forall i, j :: 0 <= i < j < |n.owned| ==> n.owned[i].0 != n.owned[j].0
  {
    KeysDistinct(t, flat);
    TotalsAddUp(t, flat, Keys(t, flat));
    RowsHoldTotals(t, flat, n.owned, Keys(t, flat));
  }

  /** An entry has a row exactly when it has an identity. */
  lemma {:induction false} KeyedEntriesHaveRows(t: Tables, flat: seq<Entry>, key: string)
    ensures key in Keys(t, flat) <==> exists i :: 0 <= i < |flat| && KeyOf(t, flat[i]) == Some(key)
  {
    if flat != [] {
      var n := |flat| - 1;
      KeyedEntriesHaveRows(t, flat[..n], key);
      assert forall i :: 0 <= i < n ==> flat[..n][i] == flat[i];
    }
  }

  /**
   * Two identities share a row exactly when slug and refinement agree. The refinements the source gives
   * - the four relic qualities in lower case - hold no separator, whatever the slug holds.
   */
  lemma KeysIdentify(a: Resolved, b: Resolved)
    requires '|' !in SubtypeOf(a) && '|' !in SubtypeOf(b)
    ensures KeyFor(a) == KeyFor(b) <==> a.slug == b.slug && SubtypeOf(a) == SubtypeOf(b)
  {
    if KeyFor(a) == KeyFor(b) {
      LastSeparator(a.slug, SubtypeOf(a), b.slug, SubtypeOf(b));
    }
  }

  lemma LastSeparator(a: string, x: string, b: string, y: string)
    requires '|' !in x && '|' !in y && a + "|" + x == b + "|" + y
    ensures a == b && x == y
  {
    var s := a + "|" + x;
    assert s[|a|] == '|' && s[|b|] == '|';
    assert forall i :: |a| < i < |s| ==> s[i] == x[i - |a| - 1];
    assert forall i :: |b| < i < |s| ==> s[i] == y[i - |b| - 1];
    assert |a| == |b|;
    assert a == s[..|a|] && b == s[..|b|];
    assert x == s[|a| + 1..] && y == s[|b| + 1..];
  }
}
