/** Turning an inventory document into counted rows (`inventory.rs`). */
module Inventory {
  import opened Outcome

  const MAX_SAFE := 9_007_199_254_740_991
  const MAX_ROWS := 0xFFFF_FFFF

  datatype Json =
    | Null
    | Bool(flag: bool)
    | Number(number: real)
    | Text(text: string)
    | Array(items: seq<Json>)
    | Object(fields: map<string, Json>)

  datatype Entry = Entry(category: string, path: string, count: nat, xp: real)

  datatype Resolved = Resolved(name: string, slug: string, category: Option<string>, refinement: Option<string>)

  datatype Item = Item(count: nat, name: string, itemType: string, slug: string, subtype: Option<string>,
                       keptLevel: Option<real>, leveled: nat)

  datatype Normalized = Normalized(owned: seq<(string, Item)>, unresolved: map<string, nat>, flatCount: nat)

  datatype Error = NotAnObject | BadCount | TooManyRows | TotalTooLarge

  function Categories(): seq<string> {
    ["MiscItems", "Recipes", "RawUpgrades", "Suits", "LongGuns", "Pistols", "Melee", "SpaceGuns", "SpaceMelee",
     "Sentinels", "SentinelWeapons"]
  }

  /** `Value::get`: absent for anything but an object that has the field. */
  function Get(v: Json, field: string): Option<Json> {
    if v.Object? && field in v.fields then Some(v.fields[field]) else None
  }

  function AsArray(v: Option<Json>): seq<Json> {
    if v.Some? && v.value.Array? then v.value.items else []
  }

  function AsNumber(v: Option<Json>): Option<real> {
    if v.Some? && v.value.Number? then Some(v.value.number) else None
  }

  /** A text that is not empty. */
  function AsPath(v: Option<Json>): Option<string> {
    if v.Some? && v.value.Text? && v.value.text != "" then Some(v.value.text) else None
  }

  /** The field unless it is null. */
  function NotNull(v: Option<Json>): Option<Json> {
    if v.Some? && v.value.Null? then None else v
  }

  function PathOf(entry: Json): Option<string> {
    var first := NotNull(Get(entry, "ItemType"));
    AsPath(if first.Some? then first else Get(entry, "Type"))
  }

  /** One copy if no count is given; absent if what is given is no count. */
  function CountOf(entry: Json): (n: Option<nat>)
    ensures n.Some? ==> n.value <= MAX_SAFE
  {
    var given := NotNull(Get(entry, "ItemCount"));
    if given.None? then Some(1)
    else
      var number := AsNumber(given);
      if number.Some? && number.value >= 0.0 && number.value.Floor as real == number.value && number.value <= MAX_SAFE as real
      then Some(number.value.Floor) else None
  }

  function XpOf(entry: Json): real {
    var xp := AsNumber(Get(entry, "XP"));
    if xp.Some? then xp.value else 0.0
  }

  // ----- the flat list -----

  /** The entries of one category, or the first bad count. */
  function FlattenEntries(category: string, entries: seq<Json>): Result<seq<Entry>, Error> {
    if entries == [] then Ok([])
    else
      var path := PathOf(entries[0]);
      if path.None? then FlattenEntries(category, entries[1..])
      else
        var count := CountOf(entries[0]);
        if count.None? then Err(BadCount)
        else
          var rest := FlattenEntries(category, entries[1..]);
          if rest.Err? then rest
          else Ok([Entry(category, path.value, count.value, XpOf(entries[0]))] + rest.value)
  }

  function FlattenCategories(root: Json, categories: seq<string>): Result<seq<Entry>, Error> {
    if categories == [] then Ok([])
    else
      var first := FlattenEntries(categories[0], AsArray(Get(root, categories[0])));
      if first.Err? then first
      else
        var rest := FlattenCategories(root, categories[1..]);
        if rest.Err? then rest else Ok(first.value + rest.value)
  }

  /** `flatten_inventory` */
  function Flatten(root: Json): Result<seq<Entry>, Error> {
    if !root.Object? then Err(NotAnObject) else FlattenCategories(root, Categories())
  }

  lemma {:induction false} FlattenedIn(category: string, entries: seq<Json>)
    ensures var r := FlattenEntries(category, entries); r.Ok? ==> forall e :: e in r.value ==> e.category == category
  {
    if entries != [] {
      FlattenedIn(category, entries[1..]);
    }
  }

  /** Every flat entry belongs to one of the categories. */
  lemma {:induction false} FlatCategories(root: Json, categories: seq<string>)
    ensures var r := FlattenCategories(root, categories); r.Ok? ==> forall e :: e in r.value ==> e.category in categories
  {
    if categories != [] {
      FlattenedIn(categories[0], AsArray(Get(root, categories[0])));
      FlatCategories(root, categories[1..]);
    }
  }

  /** An entry with a path and a value in the count field that is no count. */
  predicate Spoils(entry: Json) {
    PathOf(entry).Some? && CountOf(entry).None?
  }

  lemma {:induction false} EntriesRefused(category: string, entries: seq<Json>)
    ensures FlattenEntries(category, entries).Err? <==> exists e :: e in entries && Spoils(e)
    ensures FlattenEntries(category, entries).Err? ==> FlattenEntries(category, entries).error == BadCount
  {
    if entries != [] {
      EntriesRefused(category, entries[1..]);
      assert forall e :: e in entries <==> e == entries[0] || e in entries[1..];
      assert entries[0] in entries;
      if exists e :: e in entries[1..] && Spoils(e) {
        var e :| e in entries[1..] && Spoils(e);
        assert e in entries;
      }
    }
  }

  ghost predicate SomeSpoil(root: Json, categories: seq<string>) {
    exists c, e :: c in categories && e in AsArray(Get(root, c)) && Spoils(e)
  }

  lemma {:induction false} CategoriesRefused(root: Json, categories: seq<string>)
    ensures FlattenCategories(root, categories).Err? <==> SomeSpoil(root, categories)
    ensures FlattenCategories(root, categories).Err? ==> FlattenCategories(root, categories).error == BadCount
  {
    if categories != [] {
      EntriesRefused(categories[0], AsArray(Get(root, categories[0])));
      CategoriesRefused(root, categories[1..]);
      assert categories == [categories[0]] + categories[1..];
    }
  }

  /** An inventory is refused exactly when it is no object or an entry of a category carries no proper count. */
  lemma FlattenRefuses(root: Json)
    ensures Flatten(root).Err? <==> !root.Object? || SomeSpoil(root, Categories())
  {
    CategoriesRefused(root, Categories());
  }

  /** What is collected already and then the rest, unless the rest is refused. */
  function After(out: seq<Entry>, rest: Result<seq<Entry>, Error>): Result<seq<Entry>, Error> {
    if rest.Err? then rest else Ok(out + rest.value)
  }

  lemma AfterMore(out: seq<Entry>, more: seq<Entry>, rest: Result<seq<Entry>, Error>)
    ensures After(out + more, rest) == After(out, After(more, rest))
  {
    if rest.Ok? {
      assert out + (more + rest.value) == (out + more) + rest.value;
    }
  }

  lemma AfterNothing(rest: Result<seq<Entry>, Error>)
    ensures After([], rest) == rest
  {
    if rest.Ok? {
      assert [] + rest.value == rest.value;
    }
  }

  /** The inner loop: the entries of one category are appended to `collected`. */
  method FlattenCategory(category: string, entries: seq<Json>, collected: seq<Entry>) returns (r: Result<seq<Entry>, Error>)
    ensures r == After(collected, FlattenEntries(category, entries))
  {
    var out := collected;
    ghost var whole := After(collected, FlattenEntries(category, entries));
    assert entries[0..] == entries;
    for i := 0 to |entries|
      invariant whole == After(out, FlattenEntries(category, entries[i..]))
    {
      ghost var tail, rest := entries[i..], entries[i + 1..];
      assert tail[0] == entries[i] && tail[1..] == rest;
      var path := PathOf(entries[i]);
      if path.Some? {
        var count := CountOf(entries[i]);
        if count.None? {
          return Err(BadCount);
        }
        var entry := Entry(category, path.value, count.value, XpOf(entries[i]));
        assert FlattenEntries(category, tail) == After([entry], FlattenEntries(category, rest));
        AfterMore(out, [entry], FlattenEntries(category, rest));
        out := out + [entry];
      }
    }
    assert out + [] == out;
    return Ok(out);
  }

  /** `flatten_inventory` as it runs. */
  method FlattenInventory(root: Json) returns (r: Result<seq<Entry>, Error>)
    ensures r == Flatten(root)
  {
    if !root.Object? {
      return Err(NotAnObject);
    }
    var out: seq<Entry> := [];
    var categories := Categories();
    ghost var whole := FlattenCategories(root, categories);
    assert categories[0..] == categories;
    AfterNothing(whole);
    for i := 0 to |categories|
      invariant whole == After(out, FlattenCategories(root, categories[i..]))
    {
      ghost var tail, rest := categories[i..], categories[i + 1..];
      assert tail[0] == categories[i] && tail[1..] == rest;
      var entries := AsArray(Get(root, categories[i]));
      CategoryStep(root, tail, out);
      var more := FlattenCategory(categories[i], entries, out);
      if more.Err? {
        return more;
      }
      out := more.value;
    }
    assert out + [] == out;
    return Ok(out);
  }

  lemma CategoryStep(root: Json, categories: seq<string>, out: seq<Entry>)
    requires categories != []
    ensures var first := After(out, FlattenEntries(categories[0], AsArray(Get(root, categories[0]))));
            After(out, FlattenCategories(root, categories))
              == if first.Err? then first else After(first.value, FlattenCategories(root, categories[1..]))
  {
    var first := FlattenEntries(categories[0], AsArray(Get(root, categories[0])));
    if first.Ok? {
      AfterMore(out, first.value, FlattenCategories(root, categories[1..]));
    }
  }
}
