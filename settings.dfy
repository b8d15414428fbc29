/**
 * Services/SettingsService.cs: the site settings, a key/value table read
 * into an in-memory dictionary that the getters consult.
 */
module Settings {
  import opened Wrappers
  import opened Entities
  import opened Data

  predicate UniqueKeys(rows: seq<SiteSetting>) {
    forall i, j :: 0 <= i < j < |rows| ==> rows[i].key != rows[j].key
  }

  /** `ToDictionary(s => s.Key, s => s.Value)`: None when a key occurs twice,
      where the source throws. */
  function KeySet(rows: seq<SiteSetting>): set<string> {
    set i | 0 <= i < |rows| :: rows[i].key
  }

  function ToMap(rows: seq<SiteSetting>): Option<map<string, string>> {
    if |rows| == 0 then Some(map[])
    else
      var last := rows[|rows| - 1];
      match ToMap(rows[..|rows| - 1])
      case None => None
      case Some(m) => if last.key in m then None else Some(m[last.key := last.value])
  }

  /** The dictionary exists exactly when the keys are unique. */
  lemma {:induction false} ToMapUnique(rows: seq<SiteSetting>)
    ensures ToMap(rows).Some? <==> UniqueKeys(rows)
  {
    if |rows| > 0 {
      var front := rows[..|rows| - 1];
      var last := rows[|rows| - 1];
      ToMapUnique(front);
      assert forall i :: 0 <= i < |front| ==> front[i] == rows[i];
      if ToMap(front).Some? {
        ToMapContents(front);
        if last.key in ToMap(front).value {
          var i :| 0 <= i < |front| && front[i].key == last.key;
          assert rows[i].key == rows[|rows| - 1].key;
        }
      }
    }
  }

  /** A dictionary holds every row's key, and no other, with that row's value. */
  lemma {:induction false} ToMapContents(rows: seq<SiteSetting>)
    requires ToMap(rows).Some?
    ensures ToMap(rows).value.Keys == KeySet(rows)
    ensures forall i :: 0 <= i < |rows| ==> ToMap(rows).value[rows[i].key] == rows[i].value
  {
    if |rows| > 0 {
      var front := rows[..|rows| - 1];
      var last := rows[|rows| - 1];
      ToMapContents(front);
      assert forall i :: 0 <= i < |front| ==> front[i] == rows[i];
      assert KeySet(rows) == KeySet(front) + {last.key} by {
        assert forall i :: 0 <= i < |front| ==> rows[i].key in KeySet(front);
      }
    }
  }

  /** `FirstOrDefault(s => s.Key == key)`. */
  function FindSetting(rows: seq<SiteSetting>, key: string): (r: Option<nat>)
    ensures r.Some? ==> r.value < |rows| && rows[r.value].key == key
    ensures r.Some? ==> forall k :: 0 <= k < r.value ==> rows[k].key != key
    ensures r.None? ==> key !in KeySet(rows)
  {
    if |rows| == 0 then None
    else if rows[0].key == key then Some(0)
    else match FindSetting(rows[1..], key)
      case None =>
        assert KeySet(rows) == {rows[0].key} + KeySet(rows[1..]) by {
          assert forall i :: 0 < i < |rows| ==> rows[i] == rows[1..][i - 1];
        }
        None
      case Some(k) => Some(k + 1)
  }

  /** The first row with the key gets the value; without one, a row is added. */
  function Upsert(rows: seq<SiteSetting>, key: string, value: string): seq<SiteSetting> {
    match FindSetting(rows, key)
    case None => rows + [SiteSetting(key, value)]
    case Some(i) => rows[i := rows[i].(value := value)]
  }

  class SettingsService {
    const db: AppDb
    var cache: map<string, string>

    constructor (db: AppDb)
      ensures this.db == db && cache == map[]
    {
      this.db := db;
      cache := map[];
    }

    /** Replaces the cache with the table's pairs. `ok` is false where the
        source throws on a duplicate key; the cache is then left as it was. */
    method LoadSettings() returns (ok: bool)
      modifies this
      ensures ok <==> UniqueKeys(db.siteSettings)
      ensures ok ==> ToMap(db.siteSettings) == Some(cache)
      ensures !ok ==> cache == old(cache)
    {
      ToMapUnique(db.siteSettings);
      var loaded := ToMap(db.siteSettings);
      ok := loaded.Some?;
      if ok {
        cache := loaded.value;
      }
    }

    /** The cached value parsed as a decimal, or the default when the key is
        missing or the value does not parse; `tryParse` is the parser. */
    function GetDecimal(key: string, defaultValue: real, tryParse: string -> Option<real>): (v: real)
      reads this
      ensures key !in cache ==> v == defaultValue
      ensures key in cache && tryParse(cache[key]).Some? ==> v == tryParse(cache[key]).value
      ensures key in cache && tryParse(cache[key]).None? ==> v == defaultValue
    {
      if key in cache && tryParse(cache[key]).Some? then tryParse(cache[key]).value else defaultValue
    }

    /** The cached value, or the default when the key is missing. */
    function GetString(key: string, defaultValue: string): (v: string)
      reads this
      ensures key in cache ==> v == cache[key]
      ensures key !in cache ==> v == defaultValue
    {
      if key in cache then cache[key] else defaultValue
    }

    /** Saves the value under the key, then reloads the cache. */
    method UpdateSetting(key: string, value: string) returns (ok: bool)
      modifies this, db
      ensures db.siteSettings == Upsert(old(db.siteSettings), key, value)
      ensures ok <==> UniqueKeys(db.siteSettings)
      ensures ok ==> ToMap(db.siteSettings) == Some(cache)
      ensures !ok ==> cache == old(cache)
      ensures db.products == old(db.products) && db.orders == old(db.orders)
      ensures db.stockLogs == old(db.stockLogs) && db.subscribers == old(db.subscribers)
      ensures db.users == old(db.users)
    {
      db.siteSettings := Upsert(db.siteSettings, key, value);
      ok := LoadSettings();
    }
  }

  // ---------------------------------------------------------------------------
  // Properties
  // ---------------------------------------------------------------------------

  /** Upserting keeps the keys unique and adds the key to the key set; it
      adds a row only for a new key. */
  lemma UpsertKeepsKeysUnique(rows: seq<SiteSetting>, key: string, value: string)
    requires UniqueKeys(rows)
    ensures UniqueKeys(Upsert(rows, key, value))
    ensures KeySet(Upsert(rows, key, value)) == KeySet(rows) + {key}
    ensures key in KeySet(rows) ==> |Upsert(rows, key, value)| == |rows|
  {
    var r := Upsert(rows, key, value);
    assert forall i :: 0 <= i < |rows| ==> r[i].key == rows[i].key;
    match FindSetting(rows, key)
    case None =>
      assert r[|rows|].key == key;
    case Some(i) =>
      assert r[i].key == key;
  }

  /** On a table with unique keys, an upsert changes the dictionary exactly at
      the key. */
  lemma UpsertUpdatesMap(rows: seq<SiteSetting>, key: string, value: string)
    requires UniqueKeys(rows)
    ensures ToMap(rows).Some?
    ensures ToMap(Upsert(rows, key, value)) == Some(ToMap(rows).value[key := value])
  {
    ToMapUnique(rows);
    ToMapContents(rows);
    match FindSetting(rows, key)
    case None =>
      var r := rows + [SiteSetting(key, value)];
      assert r[..|r| - 1] == rows;
    case Some(i) =>
      ToMapSetValue(rows, i, value);
  }

  /** Changing the value of row `i` changes the dictionary at that row's key. */
  lemma {:induction false} ToMapSetValue(rows: seq<SiteSetting>, i: nat, value: string)
    requires i < |rows| && ToMap(rows).Some?
    ensures ToMap(rows[i := rows[i].(value := value)]) == Some(ToMap(rows).value[rows[i].key := value])
  {
    var r := rows[i := rows[i].(value := value)];
    var front, last := rows[..|rows| - 1], rows[|rows| - 1];
    if i == |rows| - 1 {
      assert r[..|r| - 1] == front;
      var m := ToMap(front).value;
      assert m[last.key := last.value][last.key := value] == m[last.key := value];
    } else {
      assert r[..|r| - 1] == front[i := rows[i].(value := value)];
      assert r[|r| - 1] == last;
      ToMapSetValue(front, i, value);
      var m := ToMap(front).value;
      assert rows[i].key in m by {
        ToMapContents(front);
        assert front[i].key in KeySet(front);
      }
      assert last.key !in m && last.key != rows[i].key;
      assert ToMap(rows) == Some(m[last.key := last.value]);
      assert ToMap(r) == Some(m[rows[i].key := value][last.key := last.value]);
      assert m[rows[i].key := value][last.key := last.value] == m[last.key := last.value][rows[i].key := value];
    }
  }

  /** After an update on a table with unique keys, the getter answers the new
      value for the key and the old answer for every other key. */
  lemma UpdateThenGet(rows: seq<SiteSetting>, key: string, value: string, other: string, d: string)
    requires UniqueKeys(rows) && other != key
    ensures ToMap(rows).Some? && ToMap(Upsert(rows, key, value)).Some?
    ensures var after := ToMap(Upsert(rows, key, value)).value;
      key in after && after[key] == value &&
      (other in after <==> other in ToMap(rows).value) &&
      (other in after ==> after[other] == ToMap(rows).value[other])
  {
    UpsertUpdatesMap(rows, key, value);
  }
}
