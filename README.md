# City-weather add-on: cache table fakes and input-field rules

This project models two parts of the city-weather Splunk add-on.

1. **The in-memory key-value store the unit tests use.** This covers `FakeKVData`, `FakeKVStore` and `DummyWriter`.
   - A collection is a dictionary of documents keyed by `"{city}-{country_code}"`.
   - `query` returns the first document whose `city` and `country_code` equal the queried ones. It scans in the dictionary's insertion order.
   - `insert` derives the key from the document and overwrites whatever is stored there.
   - `update` stores a document under a key the caller chooses.
   - `delete` pops one key, or clears the table when no key is given.
   - The store creates named collections on first access and hands back the same collection afterwards.
   - The writer only appends events.
2. **The validation rules of the data input's configuration fields.** These are `name`, `city`, `country_code`, `sourcetype`, `index`, `interval`, `account` and `disabled`, with their required flags, defaults and validators: patterns, length ranges, numeric ranges, and `AllOf` conjunctions of these.

Files:
- `results.dfy`: `Option` and `Result`, where `KeyError(field)` stands for a missing dictionary entry.
- `kv_table.dfy` (module `KVTable`): the table as a value, a map of documents plus the insertion order of the keys. Its operations are functions, and the lemmas state what they promise.
- `fake_kv.dfy` (module `FakeKV`): classes `KVData`, `Collection`, `KVStore` and `EventWriter`. They update their fields in place. Each method of `KVData` is proved against the `KVTable` function it implements. The methods of `KVStore` and `EventWriter` state their effect on the registry or the event list directly. `CacheLifecycle` replays the test's miss → insert → hit → overwrite sequence on the fakes.
- `input_fields.dfy` (module `InputFields`): the field records, and the regular expressions as recognisers over ASCII characters. The lemmas state each field's rule outright.

Facts about the code that the model makes explicit:
- When several documents match, `query` returns the first in insertion order (`KVTable.ScanSound`, `KVTable.QueryPrefersEarlier`). The code's key `city-country_code` is not injective (`KVTable.KeyCollision`). It is injective for country codes the configuration accepts (`InputFields.AcceptedCodesKeysInjective`).
- `update` can file a document under a key that disagrees with its fields (`KVTable.UpdateDiverges`). After that, the lookup by fields and the key space diverge.
- `delete` tests its argument for truthiness, so `delete("")` clears the whole table, just like `delete()`.

## Model

| member | source | states |
|---|---|---|
| `KVTable.QuerySound` | tests/unit/test_city_weather_unit.py:22-27 | A query yields at most one document. That document is stored and has the queried `city` and `country_code`. The result is empty exactly when no stored document matches. |
| `KVTable.ScanSound` | tests/unit/test_city_weather_unit.py:24-27 | Scanning in insertion order yields the first matching document and nothing before it matches. It yields nothing exactly when no document matches. |
| `KVTable.QueryEmpty` | tests/unit/test_city_weather_unit.py:20-27 | Every query on an empty table returns the empty list. |
| `KVTable.QueryUnique` | tests/unit/test_city_weather_unit.py:24-26 | When only the document under one key matches, the query returns exactly that document. |
| `FakeKV.KVData.constructor` | tests/unit/test_city_weather_unit.py:20-21 | A new table is valid and empty. |
| `FakeKV.KVData.Query` | tests/unit/test_city_weather_unit.py:22-27 | The loop over the documents in insertion order with an early return gives the first-match result `KVTable.Query`. |
| `FakeKV.KVData.Insert` | tests/unit/test_city_weather_unit.py:28-32 | The method raises `KeyError` for a missing `city` or `country_code` and then leaves the table unchanged. Otherwise it returns the document with `_key` set and the table becomes `KVTable.Insert` of the old one. |
| `KVTable.InsertStores` | tests/unit/test_city_weather_unit.py:28-32 | Insert gives `KeyError("city")` or `KeyError("country_code")` when the field is missing. Otherwise it stores the document with `_key = city-country_code` under that key, adds only that key and keeps every other document. |
| `KVTable.InsertOverwrites` | tests/unit/test_city_weather_unit.py:29-31 | Two inserts with the same derived key leave the table exactly as the second insert alone would. One document, the later one, sits under the key. |
| `KVTable.InsertIdempotent` | tests/unit/test_city_weather_unit.py:28-32 | Inserting the same document twice equals inserting it once. |
| `KVTable.InsertKeepsKeyedByFields` | tests/unit/test_city_weather_unit.py:30-31 | Insert preserves the invariant that every document sits under the key derived from its own fields and carries that key. |
| `KVTable.InsertThenQuery` | tests/unit/test_city_weather_unit.py:22-32 | In a table built by inserts alone, querying the city and country code of the document just inserted (strings, or `None` for JSON `null`) returns exactly `[that document]` with `_key` set. |
| `KVTable.KeyCollision` | tests/unit/test_city_weather_unit.py:30-31 | `("a-b","c")` and `("a","b-c")` both map to `"a-b-c"`. After both inserts one document remains, the second, and a query for the first pair misses. |
| `KVTable.DerivedKeyInjective` | tests/unit/test_city_weather_unit.py:30 | A derived key determines its city and country code when the country codes contain no `-`. |
| `KVTable.Without` | tests/unit/test_city_weather_unit.py:40 | Popping a key from a duplicate-free order removes exactly that key. The remaining keys keep their relative order (`s[..i] + s[i + 1..]`) and stay distinct. An absent key changes nothing. |
| `KVTable.Put` | tests/unit/test_city_weather_unit.py:31 | Storing under a key replaces that key's document. A new key goes last in the order, and an existing key keeps its place. |
| `KVTable.QueryPrefersEarlier` | tests/unit/test_city_weather_unit.py:24-37 | After an insert of `("a","b")` and an update under `"x"` with the same fields, two documents match. The query returns the inserted one, which came first. |
| `FakeKV.KVData.Update` | tests/unit/test_city_weather_unit.py:33-37 | The method returns the payload with `_key` set to the given key, and the table becomes `KVTable.Update` of the old one. |
| `KVTable.UpdateStores` | tests/unit/test_city_weather_unit.py:33-37 | Update stores `p` with `_key = k` under `k`, whether or not `k` was present. It adds only `k` and changes no other key. |
| `KVTable.UpdateDiverges` | tests/unit/test_city_weather_unit.py:22-37 | A document updated under `"x"` with fields `("a","b")` is found by a query for `("a","b")`. Its derived key `"a-b"` stays unused, and the table is no longer keyed by fields. |
| `FakeKV.KVData.Delete` | tests/unit/test_city_weather_unit.py:38-42 | The table becomes `KVTable.Delete` of the old one. |
| `KVTable.DeleteRemoves` | tests/unit/test_city_weather_unit.py:38-42 | Deleting a non-empty key removes that key only, and does nothing when the key is absent. Deleting with no key, or with `""`, empties the table. |
| `FakeKV.Collection.constructor` | tests/unit/test_city_weather_unit.py:50 | A new collection's data is a fresh, empty table. |
| `FakeKV.KVStore.constructor` | tests/unit/test_city_weather_unit.py:46-47 | A new store has no collections. |
| `FakeKV.KVStore.Get` | tests/unit/test_city_weather_unit.py:48-51 | An existing name returns the same collection and leaves the registry unchanged. A new name registers a fresh collection with an empty table. |
| `FakeKV.KVStore.Create` | tests/unit/test_city_weather_unit.py:52-53 | Create adds the name if it is missing, with a fresh collection whose table is empty. It never replaces an existing collection and never changes any collection's documents. |
| `FakeKV.EventWriter.constructor` | tests/unit/test_city_weather_unit.py:68-69 | A new writer has recorded no events. |
| `FakeKV.EventWriter.WriteEvent` | tests/unit/test_city_weather_unit.py:70-71 | The event is appended after the earlier ones, which stay unchanged. |
| `FakeKV.CacheLifecycle` | tests/unit/test_city_weather_unit.py:84-106 | On a fresh collection the query for `guanacaste/CR` misses. After an insert it returns the document at (10.5, -85.4). After a second insert it returns only the document at (10.6, -85.5). |
| `InputFields.StarAll` | output/ta_tdd_demo/bin/ta_tdd_demo_rh_city_weather_input.py:25 | A starred character class accepts exactly the strings made only of characters in that class. |
| `InputFields.LeadingAll` | output/ta_tdd_demo/bin/ta_tdd_demo_rh_city_weather_input.py:84 | A greedy run of a class covers only class characters and stops at the first character outside the class. |
| `InputFields.AllOfAccepts` | output/ta_tdd_demo/bin/ta_tdd_demo_rh_city_weather_input.py:23-31 | `AllOf` accepts a value exactly when every listed validator accepts it. |
| `InputFields.NameRule` | output/ta_tdd_demo/bin/ta_tdd_demo_rh_city_weather_input.py:17-33 | `name` is accepted exactly when it is 1 to 100 characters long, starts with a letter and continues with word characters. |
| `InputFields.CityRule` | output/ta_tdd_demo/bin/ta_tdd_demo_rh_city_weather_input.py:36-45 | `city` is accepted exactly when it is 1 to 100 characters long, with no restriction on characters. |
| `InputFields.CountryCodeRule` | output/ta_tdd_demo/bin/ta_tdd_demo_rh_city_weather_input.py:46-54 | `country_code` is accepted exactly when it is two letters from A to Z. `CR` passes and `cr` fails. |
| `InputFields.IndexRule` | output/ta_tdd_demo/bin/ta_tdd_demo_rh_city_weather_input.py:62-76 | `index` is accepted exactly when it is 1 to 80 characters long, starts alphanumeric and continues with alphanumerics, `_`, `-` or backslashes. |
| `InputFields.IndexBackslash` | output/ta_tdd_demo/bin/ta_tdd_demo_rh_city_weather_input.py:69 | `a\b` is accepted as an index, and a leading `_` is refused. |
| `InputFields.IndexDefault` | output/ta_tdd_demo/bin/ta_tdd_demo_rh_city_weather_input.py:66-76 | The default index `default` passes its rule. |
| `InputFields.DigitsNumericValue` | output/ta_tdd_demo/bin/ta_tdd_demo_rh_city_weather_input.py:84-89 | A non-empty digit string matches `\d+(\.\d+)?`, and its numeric value is the number its digits spell. |
| `InputFields.IntervalRule` | output/ta_tdd_demo/bin/ta_tdd_demo_rh_city_weather_input.py:77-91 | A digit-only `interval` is accepted exactly when its value is between 10 and 86400. |
| `InputFields.IntervalDefault` | output/ta_tdd_demo/bin/ta_tdd_demo_rh_city_weather_input.py:81-91 | The default interval `86400` passes its rule, at the upper bound. |
| `InputFields.IntervalMinusOne` | output/ta_tdd_demo/bin/ta_tdd_demo_rh_city_weather_input.py:84-89 | `-1` matches the interval pattern with value -1. The minimum of 10 then fails, so `AllOf` rejects it. |
| `InputFields.DefaultsSatisfyRules` | output/ta_tdd_demo/bin/ta_tdd_demo_rh_city_weather_input.py:35-106 | Every field that declares a default accepts that default. |
| `InputFields.RequiredFlags` | output/ta_tdd_demo/bin/ta_tdd_demo_rh_city_weather_input.py:17-106 | Every field is required except `disabled`. Field names are distinct. `sourcetype` and `account` have no validator. |
| `InputFields.AcceptedCodesKeysInjective` | output/ta_tdd_demo/bin/ta_tdd_demo_rh_city_weather_input.py:46-54 | Cache keys built from accepted country codes never collide for different (city, country) pairs. |

## Left out

- `city_weather_input_helper`, the production module that queries the cache, geocodes, fetches weather and writes events, is not part of this model. `CacheLifecycle` calls the fake table directly where the test goes through that helper.
- JSON parsing and serialisation: queries are a parsed `Filter` and payloads are parsed `Doc` records. A payload given as a string or as a dictionary behaves the same way.
- Dictionary aliasing: `insert` and `update` also write `_key` into the caller's dictionary. The model stores a stamped copy and returns it.
- Documents hold only `city`, `country_code`, `lat`, `lon` and `_key`. `city` and `country_code` are strings, JSON `null` or absent. Other JSON value kinds are not modelled. Coordinates are stored and compared only, so `real` stands in for float.
- `FakeSplunkService` with its no-op `receivers`, and `DummyLogger`: test wiring with no behaviour to model.
- The patched `splunk_client.connect` (tests/unit/test_city_weather_unit.py:80) builds a new service, and so a new empty store, on every call. Whether the test's hit (lines 98-99) and reset (lines 131-132) see earlier writes depends on how often the production helper connects, which is not part of this model. `CacheLifecycle` uses one store throughout.
- Regular-expression engine details: `\w` and `\d` are ASCII only, and `$` matches only at the very end, not before a trailing newline.
- The cron-expression alternative of the interval pattern is not modelled, so every cron string fails `Pattern(IntervalRegex)`.
- `Number` is modelled as float conversion of `-?\d+(\.\d+)?` only. Other strings `float()` accepts (exponents, surrounding blanks, `inf`, `nan`, underscores) count as unparsable. Values are exact reals, with no float rounding.
- InputFields.IntervalRule: stated for digit-only strings only. Decimal and negative values follow from `NumericValue` and are shown for `-1` by `IntervalMinusOne`.
- The `encrypted` flag is recorded, always false, and nothing depends on it.
- `admin_external.handle`, `RestModel`, `DataInputModel` and `remove_http_proxy_env_vars`: framework plumbing.
- The modular-input scheme (output/ta_tdd_demo/bin/city_weather_input.py), the demo web service (src/app.py), the test fixtures (tests/conftest.py) and the integration tests need live services and are not modelled.
