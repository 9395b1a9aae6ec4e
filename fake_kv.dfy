/**
 The in-memory fakes the unit tests put in place of the key-value store
 service and the event writer: a document table whose dictionary and
 insertion order are updated in place, a registry that creates named
 collections on first access, and a writer that records events.
 Each method of `KVData` is specified by the value-level table of module
 KVTable; the registry and the writer state their effects directly.
 */
module FakeKV {
  import opened Results
  import opened KVTable

  /** `FakeKVData`: the documents of one collection. */
  class KVData {
    var docs: map<string, Doc>
    var order: seq<string>

    function View(): Table
      reads this
    {
      Table(docs, order)
    }

    ghost predicate Valid()
      reads this
    {
      WellFormed(View())
    }

    constructor ()
      ensures Valid() && View() == Empty
    {
      docs := map[];
      order := [];
    }

    /** `query`: visits the documents in insertion order and returns the
        first whose `city` and `country_code` equal the queried ones. */
    method Query(q: Filter) returns (r: seq<Doc>)
      requires Valid()
      ensures r == KVTable.Query(View(), q)
    {
      var i := 0;
      while i < |order|
        invariant 0 <= i <= |order|
        invariant Scan(order[i..], docs, q) == Scan(order, docs, q)
      {
        assert order[i..][1..] == order[i + 1..];
        var d := docs[order[i]];
        if Matches(d, q) {
          return [d];
        }
        i := i + 1;
      }
      return [];
    }

    /** `insert`: derives the key from `city` and `country_code`, writes it
        into `_key` and stores the document under it; a missing field raises
        `KeyError` before anything changes. */
    method Insert(d: Doc) returns (r: Result<Doc>)
      requires Valid()
      modifies this
      ensures Valid()
      ensures r == Keyed(d)
      ensures View() == if r.Ok? then KVTable.Insert(old(View()), d).value else old(View())
    {
      if d.city.Absent? {
        return KeyError("city");
      }
      if d.countryCode.Absent? {
        return KeyError("country_code");
      }
      var k := DerivedKey(Render(d.city), Render(d.countryCode));
      var stored := d.(key := Some(k));
      if k !in docs {
        order := order + [k];
      }
      docs := docs[k := stored];
      return Ok(stored);
    }

    /** `update`: stores the payload under the caller's key, with `_key` set
        to that key. */
    method Update(k: string, p: Doc) returns (r: Doc)
      requires Valid()
      modifies this
      ensures Valid()
      ensures r == p.(key := Some(k))
      ensures View() == KVTable.Update(old(View()), k, p)
    {
      r := p.(key := Some(k));
      if k !in docs {
        order := order + [k];
      }
      docs := docs[k := r];
    }

    /** `delete`: pops a non-empty key if present, otherwise clears all. */
    method Delete(key: Option<string>)
      requires Valid()
      modifies this
      ensures Valid()
      ensures View() == KVTable.Delete(old(View()), key)
    {
      if key.Some? && key.value != "" {
        docs := docs - {key.value};
        order := Without(order, key.value);
      } else {
        docs := map[];
        order := [];
      }
    }
  }

  /** The collection object the registry hands out; its only attribute is
      its document table. */
  class Collection {
    const data: KVData

    constructor ()
      ensures fresh(data) && data.Valid() && data.View() == Empty
    {
      data := new KVData();
    }
  }

  /** `FakeKVStore`: named collections, created on first access. */
  class KVStore {
    var colls: map<string, Collection>

    ghost function Tables(): set<KVData>
      reads this
    {
      set n | n in colls :: colls[n].data
    }

    /** Every collection's table is valid, and no two names share a table. */
    ghost predicate Valid()
      reads this, Tables()
    {
      && (forall n :: n in colls ==> colls[n].data.Valid())
      && (forall n, m :: n in colls && m in colls && n != m ==> colls[n].data != colls[m].data)
    }

    constructor ()
      ensures Valid() && colls == map[]
    {
      colls := map[];
    }

    /** `__getitem__`: the collection registered under `name`, creating an
        empty one the first time; later accesses return the same object. */
    method Get(name: string) returns (c: Collection)
      requires Valid()
      modifies this
      ensures Valid()
      ensures name in colls && colls[name] == c
      ensures name in old(colls) ==> colls == old(colls) && c == old(colls[name])
      ensures name !in old(colls) ==>
        && colls == old(colls)[name := c]
        && fresh(c) && fresh(c.data) && c.data.View() == Empty
    {
      if name !in colls {
        var created := new Collection();
        colls := colls[name := created];
      }
      c := colls[name];
    }

    /** `create`: the same as an access whose result is dropped, so creating
        an existing collection neither replaces nor clears it. */
    method Create(name: string)
      requires Valid()
      modifies this
      ensures Valid()
      ensures colls.Keys == old(colls.Keys) + {name}
      ensures forall n :: n in old(colls) ==> colls[n] == old(colls[n])
      ensures forall n :: n in old(colls) ==> colls[n].data.View() == old(colls[n].data.View())
      ensures name !in old(colls) ==>
        fresh(colls[name]) && fresh(colls[name].data) && colls[name].data.View() == Empty
    {
      var _ := Get(name);
    }
  }

  /** `DummyWriter`: records every event it is asked to write. */
  class EventWriter<E> {
    var events: seq<E>

    constructor ()
      ensures events == []
    {
      events := [];
    }

    /** `write_event`: appends exactly one event after the earlier ones. */
    method WriteEvent(e: E)
      modifies this
      ensures events == old(events) + [e]
    {
      events := events + [e];
    }
  }

  /** The cache life cycle the unit test walks through, on the fakes alone:
      a fresh collection misses, an insert makes the next query hit, and a
      second insert for the same city replaces the coordinates. */
  method CacheLifecycle() returns (miss: seq<Doc>, hit: seq<Doc>, refreshed: seq<Doc>)
    ensures miss == []
    ensures hit == [Doc(Text("guanacaste"), Text("CR"), Some(10.5), Some(-85.4), Some("guanacaste-CR"))]
    ensures refreshed == [Doc(Text("guanacaste"), Text("CR"), Some(10.6), Some(-85.5), Some("guanacaste-CR"))]
  {
    var store := new KVStore();
    var coll := store.Get("city_geo");
    var table := coll.data;
    var q := Filter(Some("guanacaste"), Some("CR"));
    miss := table.Query(q);

    var first := Doc(Text("guanacaste"), Text("CR"), Some(10.5), Some(-85.4), None);
    assert KeyedByFields(table.View());
    InsertThenQuery(table.View(), first);
    var _ := table.Insert(first);
    hit := table.Query(q);

    var second := Doc(Text("guanacaste"), Text("CR"), Some(10.6), Some(-85.5), None);
    InsertKeepsKeyedByFields(Empty, first);
    InsertThenQuery(table.View(), second);
    var _ := table.Insert(second);
    refreshed := table.Query(q);
    assert DerivedKey("guanacaste", "CR") == "guanacaste-CR";
  }
}
