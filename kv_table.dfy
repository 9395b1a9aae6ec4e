/**
 The in-memory document table that stands in for one key-value store
 collection: a dictionary of documents keyed by `"{city}-{country_code}"`.

 A Python dictionary remembers the order in which its keys were first added,
 and `query` scans the values in that order, so a table is the map of
 documents together with that order.
 */
module KVTable {
  import opened Results

  /** One entry of a JSON object: missing, JSON `null`, or a string. */
  datatype Slot = Absent | Null | Text(s: string)

  /** `dict.get`: a missing entry and a `null` entry both read as `None`. */
  function DictGet(f: Slot): (r: Option<string>)
    ensures r.Some? <==> f.Text?
  {
    match f
    case Text(s) => Some(s)
    case _ => None
  }

  /** How an f-string renders a present entry: `None` for `null`. */
  function Render(f: Slot): string
    requires !f.Absent?
  {
    if f.Text? then f.s else "None"
  }

  /** A stored document. Coordinates are floats that are only stored and
      compared, never computed with, so `real` stands in for them. */
  datatype Doc = Doc(city: Slot, countryCode: Slot, lat: Option<real>, lon: Option<real>, key: Option<string>)

  /** A parsed query object; an absent query is `Filter(None, None)`. */
  datatype Filter = Filter(city: Option<string>, countryCode: Option<string>)

  const NoFilter := Filter(None, None)

  /** The test `query` applies to each document. */
  predicate Matches(d: Doc, q: Filter)
  {
    DictGet(d.city) == q.city && DictGet(d.countryCode) == q.countryCode
  }

  /** The key `insert` derives from a document's fields. */
  function DerivedKey(city: string, countryCode: string): string
  {
    city + "-" + countryCode
  }

  datatype Table = Table(docs: map<string, Doc>, order: seq<string>)

  const Empty := Table(map[], [])

  predicate Distinct(s: seq<string>)
  {
    forall i, j :: 0 <= i < j < |s| ==> s[i] != s[j]
  }

  /** The order lists every stored key exactly once. */
  ghost predicate WellFormed(t: Table)
  {
    Distinct(t.order) && forall k :: k in t.docs <==> k in t.order
  }

  /** Every document sits under the key derived from its own fields and
      carries that key: what a table built by `insert` alone satisfies. */
  predicate KeyedByFields(t: Table)
  {
    forall k :: k in t.docs ==>
      && !t.docs[k].city.Absent? && !t.docs[k].countryCode.Absent?
      && DerivedKey(Render(t.docs[k].city), Render(t.docs[k].countryCode)) == k
      && t.docs[k].key == Some(k)
  }

  // ---------------------------------------------------------------- query

  /** The values of `docs` visited in `order`, up to the first match. */
  function Scan(order: seq<string>, docs: map<string, Doc>, q: Filter): seq<Doc>
  {
    if order == [] then []
    else if order[0] in docs && Matches(docs[order[0]], q) then [docs[order[0]]]
    else Scan(order[1..], docs, q)
  }

  /** `FakeKVData.query`: a list holding the first matching document, or empty. */
  function Query(t: Table, q: Filter): seq<Doc>
  {
    Scan(t.order, t.docs, q)
  }

  lemma {:induction false} ScanSound(order: seq<string>, docs: map<string, Doc>, q: Filter)
    ensures var r := Scan(order, docs, q);
      && |r| <= 1
      && (r == [] <==> forall i :: 0 <= i < |order| && order[i] in docs ==> !Matches(docs[order[i]], q))
      && (r != [] ==> exists i :: 0 <= i < |order| && order[i] in docs && docs[order[i]] == r[0]
                        && Matches(r[0], q)
                        && forall j :: 0 <= j < i && order[j] in docs ==> !Matches(docs[order[j]], q))
  {
    if order != [] {
      ScanSound(order[1..], docs, q);
      var r := Scan(order, docs, q);
      if order[0] in docs && Matches(docs[order[0]], q) {
        assert 0 < |order| && docs[order[0]] == r[0];
      } else {
        assert r == Scan(order[1..], docs, q);
        forall i | 0 <= i < |order[1..]|
          ensures order[1..][i] == order[i + 1]
        {
        }
        if r != [] {
          var i :| 0 <= i < |order[1..]| && order[1..][i] in docs && docs[order[1..][i]] == r[0]
                     && Matches(r[0], q)
                     && forall j :: 0 <= j < i && order[1..][j] in docs ==> !Matches(docs[order[1..][j]], q);
          assert order[i + 1] in docs && docs[order[i + 1]] == r[0];
          forall j | 0 <= j < i + 1 && order[j] in docs
            ensures !Matches(docs[order[j]], q)
          {
            if j > 0 { assert order[j] == order[1..][j - 1]; }
          }
        } else {
          forall i | 0 <= i < |order| && order[i] in docs
            ensures !Matches(docs[order[i]], q)
          {
            if i > 0 { assert order[i] == order[1..][i - 1]; }
          }
        }
      }
    }
  }

  /** A query yields at most one document; what it yields is a stored
      document whose `city` and `country_code` are the queried ones; it yields
      nothing exactly when no stored document matches. That it is the first
      such in insertion order is `ScanSound`. */
  lemma QuerySound(t: Table, q: Filter)
    requires WellFormed(t)
    ensures var r := Query(t, q);
      && |r| <= 1
      && (r == [] <==> forall k :: k in t.docs ==> !Matches(t.docs[k], q))
      && (r != [] ==> Matches(r[0], q) && exists k :: k in t.docs && t.docs[k] == r[0])
  {
    ScanSound(t.order, t.docs, q);
    var r := Query(t, q);
    if r == [] {
      forall k | k in t.docs ensures !Matches(t.docs[k], q) {
        var i :| 0 <= i < |t.order| && t.order[i] == k;
      }
    }
  }

  /** On an empty table every query misses, whatever it asks for. */
  lemma QueryEmpty(q: Filter)
    ensures Query(Empty, q) == []
  {
  }

  /** When the document under key `k` matches and every matching document is
      stored under `k`, the query yields exactly that document. */
  lemma {:induction false} QueryUnique(t: Table, q: Filter, k: string)
    requires WellFormed(t)
    requires k in t.docs && Matches(t.docs[k], q)
    requires forall k' :: k' in t.docs && Matches(t.docs[k'], q) ==> k' == k
    ensures Query(t, q) == [t.docs[k]]
  {
    QuerySound(t, q);
    var r := Query(t, q);
    var k' :| k' in t.docs && t.docs[k'] == r[0];
    assert k' == k;
  }

  // ---------------------------------------------------------------- writes

  /** `docs[k] = d`: a new key goes to the end of the order, an existing key
      keeps its place. */
  function Put(t: Table, k: string, d: Doc): (r: Table)
    requires WellFormed(t)
    ensures WellFormed(r)
    ensures r.docs == t.docs[k := d]
    ensures r.order == if k in t.docs then t.order else t.order + [k]
  {
    var order := if k in t.docs then t.order else t.order + [k];
    assert forall x :: x in order <==> x in t.order || x == k;
    Table(t.docs[k := d], order)
  }

  /** The document `insert` stores: the key derived from `city` and
      `country_code`, written into `_key`; `KeyError` when either is missing. */
  function Keyed(d: Doc): Result<Doc>
  {
    if d.city.Absent? then KeyError("city")
    else if d.countryCode.Absent? then KeyError("country_code")
    else
      var k := DerivedKey(Render(d.city), Render(d.countryCode));
      Ok(d.(key := Some(k)))
  }

  /** `FakeKVData.insert`: stores the keyed document under its key. */
  function Insert(t: Table, d: Doc): Result<Table>
    requires WellFormed(t)
  {
    match Keyed(d)
    case Ok(s) => Ok(Put(t, s.key.value, s))
    case KeyError(f) => KeyError(f)
  }

  /** `FakeKVData.update`: stores the payload under the caller's key, with
      `_key` set to that key. */
  function Update(t: Table, k: string, p: Doc): Table
    requires WellFormed(t)
  {
    Put(t, k, p.(key := Some(k)))
  }

  /** The order with `k` taken out and everything else kept in place. */
  function Without(s: seq<string>, k: string): (r: seq<string>)
    ensures forall x :: x in r <==> x in s && x != k
    ensures Distinct(s) ==> Distinct(r)
    ensures k !in s ==> r == s
    ensures Distinct(s) ==> forall i :: 0 <= i < |s| && s[i] == k ==> r == s[..i] + s[i + 1..]
  {
    if s == [] then []
    else
      var rest := Without(s[1..], k);
      if s[0] == k then rest
      else
        assert Distinct(s) ==> s[0] !in s[1..];
        assert Distinct(s) ==> Distinct(s[1..]) by {
          if Distinct(s) {
            forall i, j | 0 <= i < j < |s[1..]| ensures s[1..][i] != s[1..][j] {
              assert s[1..][i] == s[i + 1] && s[1..][j] == s[j + 1];
            }
          }
        }
        if Distinct(s) then
          DistinctCons(s[0], rest);
          WithoutKeepsOrder(s, k, rest);
          [s[0]] + rest
        else [s[0]] + rest
  }

  /** Popping a key other than the first keeps the first in front of what
      popping from the rest leaves. */
  lemma WithoutKeepsOrder(s: seq<string>, k: string, rest: seq<string>)
    requires s != [] && s[0] != k && Distinct(s)
    requires forall i :: 0 <= i < |s[1..]| && s[1..][i] == k ==> rest == s[1..][..i] + s[1..][i + 1..]
    ensures forall i :: 0 <= i < |s| && s[i] == k ==> [s[0]] + rest == s[..i] + s[i + 1..]
  {
    forall i | 0 <= i < |s| && s[i] == k ensures [s[0]] + rest == s[..i] + s[i + 1..] {
      assert i > 0 && s[1..][i - 1] == k;
      assert rest == s[1..][..i - 1] + s[1..][i..];
      assert s[..i] == [s[0]] + s[1..][..i - 1];
      assert s[i + 1..] == s[1..][i..];
    }
  }

  lemma DistinctCons(x: string, s: seq<string>)
    requires Distinct(s) && x !in s
    ensures Distinct([x] + s)
  {
  }

  /** `FakeKVData.delete`: a key that Python treats as true (present and not
      empty) is popped if present; `None` or `""` clears the whole table. */
  function Delete(t: Table, key: Option<string>): Table
  {
    if key.Some? && key.value != "" then Table(t.docs - {key.value}, Without(t.order, key.value))
    else Empty
  }

  // ---------------------------------------------------------------- properties of writes

  /** `insert` refuses a document without `city` or `country_code`, and
      otherwise stores it under `city-country_code` with `_key` set, keeping
      every other key's document and the table well formed. */
  lemma InsertStores(t: Table, d: Doc)
    requires WellFormed(t)
    ensures d.city.Absent? ==> Insert(t, d) == KeyError("city")
    ensures !d.city.Absent? && d.countryCode.Absent? ==> Insert(t, d) == KeyError("country_code")
    ensures !d.city.Absent? && !d.countryCode.Absent? ==>
      var k := DerivedKey(Render(d.city), Render(d.countryCode));
      && Insert(t, d).Ok?
      && WellFormed(Insert(t, d).value)
      && Insert(t, d).value.docs.Keys == t.docs.Keys + {k}
      && Insert(t, d).value.docs[k] == d.(key := Some(k))
      && forall k' :: k' in t.docs && k' != k ==> Insert(t, d).value.docs[k'] == t.docs[k']
  {
  }

  /** A second insert under the same derived key leaves the table exactly as
      if only the second had happened: one document under the key, the later
      one, in the key's original place. */
  lemma InsertOverwrites(t: Table, d1: Doc, d2: Doc)
    requires WellFormed(t)
    requires Keyed(d1).Ok? && Keyed(d2).Ok?
    requires Keyed(d1).value.key == Keyed(d2).value.key
    ensures Insert(Insert(t, d1).value, d2) == Insert(t, d2)
  {
    var k := Keyed(d1).value.key.value;
    assert t.docs[k := Keyed(d1).value][k := Keyed(d2).value] == t.docs[k := Keyed(d2).value];
  }

  /** Inserting the same document twice is the same as inserting it once. */
  lemma InsertIdempotent(t: Table, d: Doc)
    requires WellFormed(t)
    requires Keyed(d).Ok?
    ensures Insert(Insert(t, d).value, d) == Insert(t, d)
  {
    InsertOverwrites(t, d, d);
  }

  /** `insert` keeps every document under the key derived from its fields. */
  lemma InsertKeepsKeyedByFields(t: Table, d: Doc)
    requires WellFormed(t) && KeyedByFields(t)
    requires Keyed(d).Ok?
    ensures KeyedByFields(Insert(t, d).value)
  {
  }

  /** Round trip: in a table built by `insert` alone, querying the city and
      country code of the document just inserted (as `dict.get` reads them,
      so a `null` field queries as `None`) yields exactly that document, with
      `_key` set. */
  lemma {:induction false} InsertThenQuery(t: Table, d: Doc)
    requires WellFormed(t) && KeyedByFields(t)
    requires !d.city.Absent? && !d.countryCode.Absent?
    ensures Insert(t, d).Ok? && Keyed(d).Ok?
    ensures Query(Insert(t, d).value, Filter(DictGet(d.city), DictGet(d.countryCode))) == [Keyed(d).value]
  {
    var k := Keyed(d).value.key.value;
    var t' := Insert(t, d).value;
    var q := Filter(DictGet(d.city), DictGet(d.countryCode));
    InsertKeepsKeyedByFields(t, d);
    forall k' | k' in t'.docs && Matches(t'.docs[k'], q) ensures k' == k {
      assert t'.docs[k'].city == d.city && t'.docs[k'].countryCode == d.countryCode;
    }
    QueryUnique(t', q, k);
  }

  /** The key derivation is not injective: two different (city, country)
      pairs share a key, so the later insert replaces the earlier document
      and the earlier pair then misses. */
  lemma KeyCollision(lat1: real, lat2: real)
    ensures DerivedKey("a-b", "c") == DerivedKey("a", "b-c") == "a-b-c"
    ensures var d1 := Doc(Text("a-b"), Text("c"), Some(lat1), None, None);
            var d2 := Doc(Text("a"), Text("b-c"), Some(lat2), None, None);
            var t := Insert(Insert(Empty, d1).value, d2).value;
            && t.docs.Keys == {"a-b-c"}
            && t.docs["a-b-c"] == d2.(key := Some("a-b-c"))
            && Query(t, Filter(Some("a-b"), Some("c"))) == []
  {
    assert "a-b" + "-" + "c" == "a-b-c";
    assert "a" + "-" + "b-c" == "a-b-c";
    var d1 := Doc(Text("a-b"), Text("c"), Some(lat1), None, None);
    var d2 := Doc(Text("a"), Text("b-c"), Some(lat2), None, None);
    var t1 := Insert(Empty, d1).value;
    assert t1.order == ["a-b-c"];
    var t := Insert(t1, d2).value;
    assert t.order == ["a-b-c"] && t.docs["a-b-c"].city == Text("a");
    var q := Filter(Some("a-b"), Some("c"));
    assert !Matches(t.docs[t.order[0]], q);
    assert Scan(t.order, t.docs, q) == Scan(t.order[1..], t.docs, q);
    assert t.order[1..] == [];
  }

  /** Keys derived from country codes without `-` (every code the
      configuration accepts) identify the (city, country) pair. */
  lemma {:induction false} DerivedKeyInjective(c1: string, k1: string, c2: string, k2: string)
    requires '-' !in k1 && '-' !in k2
    requires DerivedKey(c1, k1) == DerivedKey(c2, k2)
    ensures c1 == c2 && k1 == k2
  {
    var s := DerivedKey(c1, k1);
    DerivedKeyAt(c1, k1);
    DerivedKeyAt(c2, k2);
    if |k1| < |k2| {
      assert false;
    } else if |k2| < |k1| {
      assert false;
    }
    assert k1 == s[|s| - |k1|..] == k2;
    assert c1 == s[..|c1|] == c2;
  }

  /** Where the parts of a derived key sit in it. */
  lemma DerivedKeyAt(c: string, k: string)
    ensures var s := DerivedKey(c, k);
      && |s| == |c| + 1 + |k|
      && s[|c|] == '-'
      && s[..|c|] == c && s[|c| + 1..] == k
      && forall i :: 0 <= i < |k| ==> s[|c| + 1 + i] == k[i]
  {
  }

  /** `update` stores the payload under the caller's key with `_key` set to
      it, whether or not the key was present, and changes no other key. */
  lemma UpdateStores(t: Table, k: string, p: Doc)
    requires WellFormed(t)
    ensures WellFormed(Update(t, k, p))
    ensures Update(t, k, p).docs.Keys == t.docs.Keys + {k}
    ensures Update(t, k, p).docs[k] == p.(key := Some(k))
    ensures forall k' :: k' in t.docs && k' != k ==> Update(t, k, p).docs[k'] == t.docs[k']
  {
  }

  /** `update` may file a document under a key that disagrees with its own
      fields: the query by fields finds it while its derived key stays
      unused, and the table is no longer keyed by fields. */
  lemma UpdateDiverges(p: Doc)
    requires p.city == Text("a") && p.countryCode == Text("b")
    ensures var t := Update(Empty, "x", p);
      && Query(t, Filter(Some("a"), Some("b"))) == [p.(key := Some("x"))]
      && DerivedKey("a", "b") !in t.docs
      && !KeyedByFields(t)
  {
  }

  /** When `update` files a second document with the same fields under
      another key, the query still returns the one added first: the scan
      follows insertion order. */
  lemma {:induction false} QueryPrefersEarlier(d: Doc, p: Doc)
    requires d.city == p.city == Text("a") && d.countryCode == p.countryCode == Text("b")
    ensures Insert(Empty, d).Ok?
    ensures var t := Update(Insert(Empty, d).value, "x", p);
      && |t.docs| == 2
      && Query(t, Filter(Some("a"), Some("b"))) == [d.(key := Some("a-b"))]
  {
    assert DerivedKey("a", "b") == "a-b";
    var t1 := Insert(Empty, d).value;
    assert t1.order == ["a-b"];
    var t := Update(t1, "x", p);
    assert t.order == ["a-b", "x"];
    assert t.docs.Keys == {"a-b", "x"};
    assert Matches(t.docs[t.order[0]], Filter(Some("a"), Some("b")));
  }

  /** `delete(k)` removes key `k` only, and is a no-op when `k` is absent;
      `delete()` and `delete("")` empty the table. */
  lemma DeleteRemoves(t: Table, key: Option<string>)
    requires WellFormed(t)
    ensures WellFormed(Delete(t, key))
    ensures key.Some? && key.value != "" ==>
      && Delete(t, key).docs.Keys == t.docs.Keys - {key.value}
      && (forall k' :: k' in Delete(t, key).docs ==> Delete(t, key).docs[k'] == t.docs[k'])
      && (key.value !in t.docs ==> Delete(t, key) == t)
    ensures key.None? || key.value == "" ==> Delete(t, key) == Empty
  {
  }
}
