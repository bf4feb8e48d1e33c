/** The catalog: a table of records kept by a query, filtered into new
    catalogs, and looked up by key or by alias, always giving exactly one
    datasource or a lookup error. */
module Catalogs {
  import opened Queries
  import opened Sequences
  import opened Alias
  import opened Tables

  /** A handle on one record; created on demand by lookup and iteration. */
  datatype Datasource = Datasource(record: Record)

  /** The two KeyErrors of a lookup: nothing matched the key, or its alias
      matched more than one record ("Not a unique enough key"). */
  datatype LookupError = NotFound(key: Key) | NotUnique

  datatype Result<T> = Ok(value: T) | Err(error: LookupError)

  /** The separator between the parts of an alias. */
  const AliasSeparator: char := '.'

  /** The query an alias stands for: the columns without (the first
      occurrence of) the path column, paired with the dot-separated parts. */
  function AliasOf(columns: seq<string>, pathColumn: string, key: Key): (q: Query)
    requires pathColumn in columns
    ensures q.Doc? && forall f :: f in q.eqs ==> f in columns
    ensures Distinct(columns) ==> pathColumn !in q.eqs
  {
    var rest := RemoveFirst(columns, pathColumn);
    var i := FirstIndex(columns, pathColumn);
    assert forall f :: f in rest ==> f in columns;
    assert Distinct(columns) ==> pathColumn !in rest by {
      if Distinct(columns) {
        forall j | 0 <= j < |rest| ensures rest[j] != pathColumn {
          if j < i { assert rest[j] == columns[j]; } else { assert rest[j] == columns[j + 1]; }
        }
      }
    }
    AliasQuery(rest, Split(key, AliasSeparator))
  }

  /** What `catalog[key]` returns for a catalog in the given state: the
      stored record under `key`, or else the one record the filtered
      catalog for the alias holds, or an error for none or several.
      This is the reference definition `GetItem` is proved against; the
      lemma `LookupOutcome` characterises it independently, in terms of the
      records the alias selects. The column list is read only on a miss. */
  function Lookup(pathColumn: string, columns: seq<string>, query: Query,
                  order: seq<Key>, rows: map<Key, Record>, key: Key): (r: Result<Datasource>)
    requires key in rows || pathColumn in columns
    requires forall k :: k in order ==> k in rows
    ensures r.Ok? ==> exists k :: k in rows && r.value == Datasource(rows[k])
    ensures r.Err? ==> key !in rows && (r.error.NotFound? ==> r.error.key == key)
  {
    if key in rows then Ok(Datasource(rows[key]))
    else
      var hits := KeepOrder(Combine(query, AliasOf(columns, pathColumn, key)), order, rows);
      if |hits| > 1 then Err(NotUnique)
      else if |hits| == 0 then Err(NotFound(key))
      else Ok(Datasource(rows[hits[0]]))
  }

  class Catalog {
    /** The name of the column whose values are the record keys
        (`json_dict['assets']['column_name']`). */
    var pathColumn: string
    /** The table's column names, in order. */
    var columns: seq<string>
    /** The query every kept record matches; `{}` when there is none. */
    var query: Query
    /** The kept records, by key. */
    var records: map<Key, Record>
    /** The keys of `records` in insertion order, as the dict iterates them. */
    var keys: seq<Key>

    /** The catalog's invariant: `keys` orders `records`, and every record
        matches the query. */
    ghost predicate Valid()
      reads this
    {
      Ordered(keys, records) && AllMatch(records, query)
    }

    /** Builds a catalog from given records: keeps, in order, exactly those
        that match the (normalised) query. */
    constructor (pathColumn: string, query: Option<Query>, order: seq<Key>, rows: map<Key, Record>,
                 columns: seq<string>)
      requires Ordered(order, rows)
      ensures Valid()
      ensures this.pathColumn == pathColumn && this.columns == columns
      ensures this.query == Normalize(query)
      ensures records == Restrict(rows, this.query)
      ensures keys == KeepOrder(this.query, order, rows)
    {
      this.pathColumn := pathColumn;
      this.query := Normalize(query);
      this.columns := columns;
      new;
      var q := this.query;
      records := map[];
      keys := [];
      var i := 0;
      while i < |order|
        invariant 0 <= i <= |order|
        invariant this.pathColumn == pathColumn && this.columns == columns && this.query == q
        invariant keys == KeepOrder(q, order[..i], rows)
        invariant forall k :: k in records <==> k in keys
        invariant forall k :: k in records ==> records[k] == rows[k]
      {
        var key, record := order[i], rows[order[i]];
        KeepOrderStep(q, order, rows, i);
        if Matches(q, record) {
          records := records[key := record];
          keys := keys + [key];
        }
        i := i + 1;
      }
      assert order[..i] == order;
      SelectedTable(q, order, rows, records, keys);
    }

    /** `filter(q)` (also `search`): a new catalog over this one's records with
        the combined query. The receiver is not modified. */
    method Filter(q: Query) returns (c: Catalog)
      requires Valid()
      ensures fresh(c) && c.Valid()
      ensures c.pathColumn == pathColumn && c.columns == columns
      ensures c.query == Combine(query, q)
      ensures c.records == Restrict(records, c.query)
      ensures c.keys == KeepOrder(c.query, keys, records)
    {
      c := new Catalog(pathColumn, Some(Combine(query, q)), keys, records, columns);
    }

    /** `len(catalog)`: the number of kept records, which is also the number
        of keys iteration yields. */
    method Len() returns (n: nat)
      requires Valid()
      ensures n == |records| && n == |keys|
    {
      n := |records|;
      DistinctCard(keys);
      assert (set k | k in keys) == records.Keys;
    }

    /** `catalog.items()`: each key with a datasource on its record, in
        insertion order. */
    method Items() returns (items: seq<(Key, Datasource)>)
      requires Valid()
      ensures |items| == |keys|
      ensures forall i :: 0 <= i < |items| ==> items[i] == (keys[i], Datasource(records[keys[i]]))
    {
      items := [];
      for i := 0 to |keys|
        invariant |items| == i
        invariant forall j :: 0 <= j < i ==> items[j] == (keys[j], Datasource(records[keys[j]]))
      {
        items := items + [(keys[i], Datasource(records[keys[i]]))];
      }
    }

    /** `iter(catalog)`: every key of the record map, each exactly once, in
        insertion order. */
    method Iter() returns (ks: seq<Key>)
      requires Valid()
      ensures ks == keys
      ensures Distinct(ks) && forall k :: k in ks <==> k in records
    {
      var items := Items();
      ks := [];
      for i := 0 to |items|
        invariant ks == keys[..i]
      {
        ks := ks + [items[i].0];
      }
      assert keys[..|items|] == keys;
    }

    /** `catalog[key]`: the record stored under `key`; otherwise `key` read
        as an alias, which must select exactly one record. For a key that
        is not stored, Python raises ValueError when the path column is not
        among the columns. */
    method GetItem(key: Key) returns (r: Result<Datasource>)
      requires Valid() && (key in records || pathColumn in columns)
      ensures r == Lookup(pathColumn, columns, query, keys, records, key)
    {
      if key in records {
        return Ok(Datasource(records[key]));
      }
      var aliasColumns := RemoveFirst(columns, pathColumn);
      var results := Filter(AliasQuery(aliasColumns, Split(key, AliasSeparator)));
      var n := results.Len();
      if n > 1 {
        return Err(NotUnique);
      } else if n == 0 {
        return Err(NotFound(key));
      }
      var items := results.Items();
      r := Ok(items[0].1);
    }

    /** `key in catalog`: whether `catalog[key]` succeeds. */
    method Contains(key: Key) returns (b: bool)
      requires Valid() && (key in records || pathColumn in columns)
      ensures b <==> Lookup(pathColumn, columns, query, keys, records, key).Ok?
    {
      var r := GetItem(key);
      b := r.Ok?;
    }
  }

  /** Filtering a valid catalog selects, from its records, those matching
      the new query; the old query is already satisfied by all of them. */
  lemma FilterSelects(order: seq<Key>, rows: map<Key, Record>, current: Query, q: Query)
    requires Ordered(order, rows) && AllMatch(rows, current)
    ensures Restrict(rows, Combine(current, q)) == Restrict(rows, q)
    ensures KeepOrder(Combine(current, q), order, rows) == KeepOrder(q, order, rows)
  {
    KeepOrderAgree(Combine(current, q), q, order, rows);
  }

  /** Filtering with `{}` gives back the same records in the same order. */
  lemma FilterEmpty(order: seq<Key>, rows: map<Key, Record>, current: Query)
    requires Ordered(order, rows) && AllMatch(rows, current)
    ensures Restrict(rows, Combine(current, Empty)) == rows
    ensures KeepOrder(Combine(current, Empty), order, rows) == order
  {
    KeepOrderAll(Combine(current, Empty), order, rows);
  }

  /** Filtering with `a` and then with `b` selects the same records, in the
      same order, as filtering once with `{'$and': [a, b]}`. */
  lemma FilterTwice(order: seq<Key>, rows: map<Key, Record>, current: Query, a: Query, b: Query)
    requires Ordered(order, rows) && AllMatch(rows, current)
    ensures var q1 := Combine(current, a);
            var rows1, order1 := Restrict(rows, q1), KeepOrder(q1, order, rows);
            var q2 := Combine(q1, b);
            var both := Combine(current, And([a, b]));
            Restrict(rows1, q2) == Restrict(rows, both) &&
            KeepOrder(q2, order1, rows1) == KeepOrder(both, order, rows)
  {
    var q1 := Combine(current, a);
    var q2 := Combine(q1, b);
    var both := Combine(current, And([a, b]));
    AndPair(a, b);
    KeepOrderTwice(q1, q2, order, rows);
    KeepOrderAgree(Combine(q1, q2), both, order, rows);
  }

  /** Filtering twice with the same query is filtering once. */
  lemma FilterIdempotent(order: seq<Key>, rows: map<Key, Record>, current: Query, q: Query)
    requires Ordered(order, rows) && AllMatch(rows, current)
    ensures var q1 := Combine(current, q);
            var rows1, order1 := Restrict(rows, q1), KeepOrder(q1, order, rows);
            Restrict(rows1, Combine(q1, q)) == rows1 &&
            KeepOrder(Combine(q1, q), order1, rows1) == order1
  {
    var q1 := Combine(current, q);
    var rows1, order1 := Restrict(rows, q1), KeepOrder(q1, order, rows);
    KeepOrderOrdered(q1, order, rows);
    KeepOrderAll(Combine(q1, q), order1, rows1);
  }

  /** The catalog that filtering a valid catalog with `q` builds holds as
      many records as match `q`; when that is one, it is the only record
      matching `q`. */
  lemma FilterHits(order: seq<Key>, rows: map<Key, Record>, current: Query, q: Query)
    requires Ordered(order, rows) && AllMatch(rows, current)
    ensures var sel := KeepOrder(Combine(current, q), order, rows);
            |sel| == |Restrict(rows, q)| &&
            (|sel| == 1 ==> Restrict(rows, q) == map[sel[0] := rows[sel[0]]])
  {
    var sel := KeepOrder(Combine(current, q), order, rows);
    FilterSelects(order, rows, current, q);
    KeepOrderCount(q, order, rows);
    if |sel| == 1 {
      SingleSelected(q, order, rows);
    }
  }

  /** The outcomes of a lookup on a valid catalog. A stored key gives its own
      record. Any other key gives NotFound(key) when its alias selects no
      record, NotUnique when it selects several, and otherwise the one
      record it selects. */
  lemma LookupOutcome(pathColumn: string, columns: seq<string>, query: Query,
                      order: seq<Key>, rows: map<Key, Record>, key: Key)
    requires key in rows || pathColumn in columns
    requires Ordered(order, rows) && AllMatch(rows, query)
    ensures var r := Lookup(pathColumn, columns, query, order, rows, key);
            && (key in rows ==> r == Ok(Datasource(rows[key])))
            && (key !in rows ==>
                  var hits := Restrict(rows, AliasOf(columns, pathColumn, key));
                  && (r == Err(NotFound(key)) <==> |hits| == 0)
                  && (r == Err(NotUnique) <==> |hits| > 1)
                  && (r.Ok? <==> |hits| == 1)
                  && (r.Ok? ==> exists k :: k in rows && hits == map[k := rows[k]] && r.value == Datasource(rows[k])))
  {
    if key !in rows {
      FilterHits(order, rows, query, AliasOf(columns, pathColumn, key));
      var sel := KeepOrder(Combine(query, AliasOf(columns, pathColumn, key)), order, rows);
      if |sel| == 1 {
        assert sel[0] in rows;
      }
    }
  }

  /** Membership agrees with lookup: every stored key is in the catalog, and
      another key is in it exactly when its alias selects one record. */
  lemma ContainsOutcome(pathColumn: string, columns: seq<string>, query: Query,
                        order: seq<Key>, rows: map<Key, Record>, key: Key)
    requires key in rows || pathColumn in columns
    requires Ordered(order, rows) && AllMatch(rows, query)
    ensures Lookup(pathColumn, columns, query, order, rows, key).Ok? <==>
              key in rows || |Restrict(rows, AliasOf(columns, pathColumn, key))| == 1
  {
    LookupOutcome(pathColumn, columns, query, order, rows, key);
  }
}
