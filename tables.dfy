/** Record tables: an insertion-ordered dict from key to record, and the
    selection of the records that match a query, with and without order. */
module Tables {
  import opened Queries
  import opened Sequences

  /** The unique key of a record (its `zstore` path). */
  type Key = string

  /** A Python dict as a value: `order` lists every key of `rows` exactly once,
      in insertion order. */
  ghost predicate Ordered(order: seq<Key>, rows: map<Key, Record>) {
    Distinct(order) && forall k :: k in order <==> k in rows
  }

  /** Every record satisfies `q`. */
  ghost predicate AllMatch(rows: map<Key, Record>, q: Query) {
    forall k :: k in rows ==> Matches(q, rows[k])
  }

  /** The entries of `rows` whose record matches `q`, records unchanged. */
  function Restrict(rows: map<Key, Record>, q: Query): (r: map<Key, Record>)
    ensures r.Keys <= rows.Keys && AllMatch(r, q)
    ensures forall k :: k in rows && Matches(q, rows[k]) ==> k in r
    ensures forall k :: k in r ==> r[k] == rows[k]
  {
    map k | k in rows && Matches(q, rows[k]) :: rows[k]
  }

  /** The keys of `order` whose record matches `q`, in their original order. */
  function KeepOrder(q: Query, order: seq<Key>, rows: map<Key, Record>): (kept: seq<Key>)
    requires forall k :: k in order ==> k in rows
    ensures forall k :: k in kept ==> k in order && Matches(q, rows[k])
  {
    if order == [] then []
    else
      var init, last := order[..|order| - 1], order[|order| - 1];
      assert forall k :: k in init ==> k in order;
      KeepOrder(q, init, rows) + if Matches(q, rows[last]) then [last] else []
  }

  /** The selected keys are exactly the keys whose record matches, each as
      often as in `order`: without repetitions when `order` has none. */
  lemma {:induction false} KeepOrderMembers(q: Query, order: seq<Key>, rows: map<Key, Record>)
    requires forall k :: k in order ==> k in rows
    ensures var kept := KeepOrder(q, order, rows);
            && |kept| <= |order|
            && (forall k :: k in kept <==> k in order && Matches(q, rows[k]))
            && (Distinct(order) ==> Distinct(kept))
  {
    if order != [] {
      var init, last := order[..|order| - 1], order[|order| - 1];
      KeepOrderMembers(q, init, rows);
      assert order == init + [last];
      var prev, kept := KeepOrder(q, init, rows), KeepOrder(q, order, rows);
      if Distinct(order) {
        assert Distinct(init) && last !in prev;
        forall i, j | 0 <= i < j < |kept|
          ensures kept[i] != kept[j]
        {
          if j == |prev| {
            assert kept[i] in prev;
          }
        }
      }
    }
  }

  /** Selecting from one more key of the table appends that key when its
      record matches. */
  lemma KeepOrderStep(q: Query, order: seq<Key>, rows: map<Key, Record>, i: nat)
    requires forall k :: k in order ==> k in rows
    requires i < |order|
    ensures KeepOrder(q, order[..i + 1], rows) ==
              KeepOrder(q, order[..i], rows) + if Matches(q, rows[order[i]]) then [order[i]] else []
  {
    assert order[..i + 1][..i] == order[..i];
  }

  /** Selecting from an ordered table gives an ordered table. */
  lemma KeepOrderOrdered(q: Query, order: seq<Key>, rows: map<Key, Record>)
    requires Ordered(order, rows)
    ensures Ordered(KeepOrder(q, order, rows), Restrict(rows, q))
  {
    KeepOrderMembers(q, order, rows);
  }

  /** A map and a key list built side by side from the selected keys are
      the selected table. */
  lemma SelectedTable(q: Query, order: seq<Key>, rows: map<Key, Record>, kept: map<Key, Record>, keptOrder: seq<Key>)
    requires Ordered(order, rows)
    requires keptOrder == KeepOrder(q, order, rows)
    requires forall k :: k in kept <==> k in keptOrder
    requires forall k :: k in kept ==> kept[k] == rows[k]
    ensures kept == Restrict(rows, q) && Ordered(keptOrder, kept)
  {
    KeepOrderOrdered(q, order, rows);
    assert kept.Keys == Restrict(rows, q).Keys;
  }

  /** When a single key is selected, its record is the only one selected. */
  lemma SingleSelected(q: Query, order: seq<Key>, rows: map<Key, Record>)
    requires Ordered(order, rows)
    requires |KeepOrder(q, order, rows)| == 1
    ensures var k := KeepOrder(q, order, rows)[0];
            Restrict(rows, q) == map[k := rows[k]]
  {
    var kept := KeepOrder(q, order, rows);
    KeepOrderOrdered(q, order, rows);
    assert forall k :: k in Restrict(rows, q) <==> k == kept[0];
  }

  /** The number of selected keys is the number of selected records. */
  lemma KeepOrderCount(q: Query, order: seq<Key>, rows: map<Key, Record>)
    requires Ordered(order, rows)
    ensures |KeepOrder(q, order, rows)| == |Restrict(rows, q)|
  {
    var kept, sel := KeepOrder(q, order, rows), Restrict(rows, q);
    KeepOrderOrdered(q, order, rows);
    DistinctCard(kept);
    assert (set x | x in kept) == sel.Keys;
  }

  /** A selection that every record passes keeps the table as it is. */
  lemma {:induction false} KeepOrderAll(q: Query, order: seq<Key>, rows: map<Key, Record>)
    requires forall k :: k in order ==> k in rows
    requires AllMatch(rows, q)
    ensures KeepOrder(q, order, rows) == order
    ensures Restrict(rows, q) == rows
  {
    if order != [] {
      KeepOrderAll(q, order[..|order| - 1], rows);
      assert order[..|order| - 1] + [order[|order| - 1]] == order;
    }
  }

  /** Selecting with `a` and then with `b` is selecting once with their
      combination, for the records and for their order. */
  lemma {:induction false} KeepOrderTwice(a: Query, b: Query, order: seq<Key>, rows: map<Key, Record>)
    requires forall k :: k in order ==> k in rows
    ensures KeepOrder(b, KeepOrder(a, order, rows), Restrict(rows, a)) == KeepOrder(Combine(a, b), order, rows)
    ensures Restrict(Restrict(rows, a), b) == Restrict(rows, Combine(a, b))
  {
    if order != [] {
      var init, last := order[..|order| - 1], order[|order| - 1];
      KeepOrderTwice(a, b, init, rows);
      var kept := KeepOrder(a, order, rows);
      if Matches(a, rows[last]) {
        assert kept[..|kept| - 1] == KeepOrder(a, init, rows);
      } else {
        assert kept == KeepOrder(a, init, rows);
      }
    } else {
      assert Restrict(Restrict(rows, a), b).Keys == Restrict(rows, Combine(a, b)).Keys;
    }
  }

  /** Two queries that agree on every record of the table select the same
      keys in the same order, and the same records. */
  lemma {:induction false} KeepOrderAgree(a: Query, b: Query, order: seq<Key>, rows: map<Key, Record>)
    requires forall k :: k in order ==> k in rows
    requires forall k :: k in rows ==> (Matches(a, rows[k]) <==> Matches(b, rows[k]))
    ensures KeepOrder(a, order, rows) == KeepOrder(b, order, rows)
    ensures Restrict(rows, a) == Restrict(rows, b)
  {
    if order != [] {
      KeepOrderAgree(a, b, order[..|order| - 1], rows);
    }
    assert Restrict(rows, a).Keys == Restrict(rows, b).Keys;
  }
}
