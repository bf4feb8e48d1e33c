/** Keys as aliases: a key that is not a stored key is read as the values of
    the non-path columns joined by dots, and turned into an equality query. */
module Alias {
  import opened Queries
  import opened Sequences

  /** The parts joined back together with `sep` between them (Python's `sep.join`). */
  function Join(parts: seq<string>, sep: char): string
    requires |parts| >= 1
  {
    if |parts| == 1 then parts[0] else parts[0] + [sep] + Join(parts[1..], sep)
  }

  /** Python's `s.split(sep)` with an explicit separator: one part more than
      there are separators, empty parts kept (`"".split('.') == [""]`,
      `"a.".split('.') == ["a", ""]`). Joining the parts gives `s` back. */
  function Split(s: string, sep: char): (parts: seq<string>)
    ensures |parts| >= 1
    ensures forall i :: 0 <= i < |parts| ==> sep !in parts[i]
    ensures Join(parts, sep) == s
  {
    if |s| == 0 then [""]
    else
      var rest := Split(s[1..], sep);
      if s[0] == sep then
        assert [s[0]] + s[1..] == s;
        [""] + rest
      else
        var parts := [[s[0]] + rest[0]] + rest[1..];
        assert parts[1..] == rest[1..];
        parts
  }

  /** A string without the separator splits into itself. */
  lemma SplitNoSep(p: string, sep: char)
    requires sep !in p
    ensures Split(p, sep) == [p]
  {
  }

  /** Splitting at the first separator. */
  lemma {:induction false} SplitAtFirst(p: string, sep: char, t: string)
    requires sep !in p
    ensures Split(p + [sep] + t, sep) == [p] + Split(t, sep)
  {
    if |p| == 0 {
      assert (p + [sep] + t)[1..] == t;
    } else {
      SplitAtFirst(p[1..], sep, t);
      assert (p + [sep] + t)[1..] == p[1..] + [sep] + t;
      assert [p[0]] + p[1..] == p;
    }
  }

  /** Splitting undoes joining when no part holds the separator, so `Split`
      and `Join` are inverse bijections between strings and non-empty lists
      of separator-free parts. */
  lemma {:induction false} SplitJoin(parts: seq<string>, sep: char)
    requires |parts| >= 1
    requires forall i :: 0 <= i < |parts| ==> sep !in parts[i]
    ensures Split(Join(parts, sep), sep) == parts
  {
    if |parts| == 1 {
      SplitNoSep(parts[0], sep);
    } else {
      SplitJoin(parts[1..], sep);
      SplitAtFirst(parts[0], sep, Join(parts[1..], sep));
      assert [parts[0]] + parts[1..] == parts;
    }
  }

  /** `dict(zip(columns, parts))` as a query document. */
  function AliasQuery(columns: seq<string>, parts: seq<string>): (q: Query)
    ensures q.Doc?
    ensures q.eqs.Keys == set i | 0 <= i < |columns| && i < |parts| :: columns[i]
  {
    var pairs := Zip(columns, parts);
    DictOfKeys(pairs);
    assert (set i | 0 <= i < |pairs| :: pairs[i].0) == set i | 0 <= i < |columns| && i < |parts| :: columns[i];
    Doc(DictOf(pairs))
  }

  /** With distinct column names, an alias constrains exactly the first
      `min(|columns|, |parts|)` columns, the i-th column to the i-th part;
      further parts and further columns are ignored. */
  lemma AliasMatches(columns: seq<string>, parts: seq<string>, rec: Record)
    requires Distinct(columns)
    ensures Matches(AliasQuery(columns, parts), rec) <==>
              forall i :: 0 <= i < |columns| && i < |parts| ==> columns[i] in rec && rec[columns[i]] == parts[i]
  {
    var pairs := Zip(columns, parts);
    var eqs := DictOf(pairs);
    DictOfKeys(pairs);
    forall i | 0 <= i < |pairs|
      ensures pairs[i].0 in eqs && eqs[pairs[i].0] == pairs[i].1
    {
      DictOfLastWins(pairs, i);
    }
    if Matches(AliasQuery(columns, parts), rec) {
      forall i | 0 <= i < |columns| && i < |parts|
        ensures columns[i] in rec && rec[columns[i]] == parts[i]
      {
        assert pairs[i] == (columns[i], parts[i]);
      }
    }
    if forall i :: 0 <= i < |columns| && i < |parts| ==> columns[i] in rec && rec[columns[i]] == parts[i] {
      forall f | f in eqs
        ensures f in rec && rec[f] == eqs[f]
      {
        var i :| 0 <= i < |pairs| && pairs[i].0 == f;
      }
    }
  }
}
