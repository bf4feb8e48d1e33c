/** The Python list and dict built-ins the catalog's alias lookup relies on:
    `list.remove`, `zip` and `dict(pairs)`, plus the distinctness facts that
    let the length of a key list stand for the size of a dict. */
module Sequences {

  /** No element occurs twice. */
  ghost predicate Distinct<T>(s: seq<T>) {
    forall i, j :: 0 <= i < j < |s| ==> s[i] != s[j]
  }

  /** A list without repetitions has as many elements as its set of elements. */
  lemma {:induction false} DistinctCard<T>(s: seq<T>)
    requires Distinct(s)
    ensures |set x | x in s| == |s|
  {
    if s != [] {
      var init, last := s[..|s| - 1], s[|s| - 1];
      assert Distinct(init);
      DistinctCard(init);
      assert last !in init;
      assert (set x | x in s) == (set x | x in init) + {last};
    }
  }

  /** The index of the first occurrence of `x` in `s`. */
  function FirstIndex<T(==)>(s: seq<T>, x: T): (i: nat)
    requires x in s
    ensures i < |s| && s[i] == x && x !in s[..i]
  {
    if s[0] == x then 0 else FirstIndex(s[1..], x) + 1
  }

  /** `list.remove(x)` on a copy: the list without the first occurrence of `x`,
      everything else in its order. Python raises ValueError when `x` is absent. */
  function RemoveFirst<T(==)>(s: seq<T>, x: T): (r: seq<T>)
    requires x in s
    ensures r == s[..FirstIndex(s, x)] + s[FirstIndex(s, x) + 1..]
  {
    if s[0] == x then s[1..]
    else
      var i := FirstIndex(s[1..], x);
      assert s[..i + 1] == [s[0]] + s[1..][..i];
      assert s[i + 2..] == s[1..][i + 1..];
      [s[0]] + RemoveFirst(s[1..], x)
  }

  /** Removing drops exactly one copy of `x` and keeps the rest. */
  lemma {:induction false} RemoveFirstCount<T>(s: seq<T>, x: T)
    requires x in s
    ensures |RemoveFirst(s, x)| == |s| - 1
    ensures multiset(RemoveFirst(s, x)) + multiset{x} == multiset(s)
  {
    var i, r := FirstIndex(s, x), RemoveFirst(s, x);
    assert s == s[..i] + [x] + s[i + 1..];
    calc {
      multiset(s);
      multiset(s[..i]) + multiset([x]) + multiset(s[i + 1..]);
      multiset(r) + multiset{x};
    }
  }

  /** Python's `zip`: pairs elements at equal positions, stopping at the end of
      the shorter list. */
  function Zip<A, B>(xs: seq<A>, ys: seq<B>): (r: seq<(A, B)>)
    ensures |r| == if |xs| <= |ys| then |xs| else |ys|
    ensures forall i :: 0 <= i < |r| ==> r[i] == (xs[i], ys[i])
  {
    if |xs| == 0 || |ys| == 0 then [] else [(xs[0], ys[0])] + Zip(xs[1..], ys[1..])
  }

  /** Python's `dict(pairs)`: the pairs are inserted in order, so for a key that
      occurs more than once the last pair wins. */
  function DictOf<K, V>(pairs: seq<(K, V)>): (m: map<K, V>)
    ensures pairs == [] ==> m == map[]
    ensures pairs != [] ==> pairs[|pairs| - 1].0 in m && m[pairs[|pairs| - 1].0] == pairs[|pairs| - 1].1
  {
    if pairs == [] then map[]
    else
      var last := pairs[|pairs| - 1];
      DictOf(pairs[..|pairs| - 1])[last.0 := last.1]
  }

  /** The keys of `dict(pairs)` are the first components of the pairs. */
  lemma {:induction false} DictOfKeys<K, V>(pairs: seq<(K, V)>)
    ensures DictOf(pairs).Keys == set i | 0 <= i < |pairs| :: pairs[i].0
  {
    if pairs != [] {
      var init := pairs[..|pairs| - 1];
      DictOfKeys(init);
      assert (set i | 0 <= i < |pairs| :: pairs[i].0) == (set i | 0 <= i < |init| :: init[i].0) + {pairs[|pairs| - 1].0} by {
        assert forall i :: 0 <= i < |init| ==> init[i] == pairs[i];
      }
    }
  }

  /** A pair whose key does not occur later in the list gives that key's value. */
  lemma {:induction false} DictOfLastWins<K, V>(pairs: seq<(K, V)>, i: nat)
    requires i < |pairs|
    requires forall j :: i < j < |pairs| ==> pairs[j].0 != pairs[i].0
    ensures pairs[i].0 in DictOf(pairs) && DictOf(pairs)[pairs[i].0] == pairs[i].1
  {
    var init := pairs[..|pairs| - 1];
    if i < |init| {
      assert init[i] == pairs[i];
      DictOfLastWins(init, i);
    }
  }
}
