/** MongoDB-style queries over catalog records (the fragment the catalog
    builds and matches), and the two helpers of the `Query` mapping class:
    `replace` and the `$or` document built by `Or`. */
module Queries {

  /** One row of the table: column name to value. Values are compared as strings. */
  type Record = map<string, string>

  datatype Option<T> = None | Some(value: T)

  /** A query document.
      Doc(eqs) is a plain document `{field: value, ...}`: every field must be
      present in the record and equal to the value; `{}` matches everything.
      And(qs) is `{'$and': qs}` and Or(qs) is `{'$or': qs}`. */
  datatype Query = Doc(eqs: map<string, string>) | And(qs: seq<Query>) | Or(qs: seq<Query>)

  /** The empty document `{}`. */
  const Empty: Query := Doc(map[])

  /** The number of top-level keys of the query as a Python dict:
      the fields of a plain document, the one operator key otherwise. */
  function Size(q: Query): nat {
    if q.Doc? then |q.eqs| else 1
  }

  /** Python truthiness of a query document (`query or {}`, `if self._query:`):
      a dict is false exactly when it has no keys, so only `{}` is false;
      `{'$and': []}` and `{'$or': []}` hold one key and are true. */
  predicate IsEmpty(q: Query)
    ensures IsEmpty(q) <==> Size(q) == 0
  {
    q == Empty
  }

  /** Whether `rec` satisfies `q`, as mongoquery decides it: a missing field
      is never equal to a value, an empty `$and` holds and an empty `$or` fails. */
  predicate Matches(q: Query, rec: Record)
    ensures IsEmpty(q) || q == And([]) ==> Matches(q, rec)
    ensures q == Or([]) ==> !Matches(q, rec)
  {
    match q
    case Doc(eqs) => forall f :: f in eqs ==> f in rec && rec[f] == eqs[f]
    case And(qs) => forall i :: 0 <= i < |qs| ==> Matches(qs[i], rec)
    case Or(qs) => exists i :: 0 <= i < |qs| && Matches(qs[i], rec)
  }

  /** `query or {}`: a missing query is normalised to the empty document,
      which keeps every record. */
  function Normalize(query: Option<Query>): (q: Query)
    ensures query.None? ==> q == Empty
    ensures forall rec :: Matches(q, rec) <==> (query.None? || Matches(query.value, rec))
  {
    if query.Some? then query.value else Empty
  }

  /** The query a filtered catalog is built with: the new query alone when the
      current one is `{}`, otherwise `{'$and': [current, q]}`. Either way a
      record matches it exactly when it matches both. */
  function Combine(current: Query, q: Query): (r: Query)
    ensures IsEmpty(current) ==> r == q
    ensures !IsEmpty(current) ==> r == And([current, q])
    ensures forall rec :: Matches(r, rec) <==> Matches(current, rec) && Matches(q, rec)
  {
    if IsEmpty(current) then q else AndPair(current, q); And([current, q])
  }

  /** `{'$and': [a, b]}` holds of a record exactly when both `a` and `b` do. */
  lemma AndPair(a: Query, b: Query)
    ensures forall rec :: Matches(And([a, b]), rec) <==> Matches(a, rec) && Matches(b, rec)
  {
    forall rec
      ensures Matches(And([a, b]), rec) <==> Matches(a, rec) && Matches(b, rec)
    {
      assert [a, b][0] == a && [a, b][1] == b;
    }
  }

  /** `Or(*args).query`: the document `{'$or': args}`, arguments in order.
      A record matches it exactly when it matches one of the arguments. */
  function OrQuery(args: seq<Query>): (r: Query)
    ensures r.Or? && r.qs == args
    ensures forall rec :: Matches(r, rec) <==> exists i :: 0 <= i < |args| && Matches(args[i], rec)
  {
    Or(args)
  }

  /** `Query.replace(**overrides)`: the parameters a copy is rebuilt from.
      Every given parameter takes the new value; every other one is kept. */
  function Replace<P>(params: map<string, P>, overrides: map<string, P>): (r: map<string, P>)
    ensures r.Keys == params.Keys + overrides.Keys
    ensures forall k :: k in overrides ==> r[k] == overrides[k]
    ensures forall k :: k in params && k !in overrides ==> r[k] == params[k]
  {
    params + overrides
  }

  /** Replacing twice is replacing once with the merged overrides, the later ones winning. */
  lemma ReplaceTwice<P>(params: map<string, P>, a: map<string, P>, b: map<string, P>)
    ensures Replace(Replace(params, a), b) == Replace(params, Replace(a, b))
  {
  }

  /** Two queries are equivalent when they select the same records. */
  ghost predicate Equivalent(a: Query, b: Query) {
    forall rec :: Matches(a, rec) <==> Matches(b, rec)
  }

  /** Combining is commutative and associative up to equivalence, and `{}` is
      its unit: the order in which filters are applied does not change the
      records they select. */
  lemma CombineAlgebra(a: Query, b: Query, c: Query)
    ensures Equivalent(Combine(a, b), Combine(b, a))
    ensures Equivalent(Combine(Combine(a, b), c), Combine(a, Combine(b, c)))
    ensures Equivalent(Combine(a, Empty), a) && Combine(Empty, a) == a
  {
  }
}
