# HackingCatalog in Dafny

A model of `HackingCatalog` from `intake_esm_hacking.py`: an in-memory catalog of
dataset records keyed by a unique path (`zstore`), filtered by MongoDB-style
queries and looked up by key or by a dotted alias. Every lookup yields exactly
one datasource or a `KeyError`.

- `queries.dfy` (module `Queries`): records (`map<string, string>`), the query
  documents the catalog builds (`Doc` for a plain `{field: value}` document,
  `And` for `$and`, `Or` for `$or`) and their matching semantics, the
  normalisation `query or {}`, the `$and` combination used by `filter`,
  `Or.query` and `Query.replace`.
- `sequences.dfy` (module `Sequences`): the built-ins the alias lookup uses:
  `list.remove`, `zip` and `dict(pairs)`.
- `alias.dfy` (module `Alias`): `str.split('.')` with its inverse `join`, and the
  alias query `dict(zip(columns, key.split('.')))`.
- `tables.dfy` (module `Tables`): a Python dict as an ordered key list plus a
  map, and the selection of the records that match a query, with order
  (`KeepOrder`) and without (`Restrict`).
- `catalog.dfy` (module `Catalogs`): the `Catalog` class, with fields
  `pathColumn`, `columns`, `query`, `records` and `keys`. `Datasource` is a
  value wrapping one record, as `HackingDatasource.__init__`
  (`intake_esm_hacking.py:115-118`) does. `Lookup` is
  the specification of `__getitem__`. The lemmas cover filtering and lookup.

The constructor fills `records` and `keys` in one loop over the given records,
as `__init__` fills `self._records`. `Filter`, `Len`, `Items`, `Iter`, `GetItem`
and `Contains` change nothing: they have no `modifies` clause. `Filter` returns a
fresh catalog.

A key that is not stored does not always fail with key-not-found.
It is read as an alias and succeeds when exactly one record matches the alias
(`LookupOutcome`).

## Model

| member | source | states |
|---|---|---|
| `Queries.IsEmpty` | intake_esm_hacking.py:59 | a query document is falsy exactly when it has no top-level keys, so only `{}` is, while `{'$and': []}` and `{'$or': []}` are truthy |
| `Queries.Matches` | intake_esm_hacking.py:33-39 | the mongoquery test the filter loop applies: `{}` and an empty `$and` match every record, an empty `$or` matches none |
| `Queries.Normalize` | intake_esm_hacking.py:11 | a missing query becomes `{}`; the normalised query keeps a record exactly when there was no query or the given one matches it |
| `Queries.Combine` | intake_esm_hacking.py:56-60 | `filter`'s query is the new one alone when the current one is `{}`, otherwise `{'$and': [current, new]}`; either way a record matches it exactly when it matches both |
| `Queries.AndPair` | intake_esm_hacking.py:60 | `{'$and': [a, b]}` matches a record exactly when `a` and `b` both do |
| `Queries.CombineAlgebra` | intake_esm_hacking.py:56-60 | combining is commutative and associative up to equivalence, and `{}` is its unit |
| `Queries.OrQuery` | intake_esm_hacking.py:160-166 | `Or(*args).query` is `{'$or': args}` with the arguments in order, matching a record exactly when one argument does |
| `Queries.Replace` | intake_esm_hacking.py:149-153 | the rebuilt parameters hold every old and every new name; given values win, the others are kept |
| `Queries.ReplaceTwice` | intake_esm_hacking.py:149-153 | two replaces in a row equal one replace with the merged overrides, later ones winning |
| `Sequences.FirstIndex` | intake_esm_hacking.py:86 | the index `list.remove` removes at holds the element, and no earlier index does |
| `Sequences.RemoveFirst` | intake_esm_hacking.py:85-86 | the copied column list loses exactly the first occurrence of the path column, the rest stays in order |
| `Sequences.RemoveFirstCount` | intake_esm_hacking.py:86 | removal shortens the list by one and drops exactly one copy of the element |
| `Sequences.Zip` | intake_esm_hacking.py:87 | `zip` pairs equal positions and stops at the shorter list |
| `Sequences.DictOf` | intake_esm_hacking.py:87 | `dict(pairs)` of no pairs is empty, and the last pair is always in it with its own value |
| `Sequences.DictOfKeys` | intake_esm_hacking.py:87 | `dict(pairs)` has exactly the first components as keys |
| `Sequences.DictOfLastWins` | intake_esm_hacking.py:87 | in `dict(pairs)` the last pair for a key gives its value |
| `Sequences.DistinctCard` | intake_esm_hacking.py:67-68 | a key list without repetitions is as long as its set of keys |
| `Alias.Split` | intake_esm_hacking.py:87 | `key.split('.')` gives at least one part, no part holds a dot, and joining the parts with dots gives the key back |
| `Alias.SplitJoin` | intake_esm_hacking.py:87 | splitting a dot-join of dot-free parts gives the parts back, so split and join are inverse |
| `Alias.AliasQuery` | intake_esm_hacking.py:87 | `dict(zip(columns, parts))` is a plain document whose fields are exactly the first `min(len(columns), len(parts))` columns |
| `Alias.AliasMatches` | intake_esm_hacking.py:84-87 | with distinct columns, a record matches the alias exactly when the i-th non-path column equals the i-th part, for every i below the shorter length |
| `Tables.Restrict` | intake_esm_hacking.py:36-40 | the kept map is a sub-map of the input: records unchanged, each matches the query, and every matching input entry is kept |
| `Tables.KeepOrder` | intake_esm_hacking.py:36-40 | every kept key comes from the input order and its record matches the query |
| `Tables.KeepOrderMembers` | intake_esm_hacking.py:36-40 | the kept keys are exactly the input keys whose record matches, without repetitions when the input has none |
| `Tables.KeepOrderStep` | intake_esm_hacking.py:37-40 | one more loop step appends the key exactly when its record matches |
| `Tables.KeepOrderOrdered` | intake_esm_hacking.py:36-40 | selecting from an insertion-ordered dict gives an insertion-ordered dict over the selected records |
| `Tables.SelectedTable` | intake_esm_hacking.py:36-40 | a map and a key list filled side by side from the selection are the selected table |
| `Tables.SingleSelected` | intake_esm_hacking.py:93 | when one key is selected, its record is the only one that matches |
| `Tables.KeepOrderCount` | intake_esm_hacking.py:67-68 | the number of selected keys equals the number of selected records |
| `Tables.KeepOrderAll` | intake_esm_hacking.py:36-40 | a query every record satisfies keeps all records, in the same order |
| `Tables.KeepOrderTwice` | intake_esm_hacking.py:59-63 | selecting with `a` and then with `b` equals selecting once with their combination, in records and in order |
| `Tables.KeepOrderAgree` | intake_esm_hacking.py:59-63 | queries that agree on every record select the same keys in the same order |
| `Catalogs.AliasOf` | intake_esm_hacking.py:84-87 | the alias of a key is a plain document over columns of the table that, with distinct column names, never constrains the path column |
| `Catalogs.Lookup` | intake_esm_hacking.py:70-94 | a successful lookup returns a datasource on one of the stored records; an error happens only for a key that is not stored, and key-not-found carries that key |
| `Catalogs.Catalog.constructor` | intake_esm_hacking.py:9-40 | the new catalog keeps exactly the given records that match the normalised query, records unchanged, in insertion order |
| `Catalogs.Catalog.Filter` | intake_esm_hacking.py:53-65 | a fresh catalog with the combined query over the receiver's records, which stay as they were |
| `Catalogs.Catalog.Len` | intake_esm_hacking.py:67-68 | the length is the number of kept records and also the number of keys iteration yields |
| `Catalogs.Catalog.Items` | intake_esm_hacking.py:96-98 | each key in insertion order, paired with a datasource on its own record |
| `Catalogs.Catalog.Iter` | intake_esm_hacking.py:100-102 | the keys of the record map in insertion order, each exactly once |
| `Catalogs.Catalog.GetItem` | intake_esm_hacking.py:70-94 | the result is `Lookup` of the catalog's state: a stored key's record, else the alias's unique match, else `NotUnique` or `NotFound(key)` |
| `Catalogs.Catalog.Contains` | intake_esm_hacking.py:104-112 | `key in catalog` holds exactly when the lookup of `key` succeeds |
| `Catalogs.FilterSelects` | intake_esm_hacking.py:59-63 | filtering a catalog selects, from its records and in their order, exactly those matching the new query |
| `Catalogs.FilterEmpty` | intake_esm_hacking.py:53-63 | filtering with `{}` gives the same records in the same order |
| `Catalogs.FilterTwice` | intake_esm_hacking.py:53-63 | filtering with `a` then `b` gives the records and order of one filter with `{'$and': [a, b]}` |
| `Catalogs.FilterIdempotent` | intake_esm_hacking.py:53-63 | filtering twice with the same query gives the records and order of filtering once |
| `Catalogs.FilterHits` | intake_esm_hacking.py:87-93 | the filtered catalog's length is the number of records matching the filter, and a length of one pins down the single match |
| `Catalogs.LookupOutcome` | intake_esm_hacking.py:70-94 | a stored key returns its own record; any other key returns `NotFound(key)` when no record matches its alias, `NotUnique` when several do, and otherwise the one record that matches |
| `Catalogs.ContainsOutcome` | intake_esm_hacking.py:104-112 | a key is in the catalog exactly when it is stored or its alias matches exactly one record |

## Left out

- Loading the table from CSV in `__init__` is not modelled (`pandas.read_csv`, the `head(N)` row cap, the `tqdm` progress bars). The constructor takes the records as an insertion-ordered dict and the column list as given.
- `json_dict` is reduced to the one entry the core reads, the path column name `json_dict['assets']['column_name']`.
- Only part of mongoquery is modelled: plain equality documents, `$and` and `$or`. Other operators, nested field paths and documents that mix fields with operators are not modelled.
- Values are compared as strings. Pandas scalars and their coercion against the split key parts are not modelled.
- `__repr__`, `_repr_pretty_` and `HackingDatasource.__repr__` are display only.
- `main` fetches a descriptor over the network. The module-level `catalog = HackingCatalog(json_dict)` refers to an undefined name.
- The abstract `Query.query` and `Query.kwargs` are not modelled. Neither are `Query`'s read-only mapping methods or `Or.kwargs`, which returns `None` so `replace` cannot run on an `Or`.
- `Queries.Replace` models `Query.replace` on the parameter maps. Rebuilding through `type(self)` is not modelled, because no concrete subclass defines `kwargs`.
- `Catalogs.Catalog.GetItem` and `Catalogs.Catalog.Contains` require, for a key that is not stored, the path column among the columns; there Python raises ValueError from `list.remove`, which is not modelled. A stored key returns before the column list is read and needs nothing. Keys are strings, since `key.split` needs one.
- The KeyError for an ambiguous alias carries the message "Not a unique enough key" in Python. The model keeps only the kind (`NotUnique`), and `NotFound` carries the key.
- `items` and `__iter__` are generators. `Items` and `Iter` return the whole sequence, so laziness is not modelled.
- `Datasource` objects are values here: each lookup makes a new `HackingDatasource` in Python, and object identity is not modelled.
- `Alias.AliasMatches` assumes distinct column names, as a pandas table read from CSV has. With repeated names, `Sequences.DictOfLastWins` gives the general rule: the last pair wins.
