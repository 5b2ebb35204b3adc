# Item store of a minimal FastAPI service

This project models the in-memory item store behind the service's
`/items/` endpoints (`src/app/main.py`). The store is two pieces of module
state: `items_db`, a dictionary from integer id to item record, and
`item_counter`, the last id handed out. Four operations act on them:

- `create_item` bumps the counter, derives `total_price` from `price` and
  `tax`, and stores the new record under the new id;
- `list_items` returns the number of stored records and all of them;
- `get_item` returns the record under an id, or fails with "Item not found";
- `delete_item` removes and returns the record under an id, or fails the same way.

Layout:

- `wrappers.dfy` (module `Wrappers`): `Option`, for Python's `Optional` fields.
- `items.dfy` (module `Items`): the request payload `NewItem` (class `Item`),
  the stored `ItemRecord` (class `ItemResponse`), the truthiness rule for
  `tax`, and the total-price derivation. `ComputeTotal` takes the source's
  steps (start from the price, add `price * tax` when tax is truthy) and is
  proved equal to the reference definition `TotalPrice`, which is
  `price * (1 + rate)`.
- `store_spec.dfy` (module `StoreSpec`): the store as a value `State(db, counter)`,
  its invariant `Consistent`, one `Step` per request, and `Run`/`Issued` over
  any sequence of requests. The lemmas there state what holds over any
  interleaving of calls: ids are consecutive from 1, a deleted id is never
  issued again, stored records are never changed until they are deleted,
  and every stored id was issued by a create.
- `store.dfy` (module `ItemStore`): class `Store` with the fields `db`
  (a `map<int, ItemRecord>`) and `counter`. Its methods `Create`, `List`,
  `Get` and `Delete` change those fields in place. Each mutating method is
  proved to take exactly the `StoreSpec.Step` for its request, and
  `Serve`, which makes one call per request of a sequence, is proved to
  take exactly `StoreSpec.Run`, so the trace lemmas apply to the class. `List` enumerates the key set in an
  unspecified order. It is proved to return each stored record exactly
  once, and `ListingsAgree` shows that any two listings of the same store
  are equal as multisets.

Modelling choices:

- Prices and tax rates are exact `real`s. The tax is `Option<real>`, and
  "no surcharge" holds exactly when it is `None` or `0.0`. This is the
  Python truthiness of `if item.tax:`.
- `created_at` is an opaque string passed into `Create`; the clock is outside the model.
- The 404 becomes the `NotFound` value of `Lookup`. `Found(item)` carries the record.
- Integers are unbounded in Python and in Dafny, so the counter cannot wrap.
- Ids start at 1 because `item_counter` starts at 0 (line 42) and is
  incremented before use (line 70).

## Model

| member | source | states |
|---|---|---|
| `Items.ComputeTotal` | src/app/main.py:72-75 | the total computed step by step equals the price scaled by one plus the effective tax rate |
| `Items.TotalPriceRule` | src/app/main.py:73-75 | no surcharge exactly when tax is None or 0; then the total is the price, otherwise price + price * tax |
| `Items.TotalPriceSamples` | src/app/main.py:73-75 | totals for price 10 with tax 0.1, None and 0 (11, 10, 10), and 9.99 with tax 0.08 (10.7892) |
| `StoreSpec.Step` | src/app/main.py:66-121 | every request keeps the store invariant (keys in 1..counter, record id equals key) and never lowers the counter |
| `StoreSpec.CreateIsFresh` | src/app/main.py:69-88 | the new id is not yet a key; after create the keys gain exactly that id, it holds the new record, and every earlier entry is unchanged |
| `StoreSpec.RunKeepsConsistent` | src/app/main.py:66-121 | any sequence of requests keeps the invariant, and the counter rises by exactly one per create |
| `StoreSpec.IssuedConsecutive` | src/app/main.py:69-79 | the i-th id issued by a sequence of requests is the starting counter plus 1 plus i |
| `StoreSpec.IssuedFromStart` | src/app/main.py:42-79 | from process start the ids issued are 1, 2, 3, ... and strictly increasing |
| `StoreSpec.OnlyIssuedIdsStored` | src/app/main.py:78-88 | an id neither stored nor issued by later creates is absent after them |
| `StoreSpec.SpentIdStaysAbsent` | src/app/main.py:69-88 | an absent id not above the counter is never issued again and stays absent from the store |
| `StoreSpec.DeletedNeverReissued` | src/app/main.py:109-121 | after deleting a stored id, no later create issues it and it stays absent, so get and delete of it keep failing |
| `StoreSpec.StoredUntilDeleted` | src/app/main.py:78-121 | a stored record stays present and unchanged through any requests that do not delete its id |
| `StoreSpec.StoredIdsWereIssued` | src/app/main.py:66-121 | from process start, every stored id is one that a create issued |
| `ItemStore.ListingsAgree` | src/app/main.py:93-99 | two listings of the same store contain the same records, as multisets |
| `ItemStore.Store.constructor` | src/app/main.py:40-42 | the store starts empty with counter 0, and the invariant holds |
| `ItemStore.Store.Create` | src/app/main.py:66-91 | counter rises by one and is the new id; the record copies name, description, price and the given timestamp, with the derived total; the id was fresh; the map gains exactly that entry |
| `ItemStore.Store.List` | src/app/main.py:93-99 | count equals the number of stored records and the number listed; each stored record is listed once, and nothing else |
| `ItemStore.Store.Get` | src/app/main.py:101-107 | NotFound exactly when the id is not a key, otherwise the stored record; no state changes |
| `ItemStore.Store.Delete` | src/app/main.py:109-121 | absent id: NotFound and nothing changes; present id: returns the stored record, removes only that key; the counter never changes |
| `ItemStore.Store.Serve` | src/app/main.py:66-121 | serving any sequence of requests by calling Create, List, Get and Delete in turn leaves the store in exactly the state `Run` gives, with the invariant kept |
| `ItemStore.WidgetScenario` | src/app/main.py:66-121 | in a fresh store, creating "Widget" at 9.99 with tax 0.08 gives id 1 and total 10.7892 and a listing of count 1; deleting id 1 returns that record, and a later get of id 1 is NotFound |

## Left out

- FastAPI routing, decorators, status codes and response wrapping (lines 44-121). The 404 is only the `NotFound` value.
- The `{"message": ..., "deleted_item": ...}` and `{"count": ..., "items": ...}` response dictionaries: `Delete` returns the record and `List` returns the count and the records.
- Pydantic validation and `.dict()` conversion (lines 24-38, 88). Inputs are taken as well-typed, and a stored dict is the same record value that is returned.
- `datetime.utcnow().isoformat()` (lines 62, 84): a clock read, replaced by the `createdAt` parameter.
- Logging, and the startup and shutdown hooks (lines 13-14, 90, 116, 123-133).
- The `root` and `health_check` endpoints (lines 44-64): static payloads that do not touch the store.
- The `uvicorn.run` development entry point (lines 135-145): process startup.
- IEEE float semantics of `price` and `tax`: no rounding, NaN, infinities or `-0.0`. With floats, NaN would be truthy and `-0.0` falsy; with reals neither exists.
- Concurrent interleaving of requests: the source has no locking, and each operation is modelled as one atomic method call.
- Dictionary iteration order in `list_items`: `List` promises no order, and listings are compared as multisets.
