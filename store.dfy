/**
 The in-memory item store of the service: a map from id to record and a
 counter of ids issued so far, updated in place by create and delete.
 */
module ItemStore {
  import opened Wrappers
  import opened Items
  import opened StoreSpec

  /** The outcome of a lookup or a removal: the record, or the 404 case. */
  datatype Lookup = Found(item: ItemRecord) | NotFound

  /**
   A listing of `db`: every listed record is the one stored under its id,
   every stored record is listed, and no id is listed twice.
   */
  ghost predicate Enumerates(db: map<int, ItemRecord>, items: seq<ItemRecord>)
  {
    && (forall i :: 0 <= i < |items| ==> items[i].id in db && db[items[i].id] == items[i])
    && (forall k :: k in db ==> db[k] in items)
    && (forall i, j :: 0 <= i < j < |items| ==> items[i].id != items[j].id)
  }

  /** In a sequence whose ids are distinct, each record occurs at most once. */
  lemma {:induction false} DistinctIdsOccurOnce(items: seq<ItemRecord>, x: ItemRecord)
    requires forall i, j :: 0 <= i < j < |items| ==> items[i].id != items[j].id
    ensures multiset(items)[x] == if x in items then 1 else 0
    decreases |items|
  {
    if items != [] {
      var init, last := items[..|items| - 1], items[|items| - 1];
      assert items == init + [last];
      DistinctIdsOccurOnce(init, x);
      if x == last {
        assert x !in init by {
          forall i | 0 <= i < |init| ensures init[i] != x {
            assert init[i].id == items[i].id != items[|items| - 1].id;
          }
        }
      }
    }
  }

  /** Two listings of the same store hold the same records, ignoring order. */
  lemma ListingsAgree(db: map<int, ItemRecord>, a: seq<ItemRecord>, b: seq<ItemRecord>)
    requires Enumerates(db, a) && Enumerates(db, b)
    ensures multiset(a) == multiset(b)
  {
    forall x: ItemRecord ensures multiset(a)[x] == multiset(b)[x] {
      DistinctIdsOccurOnce(a, x);
      DistinctIdsOccurOnce(b, x);
      if x in a {
        var i :| 0 <= i < |a| && a[i] == x;
        assert db[a[i].id] in b;
      }
      if x in b {
        var j :| 0 <= j < |b| && b[j] == x;
        assert db[b[j].id] in a;
      }
    }
  }

  /** A non-empty key set has a member. */
  lemma NonEmptyHasKey(keys: set<int>)
    requires keys != {}
    ensures exists k :: k in keys
  {
    if forall k :: k !in keys {
      assert false;
    }
  }

  class Store {
    /** `items_db`: the stored records, keyed by id. */
    var db: map<int, ItemRecord>
    /** `item_counter`: the last id issued. */
    var counter: int

    /** The store as a value, for the request-level results of StoreSpec. */
    function Model(): State
      reads this
    {
      State(db, counter)
    }

    ghost predicate Valid()
      reads this
    {
      Consistent(Model())
    }

    /** The state at process start. */
    constructor ()
      ensures Valid()
      ensures Model() == Initial
    {
      db := map[];
      counter := 0;
    }

    /** `create_item`: take the next id, derive the total and store the new record under that id. */
    method Create(input: NewItem, createdAt: string) returns (item: ItemRecord)
      requires Valid()
      modifies this
      ensures Valid()
      ensures counter == old(counter) + 1 && item.id == counter
      ensures item.name == input.name && item.description == input.description
      ensures item.price == input.price && item.createdAt == createdAt
      ensures item.totalPrice == TotalPrice(input.price, input.tax)
      ensures item.id !in old(db)
      ensures db == old(db)[item.id := item]
      ensures Model() == Step(old(Model()), CreateItem(input, createdAt))
    {
      counter := counter + 1;
      var total := ComputeTotal(input.price, input.tax);
      item := ItemRecord(counter, input.name, input.description, input.price, total, createdAt);
      db := db[counter := item];
    }

    /** `list_items`: the number of stored records and each stored record once, in no fixed order. */
    method List() returns (count: int, items: seq<ItemRecord>)
      requires Valid()
      ensures count == |db| && |items| == count
      ensures Enumerates(db, items)
    {
      count := |db|;
      items := [];
      var pending: set<int> := db.Keys;
      while pending != {}
        invariant pending <= db.Keys
        invariant |items| + |pending| == |db|
        invariant forall i :: 0 <= i < |items| ==> items[i].id in db.Keys - pending && db[items[i].id] == items[i]
        invariant forall k :: k in db.Keys - pending ==> db[k] in items
        invariant forall i, j :: 0 <= i < j < |items| ==> items[i].id != items[j].id
        decreases |pending|
      {
        NonEmptyHasKey(pending);
        var key :| key in pending;
        items := items + [db[key]];
        pending := pending - {key};
      }
    }

    /** `get_item`: the record stored under `id`, or NotFound exactly when there is none. */
    method Get(id: int) returns (r: Lookup)
      ensures r.NotFound? <==> id !in db
      ensures r.Found? ==> r.item == db[id]
    {
      if id !in db {
        return NotFound;
      }
      r := Found(db[id]);
    }

    /** `delete_item`: remove and return the record under `id`; on an absent id change nothing. */
    method Delete(id: int) returns (r: Lookup)
      requires Valid()
      modifies this
      ensures Valid()
      ensures counter == old(counter)
      ensures id !in old(db) ==> r == NotFound && db == old(db)
      ensures id in old(db) ==> r == Found(old(db)[id]) && db == old(db) - {id}
      ensures id !in db  // follows from the two clauses above; stated for callers
      ensures Model() == Step(old(Model()), DeleteItem(id))
    {
      if id !in db {
        return NotFound;
      }
      r := Found(db[id]);
      db := db - {id};
    }

    /** Serve a sequence of requests in order, one call per request; the store takes exactly `Run`. */
    method Serve(reqs: seq<Request>)
      requires Valid()
      modifies this
      ensures Valid()
      ensures Model() == Run(old(Model()), reqs)
    {
      var i := 0;
      while i < |reqs|
        invariant 0 <= i <= |reqs|
        invariant Valid()
        invariant Run(old(Model()), reqs) == Run(Model(), reqs[i..])
      {
        assert reqs[i..][1..] == reqs[i + 1..];
        match reqs[i] {
          case CreateItem(input, createdAt) =>
            var _ := Create(input, createdAt);
          case ListItems =>
            var _, _ := List();
          case GetItem(id) =>
            var _ := Get(id);
          case DeleteItem(id) =>
            var _ := Delete(id);
        }
        i := i + 1;
      }
    }
  }

  /**
   An end-to-end scenario: create a "Widget" priced 9.99 with
   8% tax in a fresh store, list, delete id 1, then look id 1 up again.
   */
  method WidgetScenario(createdAt: string) returns (created: ItemRecord, count: int, deleted: Lookup, after: Lookup)
    ensures created.id == 1 && created.name == "Widget" && created.totalPrice == 10.7892
    ensures count == 1
    ensures deleted == Found(created)
    ensures after == NotFound
  {
    var store := new Store();
    created := store.Create(NewItem("Widget", None, 9.99, Some(0.08)), createdAt);
    var items;
    count, items := store.List();
    deleted := store.Delete(1);
    after := store.Get(1);
  }
}
