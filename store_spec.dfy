/**
 The item store as a value: the id-to-record map and the id counter,
 one step per request, and what holds over any sequence of requests.
 The class in module ItemStore is proved to take exactly these steps.
 */
module StoreSpec {
  import opened Wrappers
  import opened Items

  /** The two pieces of module state: `items_db` and `item_counter`. */
  datatype State = State(db: map<int, ItemRecord>, counter: int)

  /** One call into the store, as the four endpoints make it. */
  datatype Request =
    | CreateItem(input: NewItem, createdAt: string)
    | ListItems
    | GetItem(id: int)
    | DeleteItem(id: int)

  /** The state at process start: no items and a counter of zero. */
  const Initial := State(map[], 0)

  /**
   The store's invariant: the counter is never negative, every key lies in
   1..counter (so the next id is fresh), and each record carries its own key as id.
   */
  ghost predicate Consistent(s: State)
  {
    && 0 <= s.counter
    && forall k :: k in s.db ==> 1 <= k <= s.counter && s.db[k].id == k
  }

  /** The record `create_item` builds for a given id. */
  function NewRecord(id: int, input: NewItem, createdAt: string): ItemRecord
  {
    ItemRecord(id, input.name, input.description, input.price,
               TotalPrice(input.price, input.tax), createdAt)
  }

  /** The state after one request. Listing and looking up change nothing. */
  function Step(s: State, req: Request): (t: State)
    ensures Consistent(s) ==> Consistent(t)
    ensures s.counter <= t.counter
  {
    match req
    case CreateItem(input, createdAt) =>
      var id := s.counter + 1;
      State(s.db[id := NewRecord(id, input, createdAt)], id)
    case ListItems => s
    case GetItem(_) => s
    case DeleteItem(id) =>
      if id in s.db then State(s.db - {id}, s.counter) else s
  }

  /** The state after a sequence of requests, taken in order. */
  function Run(s: State, reqs: seq<Request>): State
    decreases |reqs|
  {
    if reqs == [] then s else Run(Step(s, reqs[0]), reqs[1..])
  }

  /** The ids handed out by the creates in a sequence of requests, in order. */
  function Issued(s: State, reqs: seq<Request>): seq<int>
    decreases |reqs|
  {
    if reqs == [] then []
    else (if reqs[0].CreateItem? then [s.counter + 1] else []) + Issued(Step(s, reqs[0]), reqs[1..])
  }

  /** A create stores a fresh id: nothing is overwritten, and the new record is found under it. */
  lemma CreateIsFresh(s: State, input: NewItem, createdAt: string)
    requires Consistent(s)
    ensures s.counter + 1 !in s.db
    ensures var t := Step(s, CreateItem(input, createdAt));
      && t.db.Keys == s.db.Keys + {s.counter + 1}
      && t.db[s.counter + 1] == NewRecord(s.counter + 1, input, createdAt)
      && forall k :: k in s.db ==> t.db[k] == s.db[k]
  {
  }

  /** Any sequence of requests keeps the invariant, and the counter grows by one per create. */
  lemma {:induction false} RunKeepsConsistent(s: State, reqs: seq<Request>)
    requires Consistent(s)
    ensures Consistent(Run(s, reqs))
    ensures Run(s, reqs).counter == s.counter + |Issued(s, reqs)|
    decreases |reqs|
  {
    if reqs != [] {
      RunKeepsConsistent(Step(s, reqs[0]), reqs[1..]);
    }
  }

  /** The ids issued are consecutive from the current counter on: strictly increasing, no gaps. */
  lemma {:induction false} IssuedConsecutive(s: State, reqs: seq<Request>)
    ensures forall i :: 0 <= i < |Issued(s, reqs)| ==> Issued(s, reqs)[i] == s.counter + 1 + i
    decreases |reqs|
  {
    if reqs != [] {
      IssuedConsecutive(Step(s, reqs[0]), reqs[1..]);
    }
  }

  /** From process start the n-th create (counting from zero) is given id n + 1. */
  lemma IssuedFromStart(reqs: seq<Request>)
    ensures forall i :: 0 <= i < |Issued(Initial, reqs)| ==> Issued(Initial, reqs)[i] == i + 1
    ensures forall i, j :: 0 <= i < j < |Issued(Initial, reqs)| ==> Issued(Initial, reqs)[i] < Issued(Initial, reqs)[j]
  {
    IssuedConsecutive(Initial, reqs);
  }

  /** An id that is neither stored nor issued later is absent after any sequence of requests. */
  lemma {:induction false} OnlyIssuedIdsStored(s: State, id: int, reqs: seq<Request>)
    requires id !in s.db
    requires id !in Issued(s, reqs)
    ensures id !in Run(s, reqs).db
    decreases |reqs|
  {
    if reqs != [] {
      var head := if reqs[0].CreateItem? then [s.counter + 1] else [];
      assert Issued(s, reqs) == head + Issued(Step(s, reqs[0]), reqs[1..]);
      assert id !in head;
      assert id !in Issued(Step(s, reqs[0]), reqs[1..]);
      OnlyIssuedIdsStored(Step(s, reqs[0]), id, reqs[1..]);
    }
  }

  /** An id not stored and not above the counter is never issued again, and so stays absent. */
  lemma {:induction false} SpentIdStaysAbsent(s: State, id: int, reqs: seq<Request>)
    requires Consistent(s)
    requires id !in s.db && id <= s.counter
    ensures id !in Issued(s, reqs)
    ensures id !in Run(s, reqs).db
    decreases |reqs|
  {
    IssuedConsecutive(s, reqs);
    OnlyIssuedIdsStored(s, id, reqs);
  }

  /** A deleted id is never produced by a later create, and lookups of it keep failing. */
  lemma DeletedNeverReissued(s: State, id: int, reqs: seq<Request>)
    requires Consistent(s)
    requires id in s.db
    ensures var t := Step(s, DeleteItem(id));
      id !in Issued(t, reqs) && id !in Run(t, reqs).db
  {
    SpentIdStaysAbsent(Step(s, DeleteItem(id)), id, reqs);
  }

  /** A stored record is never changed: it stays as it is until a request deletes its id. */
  lemma {:induction false} StoredUntilDeleted(s: State, id: int, reqs: seq<Request>)
    requires Consistent(s)
    requires id in s.db
    requires forall i :: 0 <= i < |reqs| ==> reqs[i] != DeleteItem(id)
    ensures id in Run(s, reqs).db && Run(s, reqs).db[id] == s.db[id]
    decreases |reqs|
  {
    if reqs != [] {
      StoredUntilDeleted(Step(s, reqs[0]), id, reqs[1..]);
    }
  }

  /** Every id stored after starting from scratch is one that a create issued. */
  lemma StoredIdsWereIssued(reqs: seq<Request>, id: int)
    requires id in Run(Initial, reqs).db
    ensures id in Issued(Initial, reqs)
  {
    if id !in Issued(Initial, reqs) {
      OnlyIssuedIdsStored(Initial, id, reqs);
    }
  }
}
