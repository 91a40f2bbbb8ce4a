/** The `Database` wrapper over the embedded key-value store, as operations on
    an immutable map from item id to title.

    Create and update are the same upsert (both call the store's `put`), delete
    removes a key and is a no-op when the key is absent, a point lookup answers
    a title or nothing, and the full enumeration lists every pair once in
    ascending key order. */
module ItemStore {
  import opened Wrappers
  import opened KeyOrder

  /** The persisted collection: item id to title. */
  type Store = map<string, string>

  /** One stored pair, as the enumeration and the JSON responses carry it. */
  datatype Item = Item(id: string, title: string)

  /** Point lookup (`getItem`). */
  function Lookup(store: Store, id: string): (r: Option<string>)
    ensures r.Some? <==> id in store
    ensures r.Some? ==> r.value == store[id]
  {
    if id in store then Some(store[id]) else None
  }

  /** Upsert (`createItem` and `updateItem`): afterwards `id` holds `title`
      and every other key holds what it held before. */
  function Upsert(store: Store, id: string, title: string): (r: Store)
    ensures Lookup(r, id) == Some(title)
    ensures forall k :: k != id ==> Lookup(r, k) == Lookup(store, k)
    ensures r.Keys == store.Keys + {id}
  {
    store[id := title]
  }

  /** Removal (`deleteItem`): afterwards `id` is absent and every other key
      holds what it held before; removing an absent key changes nothing. */
  function Remove(store: Store, id: string): (r: Store)
    ensures Lookup(r, id) == None
    ensures forall k :: k != id ==> Lookup(r, k) == Lookup(store, k)
    ensures r.Keys == store.Keys - {id}
    ensures id !in store ==> r == store
  {
    store - {id}
  }

  /** Every pair of the store listed exactly once, ids strictly ascending
      (`getAllItems`). */
  function ListAll(store: Store): (items: seq<Item>)
    ensures |items| == |store|
    ensures forall i :: 0 <= i < |items| ==> items[i].id in store && store[items[i].id] == items[i].title
    ensures forall k :: k in store ==> Item(k, store[k]) in items
    ensures forall i, j :: 0 <= i < j < |items| ==> Precedes(items[i].id, items[j].id)
    decreases |store|
  {
    if |store| == 0 then []
    else
      var k := Least(store.Keys);
      var rest := store - {k};
      assert rest.Keys == store.Keys - {k};
      assert |rest| == |rest.Keys| == |store.Keys| - 1 == |store| - 1;
      var tail := ListAll(rest);
      assert forall i :: 0 <= i < |tail| ==> tail[i].id in store && tail[i].id != k && store[tail[i].id] == tail[i].title;
      assert forall x :: x in store && x != k ==> x in rest && rest[x] == store[x];
      ListAllCons(store, k, tail);
      [Item(k, store[k])] + tail
  }

  /** The inductive step of `ListAll`: the least key followed by a listing of
      the remaining pairs is a listing of the whole store. */
  lemma ListAllCons(store: Store, k: string, tail: seq<Item>)
    requires k in store && forall x :: x in store && x != k ==> Precedes(k, x)
    requires |tail| == |store| - 1
    requires forall i :: 0 <= i < |tail| ==> tail[i].id in store && tail[i].id != k && store[tail[i].id] == tail[i].title
    requires forall x :: x in store && x != k ==> Item(x, store[x]) in tail
    requires forall i, j :: 0 <= i < j < |tail| ==> Precedes(tail[i].id, tail[j].id)
    ensures var items := [Item(k, store[k])] + tail;
      && (forall i :: 0 <= i < |items| ==> items[i].id in store && store[items[i].id] == items[i].title)
      && (forall x :: x in store ==> Item(x, store[x]) in items)
      && (forall i, j :: 0 <= i < j < |items| ==> Precedes(items[i].id, items[j].id))
  {
  }

  /** No id occurs twice in the enumeration. */
  lemma ListAllDistinct(store: Store)
    ensures forall i, j :: 0 <= i < |ListAll(store)| && 0 <= j < |ListAll(store)| && i != j ==>
      ListAll(store)[i].id != ListAll(store)[j].id
  {
  }

  /** Upserting the same pair a second time changes nothing. */
  lemma UpsertIdempotent(store: Store, id: string, title: string)
    ensures Upsert(Upsert(store, id, title), id, title) == Upsert(store, id, title)
  {
  }

  /** Removing twice leaves the same store as removing once. */
  lemma RemoveIdempotent(store: Store, id: string)
    ensures Remove(Remove(store, id), id) == Remove(store, id)
  {
  }
}
