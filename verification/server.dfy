/** One request against the item store: the route is chosen, the matching
    handler runs, and the result is the store afterwards together with the
    response.

    The request body is taken as already parsed. JSON parsing, the socket,
    headers, the page template and static files stay outside: the index and
    static routes are answered by placeholders that name what would be
    rendered or read. */
module Server {
  import opened Wrappers
  import opened ItemStore
  import opened Routes

  /** The request body after `JSON.parse`. `Malformed`: parsing threw.
      `Null`: the body was the JSON literal `null`, so taking fields from it
      throws. `Fields`: any other JSON value, with the string fields `id` and
      `title` when present. */
  datatype Body = Malformed | Null | Fields(id: Option<string>, title: Option<string>)

  datatype Request = Request(verb: Method, url: string, body: Body)

  /** What a response carries: plain text, one item as JSON, or the JSON
      array of all items. */
  datatype Payload = Text(text: string) | OneItem(item: Item) | AllItems(items: seq<Item>)

  /** A response. `IndexPage` and `StaticFile` stand for the responses the
      page template and the file system would produce. */
  datatype Response =
    | Response(status: int, payload: Payload)
    | IndexPage(items: seq<Item>)
    | StaticFile(url: string)

  /** The store after the request and the response sent, or `Unspecified`
      when a parsed body lacks a field the handler stores: the handler then
      writes an undefined value, and what the store does with it is outside
      this model. */
  datatype Outcome = Outcome(store: Store, response: Response) | Unspecified

  const NotFoundReply := Response(404, Text("Not found"))
  const InvalidReply := Response(400, Text("Invalid request"))
  const ItemMissingReply := Response(404, Text("Item not found"))
  const CreatedReply := Response(201, Text("Item created"))
  const UpdatedReply := Response(200, Text("Item updated"))
  const DeletedReply := Response(200, Text("Item deleted"))

  /** GET `/items/<id>`: the item when its stored title is truthy (present
      and not empty), otherwise 404. */
  function GetItemReply(store: Store, id: string): (r: Response)
    ensures r.Response? && (r.status == 200 || r == ItemMissingReply)
    ensures r.status == 200 <==> id in store && store[id] != ""
    ensures r.status == 200 ==> r.payload == OneItem(Item(id, store[id]))
  {
    match Lookup(store, id)
    case Some(title) =>
      if title != "" then Response(200, OneItem(Item(id, title))) else ItemMissingReply
    case None => ItemMissingReply
  }

  /** POST `/items`: upsert the body's `id` and `title`. */
  function CreateReply(store: Store, body: Body): (o: Outcome)
    ensures (body.Malformed? || body.Null?) ==> o == Outcome(store, InvalidReply)
    ensures o.Unspecified? <==> body.Fields? && (body.id.None? || body.title.None?)
    ensures body.Fields? && body.id.Some? && body.title.Some? ==>
      && o.Outcome?
      && o.response == CreatedReply
      && Lookup(o.store, body.id.value) == Some(body.title.value)
      && forall k :: k != body.id.value ==> Lookup(o.store, k) == Lookup(store, k)
  {
    match body
    case Malformed => Outcome(store, InvalidReply)
    case Null => Outcome(store, InvalidReply)
    case Fields(Some(id), Some(title)) => Outcome(Upsert(store, id, title), CreatedReply)
    case Fields(_, _) => Unspecified
  }

  /** PUT `/items/<id>`: upsert the body's `title` under the id from the
      URL; a body `id` is ignored. */
  function UpdateReply(store: Store, id: string, body: Body): (o: Outcome)
    ensures (body.Malformed? || body.Null?) ==> o == Outcome(store, InvalidReply)
    ensures o.Unspecified? <==> body.Fields? && body.title.None?
    ensures body.Fields? && body.title.Some? ==>
      && o.Outcome?
      && o.response == UpdatedReply
      && Lookup(o.store, id) == Some(body.title.value)
      && forall k :: k != id ==> Lookup(o.store, k) == Lookup(store, k)
  {
    match body
    case Malformed => Outcome(store, InvalidReply)
    case Null => Outcome(store, InvalidReply)
    case Fields(_, Some(title)) => Outcome(Upsert(store, id, title), UpdatedReply)
    case Fields(_, None) => Unspecified
  }

  /** One request: route it, run the handler, answer. */
  function Step(store: Store, req: Request): (o: Outcome)
    ensures o.Unspecified? ==>
      var r := Classify(req.verb, req.url); (r.CreateItem? || r.UpdateItem?) && req.body.Fields?
    ensures o.Outcome? && o.store != store ==>
      var r := Classify(req.verb, req.url); r.CreateItem? || r.UpdateItem? || r.DeleteItem?
    ensures Classify(req.verb, req.url) in {NotFound, ItemsFallback} ==> o == Outcome(store, NotFoundReply)
  {
    match Classify(req.verb, req.url)
    case Index => Outcome(store, IndexPage(ListAll(store)))
    case ListItems => Outcome(store, Response(200, AllItems(ListAll(store))))
    case GetItem(id) => Outcome(store, GetItemReply(store, id))
    case CreateItem => CreateReply(store, req.body)
    case UpdateItem(id) => UpdateReply(store, id, req.body)
    case DeleteItem(id) => Outcome(Remove(store, id), DeletedReply)
    case ItemsFallback => Outcome(store, NotFoundReply)
    case Static(url) => Outcome(store, StaticFile(url))
    case NotFound => Outcome(store, NotFoundReply)
  }

  /** Exact `GET /` selects the index page, rendered from every stored item;
      the store is unchanged. */
  lemma IndexRoute(store: Store, body: Body)
    ensures Step(store, Request(Get, IndexPath, body)) == Outcome(store, IndexPage(ListAll(store)))
  {
  }

  /** Only create, update and delete change the store; every other request
      leaves it as it was. */
  lemma OnlyWritesChangeStore(store: Store, req: Request)
    requires var r := Classify(req.verb, req.url); !(r.CreateItem? || r.UpdateItem? || r.DeleteItem?)
    ensures Step(store, req).Outcome? && Step(store, req).store == store
  {
  }

  /** Any URL that is not `/`, does not start with `/items` and does not
      start with `/static/` answers 404 "Not found" and changes nothing. */
  lemma UnknownUrlNotFound(store: Store, req: Request)
    requires !(req.verb == Get && req.url == IndexPath)
    requires !(ItemsPath <= req.url) && !(StaticPrefix <= req.url)
    ensures Step(store, req) == Outcome(store, NotFoundReply)
  {
  }

  /** Inside the `/items` branch, a method and URL that no item handler takes
      answer 404 "Not found" and change nothing: for example `DELETE /items`,
      `POST /items/x`, `/itemsX` and `/items/a/b`. */
  lemma ItemsBranchFallback(store: Store, req: Request)
    requires ItemsPath <= req.url
    requires !(req.verb in {Get, Post} && req.url == ItemsPath)
    requires !(req.verb in {Get, Put, Delete} && IsItemPath(req.url))
    ensures Step(store, req) == Outcome(store, NotFoundReply)
  {
  }

  /** `GET /items` lists every stored pair exactly once, ids ascending, and
      changes nothing. */
  lemma ListItemsReturnsAll(store: Store, body: Body)
    ensures var o := Step(store, Request(Get, ItemsPath, body));
      && o.Outcome? && o.store == store
      && o.response.Response? && o.response.status == 200 && o.response.payload.AllItems?
      && var items := o.response.payload.items;
      && |items| == |store|
      && (forall k :: k in store ==> Item(k, store[k]) in items)
      && (forall i :: 0 <= i < |items| ==> items[i].id in store && store[items[i].id] == items[i].title)
      && (forall i, j :: 0 <= i < |items| && 0 <= j < |items| && i != j ==> items[i].id != items[j].id)
  {
  }

  /** A body that does not parse, or parses to `null`, makes POST and PUT
      answer 400 "Invalid request" and change nothing. */
  lemma BadBodyRejected(store: Store, req: Request)
    requires var r := Classify(req.verb, req.url); r.CreateItem? || r.UpdateItem?
    requires req.body.Malformed? || req.body.Null?
    ensures Step(store, req) == Outcome(store, InvalidReply)
  {
  }

  /** POST `/items` with an id and a title answers 201 and stores the pair;
      every other key keeps its title. Afterwards `GET /items/<id>` returns
      the pair when the id is a well-formed segment and the title is not
      empty. */
  lemma CreateThenGet(store: Store, id: string, title: string, getBody: Body)
    requires IsIdSegment(id) && title != ""
    ensures var o := Step(store, Request(Post, ItemsPath, Fields(Some(id), Some(title))));
      && o.Outcome? && o.response == CreatedReply
      && Lookup(o.store, id) == Some(title)
      && (forall k :: k != id ==> Lookup(o.store, k) == Lookup(store, k))
      && Step(o.store, Request(Get, ItemPrefix + id, getBody)) ==
         Outcome(o.store, Response(200, OneItem(Item(id, title))))
  {
  }

  /** An id that is not a valid segment can be stored by POST, but GET, PUT
      and DELETE on `/items/<id>` all answer the branch's 404 "Not found" and
      leave the store as it is. */
  lemma NonSegmentIdUnaddressable(store: Store, m: Method, id: string, body: Body)
    requires !IsIdSegment(id)
    ensures Step(store, Request(m, ItemPrefix + id, body)) == Outcome(store, NotFoundReply)
  {
    assert (ItemPrefix + id)[|ItemPrefix|..] == id;
  }

  /** Create and update are the same upsert: POST `/items` with an id and a
      title leaves the same store as PUT `/items/<id>` with that title. */
  lemma CreateAndUpdateAgree(store: Store, id: string, title: string, bodyId: Option<string>)
    requires IsIdSegment(id)
    ensures Step(store, Request(Post, ItemsPath, Fields(Some(id), Some(title)))).store ==
            Step(store, Request(Put, ItemPrefix + id, Fields(bodyId, Some(title)))).store
  {
  }

  /** PUT `/items/<id>` with a title answers 200 "Item updated" whether or
      not the id existed, stores the title under the id from the URL, keeps
      every other key, and a later GET sees the new title. */
  lemma UpdateThenGet(store: Store, id: string, bodyId: Option<string>, title: string, getBody: Body)
    requires IsIdSegment(id) && title != ""
    ensures var o := Step(store, Request(Put, ItemPrefix + id, Fields(bodyId, Some(title))));
      && o.Outcome? && o.response == UpdatedReply
      && Lookup(o.store, id) == Some(title)
      && (forall k :: k != id ==> Lookup(o.store, k) == Lookup(store, k))
      && Step(o.store, Request(Get, ItemPrefix + id, getBody)) ==
         Outcome(o.store, Response(200, OneItem(Item(id, title))))
  {
  }

  /** DELETE `/items/<id>` always answers 200 "Item deleted"; afterwards the
      id is absent and every other key is unchanged. Sending it again gives
      the same store and the same response, and a GET answers 404. */
  lemma DeleteIdempotent(store: Store, id: string, body: Body, body': Body, getBody: Body)
    requires IsIdSegment(id)
    ensures var o := Step(store, Request(Delete, ItemPrefix + id, body));
      && o == Outcome(o.store, DeletedReply)
      && Lookup(o.store, id) == None
      && (forall k :: k != id ==> Lookup(o.store, k) == Lookup(store, k))
      && Step(o.store, Request(Delete, ItemPrefix + id, body')) == o
      && Step(o.store, Request(Get, ItemPrefix + id, getBody)) == Outcome(o.store, ItemMissingReply)
  {
  }

  /** An id stored with the empty title reads as missing: GET answers 404
      "Item not found", exactly as for an id never stored. */
  lemma EmptyTitleReadsAsMissing(store: Store, id: string, body: Body)
    requires IsIdSegment(id)
    requires Lookup(store, id) in {None, Some("")}
    ensures Step(store, Request(Get, ItemPrefix + id, body)) == Outcome(store, ItemMissingReply)
  {
  }

  /** The create / read / update / delete walk-through on item "42":
      201, then the item, then 200 "Item updated", then the new title, then
      200 "Item deleted", then 404. */
  lemma LifecycleOfOneItem(store: Store)
    ensures
      var none := Malformed;
      var s1 := Step(store, Request(Post, ItemsPath, Fields(Some("42"), Some("Answer"))));
      && s1.Outcome? && s1.response == CreatedReply
      && Step(s1.store, Request(Get, "/items/42", none)).response == Response(200, OneItem(Item("42", "Answer")))
      && var s2 := Step(s1.store, Request(Put, "/items/42", Fields(None, Some("New Answer"))));
      && s2.Outcome? && s2.response == UpdatedReply
      && Step(s2.store, Request(Get, "/items/42", none)).response == Response(200, OneItem(Item("42", "New Answer")))
      && var s3 := Step(s2.store, Request(Delete, "/items/42", none));
      && s3.Outcome? && s3.response == DeletedReply
      && Step(s3.store, Request(Get, "/items/42", none)).response == ItemMissingReply
  {
  }
}
