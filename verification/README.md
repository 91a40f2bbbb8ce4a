# Item CRUD server: routing and store model

A Dafny model of the request handling in `app.ts`, a small HTTP server that
keeps "items" (an id and a title) in an embedded ordered key-value store and
exposes them under `/items`, alongside an HTML index page and a `/static/`
file route.

The model is a pure step function: `Server.Step(store, request)` takes the
store, a map from item id to title, and a request (method, URL and an
already-parsed body). It returns the store afterwards and the response. It has
three parts:

- `Routes` — the route classifier. It follows the source's `if` chain in
  order: exact `GET /`, then the `/items` prefix, then the `/static/` prefix,
  then 404. It also holds the anchored id matcher `^/items/([a-zA-Z0-9_-]+)$`,
  written as a character-class predicate with a recursive scanner.
- `ItemStore` — the `Database` wrapper as map operations: lookup, upsert
  (create and update both call the same `put`), remove, and a full
  enumeration in ascending key order (`KeyOrder` defines that order and
  proves it total).
- `Server` — the item handlers. Each one gives a status, a payload and an
  effect on the store. The lemmas cover the post-state and the response of
  every handler and of sequences of requests.

The request body is abstract. It is `Malformed` when `JSON.parse` throws,
`Null` when the body is the JSON literal `null`, and otherwise `Fields` with
optional string `id` and `title`. A `null` body deserves its own case: taking
fields from `null` throws inside the handler's `try`, so it answers 400 just
as a syntax error does.

Three facts about `app.ts` shape the model:

- `POST /items` does not check that the body has both fields
  (app.ts:124-125). It stores whatever destructuring produced, which may be
  `undefined`. The model reports a missing field as `Unspecified`.
- The `/static/` branch does not test the method (app.ts:153), so
  `Routes.Classify` sends every method on a `/static/` URL there.
- `Routes.GuardsDisjoint` proves that the three top-level guards are
  mutually exclusive, and so are the five guards inside `/items`. The order
  of the `if` chain therefore never decides a route.

## Model

| member | source | states |
|---|---|---|
| `ItemStore.Lookup` | app.ts:31-33 | A point lookup finds a title exactly when the id is stored, and then finds the stored title; absence is an ordinary answer |
| `ItemStore.Upsert` | app.ts:35-41 | Create and update are one upsert: afterwards the id holds the new title, every other key holds what it held before, and the key set gains the id |
| `ItemStore.Remove` | app.ts:43-45 | Delete leaves the id absent and every other key unchanged; on an absent id the store is unchanged |
| `ItemStore.ListAll` | app.ts:23-29 | The enumeration has one entry per stored key, each entry is a stored (id, title) pair, every stored pair appears, and ids are strictly ascending in key order |
| `ItemStore.ListAllDistinct` | app.ts:23-29 | No id appears twice in the enumeration, so each pair is listed exactly once |
| `ItemStore.UpsertIdempotent` | app.ts:35-41 | Writing the same (id, title) twice leaves the same store as writing it once |
| `ItemStore.RemoveIdempotent` | app.ts:43-45 | Removing an id twice leaves the same store as removing it once |
| `KeyOrder.Least` | app.ts:25 | The key the enumeration yields first is in the set and sorts strictly before every other key of the set |
| `KeyOrder.LeastExists` | app.ts:25 | Every finite non-empty key set has a least key, so the ascending enumeration is well defined |
| `Routes.ScanIdChars` | app.ts:103 | The character scan of the `[a-zA-Z0-9_-]+` group succeeds exactly when every character is a letter, digit, underscore or hyphen |
| `Routes.MatchItemId` | app.ts:103 | The anchored match succeeds exactly when the URL is `/items/` followed by a non-empty run of id characters and nothing else, and the captured id is that run |
| `Routes.MatchItemIdExactly` | app.ts:103 | For every string `s`, matching `/items/` + `s` captures `s` when `s` is a valid id segment and fails otherwise |
| `Routes.MatchRejectsSeparators` | app.ts:103-111 | A captured id is non-empty and contains neither `/` nor `?`, so `/items/`, `/items/a/b` and `/items/a?x=1` reach no id handler |
| `Routes.Classify` | app.ts:72-167 | Exact `GET /` is the index; any URL starting with `/items` is in the item branch; `/static/` URLs are static; all else is 404. Inside `/items`: GET and POST on exactly `/items` list and create, GET/PUT/DELETE on a matched id read, update and delete that id, and everything else is the branch's 404 |
| `Routes.GuardsDisjoint` | app.ts:72-153 | No URL satisfies two of the top-level guards at once, and `/items` itself never matches the id pattern, so the order of the `if` chain never decides a route |
| `Routes.ClassifyItemUrl` | app.ts:103-152 | On `/items/<id>` with a valid id, GET, PUT and DELETE reach that id's handler, and POST or any other method reaches the branch's 404 |
| `Server.GetItemReply` | app.ts:109-119 | GET on an id answers 200 with `{id, title}` exactly when the id is stored with a non-empty (truthy) title, and 404 "Item not found" otherwise |
| `Server.CreateReply` | app.ts:120-131 | POST answers 400 "Invalid request" and keeps the store when the body fails to parse or is `null`; with both fields it answers 201 "Item created" and upserts the pair; it is unspecified exactly when a parsed body lacks a field |
| `Server.UpdateReply` | app.ts:132-143 | PUT answers 400 and keeps the store on a bad body; with a title it answers 200 "Item updated" and upserts under the URL's id whether or not the id existed, leaving other keys alone |
| `Server.Step` | app.ts:68-167 | A request changes the store only on the create, update or delete routes; the result is unspecified only on create or update with a parsed body; the two 404 routes answer "Not found" with the store unchanged |
| `Server.IndexRoute` | app.ts:72-82 | Exact `GET /` selects the index page, built from every stored item, with the store unchanged |
| `Server.OnlyWritesChangeStore` | app.ts:102-167 | Every request whose route is not create, update or delete has a defined outcome and leaves the store as it was |
| `Server.UnknownUrlNotFound` | app.ts:164-167 | A request that is not `GET /` and whose URL starts with neither `/items` nor `/static/` answers 404 "Not found" and changes nothing |
| `Server.ItemsBranchFallback` | app.ts:149-152 | Inside `/items`, a request that is neither GET/POST on exactly `/items` nor GET/PUT/DELETE on a matched id answers 404 "Not found" and changes nothing |
| `Server.ListItemsReturnsAll` | app.ts:104-108 | `GET /items` answers 200 with every stored pair exactly once, as id and title, and does not change the store |
| `Server.BadBodyRejected` | app.ts:120-143 | On the create and update routes, a body that does not parse, or parses to `null`, answers 400 "Invalid request" with the store unchanged |
| `Server.CreateThenGet` | app.ts:120-127 | After a POST whose id is a valid id segment and whose title is non-empty (201 "Item created"), the id holds the title, other keys are unchanged, and GET on `/items/<id>` returns exactly that pair |
| `Routes.IdHandlersTakeSegments` | app.ts:103-148 | The GET, PUT and DELETE handlers of an id are only ever reached with an id that is a valid segment |
| `Server.NonSegmentIdUnaddressable` | app.ts:103-151 | For an id that is not a valid segment (stored by POST, which does not check the id), every method on `/items/<id>` answers 404 "Not found" and changes nothing, so such an item can be listed but never read, updated or deleted by URL |
| `Server.CreateAndUpdateAgree` | app.ts:120-139 | POST `/items` with an id and a title and PUT `/items/<id>` with that title leave the same store: both handlers perform the same upsert |
| `Server.UpdateThenGet` | app.ts:132-139 | After a PUT with a non-empty title on a valid id segment (200 "Item updated"), the URL's id holds the new title, other keys are unchanged, and GET on the id returns the new title |
| `Server.DeleteIdempotent` | app.ts:144-148 | DELETE answers 200 "Item deleted"; afterwards the id is absent and other keys unchanged; a second DELETE gives the same store and response; a GET then answers 404 |
| `Server.EmptyTitleReadsAsMissing` | app.ts:112-119 | An id stored with the empty title answers 404 "Item not found", just like an id that was never stored |
| `Server.LifecycleOfOneItem` | app.ts:102-152 | Create item "42", read it, update its title, read the new title, delete it, and read 404, in that order |

## Left out

- The HTTP server, sockets, `server.listen`, response headers and the asynchronous event loop are not modelled. Requests are handled one at a time, so concurrent last-write-wins races do not arise.
- The embedded store itself is not modelled: opening it, JSON value encoding, durability, and any errors it raises. The store is an ideal map. A store error on create or update would be caught and answered with 400 (app.ts:122-131, 134-143). Any store error on get, list or delete is unhandled (app.ts:106, 112, 147): it escapes the request callback.
- KeyOrder.Below: the store's native key order is assumed to be code-point lexicographic order. For string keys this matches the store's byte order.
- Server.CreateReply: what the store does with `put(id, undefined)` when a parsed POST body lacks `id` or `title` is not modelled. The outcome is `Unspecified`.
- Server.UpdateReply: what the store does with `put(id, undefined)` when a parsed PUT body lacks `title` is not modelled. The outcome is `Unspecified`.
- Body fields holding JSON values other than strings are not modelled, for example a numeric `id`. Such a value would be used as a different store key or stored as a non-string title.
- Reading the request stream, joining the chunks and `JSON.parse` are not modelled. Only the parse result is an input.
- Rendering the index page is not modelled: reading `index.html`, the 500 answer when that read fails, and the DOM edits. The model only selects the index route and passes it the item list.
- Static file serving is not modelled: `path.join` normalisation, the file read, and the 404 "File not found" answer. The model only classifies the route and names the URL.
- Creating the data directory at startup is not modelled, and neither is the unused local `id` in the PUT handler.
- An absent request URL is not modelled. The URL is always a string. The empty string reaches the final 404, as an absent URL would.
