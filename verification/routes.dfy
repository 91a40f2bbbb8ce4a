/** Route selection: which handler a request method and URL reach.

    The request handler tests, in order, the exact index page `GET /`, the
    `/items` prefix, the `/static/` prefix, and otherwise answers 404. Inside
    the `/items` branch the URL is matched against the anchored pattern
    `^/items/([a-zA-Z0-9_-]+)$`, written here as a character-class predicate,
    and the method and URL pick one of five item handlers or a 404. */
module Routes {
  import opened Wrappers

  /** The request methods the handler tests for; `Other` is any other token. */
  datatype Method = Get | Post | Put | Delete | Other

  /** The handler a request reaches. `ItemsFallback` is the 404 answered
      inside the `/items` branch; `NotFound` is the final 404. */
  datatype Route =
    | Index
    | ListItems
    | GetItem(id: string)
    | CreateItem
    | UpdateItem(id: string)
    | DeleteItem(id: string)
    | ItemsFallback
    | Static(url: string)
    | NotFound
  {
    /** The route is one of the handlers of the `/items` branch. */
    predicate InItemsBranch() {
      ListItems? || GetItem? || CreateItem? || UpdateItem? || DeleteItem? || ItemsFallback?
    }
  }

  const IndexPath := "/"
  const ItemsPath := "/items"
  const ItemPrefix := "/items/"
  const StaticPrefix := "/static/"

  /** One character of the class `[a-zA-Z0-9_-]`. */
  predicate IdChar(c: char) {
    ('a' <= c <= 'z') || ('A' <= c <= 'Z') || ('0' <= c <= '9') || c == '_' || c == '-'
  }

  /** A whole id segment: one or more characters of the class. */
  predicate IsIdSegment(s: string) {
    |s| > 0 && forall i :: 0 <= i < |s| ==> IdChar(s[i])
  }

  /** The URL is `/items/` followed by an id segment and nothing else. */
  predicate IsItemPath(url: string) {
    ItemPrefix <= url && IsIdSegment(url[|ItemPrefix|..])
  }

  /** Scans `s` character by character, as the `[...]+$` part of the pattern
      does, answering whether every character is in the id class. */
  function ScanIdChars(s: string): (ok: bool)
    ensures ok <==> forall i :: 0 <= i < |s| ==> IdChar(s[i])
  {
    if |s| == 0 then true
    else if !IdChar(s[0]) then false
    else
      var ok := ScanIdChars(s[1..]);
      assert forall i :: 1 <= i < |s| ==> s[i] == s[1..][i - 1];
      ok
  }

  /** The anchored match `^/items/([a-zA-Z0-9_-]+)$`: the captured id, or
      nothing when the URL does not match. */
  function MatchItemId(url: string): (m: Option<string>)
    ensures m.Some? <==> IsItemPath(url)
    ensures m.Some? ==> url == ItemPrefix + m.value
  {
    if ItemPrefix <= url && |url| > |ItemPrefix| && ScanIdChars(url[|ItemPrefix|..]) then
      assert url == ItemPrefix + url[|ItemPrefix|..];
      Some(url[|ItemPrefix|..])
    else None
  }

  /** The matcher accepts `/items/<s>` exactly when `s` is an id segment, and
      then captures `s` itself. */
  lemma MatchItemIdExactly(s: string)
    ensures MatchItemId(ItemPrefix + s) == (if IsIdSegment(s) then Some(s) else None)
  {
  }

  /** A captured id never contains a path separator or a query mark, so
      `/items/`, `/items/a/b` and `/items/a?x=1` do not match. */
  lemma MatchRejectsSeparators(url: string)
    requires MatchItemId(url).Some?
    ensures '/' !in MatchItemId(url).value && '?' !in MatchItemId(url).value
    ensures |MatchItemId(url).value| > 0
  {
  }

  /** The request handler's if-chain, in the source's priority order. */
  function Classify(m: Method, url: string): (r: Route)
    ensures r == Index <==> m == Get && url == IndexPath
    ensures r.InItemsBranch() <==> ItemsPath <= url
    ensures r.Static? <==> StaticPrefix <= url
    ensures r.Static? ==> r.url == url
    ensures r == NotFound <==> !(m == Get && url == IndexPath) && !(ItemsPath <= url) && !(StaticPrefix <= url)
    ensures r == ListItems <==> m == Get && url == ItemsPath
    ensures r == CreateItem <==> m == Post && url == ItemsPath
    ensures r.GetItem? <==> m == Get && IsItemPath(url)
    ensures r.UpdateItem? <==> m == Put && IsItemPath(url)
    ensures r.DeleteItem? <==> m == Delete && IsItemPath(url)
    ensures (r.GetItem? || r.UpdateItem? || r.DeleteItem?) ==> url == ItemPrefix + r.id
    ensures r == ItemsFallback <==>
      && ItemsPath <= url
      && !(m in {Get, Post} && url == ItemsPath)
      && !(m in {Get, Put, Delete} && IsItemPath(url))
  {
    GuardsDisjoint(m, url);
    if m == Get && url == IndexPath then Index
    else if |url| > 0 && ItemsPath <= url then
      var idMatch := MatchItemId(url);
      if m == Get && url == ItemsPath then ListItems
      else if m == Get && idMatch.Some? then GetItem(idMatch.value)
      else if m == Post && url == ItemsPath then CreateItem
      else if m == Put && idMatch.Some? then UpdateItem(idMatch.value)
      else if m == Delete && idMatch.Some? then DeleteItem(idMatch.value)
      else ItemsFallback
    else if |url| > 0 && StaticPrefix <= url then Static(url)
    else NotFound
  }

  /** The three top-level guards never hold together, and neither do the five
      guards of the `/items` branch: the order in which the handler tries them
      decides nothing. */
  lemma GuardsDisjoint(m: Method, url: string)
    ensures !(m == Get && url == IndexPath && ItemsPath <= url)
    ensures !(m == Get && url == IndexPath && StaticPrefix <= url)
    ensures !(ItemsPath <= url && StaticPrefix <= url)
    ensures !(url == ItemsPath && IsItemPath(url))
  {
    if ItemsPath <= url {
      assert url[1] == ItemsPath[1] == 'i';
    }
  }

  /** On `/items/<id>` with a well-formed id, GET, PUT and DELETE reach the
      handler for that id, and every other method (POST included) reaches the
      `/items` 404. */
  lemma ClassifyItemUrl(m: Method, id: string)
    requires IsIdSegment(id)
    ensures Classify(m, ItemPrefix + id) ==
      match m
      case Get => GetItem(id)
      case Put => UpdateItem(id)
      case Delete => DeleteItem(id)
      case _ => ItemsFallback
  {
  }

  /** Only a valid id segment ever reaches the GET, PUT or DELETE handler of
      an id: an item stored under any other id (say `a.b` or `a/b`) can be
      listed but never read, updated or deleted by its URL. */
  lemma IdHandlersTakeSegments(m: Method, url: string)
    ensures var r := Classify(m, url);
      (r.GetItem? || r.UpdateItem? || r.DeleteItem?) ==> IsIdSegment(r.id)
  {
    var r := Classify(m, url);
    if r.GetItem? || r.UpdateItem? || r.DeleteItem? {
      assert url[|ItemPrefix|..] == r.id;
    }
  }
}
