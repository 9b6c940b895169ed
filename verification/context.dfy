/** The per-request context (`struct Ctx`) as `Apis::Test` sets it up: the url, the url
    with its query removed, the body, the rest cursor, and the two parsed tables. */
module Context {
  import opened Text
  import opened RestCursor
  import opened ParamParser

  datatype Ctx = Ctx(
    url: string,
    path: string,
    body: string,
    cursor: Cursor,
    urlParams: Params,
    contentParams: Params)

  /** The context built for a request before route lookup; parsing is eager. */
  function MakeCtx(url: string, body: string): (ctx: Ctx)
    ensures ctx.url == url && ctx.body == body && ctx.cursor == At(0)
    ensures '?' !in ctx.path
    ensures '?' in url ==> url == ctx.path + "?" + QueryString(url)
    ensures '?' !in url ==> ctx.path == url
    ensures forall k :: k in ctx.urlParams <==> LastValue(Split(QueryString(url), '&'), k).Some?
    ensures forall k :: k in ctx.contentParams <==> LastValue(Split(body, '&'), k).Some?
    ensures forall k :: k in ctx.urlParams ==> ctx.urlParams[k] == LastValue(Split(QueryString(url), '&'), k).value
    ensures forall k :: k in ctx.contentParams ==> ctx.contentParams[k] == LastValue(Split(body, '&'), k).value
  {
    UrlSplitsAtFirstQuery(url);
    Ctx(url, PathPart(url), body, At(0), ParseUrlParams(url), ParseContentParams(body))
  }
}
